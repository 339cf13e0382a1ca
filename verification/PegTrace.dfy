/** What matching tries and where it fails, over the semantics alone: from this follow the
    diagnostics of a failed parse and the work and depth limits. */
module PegTrace {
  import opened Options
  import opened Utf8
  import opened PegGrammar
  import opened PegSemantics

  const DEPTH_LIMIT: nat := 512
  const WORK_LIMIT: nat := 1_000_000

  /** What a message says was expected; different values have different texts. */
  datatype Expectation =
    | Literally(text: string, insensitive: bool)
    | OneOf(ranges: seq<(char, char)>, negated: bool)
    | AnyCharacter
    | Lookahead(positive: bool)
    | EndOfInput
    | KnownRule(unknown: string)
    | RecursionLimit
    | WorkLimit
    | NodeCheck(text: string)

  datatype ParseError = ParseError(offset: nat, expected: seq<Expectation>)

  /** An expression or a rule is tried at a character, inside `depth` others; or a terminal or
      a predicate fails there, silently inside a lookahead. */
  datatype Event =
    | Tried(at: nat, depth: nat)
    | Entered(at: nat, depth: nat)
    | Missed(at: nat, what: Expectation, quiet: bool)

  type Trace = seq<Event>

  predicate InRange(s: string, t: Trace) {
    forall k | 0 <= k < |t| :: t[k].at <= |s|
  }

  // ---------- the events of a match ----------

  function Attempt(g: Grammar, e: Expr, s: string, i: nat, h: nat, d: nat, quiet: bool): (t: Trace)
    requires i <= |s|
    ensures InRange(s, t)
    decreases h, 2
  {
    if h == 0 then [] else [Tried(i, d)] + Inside(g, e, s, i, h, d + 1, quiet)
  }

  function Inside(g: Grammar, e: Expr, s: string, i: nat, h: nat, d: nat, quiet: bool): (t: Trace)
    requires i <= |s| && h > 0
    ensures InRange(s, t)
    decreases h, 1
  {
    match e
    case Ref(n) => if n in g.names then AttemptRule(g, g.names[n], s, i, h - 1, d, quiet) else []
    case Lit(t, ins) => Miss(Eval(g, e, s, i, h), i, Literally(t, ins), quiet)
    case Class(rs, neg) => Miss(Eval(g, e, s, i, h), i, OneOf(rs, neg), quiet)
    case Any => Miss(Eval(g, e, s, i, h), i, AnyCharacter, quiet)
    case Sequence(es) => AttemptSequence(g, es, s, i, h - 1, d, quiet)
    case Choice(es) => AttemptChoice(g, es, s, i, h - 1, d, quiet)
    case Optional(inner) => Attempt(g, inner, s, i, h - 1, d, quiet)
    case Repeat(inner, one) => AttemptStar(g, inner, s, i, if one then h else h - 1, d, quiet)
    case Predicate(inner, positive) =>
      Attempt(g, inner, s, i, h - 1, d, true) + Miss(Eval(g, e, s, i, h), i, Lookahead(positive), quiet)
  }

  function Miss(r: Option<Outcome>, i: nat, what: Expectation, quiet: bool): (t: Trace) {
    if r == Some(Fail) then [Missed(i, what, quiet)] else []
  }

  function AttemptSequence(g: Grammar, es: seq<Expr>, s: string, i: nat, h: nat, d: nat, quiet: bool): (t: Trace)
    requires i <= |s|
    ensures InRange(s, t)
    decreases h, 0
  {
    if es == [] || h == 0 then []
    else Attempt(g, es[0], s, i, h - 1, d, quiet) +
         (match Eval(g, es[0], s, i, h - 1)
          case Some(Match(j, _)) => AttemptSequence(g, es[1..], s, j, h - 1, d, quiet)
          case _ => [])
  }

  function AttemptChoice(g: Grammar, es: seq<Expr>, s: string, i: nat, h: nat, d: nat, quiet: bool): (t: Trace)
    requires i <= |s|
    ensures InRange(s, t)
    decreases h, 0
  {
    if es == [] || h == 0 then []
    else Attempt(g, es[0], s, i, h - 1, d, quiet) +
         (if Eval(g, es[0], s, i, h - 1) == Some(Fail) then AttemptChoice(g, es[1..], s, i, h - 1, d, quiet) else [])
  }

  function AttemptStar(g: Grammar, e: Expr, s: string, i: nat, h: nat, d: nat, quiet: bool): (t: Trace)
    requires i <= |s|
    ensures InRange(s, t)
    decreases h, 0
  {
    if h == 0 then []
    else Attempt(g, e, s, i, h - 1, d, quiet) +
         (match Eval(g, e, s, i, h - 1)
          case Some(Match(j, _)) => AttemptStar(g, e, s, j, h - 1, d, quiet)
          case _ => [])
  }

  function AttemptRule(g: Grammar, k: nat, s: string, i: nat, h: nat, d: nat, quiet: bool): (t: Trace)
    requires i <= |s|
    ensures InRange(s, t)
    decreases h, 0
  {
    if h == 0 || k >= |g.rules| then [] else [Entered(i, d)] + Attempt(g, g.rules[k].expr, s, i, h - 1, d + 1, quiet)
  }

  // ---------- diagnostics ----------

  /** A failure outside any lookahead: its byte offset and what was expected there. */
  datatype Note = Note(offset: nat, what: Expectation)

  function Notes(s: string, t: Trace): (ns: seq<Note>)
    requires InRange(s, t)
  {
    if t == [] then []
    else
      var n := |t| - 1;
      assert forall k | 0 <= k < n :: t[..n][k] == t[k];
      Notes(s, t[..n]) +
      (if t[n].Missed? && !t[n].quiet then [Note(Offset(s, t[n].at), t[n].what)] else [])
  }

  /** Where the sequence first has the note. */
  function First(ns: seq<Note>, x: Note): (k: nat)
    ensures k <= |ns| && (k < |ns| <==> x in ns)
  {
    if ns == [] then 0 else if ns[0] == x then 0 else 1 + First(ns[1..], x)
  }

  /** The error names the furthest offset noted, and exactly what was expected there, each once
      and in the order of first mention. */
  ghost predicate IsFurthest(ns: seq<Note>, e: ParseError) {
    && (forall k | 0 <= k < |ns| :: ns[k].offset <= e.offset)
    && (ns == [] ==> e == ParseError(0, []))
    && (ns != [] ==> exists k | 0 <= k < |ns| :: ns[k].offset == e.offset)
    && (forall x :: x in e.expected <==> Note(e.offset, x) in ns)
    && (forall i, j | 0 <= i < j < |e.expected| ::
          First(ns, Note(e.offset, e.expected[i])) < First(ns, Note(e.offset, e.expected[j])))
  }

  lemma {:induction false} FirstAppend(ns: seq<Note>, n: Note, x: Note)
    ensures First(ns + [n], x) == if x in ns then First(ns, x) else if x == n then |ns| else |ns| + 1
  {
    if ns != [] {
      assert (ns + [n])[1..] == ns[1..] + [n];
      if ns[0] != x { FirstAppend(ns[1..], n, x); }
    }
  }

  /** The diagnostics after one more failure. */
  function Noted(e: ParseError, n: Note): (f: ParseError) {
    if n.offset < e.offset then e
    else if n.offset > e.offset then ParseError(n.offset, [n.what])
    else if n.what in e.expected then e
    else ParseError(e.offset, e.expected + [n.what])
  }

  lemma NotedFurthest(ns: seq<Note>, e: ParseError, n: Note)
    requires IsFurthest(ns, e)
    ensures IsFurthest(ns + [n], Noted(e, n))
  {
    var all, f := ns + [n], Noted(e, n);
    forall x ensures x in f.expected <==> Note(f.offset, x) in all {
      assert Note(f.offset, x) in all <==> Note(f.offset, x) in ns || Note(f.offset, x) == n;
    }
    forall i, j | 0 <= i < j < |f.expected|
      ensures First(all, Note(f.offset, f.expected[i])) < First(all, Note(f.offset, f.expected[j]))
    {
      FirstAppend(ns, n, Note(f.offset, f.expected[i]));
      FirstAppend(ns, n, Note(f.offset, f.expected[j]));
    }
    assert all[|ns|] == n;
    if f.offset == e.offset && ns != [] {
      var k :| 0 <= k < |ns| && ns[k].offset == e.offset;
      assert all[k].offset == f.offset;
    }
  }

  /** There is only one such error. */
  lemma FurthestUnique(ns: seq<Note>, e: ParseError, f: ParseError)
    requires IsFurthest(ns, e) && IsFurthest(ns, f)
    ensures e == f
  {
    assert e.offset == f.offset;
    SameOrder(ns, e.offset, e.expected, f.expected);
  }

  ghost predicate Ordered(ns: seq<Note>, offset: nat, xs: seq<Expectation>) {
    forall i, j | 0 <= i < j < |xs| :: First(ns, Note(offset, xs[i])) < First(ns, Note(offset, xs[j]))
  }

  lemma {:induction false} SameOrder(ns: seq<Note>, offset: nat, xs: seq<Expectation>, ys: seq<Expectation>)
    requires Ordered(ns, offset, xs) && Ordered(ns, offset, ys) && forall x :: x in xs <==> x in ys
    ensures xs == ys
  {
    if xs == [] {
      SomeMember(ys);
    } else {
      assert xs[0] in ys;
      var j :| 0 <= j < |ys| && ys[j] == xs[0];
      assert ys[0] in xs;
      var i :| 0 <= i < |xs| && xs[i] == ys[0];
      assert i == 0 && j == 0;
      forall x ensures x in xs[1..] <==> x in ys[1..] {
        if x in xs[1..] { OrderedOnce(ns, offset, xs, x); }
        if x in ys[1..] { OrderedOnce(ns, offset, ys, x); }
      }
      SameOrder(ns, offset, xs[1..], ys[1..]);
    }
  }

  lemma SomeMember(ys: seq<Expectation>)
    ensures ys != [] ==> exists y :: y in ys
  {
    if ys != [] { assert ys[0] in ys; }
  }

  lemma OrderedOnce(ns: seq<Note>, offset: nat, xs: seq<Expectation>, x: Expectation)
    requires Ordered(ns, offset, xs) && xs != [] && x in xs[1..]
    ensures x in xs && x != xs[0]
  {
    var k :| 0 <= k < |xs[1..]| && xs[1..][k] == x;
    assert xs[k + 1] == x;
  }

  // ---------- limits ----------

  /** How many expressions the first k events try. */
  function Tries(t: Trace, k: nat): (n: nat)
    requires k <= |t|
  {
    if k == 0 then 0 else Tries(t, k - 1) + if t[k - 1].Tried? then 1 else 0
  }

  /** Event k is the call that a limit forbids. */
  predicate Overruns(t: Trace, k: nat) {
    && k < |t| && !t[k].Missed?
    && (t[k].depth >= DEPTH_LIMIT || (t[k].Tried? && Tries(t, k) >= WORK_LIMIT))
  }

  /** No call before event n is forbidden. */
  predicate Within(t: Trace, n: nat) {
    forall k: nat | k < n :: !Overruns(t, k)
  }

  function LimitError(s: string, e: Event): (r: ParseError)
    requires !e.Missed? && e.at <= |s|
  {
    ParseError(Offset(s, e.at), [if e.depth >= DEPTH_LIMIT then RecursionLimit else WorkLimit])
  }

  lemma {:induction false} TriesPrefix(t: Trace, u: Trace, k: nat)
    requires t <= u && k <= |t|
    ensures Tries(t, k) == Tries(u, k)
  {
    if k > 0 { TriesPrefix(t, u, k - 1); }
  }

  lemma OverrunsPrefix(t: Trace, u: Trace, k: nat)
    requires t <= u && k < |t|
    ensures Overruns(t, k) <==> Overruns(u, k)
  {
    TriesPrefix(t, u, k);
  }

  /** What a matcher that has gone through the events t knows: the diagnostics so far and the
      calls left, or the record of the limit that the last event broke. */
  ghost predicate Recorded(s: string, t: Trace, e: ParseError, fuel: nat, limited: bool) {
    && InRange(s, t)
    && if limited then
         t != [] && Overruns(t, |t| - 1) && Within(t, |t| - 1) && e == LimitError(s, t[|t| - 1])
       else
         Within(t, |t|) && fuel + Tries(t, |t|) == WORK_LIMIT && IsFurthest(Notes(s, t), e)
  }

  lemma NothingRecorded(s: string)
    ensures Recorded(s, [], ParseError(0, []), WORK_LIMIT, false)
  {
  }

  lemma MoreNotes(s: string, t: Trace, v: Event)
    requires InRange(s, t) && v.at <= |s|
    ensures InRange(s, t + [v])
    ensures Notes(s, t + [v]) == Notes(s, t) + if v.Missed? && !v.quiet then [Note(Offset(s, v.at), v.what)] else []
  {
    hide Offset;
    assert (t + [v])[..|t|] == t;
  }

  lemma MoreTries(t: Trace, v: Event)
    ensures Tries(t + [v], |t| + 1) == Tries(t, |t|) + if v.Tried? then 1 else 0
    ensures Overruns(t + [v], |t|) <==>
              !v.Missed? && (v.depth >= DEPTH_LIMIT || (v.Tried? && Tries(t, |t|) >= WORK_LIMIT))
  {
    TriesPrefix(t, t + [v], |t|);
  }

  lemma StillWithin(t: Trace, v: Event)
    requires Within(t, |t|)
    ensures Within(t + [v], |t|) && (!Overruns(t + [v], |t|) ==> Within(t + [v], |t| + 1))
  {
    var u := t + [v];
    forall k: nat | k < |t| ensures !Overruns(u, k) {
      OverrunsPrefix(t, u, k);
      assert !Overruns(t, k);
    }
  }

  /** A call within the limits. */
  lemma RecordCall(s: string, t: Trace, e: ParseError, fuel: nat, v: Event)
    requires Recorded(s, t, e, fuel, false) && v.at <= |s| && !v.Missed? && v.depth < DEPTH_LIMIT
    requires v.Tried? ==> fuel > 0
    ensures Recorded(s, t + [v], e, if v.Tried? then fuel - 1 else fuel, false)
  {
    hide IsFurthest, Overruns, Within, Tries, Notes, Offset;
    MoreNotes(s, t, v);
    MoreTries(t, v);
    StillWithin(t, v);
    assert Notes(s, t) + [] == Notes(s, t);
  }

  lemma RecordLimit(s: string, t: Trace, e: ParseError, fuel: nat, v: Event)
    requires Recorded(s, t, e, fuel, false) && v.at <= |s| && !v.Missed?
    requires v.depth >= DEPTH_LIMIT || (v.Tried? && fuel == 0)
    ensures Recorded(s, t + [v], LimitError(s, v), fuel, true)
  {
    hide IsFurthest, Overruns, Within, Tries, Notes, Offset;
    MoreNotes(s, t, v);
    MoreTries(t, v);
    StillWithin(t, v);
    assert Notes(s, t) + [] == Notes(s, t);
  }

  lemma RecordMiss(s: string, t: Trace, e: ParseError, fuel: nat, i: nat, what: Expectation, quiet: bool)
    requires Recorded(s, t, e, fuel, false) && i <= |s|
    ensures Recorded(s, t + [Missed(i, what, quiet)], if quiet then e
              else Noted(e, Note(Offset(s, i), what)), fuel, false)
  {
    hide IsFurthest, Offset, Noted, Overruns, Within, Tries, Notes;
    var v := Missed(i, what, quiet);
    MoreNotes(s, t, v);
    MoreTries(t, v);
    StillWithin(t, v);
    assert Notes(s, t) + [] == Notes(s, t);
    if !quiet { NotedFurthest(Notes(s, t), e, Note(Offset(s, i), what)); }
  }

  // ---------- following the events of a match ----------

  /** `after` adds the events t to `before`, or some of them if a limit was hit. */
  predicate Follows(before: Trace, after: Trace, t: Trace, limited: bool) {
    if limited then before <= after <= before + t else after == before + t
  }

  lemma FollowsThen(a: Trace, b: Trace, c: Trace, t: Trace, u: Trace, limited: bool)
    requires Follows(a, b, t, false) && Follows(b, c, u, limited)
    ensures Follows(a, c, t + u, limited)
  {
    assert a + (t + u) == (a + t) + u;
  }

  lemma FollowsLimited(a: Trace, b: Trace, t: Trace, u: Trace)
    requires Follows(a, b, t, true)
    ensures Follows(a, b, t + u, true)
  {
    assert a + (t + u) == (a + t) + u;
  }

  lemma FollowsNothing(a: Trace, t: Trace)
    ensures Follows(a, a, t, true) && Follows(a, a, [], false) && t + [] == t
  {
    assert a + [] == a;
  }

  /** What the events of a match are relative to: grammar, input, depth, and lookahead. */
  datatype Where = Where(g: Grammar, s: string, depth: nat, quiet: bool)

  ghost predicate Tracks(w: Where, e: Expr, i: nat, a: Trace, b: Trace, limited: bool)
    requires i <= |w.s|
  {
    forall h: nat :: TracksAt(w, e, i, a, b, limited, h)
  }

  predicate TracksAt(w: Where, e: Expr, i: nat, a: Trace, b: Trace, limited: bool, h: nat)
    requires i <= |w.s|
  {
    Eval(w.g, e, w.s, i, h).Some? ==> Follows(a, b, Attempt(w.g, e, w.s, i, h, w.depth, w.quiet), limited)
  }

  ghost predicate TracksInside(w: Where, e: Expr, i: nat, a: Trace, b: Trace, limited: bool)
    requires i <= |w.s|
  {
    forall h: nat :: TracksInsideAt(w, e, i, a, b, limited, h)
  }

  predicate TracksInsideAt(w: Where, e: Expr, i: nat, a: Trace, b: Trace, limited: bool, h: nat)
    requires i <= |w.s|
  {
    h > 0 && Eval(w.g, e, w.s, i, h).Some? ==> Follows(a, b, Inside(w.g, e, w.s, i, h, w.depth, w.quiet), limited)
  }

  ghost predicate TracksSequence(w: Where, es: seq<Expr>, i: nat, a: Trace, b: Trace, limited: bool)
    requires i <= |w.s|
  {
    forall h: nat :: TracksSequenceAt(w, es, i, a, b, limited, h)
  }

  predicate TracksSequenceAt(w: Where, es: seq<Expr>, i: nat, a: Trace, b: Trace, limited: bool, h: nat)
    requires i <= |w.s|
  {
    EvalSequence(w.g, es, w.s, i, h).Some? ==>
      Follows(a, b, AttemptSequence(w.g, es, w.s, i, h, w.depth, w.quiet), limited)
  }

  ghost predicate TracksChoice(w: Where, es: seq<Expr>, i: nat, a: Trace, b: Trace, limited: bool)
    requires i <= |w.s|
  {
    forall h: nat :: TracksChoiceAt(w, es, i, a, b, limited, h)
  }

  predicate TracksChoiceAt(w: Where, es: seq<Expr>, i: nat, a: Trace, b: Trace, limited: bool, h: nat)
    requires i <= |w.s|
  {
    EvalChoice(w.g, es, w.s, i, h).Some? ==>
      Follows(a, b, AttemptChoice(w.g, es, w.s, i, h, w.depth, w.quiet), limited)
  }

  ghost predicate TracksRule(w: Where, k: nat, i: nat, a: Trace, b: Trace, limited: bool)
    requires i <= |w.s|
  {
    forall h: nat :: TracksRuleAt(w, k, i, a, b, limited, h)
  }

  predicate TracksRuleAt(w: Where, k: nat, i: nat, a: Trace, b: Trace, limited: bool, h: nat)
    requires i <= |w.s|
  {
    EvalRule(w.g, k, w.s, i, h).Some? ==>
      Follows(a, b, AttemptRule(w.g, k, w.s, i, h, w.depth, w.quiet), limited)
  }

  ghost predicate TracksStar(w: Where, e: Expr, i: nat, a: Trace, b: Trace, limited: bool)
    requires i <= |w.s|
  {
    forall h: nat :: TracksStarAt(w, e, i, a, b, limited, h)
  }

  predicate TracksStarAt(w: Where, e: Expr, i: nat, a: Trace, b: Trace, limited: bool, h: nat)
    requires i <= |w.s|
  {
    EvalStar(w.g, e, w.s, i, h).Some? ==>
      Follows(a, b, AttemptStar(w.g, e, w.s, i, h, w.depth, w.quiet), limited)
  }

  /** One level deeper. */
  function Deeper(w: Where): (v: Where) { w.(depth := w.depth + 1) }

  lemma ExpressionTracks(w: Where, e: Expr, i: nat, a: Trace, b: Trace, limited: bool)
    requires i <= |w.s| && TracksInside(Deeper(w), e, i, a + [Tried(i, w.depth)], b, limited)
    ensures Tracks(w, e, i, a, b, limited)
  {
    hide Inside, Eval;
    forall h: nat ensures TracksAt(w, e, i, a, b, limited, h) {
      if Eval(w.g, e, w.s, i, h).Some? {
        Explored(w.g, e, w.s, i, h);
        assert TracksInsideAt(Deeper(w), e, i, a + [Tried(i, w.depth)], b, limited, h);
        FollowsThen(a, a + [Tried(i, w.depth)], b, [Tried(i, w.depth)],
                    Inside(w.g, e, w.s, i, h, w.depth + 1, w.quiet), limited);
      }
    }
  }

  lemma Explored(g: Grammar, e: Expr, s: string, i: nat, h: nat)
    requires i <= |s| && Eval(g, e, s, i, h).Some?
    ensures h > 0
  {
  }

  /** A call that a limit refuses, or that comes after one. */
  lemma NothingTried(w: Where, e: Expr, i: nat, a: Trace)
    requires i <= |w.s|
    ensures Tracks(w, e, i, a, a, true) && Tracks(w, e, i, a, a + [Tried(i, w.depth)], true)
  {
    hide Inside, Eval;
    var b := a + [Tried(i, w.depth)];
    forall h: nat ensures TracksAt(w, e, i, a, a, true, h) && TracksAt(w, e, i, a, b, true, h) {
      if Eval(w.g, e, w.s, i, h).Some? {
        Explored(w.g, e, w.s, i, h);
        var t := Inside(w.g, e, w.s, i, h, w.depth + 1, w.quiet);
        assert a + ([Tried(i, w.depth)] + t) == b + t;
      }
    }
  }

  lemma RuleTracks(w: Where, k: nat, i: nat, a: Trace, b: Trace, limited: bool)
    requires i <= |w.s| && k < |w.g.rules| &&
               Tracks(Deeper(w), w.g.rules[k].expr, i, a + [Entered(i, w.depth)], b, limited)
    ensures TracksRule(w, k, i, a, b, limited)
  {
    hide Attempt, Eval;
    var e := w.g.rules[k].expr;
    forall h: nat ensures TracksRuleAt(w, k, i, a, b, limited, h) {
      if EvalRule(w.g, k, w.s, i, h).Some? {
        assert TracksAt(Deeper(w), e, i, a + [Entered(i, w.depth)], b, limited, h - 1);
        FollowsThen(a, a + [Entered(i, w.depth)], b, [Entered(i, w.depth)],
                    Attempt(w.g, e, w.s, i, h - 1, w.depth + 1, w.quiet), limited);
      }
    }
  }

  lemma NothingEntered(w: Where, k: nat, i: nat, a: Trace)
    requires i <= |w.s| && k < |w.g.rules|
    ensures TracksRule(w, k, i, a, a, true) && TracksRule(w, k, i, a, a + [Entered(i, w.depth)], true)
  {
    hide Attempt, Eval;
    var b := a + [Entered(i, w.depth)];
    forall h: nat ensures TracksRuleAt(w, k, i, a, a, true, h) && TracksRuleAt(w, k, i, a, b, true, h) {
      if EvalRule(w.g, k, w.s, i, h).Some? {
        var t := Attempt(w.g, w.g.rules[k].expr, w.s, i, h - 1, w.depth + 1, w.quiet);
        assert a + ([Entered(i, w.depth)] + t) == b + t;
      }
    }
  }

  lemma SequenceTracks(w: Where, es: seq<Expr>, i: nat, a: Trace, b: Trace, c: Trace, limited: bool,
                       first: nat, j: nat, nodes: seq<Node>)
    requires i <= |w.s| && j <= |w.s| && es != [] && Eval(w.g, es[0], w.s, i, first) == Some(Match(j, nodes))
    requires Tracks(w, es[0], i, a, b, false) && TracksSequence(w, es[1..], j, b, c, limited)
    ensures TracksSequence(w, es, i, a, c, limited)
  {
    hide Attempt, Eval;
    forall h: nat ensures TracksSequenceAt(w, es, i, a, c, limited, h) {
      if EvalSequence(w.g, es, w.s, i, h).Some? {
        EvalDeterministic(w.g, es[0], w.s, i, first, h - 1);
        assert TracksAt(w, es[0], i, a, b, false, h - 1);
        assert TracksSequenceAt(w, es[1..], j, b, c, limited, h - 1);
        FollowsThen(a, b, c, Attempt(w.g, es[0], w.s, i, h - 1, w.depth, w.quiet),
                    AttemptSequence(w.g, es[1..], w.s, j, h - 1, w.depth, w.quiet), limited);
      }
    }
  }

  lemma SequenceStops(w: Where, es: seq<Expr>, i: nat, a: Trace, b: Trace, limited: bool, first: nat)
    requires i <= |w.s| && es != [] && Tracks(w, es[0], i, a, b, limited)
    requires limited || Eval(w.g, es[0], w.s, i, first) == Some(Fail)
    ensures TracksSequence(w, es, i, a, b, limited)
  {
    hide Attempt, Eval;
    forall h: nat ensures TracksSequenceAt(w, es, i, a, b, limited, h) {
      if EvalSequence(w.g, es, w.s, i, h).Some? {
        assert TracksAt(w, es[0], i, a, b, limited, h - 1);
        var t := Attempt(w.g, es[0], w.s, i, h - 1, w.depth, w.quiet);
        if limited {
          var u := AttemptSequence(w.g, es, w.s, i, h, w.depth, w.quiet);
          FollowsLimited(a, b, t, u[|t|..]);
          assert t + u[|t|..] == u;
        } else {
          EvalDeterministic(w.g, es[0], w.s, i, first, h - 1);
          FollowsNothing(a, t);
        }
      }
    }
  }

  lemma NoSequence(w: Where, i: nat, a: Trace)
    requires i <= |w.s|
    ensures TracksSequence(w, [], i, a, a, false) && TracksChoice(w, [], i, a, a, false)
  {
    FollowsNothing(a, []);
    forall h: nat ensures TracksSequenceAt(w, [], i, a, a, false, h) && TracksChoiceAt(w, [], i, a, a, false, h) {}
  }

  lemma ChoiceTracks(w: Where, es: seq<Expr>, i: nat, a: Trace, b: Trace, c: Trace, limited: bool, first: nat)
    requires i <= |w.s| && es != [] && Eval(w.g, es[0], w.s, i, first) == Some(Fail)
    requires Tracks(w, es[0], i, a, b, false) && TracksChoice(w, es[1..], i, b, c, limited)
    ensures TracksChoice(w, es, i, a, c, limited)
  {
    hide Attempt, Eval;
    forall h: nat ensures TracksChoiceAt(w, es, i, a, c, limited, h) {
      if EvalChoice(w.g, es, w.s, i, h).Some? {
        EvalDeterministic(w.g, es[0], w.s, i, first, h - 1);
        assert TracksAt(w, es[0], i, a, b, false, h - 1);
        assert TracksChoiceAt(w, es[1..], i, b, c, limited, h - 1);
        FollowsThen(a, b, c, Attempt(w.g, es[0], w.s, i, h - 1, w.depth, w.quiet),
                    AttemptChoice(w.g, es[1..], w.s, i, h - 1, w.depth, w.quiet), limited);
      }
    }
  }

  lemma ChoiceStops(w: Where, es: seq<Expr>, i: nat, a: Trace, b: Trace, limited: bool, first: nat)
    requires i <= |w.s| && es != [] && Tracks(w, es[0], i, a, b, limited)
    requires limited || (Eval(w.g, es[0], w.s, i, first).Some? && Eval(w.g, es[0], w.s, i, first).value.Match?)
    ensures TracksChoice(w, es, i, a, b, limited)
  {
    hide Attempt, Eval;
    forall h: nat ensures TracksChoiceAt(w, es, i, a, b, limited, h) {
      if EvalChoice(w.g, es, w.s, i, h).Some? {
        assert TracksAt(w, es[0], i, a, b, limited, h - 1);
        var t := Attempt(w.g, es[0], w.s, i, h - 1, w.depth, w.quiet);
        if limited {
          var u := AttemptChoice(w.g, es, w.s, i, h, w.depth, w.quiet);
          FollowsLimited(a, b, t, u[|t|..]);
          assert t + u[|t|..] == u;
        } else {
          EvalDeterministic(w.g, es[0], w.s, i, first, h - 1);
          FollowsNothing(a, t);
        }
      }
    }
  }

  // ---------- repetition ----------

  /** A repetition that has gone through n rounds, from i to j: what is left of its events are
      those of the repetition from j on. */
  ghost predicate StarSince(w: Where, e: Expr, i: nat, j: nat, n: nat, a: Trace, b: Trace) {
    i <= |w.s| && j <= |w.s| && forall h: nat :: StarSinceAt(w, e, i, j, n, a, b, h)
  }

  predicate StarSinceAt(w: Where, e: Expr, i: nat, j: nat, n: nat, a: Trace, b: Trace, h: nat)
    requires i <= |w.s| && j <= |w.s|
  {
    EvalStar(w.g, e, w.s, i, h).Some? ==>
      && h >= n && EvalStar(w.g, e, w.s, j, h - n).Some?
      && a + AttemptStar(w.g, e, w.s, i, h, w.depth, w.quiet)
         == b + AttemptStar(w.g, e, w.s, j, h - n, w.depth, w.quiet)
      && a <= b
  }

  lemma StarStarts(w: Where, e: Expr, i: nat, a: Trace)
    requires i <= |w.s|
    ensures StarSince(w, e, i, i, 0, a, a)
  {
    forall h: nat ensures StarSinceAt(w, e, i, i, 0, a, a, h) {}
  }

  lemma StarNext(w: Where, e: Expr, i: nat, j: nat, n: nat, a: Trace, b: Trace, c: Trace,
                 last: nat, k: nat, nodes: seq<Node>)
    requires StarSince(w, e, i, j, n, a, b) && k <= |w.s| && Eval(w.g, e, w.s, j, last) == Some(Match(k, nodes))
    requires Tracks(w, e, j, b, c, false)
    ensures StarSince(w, e, i, k, n + 1, a, c)
  {
    hide Attempt, Eval;
    var m := n + 1;
    forall h: nat ensures StarSinceAt(w, e, i, k, m, a, c, h) {
      if EvalStar(w.g, e, w.s, i, h).Some? {
        assert StarSinceAt(w, e, i, j, n, a, b, h);
        EvalDeterministic(w.g, e, w.s, j, last, h - n - 1);
        assert TracksAt(w, e, j, b, c, false, h - n - 1);
        var t := Attempt(w.g, e, w.s, j, h - n - 1, w.depth, w.quiet);
        var u := AttemptStar(w.g, e, w.s, k, h - n - 1, w.depth, w.quiet);
        assert b + (t + u) == (b + t) + u;
      }
    }
  }

  lemma StarStops(w: Where, e: Expr, i: nat, j: nat, n: nat, a: Trace, b: Trace, c: Trace, limited: bool, last: nat)
    requires StarSince(w, e, i, j, n, a, b) && Tracks(w, e, j, b, c, limited)
    requires limited || Eval(w.g, e, w.s, j, last) == Some(Fail)
    ensures TracksStar(w, e, i, a, c, limited)
  {
    hide Attempt, Eval;
    forall h: nat ensures TracksStarAt(w, e, i, a, c, limited, h) {
      if EvalStar(w.g, e, w.s, i, h).Some? {
        assert StarSinceAt(w, e, i, j, n, a, b, h);
        assert TracksAt(w, e, j, b, c, limited, h - n - 1);
        var t := Attempt(w.g, e, w.s, j, h - n - 1, w.depth, w.quiet);
        if limited {
          var u := AttemptStar(w.g, e, w.s, j, h - n, w.depth, w.quiet);
          FollowsLimited(b, c, t, u[|t|..]);
          assert t + u[|t|..] == u;
        } else {
          EvalDeterministic(w.g, e, w.s, j, last, h - n - 1);
          FollowsNothing(b, t);
        }
      }
    }
  }

  // ---------- the forms of an expression ----------

  lemma ReferenceTracks(w: Where, n: string, i: nat, a: Trace, b: Trace, limited: bool)
    requires i <= |w.s| && n in w.g.names && TracksRule(w, w.g.names[n], i, a, b, limited)
    ensures TracksInside(w, Ref(n), i, a, b, limited)
  {
    hide AttemptRule, EvalRule;
    forall h: nat ensures TracksInsideAt(w, Ref(n), i, a, b, limited, h) {
      if h > 0 { assert TracksRuleAt(w, w.g.names[n], i, a, b, limited, h - 1); }
    }
  }

  lemma FormTracks(w: Where, e: Expr, i: nat, a: Trace, b: Trace, limited: bool)
    requires i <= |w.s|
    requires match e
             case Sequence(es) => TracksSequence(w, es, i, a, b, limited)
             case Choice(es) => TracksChoice(w, es, i, a, b, limited)
             case Optional(inner) => Tracks(w, inner, i, a, b, limited)
             case Repeat(inner, _) => TracksStar(w, inner, i, a, b, limited)
             case _ => false
    ensures TracksInside(w, e, i, a, b, limited)
  {
    hide Attempt, EvalSequence, AttemptSequence, EvalChoice, AttemptChoice, AttemptStar;
    forall h: nat ensures TracksInsideAt(w, e, i, a, b, limited, h) {
      if h > 0 && Eval(w.g, e, w.s, i, h).Some? {
        match e
        case Sequence(es) => assert TracksSequenceAt(w, es, i, a, b, limited, h - 1);
        case Choice(es) => assert TracksChoiceAt(w, es, i, a, b, limited, h - 1);
        case Optional(inner) => assert TracksAt(w, inner, i, a, b, limited, h - 1);
        case Repeat(inner, one) => assert TracksStarAt(w, inner, i, a, b, limited, if one then h else h - 1);
      }
    }
  }

  lemma TerminalTracks(w: Where, e: Expr, i: nat, a: Trace, what: Expectation)
    requires i <= |w.s|
    requires match e
             case Lit(t, ins) => what == Literally(t, ins)
             case Class(rs, neg) => what == OneOf(rs, neg)
             case Any => what == AnyCharacter
             case _ => false
    ensures TracksInside(w, e, i, a, a + Miss(Eval(w.g, e, w.s, i, 1), i, what, w.quiet), false)
  {
    var b := a + Miss(Eval(w.g, e, w.s, i, 1), i, what, w.quiet);
    forall h: nat ensures TracksInsideAt(w, e, i, a, b, false, h) {
      if h > 0 { assert Eval(w.g, e, w.s, i, h) == Eval(w.g, e, w.s, i, 1); }
    }
  }

  lemma PredicateTracks(w: Where, inner: Expr, positive: bool, i: nat, a: Trace, b: Trace, limited: bool, h0: nat)
    requires i <= |w.s| && h0 > 0 && Tracks(w.(quiet := true), inner, i, a, b, limited)
    requires limited || Eval(w.g, Predicate(inner, positive), w.s, i, h0).Some?
    ensures limited ==> TracksInside(w, Predicate(inner, positive), i, a, b, true)
    ensures !limited ==>
              TracksInside(w, Predicate(inner, positive), i, a,
                           b + Miss(Eval(w.g, Predicate(inner, positive), w.s, i, h0), i, Lookahead(positive),
                               w.quiet), false)
  {
    hide Attempt;
    var e := Predicate(inner, positive);
    var c := if limited then b else b + Miss(Eval(w.g, e, w.s, i, h0), i, Lookahead(positive), w.quiet);
    forall h: nat ensures TracksInsideAt(w, e, i, a, c, limited, h) {
      if h > 0 && Eval(w.g, e, w.s, i, h).Some? {
        assert TracksAt(w.(quiet := true), inner, i, a, b, limited, h - 1);
        var t := Attempt(w.g, inner, w.s, i, h - 1, w.depth, true);
        var u := Miss(Eval(w.g, e, w.s, i, h), i, Lookahead(positive), w.quiet);
        if limited {
          FollowsLimited(a, b, t, u);
        } else {
          EvalDeterministic(w.g, e, w.s, i, h, h0);
          FollowsThen(a, b, c, t, u, false);
        }
      }
    }
  }
}
