/** The generated matcher: byte positions, a node stack, diagnostics, and the fatal depth and
    work limits, proved against the semantics over characters. */
module PegMatcher {
  import opened Options
  import opened Utf8
  import opened PegGrammar
  import opened PegSemantics
  import opened PegTrace

  // ---------- tree invariants ----------

  /** `str::get` on a byte range. */
  predicate Sliceable(input: seq<byte>, start: nat, end: nat) {
    start <= end <= |input| && IsBoundary(input, start) && IsBoundary(input, end)
  }

  /** The checks of `Node::new` on one child, given where the previous child ended. */
  predicate ChildOk(input: seq<byte>, end: nat, previous: nat, child: Node) {
    && previous <= child.start && child.end <= end
    && Sliceable(input, child.start, child.end)
    && child.text == Borrowed(child.start, child.end)
  }

  function PreviousEnd(start: nat, children: seq<Node>, k: nat): (n: nat)
    requires k <= |children|
  {
    if k == 0 then start else children[k - 1].end
  }

  predicate ChildAt(input: seq<byte>, start: nat, end: nat, children: seq<Node>, k: nat)
    requires k < |children|
  {
    ChildOk(input, end, PreviousEnd(start, children, k), children[k])
  }

  /** Contained, ordered, non-overlapping children borrowed from the same input. */
  predicate ChildrenOk(input: seq<byte>, start: nat, end: nat, children: seq<Node>) {
    forall k | 0 <= k < |children| :: ChildAt(input, start, end, children, k)
  }

  /** A tree every node of which `Node::new` would accept. */
  predicate TreeOk(input: seq<byte>, n: Node) {
    && Sliceable(input, n.start, n.end) && n.text == Borrowed(n.start, n.end)
    && ChildrenOk(input, n.start, n.end, n.children)
    && forall k | 0 <= k < |n.children| :: TreeOk(input, n.children[k])
  }

  /** The first check that one child fails. */
  function ChildFault(input: seq<byte>, end: nat, previous: nat, child: Node): (s: string) {
    if !(previous <= child.start && child.end <= end) then "contained, ordered child spans"
    else if !Sliceable(input, child.start, child.end) then "valid UTF-8 child span"
    else "child text borrowed from the same input span"
  }

  /** The error that blames child k, the first that may not stand where it does. */
  ghost predicate Blames(input: seq<byte>, start: nat, end: nat, children: seq<Node>, k: nat, error: ParseError)
    requires k < |children|
  {
    && (forall l | 0 <= l < k :: ChildAt(input, start, end, children, l)) && !ChildAt(input, start, end, children, k)
    && error == ParseError(children[k].start,
                           [NodeCheck(ChildFault(input, end, PreviousEnd(start, children, k), children[k]))])
  }

  /** `Node::new` accepts exactly the checked spans, and then builds the node; otherwise it
      blames the node's own span or its first bad child. */
  method NewNode(rule: string, input: seq<byte>, start: nat, end: nat, children: seq<Node>)
    returns (r: Result<Node, ParseError>)
    ensures r.Ok? <==> Sliceable(input, start, end) && ChildrenOk(input, start, end, children)
    ensures r.Ok? ==> r.value == Node(rule, Borrowed(start, end), start, end, children)
    ensures r.Err? ==>
              if !Sliceable(input, start, end) then r.error == ParseError(start, [NodeCheck("valid UTF-8 node span")])
              else exists k | 0 <= k < |children| :: Blames(input, start, end, children, k, r.error)
  {
    if !Sliceable(input, start, end) { return Err(ParseError(start, [NodeCheck("valid UTF-8 node span")])); }
    var previous := start;
    for k := 0 to |children|
      invariant previous == PreviousEnd(start, children, k)
      invariant forall l | 0 <= l < k :: ChildAt(input, start, end, children, l)
    {
      var child := children[k];
      if child.start < previous || child.end > end {
        r := Err(ParseError(child.start, [NodeCheck("contained, ordered child spans")]));
        assert Blames(input, start, end, children, k, r.error);
        return;
      }
      if !Sliceable(input, child.start, child.end) {
        r := Err(ParseError(child.start, [NodeCheck("valid UTF-8 child span")]));
        assert Blames(input, start, end, children, k, r.error);
        return;
      }
      if child.text != Borrowed(child.start, child.end) {
        r := Err(ParseError(child.start, [NodeCheck("child text borrowed from the same input span")]));
        assert Blames(input, start, end, children, k, r.error);
        return;
      }
      previous := child.end;
    }
    return Ok(Node(rule, Borrowed(start, end), start, end, children));
  }

  /** A list of well-formed trees laid out in order between two offsets. */
  predicate ForestOk(input: seq<byte>, start: nat, end: nat, nodes: seq<Node>) {
    ChildrenOk(input, start, end, nodes) && forall k | 0 <= k < |nodes| :: TreeOk(input, nodes[k])
  }

  lemma ForestConcat(input: seq<byte>, a: nat, b: nat, c: nat, xs: seq<Node>, ys: seq<Node>)
    requires a <= b <= c && ForestOk(input, a, b, xs) && ForestOk(input, b, c, ys)
    ensures ForestOk(input, a, c, xs + ys)
  {
    var zs := xs + ys;
    forall k | 0 <= k < |zs| ensures ChildAt(input, a, c, zs, k) && TreeOk(input, zs[k]) {
      if k < |xs| {
        assert ChildAt(input, a, b, xs, k) && TreeOk(input, xs[k]);
        assert PreviousEnd(a, zs, k) == PreviousEnd(a, xs, k);
      } else {
        var l := k - |xs|;
        assert ChildAt(input, b, c, ys, l) && TreeOk(input, ys[l]);
        if l == 0 {
          if k > 0 { assert ChildAt(input, a, b, xs, k - 1); }
        } else {
          assert zs[k - 1] == ys[l - 1];
        }
      }
    }
  }

  /** Any nodes that matching from character i to character j builds are well formed. */
  ghost predicate OutcomeOk(s: string, i: nat, r: Option<Outcome>)
    requires i <= |s|
  {
    r.Some? && r.value.Match? && r.value.end <= |s| ==>
      ForestOk(Encode(s), Offset(s, i), Offset(s, r.value.end), r.value.nodes)
  }

  lemma PrependOk(s: string, i: nat, j: nat, nodes: seq<Node>, r: Option<Outcome>)
    requires i <= j <= |s| && OutcomeOk(s, i, Some(Match(j, nodes))) && OutcomeOk(s, j, r)
    requires r.Some? && r.value.Match? ==> j <= r.value.end <= |s|
    ensures OutcomeOk(s, i, Prepend(nodes, r))
  {
    if r.Some? && r.value.Match? {
      OffsetMonotone(s, i, j);
      OffsetMonotone(s, j, r.value.end);
      ForestConcat(Encode(s), Offset(s, i), Offset(s, j), Offset(s, r.value.end), nodes, r.value.nodes);
    }
  }

  lemma NoNodesOk(input: seq<byte>)
    ensures forall a, b :: ForestOk(input, a, b, [])
  {
  }

  lemma {:induction false} EvalTrees(g: Grammar, e: Expr, s: string, i: nat, h: nat)
    requires i <= |s|
    ensures OutcomeOk(s, i, Eval(g, e, s, i, h))
    decreases h
  {
    hide Encode, Offset, ForestOk, Prepend;
    NoNodesOk(Encode(s));
    if h > 0 {
      match e
      case Ref(n) => if n in g.names { RuleTrees(g, g.names[n], s, i, h - 1); }
      case Sequence(es) => SequenceTrees(g, es, s, i, h - 1);
      case Choice(es) => ChoiceTrees(g, es, s, i, h - 1);
      case Optional(inner) => EvalTrees(g, inner, s, i, h - 1);
      case Repeat(inner, one) =>
        if one {
          EvalTrees(g, inner, s, i, h - 1);
          var r := Eval(g, inner, s, i, h - 1);
          if r.Some? && r.value.Match? {
            StarTrees(g, inner, s, r.value.end, h - 1);
            PrependOk(s, i, r.value.end, r.value.nodes, EvalStar(g, inner, s, r.value.end, h - 1));
          }
        } else {
          StarTrees(g, inner, s, i, h - 1);
        }
      case _ =>
    }
  }

  lemma {:induction false} SequenceTrees(g: Grammar, es: seq<Expr>, s: string, i: nat, h: nat)
    requires i <= |s|
    ensures OutcomeOk(s, i, EvalSequence(g, es, s, i, h))
    decreases h
  {
    if es != [] && h > 0 {
      EvalTrees(g, es[0], s, i, h - 1);
      var r := Eval(g, es[0], s, i, h - 1);
      if r.Some? && r.value.Match? {
        SequenceTrees(g, es[1..], s, r.value.end, h - 1);
        PrependOk(s, i, r.value.end, r.value.nodes, EvalSequence(g, es[1..], s, r.value.end, h - 1));
      }
    }
  }

  lemma {:induction false} ChoiceTrees(g: Grammar, es: seq<Expr>, s: string, i: nat, h: nat)
    requires i <= |s|
    ensures OutcomeOk(s, i, EvalChoice(g, es, s, i, h))
    decreases h
  {
    if es != [] && h > 0 {
      EvalTrees(g, es[0], s, i, h - 1);
      ChoiceTrees(g, es[1..], s, i, h - 1);
    }
  }

  lemma {:induction false} StarTrees(g: Grammar, e: Expr, s: string, i: nat, h: nat)
    requires i <= |s|
    ensures OutcomeOk(s, i, EvalStar(g, e, s, i, h))
    decreases h
  {
    hide Encode, Offset, ForestOk, Prepend;
    NoNodesOk(Encode(s));
    if h > 0 {
      EvalTrees(g, e, s, i, h - 1);
      var r := Eval(g, e, s, i, h - 1);
      if r.Some? && r.value.Match? {
        StarTrees(g, e, s, r.value.end, h - 1);
        PrependOk(s, i, r.value.end, r.value.nodes, EvalStar(g, e, s, r.value.end, h - 1));
      }
    }
  }

  lemma {:induction false} RuleTrees(g: Grammar, k: nat, s: string, i: nat, h: nat)
    requires i <= |s|
    ensures OutcomeOk(s, i, EvalRule(g, k, s, i, h))
    decreases h
  {
    hide IsBoundary, Encode, Offset;
    if h > 0 && k < |g.rules| {
      EvalTrees(g, g.rules[k].expr, s, i, h - 1);
      var r := Eval(g, g.rules[k].expr, s, i, h - 1);
      if r.Some? && r.value.Match? {
        var j := r.value.end;
        OffsetIsBoundary(s, i);
        OffsetIsBoundary(s, j);
        OffsetMonotone(s, i, j);
        SuffixAt(s, j);
        var n := Node(g.rules[k].name, Borrowed(Offset(s, i), Offset(s, j)), Offset(s, i), Offset(s, j), r.value.nodes);
        assert TreeOk(Encode(s), n);
        assert ChildAt(Encode(s), n.start, n.end, [n], 0);
      }
    }
  }

  // ---------- the state and its matching functions ----------

  lemma LiteralEnd(s: string, i: nat, t: string, insensitive: bool)
    requires i <= |s| && StartsWithText(s[i..], t, insensitive)
    ensures i + |t| <= |s| && Offset(s, i) + |Encode(t)| == Offset(s, i + |t|)
    ensures Sliceable(Encode(s), Offset(s, i), Offset(s, i + |t|))
  {
    hide Encode, SameText, SameBytes, StartsWithBytes, IsBoundary, Offset;
    var j := i + |t|;
    SamePrefix(s[i..], t, insensitive);
    assert s[i..][..|t|] == s[i..j];
    OffsetBetween(s, i, j);
    OffsetIsBoundary(s, i);
    OffsetIsBoundary(s, j);
    SuffixAt(s, j);
  }

  lemma SliceIsPrefix(input: seq<byte>, pos: nat, literal: seq<byte>, insensitive: bool)
    requires pos + |literal| <= |input|
    ensures SameBytes(input[pos..pos + |literal|], literal, insensitive)
       <==> StartsWithBytes(input[pos..], literal, insensitive)
  {
    assert input[pos..pos + |literal|] == input[pos..][..|literal|];
  }

  /** Comparing the bytes of a literal at a character offset, end on a boundary, is matching
      its characters. */
  lemma LiteralAt(s: string, i: nat, t: string, insensitive: bool)
    requires i <= |s|
    ensures var pos := Offset(s, i); var end := pos + |Encode(t)|;
            && (Sliceable(Encode(s), pos, end) && SameBytes(Encode(s)[pos..end], Encode(t), insensitive)
                <==> StartsWithText(s[i..], t, insensitive))
            && (StartsWithText(s[i..], t, insensitive) ==> end == Offset(s, i + |t|))
  {
    hide Encode, SameBytes, SameText, Offset, IsBoundary;
    var input, pos := Encode(s), Offset(s, i);
    SuffixAt(s, i);
    SamePrefix(s[i..], t, insensitive);
    if StartsWithText(s[i..], t, insensitive) { LiteralEnd(s, i, t, insensitive); }
    if pos + |Encode(t)| <= |input| { SliceIsPrefix(input, pos, Encode(t), insensitive); }
  }

  class Matcher {
    const input: seq<byte>
    var pos: nat
    var nodes: seq<Node>
    var error: ParseError
    var depth: nat
    var limited: bool
    var fuel: nat
    var suppressed: nat
    /** The characters of the input, and the character at `pos`. */
    ghost const text: string
    ghost var at: nat
    /** The calls and failures so far. */
    ghost var trace: Trace

    constructor (s: string)
      ensures Valid() && text == s && at == 0 && nodes == [] && depth == 0 && !limited
      ensures fuel == WORK_LIMIT && suppressed == 0 && trace == []
    {
      input, text := Encode(s), s;
      pos, at, nodes, error := 0, 0, [], ParseError(0, []);
      depth, limited, fuel, suppressed := 0, false, WORK_LIMIT, 0;
      trace := [];
      new;
      NothingRecorded(s);
    }

    /** The position is on a character boundary, and diagnostics and fuel are what the calls and
        failures so far make them. */
    ghost predicate Valid()
      reads this
    {
      && input == Encode(text) && at <= |text| && pos == Offset(text, at) && depth <= DEPTH_LIMIT
      && Recorded(text, trace, error, fuel, limited)
    }

    ghost function Place(g: Grammar): (w: Where)
      reads this
    {
      Where(g, text, depth, suppressed > 0)
    }

    /** What every matching function promises: position and nodes are restored on failure and
        extended on success, the counters balance, and a limit is never lost. */
    twostate predicate Framed(ok: bool)
      reads this
    {
      && Valid() && depth == old(depth) && suppressed == old(suppressed) && fuel <= old(fuel)
      && (limited ==> !ok) && (old(limited) ==> limited)
      && (!ok ==> at == old(at) && nodes == old(nodes))
      && (ok ==> old(at) <= at && old(nodes) <= nodes)
    }

    /** The same before a failure is undone: earlier nodes are still there. */
    twostate predicate Loose(ok: bool)
      reads this
    {
      && Valid() && depth == old(depth) && suppressed == old(suppressed) && fuel <= old(fuel)
      && (limited ==> !ok) && (old(limited) ==> limited)
      && old(nodes) <= nodes && (ok ==> old(at) <= at)
    }

    /** `State::expect`: keep the distinct expectations at the furthest offset. */
    method Expect(what: Expectation)
      requires Valid() && !limited
      modifies this`error, this`trace
      ensures Valid() && trace == old(trace) + [Missed(at, what, suppressed > 0)]
      ensures error == if suppressed > 0 then old(error) else Noted(old(error), Note(pos, what))
    {
      hide Recorded, Offset, Encode;
      RecordMiss(text, trace, error, fuel, at, what, suppressed > 0);
      trace := trace + [Missed(at, what, suppressed > 0)];
      if limited || suppressed > 0 || pos < error.offset { return; }
      assert [] + [what] == [what];
      if pos > error.offset { error := ParseError(pos, []); }
      if what !in error.expected { error := error.(expected := error.expected + [what]); }
    }

    /** A limit ends the parse; `call` is the call it forbids. */
    method Exhausted(what: Expectation, ghost call: Event)
      requires Valid() && !limited && !call.Missed? && call.at == at
      requires if what == RecursionLimit then call.depth >= DEPTH_LIMIT
               else what == WorkLimit && call.Tried? && fuel == 0 && call.depth < DEPTH_LIMIT
      modifies this`limited, this`error, this`trace
      ensures Valid() && limited && trace == old(trace) + [call]
    {
      hide Recorded, Offset, Encode;
      RecordLimit(text, trace, error, fuel, call);
      trace := trace + [call];
      limited := true;
      error := ParseError(pos, [what]);
    }

    /** The next character, decoded from the input bytes. */
    method Peek() returns (c: Option<(char, nat)>)
      requires Valid()
      ensures c.None? <==> at == |text|
      ensures c.Some? ==> c.value.0 == text[at] && pos + c.value.1 == Offset(text, at + 1)
    {
      SuffixAt(text, at);
      c := DecodeFirst(input[pos..]);
      if at < |text| {
        DecodeFirstOfEncoded(text[at], Encode(text[at..][1..]));
        OffsetNext(text, at);
      } else {
        assert text[at..] == [];
      }
    }

    method Literal(ghost g: Grammar, t: string, insensitive: bool) returns (ok: bool)
      requires Valid() && !limited
      modifies this`pos, this`at, this`error, this`trace
      ensures Valid() && old(at) <= at && (!ok ==> at == old(at))
      ensures Eval(g, Lit(t, insensitive), text, old(at), 1) == Answer(ok, at, [])
      ensures TracksInside(old(Place(g)), Lit(t, insensitive), old(at), old(trace), trace, false)
    {
      hide Encode, Offset, IsBoundary, SameBytes, SameText, Noted, Recorded, TracksInside;
      var literal := Encode(t);
      var end := pos + |literal|;
      LiteralAt(text, at, t, insensitive);
      ok := Sliceable(input, pos, end) && SameBytes(input[pos..end], literal, insensitive);
      if ok {
        pos := end;
        at := at + |t|;
      } else {
        Expect(Literally(t, insensitive));
      }
      TerminalTracks(old(Place(g)), Lit(t, insensitive), old(at), old(trace), Literally(t, insensitive));
      assert ok ==> old(trace) + [] == trace;
    }

    method OneOf(ghost g: Grammar, ranges: seq<(char, char)>, negated: bool) returns (ok: bool)
      requires Valid() && !limited
      modifies this`pos, this`at, this`error, this`trace
      ensures Valid() && old(at) <= at && (!ok ==> at == old(at))
      ensures Eval(g, Class(ranges, negated), text, old(at), 1) == Answer(ok, at, [])
      ensures TracksInside(old(Place(g)), Class(ranges, negated), old(at), old(trace), trace, false)
    {
      hide Noted, Recorded, TracksInside;
      var c := Peek();
      ok := c.Some? && InClass(c.value.0, ranges, negated);
      if ok {
        pos := pos + c.value.1;
        at := at + 1;
      } else {
        Expect(PegTrace.OneOf(ranges, negated));
      }
      TerminalTracks(old(Place(g)), Class(ranges, negated), old(at), old(trace), PegTrace.OneOf(ranges, negated));
      assert ok ==> old(trace) + [] == trace;
    }

    method AnyChar(ghost g: Grammar) returns (ok: bool)
      requires Valid() && !limited
      modifies this`pos, this`at, this`error, this`trace
      ensures Valid() && old(at) <= at && (!ok ==> at == old(at))
      ensures Eval(g, Any, text, old(at), 1) == Answer(ok, at, [])
      ensures TracksInside(old(Place(g)), Any, old(at), old(trace), trace, false)
    {
      hide Noted, Recorded, TracksInside;
      var c := Peek();
      ok := c.Some?;
      if ok {
        pos := pos + c.value.1;
        at := at + 1;
      } else {
        Expect(AnyCharacter);
      }
      TerminalTracks(old(Place(g)), Any, old(at), old(trace), AnyCharacter);
      assert ok ==> old(trace) + [] == trace;
    }

    /** A generated expression function: limits, checkpoint, body, restore. When no limit is
        hit it computes exactly the semantics, for some exploration depth h. */
    method Expression(g: Grammar, e: Expr) returns (ok: bool, ghost h: nat)
      requires Valid() && Defined(e, g.names) && Closed(g)
      modifies this
      ensures Framed(ok)
      ensures ok ==> fuel < old(fuel)
      ensures !limited ==> Eval(g, e, text, old(at), h) == Answer(ok, at, nodes[|old(nodes)|..])
      ensures Tracks(old(Place(g)), e, old(at), old(trace), trace, limited)
      decreases fuel, 0
    {
      hide Encode, Offset, Eval, Recorded, Tracks, TracksInside;
      h := 0;
      ghost var w, call := Place(g), Tried(at, depth);
      NothingTried(w, e, at, trace);
      if limited { return false, 0; }
      if depth >= DEPTH_LIMIT {
        Exhausted(RecursionLimit, call);
        return false, 0;
      }
      if fuel == 0 {
        Exhausted(WorkLimit, call);
        return false, 0;
      }
      RecordCall(text, trace, error, fuel, call);
      trace := trace + [call];
      fuel := fuel - 1;
      depth := depth + 1;
      var start, mark := pos, |nodes|;
      ghost var from := at;
      ok, h := Body(g, e);
      ExpressionTracks(w, e, from, old(trace), trace, limited);
      depth := depth - 1;
      if !ok {
        pos, at := start, from;
        nodes := nodes[..mark];
      }
    }

    /** The body of an expression function; a failed body may leave position and nodes moved. */
    method Body(g: Grammar, e: Expr) returns (ok: bool, ghost h: nat)
      requires Valid() && Defined(e, g.names) && Closed(g) && !limited
      modifies this
      ensures Loose(ok)
      ensures !limited ==> Eval(g, e, text, old(at), h) == Answer(ok, at, nodes[|old(nodes)|..])
      ensures TracksInside(old(Place(g)), e, old(at), old(trace), trace, limited)
      decreases fuel, 3
    {
      hide Encode, Offset, Recorded, Tracks, TracksInside, TracksRule, TracksSequence, TracksChoice, TracksStar;
      h := 1;
      ghost var w, from, before := Place(g), at, trace;
      match e {
        case Ref(n) =>
          var ok', h' := RuleCall(g, g.names[n]);
          ok, h := ok', h' + 1;
          ReferenceTracks(w, n, from, before, trace, limited);
        case Sequence(es) =>
          var ok', h' := SequenceBody(g, es);
          ok, h := ok', h' + 1;
          FormTracks(w, e, from, before, trace, limited);
        case Choice(es) =>
          var ok', h' := ChoiceBody(g, es);
          ok, h := ok', h' + 1;
          FormTracks(w, e, from, before, trace, limited);
        case Optional(inner) =>
          var ok', h' := Expression(g, inner);
          ok, h := !limited, h' + 1;
          FormTracks(w, e, from, before, trace, limited);
        case Repeat(inner, one) =>
          ok, h := RepeatBody(g, inner, one);
          FormTracks(w, e, from, before, trace, limited);
        case Predicate(inner, positive) =>
          ok, h := PredicateBody(g, inner, positive);
        case Lit(t, insensitive) => ok := Literal(g, t, insensitive);
        case Class(ranges, negated) => ok := OneOf(g, ranges, negated);
        case Any => ok := AnyChar(g);
      }
      assert nodes == old(nodes) ==> nodes[|old(nodes)|..] == [];
    }

    /** `a && b && ...` */
    method SequenceBody(g: Grammar, es: seq<Expr>) returns (ok: bool, ghost h: nat)
      requires Valid() && Closed(g) && !limited && forall k | 0 <= k < |es| :: Defined(es[k], g.names)
      modifies this
      ensures Loose(ok)
      ensures !limited ==> EvalSequence(g, es, text, old(at), h) == Answer(ok, at, nodes[|old(nodes)|..])
      ensures TracksSequence(old(Place(g)), es, old(at), old(trace), trace, limited)
      decreases fuel, 2, |es|
    {
      hide Encode, Offset, Recorded, Tracks, TracksSequence;
      ok, h := true, 0;
      ghost var from, before, w, done := at, nodes, Place(g), trace;
      if es != [] {
        ok, h := Expression(g, es[0]);
        ghost var first := h;
        h := h + 1;
        if ok {
          ghost var mid, built, tried := at, nodes, trace;
          ok, h := SequenceBody(g, es[1..]);
          SequenceTracks(w, es, from, done, tried, trace, limited, first, mid, built[|before|..]);
          if !limited {
            EvalMore(g, es[0], text, from, first, first + h);
            SequenceMore(g, es[1..], text, mid, h, first + h);
            assert nodes[|before|..] == built[|before|..] + nodes[|built|..];
          }
          h := first + h + 1;
        } else {
          SequenceStops(w, es, from, done, trace, limited, first);
        }
      } else {
        assert nodes[|before|..] == [];
        NoSequence(w, from, done);
      }
    }

    /** `a || b || ...` */
    method ChoiceBody(g: Grammar, es: seq<Expr>) returns (ok: bool, ghost h: nat)
      requires Valid() && Closed(g) && !limited && forall k | 0 <= k < |es| :: Defined(es[k], g.names)
      modifies this
      ensures Loose(ok)
      ensures !limited ==> EvalChoice(g, es, text, old(at), h) == Answer(ok, at, nodes[|old(nodes)|..])
      ensures TracksChoice(old(Place(g)), es, old(at), old(trace), trace, limited)
      decreases fuel, 2, |es|
    {
      hide Encode, Offset, Recorded, Tracks, TracksChoice;
      ok, h := false, 0;
      ghost var from, w, done := at, Place(g), trace;
      if es != [] {
        ok, h := Expression(g, es[0]);
        ghost var first := h;
        h := h + 1;
        if !ok && !limited {
          ghost var tried := trace;
          ok, h := ChoiceBody(g, es[1..]);
          ChoiceTracks(w, es, from, done, tried, trace, limited, first);
          if !limited {
            EvalMore(g, es[0], text, from, first, first + h);
            ChoiceMore(g, es[1..], text, from, h, first + h);
          }
          h := first + h + 1;
        } else {
          ChoiceStops(w, es, from, done, trace, limited, first);
        }
      } else {
        NoSequence(w, from, done);
      }
    }

    /** A generated rule function: it only counts depth, and wraps the nodes of a match. */
    method RuleCall(g: Grammar, k: nat) returns (ok: bool, ghost h: nat)
      requires Valid() && Closed(g) && k < |g.rules|
      modifies this
      ensures Framed(ok)
      ensures !limited ==> EvalRule(g, k, text, old(at), h) == Answer(ok, at, nodes[|old(nodes)|..])
      ensures TracksRule(old(Place(g)), k, old(at), old(trace), trace, limited)
      decreases fuel, 1
    {
      hide Encode, Offset, Eval, Recorded, Tracks, TracksRule;
      h := 0;
      ghost var w, call := Place(g), Entered(at, depth);
      NothingEntered(w, k, at, trace);
      if limited { return false, 0; }
      if depth >= DEPTH_LIMIT {
        Exhausted(RecursionLimit, call);
        return false, 0;
      }
      RecordCall(text, trace, error, fuel, call);
      trace := trace + [call];
      depth := depth + 1;
      var start, mark := pos, |nodes|;
      ok, h := Expression(g, g.rules[k].expr);
      RuleTracks(w, k, call.at, old(trace), trace, limited);
      ghost var nodes' := nodes;
      depth := depth - 1;
      h := h + 1;
      if ok {
        if Silent(g.rules[k].name) {
          nodes := nodes[..mark];
        } else {
          nodes := nodes[..mark] + [Node(g.rules[k].name, Borrowed(start, pos), start, pos, nodes[mark..])];
        }
        assert nodes[|old(nodes)|..] == RuleNodes(g.rules[k].name, text, old(at), at, nodes'[mark..]);
      }
    }

    method PredicateBody(g: Grammar, inner: Expr, positive: bool) returns (ok: bool, ghost h: nat)
      requires Valid() && Defined(inner, g.names) && Closed(g) && !limited
      modifies this
      ensures Loose(ok)
      ensures !limited ==>
                Eval(g, Predicate(inner, positive), text, old(at), h) == Answer(ok, at, nodes[|old(nodes)|..])
      ensures TracksInside(old(Place(g)), Predicate(inner, positive), old(at), old(trace), trace, limited)
      decreases fuel, 2
    {
      hide Encode, Offset, Noted, Recorded, Tracks, TracksInside;
      var start, mark := pos, |nodes|;
      ghost var from := at;
      suppressed := suppressed + 1;
      var matched;
      matched, h := Expression(g, inner);
      suppressed := suppressed - 1;
      pos, at := start, from;
      nodes := nodes[..mark];
      assert nodes[|old(nodes)|..] == [];
      ok := matched == positive && !limited;
      h := h + 1;
      PredicateTracks(old(Place(g)), inner, positive, from, old(trace), trace, limited, h);
      if !ok && !limited { Expect(Lookahead(positive)); } else { assert trace + [] == trace; }
    }

    /** `while f(state) { count += 1; }` */
    method RepeatBody(g: Grammar, inner: Expr, one: bool) returns (ok: bool, ghost h: nat)
      requires Valid() && Defined(inner, g.names) && Closed(g) && !limited
      modifies this
      ensures Loose(ok)
      ensures !limited ==> Eval(g, Repeat(inner, one), text, old(at), h) == Answer(ok, at, nodes[|old(nodes)|..])
      ensures TracksStar(old(Place(g)), inner, old(at), old(trace), trace, limited)
      decreases fuel, 2
    {
      hide Encode, Offset, StarSoFar, EvalStar, Recorded, Tracks, TracksStar, StarSince;
      ghost var w, done := Place(g), trace;
      var count := 0;
      ghost var from, mark := at, |nodes|;
      ghost var rounds: nat, first: nat := 0, 0;
      var more := true;
      ghost var last: nat := 0;
      PrependNothing(g, inner, text, from);
      StarStarts(w, inner, from, done);
      assert nodes[mark..] == [];
      while more
        invariant Loose(true) || limited
        invariant Loose(false) && (more ==> !limited)
        invariant mark == |old(nodes)| && from == old(at)
        invariant !limited ==> StarSoFar(g, inner, text, from, at, nodes[mark..], rounds)
        invariant !limited && count > 0 ==>
                    Eval(g, inner, text, from, first).Some? && Eval(g, inner, text, from, first).value.Match?
        invariant !limited && !more ==> Eval(g, inner, text, at, last) == Some(Fail)
        invariant count == 0 ==> at == from
        invariant w == Place(g)
        invariant more ==> StarSince(w, inner, from, at, count, done, trace)
        invariant !more ==> TracksStar(w, inner, from, done, trace, limited)
        decreases more, fuel
      {
        ghost var before, here, seen := nodes, at, trace;
        more, last := Expression(g, inner);
        if more {
          StarNext(w, inner, from, here, count, done, seen, trace, last, at, nodes[|before|..]);
          if count == 0 { first := last; }
          count := count + 1;
          assert nodes[mark..] == before[mark..] + nodes[|before|..];
          StarRound(g, inner, text, from, here, before[mark..], rounds, at, nodes[|before|..], last);
          rounds := rounds + last + 1;
        } else {
          StarStops(w, inner, from, here, count, done, seen, trace, limited, last);
        }
      }
      ok := !limited && (!one || count > 0);
      h := rounds + last + 2;
      if !limited {
        StarEnds(g, inner, text, from, at, nodes[mark..], rounds, last);
        if one {
          if count > 0 {
            PlusIsStar(g, inner, text, from, first, rounds + last + 1);
          }
          EvalMore(g, Repeat(inner, one), text, from, if count > 0 then rounds + last + 1 else last + 1, h);
        }
      }
    }
  }

  predicate StarAt(g: Grammar, e: Expr, s: string, i: nat, j: nat, nodes: seq<Node>, rounds: nat, h: nat)
    requires i <= |s| && j <= |s|
  {
    EvalStar(g, e, s, j, h).Some? ==> EvalStar(g, e, s, i, h + rounds) == Prepend(nodes, EvalStar(g, e, s, j, h))
  }

  /** A repetition that has run from i to j, building `nodes`: whatever the repetition does
      from j on, it does from i after those nodes. */
  ghost predicate StarSoFar(g: Grammar, e: Expr, s: string, i: nat, j: nat, nodes: seq<Node>, rounds: nat) {
    i <= j <= |s| && forall h: nat :: StarAt(g, e, s, i, j, nodes, rounds, h)
  }

  lemma PrependNothing(g: Grammar, e: Expr, s: string, i: nat)
    requires i <= |s|
    ensures StarSoFar(g, e, s, i, i, [], 0)
  {
    forall h: nat ensures StarAt(g, e, s, i, i, [], 0, h) {
      var r := EvalStar(g, e, s, i, h);
      if r.Some? && r.value.Match? { assert [] + r.value.nodes == r.value.nodes; }
    }
  }

  lemma StarRoundAt(g: Grammar, e: Expr, s: string, i: nat, j: nat, nodes: seq<Node>, rounds: nat, k: nat,
                    more: seq<Node>, last: nat, h: nat)
    requires i <= j <= k <= |s| && StarAt(g, e, s, i, j, nodes, rounds, h + last + 1)
    requires Eval(g, e, s, j, last) == Some(Match(k, more))
    ensures StarAt(g, e, s, i, k, nodes + more, rounds + last + 1, h)
  {
    if EvalStar(g, e, s, k, h).Some? {
      var d := h + last + 1;
      EvalMore(g, e, s, j, last, d - 1);
      StarMore(g, e, s, k, h, d - 1);
      var r := EvalStar(g, e, s, k, h);
      assert EvalStar(g, e, s, j, d) == Prepend(more, r);
      PrependTwice(nodes, more, r);
      assert h + (rounds + last + 1) == d + rounds;
    }
  }

  lemma PrependTwice(xs: seq<Node>, ys: seq<Node>, r: Option<Outcome>)
    ensures Prepend(xs, Prepend(ys, r)) == Prepend(xs + ys, r)
  {
    if r.Some? && r.value.Match? { assert xs + (ys + r.value.nodes) == (xs + ys) + r.value.nodes; }
  }

  lemma StarRound(g: Grammar, e: Expr, s: string, i: nat, j: nat, nodes: seq<Node>, rounds: nat, k: nat,
                  more: seq<Node>, last: nat)
    requires StarSoFar(g, e, s, i, j, nodes, rounds)
    requires j <= k <= |s| && Eval(g, e, s, j, last) == Some(Match(k, more))
    ensures StarSoFar(g, e, s, i, k, nodes + more, rounds + last + 1)
  {
    var total, all := rounds + last + 1, nodes + more;
    forall h: nat ensures StarAt(g, e, s, i, k, all, total, h) {
      StarRoundAt(g, e, s, i, j, nodes, rounds, k, more, last, h);
    }
  }

  lemma StarEnds(g: Grammar, e: Expr, s: string, i: nat, j: nat, nodes: seq<Node>, rounds: nat, last: nat)
    requires StarSoFar(g, e, s, i, j, nodes, rounds) && Eval(g, e, s, j, last) == Some(Fail)
    ensures EvalStar(g, e, s, i, rounds + last + 1) == Some(Match(j, nodes))
  {
    assert EvalStar(g, e, s, j, last + 1) == Some(Match(j, []));
    assert StarAt(g, e, s, i, j, nodes, rounds, last + 1);
    assert nodes + [] == nodes;
  }

  /** One-or-more is zero-or-more once the first round matched. */
  lemma PlusIsStar(g: Grammar, e: Expr, s: string, i: nat, first: nat, h: nat)
    requires i <= |s| && EvalStar(g, e, s, i, h).Some?
    requires Eval(g, e, s, i, first).Some? && Eval(g, e, s, i, first).value.Match?
    ensures Eval(g, Repeat(e, true), s, i, h) == EvalStar(g, e, s, i, h)
  {
    EvalDeterministic(g, e, s, i, first, h - 1);
  }

  /** The semantics' account of an answer. */
  function Answer(ok: bool, at: nat, nodes: seq<Node>): (r: Option<Outcome>) {
    Some(if ok then Match(at, nodes) else Fail)
  }

  /** Every rule's references exist and every name is a rule. */
  predicate Closed(g: Grammar) {
    AllDefined(g.rules, g.names) && NamesInRange(g.names, |g.rules|)
  }

  /** A grammar that `validate` accepted has all the rules its matcher calls. */
  lemma AcceptedIsClosed(rules: seq<Rule>, empties: seq<bool>)
    requires Sound(rules, NameMap(rules), empties)
    ensures Closed(Grammar(rules, NameMap(rules)))
  {
    NameMapInRange(rules);
  }

  /** The tree that `parse_rule` returns for a match of the whole input. */
  function RootNode(name: string, s: string, nodes: seq<Node>): (n: Node) {
    if nodes != [] then nodes[|nodes| - 1]
    else Node(name, Borrowed(0, |Encode(s)|), 0, |Encode(s)|, [])
  }

  /** What the semantics says `parse_rule` returns: the first call that breaks a limit is
      reported at its position; otherwise a match of the whole input gives its tree, and
      anything else the furthest failure outside lookaheads, with the end of the input expected
      where a match stopped short. */
  ghost predicate Parses(g: Grammar, k: nat, s: string, h: nat, r: Result<Node, ParseError>)
    requires EvalRule(g, k, s, 0, h).Some?
  {
    var t, o := AttemptRule(g, k, s, 0, h, 0, false), EvalRule(g, k, s, 0, h).value;
    if Within(t, |t|) then
      if o.Match? && o.end == |s| then k < |g.rules| && r == Ok(RootNode(g.rules[k].name, s, o.nodes))
      else
        && r.Err?
        && IsFurthest(Notes(s, t) + if o.Match? then [Note(Offset(s, o.end), EndOfInput)] else [], r.error)
    else exists j: nat :: Overruns(t, j) && Within(t, j) && r == Err(LimitError(s, t[j]))
  }

  /** So it returns one thing only. */
  lemma ParsesOnce(g: Grammar, k: nat, s: string, h: nat, r: Result<Node, ParseError>, q: Result<Node, ParseError>)
    requires EvalRule(g, k, s, 0, h).Some? && Parses(g, k, s, h, r) && Parses(g, k, s, h, q)
    ensures r == q
  {
    hide IsFurthest, Offset, Encode, AttemptRule, EvalRule, RootNode;
    var t, o := AttemptRule(g, k, s, 0, h, 0, false), EvalRule(g, k, s, 0, h).value;
    if Within(t, |t|) {
      if !(o.Match? && o.end == |s|) {
        FurthestUnique(Notes(s, t) + if o.Match? then [Note(Offset(s, o.end), EndOfInput)] else [], r.error, q.error);
      }
    } else {
      var i: nat :| Overruns(t, i) && Within(t, i) && r == Err(LimitError(s, t[i]));
      var j: nat :| Overruns(t, j) && Within(t, j) && q == Err(LimitError(s, t[j]));
      assert i == j;
    }
  }

  /** The result that a matcher's final diagnostics and outcome make. */
  function Verdict(name: string, s: string, e: ParseError, limited: bool, o: Outcome): (r: Result<Node, ParseError>) {
    if limited then Err(e)
    else match o
      case Fail => Err(e)
      case Match(j, nodes) =>
        if j == |s| then Ok(RootNode(name, s, nodes))
        else Err(Noted(e, Note(if j <= |s| then Offset(s, j) else 0, EndOfInput)))
  }

  /** Following the events of a match to their end, or to a limit, gives that result. */
  lemma TracedParses(w: Where, k: nat, t: Trace, e: ParseError, fuel: nat, limited: bool, h: nat)
    requires w.depth == 0 && !w.quiet && TracksRule(w, k, 0, [], t, limited) && Recorded(w.s, t, e, fuel, limited)
    requires EvalRule(w.g, k, w.s, 0, h).Some? && k < |w.g.rules|
    ensures Parses(w.g, k, w.s, h, Verdict(w.g.rules[k].name, w.s, e, limited, EvalRule(w.g, k, w.s, 0, h).value))
  {
    hide AttemptRule, EvalRule, IsFurthest, Offset, RootNode, Noted;
    var u, o := AttemptRule(w.g, k, w.s, 0, h, 0, false), EvalRule(w.g, k, w.s, 0, h).value;
    assert TracksRuleAt(w, k, 0, [], t, limited, h);
    assert [] + u == u;
    if limited {
      var j := |t| - 1;
      forall i: nat | i <= j ensures Overruns(t, i) <==> Overruns(u, i) { OverrunsPrefix(t, u, i); }
      assert Overruns(u, j) && Within(u, j);
    } else if o.Fail? {
      assert Notes(w.s, u) + [] == Notes(w.s, u);
    } else {
      NotedFurthest(Notes(w.s, u), e, Note(Offset(w.s, o.end), EndOfInput));
    }
  }

  /** `parse_rule` returns what the semantics says, whatever the limits and the input; every
      returned tree passes the checks of `Node::new` at every node and spans the whole input. */
  method ParseRule(g: Grammar, rule: string, s: string)
    returns (r: Result<Node, ParseError>, ghost limitHit: bool, ghost h: nat)
    requires Closed(g)
    ensures rule !in g.names ==> r == Err(ParseError(0, [KnownRule(rule)]))
    ensures rule in g.names ==>
              forall d: nat | EvalRule(g, g.names[rule], s, 0, d).Some? :: Parses(g, g.names[rule], s, d, r)
    ensures rule in g.names && !limitHit ==> EvalRule(g, g.names[rule], s, 0, h).Some?
    ensures limitHit ==> r.Err? && (r.error.expected == [RecursionLimit] || r.error.expected == [WorkLimit])
    ensures r.Ok? ==> TreeOk(Encode(s), r.value) && r.value.start == 0 && r.value.end == |Encode(s)|
  {
    hide Encode, Offset, EvalRule, AttemptRule, TracksRule, Recorded, IsFurthest, IsBoundary, Noted, Parses, TreeOk;
    limitHit, h := false, 0;
    if rule !in g.names { return Err(ParseError(0, [KnownRule(rule)])), false, 0; }
    var state := new Matcher(s);
    var k := g.names[rule];
    ghost var w := state.Place(g);
    var ok;
    ok, h := state.RuleCall(g, k);
    limitHit := state.limited;
    ghost var found := state.error;
    forall d: nat | EvalRule(g, k, s, 0, d).Some?
      ensures Parses(g, k, s, d, Verdict(g.rules[k].name, s, found, limitHit, EvalRule(g, k, s, 0, d).value))
      ensures !limitHit ==> EvalRule(g, k, s, 0, d) == EvalRule(g, k, s, 0, h)
    {
      TracedParses(w, k, state.trace, found, state.fuel, limitHit, d);
      if !limitHit { RuleDeterministic(g, k, s, 0, d, h); }
    }
    if limitHit { RecordedLimit(s, state.trace, state.error, state.fuel); }
    if !ok || state.limited { return Err(state.error), limitHit, h; }
    assert state.nodes[0..] == state.nodes;
    WholeInput(s, state.at);
    if state.pos != |state.input| {
      state.Expect(EndOfInput);
      return Err(state.error), limitHit, h;
    }
    RootOk(g, k, s, h);
    if state.nodes != [] {
      r := Ok(state.nodes[|state.nodes| - 1]);
    } else {
      r := Ok(Node(g.rules[k].name, Borrowed(0, |state.input|), 0, |state.input|, []));
    }
  }

  lemma WholeInput(s: string, i: nat)
    requires i <= |s|
    ensures Offset(s, i) == |Encode(s)| <==> i == |s|
  {
    hide Encode;
    OffsetEnds(s);
    OffsetMonotone(s, i, |s|);
  }

  /** The tree of a match of the whole input is well formed. */
  lemma RootOk(g: Grammar, k: nat, s: string, h: nat)
    requires k < |g.rules| && EvalRule(g, k, s, 0, h).Some? && EvalRule(g, k, s, 0, h).value.Match?
    requires EvalRule(g, k, s, 0, h).value.end == |s|
    ensures var n := RootNode(g.rules[k].name, s, EvalRule(g, k, s, 0, h).value.nodes);
            TreeOk(Encode(s), n) && n.start == 0 && n.end == |Encode(s)|
  {
    hide IsBoundary, Eval;
    RuleTrees(g, k, s, 0, h);
    OffsetEnds(s);
    OffsetIsBoundary(s, 0);
    OffsetIsBoundary(s, |s|);
  }

  lemma RecordedLimit(s: string, t: Trace, e: ParseError, fuel: nat)
    requires Recorded(s, t, e, fuel, true)
    ensures e.expected == [RecursionLimit] || e.expected == [WorkLimit]
  {
  }
}
