/** PEG semantics over characters, and termination on every validated grammar. */
module PegSemantics {
  import opened Options
  import opened Utf8
  import opened PegGrammar

  /** A borrowed piece of the input, or text from some other allocation. */
  datatype Text = Borrowed(start: nat, end: nat) | Elsewhere(bytes: seq<byte>)

  /** A parse-tree node; spans are byte offsets. */
  datatype Node = Node(rule: string, text: Text, start: nat, end: nat, children: seq<Node>)

  datatype Grammar = Grammar(rules: seq<Rule>, names: Names)

  /** Matching at a character position: failure, or the position after the match and the
      nodes it built. */
  datatype Outcome = Fail | Match(end: nat, nodes: seq<Node>)

  predicate Silent(name: string) {
    name != "" && name[0] == '_'
  }

  predicate InClass(c: char, ranges: seq<(char, char)>, negated: bool) {
    (exists k | 0 <= k < |ranges| :: ranges[k].0 <= c <= ranges[k].1) != negated
  }

  function Prepend(nodes: seq<Node>, r: Option<Outcome>): (q: Option<Outcome>) {
    match r
    case Some(Match(end, more)) => Some(Match(end, nodes + more))
    case _ => r
  }

  /** The meaning of expression e at character i of s, explored to nesting h; None when h is
      too small or a reference has no rule. Ordered choice commits, repetition is greedy,
      predicates consume nothing. */
  function Eval(g: Grammar, e: Expr, s: string, i: nat, h: nat): (r: Option<Outcome>)
    requires i <= |s|
    ensures r.Some? && r.value.Match? ==> i <= r.value.end <= |s|
    decreases h
  {
    if h == 0 then None
    else match e
      case Ref(n) => if n in g.names then EvalRule(g, g.names[n], s, i, h - 1) else None
      case Lit(t, ins) => Some(if StartsWithText(s[i..], t, ins) then Match(i + |t|, []) else Fail)
      case Class(rs, neg) => Some(if i < |s| && InClass(s[i], rs, neg) then Match(i + 1, []) else Fail)
      case Any => Some(if i < |s| then Match(i + 1, []) else Fail)
      case Sequence(es) => EvalSequence(g, es, s, i, h - 1)
      case Choice(es) => EvalChoice(g, es, s, i, h - 1)
      case Optional(inner) =>
        var r := Eval(g, inner, s, i, h - 1);
        if r == Some(Fail) then Some(Match(i, [])) else r
      case Repeat(inner, false) => EvalStar(g, inner, s, i, h - 1)
      case Repeat(inner, true) =>
        (match Eval(g, inner, s, i, h - 1)
         case Some(Match(j, nodes)) => Prepend(nodes, EvalStar(g, inner, s, j, h - 1))
         case r => r)
      case Predicate(inner, positive) =>
        (match Eval(g, inner, s, i, h - 1)
         case None => None
         case Some(o) => Some(if o.Match? == positive then Match(i, []) else Fail))
  }

  function EvalSequence(g: Grammar, es: seq<Expr>, s: string, i: nat, h: nat): (r: Option<Outcome>)
    requires i <= |s|
    ensures r.Some? && r.value.Match? ==> i <= r.value.end <= |s|
    decreases h
  {
    if es == [] then Some(Match(i, []))
    else if h == 0 then None
    else match Eval(g, es[0], s, i, h - 1)
      case Some(Match(j, nodes)) => Prepend(nodes, EvalSequence(g, es[1..], s, j, h - 1))
      case r => r
  }

  function EvalChoice(g: Grammar, es: seq<Expr>, s: string, i: nat, h: nat): (r: Option<Outcome>)
    requires i <= |s|
    ensures r.Some? && r.value.Match? ==> i <= r.value.end <= |s|
    decreases h
  {
    if es == [] then Some(Fail)
    else if h == 0 then None
    else
      var r := Eval(g, es[0], s, i, h - 1);
      if r == Some(Fail) then EvalChoice(g, es[1..], s, i, h - 1) else r
  }

  function EvalStar(g: Grammar, e: Expr, s: string, i: nat, h: nat): (r: Option<Outcome>)
    requires i <= |s|
    ensures r.Some? && r.value.Match? ==> i <= r.value.end <= |s|
    decreases h
  {
    if h == 0 then None
    else match Eval(g, e, s, i, h - 1)
      case None => None
      case Some(Fail) => Some(Match(i, []))
      case Some(Match(j, nodes)) => Prepend(nodes, EvalStar(g, e, s, j, h - 1))
  }

  /** A rule wraps its nodes in one named node, or drops them when it is silent. */
  function EvalRule(g: Grammar, k: nat, s: string, i: nat, h: nat): (r: Option<Outcome>)
    requires i <= |s|
    ensures r.Some? && r.value.Match? ==> i <= r.value.end <= |s|
    decreases h
  {
    if h == 0 || k >= |g.rules| then None
    else match Eval(g, g.rules[k].expr, s, i, h - 1)
      case Some(Match(j, nodes)) => Some(Match(j, RuleNodes(g.rules[k].name, s, i, j, nodes)))
      case r => r
  }

  function RuleNodes(name: string, s: string, i: nat, j: nat, nodes: seq<Node>): (r: seq<Node>)
    requires i <= |s| && j <= |s|
  {
    if Silent(name) then [] else [Node(name, Borrowed(Offset(s, i), Offset(s, j)), Offset(s, i), Offset(s, j), nodes)]
  }

  // ---------- a deeper exploration gives the same answer ----------

  lemma {:induction false} EvalMore(g: Grammar, e: Expr, s: string, i: nat, h: nat, k: nat)
    requires i <= |s| && h <= k && Eval(g, e, s, i, h).Some?
    ensures Eval(g, e, s, i, k) == Eval(g, e, s, i, h)
    decreases h
  {
    match e
    case Ref(n) => RuleMore(g, g.names[n], s, i, h - 1, k - 1);
    case Sequence(es) => SequenceMore(g, es, s, i, h - 1, k - 1);
    case Choice(es) => ChoiceMore(g, es, s, i, h - 1, k - 1);
    case Optional(inner) => EvalMore(g, inner, s, i, h - 1, k - 1);
    case Repeat(inner, one) =>
      if one {
        EvalMore(g, inner, s, i, h - 1, k - 1);
        var r := Eval(g, inner, s, i, h - 1).value;
        if r.Match? { StarMore(g, inner, s, r.end, h - 1, k - 1); }
      } else {
        StarMore(g, inner, s, i, h - 1, k - 1);
      }
    case Predicate(inner, _) => EvalMore(g, inner, s, i, h - 1, k - 1);
    case _ =>
  }

  lemma {:induction false} SequenceMore(g: Grammar, es: seq<Expr>, s: string, i: nat, h: nat, k: nat)
    requires i <= |s| && h <= k && EvalSequence(g, es, s, i, h).Some?
    ensures EvalSequence(g, es, s, i, k) == EvalSequence(g, es, s, i, h)
    decreases h
  {
    if es != [] {
      EvalMore(g, es[0], s, i, h - 1, k - 1);
      var r := Eval(g, es[0], s, i, h - 1).value;
      if r.Match? { SequenceMore(g, es[1..], s, r.end, h - 1, k - 1); }
    }
  }

  lemma {:induction false} ChoiceMore(g: Grammar, es: seq<Expr>, s: string, i: nat, h: nat, k: nat)
    requires i <= |s| && h <= k && EvalChoice(g, es, s, i, h).Some?
    ensures EvalChoice(g, es, s, i, k) == EvalChoice(g, es, s, i, h)
    decreases h
  {
    if es != [] {
      EvalMore(g, es[0], s, i, h - 1, k - 1);
      if Eval(g, es[0], s, i, h - 1).value.Fail? { ChoiceMore(g, es[1..], s, i, h - 1, k - 1); }
    }
  }

  lemma {:induction false} StarMore(g: Grammar, e: Expr, s: string, i: nat, h: nat, k: nat)
    requires i <= |s| && h <= k && EvalStar(g, e, s, i, h).Some?
    ensures EvalStar(g, e, s, i, k) == EvalStar(g, e, s, i, h)
    decreases h
  {
    EvalMore(g, e, s, i, h - 1, k - 1);
    var r := Eval(g, e, s, i, h - 1).value;
    if r.Match? { StarMore(g, e, s, r.end, h - 1, k - 1); }
  }

  lemma {:induction false} RuleMore(g: Grammar, n: nat, s: string, i: nat, h: nat, k: nat)
    requires i <= |s| && h <= k && EvalRule(g, n, s, i, h).Some?
    ensures EvalRule(g, n, s, i, k) == EvalRule(g, n, s, i, h)
    decreases h
  {
    EvalMore(g, g.rules[n].expr, s, i, h - 1, k - 1);
  }

  /** PEG semantics is a partial function: any two explorations that finish agree. */
  lemma EvalDeterministic(g: Grammar, e: Expr, s: string, i: nat, h: nat, k: nat)
    requires i <= |s| && Eval(g, e, s, i, h).Some? && Eval(g, e, s, i, k).Some?
    ensures Eval(g, e, s, i, h) == Eval(g, e, s, i, k)
  {
    if h <= k { EvalMore(g, e, s, i, h, k); } else { EvalMore(g, e, s, i, k, h); }
  }

  lemma RuleDeterministic(g: Grammar, n: nat, s: string, i: nat, h: nat, k: nat)
    requires i <= |s| && EvalRule(g, n, s, i, h).Some? && EvalRule(g, n, s, i, k).Some?
    ensures EvalRule(g, n, s, i, h) == EvalRule(g, n, s, i, k)
  {
    if h <= k { RuleMore(g, n, s, i, h, k); } else { RuleMore(g, n, s, i, k, h); }
  }

  // ---------- termination ----------

  /** The rules reachable from rule i through prefix edges. */
  ghost function ReachSet(edges: seq<set<nat>>, i: nat): (r: set<nat>) {
    set j | j in Below(|edges|) && Reaches(edges, i, j)
  }

  /** The rank of a rule; it drops along every prefix edge. */
  ghost function Rank(edges: seq<set<nat>>, i: nat): (n: nat) {
    |ReachSet(edges, i)|
  }

  lemma {:induction false} ProperSubsetSmaller(a: set<nat>, b: set<nat>)
    requires a < b
    ensures |a| < |b|
  {
    var x :| x in b && x !in a;
    var c := b - {x};
    assert a <= c && |c| == |b| - 1;
    SubsetSmaller(a, c);
  }

  lemma {:induction false} SubsetSmaller(a: set<nat>, b: set<nat>)
    requires a <= b
    ensures |a| <= |b|
  {
    assert b == a + (b - a);
  }

  lemma RankDrops(edges: seq<set<nat>>, i: nat, j: nat)
    requires EdgesInRange(edges) && Acyclic(edges) && i < |edges| && j in edges[i]
    ensures Rank(edges, j) < Rank(edges, i)
  {
    ReachesByEdge(edges, i, j);
    forall k | k in ReachSet(edges, j) ensures k in ReachSet(edges, i) { ReachesTrans(edges, i, j, k); }
    assert j in ReachSet(edges, i) && j !in ReachSet(edges, j);
    ProperSubsetSmaller(ReachSet(edges, j), ReachSet(edges, i));
  }

  lemma {:induction false} BelowSize(n: nat)
    ensures |Below(n)| == n
  {
    if n > 0 { BelowSize(n - 1); }
  }

  lemma RankBound(edges: seq<set<nat>>, i: nat)
    ensures Rank(edges, i) <= |edges|
  {
    BelowSize(|edges|);
    SubsetSmaller(ReachSet(edges, i), Below(|edges|));
  }

  predicate Ranked(ranks: seq<nat>, ps: set<nat>, bound: nat) {
    forall k | k in ps :: k < |ranks| && ranks[k] < bound
  }

  /** What the recursion knows about an expression: its references exist, its repetitions
      consume, and the rules it may enter without consuming rank below `bound`. */
  predicate Ready(g: Grammar, empties: seq<bool>, ranks: seq<nat>, e: Expr, bound: nat) {
    && Defined(e, g.names) && RepeatsConsume(e, g.names, empties)
    && Ranked(ranks, Prefixes(e, g.names, empties), bound)
  }

  predicate RuleOk(g: Grammar, empties: seq<bool>, ranks: seq<nat>, k: nat)
    requires k < |g.rules| && |empties| == |g.rules| && |ranks| == |g.rules|
  {
    && ranks[k] <= |g.rules|
    && Ready(g, empties, ranks, g.rules[k].expr, ranks[k])
    && empties[k] == Nullable(g.rules[k].expr, g.names, empties)
  }

  /** A validated grammar with its nullability bits and a rank that drops along prefix edges. */
  predicate Stratified(g: Grammar, empties: seq<bool>, ranks: seq<nat>) {
    && |empties| == |g.rules| && |ranks| == |g.rules| && NamesInRange(g.names, |g.rules|)
    && forall k | 0 <= k < |g.rules| :: RuleOk(g, empties, ranks, k)
  }

  lemma SoundIsStratified(rules: seq<Rule>, empties: seq<bool>) returns (ranks: seq<nat>)
    requires Sound(rules, NameMap(rules), empties)
    ensures Stratified(Grammar(rules, NameMap(rules)), empties, ranks)
  {
    var g := Grammar(rules, NameMap(rules));
    NameMapInRange(rules);
    EdgesRange(rules, g.names, empties);
    var edges := Edges(rules, g.names, empties);
    ranks := seq(|rules|, k requires 0 <= k < |rules| => Rank(edges, k));
    forall k | 0 <= k < |rules| ensures RuleOk(g, empties, ranks, k) {
      forall j | j in Prefixes(rules[k].expr, g.names, empties) ensures j < |rules| && ranks[j] < ranks[k] {
        assert j in edges[k];
        RankDrops(edges, k, j);
      }
      RankBound(edges, k);
      assert NextNull(rules, g.names, empties)[k] == Nullable(rules[k].expr, g.names, empties);
    }
  }

  /** The evaluation of e at i finishes within h, and is sound for nullability. */
  predicate Finishes(g: Grammar, empties: seq<bool>, e: Expr, s: string, i: nat, h: nat)
    requires i <= |s|
  {
    var r := Eval(g, e, s, i, h);
    r.Some? && (r.value.Match? && r.value.end == i ==> Nullable(e, g.names, empties))
  }

  lemma AllRanked(g: Grammar, empties: seq<bool>, ranks: seq<nat>, ps: set<nat>)
    requires Stratified(g, empties, ranks) && forall k | k in ps :: k < |g.rules|
    ensures Ranked(ranks, ps, |g.rules| + 1)
  {
    forall k | k in ps ensures ranks[k] < |g.rules| + 1 { assert RuleOk(g, empties, ranks, k); }
  }

  lemma AnyBound(g: Grammar, empties: seq<bool>, ranks: seq<nat>, ps: set<nat>, bound: nat)
    requires Stratified(g, empties, ranks) && Ranked(ranks, ps, bound)
    ensures Ranked(ranks, ps, |g.rules| + 1)
  {
    forall k | k in ps ensures ranks[k] < |g.rules| + 1 { assert RuleOk(g, empties, ranks, k); }
  }

  lemma {:induction false} ExprFinishes(g: Grammar, empties: seq<bool>, ranks: seq<nat>, e: Expr, s: string, i: nat,
                                        bound: nat)
    returns (h: nat)
    requires Stratified(g, empties, ranks) && i <= |s| && Ready(g, empties, ranks, e, bound)
    ensures Finishes(g, empties, e, s, i, h)
    decreases |s| - i, bound, e, 1
  {
    match e {
      case Ref(n) =>
        var k := g.names[n];
        assert RuleOk(g, empties, ranks, k);
        assert k in Prefixes(e, g.names, empties);
        var h0 := ExprFinishes(g, empties, ranks, g.rules[k].expr, s, i, ranks[k]);
        h := h0 + 2;
      case Sequence(es) =>
        var h0 := SequenceFinishes(g, empties, ranks, es, s, i, bound);
        h := h0 + 1;
      case Choice(es) =>
        var h0 := ChoiceFinishes(g, empties, ranks, es, s, i, bound);
        h := h0 + 1;
      case Optional(inner) =>
        var h0 := ExprFinishes(g, empties, ranks, inner, s, i, bound);
        h := h0 + 1;
      case Predicate(inner, _) =>
        var h0 := ExprFinishes(g, empties, ranks, inner, s, i, bound);
        h := h0 + 1;
      case Repeat(inner, one) =>
        h := RepeatFinishes(g, empties, ranks, inner, one, s, i, bound);
      case _ => h := 1;
    }
  }

  lemma {:induction false} SequenceFinishes(g: Grammar, empties: seq<bool>, ranks: seq<nat>, es: seq<Expr>, s: string,
                                            i: nat, bound: nat)
    returns (h: nat)
    requires Stratified(g, empties, ranks) && i <= |s|
    requires forall k | 0 <= k < |es| :: Defined(es[k], g.names) && RepeatsConsume(es[k], g.names, empties)
    requires Ranked(ranks, PrefixesOfSequence(es, g.names, empties), bound)
    ensures var r := EvalSequence(g, es, s, i, h);
            r.Some? && (r.value.Match? && r.value.end == i ==>
                forall k | 0 <= k < |es| :: Nullable(es[k], g.names, empties))
    decreases |s| - i, bound, es, 0
  {
    h := 0;
    if es != [] {
      var h0 := ExprFinishes(g, empties, ranks, es[0], s, i, bound);
      var r := Eval(g, es[0], s, i, h0).value;
      h := h0 + 1;
      if r.Match? {
        var h1;
        if r.end > i {
          SequencePrefixesInRange(es[1..], g.names, empties, |g.rules|);
          AllRanked(g, empties, ranks, PrefixesOfSequence(es[1..], g.names, empties));
          h1 := SequenceFinishes(g, empties, ranks, es[1..], s, r.end, |g.rules| + 1);
        } else {
          h1 := SequenceFinishes(g, empties, ranks, es[1..], s, i, bound);
        }
        h := h0 + h1 + 1;
        EvalMore(g, es[0], s, i, h0, h - 1);
        SequenceMore(g, es[1..], s, r.end, h1, h - 1);
        var rest := EvalSequence(g, es[1..], s, r.end, h - 1).value;
        if rest.Match? && rest.end == i {
          forall k | 0 <= k < |es| ensures Nullable(es[k], g.names, empties) {
            if k > 0 { assert Nullable(es[1..][k - 1], g.names, empties); }
          }
        }
      }
    }
  }

  lemma {:induction false} ChoiceFinishes(g: Grammar, empties: seq<bool>, ranks: seq<nat>, es: seq<Expr>, s: string,
                                          i: nat, bound: nat)
    returns (h: nat)
    requires Stratified(g, empties, ranks) && i <= |s|
    requires forall k | 0 <= k < |es| :: Defined(es[k], g.names) && RepeatsConsume(es[k], g.names, empties)
    requires Ranked(ranks, PrefixesOfChoice(es, g.names, empties), bound)
    ensures var r := EvalChoice(g, es, s, i, h);
            r.Some? && (r.value.Match? && r.value.end == i ==>
                exists k | 0 <= k < |es| :: Nullable(es[k], g.names, empties))
    decreases |s| - i, bound, es, 0
  {
    h := 0;
    if es != [] {
      var h0 := ExprFinishes(g, empties, ranks, es[0], s, i, bound);
      h := h0 + 1;
      if Eval(g, es[0], s, i, h0).value.Fail? {
        var h1 := ChoiceFinishes(g, empties, ranks, es[1..], s, i, bound);
        h := h0 + h1 + 1;
        EvalMore(g, es[0], s, i, h0, h - 1);
        ChoiceMore(g, es[1..], s, i, h1, h - 1);
        var rest := EvalChoice(g, es[1..], s, i, h - 1).value;
        if rest.Match? && rest.end == i {
          var k :| 0 <= k < |es[1..]| && Nullable(es[1..][k], g.names, empties);
          assert Nullable(es[k + 1], g.names, empties);
        }
      } else {
        assert Nullable(es[0], g.names, empties) || Eval(g, es[0], s, i, h0).value.end != i;
      }
    }
  }

  /** Greedy repetition: each round consumes, so it starts over on less input. */
  lemma {:induction false} StarFinishes(g: Grammar, empties: seq<bool>, ranks: seq<nat>, e: Expr, s: string, i: nat,
                                        bound: nat)
    returns (h: nat)
    requires Stratified(g, empties, ranks) && i <= |s| && Ready(g, empties, ranks, e, bound) &&
               !Nullable(e, g.names, empties)
    ensures EvalStar(g, e, s, i, h).Some?
    decreases |s| - i, bound, e, 2
  {
    var h0 := ExprFinishes(g, empties, ranks, e, s, i, bound);
    var r := Eval(g, e, s, i, h0).value;
    h := h0 + 1;
    if r.Match? {
      AnyBound(g, empties, ranks, Prefixes(e, g.names, empties), bound);
      var h1 := StarFinishes(g, empties, ranks, e, s, r.end, |g.rules| + 1);
      h := h0 + h1 + 1;
      EvalMore(g, e, s, i, h0, h - 1);
      StarMore(g, e, s, r.end, h1, h - 1);
    }
  }

  lemma {:induction false} RepeatFinishes(g: Grammar, empties: seq<bool>, ranks: seq<nat>, e: Expr, one: bool,
                                          s: string, i: nat, bound: nat)
    returns (h: nat)
    requires Stratified(g, empties, ranks) && i <= |s| && Ready(g, empties, ranks, e, bound) &&
               !Nullable(e, g.names, empties)
    ensures Finishes(g, empties, Repeat(e, one), s, i, h)
    decreases |s| - i, bound, e, 3
  {
    if one {
      var h0 := ExprFinishes(g, empties, ranks, e, s, i, bound);
      var r := Eval(g, e, s, i, h0).value;
      h := h0 + 1;
      if r.Match? {
        AnyBound(g, empties, ranks, Prefixes(e, g.names, empties), bound);
        var h1 := StarFinishes(g, empties, ranks, e, s, r.end, |g.rules| + 1);
        h := h0 + h1 + 1;
        EvalMore(g, e, s, i, h0, h - 1);
        StarMore(g, e, s, r.end, h1, h - 1);
      }
    } else {
      var h0 := StarFinishes(g, empties, ranks, e, s, i, bound);
      h := h0 + 1;
    }
  }

  /** A successful match of rule k at i is not empty. */
  predicate Consumes(g: Grammar, k: nat, s: string, i: nat, h: nat)
    requires i <= |s|
  {
    var r := EvalRule(g, k, s, i, h);
    r.Some? && r.value.Match? ==> r.value.end > i
  }

  /** Every rule of every validated grammar has a meaning at every position of every input:
      matching terminates without any work or depth limit. A rule marked non-nullable never
      succeeds without consuming. */
  lemma ValidGrammarTerminates(rules: seq<Rule>, k: nat, s: string, i: nat)
    requires exists empties :: Sound(rules, NameMap(rules), empties)
    requires k < |rules| && i <= |s|
    ensures exists h :: EvalRule(Grammar(rules, NameMap(rules)), k, s, i, h).Some?
    ensures forall h, empties | LeastNull(rules, NameMap(rules), empties) && !empties[k] ::
              Consumes(Grammar(rules, NameMap(rules)), k, s, i, h)
  {
    var empties :| Sound(rules, NameMap(rules), empties);
    var g := Grammar(rules, NameMap(rules));
    var ranks := SoundIsStratified(rules, empties);
    assert RuleOk(g, empties, ranks, k);
    var h := ExprFinishes(g, empties, ranks, rules[k].expr, s, i, ranks[k]);
    assert EvalRule(g, k, s, i, h + 1).Some?;
    forall d: nat, other | LeastNull(rules, NameMap(rules), other) && !other[k]
      ensures Consumes(g, k, s, i, d)
    {
      LeastNullUnique(rules, NameMap(rules), empties, other);
      RuleConsumes(g, empties, k, s, i, h, d);
    }
  }

  lemma RuleConsumes(g: Grammar, empties: seq<bool>, k: nat, s: string, i: nat, h: nat, d: nat)
    requires k < |g.rules| && i <= |s| && Finishes(g, empties, g.rules[k].expr, s, i, h)
    requires !Nullable(g.rules[k].expr, g.names, empties)
    ensures Consumes(g, k, s, i, d)
  {
    if EvalRule(g, k, s, i, d).Some? { EvalDeterministic(g, g.rules[k].expr, s, i, d - 1, h); }
  }
}
