/** What the analyses of a grammar say about matching. */
module PegExact {
  import opened Options
  import opened PegGrammar
  import opened PegSemantics
  import opened PegMatcher

  // ---------- prefixes ----------

  /** A sequence may enter what any element may enter before which all are nullable. */
  lemma {:induction false} SequencePrefixes(es: seq<Expr>, names: Names, empties: seq<bool>, k: nat)
    ensures k in PrefixesOfSequence(es, names, empties) <==>
              exists j | 0 <= j < |es| :: k in Prefixes(es[j], names, empties) &&
                forall l | 0 <= l < j :: Nullable(es[l], names, empties)
  {
    hide Prefixes, Nullable;
    if es != [] {
      var rest := es[1..];
      SequencePrefixes(rest, names, empties, k);
      assert forall j | 1 <= j < |es| :: es[j] == rest[j - 1];
      if Nullable(es[0], names, empties) && k in PrefixesOfSequence(rest, names, empties) {
        var j :| 0 <= j < |rest| && k in Prefixes(rest[j], names, empties) &&
                 forall l | 0 <= l < j :: Nullable(rest[l], names, empties);
        assert k in Prefixes(es[j + 1], names, empties);
      }
      if j :| 1 <= j < |es| && k in Prefixes(es[j], names, empties) &&
              forall l | 0 <= l < j :: Nullable(es[l], names, empties) {
        assert k in Prefixes(rest[j - 1], names, empties);
      }
    }
  }

  /** A choice may enter what any alternative may enter. */
  lemma {:induction false} ChoicePrefixes(es: seq<Expr>, names: Names, empties: seq<bool>, k: nat)
    ensures k in PrefixesOfChoice(es, names, empties) <==>
              exists j | 0 <= j < |es| :: k in Prefixes(es[j], names, empties)
  {
    hide Prefixes;
    if es != [] {
      ChoicePrefixes(es[1..], names, empties, k);
      assert forall j | 1 <= j < |es| :: es[j] == es[1..][j - 1];
    }
  }

  // ---------- nullability ----------

  predicate PredicateFree(e: Expr) {
    match e
    case Sequence(es) => forall k | 0 <= k < |es| :: PredicateFree(es[k])
    case Choice(es) => forall k | 0 <= k < |es| :: PredicateFree(es[k])
    case Optional(inner) => PredicateFree(inner)
    case Repeat(inner, _) => PredicateFree(inner)
    case Predicate(_, _) => false
    case _ => true
  }

  /** The bits solve the rules' equations, and no rule looks ahead. */
  predicate Solved(g: Grammar, empties: seq<bool>) {
    && |empties| == |g.rules|
    && (forall k | 0 <= k < |g.rules| ::
          PredicateFree(g.rules[k].expr) && empties[k] == Nullable(g.rules[k].expr, g.names, empties))
  }

  /** What fails where the input ends is not nullable. */
  lemma {:induction false} FailsAtEnd(g: Grammar, empties: seq<bool>, e: Expr, s: string, h: nat)
    requires Solved(g, empties) && PredicateFree(e) && Eval(g, e, s, |s|, h) == Some(Fail)
    ensures !Nullable(e, g.names, empties)
    decreases h
  {
    match e
    case Ref(n) => FailsAtEnd(g, empties, g.rules[g.names[n]].expr, s, h - 2);
    case Sequence(es) => SequenceFailsAtEnd(g, empties, es, s, h - 1);
    case Choice(es) => ChoiceFailsAtEnd(g, empties, es, s, h - 1);
    case Optional(inner) =>
    case Repeat(inner, one) =>
      if one {
        if Eval(g, inner, s, |s|, h - 1) == Some(Fail) { FailsAtEnd(g, empties, inner, s, h - 1); }
        else { StarMatches(g, inner, s, |s|, h - 1); }
      } else {
        StarMatches(g, inner, s, |s|, h - 1);
      }
    case _ =>
  }

  lemma {:induction false} StarMatches(g: Grammar, e: Expr, s: string, i: nat, h: nat)
    requires i <= |s|
    ensures EvalStar(g, e, s, i, h) != Some(Fail)
    decreases h
  {
    if h > 0 {
      var r := Eval(g, e, s, i, h - 1);
      if r.Some? && r.value.Match? { StarMatches(g, e, s, r.value.end, h - 1); }
    }
  }

  lemma {:induction false} SequenceFailsAtEnd(g: Grammar, empties: seq<bool>, es: seq<Expr>, s: string, h: nat)
    requires Solved(g, empties) && (forall k | 0 <= k < |es| :: PredicateFree(es[k]))
    requires EvalSequence(g, es, s, |s|, h) == Some(Fail)
    ensures exists k | 0 <= k < |es| :: !Nullable(es[k], g.names, empties)
    decreases h
  {
    if Eval(g, es[0], s, |s|, h - 1) == Some(Fail) {
      FailsAtEnd(g, empties, es[0], s, h - 1);
    } else {
      SequenceFailsAtEnd(g, empties, es[1..], s, h - 1);
      var k :| 0 <= k < |es[1..]| && !Nullable(es[1..][k], g.names, empties);
      assert !Nullable(es[k + 1], g.names, empties);
    }
  }

  lemma {:induction false} ChoiceFailsAtEnd(g: Grammar, empties: seq<bool>, es: seq<Expr>, s: string, h: nat)
    requires Solved(g, empties) && (forall k | 0 <= k < |es| :: PredicateFree(es[k]))
    requires EvalChoice(g, es, s, |s|, h) == Some(Fail)
    ensures forall k | 0 <= k < |es| :: !Nullable(es[k], g.names, empties)
    decreases h
  {
    if es != [] {
      FailsAtEnd(g, empties, es[0], s, h - 1);
      ChoiceFailsAtEnd(g, empties, es[1..], s, h - 1);
      assert forall k | 1 <= k < |es| :: es[k] == es[1..][k - 1];
    }
  }

  ghost predicate MatchesAt(g: Grammar, k: nat, s: string, i: nat)
    requires i <= |s|
  {
    exists h: nat :: EvalRule(g, k, s, i, h).Some? && EvalRule(g, k, s, i, h).value.Match?
  }

  lemma NullableMatches(g: Grammar, empties: seq<bool>, k: nat, s: string, h: nat)
    requires Solved(g, empties) && k < |g.rules| && empties[k] && EvalRule(g, k, s, |s|, h).Some?
    ensures MatchesAt(g, k, s, |s|)
  {
    if EvalRule(g, k, s, |s|, h) == Some(Fail) { FailsAtEnd(g, empties, g.rules[k].expr, s, h - 1); }
  }

  lemma NeverMatches(g: Grammar, k: nat, s: string)
    requires forall h: nat :: Consumes(g, k, s, |s|, h)
    ensures !MatchesAt(g, k, s, |s|)
  {
    hide EvalRule;
    forall h: nat ensures !(EvalRule(g, k, s, |s|, h).Some? && EvalRule(g, k, s, |s|, h).value.Match?) {
      assert Consumes(g, k, s, |s|, h);
    }
  }

  /** Where the input ends, a rule matches exactly if it is marked nullable, in a validated
      grammar without predicates. */
  lemma NullableIsEmpty(rules: seq<Rule>, empties: seq<bool>, k: nat, s: string)
    requires Sound(rules, NameMap(rules), empties) && k < |rules|
    requires forall i | 0 <= i < |rules| :: PredicateFree(rules[i].expr)
    ensures empties[k] <==> MatchesAt(Grammar(rules, NameMap(rules)), k, s, |s|)
  {
    hide Acyclic, AllRepeatsConsume, AllDefined, NameMap, UniqueNames, EvalRule, PredicateFree, Nullable;
    var g := Grammar(rules, NameMap(rules));
    ValidGrammarTerminates(rules, k, s, |s|);
    var h: nat :| EvalRule(g, k, s, |s|, h).Some?;
    assert NextNull(rules, g.names, empties) == empties;
    if empties[k] {
      NullableMatches(g, empties, k, s, h);
    } else {
      NeverMatches(g, k, s);
    }
  }

  function Lookahead(): (rules: seq<Rule>) { [Rule("r", Predicate(Any, true))] }

  lemma LookaheadSound()
    ensures Sound(Lookahead(), NameMap(Lookahead()), [true])
  {
    var rules := Lookahead();
    var names := NameMap(rules);
    var edges := Edges(rules, names, [true]);
    assert edges == [Prefixes(rules[0].expr, names, [true])] && edges[0] == {};
    forall p | |p| >= 2 && p[0] < |edges| ensures !Path(edges, p) { assert p[0 + 1] !in edges[p[0]]; }
    forall other: seq<bool> | |other| == 1 ensures NextNull(rules, names, other) == [true] {}
  }

  lemma LookaheadFails(g: Grammar, k: nat, s: string, h: nat)
    requires k < |g.rules| && g.rules[k].expr == Predicate(Any, true)
    ensures EvalRule(g, k, s, |s|, h).None? || EvalRule(g, k, s, |s|, h) == Some(Fail)
  {
    if h >= 2 {
      var inner := Eval(g, Any, s, |s|, h - 2);
      assert inner == if h == 2 then None else Some(Fail);
      assert Eval(g, g.rules[k].expr, s, |s|, h - 1) == inner;
    }
  }

  /** A predicate counts as nullable even where it fails: the rule `r <- &.` is marked, and
      never matches where the input ends. */
  lemma PredicatesCountAsNullable(s: string)
    ensures Sound(Lookahead(), NameMap(Lookahead()), [true])
    ensures !MatchesAt(Grammar(Lookahead(), NameMap(Lookahead())), 0, s, |s|)
  {
    hide Sound, NameMap, EvalRule;
    LookaheadSound();
    var g := Grammar(Lookahead(), NameMap(Lookahead()));
    forall h: nat { LookaheadFails(g, 0, s, h); }
  }

  // ---------- silent rules ----------

  /** No node below is named with a leading underscore, and all are named after rules. */
  predicate Shown(g: Grammar, n: Node) {
    && (n.rule == "" || n.rule[0] != '_') && (exists k | 0 <= k < |g.rules| :: g.rules[k].name == n.rule)
    && forall i | 0 <= i < |n.children| :: Shown(g, n.children[i])
  }

  predicate AllShown(g: Grammar, nodes: seq<Node>) { forall i | 0 <= i < |nodes| :: Shown(g, nodes[i]) }

  predicate ShownIn(g: Grammar, r: Option<Outcome>) { r.Some? && r.value.Match? ==> AllShown(g, r.value.nodes) }

  lemma PrependShown(g: Grammar, nodes: seq<Node>, r: Option<Outcome>)
    requires AllShown(g, nodes) && ShownIn(g, r)
    ensures ShownIn(g, Prepend(nodes, r))
  {
    hide Shown;
  }

  lemma {:induction false} EvalShown(g: Grammar, e: Expr, s: string, i: nat, h: nat)
    requires i <= |s|
    ensures ShownIn(g, Eval(g, e, s, i, h))
    decreases h
  {
    hide Shown;
    if h > 0 {
      match e
      case Ref(n) => if n in g.names { RuleShown(g, g.names[n], s, i, h - 1); }
      case Sequence(es) => SequenceShown(g, es, s, i, h - 1);
      case Choice(es) => ChoiceShown(g, es, s, i, h - 1);
      case Optional(inner) => EvalShown(g, inner, s, i, h - 1);
      case Repeat(inner, one) =>
        EvalShown(g, inner, s, i, h - 1);
        if one {
          var r := Eval(g, inner, s, i, h - 1);
          if r.Some? && r.value.Match? {
            StarShown(g, inner, s, r.value.end, h - 1);
            PrependShown(g, r.value.nodes, EvalStar(g, inner, s, r.value.end, h - 1));
          }
        } else {
          StarShown(g, inner, s, i, h - 1);
        }
      case _ =>
    }
  }

  lemma {:induction false} SequenceShown(g: Grammar, es: seq<Expr>, s: string, i: nat, h: nat)
    requires i <= |s|
    ensures ShownIn(g, EvalSequence(g, es, s, i, h))
    decreases h
  {
    hide Shown;
    if h > 0 && es != [] {
      EvalShown(g, es[0], s, i, h - 1);
      var r := Eval(g, es[0], s, i, h - 1);
      if r.Some? && r.value.Match? {
        SequenceShown(g, es[1..], s, r.value.end, h - 1);
        PrependShown(g, r.value.nodes, EvalSequence(g, es[1..], s, r.value.end, h - 1));
      }
    }
  }

  lemma {:induction false} ChoiceShown(g: Grammar, es: seq<Expr>, s: string, i: nat, h: nat)
    requires i <= |s|
    ensures ShownIn(g, EvalChoice(g, es, s, i, h))
    decreases h
  {
    hide Shown;
    if h > 0 && es != [] {
      EvalShown(g, es[0], s, i, h - 1);
      ChoiceShown(g, es[1..], s, i, h - 1);
    }
  }

  lemma {:induction false} StarShown(g: Grammar, e: Expr, s: string, i: nat, h: nat)
    requires i <= |s|
    ensures ShownIn(g, EvalStar(g, e, s, i, h))
    decreases h
  {
    hide Shown;
    if h > 0 {
      EvalShown(g, e, s, i, h - 1);
      var r := Eval(g, e, s, i, h - 1);
      if r.Some? && r.value.Match? {
        StarShown(g, e, s, r.value.end, h - 1);
        PrependShown(g, r.value.nodes, EvalStar(g, e, s, r.value.end, h - 1));
      }
    }
  }

  lemma {:induction false} RuleShown(g: Grammar, k: nat, s: string, i: nat, h: nat)
    requires i <= |s|
    ensures ShownIn(g, EvalRule(g, k, s, i, h))
    decreases h
  {
    hide Eval;
    if h > 0 && k < |g.rules| { EvalShown(g, g.rules[k].expr, s, i, h - 1); }
  }

  /** A tree is named after the rule it was parsed with, even a silent one; nothing below it is
      silent. */
  lemma TreeShown(g: Grammar, k: nat, s: string, h: nat)
    requires k < |g.rules| && EvalRule(g, k, s, 0, h).Some? && EvalRule(g, k, s, 0, h).value.Match?
    ensures var n := RootNode(g.rules[k].name, s, EvalRule(g, k, s, 0, h).value.nodes);
            n.rule == g.rules[k].name && AllShown(g, n.children)
  {
    hide Eval, Shown;
    EvalShown(g, g.rules[k].expr, s, 0, h - 1);
  }
}
