/** Grammar validation of crates/peg/src/lib.rs: nullability, prefix edges and the
    left-recursion check. */
module PegGrammar {
  import opened Options

  datatype Expr =
    | Ref(name: string)
    | Lit(text: string, insensitive: bool)
    | Class(ranges: seq<(char, char)>, negated: bool)
    | Any
    | Sequence(items: seq<Expr>)
    | Choice(items: seq<Expr>)
    | Optional(inner: Expr)
    | Repeat(inner: Expr, atLeastOne: bool)
    | Predicate(inner: Expr, positive: bool)

  datatype Rule = Rule(name: string, expr: Expr)

  type Names = map<string, nat>

  datatype GrammarError =
    | DuplicateRule(name: string)
    | UndefinedRule(name: string)
    | NullableRepetition(name: string)
    | LeftRecursion(name: string)

  // ---------- the recursive passes ----------

  /** `nullable`: whether e may succeed without consuming input, given the rules' bits. */
  predicate Nullable(e: Expr, names: Names, empties: seq<bool>) {
    match e
    case Ref(n) => n in names && names[n] < |empties| && empties[names[n]]
    case Lit(s, _) => s == []
    case Any => false
    case Class(_, _) => false
    case Sequence(es) => forall k | 0 <= k < |es| :: Nullable(es[k], names, empties)
    case Choice(es) => exists k | 0 <= k < |es| :: Nullable(es[k], names, empties)
    case Optional(_) => true
    case Predicate(_, _) => true
    case Repeat(inner, one) => !one || Nullable(inner, names, empties)
  }

  /** `prefixes`: the rules that e may enter before consuming input. */
  function Prefixes(e: Expr, names: Names, empties: seq<bool>): (out: set<nat>)
    decreases e, 1
  {
    match e
    case Ref(n) => if n in names then {names[n]} else {}
    case Sequence(es) => PrefixesOfSequence(es, names, empties)
    case Choice(es) => PrefixesOfChoice(es, names, empties)
    case Optional(inner) => Prefixes(inner, names, empties)
    case Repeat(inner, _) => Prefixes(inner, names, empties)
    case Predicate(inner, _) => Prefixes(inner, names, empties)
    case _ => {}
  }

  function PrefixesOfSequence(es: seq<Expr>, names: Names, empties: seq<bool>): (out: set<nat>)
    decreases es, 0
  {
    if es == [] then {}
    else
      Prefixes(es[0], names, empties)
      + if Nullable(es[0], names, empties) then PrefixesOfSequence(es[1..], names, empties) else {}
  }

  function PrefixesOfChoice(es: seq<Expr>, names: Names, empties: seq<bool>): (out: set<nat>)
    decreases es, 0
  {
    if es == [] then {}
    else Prefixes(es[0], names, empties) + PrefixesOfChoice(es[1..], names, empties)
  }

  /** The first `walk`: every reference names a rule. */
  predicate Defined(e: Expr, names: Names) {
    match e
    case Ref(n) => n in names
    case Sequence(es) => forall k | 0 <= k < |es| :: Defined(es[k], names)
    case Choice(es) => forall k | 0 <= k < |es| :: Defined(es[k], names)
    case Optional(inner) => Defined(inner, names)
    case Repeat(inner, _) => Defined(inner, names)
    case Predicate(inner, _) => Defined(inner, names)
    case _ => true
  }

  /** The name at which that walk stops: the first that is no rule's. */
  function Missing(e: Expr, names: Names): (m: Option<string>)
    ensures m.None? <==> Defined(e, names)
    decreases e, 1
  {
    match e
    case Ref(n) => if n in names then None else Some(n)
    case Sequence(es) => MissingIn(es, names)
    case Choice(es) => MissingIn(es, names)
    case Optional(inner) => Missing(inner, names)
    case Repeat(inner, _) => Missing(inner, names)
    case Predicate(inner, _) => Missing(inner, names)
    case _ => None
  }

  function MissingIn(es: seq<Expr>, names: Names): (m: Option<string>)
    ensures m.None? <==> forall k | 0 <= k < |es| :: Defined(es[k], names)
    decreases es, 0
  {
    if es == [] then None
    else
      assert forall k | 1 <= k < |es| :: es[k] == es[1..][k - 1];
      var m := Missing(es[0], names);
      if m.Some? then m else MissingIn(es[1..], names)
  }

  /** The names an expression refers to, in the order in which they are written. */
  function References(e: Expr): (ns: seq<string>)
    decreases e, 1
  {
    match e
    case Ref(n) => [n]
    case Sequence(es) => ReferencesIn(es)
    case Choice(es) => ReferencesIn(es)
    case Optional(inner) => References(inner)
    case Repeat(inner, _) => References(inner)
    case Predicate(inner, _) => References(inner)
    case _ => []
  }

  function ReferencesIn(es: seq<Expr>): (ns: seq<string>)
    decreases es, 0
  {
    if es == [] then [] else References(es[0]) + ReferencesIn(es[1..])
  }

  function FirstOutside(ns: seq<string>, names: Names): (m: Option<string>) {
    if ns == [] then None else if ns[0] !in names then Some(ns[0]) else FirstOutside(ns[1..], names)
  }

  lemma {:induction false} FirstOutsideConcat(a: seq<string>, b: seq<string>, names: Names)
    ensures FirstOutside(a + b, names) ==
              if FirstOutside(a, names).Some? then FirstOutside(a, names) else FirstOutside(b, names)
  {
    if a == [] {
      assert a + b == b;
    } else {
      FirstOutsideConcat(a[1..], b, names);
      assert (a + b)[1..] == a[1..] + b;
    }
  }

  /** The missing name is the first reference that names no rule. */
  lemma {:induction false} MissingIsFirst(e: Expr, names: Names)
    ensures Missing(e, names) == FirstOutside(References(e), names)
    decreases e, 1
  {
    match e
    case Sequence(es) => MissingInIsFirst(es, names);
    case Choice(es) => MissingInIsFirst(es, names);
    case Optional(inner) => MissingIsFirst(inner, names);
    case Repeat(inner, _) => MissingIsFirst(inner, names);
    case Predicate(inner, _) => MissingIsFirst(inner, names);
    case _ =>
  }

  lemma {:induction false} MissingInIsFirst(es: seq<Expr>, names: Names)
    ensures MissingIn(es, names) == FirstOutside(ReferencesIn(es), names)
    decreases es, 0
  {
    if es != [] {
      MissingIsFirst(es[0], names);
      MissingInIsFirst(es[1..], names);
      FirstOutsideConcat(References(es[0]), ReferencesIn(es[1..]), names);
    }
  }

  /** The second `walk`: no repetition has a nullable body. */
  predicate RepeatsConsume(e: Expr, names: Names, empties: seq<bool>) {
    match e
    case Sequence(es) => forall k | 0 <= k < |es| :: RepeatsConsume(es[k], names, empties)
    case Choice(es) => forall k | 0 <= k < |es| :: RepeatsConsume(es[k], names, empties)
    case Optional(inner) => RepeatsConsume(inner, names, empties)
    case Repeat(inner, _) => !Nullable(inner, names, empties) && RepeatsConsume(inner, names, empties)
    case Predicate(inner, _) => RepeatsConsume(inner, names, empties)
    case _ => true
  }

  // ---------- what an accepted grammar is ----------

  predicate UniqueNames(rules: seq<Rule>) {
    forall i, j | 0 <= i < j < |rules| :: rules[i].name != rules[j].name
  }

  function NameMap(rules: seq<Rule>): (names: Names) {
    if rules == [] then map[]
    else NameMap(rules[..|rules| - 1])[rules[|rules| - 1].name := |rules| - 1]
  }

  predicate AllDefined(rules: seq<Rule>, names: Names) {
    forall i | 0 <= i < |rules| :: Defined(rules[i].expr, names)
  }

  predicate Leq(a: seq<bool>, b: seq<bool>) {
    |a| == |b| && forall i | 0 <= i < |a| :: a[i] ==> b[i]
  }

  function NextNull(rules: seq<Rule>, names: Names, empties: seq<bool>): (next: seq<bool>)
    ensures |next| == |rules|
    ensures forall i | 0 <= i < |rules| :: next[i] == Nullable(rules[i].expr, names, empties)
  {
    seq(|rules|, i requires 0 <= i < |rules| => Nullable(rules[i].expr, names, empties))
  }

  /** The least nullability assignment that the rules respect. */
  ghost predicate LeastNull(rules: seq<Rule>, names: Names, empties: seq<bool>) {
    && NextNull(rules, names, empties) == empties
    && forall other: seq<bool> | |other| == |rules| && Leq(NextNull(rules, names, other), other) :: Leq(empties, other)
  }

  function Edges(rules: seq<Rule>, names: Names, empties: seq<bool>): (edges: seq<set<nat>>)
    ensures |edges| == |rules|
    ensures forall i | 0 <= i < |rules| :: edges[i] == Prefixes(rules[i].expr, names, empties)
  {
    seq(|rules|, i requires 0 <= i < |rules| => Prefixes(rules[i].expr, names, empties))
  }

  predicate Path(edges: seq<set<nat>>, p: seq<nat>) {
    && |p| >= 2
    && (forall k | 0 <= k < |p| :: p[k] < |edges|)
    && forall k | 0 <= k < |p| - 1 :: p[k + 1] in edges[p[k]]
  }

  /** j is entered from i through one or more prefix edges. */
  ghost predicate Reaches(edges: seq<set<nat>>, i: nat, j: nat) {
    exists p :: Path(edges, p) && p[0] == i && p[|p| - 1] == j
  }

  ghost predicate Acyclic(edges: seq<set<nat>>) {
    forall i | 0 <= i < |edges| :: !Reaches(edges, i, i)
  }

  predicate AllRepeatsConsume(rules: seq<Rule>, names: Names, empties: seq<bool>) {
    forall i | 0 <= i < |rules| :: RepeatsConsume(rules[i].expr, names, empties)
  }

  /** What acceptance promises, for the least nullability assignment. */
  ghost predicate Sound(rules: seq<Rule>, names: Names, empties: seq<bool>) {
    && UniqueNames(rules) && names == NameMap(rules) && AllDefined(rules, names)
    && LeastNull(rules, names, empties)
    && AllRepeatsConsume(rules, names, empties)
    && Acyclic(Edges(rules, names, empties))
  }

  // ---------- names ----------

  lemma {:induction false} NameMapDomain(rules: seq<Rule>, n: string)
    ensures n in NameMap(rules) <==> exists i | 0 <= i < |rules| :: rules[i].name == n
    ensures n in NameMap(rules) ==> NameMap(rules)[n] < |rules| && rules[NameMap(rules)[n]].name == n
  {
    if rules != [] {
      var k := |rules| - 1;
      NameMapDomain(rules[..k], n);
      if n in NameMap(rules[..k]) { assert rules[..k][NameMap(rules[..k])[n]].name == n; }
      if i :| 0 <= i < |rules| && rules[i].name == n {
        if i < k { assert rules[..k][i].name == n; }
      }
      if rules[k].name == n { assert rules[k].name == n; }
    }
  }

  /** Every name maps to an index of a rule. */
  predicate NamesInRange(names: Names, n: nat) {
    forall x | x in names :: names[x] < n
  }

  lemma NameMapInRange(rules: seq<Rule>)
    ensures NamesInRange(NameMap(rules), |rules|)
  {
    forall x | x in NameMap(rules) ensures NameMap(rules)[x] < |rules| { NameMapDomain(rules, x); }
  }

  /** Rule i is the first whose name an earlier rule has. */
  ghost predicate Repeated(rules: seq<Rule>, i: nat, name: string)
    requires i < |rules|
  {
    UniqueNames(rules[..i]) && rules[i].name == name && exists j | 0 <= j < i :: rules[j].name == name
  }

  method CollectNames(rules: seq<Rule>) returns (r: Result<Names, GrammarError>)
    ensures r.Ok? <==> UniqueNames(rules)
    ensures r.Ok? ==> r.value == NameMap(rules)
    ensures r.Err? ==> r.error.DuplicateRule? && exists i | 0 <= i < |rules| :: Repeated(rules, i, r.error.name)
  {
    var names: Names := map[];
    for i := 0 to |rules|
      invariant UniqueNames(rules[..i]) && names == NameMap(rules[..i])
    {
      NameMapDomain(rules[..i], rules[i].name);
      if rules[i].name in names {
        ghost var j :| 0 <= j < i && rules[..i][j].name == rules[i].name;
        assert rules[j].name == rules[i].name && Repeated(rules, i, rules[i].name);
        return Err(DuplicateRule(rules[i].name));
      }
      forall j | 0 <= j < i ensures rules[j].name != rules[i].name {
        assert rules[..i][j].name == rules[j].name;
      }
      names := names[rules[i].name := i];
      assert rules[..i + 1][..i] == rules[..i];
    }
    assert rules[..|rules|] == rules;
    return Ok(names);
  }

  // ---------- nullability ----------

  lemma {:induction false} NullableMonotone(e: Expr, names: Names, a: seq<bool>, b: seq<bool>)
    requires Leq(a, b)
    ensures Nullable(e, names, a) ==> Nullable(e, names, b)
  {
    match e
    case Sequence(es) =>
      forall k | 0 <= k < |es| ensures Nullable(es[k], names, a) ==> Nullable(es[k], names, b) {
        NullableMonotone(es[k], names, a, b);
      }
    case Choice(es) =>
      forall k | 0 <= k < |es| ensures Nullable(es[k], names, a) ==> Nullable(es[k], names, b) {
        NullableMonotone(es[k], names, a, b);
      }
    case Repeat(inner, _) => NullableMonotone(inner, names, a, b);
    case _ =>
  }

  lemma NextNullMonotone(rules: seq<Rule>, names: Names, a: seq<bool>, b: seq<bool>)
    requires Leq(a, b)
    ensures Leq(NextNull(rules, names, a), NextNull(rules, names, b))
  {
    forall i | 0 <= i < |rules|
      ensures Nullable(rules[i].expr, names, a) ==> Nullable(rules[i].expr, names, b)
    {
      NullableMonotone(rules[i].expr, names, a, b);
    }
  }

  function Unset(a: seq<bool>): (n: nat) {
    if a == [] then 0 else (if a[0] then 0 else 1) + Unset(a[1..])
  }

  lemma {:induction false} UnsetDecreases(a: seq<bool>, b: seq<bool>)
    requires Leq(a, b)
    ensures Unset(b) <= Unset(a)
    ensures a != b ==> Unset(b) < Unset(a)
  {
    if a != [] {
      assert Leq(a[1..], b[1..]);
      UnsetDecreases(a[1..], b[1..]);
      if a != b && a[0] == b[0] { assert [a[0]] + a[1..] == a && [b[0]] + b[1..] == b; }
    }
  }

  /** The iteration of `validate` stops at the least fixpoint. */
  method Nullability(rules: seq<Rule>, names: Names) returns (empties: seq<bool>)
    ensures LeastNull(rules, names, empties)
  {
    empties := seq(|rules|, _ => false);
    while true
      invariant |empties| == |rules| && Leq(empties, NextNull(rules, names, empties))
      invariant forall other: seq<bool> | |other| == |rules| && Leq(NextNull(rules, names, other), other) ::
                  Leq(empties, other)
      decreases Unset(empties)
    {
      var next := NextNull(rules, names, empties);
      if next == empties { break; }
      UnsetDecreases(empties, next);
      NextNullMonotone(rules, names, empties, next);
      forall other: seq<bool> | |other| == |rules| && Leq(NextNull(rules, names, other), other)
        ensures Leq(next, other)
      {
        NextNullMonotone(rules, names, empties, other);
      }
      empties := next;
    }
  }

  lemma LeastNullUnique(rules: seq<Rule>, names: Names, a: seq<bool>, b: seq<bool>)
    requires LeastNull(rules, names, a) && LeastNull(rules, names, b)
    ensures a == b
  {
    assert Leq(NextNull(rules, names, a), a) && Leq(NextNull(rules, names, b), b);
    assert Leq(a, b) && Leq(b, a);
  }

  // ---------- left recursion ----------

  predicate EdgesInRange(edges: seq<set<nat>>) {
    forall i, j | 0 <= i < |edges| && j in edges[i] :: j < |edges|
  }

  lemma {:induction false} PrefixesInRange(e: Expr, names: Names, empties: seq<bool>, n: nat)
    requires NamesInRange(names, n)
    ensures forall j | j in Prefixes(e, names, empties) :: j < n
    decreases e, 1
  {
    match e
    case Sequence(es) => SequencePrefixesInRange(es, names, empties, n);
    case Choice(es) => ChoicePrefixesInRange(es, names, empties, n);
    case Optional(inner) => PrefixesInRange(inner, names, empties, n);
    case Repeat(inner, _) => PrefixesInRange(inner, names, empties, n);
    case Predicate(inner, _) => PrefixesInRange(inner, names, empties, n);
    case _ =>
  }

  lemma {:induction false} SequencePrefixesInRange(es: seq<Expr>, names: Names, empties: seq<bool>, n: nat)
    requires NamesInRange(names, n)
    ensures forall j | j in PrefixesOfSequence(es, names, empties) :: j < n
    decreases es, 0
  {
    if es != [] {
      PrefixesInRange(es[0], names, empties, n);
      SequencePrefixesInRange(es[1..], names, empties, n);
    }
  }

  lemma {:induction false} ChoicePrefixesInRange(es: seq<Expr>, names: Names, empties: seq<bool>, n: nat)
    requires NamesInRange(names, n)
    ensures forall j | j in PrefixesOfChoice(es, names, empties) :: j < n
    decreases es, 0
  {
    if es != [] {
      PrefixesInRange(es[0], names, empties, n);
      ChoicePrefixesInRange(es[1..], names, empties, n);
    }
  }

  lemma EdgesRange(rules: seq<Rule>, names: Names, empties: seq<bool>)
    requires NamesInRange(names, |rules|)
    ensures EdgesInRange(Edges(rules, names, empties))
  {
    forall i, j | 0 <= i < |rules| && j in Edges(rules, names, empties)[i] ensures j < |rules| {
      PrefixesInRange(rules[i].expr, names, empties, |rules|);
    }
  }

  lemma ReachesByEdge(edges: seq<set<nat>>, i: nat, j: nat)
    requires i < |edges| && j < |edges| && j in edges[i]
    ensures Reaches(edges, i, j)
  {
    assert Path(edges, [i, j]);
  }

  lemma ReachesExtend(edges: seq<set<nat>>, i: nat, j: nat, k: nat)
    requires Reaches(edges, i, j) && j < |edges| && k < |edges| && k in edges[j]
    ensures Reaches(edges, i, k)
  {
    var p :| Path(edges, p) && p[0] == i && p[|p| - 1] == j;
    var q := p + [k];
    forall l | 0 <= l < |q| - 1 ensures q[l + 1] in edges[q[l]] {
      if l < |p| - 1 { assert p[l + 1] in edges[p[l]]; }
    }
    assert Path(edges, q);
  }

  lemma ReachesTrans(edges: seq<set<nat>>, i: nat, j: nat, k: nat)
    requires Reaches(edges, i, j) && Reaches(edges, j, k)
    ensures Reaches(edges, i, k)
  {
    var p :| Path(edges, p) && p[0] == i && p[|p| - 1] == j;
    var q :| Path(edges, q) && q[0] == j && q[|q| - 1] == k;
    var r := p + q[1..];
    forall l | 0 <= l < |r| - 1 ensures r[l + 1] in edges[r[l]] {
      if l < |p| - 1 {
        assert p[l + 1] in edges[p[l]];
      } else {
        assert q[l - |p| + 2] in edges[q[l - |p| + 1]];
      }
    }
    assert Path(edges, r);
  }

  /** A set that contains the successors of i and of its own members contains all that i reaches. */
  lemma {:induction false} ClosedContains(edges: seq<set<nat>>, i: nat, seen: set<nat>, p: seq<nat>, k: nat)
    requires i < |edges| && edges[i] <= seen
    requires forall j | j in seen :: j < |edges| && edges[j] <= seen
    requires Path(edges, p) && p[0] == i && 1 <= k < |p|
    ensures p[k] in seen
  {
    if k > 1 { ClosedContains(edges, i, seen, p, k - 1); }
    assert p[k - 1 + 1] in edges[p[k - 1]];
  }

  method Elements(s: set<nat>) returns (q: seq<nat>)
    ensures forall x :: x in q <==> x in s
  {
    q := [];
    var rest := s;
    while rest != {}
      invariant rest <= s && forall x :: x in q <==> x in s - rest
      decreases rest
    {
      var x :| x in rest;
      q, rest := q + [x], rest - {x};
    }
  }

  ghost function Below(n: nat): (s: set<nat>)
    ensures forall k: nat :: k in s <==> k < n
  {
    if n == 0 then {} else Below(n - 1) + {n - 1}
  }

  /** The worklist of `validate`: whether rule i can enter itself before consuming input. */
  method FindsItself(edges: seq<set<nat>>, i: nat) returns (found: bool)
    requires i < |edges| && EdgesInRange(edges)
    ensures found <==> Reaches(edges, i, i)
  {
    var seen: set<nat> := {};
    var pending: seq<nat> := Elements(edges[i]);
    ghost var all := Below(|edges|);
    forall j | j in pending ensures Reaches(edges, i, j) { ReachesByEdge(edges, i, j); }
    while pending != []
      invariant forall j | j in pending :: j < |edges| && Reaches(edges, i, j)
      invariant seen <= all && i !in seen && forall j | j in seen :: Reaches(edges, i, j)
      invariant forall j | j in edges[i] :: j in seen || j in pending
      invariant forall k, j | k in seen && j in edges[k] :: j in seen || j in pending
      decreases all - seen, |pending|
    {
      ghost var before := pending;
      var j := pending[|pending| - 1];
      pending := pending[..|pending| - 1];
      assert forall x :: x in before <==> x in pending || x == j;
      if j == i { return true; }
      if j !in seen {
        seen := seen + {j};
        var more := Elements(edges[j]);
        forall k | k in more ensures Reaches(edges, i, k) { ReachesExtend(edges, i, j, k); }
        pending := pending + more;
      }
    }
    if Reaches(edges, i, i) {
      ghost var p :| Path(edges, p) && p[0] == i && p[|p| - 1] == i;
      ClosedContains(edges, i, seen, p, |p| - 1);
    }
    return false;
  }

  // ---------- validate ----------

  method NullableRepeat(rules: seq<Rule>, names: Names, empties: seq<bool>) returns (r: Option<nat>)
    ensures r.None? <==> AllRepeatsConsume(rules, names, empties)
    ensures r.Some? ==> r.value < |rules| && !RepeatsConsume(rules[r.value].expr, names, empties)
                        && forall k | 0 <= k < r.value :: RepeatsConsume(rules[k].expr, names, empties)
  {
    for i := 0 to |rules|
      invariant forall k | 0 <= k < i :: RepeatsConsume(rules[k].expr, names, empties)
    {
      if !RepeatsConsume(rules[i].expr, names, empties) { return Some(i); }
    }
    return None;
  }

  method LeftRecursive(edges: seq<set<nat>>) returns (r: Option<nat>)
    requires EdgesInRange(edges)
    ensures r.None? <==> Acyclic(edges)
    ensures r.Some? ==> r.value < |edges| && Reaches(edges, r.value, r.value)
                        && forall k | 0 <= k < r.value :: !Reaches(edges, k, k)
  {
    for i := 0 to |edges|
      invariant forall k | 0 <= k < i :: !Reaches(edges, k, k)
    {
      var found := FindsItself(edges, i);
      if found { return Some(i); }
    }
    return None;
  }

  /** Rule i is the first that the error is about. */
  ghost predicate FirstAt(rules: seq<Rule>, empties: seq<bool>, error: GrammarError, i: nat)
    requires i < |rules|
  {
    var names := NameMap(rules);
    match error
    case DuplicateRule(n) => Repeated(rules, i, n)
    case UndefinedRule(n) =>
      FirstOutside(References(rules[i].expr), names) == Some(n) &&
          forall k | 0 <= k < i :: Defined(rules[k].expr, names)
    case NullableRepetition(n) =>
      && n == rules[i].name && !RepeatsConsume(rules[i].expr, names, empties)
      && forall k | 0 <= k < i :: RepeatsConsume(rules[k].expr, names, empties)
    case LeftRecursion(n) =>
      && n == rules[i].name && Reaches(Edges(rules, names, empties), i, i)
      && forall k | 0 <= k < i :: !Reaches(Edges(rules, names, empties), k, k)
  }

  ghost predicate Reported(rules: seq<Rule>, error: GrammarError) {
    forall empties | LeastNull(rules, NameMap(rules), empties) ::
      exists i | 0 <= i < |rules| :: FirstAt(rules, empties, error, i)
  }

  lemma IsReported(rules: seq<Rule>, error: GrammarError, i: nat, empties: seq<bool>)
    requires i < |rules| && FirstAt(rules, empties, error, i)
    requires error.DuplicateRule? || error.UndefinedRule? || LeastNull(rules, NameMap(rules), empties)
    ensures Reported(rules, error)
  {
    hide LeastNull, NameMap, Reaches, RepeatsConsume, Defined, Repeated, FirstOutside, References;
    forall other | LeastNull(rules, NameMap(rules), other)
      ensures exists k | 0 <= k < |rules| :: FirstAt(rules, other, error, k)
    {
      if LeastNull(rules, NameMap(rules), empties) { LeastNullUnique(rules, NameMap(rules), empties, other); }
      assert FirstAt(rules, other, error, i);
    }
  }

  method UndefinedReference(rules: seq<Rule>, names: Names) returns (r: Option<(nat, string)>)
    ensures r.None? <==> AllDefined(rules, names)
    ensures r.Some? ==>
              && r.value.0 < |rules| && FirstOutside(References(rules[r.value.0].expr), names) == Some(r.value.1)
              && forall k | 0 <= k < r.value.0 :: Defined(rules[k].expr, names)
  {
    hide FirstOutside, References, Defined;
    for i := 0 to |rules|
      invariant forall k | 0 <= k < i :: Defined(rules[k].expr, names)
    {
      var missing := Missing(rules[i].expr, names);
      MissingIsFirst(rules[i].expr, names);
      if missing.Some? { return Some((i, missing.value)); }
    }
    return None;
  }

  /** `validate` accepts exactly the sound grammars, and reports the first check that fails and
      the first rule for which it does. */
  method Validate(rules: seq<Rule>) returns (r: Result<Names, GrammarError>)
    ensures r.Ok? <==> exists empties :: Sound(rules, NameMap(rules), empties)
    ensures r.Ok? ==> r.value == NameMap(rules)
    ensures r.Err? && r.error.DuplicateRule? <==> !UniqueNames(rules)
    ensures r.Err? && r.error.UndefinedRule? <==> UniqueNames(rules) && !AllDefined(rules, NameMap(rules))
    ensures forall empties | LeastNull(rules, NameMap(rules), empties) ::
              r.Err? && r.error.NullableRepetition? <==>
                UniqueNames(rules) && AllDefined(rules, NameMap(rules))
                && !AllRepeatsConsume(rules, NameMap(rules), empties)
    ensures r.Err? ==> Reported(rules, r.error)
  {
    hide Reported, Repeated, FirstOutside, References;
    var named := CollectNames(rules);
    if named.Err? {
      ghost var i :| 0 <= i < |rules| && Repeated(rules, i, named.error.name);
      IsReported(rules, named.error, i, []);
      return named;
    }
    var names := named.value;
    var missing := UndefinedReference(rules, names);
    if missing.Some? {
      r := Err(UndefinedRule(missing.value.1));
      IsReported(rules, r.error, missing.value.0, []);
      return;
    }
    var empties := Nullability(rules, names);
    forall other | LeastNull(rules, names, other) ensures other == empties {
      LeastNullUnique(rules, names, empties, other);
    }
    var bad := NullableRepeat(rules, names, empties);
    if bad.Some? {
      r := Err(NullableRepetition(rules[bad.value].name));
      IsReported(rules, r.error, bad.value, empties);
      return;
    }
    NameMapInRange(rules);
    EdgesRange(rules, names, empties);
    var entry := LeftRecursive(Edges(rules, names, empties));
    if entry.Some? {
      r := Err(LeftRecursion(rules[entry.value].name));
      IsReported(rules, r.error, entry.value, empties);
      return;
    }
    assert Sound(rules, names, empties);
    return Ok(names);
  }
}
