/** The binder's grouping checks and what the planner's collection finds. */
module GroupCheck {
  import opened Options
  import opened Sql
  import opened Bound
  import opened BoundMeaning
  import opened Planner
  import opened SelectPlan

  /** `contains_aggregate`. */
  predicate ContainsAggregate(e: Expr) {
    e.kind.Aggregate? || exists i | 0 <= i < |VisibleChildren(e)| :: ContainsAggregate(VisibleChildren(e)[i])
  }

  /** `validate_grouped`. */
  predicate ValidGrouped(e: Expr, gs: seq<Expr>) {
    || Contains(gs, e) || e.kind.Aggregate?
    || (!e.kind.ColumnRef? && forall i | 0 <= i < |VisibleChildren(e)| :: ValidGrouped(VisibleChildren(e)[i], gs))
  }

  /** The `is_aggregate` flag the binder computes. */
  predicate BinderFlag(q: Query) {
    || q.groupBy != [] || q.having.Some?
    || (exists i | 0 <= i < |q.projection| :: ContainsAggregate(q.projection[i]))
    || (exists i | 0 <= i < |q.order| :: ContainsAggregate(OrderExprs(q.order)[i]))
  }

  predicate Predicate(p: Option<Expr>, s: Schema, aggregates: bool) {
    p.Some? ==> p.value.dataType == Boolean && WellBound(p.value, s, aggregates, false)
  }

  /** What `bind_select` establishes of the queries it returns. */
  predicate QueryBound(s: Schema, q: Query) {
    && Predicate(q.filter, s, false) && Predicate(q.having, s, true)
    && (forall i | 0 <= i < |q.groupBy| :: WellBound(q.groupBy[i], s, false, false))
    && (forall i | 0 <= i < |WindowedExprs(q)| :: WellBound(WindowedExprs(q)[i], s, true, true))
    && q.isAggregate == BinderFlag(q)
    && (q.isAggregate ==> forall i | 0 <= i < |GroupedExprs(q)| :: ValidGrouped(GroupedExprs(q)[i], q.groupBy))
  }

  // ---------- what is collected ----------

  lemma {:induction false} OutermostAllExact(whole: Expr, cs: seq<Expr>, windows: bool, a: Expr)
    requires forall i | 0 <= i < |cs| :: cs[i] < whole
    ensures a in OutermostAll(whole, cs, windows) <==> exists i | 0 <= i < |cs| :: a in Outermost(cs[i], windows)
  {
    hide Outermost;
    if cs != [] {
      var n := |cs| - 1;
      OutermostAllExact(whole, cs[..n], windows, a);
      if a in OutermostAll(whole, cs[..n], windows) {
        var i :| 0 <= i < n && a in Outermost(cs[..n][i], windows);
        assert a in Outermost(cs[i], windows);
      }
      if i :| 0 <= i < |cs| && a in Outermost(cs[i], windows) {
        if i < n { assert a in Outermost(cs[..n][i], windows); }
      }
    }
  }

  /** Below an expression that is not itself wanted, what is found in a child is found in it. */
  lemma OutermostChild(e: Expr, windows: bool, a: Expr)
    requires !Wanted(e, windows)
    ensures a in Outermost(e, windows) <==> exists i | 0 <= i < |Children(e)| :: a in Outermost(Children(e)[i], windows)
  {
    hide Children;
    OutermostAllExact(e, Children(e), windows, a);
  }

  /** Collecting finds everything, up to equality, and nothing else. */
  lemma {:induction false} CollectExact(es: seq<Expr>, windows: bool)
    ensures forall i, a | 0 <= i < |es| && a in Outermost(es[i], windows) :: Contains(CollectFrom(es, windows), a)
    ensures forall a | a in CollectFrom(es, windows) :: exists i | 0 <= i < |es| :: a in Outermost(es[i], windows)
  {
    hide Outermost, AddAll, Same;
    if es != [] {
      var n := |es| - 1;
      CollectExact(es[..n], windows);
      var before, all := CollectFrom(es[..n], windows), CollectFrom(es, windows);
      var last := Outermost(es[n], windows);
      AddAllExact(before, last);
      forall i, a | 0 <= i < |es| && a in Outermost(es[i], windows) ensures Contains(all, a) {
        if i < n {
          assert es[..n][i] == es[i] && a in Outermost(es[..n][i], windows);
          assert Contains(before, a);
          var k :| 0 <= k < |before| && Same(before[k], a);
          assert Same(all[k], a);
        }
      }
      forall a | a in all ensures exists i | 0 <= i < |es| :: a in Outermost(es[i], windows) {
        var k :| 0 <= k < |all| && all[k] == a;
        if k < |before| {
          assert a in before;
          var i :| 0 <= i < n && a in Outermost(es[..n][i], windows);
          assert a in Outermost(es[i], windows);
        } else {
          assert a in Outermost(es[n], windows);
        }
      }
    }
  }

  lemma CollectFinds(es: seq<Expr>, windows: bool, i: nat, a: Expr)
    requires i < |es| && a in Outermost(es[i], windows)
    ensures Contains(CollectFrom(es, windows), a)
  {
    hide Outermost, CollectFrom, Contains;
    CollectExact(es, windows);
  }

  /** The binder's aggregate test and the planner's collection agree. */
  lemma {:induction false} AggregateTestsAgree(e: Expr)
    ensures ContainsAggregate(e) <==> Outermost(e, false) != []
    decreases e
  {
    hide Children;
    if !e.kind.Aggregate? {
      var cs := Children(e);
      assert VisibleChildren(e) == cs;
      forall i | 0 <= i < |cs| ensures ContainsAggregate(cs[i]) <==> Outermost(cs[i], false) != [] {
        AggregateTestsAgree(cs[i]);
      }
      if Outermost(e, false) != [] {
        OutermostChild(e, false, Outermost(e, false)[0]);
        var i :| 0 <= i < |cs| && Outermost(e, false)[0] in Outermost(cs[i], false);
        assert ContainsAggregate(VisibleChildren(e)[i]);
      }
      if i :| 0 <= i < |cs| && Outermost(cs[i], false) != [] {
        var a := Outermost(cs[i], false)[0];
        assert a in Outermost(cs[i], false);
        OutermostChild(e, false, a);
      }
    }
  }

  lemma CollectEmpty(es: seq<Expr>)
    ensures CollectFrom(es, false) != [] <==> exists i | 0 <= i < |es| :: ContainsAggregate(es[i])
  {
    hide CollectFrom, Outermost, ContainsAggregate, Same;
    CollectExact(es, false);
    var found := CollectFrom(es, false);
    if found != [] {
      assert found[0] in found;
      var i :| 0 <= i < |es| && found[0] in Outermost(es[i], false);
      AggregateTestsAgree(es[i]);
    }
    if i :| 0 <= i < |es| && ContainsAggregate(es[i]) {
      AggregateTestsAgree(es[i]);
      assert Outermost(es[i], false)[0] in Outermost(es[i], false);
      assert Contains(found, Outermost(es[i], false)[0]);
    }
  }

  /** The planner's grouped flag always equals the binder's. */
  lemma FlagsAgree(q: Query)
    ensures Grouped(q) <==> BinderFlag(q)
  {
    hide CollectFrom, ContainsAggregate, OrderExprs;
    var es, o := GroupedExprs(q), OrderExprs(q.order);
    CollectEmpty(es);
    if q.having.None? {
      assert es == q.projection + o;
      if i :| 0 <= i < |es| && ContainsAggregate(es[i]) {
        if i < |q.projection| { assert ContainsAggregate(q.projection[i]); }
        else { assert ContainsAggregate(o[i - |q.projection|]); }
      }
      if i :| 0 <= i < |q.projection| && ContainsAggregate(q.projection[i]) { assert ContainsAggregate(es[i]); }
      if i :| 0 <= i < |o| && ContainsAggregate(o[i]) { assert ContainsAggregate(es[|q.projection| + i]); }
    }
  }

  // ---------- what collected expressions inherit ----------

  lemma {:induction false} WellBoundMore(e: Expr, s: Schema, a: bool, w: bool)
    requires WellBound(e, s, a, w)
    ensures WellBound(e, s, true, true)
    decreases e
  {
    match e.kind
    case Unary(_, x) => WellBoundMore(x, s, a, w);
    case Binary(_, x, y) => WellBoundMore(x, s, a, w); WellBoundMore(y, s, a, w);
    case Cast(x) => WellBoundMore(x, s, a, w);
    case IsNull(x, _) => WellBoundMore(x, s, a, w);
    case _ =>
  }

  lemma WellBoundChildren(e: Expr, s: Schema)
    requires WellBound(e, s, true, true)
    ensures forall i | 0 <= i < |Children(e)| :: WellBound(Children(e)[i], s, true, true)
  {
    forall i | 0 <= i < |Children(e)| ensures WellBound(Children(e)[i], s, true, true) {
      var c := Children(e)[i];
      if e.kind.Aggregate? { WellBoundMore(c, s, false, false); }
      if e.kind.Window? { WindowChild(e, s, i); WellBoundMore(c, s, true, false); }
    }
  }

  lemma WindowChild(e: Expr, s: Schema, i: nat)
    requires e.kind.Window? && WellBound(e, s, true, true) && i < |Children(e)|
    ensures WellBound(Children(e)[i], s, true, false)
  {
    var k := e.kind;
    var a, f, p := |k.operands|, |Optional(k.where)|, |k.partition|;
    if i < a {
      assert WellBound(k.operands[i], s, true, false);
    } else if a + f <= i < a + f + p {
      assert WellBound(k.partition[i - a - f], s, true, false);
    } else if a + f + p <= i {
      var o := k.order[i - a - f - p];
      assert WellBound(o.expr, s, true, false);
    }
  }

  lemma {:induction false} FitsMore(e: Expr, k: nat)
    requires Fits(e, k)
    ensures Fits(e, k + 1)
    decreases k
  {
    forall i | 0 <= i < |Children(e)| ensures Fits(Children(e)[i], k) { FitsMore(Children(e)[i], k - 1); }
  }

  /** A collected expression is well bound, without negative zeros and shallow if its query is. */
  lemma {:induction false} Inherited(e: Expr, windows: bool, s: Schema, a: Expr)
    requires a in Outermost(e, windows)
    ensures Wanted(a, windows)
    ensures WellBound(e, s, true, true) ==> WellBound(a, s, true, true)
    ensures Plain(e) ==> Plain(a)
    ensures Fits(e, MAX_DEPTH) ==> Fits(a, MAX_DEPTH)
    decreases e
  {
    hide WellBound, Plain, Fits, Children;
    if !Wanted(e, windows) {
      OutermostChild(e, windows, a);
      var i :| 0 <= i < |Children(e)| && a in Outermost(Children(e)[i], windows);
      Inherited(Children(e)[i], windows, s, a);
      if WellBound(e, s, true, true) { WellBoundChildren(e, s); }
      if Plain(e) { PlainChildren(e); }
      if Fits(e, MAX_DEPTH) { FitsChild(e, MAX_DEPTH, i); FitsMore(Children(e)[i], MAX_DEPTH - 1); }
    }
  }
}
