/** When planning succeeds, for every query, bound or not. */
module PlanExact {
  import opened Options
  import opened Sql
  import opened Bound
  import opened BoundMeaning
  import opened Planner
  import opened SelectPlan
  import opened PlanTotal
  import opened PlanTheorem
  import opened PlanGrouping

  predicate Obtainable(l: Lower, es: seq<Expr>) { forall i | 0 <= i < |es| :: Available(l, es[i]) }

  predicate Condition(l: Lower, p: Option<Expr>) { p.Some? ==> p.value.dataType == Boolean && Available(l, p.value) }

  /** All operands of a call, and a filter that is a condition. */
  predicate Callable(l: Lower, e: Expr) {
    && Obtainable(l, Children(e))
    && match e.kind
       case Aggregate(_, _, _, filter) => Condition(l, filter)
       case Window(_, _, _, where, _, _, _) => Condition(l, where)
       case _ => false
  }

  /** Nothing is too deep, the flag says whether there are groups, and each phase has what it
      needs: WHERE, groups and aggregates the columns; HAVING and windows the groups and
      aggregates, if there are any; ORDER BY and the projection the windows too. */
  predicate Plannable(t: TypeOf, s: Schema, q: Query) {
    var raw, grouped, final := Raw(s), GroupedLower(t, s, q), FinalLower(t, s, q);
    && Shallow(AllExprs(q)) && q.isAggregate == Grouped(q)
    && Condition(raw, q.filter)
    && (Grouped(q) ==> Obtainable(raw, q.groupBy)
                       && forall i | 0 <= i < |Aggregates(q)| :: Callable(raw, Aggregates(q)[i]))
    && Condition(grouped, q.having)
    && (forall i | 0 <= i < |Windows(q)| :: Callable(grouped, Windows(q)[i]))
    && Obtainable(final, OrderExprs(q.order)) && Obtainable(final, q.projection)
  }

  predicate Deep<T>(r: Attempt<T>) { r.Err? && r.error == ExpressionTooDeep }

  // ---------- expressions ----------

  lemma {:induction false} NotDeep(l: Lower, e: Expr, n: nat)
    requires n <= MAX_DEPTH && Fits(e, MAX_DEPTH + 1 - n)
    ensures !Deep(LowerExpr(l, e, n))
    decreases e
  {
    hide Find, Fits;
    match e.kind
    case Unary(_, a) => FitsChild(e, MAX_DEPTH + 1 - n, 0); NotDeep(l, a, n + 1);
    case Binary(_, a, b) =>
      FitsChild(e, MAX_DEPTH + 1 - n, 0);
      FitsChild(e, MAX_DEPTH + 1 - n, 1);
      NotDeep(l, a, n + 1);
      NotDeep(l, b, n + 1);
    case Cast(a) => FitsChild(e, MAX_DEPTH + 1 - n, 0); NotDeep(l, a, n + 1);
    case IsNull(a, _) => FitsChild(e, MAX_DEPTH + 1 - n, 0); NotDeep(l, a, n + 1);
    case _ =>
  }

  lemma ListExact(l: Lower, es: seq<Expr>)
    requires Shallow(es)
    ensures LowerAll(l, es).Ok? <==> Obtainable(l, es)
    ensures !Deep(LowerAll(l, es))
  {
    hide Fits, Available, LowerExpr;
    MapExact(Lowering(l), es);
    forall i | 0 <= i < |es| ensures (Lowering(l)(es[i]).Ok? <==> Available(l, es[i])) && !Deep(Lowering(l)(es[i])) {
      LowerExact(l, es[i], 1);
      NotDeep(l, es[i], 1);
    }
  }

  lemma OrderExact(l: Lower, os: seq<OrderKey>)
    requires Shallow(OrderExprs(os))
    ensures LowerOrder(l, os).Ok? <==> Obtainable(l, OrderExprs(os))
    ensures !Deep(LowerOrder(l, os))
  {
    hide Fits, Available, LowerExpr;
    MapExact(LowerKey(l), os);
    var es := OrderExprs(os);
    forall i | 0 <= i < |os| ensures (LowerKey(l)(os[i]).Ok? <==> Available(l, es[i])) && !Deep(LowerKey(l)(os[i])) {
      assert Fits(es[i], MAX_DEPTH);
      LowerExact(l, os[i].expr, 1);
      NotDeep(l, os[i].expr, 1);
    }
  }

  lemma ConditionExact(l: Lower, p: Option<Expr>)
    requires Shallow(Optional(p))
    ensures LowerPredicate(l, p).Ok? <==> Condition(l, p)
    ensures !Deep(LowerPredicate(l, p))
  {
    hide Fits, Available, LowerExpr;
    if p.Some? {
      assert Fits(Optional(p)[0], MAX_DEPTH);
      LowerExact(l, p.value, 1);
      NotDeep(l, p.value, 1);
    }
  }

  // ---------- calls ----------

  lemma ShallowSplit(a: seq<Expr>, b: seq<Expr>)
    requires Shallow(a + b)
    ensures Shallow(a) && Shallow(b)
  {
    hide Fits;
    forall i | 0 <= i < |a| ensures Fits(a[i], MAX_DEPTH) { assert (a + b)[i] == a[i]; }
    forall i | 0 <= i < |b| ensures Fits(b[i], MAX_DEPTH) { assert (a + b)[|a| + i] == b[i]; }
  }

  lemma ObtainableSplit(l: Lower, a: seq<Expr>, b: seq<Expr>)
    ensures Obtainable(l, a + b) <==> Obtainable(l, a) && Obtainable(l, b)
  {
    hide Available;
    if Obtainable(l, a + b) {
      forall i | 0 <= i < |a| ensures Available(l, a[i]) { assert (a + b)[i] == a[i]; }
      forall i | 0 <= i < |b| ensures Available(l, b[i]) { assert (a + b)[|a| + i] == b[i]; }
    }
  }

  lemma OptionalObtainable(l: Lower, p: Option<Expr>)
    ensures Condition(l, p) ==> Obtainable(l, Optional(p))
  {
    hide Available;
  }

  lemma OperandsShallow(e: Expr)
    requires Fits(e, MAX_DEPTH)
    ensures Shallow(Children(e))
  {
    hide Fits, Children;
    forall i | 0 <= i < |Children(e)| ensures Fits(Children(e)[i], MAX_DEPTH) { OperandsFit(e, i); }
  }

  lemma CallExact(l: Lower, e: Expr)
    requires e.kind.Aggregate? && Fits(e, MAX_DEPTH)
    ensures CallOf(l, e).Ok? <==> Callable(l, e)
    ensures !Deep(CallOf(l, e))
  {
    hide Fits, Shallow, Obtainable, LowerAll, LowerPredicate, Condition;
    var a, f := e.kind.args, Optional(e.kind.filter);
    OperandsShallow(e);
    assert Children(e) == a + f;
    ShallowSplit(a, f);
    ObtainableSplit(l, a, f);
    OptionalObtainable(l, e.kind.filter);
    ListExact(l, a);
    ConditionExact(l, e.kind.filter);
    NothingNeeded(l);
  }

  lemma NothingNeeded(l: Lower)
    ensures Obtainable(l, [])
  {
  }

  lemma WindowExact(l: Lower, e: Expr)
    requires e.kind.Window? && Fits(e, MAX_DEPTH)
    ensures WindowOf(l, e).Ok? <==> Callable(l, e)
    ensures !Deep(WindowOf(l, e))
  {
    hide Fits, Shallow, Obtainable, LowerAll, LowerPredicate, LowerOrder, Condition;
    var k := e.kind;
    var a, f, p, o := k.operands, Optional(k.where), k.partition, OrderExprs(k.order);
    OperandsShallow(e);
    assert Children(e) == a + f + p + o;
    ShallowSplit(a + f + p, o);
    ShallowSplit(a + f, p);
    ShallowSplit(a, f);
    ObtainableSplit(l, a + f + p, o);
    ObtainableSplit(l, a + f, p);
    ObtainableSplit(l, a, f);
    OptionalObtainable(l, k.where);
    ListExact(l, a);
    ConditionExact(l, k.where);
    ListExact(l, p);
    OrderExact(l, k.order);
    NothingNeeded(l);
  }

  lemma CallsExact(l: Lower, es: seq<Expr>)
    requires Shallow(es)
    ensures var r := MapAll(LowerCall(l), CollectFrom(es, false));
      && (r.Ok? <==> forall i | 0 <= i < |CollectFrom(es, false)| :: Callable(l, CollectFrom(es, false)[i]))
      && !Deep(r)
  {
    hide Fits, Callable, CallOf, CollectFrom, Shallow;
    var found := CollectFrom(es, false);
    MapExact(LowerCall(l), found);
    forall i | 0 <= i < |found|
      ensures (LowerCall(l)(found[i]).Ok? <==> Callable(l, found[i])) && !Deep(LowerCall(l)(found[i]))
    {
      CollectedKind(es, false, i);
      CallExact(l, found[i]);
    }
  }

  lemma WindowsExact(l: Lower, es: seq<Expr>)
    requires Shallow(es)
    ensures var r := MapAll(LowerWindow(l), CollectFrom(es, true));
      && (r.Ok? <==> forall i | 0 <= i < |CollectFrom(es, true)| :: Callable(l, CollectFrom(es, true)[i]))
      && !Deep(r)
  {
    hide Fits, Callable, WindowOf, CollectFrom, Shallow;
    var found := CollectFrom(es, true);
    MapExact(LowerWindow(l), found);
    forall i | 0 <= i < |found|
      ensures (LowerWindow(l)(found[i]).Ok? <==> Callable(l, found[i])) && !Deep(LowerWindow(l)(found[i]))
    {
      CollectedKind(es, true, i);
      WindowExact(l, found[i]);
    }
  }

  // ---------- queries ----------

  lemma GroupsExact(t: TypeOf, s: Schema, q: Query)
    requires Shallow(AllExprs(q))
    ensures var p := GroupedPlan(t, s, q); var raw := Raw(s);
      && (p.Ok? <==>
            && q.isAggregate == Grouped(q) && Condition(raw, q.filter) && Condition(GroupedLower(t, s, q), q.having)
            && (Grouped(q) ==> Obtainable(raw, q.groupBy)
                               && forall i | 0 <= i < |Aggregates(q)| :: Callable(raw, Aggregates(q)[i])))
      && !Deep(p)
  {
    hide Shallow, AllExprs, GroupedExprs, Obtainable, Callable;
    hide Condition, CollectFrom, LowerAll, LowerPredicate, GroupedLower;
    ShallowParts(q);
    ConditionExact(Raw(s), q.filter);
    ListExact(Raw(s), q.groupBy);
    CallsExact(Raw(s), GroupedExprs(q));
    ConditionExact(GroupedLower(t, s, q), q.having);
  }

  /** Planning succeeds exactly for plannable queries, and reports depth exactly for deep ones. */
  lemma PlanExactly(t: TypeOf, s: Schema, q: Query)
    ensures PlanOf(t, s, q).Ok? <==> Plannable(t, s, q)
    ensures PlanOf(t, s, q) == Err(ExpressionTooDeep) <==> !Shallow(AllExprs(q))
  {
    hide Shallow, AllExprs, WindowedExprs, Obtainable, Callable, Condition, CollectFrom, LowerAll, LowerOrder,
      GroupedLower, FinalLower, GroupedPlan, Grouped;
    if Shallow(AllExprs(q)) {
      ShallowParts(q);
      GroupsExact(t, s, q);
      WindowsExact(GroupedLower(t, s, q), WindowedExprs(q));
      OrderExact(FinalLower(t, s, q), q.order);
      ListExact(FinalLower(t, s, q), q.projection);
      NothingNeeded(FinalLower(t, s, q));
    }
  }
}
