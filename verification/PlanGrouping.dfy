/** The binder rejects no grouped query that could be planned. */
module PlanGrouping {
  import opened Options
  import opened Bound
  import opened BoundMeaning
  import opened Planner
  import opened SelectPlan
  import opened GroupCheck
  import opened PlanTotal
  import opened PlanTheorem

  // ---------- equal expressions are grouped alike ----------

  lemma SameChildren(a: Expr, b: Expr)
    requires Same(a, b)
    ensures a.kind.Aggregate? == b.kind.Aggregate? && a.kind.Window? == b.kind.Window?
    ensures a.kind.ColumnRef? == b.kind.ColumnRef? && |Children(a)| == |Children(b)|
    ensures forall i | 0 <= i < |Children(a)| :: Same(Children(a)[i], Children(b)[i])
  {
    var x, y := Children(a), Children(b);
    if a.kind.Aggregate? {
      SameLists(a.kind.args, b.kind.args);
      SameOptions(a.kind.filter, b.kind.filter);
    } else if a.kind.Window? {
      var k, l := a.kind, b.kind;
      SameLists(k.operands, l.operands);
      SameOptions(k.where, l.where);
      SameLists(k.partition, l.partition);
      SameKeys(k.order, l.order);
    }
  }

  predicate AllSame(es: seq<Expr>, fs: seq<Expr>) {
    |es| == |fs| && forall i | 0 <= i < |es| :: Same(es[i], fs[i])
  }

  lemma SameLists(es: seq<Expr>, fs: seq<Expr>)
    requires NormAll(es) == NormAll(fs)
    ensures AllSame(es, fs)
  {
    forall i | 0 <= i < |es| ensures Same(es[i], fs[i]) { assert NormAll(es)[i] == NormAll(fs)[i]; }
  }

  lemma SameOptions(o: Option<Expr>, p: Option<Expr>)
    requires NormOption(o) == NormOption(p)
    ensures AllSame(Optional(o), Optional(p))
  {
  }

  lemma SameKeys(os: seq<OrderKey>, ps: seq<OrderKey>)
    requires NormOrder(os) == NormOrder(ps)
    ensures AllSame(OrderExprs(os), OrderExprs(ps))
  {
    forall i | 0 <= i < |os| ensures Same(os[i].expr, ps[i].expr) { assert NormOrder(os)[i] == NormOrder(ps)[i]; }
  }

  lemma {:induction false} ValidSame(a: Expr, b: Expr, gs: seq<Expr>)
    requires Same(a, b) && ValidGrouped(a, gs)
    ensures ValidGrouped(b, gs)
    decreases a
  {
    hide Same, Children;
    SameChildren(a, b);
    if Contains(gs, a) {
      ContainsSame(gs, a, b);
    } else if !a.kind.Aggregate? {
      forall i | 0 <= i < |VisibleChildren(b)| ensures ValidGrouped(VisibleChildren(b)[i], gs) {
        assert ValidGrouped(VisibleChildren(a)[i], gs);
        ValidSame(VisibleChildren(a)[i], VisibleChildren(b)[i], gs);
      }
    }
  }

  lemma ContainsSame(gs: seq<Expr>, a: Expr, b: Expr)
    requires Contains(gs, a) && Same(a, b)
    ensures Contains(gs, b)
  {
    hide Norm;
    var i :| 0 <= i < |gs| && Same(gs[i], a);
    assert Same(gs[i], b);
  }

  // ---------- what can be lowered after grouping is grouped ----------

  predicate ChildrenValid(e: Expr, gs: seq<Expr>) {
    forall i | 0 <= i < |Children(e)| :: ValidGrouped(Children(e)[i], gs)
  }

  /** A generated column stands for a group, an aggregate, or a window over those. */
  predicate KeyFrom(e: Expr, gs: seq<Expr>) {
    Contains(gs, e) || e.kind.Aggregate? || (e.kind.Window? && ChildrenValid(e, gs))
  }

  predicate KeysFrom(l: Lower, gs: seq<Expr>) {
    forall k | 0 <= k < |l.mapped| :: KeyFrom(l.mapped[k].0, gs)
  }

  lemma {:induction false} AvailableIsValid(l: Lower, e: Expr, gs: seq<Expr>)
    requires l.grouped && KeysFrom(l, gs) && Available(l, e)
    ensures ValidGrouped(e, gs)
    decreases e
  {
    hide Same, KeyFrom;
    if Find(l.mapped, e).Some? {
      var k :| 0 <= k < |l.mapped| && Same(l.mapped[k].0, e);
      KeyValid(l.mapped[k].0, gs);
      ValidSame(l.mapped[k].0, e, gs);
    } else {
      match e.kind
      case Literal(_) =>
      case ColumnRef(_) =>
      case Unary(_, a) => AvailableIsValid(l, a, gs);
      case Binary(_, a, b) => AvailableIsValid(l, a, gs); AvailableIsValid(l, b, gs);
      case Cast(a) => AvailableIsValid(l, a, gs);
      case IsNull(a, _) => AvailableIsValid(l, a, gs);
    }
  }

  lemma KeyValid(e: Expr, gs: seq<Expr>)
    requires KeyFrom(e, gs)
    ensures ValidGrouped(e, gs)
  {
    hide Contains;
  }

  lemma GroupKeys(t: TypeOf, s: Schema, q: Query)
    requires Grouped(q)
    ensures KeysFrom(GroupedLower(t, s, q), q.groupBy)
  {
    hide Norm, CollectFrom, Cell, ChildrenValid, GroupedExprs;
    var l := GroupedLower(t, s, q);
    forall k | 0 <= k < |l.mapped| ensures KeyFrom(l.mapped[k].0, q.groupBy) {
      if k < |q.groupBy| {
        assert Same(q.groupBy[k], l.mapped[k].0);
      } else {
        CollectedKind(GroupedExprs(q), false, k - |q.groupBy|);
      }
    }
  }

  lemma CollectedKind(es: seq<Expr>, windows: bool, k: nat)
    requires k < |CollectFrom(es, windows)|
    ensures Wanted(CollectFrom(es, windows)[k], windows)
    ensures Shallow(es) ==> Fits(CollectFrom(es, windows)[k], MAX_DEPTH)
  {
    hide Fits, Outermost, CollectFrom, Contains;
    CollectExact(es, windows);
    var a := CollectFrom(es, windows)[k];
    assert a in CollectFrom(es, windows);
    var i :| 0 <= i < |es| && a in Outermost(es[i], windows);
    Inherited(es[i], windows, map[], a);
  }

  lemma LoweredAvailable(l: Lower, es: seq<Expr>)
    requires Shallow(es) && LowerAll(l, es).Ok?
    ensures forall i | 0 <= i < |es| :: Available(l, es[i])
  {
    hide Fits, Available, LowerExpr;
    MapExact(Lowering(l), es);
    forall i | 0 <= i < |es| ensures Available(l, es[i]) {
      assert Lowering(l)(es[i]).Ok?;
      LowerExact(l, es[i], 1);
    }
  }

  lemma OrderAvailable(l: Lower, os: seq<OrderKey>)
    requires Shallow(OrderExprs(os)) && LowerOrder(l, os).Ok?
    ensures forall i | 0 <= i < |os| :: Available(l, OrderExprs(os)[i])
  {
    hide Fits, Available, LowerExpr;
    MapExact(LowerKey(l), os);
    forall i | 0 <= i < |os| ensures Available(l, OrderExprs(os)[i]) {
      assert LowerKey(l)(os[i]).Ok? && Fits(OrderExprs(os)[i], MAX_DEPTH);
      LowerExact(l, os[i].expr, 1);
    }
  }

  lemma PredicateAvailable(l: Lower, p: Option<Expr>)
    requires Shallow(Optional(p)) && LowerPredicate(l, p).Ok?
    ensures p.Some? ==> Available(l, p.value)
  {
    hide Fits, Available, LowerExpr;
    if p.Some? {
      assert Fits(Optional(p)[0], MAX_DEPTH);
      LowerExact(l, p.value, 1);
    }
  }

  /** The operands of a window that can be lowered. */
  lemma WindowValid(l: Lower, w: Expr, gs: seq<Expr>)
    requires l.grouped && KeysFrom(l, gs) && w.kind.Window? && Fits(w, MAX_DEPTH) && WindowOf(l, w).Ok?
    ensures ChildrenValid(w, gs)
  {
    hide Fits, Available, LowerExpr, KeysFrom, ValidGrouped, LowerPredicate, LowerOrder, LowerAll;
    var k, cs := w.kind, Children(w);
    var a, f, p, o := k.operands, Optional(k.where), k.partition, OrderExprs(k.order);
    forall i | 0 <= i < |cs| ensures Fits(cs[i], MAX_DEPTH) { OperandsFit(w, i); }
    assert Shallow(a) by { forall i | 0 <= i < |a| ensures Fits(a[i], MAX_DEPTH) { assert cs[i] == a[i]; } }
    assert Shallow(f) by { forall i | 0 <= i < |f| ensures Fits(f[i], MAX_DEPTH) { assert cs[|a| + i] == f[i]; } }
    assert Shallow(p) by { forall i | 0 <= i < |p| ensures Fits(p[i], MAX_DEPTH) { assert cs[|a| + |f| + i] == p[i]; } }
    assert Shallow(o) by {
      forall i | 0 <= i < |o| ensures Fits(o[i], MAX_DEPTH) { assert cs[|a| + |f| + |p| + i] == o[i]; }
    }
    if a != [] { LoweredAvailable(l, a); }
    PredicateAvailable(l, k.where);
    LoweredAvailable(l, p);
    OrderAvailable(l, k.order);
    forall i | 0 <= i < |cs| ensures ValidGrouped(cs[i], gs) {
      if i < |a| { assert cs[i] == a[i]; }
      else if i < |a| + |f| { assert cs[i] == f[i - |a|]; }
      else if i < |a| + |f| + |p| { assert cs[i] == p[i - |a| - |f|]; }
      else { assert cs[i] == o[i - |a| - |f| - |p|]; }
      AvailableIsValid(l, cs[i], gs);
    }
  }

  lemma FinalKeys(t: TypeOf, s: Schema, q: Query)
    requires Grouped(q) && Shallow(WindowedExprs(q)) && MapAll(LowerWindow(GroupedLower(t, s, q)), Windows(q)).Ok?
    ensures KeysFrom(FinalLower(t, s, q), q.groupBy)
  {
    hide Norm, CollectFrom, Cell, ChildrenValid, WindowedExprs, Shallow, GroupedLower, WindowOf, Contains, KeyFrom;
    var g, l, ws := GroupedLower(t, s, q), FinalLower(t, s, q), Windows(q);
    GroupKeys(t, s, q);
    MapExact(LowerWindow(g), ws);
    assert g.grouped by { IsGrouped(t, s, q); }
    forall k | 0 <= k < |l.mapped| ensures KeyFrom(l.mapped[k].0, q.groupBy) {
      if k >= |g.mapped| {
        var i := k - |g.mapped|;
        CollectedKind(WindowedExprs(q), true, i);
        assert LowerWindow(g)(ws[i]).Ok?;
        WindowValid(g, ws[i], q.groupBy);
        WindowKey(ws[i], q.groupBy);
        assert l.mapped[k].0 == ws[i];
      } else {
        assert l.mapped[k] == g.mapped[k];
      }
    }
  }

  lemma IsGrouped(t: TypeOf, s: Schema, q: Query)
    requires Grouped(q)
    ensures GroupedLower(t, s, q).grouped && FinalLower(t, s, q).grouped
  {
  }

  lemma WindowKey(w: Expr, gs: seq<Expr>)
    requires w.kind.Window? && ChildrenValid(w, gs)
    ensures KeyFrom(w, gs)
  {
  }

  /** A grouped query that has a plan satisfies the binder's check. */
  lemma PlannedIsGrouped(t: TypeOf, s: Schema, q: Query)
    requires q.isAggregate && PlanOf(t, s, q).Ok?
    ensures forall i | 0 <= i < |GroupedExprs(q)| :: ValidGrouped(GroupedExprs(q)[i], q.groupBy)
  {
    hide Shallow, AllExprs, LowerAll, LowerOrder, LowerPredicate, CollectFrom, Available, Fits, KeysFrom, ValidGrouped;
    hide GroupPhase, WindowedExprs, GroupedLower, FinalLower, Grouped;
    ShallowParts(q);
    var g, l := GroupedLower(t, s, q), FinalLower(t, s, q);
    assert Grouped(q);
    IsGrouped(t, s, q);
    GroupKeys(t, s, q);
    FinalKeys(t, s, q);
    var es, p, h, o := GroupedExprs(q), q.projection, Optional(q.having), OrderExprs(q.order);
    PredicateAvailable(g, q.having);
    LoweredAvailable(l, p);
    if q.order != [] { OrderAvailable(l, q.order); }
    forall i | 0 <= i < |es| ensures ValidGrouped(es[i], q.groupBy) {
      if i < |p| {
        AvailableIsValid(l, p[i], q.groupBy);
      } else if i < |p| + |h| {
        AvailableIsValid(g, q.having.value, q.groupBy);
      } else {
        AvailableIsValid(l, o[i - |p| - |h|], q.groupBy);
      }
    }
  }
}
