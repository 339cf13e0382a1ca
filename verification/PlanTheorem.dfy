/** Planning a bound query succeeds within the depth limit, and the plan computes the query. */
module PlanTheorem {
  import opened Options
  import opened Bound
  import opened BoundMeaning
  import opened Planner
  import opened SelectPlan
  import opened GroupCheck
  import opened PlanTotal
  import opened PlanResolve
  import opened PlanCorrect

  // ---------- the expressions of a bound query ----------

  lemma ExprsBound(s: Schema, q: Query)
    requires QueryBound(s, q)
    ensures forall i | 0 <= i < |GroupedExprs(q)| :: WellBound(GroupedExprs(q)[i], s, true, true)
  {
    hide WellBound, ValidGrouped, BinderFlag, OrderExprs;
    var es, p, h := GroupedExprs(q), |q.projection|, |Optional(q.having)|;
    forall i | 0 <= i < |es| ensures WellBound(es[i], s, true, true) {
      if i < p {
        assert es[i] == WindowedExprs(q)[i];
      } else if i < p + h {
        WellBoundMore(q.having.value, s, true, false);
      } else {
        assert es[i] == WindowedExprs(q)[i - h];
      }
    }
  }

  /** What is collected from expressions is well bound, shallow and plain if they are. */
  lemma CollectedFrom(es: seq<Expr>, windows: bool, s: Schema)
    requires forall i | 0 <= i < |es| :: WellBound(es[i], s, true, true)
    ensures forall k | 0 <= k < |CollectFrom(es, windows)| ::
      Wanted(CollectFrom(es, windows)[k], windows) && WellBound(CollectFrom(es, windows)[k], s, true, true)
    ensures Shallow(es) ==> Shallow(CollectFrom(es, windows))
    ensures PlainAll(es) ==> PlainAll(CollectFrom(es, windows))
  {
    hide WellBound, Fits, Plain, Outermost, CollectFrom, Contains;
    CollectExact(es, windows);
    var found := CollectFrom(es, windows);
    forall k | 0 <= k < |found|
      ensures Wanted(found[k], windows) && WellBound(found[k], s, true, true)
      ensures Shallow(es) ==> Fits(found[k], MAX_DEPTH)
      ensures PlainAll(es) ==> Plain(found[k])
    {
      assert found[k] in found;
      var i :| 0 <= i < |es| && found[k] in Outermost(es[i], windows);
      Inherited(es[i], windows, s, found[k]);
    }
  }

  lemma AggregatesBound(s: Schema, q: Query)
    requires QueryBound(s, q)
    ensures AggregatesOnly(s, Aggregates(q))
    ensures Shallow(GroupedExprs(q)) ==> Shallow(Aggregates(q))
    ensures PlainAll(GroupedExprs(q)) ==> PlainAll(Aggregates(q))
  {
    hide WellBound, Shallow, PlainAll, CollectFrom, QueryBound;
    ExprsBound(s, q);
    CollectedFrom(GroupedExprs(q), false, s);
    var found := Aggregates(q);
    forall k | 0 <= k < |found| ensures found[k].kind.Aggregate? && WellBound(found[k], s, true, true) {
      assert Wanted(found[k], false);
    }
  }

  lemma WindowsBound(s: Schema, q: Query)
    requires QueryBound(s, q)
    ensures forall k | 0 <= k < |Windows(q)| :: Windows(q)[k].kind.Window? && WellBound(Windows(q)[k], s, true, true)
    ensures Shallow(WindowedExprs(q)) ==> Shallow(Windows(q))
    ensures PlainAll(WindowedExprs(q)) ==> PlainAll(Windows(q))
  {
    hide WellBound, Shallow, PlainAll, CollectFrom, WindowedExprs, GroupedExprs, ValidGrouped, BinderFlag;
    CollectedFrom(WindowedExprs(q), true, s);
    var found := Windows(q);
    forall k | 0 <= k < |found| ensures found[k].kind.Window? && WellBound(found[k], s, true, true) {
      assert Wanted(found[k], true);
    }
  }

  // ---------- every phase succeeds ----------

  lemma OperandsFit(e: Expr, i: nat)
    requires Fits(e, MAX_DEPTH) && i < |Children(e)|
    ensures Fits(Children(e)[i], MAX_DEPTH)
  {
    hide Children;
    FitsChild(e, MAX_DEPTH, i);
    FitsMore(Children(e)[i], MAX_DEPTH - 1);
  }

  lemma CallOk(s: Schema, e: Expr)
    requires e.kind.Aggregate? && WellBound(e, s, true, true) && Fits(e, MAX_DEPTH)
    ensures CallOf(Raw(s), e).Ok?
  {
    hide Fits, Available, LowerAll, LowerPredicate;
    var args, f := e.kind.args, Optional(e.kind.filter);
    forall i | 0 <= i < |args| ensures Fits(args[i], MAX_DEPTH) && Available(Raw(s), args[i]) {
      OperandsFit(e, i);
      assert Children(e)[i] == args[i];
      RawAvailable(args[i], s);
    }
    forall i | 0 <= i < |f| ensures Fits(f[i], MAX_DEPTH) && Available(Raw(s), f[i]) {
      OperandsFit(e, |args| + i);
      assert Children(e)[|args| + i] == f[i];
      RawAvailable(f[i], s);
    }
    LowerAllOk(Raw(s), args);
    LowerPredicateOk(Raw(s), e.kind.filter);
  }

  lemma CallsOk(s: Schema, as': seq<Expr>)
    requires AggregatesOnly(s, as') && Shallow(as')
    ensures MapAll(LowerCall(Raw(s)), as').Ok?
  {
    hide WellBound, Fits, CallOf;
    MapExact(LowerCall(Raw(s)), as');
    forall i | 0 <= i < |as'| ensures LowerCall(Raw(s))(as'[i]).Ok? { CallOk(s, as'[i]); }
  }

  /** A column for each group and each aggregate. */
  lemma MapKeys(t: TypeOf, gs: seq<Expr>, as': seq<Expr>, l: Lower)
    requires GroupMap(gs) + AggregateMap(t, as') <= l.mapped
    ensures CoversGroups(l, gs) && CoversGroups(l, as')
  {
    hide Cell;
    var m := GroupMap(gs) + AggregateMap(t, as');
    forall i | 0 <= i < |gs| ensures Keyed(l, gs[i]) { assert l.mapped[i] == m[i]; }
    forall i | 0 <= i < |as'| ensures Keyed(l, as'[i]) { assert l.mapped[|gs| + i] == m[|gs| + i]; }
  }

  lemma WindowKeys(t: TypeOf, m: seq<(Expr, Df)>, ws: seq<Expr>, l: Lower)
    requires l.mapped == m + WindowMap(t, ws)
    ensures CoversGroups(l, ws)
  {
    hide Cell;
    forall i | 0 <= i < |ws| ensures Keyed(l, ws[i]) { assert l.mapped[|m| + i].0 == ws[i]; }
  }

  lemma AllCovered(es: seq<Expr>, windows: bool, i: nat, l: Lower)
    requires i < |es| && CoversGroups(l, CollectFrom(es, windows))
    ensures Covers(l, Outermost(es[i], windows))
  {
    hide Outermost, CollectFrom, Find, Contains, CoversGroups;
    var found := Outermost(es[i], windows);
    forall k | 0 <= k < |found| ensures Find(l.mapped, found[k]).Some? {
      CollectFinds(es, windows, i, found[k]);
      GroupCovered(l, CollectFrom(es, windows), found[k]);
    }
  }

  lemma NoneCovered(l: Lower)
    ensures CoversGroups(l, [])
  {
  }

  /** The aggregates of a grouped expression are mapped. */
  lemma AggregatesCovered(t: TypeOf, s: Schema, q: Query, i: nat, l: Lower)
    requires i < |GroupedExprs(q)| && GroupedLower(t, s, q).mapped <= l.mapped
    ensures Covers(l, Outermost(GroupedExprs(q)[i], false))
  {
    hide Outermost, CollectFrom, GroupedExprs, Covers, CoversGroups, GroupMap, AggregateMap;
    if Grouped(q) { MapKeys(t, q.groupBy, Aggregates(q), l); } else { NoneCovered(l); }
    AllCovered(GroupedExprs(q), false, i, l);
  }

  lemma WindowsCovered(t: TypeOf, s: Schema, q: Query, i: nat)
    requires i < |WindowedExprs(q)|
    ensures Covers(FinalLower(t, s, q), Outermost(WindowedExprs(q)[i], true))
  {
    hide Outermost, CollectFrom, WindowedExprs, Covers, CoversGroups, GroupedLower, WindowMap;
    WindowKeys(t, GroupedLower(t, s, q).mapped, Windows(q), FinalLower(t, s, q));
    AllCovered(WindowedExprs(q), true, i, FinalLower(t, s, q));
  }

  lemma GroupsCovered(t: TypeOf, s: Schema, q: Query, l: Lower)
    requires Grouped(q) && GroupedLower(t, s, q).mapped <= l.mapped
    ensures CoversGroups(l, q.groupBy)
  {
    hide CollectFrom, CoversGroups, GroupMap, AggregateMap;
    MapKeys(t, q.groupBy, Aggregates(q), l);
  }

  lemma HavingOk(t: TypeOf, s: Schema, q: Query)
    requires QueryBound(s, q) && Shallow(GroupedExprs(q))
    ensures LowerPredicate(GroupedLower(t, s, q), q.having).Ok?
  {
    hide WellBound, Fits, Outermost, Available, LowerPredicate, Covers, CoversGroups, CollectFrom, Shallow;
    var l := GroupedLower(t, s, q);
    FlagsAgree(q);
    if q.having.Some? {
      var i := |q.projection|;
      assert GroupedExprs(q)[i] == q.having.value;
      AggregatesCovered(t, s, q, i, l);
      GroupsCovered(t, s, q, l);
      ValidatedIsAvailable(l, q.having.value, q.groupBy, false);
      ShallowAt(GroupedExprs(q), i);
    }
    LowerPredicateOk(l, q.having);
  }

  lemma ShallowAt(es: seq<Expr>, i: nat)
    requires Shallow(es) && i < |es|
    ensures Fits(es[i], MAX_DEPTH)
  {
  }

  lemma WindowedAreGrouped(q: Query, i: nat) returns (k: nat)
    requires i < |WindowedExprs(q)|
    ensures k < |GroupedExprs(q)| && GroupedExprs(q)[k] == WindowedExprs(q)[i]
  {
    k := if i < |q.projection| then i else i + |Optional(q.having)|;
  }

  /** ORDER BY and the projection, after the windows. */
  lemma FinalAvailable(t: TypeOf, s: Schema, q: Query)
    requires QueryBound(s, q) && Shallow(WindowedExprs(q))
    ensures AllAvailable(FinalLower(t, s, q), WindowedExprs(q))
  {
    hide WellBound, Fits, Outermost, Available, Covers, CoversGroups, CollectFrom;
    hide Shallow, WindowedExprs, GroupedExprs, ValidGrouped, Predicate, BinderFlag;
    var l, es := FinalLower(t, s, q), WindowedExprs(q);
    FlagsAgree(q);
    forall i | 0 <= i < |es| ensures Fits(es[i], MAX_DEPTH) && Available(l, es[i]) {
      var k := WindowedAreGrouped(q, i);
      AggregatesCovered(t, s, q, k, l);
      WindowsCovered(t, s, q, i);
      if Grouped(q) { GroupsCovered(t, s, q, l); assert ValidGrouped(GroupedExprs(q)[k], q.groupBy); }
      ValidatedIsAvailable(l, es[i], q.groupBy, true);
      ShallowAt(es, i);
    }
  }

  /** An operand of a collected window is available before the windows. */
  lemma WindowOperand(t: TypeOf, s: Schema, q: Query, w: Expr, i: nat)
    requires QueryBound(s, q) && w in Windows(q) && i < |Children(w)|
    requires w.kind.Window? && WellBound(w, s, true, true)
    ensures Available(GroupedLower(t, s, q), Children(w)[i])
  {
    hide WellBound, Outermost, Available, Covers, CoversGroups, CollectFrom, WindowedExprs;
    hide GroupedExprs, ValidGrouped, Predicate, BinderFlag, Contains, Children;
    var l := GroupedLower(t, s, q);
    CollectExact(WindowedExprs(q), true);
    var j :| 0 <= j < |WindowedExprs(q)| && w in Outermost(WindowedExprs(q)[j], true);
    var k := WindowedAreGrouped(q, j);
    var e := WindowedExprs(q)[j];
    InsideWindow(e, s, q.groupBy, w, i);
    WindowChild(w, s, i);
    AggregatesCovered(t, s, q, k, l);
    CoversFewer(l, Outermost(e, false), Outermost(Children(w)[i], false));
    FlagsAgree(q);
    if Grouped(q) { GroupsCovered(t, s, q, l); assert ValidGrouped(GroupedExprs(q)[k], q.groupBy); }
    ValidatedIsAvailable(l, Children(w)[i], q.groupBy, false);
  }

  lemma CoversFewer(l: Lower, es: seq<Expr>, fs: seq<Expr>)
    requires Covers(l, es) && forall a | a in fs :: a in es
    ensures Covers(l, fs)
  {
    hide Find;
    forall i | 0 <= i < |fs| ensures Find(l.mapped, fs[i]).Some? { assert fs[i] in es; }
  }

  predicate OperandsAvailable(l: Lower, w: Expr) {
    forall i | 0 <= i < |Children(w)| :: Fits(Children(w)[i], MAX_DEPTH) && Available(l, Children(w)[i])
  }

  lemma WindowOk(l: Lower, s: Schema, w: Expr)
    requires w.kind.Window? && WellBound(w, s, true, true) && OperandsAvailable(l, w)
    ensures WindowOf(l, w).Ok?
  {
    hide Fits, Available, LowerAll, LowerPredicate, LowerOrder;
    var k, cs := w.kind, Children(w);
    var a, f, p, o := k.operands, Optional(k.where), k.partition, OrderExprs(k.order);
    forall i | 0 <= i < |a| ensures Fits(a[i], MAX_DEPTH) && Available(l, a[i]) { assert cs[i] == a[i]; }
    forall i | 0 <= i < |f| ensures Fits(f[i], MAX_DEPTH) && Available(l, f[i]) { assert cs[|a| + i] == f[i]; }
    forall i | 0 <= i < |p| ensures Fits(p[i], MAX_DEPTH) && Available(l, p[i]) { assert cs[|a| + |f| + i] == p[i]; }
    forall i | 0 <= i < |o|
      ensures Fits(o[i], MAX_DEPTH) && Available(l, o[i])
    {
      assert cs[|a| + |f| + |p| + i] == o[i];
    }
    LowerAllOk(l, a);
    LowerPredicateOk(l, k.where);
    LowerAllOk(l, p);
    LowerOrderOk(l, k.order);
  }

  lemma WindowsOk(t: TypeOf, s: Schema, q: Query)
    requires QueryBound(s, q) && Shallow(WindowedExprs(q))
    ensures MapAll(LowerWindow(GroupedLower(t, s, q)), Windows(q)).Ok?
  {
    hide WellBound, Fits, Available, WindowOf, CollectFrom, QueryBound, GroupedLower, Children;
    var l, ws := GroupedLower(t, s, q), Windows(q);
    WindowsBound(s, q);
    MapExact(LowerWindow(l), ws);
    forall k | 0 <= k < |ws| ensures LowerWindow(l)(ws[k]).Ok? {
      assert ws[k] in ws;
      ShallowAt(ws, k);
      forall i | 0 <= i < |Children(ws[k])|
        ensures Fits(Children(ws[k])[i], MAX_DEPTH) && Available(l, Children(ws[k])[i])
      {
        OperandsFit(ws[k], i);
        WindowOperand(t, s, q, ws[k], i);
      }
      WindowOk(l, s, ws[k]);
    }
  }

  lemma RawOk(s: Schema, es: seq<Expr>)
    requires Ungrouped(s, es) && Shallow(es)
    ensures AllAvailable(Raw(s), es)
  {
    hide WellBound, Fits, Available;
    forall i | 0 <= i < |es| ensures Fits(es[i], MAX_DEPTH) && Available(Raw(s), es[i]) { RawAvailable(es[i], s); }
  }

  lemma GroupedPlanOk(t: TypeOf, s: Schema, q: Query)
    requires QueryBound(s, q) && Shallow(AllExprs(q))
    ensures GroupedPlan(t, s, q).Ok?
  {
    hide WellBound, Fits, Available, CollectFrom, Shallow, AllExprs, GroupedExprs;
    hide WindowedExprs, LowerAll, LowerCall, LowerPredicate, GroupedLower, BinderFlag, ValidGrouped;
    ShallowParts(q);
    FilterOk(s, q);
    FlagsAgree(q);
    RawOk(s, q.groupBy);
    LowerAllOk(Raw(s), q.groupBy);
    AggregatesBound(s, q);
    CallsOk(s, Aggregates(q));
    HavingOk(t, s, q);
  }

  lemma FilterOk(s: Schema, q: Query)
    requires QueryBound(s, q) && Shallow(Optional(q.filter))
    ensures LowerPredicate(Raw(s), q.filter).Ok?
  {
    hide WellBound, Fits, Available, LowerPredicate;
    RawOk(s, Optional(q.filter));
    LowerPredicateOk(Raw(s), q.filter);
  }

  /** Planning a bound query fails only on depth: no unknown column, no aggregate or window out
      of phase, no disagreement about grouping. */
  lemma PlanSucceeds(t: TypeOf, s: Schema, q: Query)
    requires QueryBound(s, q)
    ensures if Shallow(AllExprs(q)) then PlanOf(t, s, q).Ok? else PlanOf(t, s, q) == Err(ExpressionTooDeep)
  {
    hide QueryBound, Shallow, AllExprs, WindowedExprs, LowerAll, LowerOrder;
    hide GroupedPlan, GroupedLower, CollectFrom, Available, Fits;
    if Shallow(AllExprs(q)) {
      ShallowParts(q);
      GroupedPlanOk(t, s, q);
      WindowsOk(t, s, q);
      FinalAvailable(t, s, q);
      var l := FinalLower(t, s, q);
      FinalParts(l, q);
      LowerOrderOk(l, q.order);
      LowerAllOk(l, q.projection);
    }
  }

  lemma FinalParts(l: Lower, q: Query)
    requires AllAvailable(l, WindowedExprs(q))
    ensures AllAvailable(l, q.projection) && AllAvailable(l, OrderExprs(q.order))
  {
    hide Available, Fits, OrderExprs;
    var es, p, o := WindowedExprs(q), q.projection, OrderExprs(q.order);
    forall i | 0 <= i < |p| ensures Fits(p[i], MAX_DEPTH) && Available(l, p[i]) { assert es[i] == p[i]; }
    forall i | 0 <= i < |o| ensures Fits(o[i], MAX_DEPTH) && Available(l, o[i]) { assert es[|p| + i] == o[i]; }
  }
}
