/** The plan of a bound query computes the query. */
module PlanPreserves {
  import opened Bound
  import opened BoundMeaning
  import opened Planner
  import opened SelectPlan
  import opened GroupCheck
  import opened PlanTotal
  import opened PlanMeaning
  import opened PlanResolve
  import opened PlanCorrect
  import opened PlanWindows
  import opened PlanTheorem

  // ---------- up to HAVING ----------

  /** The mapped columns after grouping. */
  lemma MapGood(t: TypeOf, s: Schema, gs: seq<Expr>, as': seq<Expr>)
    requires Ungrouped(s, gs) && AggregatesOnly(s, as')
    ensures var l := Lower(s, true, GroupMap(gs) + AggregateMap(t, as')); StableCells(l) && KeysBound(s, l)
  {
    var m := GroupMap(gs) + AggregateMap(t, as');
    forall i | 0 <= i < |m| ensures StableCell(m[i].1) && Windowless(s, m[i].0) {
      if i < |gs| {
        assert WellBound(gs[i], s, false, false);
      } else {
        var a := as'[i - |gs|];
        assert WellBound(a, s, true, true) && a.kind.Aggregate?;
      }
    }
  }

  lemma LowerGood(t: TypeOf, s: Schema, q: Query)
    requires QueryBound(s, q)
    ensures var l := GroupedLower(t, s, q); StableCells(l) && KeysBound(s, l)
  {
    hide WellBound, Aggregates, GroupMap, AggregateMap, GroupedExprs, WindowedExprs, ValidGrouped, BinderFlag;
    AggregatesBound(s, q);
    MapGood(t, s, q.groupBy, Aggregates(q));
  }

  lemma SourceScanned(x: Engine, s: Schema, q: Query, base: seq<Row>)
    requires LowerPredicate(Raw(s), q.filter).Ok?
    ensures var p := Filtered(LowerPredicate(Raw(s), q.filter), Scan);
      p.Ok? && Scanned(Run(x, p.value, base), SourceRows(x, q, base))
  {
    hide LowerPredicate, Related, Passes, ResolveOption;
    ScanRelated(x, s, base);
    FilterNode(x, Raw(s), q.filter, Scan, base, Singles(base));
    ResolveRawAll(s, [], q.filter);
    var kept := Trues(Flags(x, q.filter, Singles(base)));
    assert Pick(Singles(base), kept) == Singles(Pick(base, kept));
    RawScanned(x, s, Run(x, Filtered(LowerPredicate(Raw(s), q.filter), Scan).value, base), SourceRows(x, q, base));
  }

  lemma UnitsRelated(x: Engine, s: Schema, q: Query, input: LogicalPlan, base: seq<Row>, rows: seq<Row>)
    requires QueryBound(s, q) && Scanned(Run(x, input, base), rows) && GroupPhase(s, q, input).Ok?
    ensures Related(x, GroupedLower(x.typeOf, s, q), Run(x, GroupPhase(s, q, input).value, base), Units(x, q, rows))
  {
    hide Scanned, WellBound, Aggregates, AllExprs, GroupedExprs, WindowedExprs, ValidGrouped, BinderFlag;
    hide LowerAll, LowerCall, Related, GroupMap, AggregateMap, PartRows;
    FlagsAgree(q);
    AggregatesBound(s, q);
    var os := Run(x, input, base);
    if Grouped(q) {
      var groups, calls := LowerAll(Raw(s), q.groupBy).value, MapAll(LowerCall(Raw(s)), Aggregates(q)).value;
      GroupsRelated(x, s, q, Aggregates(q), groups, calls, groups == [] && calls == [], os, rows);
    } else {
      RawScanned(x, s, os, rows);
    }
  }

  lemma GroupedPlanMeaning(x: Engine, s: Schema, q: Query, base: seq<Row>)
    requires QueryBound(s, q) && GroupedPlan(x.typeOf, s, q).Ok?
    ensures var l := GroupedLower(x.typeOf, s, q);
      Related(x, l, Run(x, GroupedPlan(x.typeOf, s, q).value, base),
              Having(x, q.(having := ResolveOption(l, q.having)), Units(x, q, SourceRows(x, q, base))))
  {
    hide QueryBound, Related, LowerPredicate, GroupedLower, GroupPhase, Run, Scanned, Units, SourceRows, ResolveOption;
    var l, rows := GroupedLower(x.typeOf, s, q), SourceRows(x, q, base);
    SourceScanned(x, s, q, base);
    var first := Filtered(LowerPredicate(Raw(s), q.filter), Scan).value;
    UnitsRelated(x, s, q, first, base, rows);
    FilterNode(x, l, q.having, GroupPhase(s, q, first).value, base, Units(x, q, rows));
  }

  // ---------- windows, order and output ----------

  /** After the windows, every row agrees with its unit and the unit's windows. */
  predicate Finished(x: Engine, g: Lower, l: Lower, os: seq<OutRow>, us: seq<Unit>) {
    |os| == |us| && forall j | 0 <= j < |us| :: Agree(x, l, os[j], us[j], WindowsVia(x, g, us, j))
  }

  lemma WindowsFinished(x: Engine, s: Schema, g: Lower, ws: seq<Expr>, input: LogicalPlan, base: seq<Row>,
                        us: seq<Unit>)
    requires Related(x, g, Run(x, input, base), us) && StableCells(g) && KeysBound(s, g) &&
               WindowPhase(g, ws, input).Ok?
    ensures Finished(x, g, g.(mapped := g.mapped + WindowMap(x.typeOf, ws)),
              Run(x, WindowPhase(g, ws, input).value, base), us)
  {
    hide Agree, StableCells, KeysBound, LowerWindow, Widened, WindowMap, Run, WindowsVia;
    var calls := MapAll(LowerWindow(g), ws).value;
    MapExact(LowerWindow(g), ws);
    assert calls[..|calls|] == calls;
    WindowsRun(x, g, ws, calls, input, base, us, |ws|);
    var first, os := Run(x, input, base), Run(x, Stacked(input, calls), base);
    var l := g.(mapped := g.mapped + WindowMap(x.typeOf, ws));
    forall j | 0 <= j < |us| ensures Agree(x, l, os[j], us[j], WindowsVia(x, g, us, j)) {
      FinalAgree(x, s, g, ws, us, first[j], os[j], j);
    }
  }

  /** Looked up after the windows, with the windows found looked up before them. */
  function Settle(g: Lower, l: Lower, e: Expr): (r: Expr) { Deep(g, Resolve(l, e)) }

  function SettleAll(g: Lower, l: Lower, es: seq<Expr>): (rs: seq<Expr>)
    ensures |rs| == |es| && forall i | 0 <= i < |es| :: rs[i] == Settle(g, l, es[i])
  {
    seq(|es|, i requires 0 <= i < |es| => Settle(g, l, es[i]))
  }

  function SettleOrder(g: Lower, l: Lower, os: seq<OrderKey>): (rs: seq<OrderKey>)
    ensures |rs| == |os| && forall i | 0 <= i < |os| :: rs[i] == os[i].(expr := Settle(g, l, os[i].expr))
  {
    seq(|os|, i requires 0 <= i < |os| => os[i].(expr := Settle(g, l, os[i].expr)))
  }

  predicate AllBound(s: Schema, es: seq<Expr>) { forall i | 0 <= i < |es| :: WellBound(es[i], s, true, true) }

  lemma ResolveBound(l: Lower, s: Schema, e: Expr)
    requires WellBound(e, s, true, true)
    ensures WellBound(Resolve(l, e), s, true, true)
  {
    hide WellBound, Resolve, Norm;
    ResolveSame(l, e);
    NormBound(e, s, true, true);
    NormBound(Resolve(l, e), s, true, true);
  }

  /** What resolved expressions compute on a finished row. */
  lemma SettledAll(x: Engine, s: Schema, g: Lower, l: Lower, es: seq<Expr>, u: Unit, us: seq<Unit>, j: nat)
    requires AllBound(s, es)
    ensures EvalAll(x, ResolveAll(l, es), u, WindowsVia(x, g, us, j)) ==
              EvalAll(x, SettleAll(g, l, es), u, WindowsAt(x, us, j))
  {
    hide WellBound, Resolve, Deep, Eval, WindowsVia, WindowsAt;
    forall i | 0 <= i < |es|
      ensures Eval(x, Resolve(l, es[i]), u, WindowsVia(x, g, us, j)) ==
                Eval(x, Settle(g, l, es[i]), u, WindowsAt(x, us, j))
    {
      assert WellBound(es[i], s, true, true);
      ResolveBound(l, s, es[i]);
      DeepMeaning(x, g, s, Resolve(l, es[i]), u, us, j);
    }
  }

  /** A list of expressions over finished rows. */
  lemma FinishedTable(x: Engine, s: Schema, g: Lower, l: Lower, es: seq<Expr>, os: seq<OutRow>, us: seq<Unit>)
    requires Finished(x, g, l, os, us) && LowerAll(l, es).Ok? && AllBound(s, es)
    ensures DfTable(x, LowerAll(l, es).value, os) == Evaluated(x, SettleAll(g, l, es), us)
  {
    hide Agree, LowerAll, EvalAll, EvalDfs, WindowsAt, WindowsVia, AllBound, ResolveAll, SettleAll;
    var ds, rs := LowerAll(l, es).value, SettleAll(g, l, es);
    forall j | 0 <= j < |us| ensures EvalDfs(x, ds, os[j]) == EvalAll(x, rs, us[j], WindowsAt(x, us, j)) {
      AllCompute(x, l, es, os[j], us[j], WindowsVia(x, g, us, j));
      SettledAll(x, s, g, l, es, us[j], us, j);
    }
  }

  lemma OrderSettles(g: Lower, l: Lower, os: seq<OrderKey>)
    ensures OrderExprs(ResolveOrder(l, os)) == ResolveAll(l, OrderExprs(os))
    ensures OrderExprs(SettleOrder(g, l, os)) == SettleAll(g, l, OrderExprs(os))
    ensures Directions(ResolveOrder(l, os)) == Directions(os) == Directions(SettleOrder(g, l, os))
  {
    hide Resolve, Deep;
  }

  lemma FinishedKeys(x: Engine, s: Schema, g: Lower, l: Lower, order: seq<OrderKey>, os: seq<OutRow>, us: seq<Unit>)
    requires Finished(x, g, l, os, us) && us != [] && LowerOrder(l, order).Ok? && AllBound(s, OrderExprs(order))
    ensures DfTable(x, SortExprs(LowerOrder(l, order).value), os) ==
              Evaluated(x, OrderExprs(SettleOrder(g, l, order)), us)
    ensures SortDirections(LowerOrder(l, order).value) == Directions(SettleOrder(g, l, order))
  {
    hide Agree, LowerOrder, EvalAll, EvalDfs, WindowsAt, WindowsVia, OrderExprs, SortExprs, AllBound;
    hide ResolveOrder, SettleOrder, SettleAll, ResolveAll, SortDirections, Directions;
    var ds, rs := SortExprs(LowerOrder(l, order).value), OrderExprs(SettleOrder(g, l, order));
    OrderSettles(g, l, order);
    forall j | 0 <= j < |us| ensures EvalDfs(x, ds, os[j]) == EvalAll(x, rs, us[j], WindowsAt(x, us, j)) {
      OrderComputes(x, l, order, os[j], us[j], WindowsVia(x, g, us, j));
      SettledAll(x, s, g, l, OrderExprs(order), us[j], us, j);
    }
    OrderComputes(x, l, order, os[0], us[0], WindowsVia(x, g, us, 0));
  }

  lemma ExistingNone(p: seq<nat>)
    ensures Existing(p, 0) == []
  {
  }

  /** ORDER BY picks the same positions. */
  lemma SortedRows(x: Engine, s: Schema, g: Lower, l: Lower, q: Query, input: LogicalPlan, base: seq<Row>,
                   us: seq<Unit>)
    requires Finished(x, g, l, Run(x, input, base), us) && AllBound(s, OrderExprs(q.order)) &&
               OrderPhase(l, q, input).Ok?
    ensures Run(x, OrderPhase(l, q, input).value, base)
         == Pick(Run(x, input, base), Order(x, q.(order := SettleOrder(g, l, q.order)), us))
  {
    hide Agree, LowerOrder, WindowsAt, WindowsVia, Evaluated, DfTable, Existing;
    var os := Run(x, input, base);
    if q.order == [] {
      assert Pick(os, All(|us|)) == os;
    } else if us == [] {
      forall p ensures Existing(p, 0) == [] { ExistingNone(p); }
    } else {
      FinishedKeys(x, s, g, l, q.order, os, us);
    }
  }

  /** The rows are as many and hold, under the output names, the query's values. */
  predicate Delivers(os: seq<OutRow>, vs: seq<seq<Value>>) {
    |os| == |vs| && forall j | 0 <= j < |vs| :: os[j].named == Labelled(vs[j])
  }

  lemma OutputRows(x: Engine, s: Schema, g: Lower, l: Lower, q: Query, input: LogicalPlan, base: seq<Row>,
                   us: seq<Unit>)
    requires Finished(x, g, l, Run(x, input, base), us) && AllBound(s, OrderExprs(q.order)) && AllBound(s, q.projection)
    requires OrderPhase(l, q, input).Ok? && OutputPhase(l, q, OrderPhase(l, q, input).value).Ok?
    ensures Delivers(Run(x, OutputPhase(l, q, OrderPhase(l, q, input).value).value, base),
                     Pick(Evaluated(x, SettleAll(g, l, q.projection), us),
                         Order(x, q.(order := SettleOrder(g, l, q.order)), us)))
  {
    hide Finished, LowerAll, OrderPhase, Order, Run, EvalDfs, Delivers, AllBound, SettleAll, SettleOrder;
    var sorted, ds := OrderPhase(l, q, input).value, LowerAll(l, q.projection).value;
    SortedRows(x, s, g, l, q, input, base, us);
    assert |Run(x, input, base)| == |us| by { FinishedLength(x, g, l, Run(x, input, base), us); }
    FinishedTable(x, s, g, l, q.projection, Run(x, input, base), us);
    ProjectedRows(x, ds, sorted, base, Run(x, input, base), Order(x, q.(order := SettleOrder(g, l, q.order)), us));
  }

  lemma FinishedLength(x: Engine, g: Lower, l: Lower, os: seq<OutRow>, us: seq<Unit>)
    requires Finished(x, g, l, os, us)
    ensures |os| == |us|
  {
  }

  lemma ProjectedRows(x: Engine, ds: seq<Df>, input: LogicalPlan, base: seq<Row>, os: seq<OutRow>, p: seq<nat>)
    requires InRange(p, |os|) && Run(x, input, base) == Pick(os, p)
    ensures Delivers(Run(x, Projection(ds, input), base), Pick(DfTable(x, ds, os), p))
  {
    hide EvalDfs, Labelled;
  }

  // ---------- whole queries ----------

  /** The query with every part that planning looks up replaced by what it finds. */
  function ResolvedQuery(t: TypeOf, s: Schema, q: Query): (r: Query) {
    var g, l := GroupedLower(t, s, q), FinalLower(t, s, q);
    q.(having := ResolveOption(g, q.having), projection := SettleAll(g, l, q.projection),
        order := SettleOrder(g, l, q.order))
  }

  lemma PartsBound(s: Schema, q: Query)
    requires QueryBound(s, q)
    ensures AllBound(s, q.projection) && AllBound(s, OrderExprs(q.order))
  {
    hide WellBound, ValidGrouped, BinderFlag, OrderExprs, GroupedExprs;
    var es, p, o := WindowedExprs(q), q.projection, OrderExprs(q.order);
    forall i | 0 <= i < |p| ensures WellBound(p[i], s, true, true) { assert es[i] == p[i]; }
    forall i | 0 <= i < |o| ensures WellBound(o[i], s, true, true) { assert es[|p| + i] == o[i]; }
  }

  /** Whatever the engine's operations do, the plan of a bound query delivers exactly the rows
      that the resolved query means. */
  lemma PlanComputes(x: Engine, s: Schema, q: Query, base: seq<Row>)
    requires QueryBound(s, q) && PlanOf(x.typeOf, s, q).Ok?
    ensures Delivers(Run(x, PlanOf(x.typeOf, s, q).value, base), Meaning(x, ResolvedQuery(x.typeOf, s, q), base))
  {
    hide QueryBound, Shallow, AllExprs, GroupedPlan, GroupedLower;
    hide WindowPhase, OrderPhase, OutputPhase, WindowMap, Windows;
    hide Related, Finished, Delivers, StableCells, KeysBound, Run;
    hide Having, SettleAll, SettleOrder, ResolveOption, AllBound;
    hide Order, Evaluated;
    var g, l := GroupedLower(x.typeOf, s, q), FinalLower(x.typeOf, s, q);
    var r := ResolvedQuery(x.typeOf, s, q);
    var us := Having(x, q.(having := r.having), Units(x, q, SourceRows(x, q, base)));
    LowerGood(x.typeOf, s, q);
    PartsBound(s, q);
    GroupedPlanMeaning(x, s, q, base);
    var groups := GroupedPlan(x.typeOf, s, q).value;
    WindowsFinished(x, s, g, Windows(q), groups, base, us);
    OutputRows(x, s, g, l, q, WindowPhase(g, Windows(q), groups).value, base, us);
    SameStart(x, q, r, base);
    SameOrder(x, q, r, us);
  }

  /** HAVING, ORDER BY and the projection play no part before they are used. */
  lemma SameStart(x: Engine, q: Query, r: Query, base: seq<Row>)
    requires r.filter == q.filter && r.groupBy == q.groupBy && r.isAggregate == q.isAggregate
    ensures Units(x, r, SourceRows(x, r, base)) == Units(x, q, SourceRows(x, q, base))
    ensures forall us :: Having(x, r, us) == Having(x, q.(having := r.having), us)
  {
    hide Flags, Trues, Partition, Keys;
  }

  lemma SameOrder(x: Engine, q: Query, r: Query, us: seq<Unit>)
    ensures Order(x, r, us) == Order(x, q.(order := r.order), us)
  {
    hide Evaluated, Existing;
  }

  /** If every lookup finds the very expression it looks for, the plan delivers exactly the
      rows the query means. */
  lemma PlanPreservesMeaning(x: Engine, s: Schema, q: Query, base: seq<Row>)
    requires QueryBound(s, q) && PlanOf(x.typeOf, s, q).Ok? && ResolvedQuery(x.typeOf, s, q) == q
    ensures Delivers(Run(x, PlanOf(x.typeOf, s, q).value, base), Meaning(x, q, base))
  {
    hide QueryBound, PlanOf, ResolvedQuery, Delivers, Run, Meaning;
    PlanComputes(x, s, q, base);
  }

  // ---------- queries without negative zeros ----------

  lemma PlainParts(q: Query)
    requires PlainAll(AllExprs(q))
    ensures PlainAll(q.projection) && PlainAll(q.groupBy) && PlainAll(Optional(q.having))
    ensures PlainAll(OrderExprs(q.order)) && PlainAll(GroupedExprs(q)) && PlainAll(WindowedExprs(q))
  {
    hide Plain, OrderExprs;
    var a, b, c, d, e := q.projection, Optional(q.filter), q.groupBy, Optional(q.having), OrderExprs(q.order);
    var all := AllExprs(q);
    forall i | 0 <= i < |a| ensures Plain(a[i]) { assert all[i] == a[i]; }
    forall i | 0 <= i < |c| ensures Plain(c[i]) { assert all[|a| + |b| + i] == c[i]; }
    forall i | 0 <= i < |d| ensures Plain(d[i]) { assert all[|a| + |b| + |c| + i] == d[i]; }
    forall i | 0 <= i < |e| ensures Plain(e[i]) { assert all[|a| + |b| + |c| + |d| + i] == e[i]; }
  }

  lemma KeysPlain(t: TypeOf, s: Schema, q: Query)
    requires QueryBound(s, q) && PlainAll(AllExprs(q))
    ensures PlainKeys(GroupedLower(t, s, q)) && PlainKeys(FinalLower(t, s, q))
  {
    hide Plain, QueryBound, AllExprs, GroupedExprs, WindowedExprs, CollectFrom, Cell;
    PlainParts(q);
    AggregatesBound(s, q);
    WindowsBound(s, q);
    MapPlain(t, q.groupBy, Aggregates(q), []);
    MapPlain(t, q.groupBy, Aggregates(q), Windows(q));
    MapPlain(t, [], [], Windows(q));
    assert GroupMap([]) + AggregateMap(t, []) == [];
  }

  lemma MapPlain(t: TypeOf, gs: seq<Expr>, as': seq<Expr>, ws: seq<Expr>)
    requires PlainAll(gs) && PlainAll(as') && PlainAll(ws)
    ensures var m := GroupMap(gs) + AggregateMap(t, as') + WindowMap(t, ws); forall i | 0 <= i < |m| :: Plain(m[i].0)
  {
    hide Plain, Cell;
    var m := GroupMap(gs) + AggregateMap(t, as') + WindowMap(t, ws);
    forall i | 0 <= i < |m| ensures Plain(m[i].0) {
      if i < |gs| { assert Plain(gs[i]); }
      else if i < |gs| + |as'| { assert Plain(as'[i - |gs|]); }
      else { assert Plain(ws[i - |gs| - |as'|]); }
    }
  }

  lemma SettlePlain(g: Lower, l: Lower, e: Expr)
    requires Plain(e) && PlainKeys(g) && PlainKeys(l)
    ensures Settle(g, l, e) == e && Resolve(g, e) == e
  {
    hide Plain, PlainKeys, Resolve, Deep;
    ResolvePlain(l, e);
    ResolvePlain(g, e);
    DeepPlain(g, e);
  }

  /** Without negative zero literals every lookup is exact. */
  lemma PlainIsResolved(t: TypeOf, s: Schema, q: Query)
    requires QueryBound(s, q) && PlainAll(AllExprs(q))
    ensures ResolvedQuery(t, s, q) == q
  {
    hide Plain, PlainKeys, QueryBound, AllExprs, GroupedLower, FinalLower, Resolve, Settle, GroupedExprs, WindowedExprs;
    var g, l := GroupedLower(t, s, q), FinalLower(t, s, q);
    PlainParts(q);
    KeysPlain(t, s, q);
    var p, h, o := q.projection, Optional(q.having), OrderExprs(q.order);
    forall i | 0 <= i < |p| ensures Settle(g, l, p[i]) == p[i] { SettlePlain(g, l, p[i]); }
    forall i | 0 <= i < |h| ensures Resolve(g, h[i]) == h[i] { SettlePlain(g, l, h[i]); }
    forall i | 0 <= i < |o| ensures Settle(g, l, o[i]) == o[i] { SettlePlain(g, l, o[i]); }
    assert q.having.Some? ==> h[0] == q.having.value;
    assert SettleAll(g, l, p) == p && SettleOrder(g, l, q.order) == q.order;
  }

  lemma PlainPlanPreservesMeaning(x: Engine, s: Schema, q: Query, base: seq<Row>)
    requires QueryBound(s, q) && PlanOf(x.typeOf, s, q).Ok? && PlainAll(AllExprs(q))
    ensures Delivers(Run(x, PlanOf(x.typeOf, s, q).value, base), Meaning(x, q, base))
  {
    hide QueryBound, PlanOf, ResolvedQuery, Delivers, Run, Meaning, PlainAll, AllExprs;
    PlainIsResolved(x.typeOf, s, q);
    PlanPreservesMeaning(x, s, q, base);
  }
}
