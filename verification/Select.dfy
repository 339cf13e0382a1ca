/** The phases of `select` in crates/planner/src/planning.rs. */
module SelectPlan {
  import opened Options
  import opened Bound
  import opened BoundMeaning
  import opened Planner

  function AllExprs(q: Query): (es: seq<Expr>) {
    q.projection + Optional(q.filter) + q.groupBy + Optional(q.having) + OrderExprs(q.order)
  }

  /** Every expression is within the planner's depth limit. */
  predicate Shallow(es: seq<Expr>) { forall i | 0 <= i < |es| :: Fits(es[i], MAX_DEPTH) }

  /** Where aggregates may occur. */
  function GroupedExprs(q: Query): (es: seq<Expr>) { q.projection + Optional(q.having) + OrderExprs(q.order) }

  /** Where windows may occur. */
  function WindowedExprs(q: Query): (es: seq<Expr>) { q.projection + OrderExprs(q.order) }

  function CollectFrom(es: seq<Expr>, windows: bool): (found: seq<Expr>) {
    if es == [] then []
    else AddAll(CollectFrom(es[..|es| - 1], windows), Outermost(es[|es| - 1], windows))
  }

  function Aggregates(q: Query): (es: seq<Expr>) { CollectFrom(GroupedExprs(q), false) }

  function Windows(q: Query): (es: seq<Expr>) { CollectFrom(WindowedExprs(q), true) }

  predicate Grouped(q: Query) { q.groupBy != [] || q.having.Some? || Aggregates(q) != [] }

  /** A generated column, in the type the expression declares. */
  function Cell(t: TypeOf, e: Expr, name: Name): (d: Df) {
    if CallType(t, e) == ArrowType(e.dataType) then Named(name) else DfCast(Named(name), ArrowType(e.dataType))
  }

  function GroupMap(gs: seq<Expr>): (m: seq<(Expr, Df)>)
    ensures |m| == |gs| && forall i | 0 <= i < |gs| :: m[i] == (gs[i], Named(GroupName(i)))
  {
    seq(|gs|, i requires 0 <= i < |gs| => (gs[i], Named(GroupName(i))))
  }

  function AggregateMap(t: TypeOf, es: seq<Expr>): (m: seq<(Expr, Df)>)
    ensures |m| == |es| && forall i | 0 <= i < |es| :: m[i] == (es[i], Cell(t, es[i], AggName(i)))
  {
    seq(|es|, i requires 0 <= i < |es| => (es[i], Cell(t, es[i], AggName(i))))
  }

  function WindowMap(t: TypeOf, es: seq<Expr>): (m: seq<(Expr, Df)>)
    ensures |m| == |es| && forall i | 0 <= i < |es| :: m[i] == (es[i], Cell(t, es[i], WindowName(i)))
  {
    seq(|es|, i requires 0 <= i < |es| => (es[i], Cell(t, es[i], WindowName(i))))
  }

  /** Lowering after grouping. */
  function GroupedLower(t: TypeOf, s: Schema, q: Query): (l: Lower) {
    Lower(s, Grouped(q), if Grouped(q) then GroupMap(q.groupBy) + AggregateMap(t, Aggregates(q)) else [])
  }

  /** Lowering after the windows. */
  function FinalLower(t: TypeOf, s: Schema, q: Query): (l: Lower) {
    var l := GroupedLower(t, s, q);
    l.(mapped := l.mapped + WindowMap(t, Windows(q)))
  }

  function Filtered(r: Attempt<Option<Df>>, input: LogicalPlan): (p: Attempt<LogicalPlan>) {
    match r
    case Err(e) => Err(e)
    case Ok(None) => Ok(input)
    case Ok(Some(d)) => Ok(Filter(d, input))
  }

  function GroupPhase(s: Schema, q: Query, input: LogicalPlan): (p: Attempt<LogicalPlan>) {
    if !Grouped(q) then Ok(input)
    else match LowerAll(Raw(s), q.groupBy)
      case Err(e) => Err(e)
      case Ok(groups) =>
        match MapAll(LowerCall(Raw(s)), Aggregates(q))
        case Err(e) => Err(e)
        case Ok(aggs) => Ok(AggregateNode(groups, aggs, groups == [] && aggs == [], input))
  }

  /** One window node for each call, the first innermost. */
  function Stacked(input: LogicalPlan, calls: seq<WindowCall>): (p: LogicalPlan) {
    if calls == [] then input
    else
      var n := |calls| - 1;
      WindowNode(calls[n], WindowName(n), Stacked(input, calls[..n]))
  }

  function WindowPhase(l: Lower, ws: seq<Expr>, input: LogicalPlan): (p: Attempt<LogicalPlan>) {
    match MapAll(LowerWindow(l), ws)
    case Err(e) => Err(e)
    case Ok(calls) => Ok(Stacked(input, calls))
  }

  function OrderPhase(l: Lower, q: Query, input: LogicalPlan): (p: Attempt<LogicalPlan>) {
    if q.order == [] then Ok(input)
    else match LowerOrder(l, q.order)
      case Err(e) => Err(e)
      case Ok(keys) => Ok(SortNode(keys, input))
  }

  function OutputPhase(l: Lower, q: Query, input: LogicalPlan): (p: Attempt<LogicalPlan>) {
    match LowerAll(l, q.projection)
    case Err(e) => Err(e)
    case Ok(ds) => Ok(Projection(ds, input))
  }

  /** The plan after grouping and HAVING. */
  function GroupedPlan(t: TypeOf, s: Schema, q: Query): (p: Attempt<LogicalPlan>) {
    match Filtered(LowerPredicate(Raw(s), q.filter), Scan)
    case Err(e) => Err(e)
    case Ok(rows) =>
      if Grouped(q) != q.isAggregate then Err(InvalidBound)
      else match GroupPhase(s, q, rows)
        case Err(e) => Err(e)
        case Ok(groups) => Filtered(LowerPredicate(GroupedLower(t, s, q), q.having), groups)
  }

  function PlanOf(t: TypeOf, s: Schema, q: Query): (p: Attempt<LogicalPlan>) {
    if !Shallow(AllExprs(q)) then Err(ExpressionTooDeep)
    else match GroupedPlan(t, s, q)
      case Err(e) => Err(e)
      case Ok(groups) =>
        match WindowPhase(GroupedLower(t, s, q), Windows(q), groups)
        case Err(e) => Err(e)
        case Ok(windows) =>
          match OrderPhase(FinalLower(t, s, q), q, windows)
          case Err(e) => Err(e)
          case Ok(sorted) => OutputPhase(FinalLower(t, s, q), q, sorted)
  }

  // ---------- the planner's own loops ----------

  method CheckAll(es: seq<Expr>) returns (ok: bool)
    ensures ok <==> Shallow(es)
  {
    hide Fits;
    for i := 0 to |es|
      invariant forall k | 0 <= k < i :: Fits(es[k], MAX_DEPTH)
    {
      var fits := CheckDepth(es[i]);
      if !fits { return false; }
    }
    return true;
  }

  method CollectAll(es: seq<Expr>, windows: bool) returns (r: Attempt<seq<Expr>>)
    ensures r.Err? ==> r.error == ExpressionTooDeep && !Shallow(es)
    ensures r.Ok? ==> r.value == CollectFrom(es, windows)
  {
    hide Fits, Outermost, AddAll;
    var found: seq<Expr> := [];
    for i := 0 to |es|
      invariant found == CollectFrom(es[..i], windows)
    {
      var next := Collect(es[i], windows, found, 1);
      if next.Err? { return Err(next.error); }
      assert es[..i + 1][..i] == es[..i];
      found := next.value;
    }
    assert es[..|es|] == es;
    return Ok(found);
  }

  method StackWindows(input: LogicalPlan, calls: seq<WindowCall>) returns (p: LogicalPlan)
    ensures p == Stacked(input, calls)
  {
    p := input;
    for i := 0 to |calls|
      invariant p == Stacked(input, calls[..i])
    {
      assert calls[..i + 1][..i] == calls[..i];
      p := WindowNode(calls[i], WindowName(i), p);
    }
    assert calls[..|calls|] == calls;
  }

  lemma ShallowParts(q: Query)
    requires Shallow(AllExprs(q))
    ensures Shallow(q.projection) && Shallow(Optional(q.filter)) && Shallow(q.groupBy) && Shallow(Optional(q.having))
    ensures Shallow(OrderExprs(q.order)) && Shallow(GroupedExprs(q)) && Shallow(WindowedExprs(q))
  {
    hide Fits, OrderExprs;
    var a, b, c, d, e := q.projection, Optional(q.filter), q.groupBy, Optional(q.having), OrderExprs(q.order);
    var all := AllExprs(q);
    forall i | 0 <= i < |a| ensures Fits(a[i], MAX_DEPTH) { assert all[i] == a[i]; }
    forall i | 0 <= i < |b| ensures Fits(b[i], MAX_DEPTH) { assert all[|a| + i] == b[i]; }
    forall i | 0 <= i < |c| ensures Fits(c[i], MAX_DEPTH) { assert all[|a| + |b| + i] == c[i]; }
    forall i | 0 <= i < |d| ensures Fits(d[i], MAX_DEPTH) { assert all[|a| + |b| + |c| + i] == d[i]; }
    forall i | 0 <= i < |e| ensures Fits(e[i], MAX_DEPTH) { assert all[|a| + |b| + |c| + |d| + i] == e[i]; }
  }

  /** WHERE, GROUP BY and HAVING; collecting cannot fail once the depth is checked. */
  method SelectGroups(t: TypeOf, s: Schema, q: Query) returns (r: Attempt<(LogicalPlan, Lower)>)
    requires Shallow(AllExprs(q))
    ensures r.Err? ==> GroupedPlan(t, s, q) == Err(r.error)
    ensures r.Ok? ==> GroupedPlan(t, s, q) == Ok(r.value.0) && GroupedLower(t, s, q) == r.value.1
  {
    hide Shallow, AllExprs, CollectFrom, GroupedExprs, MapAll;
    hide LowerPredicate, LowerCall, Lowering, GroupMap, AggregateMap;
    ShallowParts(q);
    var filter := LowerPredicate(Raw(s), q.filter);
    if filter.Err? { return Err(filter.error); }
    var input := if filter.value.Some? then Filter(filter.value.value, Scan) else Scan;
    var collected := CollectAll(GroupedExprs(q), false);
    var aggregates := collected.value;
    var grouped := q.groupBy != [] || q.having.Some? || aggregates != [];
    if grouped != q.isAggregate { return Err(InvalidBound); }
    var mapped: seq<(Expr, Df)> := [];
    if grouped {
      var groups := MapLoop(Lowering(Raw(s)), q.groupBy);
      if groups.Err? { return Err(groups.error); }
      var aggs := MapLoop(LowerCall(Raw(s)), aggregates);
      if aggs.Err? { return Err(aggs.error); }
      mapped := GroupMap(q.groupBy) + AggregateMap(t, aggregates);
      input := AggregateNode(groups.value, aggs.value, groups.value == [] && aggs.value == [], input);
    }
    var having := LowerPredicate(Lower(s, grouped, mapped), q.having);
    if having.Err? { return Err(having.error); }
    if having.value.Some? { input := Filter(having.value.value, input); }
    return Ok((input, Lower(s, grouped, mapped)));
  }

  /** `select`. */
  method Select(t: TypeOf, s: Schema, q: Query) returns (r: Attempt<LogicalPlan>)
    ensures r == PlanOf(t, s, q)
  {
    hide Shallow, AllExprs, CollectFrom, WindowedExprs, MapAll, LowerKey;
    hide LowerWindow, Lowering, Stacked, WindowMap, GroupedPlan, GroupedLower;
    var shallow := CheckAll(AllExprs(q));
    if !shallow { return Err(ExpressionTooDeep); }
    ShallowParts(q);
    var grouped := SelectGroups(t, s, q);
    if grouped.Err? { return Err(grouped.error); }
    var (input, lower) := grouped.value;
    var windows := CollectAll(WindowedExprs(q), true);
    var calls := MapLoop(LowerWindow(lower), windows.value);
    if calls.Err? { return Err(calls.error); }
    input := StackWindows(input, calls.value);
    lower := lower.(mapped := lower.mapped + WindowMap(t, windows.value));
    if q.order != [] {
      var keys := MapLoop(LowerKey(lower), q.order);
      if keys.Err? { return Err(keys.error); }
      input := SortNode(keys.value, input);
    }
    var outputs := MapLoop(Lowering(lower), q.projection);
    if outputs.Err? { return Err(outputs.error); }
    return Ok(Projection(outputs.value, input));
  }
}
