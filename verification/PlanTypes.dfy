/** The types of planned expressions, and the shape of aggregate nodes. */
module PlanTypes {
  import opened Options
  import opened Bound
  import opened BoundMeaning
  import opened Planner
  import opened SelectPlan
  import opened GroupCheck
  import opened Binder
  import opened BinderTypes
  import opened BinderTheorem

  type NameTypes = map<Name, Arrow>

  /** The type of a planned expression, if its operands have the types their operators take. */
  function DfType(s: Schema, names: NameTypes, d: Df): (t: Option<Arrow>) {
    match d
    case DfLiteral(_, t) => Some(t)
    case DfColumn(b) => if b in s then Some(s[b]) else None
    case Named(n) => if n in names then Some(names[n]) else None
    case DfNot(a) => if DfType(s, names, a) == Some(ArrowBoolean) then Some(ArrowBoolean) else None
    case Negative(a) => DfType(s, names, a)
    case DfBinary(op, a, b) =>
      var t := DfType(s, names, a);
      if t.None? || DfType(s, names, b) != t then None
      else if Arithmetic(op) then t
      else if op.And? || op.Or? then (if t == Some(ArrowBoolean) then t else None)
      else Some(ArrowBoolean)
    case DfCast(a, to) => if DfType(s, names, a).Some? then Some(to) else None
    case DfIsNull(a) => if DfType(s, names, a).Some? then Some(ArrowBoolean) else None
    case DfIsNotNull(a) => if DfType(s, names, a).Some? then Some(ArrowBoolean) else None
  }

  predicate HasType(s: Schema, names: NameTypes, d: Df, e: Expr) {
    DfType(s, names, d) == Some(ArrowType(e.dataType))
  }

  predicate KeysTyped(l: Lower, names: NameTypes) {
    forall k | 0 <= k < |l.mapped| :: HasType(l.schema, names, l.mapped[k].1, l.mapped[k].0)
  }

  /** A lowered expression is well typed and has the type of the bound one. */
  lemma {:induction false} LoweredTyped(cols: Columns, l: Lower, names: NameTypes, e: Expr, n: nat)
    requires KeysTyped(l, names) && WellTyped(e, cols) && LowerExpr(l, e, n).Ok?
    ensures HasType(l.schema, names, LowerExpr(l, e, n).value, e)
    decreases e
  {
    hide Find, KeysTyped, Children;
    if n <= MAX_DEPTH && Find(l.mapped, e).Some? {
      FoundTyped(l, names, e);
    } else {
      match e.kind
      case Unary(_, a) => OperandsTyped(e, cols); LoweredTyped(cols, l, names, a, n + 1);
      case Binary(_, a, b) =>
        OperandsTyped(e, cols);
        LoweredTyped(cols, l, names, a, n + 1);
        LoweredTyped(cols, l, names, b, n + 1);
      case Cast(a) => OperandsTyped(e, cols); LoweredTyped(cols, l, names, a, n + 1);
      case IsNull(a, _) => OperandsTyped(e, cols); LoweredTyped(cols, l, names, a, n + 1);
      case _ =>
    }
  }

  lemma OperandsTyped(e: Expr, cols: Columns)
    requires WellTyped(e, cols)
    ensures e.kind.Unary? ==> WellTyped(e.kind.operand, cols)
    ensures e.kind.Binary? ==> WellTyped(e.kind.left, cols) && WellTyped(e.kind.right, cols)
    ensures e.kind.Cast? ==> WellTyped(e.kind.inner, cols)
    ensures e.kind.IsNull? ==> WellTyped(e.kind.tested, cols)
  {
    if e.kind.Unary? || e.kind.Cast? || e.kind.IsNull? { assert WellTyped(Children(e)[0], cols); }
    if e.kind.Binary? { assert WellTyped(Children(e)[0], cols) && WellTyped(Children(e)[1], cols); }
  }

  lemma FoundTyped(l: Lower, names: NameTypes, e: Expr)
    requires KeysTyped(l, names) && Find(l.mapped, e).Some?
    ensures HasType(l.schema, names, Find(l.mapped, e).value, e)
  {
    var k :| 0 <= k < |l.mapped| && Same(l.mapped[k].0, e) && Find(l.mapped, e).value == l.mapped[k].1;
    assert HasType(l.schema, names, l.mapped[k].1, l.mapped[k].0);
  }

  // ---------- the generated columns ----------

  /** What the nodes of a plan call their columns, and of which types these are. */
  ghost predicate NamesTell(t: TypeOf, q: Query, names: NameTypes) {
    && (forall i: nat | i < |q.groupBy| :: GroupName(i) in names &&
         names[GroupName(i)] == ArrowType(q.groupBy[i].dataType))
    && (forall i: nat | i < |Aggregates(q)| :: AggName(i) in names &&
         names[AggName(i)] == CallType(t, Aggregates(q)[i]))
    && (forall i: nat | i < |Windows(q)| :: WindowName(i) in names &&
         names[WindowName(i)] == CallType(t, Windows(q)[i]))
  }

  lemma CellTyped(t: TypeOf, s: Schema, names: NameTypes, e: Expr, name: Name)
    requires name in names && names[name] == CallType(t, e)
    ensures HasType(s, names, Cell(t, e, name), e)
  {
  }

  lemma FinalTyped(t: TypeOf, s: Schema, q: Query, names: NameTypes)
    requires NamesTell(t, q, names)
    ensures KeysTyped(FinalLower(t, s, q), names) && KeysTyped(GroupedLower(t, s, q), names)
  {
    hide CollectFrom, Cell, CallType, Grouped;
    var g, l := GroupedLower(t, s, q), FinalLower(t, s, q);
    forall k | 0 <= k < |l.mapped| ensures HasType(s, names, l.mapped[k].1, l.mapped[k].0) {
      if k < |g.mapped| {
        if k >= |q.groupBy| {
          var i := k - |q.groupBy|;
          CellTyped(t, s, names, Aggregates(q)[i], AggName(i));
        }
      } else {
        var i := k - |g.mapped|;
        CellTyped(t, s, names, Windows(q)[i], WindowName(i));
      }
    }
    forall k | 0 <= k < |g.mapped| ensures HasType(s, names, g.mapped[k].1, g.mapped[k].0) {
      assert l.mapped[k] == g.mapped[k];
    }
  }

  /** The outputs of the plan of a query that binds are well typed, and have the types of the
      query's outputs. */
  lemma OutputsTyped(c: Context, s: SelectSyntax, cols: Columns, t: TypeOf, names: NameTypes)
    requires InScope(c, cols) && BindSelect(c, s).Ok? && PlanOf(t, SchemaOf(cols), BindSelect(c, s).value).Ok?
    requires NamesTell(t, BindSelect(c, s).value, names)
    ensures var q := BindSelect(c, s).value; var p := PlanOf(t, SchemaOf(cols), q).value;
      && p.Projection? && |p.exprs| == |q.projection|
      && forall i | 0 <= i < |q.projection| :: HasType(SchemaOf(cols), names, p.exprs[i], q.projection[i])
  {
    hide InScope, BindSelect, NamesTell, GroupedPlan, WindowPhase;
    hide OrderPhase, WellTyped, WellBound, SchemaOf, LowerExpr;
    hide QueryBound, Shallow, AllExprs, GroupedLower, FinalLower, KeysTyped, HasType;
    var q := BindSelect(c, s).value;
    var l := FinalLower(t, SchemaOf(cols), q);
    SelectBound(c, s, cols);
    FinalTyped(t, SchemaOf(cols), q, names);
    MapExact(Lowering(l), q.projection);
    var ds := LowerAll(l, q.projection).value;
    forall i | 0 <= i < |q.projection| ensures HasType(SchemaOf(cols), names, ds[i], q.projection[i]) {
      assert Good(q.projection[i], cols, true, true) && Lowering(l)(q.projection[i]) == Ok(ds[i]);
      assert l.schema == SchemaOf(cols) by { SchemaKept(t, SchemaOf(cols), q); }
      LoweredTyped(cols, l, names, q.projection[i], 1);
    }
  }

  lemma SchemaKept(t: TypeOf, s: Schema, q: Query)
    ensures FinalLower(t, s, q).schema == s
  {
  }

  // ---------- aggregate nodes ----------

  /** Every aggregate node computes something: a group, an aggregate, or else the dummy count. */
  predicate NodesCompute(p: LogicalPlan) {
    match p
    case Scan => true
    case AggregateNode(groups, aggs, dummy, input) => (dummy <==> groups == [] && aggs == []) && NodesCompute(input)
    case _ => NodesCompute(p.input)
  }

  lemma {:induction false} StackedComputes(input: LogicalPlan, calls: seq<WindowCall>)
    requires NodesCompute(input)
    ensures NodesCompute(Stacked(input, calls))
  {
    if calls != [] { StackedComputes(input, calls[..|calls| - 1]); }
  }

  lemma PlanComputesSomething(t: TypeOf, s: Schema, q: Query)
    requires PlanOf(t, s, q).Ok?
    ensures NodesCompute(PlanOf(t, s, q).value)
  {
    hide Shallow, AllExprs, LowerAll, LowerOrder, LowerPredicate;
    hide CollectFrom, GroupedLower, FinalLower, MapAll, Grouped;
    hide Stacked, NodesCompute;
    GroupsCompute(t, s, q);
    var groups := GroupedPlan(t, s, q).value;
    StackedComputes(groups, MapAll(LowerWindow(GroupedLower(t, s, q)), Windows(q)).value);
    var windows := WindowPhase(GroupedLower(t, s, q), Windows(q), groups).value;
    var sorted := OrderPhase(FinalLower(t, s, q), q, windows).value;
    assert NodesCompute(sorted) by { if q.order != [] { NodeComputes(sorted); } }
    NodeComputes(PlanOf(t, s, q).value);
  }

  lemma NodeComputes(p: LogicalPlan)
    requires !p.Scan? && !p.AggregateNode?
    ensures NodesCompute(p) <==> NodesCompute(p.input)
  {
  }

  lemma GroupsCompute(t: TypeOf, s: Schema, q: Query)
    requires GroupedPlan(t, s, q).Ok?
    ensures NodesCompute(GroupedPlan(t, s, q).value)
  {
    hide LowerAll, LowerPredicate, CollectFrom, GroupedLower, MapAll, Grouped;
    var rows := Filtered(LowerPredicate(Raw(s), q.filter), Scan).value;
    assert NodesCompute(rows);
    assert NodesCompute(GroupPhase(s, q, rows).value);
  }
}
