/** From parsed queries to plans: bound queries plan, run and keep their nullability. */
module BinderTheorem {
  import opened Options
  import opened Bound
  import opened BoundMeaning
  import opened Planner
  import opened SelectPlan
  import opened GroupCheck
  import opened PlanMeaning
  import opened PlanResolve
  import opened PlanCorrect
  import opened PlanTheorem
  import opened PlanPreserves
  import opened PlanZero
  import opened Binder
  import opened BinderTypes

  // ---------- queries ----------

  predicate ItemsGood(ns: seq<Item>, cols: Columns) { forall i | 0 <= i < |ns| :: Good(ns[i].expr, cols, true, true) }

  lemma {:induction false} ItemListGood(c: Context, es: seq<Syntax>, cols: Columns)
    requires InScope(c, cols) && BindItems(c, es).Ok?
    ensures ItemsGood(BindItems(c, es).value, cols)
  {
    hide Good, Bind, InScope;
    if es != [] {
      var e := es[0];
      BindGood(c, if e.Alias? then e.aliased else e, if e.Alias? then 1 else 0, true, true, cols);
      ItemListGood(c, es[1..], cols);
      var b, bs := BindItem(c, e).value, BindItems(c, es[1..]).value;
      assert forall i | 0 < i < |[b] + bs| :: ([b] + bs)[i] == bs[i - 1];
    }
  }

  lemma ProjectionGood(c: Context, es: seq<Syntax>, cols: Columns)
    requires InScope(c, cols) && BindProjection(c, es).Ok?
    ensures ItemsGood(BindProjection(c, es).value, cols)
  {
    hide BindItems;
    if Star(es) {
      var ns := BindProjection(c, es).value;
      forall i | 0 <= i < |ns| ensures Good(ns[i].expr, cols, true, true) {
        assert Declares(cols, c.table.value[i]);
        assert Children(ns[i].expr) == [];
      }
    } else {
      ItemListGood(c, es, cols);
    }
  }

  lemma OrderItemGood(c: Context, ns: seq<Item>, e: Syntax, cols: Columns)
    requires InScope(c, cols) && ItemsGood(ns, cols) && BindOrderItem(c, ns, e).Ok?
    ensures Good(BindOrderItem(c, ns, e).value, cols, true, true)
  {
    hide Good, Bind, InScope, Matches;
    if Bind(c, e, 0, true, true).Ok? { BindGood(c, e, 0, true, true, cols); }
    if e.Identifier? && e.qualifier.None? && |Matches(ns, e.name)| == 1 {
      var j :| 0 <= j < |ns| && ns[j].expr == Matches(ns, e.name)[0];
    }
  }

  lemma {:induction false} OrderByGood(c: Context, ns: seq<Item>, os: seq<SyntaxOrder>, cols: Columns)
    requires InScope(c, cols) && ItemsGood(ns, cols) && BindOrderBy(c, ns, os).Ok?
    ensures AllKeysGood(BindOrderBy(c, ns, os).value, cols, true, true)
  {
    hide Good, BindOrderItem, InScope, ItemsGood;
    if os != [] {
      OrderItemGood(c, ns, os[0].expr, cols);
      OrderByGood(c, ns, os[1..], cols);
      var b, bs := BindOrderBy(c, ns, os).value[0], BindOrderBy(c, ns, os[1..]).value;
      assert forall i | 0 < i < |[b] + bs| :: ([b] + bs)[i] == bs[i - 1];
    }
  }

  lemma WindowedGood(ns: seq<Item>, os: seq<OrderKey>, cols: Columns)
    requires ItemsGood(ns, cols) && AllKeysGood(os, cols, true, true)
    ensures AllGood(Exprs(ns) + OrderExprs(os), cols, true, true)
  {
    hide Good;
    var es := Exprs(ns) + OrderExprs(os);
    forall i | 0 <= i < |es| ensures Good(es[i], cols, true, true) {
      if i >= |ns| { assert KeyGood(os[i - |ns|], cols, true, true); }
    }
  }

  /** `bind_select` returns queries that satisfy everything the planner relies on. */
  lemma SelectBound(c: Context, s: SelectSyntax, cols: Columns)
    requires InScope(c, cols) && BindSelect(c, s).Ok?
    ensures QueryBound(SchemaOf(cols), BindSelect(c, s).value)
    ensures AllGood(BindSelect(c, s).value.projection, cols, true, true)
  {
    hide InScope, BindProjection, BindFilter, BindList, BindOrderBy;
    hide WellTyped, WellBound, ValidGrouped, ContainsAggregate, SchemaOf;
    var q := BindSelect(c, s).value;
    var ns := BindProjection(c, s.projection).value;
    ProjectionGood(c, s.projection, cols);
    FilterGood(c, s.filter, 0, false, cols);
    ListGood(c, s.groupBy, 0, false, false, cols);
    FilterGood(c, s.having, 0, true, cols);
    OrderByGood(c, ns, s.order, cols);
    WindowedGood(ns, q.order, cols);
    QueryParts(q, cols);
  }

  lemma QueryParts(q: Query, cols: Columns)
    requires AllGood(WindowedExprs(q), cols, true, true) && AllGood(q.groupBy, cols, false, false)
    requires AllGood(Optional(q.filter), cols, false, false) && (q.filter.Some? ==> q.filter.value.dataType.Boolean?)
    requires AllGood(Optional(q.having), cols, true, false) && (q.having.Some? ==> q.having.value.dataType.Boolean?)
    requires q.isAggregate == BinderFlag(q) && (q.isAggregate ==> AllGrouped(q))
    ensures QueryBound(SchemaOf(cols), q) && AllGood(q.projection, cols, true, true)
  {
    hide WellTyped, WellBound, ValidGrouped, ContainsAggregate, SchemaOf, OrderExprs, BinderFlag;
    var f, h, g, w := Optional(q.filter), Optional(q.having), q.groupBy, WindowedExprs(q);
    assert q.filter.Some? ==> Good(f[0], cols, false, false);
    assert q.having.Some? ==> Good(h[0], cols, true, false);
    forall i | 0 <= i < |g|
      ensures WellBound(g[i], SchemaOf(cols), false, false)
    {
      assert Good(g[i], cols, false, false);
    }
    forall i | 0 <= i < |w| ensures WellBound(w[i], SchemaOf(cols), true, true) { assert Good(w[i], cols, true, true); }
    forall i | 0 <= i < |q.projection|
      ensures Good(q.projection[i], cols, true, true)
    {
      assert Good(w[i], cols, true, true);
    }
  }

  /** A query that binds also plans, unless it is too deep; its plan delivers the rows of the
      resolved query, which are its own rows if every lookup is exact. */
  lemma BindThenPlan(c: Context, s: SelectSyntax, cols: Columns, x: Engine, base: seq<Row>)
    requires InScope(c, cols) && BindSelect(c, s).Ok?
    ensures var q, t := BindSelect(c, s).value, x.typeOf; var p := PlanOf(t, SchemaOf(cols), q);
      && (if Shallow(AllExprs(q)) then p.Ok? else p == Err(ExpressionTooDeep))
      && (p.Ok? ==> Delivers(Run(x, p.value, base), Meaning(x, ResolvedQuery(t, SchemaOf(cols), q), base)))
      && (PlainAll(AllExprs(q)) ==> ResolvedQuery(t, SchemaOf(cols), q) == q)
  {
    hide InScope, BindSelect, QueryBound, PlanOf, Shallow, PlainAll, AllExprs;
    hide Delivers, Run, Meaning, Good, SchemaOf, ResolvedQuery;
    var q := BindSelect(c, s).value;
    SelectBound(c, s, cols);
    PlanSucceeds(x.typeOf, SchemaOf(cols), q);
    if PlanOf(x.typeOf, SchemaOf(cols), q).Ok? { PlanComputes(x, SchemaOf(cols), q, base); }
    if PlainAll(AllExprs(q)) { PlainIsResolved(x.typeOf, SchemaOf(cols), q); }
  }

  /** SELECT -0.0 GROUP BY 0.0, without a table. */
  function ZeroSyntax(): (s: SelectSyntax) {
    SelectSyntax([UnarySyntax(Minus, NumberLit(Fractional(0)))], None, [NumberLit(Fractional(0))], None, [])
  }

  lemma OneItem(c: Context, e: Syntax, i: Item)
    requires BindItem(c, e) == Ok(i)
    ensures BindItems(c, [e]) == Ok([i])
  {
    hide BindItem;
    assert [e][1..] == [] && [i] + [] == [i];
  }

  lemma OneExpr(c: Context, e: Syntax, b: Expr)
    requires Bind(c, e, 0, false, false) == Ok(b)
    ensures BindList(c, [e], 0, false, false) == Ok([b])
  {
    hide Bind;
    assert [e][1..] == [] && [b] + [] == [b];
  }

  /** The binder accepts it as the query whose sign is lost. */
  lemma ZeroBinds()
    ensures BindSelect(Context(map[], None), ZeroSyntax()) == Ok(ZeroQuery(true))
  {
    var c, s := Context(map[], None), ZeroSyntax();
    var item, group := s.projection[0], s.groupBy[0];
    assert Bind(c, item, 0, true, true) == Ok(Zero(true));
    assert Bind(c, group, 0, false, false) == Ok(Zero(false));
    OneItem(c, item, Item("?column?", Zero(true)));
    OneExpr(c, group, Zero(false));
    var q := ZeroQuery(true);
    assert Exprs([Item("?column?", Zero(true))]) == q.projection;
    assert AllGrouped(q) by {
      assert q.projection + Optional(q.having) + OrderExprs(q.order) == [Zero(true)];
      ZeroSame();
      assert Same(q.groupBy[0], Zero(true)) && Contains(q.groupBy, Zero(true));
    }
  }

  // ---------- nullability ----------

  predicate Counts(f: WindowFunction) { f.OverAggregate? ==> f.aggregate == Count }

  /** The engine returns NULL only for NULL operands, truth values for comparisons, and never
      NULL for counts and ranks. */
  ghost predicate EngineSound(x: Engine) {
    && (forall v :: v != NullValue ==> x.negate(v) != NullValue)
    && (forall op, a, b :: a != NullValue && b != NullValue ==>
         x.compute(op, a, b) != NullValue && (!Arithmetic(op) ==> x.compute(op, a, b).Truth?))
    && (forall v, t :: v != NullValue ==>
         x.convert(v, t) != NullValue && (t == ArrowBoolean ==> x.convert(v, t).Truth?))
    && (forall f, u, fr, ds, ws, j :: Counts(f) ==> x.window(f, u, fr, ds, ws, j) != NullValue)
  }

  /** The row holds a value of the right kind in every column that may not be NULL. */
  predicate RowRespects(cols: Columns, row: Row) {
    forall b | b in cols && !cols[b].nullable ::
        b in row && row[b] != NullValue && (cols[b].dataType.Boolean? ==> row[b].Truth?)
  }

  ghost predicate WindowsRespect(cols: Columns, win: Expr -> Value) {
    forall w: Expr :: w.kind.Window? && !w.nullable && WellTyped(w, cols) ==> win(w) != NullValue
  }

  predicate Present(e: Expr, v: Value) { v != NullValue && (e.dataType.Boolean? ==> v.Truth?) }

  lemma BinaryPresent(x: Engine, op: BinaryOp, l: Expr, r: Expr, e: Expr, a: Value, b: Value)
    requires EngineSound(x) && BinaryTyped(op, l, r, e) && Present(l, a) && Present(r, b)
    ensures Present(e, BinaryValue(x, op, a, b))
  {
  }

  lemma ConformPresent(x: Engine, e: Expr, v: Value)
    requires EngineSound(x) && v != NullValue && !e.dataType.Boolean?
    ensures Present(e, Conform(x, e, v))
  {
  }

  lemma CountPresent(x: Engine, e: Expr, u: Unit, win: Expr -> Value)
    requires EngineSound(x) && e.kind.Aggregate? && e.kind.fn == Count && e.dataType.Int64?
    ensures Present(e, Eval(x, e, u, win))
  {
    hide EngineSound, Present, Conform, EvalAll, Passes;
    var ms := u.members;
    var kept := Trues(seq(|ms|, i requires 0 <= i < |ms| => Passes(x, e.kind.filter, Unit(ms[i], []), win)));
    var rows := Pick(seq(|ms|, i requires 0 <= i < |ms| => EvalAll(x, e.kind.args, Unit(ms[i], []), win)), kept);
    var raw := if e.kind.args == [] then Integer(|rows|) else AggregateValue(x, Count, e.kind.distinct, rows);
    assert Eval(x, e, u, win) == Conform(x, e, raw);
    ConformPresent(x, e, raw);
  }

  /** An expression marked non-nullable never evaluates to NULL. */
  lemma {:induction false} NeverNull(x: Engine, e: Expr, cols: Columns, u: Unit, win: Expr -> Value)
    requires EngineSound(x) && WellTyped(e, cols) && RowRespects(cols, u.row) && WindowsRespect(cols, win) &&
               !e.nullable
    ensures Present(e, Eval(x, e, u, win))
    decreases e
  {
    hide EngineSound, WindowsRespect, BinaryTyped, CallTyped, ScalarHasType, BinaryValue;
    match e.kind
    case Literal(v) => LiteralPresent(e);
    case ColumnRef(_) =>
    case Unary(op, a) =>
      assert WellTyped(Children(e)[0], cols);
      NeverNull(x, a, cols, u, win);
      UnaryPresent(x, op, a, e, Eval(x, a, u, win));
    case Binary(op, l, r) =>
      assert WellTyped(Children(e)[0], cols) && WellTyped(Children(e)[1], cols);
      BothPresent(op, l, r, e);
      NeverNull(x, l, cols, u, win);
      NeverNull(x, r, cols, u, win);
      BinaryPresent(x, op, l, r, e, Eval(x, l, u, win), Eval(x, r, u, win));
    case Cast(a) =>
      assert WellTyped(Children(e)[0], cols);
      NeverNull(x, a, cols, u, win);
      CastPresent(x, e, Eval(x, a, u, win));
    case IsNull(_, _) =>
    case Aggregate(f, args, _, _) =>
      OnlyCounts(OverAggregate(f), args, e);
      CountPresent(x, e, u, win);
    case Window(f, args, _, _, _, _, _) =>
      OnlyCounts(f, args, e);
      WindowPresent(e, cols, win);
  }

  lemma LiteralPresent(e: Expr)
    requires e.kind.Literal? && ScalarHasType(e.kind.value, e.dataType) && !e.kind.value.NullScalar?
    ensures Present(e, ScalarValue(e.kind.value))
  {
  }

  lemma UnaryPresent(x: Engine, op: UnaryOp, a: Expr, e: Expr, v: Value)
    requires EngineSound(x) && Present(a, v) && e.dataType == a.dataType &&
               (if op.Not? then a.dataType.Boolean? else Numeric(a.dataType))
    ensures Present(e, match op case Not => KleeneNot(v) case Plus => v case Minus => x.negate(v))
  {
  }

  lemma BothPresent(op: BinaryOp, l: Expr, r: Expr, e: Expr)
    requires BinaryTyped(op, l, r, e) && !e.nullable
    ensures !l.nullable && !r.nullable
  {
  }

  lemma CastPresent(x: Engine, e: Expr, v: Value)
    requires EngineSound(x) && v != NullValue
    ensures Present(e, x.convert(v, ArrowType(e.dataType)))
  {
  }

  lemma OnlyCounts(f: WindowFunction, args: seq<Expr>, e: Expr)
    requires CallTyped(f, args, e) && !e.nullable
    ensures Counts(f) && e.dataType.Int64?
  {
  }

  lemma WindowPresent(e: Expr, cols: Columns, win: Expr -> Value)
    requires WindowsRespect(cols, win) && e.kind.Window? && !e.nullable && WellTyped(e, cols) && e.dataType.Int64?
    ensures Present(e, win(e))
  {
  }

  // ---------- whole queries ----------

  lemma WindowsPresent(x: Engine, cols: Columns, us: seq<Unit>, j: nat)
    requires EngineSound(x)
    ensures WindowsRespect(cols, WindowsAt(x, us, j))
  {
    hide EngineSound, CallTyped;
    var win := WindowsAt(x, us, j);
    forall w: Expr | w.kind.Window? && !w.nullable && WellTyped(w, cols) ensures win(w) != NullValue {
      OnlyCounts(w.kind.over, w.kind.operands, w);
      RawPresent(x, w, us, j);
      ConformPresent(x, w, RawWindow(x, w, us, j));
    }
  }

  lemma RawPresent(x: Engine, w: Expr, us: seq<Unit>, j: nat)
    requires EngineSound(x) && w.kind.Window? && Counts(w.kind.over)
    ensures RawWindow(x, w, us, j) != NullValue
  {
  }

  /** Grouped without keys, an expression does not look at the row. */
  lemma {:induction false} RowIrrelevant(x: Engine, e: Expr, r: Row, r': Row, ms: seq<Row>, win: Expr -> Value)
    requires ValidGrouped(e, [])
    ensures Eval(x, e, Unit(r, ms), win) == Eval(x, e, Unit(r', ms), win)
    decreases e
  {
    hide Contains;
    assert !Contains([], e) by { NothingContained(e); }
    match e.kind
    case Unary(_, a) => assert ValidGrouped(VisibleChildren(e)[0], []); RowIrrelevant(x, a, r, r', ms, win);
    case Binary(_, a, b) =>
      assert ValidGrouped(VisibleChildren(e)[0], []) && ValidGrouped(VisibleChildren(e)[1], []);
      RowIrrelevant(x, a, r, r', ms, win);
      RowIrrelevant(x, b, r, r', ms, win);
    case Cast(a) => assert ValidGrouped(VisibleChildren(e)[0], []); RowIrrelevant(x, a, r, r', ms, win);
    case IsNull(a, _) => assert ValidGrouped(VisibleChildren(e)[0], []); RowIrrelevant(x, a, r, r', ms, win);
    case _ =>
  }

  lemma NothingContained(e: Expr)
    ensures !Contains([], e)
  {
  }

  /** Some row with every column present. */
  function Template(cols: Columns): (row: Row)
    ensures RowRespects(cols, row)
  {
    map b | b in cols :: if cols[b].dataType.Boolean? then Truth(true) else Integer(0)
  }

  /** Each unit is represented by a row of the source, except the one group of no rows. */
  lemma UnitRow(x: Engine, q: Query, rows: seq<Row>, k: nat)
    requires k < |Units(x, q, rows)|
    ensures Units(x, q, rows)[k].row in rows || (q.isAggregate && q.groupBy == [])
  {
    hide Groups, EvalAll;
    if q.isAggregate {
      var keys := Keys(x, q.groupBy, rows);
      var part := Partition(keys, q.groupBy == [])[k];
      if part == [] { NoEmptyGroup(keys, k, q.groupBy == []); }
    }
  }

  lemma UnitPresent(x: Engine, q: Query, cols: Columns, rows: seq<Row>, e: Expr, u: Unit, win: Expr -> Value)
    requires EngineSound(x) && WellTyped(e, cols) && !e.nullable && WindowsRespect(cols, win)
    requires forall r | r in rows :: RowRespects(cols, r)
    requires u.row in rows || ValidGrouped(e, [])
    ensures Eval(x, e, u, win) != NullValue
  {
    hide EngineSound, WellTyped, WindowsRespect, ValidGrouped, Eval;
    if u.row in rows {
      NeverNull(x, e, cols, u, win);
    } else {
      RowIrrelevant(x, e, u.row, Template(cols), u.members, win);
      NeverNull(x, e, cols, Unit(Template(cols), u.members), win);
    }
  }

  lemma SourceRow(x: Engine, q: Query, base: seq<Row>, r: Row)
    requires r in SourceRows(x, q, base)
    ensures r in base
  {
    hide Trues, Flags;
  }

  /** No output column marked non-nullable is ever NULL in a row of the query. */
  lemma OutputNeverNull(c: Context, s: SelectSyntax, cols: Columns, x: Engine, base: seq<Row>, j: nat, n: nat)
    requires InScope(c, cols) && BindSelect(c, s).Ok? && EngineSound(x) && forall r | r in base :: RowRespects(cols, r)
    requires n < |BindSelect(c, s).value.projection| && !BindSelect(c, s).value.projection[n].nullable
    requires j < |Meaning(x, BindSelect(c, s).value, base)|
    ensures n < |Meaning(x, BindSelect(c, s).value, base)[j]| &&
              Meaning(x, BindSelect(c, s).value, base)[j][n] != NullValue
  {
    hide InScope, BindSelect, EngineSound, RowRespects, Units, SourceRows, Flags, Trues;
    hide WellTyped, WellBound, ValidGrouped, WindowsRespect, WindowsAt, Eval, BinderFlag;
    var q := BindSelect(c, s).value;
    SelectBound(c, s, cols);
    var rows := SourceRows(x, q, base);
    forall r | r in rows ensures RowRespects(cols, r) { SourceRow(x, q, base, r); }
    var all := Units(x, q, rows);
    var us := Having(x, q, all);
    var k := Order(x, q, us)[j];
    var e := q.projection[n];
    assert Good(e, cols, true, true);
    UnitRow(x, q, rows, Trues(Flags(x, q.having, all))[k]);
    assert q.isAggregate ==> ValidGrouped(e, q.groupBy) by { assert e == GroupedExprs(q)[n]; }
    WindowsPresent(x, cols, us, k);
    UnitPresent(x, q, cols, rows, e, us[k], WindowsAt(x, us, k));
    assert Meaning(x, q, base)[j] == EvalAll(x, q.projection, us[k], WindowsAt(x, us, k));
  }
}
