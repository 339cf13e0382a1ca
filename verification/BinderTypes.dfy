/** What the binder returns is well typed, well bound and honest about NULL. */
module BinderTypes {
  import opened Options
  import opened Sql
  import opened Bound
  import opened BoundMeaning
  import opened Binder

  type Columns = map<Binding, Resolved>

  predicate Declares(cols: Columns, r: Resolved) {
    r.binding in cols && cols[r.binding].dataType == r.dataType && cols[r.binding].nullable == r.nullable
  }

  /** Every name in scope is a column of the schema. */
  predicate InScope(c: Context, cols: Columns) {
    && (forall k | k in c.scope :: Declares(cols, c.scope[k]))
    && (c.table.Some? ==> forall i | 0 <= i < |c.table.value| :: Declares(cols, c.table.value[i]))
  }

  function SchemaOf(cols: Columns): (s: Schema) { map b | b in cols :: ArrowType(cols[b].dataType) }

  predicate ScalarHasType(v: Scalar, t: LogicalType) {
    match v
    case NullScalar => t.NullType?
    case BooleanScalar(_) => t.Boolean?
    case Int32Scalar(i) => t.Int32? && -0x8000_0000 <= i < 0x8000_0000
    case Int64Scalar(i) => t.Int64? && -0x8000_0000_0000_0000 <= i < 0x8000_0000_0000_0000
    case Uint32Scalar(_) => t.Uint32?
    case Float32Scalar(_) => t.Float32?
    case Float64Scalar(_) => t.Float64?
    case StringScalar(_) => t.Text?
  }

  predicate ComparableType(t: LogicalType) { t.Boolean? || t.Text? || Numeric(t) }

  /** The operands and the result of one binary operator. */
  predicate BinaryTyped(op: BinaryOp, l: Expr, r: Expr, e: Expr) {
    && l.dataType == r.dataType && e.nullable == (l.nullable || r.nullable)
    && if op.And? || op.Or? then l.dataType.Boolean? && e.dataType.Boolean?
       else if Arithmetic(op) then Numeric(l.dataType) && e.dataType == l.dataType &&
           (op.Modulo? ==> Integral(l.dataType))
       else ComparableType(l.dataType) && e.dataType.Boolean?
  }

  /** A call's result: counts and ranks are 64-bit and never NULL, everything else may be. */
  predicate CallTyped(f: WindowFunction, args: seq<Expr>, e: Expr) {
    if f.OverAggregate? && f.aggregate != Count then
      && |args| == 1 && args[0].dataType == e.dataType && e.nullable && !e.dataType.NullType?
      && (f.aggregate == Sum ==> e.dataType.Int64? || e.dataType.Float64?)
      && (f.aggregate == Avg ==> e.dataType.Float64?)
    else e.dataType.Int64? && !e.nullable && (f.OverAggregate? ==> |args| <= 1) && (!f.OverAggregate? ==> args == [])
  }

  predicate WellTyped(e: Expr, cols: Columns) {
    && (forall i | 0 <= i < |Children(e)| :: WellTyped(Children(e)[i], cols))
    && match e.kind
       case Literal(v) => ScalarHasType(v, e.dataType) && e.nullable == v.NullScalar?
       case ColumnRef(b) => b in cols && cols[b].dataType == e.dataType && cols[b].nullable == e.nullable
       case Unary(op, a) =>
         && e.dataType == a.dataType && e.nullable == a.nullable
         && (if op.Not? then a.dataType.Boolean? else Numeric(a.dataType)) && (op.Minus? ==> !a.dataType.Uint32?)
       case Binary(op, l, r) => BinaryTyped(op, l, r, e)
       case Cast(a) => a.dataType != e.dataType && e.nullable == a.nullable
       case IsNull(_, _) => e.dataType.Boolean? && !e.nullable
       case Aggregate(f, args, _, filter) =>
         CallTyped(OverAggregate(f), args, e) && (filter.Some? ==> filter.value.dataType.Boolean?)
       case Window(f, args, _, filter, _, _, _) =>
         CallTyped(f, args, e) && (filter.Some? ==> filter.value.dataType.Boolean?)
  }

  /** Both promises about one bound expression. */
  predicate Good(e: Expr, cols: Columns, aggregates: bool, windows: bool) {
    WellTyped(e, cols) && WellBound(e, SchemaOf(cols), aggregates, windows)
  }

  predicate AllGood(es: seq<Expr>, cols: Columns, aggregates: bool, windows: bool) {
    forall i | 0 <= i < |es| :: Good(es[i], cols, aggregates, windows)
  }

  predicate AllKeysGood(os: seq<OrderKey>, cols: Columns, aggregates: bool, windows: bool) {
    forall i | 0 <= i < |os| :: KeyGood(os[i], cols, aggregates, windows)
  }

  predicate KeyGood(o: OrderKey, cols: Columns, aggregates: bool, windows: bool) {
    Good(o.expr, cols, aggregates, windows)
  }

  // ---------- coercions ----------

  lemma CastGood(e: Expr, t: LogicalType, cols: Columns, a: bool, w: bool)
    requires Good(e, cols, a, w)
    ensures Good(CastTo(e, t), cols, a, w) && CastTo(e, t).dataType == t && CastTo(e, t).nullable == e.nullable
  {
    if e.dataType != t {
      var c := CastTo(e, t);
      assert Children(c) == [e];
    }
  }

  lemma BooleanGood(e: Expr, cols: Columns, a: bool, w: bool)
    requires Good(e, cols, a, w) && AsBoolean(e).Ok?
    ensures Good(AsBoolean(e).value, cols, a, w) && AsBoolean(e).value.dataType.Boolean?
  {
    hide Good;
    CastGood(e, Boolean, cols, a, w);
  }

  /** Assigned values have exactly the target's type. */
  lemma AssignmentGood(e: Expr, t: LogicalType, cols: Columns, a: bool, w: bool)
    requires Good(e, cols, a, w) && Assignment(e, t).Ok?
    ensures var v := Assignment(e, t).value; Good(v, cols, a, w) && v.dataType == t && v.nullable == e.nullable
  {
    hide Good;
    CastGood(e, t, cols, a, w);
  }

  lemma CommonNumeric(l: LogicalType, r: LogicalType, integral: bool)
    requires NumericOperand(l, integral) && NumericOperand(r, integral)
    ensures NumericCommon(l, r).Some? && Numeric(NumericCommon(l, r).value) &&
              (integral ==> Integral(NumericCommon(l, r).value))
  {
  }

  lemma CommonComparable(l: LogicalType, r: LogicalType)
    ensures ComparisonCommon(l, r).Some? ==> ComparableType(ComparisonCommon(l, r).value)
    ensures ComparisonCommon(l, r) == ComparisonCommon(r, l)
  {
  }

  lemma UnaryGood(op: UnaryOp, e: Expr, cols: Columns, a: bool, w: bool)
    requires Good(e, cols, a, w) && BindUnary(op, e).Ok?
    ensures Good(BindUnary(op, e).value, cols, a, w)
  {
    var r := BindUnary(op, e).value;
    CastGood(e, Boolean, cols, a, w);
    CastGood(e, Int32, cols, a, w);
    CastGood(e, Int64, cols, a, w);
    assert Children(r) == [r.kind.operand];
  }

  lemma BinaryGood(op: BinaryOp, l: Expr, r: Expr, cols: Columns, a: bool, w: bool)
    requires Good(l, cols, a, w) && Good(r, cols, a, w) && BindBinary(op, l, r).Ok?
    ensures Good(BindBinary(op, l, r).value, cols, a, w)
  {
    hide Good, ComparisonCommon, NumericCommon, ComparableType;
    var e := BindBinary(op, l, r).value;
    if op.And? || op.Or? {
      BooleanGood(l, cols, a, w);
      BooleanGood(r, cols, a, w);
      TypedNode(op, AsBoolean(l).value, AsBoolean(r).value, e, cols, a, w);
    } else if Arithmetic(op) {
      CommonNumeric(l.dataType, r.dataType, op.Modulo?);
      var t := NumericCommon(l.dataType, r.dataType).value;
      CastGood(l, t, cols, a, w);
      CastGood(r, t, cols, a, w);
      TypedNode(op, CastTo(l, t), CastTo(r, t), e, cols, a, w);
    } else {
      CommonComparable(l.dataType, r.dataType);
      var t := ComparisonCommon(l.dataType, r.dataType).value;
      CastGood(l, t, cols, a, w);
      CastGood(r, t, cols, a, w);
      TypedNode(op, CastTo(l, t), CastTo(r, t), e, cols, a, w);
    }
  }

  lemma TypedNode(op: BinaryOp, l: Expr, r: Expr, e: Expr, cols: Columns, a: bool, w: bool)
    requires Good(l, cols, a, w) && Good(r, cols, a, w) && e.kind == Binary(op, l, r) && BinaryTyped(op, l, r, e)
    ensures Good(e, cols, a, w)
  {
    assert Children(e) == [l, r];
  }

  lemma NumberGood(n: Numeral, negative: bool, cols: Columns, a: bool, w: bool)
    requires NumberOf(n, negative).Ok?
    ensures Good(NumberOf(n, negative).value, cols, a, w)
  {
    assert Children(NumberOf(n, negative).value) == [];
  }

  // ---------- calls ----------

  lemma SignatureGood(f: WindowFunction, args: seq<Expr>, cols: Columns, a: bool)
    requires AllGood(args, cols, a, false) && Signature(f, args).Ok?
    requires if f.OverAggregate? then |args| == 1 || (args == [] && f.aggregate == Count) else args == []
    ensures var (t, nullable, coerced) := Signature(f, args).value;
      && AllGood(coerced, cols, a, false) && |coerced| == |args|
      && forall kind :: CallTyped(f, coerced, Expr(t, nullable, kind))
  {
    hide Good;
    if args != [] {
      var arg := args[0];
      assert Good(arg, cols, a, false);
      CastGood(arg, Signature(f, args).value.0, cols, a, false);
    }
  }

  lemma AggregateGood(e: Expr, cols: Columns, w: bool)
    requires e.kind.Aggregate? && AllGood(e.kind.args, cols, false, false) &&
               AllGood(Optional(e.kind.filter), cols, false, false)
    requires CallTyped(OverAggregate(e.kind.fn), e.kind.args, e) &&
               (e.kind.filter.Some? ==> e.kind.filter.value.dataType.Boolean?)
    requires e.kind.args == [] ==> e.kind.fn == Count && !e.kind.distinct
    ensures Good(e, cols, true, w)
  {
    var a, f := e.kind.args, Optional(e.kind.filter);
    forall i | 0 <= i < |Children(e)| ensures Good(Children(e)[i], cols, false, false) {
      if i < |a| { assert Good(a[i], cols, false, false); } else { assert Good(f[i - |a|], cols, false, false); }
    }
    forall i | 0 <= i < |a|
      ensures WellBound(a[i], SchemaOf(cols), false, false)
    {
      assert Good(a[i], cols, false, false);
    }
    if e.kind.filter.Some? { assert Good(f[0], cols, false, false); }
  }

  lemma WindowGood(e: Expr, cols: Columns, a: bool)
    requires e.kind.Window? && AllGood(e.kind.operands, cols, true, false) &&
               AllGood(Optional(e.kind.where), cols, true, false)
    requires AllGood(e.kind.partition, cols, true, false) && AllKeysGood(e.kind.order, cols, true, false)
    requires CallTyped(e.kind.over, e.kind.operands, e) && (e.kind.where.Some? ==> e.kind.where.value.dataType.Boolean?)
    ensures Good(e, cols, a, true)
  {
    hide Good, CallTyped;
    var k := e.kind;
    var x, f, p, o := k.operands, Optional(k.where), k.partition, k.order;
    var cs := Children(e);
    forall i | 0 <= i < |cs| ensures Good(cs[i], cols, true, false) {
      if i < |x| { assert Good(x[i], cols, true, false); }
      else if i < |x| + |f| { assert Good(f[i - |x|], cols, true, false); }
      else if i < |x| + |f| + |p| { assert Good(p[i - |x| - |f|], cols, true, false); }
      else { assert KeyGood(o[i - |x| - |f| - |p|], cols, true, false); }
    }
    WindowParts(e, cols, a);
  }

  lemma WindowParts(e: Expr, cols: Columns, a: bool)
    requires e.kind.Window? && forall i | 0 <= i < |Children(e)| :: Good(Children(e)[i], cols, true, false)
    requires CallTyped(e.kind.over, e.kind.operands, e) && (e.kind.where.Some? ==> e.kind.where.value.dataType.Boolean?)
    ensures Good(e, cols, a, true)
  {
    hide CallTyped;
    var k, s, cs := e.kind, SchemaOf(cols), Children(e);
    var x, f, p, o := k.operands, Optional(k.where), k.partition, OrderExprs(k.order);
    forall i | 0 <= i < |x| ensures WellBound(x[i], s, true, false) { assert cs[i] == x[i]; }
    forall i | 0 <= i < |f| ensures WellBound(f[i], s, true, false) { assert cs[|x| + i] == f[i]; }
    forall i | 0 <= i < |p| ensures WellBound(p[i], s, true, false) { assert cs[|x| + |f| + i] == p[i]; }
    forall i | 0 <= i < |k.order|
      ensures WellBound(k.order[i].expr, s, true, false)
    {
      assert cs[|x| + |f| + |p| + i] == o[i];
    }
    assert k.where.Some? ==> WellBound(f[0], s, true, false);
  }

  // ---------- expressions ----------

  lemma {:induction false} ListGood(c: Context, es: seq<Syntax>, depth: nat, a: bool, w: bool, cols: Columns)
    requires InScope(c, cols) && BindList(c, es, depth, a, w).Ok?
    ensures AllGood(BindList(c, es, depth, a, w).value, cols, a, w) && |BindList(c, es, depth, a, w).value| == |es|
    decreases es
  {
    hide Good, Bind, InScope;
    if es != [] {
      BindGood(c, es[0], depth, a, w, cols);
      ListGood(c, es[1..], depth, a, w, cols);
      var b, bs := Bind(c, es[0], depth, a, w).value, BindList(c, es[1..], depth, a, w).value;
      assert forall i | 0 < i < |[b] + bs| :: ([b] + bs)[i] == bs[i - 1];
    }
  }

  lemma {:induction false} OrdersGood(c: Context, os: seq<SyntaxOrder>, depth: nat, cols: Columns)
    requires InScope(c, cols) && BindOrders(c, os, depth).Ok?
    ensures AllKeysGood(BindOrders(c, os, depth).value, cols, true, false)
    decreases os
  {
    hide Good, Bind, InScope;
    if os != [] {
      KeysGood(c, os[0], depth, cols);
      OrdersGood(c, os[1..], depth, cols);
      var b, bs := BindKey(c, os[0], depth).value, BindOrders(c, os[1..], depth).value;
      assert forall i | 0 < i < |[b] + bs| :: ([b] + bs)[i] == bs[i - 1];
    }
  }

  lemma {:induction false} KeysGood(c: Context, o: SyntaxOrder, depth: nat, cols: Columns)
    requires InScope(c, cols) && BindKey(c, o, depth).Ok?
    ensures KeyGood(BindKey(c, o, depth).value, cols, true, false)
    decreases o
  {
    hide Good, Bind, InScope;
    BindGood(c, o.expr, depth, true, false, cols);
  }

  lemma {:induction false} FilterGood(c: Context, f: Option<Syntax>, depth: nat, a: bool, cols: Columns)
    requires InScope(c, cols) && BindFilter(c, f, depth, a).Ok?
    ensures var r := BindFilter(c, f, depth, a).value;
      AllGood(Optional(r), cols, a, false) && (r.Some? ==> r.value.dataType.Boolean?) && r.Some? == f.Some?
    decreases f
  {
    hide Good, Bind, InScope, AsBoolean;
    if f.Some? {
      BindGood(c, f.value, depth, a, false, cols);
      BooleanGood(Bind(c, f.value, depth, a, false).value, cols, a, false);
    }
  }

  lemma {:induction false} CallGood(c: Context, e: Syntax, f: WindowFunction, depth: nat, a: bool, w: bool,
                                    cols: Columns)
    requires InScope(c, cols) && e.Call? && BindCall(c, e, f, depth).Ok?
    requires CallError(f, e.args, e.distinct, e.filter.Some?, e.over.Some?, a, w).None?
    ensures Good(BindCall(c, e, f, depth).value, cols, a, w)
    decreases e, 0
  {
    hide Good, Bind, InScope, Signature, CallTyped, BindList, BindOrders, BindFilter, AllGood, AllKeysGood;
    var over := e.over.Some?;
    if !Star(e.args) { ListGood(c, e.args, depth + 1, over, false, cols); } else { NothingGood(cols, over); }
    var args := if Star(e.args) then [] else BindList(c, e.args, depth + 1, over, false).value;
    FilterGood(c, e.filter, depth + 1, over, cols);
    SignatureGood(f, args, cols, over);
    var r := BindCall(c, e, f, depth).value;
    if over {
      ListGood(c, e.over.value.partition, depth + 1, true, false, cols);
      OrdersGood(c, e.over.value.order, depth + 1, cols);
      WindowGood(r, cols, a);
    } else {
      AggregateGood(r, cols, w);
    }
  }

  lemma NothingGood(cols: Columns, a: bool)
    ensures AllGood([], cols, a, false)
  {
  }

  lemma LeafGood(c: Context, e: Syntax, depth: nat, a: bool, w: bool, cols: Columns)
    requires InScope(c, cols) && Bind(c, e, depth, a, w).Ok? &&
               (e.Identifier? || e.NullLit? || e.BooleanLit? || e.StringLit?)
    ensures Good(Bind(c, e, depth, a, w).value, cols, a, w)
  {
    var r := Bind(c, e, depth, a, w).value;
    assert Children(r) == [];
    if e.Identifier? { assert Declares(cols, c.scope[(e.qualifier, e.name)]); }
  }

  lemma IsNullGood(e: Expr, negated: bool, cols: Columns, a: bool, w: bool)
    requires Good(e, cols, a, w)
    ensures Good(Expr(Boolean, false, IsNull(e, negated)), cols, a, w)
  {
    assert Children(Expr(Boolean, false, IsNull(e, negated))) == [e];
  }

  /** Every expression the binder returns is well typed with explicit casts, and has aggregates
      and windows only where they are allowed. */
  lemma {:induction false} BindGood(c: Context, e: Syntax, depth: nat, a: bool, w: bool, cols: Columns)
    requires InScope(c, cols) && Bind(c, e, depth, a, w).Ok?
    ensures Good(Bind(c, e, depth, a, w).value, cols, a, w)
    decreases e, 1
  {
    hide Good, InScope, BindUnary, BindBinary, NumberOf, BindCall, CallError, FunctionOf;
    match e
    case NumberLit(n) => NumberGood(n, false, cols, a, w);
    case UnarySyntax(op, x) =>
      if op.Minus? && x.NumberLit? {
        NumberGood(x.numeral, true, cols, a, w);
      } else {
        BindGood(c, x, depth + 1, a, w, cols);
        UnaryGood(op, Bind(c, x, depth + 1, a, w).value, cols, a, w);
      }
    case BinarySyntax(l, op, r) =>
      BindGood(c, l, depth + 1, a, w, cols);
      BindGood(c, r, depth + 1, a, w, cols);
      BinaryGood(op, Bind(c, l, depth + 1, a, w).value, Bind(c, r, depth + 1, a, w).value, cols, a, w);
    case IsNullSyntax(x, negated) =>
      BindGood(c, x, depth + 1, a, w, cols);
      IsNullGood(Bind(c, x, depth + 1, a, w).value, negated, cols, a, w);
    case Call(name, _, _, _, _) => CallGood(c, e, FunctionOf(name).value, depth, a, w, cols);
    case _ => LeafGood(c, e, depth, a, w, cols);
  }
}
