/** Expression and query binding: crates/binder/src/expression.rs, aggregate.rs, binding.rs. */
module Binder {
  import opened Options
  import opened Sql
  import opened Bound
  import opened Planner
  import opened GroupCheck

  /** A number token: its digits' value, or a float's magnitude. */
  datatype Numeral = Whole(magnitude: nat) | Fractional(bits: nat)

  /** Parsed expressions. */
  datatype Syntax =
    | Identifier(qualifier: Option<string>, name: string)
    | Alias(aliased: Syntax, alias: string)
    | Wildcard
    | NullLit
    | BooleanLit(truth: bool)
    | StringLit(text: string)
    | NumberLit(numeral: Numeral)
    | UnarySyntax(op: UnaryOp, operand: Syntax)
    | BinarySyntax(left: Syntax, binary: BinaryOp, right: Syntax)
    | IsNullSyntax(tested: Syntax, negated: bool)
    | Call(fn: string, args: seq<Syntax>, distinct: bool, filter: Option<Syntax>, over: Option<Spec>)

  datatype SyntaxOrder = SyntaxOrder(expr: Syntax, ascending: bool, nulls: Option<bool>)

  datatype Spec = Spec(partition: seq<Syntax>, order: seq<SyntaxOrder>, frame: Option<WindowFrame>)

  datatype BindError =
    | BindTooDeep
    | InvalidStatement
    | InvalidWildcard
    | InvalidNumber
    | UnknownFunction
    | InvalidFunction
    | InvalidFrame
    | EmptyProjection
    | UnknownName
    | AmbiguousName
    | TypeMismatch
    | IncompatibleTypes
    | UngroupedColumn

  type Binds<T> = Result<T, BindError>

  /** A visible column. */
  datatype Resolved = Resolved(binding: Binding, name: string, dataType: LogicalType, nullable: bool)

  /** The names in scope and the columns of the table, in order. */
  datatype Context = Context(scope: map<(Option<string>, string), Resolved>, table: Option<seq<Resolved>>)

  const BIND_DEPTH: nat := 256

  // ---------- types ----------

  predicate Numeric(t: LogicalType) { t.Int32? || t.Int64? || t.Uint32? || t.Float32? || t.Float64? }

  predicate Integral(t: LogicalType) { t.Int32? || t.Int64? || t.Uint32? }

  predicate Textual(t: LogicalType) { t.Text? || t.Varchar? }

  /** `require_numeric`. */
  predicate NumericOperand(t: LogicalType, integral: bool) { t.NullType? || (Numeric(t) && (integral ==> Integral(t))) }

  /** `numeric_common`. */
  function NumericCommon(l: LogicalType, r: LogicalType): (t: Option<LogicalType>) {
    if l.NullType? && r.NullType? then Some(Int32)
    else if l.NullType? then (if Numeric(r) then Some(r) else None)
    else if r.NullType? then (if Numeric(l) then Some(l) else None)
    else if !Numeric(l) || !Numeric(r) then None
    else if l == r then Some(l)
    else if l.Float64? || l.Float32? || r.Float64? || r.Float32? then Some(Float64)
    else Some(Int64)
  }

  /** `comparison_common`. */
  function ComparisonCommon(l: LogicalType, r: LogicalType): (t: Option<LogicalType>)
    decreases (if l.NullType? then 1 else 0) + (if r.NullType? then 1 else 0)
  {
    if l.NullType? && r.NullType? then Some(Text)
    else if l.NullType? then ComparisonCommon(r, r)
    else if r.NullType? then ComparisonCommon(l, l)
    else if l.Boolean? && r.Boolean? then Some(Boolean)
    else if Textual(l) && Textual(r) then Some(Text)
    else NumericCommon(l, r)
  }

  /** `cast`: explicit, and only when the type changes. */
  function CastTo(e: Expr, t: LogicalType): (r: Expr) { if e.dataType == t then e else Expr(t, e.nullable, Cast(e)) }

  /** `boolean`. */
  function AsBoolean(e: Expr): (r: Binds<Expr>) {
    if e.dataType.Boolean? then Ok(e) else if e.dataType.NullType? then Ok(CastTo(e, Boolean)) else Err(TypeMismatch)
  }

  /** `assignment`. */
  function Assignment(e: Expr, t: LogicalType): (r: Binds<Expr>) {
    if e.dataType == t || e.dataType.NullType? || (Numeric(e.dataType) && Numeric(t)) ||
        (Textual(e.dataType) && Textual(t))
    then Ok(CastTo(e, t))
    else Err(IncompatibleTypes)
  }

  function LiteralOf(t: LogicalType, v: Scalar): (e: Expr) { Expr(t, v.NullScalar?, Literal(v)) }

  /** `number`: 32 bits if they suffice, 64 otherwise; a negative token is read as a whole. */
  function NumberOf(n: Numeral, negative: bool): (r: Binds<Expr>) {
    match n
    case Fractional(bits) => Ok(LiteralOf(Float64, Float64Scalar(Float(negative, bits))))
    case Whole(m) =>
      if m > (if negative then 0x8000_0000_0000_0000 else 0x7FFF_FFFF_FFFF_FFFF) then Err(InvalidNumber)
      else
        var size: int := m;
        var v := if negative then -size else size;
        Ok(if -0x8000_0000 <= v < 0x8000_0000 then LiteralOf(Int32, Int32Scalar(v))
            else LiteralOf(Int64, Int64Scalar(v)))
  }

  // ---------- expressions ----------

  predicate Arithmetic(op: BinaryOp) { op.Add? || op.Subtract? || op.Multiply? || op.Divide? || op.Modulo? }

  function BindUnary(op: UnaryOp, e: Expr): (r: Binds<Expr>) {
    match op
    case Not =>
      (match AsBoolean(e)
       case Err(error) => Err(error)
       case Ok(b) => Ok(Expr(b.dataType, b.nullable, Unary(op, b))))
    case _ =>
      var n := if e.dataType.NullType? then CastTo(e, Int32) else e;
      if !NumericOperand(n.dataType, false) then Err(TypeMismatch)
      else
        var m := if op.Minus? && n.dataType.Uint32? then CastTo(n, Int64) else n;
        Ok(Expr(m.dataType, m.nullable, Unary(op, m)))
  }

  function BinaryOf(op: BinaryOp, l: Expr, r: Expr, t: LogicalType): (e: Expr) {
    Expr(t, l.nullable || r.nullable, Binary(op, l, r))
  }

  function BindBinary(op: BinaryOp, l: Expr, r: Expr): (e: Binds<Expr>) {
    if op.And? || op.Or? then
      match AsBoolean(l)
      case Err(error) => Err(error)
      case Ok(a) =>
        (match AsBoolean(r)
         case Err(error) => Err(error)
         case Ok(b) => Ok(BinaryOf(op, a, b, Boolean)))
    else if Arithmetic(op) then
      if !NumericOperand(l.dataType, op.Modulo?) || !NumericOperand(r.dataType, op.Modulo?) then Err(TypeMismatch)
      else
        var t := NumericCommon(l.dataType, r.dataType).value;
        Ok(BinaryOf(op, CastTo(l, t), CastTo(r, t), t))
    else
      match ComparisonCommon(l.dataType, r.dataType)
      case None => Err(IncompatibleTypes)
      case Some(t) => Ok(BinaryOf(op, CastTo(l, t), CastTo(r, t), Boolean))
  }

  function FunctionOf(name: string): (f: Option<WindowFunction>) {
    if name == "count" then Some(OverAggregate(Count))
    else if name == "sum" then Some(OverAggregate(Sum))
    else if name == "avg" then Some(OverAggregate(Avg))
    else if name == "min" then Some(OverAggregate(Min))
    else if name == "max" then Some(OverAggregate(Max))
    else if name == "row_number" then Some(RowNumber)
    else if name == "rank" then Some(Rank)
    else if name == "dense_rank" then Some(DenseRank)
    else None
  }

  predicate Star(args: seq<Syntax>) { args == [Wildcard] }

  /** The checks of `bind_call` that need no operand. */
  function CallError(f: WindowFunction, args: seq<Syntax>, distinct: bool, filtered: bool, over: bool,
                     aggregates: bool, windows: bool): (e: Option<BindError>) {
    if over && (!windows || distinct) then Some(InvalidFunction)
    else if !over && (!f.OverAggregate? || !aggregates) then Some(InvalidFunction)
    else if f.OverAggregate? && (|args| != 1 || (Star(args) && f.aggregate != Count) || (Star(args) && distinct))
        then Some(InvalidFunction)
    else if !f.OverAggregate? && (args != [] || distinct || filtered) then Some(InvalidFunction)
    else None
  }

  /** Result type and nullability of a call, with its operand coerced. */
  function Signature(f: WindowFunction, args: seq<Expr>): (r: Binds<(LogicalType, bool, seq<Expr>)>) {
    if !f.OverAggregate? || f.aggregate == Count || args == [] then Ok((Int64, false, args))
    else
      var arg := args[0];
      if f.aggregate == Sum || f.aggregate == Avg then
        if !NumericOperand(arg.dataType, false) then Err(TypeMismatch)
        else
          var t := if f.aggregate == Avg || arg.dataType.Float32? || arg.dataType.Float64? then Float64 else Int64;
          Ok((t, true, [CastTo(arg, t)]))
      else
        var t := if arg.dataType.NullType? then Text else arg.dataType;
        Ok((t, true, [CastTo(arg, t)]))
  }

  /** A frame boundary's offset must be a 64-bit number, and needs ROWS. */
  predicate BoundOk(b: FrameBound, rows: bool) {
    b.Preceding? || b.Following? ==> rows && b.n < 0x1_0000_0000_0000_0000
  }

  function Category(b: FrameBound): (n: nat) {
    match b
    case UnboundedPreceding => 0
    case Preceding(_) => 1
    case CurrentRow => 2
    case Following(_) => 3
    case UnboundedFollowing => 4
  }

  /** `frame`. */
  function FrameOf(frame: Option<WindowFrame>, ordered: bool): (r: Binds<WindowFrame>) {
    match frame
    case None => Ok(WindowFrame(false, UnboundedPreceding, if ordered then CurrentRow else UnboundedFollowing))
    case Some(f) =>
      if !BoundOk(f.start, f.rows) || !BoundOk(f.end, f.rows) then Err(InvalidFrame)
      else if f.start.UnboundedFollowing? || f.end.UnboundedPreceding? || Category(f.start) > Category(f.end)
      then Err(InvalidFrame)
      else Ok(f)
  }

  function KeyOfOrder(e: Expr, ascending: bool, nulls: Option<bool>): (o: OrderKey) {
    OrderKey(e, ascending, if nulls.Some? then nulls.value else !ascending)
  }

  function BindList(c: Context, es: seq<Syntax>, depth: nat, aggregates: bool, windows: bool): (r: Binds<seq<Expr>>)
    decreases es
  {
    if es == [] then Ok([])
    else match Bind(c, es[0], depth, aggregates, windows)
      case Err(error) => Err(error)
      case Ok(b) =>
        match BindList(c, es[1..], depth, aggregates, windows)
        case Err(error) => Err(error)
        case Ok(bs) => Ok([b] + bs)
  }

  function BindOrders(c: Context, os: seq<SyntaxOrder>, depth: nat): (r: Binds<seq<OrderKey>>)
    decreases os
  {
    if os == [] then Ok([])
    else
      var o := os[0];
      match BindKey(c, o, depth)
      case Err(error) => Err(error)
      case Ok(k) =>
        match BindOrders(c, os[1..], depth)
        case Err(error) => Err(error)
        case Ok(ks) => Ok([k] + ks)
  }

  function BindKey(c: Context, o: SyntaxOrder, depth: nat): (r: Binds<OrderKey>)
    decreases o
  {
    match Bind(c, o.expr, depth, true, false)
    case Err(error) => Err(error)
    case Ok(b) => Ok(KeyOfOrder(b, o.ascending, o.nulls))
  }

  function BindFilter(c: Context, f: Option<Syntax>, depth: nat, aggregates: bool): (r: Binds<Option<Expr>>)
    decreases f
  {
    match f
    case None => Ok(None)
    case Some(e) =>
      match Bind(c, e, depth, aggregates, false)
      case Err(error) => Err(error)
      case Ok(b) =>
        match AsBoolean(b)
        case Err(error) => Err(error)
        case Ok(p) => Ok(Some(p))
  }

  /** `bind_call` after its first checks. */
  function BindCall(c: Context, e: Syntax, f: WindowFunction, depth: nat): (r: Binds<Expr>)
    requires e.Call?
    decreases e, 0
  {
    var over := e.over.Some?;
    match (if Star(e.args) then Ok([]) else BindList(c, e.args, depth + 1, over, false))
    case Err(error) => Err(error)
    case Ok(args) =>
      match BindFilter(c, e.filter, depth + 1, over)
      case Err(error) => Err(error)
      case Ok(filter) =>
        match Signature(f, args)
        case Err(error) => Err(error)
        case Ok((t, nullable, coerced)) =>
          if !over then
            if f.OverAggregate? then Ok(Expr(t, nullable, Aggregate(f.aggregate, coerced, e.distinct, filter)))
            else Err(InvalidFunction)
          else match BindList(c, e.over.value.partition, depth + 1, true, false)
            case Err(error) => Err(error)
            case Ok(partition) =>
              match BindOrders(c, e.over.value.order, depth + 1)
              case Err(error) => Err(error)
              case Ok(order) =>
                match FrameOf(e.over.value.frame, e.over.value.order != [])
                case Err(error) => Err(error)
                case Ok(frame) => Ok(Expr(t, nullable, Window(f, coerced, e.distinct, filter, partition, order, frame)))
  }

  /** `bind_expr_inner`. */
  function Bind(c: Context, e: Syntax, depth: nat, aggregates: bool, windows: bool): (r: Binds<Expr>)
    decreases e, 1
  {
    if depth >= BIND_DEPTH then Err(BindTooDeep)
    else match e
      case Identifier(q, n) =>
        if (q, n) in c.scope then
          var r := c.scope[(q, n)];
          Ok(Expr(r.dataType, r.nullable, ColumnRef(r.binding)))
        else Err(UnknownName)
      case Alias(_, _) => Err(InvalidStatement)
      case Wildcard => Err(InvalidWildcard)
      case NullLit => Ok(LiteralOf(NullType, NullScalar))
      case BooleanLit(b) => Ok(LiteralOf(Boolean, BooleanScalar(b)))
      case StringLit(s) => Ok(LiteralOf(Text, StringScalar(s)))
      case NumberLit(n) => NumberOf(n, false)
      case UnarySyntax(op, a) =>
        if op.Minus? && a.NumberLit? then NumberOf(a.numeral, true)
        else
          (match Bind(c, a, depth + 1, aggregates, windows)
           case Err(error) => Err(error)
           case Ok(b) => BindUnary(op, b))
      case BinarySyntax(l, op, r) =>
        (match Bind(c, l, depth + 1, aggregates, windows)
         case Err(error) => Err(error)
         case Ok(a) =>
           match Bind(c, r, depth + 1, aggregates, windows)
           case Err(error) => Err(error)
           case Ok(b) => BindBinary(op, a, b))
      case IsNullSyntax(a, negated) =>
        (match Bind(c, a, depth + 1, aggregates, windows)
         case Err(error) => Err(error)
         case Ok(b) => Ok(Expr(Boolean, false, IsNull(b, negated))))
      case Call(name, args, distinct, filter, over) =>
        match FunctionOf(name)
        case None => Err(UnknownFunction)
        case Some(f) =>
          match CallError(f, args, distinct, filter.Some?, over.Some?, aggregates, windows)
          case Some(error) => Err(error)
          case None => BindCall(c, e, f, depth)
  }

  // ---------- queries ----------

  datatype SelectSyntax = SelectSyntax(
    projection: seq<Syntax>,
    filter: Option<Syntax>,
    groupBy: seq<Syntax>,
    having: Option<Syntax>,
    order: seq<SyntaxOrder>)

  datatype Item = Item(name: string, expr: Expr)

  function ItemName(e: Syntax): (n: string) {
    match e
    case Alias(_, alias) => alias
    case Identifier(_, name) => name
    case _ => "?column?"
  }

  /** One projection item; an alias counts as one level. */
  function BindItem(c: Context, e: Syntax): (r: Binds<Item>) {
    var inner := if e.Alias? then e.aliased else e;
    match Bind(c, inner, if e.Alias? then 1 else 0, true, true)
    case Err(error) => Err(error)
    case Ok(b) => Ok(Item(ItemName(e), b))
  }

  function BindItems(c: Context, es: seq<Syntax>): (r: Binds<seq<Item>>) {
    if es == [] then Ok([])
    else match BindItem(c, es[0])
      case Err(error) => Err(error)
      case Ok(b) =>
        match BindItems(c, es[1..])
        case Err(error) => Err(error)
        case Ok(bs) => Ok([b] + bs)
  }

  function Expanded(cols: seq<Resolved>): (ns: seq<Item>)
    ensures |ns| == |cols| && forall i | 0 <= i < |cols| ::
      ns[i] == Item(cols[i].name, Expr(cols[i].dataType, cols[i].nullable, ColumnRef(cols[i].binding)))
  {
    seq(|cols|, i requires 0 <= i < |cols| =>
      Item(cols[i].name, Expr(cols[i].dataType, cols[i].nullable, ColumnRef(cols[i].binding))))
  }

  function BindProjection(c: Context, es: seq<Syntax>): (r: Binds<seq<Item>>) {
    if Star(es) then (if c.table.Some? then Ok(Expanded(c.table.value)) else Err(InvalidWildcard)) else BindItems(c, es)
  }

  /** The projected expressions that bear a name. */
  function Matches(ns: seq<Item>, name: string): (es: seq<Expr>)
    ensures forall i | 0 <= i < |es| :: exists j | 0 <= j < |ns| :: ns[j].expr == es[i]
  {
    if ns == [] then []
    else
      var rest := Matches(ns[1..], name);
      if ns[0].name == name then [ns[0].expr] + rest else rest
  }

  /** An ORDER BY item: a projected name, an ordinal, or an expression. */
  function BindOrderItem(c: Context, ns: seq<Item>, e: Syntax): (r: Binds<Expr>) {
    if e.Identifier? && e.qualifier.None? then
      var found := Matches(ns, e.name);
      if |found| == 1 then Ok(found[0]) else if |found| > 1 then Err(AmbiguousName) else Bind(c, e, 0, true, true)
    else if e.NumberLit? && e.numeral.Whole? then
      if 1 <= e.numeral.magnitude <= |ns| then Ok(ns[e.numeral.magnitude - 1].expr) else Err(InvalidStatement)
    else Bind(c, e, 0, true, true)
  }

  function BindOrderBy(c: Context, ns: seq<Item>, os: seq<SyntaxOrder>): (r: Binds<seq<OrderKey>>) {
    if os == [] then Ok([])
    else match BindOrderItem(c, ns, os[0].expr)
      case Err(error) => Err(error)
      case Ok(b) =>
        match BindOrderBy(c, ns, os[1..])
        case Err(error) => Err(error)
        case Ok(ks) => Ok([KeyOfOrder(b, os[0].ascending, os[0].nulls)] + ks)
  }

  function Exprs(ns: seq<Item>): (es: seq<Expr>)
    ensures |es| == |ns| && forall i | 0 <= i < |ns| :: es[i] == ns[i].expr
  {
    seq(|ns|, i requires 0 <= i < |ns| => ns[i].expr)
  }

  /** The parts of a query, and whether it returns groups. */
  function BindParts(c: Context, s: SelectSyntax): (r: Binds<Query>) {
    if s.projection == [] then Err(EmptyProjection)
    else match BindProjection(c, s.projection)
    case Err(error) => Err(error)
    case Ok(ns) =>
      match BindFilter(c, s.filter, 0, false)
      case Err(error) => Err(error)
      case Ok(filter) =>
        match BindList(c, s.groupBy, 0, false, false)
        case Err(error) => Err(error)
        case Ok(groupBy) =>
          match BindFilter(c, s.having, 0, true)
          case Err(error) => Err(error)
          case Ok(having) =>
            match BindOrderBy(c, ns, s.order)
            case Err(error) => Err(error)
            case Ok(order) =>
              var draft := Query(Exprs(ns), filter, groupBy, having, order, false);
              Ok(draft.(isAggregate := BinderFlag(draft)))
  }

  /** `bind_select`. */
  function BindSelect(c: Context, s: SelectSyntax): (r: Binds<Query>) {
    match BindParts(c, s)
    case Err(error) => Err(error)
    case Ok(q) => if q.isAggregate && !AllGrouped(q) then Err(UngroupedColumn) else Ok(q)
  }

  predicate AllGrouped(q: Query) {
    var es := q.projection + Optional(q.having) + OrderExprs(q.order);
    forall i | 0 <= i < |es| :: ValidGrouped(es[i], q.groupBy)
  }
}
