/** Bound expressions of crates/binder/src/ast.rs. */
module Bound {
  import opened Options
  import opened Sql

  /** A finite float; only the sign of zero matters here. */
  datatype Float = Float(negative: bool, magnitude: nat)

  datatype Scalar =
    | NullScalar
    | BooleanScalar(truth: bool)
    | Int32Scalar(int32: int)
    | Int64Scalar(int64: int)
    | Uint32Scalar(uint32: int)
    | Float32Scalar(float32: Float)
    | Float64Scalar(float64: Float)
    | StringScalar(text: string)

  datatype Binding = Binding(relation: nat, column: nat)

  datatype UnaryOp = Not | Plus | Minus

  datatype BinaryOp =
    | Or | And | Eq | NotEq | Less | LessEq | Greater | GreaterEq | Add | Subtract | Multiply | Divide | Modulo

  datatype AggregateFunction = Count | Sum | Avg | Min | Max

  datatype WindowFunction = OverAggregate(aggregate: AggregateFunction) | RowNumber | Rank | DenseRank

  datatype FrameBound = UnboundedPreceding | Preceding(n: nat) | CurrentRow | Following(n: nat) | UnboundedFollowing

  datatype WindowFrame = WindowFrame(rows: bool, start: FrameBound, end: FrameBound)

  datatype Expr = Expr(dataType: LogicalType, nullable: bool, kind: Kind)

  datatype Kind =
    | Literal(value: Scalar)
    | ColumnRef(binding: Binding)
    | Unary(op: UnaryOp, operand: Expr)
    | Binary(binary: BinaryOp, left: Expr, right: Expr)
    | Cast(inner: Expr)
    | IsNull(tested: Expr, negated: bool)
    | Aggregate(fn: AggregateFunction, args: seq<Expr>, distinct: bool, filter: Option<Expr>)
    | Window(over: WindowFunction, operands: seq<Expr>, unique: bool, where: Option<Expr>,
             partition: seq<Expr>, order: seq<OrderKey>, frame: WindowFrame)

  datatype OrderKey = OrderKey(expr: Expr, ascending: bool, nullsFirst: bool)

  function Optional<T>(o: Option<T>): (s: seq<T>) { if o.Some? then [o.value] else [] }

  function OrderExprs(order: seq<OrderKey>): (es: seq<Expr>)
    ensures |es| == |order| && forall i | 0 <= i < |es| :: es[i] == order[i].expr
  {
    seq(|order|, i requires 0 <= i < |order| => order[i].expr)
  }

  /** The planner's `children`. */
  function Children(e: Expr): (cs: seq<Expr>)
    ensures forall i | 0 <= i < |cs| :: cs[i] < e
  {
    match e.kind
    case Literal(_) => []
    case ColumnRef(_) => []
    case Unary(_, x) => [x]
    case Binary(_, l, r) => [l, r]
    case Cast(x) => [x]
    case IsNull(x, _) => [x]
    case Aggregate(_, args, _, filter) => args + Optional(filter)
    case Window(_, args, _, filter, partition, order, _) => args + Optional(filter) + partition + OrderExprs(order)
  }

  /** The binder's `children`, which does not look inside an aggregate. */
  function VisibleChildren(e: Expr): (cs: seq<Expr>)
    ensures forall i | 0 <= i < |cs| :: cs[i] < e
  {
    if e.kind.Aggregate? then [] else Children(e)
  }

  // ---------- structural equality ----------

  function NormFloat(f: Float): (g: Float) { if f.magnitude == 0 then Float(false, 0) else f }

  function NormScalar(s: Scalar): (t: Scalar) {
    match s
    case Float32Scalar(f) => Float32Scalar(NormFloat(f))
    case Float64Scalar(f) => Float64Scalar(NormFloat(f))
    case _ => s
  }

  function NormAll(es: seq<Expr>): (fs: seq<Expr>)
    ensures |fs| == |es| && forall i | 0 <= i < |es| :: fs[i] == Norm(es[i])
  {
    seq(|es|, i requires 0 <= i < |es| => Norm(es[i]))
  }

  function NormOption(o: Option<Expr>): (p: Option<Expr>) {
    if o.Some? then Some(Norm(o.value)) else None
  }

  function NormKey(o: OrderKey): (p: OrderKey) { o.(expr := Norm(o.expr)) }

  function NormOrder(os: seq<OrderKey>): (ps: seq<OrderKey>)
    ensures |ps| == |os| && forall i | 0 <= i < |os| :: ps[i] == NormKey(os[i])
  {
    seq(|os|, i requires 0 <= i < |os| => NormKey(os[i]))
  }

  /** The expression with every zero float literal made positive. */
  function Norm(e: Expr): (f: Expr) {
    e.(kind :=
      match e.kind
      case Literal(v) => Literal(NormScalar(v))
      case ColumnRef(_) => e.kind
      case Unary(op, x) => Unary(op, Norm(x))
      case Binary(op, l, r) => Binary(op, Norm(l), Norm(r))
      case Cast(x) => Cast(Norm(x))
      case IsNull(x, negated) => IsNull(Norm(x), negated)
      case Aggregate(f, args, distinct, filter) => Aggregate(f, NormAll(args), distinct, NormOption(filter))
      case Window(f, args, distinct, filter, partition, order, frame) =>
        Window(f, NormAll(args), distinct, NormOption(filter), NormAll(partition), NormOrder(order), frame))
  }

  /** The derived `==` of bound expressions: IEEE equality ignores the sign of zero. */
  predicate Same(a: Expr, b: Expr) { Norm(a) == Norm(b) }

  /** No negative zero among the literals. */
  predicate Plain(e: Expr) { Norm(e) == e }

  lemma PlainChildren(e: Expr)
    requires Plain(e)
    ensures forall i | 0 <= i < |Children(e)| :: Plain(Children(e)[i])
  {
    match e.kind
    case Aggregate(_, args, _, filter) =>
      assert NormOption(filter) == filter;
      forall i | 0 <= i < |args| ensures Plain(args[i]) { assert NormAll(args)[i] == args[i]; }
    case Window(_, args, _, filter, partition, order, _) =>
      assert NormOption(filter) == filter;
      forall i | 0 <= i < |args| ensures Plain(args[i]) { assert NormAll(args)[i] == args[i]; }
      forall i | 0 <= i < |partition| ensures Plain(partition[i]) { assert NormAll(partition)[i] == partition[i]; }
      forall i | 0 <= i < |order| ensures Plain(order[i].expr) { assert NormOrder(order)[i] == order[i]; }
    case _ =>
  }

  predicate Contains(es: seq<Expr>, e: Expr) { exists i | 0 <= i < |es| :: Same(es[i], e) }

  // ---------- depth and size ----------

  /** The tree is at most k levels deep. */
  predicate Fits(e: Expr, k: nat) {
    k > 0 && forall i | 0 <= i < |Children(e)| :: Fits(Children(e)[i], k - 1)
  }

  function Size(e: Expr): (n: nat)
    decreases e, 1
  {
    1 + SizeAll(e, Children(e))
  }

  function SizeAll(ghost whole: Expr, es: seq<Expr>): (n: nat)
    requires forall i | 0 <= i < |es| :: es[i] < whole
    decreases whole, 0, |es|
  {
    if es == [] then 0 else Size(es[0]) + SizeAll(whole, es[1..])
  }
}
