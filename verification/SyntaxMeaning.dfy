/** What parsed expressions and parsed queries mean, apart from any binding. */
module SyntaxMeaning {
  import opened Options
  import opened Sql
  import opened Bound
  import opened BoundMeaning
  import opened PlanMeaning
  import opened Binder

  // ---------- types ----------

  /** Every value of the one numeric type is a value of the other, floats taken as exact. */
  predicate Promotes(a: LogicalType, b: LogicalType) {
    Numeric(a) && Numeric(b) && (a == b || b.Float64? || (b.Int64? && Integral(a)))
  }

  /** The smallest numeric type that two promote to. */
  function Joined(l: LogicalType, r: LogicalType): (t: LogicalType) {
    if Promotes(l, r) then r else if Promotes(r, l) then l else if Integral(l) && Integral(r) then Int64 else Float64
  }

  lemma JoinedIsLeast(l: LogicalType, r: LogicalType, t: LogicalType)
    requires Numeric(l) && Numeric(r)
    ensures Promotes(l, Joined(l, r)) && Promotes(r, Joined(l, r))
    ensures Promotes(l, t) && Promotes(r, t) ==> Promotes(Joined(l, r), t)
  {
  }

  /** The type in which an operator sees its operands; NULL takes the other's, or `alone`. */
  function Common(l: LogicalType, r: LogicalType, alone: LogicalType): (t: LogicalType) {
    if l.NullType? && r.NullType? then alone
    else
      var a, b := if l.NullType? then r else l, if r.NullType? then l else r;
      if Textual(a) && Textual(b) then Text else if a == b then a else Joined(a, b)
  }

  /** The types that two operands may be compared at. */
  predicate Comparable(l: LogicalType, r: LogicalType) {
    l.NullType? || r.NullType? || (l.Boolean? && r.Boolean?) || (Textual(l) && Textual(r)) || (Numeric(l) && Numeric(r))
  }

  /** The integer a token names, signed as a whole. */
  function Signed(magnitude: nat, negative: bool): (v: int) { if negative then -(magnitude as int) else magnitude }

  predicate Fits32(v: int) { -0x8000_0000 <= v <= 0x7FFF_FFFF }

  predicate Fits64(v: int) { -0x8000_0000_0000_0000 <= v <= 0x7FFF_FFFF_FFFF_FFFF }

  function NumberType(n: Numeral, negative: bool): (t: LogicalType) {
    match n
    case Fractional(_) => Float64
    case Whole(m) => if Fits32(Signed(m, negative)) then Int32 else Int64
  }

  function NumberValue(n: Numeral, negative: bool): (v: Value) {
    match n
    case Fractional(bits) => Datum(Float64Scalar(Float(negative, bits)))
    case Whole(m) =>
      var v := Signed(m, negative);
      Datum(if Fits32(v) then Int32Scalar(v) else Int64Scalar(v))
  }

  /** The type at which a sign is applied. */
  function SignType(op: UnaryOp, t: LogicalType): (r: LogicalType) {
    if t.NullType? then Int32 else if op.Minus? && t.Uint32? then Int64 else t
  }

  function Title(f: WindowFunction): (name: string) {
    match f
    case OverAggregate(Count) => "count"
    case OverAggregate(Sum) => "sum"
    case OverAggregate(Avg) => "avg"
    case OverAggregate(Min) => "min"
    case OverAggregate(Max) => "max"
    case RowNumber => "row_number"
    case Rank => "rank"
    case DenseRank => "dense_rank"
  }

  /** A name means the function that bears it. */
  lemma TitleNames(name: string, f: WindowFunction)
    ensures FunctionOf(name) == Some(f) <==> Title(f) == name
  {
  }

  /** The type at which a function takes an argument of type t. */
  function ArgumentType(f: WindowFunction, t: LogicalType): (r: LogicalType) {
    match f
    case OverAggregate(Sum) => if t.Float32? || t.Float64? then Float64 else Int64
    case OverAggregate(Avg) => Float64
    case OverAggregate(Min) => if t.NullType? then Text else t
    case OverAggregate(Max) => if t.NullType? then Text else t
    case _ => t
  }

  /** The type of a function's result: that of its argument, or of a number of rows. */
  function ResultType(f: WindowFunction, t: LogicalType): (r: LogicalType) {
    if f.OverAggregate? && f.aggregate != Count then ArgumentType(f, t) else Int64
  }

  function TypeIn(c: Context, e: Syntax): (t: LogicalType) {
    match e
    case Identifier(q, n) => if (q, n) in c.scope then c.scope[(q, n)].dataType else NullType
    case BooleanLit(_) => Boolean
    case StringLit(_) => Text
    case NumberLit(n) => NumberType(n, false)
    case UnarySyntax(op, a) =>
      if op.Not? then Boolean
      else if op.Minus? && a.NumberLit? then NumberType(a.numeral, true)
      else SignType(op, TypeIn(c, a))
    case BinarySyntax(l, op, r) => if Arithmetic(op) then Common(TypeIn(c, l), TypeIn(c, r), Int32) else Boolean
    case IsNullSyntax(_, _) => Boolean
    case Call(name, args, _, _, _) =>
      (match FunctionOf(name)
       case None => NullType
       case Some(f) => ResultType(f, if |args| == 1 then TypeIn(c, args[0]) else NullType))
    case _ => NullType
  }

  /** Whether an expression may be NULL: where a column, a literal or a function may be. */
  predicate MayBeNull(c: Context, e: Syntax) {
    match e
    case Identifier(q, n) => (q, n) in c.scope && c.scope[(q, n)].nullable
    case NullLit => true
    case UnarySyntax(_, a) => MayBeNull(c, a)
    case BinarySyntax(l, _, r) => MayBeNull(c, l) || MayBeNull(c, r)
    case Call(name, _, _, _, _) =>
      var f := FunctionOf(name); f.Some? && f.value.OverAggregate? && f.value.aggregate != Count
    case _ => false
  }

  // ---------- values ----------

  /** A value of the one type at the other. */
  function At(x: Engine, v: Value, from: LogicalType, to: LogicalType): (r: Value) {
    if from == to then v else x.convert(v, ArrowType(to))
  }

  /** The engine's result of a call at the type the call has. */
  function Delivered(x: Engine, f: WindowFunction, args: seq<LogicalType>, to: LogicalType, v: Value): (r: Value) {
    var types := seq(|args|, i requires 0 <= i < |args| => ArrowType(args[i]));
    if x.typeOf(f, types) == ArrowType(to) then v else x.convert(v, ArrowType(to))
  }

  function SaysAll(x: Engine, c: Context, es: seq<Syntax>, us: seq<Unit>, j: nat): (vs: seq<Value>)
    requires j < |us|
    ensures |vs| == |es| && forall i | 0 <= i < |es| :: vs[i] == Says(x, c, es[i], us, j)
    decreases es, 0
  {
    seq(|es|, i requires 0 <= i < |es| => Says(x, c, es[i], us, j))
  }

  function SaysKeys(x: Engine, c: Context, os: seq<SyntaxOrder>, us: seq<Unit>, j: nat): (vs: seq<Value>)
    requires j < |us|
    ensures |vs| == |os| && forall i | 0 <= i < |os| :: vs[i] == SaysKey(x, c, os[i], us, j)
    decreases os
  {
    seq(|os|, i requires 0 <= i < |os| => SaysKey(x, c, os[i], us, j))
  }

  function SaysKey(x: Engine, c: Context, o: SyntaxOrder, us: seq<Unit>, j: nat): (v: Value)
    requires j < |us|
    ensures v == Says(x, c, o.expr, us, j)
    decreases o
  {
    Says(x, c, o.expr, us, j)
  }

  /** A condition holds when it is there and is true, not when it is NULL. */
  predicate Holds(x: Engine, c: Context, p: Option<Syntax>, us: seq<Unit>, j: nat)
    requires j < |us|
    decreases p
  {
    p.None? || At(x, Says(x, c, p.value, us, j), TypeIn(c, p.value), Boolean) == Truth(true)
  }

  /** The argument of a call on one unit, at the type the function takes it. */
  function SaysArguments(x: Engine, c: Context, f: WindowFunction, args: seq<Syntax>, us: seq<Unit>,
                         j: nat): (vs: seq<Value>)
    requires j < |us|
    decreases args, 1
  {
    var vs := SaysAll(x, c, args, us, j);
    seq(|args|, i requires 0 <= i < |args| => At(x, vs[i], TypeIn(c, args[i]), ArgumentType(f, TypeIn(c, args[i]))))
  }

  function ArgumentTypes(c: Context, f: WindowFunction, args: seq<Syntax>): (ts: seq<LogicalType>) {
    seq(|args|, i requires 0 <= i < |args| => ArgumentType(f, TypeIn(c, args[i])))
  }

  function Alone(r: Row): (us: seq<Unit>) { [Unit(r, [])] }

  /** NULLs come first exactly if asked to, or in descending order. */
  function Way(ascending: bool, nulls: Option<bool>): (d: Direction) {
    (ascending, match nulls case Some(first) => first case None => !ascending)
  }

  function Ways(os: seq<SyntaxOrder>): (ds: seq<Direction>)
    ensures |ds| == |os| && forall i | 0 <= i < |os| :: ds[i] == Way(os[i].ascending, os[i].nulls)
  {
    seq(|os|, i requires 0 <= i < |os| => Way(os[i].ascending, os[i].nulls))
  }

  /** The rows a window function sees: those written, or all up to the current one's peers, or
      all when there is no order. */
  function Seen(s: Spec): (f: WindowFrame) {
    match s.frame
    case Some(f) => f
    case None => WindowFrame(false, UnboundedPreceding, if s.order == [] then UnboundedFollowing else CurrentRow)
  }

  /** The value of an expression at unit j of the units a query has at that point. Names stand
      for columns of the unit's row, operators apply to their operands in written order at
      their common type, aggregates range over the unit's members, windows over all units. */
  function Says(x: Engine, c: Context, e: Syntax, us: seq<Unit>, j: nat): (v: Value)
    requires j < |us|
    decreases e, 1
  {
    match e
    case Identifier(q, n) => if (q, n) in c.scope then Look(us[j].row, c.scope[(q, n)].binding) else NullValue
    case BooleanLit(b) => Truth(b)
    case StringLit(s) => Datum(StringScalar(s))
    case NumberLit(n) => NumberValue(n, false)
    case UnarySyntax(op, a) =>
      var v, t := Says(x, c, a, us, j), TypeIn(c, a);
      (match op
       case Not => KleeneNot(At(x, v, t, Boolean))
       case Plus => At(x, v, t, SignType(op, t))
       case Minus => if a.NumberLit? then NumberValue(a.numeral, true) else x.negate(At(x, v, t, SignType(op, t))))
    case BinarySyntax(l, op, r) =>
      var t :=
        if op.And? || op.Or? then Boolean
        else Common(TypeIn(c, l), TypeIn(c, r), if Arithmetic(op) then Int32 else Text);
      BinaryValue(x, op, At(x, Says(x, c, l, us, j), TypeIn(c, l), t), At(x, Says(x, c, r, us, j), TypeIn(c, r), t))
    case IsNullSyntax(a, negated) =>
      var absent := Says(x, c, a, us, j) == NullValue;
      Truth(if negated then !absent else absent)
    case Call(name, args, distinct, filter, over) =>
      (match FunctionOf(name)
       case None => NullValue
       case Some(f) =>
         var star := Star(args);
         var types := if star then [Int64] else ArgumentTypes(c, f, args);
         Delivered(x, f, types, TypeIn(c, e),
           match over
           case None =>
             var ms := us[j].members;
             var kept := Trues(seq(|ms|, i requires 0 <= i < |ms| => Holds(x, c, filter, Alone(ms[i]), 0)));
             var rows := Pick(seq(|ms|, i requires 0 <= i < |ms| => SaysArguments(x, c, f, args, Alone(ms[i]), 0)),
                 kept);
             if star then Integer(|kept|)
             else if f.OverAggregate? then AggregateValue(x, f.aggregate, distinct, rows)
             else NullValue
           case Some(s) =>
             var rows := seq(|us|, k requires 0 <= k < |us| => Operands(x, c, e, f, us, k));
             x.window(f, distinct, Seen(s), Ways(s.order), rows, j)))
    case _ => NullValue
  }

  /** What a window function sees of unit k; COUNT(*) counts a constant. */
  function Operands(x: Engine, c: Context, e: Syntax, f: WindowFunction, us: seq<Unit>, k: nat): (w: WindowRow)
    requires e.Call? && e.over.Some? && k < |us|
    decreases e, 0
  {
    WindowRow(if Star(e.args) then [Integer(1)] else SaysArguments(x, c, f, e.args, us, k),
              Holds(x, c, e.filter, us, k),
              SaysAll(x, c, e.over.value.partition, us, k),
              SaysKeys(x, c, e.over.value.order, us, k))
  }

  // ---------- queries ----------

  function OrderSyntax(os: seq<SyntaxOrder>): (es: seq<Syntax>)
    ensures |es| == |os| && forall i | 0 <= i < |os| :: es[i] == os[i].expr
  {
    seq(|os|, i requires 0 <= i < |os| => os[i].expr)
  }

  /** The expressions directly inside another; a signed number is one token. */
  function Parts(e: Syntax): (ps: seq<Syntax>)
    ensures forall i | 0 <= i < |ps| :: ps[i] < e
  {
    match e
    case UnarySyntax(op, a) => if op.Minus? && a.NumberLit? then [] else [a]
    case BinarySyntax(l, _, r) => [l, r]
    case IsNullSyntax(a, _) => [a]
    case Call(_, args, _, filter, over) =>
      (if Star(args) then [] else args) + Optional(filter)
      + (match over case None => [] case Some(s) => s.partition + OrderSyntax(s.order))
    case _ => []
  }

  /** An aggregate occurs in the expression, perhaps among the operands of a window. */
  predicate Aggregates(e: Syntax) {
    (e.Call? && e.over.None?) || exists i | 0 <= i < |Parts(e)| :: Aggregates(Parts(e)[i])
  }

  /** An output column: one of the table's for `*`, or an expression. */
  datatype Output = TableColumn(column: Resolved) | Written(expr: Syntax)

  function Unaliased(e: Syntax): (r: Syntax) { if e.Alias? then e.aliased else e }

  function Outputs(c: Context, projection: seq<Syntax>): (os: seq<Output>) {
    if !Star(projection) then
      seq(|projection|, i requires 0 <= i < |projection| => Written(Unaliased(projection[i])))
    else match c.table
      case None => []
      case Some(cols) => seq(|cols|, i requires 0 <= i < |cols| => TableColumn(cols[i]))
  }

  /** The heading of an output: its alias, the column it names, or a placeholder. */
  function Heading(e: Syntax): (h: string) {
    if e.Alias? then e.alias else if e.Identifier? then e.name else "?column?"
  }

  function Headings(c: Context, projection: seq<Syntax>): (hs: seq<string>)
    ensures |hs| == |Outputs(c, projection)|
  {
    if !Star(projection) then seq(|projection|, i requires 0 <= i < |projection| => Heading(projection[i]))
    else match c.table
      case None => []
      case Some(cols) => seq(|cols|, i requires 0 <= i < |cols| => cols[i].name)
  }

  /** Where a heading stands. */
  function Standing(hs: seq<string>, h: string): (k: Option<nat>)
    ensures k.Some? ==> k.value < |hs| && hs[k.value] == h
    ensures k.None? <==> h !in hs
  {
    if hs == [] then None
    else if hs[0] == h then Some(0)
    else match Standing(hs[1..], h) case None => None case Some(k) => Some(k + 1)
  }

  /** What an ORDER BY item orders by: an output by its heading or its number, or an expression. */
  function Ordered(c: Context, projection: seq<Syntax>, e: Syntax): (o: Output) {
    var os := Outputs(c, projection);
    if e.Identifier? && e.qualifier.None? && Standing(Headings(c, projection), e.name).Some? then
      os[Standing(Headings(c, projection), e.name).value]
    else if e.NumberLit? && e.numeral.Whole? && 1 <= e.numeral.magnitude <= |os| then os[e.numeral.magnitude - 1]
    else Written(e)
  }

  function OrderOutputs(c: Context, s: SelectSyntax): (os: seq<Output>)
    ensures |os| == |s.order| && forall i | 0 <= i < |os| :: os[i] == Ordered(c, s.projection, s.order[i].expr)
  {
    seq(|s.order|, i requires 0 <= i < |s.order| => Ordered(c, s.projection, s.order[i].expr))
  }

  predicate OutputAggregates(o: Output) { o.Written? && Aggregates(o.expr) }

  /** The query returns groups rather than rows. */
  predicate Grouped(c: Context, s: SelectSyntax) {
    || s.groupBy != [] || s.having.Some?
    || (exists i | 0 <= i < |Outputs(c, s.projection)| :: OutputAggregates(Outputs(c, s.projection)[i]))
    || (exists i | 0 <= i < |OrderOutputs(c, s)| :: OutputAggregates(OrderOutputs(c, s)[i]))
  }

  function OutputSays(x: Engine, c: Context, o: Output, us: seq<Unit>, j: nat): (v: Value)
    requires j < |us|
  {
    match o
    case TableColumn(r) => Look(us[j].row, r.binding)
    case Written(e) => Says(x, c, e, us, j)
  }

  /** The outputs at every unit. */
  function Shown(x: Engine, c: Context, os: seq<Output>, us: seq<Unit>): (vs: seq<seq<Value>>)
    ensures |vs| == |us|
  {
    seq(|us|, j requires 0 <= j < |us| =>
      seq(|os|, i requires 0 <= i < |os| => OutputSays(x, c, os[i], us, j)))
  }

  function Holding(x: Engine, c: Context, p: Option<Syntax>, us: seq<Unit>): (kept: seq<Unit>) {
    Pick(us, Trues(seq(|us|, j requires 0 <= j < |us| => Holds(x, c, p, us, j))))
  }

  /** The rows where the condition holds of the row itself. */
  function RowsHolding(x: Engine, c: Context, p: Option<Syntax>, rows: seq<Row>): (kept: seq<Row>) {
    Pick(rows, Trues(seq(|rows|, j requires 0 <= j < |rows| => Holds(x, c, p, Alone(rows[j]), 0))))
  }

  function GroupKeys(x: Engine, c: Context, es: seq<Syntax>, rows: seq<Row>): (ks: seq<seq<Value>>)
    ensures |ks| == |rows|
  {
    seq(|rows|, j requires 0 <= j < |rows| => SaysAll(x, c, es, Alone(rows[j]), 0))
  }

  /** Rows with equal keys, or all rows, or each row. */
  function UnitsOf(x: Engine, c: Context, s: SelectSyntax, rows: seq<Row>): (us: seq<Unit>) {
    if !Grouped(c, s) then Singles(rows)
    else
      var parts := Partition(GroupKeys(x, c, s.groupBy, rows), s.groupBy == []);
      seq(|parts|, g requires 0 <= g < |parts| => GroupUnit(rows, parts[g]))
  }

  /** The rows of a query: WHERE, GROUP BY, HAVING, then outputs in the order of ORDER BY. */
  function SelectSays(x: Engine, c: Context, s: SelectSyntax, base: seq<Row>): (vs: seq<seq<Value>>) {
    var us := Holding(x, c, s.having, UnitsOf(x, c, s, RowsHolding(x, c, s.filter, base)));
    var p :=
      if s.order == [] then All(|us|)
      else Existing(x.sort(Shown(x, c, OrderOutputs(c, s), us), Ways(s.order)), |us|);
    Pick(Shown(x, c, Outputs(c, s.projection), us), p)
  }
}
