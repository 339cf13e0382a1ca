/** What queries and plans compute. */
module PlanMeaning {
  import opened Options
  import opened Bound
  import opened BoundMeaning
  import opened Planner

  // ---------- the meaning of a bound query ----------

  function NoWindows(): (win: Expr -> Value) { (e: Expr) => NullValue }

  function Flags(x: Engine, p: Option<Expr>, us: seq<Unit>): (fs: seq<bool>)
    ensures |fs| == |us| && forall i | 0 <= i < |us| :: fs[i] == Passes(x, p, us[i], NoWindows())
  {
    seq(|us|, i requires 0 <= i < |us| => Passes(x, p, us[i], NoWindows()))
  }

  function Singles(rows: seq<Row>): (us: seq<Unit>)
    ensures |us| == |rows| && forall i | 0 <= i < |us| :: us[i] == Unit(rows[i], [])
  {
    seq(|rows|, i requires 0 <= i < |rows| => Unit(rows[i], []))
  }

  /** The rows that pass WHERE. */
  function SourceRows(x: Engine, q: Query, base: seq<Row>): (rows: seq<Row>) {
    Pick(base, Trues(Flags(x, q.filter, Singles(base))))
  }

  function Keys(x: Engine, gs: seq<Expr>, rows: seq<Row>): (ks: seq<seq<Value>>)
    ensures |ks| == |rows| && forall i | 0 <= i < |rows| :: ks[i] == EvalAll(x, gs, Unit(rows[i], []), NoWindows())
  {
    seq(|rows|, i requires 0 <= i < |rows| => EvalAll(x, gs, Unit(rows[i], []), NoWindows()))
  }

  /** A group, represented by its first row. */
  function GroupUnit(rows: seq<Row>, part: seq<nat>): (u: Unit)
    requires InRange(part, |rows|)
  {
    Unit(if part == [] then map[] else rows[part[0]], Pick(rows, part))
  }

  /** The groups, or the rows when the query does not group. */
  function Units(x: Engine, q: Query, rows: seq<Row>): (us: seq<Unit>) {
    if !q.isAggregate then Singles(rows)
    else
      var parts := Partition(Keys(x, q.groupBy, rows), q.groupBy == []);
      seq(|parts|, g requires 0 <= g < |parts| => GroupUnit(rows, parts[g]))
  }

  function Having(x: Engine, q: Query, us: seq<Unit>): (r: seq<Unit>) { Pick(us, Trues(Flags(x, q.having, us))) }

  function Directions(os: seq<OrderKey>): (ds: seq<Direction>)
    ensures |ds| == |os| && forall i | 0 <= i < |os| :: ds[i] == (os[i].ascending, os[i].nullsFirst)
  {
    seq(|os|, i requires 0 <= i < |os| => (os[i].ascending, os[i].nullsFirst))
  }

  /** A window's operands on one unit; COUNT(*) counts a constant. */
  function WindowOperands(x: Engine, e: Expr, u: Unit): (w: WindowRow)
    requires e.kind.Window?
  {
    WindowRow(
      if e.kind.over == OverAggregate(Count) && e.kind.operands == [] then [Integer(1)]
      else EvalAll(x, e.kind.operands, u, NoWindows()),
      Passes(x, e.kind.where, u, NoWindows()),
      EvalAll(x, e.kind.partition, u, NoWindows()),
      EvalAll(x, OrderExprs(e.kind.order), u, NoWindows()))
  }

  function AllOperands(x: Engine, e: Expr, us: seq<Unit>): (ws: seq<WindowRow>)
    requires e.kind.Window?
    ensures |ws| == |us| && forall k | 0 <= k < |us| :: ws[k] == WindowOperands(x, e, us[k])
  {
    seq(|us|, k requires 0 <= k < |us| => WindowOperands(x, e, us[k]))
  }

  /** The engine's window function over all units, at unit j. */
  function RawWindow(x: Engine, e: Expr, us: seq<Unit>, j: nat): (v: Value)
    requires e.kind.Window?
  {
    x.window(e.kind.over, e.kind.unique, e.kind.frame, Directions(e.kind.order), AllOperands(x, e, us), j)
  }

  function WindowsAt(x: Engine, us: seq<Unit>, j: nat): (win: Expr -> Value) {
    (e: Expr) => if e.kind.Window? then Conform(x, e, RawWindow(x, e, us, j)) else NullValue
  }

  function Evaluated(x: Engine, es: seq<Expr>, us: seq<Unit>): (vs: seq<seq<Value>>)
    ensures |vs| == |us| && forall j | 0 <= j < |us| :: vs[j] == EvalAll(x, es, us[j], WindowsAt(x, us, j))
  {
    seq(|us|, j requires 0 <= j < |us| => EvalAll(x, es, us[j], WindowsAt(x, us, j)))
  }

  function Order(x: Engine, q: Query, us: seq<Unit>): (p: seq<nat>)
    ensures InRange(p, |us|)
  {
    if q.order == [] then All(|us|)
    else Existing(x.sort(Evaluated(x, OrderExprs(q.order), us), Directions(q.order)), |us|)
  }

  /** The rows a query returns. */
  function Meaning(x: Engine, q: Query, base: seq<Row>): (vs: seq<seq<Value>>) {
    var us := Having(x, q, Units(x, q, SourceRows(x, q, base)));
    Pick(Evaluated(x, q.projection, us), Order(x, q, us))
  }

  // ---------- the meaning of a plan ----------

  datatype OutRow = OutRow(row: Row, named: map<Name, Value>)

  function EvalDf(x: Engine, d: Df, o: OutRow): (v: Value) {
    match d
    case DfLiteral(s, _) => ScalarValue(s)
    case DfColumn(b) => Look(o.row, b)
    case Named(n) => if n in o.named then o.named[n] else NullValue
    case DfNot(a) => KleeneNot(EvalDf(x, a, o))
    case Negative(a) => x.negate(EvalDf(x, a, o))
    case DfBinary(op, a, b) => BinaryValue(x, op, EvalDf(x, a, o), EvalDf(x, b, o))
    case DfCast(a, to) => x.convert(EvalDf(x, a, o), to)
    case DfIsNull(a) => Truth(EvalDf(x, a, o) == NullValue)
    case DfIsNotNull(a) => Truth(EvalDf(x, a, o) != NullValue)
  }

  function EvalDfs(x: Engine, ds: seq<Df>, o: OutRow): (vs: seq<Value>)
    ensures |vs| == |ds| && forall i | 0 <= i < |ds| :: vs[i] == EvalDf(x, ds[i], o)
  {
    seq(|ds|, i requires 0 <= i < |ds| => EvalDf(x, ds[i], o))
  }

  function DfPasses(x: Engine, p: Option<Df>, o: OutRow): (b: bool) { p.None? || EvalDf(x, p.value, o) == Truth(true) }

  function DfFlags(x: Engine, p: Option<Df>, os: seq<OutRow>): (fs: seq<bool>)
    ensures |fs| == |os| && forall i | 0 <= i < |os| :: fs[i] == DfPasses(x, p, os[i])
  {
    seq(|os|, i requires 0 <= i < |os| => DfPasses(x, p, os[i]))
  }

  function DfTable(x: Engine, ds: seq<Df>, os: seq<OutRow>): (vs: seq<seq<Value>>)
    ensures |vs| == |os| && forall i | 0 <= i < |os| :: vs[i] == EvalDfs(x, ds, os[i])
  {
    seq(|os|, i requires 0 <= i < |os| => EvalDfs(x, ds, os[i]))
  }

  function CallValue(x: Engine, c: AggregateCall, os: seq<OutRow>): (v: Value) {
    AggregateValue(x, c.fn, c.distinct, Pick(DfTable(x, c.args, os), Trues(DfFlags(x, c.filter, os))))
  }

  /** The output row of one group. */
  function GroupRow(x: Engine, keys: seq<Value>, aggs: seq<AggregateCall>, dummy: bool,
                    members: seq<OutRow>): (o: OutRow) {
    OutRow(map[],
           (map n: nat | n < |keys| :: GroupName(n) := keys[n])
           + (map n: nat | n < |aggs| :: AggName(n) := CallValue(x, aggs[n], members))
           + (if dummy then map[DummyCount := Integer(|members|)] else map[]))
  }

  function SortExprs(ks: seq<SortKey>): (ds: seq<Df>)
    ensures |ds| == |ks| && forall i | 0 <= i < |ks| :: ds[i] == ks[i].e
  {
    seq(|ks|, i requires 0 <= i < |ks| => ks[i].e)
  }

  function SortDirections(ks: seq<SortKey>): (ds: seq<Direction>)
    ensures |ds| == |ks| && forall i | 0 <= i < |ks| :: ds[i] == (ks[i].ascending, ks[i].nullsFirst)
  {
    seq(|ks|, i requires 0 <= i < |ks| => (ks[i].ascending, ks[i].nullsFirst))
  }

  function CallOperands(x: Engine, c: WindowCall, o: OutRow): (w: WindowRow) {
    WindowRow(EvalDfs(x, c.args, o), DfPasses(x, c.filter, o), EvalDfs(x, c.partition, o),
        EvalDfs(x, SortExprs(c.order), o))
  }

  function WindowResult(x: Engine, c: WindowCall, os: seq<OutRow>, j: nat): (v: Value) {
    x.window(c.over, c.unique, c.frame, SortDirections(c.order),
             seq(|os|, k requires 0 <= k < |os| => CallOperands(x, c, os[k])), j)
  }

  function PartRows(x: Engine, groups: seq<Df>, aggs: seq<AggregateCall>, dummy: bool,
                    os: seq<OutRow>): (rs: seq<OutRow>) {
    var keys := DfTable(x, groups, os);
    var parts := Partition(keys, groups == []);
    seq(|parts|, g requires 0 <= g < |parts| =>
      GroupRow(x, if parts[g] == [] then [] else keys[parts[g][0]], aggs, dummy, Pick(os, parts[g])))
  }

  /** The rows a plan produces. */
  function Run(x: Engine, p: LogicalPlan, base: seq<Row>): (os: seq<OutRow>) {
    match p
    case Scan => seq(|base|, i requires 0 <= i < |base| => OutRow(base[i], map[]))
    case Filter(d, i) => var os := Run(x, i, base); Pick(os, Trues(DfFlags(x, Some(d), os)))
    case AggregateNode(groups, aggs, dummy, i) => PartRows(x, groups, aggs, dummy, Run(x, i, base))
    case WindowNode(c, name, i) =>
      var os := Run(x, i, base);
      seq(|os|, j requires 0 <= j < |os| => OutRow(os[j].row, os[j].named[name := WindowResult(x, c, os, j)]))
    case SortNode(keys, i) =>
      var os := Run(x, i, base);
      Pick(os, Existing(x.sort(DfTable(x, SortExprs(keys), os), SortDirections(keys)), |os|))
    case Projection(ds, i) =>
      var os := Run(x, i, base);
      seq(|os|, j requires 0 <= j < |os| => OutRow(map[], Labelled(EvalDfs(x, ds, os[j]))))
  }

  /** The output columns `__output0`, `__output1` and so on. */
  function Labelled(vs: seq<Value>): (m: map<Name, Value>) {
    map n: nat | n < |vs| :: OutputName(n) := vs[n]
  }
}
