/** What bound expressions and bound queries mean, apart from any plan. */
module BoundMeaning {
  import opened Options
  import opened Sql
  import opened Bound

  /** Arrow types: both text types share one. */
  datatype Arrow = ArrowNull | ArrowBoolean | ArrowInt32 | ArrowInt64 | ArrowUint32 | ArrowFloat32 | ArrowFloat64 | Utf8

  function ArrowType(t: LogicalType): (a: Arrow) {
    match t
    case NullType => ArrowNull
    case Boolean => ArrowBoolean
    case Int32 => ArrowInt32
    case Int64 => ArrowInt64
    case Uint32 => ArrowUint32
    case Float32 => ArrowFloat32
    case Float64 => ArrowFloat64
    case Text => Utf8
    case Varchar(_) => Utf8
  }

  datatype Value = NullValue | Truth(truth: bool) | Datum(scalar: Scalar)

  function ScalarValue(s: Scalar): (v: Value) {
    match s
    case NullScalar => NullValue
    case BooleanScalar(b) => Truth(b)
    case _ => Datum(s)
  }

  function Integer(n: int): (v: Value) { Datum(Int64Scalar(n)) }

  type Row = map<Binding, Value>

  type Direction = (bool, bool)

  /** The operands of a window function on one row. */
  datatype WindowRow = WindowRow(args: seq<Value>, keep: bool, partition: seq<Value>, order: seq<Value>)

  /** The engine's result type of a call, from the function and its operand types. */
  type TypeOf = (WindowFunction, seq<Arrow>) -> Arrow

  /** The execution engine's own operations, of which nothing is assumed. */
  datatype Engine = Engine(
    negate: Value -> Value,
    compute: (BinaryOp, Value, Value) -> Value,
    convert: (Value, Arrow) -> Value,
    aggregate: (AggregateFunction, bool, seq<seq<Value>>) -> Value,
    window: (WindowFunction, bool, WindowFrame, seq<Direction>, seq<WindowRow>, nat) -> Value,
    sort: (seq<seq<Value>>, seq<Direction>) -> seq<nat>,
    typeOf: TypeOf)

  // ---------- picking rows by position ----------

  predicate InRange(p: seq<nat>, n: nat) { forall i | 0 <= i < |p| :: p[i] < n }

  function Pick<T>(xs: seq<T>, p: seq<nat>): (ys: seq<T>)
    requires InRange(p, |xs|)
    ensures |ys| == |p| && forall i | 0 <= i < |p| :: ys[i] == xs[p[i]]
  {
    seq(|p|, i requires 0 <= i < |p| => xs[p[i]])
  }

  /** The positions that are true. */
  function Trues(flags: seq<bool>): (p: seq<nat>)
    ensures InRange(p, |flags|)
  {
    if flags == [] then []
    else
      var n := |flags| - 1;
      Trues(flags[..n]) + (if flags[n] then [n] else [])
  }

  /** The engine's sort order, restricted to rows that exist. */
  function Existing(p: seq<nat>, n: nat): (q: seq<nat>)
    ensures InRange(q, n)
  {
    if p == [] then [] else (if p[0] < n then [p[0]] else []) + Existing(p[1..], n)
  }

  /** The positions that hold the same key as position i. */
  function Equals(keys: seq<seq<Value>>, i: nat): (p: seq<nat>)
    requires i < |keys|
    ensures InRange(p, |keys|)
  {
    Trues(seq(|keys|, j requires 0 <= j < |keys| => keys[j] == keys[i]))
  }

  /** Positions with equal keys together, in order of first appearance. */
  function Groups(keys: seq<seq<Value>>): (gs: seq<seq<nat>>)
    ensures forall i | 0 <= i < |gs| :: InRange(gs[i], |keys|)
  {
    var firsts := Trues(seq(|keys|, j requires 0 <= j < |keys| => keys[j] !in keys[..j]));
    seq(|firsts|, i requires 0 <= i < |firsts| => Equals(keys, firsts[i]))
  }

  function All(n: nat): (p: seq<nat>)
    ensures InRange(p, n)
  {
    seq(n, i requires 0 <= i < n => i)
  }

  /** Without grouping keys there is exactly one group, even of no rows. */
  function Partition(keys: seq<seq<Value>>, global: bool): (gs: seq<seq<nat>>)
    ensures forall i | 0 <= i < |gs| :: InRange(gs[i], |keys|)
  {
    if global then [All(|keys|)] else Groups(keys)
  }

  lemma {:induction false} TruesExact(flags: seq<bool>, i: nat)
    requires i < |flags|
    ensures i in Trues(flags) <==> flags[i]
  {
    var n := |flags| - 1;
    if i < n {
      TruesExact(flags[..n], i);
    } else {
      assert forall j | 0 <= j < |Trues(flags[..n])| :: Trues(flags[..n])[j] < n;
    }
  }

  /** The members of a group are exactly the rows that share its key. */
  lemma GroupsByKey(keys: seq<seq<Value>>, g: nat, i: nat)
    requires g < |Groups(keys)| && i < |keys|
    ensures Groups(keys)[g] != []
    ensures i in Groups(keys)[g] <==> keys[i] == keys[Groups(keys)[g][0]]
  {
    var firsts := Trues(seq(|keys|, j requires 0 <= j < |keys| => keys[j] !in keys[..j]));
    var f := firsts[g];
    var flags := seq(|keys|, j requires 0 <= j < |keys| => keys[j] == keys[f]);
    TruesExact(flags, f);
    TruesExact(flags, i);
    var first := Trues(flags)[0];
    assert first in Trues(flags);
    TruesExact(flags, first);
  }

  /** Every row is in some group. */
  lemma {:induction false} EveryRowGrouped(keys: seq<seq<Value>>, i: nat) returns (g: nat)
    requires i < |keys|
    ensures g < |Groups(keys)| && i in Groups(keys)[g]
  {
    var fresh' := seq(|keys|, j requires 0 <= j < |keys| => keys[j] !in keys[..j]);
    if keys[i] in keys[..i] {
      var j :| 0 <= j < i && keys[j] == keys[i];
      g := EveryRowGrouped(keys, j);
      GroupsByKey(keys, g, j);
      GroupsByKey(keys, g, i);
    } else {
      TruesExact(fresh', i);
      g :| 0 <= g < |Trues(fresh')| && Trues(fresh')[g] == i;
      TruesExact(seq(|keys|, j requires 0 <= j < |keys| => keys[j] == keys[i]), i);
    }
  }

  lemma {:induction false} TruesAscend(flags: seq<bool>, g: nat, h: nat)
    requires g < h < |Trues(flags)|
    ensures Trues(flags)[g] < Trues(flags)[h]
  {
    var n := |flags| - 1;
    var before := Trues(flags[..n]);
    if h < |before| {
      TruesAscend(flags[..n], g, h);
    } else {
      assert Trues(flags)[g] == before[g] < n;
    }
  }

  /** No two groups share a key. */
  lemma GroupsApart(keys: seq<seq<Value>>, g: nat, h: nat)
    requires g < h < |Groups(keys)|
    ensures Groups(keys)[g] != [] && Groups(keys)[h] != []
    ensures keys[Groups(keys)[g][0]] != keys[Groups(keys)[h][0]]
  {
    var fresh' := seq(|keys|, j requires 0 <= j < |keys| => keys[j] !in keys[..j]);
    var a, b := Trues(fresh')[g], Trues(fresh')[h];
    TruesAscend(fresh', g, h);
    TruesExact(fresh', b);
    assert keys[..b][a] == keys[a];
    TruesExact(seq(|keys|, j requires 0 <= j < |keys| => keys[j] == keys[a]), a);
    TruesExact(seq(|keys|, j requires 0 <= j < |keys| => keys[j] == keys[b]), b);
    GroupsByKey(keys, g, a);
    GroupsByKey(keys, h, b);
  }

  // ---------- expressions ----------

  /** What an expression is evaluated on: a row and, after grouping, the rows of its group. */
  datatype Unit = Unit(row: Row, members: seq<Row>)

  function Look(r: Row, b: Binding): (v: Value) { if b in r then r[b] else NullValue }

  function KleeneNot(v: Value): (r: Value) { if v.Truth? then Truth(!v.truth) else NullValue }

  function KleeneAnd(a: Value, b: Value): (r: Value) {
    if a == Truth(false) || b == Truth(false) then Truth(false)
    else if a == Truth(true) && b == Truth(true) then Truth(true)
    else NullValue
  }

  function KleeneOr(a: Value, b: Value): (r: Value) { KleeneNot(KleeneAnd(KleeneNot(a), KleeneNot(b))) }

  function BinaryValue(x: Engine, op: BinaryOp, a: Value, b: Value): (r: Value) {
    match op
    case And => KleeneAnd(a, b)
    case Or => KleeneOr(a, b)
    case _ => x.compute(op, a, b)
  }

  /** COUNT(expr): the values that are not NULL, or the different ones. */
  function CountOf(distinct: bool, vs: seq<Value>): (n: nat) {
    if vs == [] then 0
    else
      var n := |vs| - 1;
      CountOf(distinct, vs[..n]) + (if vs[n] == NullValue || (distinct && vs[n] in vs[..n]) then 0 else 1)
  }

  /** An aggregate over the argument values of the rows it keeps. */
  function AggregateValue(x: Engine, f: AggregateFunction, distinct: bool, rows: seq<seq<Value>>): (v: Value) {
    if f == Count then
      Integer(CountOf(distinct,
                      seq(|rows|, i requires 0 <= i < |rows| => if rows[i] == [] then NullValue else rows[i][0])))
    else x.aggregate(f, distinct, rows)
  }

  function OperandTypes(es: seq<Expr>): (ts: seq<Arrow>)
    ensures |ts| == |es| && forall i | 0 <= i < |es| :: ts[i] == ArrowType(es[i].dataType)
  {
    seq(|es|, i requires 0 <= i < |es| => ArrowType(es[i].dataType))
  }

  /** The type the engine gives to an aggregate or window; COUNT(*) counts a constant. */
  function CallType(t: TypeOf, e: Expr): (a: Arrow) {
    match e.kind
    case Aggregate(f, args, _, _) =>
      t(OverAggregate(f), if f == Count && args == [] then [ArrowInt64] else OperandTypes(args))
    case Window(f, args, _, _, _, _, _) =>
      t(f, if f == OverAggregate(Count) && args == [] then [ArrowInt64] else OperandTypes(args))
    case _ => ArrowType(e.dataType)
  }

  /** The engine's result, in the declared type. */
  function Conform(x: Engine, e: Expr, v: Value): (r: Value) {
    if CallType(x.typeOf, e) == ArrowType(e.dataType) then v else x.convert(v, ArrowType(e.dataType))
  }

  function EvalAll(x: Engine, es: seq<Expr>, u: Unit, win: Expr -> Value): (vs: seq<Value>)
    ensures |vs| == |es| && forall i | 0 <= i < |es| :: vs[i] == Eval(x, es[i], u, win)
    decreases es
  {
    seq(|es|, i requires 0 <= i < |es| => Eval(x, es[i], u, win))
  }

  function Passes(x: Engine, filter: Option<Expr>, u: Unit, win: Expr -> Value): (b: bool)
    decreases filter
  {
    filter.None? || Eval(x, filter.value, u, win) == Truth(true)
  }

  /** A bound expression; window results come from `win`. COUNT(*) counts the kept rows. */
  function Eval(x: Engine, e: Expr, u: Unit, win: Expr -> Value): (v: Value)
    decreases e
  {
    match e.kind
    case Literal(s) => ScalarValue(s)
    case ColumnRef(b) => Look(u.row, b)
    case Unary(Not, a) => KleeneNot(Eval(x, a, u, win))
    case Unary(Plus, a) => Eval(x, a, u, win)
    case Unary(Minus, a) => x.negate(Eval(x, a, u, win))
    case Binary(op, a, b) => BinaryValue(x, op, Eval(x, a, u, win), Eval(x, b, u, win))
    case Cast(a) => x.convert(Eval(x, a, u, win), ArrowType(e.dataType))
    case IsNull(a, negated) => Truth((Eval(x, a, u, win) == NullValue) != negated)
    case Aggregate(f, args, distinct, filter) =>
      var ms := u.members;
      var kept := Trues(seq(|ms|, i requires 0 <= i < |ms| => Passes(x, filter, Unit(ms[i], []), win)));
      var rows := Pick(seq(|ms|, i requires 0 <= i < |ms| => EvalAll(x, args, Unit(ms[i], []), win)), kept);
      Conform(x, e, if f == Count && args == [] then Integer(|rows|) else AggregateValue(x, f, distinct, rows))
    case Window(_, _, _, _, _, _, _) => win(e)
  }

  // ---------- what the binder lets through ----------

  type Schema = map<Binding, Arrow>

  /** Aggregates and windows only where the binder's flags allow them, predicates Boolean,
      columns known. */
  predicate WellBound(e: Expr, s: Schema, aggregates: bool, windows: bool) {
    match e.kind
    case Literal(_) => true
    case ColumnRef(b) => b in s && s[b] == ArrowType(e.dataType)
    case Unary(_, a) => WellBound(a, s, aggregates, windows)
    case Binary(_, a, b) => WellBound(a, s, aggregates, windows) && WellBound(b, s, aggregates, windows)
    case Cast(a) => WellBound(a, s, aggregates, windows)
    case IsNull(a, _) => WellBound(a, s, aggregates, windows)
    case Aggregate(f, args, distinct, filter) =>
      && aggregates && (args == [] ==> f == Count && !distinct)
      && (forall i | 0 <= i < |args| :: WellBound(args[i], s, false, false))
      && (filter.Some? ==> filter.value.dataType == Boolean && WellBound(filter.value, s, false, false))
    case Window(_, args, _, filter, partition, order, _) =>
      && windows
      && (forall i | 0 <= i < |args| :: WellBound(args[i], s, true, false))
      && (filter.Some? ==> filter.value.dataType == Boolean && WellBound(filter.value, s, true, false))
      && (forall i | 0 <= i < |partition| :: WellBound(partition[i], s, true, false))
      && (forall i | 0 <= i < |order| :: var o := order[i]; WellBound(o.expr, s, true, false))
  }

  /** Without windows, window results do not matter. */
  lemma {:induction false} WindowsIrrelevant(x: Engine, e: Expr, s: Schema, aggregates: bool, u: Unit,
                                             win: Expr -> Value, win': Expr -> Value)
    requires WellBound(e, s, aggregates, false)
    ensures Eval(x, e, u, win) == Eval(x, e, u, win')
    decreases e
  {
    match e.kind
    case Literal(_) =>
    case ColumnRef(_) =>
    case Unary(_, a) => WindowsIrrelevant(x, a, s, aggregates, u, win, win');
    case Binary(_, a, b) =>
      WindowsIrrelevant(x, a, s, aggregates, u, win, win');
      WindowsIrrelevant(x, b, s, aggregates, u, win, win');
    case Cast(a) => WindowsIrrelevant(x, a, s, aggregates, u, win, win');
    case IsNull(a, _) => WindowsIrrelevant(x, a, s, aggregates, u, win, win');
    case Aggregate(f, args, distinct, filter) =>
      var ms := u.members;
      forall i | 0 <= i < |ms|
        ensures EvalAll(x, args, Unit(ms[i], []), win) == EvalAll(x, args, Unit(ms[i], []), win')
        ensures Passes(x, filter, Unit(ms[i], []), win) == Passes(x, filter, Unit(ms[i], []), win')
      {
        forall k | 0 <= k < |args|
          ensures Eval(x, args[k], Unit(ms[i], []), win) == Eval(x, args[k], Unit(ms[i], []), win')
        {
          WindowsIrrelevant(x, args[k], s, false, Unit(ms[i], []), win, win');
        }
        if filter.Some? { WindowsIrrelevant(x, filter.value, s, false, Unit(ms[i], []), win, win'); }
      }
      assert seq(|ms|, i requires 0 <= i < |ms| => Passes(x, filter, Unit(ms[i], []), win))
          == seq(|ms|, i requires 0 <= i < |ms| => Passes(x, filter, Unit(ms[i], []), win'));
      assert seq(|ms|, i requires 0 <= i < |ms| => EvalAll(x, args, Unit(ms[i], []), win))
          == seq(|ms|, i requires 0 <= i < |ms| => EvalAll(x, args, Unit(ms[i], []), win'));
  }

  /** Without aggregates and windows, only the row matters. */
  lemma {:induction false} MembersIrrelevant(x: Engine, e: Expr, s: Schema, r: Row, ms: seq<Row>, ms': seq<Row>,
                                             win: Expr -> Value)
    requires WellBound(e, s, false, false)
    ensures Eval(x, e, Unit(r, ms), win) == Eval(x, e, Unit(r, ms'), win)
    decreases e
  {
    match e.kind
    case Literal(_) =>
    case ColumnRef(_) =>
    case Unary(_, a) => MembersIrrelevant(x, a, s, r, ms, ms', win);
    case Binary(_, a, b) =>
      MembersIrrelevant(x, a, s, r, ms, ms', win);
      MembersIrrelevant(x, b, s, r, ms, ms', win);
    case Cast(a) => MembersIrrelevant(x, a, s, r, ms, ms', win);
    case IsNull(a, _) => MembersIrrelevant(x, a, s, r, ms, ms', win);
  }
}
