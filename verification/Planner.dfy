/** Lowering of bound queries: crates/planner/src/planning.rs. */
module Planner {
  import opened Options
  import opened Sql
  import opened Bound
  import opened BoundMeaning

  datatype PlanError = UnknownColumn(binding: Binding) | ExpressionTooDeep | InvalidBound

  /** The generated column names `__group0`, `__agg0`, `__window0` and so on. */
  datatype Name = GroupName(n: nat) | AggName(n: nat) | WindowName(n: nat) | OutputName(n: nat) | DummyCount

  datatype Df =
    | DfLiteral(value: Scalar, ty: Arrow)
    | DfColumn(binding: Binding)
    | Named(name: Name)
    | DfNot(e: Df)
    | Negative(e: Df)
    | DfBinary(op: BinaryOp, left: Df, right: Df)
    | DfCast(e: Df, to: Arrow)
    | DfIsNull(e: Df)
    | DfIsNotNull(e: Df)

  datatype SortKey = SortKey(e: Df, ascending: bool, nullsFirst: bool)

  datatype AggregateCall = AggregateCall(fn: AggregateFunction, args: seq<Df>, distinct: bool, filter: Option<Df>)

  datatype WindowCall = WindowCall(over: WindowFunction, args: seq<Df>, unique: bool, filter: Option<Df>,
                                   partition: seq<Df>, order: seq<SortKey>, frame: WindowFrame)

  datatype LogicalPlan =
    | Scan
    | Filter(predicate': Df, input: LogicalPlan)
    | AggregateNode(groups: seq<Df>, aggs: seq<AggregateCall>, dummy: bool, input: LogicalPlan)
    | WindowNode(call: WindowCall, name: Name, input: LogicalPlan)
    | SortNode(keys: seq<SortKey>, input: LogicalPlan)
    | Projection(exprs: seq<Df>, input: LogicalPlan)

  datatype Query = Query(
    projection: seq<Expr>,
    filter: Option<Expr>,
    groupBy: seq<Expr>,
    having: Option<Expr>,
    order: seq<OrderKey>,
    isAggregate: bool)

  const MAX_DEPTH: nat := 256

  // ---------- lists with errors ----------

  type Attempt<T> = Result<T, PlanError>

  /** `map(f).collect()`: the results, or the first error. */
  function MapAll<T, U>(f: T -> Attempt<U>, xs: seq<T>): (r: Attempt<seq<U>>) {
    if xs == [] then Ok([])
    else
      var n := |xs| - 1;
      match MapAll(f, xs[..n])
      case Err(e) => Err(e)
      case Ok(ys) =>
        match f(xs[n])
        case Err(e) => Err(e)
        case Ok(y) => Ok(ys + [y])
  }

  lemma {:induction false} MapExact<T, U>(f: T -> Attempt<U>, xs: seq<T>)
    ensures MapAll(f, xs).Ok? <==> forall i | 0 <= i < |xs| :: f(xs[i]).Ok?
    ensures MapAll(f, xs).Ok? ==>
              |MapAll(f, xs).value| == |xs| && forall i | 0 <= i < |xs| :: f(xs[i]) == Ok(MapAll(f, xs).value[i])
    ensures MapAll(f, xs).Err? ==> exists i | 0 <= i < |xs| :: f(xs[i]).Err? && f(xs[i]).error == MapAll(f, xs).error
  {
    if xs != [] {
      var n := |xs| - 1;
      MapExact(f, xs[..n]);
      assert forall i | 0 <= i < n :: xs[..n][i] == xs[i];
      if MapAll(f, xs[..n]).Err? {
        var i :| 0 <= i < n && f(xs[..n][i]).Err? && f(xs[..n][i]).error == MapAll(f, xs[..n]).error;
        assert f(xs[i]).Err?;
      }
    }
  }

  lemma {:induction false} MapStops<T, U>(f: T -> Attempt<U>, xs: seq<T>, i: nat)
    requires i < |xs| && MapAll(f, xs[..i]).Ok? && f(xs[i]).Err?
    ensures MapAll(f, xs) == Err(f(xs[i]).error)
  {
    var n := |xs| - 1;
    if i < n {
      assert xs[..n][..i] == xs[..i];
      MapStops(f, xs[..n], i);
    }
  }

  method MapLoop<T, U>(f: T -> Attempt<U>, xs: seq<T>) returns (r: Attempt<seq<U>>)
    ensures r == MapAll(f, xs)
  {
    var ys: seq<U> := [];
    for i := 0 to |xs|
      invariant MapAll(f, xs[..i]) == Ok(ys)
    {
      var y := f(xs[i]);
      if y.Err? {
        MapStops(f, xs, i);
        return Err(y.error);
      }
      assert xs[..i + 1][..i] == xs[..i];
      ys := ys + [y.value];
    }
    assert xs[..|xs|] == xs;
    return Ok(ys);
  }

  // ---------- lowering ----------

  datatype Lower = Lower(schema: Schema, grouped: bool, mapped: seq<(Expr, Df)>)

  function Raw(s: Schema): (l: Lower) { Lower(s, false, []) }

  /** The first mapped expression that is equal. */
  function Find(mapped: seq<(Expr, Df)>, e: Expr): (d: Option<Df>)
    ensures d.Some? ==> exists i | 0 <= i < |mapped| :: Same(mapped[i].0, e) && d.value == mapped[i].1
    ensures d.None? ==> forall i | 0 <= i < |mapped| :: !Same(mapped[i].0, e)
  {
    if mapped == [] then None
    else if Same(mapped[0].0, e) then Some(mapped[0].1)
    else Find(mapped[1..], e)
  }

  function Then(r: Attempt<Df>, f: Df -> Df): (q: Attempt<Df>) {
    match r
    case Err(e) => Err(e)
    case Ok(d) => Ok(f(d))
  }

  /** `Lower::expr`. */
  function LowerExpr(l: Lower, e: Expr, n: nat): (r: Attempt<Df>)
    decreases e
  {
    if n > MAX_DEPTH then Err(ExpressionTooDeep)
    else if Find(l.mapped, e).Some? then Ok(Find(l.mapped, e).value)
    else match e.kind
      case Literal(v) => Ok(DfLiteral(v, ArrowType(e.dataType)))
      case ColumnRef(b) =>
        if l.grouped || b !in l.schema then Err(UnknownColumn(b))
        else if l.schema[b] != ArrowType(e.dataType) then Err(InvalidBound)
        else Ok(DfColumn(b))
      case Unary(Not, a) => Then(LowerExpr(l, a, n + 1), d => DfNot(d))
      case Unary(Plus, a) => LowerExpr(l, a, n + 1)
      case Unary(Minus, a) => Then(LowerExpr(l, a, n + 1), d => Negative(d))
      case Binary(op, a, b) =>
        (match LowerExpr(l, a, n + 1)
         case Err(error) => Err(error)
         case Ok(left) => Then(LowerExpr(l, b, n + 1), right => DfBinary(op, left, right)))
      case Cast(a) => Then(LowerExpr(l, a, n + 1), d => DfCast(d, ArrowType(e.dataType)))
      case IsNull(a, negated) => Then(LowerExpr(l, a, n + 1), d => if negated then DfIsNotNull(d) else DfIsNull(d))
      case Aggregate(_, _, _, _) => Err(InvalidBound)
      case Window(_, _, _, _, _, _, _) => Err(InvalidBound)
  }

  function Lowering(l: Lower): (f: Expr -> Attempt<Df>) { (e: Expr) => LowerExpr(l, e, 1) }

  /** `Lower::expressions`. */
  function LowerAll(l: Lower, es: seq<Expr>): (r: Attempt<seq<Df>>) { MapAll(Lowering(l), es) }

  /** `Lower::predicate`. */
  function LowerPredicate(l: Lower, o: Option<Expr>): (r: Attempt<Option<Df>>) {
    match o
    case None => Ok(None)
    case Some(e) =>
      if e.dataType != Boolean then Err(InvalidBound)
      else match LowerExpr(l, e, 1)
        case Err(error) => Err(error)
        case Ok(d) => Ok(Some(d))
  }

  function KeyOf(l: Lower, o: OrderKey): (r: Attempt<SortKey>) {
    match LowerExpr(l, o.expr, 1)
    case Err(e) => Err(e)
    case Ok(d) => Ok(SortKey(d, o.ascending, o.nullsFirst))
  }

  function LowerKey(l: Lower): (f: OrderKey -> Attempt<SortKey>) { (o: OrderKey) => KeyOf(l, o) }

  /** `Lower::order`. */
  function LowerOrder(l: Lower, os: seq<OrderKey>): (r: Attempt<seq<SortKey>>) { MapAll(LowerKey(l), os) }

  /** `arguments`: COUNT(*) counts a constant. */
  function Arguments(l: Lower, f: AggregateFunction, args: seq<Expr>): (r: Attempt<seq<Df>>) {
    if f == Count && args == [] then Ok([DfLiteral(Int64Scalar(1), ArrowInt64)]) else LowerAll(l, args)
  }

  function LowerCall(l: Lower): (f: Expr -> Attempt<AggregateCall>) { (e: Expr) => CallOf(l, e) }

  function CallOf(l: Lower, e: Expr): (r: Attempt<AggregateCall>) {
    if !e.kind.Aggregate? then Err(InvalidBound)
    else match Arguments(l, e.kind.fn, e.kind.args)
      case Err(error) => Err(error)
      case Ok(args) =>
        match LowerPredicate(l, e.kind.filter)
        case Err(error) => Err(error)
        case Ok(filter) => Ok(AggregateCall(e.kind.fn, args, e.kind.distinct, filter))
  }

  function LowerWindow(l: Lower): (f: Expr -> Attempt<WindowCall>) { (e: Expr) => WindowOf(l, e) }

  function WindowOf(l: Lower, e: Expr): (r: Attempt<WindowCall>) {
    if !e.kind.Window? then Err(InvalidBound)
    else match (if e.kind.over.OverAggregate? then Arguments(l, e.kind.over.aggregate, e.kind.operands)
        else LowerAll(l, e.kind.operands))
      case Err(error) => Err(error)
      case Ok(args) =>
        match LowerAll(l, e.kind.partition)
        case Err(error) => Err(error)
        case Ok(partition) =>
          match LowerOrder(l, e.kind.order)
          case Err(error) => Err(error)
          case Ok(order) =>
            match LowerPredicate(l, e.kind.where)
            case Err(error) => Err(error)
            case Ok(filter) => Ok(WindowCall(e.kind.over, args, e.kind.unique, filter, partition, order, e.kind.frame))
  }

  // ---------- collecting aggregates and windows ----------

  predicate Wanted(e: Expr, windows: bool) { if windows then e.kind.Window? else e.kind.Aggregate? }

  /** The outermost aggregates, or windows, from left to right. */
  function Outermost(e: Expr, windows: bool): (es: seq<Expr>)
    decreases e, 1
  {
    if Wanted(e, windows) then [e] else OutermostAll(e, Children(e), windows)
  }

  function OutermostAll(ghost whole: Expr, cs: seq<Expr>, windows: bool): (es: seq<Expr>)
    requires forall i | 0 <= i < |cs| :: cs[i] < whole
    decreases whole, 0, |cs|
  {
    if cs == [] then [] else OutermostAll(whole, cs[..|cs| - 1], windows) + Outermost(cs[|cs| - 1], windows)
  }

  /** `found` with each expression that is not yet there added at the end. */
  function AddAll(found: seq<Expr>, es: seq<Expr>): (r: seq<Expr>)
    ensures found <= r
  {
    if es == [] then found
    else
      var before := AddAll(found, es[..|es| - 1]);
      var e := es[|es| - 1];
      if Contains(before, e) then before else before + [e]
  }

  lemma {:induction false} AddAllConcat(found: seq<Expr>, es: seq<Expr>, fs: seq<Expr>)
    ensures AddAll(found, es + fs) == AddAll(AddAll(found, es), fs)
  {
    if fs == [] {
      assert es + fs == es;
    } else {
      var n := |fs| - 1;
      AddAllConcat(found, es, fs[..n]);
      assert (es + fs)[..|es + fs| - 1] == es + fs[..n];
    }
  }

  /** Everything asked for is found, and nothing else. */
  lemma {:induction false} AddAllExact(found: seq<Expr>, es: seq<Expr>)
    ensures forall i | 0 <= i < |es| :: Contains(AddAll(found, es), es[i])
    ensures forall i | |found| <= i < |AddAll(found, es)| :: AddAll(found, es)[i] in es
  {
    if es != [] {
      var n := |es| - 1;
      AddAllExact(found, es[..n]);
      var before, after := AddAll(found, es[..n]), AddAll(found, es);
      forall i | 0 <= i < |es| ensures Contains(after, es[i]) {
        if i < n {
          assert Contains(before, es[..n][i]);
          var k :| 0 <= k < |before| && Same(before[k], es[i]);
          assert Same(after[k], es[i]);
        } else if !Contains(before, es[n]) {
          assert Same(after[|before|], es[n]);
        }
      }
    }
  }

  /** `collect`. */
  method Collect(e: Expr, windows: bool, found: seq<Expr>, n: nat) returns (r: Attempt<seq<Expr>>)
    ensures r.Err? ==> r.error == ExpressionTooDeep
    ensures n <= MAX_DEPTH && Fits(e, MAX_DEPTH + 1 - n) ==> r.Ok?
    ensures r.Ok? ==> r.value == AddAll(found, Outermost(e, windows))
    decreases e
  {
    hide Fits, Norm;
    if n > MAX_DEPTH { return Err(ExpressionTooDeep); }
    if Wanted(e, windows) {
      AddOne(found, e);
      if !Contains(found, e) { return Ok(found + [e]); }
      return Ok(found);
    }
    var cs := Children(e);
    var all := found;
    for i := 0 to |cs|
      invariant all == AddAll(found, OutermostAll(e, cs[..i], windows))
    {
      FitsChild(e, MAX_DEPTH + 1 - n, i);
      var next := Collect(cs[i], windows, all, n + 1);
      if next.Err? { return Err(next.error); }
      assert cs[..i + 1][..i] == cs[..i];
      AddAllConcat(found, OutermostAll(e, cs[..i], windows), Outermost(cs[i], windows));
      all := next.value;
    }
    assert cs[..|cs|] == cs;
    return Ok(all);
  }

  lemma AddOne(found: seq<Expr>, e: Expr)
    ensures AddAll(found, [e]) == if Contains(found, e) then found else found + [e]
  {
    assert [e][..0] == [];
  }

  lemma FitsChild(e: Expr, k: nat, i: nat)
    requires i < |Children(e)|
    ensures Fits(e, k) ==> k > 1 && Fits(Children(e)[i], k - 1)
  {
    if Fits(e, k) { assert Fits(Children(e)[i], k - 1); }
  }

  // ---------- the depth check ----------

  type Pending = (Expr, nat)

  function Work(stack: seq<Pending>): (n: nat) {
    if stack == [] then 0 else Work(stack[..|stack| - 1]) + Size(stack[|stack| - 1].0)
  }

  predicate StackFits(stack: seq<Pending>) {
    forall i | 0 <= i < |stack| :: EntryFits(stack[i])
  }

  predicate EntryFits(p: Pending) { p.1 <= MAX_DEPTH && Fits(p.0, MAX_DEPTH + 1 - p.1) }

  function Entries(es: seq<Expr>, n: nat): (ps: seq<Pending>)
    ensures |ps| == |es| && forall i | 0 <= i < |es| :: ps[i] == (es[i], n)
  {
    seq(|es|, i requires 0 <= i < |es| => (es[i], n))
  }

  lemma {:induction false} WorkConcat(a: seq<Pending>, b: seq<Pending>)
    ensures Work(a + b) == Work(a) + Work(b)
  {
    if b == [] {
      assert a + b == a;
    } else {
      var n := |b| - 1;
      WorkConcat(a, b[..n]);
      assert (a + b)[..|a + b| - 1] == a + b[..n];
    }
  }

  lemma {:induction false} WorkOfChildren(whole: Expr, es: seq<Expr>, n: nat)
    requires forall i | 0 <= i < |es| :: es[i] < whole
    ensures Work(Entries(es, n)) == SizeAll(whole, es)
  {
    if es != [] {
      WorkOfChildren(whole, es[1..], n);
      assert Entries(es, n) == [(es[0], n)] + Entries(es[1..], n);
      WorkConcat([(es[0], n)], Entries(es[1..], n));
      assert [(es[0], n)][..0] == [];
    }
  }

  /** An entry within the limit fits exactly when its children do, one level down. */
  lemma PopEntry(rest: seq<Pending>, e: Expr, n: nat)
    requires n <= MAX_DEPTH
    ensures StackFits(rest + [(e, n)]) <==> StackFits(rest + Entries(Children(e), n + 1))
  {
    hide Children;
    var cs := Entries(Children(e), n + 1);
    var before, after := rest + [(e, n)], rest + cs;
    if StackFits(before) {
      assert EntryFits(before[|rest|]);
      forall i | 0 <= i < |after| ensures EntryFits(after[i]) {
        if i < |rest| { assert EntryFits(before[i]); } else { FitsChild(e, MAX_DEPTH + 1 - n, i - |rest|); }
      }
    }
    if StackFits(after) {
      forall i | 0 <= i < |Children(e)|
        ensures n + 1 <= MAX_DEPTH && Fits(Children(e)[i], MAX_DEPTH - n)
      {
        assert EntryFits(after[|rest| + i]);
      }
      forall i | 0 <= i < |before| ensures EntryFits(before[i]) {
        if i < |rest| { assert EntryFits(after[i]); }
      }
    }
  }

  /** `check_depth`: an explicit stack instead of recursion. */
  method CheckDepth(e: Expr) returns (ok: bool)
    ensures ok <==> Fits(e, MAX_DEPTH)
  {
    hide Fits, Size, Children, EntryFits;
    var stack := [(e, 1)];
    assert StackFits(stack) <==> Fits(e, MAX_DEPTH) by { FirstEntry(e); }
    while stack != []
      invariant StackFits(stack) <==> Fits(e, MAX_DEPTH)
      decreases Work(stack)
    {
      var (top, n) := stack[|stack| - 1];
      var rest := stack[..|stack| - 1];
      assert stack == rest + [(top, n)];
      if n > MAX_DEPTH {
        TooDeep(stack);
        return false;
      }
      PopEntry(rest, top, n);
      WorkConcat(rest, Entries(Children(top), n + 1));
      WorkOfChildren(top, Children(top), n + 1);
      TopWork(top);
      stack := rest + Entries(Children(top), n + 1);
    }
    return true;
  }

  lemma FirstEntry(e: Expr)
    ensures StackFits([(e, 1)]) <==> Fits(e, MAX_DEPTH)
  {
    assert EntryFits((e, 1)) <==> Fits(e, MAX_DEPTH);
    if Fits(e, MAX_DEPTH) { assert forall i | 0 <= i < 1 :: EntryFits([(e, 1)][i]); }
    if StackFits([(e, 1)]) { assert EntryFits([(e, 1)][0]); }
  }

  lemma TooDeep(stack: seq<Pending>)
    requires stack != [] && stack[|stack| - 1].1 > MAX_DEPTH
    ensures !StackFits(stack)
  {
    assert !EntryFits(stack[|stack| - 1]);
  }

  lemma TopWork(e: Expr)
    ensures Size(e) == 1 + SizeAll(e, Children(e))
  {
  }
}
