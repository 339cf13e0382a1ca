/** Binding keeps the meaning of what was written. */
module BinderMeaning {
  import opened Options
  import opened Sql
  import opened Bound
  import opened BoundMeaning
  import opened PlanMeaning
  import opened Binder
  import opened SyntaxMeaning

  // ---------- coercions and operators ----------

  lemma CastMeans(x: Engine, e: Expr, t: LogicalType, u: Unit, win: Expr -> Value)
    ensures Eval(x, CastTo(e, t), u, win) == At(x, Eval(x, e, u, win), e.dataType, t)
    ensures CastTo(e, t).dataType == t && CastTo(e, t).nullable == e.nullable
  {
  }

  /** Assignable is whatever could be compared with the target, and the value is that value at
      the target's type. */
  lemma AssignmentMeans(x: Engine, e: Expr, t: LogicalType, u: Unit, win: Expr -> Value)
    ensures Assignment(e, t).Ok? <==> Comparable(e.dataType, t) && (t.NullType? ==> e.dataType.NullType?)
    ensures Assignment(e, t).Ok? ==> Eval(x, Assignment(e, t).value, u, win) == At(x, Eval(x, e, u, win), e.dataType, t)
    ensures Assignment(e, t).Err? ==> Assignment(e, t).error == IncompatibleTypes
  {
    CastMeans(x, e, t, u, win);
  }

  lemma NumberMeans(x: Engine, n: Numeral, negative: bool, u: Unit, win: Expr -> Value)
    requires NumberOf(n, negative).Ok?
    ensures var b := NumberOf(n, negative).value;
      b.dataType == NumberType(n, negative) && !b.nullable && Eval(x, b, u, win) == NumberValue(n, negative)
  {
  }

  /** The binder's common types are the least ones. */
  lemma NumericCommonIs(l: LogicalType, r: LogicalType, integral: bool)
    requires NumericOperand(l, integral) && NumericOperand(r, integral)
    ensures NumericCommon(l, r) == Some(Common(l, r, Int32))
  {
  }

  lemma ComparisonCommonIs(l: LogicalType, r: LogicalType)
    ensures ComparisonCommon(l, r) == if Comparable(l, r) then Some(Common(l, r, Text)) else None
  {
  }

  /** The bound expression has the type, the nullability and the value that was written. */
  ghost predicate Meets(x: Engine, b: Expr, c: Context, e: Syntax, us: seq<Unit>, j: nat, win: Expr -> Value)
    requires j < |us|
  {
    && b.dataType == TypeIn(c, e) && b.nullable == MayBeNull(c, e)
    && Eval(x, b, us[j], win) == Says(x, c, e, us, j)
  }

  lemma UnaryMeans(x: Engine, c: Context, op: UnaryOp, a: Syntax, b: Expr, us: seq<Unit>, j: nat, win: Expr -> Value)
    requires j < |us| && Meets(x, b, c, a, us, j, win) && BindUnary(op, b).Ok? && !(op.Minus? && a.NumberLit?)
    ensures Meets(x, BindUnary(op, b).value, c, UnarySyntax(op, a), us, j, win)
  {
    CastMeans(x, b, Boolean, us[j], win);
    CastMeans(x, b, SignType(op, b.dataType), us[j], win);
  }

  /** The type at which an operator sees its operands. */
  function OperandType(op: BinaryOp, l: LogicalType, r: LogicalType): (t: LogicalType) {
    if op.And? || op.Or? then Boolean else Common(l, r, if Arithmetic(op) then Int32 else Text)
  }

  lemma BinaryShape(op: BinaryOp, a: Expr, b: Expr)
    requires BindBinary(op, a, b).Ok?
    ensures var t := OperandType(op, a.dataType, b.dataType);
      BindBinary(op, a, b).value
      == Expr(if Arithmetic(op) then t else Boolean, a.nullable || b.nullable, Binary(op, CastTo(a, t), CastTo(b, t)))
  {
    hide Common, NumericCommon, ComparisonCommon;
    if Arithmetic(op) { NumericCommonIs(a.dataType, b.dataType, op.Modulo?); }
    ComparisonCommonIs(a.dataType, b.dataType);
  }

  lemma BinaryMeans(x: Engine, c: Context, op: BinaryOp, l: Syntax, r: Syntax, a: Expr, b: Expr,
                    us: seq<Unit>, j: nat, win: Expr -> Value)
    requires j < |us| && Meets(x, a, c, l, us, j, win) && Meets(x, b, c, r, us, j, win) && BindBinary(op, a, b).Ok?
    ensures Meets(x, BindBinary(op, a, b).value, c, BinarySyntax(l, op, r), us, j, win)
  {
    hide Common, BindBinary, BinaryValue, CastTo, At;
    var t := OperandType(op, a.dataType, b.dataType);
    BinaryShape(op, a, b);
    CastMeans(x, a, t, us[j], win);
    CastMeans(x, b, t, us[j], win);
  }

  // ---------- expressions ----------

  /** The flags' promise: windows are bound only where their values are known. */
  ghost predicate Knows(x: Engine, w: bool, us: seq<Unit>, j: nat, win: Expr -> Value) {
    w ==> win == WindowsAt(x, us, j)
  }

  lemma {:induction false} ListMeans(x: Engine, c: Context, es: seq<Syntax>, depth: nat, a: bool, w: bool,
                                     us: seq<Unit>, j: nat, win: Expr -> Value)
    requires j < |us| && BindList(c, es, depth, a, w).Ok? && Knows(x, w, us, j, win)
    ensures var bs := BindList(c, es, depth, a, w).value;
      |bs| == |es| && forall i | 0 <= i < |es| :: Meets(x, bs[i], c, es[i], us, j, win)
    decreases es
  {
    hide Meets, Bind, Knows;
    if es != [] {
      BindMeans(x, c, es[0], depth, a, w, us, j, win);
      ListMeans(x, c, es[1..], depth, a, w, us, j, win);
      var bs := BindList(c, es, depth, a, w).value;
      forall i | 0 <= i < |es| ensures Meets(x, bs[i], c, es[i], us, j, win) {
        if i > 0 { assert bs[i] == BindList(c, es[1..], depth, a, w).value[i - 1] && es[i] == es[1..][i - 1]; }
      }
    }
  }

  lemma {:induction false} OrdersMean(x: Engine, c: Context, os: seq<SyntaxOrder>, depth: nat,
                                      us: seq<Unit>, j: nat, win: Expr -> Value)
    requires j < |us| && BindOrders(c, os, depth).Ok?
    ensures var ks := BindOrders(c, os, depth).value;
      && |ks| == |os| && Directions(ks) == Ways(os)
      && forall i | 0 <= i < |os| :: Eval(x, ks[i].expr, us[j], win) == SaysKey(x, c, os[i], us, j)
    decreases os
  {
    hide Eval, Says, Bind;
    if os != [] {
      KeyMeans(x, c, os[0], depth, us, j, win);
      OrdersMean(x, c, os[1..], depth, us, j, win);
      var ks := BindOrders(c, os, depth).value;
      forall i | 0 <= i < |os|
        ensures Eval(x, ks[i].expr, us[j], win) == SaysKey(x, c, os[i], us, j) && Directions(ks)[i] == Ways(os)[i]
      {
        if i > 0 {
          var rest := BindOrders(c, os[1..], depth).value;
          assert ks[i] == rest[i - 1] && os[i] == os[1..][i - 1] && Directions(rest)[i - 1] == Ways(os[1..])[i - 1];
        }
      }
    }
  }

  lemma {:induction false} KeyMeans(x: Engine, c: Context, o: SyntaxOrder, depth: nat,
                                    us: seq<Unit>, j: nat, win: Expr -> Value)
    requires j < |us| && BindKey(c, o, depth).Ok?
    ensures var k := BindKey(c, o, depth).value;
      && Eval(x, k.expr, us[j], win) == SaysKey(x, c, o, us, j) &&
           (k.ascending, k.nullsFirst) == Way(o.ascending, o.nulls)
    decreases o
  {
    hide Eval, Says, Bind;
    BindMeans(x, c, o.expr, depth, true, false, us, j, win);
  }

  lemma {:induction false} FilterMeans(x: Engine, c: Context, f: Option<Syntax>, depth: nat, a: bool,
                                       us: seq<Unit>, j: nat, win: Expr -> Value)
    requires j < |us| && BindFilter(c, f, depth, a).Ok?
    ensures BindFilter(c, f, depth, a).value.Some? == f.Some?
    ensures Passes(x, BindFilter(c, f, depth, a).value, us[j], win) == Holds(x, c, f, us, j)
    decreases f
  {
    hide Eval, Says, Bind;
    if f.Some? {
      BindMeans(x, c, f.value, depth, a, false, us, j, win);
      CastMeans(x, Bind(c, f.value, depth, a, false).value, Boolean, us[j], win);
    }
  }

  /** The shape of a call that the checks let through. */
  predicate Shaped(f: WindowFunction, args: seq<Syntax>) {
    if f.OverAggregate? then |args| == 1 && (Star(args) ==> f.aggregate == Count) else args == []
  }

  lemma SignatureMeans(x: Engine, c: Context, f: WindowFunction, args: seq<Syntax>, bs: seq<Expr>,
                       us: seq<Unit>, j: nat, win: Expr -> Value)
    requires j < |us| && Shaped(f, args) && !Star(args) && |bs| == |args| && Signature(f, bs).Ok?
    requires forall i | 0 <= i < |args| :: Meets(x, bs[i], c, args[i], us, j, win)
    ensures EvalAll(x, Signature(f, bs).value.2, us[j], win) == SaysArguments(x, c, f, args, us, j)
  {
    hide Eval, Says;
    var coerced := Signature(f, bs).value.2;
    if args != [] {
      assert Meets(x, bs[0], c, args[0], us, j, win);
      CastMeans(x, bs[0], ArgumentType(f, TypeIn(c, args[0])), us[j], win);
      assert coerced == [CastTo(bs[0], ArgumentType(f, TypeIn(c, args[0])))];
    }
  }

  lemma SignatureTypes(x: Engine, c: Context, f: WindowFunction, args: seq<Syntax>, bs: seq<Expr>)
    requires Shaped(f, args) && !Star(args) && |bs| == |args| && Signature(f, bs).Ok?
    requires forall i | 0 <= i < |args| :: bs[i].dataType == TypeIn(c, args[i])
    ensures var (t, nullable, coerced) := Signature(f, bs).value;
      && t == ResultType(f, if |args| == 1 then TypeIn(c, args[0]) else NullType)
      && nullable == (f.OverAggregate? && f.aggregate != Count)
      && |coerced| == |args| && (coerced == [] ==> !f.OverAggregate?)
      && OperandTypes(coerced) == seq(|args|, i requires 0 <= i < |args| => ArrowType(ArgumentTypes(c, f, args)[i]))
  {
    if args != [] { assert bs[0].dataType == TypeIn(c, args[0]); }
  }

  lemma StarSignature(f: WindowFunction)
    ensures f == OverAggregate(Count) ==> Signature(f, []) == Ok((Int64, false, []))
  {
  }

  /** The arguments of a call, bound and coerced, on any unit. */
  lemma {:induction false} CallArguments(x: Engine, c: Context, e: Syntax, f: WindowFunction, depth: nat,
                                         us: seq<Unit>, j: nat, win: Expr -> Value)
    requires e.Call? && j < |us| && Shaped(f, e.args) && !Star(e.args) && BindCall(c, e, f, depth).Ok?
    ensures var bs := BindList(c, e.args, depth + 1, e.over.Some?, false).value;
      EvalAll(x, Signature(f, bs).value.2, us[j], win) == SaysArguments(x, c, f, e.args, us, j)
    decreases e, 0, 0
  {
    hide Eval, Says, Bind, BindList, BindFilter, BindOrders, Signature, SaysArguments, Meets;
    ListMeans(x, c, e.args, depth + 1, e.over.Some?, false, us, j, win);
    SignatureMeans(x, c, f, e.args, BindList(c, e.args, depth + 1, e.over.Some?, false).value, us, j, win);
  }

  lemma {:induction false} CallFilter(x: Engine, c: Context, e: Syntax, depth: nat, a: bool,
                                      us: seq<Unit>, j: nat, win: Expr -> Value)
    requires e.Call? && j < |us| && BindFilter(c, e.filter, depth, a).Ok?
    ensures Passes(x, BindFilter(c, e.filter, depth, a).value, us[j], win) == Holds(x, c, e.filter, us, j)
    decreases e, 0, 0
  {
    FilterMeans(x, c, e.filter, depth, a, us, j, win);
  }

  /** The types of a call's arguments and of its result. */
  lemma {:induction false} CallTypes(x: Engine, c: Context, e: Syntax, f: WindowFunction, depth: nat)
    requires e.Call? && FunctionOf(e.fn) == Some(f) && Shaped(f, e.args) && BindCall(c, e, f, depth).Ok?
    ensures var b := BindCall(c, e, f, depth).value; var types := if Star(e.args) then [Int64]
              else ArgumentTypes(c, f, e.args);
      && b.dataType == TypeIn(c, e) && b.nullable == MayBeNull(c, e)
      && CallType(x.typeOf, b) == x.typeOf(f, seq(|types|, i requires 0 <= i < |types| => ArrowType(types[i])))
      && (!Star(e.args) && f.OverAggregate? ==> if e.over.Some? then b.kind.operands != [] else b.kind.args != [])
    decreases e, 0, 0
  {
    hide Eval, Says, Bind, BindList, BindFilter, BindOrders, Signature, FunctionOf, FrameOf;
    var b := BindCall(c, e, f, depth).value;
    if Star(e.args) {
      StarSignature(f);
      assert seq(1, i requires 0 <= i < 1 => ArrowType([Int64][i])) == [ArrowInt64];
    } else {
      var bs := BindList(c, e.args, depth + 1, e.over.Some?, false).value;
      var us: seq<Unit> := [Unit(map[], [])];
      ListMeans(x, c, e.args, depth + 1, e.over.Some?, false, us, 0, NoWindows());
      assert forall i | 0 <= i < |e.args| :: Meets(x, bs[i], c, e.args[i], us, 0, NoWindows());
      SignatureTypes(x, c, f, e.args, bs);
    }
  }

  lemma {:induction false} AggregateMeans(x: Engine, c: Context, e: Syntax, f: WindowFunction, depth: nat,
                                          us: seq<Unit>, j: nat, win: Expr -> Value)
    requires e.Call? && FunctionOf(e.fn) == Some(f) && j < |us| && e.over.None? && Shaped(f, e.args)
    requires BindCall(c, e, f, depth).Ok?
    ensures Meets(x, BindCall(c, e, f, depth).value, c, e, us, j, win)
    decreases e, 0, 1
  {
    hide Bind, BindList, BindFilter, Signature, SaysArguments, Holds, FunctionOf, AggregateValue;
    var b, ms := BindCall(c, e, f, depth).value, us[j].members;
    var filter := BindFilter(c, e.filter, depth + 1, false).value;
    CallTypes(x, c, e, f, depth);
    forall i | 0 <= i < |ms|
      ensures Passes(x, filter, Unit(ms[i], []), win) == Holds(x, c, e.filter, Alone(ms[i]), 0)
      ensures !Star(e.args) ==>
                EvalAll(x, b.kind.args, Unit(ms[i], []), win) == SaysArguments(x, c, f, e.args, Alone(ms[i]), 0)
    {
      CallFilter(x, c, e, depth + 1, false, Alone(ms[i]), 0, win);
      if !Star(e.args) { CallArguments(x, c, e, f, depth, Alone(ms[i]), 0, win); }
    }
    var flags := seq(|ms|, i requires 0 <= i < |ms| => Passes(x, filter, Unit(ms[i], []), win));
    assert flags == seq(|ms|, i requires 0 <= i < |ms| => Holds(x, c, e.filter, Alone(ms[i]), 0));
    if Star(e.args) {
      StarSignature(f);
    } else {
      assert seq(|ms|, i requires 0 <= i < |ms| => EvalAll(x, b.kind.args, Unit(ms[i], []), win))
          == seq(|ms|, i requires 0 <= i < |ms| => SaysArguments(x, c, f, e.args, Alone(ms[i]), 0));
    }
  }

  lemma {:induction false} WindowMeans(x: Engine, c: Context, e: Syntax, f: WindowFunction, depth: nat,
                                       us: seq<Unit>, j: nat, win: Expr -> Value)
    requires e.Call? && FunctionOf(e.fn) == Some(f) && j < |us| && e.over.Some? && Shaped(f, e.args)
    requires BindCall(c, e, f, depth).Ok? && win == WindowsAt(x, us, j)
    ensures Meets(x, BindCall(c, e, f, depth).value, c, e, us, j, win)
    decreases e, 0, 2
  {
    hide Bind, BindList, BindFilter, BindOrders, Signature, SaysArguments;
    hide Holds, FunctionOf, Operands, FrameOf, Directions;
    var b := BindCall(c, e, f, depth).value;
    CallTypes(x, c, e, f, depth);
    forall k | 0 <= k < |us| ensures WindowOperands(x, b, us[k]) == Operands(x, c, e, f, us, k) {
      OperandsMean(x, c, e, f, depth, us, k);
    }
    assert AllOperands(x, b, us) == seq(|us|, k requires 0 <= k < |us| => Operands(x, c, e, f, us, k));
    OrdersMean(x, c, e.over.value.order, depth + 1, us, j, NoWindows());
    assert b.kind.frame == Seen(e.over.value) by { SeenFrame(e.over.value); }
  }

  lemma SeenFrame(s: Spec)
    requires FrameOf(s.frame, s.order != []).Ok?
    ensures FrameOf(s.frame, s.order != []).value == Seen(s)
  {
  }

  lemma {:induction false} OperandsMean(x: Engine, c: Context, e: Syntax, f: WindowFunction, depth: nat,
                                        us: seq<Unit>, k: nat)
    requires e.Call? && FunctionOf(e.fn) == Some(f) && k < |us| && e.over.Some? && Shaped(f, e.args)
    requires BindCall(c, e, f, depth).Ok?
    ensures WindowOperands(x, BindCall(c, e, f, depth).value, us[k]) == Operands(x, c, e, f, us, k)
    decreases e, 0, 1
  {
    hide Eval, Says, Bind, BindList, BindFilter, BindOrders;
    hide Signature, SaysArguments, Holds, FunctionOf, FrameOf, Passes;
    var b, spec := BindCall(c, e, f, depth).value, e.over.value;
    CallFilter(x, c, e, depth + 1, true, us, k, NoWindows());
    if Star(e.args) {
      StarSignature(f);
    } else {
      CallArguments(x, c, e, f, depth, us, k, NoWindows());
      CallTypes(x, c, e, f, depth);
    }
    ListMeans(x, c, spec.partition, depth + 1, true, false, us, k, NoWindows());
    assert EvalAll(x, b.kind.partition, us[k], NoWindows()) == SaysAll(x, c, spec.partition, us, k) by {
      forall i | 0 <= i < |spec.partition|
        ensures Eval(x, b.kind.partition[i], us[k], NoWindows()) == Says(x, c, spec.partition[i], us, k)
      {
        assert Meets(x, b.kind.partition[i], c, spec.partition[i], us, k, NoWindows());
      }
    }
    OrdersMean(x, c, spec.order, depth + 1, us, k, NoWindows());
    assert EvalAll(x, OrderExprs(b.kind.order), us[k], NoWindows()) == SaysKeys(x, c, spec.order, us, k);
  }

  /** Whenever an expression binds, the bound one means what was written. */
  lemma {:induction false} BindMeans(x: Engine, c: Context, e: Syntax, depth: nat, a: bool, w: bool,
                                     us: seq<Unit>, j: nat, win: Expr -> Value)
    requires j < |us| && Bind(c, e, depth, a, w).Ok? && Knows(x, w, us, j, win)
    ensures Meets(x, Bind(c, e, depth, a, w).value, c, e, us, j, win)
    decreases e, 1
  {
    hide BindUnary, BindBinary, NumberOf, BindCall, FunctionOf;
    match e
    case NumberLit(n) => NumberMeans(x, n, false, us[j], win);
    case UnarySyntax(op, o) =>
      if op.Minus? && o.NumberLit? {
        NumberMeans(x, o.numeral, true, us[j], win);
        assert !MayBeNull(c, o);
      } else {
        BindMeans(x, c, o, depth + 1, a, w, us, j, win);
        UnaryMeans(x, c, op, o, Bind(c, o, depth + 1, a, w).value, us, j, win);
      }
    case BinarySyntax(l, op, r) =>
      BindMeans(x, c, l, depth + 1, a, w, us, j, win);
      BindMeans(x, c, r, depth + 1, a, w, us, j, win);
      BinaryMeans(x, c, op, l, r, Bind(c, l, depth + 1, a, w).value, Bind(c, r, depth + 1, a, w).value, us, j, win);
    case IsNullSyntax(o, negated) => BindMeans(x, c, o, depth + 1, a, w, us, j, win);
    case Call(name, _, _, _, over) =>
      if over.Some? {
        WindowMeans(x, c, e, FunctionOf(name).value, depth, us, j, win);
      } else {
        AggregateMeans(x, c, e, FunctionOf(name).value, depth, us, j, win);
      }
    case _ =>
  }
}
