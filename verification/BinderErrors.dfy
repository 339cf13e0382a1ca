/** What a binding error tells: the fault it names is there. */
module BinderErrors {
  import opened Options
  import opened Bound
  import opened GroupCheck
  import opened Binder
  import opened SyntaxMeaning
  import opened BinderMeaning
  import opened BinderSucceeds

  predicate SignedToken(e: Syntax) { e.UnarySyntax? && e.op.Minus? && e.operand.NumberLit? }

  /** A number token outside 64 bits, a negative one read as a whole. */
  predicate Overflows(e: Syntax) {
    if SignedToken(e) then e.operand.numeral.Whole? && !Fits64(Signed(e.operand.numeral.magnitude, true))
    else e.NumberLit? && e.numeral.Whole? && !Fits64(Signed(e.numeral.magnitude, false))
  }

  predicate Comparison(e: Syntax) { e.BinarySyntax? && !e.binary.And? && !e.binary.Or? && !Arithmetic(e.binary) }

  predicate Frameless(e: Syntax, aggregates: bool, windows: bool)
    requires e.Call?
  {
    Allowed(if e.over.Some? then e.(over := Some(e.over.value.(frame := None))) else e, aggregates, windows)
  }

  /** The expression itself has the fault, whatever is inside it. */
  predicate AtFault(c: Context, e: Syntax, k: BindError, depth: nat, aggregates: bool, windows: bool) {
    match k
    case BindTooDeep => depth >= BIND_DEPTH
    case InvalidStatement => e.Alias?
    case InvalidWildcard => e.Wildcard?
    case InvalidNumber => Overflows(e)
    case UnknownName => e.Identifier? && (e.qualifier, e.name) !in c.scope
    case UnknownFunction => e.Call? && FunctionOf(e.fn).None?
    case InvalidFunction => e.Call? && FunctionOf(e.fn).Some? && !Frameless(e, aggregates, windows)
    case InvalidFrame => e.Call? && e.over.Some? && e.over.value.frame.Some? && !FrameAllowed(e.over.value.frame.value)
    case TypeMismatch => !e.Identifier? && !e.NumberLit? && !SignedToken(e) && !Comparison(e) && !Locally(c, e)
    case IncompatibleTypes => Comparison(e) && !Comparable(TypeIn(c, e.left), TypeIn(c, e.right))
    case _ => false
  }

  /** The fault is in the expression or in something inside it. */
  predicate Faulty(c: Context, e: Syntax, k: BindError, depth: nat, aggregates: bool, windows: bool)
    decreases e
  {
    || AtFault(c, e, k, depth, aggregates, windows)
    || exists i | 0 <= i < |Parts(e)| ::
         Faulty(c, Parts(e)[i], k, depth + 1, if e.Call? then e.over.Some? else aggregates, !e.Call? && windows)
  }

  ghost predicate AnyFaulty(c: Context, es: seq<Syntax>, k: BindError, depth: nat, aggregates: bool, windows: bool) {
    exists i | 0 <= i < |es| :: Faulty(c, es[i], k, depth, aggregates, windows)
  }

  // ---------- expressions ----------

  lemma {:induction false} ListTells(c: Context, es: seq<Syntax>, depth: nat, a: bool, w: bool)
    ensures var r := BindList(c, es, depth, a, w); r.Err? ==> AnyFaulty(c, es, r.error, depth, a, w)
    decreases es
  {
    hide Faulty, Bind;
    if es != [] {
      BindErrorTells(c, es[0], depth, a, w);
      ListTells(c, es[1..], depth, a, w);
      assert forall i | 1 <= i < |es| :: es[i] == es[1..][i - 1];
    }
  }

  lemma {:induction false} OrdersTell(c: Context, os: seq<SyntaxOrder>, depth: nat)
    ensures var r := BindOrders(c, os, depth); r.Err? ==> AnyFaulty(c, OrderSyntax(os), r.error, depth, true, false)
    decreases os
  {
    hide Faulty, Bind;
    if os != [] {
      KeyTells(c, os[0], depth);
      OrdersTell(c, os[1..], depth);
      assert forall i | 1 <= i < |os| :: OrderSyntax(os)[i] == OrderSyntax(os[1..])[i - 1];
    }
  }

  lemma {:induction false} KeyTells(c: Context, o: SyntaxOrder, depth: nat)
    ensures var r := BindKey(c, o, depth); r.Err? ==> Faulty(c, o.expr, r.error, depth, true, false)
    decreases o
  {
    BindErrorTells(c, o.expr, depth, true, false);
  }

  /** A condition fails to bind on a fault in it, or because it is no condition. */
  ghost predicate BadCondition(c: Context, f: Option<Syntax>, k: BindError, depth: nat, aggregates: bool) {
    f.Some? && (Faulty(c, f.value, k, depth, aggregates, false)
                || (k == TypeMismatch && !Truthlike(TypeIn(c, f.value))))
  }

  lemma {:induction false} FilterTells(c: Context, f: Option<Syntax>, depth: nat, a: bool)
    ensures var r := BindFilter(c, f, depth, a); r.Err? ==> BadCondition(c, f, r.error, depth, a)
    decreases f
  {
    hide Faulty, Bind, TypeIn;
    if f.Some? {
      BindErrorTells(c, f.value, depth, a, false);
      if Bind(c, f.value, depth, a, false).Ok? { BindTyped(c, f.value, depth, a, false); }
    }
  }

  lemma SignatureTells(f: WindowFunction, bs: seq<Expr>)
    ensures Signature(f, bs).Err? ==>
              && Signature(f, bs).error == TypeMismatch
              && (f == OverAggregate(Sum) || f == OverAggregate(Avg)) && bs != [] && !Numberlike(bs[0].dataType)
  {
  }

  /** A fault among the parts of a call is a fault in the call. */
  lemma PartFaulty(c: Context, e: Syntax, part: seq<Syntax>, before: seq<Syntax>, after: seq<Syntax>, k: BindError,
                   depth: nat, a: bool, w: bool)
    requires e.Call? && Parts(e) == before + part + after
    requires AnyFaulty(c, part, k, depth + 1, e.over.Some?, false)
    ensures Faulty(c, e, k, depth, a, w)
  {
    hide AtFault, Parts;
    var i :| 0 <= i < |part| && Faulty(c, part[i], k, depth + 1, e.over.Some?, false);
    assert Parts(e)[|before| + i] == part[i];
  }

  lemma {:induction false} ArgumentsTell(c: Context, e: Syntax, f: WindowFunction, depth: nat, a: bool, w: bool)
    requires e.Call? && FunctionOf(e.fn) == Some(f) && depth < BIND_DEPTH && Shaped(f, e.args)
    ensures var bs := if Star(e.args) then Ok([]) else BindList(c, e.args, depth + 1, e.over.Some?, false);
      && (bs.Err? ==> Faulty(c, e, bs.error, depth, a, w))
      && (bs.Ok? ==> var r := Signature(f, bs.value); r.Err? ==> Faulty(c, e, r.error, depth, a, w))
    decreases e, 0, 0
  {
    hide Bind, BindList, Signature, TypeIn, FunctionOf, Parts;
    if Star(e.args) {
      StarSignature(f);
    } else {
      var bs := BindList(c, e.args, depth + 1, e.over.Some?, false);
      ListTells(c, e.args, depth + 1, e.over.Some?, false);
      if bs.Err? {
        CallParts(e);
        PartFaulty(c, e, e.args, [], Optional(e.filter) + Over(e), bs.error, depth, a, w);
      } else {
        ListTyped(c, e.args, depth + 1, e.over.Some?, false);
        SignatureTells(f, bs.value);
      }
    }
  }

  function Over(e: Syntax): (ps: seq<Syntax>)
    requires e.Call?
  {
    match e.over case None => [] case Some(s) => s.partition + OrderSyntax(s.order)
  }

  lemma CallParts(e: Syntax)
    requires e.Call?
    ensures var a := if Star(e.args) then [] else e.args;
      && Parts(e) == [] + a + (Optional(e.filter) + Over(e))
      && Parts(e) == a + Optional(e.filter) + Over(e)
      && (e.over.Some? ==>
            && Parts(e) == (a + Optional(e.filter)) + e.over.value.partition + OrderSyntax(e.over.value.order)
            && Parts(e) == (a + Optional(e.filter) + e.over.value.partition) + OrderSyntax(e.over.value.order) + [])
  {
  }

  lemma {:induction false} ConditionTells(c: Context, e: Syntax, depth: nat, a: bool, w: bool)
    requires e.Call? && depth < BIND_DEPTH
    ensures var r := BindFilter(c, e.filter, depth + 1, e.over.Some?); r.Err? ==> Faulty(c, e, r.error, depth, a, w)
    decreases e, 0, 0
  {
    hide BindFilter, TypeIn, FunctionOf, Parts;
    var r := BindFilter(c, e.filter, depth + 1, e.over.Some?);
    FilterTells(c, e.filter, depth + 1, e.over.Some?);
    if r.Err? && Faulty(c, e.filter.value, r.error, depth + 1, e.over.Some?, false) {
      CallParts(e);
      assert Optional(e.filter)[0] == e.filter.value;
      PartFaulty(c, e, Optional(e.filter), if Star(e.args) then [] else e.args, Over(e), r.error, depth, a, w);
    }
  }

  lemma {:induction false} OverTells(c: Context, e: Syntax, depth: nat, a: bool, w: bool)
    requires e.Call? && e.over.Some? && depth < BIND_DEPTH
    ensures var r := BindList(c, e.over.value.partition, depth + 1, true, false);
      r.Err? ==> Faulty(c, e, r.error, depth, a, w)
    ensures var r := BindOrders(c, e.over.value.order, depth + 1); r.Err? ==> Faulty(c, e, r.error, depth, a, w)
    ensures var r := FrameOf(e.over.value.frame, e.over.value.order != []);
      r.Err? ==> Faulty(c, e, r.error, depth, a, w)
    decreases e, 0, 0
  {
    hide Bind, BindList, BindOrders, TypeIn, FunctionOf, Parts;
    var s, args := e.over.value, if Star(e.args) then [] else e.args;
    CallParts(e);
    ListTells(c, s.partition, depth + 1, true, false);
    OrdersTell(c, s.order, depth + 1);
    var p, o := BindList(c, s.partition, depth + 1, true, false), BindOrders(c, s.order, depth + 1);
    if p.Err? {
      PartFaulty(c, e, s.partition, args + Optional(e.filter), OrderSyntax(s.order), p.error, depth, a, w);
    }
    if o.Err? {
      PartFaulty(c, e, OrderSyntax(s.order), args + Optional(e.filter) + s.partition, [], o.error, depth, a, w);
    }
  }

  lemma {:induction false} CallTells(c: Context, e: Syntax, depth: nat, a: bool, w: bool)
    requires e.Call? && depth < BIND_DEPTH
    ensures var r := Bind(c, e, depth, a, w); r.Err? ==> Faulty(c, e, r.error, depth, a, w)
    decreases e, 0, 1
  {
    hide BindList, BindFilter, BindOrders, Signature, TypeIn, FunctionOf, FrameOf, FrameAllowed, Parts;
    if FunctionOf(e.fn).Some? {
      var f := FunctionOf(e.fn).value;
      if CallError(f, e.args, e.distinct, e.filter.Some?, e.over.Some?, a, w).None? {
        ArgumentsTell(c, e, f, depth, a, w);
        ConditionTells(c, e, depth, a, w);
        if e.over.Some? { OverTells(c, e, depth, a, w); }
      }
    }
  }

  lemma UnaryTells(op: UnaryOp, b: Expr)
    ensures BindUnary(op, b).Err? ==> BindUnary(op, b).error == TypeMismatch
  {
  }

  lemma BinaryTells(op: BinaryOp, a: Expr, b: Expr)
    ensures var r := BindBinary(op, a, b);
      r.Err? ==> r.error == if op.And? || op.Or? || Arithmetic(op) then TypeMismatch else IncompatibleTypes
  {
    hide NumericCommon, ComparisonCommon;
  }

  /** The fault an expression is refused for is in it: the error never blames a sound part. */
  lemma {:induction false} BindErrorTells(c: Context, e: Syntax, depth: nat, a: bool, w: bool)
    ensures var r := Bind(c, e, depth, a, w); r.Err? ==> Faulty(c, e, r.error, depth, a, w)
    decreases e, 1
  {
    hide BindUnary, BindBinary, BindCall, FunctionOf, TypeIn, CallError;
    if depth < BIND_DEPTH {
      match e
      case UnarySyntax(op, o) =>
        if !SignedToken(e) {
          assert Parts(e)[0] == o;
          BindErrorTells(c, o, depth + 1, a, w);
          if Bind(c, o, depth + 1, a, w).Ok? {
            BindTyped(c, o, depth + 1, a, w);
            UnarySucceeds(op, Bind(c, o, depth + 1, a, w).value);
            UnaryTells(op, Bind(c, o, depth + 1, a, w).value);
          }
        }
      case BinarySyntax(l, op, r) =>
        assert Parts(e)[0] == l && Parts(e)[1] == r;
        BindErrorTells(c, l, depth + 1, a, w);
        BindErrorTells(c, r, depth + 1, a, w);
        if Bind(c, l, depth + 1, a, w).Ok? && Bind(c, r, depth + 1, a, w).Ok? {
          BindTyped(c, l, depth + 1, a, w);
          BindTyped(c, r, depth + 1, a, w);
          BinarySucceeds(op, Bind(c, l, depth + 1, a, w).value, Bind(c, r, depth + 1, a, w).value);
          BinaryTells(op, Bind(c, l, depth + 1, a, w).value, Bind(c, r, depth + 1, a, w).value);
        }
      case IsNullSyntax(o, _) =>
        assert Parts(e)[0] == o;
        BindErrorTells(c, o, depth + 1, a, w);
      case Call(_, _, _, _, _) => CallTells(c, e, depth, a, w);
      case _ =>
    }
  }

  // ---------- queries ----------

  /** An ORDER BY item is an ambiguous heading, an ordinal out of range, or a faulty expression. */
  ghost predicate BadOrder(c: Context, projection: seq<Syntax>, e: Syntax, k: BindError) {
    || (k == AmbiguousName && e.Identifier? && e.qualifier.None? && Occurs(Headings(c, projection), e.name) > 1)
    || (k == InvalidStatement && e.NumberLit? && e.numeral.Whole?
        && !(1 <= e.numeral.magnitude <= |Outputs(c, projection)|))
    || Faulty(c, e, k, 0, true, true)
  }

  ghost predicate BadItem(c: Context, e: Syntax, k: BindError) {
    Faulty(c, Unaliased(e), k, if e.Alias? then 1 else 0, true, true)
  }

  ghost predicate BadProjection(c: Context, es: seq<Syntax>, k: BindError) {
    || (k == EmptyProjection && es == [])
    || (k == InvalidWildcard && Star(es) && c.table.None?)
    || exists i | 0 <= i < |es| :: BadItem(c, es[i], k)
  }

  /** Some part of the query has the fault. */
  ghost predicate BadParts(c: Context, s: SelectSyntax, k: BindError) {
    || BadProjection(c, s.projection, k)
    || BadCondition(c, s.filter, k, 0, false) || BadCondition(c, s.having, k, 0, true)
    || AnyFaulty(c, s.groupBy, k, 0, false, false)
    || exists i | 0 <= i < |s.order| :: BadOrder(c, s.projection, s.order[i].expr, k)
  }

  lemma {:induction false} ItemsTell(c: Context, es: seq<Syntax>)
    ensures var r := BindItems(c, es); r.Err? ==> exists i | 0 <= i < |es| :: BadItem(c, es[i], r.error)
  {
    hide Faulty, Bind;
    if es != [] {
      BindErrorTells(c, Unaliased(es[0]), if es[0].Alias? then 1 else 0, true, true);
      ItemsTell(c, es[1..]);
      assert forall i | 1 <= i < |es| :: es[i] == es[1..][i - 1];
      if BindItem(c, es[0]).Err? { assert BadItem(c, es[0], BindItem(c, es[0]).error); }
    }
  }

  lemma OrderItemTells(c: Context, projection: seq<Syntax>, ns: seq<Item>, e: Syntax)
    requires Headed(c, projection, ns)
    ensures var r := BindOrderItem(c, ns, e); r.Err? ==> BadOrder(c, projection, e, r.error)
  {
    hide Faulty, Bind, Matches, Outputs, Headings, Occurs;
    BindErrorTells(c, e, 0, true, true);
    if e.Identifier? { MatchesOccur(ns, Headings(c, projection), e.name); }
  }

  lemma {:induction false} OrderByTells(c: Context, projection: seq<Syntax>, ns: seq<Item>, os: seq<SyntaxOrder>)
    requires Headed(c, projection, ns)
    ensures var r := BindOrderBy(c, ns, os);
      r.Err? ==> exists i | 0 <= i < |os| :: BadOrder(c, projection, os[i].expr, r.error)
  {
    hide BadOrder, BindOrderItem, Headed;
    if os != [] {
      OrderItemTells(c, projection, ns, os[0].expr);
      OrderByTells(c, projection, ns, os[1..]);
      assert forall i | 1 <= i < |os| :: os[i] == os[1..][i - 1];
    }
  }

  /** The fault a query is refused for is in it, or it shows a column its groups do not determine. */
  lemma SelectErrorTells(c: Context, s: SelectSyntax)
    ensures var r := BindSelect(c, s);
      r.Err? ==> BadParts(c, s, r.error)
                 || (r.error == UngroupedColumn && BindParts(c, s).Ok? && Grouped(c, s) &&
                     !AllGrouped(BindParts(c, s).value))
  {
    hide BindItems, BindFilter, BindList, BindOrderBy, BinderFlag, Grouped, AllGrouped, Headed, PartsOk,
         BadOrder, BadItem, BadCondition, AnyFaulty;
    SelectSucceeds(c, s);
    ItemsTell(c, s.projection);
    FilterTells(c, s.filter, 0, false);
    ListTells(c, s.groupBy, 0, false, false);
    FilterTells(c, s.having, 0, true);
    if BindProjection(c, s.projection).Ok? {
      ProjectionHeaded(c, s.projection);
      OrderByTells(c, s.projection, BindProjection(c, s.projection).value, s.order);
    }
  }
}
