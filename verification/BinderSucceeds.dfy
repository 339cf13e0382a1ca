/** When binding succeeds. */
module BinderSucceeds {
  import opened Options
  import opened Sql
  import opened Bound
  import opened BoundMeaning
  import opened GroupCheck
  import opened PlanMeaning
  import opened Binder
  import opened SyntaxMeaning
  import opened BinderMeaning
  import opened BinderSelect

  // ---------- what an expression must be ----------

  /** At most n levels of nesting. */
  predicate NestedWithin(e: Syntax, n: nat)
    decreases e
  {
    n > 0 && forall i | 0 <= i < |Parts(e)| :: NestedWithin(Parts(e)[i], n - 1)
  }

  function Place(b: FrameBound): (n: int) {
    match b
    case UnboundedPreceding => -2
    case Preceding(_) => -1
    case CurrentRow => 0
    case Following(_) => 1
    case UnboundedFollowing => 2
  }

  /** The frame does not start after it ends, and counts rows only if it is in rows. */
  predicate FrameAllowed(f: WindowFrame) {
    && -2 <= Place(f.start) <= Place(f.end) <= 2 && Place(f.start) < 2 && Place(f.end) > -2
    && (f.start.Preceding? || f.start.Following? ==> f.rows && f.start.n < 0x1_0000_0000_0000_0000)
    && (f.end.Preceding? || f.end.Following? ==> f.rows && f.end.n < 0x1_0000_0000_0000_0000)
  }

  /** Aggregates and windows only where they are allowed, with the arguments they take: one, or
      `*` for a COUNT without DISTINCT; none of anything for rankings, which need a window. */
  predicate Allowed(e: Syntax, aggregates: bool, windows: bool) {
    match e
    case Alias(_, _) => false
    case Wildcard => false
    case Call(name, args, distinct, filter, over) =>
      && FunctionOf(name).Some?
      && var f := FunctionOf(name).value;
         && (match over
             case None => aggregates && f.OverAggregate?
             case Some(s) => windows && !distinct && (s.frame.Some? ==> FrameAllowed(s.frame.value)))
         && (if f.OverAggregate? then |args| == 1 && (args == [Wildcard] ==> f.aggregate == Count && !distinct)
             else args == [] && !distinct && filter.None?)
    case _ => true
  }

  /** The same for everything inside: a window's operands may aggregate, an aggregate's may not. */
  predicate Placed(e: Syntax, aggregates: bool, windows: bool)
    decreases e
  {
    && Allowed(e, aggregates, windows)
    && forall i | 0 <= i < |Parts(e)| ::
         Placed(Parts(e)[i], if e.Call? then e.over.Some? else aggregates, !e.Call? && windows)
  }

  predicate Truthlike(t: LogicalType) { t.Boolean? || t.NullType? }

  predicate Numberlike(t: LogicalType) { Numeric(t) || t.NullType? }

  /** Names are known, numbers fit 64 bits, and operands have the types that operators take. */
  predicate Locally(c: Context, e: Syntax) {
    match e
    case Identifier(q, n) => (q, n) in c.scope
    case NumberLit(Whole(m)) => Fits64(Signed(m, false))
    case UnarySyntax(op, a) =>
      if op.Minus? && a.NumberLit? then a.numeral.Whole? ==> Fits64(Signed(a.numeral.magnitude, true))
      else if op.Not? then Truthlike(TypeIn(c, a))
      else Numberlike(TypeIn(c, a))
    case BinarySyntax(l, op, r) =>
      var s, t := TypeIn(c, l), TypeIn(c, r);
      if op.And? || op.Or? then Truthlike(s) && Truthlike(t)
      else if op.Modulo? then (Integral(s) || s.NullType?) && (Integral(t) || t.NullType?)
      else if Arithmetic(op) then Numberlike(s) && Numberlike(t)
      else Comparable(s, t)
    case Call(name, args, _, filter, _) =>
      && (filter.Some? ==> Truthlike(TypeIn(c, filter.value)))
      && (FunctionOf(name) == Some(OverAggregate(Sum)) || FunctionOf(name) == Some(OverAggregate(Avg)) ==>
            forall i | 0 <= i < |args| :: Numberlike(TypeIn(c, args[i])))
    case _ => true
  }

  predicate Sensible(c: Context, e: Syntax)
    decreases e
  {
    Locally(c, e) && forall i | 0 <= i < |Parts(e)| :: Sensible(c, Parts(e)[i])
  }

  predicate Bindable(c: Context, e: Syntax, depth: nat, aggregates: bool, windows: bool) {
    depth < 256 && NestedWithin(e, 256 - depth) && Placed(e, aggregates, windows) && Sensible(c, e)
  }

  /** Inside out: an expression is bindable if it is itself in order and all its parts are. */
  lemma BindableParts(c: Context, e: Syntax, depth: nat, a: bool, w: bool)
    requires depth < BIND_DEPTH
    ensures Bindable(c, e, depth, a, w) <==>
              && Allowed(e, a, w) && Locally(c, e)
              && forall i | 0 <= i < |Parts(e)| ::
                   Bindable(c, Parts(e)[i], depth + 1, if e.Call? then e.over.Some? else a, !e.Call? && w)
  {
    hide Allowed, Locally, Parts;
    var ps, n := Parts(e), BIND_DEPTH - depth;
    forall i | 0 <= i < |ps| ensures NestedWithin(ps[i], n - 1) ==> depth + 1 < BIND_DEPTH {}
  }

  // ---------- expressions ----------

  function AnyEngine(): (x: Engine) {
    Engine((v: Value) => NullValue, (o: BinaryOp, a: Value, b: Value) => NullValue, (v: Value, t: Arrow) => NullValue,
           (f: AggregateFunction, d: bool, vs: seq<seq<Value>>) => NullValue,
           (f: WindowFunction, d: bool, r: WindowFrame, ds: seq<Direction>, ws: seq<WindowRow>, j: nat) => NullValue,
           (vs: seq<seq<Value>>, ds: seq<Direction>) => [], (f: WindowFunction, ts: seq<Arrow>) => ArrowNull)
  }

  lemma BindTyped(c: Context, e: Syntax, depth: nat, a: bool, w: bool)
    requires Bind(c, e, depth, a, w).Ok?
    ensures Bind(c, e, depth, a, w).value.dataType == TypeIn(c, e)
  {
    hide Bind, Eval, Says, TypeIn, MayBeNull;
    var x, us: seq<Unit> := AnyEngine(), [Unit(map[], [])];
    BindMeans(x, c, e, depth, a, w, us, 0, WindowsAt(x, us, 0));
  }

  lemma NumberSucceeds(n: Numeral, negative: bool)
    ensures NumberOf(n, negative).Ok? <==> (n.Whole? ==> Fits64(Signed(n.magnitude, negative)))
  {
  }

  lemma UnarySucceeds(op: UnaryOp, b: Expr)
    ensures BindUnary(op, b).Ok? <==> if op.Not? then Truthlike(b.dataType) else Numberlike(b.dataType)
  {
  }

  lemma BinarySucceeds(op: BinaryOp, a: Expr, b: Expr)
    ensures BindBinary(op, a, b).Ok? <==>
              var s, t := a.dataType, b.dataType;
              if op.And? || op.Or? then Truthlike(s) && Truthlike(t)
              else if op.Modulo? then (Integral(s) || s.NullType?) && (Integral(t) || t.NullType?)
              else if Arithmetic(op) then Numberlike(s) && Numberlike(t)
              else Comparable(s, t)
  {
    hide NumericCommon, ComparisonCommon, Common;
    ComparisonCommonIs(a.dataType, b.dataType);
  }

  lemma FrameSucceeds(frame: Option<WindowFrame>, ordered: bool)
    ensures FrameOf(frame, ordered).Ok? <==> (frame.Some? ==> FrameAllowed(frame.value))
  {
  }

  lemma {:induction false} ListSucceeds(c: Context, es: seq<Syntax>, depth: nat, a: bool, w: bool)
    ensures BindList(c, es, depth, a, w).Ok? <==> forall i | 0 <= i < |es| :: Bindable(c, es[i], depth, a, w)
    decreases es
  {
    hide Bindable, Bind;
    if es != [] {
      BindSucceeds(c, es[0], depth, a, w);
      ListSucceeds(c, es[1..], depth, a, w);
      assert (forall i | 0 <= i < |es| :: Bindable(c, es[i], depth, a, w)) <==>
             Bindable(c, es[0], depth, a, w) &&
                 forall i | 0 <= i < |es[1..]| :: Bindable(c, es[1..][i], depth, a, w) by {
        assert forall i | 1 <= i < |es| :: es[i] == es[1..][i - 1];
      }
    }
  }

  lemma {:induction false} OrdersSucceed(c: Context, os: seq<SyntaxOrder>, depth: nat)
    ensures BindOrders(c, os, depth).Ok? <==> forall i | 0 <= i < |os| :: Bindable(c, os[i].expr, depth, true, false)
    decreases os
  {
    hide Bindable, Bind;
    if os != [] {
      KeySucceeds(c, os[0], depth);
      OrdersSucceed(c, os[1..], depth);
      assert (forall i | 0 <= i < |os| :: Bindable(c, os[i].expr, depth, true, false)) <==>
             Bindable(c, os[0].expr, depth, true, false)
             && forall i | 0 <= i < |os[1..]| :: Bindable(c, os[1..][i].expr, depth, true, false) by {
        assert forall i | 1 <= i < |os| :: os[i] == os[1..][i - 1];
      }
    }
  }

  lemma {:induction false} KeySucceeds(c: Context, o: SyntaxOrder, depth: nat)
    ensures BindKey(c, o, depth).Ok? <==> Bindable(c, o.expr, depth, true, false)
    decreases o
  {
    BindSucceeds(c, o.expr, depth, true, false);
  }

  lemma {:induction false} FilterSucceeds(c: Context, f: Option<Syntax>, depth: nat, a: bool)
    ensures BindFilter(c, f, depth, a).Ok? <==>
              (f.Some? ==> Bindable(c, f.value, depth, a, false) && Truthlike(TypeIn(c, f.value)))
    decreases f
  {
    hide Bindable, Bind, TypeIn;
    if f.Some? {
      BindSucceeds(c, f.value, depth, a, false);
      if Bind(c, f.value, depth, a, false).Ok? { BindTyped(c, f.value, depth, a, false); }
    }
  }

  lemma SignatureSucceeds(f: WindowFunction, bs: seq<Expr>)
    requires |bs| <= 1
    ensures Signature(f, bs).Ok? <==>
              (f == OverAggregate(Sum) || f == OverAggregate(Avg) ==>
                  forall i | 0 <= i < |bs| :: Numberlike(bs[i].dataType))
  {
    if bs != [] { assert bs[0] == bs[0]; }
  }

  /** The checks of a call say what is allowed, but for its frame. */
  lemma CallErrorIs(f: WindowFunction, e: Syntax, a: bool, w: bool)
    requires e.Call? && FunctionOf(e.fn) == Some(f)
    ensures Allowed(e, a, w) <==>
              && CallError(f, e.args, e.distinct, e.filter.Some?, e.over.Some?, a, w).None?
              && (e.over.Some? && e.over.value.frame.Some? ==> FrameAllowed(e.over.value.frame.value))
  {
    hide FunctionOf, FrameAllowed;
  }

  lemma {:induction false} ArgumentsSucceed(c: Context, e: Syntax, f: WindowFunction, depth: nat)
    requires e.Call? && Shaped(f, e.args) && FunctionOf(e.fn) == Some(f)
    ensures var over := e.over.Some?; var bs := if Star(e.args) then Ok([])
              else BindList(c, e.args, depth + 1, over, false);
      bs.Ok? && Signature(f, bs.value).Ok? <==>
        && (!Star(e.args) ==> forall i | 0 <= i < |e.args| :: Bindable(c, e.args[i], depth + 1, over, false))
        && (f == OverAggregate(Sum) || f == OverAggregate(Avg) ==>
              forall i | 0 <= i < |e.args| :: Numberlike(TypeIn(c, e.args[i])))
    decreases e, 0, 0
  {
    hide Bindable, Bind, BindList, Signature, TypeIn, FunctionOf;
    var over := e.over.Some?;
    if Star(e.args) {
      StarSignature(f);
    } else {
      ListSucceeds(c, e.args, depth + 1, over, false);
      if BindList(c, e.args, depth + 1, over, false).Ok? {
        var bs := BindList(c, e.args, depth + 1, over, false).value;
        ListTyped(c, e.args, depth + 1, over, false);
        SignatureSucceeds(f, bs);
      }
    }
  }

  lemma {:induction false} ListTyped(c: Context, es: seq<Syntax>, depth: nat, a: bool, w: bool)
    requires BindList(c, es, depth, a, w).Ok?
    ensures var bs := BindList(c, es, depth, a, w).value;
      |bs| == |es| && forall i | 0 <= i < |es| :: bs[i].dataType == TypeIn(c, es[i])
    decreases es
  {
    hide Bind, TypeIn;
    if es != [] {
      BindTyped(c, es[0], depth, a, w);
      ListTyped(c, es[1..], depth, a, w);
      assert forall i | 1 <= i < |es| :: es[i] == es[1..][i - 1];
    }
  }

  /** What is inside a call, part by part. */
  lemma PartsOfCall(c: Context, e: Syntax, depth: nat)
    requires e.Call?
    ensures var over := e.over.Some?;
      (forall i | 0 <= i < |Parts(e)| :: Bindable(c, Parts(e)[i], depth, over, false)) <==>
        && (!Star(e.args) ==> forall i | 0 <= i < |e.args| :: Bindable(c, e.args[i], depth, over, false))
        && (e.filter.Some? ==> Bindable(c, e.filter.value, depth, over, false))
        && (over ==>
              && (forall i | 0 <= i < |e.over.value.partition| ::
                   Bindable(c, e.over.value.partition[i], depth, true, false))
              && (forall i | 0 <= i < |e.over.value.order| ::
                   Bindable(c, e.over.value.order[i].expr, depth, true, false)))
  {
    hide Bindable;
    var over := e.over.Some?;
    var a, f := if Star(e.args) then [] else e.args, Optional(e.filter);
    var p, o := if over then e.over.value.partition else [], if over then OrderSyntax(e.over.value.order) else [];
    var ps := Parts(e);
    assert ps == a + f + (p + o);
    AllSplit(c, a, f, depth, over);
    AllSplit(c, p, o, depth, over);
    AllSplit(c, a + f, p + o, depth, over);
    OptionalBindable(c, e.filter, depth, over);
    assert AllBindable(c, ps, depth, over) <==>
             AllBindable(c, a, depth, over) && AllBindable(c, f, depth, over)
             && AllBindable(c, p, depth, over) && AllBindable(c, o, depth, over);
    if over { OrderParts(c, e.over.value.order, depth); }
  }

  lemma OptionalBindable(c: Context, f: Option<Syntax>, depth: nat, over: bool)
    ensures AllBindable(c, Optional(f), depth, over) <==> (f.Some? ==> Bindable(c, f.value, depth, over, false))
  {
    hide Bindable;
    if f.Some? { assert Optional(f)[0] == f.value; }
  }

  lemma OrderParts(c: Context, os: seq<SyntaxOrder>, depth: nat)
    ensures AllBindable(c, OrderSyntax(os), depth, true) <==>
              forall i | 0 <= i < |os| :: Bindable(c, os[i].expr, depth, true, false)
  {
    hide Bindable;
    var es := OrderSyntax(os);
    if AllBindable(c, es, depth, true) {
      forall i | 0 <= i < |os| ensures Bindable(c, os[i].expr, depth, true, false) { assert es[i] == os[i].expr; }
    }
  }

  predicate AllBindable(c: Context, es: seq<Syntax>, depth: nat, a: bool) {
    forall i | 0 <= i < |es| :: Bindable(c, es[i], depth, a, false)
  }

  lemma AllSplit(c: Context, a: seq<Syntax>, b: seq<Syntax>, depth: nat, over: bool)
    ensures AllBindable(c, a + b, depth, over) <==> AllBindable(c, a, depth, over) && AllBindable(c, b, depth, over)
  {
    hide Bindable;
    if AllBindable(c, a + b, depth, over) {
      forall i | 0 <= i < |a| ensures Bindable(c, a[i], depth, over, false) { assert (a + b)[i] == a[i]; }
      forall i | 0 <= i < |b| ensures Bindable(c, b[i], depth, over, false) { assert (a + b)[|a| + i] == b[i]; }
    }
  }

  lemma {:induction false} CallSucceeds(c: Context, e: Syntax, f: WindowFunction, depth: nat, a: bool, w: bool)
    requires e.Call? && FunctionOf(e.fn) == Some(f) && depth < BIND_DEPTH
    requires CallError(f, e.args, e.distinct, e.filter.Some?, e.over.Some?, a, w).None?
    ensures BindCall(c, e, f, depth).Ok? <==> Bindable(c, e, depth, a, w)
    decreases e, 0, 1
  {
    hide Bindable, Bind, BindList, BindFilter, BindOrders, Signature;
    hide TypeIn, FunctionOf, FrameOf, FrameAllowed, Allowed;
    BindableParts(c, e, depth, a, w);
    PartsOfCall(c, e, depth + 1);
    CallErrorIs(f, e, a, w);
    ArgumentsSucceed(c, e, f, depth);
    FilterSucceeds(c, e.filter, depth + 1, e.over.Some?);
    if e.over.Some? {
      var s := e.over.value;
      ListSucceeds(c, s.partition, depth + 1, true, false);
      OrdersSucceed(c, s.order, depth + 1);
      FrameSucceeds(s.frame, s.order != []);
    }
  }

  /** An expression binds exactly if it is not nested too deep, has aggregates and windows only
      where they are allowed and complete, names known columns, and fits its types. */
  lemma {:induction false} BindSucceeds(c: Context, e: Syntax, depth: nat, a: bool, w: bool)
    ensures Bind(c, e, depth, a, w).Ok? <==> Bindable(c, e, depth, a, w)
    decreases e, 1
  {
    hide Bindable, BindUnary, BindBinary, BindCall, NumberOf, FunctionOf, TypeIn, CallError;
    if depth < BIND_DEPTH {
      BindableParts(c, e, depth, a, w);
      match e
      case NumberLit(n) => NumberSucceeds(n, false);
      case UnarySyntax(op, o) =>
        if op.Minus? && o.NumberLit? {
          NumberSucceeds(o.numeral, true);
        } else {
          OnePart(c, e, o, depth + 1, a, w);
          BindSucceeds(c, o, depth + 1, a, w);
          if Bind(c, o, depth + 1, a, w).Ok? {
            BindTyped(c, o, depth + 1, a, w);
            UnarySucceeds(op, Bind(c, o, depth + 1, a, w).value);
          }
        }
      case BinarySyntax(l, op, r) =>
        TwoParts(c, e, l, r, depth + 1, a, w);
        BindSucceeds(c, l, depth + 1, a, w);
        BindSucceeds(c, r, depth + 1, a, w);
        if Bind(c, l, depth + 1, a, w).Ok? && Bind(c, r, depth + 1, a, w).Ok? {
          BindTyped(c, l, depth + 1, a, w);
          BindTyped(c, r, depth + 1, a, w);
          BinarySucceeds(op, Bind(c, l, depth + 1, a, w).value, Bind(c, r, depth + 1, a, w).value);
        }
      case IsNullSyntax(o, _) =>
        OnePart(c, e, o, depth + 1, a, w);
        BindSucceeds(c, o, depth + 1, a, w);
      case Call(name, _, _, _, _) => NamedSucceeds(c, e, depth, a, w);
      case _ =>
    } else {
      assert !Bindable(c, e, depth, a, w) by { TooDeep(c, e, depth, a, w); }
    }
  }

  lemma TooDeep(c: Context, e: Syntax, depth: nat, a: bool, w: bool)
    requires depth >= BIND_DEPTH
    ensures !Bindable(c, e, depth, a, w)
  {
  }

  lemma OnePart(c: Context, e: Syntax, o: Syntax, depth: nat, a: bool, w: bool)
    requires Parts(e) == [o] && !e.Call?
    ensures (forall i | 0 <= i < |Parts(e)| :: Bindable(c, Parts(e)[i], depth, a, w)) <==> Bindable(c, o, depth, a, w)
  {
    hide Bindable, Parts;
    assert Parts(e)[0] == o;
  }

  lemma TwoParts(c: Context, e: Syntax, l: Syntax, r: Syntax, depth: nat, a: bool, w: bool)
    requires Parts(e) == [l, r] && !e.Call?
    ensures (forall i | 0 <= i < |Parts(e)| :: Bindable(c, Parts(e)[i], depth, a, w)) <==>
              Bindable(c, l, depth, a, w) && Bindable(c, r, depth, a, w)
  {
    hide Bindable, Parts;
    assert Parts(e)[0] == l && Parts(e)[1] == r;
  }

  lemma {:induction false} NamedSucceeds(c: Context, e: Syntax, depth: nat, a: bool, w: bool)
    requires e.Call? && depth < BIND_DEPTH
    ensures Bind(c, e, depth, a, w).Ok? <==> Bindable(c, e, depth, a, w)
    decreases e, 0, 2
  {
    hide Bindable, BindCall, FunctionOf, CallError, Locally, FrameAllowed;
    BindableParts(c, e, depth, a, w);
    if FunctionOf(e.fn).Some? {
      var f := FunctionOf(e.fn).value;
      CallErrorIs(f, e, a, w);
      if CallError(f, e.args, e.distinct, e.filter.Some?, e.over.Some?, a, w).None? {
        CallSucceeds(c, e, f, depth, a, w);
      }
    }
  }

  // ---------- queries ----------

  /** How often a heading occurs. */
  function Occurs(hs: seq<string>, h: string): (n: nat) {
    if hs == [] then 0 else (if hs[0] == h then 1 else 0) + Occurs(hs[1..], h)
  }

  predicate ItemOk(c: Context, e: Syntax) { Bindable(c, Unaliased(e), if e.Alias? then 1 else 0, true, true) }

  predicate ConditionOk(c: Context, p: Option<Syntax>, aggregates: bool) {
    p.Some? ==> Bindable(c, p.value, 0, aggregates, false) && Truthlike(TypeIn(c, p.value))
  }

  /** An ORDER BY item names one output, has the number of one, or is an expression. */
  predicate OrderOk(c: Context, projection: seq<Syntax>, e: Syntax) {
    if e.Identifier? && e.qualifier.None? && Occurs(Headings(c, projection), e.name) > 0 then
      Occurs(Headings(c, projection), e.name) == 1
    else if e.NumberLit? && e.numeral.Whole? then 1 <= e.numeral.magnitude <= |Outputs(c, projection)|
    else Bindable(c, e, 0, true, true)
  }

  /** Every part of the query binds. */
  predicate PartsOk(c: Context, s: SelectSyntax) {
    && s.projection != []
    && (if Star(s.projection) then c.table.Some? else forall i | 0 <= i < |s.projection| :: ItemOk(c, s.projection[i]))
    && ConditionOk(c, s.filter, false) && ConditionOk(c, s.having, true)
    && (forall i | 0 <= i < |s.groupBy| :: Bindable(c, s.groupBy[i], 0, false, false))
    && (forall i | 0 <= i < |s.order| :: OrderOk(c, s.projection, s.order[i].expr))
  }

  lemma {:induction false} ItemsSucceed(c: Context, es: seq<Syntax>)
    ensures BindItems(c, es).Ok? <==> forall i | 0 <= i < |es| :: ItemOk(c, es[i])
  {
    hide Bindable, Bind;
    if es != [] {
      BindSucceeds(c, Unaliased(es[0]), if es[0].Alias? then 1 else 0, true, true);
      ItemsSucceed(c, es[1..]);
      assert forall i | 1 <= i < |es| :: es[i] == es[1..][i - 1];
      assert (forall i | 0 <= i < |es| :: ItemOk(c, es[i])) <==>
             ItemOk(c, es[0]) && forall i | 0 <= i < |es[1..]| :: ItemOk(c, es[1..][i]);
    }
  }

  lemma {:induction false} MatchesOccur(ns: seq<Item>, hs: seq<string>, name: string)
    requires |ns| == |hs| && forall i | 0 <= i < |ns| :: ns[i].name == hs[i]
    ensures |Matches(ns, name)| == Occurs(hs, name)
  {
    if ns != [] { MatchesOccur(ns[1..], hs[1..], name); }
  }

  predicate Headed(c: Context, projection: seq<Syntax>, ns: seq<Item>) {
    && |ns| == |Outputs(c, projection)|
    && forall i | 0 <= i < |ns| :: ns[i].name == Headings(c, projection)[i]
  }

  lemma OrderItemSucceeds(c: Context, projection: seq<Syntax>, ns: seq<Item>, e: Syntax)
    requires Headed(c, projection, ns)
    ensures BindOrderItem(c, ns, e).Ok? <==> OrderOk(c, projection, e)
  {
    hide Bindable, Bind, Matches, Outputs, Headings, Occurs;
    BindSucceeds(c, e, 0, true, true);
    if e.Identifier? { MatchesOccur(ns, Headings(c, projection), e.name); }
  }

  lemma {:induction false} OrderBySucceeds(c: Context, projection: seq<Syntax>, ns: seq<Item>, os: seq<SyntaxOrder>)
    requires Headed(c, projection, ns)
    ensures BindOrderBy(c, ns, os).Ok? <==> forall i | 0 <= i < |os| :: OrderOk(c, projection, os[i].expr)
  {
    hide OrderOk, BindOrderItem, Headed;
    if os != [] {
      OrderItemSucceeds(c, projection, ns, os[0].expr);
      OrderBySucceeds(c, projection, ns, os[1..]);
      assert forall i | 1 <= i < |os| :: os[i] == os[1..][i - 1];
      assert (forall i | 0 <= i < |os| :: OrderOk(c, projection, os[i].expr)) <==>
             OrderOk(c, projection, os[0].expr) &&
                 forall i | 0 <= i < |os[1..]| :: OrderOk(c, projection, os[1..][i].expr);
    }
  }

  lemma ProjectionHeaded(c: Context, es: seq<Syntax>)
    requires BindProjection(c, es).Ok?
    ensures Headed(c, es, BindProjection(c, es).value)
  {
    hide BindProjection, Renders, Outputs, Headings;
    ProjectionMeans(AnyEngine(), c, es);
  }

  /** A query binds exactly if all its parts do and, where it returns groups, everything it
      shows is determined by its groups. */
  lemma SelectSucceeds(c: Context, s: SelectSyntax)
    ensures BindParts(c, s).Ok? <==> PartsOk(c, s)
    ensures BindSelect(c, s).Ok? <==> PartsOk(c, s) && (Grouped(c, s) ==> AllGrouped(BindParts(c, s).value))
    ensures PartsOk(c, s) && BindSelect(c, s).Err? ==> BindSelect(c, s).error == UngroupedColumn
  {
    hide Bindable, BindItems, BindFilter, BindList, BindOrderBy, BinderFlag;
    hide Grouped, AllGrouped, OrderOk, Headed, TypeIn;
    ItemsSucceed(c, s.projection);
    FilterSucceeds(c, s.filter, 0, false);
    ListSucceeds(c, s.groupBy, 0, false, false);
    FilterSucceeds(c, s.having, 0, true);
    if BindProjection(c, s.projection).Ok? {
      ProjectionHeaded(c, s.projection);
      OrderBySucceeds(c, s.projection, BindProjection(c, s.projection).value, s.order);
    }
    assert BindParts(c, s).Ok? <==> PartsOk(c, s);
    if BindParts(c, s).Ok? { SelectParts(AnyEngine(), c, s); }
  }
}
