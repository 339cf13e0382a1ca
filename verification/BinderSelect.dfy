/** Binding keeps the meaning of whole queries. */
module BinderSelect {
  import opened Options
  import opened Sql
  import opened Bound
  import opened BoundMeaning
  import opened Planner
  import opened GroupCheck
  import opened PlanMeaning
  import opened Binder
  import opened SyntaxMeaning
  import opened BinderMeaning

  // ---------- aggregates stay where they were written ----------

  predicate AnyAggregate(es: seq<Expr>) { exists i | 0 <= i < |es| :: ContainsAggregate(es[i]) }

  predicate AnyAggregates(es: seq<Syntax>) { exists i | 0 <= i < |es| :: Aggregates(es[i]) }

  lemma AnySplit(a: seq<Expr>, b: seq<Expr>)
    ensures AnyAggregate(a + b) <==> AnyAggregate(a) || AnyAggregate(b)
  {
    hide ContainsAggregate;
    if i :| 0 <= i < |a| && ContainsAggregate(a[i]) { assert ContainsAggregate((a + b)[i]); }
    if i :| 0 <= i < |b| && ContainsAggregate(b[i]) { assert ContainsAggregate((a + b)[|a| + i]); }
  }

  lemma AnysSplit(a: seq<Syntax>, b: seq<Syntax>)
    ensures AnyAggregates(a + b) <==> AnyAggregates(a) || AnyAggregates(b)
  {
    hide Aggregates;
    if i :| 0 <= i < |a| && Aggregates(a[i]) { assert Aggregates((a + b)[i]); }
    if i :| 0 <= i < |b| && Aggregates(b[i]) { assert Aggregates((a + b)[|a| + i]); }
  }

  lemma AnySame(es: seq<Expr>, ss: seq<Syntax>)
    requires |es| == |ss| && forall i | 0 <= i < |es| :: ContainsAggregate(es[i]) <==> Aggregates(ss[i])
    ensures AnyAggregate(es) <==> AnyAggregates(ss)
  {
    hide Aggregates, ContainsAggregate;
    if i :| 0 <= i < |es| && ContainsAggregate(es[i]) { assert Aggregates(ss[i]); }
    if i :| 0 <= i < |ss| && Aggregates(ss[i]) { assert ContainsAggregate(es[i]); }
  }

  lemma ContainsIn(b: Expr)
    ensures ContainsAggregate(b) <==> b.kind.Aggregate? || AnyAggregate(VisibleChildren(b))
  {
    var cs := VisibleChildren(b);
    if i :| 0 <= i < |cs| && ContainsAggregate(cs[i]) { assert ContainsAggregate(VisibleChildren(b)[i]); }
  }

  lemma AggregatesIn(e: Syntax)
    ensures Aggregates(e) <==> (e.Call? && e.over.None?) || AnyAggregates(Parts(e))
  {
    var ps := Parts(e);
    if i :| 0 <= i < |ps| && Aggregates(ps[i]) { assert Aggregates(Parts(e)[i]); }
  }

  lemma CastAggregates(e: Expr, t: LogicalType)
    ensures ContainsAggregate(CastTo(e, t)) <==> ContainsAggregate(e)
  {
    if e.dataType != t {
      var b := CastTo(e, t);
      assert VisibleChildren(b) == [e];
      if ContainsAggregate(e) { assert ContainsAggregate(VisibleChildren(b)[0]); }
    }
  }

  lemma OneAggregates(b: Expr, e: Syntax, x: Expr, y: Syntax)
    requires !b.kind.Aggregate? && VisibleChildren(b) == [x] && Parts(e) == [y] && !e.Call?
    requires ContainsAggregate(x) <==> Aggregates(y)
    ensures ContainsAggregate(b) <==> Aggregates(e)
  {
    hide ContainsAggregate, Aggregates, VisibleChildren, Parts, AnyAggregate, AnyAggregates;
    ContainsIn(b);
    AggregatesIn(e);
    AnySame([x], [y]);
  }

  lemma AnyTwo(x: Expr, x': Expr, y: Syntax, y': Syntax)
    ensures AnyAggregate([x, x']) <==> ContainsAggregate(x) || ContainsAggregate(x')
    ensures AnyAggregates([y, y']) <==> Aggregates(y) || Aggregates(y')
  {
    hide ContainsAggregate, Aggregates;
    assert [x, x'][0] == x && [x, x'][1] == x' && [y, y'][0] == y && [y, y'][1] == y';
  }

  lemma TwoAggregates(b: Expr, e: Syntax, x: Expr, x': Expr, y: Syntax, y': Syntax)
    requires !b.kind.Aggregate? && VisibleChildren(b) == [x, x'] && Parts(e) == [y, y'] && !e.Call?
    requires (ContainsAggregate(x) <==> Aggregates(y)) && (ContainsAggregate(x') <==> Aggregates(y'))
    ensures ContainsAggregate(b) <==> Aggregates(e)
  {
    hide ContainsAggregate, Aggregates, VisibleChildren, Parts, AnyAggregate, AnyAggregates;
    ContainsIn(b);
    AggregatesIn(e);
    AnyTwo(x, x', y, y');
  }

  lemma {:induction false} ListAggregates(c: Context, es: seq<Syntax>, depth: nat, a: bool, w: bool)
    requires BindList(c, es, depth, a, w).Ok?
    ensures var bs := BindList(c, es, depth, a, w).value;
      |bs| == |es| && forall i | 0 <= i < |es| :: ContainsAggregate(bs[i]) <==> Aggregates(es[i])
    decreases es
  {
    hide ContainsAggregate, Aggregates, Bind;
    if es != [] {
      BindAggregates(c, es[0], depth, a, w);
      ListAggregates(c, es[1..], depth, a, w);
      var bs := BindList(c, es, depth, a, w).value;
      forall i | 0 <= i < |es| ensures ContainsAggregate(bs[i]) <==> Aggregates(es[i]) {
        if i > 0 { assert bs[i] == BindList(c, es[1..], depth, a, w).value[i - 1] && es[i] == es[1..][i - 1]; }
      }
    }
  }

  lemma {:induction false} OrdersAggregate(c: Context, os: seq<SyntaxOrder>, depth: nat)
    requires BindOrders(c, os, depth).Ok?
    ensures var ks := BindOrders(c, os, depth).value;
      |ks| == |os| && forall i | 0 <= i < |os| :: ContainsAggregate(ks[i].expr) <==> Aggregates(os[i].expr)
    decreases os
  {
    hide ContainsAggregate, Aggregates, Bind;
    if os != [] {
      KeyAggregates(c, os[0], depth);
      OrdersAggregate(c, os[1..], depth);
      var ks := BindOrders(c, os, depth).value;
      forall i | 0 <= i < |os| ensures ContainsAggregate(ks[i].expr) <==> Aggregates(os[i].expr) {
        if i > 0 { assert ks[i] == BindOrders(c, os[1..], depth).value[i - 1] && os[i] == os[1..][i - 1]; }
      }
    }
  }

  lemma {:induction false} KeyAggregates(c: Context, o: SyntaxOrder, depth: nat)
    requires BindKey(c, o, depth).Ok?
    ensures ContainsAggregate(BindKey(c, o, depth).value.expr) <==> Aggregates(o.expr)
    decreases o
  {
    BindAggregates(c, o.expr, depth, true, false);
  }

  lemma {:induction false} FilterAggregates(c: Context, f: Option<Syntax>, depth: nat, a: bool)
    requires BindFilter(c, f, depth, a).Ok?
    ensures AnyAggregate(Optional(BindFilter(c, f, depth, a).value)) <==> AnyAggregates(Optional(f))
    decreases f
  {
    hide ContainsAggregate, Aggregates, Bind;
    if f.Some? {
      BindAggregates(c, f.value, depth, a, false);
      var b := Bind(c, f.value, depth, a, false).value;
      CastAggregates(b, Boolean);
      AnySame([AsBoolean(b).value], [f.value]);
    } else {
      AnySame([], []);
    }
  }

  lemma {:induction false} WindowAggregates(c: Context, e: Syntax, f: WindowFunction, depth: nat)
    requires e.Call? && e.over.Some? && Shaped(f, e.args) && BindCall(c, e, f, depth).Ok?
    ensures ContainsAggregate(BindCall(c, e, f, depth).value) <==> Aggregates(e)
    decreases e, 0
  {
    hide ContainsAggregate, Aggregates, Bind, BindList, BindFilter, BindOrders, Signature, FrameOf, CastTo;
    var b, s := BindCall(c, e, f, depth).value, e.over.value;
    var args := if Star(e.args) then [] else e.args;
    var k := b.kind;
    assert AnyAggregate(k.operands) <==> AnyAggregates(args) by {
      if Star(e.args) {
        StarSignature(f);
        AnySame([], []);
      } else {
        ListAggregates(c, e.args, depth + 1, true, false);
        SignatureAggregates(f, BindList(c, e.args, depth + 1, true, false).value);
        AnySame(BindList(c, e.args, depth + 1, true, false).value, e.args);
      }
    }
    FilterAggregates(c, e.filter, depth + 1, true);
    ListAggregates(c, s.partition, depth + 1, true, false);
    AnySame(k.partition, s.partition);
    OrdersAggregate(c, s.order, depth + 1);
    AnySame(OrderExprs(k.order), OrderSyntax(s.order));
    AnySplit(k.operands, Optional(k.where));
    AnySplit(k.operands + Optional(k.where), k.partition);
    AnySplit(k.operands + Optional(k.where) + k.partition, OrderExprs(k.order));
    AnysSplit(args, Optional(e.filter));
    AnysSplit(s.partition, OrderSyntax(s.order));
    AnysSplit(args + Optional(e.filter), s.partition + OrderSyntax(s.order));
    WindowParts(b);
    CallParts(e);
  }

  lemma WindowParts(b: Expr)
    requires b.kind.Window?
    ensures ContainsAggregate(b) <==>
              AnyAggregate(b.kind.operands + Optional(b.kind.where) + b.kind.partition + OrderExprs(b.kind.order))
  {
    hide ContainsAggregate;
    ContainsIn(b);
  }

  lemma CallParts(e: Syntax)
    requires e.Call? && e.over.Some?
    ensures Aggregates(e) <==>
              AnyAggregates((if Star(e.args) then [] else e.args) + Optional(e.filter)
                            + (e.over.value.partition + OrderSyntax(e.over.value.order)))
  {
    hide Aggregates;
    AggregatesIn(e);
  }

  lemma SignatureAggregates(f: WindowFunction, bs: seq<Expr>)
    requires Signature(f, bs).Ok? && |bs| <= 1
    ensures AnyAggregate(Signature(f, bs).value.2) <==> AnyAggregate(bs)
  {
    hide ContainsAggregate;
    var coerced := Signature(f, bs).value.2;
    if bs != [] && coerced != bs {
      var t := coerced[0].dataType;
      assert coerced == [CastTo(bs[0], t)];
      CastAggregates(bs[0], t);
    }
  }

  /** An aggregate is bound exactly where one was written. */
  lemma {:induction false} BindAggregates(c: Context, e: Syntax, depth: nat, a: bool, w: bool)
    requires Bind(c, e, depth, a, w).Ok?
    ensures ContainsAggregate(Bind(c, e, depth, a, w).value) <==> Aggregates(e)
    decreases e, 1
  {
    hide BindUnary, BindBinary, BindCall, FunctionOf, ContainsAggregate, Aggregates;
    var b := Bind(c, e, depth, a, w).value;
    match e
    case UnarySyntax(op, o) =>
      if op.Minus? && o.NumberLit? {
        LeafAggregates(b, e);
      } else {
        BindAggregates(c, o, depth + 1, a, w);
        UnaryAggregates(op, o, Bind(c, o, depth + 1, a, w).value);
      }
    case BinarySyntax(l, op, r) =>
      BindAggregates(c, l, depth + 1, a, w);
      BindAggregates(c, r, depth + 1, a, w);
      BinaryAggregates(op, l, r, Bind(c, l, depth + 1, a, w).value, Bind(c, r, depth + 1, a, w).value);
    case IsNullSyntax(o, negated) =>
      BindAggregates(c, o, depth + 1, a, w);
      OneAggregates(b, e, Bind(c, o, depth + 1, a, w).value, o);
    case Call(name, _, _, _, over) =>
      if over.Some? {
        WindowAggregates(c, e, FunctionOf(name).value, depth);
      } else {
        CallAggregates(c, e, FunctionOf(name).value, depth);
      }
    case _ => LeafAggregates(b, e);
  }

  lemma CallAggregates(c: Context, e: Syntax, f: WindowFunction, depth: nat)
    requires e.Call? && e.over.None? && BindCall(c, e, f, depth).Ok?
    ensures ContainsAggregate(BindCall(c, e, f, depth).value) && Aggregates(e)
  {
  }

  lemma LeafAggregates(b: Expr, e: Syntax)
    requires (b.kind.Literal? || b.kind.ColumnRef?) && Parts(e) == [] && !e.Call?
    ensures !ContainsAggregate(b) && !Aggregates(e)
  {
  }

  lemma UnaryAggregates(op: UnaryOp, o: Syntax, b: Expr)
    requires BindUnary(op, b).Ok? && (ContainsAggregate(b) <==> Aggregates(o)) && !(op.Minus? && o.NumberLit?)
    ensures ContainsAggregate(BindUnary(op, b).value) <==> Aggregates(UnarySyntax(op, o))
  {
    hide ContainsAggregate, Aggregates;
    var r := BindUnary(op, b).value;
    CastAggregates(b, Boolean);
    CastAggregates(b, Int32);
    CastAggregates(b, Int64);
    OneAggregates(r, UnarySyntax(op, o), r.kind.operand, o);
  }

  lemma BinaryAggregates(op: BinaryOp, l: Syntax, r: Syntax, a: Expr, b: Expr)
    requires BindBinary(op, a, b).Ok? && (ContainsAggregate(a) <==> Aggregates(l)) &&
               (ContainsAggregate(b) <==> Aggregates(r))
    ensures ContainsAggregate(BindBinary(op, a, b).value) <==> Aggregates(BinarySyntax(l, op, r))
  {
    hide ContainsAggregate, Aggregates, BindBinary, OperandType;
    var t := OperandType(op, a.dataType, b.dataType);
    BinaryShape(op, a, b);
    CastAggregates(a, t);
    CastAggregates(b, t);
    TwoAggregates(BindBinary(op, a, b).value, BinarySyntax(l, op, r), CastTo(a, t), CastTo(b, t), l, r);
  }

  // ---------- outputs ----------

  /** A bound output is the written one: type, nullability, aggregates, and value anywhere. */
  ghost predicate Renders(x: Engine, c: Context, b: Expr, o: Output) {
    && b.dataType == OutputType(c, o) && b.nullable == OutputNull(c, o)
    && (ContainsAggregate(b) <==> OutputAggregates(o))
    && forall us: seq<Unit>, j: nat | j < |us| :: RendersAt(x, c, b, o, us, j)
  }

  ghost predicate RendersAt(x: Engine, c: Context, b: Expr, o: Output, us: seq<Unit>, j: nat)
    requires j < |us|
  {
    Eval(x, b, us[j], WindowsAt(x, us, j)) == OutputSays(x, c, o, us, j)
  }

  function OutputType(c: Context, o: Output): (t: LogicalType) {
    match o case TableColumn(r) => r.dataType case Written(e) => TypeIn(c, e)
  }

  predicate OutputNull(c: Context, o: Output) {
    match o case TableColumn(r) => r.nullable case Written(e) => MayBeNull(c, e)
  }

  lemma WrittenRenders(x: Engine, c: Context, e: Syntax, depth: nat)
    requires Bind(c, e, depth, true, true).Ok?
    ensures Renders(x, c, Bind(c, e, depth, true, true).value, Written(e))
  {
    hide Bind, Eval, Says, ContainsAggregate, Aggregates, TypeIn, MayBeNull;
    var b := Bind(c, e, depth, true, true).value;
    BindAggregates(c, e, depth, true, true);
    var one: seq<Unit> := [Unit(map[], [])];
    BindMeans(x, c, e, depth, true, true, one, 0, WindowsAt(x, one, 0));
    forall us: seq<Unit>, j: nat | j < |us| ensures RendersAt(x, c, b, Written(e), us, j) {
      BindMeans(x, c, e, depth, true, true, us, j, WindowsAt(x, us, j));
    }
  }

  lemma ColumnRenders(x: Engine, c: Context, r: Resolved)
    ensures Renders(x, c, Expr(r.dataType, r.nullable, ColumnRef(r.binding)), TableColumn(r))
  {
    var b := Expr(r.dataType, r.nullable, ColumnRef(r.binding));
    forall us: seq<Unit>, j: nat | j < |us| ensures RendersAt(x, c, b, TableColumn(r), us, j) {}
  }

  ghost predicate ItemsRender(x: Engine, c: Context, ns: seq<Item>, os: seq<Output>, hs: seq<string>) {
    && |ns| == |os| == |hs|
    && forall i | 0 <= i < |ns| :: ns[i].name == hs[i] && Renders(x, c, ns[i].expr, os[i])
  }

  lemma {:induction false} ItemsMean(x: Engine, c: Context, es: seq<Syntax>)
    requires BindItems(c, es).Ok?
    ensures ItemsRender(x, c, BindItems(c, es).value, seq(|es|, i requires 0 <= i < |es| => Written(Unaliased(es[i]))),
                        seq(|es|, i requires 0 <= i < |es| => Heading(es[i])))
  {
    hide Bind, Renders;
    if es != [] {
      WrittenRenders(x, c, Unaliased(es[0]), if es[0].Alias? then 1 else 0);
      ItemsMean(x, c, es[1..]);
      var ns, rest := BindItems(c, es).value, BindItems(c, es[1..]).value;
      forall i | 0 <= i < |es|
        ensures ns[i].name == Heading(es[i]) && Renders(x, c, ns[i].expr, Written(Unaliased(es[i])))
      {
        if i > 0 { assert ns[i] == rest[i - 1] && es[i] == es[1..][i - 1]; }
      }
    }
  }

  lemma ProjectionMeans(x: Engine, c: Context, es: seq<Syntax>)
    requires BindProjection(c, es).Ok?
    ensures ItemsRender(x, c, BindProjection(c, es).value, Outputs(c, es), Headings(c, es))
  {
    hide Renders, BindItems;
    if Star(es) {
      var cols := c.table.value;
      forall i | 0 <= i < |cols|
        ensures Renders(x, c, Expr(cols[i].dataType, cols[i].nullable, ColumnRef(cols[i].binding)),
                  TableColumn(cols[i]))
      {
        ColumnRenders(x, c, cols[i]);
      }
    } else {
      ItemsMean(x, c, es);
    }
  }

  /** The expressions found under a name are none, or that of the output standing there. */
  lemma {:induction false} MatchesStanding(ns: seq<Item>, hs: seq<string>, name: string)
    requires |ns| == |hs| && forall i | 0 <= i < |ns| :: ns[i].name == hs[i]
    ensures Matches(ns, name) == [] <==> Standing(hs, name).None?
    ensures Matches(ns, name) != [] ==> Matches(ns, name)[0] == ns[Standing(hs, name).value].expr
  {
    if ns != [] { MatchesStanding(ns[1..], hs[1..], name); }
  }

  lemma OrderItemMeans(x: Engine, c: Context, projection: seq<Syntax>, ns: seq<Item>, e: Syntax)
    requires ItemsRender(x, c, ns, Outputs(c, projection), Headings(c, projection)) && BindOrderItem(c, ns, e).Ok?
    ensures Renders(x, c, BindOrderItem(c, ns, e).value, Ordered(c, projection, e))
  {
    hide Renders, Bind, Matches, Outputs, Headings;
    if e.Identifier? { MatchesStanding(ns, Headings(c, projection), e.name); }
    if Bind(c, e, 0, true, true).Ok? { WrittenRenders(x, c, e, 0); }
  }

  lemma {:induction false} OrderByMeans(x: Engine, c: Context, projection: seq<Syntax>, ns: seq<Item>,
                                        os: seq<SyntaxOrder>)
    requires ItemsRender(x, c, ns, Outputs(c, projection), Headings(c, projection)) && BindOrderBy(c, ns, os).Ok?
    ensures var ks := BindOrderBy(c, ns, os).value;
      && |ks| == |os| && Directions(ks) == Ways(os)
      && forall i | 0 <= i < |os| :: Renders(x, c, ks[i].expr, Ordered(c, projection, os[i].expr))
  {
    hide Renders, BindOrderItem, ItemsRender, Ordered;
    if os != [] {
      OrderItemMeans(x, c, projection, ns, os[0].expr);
      OrderByMeans(x, c, projection, ns, os[1..]);
      var ks, rest := BindOrderBy(c, ns, os).value, BindOrderBy(c, ns, os[1..]).value;
      forall i | 0 <= i < |os|
        ensures Renders(x, c, ks[i].expr, Ordered(c, projection, os[i].expr)) && Directions(ks)[i] == Ways(os)[i]
      {
        if i > 0 {
          assert ks[i] == rest[i - 1] && os[i] == os[1..][i - 1] && Directions(rest)[i - 1] == Ways(os[1..])[i - 1];
        }
      }
    }
  }

  // ---------- the phases of a query ----------

  ghost predicate AllRender(x: Engine, c: Context, es: seq<Expr>, os: seq<Output>) {
    |es| == |os| && forall i | 0 <= i < |es| :: Renders(x, c, es[i], os[i])
  }

  lemma RenderedTable(x: Engine, c: Context, es: seq<Expr>, os: seq<Output>, us: seq<Unit>)
    requires AllRender(x, c, es, os)
    ensures Evaluated(x, es, us) == Shown(x, c, os, us)
  {
    hide Eval, OutputSays, ContainsAggregate, OutputAggregates;
    forall j: nat | j < |us| ensures Evaluated(x, es, us)[j] == Shown(x, c, os, us)[j] {
      forall i | 0 <= i < |es|
        ensures Eval(x, es[i], us[j], WindowsAt(x, us, j)) == OutputSays(x, c, os[i], us, j)
      {
        assert Renders(x, c, es[i], os[i]) && RendersAt(x, c, es[i], os[i], us, j);
      }
    }
  }

  lemma RenderedAggregates(x: Engine, c: Context, es: seq<Expr>, os: seq<Output>)
    requires AllRender(x, c, es, os)
    ensures AnyAggregate(es) <==> exists i | 0 <= i < |os| :: OutputAggregates(os[i])
  {
    hide ContainsAggregate, OutputAggregates, RendersAt;
    if i :| 0 <= i < |es| && ContainsAggregate(es[i]) { assert Renders(x, c, es[i], os[i]); }
    if i :| 0 <= i < |os| && OutputAggregates(os[i]) { assert Renders(x, c, es[i], os[i]); }
  }

  lemma SourceMeans(x: Engine, c: Context, s: SelectSyntax, q: Query, base: seq<Row>)
    requires BindFilter(c, s.filter, 0, false) == Ok(q.filter)
    ensures SourceRows(x, q, base) == RowsHolding(x, c, s.filter, base)
  {
    hide Passes, Holds, Trues;
    forall i | 0 <= i < |base|
      ensures Passes(x, q.filter, Unit(base[i], []), NoWindows()) == Holds(x, c, s.filter, Alone(base[i]), 0)
    {
      FilterMeans(x, c, s.filter, 0, false, Alone(base[i]), 0, NoWindows());
    }
    assert Flags(x, q.filter, Singles(base))
        == seq(|base|, j requires 0 <= j < |base| => Holds(x, c, s.filter, Alone(base[j]), 0));
  }

  lemma UnitsMean(x: Engine, c: Context, s: SelectSyntax, q: Query, rows: seq<Row>)
    requires BindList(c, s.groupBy, 0, false, false) == Ok(q.groupBy) && q.isAggregate == Grouped(c, s)
    ensures Units(x, q, rows) == UnitsOf(x, c, s, rows)
  {
    hide Eval, Says, Partition, GroupUnit, Grouped;
    forall i | 0 <= i < |rows|
      ensures |q.groupBy| == |s.groupBy|
      ensures Keys(x, q.groupBy, rows)[i] == GroupKeys(x, c, s.groupBy, rows)[i]
    {
      ListMeans(x, c, s.groupBy, 0, false, false, Alone(rows[i]), 0, NoWindows());
      forall k | 0 <= k < |s.groupBy|
        ensures Eval(x, q.groupBy[k], Unit(rows[i], []), NoWindows()) == Says(x, c, s.groupBy[k], Alone(rows[i]), 0)
      {
        assert Meets(x, q.groupBy[k], c, s.groupBy[k], Alone(rows[i]), 0, NoWindows());
      }
    }
    ListLength(c, s.groupBy);
    assert Keys(x, q.groupBy, rows) == GroupKeys(x, c, s.groupBy, rows);
  }

  lemma {:induction false} ListLength(c: Context, es: seq<Syntax>)
    requires BindList(c, es, 0, false, false).Ok?
    ensures |BindList(c, es, 0, false, false).value| == |es|
  {
    if es != [] { ListLength(c, es[1..]); }
  }

  lemma HavingMeans(x: Engine, c: Context, s: SelectSyntax, q: Query, us: seq<Unit>)
    requires BindFilter(c, s.having, 0, true) == Ok(q.having)
    ensures Having(x, q, us) == Holding(x, c, s.having, us)
  {
    hide Passes, Holds, Trues;
    forall j: nat | j < |us| ensures Passes(x, q.having, us[j], NoWindows()) == Holds(x, c, s.having, us, j) {
      FilterMeans(x, c, s.having, 0, true, us, j, NoWindows());
    }
    assert Flags(x, q.having, us) == seq(|us|, j requires 0 <= j < |us| => Holds(x, c, s.having, us, j));
  }

  lemma FlagMeans(x: Engine, c: Context, s: SelectSyntax, q: Query)
    requires AllRender(x, c, q.projection, Outputs(c, s.projection)) &&
               AllRender(x, c, OrderExprs(q.order), OrderOutputs(c, s))
    requires (q.groupBy == [] <==> s.groupBy == []) && q.having.Some? == s.having.Some?
    ensures BinderFlag(q) <==> Grouped(c, s)
  {
    hide ContainsAggregate, OutputAggregates, Renders, Outputs, OrderOutputs;
    RenderedAggregates(x, c, q.projection, Outputs(c, s.projection));
    RenderedAggregates(x, c, OrderExprs(q.order), OrderOutputs(c, s));
  }

  /** The parts of a query that binds. */
  lemma SelectParts(x: Engine, c: Context, s: SelectSyntax)
    requires BindParts(c, s).Ok?
    ensures var q := BindParts(c, s).value;
      && AllRender(x, c, q.projection, Outputs(c, s.projection)) &&
           AllRender(x, c, OrderExprs(q.order), OrderOutputs(c, s))
      && Directions(q.order) == Ways(s.order) && q.isAggregate == Grouped(c, s)
      && BindFilter(c, s.filter, 0, false) == Ok(q.filter) && BindList(c, s.groupBy, 0, false, false) == Ok(q.groupBy)
      && BindFilter(c, s.having, 0, true) == Ok(q.having)
  {
    hide BindProjection, BindFilter, BindList, BindOrderBy, BinderFlag, Grouped, Renders, Outputs, Headings, Ordered;
    var q, ns := BindParts(c, s).value, BindProjection(c, s.projection).value;
    ProjectionMeans(x, c, s.projection);
    OrderByMeans(x, c, s.projection, ns, s.order);
    ListLength(c, s.groupBy);
    FilterKept(c, s.having, 0, true);
    FlagMeans(x, c, s, q.(isAggregate := false));
    SameFlag(q);
  }

  lemma SameFlag(q: Query)
    ensures BinderFlag(q.(isAggregate := false)) == BinderFlag(q)
  {
  }

  lemma FilterKept(c: Context, f: Option<Syntax>, depth: nat, a: bool)
    requires BindFilter(c, f, depth, a).Ok?
    ensures BindFilter(c, f, depth, a).value.Some? == f.Some?
  {
  }

  /** Whenever a query binds, the bound query returns exactly the rows that were asked for:
      for every engine and every table. */
  lemma BindSelectMeans(x: Engine, c: Context, s: SelectSyntax, base: seq<Row>)
    requires BindSelect(c, s).Ok?
    ensures Meaning(x, BindSelect(c, s).value, base) == SelectSays(x, c, s, base)
  {
    hide BindParts, AllGrouped, AllRender, Evaluated, Shown, SourceRows, RowsHolding, Units, UnitsOf, Having, Holding;
    hide Outputs, OrderOutputs, Directions, Ways, Grouped, BindFilter, BindList;
    var q := BindSelect(c, s).value;
    SelectParts(x, c, s);
    var rows := RowsHolding(x, c, s.filter, base);
    SourceMeans(x, c, s, q, base);
    UnitsMean(x, c, s, q, rows);
    HavingMeans(x, c, s, q, UnitsOf(x, c, s, rows));
    var us := Holding(x, c, s.having, UnitsOf(x, c, s, rows));
    RenderedTable(x, c, q.projection, Outputs(c, s.projection), us);
    RenderedTable(x, c, OrderExprs(q.order), OrderOutputs(c, s), us);
    assert |q.order| == |s.order|;
  }
}
