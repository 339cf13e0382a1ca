/** What lowered expressions compute. */
module PlanResolve {
  import opened Options
  import opened Bound
  import opened BoundMeaning
  import opened Planner
  import opened PlanMeaning

  /** The output row holds, for every mapped expression, that expression's value. */
  predicate Agree(x: Engine, l: Lower, o: OutRow, u: Unit, win: Expr -> Value) {
    && (!l.grouped ==> o.row == u.row)
    && forall i | 0 <= i < |l.mapped| :: EvalDf(x, l.mapped[i].1, o) == Eval(x, l.mapped[i].0, u, win)
  }

  /** The mapped expression that `Find` stops at. */
  function FindKey(mapped: seq<(Expr, Df)>, e: Expr): (k: Expr)
    requires Find(mapped, e).Some?
    ensures Same(k, e) && exists i | 0 <= i < |mapped| :: mapped[i] == (k, Find(mapped, e).value)
  {
    if Same(mapped[0].0, e) then mapped[0].0 else FindKey(mapped[1..], e)
  }

  /** The expression with every part that lowering looks up replaced by what it finds. */
  function Resolve(l: Lower, e: Expr): (r: Expr) {
    if Find(l.mapped, e).Some? then FindKey(l.mapped, e)
    else e.(kind :=
      match e.kind
      case Unary(op, a) => Unary(op, Resolve(l, a))
      case Binary(op, a, b) => Binary(op, Resolve(l, a), Resolve(l, b))
      case Cast(a) => Cast(Resolve(l, a))
      case IsNull(a, negated) => IsNull(Resolve(l, a), negated)
      case _ => e.kind)
  }

  function ResolveAll(l: Lower, es: seq<Expr>): (rs: seq<Expr>)
    ensures |rs| == |es| && forall i | 0 <= i < |es| :: rs[i] == Resolve(l, es[i])
  {
    seq(|es|, i requires 0 <= i < |es| => Resolve(l, es[i]))
  }

  function ResolveOption(l: Lower, p: Option<Expr>): (r: Option<Expr>) {
    if p.Some? then Some(Resolve(l, p.value)) else None
  }

  function ResolveOrder(l: Lower, os: seq<OrderKey>): (rs: seq<OrderKey>)
    ensures |rs| == |os| && forall i | 0 <= i < |os| :: rs[i] == os[i].(expr := Resolve(l, os[i].expr))
  {
    seq(|os|, i requires 0 <= i < |os| => os[i].(expr := Resolve(l, os[i].expr)))
  }

  /** Resolving changes at most the signs of zero literals. */
  lemma {:induction false} ResolveSame(l: Lower, e: Expr)
    ensures Same(Resolve(l, e), e)
    decreases e
  {
    hide Find, FindKey;
    match e.kind
    case Unary(_, a) => ResolveSame(l, a);
    case Binary(_, a, b) => ResolveSame(l, a); ResolveSame(l, b);
    case Cast(a) => ResolveSame(l, a);
    case IsNull(a, _) => ResolveSame(l, a);
    case _ =>
  }

  /** Nothing is looked up before grouping. */
  lemma {:induction false} ResolveRaw(s: Schema, e: Expr)
    ensures Resolve(Raw(s), e) == e
    decreases e
  {
    match e.kind
    case Unary(_, a) => ResolveRaw(s, a);
    case Binary(_, a, b) => ResolveRaw(s, a); ResolveRaw(s, b);
    case Cast(a) => ResolveRaw(s, a);
    case IsNull(a, _) => ResolveRaw(s, a);
    case _ =>
  }

  lemma ResolveRawAll(s: Schema, es: seq<Expr>, p: Option<Expr>)
    ensures ResolveAll(Raw(s), es) == es && ResolveOption(Raw(s), p) == p
  {
    hide Resolve;
    forall i | 0 <= i < |es| ensures Resolve(Raw(s), es[i]) == es[i] { ResolveRaw(s, es[i]); }
    if p.Some? { ResolveRaw(s, p.value); }
  }

  predicate PlainAll(es: seq<Expr>) { forall i | 0 <= i < |es| :: Plain(es[i]) }

  predicate PlainKeys(l: Lower) { forall i | 0 <= i < |l.mapped| :: Plain(l.mapped[i].0) }

  /** With keys and expression free of negative zeros it changes nothing. */
  lemma {:induction false} ResolvePlain(l: Lower, e: Expr)
    requires Plain(e) && PlainKeys(l)
    ensures Resolve(l, e) == e
    decreases e
  {
    hide Plain, Find, FindKey;
    PlainChildren(e);
    if Find(l.mapped, e).Some? {
      PlainKey(l, e);
    } else {
      match e.kind
      case Unary(_, a) => assert Plain(Children(e)[0]); ResolvePlain(l, a);
      case Binary(_, a, b) =>
        assert Plain(Children(e)[0]) && Plain(Children(e)[1]);
        ResolvePlain(l, a);
        ResolvePlain(l, b);
      case Cast(a) => assert Plain(Children(e)[0]); ResolvePlain(l, a);
      case IsNull(a, _) => assert Plain(Children(e)[0]); ResolvePlain(l, a);
      case _ =>
    }
  }

  lemma PlainKey(l: Lower, e: Expr)
    requires Find(l.mapped, e).Some? && Plain(e) && PlainKeys(l)
    ensures FindKey(l.mapped, e) == e
  {
    hide Norm, FindKey;
    var k := FindKey(l.mapped, e);
    var i :| 0 <= i < |l.mapped| && l.mapped[i] == (k, Find(l.mapped, e).value);
    assert Plain(l.mapped[i].0);
  }

  // ---------- lowering computes the resolved expression ----------

  lemma FoundMeaning(x: Engine, l: Lower, e: Expr, o: OutRow, u: Unit, win: Expr -> Value)
    requires Find(l.mapped, e).Some? && Agree(x, l, o, u, win)
    ensures EvalDf(x, Find(l.mapped, e).value, o) == Eval(x, FindKey(l.mapped, e), u, win)
  {
    hide EvalDf, Eval, Find, FindKey;
    var i :| 0 <= i < |l.mapped| && l.mapped[i] == (FindKey(l.mapped, e), Find(l.mapped, e).value);
  }

  lemma RawRow(x: Engine, l: Lower, o: OutRow, u: Unit, win: Expr -> Value)
    requires Agree(x, l, o, u, win) && !l.grouped
    ensures o.row == u.row
  {
  }

  /** A lowered expression computes from the output row what the resolved one means. */
  lemma {:induction false} LowerComputes(x: Engine, l: Lower, e: Expr, n: nat, o: OutRow, u: Unit, win: Expr -> Value)
    requires LowerExpr(l, e, n).Ok? && Agree(x, l, o, u, win)
    ensures EvalDf(x, LowerExpr(l, e, n).value, o) == Eval(x, Resolve(l, e), u, win)
    decreases e
  {
    hide Find, FindKey, Agree, KleeneNot, EvalAll, Passes;
    if Find(l.mapped, e).Some? {
      FoundMeaning(x, l, e, o, u, win);
    } else {
      match e.kind
      case Literal(_) =>
      case ColumnRef(_) => RawRow(x, l, o, u, win);
      case Unary(_, _) => UnaryComputes(x, l, e, n, o, u, win);
      case Binary(_, _, _) => BinaryComputes(x, l, e, n, o, u, win);
      case Cast(a) => LowerComputes(x, l, a, n + 1, o, u, win);
      case IsNull(a, _) => LowerComputes(x, l, a, n + 1, o, u, win);
    }
  }

  lemma {:induction false} UnaryComputes(x: Engine, l: Lower, e: Expr, n: nat, o: OutRow, u: Unit, win: Expr -> Value)
    requires LowerExpr(l, e, n).Ok? && Agree(x, l, o, u, win) && Find(l.mapped, e).None? && e.kind.Unary?
    ensures EvalDf(x, LowerExpr(l, e, n).value, o) == Eval(x, Resolve(l, e), u, win)
    decreases e, 0
  {
    hide Find, FindKey, Agree, KleeneNot, EvalAll, Passes;
    LowerComputes(x, l, e.kind.operand, n + 1, o, u, win);
  }

  lemma {:induction false} BinaryComputes(x: Engine, l: Lower, e: Expr, n: nat, o: OutRow, u: Unit, win: Expr -> Value)
    requires LowerExpr(l, e, n).Ok? && Agree(x, l, o, u, win) && Find(l.mapped, e).None? && e.kind.Binary?
    ensures EvalDf(x, LowerExpr(l, e, n).value, o) == Eval(x, Resolve(l, e), u, win)
    decreases e, 0
  {
    hide Find, FindKey, Agree, BinaryValue, EvalAll, Passes;
    LowerComputes(x, l, e.kind.left, n + 1, o, u, win);
    LowerComputes(x, l, e.kind.right, n + 1, o, u, win);
  }

  lemma AllCompute(x: Engine, l: Lower, es: seq<Expr>, o: OutRow, u: Unit, win: Expr -> Value)
    requires LowerAll(l, es).Ok? && Agree(x, l, o, u, win)
    ensures EvalDfs(x, LowerAll(l, es).value, o) == EvalAll(x, ResolveAll(l, es), u, win)
  {
    hide Agree, LowerExpr, Eval, EvalDf, Resolve;
    MapExact(Lowering(l), es);
    forall i | 0 <= i < |es| ensures EvalDf(x, LowerAll(l, es).value[i], o) == Eval(x, Resolve(l, es[i]), u, win) {
      assert Lowering(l)(es[i]).Ok?;
      LowerComputes(x, l, es[i], 1, o, u, win);
    }
  }

  lemma PredicateComputes(x: Engine, l: Lower, p: Option<Expr>, o: OutRow, u: Unit, win: Expr -> Value)
    requires LowerPredicate(l, p).Ok? && Agree(x, l, o, u, win)
    ensures DfPasses(x, LowerPredicate(l, p).value, o) == Passes(x, ResolveOption(l, p), u, win)
  {
    hide Agree, LowerExpr, Eval, EvalDf, Resolve;
    if p.Some? { LowerComputes(x, l, p.value, 1, o, u, win); }
  }

  lemma OrderComputes(x: Engine, l: Lower, os: seq<OrderKey>, o: OutRow, u: Unit, win: Expr -> Value)
    requires LowerOrder(l, os).Ok? && Agree(x, l, o, u, win)
    ensures EvalDfs(x, SortExprs(LowerOrder(l, os).value), o) == EvalAll(x, OrderExprs(ResolveOrder(l, os)), u, win)
    ensures SortDirections(LowerOrder(l, os).value) == Directions(ResolveOrder(l, os))
  {
    hide Agree, LowerExpr, Eval, EvalDf, Resolve;
    MapExact(LowerKey(l), os);
    var ks := LowerOrder(l, os).value;
    forall i | 0 <= i < |os|
      ensures EvalDf(x, ks[i].e, o) == Eval(x, Resolve(l, os[i].expr), u, win)
      ensures ks[i].ascending == os[i].ascending && ks[i].nullsFirst == os[i].nullsFirst
    {
      assert LowerKey(l)(os[i]) == KeyOf(l, os[i]);
      LowerComputes(x, l, os[i].expr, 1, o, u, win);
    }
  }

  // ---------- resolving a whole query ----------

  /** A window with its operands resolved. */
  function Inside(l: Lower, w: Expr): (r: Expr)
    requires w.kind.Window?
    ensures r.kind.Window?
  {
    w.(kind := w.kind.(operands := ResolveAll(l, w.kind.operands), where := ResolveOption(l, w.kind.where),
                       partition := ResolveAll(l, w.kind.partition), order := ResolveOrder(l, w.kind.order)))
  }

  /** The expression with the operands of its windows resolved. */
  function Deep(l: Lower, e: Expr): (r: Expr) {
    match e.kind
    case Unary(op, a) => e.(kind := Unary(op, Deep(l, a)))
    case Binary(op, a, b) => e.(kind := Binary(op, Deep(l, a), Deep(l, b)))
    case Cast(a) => e.(kind := Cast(Deep(l, a)))
    case IsNull(a, negated) => e.(kind := IsNull(Deep(l, a), negated))
    case Window(_, _, _, _, _, _, _) => Inside(l, e)
    case _ => e
  }

  /** The windows of resolved expressions: found as they are, with operands resolved before. */
  function WindowsVia(x: Engine, l: Lower, us: seq<Unit>, j: nat): (win: Expr -> Value) {
    (e: Expr) => if e.kind.Window? then Conform(x, e, RawWindow(x, Inside(l, e), us, j)) else NullValue
  }

  lemma ResolveType(l: Lower, e: Expr)
    ensures Resolve(l, e).dataType == e.dataType
  {
    hide Find, FindKey;
    if Find(l.mapped, e).Some? { SameType(FindKey(l.mapped, e), e); }
  }

  lemma SameType(a: Expr, b: Expr)
    requires Same(a, b)
    ensures a.dataType == b.dataType
  {
  }

  /** Resolved operands have the same types, so the engine's result type is the same. */
  lemma InsideType(x: Engine, l: Lower, w: Expr, v: Value)
    requires w.kind.Window?
    ensures Conform(x, Inside(l, w), v) == Conform(x, w, v)
  {
    hide Resolve;
    var es := w.kind.operands;
    forall i | 0 <= i < |es| ensures Resolve(l, es[i]).dataType == es[i].dataType { ResolveType(l, es[i]); }
    assert OperandTypes(ResolveAll(l, es)) == OperandTypes(es);
  }

  /** Windows with resolved operands mean the windows of the deeply resolved expression. */
  lemma {:induction false} DeepMeaning(x: Engine, l: Lower, s: Schema, e: Expr, u: Unit, us: seq<Unit>, j: nat)
    requires WellBound(e, s, true, true)
    ensures Eval(x, e, u, WindowsVia(x, l, us, j)) == Eval(x, Deep(l, e), u, WindowsAt(x, us, j))
    decreases e
  {
    hide Inside, RawWindow, Conform, EvalAll, Passes;
    match e.kind
    case Literal(_) =>
    case ColumnRef(_) =>
    case Unary(_, a) => DeepMeaning(x, l, s, a, u, us, j);
    case Binary(_, a, b) =>
      DeepMeaning(x, l, s, a, u, us, j);
      DeepMeaning(x, l, s, b, u, us, j);
    case Cast(a) => DeepMeaning(x, l, s, a, u, us, j);
    case IsNull(a, _) => DeepMeaning(x, l, s, a, u, us, j);
    case Aggregate(_, _, _, _) => WindowsIrrelevant(x, e, s, true, u, WindowsVia(x, l, us, j), WindowsAt(x, us, j));
    case Window(_, _, _, _, _, _, _) => InsideType(x, l, e, RawWindow(x, Inside(l, e), us, j));
  }

  /** Where every window is kept, so is the expression. */
  lemma {:induction false} DeepPlain(l: Lower, e: Expr)
    requires Plain(e) && PlainKeys(l)
    ensures Deep(l, e) == e
    decreases e
  {
    hide Plain, PlainKeys, Resolve;
    PlainChildren(e);
    match e.kind
    case Unary(_, a) => assert Plain(Children(e)[0]); DeepPlain(l, a);
    case Binary(_, a, b) =>
      assert Plain(Children(e)[0]) && Plain(Children(e)[1]);
      DeepPlain(l, a);
      DeepPlain(l, b);
    case Cast(a) => assert Plain(Children(e)[0]); DeepPlain(l, a);
    case IsNull(a, _) => assert Plain(Children(e)[0]); DeepPlain(l, a);
    case Window(_, _, _, _, _, _, _) => InsidePlain(l, e);
    case _ =>
  }

  lemma InsidePlain(l: Lower, w: Expr)
    requires w.kind.Window? && PlainKeys(l) && forall i | 0 <= i < |Children(w)| :: Plain(Children(w)[i])
    ensures Inside(l, w) == w
  {
    hide Plain, PlainKeys, Resolve;
    var k, cs := w.kind, Children(w);
    var a, f, p, o := k.operands, Optional(k.where), k.partition, OrderExprs(k.order);
    forall i | 0 <= i < |a| ensures Resolve(l, a[i]) == a[i] { assert cs[i] == a[i]; ResolvePlain(l, a[i]); }
    forall i | 0 <= i < |f| ensures Resolve(l, f[i]) == f[i] { assert cs[|a| + i] == f[i]; ResolvePlain(l, f[i]); }
    forall i | 0 <= i < |p|
      ensures Resolve(l, p[i]) == p[i]
    {
      assert cs[|a| + |f| + i] == p[i];
      ResolvePlain(l, p[i]);
    }
    forall i | 0 <= i < |o|
      ensures Resolve(l, o[i]) == o[i]
    {
      assert cs[|a| + |f| + |p| + i] == o[i];
      ResolvePlain(l, o[i]);
    }
    assert ResolveAll(l, a) == a && ResolveAll(l, p) == p && ResolveOrder(l, k.order) == k.order;
    assert k.where.Some? ==> f[0] == k.where.value;
    assert ResolveOption(l, k.where) == k.where;
  }
}
