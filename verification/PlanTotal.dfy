/** Every query the binder accepts, within the depth limit, has a plan. */
module PlanTotal {
  import opened Options
  import opened Sql
  import opened Bound
  import opened BoundMeaning
  import opened Planner
  import opened GroupCheck

  /** Everything the expression needs is mapped or a known column. */
  predicate Available(l: Lower, e: Expr) {
    Find(l.mapped, e).Some? ||
    match e.kind
    case Literal(_) => true
    case ColumnRef(b) => !l.grouped && b in l.schema && l.schema[b] == ArrowType(e.dataType)
    case Unary(_, a) => Available(l, a)
    case Binary(_, a, b) => Available(l, a) && Available(l, b)
    case Cast(a) => Available(l, a)
    case IsNull(a, _) => Available(l, a)
    case Aggregate(_, _, _, _) => false
    case Window(_, _, _, _, _, _, _) => false
  }

  /** Lowering within the depth limit fails exactly when something is unavailable. */
  lemma {:induction false} LowerExact(l: Lower, e: Expr, n: nat)
    requires n <= MAX_DEPTH && Fits(e, MAX_DEPTH + 1 - n)
    ensures LowerExpr(l, e, n).Ok? <==> Available(l, e)
    decreases e
  {
    hide Find, Fits;
    match e.kind
    case Unary(_, a) => FitsChild(e, MAX_DEPTH + 1 - n, 0); LowerExact(l, a, n + 1);
    case Binary(_, a, b) =>
      FitsChild(e, MAX_DEPTH + 1 - n, 0);
      FitsChild(e, MAX_DEPTH + 1 - n, 1);
      LowerExact(l, a, n + 1);
      LowerExact(l, b, n + 1);
    case Cast(a) => FitsChild(e, MAX_DEPTH + 1 - n, 0); LowerExact(l, a, n + 1);
    case IsNull(a, _) => FitsChild(e, MAX_DEPTH + 1 - n, 0); LowerExact(l, a, n + 1);
    case _ =>
  }

  predicate AllAvailable(l: Lower, es: seq<Expr>) {
    forall i | 0 <= i < |es| :: Fits(es[i], MAX_DEPTH) && Available(l, es[i])
  }

  lemma LowerAllOk(l: Lower, es: seq<Expr>)
    requires AllAvailable(l, es)
    ensures LowerAll(l, es).Ok?
  {
    hide Available, Fits, LowerExpr;
    MapExact(Lowering(l), es);
    forall i | 0 <= i < |es| ensures Lowering(l)(es[i]).Ok? { LowerExact(l, es[i], 1); }
  }

  lemma LowerPredicateOk(l: Lower, p: Option<Expr>)
    requires AllAvailable(l, Optional(p)) && (p.Some? ==> p.value.dataType == Boolean)
    ensures LowerPredicate(l, p).Ok?
  {
    hide Available, Fits, LowerExpr;
    if p.Some? {
      assert Available(l, Optional(p)[0]);
      LowerExact(l, p.value, 1);
    }
  }

  lemma LowerOrderOk(l: Lower, os: seq<OrderKey>)
    requires AllAvailable(l, OrderExprs(os))
    ensures LowerOrder(l, os).Ok?
  {
    hide Available, Fits, LowerExpr;
    MapExact(LowerKey(l), os);
    forall i | 0 <= i < |os| ensures LowerKey(l)(os[i]).Ok? {
      assert Available(l, OrderExprs(os)[i]);
      LowerExact(l, os[i].expr, 1);
    }
  }

  lemma {:induction false} RawAvailable(e: Expr, s: Schema)
    requires WellBound(e, s, false, false)
    ensures Available(Raw(s), e)
    decreases e
  {
    match e.kind
    case Unary(_, a) => RawAvailable(a, s);
    case Binary(_, a, b) => RawAvailable(a, s); RawAvailable(b, s);
    case Cast(a) => RawAvailable(a, s);
    case IsNull(a, _) => RawAvailable(a, s);
    case _ =>
  }

  // ---------- what grouping and windows make available ----------

  predicate Covers(l: Lower, es: seq<Expr>) { forall i | 0 <= i < |es| :: Find(l.mapped, es[i]).Some? }

  predicate Keyed(l: Lower, g: Expr) { exists k | 0 <= k < |l.mapped| :: l.mapped[k].0 == g }

  predicate CoversGroups(l: Lower, gs: seq<Expr>) { forall i | 0 <= i < |gs| :: Keyed(l, gs[i]) }

  lemma GroupCovered(l: Lower, gs: seq<Expr>, e: Expr)
    requires CoversGroups(l, gs) && Contains(gs, e)
    ensures Find(l.mapped, e).Some?
  {
    hide Norm;
    var i :| 0 <= i < |gs| && Same(gs[i], e);
    assert Keyed(l, gs[i]);
    var k :| 0 <= k < |l.mapped| && l.mapped[k].0 == gs[i];
    assert Same(l.mapped[k].0, e);
  }

  lemma CoversChild(l: Lower, e: Expr, windows: bool, i: nat)
    requires !Wanted(e, windows) && i < |Children(e)| && Covers(l, Outermost(e, windows))
    ensures Covers(l, Outermost(Children(e)[i], windows))
  {
    hide Children, Outermost, Find;
    var inner := Outermost(Children(e)[i], windows);
    forall k | 0 <= k < |inner| ensures Find(l.mapped, inner[k]).Some? {
      assert inner[k] in inner;
      OutermostChild(e, windows, inner[k]);
    }
  }

  /** What the binder validated is available once its aggregates, windows and groups are mapped. */
  lemma {:induction false} ValidatedIsAvailable(l: Lower, e: Expr, gs: seq<Expr>, windows: bool)
    requires WellBound(e, l.schema, true, windows)
    requires Covers(l, Outermost(e, false)) && (windows ==> Covers(l, Outermost(e, true)))
    requires l.grouped ==> ValidGrouped(e, gs) && CoversGroups(l, gs)
    ensures Available(l, e)
    decreases e
  {
    hide Find, Covers, CoversGroups;
    if Find(l.mapped, e).None? {
      if l.grouped && Contains(gs, e) { GroupCovered(l, gs, e); }
      NotCollected(l, e, windows);
      if !e.kind.ColumnRef? {
        forall i | 0 <= i < |Children(e)| ensures Available(l, Children(e)[i]) {
          CoversChild(l, e, false, i);
          if windows { CoversChild(l, e, true, i); }
          assert l.grouped ==> ValidGrouped(VisibleChildren(e)[i], gs);
          ValidatedIsAvailable(l, Children(e)[i], gs, windows);
        }
        assert e.kind.Unary? || e.kind.Binary? || e.kind.Cast? || e.kind.IsNull? ==> Available(l, Children(e)[0]);
        assert e.kind.Binary? ==> Available(l, Children(e)[1]);
      }
    }
  }

  lemma NotCollected(l: Lower, e: Expr, windows: bool)
    requires Covers(l, Outermost(e, false)) && (windows ==> Covers(l, Outermost(e, true))) && Find(l.mapped, e).None?
    requires WellBound(e, l.schema, true, windows)
    ensures !e.kind.Aggregate? && !e.kind.Window?
  {
    hide Find;
    if e.kind.Aggregate? { FirstCovered(l, Outermost(e, false)); }
    if e.kind.Window? { FirstCovered(l, Outermost(e, true)); }
  }

  lemma FirstCovered(l: Lower, es: seq<Expr>)
    requires Covers(l, es) && es != []
    ensures Find(l.mapped, es[0]).Some?
  {
  }

  // ---------- inside windows ----------

  lemma {:induction false} NoWindowInside(e: Expr, s: Schema, aggregates: bool, w: Expr)
    requires WellBound(e, s, aggregates, false)
    ensures w !in Outermost(e, true)
    decreases e
  {
    hide Outermost;
    forall i | 0 <= i < |Children(e)| ensures w !in Outermost(Children(e)[i], true) {
      NoWindowInside(Children(e)[i], s, if e.kind.Aggregate? then false else aggregates, w);
    }
    OutermostChild(e, true, w);
  }

  lemma {:induction false} NormBound(e: Expr, s: Schema, a: bool, w: bool)
    ensures WellBound(Norm(e), s, a, w) <==> WellBound(e, s, a, w)
    decreases e
  {
    match e.kind
    case Literal(_) =>
    case ColumnRef(_) =>
    case Unary(_, x) => NormBound(x, s, a, w);
    case Binary(_, x, y) => NormBound(x, s, a, w); NormBound(y, s, a, w);
    case Cast(x) => NormBound(x, s, a, w);
    case IsNull(x, _) => NormBound(x, s, a, w);
    case Aggregate(_, _, _, _) => NormAggregate(e, s);
    case Window(_, _, _, _, _, _, _) => NormWindow(e, s);
  }

  lemma {:induction false} NormAggregate(e: Expr, s: Schema)
    requires e.kind.Aggregate?
    ensures WellBound(Norm(e), s, true, true) <==> WellBound(e, s, true, true)
    decreases e, 0
  {
    var k := e.kind;
    forall i | 0 <= i < |k.args|
      ensures WellBound(NormAll(k.args)[i], s, false, false) <==> WellBound(k.args[i], s, false, false)
    {
      NormBound(k.args[i], s, false, false);
    }
    if k.filter.Some? { NormBound(k.filter.value, s, false, false); }
  }

  lemma {:induction false} NormWindow(e: Expr, s: Schema)
    requires e.kind.Window?
    ensures WellBound(Norm(e), s, true, true) <==> WellBound(e, s, true, true)
    decreases e, 0
  {
    var k := e.kind;
    forall i | 0 <= i < |k.operands|
      ensures WellBound(NormAll(k.operands)[i], s, true, false) <==> WellBound(k.operands[i], s, true, false)
    {
      NormBound(k.operands[i], s, true, false);
    }
    if k.where.Some? { NormBound(k.where.value, s, true, false); }
    forall i | 0 <= i < |k.partition|
      ensures WellBound(NormAll(k.partition)[i], s, true, false) <==> WellBound(k.partition[i], s, true, false)
    {
      NormBound(k.partition[i], s, true, false);
    }
    forall i | 0 <= i < |k.order|
      ensures WellBound(NormOrder(k.order)[i].expr, s, true, false) <==> WellBound(k.order[i].expr, s, true, false)
    {
      var o := k.order[i];
      NormBound(o.expr, s, true, false);
    }
  }

  lemma GroupsHaveNoWindows(gs: seq<Expr>, s: Schema, e: Expr)
    requires (forall i | 0 <= i < |gs| :: WellBound(gs[i], s, false, false)) && Contains(gs, e)
    ensures WellBound(e, s, false, false)
  {
    hide WellBound, Norm;
    var i :| 0 <= i < |gs| && Same(gs[i], e);
    NormBound(gs[i], s, false, false);
    NormBound(e, s, false, false);
  }

  /** A window of a validated expression has validated operands, whose aggregates are the
      expression's own. */
  lemma {:induction false} InsideWindow(e: Expr, s: Schema, gs: seq<Expr>, w: Expr, i: nat)
    requires WellBound(e, s, true, true) && w in Outermost(e, true) && i < |Children(w)|
    requires forall k | 0 <= k < |gs| :: WellBound(gs[k], s, false, false)
    ensures ValidGrouped(e, gs) ==> ValidGrouped(Children(w)[i], gs)
    ensures forall a | a in Outermost(Children(w)[i], false) :: a in Outermost(e, false)
    decreases e
  {
    hide WellBound, Outermost, Children, Contains;
    if Contains(gs, e) {
      GroupsHaveNoWindows(gs, s, e);
      NoWindowInside(e, s, false, w);
    } else if e.kind.Aggregate? {
      AggregatesHaveNoWindows(e, s);
      NoWindowInside(e, s, true, w);
    } else if e.kind.Window? {
      OnlyItself(e);
      assert ValidGrouped(e, gs) ==> ValidGrouped(VisibleChildren(e)[i], gs);
      forall a | a in Outermost(Children(w)[i], false) ensures a in Outermost(e, false) { OutermostChild(e, false, a); }
    } else {
      OutermostChild(e, true, w);
      var k :| 0 <= k < |Children(e)| && w in Outermost(Children(e)[k], true);
      WellBoundChildren(e, s);
      InsideWindow(Children(e)[k], s, gs, w, i);
      assert ValidGrouped(e, gs) && !e.kind.ColumnRef? ==> ValidGrouped(VisibleChildren(e)[k], gs);
      NotColumn(e, k);
      forall a | a in Outermost(Children(w)[i], false) ensures a in Outermost(e, false) { OutermostChild(e, false, a); }
    }
  }

  lemma AggregatesHaveNoWindows(e: Expr, s: Schema)
    requires e.kind.Aggregate? && WellBound(e, s, true, true)
    ensures WellBound(e, s, true, false)
  {
  }

  lemma OnlyItself(e: Expr)
    requires e.kind.Window?
    ensures Outermost(e, true) == [e]
  {
  }

  lemma NotColumn(e: Expr, k: nat)
    requires k < |Children(e)|
    ensures !e.kind.ColumnRef?
  {
  }
}
