/** Where planning changes the meaning of a query: zero literals of opposite sign. */
module PlanZero {
  import opened Options
  import opened Sql
  import opened Bound
  import opened BoundMeaning
  import opened Planner
  import opened SelectPlan
  import opened GroupCheck
  import opened PlanMeaning
  import opened PlanResolve
  import opened PlanCorrect
  import opened PlanTheorem
  import opened PlanPreserves

  // ---------- a projected zero that resolves to the other sign ----------

  predicate ZeroLiteral(e: Expr) {
    && e.kind.Literal?
    && match e.kind.value
       case Float32Scalar(f) => f.magnitude == 0
       case Float64Scalar(f) => f.magnitude == 0
       case _ => false
  }

  /** A zero literal that is not kept becomes the zero of the other sign. */
  lemma OtherZero(e: Expr, r: Expr)
    requires ZeroLiteral(e) && Same(r, e) && r != e
    ensures r.kind.Literal? && ScalarValue(r.kind.value) != ScalarValue(e.kind.value)
  {
  }

  lemma LiteralColumn(x: Engine, q: Query, base: seq<Row>, j: nat, n: nat)
    requires j < |Meaning(x, q, base)| && n < |q.projection| && q.projection[n].kind.Literal?
    ensures |Meaning(x, q, base)[j]| == |q.projection| &&
              Meaning(x, q, base)[j][n] == ScalarValue(q.projection[n].kind.value)
  {
    hide Units, SourceRows, Having, Order, WindowsAt;
    var us := Having(x, q, Units(x, q, SourceRows(x, q, base)));
    var k := Order(x, q, us)[j];
    assert Meaning(x, q, base)[j] == EvalAll(x, q.projection, us[k], WindowsAt(x, us, k));
  }

  lemma LabelledApart(a: seq<Value>, b: seq<Value>, n: nat)
    requires n < |a| && n < |b| && a[n] != b[n]
    ensures Labelled(a) != Labelled(b)
  {
    assert OutputName(n) in Labelled(a) && Labelled(a)[OutputName(n)] == a[n];
    assert Labelled(b)[OutputName(n)] == b[n];
  }

  /** A projected zero literal that is looked up as the zero of the other sign is never
      delivered, unless there is no row at all. */
  lemma ZeroLost(x: Engine, s: Schema, q: Query, base: seq<Row>, n: nat)
    requires QueryBound(s, q) && PlanOf(x.typeOf, s, q).Ok?
    requires n < |q.projection| && ZeroLiteral(q.projection[n])
    requires Resolve(FinalLower(x.typeOf, s, q), q.projection[n]) != q.projection[n]
    requires Run(x, PlanOf(x.typeOf, s, q).value, base) != []
    ensures !Delivers(Run(x, PlanOf(x.typeOf, s, q).value, base), Meaning(x, q, base))
  {
    hide QueryBound, PlanOf, Run, Meaning, Labelled, GroupedLower, FinalLower, Resolve, Norm;
    var r, e := ResolvedQuery(x.typeOf, s, q), q.projection[n];
    var found := Resolve(FinalLower(x.typeOf, s, q), e);
    PlanComputes(x, s, q, base);
    ResolveSame(FinalLower(x.typeOf, s, q), e);
    OtherZero(e, found);
    assert r.projection[n] == found;
    if Delivers(Run(x, PlanOf(x.typeOf, s, q).value, base), Meaning(x, q, base)) {
      LiteralColumn(x, q, base, 0, n);
      LiteralColumn(x, r, base, 0, n);
      LabelledApart(Meaning(x, q, base)[0], Meaning(x, r, base)[0], n);
    }
  }

  /** Where only projected zero literals are looked up inexactly, and some row comes out, the
      plan delivers the query's rows exactly when every lookup is exact. */
  lemma ZerosDecide(x: Engine, s: Schema, q: Query, base: seq<Row>)
    requires QueryBound(s, q) && PlanOf(x.typeOf, s, q).Ok? && Run(x, PlanOf(x.typeOf, s, q).value, base) != []
    requires var r := ResolvedQuery(x.typeOf, s, q);
      && r.having == q.having && r.order == q.order
      && forall n | 0 <= n < |q.projection| :: ZeroLiteral(q.projection[n]) || r.projection[n] == q.projection[n]
    ensures Delivers(Run(x, PlanOf(x.typeOf, s, q).value, base), Meaning(x, q, base)) <==>
              ResolvedQuery(x.typeOf, s, q) == q
  {
    hide QueryBound, PlanOf, Run, Meaning, Delivers, GroupedLower, FinalLower, Resolve, ZeroLiteral;
    var r, l := ResolvedQuery(x.typeOf, s, q), FinalLower(x.typeOf, s, q);
    if r == q {
      PlanPreservesMeaning(x, s, q, base);
    } else {
      assert r.projection != q.projection;
      var n :| 0 <= n < |q.projection| && r.projection[n] != q.projection[n];
      KeptLiteral(GroupedLower(x.typeOf, s, q), l, q.projection[n]);
      ZeroLost(x, s, q, base, n);
    }
  }

  lemma KeptLiteral(g: Lower, l: Lower, e: Expr)
    requires ZeroLiteral(e)
    ensures Resolve(l, e) == e ==> Settle(g, l, e) == e
  {
    hide Resolve;
  }

  // ---------- one such query ----------

  function Zero(negative: bool): (e: Expr) { Expr(Float64, false, Literal(Float64Scalar(Float(negative, 0)))) }

  /** SELECT 0.0 or -0.0 ... GROUP BY 0.0. */
  function ZeroQuery(negative: bool): (q: Query) { Query([Zero(negative)], None, [Zero(false)], None, [], true) }

  lemma NothingCollected(negative: bool, windows: bool)
    ensures CollectFrom([Zero(negative)], windows) == []
  {
    var z := Zero(negative);
    assert Outermost(z, windows) == [];
    assert [z][..0] == [];
  }

  lemma ZeroPhases(t: TypeOf, negative: bool)
    ensures FinalLower(t, map[], ZeroQuery(negative)) == Lower(map[], true, [(Zero(false), Named(GroupName(0)))])
  {
    hide CollectFrom, Cell;
    var q := ZeroQuery(negative);
    NothingCollected(negative, false);
    NothingCollected(negative, true);
    assert GroupedExprs(q) == [Zero(negative)] && WindowedExprs(q) == [Zero(negative)];
    assert GroupMap([Zero(false)]) + AggregateMap(t, []) == [(Zero(false), Named(GroupName(0)))];
    assert [(Zero(false), Named(GroupName(0)))] + WindowMap(t, []) == [(Zero(false), Named(GroupName(0)))];
  }

  lemma ZeroSame()
    ensures Same(Zero(false), Zero(true))
  {
  }

  lemma ZeroBound(negative: bool)
    ensures QueryBound(map[], ZeroQuery(negative)) && Shallow(AllExprs(ZeroQuery(negative)))
  {
    hide Norm;
    var q, z := ZeroQuery(negative), Zero(negative);
    assert GroupedExprs(q) == [z] && WindowedExprs(q) == [z] && AllExprs(q) == [z, Zero(false)];
    assert Same(q.groupBy[0], z) by { ZeroSame(); }
    assert Contains(q.groupBy, z);
    assert forall i | 0 <= i < 2 :: Fits(AllExprs(q)[i], MAX_DEPTH);
  }

  lemma ZeroResolved(t: TypeOf)
    ensures Resolve(FinalLower(t, map[], ZeroQuery(true)), Zero(true)) == Zero(false)
    ensures ResolvedQuery(t, map[], ZeroQuery(true)) == ZeroQuery(false)
  {
    hide Norm, GroupedLower, FinalLower;
    ZeroPhases(t, true);
    ZeroSame();
    var q := ZeroQuery(true);
    var l := FinalLower(t, map[], q);
    assert Resolve(l, Zero(true)) == Zero(false);
    assert ResolvedQuery(t, map[], q).projection == [Zero(false)];
    assert ResolvedQuery(t, map[], q).order == [];
  }

  lemma ZeroUnits(x: Engine)
    ensures |Meaning(x, ZeroQuery(false), [map[]])| >= 1
  {
    hide Groups, Trues, Eval, GroupUnit, Equals, WindowsAt;
    var q, base: seq<Row> := ZeroQuery(false), [map[]];
    NoFilter(x, Singles(base));
    var rows := SourceRows(x, q, base);
    assert |rows| == |Trues(Flags(x, None, Singles(base)))| == |Singles(base)|;
    var g := EveryRowGrouped(Keys(x, q.groupBy, rows), 0);
    var us := Units(x, q, rows);
    NoFilter(x, us);
    assert Having(x, q, us) == us;
  }

  /** Equality ignores the sign of zero, so on one row the plan of SELECT -0.0 GROUP BY 0.0
      returns positive zero where the query means negative zero. */
  lemma NegativeZeroLost(x: Engine)
    ensures QueryBound(map[], ZeroQuery(true)) && PlanOf(x.typeOf, map[], ZeroQuery(true)).Ok?
    ensures !Delivers(Run(x, PlanOf(x.typeOf, map[], ZeroQuery(true)).value, [map[]]),
              Meaning(x, ZeroQuery(true), [map[]]))
  {
    hide QueryBound, PlanOf, Run, Meaning, Shallow, AllExprs, ResolvedQuery, FinalLower, Resolve;
    ZeroBound(true);
    PlanSucceeds(x.typeOf, map[], ZeroQuery(true));
    ZeroResolved(x.typeOf);
    PlanComputes(x, map[], ZeroQuery(true), [map[]]);
    ZeroUnits(x);
    ZeroLost(x, map[], ZeroQuery(true), [map[]], 0);
  }
}
