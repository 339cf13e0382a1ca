/** Plans compute what queries mean. */
module PlanCorrect {
  import opened Options
  import opened Bound
  import opened BoundMeaning
  import opened Planner
  import opened SelectPlan
  import opened PlanMeaning
  import opened PlanResolve

  // ---------- phases, row by row ----------

  /** Each output row agrees with its unit. */
  predicate Related(x: Engine, l: Lower, os: seq<OutRow>, us: seq<Unit>) {
    |os| == |us| && forall j | 0 <= j < |us| :: Agree(x, l, os[j], us[j], NoWindows())
  }

  lemma FilterRelated(x: Engine, l: Lower, p: Option<Expr>, os: seq<OutRow>, us: seq<Unit>)
    requires Related(x, l, os, us) && LowerPredicate(l, p).Ok?
    ensures DfFlags(x, LowerPredicate(l, p).value, os) == Flags(x, ResolveOption(l, p), us)
    ensures var kept := Trues(Flags(x, ResolveOption(l, p), us)); Related(x, l, Pick(os, kept), Pick(us, kept))
  {
    hide Agree, LowerPredicate, ResolveOption, DfPasses, Passes;
    var r := ResolveOption(l, p);
    forall j | 0 <= j < |us|
      ensures DfPasses(x, LowerPredicate(l, p).value, os[j]) == Passes(x, r, us[j], NoWindows())
    {
      PredicateComputes(x, l, p, os[j], us[j], NoWindows());
    }
    assert DfFlags(x, LowerPredicate(l, p).value, os) == Flags(x, r, us);
    var kept := Trues(Flags(x, r, us));
    forall j | 0 <= j < |kept| ensures Agree(x, l, Pick(os, kept)[j], Pick(us, kept)[j], NoWindows()) {
      assert Agree(x, l, os[kept[j]], us[kept[j]], NoWindows());
    }
  }

  lemma {:induction false} TruesOfAll(n: nat)
    ensures Trues(seq(n, _ => true)) == All(n)
  {
    if n > 0 {
      TruesOfAll(n - 1);
      assert seq(n, _ => true)[..n - 1] == seq(n - 1, _ => true);
      assert All(n) == All(n - 1) + [n - 1];
    }
  }

  lemma NoFilter(x: Engine, us: seq<Unit>)
    ensures Pick(us, Trues(Flags(x, None, us))) == us
  {
    TruesOfAll(|us|);
    assert Flags(x, None, us) == seq(|us|, _ => true);
  }

  /** WHERE or HAVING as a plan node. */
  lemma FilterNode(x: Engine, l: Lower, p: Option<Expr>, input: LogicalPlan, base: seq<Row>, us: seq<Unit>)
    requires Related(x, l, Run(x, input, base), us) && LowerPredicate(l, p).Ok?
    ensures var plan := Filtered(LowerPredicate(l, p), input);
      plan.Ok? && Related(x, l, Run(x, plan.value, base), Pick(us, Trues(Flags(x, ResolveOption(l, p), us))))
  {
    hide Agree, Related, Passes, DfPasses, Resolve;
    FilterRelated(x, l, p, Run(x, input, base), us);
    if p.None? { NoFilter(x, us); }
  }

  /** Rows as read: the scan's rows, and the units of the rows themselves. */
  predicate Scanned(os: seq<OutRow>, rows: seq<Row>) {
    |os| == |rows| && forall i | 0 <= i < |rows| :: os[i].row == rows[i]
  }

  lemma ScanRelated(x: Engine, s: Schema, base: seq<Row>)
    ensures Related(x, Raw(s), Run(x, Scan, base), Singles(base))
  {
  }

  lemma RawScanned(x: Engine, s: Schema, os: seq<OutRow>, rows: seq<Row>)
    ensures Related(x, Raw(s), os, Singles(rows)) <==> Scanned(os, rows)
  {
    if Related(x, Raw(s), os, Singles(rows)) {
      forall i | 0 <= i < |rows|
        ensures os[i].row == rows[i]
      {
        assert Agree(x, Raw(s), os[i], Singles(rows)[i], NoWindows());
      }
    }
  }

  // ---------- aggregates ----------

  lemma {:induction false} CountOnes(vs: seq<Value>)
    requires forall i | 0 <= i < |vs| :: vs[i] != NullValue
    ensures CountOf(false, vs) == |vs|
  {
    if vs != [] { CountOnes(vs[..|vs| - 1]); }
  }

  /** What the engine returns for an aggregate over the rows of a group. */
  function RawAggregate(x: Engine, e: Expr, ms: seq<Row>): (v: Value)
    requires e.kind.Aggregate?
  {
    var kept := Trues(Flags(x, e.kind.filter, Singles(ms)));
    var rows := Pick(Keys(x, e.kind.args, ms), kept);
    if e.kind.fn == Count && e.kind.args == [] then Integer(|rows|)
    else AggregateValue(x, e.kind.fn, e.kind.distinct, rows)
  }

  lemma AggregateMeaning(x: Engine, e: Expr, u: Unit)
    requires e.kind.Aggregate?
    ensures Eval(x, e, u, NoWindows()) == Conform(x, e, RawAggregate(x, e, u.members))
  {
    var ms := u.members;
    assert seq(|ms|, i requires 0 <= i < |ms| => Passes(x, e.kind.filter, Unit(ms[i], []), NoWindows())) ==
        Flags(x, e.kind.filter, Singles(ms));
    assert seq(|ms|, i requires 0 <= i < |ms| => EvalAll(x, e.kind.args, Unit(ms[i], []), NoWindows())) ==
        Keys(x, e.kind.args, ms);
  }

  /** A list of raw expressions, row by row. */
  lemma TableMeaning(x: Engine, s: Schema, es: seq<Expr>, os: seq<OutRow>, rows: seq<Row>)
    requires Scanned(os, rows) && LowerAll(Raw(s), es).Ok?
    ensures DfTable(x, LowerAll(Raw(s), es).value, os) == Keys(x, es, rows)
  {
    hide LowerAll, ResolveAll, Eval;
    var ds := LowerAll(Raw(s), es).value;
    ResolveRawAll(s, es, None);
    forall i | 0 <= i < |rows| ensures EvalDfs(x, ds, os[i]) == EvalAll(x, es, Unit(rows[i], []), NoWindows()) {
      AllCompute(x, Raw(s), es, os[i], Unit(rows[i], []), NoWindows());
    }
  }

  /** A lowered aggregate call computes the aggregate; COUNT(*) becomes COUNT of a constant. */
  lemma CallMeaning(x: Engine, s: Schema, e: Expr, os: seq<OutRow>, rows: seq<Row>)
    requires Scanned(os, rows) && CallOf(Raw(s), e).Ok? && WellBound(e, s, true, true)
    ensures CallValue(x, CallOf(Raw(s), e).value, os) == RawAggregate(x, e, rows)
  {
    hide LowerAll, LowerPredicate, Eval, WellBound, Scanned, Passes, DfPasses, EvalDf, ResolveOption;
    var c := CallOf(Raw(s), e).value;
    RawScanned(x, s, os, rows);
    FilterRelated(x, Raw(s), e.kind.filter, os, Singles(rows));
    ResolveRawAll(s, [], e.kind.filter);
    var kept := Trues(Flags(x, e.kind.filter, Singles(rows)));
    assert |os| == |rows|;
    if e.kind.fn == Count && e.kind.args == [] {
      StarIsPlain(e, s);
      Ones(x, c.args[0], os, kept);
    } else {
      TableMeaning(x, s, e.kind.args, os, rows);
    }
  }

  lemma StarIsPlain(e: Expr, s: Schema)
    requires WellBound(e, s, true, true) && e.kind.Aggregate? && e.kind.args == []
    ensures !e.kind.distinct
  {
  }

  lemma Ones(x: Engine, one: Df, os: seq<OutRow>, kept: seq<nat>)
    requires one == DfLiteral(Int64Scalar(1), ArrowInt64) && InRange(kept, |os|)
    ensures AggregateValue(x, Count, false, Pick(DfTable(x, [one], os), kept)) == Integer(|kept|)
  {
    var rows := Pick(DfTable(x, [one], os), kept);
    forall i | 0 <= i < |rows| ensures rows[i] != [] && rows[i][0] == Integer(1) {
      assert rows[i] == EvalDfs(x, [one], os[kept[i]]);
      assert rows[i][0] == EvalDf(x, one, os[kept[i]]);
    }
    CountOnes(seq(|rows|, i requires 0 <= i < |rows| => if rows[i] == [] then NullValue else rows[i][0]));
  }

  // ---------- groups ----------

  lemma CellMeaning(x: Engine, e: Expr, name: Name, o: OutRow, raw: Value)
    requires name in o.named && o.named[name] == raw
    ensures EvalDf(x, Cell(x.typeOf, e, name), o) == Conform(x, e, raw)
  {
  }

  predicate Ungrouped(s: Schema, es: seq<Expr>) { forall i | 0 <= i < |es| :: WellBound(es[i], s, false, false) }

  predicate AggregatesOnly(s: Schema, es: seq<Expr>) {
    forall i | 0 <= i < |es| :: es[i].kind.Aggregate? && WellBound(es[i], s, true, true)
  }

  /** The output row of a group agrees with any row whose keys are the group's. */
  lemma GroupAgrees(x: Engine, s: Schema, gs: seq<Expr>, as': seq<Expr>, calls: seq<AggregateCall>, dummy: bool,
                    os: seq<OutRow>, rows: seq<Row>, keys: seq<Value>, row: Row)
    requires Scanned(os, rows) && Ungrouped(s, gs) && AggregatesOnly(s, as')
    requires MapAll(LowerCall(Raw(s)), as') == Ok(calls)
    requires keys == EvalAll(x, gs, Unit(row, []), NoWindows())
    ensures Agree(x, Lower(s, true, GroupMap(gs) + AggregateMap(x.typeOf, as')), GroupRow(x, keys, calls, dummy, os),
                  Unit(row, rows), NoWindows())
  {
    hide WellBound, Eval, CallOf, CallValue, Cell, EvalAll, Scanned;
    var o, u := GroupRow(x, keys, calls, dummy, os), Unit(row, rows);
    var m := GroupMap(gs) + AggregateMap(x.typeOf, as');
    MapExact(LowerCall(Raw(s)), as');
    forall i | 0 <= i < |m| ensures EvalDf(x, m[i].1, o) == Eval(x, m[i].0, u, NoWindows()) {
      if i < |gs| {
        MembersIrrelevant(x, gs[i], s, row, [], rows, NoWindows());
        GroupCell(x, keys, calls, dummy, os, i);
        assert keys[i] == Eval(x, gs[i], Unit(row, []), NoWindows());
      } else {
        var k := i - |gs|;
        assert LowerCall(Raw(s))(as'[k]) == CallOf(Raw(s), as'[k]);
        AggregateCell(x, keys, calls, dummy, os, k);
        CallMeaning(x, s, as'[k], os, rows);
        CellMeaning(x, as'[k], AggName(k), o, RawAggregate(x, as'[k], rows));
        AggregateMeaning(x, as'[k], u);
      }
    }
  }

  lemma GroupCell(x: Engine, keys: seq<Value>, calls: seq<AggregateCall>, dummy: bool, os: seq<OutRow>, i: nat)
    requires i < |keys|
    ensures EvalDf(x, Named(GroupName(i)), GroupRow(x, keys, calls, dummy, os)) == keys[i]
  {
  }

  lemma AggregateCell(x: Engine, keys: seq<Value>, calls: seq<AggregateCall>, dummy: bool, os: seq<OutRow>, k: nat)
    requires k < |calls|
    ensures AggName(k) in GroupRow(x, keys, calls, dummy, os).named
    ensures GroupRow(x, keys, calls, dummy, os).named[AggName(k)] == CallValue(x, calls[k], os)
  {
  }

  lemma PickScanned(os: seq<OutRow>, rows: seq<Row>, p: seq<nat>)
    requires Scanned(os, rows) && InRange(p, |rows|)
    ensures Scanned(Pick(os, p), Pick(rows, p))
  {
  }

  /** The rows of the aggregate node agree with the query's groups. */
  lemma GroupsRelated(x: Engine, s: Schema, q: Query, as': seq<Expr>, groups: seq<Df>, calls: seq<AggregateCall>,
                      dummy: bool,
                      os: seq<OutRow>, rows: seq<Row>)
    requires Scanned(os, rows) && q.isAggregate && Ungrouped(s, q.groupBy) && AggregatesOnly(s, as')
    requires LowerAll(Raw(s), q.groupBy) == Ok(groups) && MapAll(LowerCall(Raw(s)), as') == Ok(calls)
    ensures Related(x, Lower(s, true, GroupMap(q.groupBy) + AggregateMap(x.typeOf, as')),
                    PartRows(x, groups, calls, dummy, os), Units(x, q, rows))
  {
    hide Ungrouped, AggregatesOnly, Scanned, Agree, GroupRow, EvalAll;
    var l := Lower(s, true, GroupMap(q.groupBy) + AggregateMap(x.typeOf, as'));
    var keys := Keys(x, q.groupBy, rows);
    TableMeaning(x, s, q.groupBy, os, rows);
    assert |groups| == |q.groupBy| by { MapExact(Lowering(Raw(s)), q.groupBy); }
    var parts := Partition(keys, q.groupBy == []);
    assert |os| == |rows| by { RawScanned(x, s, os, rows); }
    var outs, us := PartRows(x, groups, calls, dummy, os), Units(x, q, rows);
    forall g | 0 <= g < |parts| ensures Agree(x, l, outs[g], us[g], NoWindows()) {
      var part := parts[g];
      var first := if part == [] then map[] else rows[part[0]];
      var key := if part == [] then [] else keys[part[0]];
      PickScanned(os, rows, part);
      if part == [] {
        NoEmptyGroup(keys, g, q.groupBy == []); assert EvalAll(x, [], Unit(first, []), NoWindows()) == [];
      }
      GroupAgrees(x, s, q.groupBy, as', calls, dummy, Pick(os, part), Pick(rows, part), key, first);
      assert us[g] == Unit(first, Pick(rows, part));
    }
  }

  lemma NoEmptyGroup(keys: seq<seq<Value>>, g: nat, global: bool)
    requires g < |Partition(keys, global)| && Partition(keys, global)[g] == []
    ensures global
  {
    if !global && keys != [] { GroupsByKey(keys, g, 0); }
  }

  /** A grouped expression, lowered, computes from the group's output row what the resolved
      expression means on any row of the group. */
  lemma AnyRowOfTheGroup(x: Engine, s: Schema, gs: seq<Expr>, as': seq<Expr>, calls: seq<AggregateCall>, dummy: bool,
                         os: seq<OutRow>, rows: seq<Row>, e: Expr, i: nat, j: nat)
    requires Scanned(os, rows) && Ungrouped(s, gs) && AggregatesOnly(s, as')
    requires MapAll(LowerCall(Raw(s)), as') == Ok(calls)
    requires i < |rows| && j < |rows| && Keys(x, gs, rows)[i] == Keys(x, gs, rows)[j]
    requires LowerExpr(Lower(s, true, GroupMap(gs) + AggregateMap(x.typeOf, as')), e, 1).Ok?
    ensures var l := Lower(s, true, GroupMap(gs) + AggregateMap(x.typeOf, as'));
      EvalDf(x, LowerExpr(l, e, 1).value, GroupRow(x, Keys(x, gs, rows)[j], calls, dummy, os))
      == Eval(x, Resolve(l, e), Unit(rows[i], rows), NoWindows())
  {
    hide Agree, Ungrouped, AggregatesOnly, Scanned, Eval, EvalDf, LowerExpr, GroupRow, EvalAll, Resolve;
    var l := Lower(s, true, GroupMap(gs) + AggregateMap(x.typeOf, as'));
    var keys := Keys(x, gs, rows);
    assert keys[i] == EvalAll(x, gs, Unit(rows[i], []), NoWindows());
    GroupAgrees(x, s, gs, as', calls, dummy, os, rows, keys[j], rows[i]);
    LowerComputes(x, l, e, 1, GroupRow(x, keys[j], calls, dummy, os), Unit(rows[i], rows), NoWindows());
  }
}
