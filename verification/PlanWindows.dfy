/** Window nodes compute the query's windows. */
module PlanWindows {
  import opened Options
  import opened Bound
  import opened BoundMeaning
  import opened Planner
  import opened SelectPlan
  import opened PlanMeaning
  import opened PlanResolve
  import opened PlanCorrect

  /** The same row with nothing but window columns added. */
  ghost predicate Extends(o': OutRow, o: OutRow) {
    && o'.row == o.row
    && forall n: Name | !n.WindowName? ::
         (n in o.named <==> n in o'.named) && (n in o.named ==> o'.named[n] == o.named[n])
  }

  /** A generated column other than a window, possibly cast. */
  predicate StableCell(d: Df) {
    || (d.Named? && !d.name.WindowName?)
    || (d.DfCast? && d.e.Named? && !d.e.name.WindowName?)
  }

  predicate StableCells(l: Lower) { forall i | 0 <= i < |l.mapped| :: StableCell(l.mapped[i].1) }

  lemma StableEval(x: Engine, d: Df, o: OutRow, o': OutRow)
    requires StableCell(d) && Extends(o', o)
    ensures EvalDf(x, d, o') == EvalDf(x, d, o)
  {
    var n := if d.Named? then d.name else d.e.name;
    assert EvalDf(x, Named(n), o') == EvalDf(x, Named(n), o);
  }

  lemma AgreeExtends(x: Engine, l: Lower, o: OutRow, o': OutRow, u: Unit)
    requires Agree(x, l, o, u, NoWindows()) && Extends(o', o) && StableCells(l)
    ensures Agree(x, l, o', u, NoWindows())
  {
    hide Eval, EvalDf, Extends, StableCell;
    ExtendsRow(o', o);
    forall i | 0 <= i < |l.mapped| ensures EvalDf(x, l.mapped[i].1, o') == Eval(x, l.mapped[i].0, u, NoWindows()) {
      assert StableCell(l.mapped[i].1);
      StableEval(x, l.mapped[i].1, o, o');
    }
  }

  lemma OperandsMeaning(x: Engine, l: Lower, w: Expr, o: OutRow, u: Unit)
    requires Agree(x, l, o, u, NoWindows()) && w.kind.Window? && WindowOf(l, w).Ok?
    ensures CallOperands(x, WindowOf(l, w).value, o) == WindowOperands(x, Inside(l, w), u)
    ensures SortDirections(WindowOf(l, w).value.order) == Directions(Inside(l, w).kind.order)
  {
    hide Agree, LowerAll, LowerPredicate, LowerOrder, Eval, Resolve;
    var c := WindowOf(l, w).value;
    if w.kind.over == OverAggregate(Count) && w.kind.operands == [] {
      assert EvalDfs(x, c.args, o) == [Integer(1)];
    } else {
      AllCompute(x, l, w.kind.operands, o, u, NoWindows());
    }
    PredicateComputes(x, l, w.kind.where, o, u, NoWindows());
    AllCompute(x, l, w.kind.partition, o, u, NoWindows());
    OrderComputes(x, l, w.kind.order, o, u, NoWindows());
  }

  /** One window function over rows that agree with the units. */
  lemma ResultMeaning(x: Engine, l: Lower, w: Expr, os: seq<OutRow>, us: seq<Unit>, j: nat)
    requires Related(x, l, os, us) && w.kind.Window? && WindowOf(l, w).Ok? && j < |us|
    ensures WindowResult(x, WindowOf(l, w).value, os, j) == RawWindow(x, Inside(l, w), us, j)
  {
    hide Agree, CallOperands, WindowOperands, SortDirections, Directions, ResolveAll, ResolveOption, ResolveOrder;
    var c := WindowOf(l, w).value;
    forall k | 0 <= k < |us| ensures CallOperands(x, c, os[k]) == WindowOperands(x, Inside(l, w), us[k]) {
      OperandsMeaning(x, l, w, os[k], us[k]);
    }
    OperandsMeaning(x, l, w, os[j], us[j]);
    assert seq(|os|, k requires 0 <= k < |os| => CallOperands(x, c, os[k])) == AllOperands(x, Inside(l, w), us);
  }

  /** Window k's column of row j. */
  predicate HasWindow(x: Engine, l: Lower, w: Expr, us: seq<Unit>, o: OutRow, j: nat, k: nat) {
    w.kind.Window? && WindowName(k) in o.named && o.named[WindowName(k)] == RawWindow(x, Inside(l, w), us, j)
  }

  /** Row j after the first n windows. */
  ghost predicate Widened(x: Engine, l: Lower, ws: seq<Expr>, us: seq<Unit>, o: OutRow, o': OutRow, j: nat, n: nat)
    requires n <= |ws|
  {
    Extends(o', o) && forall k | 0 <= k < n :: HasWindow(x, l, ws[k], us, o', j, k)
  }

  lemma WidenedStep(x: Engine, l: Lower, ws: seq<Expr>, us: seq<Unit>, o: OutRow, o': OutRow, j: nat, m: nat)
    requires m < |ws| && ws[m].kind.Window? && Widened(x, l, ws, us, o, o', j, m)
    ensures Widened(x, l, ws, us, o, OutRow(o'.row, o'.named[WindowName(m) := RawWindow(x, Inside(l, ws[m]), us, j)]),
              j, m + 1)
  {
    hide RawWindow, Inside;
    var next := OutRow(o'.row, o'.named[WindowName(m) := RawWindow(x, Inside(l, ws[m]), us, j)]);
    forall k | 0 <= k < m + 1 ensures HasWindow(x, l, ws[k], us, next, j, k) {
      if k < m { assert HasWindow(x, l, ws[k], us, o', j, k); }
    }
  }

  lemma StillRelated(x: Engine, l: Lower, ws: seq<Expr>, us: seq<Unit>, os: seq<OutRow>, os': seq<OutRow>, m: nat)
    requires Related(x, l, os, us) && StableCells(l) && m <= |ws| && |os'| == |us|
    requires forall j | 0 <= j < |us| :: Widened(x, l, ws, us, os[j], os'[j], j, m)
    ensures Related(x, l, os', us)
  {
    hide Agree, StableCells, Extends, HasWindow;
    forall j | 0 <= j < |us| ensures Agree(x, l, os'[j], us[j], NoWindows()) {
      assert Widened(x, l, ws, us, os[j], os'[j], j, m);
      AgreeExtends(x, l, os[j], os'[j], us[j]);
    }
  }

  /** The stack of window nodes computes each window, its operands resolved, over the rows
      before any window. */
  lemma {:induction false} WindowsRun(x: Engine, l: Lower, ws: seq<Expr>, calls: seq<WindowCall>, input: LogicalPlan,
                                      base: seq<Row>, us: seq<Unit>, n: nat)
    requires Related(x, l, Run(x, input, base), us) && StableCells(l)
    requires MapAll(LowerWindow(l), ws) == Ok(calls) && n <= |calls| && |calls| == |ws|
    ensures var os := Run(x, Stacked(input, calls[..n]), base);
      |os| == |us| && forall j | 0 <= j < |us| :: Widened(x, l, ws, us, Run(x, input, base)[j], os[j], j, n)
  {
    hide Agree, StableCells, WindowResult, RawWindow, WindowOf, Widened, PartRows, Inside;
    var first := Run(x, input, base);
    if n == 0 {
      assert calls[..0] == [];
      forall j | 0 <= j < |us|
        ensures Widened(x, l, ws, us, first[j], first[j], j, 0)
      {
        NotWidened(x, l, ws, us, first[j], j);
      }
    } else {
      var m := n - 1;
      WindowsRun(x, l, ws, calls, input, base, us, m);
      var before := Run(x, Stacked(input, calls[..m]), base);
      assert calls[..n][..m] == calls[..m];
      MapExact(LowerWindow(l), ws);
      assert LowerWindow(l)(ws[m]) == Ok(calls[m]);
      WindowsOnly(l, ws[m]);
      StillRelated(x, l, ws, us, first, before, m);
      forall j | 0 <= j < |us|
        ensures Widened(x, l, ws, us, first[j], Run(x, Stacked(input, calls[..n]), base)[j], j, n)
      {
        ResultMeaning(x, l, ws[m], before, us, j);
        WidenedStep(x, l, ws, us, first[j], before[j], j, m);
      }
    }
  }

  lemma NotWidened(x: Engine, l: Lower, ws: seq<Expr>, us: seq<Unit>, o: OutRow, j: nat)
    ensures Widened(x, l, ws, us, o, o, j, 0)
  {
  }

  lemma WindowsOnly(l: Lower, e: Expr)
    requires WindowOf(l, e).Ok?
    ensures e.kind.Window?
  {
  }

  predicate Windowless(s: Schema, e: Expr) { WellBound(e, s, false, false) || WellBound(e, s, true, false) }

  predicate KeysBound(s: Schema, l: Lower) { forall i | 0 <= i < |l.mapped| :: Windowless(s, l.mapped[i].0) }

  /** After the windows, every mapped expression has its value in the row. */
  lemma FinalAgree(x: Engine, s: Schema, l: Lower, ws: seq<Expr>, us: seq<Unit>, o: OutRow, o': OutRow, j: nat)
    requires j < |us| && Agree(x, l, o, us[j], NoWindows()) && StableCells(l) && KeysBound(s, l)
    requires Widened(x, l, ws, us, o, o', j, |ws|)
    ensures Agree(x, l.(mapped := l.mapped + WindowMap(x.typeOf, ws)), o', us[j], WindowsVia(x, l, us, j))
  {
    hide WellBound, Extends, Cell, RawWindow, StableCells, Inside;
    AgreeExtends(x, l, o, o', us[j]);
    var m := l.mapped + WindowMap(x.typeOf, ws);
    var u, win := us[j], WindowsVia(x, l, us, j);
    ExtendsRow(o', o);
    forall i | 0 <= i < |m| ensures EvalDf(x, m[i].1, o') == Eval(x, m[i].0, u, win) {
      if i < |l.mapped| {
        var e := l.mapped[i].0;
        assert Windowless(s, e);
        WindowsIrrelevant(x, e, s, !WellBound(e, s, false, false), u, NoWindows(), win);
      } else {
        var k := i - |l.mapped|;
        assert HasWindow(x, l, ws[k], us, o', j, k);
        CellMeaning(x, ws[k], WindowName(k), o', RawWindow(x, Inside(l, ws[k]), us, j));
      }
    }
  }

  lemma ExtendsRow(o': OutRow, o: OutRow)
    requires Extends(o', o)
    ensures o'.row == o.row
  {
  }
}
