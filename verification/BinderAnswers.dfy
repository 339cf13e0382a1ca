/** From the written query to the rows of its plan. */
module BinderAnswers {
  import opened Options
  import opened BoundMeaning
  import opened Planner
  import opened SelectPlan
  import opened GroupCheck
  import opened PlanMeaning
  import opened PlanTheorem
  import opened PlanPreserves
  import opened PlanGrouping
  import opened Binder
  import opened BinderTypes
  import opened BinderTheorem
  import SyntaxMeaning
  import BinderSelect

  /** The plan of a query that binds delivers exactly the rows that were asked for, for every
      engine and every table, wherever planning looks every part of the query up exactly. */
  lemma PlanAnswersQuery(c: Context, s: SelectSyntax, cols: Columns, x: Engine, base: seq<Row>)
    requires InScope(c, cols) && BindSelect(c, s).Ok?
    ensures var q, t := BindSelect(c, s).value, x.typeOf; var p := PlanOf(t, SchemaOf(cols), q);
      && (if Shallow(AllExprs(q)) then p.Ok? else p == Err(ExpressionTooDeep))
      && (p.Ok? && ResolvedQuery(t, SchemaOf(cols), q) == q ==>
            Delivers(Run(x, p.value, base), SyntaxMeaning.SelectSays(x, c, s, base)))
  {
    hide InScope, BindSelect, PlanOf, Shallow, AllExprs;
    hide ResolvedQuery, Delivers, Run, Meaning, SyntaxMeaning.SelectSays;
    BindThenPlan(c, s, cols, x, base);
    BinderSelect.BindSelectMeans(x, c, s, base);
  }

  /** The binder's check of grouped queries is exact: among the queries whose parts bind, within
      the depth limit, it accepts those that have a plan and no others. */
  lemma BoundIffPlanned(c: Context, s: SelectSyntax, cols: Columns, t: TypeOf)
    requires InScope(c, cols) && BindParts(c, s).Ok? && Shallow(AllExprs(BindParts(c, s).value))
    ensures BindSelect(c, s).Ok? <==> PlanOf(t, SchemaOf(cols), BindParts(c, s).value).Ok?
  {
    hide InScope, BindParts, PlanOf, Shallow, AllExprs, ValidGrouped, QueryBound;
    var q := BindParts(c, s).value;
    if BindSelect(c, s).Ok? {
      SelectBound(c, s, cols);
      PlanSucceeds(t, SchemaOf(cols), q);
    }
    if PlanOf(t, SchemaOf(cols), q).Ok? && q.isAggregate {
      PlannedIsGrouped(t, SchemaOf(cols), q);
      GroupedIsAll(q);
    }
  }

  lemma GroupedIsAll(q: Planner.Query)
    requires forall i | 0 <= i < |GroupedExprs(q)| :: ValidGrouped(GroupedExprs(q)[i], q.groupBy)
    ensures AllGrouped(q)
  {
    hide ValidGrouped;
    var es := GroupedExprs(q);
    assert forall i | 0 <= i < |es| :: ValidGrouped(es[i], q.groupBy);
  }
}
