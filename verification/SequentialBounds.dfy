/** Bounds on sequential runs: calls, waiting, steps and spending, over every run of every
    graph, whatever its nodes answer. */
module SequentialBounds {
  import opened Types
  import opened Executor
  import opened Sequential

  /** The run leaves its loop at `__END__`. */
  predicate Finishes(g: Graph, p: Position, resolved: Option<InterruptId>)
    decreases g.limits.maxSequentialSteps - p.steps
  {
    match Step(g, p, resolved)
    case Stop(_, _, _) => p.node == END && p.steps < g.limits.maxSequentialSteps
    case Advance(next, _, _) => Finishes(g, next, resolved)
  }

  predicate VisitWithinPolicy(g: Graph, v: Visit) {
    && 1 <= v.calls <= Max(1, g.PolicyOf(v.node).maxAttempts)
    && 8 * v.waited <= WaitBudget(g.PolicyOf(v.node), v.calls - 1)
  }

  lemma VisitBounds(g: Graph, p: Position)
    ensures VisitWithinPolicy(g, VisitOf(g, p, NodeOutcome(g, Context(g, p), p.state)))
  {
    AttemptsBounds(g, g.PolicyOf(p.node), Context(g, p), p.state);
  }

  /** Over any edges, cyclic ones included, a run executes at most the allowed number of
      nodes, each within its retry policy; a run that leaves at `__END__` executed strictly
      fewer (the limit is tested first), and one that is cut off executed exactly as many. */
  lemma {:induction false} TerminationAndCallBound(g: Graph, p: Position, resolved: Option<InterruptId>)
    requires p.steps <= g.limits.maxSequentialSteps
    ensures var t, room := Run(g, p, resolved), g.limits.maxSequentialSteps - p.steps;
            && |t.visits| <= room
            && (forall i :: 0 <= i < |t.visits| ==> VisitWithinPolicy(g, t.visits[i]))
            && (Finishes(g, p, resolved) ==> |t.visits| < room && t.result.Ok? && |t.saves| == |t.visits|)
            && (t.result.Err? && t.result.error.StepLimitExceeded? ==> |t.visits| == room == |t.saves|)
    decreases g.limits.maxSequentialSteps - p.steps
  {
    VisitBounds(g, p);
    StepShape(g, p, resolved);
    var turn := Step(g, p, resolved);
    if turn.Advance? {
      TerminationAndCallBound(g, turn.next, resolved);
    }
  }

  predicate WithinBudget(g: Graph, spent: real) {
    g.budget.None? || spent <= g.budget.value
  }

  /** Cumulative cost before the i-th executed node of a run from `p`. */
  function SpentBefore(p: Position, visits: seq<Visit>, i: nat): real
    requires i <= |visits|
  {
    if i == 0 then p.cost else visits[i - 1].spent
  }

  /** Every node is told a non-negative remaining budget, and the i-th `Complete` record is
      written after the i-th node at a cumulative cost within the budget. Only the last node
      can overspend, and then the run fails and writes nothing for it. */
  ghost predicate BudgetKept(g: Graph, p: Position, t: Trace) {
    && (forall i {:trigger t.visits[i]} :: 0 <= i < |t.visits| ==>
          && WithinBudget(g, SpentBefore(p, t.visits, i))
          && t.visits[i].budgetRemaining == g.Remaining(SpentBefore(p, t.visits, i))
          && (g.budget.Some? ==> t.visits[i].budgetRemaining.value >= 0.0))
    && (forall i {:trigger t.saves[i]} :: 0 <= i < |t.saves| && t.saves[i].status.Complete? ==>
          i < |t.visits| && WithinBudget(g, t.visits[i].spent))
    && (forall i {:trigger t.visits[i]} :: 0 <= i < |t.visits| && !WithinBudget(g, t.visits[i].spent) ==>
          i == |t.visits| - 1 == |t.saves| && t.result.Err? && t.result.error.BudgetExceeded?)
  }

  lemma BudgetKeptPrepend(g: Graph, p: Position, turn: StepResult, rest: Trace)
    requires turn.Advance? && turn.visit.spent == turn.next.cost && turn.visit.budgetRemaining == g.Remaining(p.cost)
    requires WithinBudget(g, p.cost) && WithinBudget(g, turn.next.cost)
    requires BudgetKept(g, turn.next, rest)
    ensures BudgetKept(g, p, Trace(rest.result, [turn.save] + rest.saves, [turn.visit] + rest.visits))
  {
    var t := Trace(rest.result, [turn.save] + rest.saves, [turn.visit] + rest.visits);
    forall i | 0 < i < |t.visits|
      ensures t.visits[i] == rest.visits[i - 1]
      ensures SpentBefore(p, t.visits, i) == SpentBefore(turn.next, rest.visits, i - 1)
    {
    }
    forall i | 0 < i < |t.saves| && t.saves[i].status.Complete?
      ensures i < |t.visits| && WithinBudget(g, t.visits[i].spent)
    {
      assert t.saves[i] == rest.saves[i - 1];
    }
  }

  /** Any run that starts within its budget, whatever its nodes charge. */
  lemma {:induction false} BudgetBound(g: Graph, p: Position, resolved: Option<InterruptId>)
    requires WithinBudget(g, p.cost)
    ensures BudgetKept(g, p, Run(g, p, resolved))
    decreases g.limits.maxSequentialSteps - p.steps
  {
    var turn := Step(g, p, resolved);
    StepShape(g, p, resolved);
    if turn.Advance? {
      BudgetBound(g, turn.next, resolved);
      BudgetKeptPrepend(g, p, turn, Run(g, turn.next, resolved));
    }
  }
}
