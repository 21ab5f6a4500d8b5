/** What a sequential run means, over the nodes' answers and the run's own trace: which node
    was called on what, what was recorded of its answer, and how the run ended. */
module SequentialMeaning {
  import opened Types
  import opened Executor
  import opened Sequential

  /** Where the run stood before its `i`-th node, read off its records and visits: at the node
      and state of the record before, with the cost so far, and past the first step. */
  function Stood(p: Position, t: Trace, i: nat): Position
    requires i <= |t.visits| && i <= |t.saves|
  {
    if i == 0 then p
    else
      var before, visit := t.saves[i - 1], t.visits[i - 1];
      Position(before.nextNode, before.state, visit.spent, p.steps + i, false, None,
               Stood(p, t, i - 1).tick + visit.calls)
  }

  /** A node is called from here: there is a step left, the run is not at `__END__`, no
      interrupt is set before the node unless the run began with it, and it is registered. */
  predicate Enters(g: Graph, q: Position) {
    && q.steps < g.limits.maxSequentialSteps && q.node != "__END__"
    && (q.node in g.interruptBefore ==> q.first)
    && (q.node in g.regular || q.node in g.dynamics)
  }

  /** The node at `q` was called on the state at `q`, told the budget left and, on its first
      call, the input; this is what it finally answered. */
  ghost predicate Gave(g: Graph, q: Position, v: Visit, answer: NodeResult) {
    && v.node == q.node
    && v.budgetRemaining == (if g.budget.Some? then Some(g.budget.value - q.cost) else None)
    && Answered(g, NodeContext(q.node, 0, v.budgetRemaining, q.input, q.tick), q.state,
                Tried(answer, v.calls, v.waited))
  }

  predicate OverNodeBudget(g: Graph, node: Name, cost: real) {
    node in g.nodeBudgets && g.nodeBudgets[node] < cost
  }

  predicate OverBudget(g: Graph, spent: real) { g.budget.Some? && g.budget.value < spent }

  /** Where a node leads: an event names the next node, else the edge does, on the state the
      node returned, and without an edge the run is at its end. */
  predicate LeadsTo(g: Graph, node: Name, out: State, event: Option<Name>, next: Name) {
    match event
    case Some(target) => next == target
    case None =>
      if node !in g.edges then next == "__END__"
      else match g.edges[node]
        case Unconditional(target) => next == target
        case Conditional(choose) => next == choose(out)
  }

  ghost predicate Succeeded(g: Graph, q: Position, v: Visit, save: Snapshot, resolved: Option<InterruptId>,
                            out: State, event: Option<Name>, cost: real) {
    && Gave(g, q, v, Success(out, event, cost))
    && !OverNodeBudget(g, q.node, cost) && !OverBudget(g, q.cost + cost) && v.spent == q.cost + cost
    && save == Snapshot(out, save.nextNode, None, Complete, None, None, resolved)
    && LeadsTo(g, q.node, out, event, save.nextNode)
  }

  /** The node at `q` completed: what it returned is what was recorded. */
  ghost predicate Completed(g: Graph, q: Position, v: Visit, save: Snapshot, resolved: Option<InterruptId>) {
    Enters(g, q) && exists out, event, cost :: Succeeded(g, q, v, save, resolved, out, event, cost)
  }

  /** The first `n` nodes completed and none of them is the last one by an interrupt. */
  ghost predicate WentOn(g: Graph, p: Position, resolved: Option<InterruptId>, t: Trace, n: nat) {
    n <= |t.visits| && n <= |t.saves| && forall i :: 0 <= i < n ==> NodeWentOn(g, p, resolved, t, i)
  }

  ghost predicate NodeWentOn(g: Graph, p: Position, resolved: Option<InterruptId>, t: Trace, i: nat) {
    i < |t.visits| && i < |t.saves| && WentOnAt(g, Stood(p, t, i), t.visits[i], t.saves[i], resolved)
  }

  ghost predicate WentOnAt(g: Graph, q: Position, v: Visit, save: Snapshot, resolved: Option<InterruptId>) {
    Completed(g, q, v, save, resolved) && q.node !in g.interruptAfter
  }

  /** The run ended without calling the node at `q`. */
  predicate Halts(g: Graph, q: Position, resolved: Option<InterruptId>, result: Result<State, Error>,
                  saved: seq<Snapshot>) {
    if q.steps >= g.limits.maxSequentialSteps then
      saved == [] && result == Err(StepLimitExceeded(q.steps, g.limits.maxSequentialSteps))
    else if q.node == "__END__" then
      saved == [] && result == Ok(q.state)
    else if q.node in g.interruptBefore && !q.first then
      saved == [Snapshot(q.state, q.node, None, Interrupted, None, None, resolved)] && result == Ok(q.state)
    else
      q.node !in g.regular && q.node !in g.dynamics && saved == [] && result == Err(NodeNotFound(q.node))
  }

  /** The run ended with the node at `q`. */
  ghost predicate EndsWith(g: Graph, q: Position, v: Visit, resolved: Option<InterruptId>,
                           result: Result<State, Error>, saved: seq<Snapshot>) {
    && Enters(g, q)
    && exists answer :: Gave(g, q, v, answer) && Closes(g, q, v, resolved, answer, result, saved)
  }

  predicate Closes(g: Graph, q: Position, v: Visit, resolved: Option<InterruptId>, answer: NodeResult,
                   result: Result<State, Error>, saved: seq<Snapshot>) {
    match answer
    case Success(out, event, cost) =>
      && v.spent == q.cost + cost
      && if OverNodeBudget(g, q.node, cost) then
        saved == [] && result == Err(BudgetExceeded(cost, g.nodeBudgets[q.node]))
      else if OverBudget(g, q.cost + cost) then
        saved == [] && result == Err(BudgetExceeded(q.cost + cost, g.budget.value))
      else
        && q.node in g.interruptAfter && result == Ok(out) && |saved| == 1
        && saved[0] == Snapshot(out, saved[0].nextNode, None, Complete, None, None, resolved)
        && LeadsTo(g, q.node, out, event, saved[0].nextNode)
    case Yield(request) =>
      && v.spent == q.cost && result == Ok(q.state)
      && saved == [Snapshot(q.state, q.node, None, CheckpointStatus.Yielded, Some(request), None, None)]
    case OverBudget(spent, limit) => v.spent == q.cost && saved == [] && result == Err(BudgetExceeded(spent, limit))
    case _ => v.spent == q.cost && saved == [] && result == Err(NodeFailed(q.node))
  }

  ghost predicate HaltsAfter(g: Graph, p: Position, resolved: Option<InterruptId>, t: Trace) {
    var n := |t.visits|;
    WentOn(g, p, resolved, t, n) && Halts(g, Stood(p, t, n), resolved, t.result, t.saves[n..])
  }

  ghost predicate EndsAfter(g: Graph, p: Position, resolved: Option<InterruptId>, t: Trace) {
    var n := |t.visits| - 1;
    && n >= 0 && WentOn(g, p, resolved, t, n)
    && EndsWith(g, Stood(p, t, n), t.visits[n], resolved, t.result, t.saves[n..])
  }

  /** Trace `t` is a run from `p`: all its nodes but the last went on, and it ended before a
      further node or with its last one. */
  ghost predicate Means(g: Graph, p: Position, resolved: Option<InterruptId>, t: Trace) {
    HaltsAfter(g, p, resolved, t) || EndsAfter(g, p, resolved, t)
  }

  lemma StepAnswers(g: Graph, q: Position, answer: NodeResult, v: Visit)
    ensures var tried := NodeOutcome(g, Context(g, q), q.state);
            && Gave(g, q, VisitOf(g, q, tried), tried.result)
            && (Gave(g, q, v, answer) ==> tried == Tried(answer, v.calls, v.waited))
  {
    var ctx := Context(g, q);
    OutcomeExactly(g, ctx, q.state, NodeOutcome(g, ctx, q.state));
    OutcomeExactly(g, ctx, q.state, Tried(answer, v.calls, v.waited));
  }

  /** A turn that goes on: its node completed. */
  lemma AdvanceMeans(g: Graph, q: Position, resolved: Option<InterruptId>)
    requires Step(g, q, resolved).Advance?
    ensures var turn := Step(g, q, resolved);
            && WentOnAt(g, q, turn.visit, turn.save, resolved)
            && turn.next == Position(turn.save.nextNode, turn.save.state, turn.visit.spent, q.steps + 1, false, None,
                                     q.tick + turn.visit.calls)
  {
    var turn := Step(g, q, resolved);
    var tried := NodeOutcome(g, Context(g, q), q.state);
    StepAnswers(g, q, tried.result, turn.visit);
    assert Succeeded(g, q, turn.visit, turn.save, resolved, tried.result.state, tried.result.event, tried.result.cost);
  }

  /** A turn that stops: the run ends before its node or with it. */
  lemma StopMeans(g: Graph, q: Position, resolved: Option<InterruptId>)
    requires Step(g, q, resolved).Stop?
    ensures var turn := Step(g, q, resolved);
            if turn.visited.None? then Halts(g, q, resolved, turn.result, ToSeq(turn.saved))
            else EndsWith(g, q, turn.visited.value, resolved, turn.result, ToSeq(turn.saved))
  {
    var turn := Step(g, q, resolved);
    if turn.visited.Some? {
      var tried := NodeOutcome(g, Context(g, q), q.state);
      StepAnswers(g, q, tried.result, turn.visited.value);
      assert Closes(g, q, turn.visited.value, resolved, tried.result, turn.result, ToSeq(turn.saved));
    }
  }

  /** Conversely, what went on, halted or ended is what the turn does. */
  lemma WentOnIsAdvance(g: Graph, q: Position, v: Visit, save: Snapshot, resolved: Option<InterruptId>)
    requires WentOnAt(g, q, v, save, resolved)
    ensures Step(g, q, resolved) ==
            Advance(Position(save.nextNode, save.state, v.spent, q.steps + 1, false, None, q.tick + v.calls), save, v)
  {
    var out, event, cost :| Succeeded(g, q, v, save, resolved, out, event, cost);
    StepAnswers(g, q, Success(out, event, cost), v);
  }

  lemma HaltsIsStop(g: Graph, q: Position, resolved: Option<InterruptId>, result: Result<State, Error>,
                    saved: seq<Snapshot>)
    requires Halts(g, q, resolved, result, saved)
    ensures var turn := Step(g, q, resolved);
            turn.Stop? && turn.visited.None? && turn.result == result && ToSeq(turn.saved) == saved
  {
  }

  lemma EndsIsStop(g: Graph, q: Position, v: Visit, resolved: Option<InterruptId>, result: Result<State, Error>,
                   saved: seq<Snapshot>)
    requires EndsWith(g, q, v, resolved, result, saved)
    ensures var turn := Step(g, q, resolved);
            turn.Stop? && turn.visited == Some(v) && turn.result == result && ToSeq(turn.saved) == saved
  {
    var answer :| Gave(g, q, v, answer) && Closes(g, q, v, resolved, answer, result, saved);
    StepAnswers(g, q, answer, v);
    ClosesIs(g, q, v, resolved, answer, result, saved);
  }

  lemma ClosesIs(g: Graph, q: Position, v: Visit, resolved: Option<InterruptId>, answer: NodeResult,
                 result: Result<State, Error>, saved: seq<Snapshot>)
    requires Closes(g, q, v, resolved, answer, result, saved)
    ensures var turn := AfterNode(g, q, resolved, answer, v);
            turn.Stop? && turn.visited == Some(v) && turn.result == result && ToSeq(turn.saved) == saved
  {
    if answer.Success? && saved != [] {
      assert saved == [saved[0]];
      assert saved[0].nextNode == g.Route(q.node, answer.state, answer.event);
    }
  }

  function After(p: Position, save: Snapshot, v: Visit): Position {
    Position(save.nextNode, save.state, v.spent, p.steps + 1, false, None, p.tick + v.calls)
  }

  /** Leaving out the first node moves every position by one. */
  lemma {:induction false} StoodShift(p: Position, t: Trace, rest: Trace, i: nat)
    requires t.saves != [] && t.visits != [] && rest.saves == t.saves[1..] && rest.visits == t.visits[1..]
    requires i <= |rest.visits| && i <= |rest.saves|
    ensures Stood(p, t, i + 1) == Stood(After(p, t.saves[0], t.visits[0]), rest, i)
    decreases i
  {
    if i > 0 { StoodShift(p, t, rest, i - 1); }
  }

  lemma WentOnShift(g: Graph, p: Position, resolved: Option<InterruptId>, t: Trace, rest: Trace, n: nat)
    requires t.saves != [] && t.visits != [] && rest.saves == t.saves[1..] && rest.visits == t.visits[1..]
    requires WentOnAt(g, p, t.visits[0], t.saves[0], resolved)
    ensures WentOn(g, p, resolved, t, n + 1) <==>
            WentOn(g, After(p, t.saves[0], t.visits[0]), resolved, rest, n)
  {
    var next := After(p, t.saves[0], t.visits[0]);
    forall i: nat ensures NodeWentOn(g, p, resolved, t, i + 1) <==> NodeWentOn(g, next, resolved, rest, i) {
      if i < |rest.visits| && i < |rest.saves| { StoodShift(p, t, rest, i); }
    }
    forall i | 0 <= i < n + 1 ensures NodeWentOn(g, p, resolved, t, i) <==>
        i == 0 || NodeWentOn(g, next, resolved, rest, i - 1) {
      assert i > 0 ==> (NodeWentOn(g, p, resolved, t, i - 1 + 1) <==> NodeWentOn(g, next, resolved, rest, i - 1));
    }
    if WentOn(g, p, resolved, t, n + 1) {
      forall i | 0 <= i < n ensures NodeWentOn(g, next, resolved, rest, i) {
        assert NodeWentOn(g, p, resolved, t, i + 1);
      }
    }
  }

  /** The last position and what was saved from there on. */
  lemma LastShift(p: Position, t: Trace, rest: Trace, n: nat)
    requires t.saves != [] && t.visits != [] && rest.saves == t.saves[1..] && rest.visits == t.visits[1..]
    requires n <= |rest.visits| && n <= |rest.saves|
    ensures Stood(p, t, n + 1) == Stood(After(p, t.saves[0], t.visits[0]), rest, n)
    ensures t.saves[n + 1..] == rest.saves[n..]
  {
    StoodShift(p, t, rest, n);
  }

  lemma HaltShift(g: Graph, p: Position, resolved: Option<InterruptId>, t: Trace, rest: Trace)
    requires t.saves != [] && t.visits != [] && WentOnAt(g, p, t.visits[0], t.saves[0], resolved)
    requires rest == Trace(t.result, t.saves[1..], t.visits[1..])
    ensures HaltsAfter(g, p, resolved, t) <==> HaltsAfter(g, After(p, t.saves[0], t.visits[0]), resolved, rest)
  {
    var n := |rest.visits|;
    WentOnShift(g, p, resolved, t, rest, n);
    if WentOn(g, p, resolved, t, n + 1) { LastShift(p, t, rest, n); }
  }

  lemma EndShift(g: Graph, p: Position, resolved: Option<InterruptId>, t: Trace, rest: Trace)
    requires t.saves != [] && |t.visits| > 1 && WentOnAt(g, p, t.visits[0], t.saves[0], resolved)
    requires rest == Trace(t.result, t.saves[1..], t.visits[1..])
    ensures EndsAfter(g, p, resolved, t) <==> EndsAfter(g, After(p, t.saves[0], t.visits[0]), resolved, rest)
  {
    var n := |rest.visits| - 1;
    WentOnShift(g, p, resolved, t, rest, n);
    if WentOn(g, p, resolved, t, n + 1) { LastShift(p, t, rest, n); }
  }

  /** A run whose first node went on is that node and a run from where it led. */
  lemma MeansShift(g: Graph, p: Position, resolved: Option<InterruptId>, t: Trace, rest: Trace)
    requires t.saves != [] && t.visits != [] && WentOnAt(g, p, t.visits[0], t.saves[0], resolved)
    requires rest == Trace(t.result, t.saves[1..], t.visits[1..])
    ensures Means(g, After(p, t.saves[0], t.visits[0]), resolved, rest) ==> Means(g, p, resolved, t)
    ensures Means(g, p, resolved, t) && !EndsAtOnce(g, p, resolved, t) ==>
              Means(g, After(p, t.saves[0], t.visits[0]), resolved, rest)
  {
    HaltShift(g, p, resolved, t, rest);
    if |t.visits| > 1 {
      EndShift(g, p, resolved, t, rest);
    } else {
      EndsFirst(g, p, resolved, t);
    }
  }

  ghost predicate EndsAtOnce(g: Graph, p: Position, resolved: Option<InterruptId>, t: Trace) {
    |t.visits| == 1 && EndsWith(g, p, t.visits[0], resolved, t.result, t.saves)
  }

  lemma EndsFirst(g: Graph, p: Position, resolved: Option<InterruptId>, t: Trace)
    requires |t.visits| == 1
    ensures EndsAfter(g, p, resolved, t) <==> EndsAtOnce(g, p, resolved, t)
  {
    assert t.saves[0..] == t.saves;
  }

  lemma HaltsFirst(g: Graph, p: Position, resolved: Option<InterruptId>, t: Trace)
    requires t.visits == []
    ensures Means(g, p, resolved, t) <==> Halts(g, p, resolved, t.result, t.saves)
  {
    assert t.saves[0..] == t.saves;
  }

  lemma {:induction false} RunMeans(g: Graph, p: Position, resolved: Option<InterruptId>) returns (t: Trace)
    ensures t == Run(g, p, resolved) && Means(g, p, resolved, t)
    decreases g.limits.maxSequentialSteps - p.steps
  {
    StepShape(g, p, resolved);
    var turn := Step(g, p, resolved);
    if turn.Advance? {
      var rest := RunMeans(g, turn.next, resolved);
      t := OneTurnMore(g, p, resolved, turn, rest);
    } else {
      t := StopRun(g, p, resolved);
    }
  }

  lemma OneTurnMore(g: Graph, p: Position, resolved: Option<InterruptId>, turn: StepResult, rest: Trace)
    returns (t: Trace)
    requires turn == Step(g, p, resolved) && turn.Advance?
    requires rest == Run(g, turn.next, resolved) && Means(g, turn.next, resolved, rest)
    ensures t == Run(g, p, resolved) && Means(g, p, resolved, t)
  {
    AdvanceMeans(g, p, resolved);
    t := Longer(g, p, resolved, turn.save, turn.visit, turn.next, rest);
    RunIs(g, p, resolved, rest);
  }

  lemma RunIs(g: Graph, p: Position, resolved: Option<InterruptId>, rest: Trace)
    requires Step(g, p, resolved).Advance? && rest == Run(g, Step(g, p, resolved).next, resolved)
    ensures var turn := Step(g, p, resolved);
            Run(g, p, resolved) == Trace(rest.result, [turn.save] + rest.saves, [turn.visit] + rest.visits)
  {
  }

  lemma StopRun(g: Graph, p: Position, resolved: Option<InterruptId>) returns (t: Trace)
    requires Step(g, p, resolved).Stop?
    ensures t == Run(g, p, resolved) && Means(g, p, resolved, t)
  {
    var turn := Step(g, p, resolved);
    t := Trace(turn.result, ToSeq(turn.saved), ToSeq(turn.visited));
    StopMeans(g, p, resolved);
    if turn.visited.Some? { EndsFirst(g, p, resolved, t); } else { HaltsFirst(g, p, resolved, t); }
  }

  lemma Longer(g: Graph, p: Position, resolved: Option<InterruptId>, save: Snapshot, v: Visit, next: Position,
               rest: Trace)
    returns (t: Trace)
    requires WentOnAt(g, p, v, save, resolved) && next == After(p, save, v) && Means(g, next, resolved, rest)
    ensures t == Trace(rest.result, [save] + rest.saves, [v] + rest.visits) && Means(g, p, resolved, t)
  {
    t := Trace(rest.result, [save] + rest.saves, [v] + rest.visits);
    assert rest == Trace(t.result, t.saves[1..], t.visits[1..]);
    MeansShift(g, p, resolved, t, rest);
  }

  lemma FirstWentOn(g: Graph, p: Position, resolved: Option<InterruptId>, t: Trace)
    requires Means(g, p, resolved, t) && t.visits != [] && !EndsAtOnce(g, p, resolved, t)
    ensures t.saves != [] && WentOnAt(g, p, t.visits[0], t.saves[0], resolved)
  {
    if |t.visits| == 1 { EndsFirst(g, p, resolved, t); }
    assert NodeWentOn(g, p, resolved, t, 0);
  }

  /** Conversely, there is only one such trace. */
  lemma {:induction false} MeansRun(g: Graph, p: Position, resolved: Option<InterruptId>, t: Trace)
    requires Means(g, p, resolved, t)
    ensures t == Run(g, p, resolved)
    decreases |t.visits|
  {
    if t.visits == [] {
      HaltsFirst(g, p, resolved, t);
      HaltsIsStop(g, p, resolved, t.result, t.saves);
    } else if EndsAtOnce(g, p, resolved, t) {
      EndsIsStop(g, p, t.visits[0], resolved, t.result, t.saves);
      assert t.visits == [t.visits[0]];
    } else {
      FirstWentOn(g, p, resolved, t);
      var rest := Trace(t.result, t.saves[1..], t.visits[1..]);
      MeansShift(g, p, resolved, t, rest);
      MeansRun(g, After(p, t.saves[0], t.visits[0]), resolved, rest);
      OneMoreNode(g, p, resolved, t);
    }
  }

  lemma OneMoreNode(g: Graph, p: Position, resolved: Option<InterruptId>, t: Trace)
    requires t.saves != [] && t.visits != [] && WentOnAt(g, p, t.visits[0], t.saves[0], resolved)
    requires Trace(t.result, t.saves[1..], t.visits[1..]) == Run(g, After(p, t.saves[0], t.visits[0]), resolved)
    ensures t == Run(g, p, resolved)
  {
    WentOnIsAdvance(g, p, t.visits[0], t.saves[0], resolved);
    assert t.saves == [t.saves[0]] + t.saves[1..] && t.visits == [t.visits[0]] + t.visits[1..];
  }

  /** What the executor's run is, for every graph and position: exactly the one trace in which
      each node is called on the state recorded before it, what it returns is recorded, and
      the run ends as the answers, the limits and the interrupts have it. */
  lemma RunExactly(g: Graph, p: Position, resolved: Option<InterruptId>, t: Trace)
    ensures Means(g, p, resolved, t) <==> t == Run(g, p, resolved)
  {
    var run := RunMeans(g, p, resolved);
    if Means(g, p, resolved, t) { MeansRun(g, p, resolved, t); }
  }

  /** No node's work is lost, stated on its own: some call of the node that stood before a
      `Complete` record, on the state before it, answered with exactly the recorded state and
      with the cost by which the spending grew, and its event or edge leads to the recorded
      next node. */
  lemma WorkIsKept(g: Graph, p: Position, resolved: Option<InterruptId>, i: nat)
    requires i < |Run(g, p, resolved).saves|
    ensures var t := Run(g, p, resolved);
            t.saves[i].status.Complete? ==> i < |t.visits| && Recorded(g, Stood(p, t, i), t.visits[i], t.saves[i])
  {
    var t := RunMeans(g, p, resolved);
    if t.saves[i].status.Complete? { CompleteIsRecorded(g, p, resolved, t, i); }
  }

  ghost predicate Recorded(g: Graph, q: Position, v: Visit, save: Snapshot) {
    exists ctx: NodeContext, event: Option<Name>, cost: real ::
      && g.call(ctx, q.state) == Success(save.state, event, cost) && ctx.nodeName == q.node == v.node
      && v.spent == q.cost + cost && LeadsTo(g, q.node, save.state, event, save.nextNode)
  }

  lemma AnsweredByCall(g: Graph, ctx: NodeContext, state: State, t: Tried) returns (last: NodeContext)
    requires ctx.attempt == 0 && Answered(g, ctx, state, t)
    ensures last.nodeName == ctx.nodeName && g.call(last, state) == t.result
  {
    last := if ctx.nodeName in g.dynamics then ctx else CallAfter(ctx, t.calls - 1);
  }

  lemma SuccessIsRecorded(g: Graph, q: Position, v: Visit, save: Snapshot, out: State, event: Option<Name>, cost: real)
    requires Gave(g, q, v, Success(out, event, cost)) && v.spent == q.cost + cost && save.state == out
    requires LeadsTo(g, q.node, out, event, save.nextNode)
    ensures Recorded(g, q, v, save)
  {
    var ctx := NodeContext(q.node, 0, v.budgetRemaining, q.input, q.tick);
    var last := AnsweredByCall(g, ctx, q.state, Tried(Success(out, event, cost), v.calls, v.waited));
    assert g.call(last, q.state) == Success(save.state, event, cost);
  }

  lemma CompleteIsRecorded(g: Graph, p: Position, resolved: Option<InterruptId>, t: Trace, i: nat)
    requires Means(g, p, resolved, t) && i < |t.saves| && t.saves[i].status.Complete?
    ensures i < |t.visits| && Recorded(g, Stood(p, t, i), t.visits[i], t.saves[i])
  {
    if i < |t.visits| && NodeWentOn(g, p, resolved, t, i) {
      var q, v, save := Stood(p, t, i), t.visits[i], t.saves[i];
      var out, event, cost :| Succeeded(g, q, v, save, resolved, out, event, cost);
      SuccessIsRecorded(g, q, v, save, out, event, cost);
    } else {
      LastIsRecorded(g, p, resolved, t, i);
    }
  }

  lemma HaltedRecord(g: Graph, p: Position, resolved: Option<InterruptId>, t: Trace, i: nat)
    requires HaltsAfter(g, p, resolved, t) && i < |t.saves|
    ensures i < |t.visits| ==> NodeWentOn(g, p, resolved, t, i)
    ensures i >= |t.visits| ==> t.saves[i].status.Interrupted?
  {
    var n := |t.visits|;
    if i >= n { assert t.saves[n..][i - n] == t.saves[i]; }
  }

  lemma LastIsRecorded(g: Graph, p: Position, resolved: Option<InterruptId>, t: Trace, i: nat)
    requires Means(g, p, resolved, t) && i < |t.saves| && t.saves[i].status.Complete?
    requires i < |t.visits| ==> !NodeWentOn(g, p, resolved, t, i)
    ensures i < |t.visits| && Recorded(g, Stood(p, t, i), t.visits[i], t.saves[i])
  {
    if HaltsAfter(g, p, resolved, t) {
      HaltedRecord(g, p, resolved, t, i);
    } else {
      var n := |t.visits| - 1;
      var q, v := Stood(p, t, n), t.visits[n];
      assert t.saves[n..][i - n] == t.saves[i];
      var answer :| Gave(g, q, v, answer) && Closes(g, q, v, resolved, answer, t.result, t.saves[n..]);
      SuccessIsRecorded(g, q, v, t.saves[i], answer.state, answer.event, answer.cost);
    }
  }

  /** A run that succeeds returns the state last recorded, or the one it began with. */
  lemma ReturnsLastState(g: Graph, p: Position, resolved: Option<InterruptId>)
    ensures LastState(p, Run(g, p, resolved))
  {
    var t := RunMeans(g, p, resolved);
    if HaltsAfter(g, p, resolved, t) {
      HaltReturns(g, p, resolved, t);
    } else {
      EndReturns(g, p, resolved, t);
    }
  }

  predicate LastState(p: Position, t: Trace) {
    t.result.Ok? ==> t.result.value == if t.saves == [] then p.state else t.saves[|t.saves| - 1].state
  }

  lemma HaltReturns(g: Graph, p: Position, resolved: Option<InterruptId>, t: Trace)
    requires HaltsAfter(g, p, resolved, t)
    ensures LastState(p, t)
  {
    var n := |t.visits|;
    var q := Stood(p, t, n);
    assert q.state == if n == 0 then p.state else t.saves[n - 1].state;
    if |t.saves| > n { assert t.saves[n..][|t.saves| - n - 1] == t.saves[|t.saves| - 1]; }
  }

  lemma EndReturns(g: Graph, p: Position, resolved: Option<InterruptId>, t: Trace)
    requires EndsAfter(g, p, resolved, t)
    ensures LastState(p, t)
  {
    var n := |t.visits| - 1;
    if |t.saves| > n { assert t.saves[n..][|t.saves| - n - 1] == t.saves[|t.saves| - 1]; }
  }

  /** The `k`-th call of the `i`-th node of a run. */
  function CallMade(p: Position, t: Trace, i: nat, k: nat): NodeContext
    requires i < |t.visits| && i <= |t.saves| && k <= U8_MAX
  {
    var q := Stood(p, t, i);
    CallAfter(NodeContext(t.visits[i].node, 0, t.visits[i].budgetRemaining, q.input, q.tick), k)
  }

  /** The calls of a run: each node is called as often as its visit says, every call but the
      last was retryable, and only the first call of the first node is given the input the
      run began with. */
  ghost predicate CallsAre(g: Graph, p: Position, t: Trace, i: nat) {
    && i < |t.visits| && i <= |t.saves| && 1 <= t.visits[i].calls <= U8_MAX + 1
    && forall k :: 0 <= k < t.visits[i].calls ==>
         && CallMade(p, t, i, k).resumedInput == (if i == 0 && k == 0 then p.input else None)
         && (k < t.visits[i].calls - 1 ==> g.call(CallMade(p, t, i, k), Stood(p, t, i).state).Retryable?)
  }

  lemma CallsOf(g: Graph, q: Position, v: Visit, answer: NodeResult)
    requires Gave(g, q, v, answer)
    ensures 1 <= v.calls <= U8_MAX + 1
    ensures forall k :: 0 <= k < v.calls - 1 ==>
              g.call(CallAfter(NodeContext(v.node, 0, v.budgetRemaining, q.input, q.tick), k), q.state).Retryable?
  {
  }

  lemma VisitGave(g: Graph, p: Position, resolved: Option<InterruptId>, t: Trace, i: nat) returns (answer: NodeResult)
    requires Means(g, p, resolved, t) && i < |t.visits|
    ensures i <= |t.saves| && Gave(g, Stood(p, t, i), t.visits[i], answer)
  {
    if HaltsAfter(g, p, resolved, t) || i < |t.visits| - 1 {
      assert NodeWentOn(g, p, resolved, t, i);
      var out, event, cost :|
        Succeeded(g, Stood(p, t, i), t.visits[i], t.saves[i], resolved, out, event, cost);
      answer := Success(out, event, cost);
    } else {
      var q, v := Stood(p, t, i), t.visits[i];
      answer :| Gave(g, q, v, answer) && Closes(g, q, v, resolved, answer, t.result, t.saves[i..]);
    }
  }

  lemma InputIsGivenOnce(g: Graph, p: Position, resolved: Option<InterruptId>, i: nat)
    requires i < |Run(g, p, resolved).visits|
    ensures CallsAre(g, p, Run(g, p, resolved), i)
  {
    var t := RunMeans(g, p, resolved);
    var answer := VisitGave(g, p, resolved, t, i);
    CallsOf(g, Stood(p, t, i), t.visits[i], answer);
  }
}
