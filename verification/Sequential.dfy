/** The sequential executor (`run_inner`) as a step function, and its loop.

    `Step` is one turn of the loop up to and including its durable write. The loop below,
    the interleaved callers and the head-checked writers all take this same step. */
module Sequential {
  import opened Types
  import opened Executor
  import opened Checkpoints

  /** Where a run stands at the top of its loop. */
  datatype Position = Position(
    node: Name,
    state: State,
    cost: real,
    steps: nat,
    first: bool,
    input: Option<Input>,
    tick: nat)

  /** One executed node: its name, how often it was called, how long it waited between the
      calls, the budget it was told is left, and the run's cumulative cost after it. */
  datatype Visit = Visit(node: Name, calls: nat, waited: nat, budgetRemaining: Option<real>, spent: real)

  datatype StepResult =
    | Stop(result: Result<State, Error>, saved: Option<Snapshot>, visited: Option<Visit>)
    | Advance(next: Position, save: Snapshot, visit: Visit)

  function Start(node: Name, state: State, input: Option<Input>, tick: nat): Position {
    Position(node, state, 0.0, 0, true, input, tick)
  }

  function Context(g: Graph, p: Position): NodeContext {
    NodeContext(p.node, 0, g.Remaining(p.cost), p.input, p.tick)
  }

  function Plain(state: State, nextNode: Name, status: CheckpointStatus, resolved: Option<InterruptId>): Snapshot {
    Snapshot(state, nextNode, None, status, None, None, resolved)
  }

  function YieldedAt(state: State, node: Name, request: YieldRequest): Snapshot {
    Snapshot(state, node, None, CheckpointStatus.Yielded, Some(request), None, None)
  }

  /** One turn of the loop. `resolved` is the interrupt this run resolves, if any. */
  function Step(g: Graph, p: Position, resolved: Option<InterruptId>): StepResult {
    if p.steps >= g.limits.maxSequentialSteps then
      Stop(Err(StepLimitExceeded(p.steps, g.limits.maxSequentialSteps)), None, None)
    else if p.node == END then
      Stop(Ok(p.state), None, None)
    else if !p.first && p.node in g.interruptBefore then
      Stop(Ok(p.state), Some(Plain(p.state, p.node, Interrupted, resolved)), None)
    else if !g.Registered(p.node) then
      Stop(Err(NodeNotFound(p.node)), None, None)
    else
      var tried := NodeOutcome(g, Context(g, p), p.state);
      AfterNode(g, p, resolved, tried.result, VisitOf(g, p, tried))
  }

  function VisitOf(g: Graph, p: Position, tried: Tried): Visit {
    var cost := if tried.result.Success? then tried.result.cost else 0.0;
    Visit(p.node, tried.calls, tried.waited, g.Remaining(p.cost), p.cost + cost)
  }

  function AfterNode(g: Graph, p: Position, resolved: Option<InterruptId>, result: NodeResult,
                     visit: Visit): StepResult {
    match result
    case Success(state, event, cost) =>
      var spent := p.cost + cost;
      if g.BreaksNodeBudget(p.node, cost) then
        Stop(Err(BudgetExceeded(cost, g.nodeBudgets[p.node])), None, Some(visit))
      else if g.BreaksBudget(spent) then
        Stop(Err(BudgetExceeded(spent, g.budget.value)), None, Some(visit))
      else
        var next := g.Route(p.node, state, event);
        var save := Plain(state, next, Complete, resolved);
        if p.node in g.interruptAfter then Stop(Ok(state), Some(save), Some(visit))
        else Advance(Position(next, state, spent, p.steps + 1, false, None, p.tick + visit.calls), save, visit)
    case Yield(request) => Stop(Ok(p.state), Some(YieldedAt(p.state, p.node, request)), Some(visit))
    case OverBudget(spent, limit) => Stop(Err(BudgetExceeded(spent, limit)), None, Some(visit))
    case _ => Stop(Err(NodeFailed(p.node)), None, Some(visit))
  }

  /** What a turn can leave behind. A turn that goes on wrote a `Complete` record of the
      resolved interrupt for the place it goes to; a failing turn wrote nothing; a final
      write repeats the interrupt unless it opens a new gate, which names the yielding
      node and carries its request. */
  lemma StepShape(g: Graph, p: Position, resolved: Option<InterruptId>)
    ensures var turn := Step(g, p, resolved);
            && (turn.Advance? ==>
                && turn.next.steps == p.steps + 1 <= g.limits.maxSequentialSteps
                && !turn.next.first && turn.next.input.None?
                && turn.save == Plain(turn.next.state, turn.next.node, Complete, resolved)
                && turn.visit.node == p.node && turn.visit.spent == turn.next.cost
                && turn.visit.budgetRemaining == g.Remaining(p.cost))
            && (turn.Stop? && turn.result.Err? ==> turn.saved.None?)
            && (turn.Stop? && turn.saved.Some? ==>
                && var save := turn.saved.value;
                && turn.result == Ok(save.state) && save.dag.None? && save.claimed.None?
                && !save.status.Running? && !save.status.Failed?
                && (save.status.Yielded? <==> save.yieldRequest.Some?)
                && (save.status.Yielded? ==> save.resolved.None? && save.nextNode == p.node && save.state == p.state)
                && (!save.status.Yielded? ==> save.resolved == resolved))
  {
  }

  /** A whole run: its result, its durable writes in order and the nodes it executed. */
  datatype Trace = Trace(result: Result<State, Error>, saves: seq<Snapshot>, visits: seq<Visit>)

  function Run(g: Graph, p: Position, resolved: Option<InterruptId>): Trace
    decreases g.limits.maxSequentialSteps - p.steps
  {
    match Step(g, p, resolved)
    case Stop(result, saved, visited) => Trace(result, ToSeq(saved), ToSeq(visited))
    case Advance(next, save, visit) =>
      var rest := Run(g, next, resolved);
      Trace(rest.result, [save] + rest.saves, [visit] + rest.visits)
  }

  /** `log` after `saves` were appended under consecutive fresh ids. */
  function Appended(log: Log, firstId: Id, saves: seq<Snapshot>): Log {
    log + seq(|saves|, i requires 0 <= i < |saves| => Record(firstId + i, saves[i]))
  }

  lemma AppendedOne(log: Log, firstId: Id, saves: seq<Snapshot>, save: Snapshot)
    ensures Appended(log, firstId, saves + [save]) == Appended(log, firstId, saves) + [Record(firstId + |saves|, save)]
  {
  }

  /** A run from `start` that has written `saves` and now stands at `p`. */
  ghost predicate Reached(g: Graph, start: Position, p: Position, resolved: Option<InterruptId>, saves: seq<Snapshot>) {
    var whole, rest := Run(g, start, resolved), Run(g, p, resolved);
    whole.result == rest.result && whole.saves == saves + rest.saves
  }

  lemma ReachedStop(g: Graph, start: Position, p: Position, resolved: Option<InterruptId>, saves: seq<Snapshot>)
    requires Reached(g, start, p, resolved, saves) && Step(g, p, resolved).Stop?
    ensures var turn := Step(g, p, resolved);
            && Run(g, start, resolved).result == turn.result
            && Run(g, start, resolved).saves == saves + ToSeq(turn.saved)
  {
  }

  lemma ReachedAdvance(g: Graph, start: Position, p: Position, resolved: Option<InterruptId>, saves: seq<Snapshot>)
    requires Reached(g, start, p, resolved, saves) && Step(g, p, resolved).Advance?
    ensures var turn := Step(g, p, resolved);
            Reached(g, start, turn.next, resolved, saves + [turn.save])
  {
    var turn := Step(g, p, resolved);
    assert saves + Run(g, p, resolved).saves == saves + [turn.save] + Run(g, turn.next, resolved).saves;
  }

  /** The body of the loop up to its durable write. */
  method Turn(g: Graph, p: Position, resolved: Option<InterruptId>) returns (turn: StepResult)
    ensures turn == Step(g, p, resolved)
  {
    if p.steps >= g.limits.maxSequentialSteps {
      return Stop(Err(StepLimitExceeded(p.steps, g.limits.maxSequentialSteps)), None, None);
    }
    if p.node == END {
      return Stop(Ok(p.state), None, None);
    }
    if !p.first && p.node in g.interruptBefore {
      return Stop(Ok(p.state), Some(Plain(p.state, p.node, Interrupted, resolved)), None);
    }
    if !g.Registered(p.node) {
      return Stop(Err(NodeNotFound(p.node)), None, None);
    }
    var tried := CallNode(g, Context(g, p), p.state);
    var visit := VisitOf(g, p, tried);
    match tried.result
    case Success(state, event, cost) =>
      var spent := p.cost + cost;
      if g.BreaksNodeBudget(p.node, cost) {
        return Stop(Err(BudgetExceeded(cost, g.nodeBudgets[p.node])), None, Some(visit));
      }
      if g.BreaksBudget(spent) {
        return Stop(Err(BudgetExceeded(spent, g.budget.value)), None, Some(visit));
      }
      var next := g.Route(p.node, state, event);
      var save := Plain(state, next, Complete, resolved);
      if p.node in g.interruptAfter {
        return Stop(Ok(state), Some(save), Some(visit));
      }
      return Advance(Position(next, state, spent, p.steps + 1, false, None, p.tick + tried.calls), save, visit);
    case Yield(request) =>
      return Stop(Ok(p.state), Some(YieldedAt(p.state, p.node, request)), Some(visit));
    case OverBudget(spent, limit) =>
      return Stop(Err(BudgetExceeded(spent, limit)), None, Some(visit));
    case _ =>
      return Stop(Err(NodeFailed(p.node)), None, Some(visit));
  }

  /** The loop. Against the in-memory store, and against a store that compares heads when
      nobody else writes, every write goes through and the thread's log grows by exactly the
      saves of `Run`. */
  method RunInner(g: Graph, thread: Name, start: Position, store: Checkpointer, resolved: Option<InterruptId>)
    returns (result: Result<State, Error>, lastHead: Option<Id>)
    requires store.Valid()
    modifies store
    ensures store.Valid()
    ensures result == Run(g, start, resolved).result
    ensures store.LogOf(thread) == Appended(old(store.LogOf(thread)), old(store.nextId), Run(g, start, resolved).saves)
    ensures store.nextId == old(store.nextId) + |Run(g, start, resolved).saves|
    ensures forall t :: t != thread ==> store.LogOf(t) == old(store.LogOf(t))
    ensures store.checksHeads && result.Err? ==> lastHead == store.HeadOf(thread)
  {
    var p := start;
    var expectedHead := store.CurrentHead(thread);
    lastHead := expectedHead;
    ghost var saves: seq<Snapshot> := [];
    ghost var log, firstId := store.LogOf(thread), store.nextId;
    while true
      invariant store.Valid()
      invariant store.checksHeads ==> expectedHead == lastHead == store.HeadOf(thread)
      invariant store.nextId == firstId + |saves|
      invariant store.LogOf(thread) == Appended(log, firstId, saves)
      invariant forall t :: t != thread ==> store.LogOf(t) == old(store.LogOf(t))
      invariant Reached(g, start, p, resolved, saves)
      decreases g.limits.maxSequentialSteps - p.steps
    {
      var turn := Turn(g, p, resolved);
      StepShape(g, p, resolved);
      match turn
      case Stop(stopped, saved, _) =>
        ReachedStop(g, start, p, resolved, saves);
        if saved.Some? {
          var id := Write(thread, saved.value, store, expectedHead, saves, firstId, log);
        } else {
          assert saves + ToSeq(saved) == saves;
        }
        return stopped, lastHead;
      case Advance(next, save, _) =>
        ReachedAdvance(g, start, p, resolved, saves);
        var id := Write(thread, save, store, expectedHead, saves, firstId, log);
        expectedHead := Some(id);
        lastHead := expectedHead;
        saves := saves + [save];
        p := next;
    }
  }

  /** One durable write of a run nobody races with: never a conflict. */
  method Write(thread: Name, save: Snapshot, store: Checkpointer, expectedHead: Option<Id>,
               ghost saves: seq<Snapshot>, ghost firstId: Id, ghost log: Log)
    returns (id: Id)
    requires store.Valid()
    requires store.checksHeads ==> expectedHead == store.HeadOf(thread)
    requires store.nextId == firstId + |saves| && store.LogOf(thread) == Appended(log, firstId, saves)
    modifies store
    ensures store.Valid()
    ensures id == old(store.nextId) && store.nextId == id + 1
    ensures store.checksHeads ==> store.HeadOf(thread) == Some(id)
    ensures store.LogOf(thread) == Appended(log, firstId, saves + [save])
    ensures forall t :: t != thread ==> store.LogOf(t) == old(store.LogOf(t))
  {
    var r := store.SaveStateBound(thread, save, expectedHead);
    assert !r.Conflict?;
    id := r.id;
    AppendedOne(log, firstId, saves, save);
    assert store.LogOf(thread) == Appended(log, firstId, saves) + [Record(id, save)];
  }
}
