/** `run_dag` and `resume_dag` on the DAG object, against their specification `RunWaves`. */
module WaveRun {
  import opened Types
  import opened Executor
  import opened Checkpoints
  import Sequential
  import opened Dags
  import opened Waves
  import opened WaveConfluence

  const MAX_DEPTH: nat := 8

  /** What `run_dag` does, its guards included. */
  function DagOutcome(g: Graph, clock: Clock, nodes: Nodes, state: State, sched: Schedule, depth: u8): DagTrace {
    if depth > MAX_DEPTH then DagTrace(Err(RecursionLimitExceeded(depth, MAX_DEPTH)), nodes, [], [])
    else if |nodes| > g.limits.maxDagNodes then
      DagTrace(Err(TooManyNodes(|nodes|, g.limits.maxDagNodes)), nodes, [], [])
    else RunWaves(g, clock, Cfg(nodes, state, 0.0, 0), sched)
  }

  method ReadyNodes(nodes: Nodes, completed: set<Id>) returns (ready: seq<nat>)
    requires completed == DoneIds(nodes)
    ensures ready == ReadyWave(nodes)
  {
    ready := [];
    for i := 0 to |nodes|
      invariant ready == ReadyBelow(nodes, i)
    {
      if nodes[i].status.Pending? && forall d :: d in nodes[i].dependsOn ==> d in completed {
        ready := ready + [i];
      }
    }
  }

  method MarkRunning(dag: Dag, ready: seq<nat>)
    requires Indices(ready, |dag.nodes|)
    modifies dag
    ensures dag.nodes == Marked(old(dag.nodes), ready, NodeStatus.Running)
  {
    ghost var before := dag.nodes;
    for x := 0 to |ready|
      invariant dag.nodes == Marked(before, ready[..x], NodeStatus.Running)
    {
      assert ready[..x + 1] == ready[..x] + [ready[x]];
      dag.nodes := WithStatus(dag.nodes, ready[x], NodeStatus.Running);
    }
    assert ready[..|ready|] == ready;
  }

  lemma DoneAfter(nodes: Nodes, i: nat, status: NodeStatus)
    requires i < |nodes| && nodes[i].status.Running?
    ensures DoneIds(WithStatus(nodes, i, status)) ==
            DoneIds(nodes) + if status.Done? then {nodes[i].id} else {}
  {
    var after := WithStatus(nodes, i, status);
    forall k | 0 <= k < |nodes| && nodes[k].status.Done? ensures nodes[k].id in DoneIds(after) {
      assert after[k] == nodes[k];
    }
    if status.Done? { assert after[i].id == nodes[i].id; }
  }

  ghost predicate StillRunning(nodes: Nodes, order: seq<nat>) {
    && Indices(order, |nodes|)
    && (forall x :: 0 <= x < |order| ==> nodes[order[x]].status.Running?)
    && (forall x, y :: 0 <= x < y < |order| ==> order[x] != order[y])
  }

  lemma RestStillRunning(nodes: Nodes, order: seq<nat>, status: NodeStatus)
    requires StillRunning(nodes, order) && order != []
    ensures StillRunning(WithStatus(nodes, order[0], status), order[1..])
  {
  }

  /** One finished task updates its node and `completed`. */
  method JoinTask(g: Graph, ticks: Ticks, dag: Dag, state: State, w: Gathered, i: nat, done: set<Id>)
    returns (r: Collected, completed: set<Id>)
    requires dag.nodes == w.nodes && i < |w.nodes| && w.nodes[i].status.Running? && done == DoneIds(w.nodes)
    modifies dag
    ensures r == Arrive(g, ticks, state, w, i)
    ensures dag.nodes == if r.Aborted? then r.nodes else r.all.nodes
    ensures r.Collecting? ==> completed == DoneIds(dag.nodes)
  {
    completed := done;
    var name := dag.nodes[i].stepType;
    var tried := CallNode(g, NodeContext(name, 0, None, None, ticks(i)), state);
    match tried.result {
      case Success(out, _, spent) =>
        if g.BreaksNodeBudget(name, spent) {
          return Aborted(BudgetExceeded(spent, g.nodeBudgets[name]), dag.nodes), completed;
        }
        DoneAfter(dag.nodes, i, NodeStatus.Done);
        completed := completed + {dag.nodes[i].id};
        dag.nodes := WithStatus(dag.nodes, i, NodeStatus.Done);
        r := Collecting(w.(nodes := dag.nodes, states := w.states + [(i, out)], cost := w.cost + spent,
                           succeeded := w.succeeded + [name]));
      case Yield(request) =>
        DoneAfter(dag.nodes, i, NodeStatus.Yielded);
        dag.nodes := WithStatus(dag.nodes, i, NodeStatus.Yielded);
        r := Collecting(w.(nodes := dag.nodes, yielded := Some(request)));
      case OverBudget(spent, limit) =>
        dag.nodes := WithStatus(dag.nodes, i, NodeStatus.Failed);
        return Aborted(BudgetExceeded(spent, limit), dag.nodes), completed;
      case _ =>
        DoneAfter(dag.nodes, i, NodeStatus.Failed);
        dag.nodes := WithStatus(dag.nodes, i, NodeStatus.Failed);
        if g.wavePolicy.FailFast? {
          return Aborted(NodeFailed(name), dag.nodes), completed;
        }
        r := Collecting(w.(nodes := dag.nodes, failed := w.failed + [name]));
    }
  }

  lemma ArriveLeaves(g: Graph, ticks: Ticks, state: State, w: Gathered, i: nat)
    requires i < |w.nodes| && Arrive(g, ticks, state, w, i).Collecting?
    ensures exists status :: Arrive(g, ticks, state, w, i).all.nodes == WithStatus(w.nodes, i, status)
  {
  }

  /** The collection loop. */
  method CollectWave(g: Graph, ticks: Ticks, dag: Dag, state: State, order: seq<nat>, done: set<Id>)
    returns (r: Collected, completed: set<Id>)
    requires StillRunning(dag.nodes, order) && done == DoneIds(dag.nodes)
    modifies dag
    ensures r == Collect(g, ticks, state, Gathered(old(dag.nodes), [], 0.0, [], [], None), order)
    ensures dag.nodes == if r.Aborted? then r.nodes else r.all.nodes
    ensures r.Collecting? ==> completed == DoneIds(dag.nodes)
  {
    completed := done;
    var rest := order;
    var w := Gathered(dag.nodes, [], 0.0, [], [], None);
    ghost var start := w;
    while rest != []
      invariant w.nodes == dag.nodes && StillRunning(dag.nodes, rest) && completed == DoneIds(dag.nodes)
      invariant Collect(g, ticks, state, start, order) == Collect(g, ticks, state, w, rest)
      decreases |rest|
    {
      r, completed := JoinTask(g, ticks, dag, state, w, rest[0], completed);
      if r.Aborted? {
        return;
      }
      ArriveLeaves(g, ticks, state, w, rest[0]);
      ghost var status :| r.all.nodes == WithStatus(w.nodes, rest[0], status);
      RestStillRunning(w.nodes, rest, status);
      w := r.all;
      rest := rest[1..];
    }
    r := Collecting(w);
  }

  lemma MarkedRunning(nodes: Nodes, ready: seq<nat>, order: seq<nat>)
    requires ready == ReadyWave(nodes) && multiset(order) == multiset(ready)
    ensures StillRunning(Marked(nodes, ready, NodeStatus.Running), order)
    ensures DoneIds(Marked(nodes, ready, NodeStatus.Running)) == DoneIds(nodes)
  {
    OrderIsOfReady(nodes, order);
    ReadyBelowAre(nodes, |nodes|);
    DistinctOrder(order, ready);
    var after := Marked(nodes, ready, NodeStatus.Running);
    forall x | 0 <= x < |order| ensures after[order[x]].status.Running? { assert order[x] in order; }
    forall k | 0 <= k < |nodes| && nodes[k].status.Done? ensures nodes[k].id in DoneIds(after) {
      assert after[k] == nodes[k];
    }
  }

  /** One more merge. */
  lemma Extended(g: Graph, outs: seq<(nat, State)>, ms: seq<State>, k: nat, merged: State) returns (longer: seq<State>)
    requires k < |outs| && |ms| == k + 1 && merged == g.merge(ms[k], outs[k].1)
    requires forall x :: 0 <= x < k ==> MergedAt(g, outs, ms, x)
    ensures longer == ms + [merged] && forall x :: 0 <= x < k + 1 ==> MergedAt(g, outs, longer, x)
  {
    longer := ms + [merged];
    forall x | 0 <= x < k ensures MergedAt(g, outs, longer, x) { assert MergedAt(g, outs, ms, x); }
  }

  /** The checks and the merge after a wave was collected, up to its durable write. */
  method MergeWave(g: Graph, c: Cfg, ready: seq<nat>, w: Gathered) returns (r: WaveResult)
    ensures r == AfterWave(g, c, ready, w)
  {
    if w.failed != [] {
      return Stop(Err(PartialWaveFailure(w.succeeded, w.failed)), w.nodes, None);
    }
    if w.yielded.Some? {
      var waiting := Joined(NamesWith(w.nodes, NodeStatus.Yielded, NodeStatus.Pending));
      return Stop(Ok(c.state), w.nodes, Some(DagSave(c.state, waiting, w.nodes, CheckpointStatus.Yielded, w.yielded)));
    }
    var sorted := ByIndex(w.states);
    var merged := c.state;
    ghost var ms := [c.state];
    for k := 0 to |sorted|
      invariant |ms| == k + 1 && ms[0] == c.state && ms[k] == merged
      invariant forall x :: 0 <= x < k ==> MergedAt(g, sorted, ms, x)
    {
      merged := g.merge(merged, sorted[k].1);
      ms := Extended(g, sorted, ms, k, merged);
    }
    MergeAllIs(g, c.state, sorted, ms);
    var spent := c.cost + w.cost;
    if g.BreaksBudget(spent) {
      return Stop(Err(BudgetExceeded(spent, g.budget.value)), w.nodes, None);
    }
    var save := DagSave(merged, FirstPending(w.nodes), w.nodes, Complete, None);
    if Meets(c.nodes, ready, g.interruptAfter) {
      return Stop(Ok(merged), w.nodes, Some(save));
    }
    r := Advance(Cfg(w.nodes, merged, spent, c.wave + 1), save);
  }

  /** A wave that was launched, up to its durable write. */
  method LaunchWave(g: Graph, clock: Clock, dag: Dag, c: Cfg, ready: seq<nat>, order: seq<nat>, done: set<Id>)
    returns (r: WaveResult, completed: set<Id>)
    requires Indices(order, |c.nodes|) && multiset(order) == multiset(ready) && ready == ReadyWave(c.nodes)
    requires dag.nodes == Marked(c.nodes, ready, NodeStatus.Running) && done == DoneIds(c.nodes)
    modifies dag
    ensures r == Launched(g, clock, c, order)
    ensures dag.nodes == NodesOf(r)
    ensures r.Advance? ==> completed == DoneIds(dag.nodes)
  {
    MarkedRunning(c.nodes, ready, order);
    var collected;
    collected, completed := CollectWave(g, clock(c.wave), dag, c.state, order, done);
    match collected
    case Aborted(e, nodes) =>
      r := Stop(Err(e), nodes, None);
    case Collecting(w) =>
      r := MergeWave(g, c, ready, w);
      AfterWaveNodes(g, c, ready, w);
  }

  /** The body of the loop up to its durable write. */
  method WaveTurn(g: Graph, clock: Clock, dag: Dag, c: Cfg, done: set<Id>, sched: Schedule)
    returns (r: WaveResult, completed: set<Id>)
    requires dag.nodes == c.nodes && done == DoneIds(dag.nodes)
    modifies dag
    ensures r == Wave(g, clock, c, Order(sched, c))
    ensures dag.nodes == NodesOf(r)
    ensures r.Advance? ==> completed == DoneIds(dag.nodes)
  {
    completed := done;
    var ready := ReadyNodes(dag.nodes, completed);
    if ready == [] {
      var pending := NamesWith(dag.nodes, NodeStatus.Pending, NodeStatus.Pending);
      return Stop(if pending != [] then Err(DagDeadlock(pending)) else Ok(c.state), dag.nodes, None), completed;
    }
    if c.wave > 0 && Meets(dag.nodes, ready, g.interruptBefore) {
      var save := DagSave(c.state, Joined(StepTypes(dag.nodes, ready)), dag.nodes, Interrupted, None);
      return Stop(Ok(c.state), dag.nodes, Some(save)), completed;
    }
    var order := Order(sched, c);
    OrderIsOfReady(dag.nodes, ready);
    MarkRunning(dag, ready);
    var missing := Unregistered(g, c.nodes, ready);
    if missing.Some? {
      return Stop(Err(NodeNotFound(missing.value)), dag.nodes, None), completed;
    }
    r, completed := LaunchWave(g, clock, dag, c, ready, order, completed);
  }

  /** A run from `start` that has written `saves` and now stands at `c`. */
  ghost predicate ReachedWave(g: Graph, clock: Clock, start: Cfg, c: Cfg, sched: Schedule, saves: seq<Snapshot>) {
    var whole, rest := RunWaves(g, clock, start, sched), RunWaves(g, clock, c, sched);
    whole.result == rest.result && whole.nodes == rest.nodes && whole.saves == saves + rest.saves
  }

  lemma WaveStops(g: Graph, clock: Clock, start: Cfg, c: Cfg, sched: Schedule, saves: seq<Snapshot>)
    requires ReachedWave(g, clock, start, c, sched, saves) && Wave(g, clock, c, Order(sched, c)).Stop?
    ensures var turn, whole := Wave(g, clock, c, Order(sched, c)), RunWaves(g, clock, start, sched);
            whole.result == turn.result && whole.nodes == turn.nodes && whole.saves == saves + ToSeq(turn.saved)
  {
  }

  lemma OneWaveMore(g: Graph, clock: Clock, c: Cfg, sched: Schedule)
    requires Wave(g, clock, c, Order(sched, c)).Advance?
    ensures var turn := Wave(g, clock, c, Order(sched, c));
            && Pendings(turn.next.nodes) < Pendings(c.nodes)
            && var whole, rest := RunWaves(g, clock, c, sched), RunWaves(g, clock, turn.next, sched);
            whole.result == rest.result && whole.nodes == rest.nodes && whole.saves == [turn.save] + rest.saves
  {
    WaveProgresses(g, clock, c, Order(sched, c));
  }

  lemma WaveMoves(g: Graph, clock: Clock, start: Cfg, c: Cfg, sched: Schedule, saves: seq<Snapshot>)
    requires ReachedWave(g, clock, start, c, sched, saves) && Wave(g, clock, c, Order(sched, c)).Advance?
    ensures var turn := Wave(g, clock, c, Order(sched, c));
            && ReachedWave(g, clock, start, turn.next, sched, saves + [turn.save])
            && Pendings(turn.next.nodes) < Pendings(c.nodes)
  {
    OneWaveMore(g, clock, c, sched);
    var turn := Wave(g, clock, c, Order(sched, c));
    var rest := RunWaves(g, clock, turn.next, sched);
    assert saves + ([turn.save] + rest.saves) == saves + [turn.save] + rest.saves;
  }

  /** The run from `start`, having written `saves`, stops with this. */
  ghost predicate StopsWith(g: Graph, clock: Clock, start: Cfg, sched: Schedule, saves: seq<Snapshot>,
                            result: Result<State, Error>, nodes: Nodes, saved: Option<Snapshot>) {
    var whole := RunWaves(g, clock, start, sched);
    whole.result == result && whole.nodes == nodes && whole.saves == saves + ToSeq(saved)
  }

  /** One turn of a run that began at `start` and has written `saves`. */
  method NextTurn(g: Graph, clock: Clock, dag: Dag, at: Cfg, done: set<Id>, sched: Schedule,
                  ghost start: Cfg, ghost saves: seq<Snapshot>)
    returns (r: WaveResult, completed: set<Id>)
    requires dag.nodes == at.nodes && done == DoneIds(dag.nodes) && ReachedWave(g, clock, start, at, sched, saves)
    modifies dag
    ensures dag.nodes == NodesOf(r)
    ensures r.Stop? ==> StopsWith(g, clock, start, sched, saves, r.result, r.nodes, r.saved)
    ensures r.Advance? ==>
              && completed == DoneIds(dag.nodes)
              && ReachedWave(g, clock, start, r.next, sched, saves + [r.save])
              && Pendings(r.next.nodes) < Pendings(at.nodes)
  {
    r, completed := WaveTurn(g, clock, dag, at, done, sched);
    if r.Stop? {
      WaveStops(g, clock, start, at, sched, saves);
    } else {
      WaveMoves(g, clock, start, at, sched, saves);
    }
  }

  /** The loop. The tasks of wave `k` finish in the order `sched(k)`. Nobody else writes to
      the thread, so every write goes through. */
  method RunLoop(g: Graph, clock: Clock, thread: Name, dag: Dag, initial: State, store: Checkpointer, sched: Schedule)
    returns (result: Result<State, Error>)
    requires store.Valid()
    modifies store, dag
    ensures store.Valid()
    ensures var t := RunWaves(g, clock, Cfg(old(dag.nodes), initial, 0.0, 0), sched);
            && result == t.result && dag.nodes == t.nodes
            && store.LogOf(thread) == Sequential.Appended(old(store.LogOf(thread)), old(store.nextId), t.saves)
            && store.nextId == old(store.nextId) + |t.saves|
    ensures forall t :: t != thread ==> store.LogOf(t) == old(store.LogOf(t))
  {
    var at := Cfg(dag.nodes, initial, 0.0, 0);
    var completed := DoneIds(dag.nodes);
    var expectedHead := store.CurrentHead(thread);
    ghost var start := at;
    ghost var saves: seq<Snapshot> := [];
    ghost var log, firstId := store.LogOf(thread), store.nextId;
    while true
      invariant store.Valid() && at.nodes == dag.nodes && completed == DoneIds(dag.nodes)
      invariant store.checksHeads ==> expectedHead == store.HeadOf(thread)
      invariant store.nextId == firstId + |saves| && store.LogOf(thread) == Sequential.Appended(log, firstId, saves)
      invariant forall t :: t != thread ==> store.LogOf(t) == old(store.LogOf(t))
      invariant ReachedWave(g, clock, start, at, sched, saves)
      decreases Pendings(at.nodes)
    {
      var turn;
      turn, completed := NextTurn(g, clock, dag, at, completed, sched, start, saves);
      match turn
      case Stop(stopped, _, saved) =>
        if saved.Some? {
          var id := Sequential.Write(thread, saved.value, store, expectedHead, saves, firstId, log);
        } else {
          assert saves + ToSeq(saved) == saves;
        }
        return stopped;
      case Advance(next, save) =>
        var id := Sequential.Write(thread, save, store, expectedHead, saves, firstId, log);
        expectedHead := Some(id);
        saves := saves + [save];
        at := next;
    }
  }

  method RunDag(g: Graph, clock: Clock, thread: Name, dag: Dag, initial: State, store: Checkpointer, sched: Schedule,
                depth: u8)
    returns (result: Result<State, Error>)
    requires store.Valid()
    modifies store, dag
    ensures store.Valid()
    ensures var t := DagOutcome(g, clock, old(dag.nodes), initial, sched, depth);
            && result == t.result && dag.nodes == t.nodes
            && store.LogOf(thread) == Sequential.Appended(old(store.LogOf(thread)), old(store.nextId), t.saves)
            && store.nextId == old(store.nextId) + |t.saves|
    ensures forall t :: t != thread ==> store.LogOf(t) == old(store.LogOf(t))
  {
    if depth > MAX_DEPTH {
      return Err(RecursionLimitExceeded(depth, MAX_DEPTH));
    }
    if |dag.nodes| > g.limits.maxDagNodes {
      return Err(TooManyNodes(|dag.nodes|, g.limits.maxDagNodes));
    }
    result := RunLoop(g, clock, thread, dag, initial, store, sched);
  }

  /** What a crash policy makes of nodes that were running. */
  function Recovered(nodes: Nodes, status: NodeStatus): Nodes {
    seq(|nodes|, i requires 0 <= i < |nodes| =>
      if nodes[i].status.Running? then nodes[i].(status := status) else nodes[i])
  }

  /** The statuses `resume_dag` starts from, given the caller's DAG and the latest record. */
  function ResumeNodes(g: Graph, nodes: Nodes, loaded: Snapshot): Result<Nodes, Error>
    requires loaded.dag.Some?
  {
    var restored := Restored(nodes, loaded.dag.value);
    if !loaded.status.Running? then Ok(restored)
    else match g.crashPolicy
      case FailFastOnCrash => Err(CrashDetected)
      case ResetToPending => Ok(Recovered(restored, NodeStatus.Pending))
      case SkipAndContinue => Ok(Recovered(restored, NodeStatus.Done))
  }

  method RecoverRunning(dag: Dag, status: NodeStatus)
    modifies dag
    ensures dag.nodes == Recovered(old(dag.nodes), status)
  {
    ghost var before := dag.nodes;
    for i := 0 to |dag.nodes|
      invariant |dag.nodes| == |before|
      invariant forall k :: 0 <= k < |before| ==>
                dag.nodes[k] == if k < i then Recovered(before, status)[k] else before[k]
    {
      if dag.nodes[i].status.Running? {
        dag.nodes := WithStatus(dag.nodes, i, status);
      }
    }
  }

  method ResumeDag(g: Graph, clock: Clock, thread: Name, dag: Dag, store: Checkpointer, sched: Schedule, depth: u8)
    returns (r: Result<Option<State>, Error>)
    requires store.Valid()
    modifies store, dag
    ensures store.Valid()
    ensures var log := old(store.LogOf(thread));
            if log == [] || Last(log).body.dag.None? then
              r == Ok(None) && unchanged(store) && unchanged(dag)
            else match ResumeNodes(g, old(dag.nodes), Last(log).body)
              case Err(e) => r == Err(e) && unchanged(store) && unchanged(dag)
              case Ok(nodes) =>
                var t := DagOutcome(g, clock, nodes, Last(log).body.state, sched, depth);
                && dag.nodes == t.nodes
                && store.LogOf(thread) == Sequential.Appended(log, old(store.nextId), t.saves)
                && store.nextId == old(store.nextId) + |t.saves|
                && r == (match t.result case Ok(s) => Ok(Some(s)) case Err(e) => Err(e))
    ensures forall t :: t != thread ==> store.LogOf(t) == old(store.LogOf(t))
  {
    var loaded := store.LoadState(thread);
    if loaded.None? || loaded.value.body.dag.None? {
      return Ok(None);
    }
    var body := loaded.value.body;
    if body.status.Running? && g.crashPolicy.FailFastOnCrash? {
      return Err(CrashDetected);
    }
    dag.RestoreStatuses(body.dag.value);
    if body.status.Running? {
      RecoverRunning(dag, if g.crashPolicy.ResetToPending? then NodeStatus.Pending else NodeStatus.Done);
    }
    var result := RunDag(g, clock, thread, dag, body.state, store, sched, depth);
    match result
    case Ok(s) => r := Ok(Some(s));
    case Err(e) => r := Err(e);
  }
}
