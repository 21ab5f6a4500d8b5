/** What a wave run writes: atomicity of waves, records of yields, and the budget. */
module WaveDurability {
  import opened Types
  import opened Executor
  import opened Dags
  import opened Waves
  import opened WaveConfluence
  import opened Deadlock

  /** The configuration after one completed wave. */
  function NextCfg(g: Graph, clock: Clock, c: Cfg): Cfg {
    Cfg(NextNodes(c.nodes), NextState(g, clock(c.wave), c.nodes, c.state), NextCost(g, clock, c), c.wave + 1)
  }

  /** The configurations at the wave boundaries of a run, each one wave after the other. */
  ghost predicate Linked(g: Graph, clock: Clock, bs: seq<Cfg>) {
    forall k :: 0 <= k < |bs| ==> LinkedAt(g, clock, bs, k)
  }

  ghost predicate LinkedAt(g: Graph, clock: Clock, bs: seq<Cfg>, k: nat) {
    k + 1 < |bs| ==> bs[k + 1] == NextCfg(g, clock, bs[k])
  }

  /** The status a task that did not fail gives its node. */
  function TaskStatus(g: Graph, tick: nat, name: Name, state: State): NodeStatus {
    if TaskResult(g, tick, name, state).Success? then NodeStatus.Done else NodeStatus.Yielded
  }

  /** The nodes a wave with a yield leaves: every node of the wave is done or yielded, as its
      own task went, at least one yielded; the others are untouched. */
  predicate YieldedWave(g: Graph, clock: Clock, c: Cfg, after: Nodes) {
    && MarkedAs(g, clock(c.wave), c.state, c.nodes, ReadyWave(c.nodes), after)
    && exists i :: i in ReadyWave(c.nodes) && i < |after| && after[i].status.Yielded?
  }

  predicate MarkedAs(g: Graph, ticks: Ticks, state: State, before: Nodes, order: seq<nat>, after: Nodes) {
    && |after| == |before|
    && forall i :: 0 <= i < |before| ==>
         after[i] ==
         if i in order then before[i].(status := TaskStatus(g, ticks(i), before[i].stepType, state)) else before[i]
  }

  predicate AnyYielded(nodes: Nodes, order: seq<nat>) {
    exists x :: 0 <= x < |order| && order[x] < |nodes| && nodes[order[x]].status.Yielded?
  }

  /** One task that did not fail. */
  lemma ArriveMarks(g: Graph, ticks: Ticks, state: State, w: Gathered, i: nat)
    requires i < |w.nodes|
    requires var r := Arrive(g, ticks, state, w, i); r.Collecting? && r.all.failed == []
    ensures var status, next := TaskStatus(g, ticks(i), w.nodes[i].stepType, state), Arrive(g, ticks, state, w, i).all;
            && w.failed == [] && next.nodes == WithStatus(w.nodes, i, status)
            && (next.yielded.Some? <==> w.yielded.Some? || status.Yielded?)
  {
  }

  lemma MarksPrepend(g: Graph, ticks: Ticks, state: State, before: Nodes, order: seq<nat>, after: Nodes)
    requires order != [] && order[0] < |before|
    requires var status := TaskStatus(g, ticks(order[0]), before[order[0]].stepType, state);
             MarkedAs(g, ticks, state, WithStatus(before, order[0], status), order[1..], after)
    ensures MarkedAs(g, ticks, state, before, order, after)
    ensures AnyYielded(after, order) <==>
            TaskStatus(g, ticks(order[0]), before[order[0]].stepType, state).Yielded? || AnyYielded(after, order[1..])
  {
    assert order == [order[0]] + order[1..];
    forall x | 0 <= x < |order| - 1 ensures order[1..][x] == order[x + 1] {}
    assert after[order[0]].status == TaskStatus(g, ticks(order[0]), before[order[0]].stepType, state);
  }

  /** A wave in which no task failed. */
  lemma {:induction false} CollectMarks(g: Graph, ticks: Ticks, state: State, w: Gathered, order: seq<nat>)
    requires Indices(order, |w.nodes|)
    requires var r := Collect(g, ticks, state, w, order); r.Collecting? && r.all.failed == []
    ensures var r := Collect(g, ticks, state, w, order);
            && w.failed == [] && MarkedAs(g, ticks, state, w.nodes, order, r.all.nodes)
            && (r.all.yielded.Some? <==> w.yielded.Some? || AnyYielded(r.all.nodes, order))
    decreases |order|
  {
    if order != [] {
      var next := Arrive(g, ticks, state, w, order[0]).all;
      var r := Collect(g, ticks, state, next, order[1..]);
      CollectMarks(g, ticks, state, next, order[1..]);
      ArriveMarks(g, ticks, state, w, order[0]);
      MarksPrepend(g, ticks, state, w.nodes, order, r.all.nodes);
    }
  }

  /** A record written between two wave boundaries. */
  ghost predicate Recorded(g: Graph, clock: Clock, before: Cfg, after: Cfg, save: Snapshot) {
    && save.dag.Some? && save.resolved.None? && save.claimed.None?
    && match save.status
       case Complete => PointOf(save) == Here(after) &&
           WaveSucceeds(g, clock(before.wave), before.nodes, before.state) &&
           !g.BreaksBudget(after.cost)
       case Interrupted => PointOf(save) == Here(before)
       case Yielded => save.yieldRequest.Some? && save.state == before.state &&
           YieldedWave(g, clock, before, save.dag.value)
       case _ => false
  }

  predicate WaveIs(bs: seq<Cfg>, waves: seq<seq<nat>>, k: nat) {
    k < |bs| && k < |waves| && waves[k] == ReadyWave(bs[k].nodes)
  }

  ghost predicate RecordFits(g: Graph, clock: Clock, bs: seq<Cfg>, saves: seq<Snapshot>, k: nat) {
    k < |saves| && k + 1 < |bs| && Recorded(g, clock, bs[k], bs[k + 1], saves[k])
  }

  /** Everything a run does and writes, by its wave boundaries. */
  ghost predicate RecordsFit(g: Graph, clock: Clock, bs: seq<Cfg>, t: DagTrace) {
    && |bs| == |t.waves| + 2
    && |t.waves| <= |t.saves| <= |t.waves| + 1
    && (forall k :: 0 <= k < |t.waves| ==> WaveIs(bs, t.waves, k) && t.saves[k].status.Complete?)
    && (forall k :: 0 <= k < |t.saves| ==> RecordFits(g, clock, bs, t.saves, k))
    && (t.result.Err? ==> |t.saves| == |t.waves|)
  }

  lemma EarlyRecord(g: Graph, clock: Clock, c: Cfg)
    requires Early(g, c).Some? && Early(g, c).value.saved.Some?
    ensures Recorded(g, clock, c, NextCfg(g, clock, c), Early(g, c).value.saved.value) && Early(g, c).value.result.Ok?
  {
  }

  lemma StopRecord(g: Graph, clock: Clock, c: Cfg, order: seq<nat>)
    requires multiset(order) == multiset(ReadyWave(c.nodes)) && Indices(order, |c.nodes|)
    requires Wave(g, clock, c, order).Stop? && Wave(g, clock, c, order).saved.Some?
    ensures Recorded(g, clock, c, NextCfg(g, clock, c), Wave(g, clock, c, order).saved.value)
    ensures Wave(g, clock, c, order).result.Ok?
  {
    if Early(g, c).Some? {
      EarlyRecord(g, clock, c);
    } else {
      LaunchedRecord(g, clock, c, order);
    }
  }

  lemma LaunchedRecord(g: Graph, clock: Clock, c: Cfg, order: seq<nat>)
    requires multiset(order) == multiset(ReadyWave(c.nodes)) && Indices(order, |c.nodes|)
    requires var r := Launched(g, clock, c, order); r.Stop? && r.saved.Some?
    ensures var r := Launched(g, clock, c, order);
            Recorded(g, clock, c, NextCfg(g, clock, c), r.saved.value) && r.result.Ok?
  {
    var r := Launched(g, clock, c, order);
    if r.saved.value.status.Complete? {
      CompletesExactly(g, clock, c, order);
      Confluence(g, clock, c, order);
    } else {
      YieldRecord(g, clock, c, order);
    }
  }

  lemma YieldRecord(g: Graph, clock: Clock, c: Cfg, order: seq<nat>)
    requires multiset(order) == multiset(ReadyWave(c.nodes)) && Indices(order, |c.nodes|)
    requires var r := Launched(g, clock, c, order); r.Stop? && r.saved.Some? && !r.saved.value.status.Complete?
    ensures var r := Launched(g, clock, c, order);
            && r.result == Ok(c.state) && YieldedWave(g, clock, c, r.nodes)
            && r.saved.value.status.Yielded? && r.saved.value.yieldRequest.Some?
            && r.saved.value.dag == Some(r.nodes) && r.saved.value.state == c.state
            && r.saved.value.resolved.None? && r.saved.value.claimed.None?
  {
    var ready := ReadyWave(c.nodes);
    SameMembers(order, ready);
    ReadyBelowAre(c.nodes, |c.nodes|);
    var w := Waves.Fresh(c.nodes, ready);
    CollectMarks(g, clock(c.wave), c.state, w, order);
    MixedIs(g, clock, c, order, Collect(g, clock(c.wave), c.state, w, order).all.nodes);
  }

  lemma MixedIs(g: Graph, clock: Clock, c: Cfg, order: seq<nat>, after: Nodes)
    requires forall i :: i in order <==> i in ReadyWave(c.nodes)
    requires MarkedAs(g, clock(c.wave), c.state, Marked(c.nodes, ReadyWave(c.nodes), NodeStatus.Running), order, after)
    requires AnyYielded(after, order)
    ensures YieldedWave(g, clock, c, after)
  {
    var x :| 0 <= x < |order| && order[x] < |after| && after[order[x]].status.Yielded?;
    assert order[x] in order;
  }

  lemma RecordsPrepend(g: Graph, clock: Clock, c: Cfg, bs: seq<Cfg>, save: Snapshot, t: DagTrace)
    requires RecordsFit(g, clock, bs, t) && Recorded(g, clock, c, bs[0], save) && save.status.Complete?
    ensures var longer := DagTrace(t.result, t.nodes, [save] + t.saves, [ReadyWave(c.nodes)] + t.waves);
            RecordsFit(g, clock, [c] + bs, longer)
  {
    var saves, waves := [save] + t.saves, [ReadyWave(c.nodes)] + t.waves;
    forall k | 0 <= k < |saves| ensures RecordFits(g, clock, [c] + bs, saves, k) {
      if k > 0 { assert RecordFits(g, clock, bs, t.saves, k - 1); }
    }
    forall k | 0 <= k < |waves| ensures WaveIs([c] + bs, waves, k) && saves[k].status.Complete? {
      if k > 0 { assert WaveIs(bs, t.waves, k - 1); }
    }
  }

  lemma LinkedPrepend(g: Graph, clock: Clock, c: Cfg, bs: seq<Cfg>)
    requires Linked(g, clock, bs) && bs != [] && bs[0] == NextCfg(g, clock, c)
    ensures Linked(g, clock, [c] + bs)
  {
    forall k | 0 <= k < |bs| + 1 ensures LinkedAt(g, clock, [c] + bs, k) {
      if k > 0 { assert LinkedAt(g, clock, bs, k - 1); }
    }
  }

  /** Durable wave atomicity. The run passes wave boundaries `bs`, each the merge of one wave
      of succeeding tasks after the other. Every record but the last is a boundary: exactly
      its statuses, its state, and a cost within the budget. The last may instead repeat the
      boundary before an interrupt, or open a gate. A run that ends in an error wrote
      nothing for its last wave. */
  lemma {:induction false} WritesOnlyBoundaries(g: Graph, clock: Clock, c: Cfg, sched: Schedule) returns (bs: seq<Cfg>)
    ensures bs != [] && bs[0] == c && Linked(g, clock, bs)
    ensures RecordsFit(g, clock, bs, RunWaves(g, clock, c, sched))
    decreases Pendings(c.nodes)
  {
    var order := Order(sched, c);
    WaveProgresses(g, clock, c, order);
    var turn := Wave(g, clock, c, order);
    if turn.Advance? {
      AdvanceIsNext(g, clock, c, sched);
      var rest := WritesOnlyBoundaries(g, clock, turn.next, sched);
      RecordsPrepend(g, clock, c, rest, turn.save, RunWaves(g, clock, turn.next, sched));
      LinkedPrepend(g, clock, c, rest);
      bs := [c] + rest;
    } else {
      bs := [c, NextCfg(g, clock, c)];
      StopsAtOnce(g, clock, c, sched, bs);
    }
  }

  lemma StopsAtOnce(g: Graph, clock: Clock, c: Cfg, sched: Schedule, bs: seq<Cfg>)
    requires Wave(g, clock, c, Order(sched, c)).Stop? && bs == [c, NextCfg(g, clock, c)]
    ensures Linked(g, clock, bs) && RecordsFit(g, clock, bs, RunWaves(g, clock, c, sched))
  {
    var turn, t := Wave(g, clock, c, Order(sched, c)), RunWaves(g, clock, c, sched);
    assert t == DagTrace(turn.result, turn.nodes, ToSeq(turn.saved), []);
    if turn.saved.Some? {
      StopRecord(g, clock, c, Order(sched, c));
    }
  }

  /** No node running or failed, and everything a done node depends on done. */
  predicate Consistent(nodes: Nodes) {
    && (forall i :: 0 <= i < |nodes| ==> !nodes[i].status.Running? && !nodes[i].status.Failed?)
    && (forall i :: 0 <= i < |nodes| && nodes[i].status.Done? ==> DepsDone(nodes, nodes[i].dependsOn))
  }

  predicate DepsDone(nodes: Nodes, deps: seq<Id>) {
    forall d :: d in deps ==> d in DoneIds(nodes)
  }

  /** Completing or yielding ready nodes keeps a DAG consistent. */
  lemma ReadyKeepsConsistent(before: Nodes, after: Nodes)
    requires Consistent(before) && |after| == |before|
    requires forall i :: 0 <= i < |before| ==>
               after[i] == before[i] ||
               (Ready(before, i) && after[i] == before[i].(status := after[i].status) &&
                (after[i].status.Done? || after[i].status.Yielded?))
    ensures Consistent(after)
  {
    forall i: nat | i < |before| && before[i].status.Done? ensures before[i].id in DoneIds(after) {
      assert after[i] == before[i];
    }
    assert DoneIds(before) <= DoneIds(after);
    forall i: nat | i < |after| && after[i].status.Done? ensures DepsDone(after, after[i].dependsOn) {
      assert DepsDone(before, before[i].dependsOn);
    }
  }

  lemma NextKeepsConsistent(nodes: Nodes)
    requires Consistent(nodes)
    ensures Consistent(NextNodes(nodes))
  {
    forall i: nat | i < |nodes| ensures i in ReadyWave(nodes) <==> Ready(nodes, i) { ReadyIsReady(nodes, i); }
    ReadyKeepsConsistent(nodes, NextNodes(nodes));
  }

  lemma YieldKeepsConsistent(g: Graph, clock: Clock, c: Cfg, after: Nodes)
    requires Consistent(c.nodes) && YieldedWave(g, clock, c, after)
    ensures Consistent(after)
  {
    forall i: nat | i < |after| ensures i in ReadyWave(c.nodes) <==> Ready(c.nodes, i) { ReadyIsReady(c.nodes, i); }
    ReadyKeepsConsistent(c.nodes, after);
  }

  lemma {:induction false} BoundariesConsistent(g: Graph, clock: Clock, bs: seq<Cfg>, k: nat)
    requires Linked(g, clock, bs) && k < |bs| && Consistent(bs[0].nodes)
    ensures Consistent(bs[k].nodes)
    decreases k
  {
    if k > 0 {
      BoundariesConsistent(g, clock, bs, k - 1);
      assert LinkedAt(g, clock, bs, k - 1);
      NextKeepsConsistent(bs[k - 1].nodes);
    }
  }

  /** From nodes that are consistent, every record of every run is: no running or failed
      node, and done nodes only on top of done nodes, gates included. */
  lemma RecordsConsistent(g: Graph, clock: Clock, c: Cfg, sched: Schedule, k: nat)
    requires Consistent(c.nodes) && k < |RunWaves(g, clock, c, sched).saves|
    ensures Consistent(PointOf(RunWaves(g, clock, c, sched).saves[k]).nodes)
  {
    var t := RunWaves(g, clock, c, sched);
    var bs := WritesOnlyBoundaries(g, clock, c, sched);
    RecordConsistentAt(g, clock, bs, t, k);
  }

  lemma RecordConsistentAt(g: Graph, clock: Clock, bs: seq<Cfg>, t: DagTrace, k: nat)
    requires RecordsFit(g, clock, bs, t) && Linked(g, clock, bs) && Consistent(bs[0].nodes) && k < |t.saves|
    ensures Consistent(PointOf(t.saves[k]).nodes)
  {
    assert RecordFits(g, clock, bs, t.saves, k);
    BoundariesConsistent(g, clock, bs, k);
    BoundariesConsistent(g, clock, bs, k + 1);
    RecordConsistent(g, clock, bs[k], bs[k + 1], t.saves[k]);
  }

  lemma RecordConsistent(g: Graph, clock: Clock, before: Cfg, after: Cfg, save: Snapshot)
    requires Recorded(g, clock, before, after, save) && Consistent(before.nodes) && Consistent(after.nodes)
    ensures Consistent(PointOf(save).nodes)
  {
    if save.status.Yielded? { YieldKeepsConsistent(g, clock, before, save.dag.value); }
  }

  predicate SomeSucceeded(g: Graph, clock: Clock, c: Cfg) {
    exists i :: i in ReadyWave(c.nodes) && i < |c.nodes| &&
        TaskResult(g, clock(c.wave)(i), c.nodes[i].stepType, c.state).Success?
  }

  predicate SameDone(a: Nodes, b: Nodes) {
    |a| == |b| && forall i :: 0 <= i < |a| ==> (a[i].status.Done? <==> b[i].status.Done?)
  }

  /** A gate opened by a wave keeps the state from before the wave. Its done nodes are those
      of that state exactly when no task of the wave succeeded; otherwise the record has
      nodes done whose results it does not hold. */
  lemma GatePairsExactly(g: Graph, clock: Clock, c: Cfg, after: Nodes)
    requires YieldedWave(g, clock, c, after)
    ensures SameDone(after, c.nodes) <==> !SomeSucceeded(g, clock, c)
  {
    forall i: nat | i < |after| ensures i in ReadyWave(c.nodes) <==> Ready(c.nodes, i) { ReadyIsReady(c.nodes, i); }
    if SomeSucceeded(g, clock, c) {
      var i :| i in ReadyWave(c.nodes) && i < |c.nodes| &&
          TaskResult(g, clock(c.wave)(i), c.nodes[i].stepType, c.state).Success?;
      assert after[i].status.Done? && !c.nodes[i].status.Done?;
    }
  }

  /** No run, hence no resume, changes a node that is not pending: a yielded node stays
      yielded for good. */
  lemma {:induction false} OnlyPendingRuns(g: Graph, clock: Clock, c: Cfg, sched: Schedule, i: nat)
    requires i < |c.nodes| && !c.nodes[i].status.Pending?
    ensures var after := RunWaves(g, clock, c, sched).nodes; i < |after| && after[i] == c.nodes[i]
    decreases Pendings(c.nodes)
  {
    var order := Order(sched, c);
    WaveProgresses(g, clock, c, order);
    WaveSettles(g, clock, c, order);
    ReadyIsReady(c.nodes, i);
    var turn := Wave(g, clock, c, order);
    if turn.Advance? { OnlyPendingRuns(g, clock, turn.next, sched, i); }
  }

  /** A run that ends over budget after a wave of succeeding tasks reports the cost of the
      boundary that wave would have been. */
  ghost predicate OverspendReported(g: Graph, clock: Clock, bs: seq<Cfg>, t: DagTrace) {
    var n := |t.waves|;
    && |bs| == n + 2
    && (t.result.Err? && t.result.error.BudgetExceeded? &&
        WaveSucceeds(g, clock(bs[n].wave), bs[n].nodes, bs[n].state) ==>
         g.BreaksBudget(bs[n + 1].cost) && t.result.error == BudgetExceeded(bs[n + 1].cost, g.budget.value))
  }

  lemma OverspendStops(g: Graph, clock: Clock, c: Cfg, order: seq<nat>)
    requires multiset(order) == multiset(ReadyWave(c.nodes)) && Indices(order, |c.nodes|)
    requires var turn := Wave(g, clock, c, order);
             turn.Stop? && turn.result.Err? && turn.result.error.BudgetExceeded? &&
                 WaveSucceeds(g, clock(c.wave), c.nodes, c.state)
    ensures var spent := NextCost(g, clock, c);
            g.BreaksBudget(spent) && Wave(g, clock, c, order).result == Err(BudgetExceeded(spent, g.budget.value))
  {
    if Early(g, c).None? { Confluence(g, clock, c, order); }
  }

  lemma OverspendShift(g: Graph, clock: Clock, bs: seq<Cfg>, rest: DagTrace, t: DagTrace)
    requires |bs| > 0 && OverspendReported(g, clock, bs[1..], rest)
    requires t.result == rest.result && |t.waves| == |rest.waves| + 1
    ensures OverspendReported(g, clock, bs, t)
  {
    assert bs[1..][|rest.waves|] == bs[|t.waves|] && bs[1..][|rest.waves| + 1] == bs[|t.waves| + 1];
  }

  lemma LinkedTail(g: Graph, clock: Clock, bs: seq<Cfg>)
    requires Linked(g, clock, bs) && |bs| > 1
    ensures bs[1] == NextCfg(g, clock, bs[0]) && Linked(g, clock, bs[1..])
  {
    assert LinkedAt(g, clock, bs, 0);
    forall k | 0 <= k < |bs| - 1 ensures LinkedAt(g, clock, bs[1..], k) { assert LinkedAt(g, clock, bs, k + 1); }
  }

  lemma {:induction false} OverspendIsReported(g: Graph, clock: Clock, c: Cfg, sched: Schedule, bs: seq<Cfg>)
    requires Linked(g, clock, bs) && |bs| == |RunWaves(g, clock, c, sched).waves| + 2 && bs[0] == c
    ensures OverspendReported(g, clock, bs, RunWaves(g, clock, c, sched))
    decreases Pendings(c.nodes)
  {
    var order := Order(sched, c);
    WaveProgresses(g, clock, c, order);
    var turn := Wave(g, clock, c, order);
    LinkedTail(g, clock, bs);
    if turn.Advance? {
      AdvanceIsNext(g, clock, c, sched);
      OverspendIsReported(g, clock, turn.next, sched, bs[1..]);
      OverspendShift(g, clock, bs, RunWaves(g, clock, turn.next, sched), RunWaves(g, clock, c, sched));
    } else if turn.result.Err? && turn.result.error.BudgetExceeded? &&
        WaveSucceeds(g, clock(c.wave), c.nodes, c.state) {
      OverspendStops(g, clock, c, order);
    }
  }

  lemma RecordedWithinBudget(g: Graph, clock: Clock, bs: seq<Cfg>, t: DagTrace, k: nat)
    requires RecordsFit(g, clock, bs, t) && 0 < k <= |t.waves|
    ensures !g.BreaksBudget(bs[k].cost)
  {
    assert WaveIs(bs, t.waves, k - 1) && t.saves[k - 1].status.Complete?;
    assert RecordFits(g, clock, bs, t.saves, k - 1);
  }

  /** The DAG budget bound. Whatever the tasks cost, every completed boundary a run records is
      within the budget; and a run that ends over the budget after a wave of succeeding
      tasks reports exactly the cost of the boundary it did not record, with the boundary
      before it, where its last record stands, still within the budget. */
  lemma DagBudget(g: Graph, clock: Clock, c: Cfg, sched: Schedule) returns (bs: seq<Cfg>)
    requires !g.BreaksBudget(c.cost)
    ensures bs != [] && bs[0] == c && Linked(g, clock, bs)
    ensures RecordsFit(g, clock, bs, RunWaves(g, clock, c, sched))
    ensures forall k :: 0 <= k <= |RunWaves(g, clock, c, sched).waves| ==> !g.BreaksBudget(bs[k].cost)
    ensures OverspendReported(g, clock, bs, RunWaves(g, clock, c, sched))
  {
    bs := WritesOnlyBoundaries(g, clock, c, sched);
    var t := RunWaves(g, clock, c, sched);
    forall k | 0 <= k <= |t.waves| ensures !g.BreaksBudget(bs[k].cost) {
      if k > 0 { RecordedWithinBudget(g, clock, bs, t, k); }
    }
    OverspendIsReported(g, clock, c, sched, bs);
  }
}
