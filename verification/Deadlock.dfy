/** When a DAG run ends in a deadlock: exactly when some pending node lies outside the least
    fixpoint of readiness, and the report names exactly those nodes. */
module Deadlock {
  import opened Types
  import opened Executor
  import opened Dags
  import opened Waves
  import opened WaveConfluence

  predicate Supplied(nodes: Nodes, x: set<nat>, d: Id) {
    exists j :: j in x && j < |nodes| && nodes[j].id == d
  }

  /** Node `i` is where a set closed under readiness must have it. */
  predicate ClosedAt(nodes: Nodes, x: set<nat>, i: nat) {
    i < |nodes| ==>
      && (nodes[i].status.Done? ==> i in x)
      && (nodes[i].status.Pending? && (forall d :: d in nodes[i].dependsOn ==> Supplied(nodes, x, d)) ==> i in x)
  }

  /** The set holds every done node, and every pending node whose dependencies are all ids of
      nodes in the set. */
  ghost predicate Closed(nodes: Nodes, x: set<nat>) {
    forall i :: ClosedAt(nodes, x, i)
  }

  /** Node `i` is in the least such set. */
  ghost predicate Reachable(nodes: Nodes, i: nat) {
    forall x :: Closed(nodes, x) ==> i in x
  }

  /** The names of the pending nodes below `k` outside the least fixpoint, in index order. */
  ghost function BlockedBelow(nodes: Nodes, k: nat): seq<Name>
    requires k <= |nodes|
  {
    if k == 0 then []
    else
      BlockedBelow(nodes, k - 1) +
      if nodes[k - 1].status.Pending? && !Reachable(nodes, k - 1) then [nodes[k - 1].stepType] else []
  }

  ghost function Blocked(nodes: Nodes): seq<Name> { BlockedBelow(nodes, |nodes|) }

  /** A wave that goes on does to the nodes, the state and the cost what a wave of
      succeeding tasks does. */
  lemma AdvanceIsNext(g: Graph, clock: Clock, c: Cfg, sched: Schedule)
    requires Wave(g, clock, c, Order(sched, c)).Advance?
    ensures Wave(g, clock, c, Order(sched, c)) == Succeeded(g, clock, c)
    ensures WaveSucceeds(g, clock(c.wave), c.nodes, c.state)
  {
    if Early(g, c).Some? {
      EarlyStops(g, c);
    } else {
      CompletesExactly(g, clock, c, Order(sched, c));
      Confluence(g, clock, c, Order(sched, c));
    }
  }

  lemma ReadyIsReady(nodes: Nodes, i: nat)
    ensures i in ReadyWave(nodes) <==> Ready(nodes, i)
  {
    ReadyBelowAre(nodes, |nodes|);
  }

  lemma ReadyInClosed(nodes: Nodes, x: set<nat>, i: nat)
    requires Closed(nodes, x) && Ready(nodes, i)
    ensures i in x
  {
    assert ClosedAt(nodes, x, i);
    forall d | d in nodes[i].dependsOn ensures Supplied(nodes, x, d) {
      assert d in DoneIds(nodes);
      var j :| 0 <= j < |nodes| && nodes[j].status.Done? && nodes[j].id == d;
      assert ClosedAt(nodes, x, j);
    }
  }

  /** A wave changes nothing about which sets are closed. */
  lemma NextClosed(nodes: Nodes, x: set<nat>)
    ensures Closed(NextNodes(nodes), x) <==> Closed(nodes, x)
  {
    var next := NextNodes(nodes);
    forall d ensures Supplied(next, x, d) <==> Supplied(nodes, x, d) {
      forall j | 0 <= j < |nodes| ensures next[j].id == nodes[j].id {}
    }
    forall i: nat | i < |nodes| ensures next[i] ==
        (if Ready(nodes, i) then nodes[i].(status := NodeStatus.Done) else nodes[i]) {
      ReadyIsReady(nodes, i);
    }
    if Closed(nodes, x) {
      forall i: nat ensures ClosedAt(next, x, i) {
        assert ClosedAt(nodes, x, i);
        if Ready(nodes, i) { ReadyInClosed(nodes, x, i); }
      }
    }
    if Closed(next, x) {
      forall i: nat ensures ClosedAt(nodes, x, i) { assert ClosedAt(next, x, i); }
    }
  }

  lemma NextReachable(nodes: Nodes, i: nat)
    ensures Reachable(NextNodes(nodes), i) <==> Reachable(nodes, i)
  {
    forall x ensures Closed(NextNodes(nodes), x) <==> Closed(nodes, x) { NextClosed(nodes, x); }
  }

  lemma ReadyIsReachable(nodes: Nodes, i: nat)
    requires Ready(nodes, i)
    ensures Reachable(nodes, i)
  {
    forall x | Closed(nodes, x) ensures i in x { ReadyInClosed(nodes, x, i); }
  }

  lemma {:induction false} NextBlocked(nodes: Nodes, k: nat)
    requires k <= |nodes|
    ensures BlockedBelow(NextNodes(nodes), k) == BlockedBelow(nodes, k)
  {
    if k > 0 {
      NextBlocked(nodes, k - 1);
      StaysBlocked(nodes, k - 1);
    }
  }

  /** A wave neither blocks nor frees a node. */
  lemma StaysBlocked(nodes: Nodes, i: nat)
    requires i < |nodes|
    ensures NextNodes(nodes)[i].stepType == nodes[i].stepType
    ensures NextNodes(nodes)[i].status.Pending? && !Reachable(NextNodes(nodes), i) <==>
            nodes[i].status.Pending? && !Reachable(nodes, i)
  {
    NextReachable(nodes, i);
    ReadyIsReady(nodes, i);
    if Ready(nodes, i) { ReadyIsReachable(nodes, i); }
  }

  /** Once no node is ready, the least fixpoint is what is done. */
  lemma NothingReady(nodes: Nodes, i: nat)
    requires ReadyWave(nodes) == [] && i < |nodes|
    ensures Reachable(nodes, i) <==> nodes[i].status.Done?
  {
    var done := set j | 0 <= j < |nodes| && nodes[j].status.Done?;
    forall j: nat ensures ClosedAt(nodes, done, j) {
      if j < |nodes| && nodes[j].status.Pending? {
        ReadyIsReady(nodes, j);
        var d :| d in nodes[j].dependsOn && d !in DoneIds(nodes);
        assert !Supplied(nodes, done, d);
      }
    }
    assert Closed(nodes, done);
    forall x | Closed(nodes, x) && nodes[i].status.Done? ensures i in x { assert ClosedAt(nodes, x, i); }
  }

  lemma {:induction false} PendingIsBlocked(nodes: Nodes, k: nat)
    requires ReadyWave(nodes) == [] && k <= |nodes|
    ensures NamesWith(nodes[..k], NodeStatus.Pending, NodeStatus.Pending) == BlockedBelow(nodes, k)
  {
    if k > 0 {
      PendingIsBlocked(nodes, k - 1);
      assert nodes[..k][..k - 1] == nodes[..k - 1];
      NothingReady(nodes, k - 1);
    }
  }

  /** No wave stops the run before it runs out of ready nodes. */
  predicate Undisturbed(g: Graph, clock: Clock, c: Cfg, sched: Schedule)
    decreases Pendings(c.nodes)
  {
    WaveProgresses(g, clock, c, Order(sched, c));
    ReadyWave(c.nodes) == [] ||
    (Wave(g, clock, c, Order(sched, c)).Advance? &&
     Undisturbed(g, clock, Wave(g, clock, c, Order(sched, c)).next, sched))
  }

  /** The nodes an undisturbed run ends with: those in the least fixpoint done, the others
      as they were. */
  ghost predicate Completes(before: Nodes, after: Nodes) {
    && |after| == |before|
    && forall i :: 0 <= i < |before| ==>
         after[i] == if Reachable(before, i) then before[i].(status := NodeStatus.Done) else before[i]
  }

  lemma CompletesNext(nodes: Nodes, after: Nodes)
    requires Completes(NextNodes(nodes), after)
    ensures Completes(nodes, after)
  {
    forall i | 0 <= i < |nodes|
      ensures after[i] == if Reachable(nodes, i) then nodes[i].(status := NodeStatus.Done) else nodes[i]
    {
      NextReachable(nodes, i);
      ReadyIsReady(nodes, i);
      if Ready(nodes, i) { ReadyIsReachable(nodes, i); }
    }
  }

  lemma CompletesNow(nodes: Nodes)
    requires ReadyWave(nodes) == []
    ensures Completes(nodes, nodes)
  {
    forall i | 0 <= i < |nodes|
      ensures nodes[i] == if Reachable(nodes, i) then nodes[i].(status := NodeStatus.Done) else nodes[i]
    {
      NothingReady(nodes, i);
    }
  }

  /** Deadlock is reported exactly, for any DAG: dangling or cyclic dependencies, shared ids
      and any statuses included. An undisturbed run completes the least fixpoint and nothing
      else; it ends in `DagDeadlock` exactly when a pending node lies outside, naming exactly
      those; and whatever disturbs a run, a deadlock it reports is this one. */
  lemma {:induction false} DeadlockExactly(g: Graph, clock: Clock, c: Cfg, sched: Schedule)
    ensures var t := RunWaves(g, clock, c, sched);
            && (t.result.Err? && t.result.error.DagDeadlock? ==>
                t.result.error.pending == Blocked(c.nodes) && Blocked(c.nodes) != [])
            && (Undisturbed(g, clock, c, sched) ==>
                && Completes(c.nodes, t.nodes)
                && (t.result.Ok? <==> Blocked(c.nodes) == [])
                && (t.result.Err? ==> t.result.error == DagDeadlock(Blocked(c.nodes))))
    decreases Pendings(c.nodes)
  {
    var order := Order(sched, c);
    WaveProgresses(g, clock, c, order);
    if ReadyWave(c.nodes) == [] {
      PendingIsBlocked(c.nodes, |c.nodes|);
      assert c.nodes[..|c.nodes|] == c.nodes;
      CompletesNow(c.nodes);
    } else if Wave(g, clock, c, order).Advance? {
      var next := Wave(g, clock, c, order).next;
      AdvanceIsNext(g, clock, c, sched);
      NextBlocked(c.nodes, |c.nodes|);
      DeadlockExactly(g, clock, next, sched);
      if Undisturbed(g, clock, c, sched) {
        CompletesNext(c.nodes, RunWaves(g, clock, next, sched).nodes);
      }
    } else {
      StopsOtherwise(g, clock, c, order);
    }
  }

  lemma StopsOtherwise(g: Graph, clock: Clock, c: Cfg, order: seq<nat>)
    requires Indices(order, |c.nodes|) && ReadyWave(c.nodes) != [] && Wave(g, clock, c, order).Stop?
    ensures var r := Wave(g, clock, c, order).result;
            r.Err? ==> !r.error.DagDeadlock?
  {
    if Early(g, c).None? {
      CollectFails(g, clock(c.wave), c.state, Fresh(c.nodes, ReadyWave(c.nodes)), order);
    }
  }

  lemma {:induction false} CollectFails(g: Graph, ticks: Ticks, state: State, w: Gathered, order: seq<nat>)
    requires Indices(order, |w.nodes|)
    ensures var r := Collect(g, ticks, state, w, order); r.Aborted? ==> !r.error.DagDeadlock?
    decreases |order|
  {
    if order != [] {
      var r := Arrive(g, ticks, state, w, order[0]);
      if r.Collecting? { CollectFails(g, ticks, state, r.all, order[1..]); }
    }
  }

  /** Every node is registered, free of interrupts and succeeds on every state in every wave,
      and there is no overall budget. */
  ghost predicate AlwaysSucceeds(g: Graph, clock: Clock, nodes: Nodes) {
    && g.budget.None?
    && forall w: nat, i, s :: 0 <= i < |nodes| ==> Willing(g, clock(w)(i), nodes[i].stepType, s)
  }

  predicate Willing(g: Graph, tick: nat, name: Name, s: State) {
    g.Registered(name) && name !in g.interruptBefore && name !in g.interruptAfter && Succeeds(g, tick, name, s)
  }

  lemma {:induction false} AllRegistered(g: Graph, nodes: Nodes, ready: seq<nat>)
    requires forall i :: 0 <= i < |nodes| ==> g.Registered(nodes[i].stepType)
    ensures Unregistered(g, nodes, ready).None?
    decreases |ready|
  {
    if ready != [] { AllRegistered(g, nodes, ready[1..]); }
  }

  lemma WillingWave(g: Graph, clock: Clock, c: Cfg)
    requires AlwaysSucceeds(g, clock, c.nodes) && ReadyWave(c.nodes) != []
    ensures Early(g, c).None? && WaveSucceeds(g, clock(c.wave), c.nodes, c.state)
    ensures !Meets(c.nodes, ReadyWave(c.nodes), g.interruptAfter)
  {
    var ready := ReadyWave(c.nodes);
    ReadyBelowAre(c.nodes, |c.nodes|);
    forall x | 0 <= x < |ready|
      ensures ready[x] < |c.nodes| && Willing(g, clock(c.wave)(ready[x]), c.nodes[ready[x]].stepType, c.state)
    {
      assert ready[x] in ready;
    }
    forall i | 0 <= i < |c.nodes| ensures g.Registered(c.nodes[i].stepType) {
      assert Willing(g, clock(c.wave)(i), c.nodes[i].stepType, c.state);
    }
    AllRegistered(g, c.nodes, ready);
  }

  lemma StillWilling(g: Graph, clock: Clock, nodes: Nodes)
    requires AlwaysSucceeds(g, clock, nodes)
    ensures AlwaysSucceeds(g, clock, NextNodes(nodes))
  {
    forall w: nat, i, s | 0 <= i < |nodes| ensures Willing(g, clock(w)(i), NextNodes(nodes)[i].stepType, s) {
      assert Willing(g, clock(w)(i), nodes[i].stepType, s);
    }
  }

  lemma {:induction false} SucceedingIsUndisturbed(g: Graph, clock: Clock, c: Cfg, sched: Schedule)
    requires AlwaysSucceeds(g, clock, c.nodes)
    ensures Undisturbed(g, clock, c, sched)
    decreases Pendings(c.nodes)
  {
    var order := Order(sched, c);
    WaveProgresses(g, clock, c, order);
    if ReadyWave(c.nodes) != [] {
      WillingWave(g, clock, c);
      Confluence(g, clock, c, order);
      StillWilling(g, clock, c.nodes);
      SucceedingIsUndisturbed(g, clock, Wave(g, clock, c, order).next, sched);
    }
  }
}
