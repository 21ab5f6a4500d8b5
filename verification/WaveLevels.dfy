/** Which wave runs which node, and how many waves a run takes. */
module WaveLevels {
  import opened Types
  import opened Executor
  import opened Dags
  import opened DagBuild
  import opened DagBuildExact
  import opened Waves
  import opened WaveConfluence
  import opened Deadlock

  /** The longest dependency chain from node `i` has exactly `k` nodes. */
  ghost predicate Longest(nodes: Nodes, i: nat, k: nat) {
    i < |nodes| && Within(nodes, i, k) && (k > 0 ==> !Within(nodes, i, k - 1))
  }

  lemma NotWithinZero(nodes: Nodes, i: nat)
    requires i < |nodes|
    ensures !Within(nodes, i, 0)
  {
    assert Walk(nodes, [i]);
  }

  lemma WithinGrows(nodes: Nodes, i: nat, k: nat)
    requires Within(nodes, i, k)
    ensures Within(nodes, i, k + 1)
  {
  }

  /** Chains from a node are one longer than chains from what it depends on. */
  lemma WithinStep(nodes: Nodes, i: nat, k: nat)
    requires i < |nodes|
    ensures Within(nodes, i, k + 1) <==> forall j :: DependsOn(nodes, i, j) ==> Within(nodes, j, k)
  {
    if Within(nodes, i, k + 1) {
      forall j, p | DependsOn(nodes, i, j) && Walk(nodes, p) && p[0] == j ensures |p| <= k {
        assert ([i] + p)[1..] == p;
        assert Walk(nodes, [i] + p);
      }
    }
    if forall j :: DependsOn(nodes, i, j) ==> Within(nodes, j, k) {
      forall p | Walk(nodes, p) && p[0] == i ensures |p| <= k + 1 {
        if |p| > 1 { assert Walk(nodes, p[1..]) && p[1..][0] == p[1]; }
      }
    }
  }

  /** After `k` waves: the nodes whose chains have at most `k` nodes are done, the others
      have not started. */
  ghost predicate AtLevel(dag: Nodes, nodes: Nodes, k: nat) {
    && |nodes| == |dag|
    && forall i :: 0 <= i < |dag| ==>
         nodes[i] == dag[i].(status := if Within(dag, i, k) then NodeStatus.Done else NodeStatus.Pending)
  }

  /** Nodes that share an id have dependency chains of the same length. */
  ghost predicate LevelTwins(dag: Nodes) {
    forall i: nat, j: nat, k: nat :: i < |dag| && j < |dag| && dag[i].id == dag[j].id && Within(dag, i, k) ==>
      Within(dag, j, k)
  }

  lemma LevelAgrees(dag: Nodes, nodes: Nodes, k: nat)
    requires LevelTwins(dag) && AtLevel(dag, nodes, k)
    ensures Agreeing(nodes)
  {
    forall i, j | 0 <= i < j < |nodes| && nodes[i].id == nodes[j].id ensures nodes[i].status == nodes[j].status {
      assert dag[i].id == dag[j].id;
      assert Within(dag, i, k) <==> Within(dag, j, k);
    }
  }

  lemma SameDepth(dag: Nodes, nodes: Nodes, k: nat, i: nat, j: nat)
    requires Agreeing(nodes) && AtLevel(dag, nodes, k) && i < |dag| && j < |dag| && nodes[i].id == nodes[j].id
    ensures Within(dag, i, k) <==> Within(dag, j, k)
  {
    assert i < j || j < i || i == j;
  }

  lemma DoneWhenWithin(dag: Nodes, nodes: Nodes, k: nat, i: nat)
    requires Agreeing(nodes) && NoDangling(dag) && AtLevel(dag, nodes, k) && i < |dag|
    ensures (forall d :: d in nodes[i].dependsOn ==> d in DoneIds(nodes)) <==> Within(dag, i, k + 1)
  {
    WithinStep(dag, i, k);
    forall d | d in dag[i].dependsOn
      ensures exists j: nat :: DependsOn(dag, i, j) && dag[j].id == d && (d in DoneIds(nodes) <==> Within(dag, j, k))
    {
      assert Carried(dag, d);
      var j: nat :| j < |dag| && dag[j].id == d;
      assert DependsOn(dag, i, j);
      if d in DoneIds(nodes) {
        var m: nat :| m < |nodes| && nodes[m].status.Done? && nodes[m].id == d;
        SameDepth(dag, nodes, k, m, j);
      } else {
        assert nodes[j].id == d;
      }
    }
    forall j: nat | DependsOn(dag, i, j) && dag[j].id in DoneIds(nodes) ensures Within(dag, j, k) {
      var m: nat :| m < |nodes| && nodes[m].status.Done? && nodes[m].id == dag[j].id;
      SameDepth(dag, nodes, k, m, j);
    }
  }

  /** The nodes of the next wave are those whose longest chain has one node more. */
  lemma ReadyAtLevel(dag: Nodes, nodes: Nodes, k: nat, i: nat)
    requires Agreeing(nodes) && NoDangling(dag) && AtLevel(dag, nodes, k)
    ensures Ready(nodes, i) <==> Longest(dag, i, k + 1)
  {
    if i < |dag| { DoneWhenWithin(dag, nodes, k, i); }
  }

  lemma NextLevel(dag: Nodes, nodes: Nodes, k: nat)
    requires Agreeing(nodes) && NoDangling(dag) && AtLevel(dag, nodes, k)
    ensures AtLevel(dag, NextNodes(nodes), k + 1)
  {
    forall i | 0 <= i < |dag|
      ensures NextNodes(nodes)[i] ==
              dag[i].(status := if Within(dag, i, k + 1) then NodeStatus.Done else NodeStatus.Pending)
    {
      ReadyIsReady(nodes, i);
      ReadyAtLevel(dag, nodes, k, i);
      if Within(dag, i, k) { WithinGrows(dag, i, k); }
    }
  }

  /** Wave `n` of the run, counted from `k`, holds exactly the nodes at that depth. */
  ghost predicate ByDepth(dag: Nodes, k: nat, waves: seq<seq<nat>>) {
    forall n :: 0 <= n < |waves| ==> HoldsDepth(dag, k + n + 1, waves[n])
  }

  ghost predicate HoldsDepth(dag: Nodes, depth: nat, wave: seq<nat>) {
    && wave != [] && Increasing(wave)
    && forall i :: i in wave <==> Longest(dag, i, depth)
  }

  lemma ByDepthPrepend(dag: Nodes, k: nat, wave: seq<nat>, waves: seq<seq<nat>>)
    requires HoldsDepth(dag, k + 1, wave) && ByDepth(dag, k + 1, waves)
    ensures ByDepth(dag, k, [wave] + waves)
  {
    forall n | 0 <= n < |waves| + 1 ensures HoldsDepth(dag, k + n + 1, ([wave] + waves)[n]) {
      if n > 0 { assert HoldsDepth(dag, k + 1 + (n - 1) + 1, waves[n - 1]); }
    }
  }

  /** From any level on, the waves follow the depth of the nodes, whatever ends the run. */
  lemma {:induction false} WavesFollowDepth(g: Graph, clock: Clock, dag: Nodes, c: Cfg, k: nat, sched: Schedule)
    requires LevelTwins(dag) && NoDangling(dag) && AtLevel(dag, c.nodes, k)
    ensures ByDepth(dag, k, RunWaves(g, clock, c, sched).waves)
    decreases Pendings(c.nodes)
  {
    WaveProgresses(g, clock, c, Order(sched, c));
    var turn := Wave(g, clock, c, Order(sched, c));
    if turn.Advance? {
      AdvanceToNextLevel(g, clock, dag, c, k, sched);
      WavesFollowDepth(g, clock, dag, turn.next, k + 1, sched);
      ByDepthPrepend(dag, k, ReadyWave(c.nodes), RunWaves(g, clock, turn.next, sched).waves);
    }
  }

  /** An undisturbed run ends at the level that has nothing more to start. */
  lemma {:induction false} EndsAtLevel(g: Graph, clock: Clock, dag: Nodes, c: Cfg, k: nat, sched: Schedule)
    requires LevelTwins(dag) && NoDangling(dag) && AtLevel(dag, c.nodes, k) && Undisturbed(g, clock, c, sched)
    ensures var t := RunWaves(g, clock, c, sched);
            AtLevel(dag, t.nodes, k + |t.waves|)
    decreases Pendings(c.nodes)
  {
    WaveProgresses(g, clock, c, Order(sched, c));
    var turn := Wave(g, clock, c, Order(sched, c));
    if turn.Advance? {
      AdvanceToNextLevel(g, clock, dag, c, k, sched);
      EndsAtLevel(g, clock, dag, turn.next, k + 1, sched);
    }
  }

  lemma AdvanceToNextLevel(g: Graph, clock: Clock, dag: Nodes, c: Cfg, k: nat, sched: Schedule)
    requires LevelTwins(dag) && NoDangling(dag) && AtLevel(dag, c.nodes, k)
    requires Wave(g, clock, c, Order(sched, c)).Advance?
    ensures AtLevel(dag, Wave(g, clock, c, Order(sched, c)).next.nodes, k + 1)
    ensures HoldsDepth(dag, k + 1, ReadyWave(c.nodes))
  {
    AdvanceIsNext(g, clock, c, sched);
    LevelAgrees(dag, c.nodes, k);
    NextLevel(dag, c.nodes, k);
    ReadyBelowAre(c.nodes, |c.nodes|);
    forall i: nat ensures i in ReadyWave(c.nodes) <==> Longest(dag, i, k + 1) {
      ReadyIsReady(c.nodes, i);
      ReadyAtLevel(dag, c.nodes, k, i);
    }
  }

  /** Chains of bounded length make a node reachable. */
  lemma {:induction false} BoundedIsReachable(nodes: Nodes, i: nat, k: nat)
    requires NoDangling(nodes) && i < |nodes| && Within(nodes, i, k)
    requires forall j :: 0 <= j < |nodes| ==> nodes[j].status.Pending? || nodes[j].status.Done?
    ensures Reachable(nodes, i)
    decreases k
  {
    if k == 0 {
      NotWithinZero(nodes, i);
    } else {
      WithinStep(nodes, i, k - 1);
      forall x | Closed(nodes, x) ensures i in x {
        assert ClosedAt(nodes, x, i);
        forall d | d in nodes[i].dependsOn ensures Supplied(nodes, x, d) {
          assert Carried(nodes, d);
          var j: nat :| j < |nodes| && nodes[j].id == d;
          assert DependsOn(nodes, i, j);
          BoundedIsReachable(nodes, j, k - 1);
          assert j in x;
        }
      }
    }
  }

  lemma {:induction false} NothingBlocked(nodes: Nodes, k: nat)
    requires k <= |nodes| && forall i :: 0 <= i < |nodes| ==> Reachable(nodes, i)
    ensures BlockedBelow(nodes, k) == []
  {
    if k > 0 { NothingBlocked(nodes, k - 1); }
  }

  /** Without dangling dependencies and cycles nothing is blocked, in whatever mixture of
      pending and done nodes the run starts, and with shared ids too. */
  lemma AcyclicNeverBlocks(nodes: Nodes)
    requires NoDangling(nodes) && Acyclic(nodes)
    requires forall j :: 0 <= j < |nodes| ==> nodes[j].status.Pending? || nodes[j].status.Done?
    ensures Blocked(nodes) == []
    ensures forall i :: 0 <= i < |nodes| ==> Reachable(nodes, i)
  {
    AcyclicMeansBounded(nodes);
    forall i: nat | i < |nodes| ensures Reachable(nodes, i) {
      assert Within(nodes, i, |nodes|);
      BoundedIsReachable(nodes, i, |nodes|);
    }
    NothingBlocked(nodes, |nodes|);
  }

  /** The longest chain of the DAG has exactly `n` nodes. */
  ghost predicate LongestChain(dag: Nodes, n: nat) {
    && (forall p :: Walk(dag, p) ==> |p| <= n)
    && (n > 0 ==> exists p :: Walk(dag, p) && |p| == n)
  }

  /** What a run of an accepted DAG comes to: every node done, no deadlock. */
  predicate AllDone(before: Nodes, after: Nodes) {
    && |after| == |before|
    && forall i :: 0 <= i < |before| ==> after[i] == before[i].(status := NodeStatus.Done)
  }

  /** A DAG accepted by `build` never deadlocks and, undisturbed, ends with every node done.
      Where nodes that share an id have chains of the same length, as for distinct step types,
      every node runs in the wave equal to its longest dependency chain, and there are as many
      waves as the longest chain has nodes. */
  lemma AcceptedNeverDeadlocks(g: Graph, clock: Clock, entries: seq<Entry>, allowed: Option<set<Name>>, firstId: Id,
                               state: State, sched: Schedule)
    requires Outcome(entries, allowed, firstId).Ok?
    ensures var dag := Outcome(entries, allowed, firstId).value;
            var c := Cfg(dag, state, 0.0, 0);
            var t := RunWaves(g, clock, c, sched);
            && (t.result.Err? ==> !t.result.error.DagDeadlock?)
            && (AlwaysSucceeds(g, clock, dag) ==> Undisturbed(g, clock, c, sched))
            && (Undisturbed(g, clock, c, sched) ==> t.result.Ok? && AllDone(dag, t.nodes))
            && (LevelTwins(dag) ==>
                && ByDepth(dag, 0, t.waves)
                && (Undisturbed(g, clock, c, sched) ==> LongestChain(dag, |t.waves|)))
  {
    var dag := Outcome(entries, allowed, firstId).value;
    var c := Cfg(dag, state, 0.0, 0);
    var t := RunWaves(g, clock, c, sched);
    AcceptedDag(entries, allowed, firstId);
    AcyclicNeverBlocks(dag);
    NeverDeadlocks(g, clock, c, sched);
    if AlwaysSucceeds(g, clock, dag) { SucceedingIsUndisturbed(g, clock, c, sched); }
    if LevelTwins(dag) { RunsByDepth(g, clock, dag, c, sched); }
  }

  /** With every node reachable a run has no deadlock to report, and an undisturbed one ends
      with every pending node done. */
  lemma NeverDeadlocks(g: Graph, clock: Clock, c: Cfg, sched: Schedule)
    requires Blocked(c.nodes) == [] && forall i :: 0 <= i < |c.nodes| ==> Reachable(c.nodes, i)
    requires forall i :: 0 <= i < |c.nodes| ==> c.nodes[i].status.Pending?
    ensures var t := RunWaves(g, clock, c, sched);
            && (t.result.Err? ==> !t.result.error.DagDeadlock?)
            && (Undisturbed(g, clock, c, sched) ==> t.result.Ok? && AllDone(c.nodes, t.nodes))
  {
    DeadlockExactly(g, clock, c, sched);
  }

  lemma RunsByDepth(g: Graph, clock: Clock, dag: Nodes, c: Cfg, sched: Schedule)
    requires NoDangling(dag) && LevelTwins(dag) && c.nodes == dag
    requires forall i :: 0 <= i < |dag| ==> dag[i].status.Pending?
    ensures var t := RunWaves(g, clock, c, sched);
            && ByDepth(dag, 0, t.waves)
            && (Undisturbed(g, clock, c, sched) && AllDone(dag, t.nodes) ==> LongestChain(dag, |t.waves|))
  {
    StartsAtLevel(dag);
    WavesFollowDepth(g, clock, dag, c, 0, sched);
    if Undisturbed(g, clock, c, sched) {
      EndsAtLevel(g, clock, dag, c, 0, sched);
      var t := RunWaves(g, clock, c, sched);
      if AllDone(dag, t.nodes) { WaveCount(dag, t.waves, t.nodes); }
    }
  }

  lemma StartsAtLevel(dag: Nodes)
    requires forall i :: 0 <= i < |dag| ==> dag[i].status.Pending?
    ensures AtLevel(dag, dag, 0)
  {
    forall i: nat | i < |dag| ensures !Within(dag, i, 0) { NotWithinZero(dag, i); }
  }

  lemma WaveCount(dag: Nodes, waves: seq<seq<nat>>, after: Nodes)
    requires ByDepth(dag, 0, waves) && AtLevel(dag, after, |waves|) && AllDone(dag, after)
    ensures LongestChain(dag, |waves|)
  {
    forall p | Walk(dag, p) ensures |p| <= |waves| {
      assert after[p[0]].status.Done?;
      assert Within(dag, p[0], |waves|);
    }
    if waves != [] {
      var last := waves[|waves| - 1];
      assert HoldsDepth(dag, 0 + (|waves| - 1) + 1, last);
      assert last[0] in last;
      assert Longest(dag, last[0], |waves|);
      var p :| Walk(dag, p) && p[0] == last[0] && |p| > |waves| - 1;
      assert |p| == |waves|;
    }
  }
}
