/** From the builder to the end of a run that was interrupted and crashed on the way. */
module DagSurvives {
  import opened Types
  import opened Executor
  import opened Dags
  import opened DagBuild
  import opened DagBuildExact
  import opened Waves
  import opened Deadlock
  import opened WaveLevels
  import WaveRestart
  import opened WaveAgreement

  /** An undisturbed run writes one record per wave. */
  lemma {:induction false} OneRecordPerWave(g: Graph, clock: Clock, c: Cfg, sched: Schedule)
    requires Undisturbed(g, clock, c, sched)
    ensures |RunWaves(g, clock, c, sched).saves| == |RunWaves(g, clock, c, sched).waves|
    decreases Pendings(c.nodes)
  {
    WaveProgresses(g, clock, c, Order(sched, c));
    if ReadyWave(c.nodes) != [] {
      OneRecordPerWave(g, clock, Wave(g, clock, c, Order(sched, c)).next, sched);
    }
  }

  lemma ChainLengthIsUnique(dag: Nodes, m: nat, n: nat)
    requires LongestChain(dag, m) && LongestChain(dag, n)
    ensures m == n
  {
    if m > 0 { var p :| Walk(dag, p) && |p| == m; }
    if n > 0 { var p :| Walk(dag, p) && |p| == n; }
  }

  /** Every dependency chain from entry `i` has at most `k` entries. */
  ghost predicate ChainsWithin(entries: seq<Entry>, i: nat, k: nat) {
    forall p :: Chain(entries, p) && p[0] == i ==> |p| <= k
  }

  predicate OneType(entries: seq<Entry>, i: nat, j: nat) {
    i < |entries| && j < |entries| && entries[i].stepType == entries[j].stepType
  }

  /** Entries of one step type have dependency chains of the same length. */
  ghost predicate LevelTypes(entries: seq<Entry>) {
    forall i, j, k :: OneType(entries, i, j) && ChainsWithin(entries, i, k) ==> ChainsWithin(entries, j, k)
  }

  lemma DistinctTypesAreLevel(entries: seq<Entry>)
    requires DistinctTypes(entries)
    ensures LevelTypes(entries)
  {
    forall i, j | OneType(entries, i, j) ensures i == j { assert !(i < j) && !(j < i); }
  }

  /** In an accepted DAG exactly the entries of one step type share an id, and the dependency
      relation is that of the entries. */
  lemma AcceptedIds(entries: seq<Entry>, allowed: Option<set<Name>>, firstId: Id, dag: Nodes)
    requires Outcome(entries, allowed, firstId) == Ok(dag)
    ensures Resolution(entries, dag)
    ensures forall i, j :: 0 <= i < |dag| && 0 <= j < |dag| ==>
              (dag[i].id == dag[j].id <==> entries[i].stepType == entries[j].stepType)
  {
    var ids := Names(entries, firstId);
    ResolvesExactly(entries, firstId);
    assert Resolve(ids, entries) == Ok(dag);
    ResolveIs(ids, entries);
    NamesInjective(entries, firstId);
    assert Issued(ids, firstId + |entries|);
    forall i, j | 0 <= i < |dag| && 0 <= j < |dag|
      ensures dag[i].id == dag[j].id <==> entries[i].stepType == entries[j].stepType
    {
      assert ResolvedAs(ids, entries[i], dag[i]) && ResolvedAs(ids, entries[j], dag[j]);
    }
  }

  lemma LevelTypesExactly(entries: seq<Entry>, allowed: Option<set<Name>>, firstId: Id, dag: Nodes)
    requires Outcome(entries, allowed, firstId) == Ok(dag)
    ensures LevelTypes(entries) <==> LevelTwins(dag)
  {
    AcceptedIds(entries, allowed, firstId, dag);
    forall i: nat, k: nat ensures ChainsWithin(entries, i, k) <==> Within(dag, i, k) {
      SameChains(entries, dag, i, k);
    }
    SameLevels(entries, dag);
  }

  lemma SameChains(entries: seq<Entry>, dag: Nodes, i: nat, k: nat)
    requires Resolution(entries, dag)
    ensures ChainsWithin(entries, i, k) <==> Within(dag, i, k)
  {
    forall p ensures Chain(entries, p) <==> Walk(dag, p) { ChainIsWalk(entries, dag, p); }
  }

  lemma SameLevels(entries: seq<Entry>, dag: Nodes)
    requires |entries| == |dag|
    requires forall i: nat, k: nat :: ChainsWithin(entries, i, k) <==> Within(dag, i, k)
    requires forall i, j :: 0 <= i < |dag| && 0 <= j < |dag| ==>
               (dag[i].id == dag[j].id <==> entries[i].stepType == entries[j].stepType)
    ensures LevelTypes(entries) <==> LevelTwins(dag)
  {
    forall i: nat, j: nat | i < |dag| && j < |dag| ensures OneType(entries, i, j) <==> dag[i].id == dag[j].id {}
  }

  /** When an accepted DAG survives restarts: restoring gives back what was saved at every
      boundary of its uninterrupted run if and only if entries of one step type have
      dependency chains of the same length. */
  lemma SurvivesExactly(g: Graph, entries: seq<Entry>, allowed: Option<set<Name>>, firstId: Id, dag: Nodes,
                        state: State)
    requires Outcome(entries, allowed, firstId) == Ok(dag)
    requires Deterministic(g) && FreeOrPaid(g) && WaveRestart.Clean(g, WavePoint(dag, state))
    ensures WaveRestart.AlwaysAgrees(g, WavePoint(dag, state)) <==> LevelTypes(entries)
  {
    AcceptedDag(entries, allowed, firstId);
    AcceptedNeverDeadlocks(g.WithoutInterrupts(), WaveRestart.STILL, entries, allowed, firstId, state,
                           WaveRestart.INDEX_ORDER);
    AgreesExactly(g, WavePoint(dag, state));
    LevelTypesExactly(entries, allowed, firstId, dag);
  }

  /** Take a DAG that `build` accepted from entries of which those of one step type have
      dependency chains of the same length, as distinct step types do; deterministic nodes;
      and a run that nothing but interrupts and crashes would stop. Whatever interrupts are
      set and however the lives of the process end, once as many of them returned as the
      longest dependency chain has nodes, every node is done and the saved state is the
      result of the uninterrupted run. */
  lemma AcceptedDagSurvives(g: Graph, entries: seq<Entry>, allowed: Option<set<Name>>, firstId: Id, dag: Nodes,
                            state: State, lives: seq<WaveRestart.Life>, n: nat)
    requires Outcome(entries, allowed, firstId) == Ok(dag) && LevelTypes(entries)
    requires Deterministic(g) && FreeOrPaid(g) && |entries| <= g.limits.maxDagNodes
    requires WaveRestart.Clean(g, WavePoint(dag, state)) && LongestChain(dag, n) && WaveRestart.Returns(lives) >= n
    requires forall i :: 0 <= i < |lives| ==> WaveRestart.Admitted(dag, lives[i])
    ensures var from := WavePoint(dag, state);
            var end := WaveRestart.Replay(g, from, lives);
            AllDone(dag, end.nodes) && WaveRestart.Whole(g, from).result == Ok(end.state)
  {
    var h := g.WithoutInterrupts();
    var from := WavePoint(dag, state);
    AcceptedDag(entries, allowed, firstId);
    LevelTypesExactly(entries, allowed, firstId, dag);
    SurvivesExactly(g, entries, allowed, firstId, dag, state);
    AcceptedNeverDeadlocks(h, WaveRestart.STILL, entries, allowed, firstId, state, WaveRestart.INDEX_ORDER);
    OneRecordPerWave(h, WaveRestart.STILL, WaveRestart.Fresh(from), WaveRestart.INDEX_ORDER);
    ChainLengthIsUnique(dag, n, |WaveRestart.Whole(g, from).waves|);
    var m := WaveRestart.RestartEquivalence(g, dag, from, lives);
  }
}
