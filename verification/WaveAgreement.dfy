/** When restoring statuses by id loses none: nodes that share an id must share a status at
    every boundary a life may resume from. */
module WaveAgreement {
  import opened Types
  import opened Executor
  import opened Dags
  import opened DagBuild
  import opened DagBuildExact
  import opened Waves
  import opened WaveConfluence
  import opened Deadlock
  import opened WaveLevels
  import opened WaveRestart

  /** A life resumed from a boundary starts from the nodes that were saved there if and only
      if nodes that share an id share a status at that boundary. */
  lemma ResumesWhereSaved(g: Graph, dag: Nodes, from: WavePoint, m: nat, life: Life)
    requires Deterministic(g) && FreeOrPaid(g) && Clean(g, from) && m <= |Whole(g, from).saves|
    requires SameShape(from.nodes, dag) && Admitted(dag, life)
    ensures var saved := Boundary(from, Whole(g, from), m).nodes;
            Restored(life.copy, saved) == saved <==> AgreesAt(g, from, m)
  {
    var p := Boundary(from, Whole(g, from), m);
    FromBoundary(g, WaveRestart.Fresh(from), m);
    ShapeTransitive(p.nodes, from.nodes, dag);
    CopiesShape(dag, p, life);
    RestoresExactly(life.copy, p.nodes);
  }

  /** One boundary is the next wave of the one before it. */
  lemma BoundarySteps(g: Graph, from: WavePoint, m: nat)
    requires Deterministic(g) && FreeOrPaid(g) && Clean(g, from) && m < |Whole(g, from).saves|
    ensures Boundary(from, Whole(g, from), m + 1).nodes == NextNodes(Boundary(from, Whole(g, from), m).nodes)
  {
    var whole := Whole(g, from);
    var p := Boundary(from, whole, m);
    FromBoundary(g, WaveRestart.Fresh(from), m);
    FirstRecord(g, WaveRestart.Fresh(p));
    NextBoundary(from, whole, Whole(g, p), m);
  }

  lemma NextBoundary(from: WavePoint, whole: DagTrace, rest: DagTrace, m: nat)
    requires SameEnd(rest, whole, m) && m < |whole.saves|
    ensures rest.saves != [] && Boundary(from, whole, m + 1) == PointOf(rest.saves[0])
  {
    assert whole.saves[m..][0] == whole.saves[m];
    assert whole.saves[..m + 1][m] == whole.saves[m];
  }

  /** The first record of an undisturbed run holds the nodes after its first wave. */
  lemma FirstRecord(g: Graph, c: Cfg)
    requires Undisturbed(g.WithoutInterrupts(), STILL, c, INDEX_ORDER)
    requires RunWaves(g.WithoutInterrupts(), STILL, c, INDEX_ORDER).saves != []
    ensures PointOf(RunWaves(g.WithoutInterrupts(), STILL, c, INDEX_ORDER).saves[0]).nodes == NextNodes(c.nodes)
  {
    var h := g.WithoutInterrupts();
    WaveProgresses(h, STILL, c, Order(INDEX_ORDER, c));
    AdvancesTo(h, STILL, c, INDEX_ORDER);
  }

  /** Nodes that share an id list the same dependencies. */
  ghost predicate SameNeeds(dag: Nodes) {
    forall i, j :: 0 <= i < j < |dag| && dag[i].id == dag[j].id ==>
      forall d :: d in dag[i].dependsOn <==> d in dag[j].dependsOn
  }

  lemma NextAgrees(nodes: Nodes)
    requires SameNeeds(nodes) && Agreeing(nodes)
    ensures SameNeeds(NextNodes(nodes)) && Agreeing(NextNodes(nodes))
  {
    var next := NextNodes(nodes);
    forall i: nat | i < |nodes| ensures i in ReadyWave(nodes) <==> Ready(nodes, i) { ReadyIsReady(nodes, i); }
    forall i, j | 0 <= i < j < |next| && next[i].id == next[j].id ensures next[i].status == next[j].status {
      assert nodes[i].id == nodes[j].id;
      assert Ready(nodes, i) <==> Ready(nodes, j);
    }
  }

  predicate StepAt(bs: seq<Nodes>, m: nat) {
    m + 1 < |bs| ==> bs[m + 1] == NextNodes(bs[m])
  }

  /** The nodes at the boundaries of a run, each one wave after the other. */
  ghost predicate Stepping(bs: seq<Nodes>) { bs != [] && forall m :: StepAt(bs, m) }

  predicate AgreeingAt(bs: seq<Nodes>, m: nat) { m < |bs| ==> Agreeing(bs[m]) }

  ghost predicate AllAgreeing(bs: seq<Nodes>) { forall m :: AgreeingAt(bs, m) }

  /** Nodes that share an id and list the same dependencies agree at all boundaries once they
      do at the first. */
  lemma {:induction false} SameNeedsAgree(bs: seq<Nodes>, m: nat)
    requires Stepping(bs) && m < |bs| && SameNeeds(bs[0]) && Agreeing(bs[0])
    ensures SameNeeds(bs[m]) && Agreeing(bs[m])
    decreases m
  {
    if m > 0 {
      SameNeedsAgree(bs, m - 1);
      assert StepAt(bs, m - 1);
      NextAgrees(bs[m - 1]);
    }
  }

  predicate FreshDag(dag: Nodes) {
    NoDangling(dag) && forall i :: 0 <= i < |dag| ==> dag[i].status.Pending?
  }

  /** As long as nodes agree, the boundary after `m` waves is level `m` of the DAG. */
  lemma {:induction false} BoundaryIsLevel(bs: seq<Nodes>, m: nat)
    requires Stepping(bs) && m < |bs| && FreshDag(bs[0]) && (LevelTwins(bs[0]) || AllAgreeing(bs))
    ensures AtLevel(bs[0], bs[m], m) && Agreeing(bs[m])
    decreases m
  {
    if m == 0 {
      StartsAtLevel(bs[0]);
    } else {
      BoundaryIsLevel(bs, m - 1);
      StepsUp(bs, m);
    }
    AgreesAtLevel(bs, m);
  }

  lemma StepsUp(bs: seq<Nodes>, m: nat)
    requires Stepping(bs) && 0 < m < |bs|
    requires NoDangling(bs[0]) && AtLevel(bs[0], bs[m - 1], m - 1) && Agreeing(bs[m - 1])
    ensures AtLevel(bs[0], bs[m], m)
  {
    assert StepAt(bs, m - 1);
    NextLevel(bs[0], bs[m - 1], m - 1);
  }

  lemma AgreesAtLevel(bs: seq<Nodes>, m: nat)
    requires m < |bs| && AtLevel(bs[0], bs[m], m) && (LevelTwins(bs[0]) || AllAgreeing(bs))
    ensures Agreeing(bs[m])
  {
    if LevelTwins(bs[0]) { LevelAgrees(bs[0], bs[m], m); } else { assert AgreeingAt(bs, m); }
  }

  lemma WithinMore(dag: Nodes, i: nat, n: nat, k: nat)
    requires Within(dag, i, n) && n <= k
    ensures Within(dag, i, k)
  {
    forall p | Walk(dag, p) && p[0] == i ensures |p| <= k {}
  }

  /** Nodes that share an id agree at every boundary of a run that completes a fresh DAG if and
      only if their dependency chains have the same length. */
  lemma LevelsAgreeExactly(bs: seq<Nodes>)
    requires Stepping(bs) && FreshDag(bs[0]) && AllDone(bs[0], bs[|bs| - 1])
    ensures AllAgreeing(bs) <==> LevelTwins(bs[0])
  {
    if LevelTwins(bs[0]) {
      forall m: nat | m < |bs| ensures AgreeingAt(bs, m) { BoundaryIsLevel(bs, m); }
    }
    if AllAgreeing(bs) {
      var dag := bs[0];
      forall i: nat, j: nat, k: nat | i < |dag| && j < |dag| && dag[i].id == dag[j].id && Within(dag, i, k)
        ensures Within(dag, j, k)
      {
        AgreeingChains(bs, i, j, k);
      }
    }
  }

  lemma AgreeingChains(bs: seq<Nodes>, i: nat, j: nat, k: nat)
    requires Stepping(bs) && FreshDag(bs[0]) && AllDone(bs[0], bs[|bs| - 1]) && AllAgreeing(bs)
    requires i < |bs[0]| && j < |bs[0]| && bs[0][i].id == bs[0][j].id && Within(bs[0], i, k)
    ensures Within(bs[0], j, k)
  {
    var m := Min(k, |bs| - 1);
    BoundaryIsLevel(bs, m);
    if k == m {
      SameDepth(bs[0], bs[m], k, i, j);
    } else {
      assert bs[m][j].status.Done?;
      WithinMore(bs[0], j, m, k);
    }
  }

  /** The nodes at the boundaries of the uninterrupted run. */
  ghost predicate BoundariesOf(g: Graph, from: WavePoint, bs: seq<Nodes>) {
    && |bs| == |Whole(g, from).saves| + 1 && bs[0] == from.nodes && bs[|bs| - 1] == Whole(g, from).nodes
    && Stepping(bs)
    && (AlwaysAgrees(g, from) <==> AllAgreeing(bs))
  }

  function NodesAt(from: WavePoint, whole: DagTrace): seq<Nodes> {
    seq(|whole.saves| + 1, m requires 0 <= m < |whole.saves| + 1 => Boundary(from, whole, m).nodes)
  }

  lemma BoundariesStep(g: Graph, from: WavePoint, whole: DagTrace)
    requires Deterministic(g) && FreeOrPaid(g) && Clean(g, from) && whole == Whole(g, from)
    ensures Stepping(NodesAt(from, whole))
  {
    forall m: nat ensures StepAt(NodesAt(from, whole), m) {
      if m < |whole.saves| { BoundarySteps(g, from, m); }
    }
  }

  lemma SameAgreement(g: Graph, from: WavePoint, whole: DagTrace)
    requires whole == Whole(g, from)
    ensures AlwaysAgrees(g, from) <==> AllAgreeing(NodesAt(from, whole))
  {
    forall m: nat ensures AgreeingAt(NodesAt(from, whole), m) <==> AgreesAt(g, from, m) {}
  }

  lemma Boundaries(g: Graph, from: WavePoint) returns (bs: seq<Nodes>)
    requires Deterministic(g) && FreeOrPaid(g) && Clean(g, from)
    ensures BoundariesOf(g, from, bs)
  {
    bs := NodesAt(from, Whole(g, from));
    BoundariesStep(g, from, Whole(g, from));
    LastBoundary(g, from);
    SameAgreement(g, from, Whole(g, from));
  }

  lemma SameNeedsAlwaysAgree(g: Graph, from: WavePoint)
    requires Deterministic(g) && FreeOrPaid(g) && Clean(g, from)
    requires SameNeeds(from.nodes) && Agreeing(from.nodes)
    ensures AlwaysAgrees(g, from)
  {
    var bs := Boundaries(g, from);
    forall m: nat | m < |bs| ensures AgreeingAt(bs, m) { SameNeedsAgree(bs, m); }
  }

  /** From a fresh DAG that the uninterrupted run completes, restarts restore exactly what was
      saved, at every boundary, if and only if nodes that share an id have dependency chains of
      the same length. */
  lemma AgreesExactly(g: Graph, from: WavePoint)
    requires Deterministic(g) && FreeOrPaid(g) && Clean(g, from)
    requires FreshDag(from.nodes) && AllDone(from.nodes, Whole(g, from).nodes)
    ensures AlwaysAgrees(g, from) <==> LevelTwins(from.nodes)
  {
    var bs := Boundaries(g, from);
    LevelsAgreeExactly(bs);
  }

  /** The last boundary has the nodes the run ends with. */
  lemma LastBoundary(g: Graph, from: WavePoint)
    requires Deterministic(g) && FreeOrPaid(g) && Clean(g, from)
    ensures Boundary(from, Whole(g, from), |Whole(g, from).saves|).nodes == Whole(g, from).nodes
  {
    var p := Boundary(from, Whole(g, from), |Whole(g, from).saves|);
    FromBoundary(g, WaveRestart.Fresh(from), |Whole(g, from).saves|);
    WholeEnds(g, p);
  }

  /** Two entries of one step type, the second behind another entry. */
  const LATE: seq<Entry> := [Entry("a", []), Entry("b", []), Entry("a", ["b"])]

  lemma LateIsSound()
    ensures AllNamed(LATE) && AllEven(LATE) && NoCycle(LATE)
  {
    assert LATE[0].stepType == "a" && LATE[1].stepType == "b" && LATE[2].stepType == "a";
    assert (set j | 0 <= j < |LATE| && Needs(LATE, 0, j)) == {};
    assert (set j | 0 <= j < |LATE| && Needs(LATE, 1, j)) == {};
    assert (set j | 0 <= j < |LATE| && Needs(LATE, 2, j)) == {1};
    forall p | Chain(LATE, p) && |p| >= 2 ensures p[0] != p[|p| - 1] {
      assert p[0] == 2 && p[1] == 1;
      assert Chain(LATE, p[1..]) && p[1..][0] == p[1];
      assert |p[1..]| == 1;
    }
  }

  /** The builder gives both entries one id. The first wave leaves the record with one of the
      two done and the other pending, and a resume, which restores both as pending, is ready
      to run the done node a second time. */
  lemma SharedIdRunsAgain()
    ensures var r := Outcome(LATE, None, 0);
            && r.Ok?
            && var saved := NextNodes(r.value);
            var restored := Restored(r.value, saved);
            && |saved| == 3 && saved[0].status.Done? && saved[1].status.Done? && saved[2].status.Pending?
            && restored[0].status.Pending? && Ready(restored, 0)
  {
    var nodes := LateNodes(LATE);
    LateWave(nodes);
  }

  predicate LateDag(nodes: Nodes) {
    && |nodes| == 3 && nodes[0].id == nodes[2].id
    && nodes[0].dependsOn == [] && nodes[1].dependsOn == [] && nodes[2].dependsOn == [nodes[1].id]
    && nodes[0].status.Pending? && nodes[1].status.Pending? && nodes[2].status.Pending?
  }

  lemma LateNodes(entries: seq<Entry>) returns (nodes: Nodes)
    requires entries == LATE
    ensures Outcome(entries, None, 0) == Ok(nodes) && LateDag(nodes)
  {
    LateIsSound();
    BuildExactly(entries, None, 0);
    nodes := Outcome(entries, None, 0).value;
    LateResolves(entries, nodes);
  }

  lemma LateResolves(entries: seq<Entry>, nodes: Nodes)
    requires entries == LATE && Outcome(entries, None, 0) == Ok(nodes)
    ensures LateDag(nodes)
  {
    ResolvesExactly(entries, 0);
    var ids := Names(entries, 0);
    assert Resolve(ids, entries) == Ok(nodes);
    ResolveIs(ids, entries);
    LateResolved(ids, entries, nodes);
  }

  lemma LateResolved(ids: map<Name, Id>, entries: seq<Entry>, nodes: Nodes)
    requires |nodes| == |entries| && forall i :: 0 <= i < |entries| ==> ResolvedAs(ids, entries[i], nodes[i])
    requires entries == LATE
    ensures LateDag(nodes)
  {
    assert ResolvedAs(ids, entries[0], nodes[0]) && ResolvedAs(ids, entries[1], nodes[1]);
    assert ResolvedAs(ids, entries[2], nodes[2]);
    assert nodes[2].dependsOn == [ids["b"]];
  }

  lemma LateWave(nodes: Nodes)
    requires LateDag(nodes)
    ensures var saved := NextNodes(nodes);
            var restored := Restored(nodes, saved);
            && |saved| == 3 && saved[0].status.Done? && saved[1].status.Done? && saved[2].status.Pending?
            && restored[0].status.Pending? && Ready(restored, 0)
  {
    assert DoneIds(nodes) == {};
    assert nodes[2].dependsOn[0] in nodes[2].dependsOn;
    forall i: nat | i < 3 ensures i in ReadyWave(nodes) <==> i != 2 { ReadyIsReady(nodes, i); }
    var saved := NextNodes(nodes);
    assert SavedStatus(saved, nodes[0].id) == Some(saved[2].status);
  }
}
