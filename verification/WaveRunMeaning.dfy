/** What a whole DAG run and its resumption mean: a chain of turns, each as its own answers and
    finishing order have it, from the restored nodes. */
module WaveRunMeaning {
  import opened Types
  import opened Executor
  import opened Dags
  import opened Waves
  import opened WaveConfluence
  import opened Deadlock
  import opened WaveMeaning
  import opened WaveRun

  /** Turn `k` completed its wave: it recorded that and led to the next configuration. */
  ghost predicate TurnWentOn(g: Graph, clock: Clock, sched: Schedule, cs: seq<Cfg>, t: DagTrace, k: nat) {
    && k + 1 < |cs| && k < |t.saves| && k < |t.waves| && t.waves[k] == ReadyWave(cs[k].nodes)
    && TurnDid(g, clock, cs[k], Order(sched, cs[k]), Advance(cs[k + 1], t.saves[k]))
  }

  /** The last turn ended the run, with at most one more record. */
  ghost predicate TurnEnded(g: Graph, clock: Clock, sched: Schedule, c: Cfg, result: Result<State, Error>,
                            nodes: Nodes, saves: seq<Snapshot>) {
    exists saved :: saves == ToSeq(saved) && TurnDid(g, clock, c, Order(sched, c), Stop(result, nodes, saved))
  }

  /** A run from `c`, by the configurations at its wave boundaries. */
  ghost predicate RunDid(g: Graph, clock: Clock, sched: Schedule, c: Cfg, t: DagTrace, cs: seq<Cfg>) {
    && |cs| == |t.waves| + 1 && |t.waves| <= |t.saves| && cs[0] == c
    && (forall k :: 0 <= k < |t.waves| ==> TurnWentOn(g, clock, sched, cs, t, k))
    && TurnEnded(g, clock, sched, cs[|t.waves|], t.result, t.nodes, t.saves[|t.waves|..])
  }

  lemma StopsAtOnce(g: Graph, clock: Clock, sched: Schedule, c: Cfg)
    requires Wave(g, clock, c, Order(sched, c)).Stop?
    ensures RunDid(g, clock, sched, c, RunWaves(g, clock, c, sched), [c])
  {
    TurnMeans(g, clock, c, Order(sched, c));
    var turn, t := Wave(g, clock, c, Order(sched, c)), RunWaves(g, clock, c, sched);
    assert t.saves[0..] == t.saves == ToSeq(turn.saved);
  }

  lemma RunPrepends(g: Graph, clock: Clock, sched: Schedule, c: Cfg, next: Cfg, save: Snapshot, rest: DagTrace,
                    cs: seq<Cfg>, t: DagTrace)
    requires RunDid(g, clock, sched, next, rest, cs)
    requires TurnDid(g, clock, c, Order(sched, c), Advance(next, save))
    requires t == DagTrace(rest.result, rest.nodes, [save] + rest.saves, [ReadyWave(c.nodes)] + rest.waves)
    ensures RunDid(g, clock, sched, c, t, [c] + cs)
  {
    forall k | 0 <= k < |t.waves| ensures TurnWentOn(g, clock, sched, [c] + cs, t, k) {
      if k == 0 {
        FirstTurn(g, clock, sched, c, next, save, rest, cs, t);
      } else {
        LaterTurn(g, clock, sched, c, save, rest, cs, t, k);
      }
    }
    LastTurn(g, clock, sched, c, save, rest, cs, t);
  }

  lemma LastTurn(g: Graph, clock: Clock, sched: Schedule, c: Cfg, save: Snapshot, rest: DagTrace, cs: seq<Cfg>,
                 t: DagTrace)
    requires |cs| == |rest.waves| + 1 && |rest.waves| <= |rest.saves|
    requires t == DagTrace(rest.result, rest.nodes, [save] + rest.saves, [ReadyWave(c.nodes)] + rest.waves)
    ensures t.saves[|t.waves|..] == rest.saves[|rest.waves|..] && ([c] + cs)[|t.waves|] == cs[|rest.waves|]
  {
  }

  lemma FirstTurn(g: Graph, clock: Clock, sched: Schedule, c: Cfg, next: Cfg, save: Snapshot, rest: DagTrace,
                  cs: seq<Cfg>, t: DagTrace)
    requires cs != [] && cs[0] == next && TurnDid(g, clock, c, Order(sched, c), Advance(next, save))
    requires t == DagTrace(rest.result, rest.nodes, [save] + rest.saves, [ReadyWave(c.nodes)] + rest.waves)
    ensures TurnWentOn(g, clock, sched, [c] + cs, t, 0)
  {
    var all := [c] + cs;
    assert all[0] == c && all[1] == next && t.saves[0] == save && t.waves[0] == ReadyWave(c.nodes);
  }

  lemma LaterTurn(g: Graph, clock: Clock, sched: Schedule, c: Cfg, save: Snapshot, rest: DagTrace, cs: seq<Cfg>,
                  t: DagTrace, k: nat)
    requires k > 0 && TurnWentOn(g, clock, sched, cs, rest, k - 1)
    requires t == DagTrace(rest.result, rest.nodes, [save] + rest.saves, [ReadyWave(c.nodes)] + rest.waves)
    ensures TurnWentOn(g, clock, sched, [c] + cs, t, k)
  {
    var all := [c] + cs;
    assert all[k] == cs[k - 1] && all[k + 1] == cs[k];
    assert t.saves[k] == rest.saves[k - 1] && t.waves[k] == rest.waves[k - 1];
  }

  /** Every run is such a chain of turns. */
  lemma {:induction false} RunMeans(g: Graph, clock: Clock, sched: Schedule, c: Cfg) returns (cs: seq<Cfg>)
    ensures RunDid(g, clock, sched, c, RunWaves(g, clock, c, sched), cs)
    decreases Pendings(c.nodes)
  {
    var order := Order(sched, c);
    WaveProgresses(g, clock, c, order);
    var turn := Wave(g, clock, c, order);
    if turn.Advance? {
      var rest := RunMeans(g, clock, sched, turn.next);
      TurnMeans(g, clock, c, order);
      cs := [c] + rest;
      RunPrepends(g, clock, sched, c, turn.next, turn.save, RunWaves(g, clock, turn.next, sched), rest,
                  RunWaves(g, clock, c, sched));
    } else {
      cs := [c];
      StopsAtOnce(g, clock, sched, c);
    }
  }

  /** What `run_dag` does: it refuses to nest deeper than eight and to run more nodes than
      allowed, and is otherwise a run from the first wave with nothing spent. */
  ghost predicate DagDid(g: Graph, clock: Clock, nodes: Nodes, state: State, sched: Schedule, depth: nat, t: DagTrace) {
    if depth > 8 then t == DagTrace(Err(RecursionLimitExceeded(depth, 8)), nodes, [], [])
    else if |nodes| > g.limits.maxDagNodes then
      t == DagTrace(Err(TooManyNodes(|nodes|, g.limits.maxDagNodes)), nodes, [], [])
    else
      exists cs :: RunDid(g, clock, sched, Cfg(nodes, state, 0.0, 0), t, cs)
  }

  lemma DagMeans(g: Graph, clock: Clock, nodes: Nodes, state: State, sched: Schedule, depth: u8)
    ensures DagDid(g, clock, nodes, state, sched, depth, DagOutcome(g, clock, nodes, state, sched, depth))
  {
    if depth <= 8 && |nodes| <= g.limits.maxDagNodes {
      var cs := RunMeans(g, clock, sched, Cfg(nodes, state, 0.0, 0));
    }
  }

  /** The merged state that a completed wave of a run records, on its own: from the state the
      wave began with, one merge after the other with what each ready node answered on that
      state, in index order. */
  lemma RecordsAreMerges(g: Graph, clock: Clock, sched: Schedule, c: Cfg, k: nat) returns (cs: seq<Cfg>)
    requires k < |RunWaves(g, clock, c, sched).waves|
    ensures var t := RunWaves(g, clock, c, sched);
            && |cs| == |t.waves| + 1 && cs[0] == c && |t.waves| <= |t.saves|
            && cs[k + 1].state == t.saves[k].state
            && MergesInto(g, clock, cs[k], t.saves[k].state)
  {
    cs := RunMeans(g, clock, sched, c);
    var t := RunWaves(g, clock, c, sched);
    assert TurnWentOn(g, clock, sched, cs, t, k);
    AdvanceMerges(g, clock, cs[k], Order(sched, cs[k]), cs[k + 1], t.saves[k]);
  }

  ghost predicate MergesInto(g: Graph, clock: Clock, c: Cfg, merged: State) {
    exists answers, ms ::
      WaveAnswers(g, clock, c, answers) && MergedInOrder(g, c, answers, ms) && ms[|ms| - 1] == merged
  }

  lemma AdvanceMerges(g: Graph, clock: Clock, c: Cfg, order: seq<nat>, next: Cfg, save: Snapshot)
    requires TurnDid(g, clock, c, order, Advance(next, save))
    ensures next.state == save.state && MergesInto(g, clock, c, save.state)
  {
    var answers :| WaveAnswers(g, clock, c, answers) && WaveDid(g, c, answers, order, Advance(next, save));
    FullAdvances(g, clock, c, answers, next, save);
  }

  lemma FullAdvances(g: Graph, clock: Clock, c: Cfg, answers: seq<NodeResult>, next: Cfg, save: Snapshot)
    requires WaveAnswers(g, clock, c, answers) && FullWave(g, c, answers, Advance(next, save))
    ensures next.state == save.state && MergesInto(g, clock, c, save.state)
  {
    var cost := c.cost + CostSum(answers, ReadyWave(c.nodes));
    var ms :| MergedInOrder(g, c, answers, ms) && FullEnds(g, c, ms[|ms| - 1], cost, Advance(next, save));
  }

  /** Node `j` is the last in the snapshot that carries the id. */
  predicate LastCarrier(saved: Nodes, id: Id, j: nat) {
    j < |saved| && saved[j].id == id && forall k :: j < k < |saved| ==> saved[k].id != id
  }

  /** What a resume makes of the status of one node, saved or the caller's own: after a crash a
      running node is pending again, or counts as done, as the policy has it. */
  function Resumed(g: Graph, crashed: bool, status: NodeStatus): NodeStatus {
    if !crashed || !status.Running? then status
    else match g.crashPolicy
      case ResetToPending => NodeStatus.Pending
      case FailFastOnCrash => NodeStatus.Running
      case SkipAndContinue => NodeStatus.Done
  }

  ghost predicate ResumedNode(g: Graph, crashed: bool, own: DagNode, saved: Nodes, after: DagNode) {
    && after == own.(status := after.status)
    && (forall j: nat :: LastCarrier(saved, own.id, j) ==> after.status == Resumed(g, crashed, saved[j].status))
    && ((forall j: nat :: !LastCarrier(saved, own.id, j)) ==> after.status == Resumed(g, crashed, own.status))
  }

  lemma {:induction false} SavedStatusIs(saved: Nodes, id: Id)
    ensures SavedStatus(saved, id).None? <==> forall j: nat :: !LastCarrier(saved, id, j)
    ensures forall j: nat :: LastCarrier(saved, id, j) ==> SavedStatus(saved, id) == Some(saved[j].status)
    decreases |saved|
  {
    if saved != [] {
      var k := |saved| - 1;
      SavedStatusIs(saved[..k], id);
      if saved[k].id == id {
        assert LastCarrier(saved, id, k);
      } else {
        forall j: nat ensures LastCarrier(saved, id, j) <==> LastCarrier(saved[..k], id, j) {}
      }
    }
  }

  /** The nodes `resume_dag` starts from, node by node: refused exactly after a crash under the
      fail-fast policy; otherwise each has the status its id was last saved with, or its own,
      and the crash policy applies to those that were running. */
  lemma ResumeMeans(g: Graph, nodes: Nodes, loaded: Snapshot)
    requires loaded.dag.Some?
    ensures var r, crashed := ResumeNodes(g, nodes, loaded), loaded.status.Running?;
            if crashed && g.crashPolicy.FailFastOnCrash? then r == Err(CrashDetected)
            else
              && r.Ok? && |r.value| == |nodes|
              && forall i :: 0 <= i < |nodes| ==> ResumedNode(g, crashed, nodes[i], loaded.dag.value, r.value[i])
  {
    forall i | 0 <= i < |nodes| ensures ResumeNodes(g, nodes, loaded).Ok? ==>
        ResumedNode(g, loaded.status.Running?, nodes[i], loaded.dag.value, ResumeNodes(g, nodes, loaded).value[i]) {
      SavedStatusIs(loaded.dag.value, nodes[i].id);
    }
  }
}
