/** Restart equivalence of the wave scheduler. */
module WaveRestart {
  import opened Types
  import opened Executor
  import opened Dags
  import opened Waves
  import opened WaveConfluence
  import opened Deadlock
  import opened WaveRun
  import SequentialRestart

  /** A deterministic task has one result, in every run and under every set of interrupts. */
  lemma SameTask(g: Graph, e1: nat, e2: nat, name: Name, state: State)
    requires Deterministic(g)
    ensures TaskResult(g.WithoutInterrupts(), e1, name, state) == TaskResult(g, e2, name, state)
    ensures TaskResult(g, e1, name, state) == TaskResult(g, e2, name, state)
  {
    DeterministicOutcome(g, g.WithoutInterrupts(), NodeContext(name, 0, None, None, e2),
        NodeContext(name, 0, None, None, e1), state);
    DeterministicOutcome(g, g, NodeContext(name, 0, None, None, e2), NodeContext(name, 0, None, None, e1), state);
  }

  lemma {:induction false} SameCosts(g: Graph, t1: Ticks, t2: Ticks, nodes: Nodes, state: State, which: seq<nat>)
    requires Deterministic(g)
    ensures Costs(g.WithoutInterrupts(), t1, nodes, state, which) == Costs(g, t2, nodes, state, which)
    decreases |which|
  {
    if which != [] {
      SameCosts(g, t1, t2, nodes, state, which[1..]);
      if which[0] < |nodes| { SameTask(g, t1(which[0]), t2(which[0]), nodes[which[0]].stepType, state); }
    }
  }

  lemma SameOuts(g: Graph, t1: Ticks, t2: Ticks, nodes: Nodes, state: State, which: seq<nat>)
    requires Deterministic(g)
    ensures Outs(g.WithoutInterrupts(), t1, nodes, state, which) == Outs(g, t2, nodes, state, which)
  {
    forall i: nat | i < |nodes| ensures OutOf(g.WithoutInterrupts(), t1, nodes, state, i) ==
        OutOf(g, t2, nodes, state, i) {
      SameTask(g, t1(i), t2(i), nodes[i].stepType, state);
    }
  }

  lemma {:induction false} SameMerge(g: Graph, state: State, outs: seq<(nat, State)>)
    ensures MergeAll(g.WithoutInterrupts(), state, outs) == MergeAll(g, state, outs)
    decreases |outs|
  {
    if outs != [] { SameMerge(g, g.merge(state, outs[0].1), outs[1..]); }
  }

  lemma {:induction false} SameUnregistered(g: Graph, nodes: Nodes, ready: seq<nat>)
    ensures Unregistered(g.WithoutInterrupts(), nodes, ready) == Unregistered(g, nodes, ready)
    decreases |ready|
  {
    if ready != [] { SameUnregistered(g, nodes, ready[1..]); }
  }

  lemma SameWave(g: Graph, t1: Ticks, t2: Ticks, nodes: Nodes, state: State)
    requires Deterministic(g)
    ensures var h := g.WithoutInterrupts();
            && NextState(h, t1, nodes, state) == NextState(g, t2, nodes, state)
            && (WaveSucceeds(h, t1, nodes, state) <==> WaveSucceeds(g, t2, nodes, state))
  {
    var h := g.WithoutInterrupts();
    SameOuts(g, t1, t2, nodes, state, ReadyWave(nodes));
    SameMerge(g, state, Outs(g, t2, nodes, state, ReadyWave(nodes)));
    forall i: nat | i < |nodes|
      ensures Succeeds(h, t1(i), nodes[i].stepType, state) <==> Succeeds(g, t2(i), nodes[i].stepType, state)
    {
      SameTask(g, t1(i), t2(i), nodes[i].stepType, state);
    }
  }

  lemma {:induction false} CostsArePaid(g: Graph, ticks: Ticks, nodes: Nodes, state: State, which: seq<nat>)
    requires Deterministic(g) && FreeOrPaid(g) && g.budget.Some?
    ensures Costs(g, ticks, nodes, state, which) >= 0.0
    decreases |which|
  {
    if which != [] {
      CostsArePaid(g, ticks, nodes, state, which[1..]);
      if which[0] < |nodes| {
        SequentialRestart.CostIsCharged(g, NodeContext(nodes[which[0]].stepType, 0, None, None, ticks(which[0])),
            state);
      }
    }
  }

  /** `q`, in an interrupted life, and `p`, in the uninterrupted run, are about to run the
      same wave on the same state; `q` has used no more budget. */
  predicate Lags(g: Graph, q: Cfg, p: Cfg) {
    && q.nodes == p.nodes && q.state == p.state
    && (g.budget.Some? ==> q.cost <= p.cost && 0.0 <= p.cost)
  }

  /** What the interrupted life does where the uninterrupted run goes on to `next`. */
  predicate Follows(g: Graph, q: Cfg, mine: WaveResult, turn: WaveResult)
    requires turn.Advance?
  {
    var ready := ReadyWave(q.nodes);
    if q.wave > 0 && Meets(q.nodes, ready, g.interruptBefore) then
      var waiting := Joined(StepTypes(q.nodes, ready));
      mine == Stop(Ok(q.state), q.nodes, Some(DagSave(q.state, waiting, q.nodes, Interrupted, None)))
    else if Meets(q.nodes, ready, g.interruptAfter) then
      mine == Stop(Ok(turn.next.state), turn.next.nodes, Some(turn.save))
    else
      mine.Advance? && mine.save == turn.save && Lags(g, mine.next, turn.next)
  }

  /** Turn by turn, under any finishing order of the tasks: what the uninterrupted run does
      next the interrupted life does too, unless it stops at an interrupt. */
  lemma LagStep(g: Graph, k1: Clock, q: Cfg, s1: Schedule, k2: Clock, p: Cfg, s2: Schedule)
    requires Deterministic(g) && FreeOrPaid(g) && Lags(g, q, p)
    requires Wave(g.WithoutInterrupts(), k2, p, Order(s2, p)).Advance?
    ensures Follows(g, q, Wave(g, k1, q, Order(s1, q)), Wave(g.WithoutInterrupts(), k2, p, Order(s2, p)))
  {
    var h := g.WithoutInterrupts();
    var ready := ReadyWave(p.nodes);
    LagPremises(g, k1, q, k2, p, s2);
    AdvanceIsNext(h, k2, p, s2);
    if !(q.wave > 0 && Meets(q.nodes, ready, g.interruptBefore)) {
      Confluence(g, k1, q, Order(s1, q));
      SameWave(g, k2(p.wave), k1(q.wave), p.nodes, p.state);
    }
  }

  lemma LagPremises(g: Graph, k1: Clock, q: Cfg, k2: Clock, p: Cfg, s2: Schedule)
    requires Deterministic(g) && FreeOrPaid(g) && Lags(g, q, p)
    requires Wave(g.WithoutInterrupts(), k2, p, Order(s2, p)).Advance?
    ensures ReadyWave(q.nodes) != [] && Unregistered(g, q.nodes, ReadyWave(q.nodes)).None?
    ensures WaveSucceeds(g, k1(q.wave), q.nodes, q.state) && !g.BreaksBudget(NextCost(g, k1, q))
    ensures g.budget.Some? ==> NextCost(g, k1, q) <= NextCost(g.WithoutInterrupts(), k2, p)
    ensures g.budget.Some? ==> 0.0 <= NextCost(g.WithoutInterrupts(), k2, p)
  {
    var h := g.WithoutInterrupts();
    if Early(h, p).Some? { EarlyStops(h, p); }
    AdvanceIsNext(h, k2, p, s2);
    SameUnregistered(g, p.nodes, ReadyWave(p.nodes));
    SameWave(g, k2(p.wave), k1(q.wave), p.nodes, p.state);
    SameCosts(g, k2(p.wave), k1(q.wave), p.nodes, p.state, ReadyWave(p.nodes));
    if g.budget.Some? { CostsArePaid(g, k1(q.wave), q.nodes, q.state, ReadyWave(q.nodes)); }
  }

  /** A run without interrupts that lags behind an undisturbed one ends with the same
      records, result and nodes. */
  lemma {:induction false} SameFinish(g: Graph, k1: Clock, q: Cfg, s1: Schedule, k2: Clock, p: Cfg, s2: Schedule)
    requires Deterministic(g) && FreeOrPaid(g) && Lags(g, q, p) && g.WithoutInterrupts() == g
    requires Undisturbed(g, k2, p, s2)
    ensures Undisturbed(g, k1, q, s1)
    ensures SameEnd(RunWaves(g, k1, q, s1), RunWaves(g, k2, p, s2), 0)
    decreases Pendings(p.nodes)
  {
    if ReadyWave(p.nodes) != [] {
      var mine, turn := Wave(g, k1, q, Order(s1, q)), Wave(g, k2, p, Order(s2, p));
      WaveProgresses(g, k2, p, Order(s2, p));
      LagStep(g, k1, q, s1, k2, p, s2);
      SameFinish(g, k1, mine.next, s1, k2, turn.next, s2);
    }
  }

  /** `t` ends like `whole` does after its first `m` records. */
  predicate SameEnd(t: DagTrace, whole: DagTrace, m: nat) {
    m <= |whole.saves| && t.saves == whole.saves[m..] && t.result == whole.result && t.nodes == whole.nodes
  }

  function LatestAfter(from: WavePoint, saves: seq<Snapshot>): WavePoint {
    if saves == [] then from else PointOf(saves[|saves| - 1])
  }

  /** The point the uninterrupted run `whole` from `from` stands at after `m` waves. */
  function Boundary(from: WavePoint, whole: DagTrace, m: nat): WavePoint
    requires m <= |whole.saves|
  {
    LatestAfter(from, whole.saves[..m])
  }

  function Fresh(p: WavePoint): Cfg { Cfg(p.nodes, p.state, 0.0, 0) }

  const INDEX_ORDER: Schedule := k => []

  const STILL: Clock := w => i => 0

  function Whole(g: Graph, p: WavePoint): DagTrace {
    RunWaves(g.WithoutInterrupts(), STILL, Fresh(p), INDEX_ORDER)
  }

  predicate Clean(g: Graph, p: WavePoint) {
    Undisturbed(g.WithoutInterrupts(), STILL, Fresh(p), INDEX_ORDER)
  }

  /** It does not matter which uninterrupted run is taken: for every finishing order and every
      answer to the oracle it is undisturbed too, with the same records, result and nodes. */
  lemma AnyUninterrupted(g: Graph, clock: Clock, sched: Schedule, p: WavePoint)
    requires Deterministic(g) && FreeOrPaid(g) && Undisturbed(g.WithoutInterrupts(), clock, Fresh(p), sched)
    ensures Clean(g, p) && SameEnd(Whole(g, p), RunWaves(g.WithoutInterrupts(), clock, Fresh(p), sched), 0)
  {
    SameFinish(g.WithoutInterrupts(), STILL, Fresh(p), INDEX_ORDER, clock, Fresh(p), sched);
  }

  /** From each boundary the uninterrupted run could be finished with the same records,
      statuses and result. */
  lemma {:induction false} FromBoundary(g: Graph, c: Cfg, m: nat)
    requires Deterministic(g) && FreeOrPaid(g) && Lags(g, c, c)
    requires Undisturbed(g.WithoutInterrupts(), STILL, c, INDEX_ORDER)
    requires m <= |RunWaves(g.WithoutInterrupts(), STILL, c, INDEX_ORDER).saves|
    ensures var whole := RunWaves(g.WithoutInterrupts(), STILL, c, INDEX_ORDER);
            var b := Boundary(Here(c), whole, m);
            Clean(g, b) && SameEnd(Whole(g, b), whole, m) && SameShape(b.nodes, c.nodes)
    decreases m
  {
    var h := g.WithoutInterrupts();
    var whole := RunWaves(h, STILL, c, INDEX_ORDER);
    if m == 0 {
      SameFinish(h, STILL, Fresh(Here(c)), INDEX_ORDER, STILL, c, INDEX_ORDER);
    } else {
      FirstWave(g, c);
      var turn := Wave(h, STILL, c, Order(INDEX_ORDER, c));
      var rest := RunWaves(h, STILL, turn.next, INDEX_ORDER);
      FromBoundary(g, turn.next, m - 1);
      BoundaryNext(c, turn, whole, rest, m);
      ShapeTransitive(Boundary(Here(c), whole, m).nodes, turn.next.nodes, c.nodes);
    }
  }

  lemma FirstWave(g: Graph, c: Cfg)
    requires Deterministic(g) && FreeOrPaid(g) && Lags(g, c, c)
    requires Undisturbed(g.WithoutInterrupts(), STILL, c, INDEX_ORDER)
    requires RunWaves(g.WithoutInterrupts(), STILL, c, INDEX_ORDER).saves != []
    ensures var h := g.WithoutInterrupts();
            var turn := Wave(h, STILL, c, Order(INDEX_ORDER, c));
            && turn.Advance? && turn.save.dag == Some(turn.next.nodes) && turn.save.state == turn.next.state
            && Lags(g, turn.next, turn.next) && Undisturbed(h, STILL, turn.next, INDEX_ORDER)
            && SameShape(turn.next.nodes, c.nodes)
            && var whole, rest := RunWaves(h, STILL, c, INDEX_ORDER), RunWaves(h, STILL, turn.next, INDEX_ORDER);
            whole == DagTrace(rest.result, rest.nodes, [turn.save] + rest.saves, [ReadyWave(c.nodes)] + rest.waves)
  {
    var h := g.WithoutInterrupts();
    WaveProgresses(h, STILL, c, Order(INDEX_ORDER, c));
    AdvancesTo(h, STILL, c, INDEX_ORDER);
    StillLags(g, c);
  }

  /** What a wave that goes on records and leads to. */
  lemma AdvancesTo(g: Graph, clock: Clock, c: Cfg, sched: Schedule)
    requires Wave(g, clock, c, Order(sched, c)).Advance?
    ensures var turn := Wave(g, clock, c, Order(sched, c));
            && turn.save.dag == Some(turn.next.nodes) && turn.save.state == turn.next.state
            && turn.next.nodes == NextNodes(c.nodes) && SameShape(turn.next.nodes, c.nodes)
  {
    AdvanceIsNext(g, clock, c, sched);
  }

  lemma StillLags(g: Graph, c: Cfg)
    requires Deterministic(g) && FreeOrPaid(g) && Lags(g, c, c)
    requires Wave(g.WithoutInterrupts(), STILL, c, Order(INDEX_ORDER, c)).Advance?
    ensures var next := Wave(g.WithoutInterrupts(), STILL, c, Order(INDEX_ORDER, c)).next; Lags(g, next, next)
  {
    var h := g.WithoutInterrupts();
    AdvanceIsNext(h, STILL, c, INDEX_ORDER);
    if g.budget.Some? { CostsArePaid(h, STILL(c.wave), c.nodes, c.state, ReadyWave(c.nodes)); }
  }

  lemma ShapeTransitive(a: Nodes, b: Nodes, c: Nodes)
    requires SameShape(a, b) && SameShape(b, c)
    ensures SameShape(a, c)
  {
    forall i | 0 <= i < |a| ensures a[i] == c[i].(status := a[i].status) {
      assert a[i] == b[i].(status := a[i].status) && b[i] == c[i].(status := b[i].status);
    }
  }

  lemma BoundaryNext(c: Cfg, turn: WaveResult, whole: DagTrace, rest: DagTrace, m: nat)
    requires turn.Advance? && turn.save.dag == Some(turn.next.nodes) && turn.save.state == turn.next.state
    requires whole.saves == [turn.save] + rest.saves && 0 < m <= |whole.saves|
    ensures Boundary(Here(c), whole, m) == Boundary(Here(turn.next), rest, m - 1)
    ensures whole.saves[m..] == rest.saves[m - 1..]
  {
    assert whole.saves[..m] == [turn.save] + rest.saves[..m - 1];
  }

  /** The completed waves a run recorded. */
  function CompleteCount(saves: seq<Snapshot>): nat
    decreases |saves|
  {
    if saves == [] then 0 else (if saves[0].status.Complete? then 1 else 0) + CompleteCount(saves[1..])
  }

  /** A life only ever records points the uninterrupted run `whole` passes, one wave further
      each, and ends without an error or with the uninterrupted run's own end. */
  ghost predicate OnTrack(from: WavePoint, t: DagTrace, whole: DagTrace) {
    && (t.result.Ok? || t.result == whole.result)
    && CompleteCount(t.saves) <= |whole.saves|
    && (forall k :: 0 <= k <= |t.saves| ==>
         LatestAfter(from, t.saves[..k]) == Boundary(from, whole, Min(k, CompleteCount(t.saves))))
    && (CompleteCount(t.saves) == |whole.saves| && |t.saves| == |whole.saves| ==> t.nodes == whole.nodes)
  }

  lemma LatestPrepend(from: WavePoint, save: Snapshot, saves: seq<Snapshot>, all: seq<Snapshot>, k: nat)
    requires all == [save] + saves && 0 < k <= |all|
    ensures LatestAfter(from, all[..k]) == LatestAfter(PointOf(save), saves[..k - 1])
  {
    assert all[..k] == [save] + saves[..k - 1];
  }

  lemma OnTrackPrepend(from: WavePoint, save: Snapshot, t: DagTrace, t': DagTrace, whole: DagTrace, whole': DagTrace)
    requires OnTrack(PointOf(save), t, whole) && save.status.Complete?
    requires t'.saves == [save] + t.saves && t'.result == t.result && t'.nodes == t.nodes
    requires whole'.saves == [save] + whole.saves && whole'.result == whole.result && whole'.nodes == whole.nodes
    ensures OnTrack(from, t', whole')
  {
    assert t'.saves[1..] == t.saves;
    var n := CompleteCount(t.saves);
    assert CompleteCount(t'.saves) == n + 1;
    forall k | 0 <= k <= |t'.saves|
      ensures LatestAfter(from, t'.saves[..k]) == Boundary(from, whole', Min(k, n + 1))
    {
      if k > 0 {
        LatestPrepend(from, save, t.saves, t'.saves, k);
        LatestPrepend(from, save, whole.saves, whole'.saves, Min(k, n + 1));
      }
    }
  }

  lemma OnTrackStop(from: WavePoint, save: Snapshot, t: DagTrace, whole: DagTrace, next: DagTrace)
    requires whole.saves != [] && whole.nodes == next.nodes && whole.saves[1..] == next.saves
    requires t.saves == [save] && t.result.Ok? &&
             PointOf(save) == if save.status.Complete? then PointOf(whole.saves[0]) else from
    requires next.saves == [] && save.status.Complete? ==> t.nodes == next.nodes
    ensures OnTrack(from, t, whole)
  {
    assert t.saves[..1] == [save] && whole.saves[..1] == [whole.saves[0]];
    assert t.saves[1..] == [];
    assert CompleteCount(t.saves[1..]) == 0;
  }

  predicate Stays(g: Graph, q: Cfg, t: DagTrace, whole: DagTrace) {
    && (q.wave == 0 && whole.saves != [] ==> CompleteCount(t.saves) > 0)
    && (whole.saves == [] ==> t == whole)
  }

  lemma LifeStops(g: Graph, clock: Clock, q: Cfg, sched: Schedule, p: Cfg)
    requires Undisturbed(g.WithoutInterrupts(), STILL, p, INDEX_ORDER) && ReadyWave(p.nodes) != [] && Lags(g, q, p)
    requires Follows(g, q, Wave(g, clock, q, Order(sched, q)),
             Wave(g.WithoutInterrupts(), STILL, p, Order(INDEX_ORDER, p)))
    requires Wave(g, clock, q, Order(sched, q)).Stop?
    ensures var t, whole := RunWaves(g, clock, q, sched), RunWaves(g.WithoutInterrupts(), STILL, p, INDEX_ORDER);
            OnTrack(Here(q), t, whole) && Stays(g, q, t, whole)
  {
    var h := g.WithoutInterrupts();
    var t, whole := RunWaves(g, clock, q, sched), RunWaves(h, STILL, p, INDEX_ORDER);
    var turn := Wave(h, STILL, p, Order(INDEX_ORDER, p));
    var mine := Wave(g, clock, q, Order(sched, q));
    TraceGrows(h, STILL, p, INDEX_ORDER);
    var rest := RunWaves(h, STILL, turn.next, INDEX_ORDER);
    var save := mine.saved.value;
    assert t.saves == [save] && t.saves[1..] == [];
    if rest.saves == [] { NothingLeft(h, turn.next); }
    OnTrackStop(Here(q), save, t, whole, rest);
  }

  lemma NothingLeft(h: Graph, c: Cfg)
    requires Undisturbed(h, STILL, c, INDEX_ORDER) && RunWaves(h, STILL, c, INDEX_ORDER).saves == []
    ensures ReadyWave(c.nodes) == [] && RunWaves(h, STILL, c, INDEX_ORDER).nodes == c.nodes
  {
  }

  lemma TraceGrows(g: Graph, clock: Clock, c: Cfg, sched: Schedule)
    requires Wave(g, clock, c, Order(sched, c)).Advance?
    ensures var turn, t := Wave(g, clock, c, Order(sched, c)), RunWaves(g, clock, c, sched);
            var rest := RunWaves(g, clock, turn.next, sched);
            t.saves == [turn.save] + rest.saves && t.result == rest.result && t.nodes == rest.nodes
    ensures PointOf(Wave(g, clock, c, Order(sched, c)).save) == Here(Wave(g, clock, c, Order(sched, c)).next)
    ensures Wave(g, clock, c, Order(sched, c)).save.status.Complete?
  {
    WaveProgresses(g, clock, c, Order(sched, c));
    AdvanceIsNext(g, clock, c, sched);
  }

  lemma LifeGoesOn(g: Graph, clock: Clock, q: Cfg, sched: Schedule, p: Cfg)
    requires var mine, turn := Wave(g, clock, q, Order(sched, q)),
             Wave(g.WithoutInterrupts(), STILL, p, Order(INDEX_ORDER, p));
             && turn.Advance? && mine.Advance? && mine.save == turn.save
             && OnTrack(Here(mine.next), RunWaves(g, clock, mine.next, sched),
                 RunWaves(g.WithoutInterrupts(), STILL, turn.next, INDEX_ORDER))
    ensures var t, whole := RunWaves(g, clock, q, sched), RunWaves(g.WithoutInterrupts(), STILL, p, INDEX_ORDER);
            OnTrack(Here(q), t, whole) && Stays(g, q, t, whole)
  {
    var h := g.WithoutInterrupts();
    TraceGrows(g, clock, q, sched);
    TraceGrows(h, STILL, p, INDEX_ORDER);
    var turn := Wave(h, STILL, p, Order(INDEX_ORDER, p));
    var mine := Wave(g, clock, q, Order(sched, q));
    OnTrackPrepend(Here(q), mine.save, RunWaves(g, clock, mine.next, sched), RunWaves(g, clock, q, sched),
                   RunWaves(h, STILL, turn.next, INDEX_ORDER), RunWaves(h, STILL, p, INDEX_ORDER));
  }

  /** A life whose configuration lags behind the uninterrupted run stays on its track, and a
      fresh one completes at least one wave if there is one. */
  lemma {:induction false} LifeOnTrack(g: Graph, clock: Clock, q: Cfg, sched: Schedule, p: Cfg)
    requires Deterministic(g) && FreeOrPaid(g) && Lags(g, q, p)
    requires Undisturbed(g.WithoutInterrupts(), STILL, p, INDEX_ORDER)
    ensures var t, whole := RunWaves(g, clock, q, sched), RunWaves(g.WithoutInterrupts(), STILL, p, INDEX_ORDER);
            OnTrack(Here(q), t, whole) && Stays(g, q, t, whole)
    decreases Pendings(p.nodes)
  {
    var h := g.WithoutInterrupts();
    var whole := RunWaves(h, STILL, p, INDEX_ORDER);
    var turn := Wave(h, STILL, p, Order(INDEX_ORDER, p));
    var mine := Wave(g, clock, q, Order(sched, q));
    if ReadyWave(p.nodes) != [] {
      WaveProgresses(h, STILL, p, Order(INDEX_ORDER, p));
      LagStep(g, clock, q, sched, STILL, p, INDEX_ORDER);
      if mine.Advance? {
        LifeOnTrack(g, clock, mine.next, sched, turn.next);
        LifeGoesOn(g, clock, q, sched, p);
      } else {
        LifeStops(g, clock, q, sched, p);
      }
    }
  }

  /** One life of the process: how it ends, the interrupts set in it, the caller's copy of the
      DAG (whatever statuses it has), the calls' oracle, the finishing orders and the depth
      it is started with. */
  datatype Life = Life(
    cut: SequentialRestart.Cut,
    interrupts: Interrupts,
    copy: Nodes,
    clock: Clock,
    sched: Schedule,
    depth: u8)

  /** `resume_dag` from a record of point `p`. */
  function Resumed(g: Graph, p: WavePoint, life: Life): DagTrace {
    DagOutcome(g.Under(life.interrupts), life.clock, Restored(life.copy, p.nodes), p.state, life.sched, life.depth)
  }

  /** The point the thread stands at after the lives. A life that left no record is started
      again where it was. */
  function Replay(g: Graph, from: WavePoint, lives: seq<Life>): WavePoint
    decreases |lives|
  {
    if lives == [] then from
    else
      var saves := SequentialRestart.Written(Resumed(g, from, lives[0]).saves, lives[0].cut);
      Replay(g, LatestAfter(from, saves), lives[1..])
  }

  function Returns(lives: seq<Life>): nat
    decreases |lives|
  {
    if lives == [] then 0 else (if lives[0].cut.Return? then 1 else 0) + Returns(lives[1..])
  }

  /** A copy of the DAG with the same ids, and a depth within the limit. */
  predicate Admitted(dag: Nodes, life: Life) { SameShape(life.copy, dag) && life.depth <= MAX_DEPTH }

  lemma RestoredPoint(g: Graph, dag: Nodes, p: WavePoint, life: Life)
    requires SameShape(p.nodes, dag) && Agreeing(p.nodes) && Admitted(dag, life) && |dag| <= g.limits.maxDagNodes
    ensures Resumed(g, p, life) == RunWaves(g.Under(life.interrupts), life.clock, Fresh(p), life.sched)
  {
    CopiesShape(dag, p, life);
    RestoresExactly(life.copy, p.nodes);
  }

  lemma CopiesShape(dag: Nodes, p: WavePoint, life: Life)
    requires SameShape(p.nodes, dag) && Admitted(dag, life)
    ensures SameShape(life.copy, p.nodes)
  {
    forall i | 0 <= i < |dag| ensures life.copy[i] == p.nodes[i].(status := life.copy[i].status) {
      assert life.copy[i] == dag[i].(status := life.copy[i].status) &&
             p.nodes[i] == dag[i].(status := p.nodes[i].status);
    }
  }

  /** How a life from point `p` relates to the uninterrupted run `whole` of which `m` waves
      are behind `p`. */
  ghost predicate Sound(g: Graph, p: WavePoint, life: Life, whole: DagTrace, m: nat) {
    var t := Resumed(g, p, life);
    && (t.result.Ok? || t.result == whole.result)
    && (m < |whole.saves| ==> CompleteCount(t.saves) > 0)
    && (m == |whole.saves| ==> t == DagTrace(whole.result, whole.nodes, [], []))
  }

  /** One life: it stays on the track of the uninterrupted run and leaves the thread at one of
      its boundaries, further on unless there was nothing left or it died. */
  lemma OneLife(g: Graph, dag: Nodes, p: WavePoint, life: Life) returns (k: nat)
    requires Deterministic(g) && FreeOrPaid(g) && Clean(g, p)
    requires SameShape(p.nodes, dag) && Agreeing(p.nodes) && Admitted(dag, life) && |dag| <= g.limits.maxDagNodes
    ensures var whole := Whole(g, p);
            && k <= |whole.saves| && (life.cut.Return? ==> k >= Min(1, |whole.saves|))
            && LatestAfter(p, SequentialRestart.Written(Resumed(g, p, life).saves, life.cut)) == Boundary(p, whole, k)
            && Sound(g, p, life, whole, 0)
  {
    RestoredPoint(g, dag, p, life);
    UnderInterrupts(g, life.interrupts);
    LifeOnTrack(g.Under(life.interrupts), life.clock, Fresh(p), life.sched, Fresh(p));
    k := PointOnTrack(p, Resumed(g, p, life), Whole(g, p), life.cut);
  }

  lemma PointOnTrack(p: WavePoint, t: DagTrace, whole: DagTrace, cut: SequentialRestart.Cut) returns (k: nat)
    requires OnTrack(p, t, whole) && (whole.saves != [] ==> CompleteCount(t.saves) > 0)
    ensures k <= |whole.saves| && (cut.Return? ==> k >= Min(1, |whole.saves|))
    ensures LatestAfter(p, SequentialRestart.Written(t.saves, cut)) == Boundary(p, whole, k)
  {
    var saves := SequentialRestart.Written(t.saves, cut);
    assert t.saves[..|t.saves|] == t.saves;
    k := Min(|saves|, CompleteCount(t.saves));
    assert saves == t.saves[..|saves|];
    CountBound(t.saves);
  }

  lemma {:induction false} CountBound(saves: seq<Snapshot>)
    ensures CompleteCount(saves) <= |saves|
    decreases |saves|
  {
    if saves != [] { CountBound(saves[1..]); }
  }

  /** Point `p` is the boundary of the uninterrupted run from `from` after `m` waves, and a
      life from there takes that run further or ends as it does. */
  ghost predicate Stands(g: Graph, dag: Nodes, from: WavePoint, p: WavePoint, m: nat) {
    var whole := Whole(g, from);
    && m <= |whole.saves| && p == Boundary(from, whole, m)
    && (forall life :: Admitted(dag, life) ==> Sound(g, p, life, whole, m))
    && (m == |whole.saves| <==> ReadyWave(p.nodes) == [])
    && (m == |whole.saves| ==> p.nodes == whole.nodes && (whole.result.Ok? ==> p.state == whole.result.value))
  }

  lemma StandsAtStart(g: Graph, dag: Nodes, from: WavePoint)
    requires Deterministic(g) && FreeOrPaid(g) && Clean(g, from)
    requires SameShape(from.nodes, dag) && Agreeing(from.nodes) && |dag| <= g.limits.maxDagNodes
    ensures Stands(g, dag, from, from, 0)
  {
    forall life | Admitted(dag, life) ensures Sound(g, from, life, Whole(g, from), 0) {
      var k := OneLife(g, dag, from, life);
      if Whole(g, from).saves == [] { NothingToDo(g, dag, from, life); }
    }
    WholeEnds(g, from);
  }

  lemma StandsFurther(g: Graph, dag: Nodes, from: WavePoint, k: nat, p: WavePoint, m: nat)
    requires SameEndFrom(g, from, k) && Stands(g, dag, Boundary(from, Whole(g, from), k), p, m)
    ensures Stands(g, dag, from, p, k + m)
  {
    var mid := Boundary(from, Whole(g, from), k);
    FurtherOn(g, from, Whole(g, from), Whole(g, mid), k, m);
    forall life | Admitted(dag, life) ensures Sound(g, p, life, Whole(g, from), k + m) {
      assert Sound(g, p, life, Whole(g, mid), m);
    }
  }

  ghost predicate SameEndFrom(g: Graph, from: WavePoint, k: nat) {
    k <= |Whole(g, from).saves| && SameEnd(Whole(g, Boundary(from, Whole(g, from), k)), Whole(g, from), k)
  }

  /** At the boundary after `m` waves nodes that share an id share a status. */
  predicate AgreesAt(g: Graph, from: WavePoint, m: nat) {
    m <= |Whole(g, from).saves| ==> Agreeing(Boundary(from, Whole(g, from), m).nodes)
  }

  ghost predicate AlwaysAgrees(g: Graph, from: WavePoint) {
    forall m: nat :: AgreesAt(g, from, m)
  }

  /** Restart equivalence of the wave scheduler. Let the uninterrupted run, without
      interrupts, be undisturbed, and let nodes that share an id share a status at its
      boundaries. Whatever interrupts each life sets, however it dies after durable writes, in
      whatever order its tasks finish, and whatever statuses the caller's copy of the DAG has:
      after the lives the thread stands at a boundary of the uninterrupted run, at least as
      far along as the number of lives that returned. Each further life runs without an error
      of its own, completes a wave while there is one, and with none left ends in the
      uninterrupted result and statuses. Once as many lives returned as the run has waves, the
      thread stands at exactly its final nodes and state. */
  lemma {:induction false} RestartEquivalence(g: Graph, dag: Nodes, from: WavePoint, lives: seq<Life>) returns (m: nat)
    requires Deterministic(g) && FreeOrPaid(g) && Clean(g, from)
    requires SameShape(from.nodes, dag) && AlwaysAgrees(g, from) && |dag| <= g.limits.maxDagNodes
    requires forall i :: 0 <= i < |lives| ==> Admitted(dag, lives[i])
    ensures Stands(g, dag, from, Replay(g, from, lives), m)
    ensures m >= Min(Returns(lives), |Whole(g, from).saves|)
    decreases |lives|
  {
    if lives == [] {
      StartAgrees(g, from);
      StandsAtStart(g, dag, from);
      return 0;
    } else {
      var k, mid := NextLife(g, dag, from, lives[0]);
      var rest := RestartEquivalence(g, dag, mid, lives[1..]);
      ReplayUnfolds(g, from, lives, mid);
      m := GoesOn(g, dag, from, lives, k, mid, Replay(g, mid, lives[1..]), rest);
    }
  }

  /** Point `mid` is `k` waves on from `from`. */
  ghost predicate FurtherBy(g: Graph, from: WavePoint, k: nat, mid: WavePoint) {
    && SameEndFrom(g, from, k) && mid == Boundary(from, Whole(g, from), k)
    && |Whole(g, mid).saves| == |Whole(g, from).saves| - k
  }

  lemma GoesOn(g: Graph, dag: Nodes, from: WavePoint, lives: seq<Life>, k: nat, mid: WavePoint, end: WavePoint,
               rest: nat)
    returns (m: nat)
    requires lives != [] && FurtherBy(g, from, k, mid) && Stands(g, dag, mid, end, rest)
    requires lives[0].cut.Return? ==> k >= Min(1, |Whole(g, from).saves|)
    requires rest >= Min(Returns(lives[1..]), |Whole(g, mid).saves|)
    ensures Stands(g, dag, from, end, m)
    ensures m >= Min(Returns(lives), |Whole(g, from).saves|)
  {
    m := k + rest;
    StandsFurther(g, dag, from, k, end, rest);
    CountsUp(lives, |Whole(g, from).saves|, k, rest);
  }

  lemma {:induction false} ReplayUnfolds(g: Graph, from: WavePoint, lives: seq<Life>, mid: WavePoint)
    requires lives != []
    requires mid == LatestAfter(from, SequentialRestart.Written(Resumed(g, from, lives[0]).saves, lives[0].cut))
    ensures Replay(g, from, lives) == Replay(g, mid, lives[1..])
  {
  }

  lemma CountsUp(lives: seq<Life>, n: nat, k: nat, rest: nat)
    requires lives != [] && k <= n && rest >= Min(Returns(lives[1..]), n - k)
    requires lives[0].cut.Return? ==> k >= Min(1, n)
    ensures k + rest >= Min(Returns(lives), n)
  {
  }

  /** A life from `from` leaves the thread at `mid`, `k` waves on. */
  ghost predicate Continues(g: Graph, from: WavePoint, life: Life, k: nat, mid: WavePoint) {
    && mid == LatestAfter(from, SequentialRestart.Written(Resumed(g, from, life).saves, life.cut))
    && SameEndFrom(g, from, k) && mid == Boundary(from, Whole(g, from), k)
    && (life.cut.Return? ==> k >= Min(1, |Whole(g, from).saves|))
    && |Whole(g, mid).saves| == |Whole(g, from).saves| - k
  }

  lemma NextLife(g: Graph, dag: Nodes, from: WavePoint, life: Life) returns (k: nat, mid: WavePoint)
    requires Deterministic(g) && FreeOrPaid(g) && Clean(g, from)
    requires SameShape(from.nodes, dag) && AlwaysAgrees(g, from) && Admitted(dag, life)
    requires |dag| <= g.limits.maxDagNodes
    ensures Continues(g, from, life, k, mid) && Clean(g, mid) && SameShape(mid.nodes, dag) && AlwaysAgrees(g, mid)
  {
    StartAgrees(g, from);
    k := OneLife(g, dag, from, life);
    mid := Boundary(from, Whole(g, from), k);
    FromBoundary(g, Fresh(from), k);
    ShapeTransitive(mid.nodes, from.nodes, dag);
    StillAgrees(g, from, k);
  }

  lemma StartAgrees(g: Graph, from: WavePoint)
    requires AlwaysAgrees(g, from)
    ensures Agreeing(from.nodes)
  {
    assert AgreesAt(g, from, 0);
  }

  lemma StillAgrees(g: Graph, from: WavePoint, k: nat)
    requires AlwaysAgrees(g, from) && SameEndFrom(g, from, k)
    ensures AlwaysAgrees(g, Boundary(from, Whole(g, from), k))
  {
    var mid := Boundary(from, Whole(g, from), k);
    forall m: nat ensures AgreesAt(g, mid, m) {
      assert AgreesAt(g, from, k + m);
      if m <= |Whole(g, mid).saves| { FurtherOn(g, from, Whole(g, from), Whole(g, mid), k, m); }
    }
  }

  lemma FurtherOn(g: Graph, from: WavePoint, whole: DagTrace, rest: DagTrace, k: nat, m: nat)
    requires SameEnd(rest, whole, k) && m <= |rest.saves|
    ensures Boundary(Boundary(from, whole, k), rest, m) == Boundary(from, whole, k + m)
  {
    assert whole.saves[..k + m] == whole.saves[..k] + rest.saves[..m];
  }

  lemma WholeEnds(g: Graph, p: WavePoint)
    requires Clean(g, p)
    ensures Whole(g, p).saves == [] <==> ReadyWave(p.nodes) == []
    ensures Whole(g, p).saves == [] ==>
              && Whole(g, p).nodes == p.nodes && Whole(g, p).waves == []
              && (Whole(g, p).result.Ok? ==> Whole(g, p).result.value == p.state)
  {
    WaveProgresses(g.WithoutInterrupts(), STILL, Fresh(p), Order(INDEX_ORDER, Fresh(p)));
  }

  lemma NothingToDo(g: Graph, dag: Nodes, p: WavePoint, life: Life)
    requires Clean(g, p) && Whole(g, p).saves == []
    requires SameShape(p.nodes, dag) && Agreeing(p.nodes) && Admitted(dag, life) && |dag| <= g.limits.maxDagNodes
    ensures Resumed(g, p, life) == DagTrace(Whole(g, p).result, Whole(g, p).nodes, [], [])
  {
    RestoredPoint(g, dag, p, life);
    WholeEnds(g, p);
  }
}
