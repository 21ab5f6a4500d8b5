/** Dependency and concurrency safety in every interleaving of a run's tasks. */
module WaveTaskSafety {
  import opened Types
  import opened Executor
  import opened Dags
  import opened Waves
  import opened WaveConfluence
  import opened Deadlock
  import opened WaveTasks

  /** Statuses only move on: what was not pending is never pending again, what was done
      stays done. */
  ghost predicate MovesOn(before: Nodes, after: Nodes) {
    && |after| == |before|
    && forall i :: 0 <= i < |before| ==>
         && after[i].id == before[i].id && after[i].dependsOn == before[i].dependsOn
         && (!before[i].status.Pending? ==> !after[i].status.Pending?)
         && (before[i].status.Done? ==> after[i].status.Done?)
  }

  lemma ArriveMovesOn(g: Graph, ticks: Ticks, state: State, w: Gathered, i: nat)
    requires i < |w.nodes| && w.nodes[i].status.Running?
    ensures var r := Arrive(g, ticks, state, w, i);
            MovesOn(w.nodes, if r.Aborted? then r.nodes else r.all.nodes)
  {
  }

  lemma StepMovesOn(g: Graph, clock: Clock, s: System, e: Event)
    requires TasksInv(g, clock, s)
    ensures MovesOn(NodesNow(s), NodesNow(Step(g, clock, s, e)))
  {
    if e.Launch? {
      if s.phase.Between? { LaunchMovesOn(g, clock, s); }
    } else if e.Join? {
      if s.phase.InWave? && e.node in s.phase.finished { JoinMovesOn(g, clock, s, e.node); }
    } else if e.Close? {
      if s.phase.InWave? && s.phase.live == {} { AfterWaveNodes(g, s.c, ReadyWave(s.c.nodes), s.phase.w); }
    }
  }

  lemma JoinMovesOn(g: Graph, clock: Clock, s: System, i: nat)
    requires TasksInv(g, clock, s) && s.phase.InWave? && i in s.phase.finished
    ensures i < |s.phase.w.nodes| && MovesOn(s.phase.w.nodes, NodesNow(JoinStep(g, clock, s, i)))
  {
    assert i in s.phase.live;
    ArriveMovesOn(g, clock(s.c.wave), s.c.state, s.phase.w, i);
  }

  lemma LaunchMovesOn(g: Graph, clock: Clock, s: System)
    requires s.phase.Between?
    ensures MovesOn(NodesNow(s), NodesNow(Step(g, clock, s, Launch)))
  {
    var ready := ReadyWave(s.c.nodes);
    forall i: nat | i < |s.c.nodes| && !s.c.nodes[i].status.Pending? ensures i !in ready { ReadyIsReady(s.c.nodes, i); }
    assert MovesOn(s.c.nodes, Marked(s.c.nodes, ready, NodeStatus.Running));
    if Early(g, s.c).Some? { EarlyStops(g, s.c); }
  }

  /** The task whose start is moment `x` was joined later. */
  ghost predicate Answered(log: seq<Moment>, x: nat) {
    x < |log| && log[x].Started? &&
    exists y :: x < y < |log| && log[y].Joined? && log[y].wave == log[x].wave && log[y].node == log[x].node
  }

  /** The task of node `i` has started and was not joined yet. */
  predicate Open(s: System, i: nat) {
    s.phase.InWave? && (i in s.phase.holding || i in s.phase.finished)
  }

  predicate Waits(s: System, i: nat) {
    s.phase.InWave? && i in s.phase.live && !Open(s, i)
  }

  ghost predicate MomentFits(s: System, x: nat) {
    x < |s.log| ==>
      && s.log[x].node < |NodesNow(s)|
      && s.log[x].wave <= s.c.wave
      && (s.log[x].Joined? && s.log[x].ok ==> NodesNow(s)[s.log[x].node].status.Done?)
      && (s.log[x].Started? ==>
           && !NodesNow(s)[s.log[x].node].status.Pending?
           && !Waits(s, s.log[x].node)
           && (Open(s, s.log[x].node) ==> s.log[x].wave == s.c.wave)
           && (!Open(s, s.log[x].node) && !s.phase.Ended? ==> Answered(s.log, x)))
  }

  ghost predicate LogFits(s: System) { forall x :: MomentFits(s, x) }

  /** No node starts twice and no node succeeds twice. */
  predicate OnceEachWay(a: Moment, b: Moment) {
    && (a.Started? && b.Started? ==> a.node != b.node)
    && (a.Joined? && b.Joined? && a.ok && b.ok ==> a.node != b.node)
  }

  ghost predicate Once(log: seq<Moment>) {
    forall x, y :: 0 <= x < y < |log| ==> OnceEachWay(log[x], log[y])
  }

  ghost predicate Inv(g: Graph, clock: Clock, s: System) {
    TasksInv(g, clock, s) && LogFits(s) && Once(s.log)
  }

  lemma StillAnswered(log: seq<Moment>, m: Moment, x: nat)
    requires Answered(log, x)
    ensures Answered(log + [m], x)
  {
    var y :| x < y < |log| && log[y].Joined? && log[y].wave == log[x].wave && log[y].node == log[x].node;
    assert (log + [m])[y] == log[y];
  }

  /** A step that adds nothing to the log and opens or closes no task keeps it fitting. */
  lemma QuietStep(s: System, next: System)
    requires LogFits(s) && MovesOn(NodesNow(s), NodesNow(next)) && next.log == s.log && next.c.wave >= s.c.wave
    requires forall i :: Open(next, i) ==> Open(s, i) && next.c.wave == s.c.wave
    requires forall i :: Open(s, i) ==> Open(next, i) || next.phase.Ended?
    requires forall i: nat :: Waits(next, i) ==> Waits(s, i) || (i < |NodesNow(s)| && NodesNow(s)[i].status.Pending?)
    requires s.phase.Ended? ==> next == s
    ensures LogFits(next)
  {
    forall x ensures MomentFits(next, x) { assert MomentFits(s, x); }
  }

  /** An earlier moment still fits once node `i` acquires its permit. */
  lemma AcquiredFits(s: System, next: System, i: nat, x: nat)
    requires MomentFits(s, x) && x < |s.log| && Waits(s, i) && next.phase.InWave?
    requires next == s.(phase := s.phase.(holding := s.phase.holding + {i}), log := s.log + [Started(s.c.wave, i)])
    ensures MomentFits(next, x)
  {
    assert next.log[x] == s.log[x];
    if Answered(s.log, x) { StillAnswered(s.log, Started(s.c.wave, i), x); }
  }

  /** So does the moment of the start itself. */
  lemma StartFits(s: System, next: System, i: nat)
    requires Waits(s, i) && i < |s.phase.w.nodes| && s.phase.w.nodes[i].status.Running?
    requires next == s.(phase := s.phase.(holding := s.phase.holding + {i}), log := s.log + [Started(s.c.wave, i)])
    ensures MomentFits(next, |s.log|)
  {
    assert next.log[|s.log|] == Started(s.c.wave, i);
  }

  lemma StartsOnce(s: System, i: nat)
    requires LogFits(s) && Once(s.log) && Waits(s, i)
    ensures Once(s.log + [Started(s.c.wave, i)])
  {
    forall x | 0 <= x < |s.log| ensures OnceEachWay(s.log[x], Started(s.c.wave, i)) { assert MomentFits(s, x); }
  }

  lemma AcquireFits(g: Graph, clock: Clock, s: System, i: nat)
    requires Inv(g, clock, s) && CanAcquire(g, s, i)
    ensures var next := Step(g, clock, s, Acquire(i)); LogFits(next) && Once(next.log)
  {
    var next := Step(g, clock, s, Acquire(i));
    StartFits(s, next, i);
    forall x: nat ensures MomentFits(next, x) {
      assert MomentFits(s, x);
      if x < |s.log| { AcquiredFits(s, next, i, x); }
    }
    StartsOnce(s, i);
  }

  lemma FinishFits(g: Graph, clock: Clock, s: System, i: nat)
    requires Inv(g, clock, s) && s.phase.InWave? && i in s.phase.holding
    ensures LogFits(Step(g, clock, s, Finish(i)))
  {
    QuietStep(s, Step(g, clock, s, Finish(i)));
  }

  lemma JoinFits(g: Graph, clock: Clock, s: System, i: nat)
    requires Inv(g, clock, s) && s.phase.InWave? && i in s.phase.finished && i < |s.phase.w.nodes|
    ensures var next := JoinStep(g, clock, s, i); LogFits(next) && Once(next.log)
  {
    var next := JoinStep(g, clock, s, i);
    JoinMovesOn(g, clock, s, i);
    JoinShape(g, clock, s, i);
    var m := next.log[|s.log|];
    forall x: nat ensures MomentFits(next, x) {
      if x < |s.log| { JoinedFits(s, next, i, m, x); }
    }
    assert i in s.phase.live;
    forall x | 0 <= x < |s.log| ensures OnceEachWay(s.log[x], m) { assert MomentFits(s, x); }
  }

  lemma JoinShape(g: Graph, clock: Clock, s: System, i: nat)
    requires s.phase.InWave? && i < |s.phase.w.nodes|
    ensures var next := JoinStep(g, clock, s, i);
            && next.c == s.c && |next.log| == |s.log| + 1 && next.log == s.log + [next.log[|s.log|]]
            && var m := next.log[|s.log|];
            && m.Joined? && m.wave == s.c.wave && m.node == i
            && i < |NodesNow(next)| && (m.ok ==> NodesNow(next)[i].status.Done?)
            && (next.phase.Ended? ||
                (next.phase.InWave? && next.phase.live == s.phase.live - {i} && next.phase.holding == s.phase.holding &&
                 next.phase.finished == s.phase.finished - {i}))
  {
  }

  lemma JoinedFits(s: System, next: System, i: nat, m: Moment, x: nat)
    requires MomentFits(s, x) && x < |s.log| && MovesOn(NodesNow(s), NodesNow(next))
    requires s.phase.InWave? && next.c == s.c && next.log == s.log + [m]
    requires m.Joined? && m.wave == s.c.wave && m.node == i
    requires next.phase.Ended? ||
             (next.phase.InWave? && next.phase.live == s.phase.live - {i} && next.phase.holding == s.phase.holding &&
              next.phase.finished == s.phase.finished - {i})
    ensures MomentFits(next, x)
  {
    assert next.log[x] == s.log[x];
    if s.log[x].Started? {
      if Answered(s.log, x) { StillAnswered(s.log, m, x); }
      else if s.log[x].node == i { assert next.log[|s.log|] == m; }
    }
  }

  lemma LaunchFits(g: Graph, clock: Clock, s: System)
    requires Inv(g, clock, s) && s.phase.Between?
    ensures LogFits(Step(g, clock, s, Launch))
  {
    var next := Step(g, clock, s, Launch);
    LaunchMovesOn(g, clock, s);
    if Early(g, s.c).Some? { EarlyStops(g, s.c); }
    forall i: nat | Waits(next, i) ensures i < |s.c.nodes| && s.c.nodes[i].status.Pending? {
      ReadyIsReady(s.c.nodes, i);
    }
    QuietStep(s, next);
  }

  lemma CloseFits(g: Graph, clock: Clock, s: System)
    requires Inv(g, clock, s) && s.phase.InWave? && s.phase.live == {}
    ensures LogFits(Step(g, clock, s, Close))
  {
    var next := Step(g, clock, s, Close);
    StepMovesOn(g, clock, s, Close);
    CloseShape(g, clock, s);
    QuietStep(s, next);
  }

  lemma CloseShape(g: Graph, clock: Clock, s: System)
    requires s.phase.InWave? && s.phase.live == {} && s.phase.holding <= {} && s.phase.finished <= {}
    ensures var next := Step(g, clock, s, Close);
            && !next.phase.InWave? && next.log == s.log && next.c.wave >= s.c.wave
            && s.phase.holding == {} && s.phase.finished == {}
  {
    var r := AfterWave(g, s.c, ReadyWave(s.c.nodes), s.phase.w);
    CloseIs(g, clock, s, r);
    assert r.Advance? ==> r.next.wave == s.c.wave + 1;
  }

  lemma StepKeepsInv(g: Graph, clock: Clock, s: System, e: Event)
    requires Inv(g, clock, s)
    ensures Inv(g, clock, Step(g, clock, s, e))
  {
    StepKeeps(g, clock, s, e);
    match e
    case Launch => if s.phase.Between? { LaunchFits(g, clock, s); }
    case Acquire(i) => if CanAcquire(g, s, i) { AcquireFits(g, clock, s, i); }
    case Finish(i) => if s.phase.InWave? && i in s.phase.holding { FinishFits(g, clock, s, i); }
    case Join(i) => if s.phase.InWave? && i in s.phase.finished && i < |s.phase.w.nodes| { JoinFits(g, clock, s, i); }
    case Close => if s.phase.InWave? && s.phase.live == {} { CloseFits(g, clock, s); }
  }

  lemma {:induction false} ExecKeepsInv(g: Graph, clock: Clock, s: System, events: seq<Event>)
    requires Inv(g, clock, s)
    ensures Inv(g, clock, Exec(g, clock, s, events))
    decreases |events|
  {
    if events != [] {
      StepKeepsInv(g, clock, s, events[0]);
      ExecKeepsInv(g, clock, Step(g, clock, s, events[0]), events[1..]);
    }
  }

  /** The start of node `i` in state `s` is safe: its dependencies are done, it never started
      before, every task of an earlier wave that started was joined, and a permit is free. */
  ghost predicate SafeStart(g: Graph, s: System, i: nat) {
    && i < |NodesNow(s)|
    && (forall d :: d in NodesNow(s)[i].dependsOn ==> d in DoneIds(NodesNow(s)))
    && (forall x :: 0 <= x < |s.log| && s.log[x].Started? ==> s.log[x].node != i)
    && (forall x :: 0 <= x < |s.log| && s.log[x].Started? && s.log[x].wave < s.c.wave ==> Answered(s.log, x))
    && s.phase.InWave? && |s.phase.holding| < Permits(g)
  }

  lemma AcquireIsSafe(g: Graph, clock: Clock, s: System, i: nat)
    requires Inv(g, clock, s) && CanAcquire(g, s, i)
    ensures SafeStart(g, s, i)
  {
    assert Ready(s.c.nodes, i);
    var w := s.phase.w;
    forall d | d in w.nodes[i].dependsOn ensures d in DoneIds(w.nodes) {
      assert d in DoneIds(s.c.nodes);
      var j: nat :| j < |s.c.nodes| && s.c.nodes[j].status.Done? && s.c.nodes[j].id == d;
      ReadyIsReady(s.c.nodes, j);
      assert w.nodes[j] == s.c.nodes[j];
    }
    forall x | 0 <= x < |s.log| && s.log[x].Started?
      ensures s.log[x].node != i && (s.log[x].wave < s.c.wave ==> Answered(s.log, x))
    {
      assert MomentFits(s, x);
    }
  }

  /** Dependency and concurrency safety. After any events: never more running nodes than
      max(1, max_concurrent_nodes); no node started twice or succeeded twice; every task
      that may start now starts safely; and the joins of a wave that has none left are a
      permutation of the nodes that were ready. */
  lemma EveryInterleavingIsSafe(g: Graph, clock: Clock, c: Cfg, events: seq<Event>)
    ensures var s := Exec(g, clock, Began(c), events);
            && (s.phase.InWave? ==> |s.phase.holding| <= Max(1, g.limits.maxConcurrentNodes))
            && Once(s.log)
            && (forall i :: CanAcquire(g, s, i) ==> SafeStart(g, s, i))
            && (s.phase.InWave? && s.phase.live == {} ==> multiset(s.phase.joined) == multiset(ReadyWave(s.c.nodes)))
  {
    var s := Exec(g, clock, Began(c), events);
    ExecKeepsInv(g, clock, Began(c), events);
    forall i | CanAcquire(g, s, i) ensures SafeStart(g, s, i) { AcquireIsSafe(g, clock, s, i); }
  }

  /** How many steps that change something are left at most: two for each wave to come and
      three for each of its nodes, and what is left of the wave in progress. */
  function Left(s: System): int {
    var pending := |Pendings(s.c.nodes)|;
    match s.phase
    case Between => 5 * pending + 1
    case InWave(_, live, holding, finished, _) =>
      5 * (pending - |ReadyWave(s.c.nodes)|) + 2 + 3 * |live| - |holding| - 2 * |finished|
    case Ended(_, _) => 0
  }

  lemma Sizes(a: set<nat>, b: set<nat>, live: set<nat>)
    requires a <= live && b <= live && a !! b
    ensures |a| + |b| <= |live|
  {
    assert |a + b| == |a| + |b|;
    SubsetSize(a + b, live);
  }

  lemma ReadyCount(nodes: Nodes)
    ensures |ReadySet(nodes)| == |ReadyWave(nodes)| && ReadySet(nodes) <= Pendings(nodes)
    ensures |ReadyWave(nodes)| <= |Pendings(nodes)|
  {
    ReadyBelowAre(nodes, |nodes|);
    SetOfIncreasing(ReadyWave(nodes));
    var all := set i | i in ReadyWave(nodes);
    assert ReadySet(nodes) == all;
    assert |multiset(all)| == |multiset(ReadyWave(nodes))|;
    SubsetSize(ReadySet(nodes), Pendings(nodes));
  }

  lemma NextPendings(nodes: Nodes)
    ensures |Pendings(NextNodes(nodes))| == |Pendings(nodes)| - |ReadyWave(nodes)|
  {
    ReadyCount(nodes);
    assert Pendings(NextNodes(nodes)) == Pendings(nodes) - ReadySet(nodes);
  }

  /** Every step that changes anything uses up one of the steps left. */
  lemma StepCounts(g: Graph, clock: Clock, s: System, e: Event)
    requires TasksInv(g, clock, s) && Step(g, clock, s, e) != s
    ensures 0 <= Left(Step(g, clock, s, e)) < Left(s)
  {
    ReadyCount(s.c.nodes);
    if e.Launch? {
      LaunchCounts(g, clock, s);
    } else if e.Close? {
      CloseCounts(g, clock, s);
    } else {
      TaskCounts(g, clock, s, e);
    }
  }

  lemma LaunchCounts(g: Graph, clock: Clock, s: System)
    requires s.phase.Between?
    ensures 0 <= Left(Step(g, clock, s, Launch)) < Left(s)
  {
    ReadyCount(s.c.nodes);
    if Early(g, s.c).Some? { EarlyStops(g, s.c); }
  }

  lemma TaskCounts(g: Graph, clock: Clock, s: System, e: Event)
    requires TasksInv(g, clock, s) && Step(g, clock, s, e) != s && (e.Acquire? || e.Finish? || e.Join?)
    requires |ReadyWave(s.c.nodes)| <= |Pendings(s.c.nodes)|
    ensures 0 <= Left(Step(g, clock, s, e)) < Left(s)
  {
    match e
    case Acquire(i) => AcquireCounts(g, s, i, Step(g, clock, s, e));
    case Finish(i) => FinishCounts(g, s, i, Step(g, clock, s, e));
    case Join(i) => JoinCounts(g, clock, s, i);
    case _ =>
  }

  ghost predicate Nested(p: Phase) {
    p.InWave? && p.holding <= p.live && p.finished <= p.live && p.holding !! p.finished
  }

  lemma AcquireCounts(g: Graph, s: System, i: nat, next: System)
    requires Nested(s.phase) && CanAcquire(g, s, i) && |ReadyWave(s.c.nodes)| <= |Pendings(s.c.nodes)|
    requires next.c == s.c && next.phase == s.phase.(holding := s.phase.holding + {i})
    ensures 0 <= Left(next) < Left(s)
  {
    assert |next.phase.holding| == |s.phase.holding| + 1;
    Sizes(next.phase.holding, next.phase.finished, next.phase.live);
  }

  lemma FinishCounts(g: Graph, s: System, i: nat, next: System)
    requires Nested(s.phase) && i in s.phase.holding && |ReadyWave(s.c.nodes)| <= |Pendings(s.c.nodes)|
    requires next.c == s.c
    requires next.phase == s.phase.(holding := s.phase.holding - {i}, finished := s.phase.finished + {i})
    ensures 0 <= Left(next) < Left(s)
  {
    assert |next.phase.holding| == |s.phase.holding| - 1 && |next.phase.finished| == |s.phase.finished| + 1;
    Sizes(next.phase.holding, next.phase.finished, next.phase.live);
  }

  lemma JoinCounts(g: Graph, clock: Clock, s: System, i: nat)
    requires TasksInv(g, clock, s) && s.phase.InWave? && i in s.phase.finished && i < |s.phase.w.nodes|
    requires |ReadyWave(s.c.nodes)| <= |Pendings(s.c.nodes)|
    ensures 0 <= Left(JoinStep(g, clock, s, i)) < Left(s)
  {
    var p := s.phase;
    assert i in p.live && p.holding <= p.live - {i};
    JoinShape(g, clock, s, i);
    assert |p.live - {i}| == |p.live| - 1 && |p.finished - {i}| == |p.finished| - 1;
    Sizes(p.holding, p.finished - {i}, p.live - {i});
  }

  lemma ClosedNodes(g: Graph, clock: Clock, s: System)
    requires TasksInv(g, clock, s) && s.phase.InWave? && s.phase.live == {}
    ensures var next := Step(g, clock, s, Close);
            !next.phase.InWave? && (next.phase.Between? ==> next.c.nodes == NextNodes(s.c.nodes))
  {
    var joined := s.phase.joined;
    var sched: Schedule := k => joined;
    ClosedWave(g, clock, s, sched);
    var turn := Wave(g, clock, s.c, Order(sched, s.c));
    MovedTo(s, turn);
    if turn.Advance? { NextOf(g, clock, s.c, sched); }
  }

  lemma NextOf(g: Graph, clock: Clock, c: Cfg, sched: Schedule)
    requires Wave(g, clock, c, Order(sched, c)).Advance?
    ensures Wave(g, clock, c, Order(sched, c)).next.nodes == NextNodes(c.nodes)
  {
    AdvanceIsNext(g, clock, c, sched);
  }

  lemma MovedTo(s: System, turn: WaveResult)
    ensures !Moved(s, turn).phase.InWave?
    ensures Moved(s, turn).phase.Between? ==> turn.Advance? && Moved(s, turn).c == turn.next
  {
  }

  lemma CloseCounts(g: Graph, clock: Clock, s: System)
    requires TasksInv(g, clock, s) && s.phase.InWave? && s.phase.live == {}
    ensures 0 <= Left(Step(g, clock, s, Close)) < Left(s)
  {
    ClosedNodes(g, clock, s);
    NextPendings(s.c.nodes);
    NothingHeld(s.phase);
  }

  lemma NothingHeld(p: Phase)
    requires Nested(p) && p.live == {}
    ensures p.holding == {} && p.finished == {}
  {
  }

  /** In every interleaving, a step that changes anything brings the run nearer its end. */
  lemma EveryStepCounts(g: Graph, clock: Clock, c: Cfg, events: seq<Event>, e: Event)
    requires var s := Exec(g, clock, Began(c), events); Step(g, clock, s, e) != s
    ensures var s := Exec(g, clock, Began(c), events); 0 <= Left(Step(g, clock, s, e)) < Left(s)
  {
    ExecKeeps(g, clock, Began(c), events);
    StepCounts(g, clock, Exec(g, clock, Began(c), events), e);
  }

  /** The system after the first `n` events of an infinite sequence. */
  function After(g: Graph, clock: Clock, c: Cfg, events: nat -> Event, n: nat): System {
    Exec(g, clock, Began(c), seq(n, i requires 0 <= i < n => events(i)))
  }

  lemma {:induction false} ExecOneMore(g: Graph, clock: Clock, s: System, events: seq<Event>, e: Event)
    ensures Exec(g, clock, s, events + [e]) == Step(g, clock, Exec(g, clock, s, events), e)
    decreases |events|
  {
    if events == [] {
      assert ([] + [e])[1..] == [];
    } else {
      assert (events + [e])[1..] == events[1..] + [e];
      ExecOneMore(g, clock, Step(g, clock, s, events[0]), events[1..], e);
    }
  }

  lemma AfterOneMore(g: Graph, clock: Clock, c: Cfg, events: nat -> Event, n: nat)
    ensures After(g, clock, c, events, n + 1) == Step(g, clock, After(g, clock, c, events, n), events(n))
  {
    var before := seq(n, i requires 0 <= i < n => events(i));
    assert seq(n + 1, i requires 0 <= i < n + 1 => events(i)) == before + [events(n)];
    ExecOneMore(g, clock, Began(c), before, events(n));
  }

  /** The first `n` events all change something. */
  ghost predicate Busy(g: Graph, clock: Clock, c: Cfg, events: nat -> Event, n: nat) {
    forall m :: 0 <= m < n ==> BusyAt(g, clock, c, events, m)
  }

  predicate BusyAt(g: Graph, clock: Clock, c: Cfg, events: nat -> Event, m: nat) {
    Step(g, clock, After(g, clock, c, events, m), events(m)) != After(g, clock, c, events, m)
  }

  lemma {:induction false} BusySteps(g: Graph, clock: Clock, c: Cfg, events: nat -> Event, n: nat)
    requires Busy(g, clock, c, events, n)
    ensures n + Left(After(g, clock, c, events, n)) <= 5 * |Pendings(c.nodes)| + 1
    ensures Left(After(g, clock, c, events, n)) >= 0
    decreases n
  {
    if n > 0 {
      BusySteps(g, clock, c, events, n - 1);
      assert BusyAt(g, clock, c, events, n - 1);
      AfterOneMore(g, clock, c, events, n - 1);
      EveryStepCounts(g, clock, c, seq(n - 1, i requires 0 <= i < n - 1 => events(i)), events(n - 1));
    }
  }

  /** Every interleaving ends. Whatever the order of the events, after at most five steps per
      pending node and one more, the run has ended or the next event changes nothing: no
      infinite sequence of events changes something at every step. */
  lemma {:induction false} EveryInterleavingEnds(g: Graph, clock: Clock, c: Cfg, events: nat -> Event)
    returns (n: nat)
    ensures n <= 5 * |Pendings(c.nodes)| + 1 && Busy(g, clock, c, events, n)
    ensures After(g, clock, c, events, n).phase.Ended? || !BusyAt(g, clock, c, events, n)
  {
    n := 0;
    while BusyAt(g, clock, c, events, n)
      invariant Busy(g, clock, c, events, n) && n <= 5 * |Pendings(c.nodes)| + 1
      decreases 5 * |Pendings(c.nodes)| + 1 - n
    {
      BusySteps(g, clock, c, events, n + 1);
      n := n + 1;
    }
  }

  /** The event that moves an unfinished run on. */
  lemma NextEvent(g: Graph, clock: Clock, s: System) returns (e: Event)
    requires TasksInv(g, clock, s) && !s.phase.Ended?
    ensures Step(g, clock, s, e) != s
  {
    if s.phase.Between? {
      e := Launch;
      if Early(g, s.c).Some? { EarlyStops(g, s.c); }
    } else if s.phase.live == {} {
      e := Close;
      CloseCounts(g, clock, s);
    } else if i :| i in s.phase.finished {
      e := Join(i);
      assert i in s.phase.live;
    } else if i :| i in s.phase.holding {
      e := Finish(i);
    } else {
      var i :| i in s.phase.live;
      e := Acquire(i);
    }
  }

  /** No interleaving gets stuck: after any events, while the run has not ended, some step
      changes something, because there is at least one permit. */
  lemma NeverStuck(g: Graph, clock: Clock, c: Cfg, events: seq<Event>) returns (e: Event)
    requires !Exec(g, clock, Began(c), events).phase.Ended?
    ensures var s := Exec(g, clock, Began(c), events); Step(g, clock, s, e) != s
  {
    ExecKeeps(g, clock, Began(c), events);
    e := NextEvent(g, clock, Exec(g, clock, Began(c), events));
  }
}
