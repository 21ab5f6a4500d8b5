/** The tasks of a DAG run as interleaved steps: spawning, waiting for a permit, running,
    finishing and being joined. Every interleaving is a run of the wave scheduler, no node
    starts before its dependencies are done, and the permits bound the running nodes. */
module WaveTasks {
  import opened Types
  import opened Executor
  import opened Dags
  import opened Waves
  import opened WaveConfluence
  import opened Deadlock

  /** What happened, in order: a task started its node, or its result was collected. */
  datatype Moment = Started(wave: nat, node: nat) | Joined(wave: nat, node: nat, ok: bool)

  /** Within a wave: what was collected, the tasks not yet joined, those of them that hold a
      permit and those that finished, and the order of the joins. */
  datatype Phase =
    | Between
    | InWave(w: Gathered, live: set<nat>, holding: set<nat>, finished: set<nat>, joined: seq<nat>)
    | Ended(result: Result<State, Error>, nodes: Nodes)

  datatype System = System(c: Cfg, phase: Phase, saves: seq<Snapshot>, log: seq<Moment>)

  datatype Event = Launch | Acquire(node: nat) | Finish(node: nat) | Join(node: nat) | Close

  function Permits(g: Graph): nat { Max(1, g.limits.maxConcurrentNodes) }

  function ReadySet(nodes: Nodes): set<nat> { set i | i in ReadyWave(nodes) }

  function Began(c: Cfg): System { System(c, Between, [], []) }

  /** The loop of the scheduler moves on by a wave, or returns. */
  function Moved(s: System, r: WaveResult): System {
    match r
    case Stop(result, nodes, saved) => s.(phase := Ended(result, nodes), saves := s.saves + ToSeq(saved))
    case Advance(next, save) => s.(c := next, phase := Between, saves := s.saves + [save])
  }

  predicate CanAcquire(g: Graph, s: System, i: nat) {
    s.phase.InWave? && i in s.phase.live && i !in s.phase.holding && i !in s.phase.finished &&
        |s.phase.holding| < Permits(g)
  }

  function JoinStep(g: Graph, clock: Clock, s: System, i: nat): System
    requires s.phase.InWave? && i < |s.phase.w.nodes|
  {
    var p := s.phase;
    match Arrive(g, clock(s.c.wave), s.c.state, p.w, i)
    case Aborted(e, nodes) => s.(phase := Ended(Err(e), nodes), log := s.log + [Joined(s.c.wave, i, false)])
    case Collecting(next) =>
      var ok := i < |next.nodes| && next.nodes[i].status.Done?;
      s.(phase := InWave(next, p.live - {i}, p.holding, p.finished - {i}, p.joined + [i]),
         log := s.log + [Joined(s.c.wave, i, ok)])
  }

  /** One step; an event that is not possible changes nothing. */
  function Step(g: Graph, clock: Clock, s: System, e: Event): System {
    var p := s.phase;
    match e
    case Launch =>
      if !p.Between? then s
      else if Early(g, s.c).Some? then Moved(s, Early(g, s.c).value)
      else s.(phase := InWave(Fresh(s.c.nodes, ReadyWave(s.c.nodes)), ReadySet(s.c.nodes), {}, {}, []))
    case Acquire(i) =>
      if !CanAcquire(g, s, i) then s
      else s.(phase := p.(holding := p.holding + {i}), log := s.log + [Started(s.c.wave, i)])
    case Finish(i) =>
      if !p.InWave? || i !in p.holding then s
      else s.(phase := p.(holding := p.holding - {i}, finished := p.finished + {i}))
    case Join(i) =>
      if p.InWave? && i in p.finished && i < |p.w.nodes| then JoinStep(g, clock, s, i) else s
    case Close =>
      if p.InWave? && p.live == {} then Moved(s, AfterWave(g, s.c, ReadyWave(s.c.nodes), p.w)) else s
  }

  function Exec(g: Graph, clock: Clock, s: System, events: seq<Event>): System
    decreases |events|
  {
    if events == [] then s else Exec(g, clock, Step(g, clock, s, events[0]), events[1..])
  }

  function NodesNow(s: System): Nodes {
    match s.phase case Between => s.c.nodes case InWave(w, _, _, _, _) => w.nodes case Ended(_, nodes) => nodes
  }

  /** The tasks of the wave in progress. */
  ghost predicate WaveInv(g: Graph, clock: Clock, c: Cfg, p: Phase)
    requires p.InWave?
  {
    && Early(g, c).None?
    && |p.holding| <= Permits(g)
    && p.holding <= p.live && p.finished <= p.live && p.holding !! p.finished
    && Indices(p.joined, |c.nodes|)
    && multiset(p.joined) + multiset(p.live) == multiset(ReadyWave(c.nodes))
    && Collect(g, clock(c.wave), c.state, Fresh(c.nodes, ReadyWave(c.nodes)), p.joined) == Collecting(p.w)
    && Settled(c.nodes, p.w.nodes, ReadyWave(c.nodes))
    && forall i :: i in p.live ==> i < |c.nodes| && Ready(c.nodes, i) && p.w.nodes[i].status.Running?
  }

  ghost predicate TasksInv(g: Graph, clock: Clock, s: System) {
    s.phase.InWave? ==> WaveInv(g, clock, s.c, s.phase)
  }

  lemma LaunchKeeps(g: Graph, clock: Clock, s: System)
    requires s.phase.Between? && Early(g, s.c).None?
    ensures TasksInv(g, clock, Step(g, clock, s, Launch))
  {
    var ready := ReadyWave(s.c.nodes);
    ReadyBelowAre(s.c.nodes, |s.c.nodes|);
    SetOfIncreasing(ready);
    assert Settled(s.c.nodes, Marked(s.c.nodes, ready, NodeStatus.Running), ready);
  }

  lemma {:induction false} SetOfIncreasing(s: seq<nat>)
    requires Increasing(s)
    ensures multiset(set i | i in s) == multiset(s)
  {
    var all := set i | i in s;
    forall v: nat ensures multiset(all)[v] == multiset(s)[v] {
      OnceEach(s, v);
      assert v in all <==> v in multiset(s);
    }
  }

  lemma ArriveKeeps(g: Graph, clock: Clock, c: Cfg, w: Gathered, i: nat)
    requires Settled(c.nodes, w.nodes, ReadyWave(c.nodes)) && Ready(c.nodes, i)
    ensures i < |w.nodes|
    ensures var r := Arrive(g, clock(c.wave), c.state, w, i);
            r.Collecting? ==>
              && Settled(c.nodes, r.all.nodes, ReadyWave(c.nodes))
              && forall j :: 0 <= j < |w.nodes| && j != i ==> r.all.nodes[j] == w.nodes[j]
  {
    ReadyIsReady(c.nodes, i);
  }

  lemma CollectOneMore(g: Graph, clock: Clock, c: Cfg, p: Phase, i: nat)
    requires p.InWave? && WaveInv(g, clock, c, p) && i in p.live && i < |p.w.nodes|
    ensures Indices(p.joined + [i], |c.nodes|)
    ensures Collect(g, clock(c.wave), c.state, Fresh(c.nodes, ReadyWave(c.nodes)), p.joined + [i]) ==
            Arrive(g, clock(c.wave), c.state, p.w, i)
  {
    CollectSplit(g, clock(c.wave), c.state, Fresh(c.nodes, ReadyWave(c.nodes)), p.joined, [i]);
    var r := Arrive(g, clock(c.wave), c.state, p.w, i);
    assert [i][1..] == [];
  }

  lemma OneFewer(joined: seq<nat>, live: set<nat>, i: nat)
    requires i in live
    ensures multiset(joined + [i]) + multiset(live - {i}) == multiset(joined) + multiset(live)
  {
    assert multiset(live) == multiset(live - {i}) + multiset{i};
  }

  lemma JoinKeeps(g: Graph, clock: Clock, s: System, i: nat)
    requires TasksInv(g, clock, s) && s.phase.InWave? && i in s.phase.finished
    ensures i < |s.phase.w.nodes| && TasksInv(g, clock, JoinStep(g, clock, s, i))
  {
    var p := s.phase;
    assert i in p.live;
    ArriveKeeps(g, clock, s.c, p.w, i);
    CollectOneMore(g, clock, s.c, p, i);
    OneFewer(p.joined, p.live, i);
  }

  lemma AcquireKeeps(g: Graph, clock: Clock, s: System, i: nat)
    requires TasksInv(g, clock, s) && CanAcquire(g, s, i)
    ensures TasksInv(g, clock, Step(g, clock, s, Acquire(i)))
  {
    assert |s.phase.holding + {i}| == |s.phase.holding| + 1;
  }

  lemma FinishKeeps(g: Graph, clock: Clock, s: System, i: nat)
    requires TasksInv(g, clock, s) && s.phase.InWave? && i in s.phase.holding
    ensures TasksInv(g, clock, Step(g, clock, s, Finish(i)))
  {
    assert |s.phase.holding - {i}| == |s.phase.holding| - 1;
  }

  lemma CloseKeeps(g: Graph, clock: Clock, s: System)
    requires s.phase.InWave? && s.phase.live == {}
    ensures !Step(g, clock, s, Close).phase.InWave?
  {
  }

  lemma StepKeeps(g: Graph, clock: Clock, s: System, e: Event)
    requires TasksInv(g, clock, s)
    ensures TasksInv(g, clock, Step(g, clock, s, e))
  {
    if e.Launch? {
      if s.phase.Between? && Early(g, s.c).None? { LaunchKeeps(g, clock, s); }
    } else if e.Acquire? {
      if CanAcquire(g, s, e.node) { AcquireKeeps(g, clock, s, e.node); }
    } else if e.Finish? {
      if s.phase.InWave? && e.node in s.phase.holding { FinishKeeps(g, clock, s, e.node); }
    } else if e.Join? {
      if s.phase.InWave? && e.node in s.phase.finished { JoinKeeps(g, clock, s, e.node); }
    } else {
      if s.phase.InWave? && s.phase.live == {} { CloseKeeps(g, clock, s); }
    }
  }

  lemma {:induction false} ExecKeeps(g: Graph, clock: Clock, s: System, events: seq<Event>)
    requires TasksInv(g, clock, s)
    ensures TasksInv(g, clock, Exec(g, clock, s, events))
    decreases |events|
  {
    if events != [] {
      StepKeeps(g, clock, s, events[0]);
      ExecKeeps(g, clock, Step(g, clock, s, events[0]), events[1..]);
    }
  }

  lemma {:induction false} EndedStays(g: Graph, clock: Clock, s: System, events: seq<Event>)
    requires s.phase.Ended?
    ensures Exec(g, clock, s, events) == s
    decreases |events|
  {
    if events != [] { EndedStays(g, clock, s, events[1..]); }
  }

  lemma {:induction false} Listed(s: set<nat>) returns (order: seq<nat>)
    ensures multiset(order) == multiset(s)
    decreases |s|
  {
    if s == {} {
      order := [];
    } else {
      var i :| i in s;
      var rest := Listed(s - {i});
      order := [i] + rest;
      assert multiset(s) == multiset(s - {i}) + multiset{i};
    }
  }

  /** System `end` is how the scheduler's run from `s.c` under `sched` ends. */
  ghost predicate EndsLike(g: Graph, clock: Clock, s: System, sched: Schedule, end: System) {
    var t := RunWaves(g, clock, s.c, sched);
    end.phase == Ended(t.result, t.nodes) && end.saves == s.saves + t.saves
  }

  /** The nodes whose results wave `w` collected, in order. */
  function JoinedIn(log: seq<Moment>, w: nat): seq<nat>
    decreases |log|
  {
    if log == [] then []
    else
      var last := log[|log| - 1];
      JoinedIn(log[..|log| - 1], w) + if last.Joined? && last.wave == w then [last.node] else []
  }

  lemma JoinedInMore(log: seq<Moment>, m: Moment, w: nat)
    ensures JoinedIn(log + [m], w) == JoinedIn(log, w) + if m.Joined? && m.wave == w then [m.node] else []
  {
    assert (log + [m])[..|log|] == log;
  }

  predicate NoJoins(log: seq<Moment>, w: nat) { JoinedIn(log, w) == [] }

  /** The log has exactly the joins of the wave in progress, and none of later waves. */
  ghost predicate JoinsLogged(s: System) {
    && (s.phase.InWave? ==> JoinedIn(s.log, s.c.wave) == s.phase.joined)
    && (s.phase.Between? ==> NoJoins(s.log, s.c.wave))
    && forall w: nat :: w > s.c.wave ==> NoJoins(s.log, w)
  }

  /** What a step does to the log: nothing, or one moment of the wave in progress. */
  lemma StepLogs(g: Graph, clock: Clock, s: System, e: Event)
    ensures var next := Step(g, clock, s, e);
            && s.c.wave <= next.c.wave <= s.c.wave + 1
            && (next.c.wave > s.c.wave ==> next.phase.Between? && s.phase.InWave?)
            && (next.log == s.log ||
                (|next.log| == |s.log| + 1 && next.log == s.log + [next.log[|s.log|]] &&
                    next.log[|s.log|].wave == s.c.wave))
  {
    if e.Launch? && s.phase.Between? && Early(g, s.c).Some? { EarlyStops(g, s.c); }
    if e.Close? && s.phase.InWave? && s.phase.live == {} {
      CloseWaveNumber(g, s.c, ReadyWave(s.c.nodes), s.phase.w);
    }
  }

  lemma CloseWaveNumber(g: Graph, c: Cfg, ready: seq<nat>, w: Gathered)
    ensures var r := AfterWave(g, c, ready, w); r.Advance? ==> r.next.wave == c.wave + 1
  {
  }

  /** The joins of a wave that is over stay as they were logged. */
  lemma {:induction false} PastJoins(g: Graph, clock: Clock, s: System, events: seq<Event>, w: nat)
    requires w < s.c.wave
    ensures JoinedIn(Exec(g, clock, s, events).log, w) == JoinedIn(s.log, w)
    ensures Exec(g, clock, s, events).c.wave >= s.c.wave
    decreases |events|
  {
    if events != [] {
      var next := Step(g, clock, s, events[0]);
      StepLogs(g, clock, s, events[0]);
      if next.log != s.log { JoinedInMore(s.log, next.log[|s.log|], w); }
      PastJoins(g, clock, next, events[1..], w);
    }
  }

  lemma JoinKeepsLog(g: Graph, clock: Clock, s: System, i: nat)
    requires JoinsLogged(s) && s.phase.InWave? && i < |s.phase.w.nodes|
    ensures JoinsLogged(JoinStep(g, clock, s, i))
    ensures JoinedIn(JoinStep(g, clock, s, i).log, s.c.wave) == s.phase.joined + [i]
  {
    var next := JoinStep(g, clock, s, i);
    var m := next.log[|s.log|];
    forall w: nat ensures JoinedIn(next.log, w) == JoinedIn(s.log, w) + if w == s.c.wave then [i] else [] {
      JoinedInMore(s.log, m, w);
    }
    forall w: nat | w > s.c.wave ensures NoJoins(next.log, w) { assert NoJoins(s.log, w); }
  }

  lemma CloseKeepsLog(g: Graph, clock: Clock, s: System)
    requires JoinsLogged(s) && s.phase.InWave? && s.phase.live == {}
    ensures JoinsLogged(Step(g, clock, s, Close))
  {
    var r := AfterWave(g, s.c, ReadyWave(s.c.nodes), s.phase.w);
    CloseIs(g, clock, s, r);
    CloseWaveNumber(g, s.c, ReadyWave(s.c.nodes), s.phase.w);
    assert NoJoins(s.log, s.c.wave + 1);
    forall w: nat | w > Step(g, clock, s, Close).c.wave ensures NoJoins(s.log, w) {}
  }

  lemma StepKeepsLog(g: Graph, clock: Clock, s: System, e: Event)
    requires JoinsLogged(s)
    ensures JoinsLogged(Step(g, clock, s, e))
  {
    if e.Launch? {
      if s.phase.Between? && Early(g, s.c).Some? { EarlyStops(g, s.c); }
    } else if e.Acquire? {
      var m := Started(s.c.wave, e.node);
      forall w: nat ensures JoinedIn(s.log + [m], w) == JoinedIn(s.log, w) { JoinedInMore(s.log, m, w); }
      forall w: nat | w > s.c.wave ensures NoJoins(s.log + [m], w) { assert NoJoins(s.log, w); }
    } else if e.Join? {
      if s.phase.InWave? && e.node in s.phase.finished && e.node < |s.phase.w.nodes| {
        JoinKeepsLog(g, clock, s, e.node);
      }
    } else if e.Close? {
      if s.phase.InWave? && s.phase.live == {} { CloseKeepsLog(g, clock, s); }
    }
  }

  /** From wave `from` on, `sched` is the order of the joins: for every wave that was closed
      exactly, and for the last one as far as it got. */
  ghost predicate Recounts(from: nat, sched: Schedule, end: System) {
    && (forall w :: from <= w < end.c.wave ==> sched(w) == JoinedIn(end.log, w))
    && JoinedIn(end.log, end.c.wave) <= Order(sched, end.c)
  }

  ghost predicate Compatible(s: System, sched: Schedule) {
    s.phase.InWave? ==> s.phase.joined <= Order(sched, s.c)
  }

  lemma OrderIs(sched: Schedule, c: Cfg)
    requires multiset(sched(c.wave)) == multiset(ReadyWave(c.nodes))
    ensures Order(sched, c) == sched(c.wave)
  {
  }

  lemma StopIs(g: Graph, clock: Clock, c: Cfg, sched: Schedule)
    requires Wave(g, clock, c, Order(sched, c)).Stop?
    ensures var r, t := Wave(g, clock, c, Order(sched, c)), RunWaves(g, clock, c, sched);
            t == DagTrace(r.result, r.nodes, ToSeq(r.saved), [])
  {
  }

  lemma AbortEnds(g: Graph, clock: Clock, s: System, i: nat) returns (sched: Schedule)
    requires TasksInv(g, clock, s) && s.phase.InWave? && i in s.phase.finished && i < |s.phase.w.nodes|
    requires JoinStep(g, clock, s, i).phase.Ended?
    ensures EndsLike(g, clock, s, sched, JoinStep(g, clock, s, i)) && Compatible(s, sched)
    ensures s.phase.joined + [i] <= Order(sched, s.c)
  {
    var p, c := s.phase, s.c;
    var rest := Listed(p.live - {i});
    var order := p.joined + [i] + rest;
    OneFewer(p.joined, p.live, i);
    assert multiset(order) == multiset(p.joined + [i]) + multiset(rest);
    sched := k => order;
    OrderIs(sched, c);
    CollectOneMore(g, clock, c, p, i);
    CollectSplit(g, clock(s.c.wave), c.state, Fresh(c.nodes, ReadyWave(c.nodes)), p.joined + [i], rest);
    StopIs(g, clock, c, sched);
  }

  lemma LaunchedIs(g: Graph, clock: Clock, s: System, sched: Schedule)
    requires TasksInv(g, clock, s) && s.phase.InWave? && s.phase.live == {} && sched(s.c.wave) == s.phase.joined
    ensures Order(sched, s.c) == s.phase.joined
    ensures Wave(g, clock, s.c, Order(sched, s.c)) == AfterWave(g, s.c, ReadyWave(s.c.nodes), s.phase.w)
  {
    assert multiset(s.phase.live) == multiset{};
    OrderIs(sched, s.c);
  }

  lemma StepEnds(g: Graph, clock: Clock, s: System, e: Event) returns (sched: Schedule)
    requires TasksInv(g, clock, s) && JoinsLogged(s) && !s.phase.Ended? && Step(g, clock, s, e).phase.Ended?
    ensures EndsLike(g, clock, s, sched, Step(g, clock, s, e)) && Compatible(s, sched)
    ensures Recounts(s.c.wave, sched, Step(g, clock, s, e))
  {
    StepLogs(g, clock, s, e);
    if e.Launch? {
      sched := k => [];
      StopIs(g, clock, s.c, sched);
    } else if e.Join? {
      sched := AbortEnds(g, clock, s, e.node);
      JoinKeepsLog(g, clock, s, e.node);
    } else {
      assert e.Close?;
      var joined := s.phase.joined;
      sched := k => joined;
      LaunchedIs(g, clock, s, sched);
      StopIs(g, clock, s.c, sched);
    }
  }

  /** A run only consults the schedule from its own wave on. */
  lemma {:induction false} ScheduleAhead(g: Graph, clock: Clock, c: Cfg, a: Schedule, b: Schedule)
    requires forall k :: k >= c.wave ==> a(k) == b(k)
    ensures RunWaves(g, clock, c, a) == RunWaves(g, clock, c, b)
    decreases Pendings(c.nodes)
  {
    WaveProgresses(g, clock, c, Order(a, c));
    var turn := Wave(g, clock, c, Order(a, c));
    if turn.Advance? {
      AdvanceIsNext(g, clock, c, a);
      ScheduleAhead(g, clock, turn.next, a, b);
    }
  }

  lemma CloseIs(g: Graph, clock: Clock, s: System, r: WaveResult)
    requires s.phase.InWave? && s.phase.live == {} && r == AfterWave(g, s.c, ReadyWave(s.c.nodes), s.phase.w)
    ensures Step(g, clock, s, Close) == Moved(s, r)
    ensures Step(g, clock, s, Close).phase.Between? ==> r.Advance?
  {
  }

  lemma ClosedWave(g: Graph, clock: Clock, s: System, sched: Schedule)
    requires TasksInv(g, clock, s) && s.phase.InWave? && s.phase.live == {} && sched(s.c.wave) == s.phase.joined
    ensures Order(sched, s.c) == s.phase.joined
    ensures Step(g, clock, s, Close) == Moved(s, Wave(g, clock, s.c, Order(sched, s.c)))
    ensures Step(g, clock, s, Close).phase.Between? ==> Wave(g, clock, s.c, Order(sched, s.c)).Advance?
  {
    LaunchedIs(g, clock, s, sched);
    CloseIs(g, clock, s, Wave(g, clock, s.c, Order(sched, s.c)));
  }

  lemma OnlyCloseLeaves(g: Graph, clock: Clock, s: System, e: Event)
    requires s.phase.InWave? && Step(g, clock, s, e).phase.Between?
    ensures e == Close && s.phase.live == {}
  {
  }

  lemma AdvanceExtends(g: Graph, clock: Clock, s: System, sched: Schedule, end: System)
    requires Wave(g, clock, s.c, Order(sched, s.c)).Advance?
    requires EndsLike(g, clock, Moved(s, Wave(g, clock, s.c, Order(sched, s.c))), sched, end)
    ensures EndsLike(g, clock, s, sched, end)
  {
    var turn := Wave(g, clock, s.c, Order(sched, s.c));
    assert s.saves + [turn.save] + RunWaves(g, clock, turn.next, sched).saves ==
           s.saves + RunWaves(g, clock, s.c, sched).saves;
  }

  lemma NextWaveNumber(g: Graph, clock: Clock, c: Cfg, sched: Schedule)
    requires Wave(g, clock, c, Order(sched, c)).Advance?
    ensures Wave(g, clock, c, Order(sched, c)).next.wave == c.wave + 1
  {
    AdvanceIsNext(g, clock, c, sched);
  }

  lemma CloseAdvances(g: Graph, clock: Clock, s: System, after: Schedule, end: System) returns (sched: Schedule)
    requires TasksInv(g, clock, s) && s.phase.InWave? && s.phase.live == {}
    requires Step(g, clock, s, Close).phase.Between? && EndsLike(g, clock, Step(g, clock, s, Close), after, end)
    ensures EndsLike(g, clock, s, sched, end) && Compatible(s, sched)
    ensures sched(s.c.wave) == s.phase.joined && forall w :: w > s.c.wave ==> sched(w) == after(w)
  {
    var joined, wave := s.phase.joined, s.c.wave;
    sched := k => if k == wave then joined else after(k);
    ClosedWave(g, clock, s, sched);
    var turn := Wave(g, clock, s.c, Order(sched, s.c));
    NextWaveNumber(g, clock, s.c, sched);
    ScheduleAhead(g, clock, turn.next, sched, after);
    AdvanceExtends(g, clock, s, sched, end);
  }

  /** Closing a wave puts its joins in front of the schedule of the rest. */
  lemma CloseRecounts(g: Graph, clock: Clock, s: System, events: seq<Event>, sched: Schedule, after: Schedule)
    requires JoinsLogged(s) && s.phase.InWave? && s.phase.live == {} && Step(g, clock, s, Close).phase.Between?
    requires sched(s.c.wave) == s.phase.joined && forall w :: w > s.c.wave ==> sched(w) == after(w)
    requires Recounts(s.c.wave + 1, after, Exec(g, clock, Step(g, clock, s, Close), events))
    ensures Recounts(s.c.wave, sched, Exec(g, clock, Step(g, clock, s, Close), events))
  {
    var next := Step(g, clock, s, Close);
    CloseIs(g, clock, s, AfterWave(g, s.c, ReadyWave(s.c.nodes), s.phase.w));
    CloseWaveNumber(g, s.c, ReadyWave(s.c.nodes), s.phase.w);
    PastJoins(g, clock, next, events, s.c.wave);
    var end := Exec(g, clock, next, events);
    assert Order(sched, end.c) == Order(after, end.c);
  }

  /** System `end` is how the run from `s` ends under `sched`, which is the order of the joins. */
  ghost predicate Explains(g: Graph, clock: Clock, s: System, sched: Schedule, end: System) {
    EndsLike(g, clock, s, sched, end) && Compatible(s, sched) && Recounts(s.c.wave, sched, end)
  }

  lemma StepExplains(g: Graph, clock: Clock, s: System, e: Event, events: seq<Event>) returns (sched: Schedule)
    requires TasksInv(g, clock, s) && JoinsLogged(s) && !s.phase.Ended? && Step(g, clock, s, e).phase.Ended?
    ensures Explains(g, clock, s, sched, Exec(g, clock, Step(g, clock, s, e), events))
  {
    EndedStays(g, clock, Step(g, clock, s, e), events);
    sched := StepEnds(g, clock, s, e);
  }

  lemma CloseExplains(g: Graph, clock: Clock, s: System, events: seq<Event>, after: Schedule) returns (sched: Schedule)
    requires TasksInv(g, clock, s) && JoinsLogged(s) && s.phase.InWave? && s.phase.live == {}
    requires var next := Step(g, clock, s, Close);
             next.phase.Between? && Explains(g, clock, next, after, Exec(g, clock, next, events))
    ensures Explains(g, clock, s, sched, Exec(g, clock, Step(g, clock, s, Close), events))
  {
    CloseIs(g, clock, s, AfterWave(g, s.c, ReadyWave(s.c.nodes), s.phase.w));
    CloseWaveNumber(g, s.c, ReadyWave(s.c.nodes), s.phase.w);
    sched := CloseAdvances(g, clock, s, after, Exec(g, clock, Step(g, clock, s, Close), events));
    CloseRecounts(g, clock, s, events, sched, after);
  }

  lemma SameWaveExplains(g: Graph, clock: Clock, s: System, e: Event, sched: Schedule, end: System)
    requires !s.phase.Ended? && !Step(g, clock, s, e).phase.Ended?
    requires s.phase.InWave? ==> Step(g, clock, s, e).phase.InWave?
    requires Explains(g, clock, Step(g, clock, s, e), sched, end)
    ensures Explains(g, clock, s, sched, end)
  {
    SameWaveStill(g, clock, s, e);
  }

  /** Every interleaving is a run of the scheduler: whatever the order of the events, a
      system that ends ends with the result, the nodes and the records of `RunWaves` under
      the order in which its tasks were joined. */
  lemma {:induction false} InterleavingIsARun(g: Graph, clock: Clock, s: System, events: seq<Event>)
    returns (sched: Schedule)
    requires TasksInv(g, clock, s) && JoinsLogged(s) && !s.phase.Ended? && Exec(g, clock, s, events).phase.Ended?
    ensures Explains(g, clock, s, sched, Exec(g, clock, s, events))
    decreases |events|
  {
    var e := events[0];
    var next := Step(g, clock, s, e);
    StepKeeps(g, clock, s, e);
    StepKeepsLog(g, clock, s, e);
    if next.phase.Ended? {
      sched := StepExplains(g, clock, s, e, events[1..]);
    } else {
      var after := InterleavingIsARun(g, clock, next, events[1..]);
      if s.phase.InWave? && next.phase.Between? {
        OnlyCloseLeaves(g, clock, s, e);
        sched := CloseExplains(g, clock, s, events[1..], after);
      } else {
        SameWaveExplains(g, clock, s, e, after, Exec(g, clock, next, events[1..]));
        sched := after;
      }
    }
  }

  lemma SameWaveStill(g: Graph, clock: Clock, s: System, e: Event)
    requires !s.phase.Ended? && !Step(g, clock, s, e).phase.Ended?
    requires s.phase.InWave? ==> Step(g, clock, s, e).phase.InWave?
    ensures var next := Step(g, clock, s, e);
            && next.c == s.c && next.saves == s.saves
            && (s.phase.InWave? ==> s.phase.joined <= next.phase.joined)
  {
    if s.phase.Between? && e.Launch? && Early(g, s.c).Some? { EarlyStops(g, s.c); }
  }

  /** From the start: a run of interleaved tasks that ends is the run of the scheduler under
      the order of its joins, wave by wave as the log has them. */
  lemma EveryInterleavingIsARun(g: Graph, clock: Clock, c: Cfg, events: seq<Event>) returns (sched: Schedule)
    requires Exec(g, clock, Began(c), events).phase.Ended?
    ensures var end, t := Exec(g, clock, Began(c), events), RunWaves(g, clock, c, sched);
            && end.phase == Ended(t.result, t.nodes) && end.saves == t.saves
            && Recounts(c.wave, sched, end)
  {
    sched := InterleavingIsARun(g, clock, Began(c), events);
    assert [] + RunWaves(g, clock, c, sched).saves == RunWaves(g, clock, c, sched).saves;
  }
}
