/** Inputs for properties that fail: a wave with one success and one yield saves nodes as done
    without their results; a resume that fails after a completed node leaves a gate that
    nobody can answer; and over the Postgres claim a caller that is overtaken runs a settled
    id again, or strands the thread at a question it was not asked. */
module Witnesses {
  import opened Types
  import opened Backoff
  import opened Executor
  import opened Checkpoints
  import opened Dags
  import opened Waves
  import opened WaveConfluence
  import opened WaveDurability
  import Sequential
  import Resume
  import Callers
  import PostgresCallers

  const QUESTION: YieldRequest := YieldRequest("q", ReEntry)

  /** Two nodes without retries: "a" succeeds, "b" gives the same answer every time. */
  function Pair(answer: NodeResult): Graph {
    Graph({}, {"a", "b"}, (ctx: NodeContext, s: State) => if ctx.nodeName == "a" then Success(s, None, 0.0) else answer,
          map["a" := Unconditional("b")], (a: State, b: State) => b, RetryPolicy(1, 0, 0, false), map[], None, map[],
          {}, {}, ResetToPending, ContinueOnError, ResourceLimits(1, 10, 10), (n: nat) => 0)
  }

  /** Every task of the wave succeeds or yields. */
  predicate Mixed(g: Graph, ticks: Ticks, nodes: Nodes, state: State, which: seq<nat>) {
    forall x :: 0 <= x < |which| ==> which[x] < |nodes| && Mild(g, ticks(which[x]), nodes[which[x]].stepType, state)
  }

  predicate Mild(g: Graph, tick: nat, name: Name, state: State) {
    Succeeds(g, tick, name, state) || TaskResult(g, tick, name, state).Yield?
  }

  lemma {:induction false} NobodyFails(g: Graph, ticks: Ticks, state: State, nodes: Nodes, w: Gathered, order: seq<nat>)
    requires SameTypes(nodes, w.nodes) && Indices(order, |nodes|) && Mixed(g, ticks, nodes, state, order)
    ensures var r := Collect(g, ticks, state, w, order); r.Collecting? && r.all.failed == w.failed
    decreases |order|
  {
    if order != [] {
      assert Mild(g, ticks(order[0]), nodes[order[0]].stepType, state);
      var next := Arrive(g, ticks, state, w, order[0]).all;
      forall x | 0 <= x < |order| - 1 ensures order[1..][x] == order[x + 1] {}
      NobodyFails(g, ticks, state, nodes, next, order[1..]);
    }
  }

  lemma SucceedInAnyOrder(g: Graph, ticks: Ticks, nodes: Nodes, state: State, a: seq<nat>, b: seq<nat>)
    requires multiset(a) == multiset(b) && AllSucceed(g, ticks, nodes, state, a)
    ensures AllSucceed(g, ticks, nodes, state, b)
  {
    SameMembers(a, b);
    forall x | 0 <= x < |b|
      ensures b[x] < |nodes| && Succeeds(g, ticks(b[x]), nodes[b[x]].stepType, state)
    {
      assert b[x] in a;
      var y :| 0 <= y < |a| && a[y] == b[x];
    }
  }

  lemma SomebodyYields(g: Graph, ticks: Ticks, nodes: Nodes, state: State, w: Gathered, ready: seq<nat>,
                       order: seq<nat>)
    requires SameTypes(nodes, w.nodes) && Indices(order, |nodes|) && multiset(order) == multiset(ready)
    requires w.failed == [] && Mixed(g, ticks, nodes, state, order) && !AllSucceed(g, ticks, nodes, state, ready)
    ensures var r := Collect(g, ticks, state, w, order); r.Collecting? && r.all.failed == [] && r.all.yielded.Some?
  {
    NobodyFails(g, ticks, state, nodes, w, order);
    if Collect(g, ticks, state, w, order).all.yielded.None? {
      CollectedSucceed(g, ticks, state, nodes, w, order);
      SucceedInAnyOrder(g, ticks, nodes, state, order, ready);
    }
  }

  lemma GateIsSaved(g: Graph, c: Cfg, ready: seq<nat>, w: Gathered)
    requires w.failed == [] && w.yielded.Some?
    ensures var r := AfterWave(g, c, ready, w);
            r.Stop? && r.saved.Some? && r.saved.value.status.Yielded? && r.saved.value.dag == Some(r.nodes)
  {
  }

  /** A wave of tasks that succeed or yield, with at least one of each, saves a gate whose done
      nodes are not those of its state, in whatever order they finish. */
  lemma MixedWaveGates(g: Graph, clock: Clock, c: Cfg, order: seq<nat>)
    requires multiset(order) == multiset(ReadyWave(c.nodes)) && Indices(order, |c.nodes|)
    requires Mixed(g, clock(c.wave), c.nodes, c.state, order)
    requires SomeSucceeded(g, clock, c) && !WaveSucceeds(g, clock(c.wave), c.nodes, c.state)
    ensures SplitGate(c, Launched(g, clock, c, order))
  {
    var ready := ReadyWave(c.nodes);
    var w := Fresh(c.nodes, ready);
    SomebodyYields(g, clock(c.wave), c.nodes, c.state, w, ready, order);
    GateIsSaved(g, c, ready, Collect(g, clock(c.wave), c.state, w, order).all);
    YieldRecord(g, clock, c, order);
    GatePairsExactly(g, clock, c, Launched(g, clock, c, order).nodes);
  }

  /** The wave ends in a gate that holds the state from before it and counts nodes as done
      that state knows nothing of. */
  predicate SplitGate(c: Cfg, r: WaveResult) {
    && r.Stop? && r.saved.Some? && r.saved.value.status.Yielded? && r.saved.value.state == c.state
    && r.saved.value.dag.Some? && !SameDone(r.saved.value.dag.value, c.nodes)
  }

  const SIDE_BY_SIDE: Nodes :=
    [DagNode(0, "a", [], NodeStatus.Pending), DagNode(1, "b", [], NodeStatus.Pending)]

  lemma SideBySide(nodes: Nodes)
    requires nodes == SIDE_BY_SIDE
    ensures ReadyWave(nodes) == [0, 1]
  {
    assert ReadyBelow(nodes, 1) == [0];
  }

  lemma PairAnswers(answer: NodeResult, ctx: NodeContext, state: State)
    requires ctx.nodeName == "a" || ctx.nodeName == "b"
    ensures NodeOutcome(Pair(answer), ctx, state) ==
            Tried(if ctx.nodeName == "a" then Success(state, None, 0.0) else answer, 1, 0)
  {
  }

  lemma PairLaunches(answer: NodeResult, nodes: Nodes, state: State)
    requires nodes == SIDE_BY_SIDE
    ensures Early(Pair(answer), Cfg(nodes, state, 0.0, 0)).None?
  {
    SideBySide(nodes);
    assert Unregistered(Pair(answer), nodes, [1]) == None && [0, 1][1..] == [1];
  }

  lemma PairIsMixed(nodes: Nodes, ticks: Ticks, state: State)
    requires nodes == SIDE_BY_SIDE
    ensures Mixed(Pair(Yield(QUESTION)), ticks, nodes, state, [0, 1])
    ensures TaskResult(Pair(Yield(QUESTION)), ticks(0), nodes[0].stepType, state).Success?
    ensures !AllSucceed(Pair(Yield(QUESTION)), ticks, nodes, state, [0, 1])
  {
    PairAnswers(Yield(QUESTION), NodeContext("a", 0, None, None, ticks(0)), state);
    PairAnswers(Yield(QUESTION), NodeContext("b", 0, None, None, ticks(1)), state);
    assert [0, 1][1] == 1 && !Succeeds(Pair(Yield(QUESTION)), ticks(1), nodes[1].stepType, state);
  }

  lemma MixedInAnyOrder(g: Graph, ticks: Ticks, nodes: Nodes, state: State, a: seq<nat>, b: seq<nat>)
    requires multiset(a) == multiset(b) && Mixed(g, ticks, nodes, state, a)
    ensures Mixed(g, ticks, nodes, state, b)
  {
    SameMembers(a, b);
    forall x | 0 <= x < |b| ensures b[x] < |nodes| && Mild(g, ticks(b[x]), nodes[b[x]].stepType, state) {
      assert b[x] in a;
      var y :| 0 <= y < |a| && a[y] == b[x];
    }
  }

  lemma MixedGates(g: Graph, clock: Clock, c: Cfg, sched: Schedule)
    requires Early(g, c).None? && Mixed(g, clock(c.wave), c.nodes, c.state, ReadyWave(c.nodes))
    requires SomeSucceeded(g, clock, c) && !WaveSucceeds(g, clock(c.wave), c.nodes, c.state)
    ensures SplitGate(c, Wave(g, clock, c, Order(sched, c)))
  {
    MixedInAnyOrder(g, clock(c.wave), c.nodes, c.state, ReadyWave(c.nodes), Order(sched, c));
    MixedWaveGates(g, clock, c, Order(sched, c));
  }

  /** Two nodes side by side, one of which succeeds while the other asks a question: whatever
      order they finish in, the run ends in a gate with the first node done and the state from
      before it. */
  lemma GateLosesAResult(g: Graph, clock: Clock, nodes: Nodes, state: State, c: Cfg, sched: Schedule)
    requires g == Pair(Yield(QUESTION)) && nodes == SIDE_BY_SIDE && c == Cfg(nodes, state, 0.0, 0)
    ensures SplitGate(c, Wave(g, clock, c, Order(sched, c)))
  {
    SideBySide(nodes);
    PairIsMixed(nodes, clock(0), state);
    assert 0 in [0, 1];
    assert SomeSucceeded(g, clock, c);
    PairLaunches(Yield(QUESTION), nodes, state);
    MixedGates(g, clock, c, sched);
  }

  /** A thread that waits at node "a" for an answer. */
  function Waiting(state: State): Log { [Record(0, Sequential.YieldedAt(state, "a", QUESTION))] }

  lemma FailsAfterOneNode(state: State, input: Input, tick: nat)
    ensures var t := Sequential.Run(Pair(Fatal), Sequential.Start("a", state, Some(input), tick), Some("q"));
            t.result == Err(NodeFailed("b")) && t.saves == [Sequential.Plain(state, "b", Complete, Some("q"))]
  {
    var g, p := Pair(Fatal), Sequential.Start("a", state, Some(input), tick);
    PairAnswers(Fatal, Sequential.Context(g, p), state);
    var next := Sequential.Step(g, p, Some("q")).next;
    PairAnswers(Fatal, Sequential.Context(g, next), state);
    assert Sequential.Run(g, next, Some("q")).saves == [];
  }

  /** The resumed node "a" completes, "b" fails: the thread waits for the same answer again,
      but every further call with it is told that it is answered, and runs nothing. */
  lemma GateNobodyCanAnswer(state: State, input: Input, tick: nat)
    ensures var g, r := Pair(Fatal), Resume.ResumeCall(Pair(Fatal), Waiting(state), 1, "q", input, true, tick);
            && r.result == Err(NodeFailed("b"))
            && Gated(r.log) && Last(r.log).body.yieldRequest == Some(QUESTION)
            && (forall n, x, ok, k :: Resume.ResumeCall(g, r.log, n, "q", x, ok, k) == Resume.Resumed(Ok(state), r.log))
  {
    var g, log := Pair(Fatal), Waiting(state);
    ClaimWinsExactly(log, "q");
    FailsAfterOneNode(state, input, tick);
    Resume.RollbackRestoresGate(g, log, 1, "q", input, tick);
    Resume.SettledExactly(g, log, 1, "q", input, tick);
  }

  /** The same failing resume over the Postgres claim, with a second caller that read the gate
      before: it takes the gate again and enters node "a" once more, although the id is
      settled. */
  lemma SettledIdRunsAgain(state: State, input: Input, tick: nat) returns (actions: seq<PostgresCallers.Action>)
    ensures var end := PostgresCallers.Execute(Pair(Fatal), PostgresCallers.Began(Waiting(state), 1), actions).inner;
            Resolved(end.log, "q") && 0 in end.phases && end.phases[0].Active?
  {
    GateNobodyCanAnswer(state, input, tick);
    ClaimWinsExactly(Waiting(state), "q");
    FailsAfterOneNode(state, input, tick);
    Resume.RollbackRestoresGate(Pair(Fatal), Waiting(state), 1, "q", input, tick);
    ClaimWinsExactly(Resume.ResumeCall(Pair(Fatal), Waiting(state), 1, "q", input, true, tick).log, "q");
    actions := PostgresCallers.OvertakenReader(Pair(Fatal), Waiting(state), 1, "q", input, tick);
  }

  const ANOTHER: YieldRequest := YieldRequest("p", ReEntry)

  lemma AsksAnother(state: State, input: Input, tick: nat)
    ensures var t := Sequential.Run(Pair(Yield(ANOTHER)), Sequential.Start("a", state, Some(input), tick), Some("q"));
            t.result.Ok? && t.saves != [] && t.saves[|t.saves| - 1] == Sequential.YieldedAt(state, "b", ANOTHER)
  {
    var g, p := Pair(Yield(ANOTHER)), Sequential.Start("a", state, Some(input), tick);
    PairAnswers(Yield(ANOTHER), Sequential.Context(g, p), state);
    var next := Sequential.Step(g, p, Some("q")).next;
    PairAnswers(Yield(ANOTHER), Sequential.Context(g, next), state);
    assert Sequential.Run(g, next, Some("q")).saves == [Sequential.YieldedAt(state, "b", ANOTHER)];
  }

  /** A resumed run that asks another question, and a second caller that read the first one:
      it takes the gate of the new question under the old id, its re-check fails, and the
      thread is stranded. */
  lemma ForeignGateStrands(state: State, input: Input, tick: nat) returns (actions: seq<PostgresCallers.Action>)
    ensures var end := PostgresCallers.Execute(Pair(Yield(ANOTHER)), PostgresCallers.Began(Waiting(state), 1),
                                               actions).inner;
            && 0 in end.phases && end.phases[0].RecheckFailed? && Callers.Stranded(end)
            && end.log != [] && Last(end.log).body.yieldRequest == Some(ANOTHER)
  {
    var g, log := Pair(Yield(ANOTHER)), Waiting(state);
    ClaimWinsExactly(log, "q");
    AsksAnother(state, input, tick);
    var saves := Sequential.Run(g, Sequential.Start("a", state, Some(input), tick), Some("q")).saves;
    assert saves + [] == saves;
    Resume.LastAppended(ClaimStep(log, "q").log, 1, saves);
    actions := PostgresCallers.OvertakenReader(g, log, 1, "q", input, tick);
  }
}
