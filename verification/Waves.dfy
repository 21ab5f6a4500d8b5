/** The wave scheduler (`run_dag`) as a step function on the DAG's nodes and the state: one
    turn of the loop is one wave, up to and including its durable write. */
module Waves {
  import opened Types
  import opened Executor
  import opened Dags

  function DoneIds(nodes: Nodes): set<Id> {
    set i | 0 <= i < |nodes| && nodes[i].status.Done? :: nodes[i].id
  }

  predicate Ready(nodes: Nodes, i: nat) {
    i < |nodes| && nodes[i].status.Pending? && forall d :: d in nodes[i].dependsOn ==> d in DoneIds(nodes)
  }

  /** The ready nodes below `k`, in index order. */
  function ReadyBelow(nodes: Nodes, k: nat): seq<nat> {
    if k == 0 then []
    else ReadyBelow(nodes, k - 1) + if Ready(nodes, k - 1) then [k - 1] else []
  }

  function ReadyWave(nodes: Nodes): seq<nat> { ReadyBelow(nodes, |nodes|) }

  predicate Increasing(s: seq<nat>) {
    forall x, y :: 0 <= x < y < |s| ==> s[x] < s[y]
  }

  predicate Indices(s: seq<nat>, n: nat) {
    forall x :: 0 <= x < |s| ==> s[x] < n
  }

  lemma {:induction false} ReadyBelowAre(nodes: Nodes, k: nat)
    ensures forall i :: i in ReadyBelow(nodes, k) <==> 0 <= i < k && Ready(nodes, i)
    ensures Increasing(ReadyBelow(nodes, k))
  {
    if k > 0 {
      ReadyBelowAre(nodes, k - 1);
      var s := ReadyBelow(nodes, k - 1);
      forall x | 0 <= x < |s| ensures s[x] < k - 1 { assert s[x] in s; }
    }
  }

  /** The nodes with the listed ones set to `status`. */
  function Marked(nodes: Nodes, which: seq<nat>, status: NodeStatus): Nodes {
    seq(|nodes|, i requires 0 <= i < |nodes| => if i in which then nodes[i].(status := status) else nodes[i])
  }

  /** The names of the nodes with one of two statuses, in index order. */
  function NamesWith(nodes: Nodes, a: NodeStatus, b: NodeStatus): seq<Name>
    decreases |nodes|
  {
    if nodes == [] then []
    else
      var last := nodes[|nodes| - 1];
      NamesWith(nodes[..|nodes| - 1], a, b) + if last.status == a || last.status == b then [last.stepType] else []
  }

  function StepTypes(nodes: Nodes, which: seq<nat>): seq<Name> {
    seq(|which|, x requires 0 <= x < |which| => if which[x] < |nodes| then nodes[which[x]].stepType else "")
  }

  function Joined(names: seq<Name>): Name
    decreases |names|
  {
    if names == [] then "" else if |names| == 1 then names[0] else names[0] + "," + Joined(names[1..])
  }

  function FirstPending(nodes: Nodes): Name {
    var names := NamesWith(nodes, NodeStatus.Pending, NodeStatus.Pending);
    if names == [] then END else names[0]
  }

  /** The numbers of the first calls of a wave's tasks, by node index, and those of a run, by
      wave. They are arbitrary, so every node may answer every call differently. */
  type Ticks = nat -> nat
  type Clock = nat -> Ticks

  /** The outcome of the task of one node, which starts from the pre-wave state and whose
      first call has the number `tick`. */
  function TaskResult(g: Graph, tick: nat, stepType: Name, state: State): NodeResult {
    NodeOutcome(g, NodeContext(stepType, 0, None, None, tick), state).result
  }

  /** What has been collected from a wave so far. */
  datatype Gathered = Gathered(
    nodes: Nodes,
    states: seq<(nat, State)>,
    cost: real,
    succeeded: seq<Name>,
    failed: seq<Name>,
    yielded: Option<YieldRequest>)

  datatype Collected = Aborted(error: Error, nodes: Nodes) | Collecting(all: Gathered)

  function WithStatus(nodes: Nodes, i: nat, status: NodeStatus): Nodes
    requires i < |nodes|
  {
    nodes[i := nodes[i].(status := status)]
  }

  /** One finished task. */
  function Arrive(g: Graph, ticks: Ticks, state: State, w: Gathered, i: nat): Collected
    requires i < |w.nodes|
  {
    var name := w.nodes[i].stepType;
    match TaskResult(g, ticks(i), name, state)
    case Success(out, _, cost) =>
      if g.BreaksNodeBudget(name, cost) then Aborted(BudgetExceeded(cost, g.nodeBudgets[name]), w.nodes)
      else Collecting(w.(nodes := WithStatus(w.nodes, i, NodeStatus.Done), states := w.states + [(i, out)],
                         cost := w.cost + cost, succeeded := w.succeeded + [name]))
    case Yield(request) =>
      Collecting(w.(nodes := WithStatus(w.nodes, i, NodeStatus.Yielded), yielded := Some(request)))
    case OverBudget(spent, limit) =>
      Aborted(BudgetExceeded(spent, limit), WithStatus(w.nodes, i, NodeStatus.Failed))
    case _ =>
      var nodes := WithStatus(w.nodes, i, NodeStatus.Failed);
      if g.wavePolicy.FailFast? then Aborted(NodeFailed(name), nodes)
      else Collecting(w.(nodes := nodes, failed := w.failed + [name]))
  }

  /** The collection loop over the tasks in the order they finish. */
  function Collect(g: Graph, ticks: Ticks, state: State, w: Gathered, order: seq<nat>): Collected
    requires Indices(order, |w.nodes|)
    decreases |order|
  {
    if order == [] then Collecting(w)
    else match Arrive(g, ticks, state, w, order[0])
      case Aborted(e, nodes) => Aborted(e, nodes)
      case Collecting(next) => Collect(g, ticks, state, next, order[1..])
  }

  /** `sort_by_key` on the node index: an insertion sort. */
  function Insert(x: (nat, State), s: seq<(nat, State)>): seq<(nat, State)>
    decreases |s|
  {
    if s == [] || x.0 <= s[0].0 then [x] + s else [s[0]] + Insert(x, s[1..])
  }

  function ByIndex(s: seq<(nat, State)>): seq<(nat, State)>
    decreases |s|
  {
    if s == [] then [] else Insert(s[0], ByIndex(s[1..]))
  }

  function MergeAll(g: Graph, state: State, outs: seq<(nat, State)>): State
    decreases |outs|
  {
    if outs == [] then state else MergeAll(g, g.merge(state, outs[0].1), outs[1..])
  }

  /** `ms` are the states a merge goes through: each is the one before, merged with the next
      result. */
  ghost predicate Merges(g: Graph, state: State, outs: seq<(nat, State)>, ms: seq<State>) {
    |ms| == |outs| + 1 && ms[0] == state && forall k :: 0 <= k < |outs| ==> MergedAt(g, outs, ms, k)
  }

  predicate MergedAt(g: Graph, outs: seq<(nat, State)>, ms: seq<State>, k: nat) {
    k < |outs| && k + 1 < |ms| && ms[k + 1] == g.merge(ms[k], outs[k].1)
  }

  /** The merged state is where such a chain ends. */
  lemma {:induction false} MergeAllIs(g: Graph, state: State, outs: seq<(nat, State)>, ms: seq<State>)
    requires Merges(g, state, outs, ms)
    ensures MergeAll(g, state, outs) == ms[|outs|]
    decreases |outs|
  {
    if outs != [] {
      assert MergedAt(g, outs, ms, 0);
      forall k | 0 <= k < |outs| - 1 ensures MergedAt(g, outs[1..], ms[1..], k) { assert MergedAt(g, outs, ms, k + 1); }
      MergeAllIs(g, ms[1], outs[1..], ms[1..]);
    }
  }

  /** Where a run stands at the top of its loop. */
  datatype Cfg = Cfg(nodes: Nodes, state: State, cost: real, wave: nat)

  datatype WaveResult =
    | Stop(result: Result<State, Error>, nodes: Nodes, saved: Option<Snapshot>)
    | Advance(next: Cfg, save: Snapshot)

  function DagSave(state: State, nextNode: Name, nodes: Nodes, status: CheckpointStatus,
                   request: Option<YieldRequest>): Snapshot {
    Snapshot(state, nextNode, Some(nodes), status, request, None, None)
  }

  predicate Meets(nodes: Nodes, which: seq<nat>, names: set<Name>) {
    exists x :: 0 <= x < |which| && which[x] < |nodes| && nodes[which[x]].stepType in names
  }

  /** The first ready node that is not registered, if any. */
  function Unregistered(g: Graph, nodes: Nodes, ready: seq<nat>): Option<Name>
    decreases |ready|
  {
    if ready == [] then None
    else if ready[0] < |nodes| && !g.Registered(nodes[ready[0]].stepType) then Some(nodes[ready[0]].stepType)
    else Unregistered(g, nodes, ready[1..])
  }

  function Fresh(nodes: Nodes, ready: seq<nat>): Gathered {
    Gathered(Marked(nodes, ready, NodeStatus.Running), [], 0.0, [], [], None)
  }

  /** The checks before a wave is launched; `None` launches it. */
  function Early(g: Graph, c: Cfg): Option<WaveResult> {
    var ready := ReadyWave(c.nodes);
    if ready == [] then
      var pending := NamesWith(c.nodes, NodeStatus.Pending, NodeStatus.Pending);
      Some(Stop(if pending != [] then Err(DagDeadlock(pending)) else Ok(c.state), c.nodes, None))
    else if c.wave > 0 && Meets(c.nodes, ready, g.interruptBefore) then
      var waiting := Joined(StepTypes(c.nodes, ready));
      Some(Stop(Ok(c.state), c.nodes, Some(DagSave(c.state, waiting, c.nodes, Interrupted, None))))
    else if Unregistered(g, c.nodes, ready).Some? then
      var missing := Unregistered(g, c.nodes, ready).value;
      Some(Stop(Err(NodeNotFound(missing)), Marked(c.nodes, ready, NodeStatus.Running), None))
    else
      None
  }

  /** A launched wave, whose tasks finish in the order `order`. */
  function Launched(g: Graph, clock: Clock, c: Cfg, order: seq<nat>): WaveResult
    requires Indices(order, |c.nodes|)
  {
    var ready := ReadyWave(c.nodes);
    match Collect(g, clock(c.wave), c.state, Fresh(c.nodes, ready), order)
    case Aborted(e, nodes) => Stop(Err(e), nodes, None)
    case Collecting(w) => AfterWave(g, c, ready, w)
  }

  /** One turn of the loop. */
  function Wave(g: Graph, clock: Clock, c: Cfg, order: seq<nat>): WaveResult
    requires Indices(order, |c.nodes|)
  {
    var early := Early(g, c);
    if early.Some? then early.value else Launched(g, clock, c, order)
  }

  function AfterWave(g: Graph, c: Cfg, ready: seq<nat>, w: Gathered): WaveResult {
    if w.failed != [] then Stop(Err(PartialWaveFailure(w.succeeded, w.failed)), w.nodes, None)
    else if w.yielded.Some? then
      var waiting := Joined(NamesWith(w.nodes, NodeStatus.Yielded, NodeStatus.Pending));
      Stop(Ok(c.state), w.nodes, Some(DagSave(c.state, waiting, w.nodes, CheckpointStatus.Yielded, w.yielded)))
    else
      var state := MergeAll(g, c.state, ByIndex(w.states));
      var cost := c.cost + w.cost;
      if g.BreaksBudget(cost) then Stop(Err(BudgetExceeded(cost, g.budget.value)), w.nodes, None)
      else
        var save := DagSave(state, FirstPending(w.nodes), w.nodes, Complete, None);
        if Meets(c.nodes, ready, g.interruptAfter) then Stop(Ok(state), w.nodes, Some(save))
        else Advance(Cfg(w.nodes, state, cost, c.wave + 1), save)
  }

  lemma SameMembers(a: seq<nat>, b: seq<nat>)
    requires multiset(a) == multiset(b)
    ensures forall i :: i in a <==> i in b
    ensures |a| == |b|
  {
    forall i ensures i in a <==> i in b {
      assert i in a <==> i in multiset(a);
      assert i in b <==> i in multiset(b);
    }
    assert |multiset(a)| == |a| && |multiset(b)| == |b|;
  }

  lemma OrderIsOfReady(nodes: Nodes, order: seq<nat>)
    requires multiset(order) == multiset(ReadyWave(nodes))
    ensures Indices(order, |nodes|)
    ensures forall i :: i in order <==> i in ReadyWave(nodes)
    ensures forall i :: i in order <==> Ready(nodes, i)
  {
    SameMembers(order, ReadyWave(nodes));
    ReadyBelowAre(nodes, |nodes|);
    forall x | 0 <= x < |order| ensures order[x] < |nodes| { assert order[x] in order; }
  }

  /** Nodes as they are, but for statuses at the listed indices, none of which is pending. */
  predicate Settled(before: Nodes, after: Nodes, which: seq<nat>) {
    && |after| == |before|
    && forall i :: 0 <= i < |before| ==>
         && after[i] == before[i].(status := after[i].status)
         && (if i in which then !after[i].status.Pending? else after[i] == before[i])
  }

  lemma {:induction false} CollectSettles(g: Graph, ticks: Ticks, state: State, w: Gathered, order: seq<nat>,
                                          before: Nodes, which: seq<nat>)
    requires Settled(before, w.nodes, which) && Indices(order, |before|)
    requires forall i :: i in order ==> i in which
    ensures var r := Collect(g, ticks, state, w, order);
            Settled(before, if r.Aborted? then r.nodes else r.all.nodes, which)
    decreases |order|
  {
    if order != [] {
      assert order[0] in order;
      var r := Arrive(g, ticks, state, w, order[0]);
      if r.Collecting? { CollectSettles(g, ticks, state, r.all, order[1..], before, which); }
    }
  }

  function Pendings(nodes: Nodes): set<nat> {
    set i | 0 <= i < |nodes| && nodes[i].status.Pending?
  }

  lemma SettledProgress(before: Nodes, after: Nodes, which: seq<nat>)
    requires Settled(before, after, which) && which != [] && which[0] < |before| && before[which[0]].status.Pending?
    ensures Pendings(after) < Pendings(before)
  {
    assert which[0] in which;
    assert which[0] in Pendings(before) && which[0] !in Pendings(after);
  }

  function NodesOf(r: WaveResult): Nodes {
    if r.Stop? then r.nodes else r.next.nodes
  }

  lemma LaunchedSettles(g: Graph, clock: Clock, c: Cfg, order: seq<nat>)
    requires multiset(order) == multiset(ReadyWave(c.nodes))
    ensures Indices(order, |c.nodes|)
    ensures Settled(c.nodes, NodesOf(Launched(g, clock, c, order)), ReadyWave(c.nodes))
  {
    var ready := ReadyWave(c.nodes);
    OrderIsOfReady(c.nodes, order);
    var w := Fresh(c.nodes, ready);
    CollectSettles(g, clock(c.wave), c.state, w, order, c.nodes, ready);
    var r := Collect(g, clock(c.wave), c.state, w, order);
    if r.Collecting? {
      AfterWaveNodes(g, c, ready, r.all);
    }
  }

  lemma EarlyStops(g: Graph, c: Cfg)
    requires Early(g, c).Some?
    ensures Early(g, c).value.Stop?
    ensures Early(g, c).value.nodes == c.nodes ||
            Early(g, c).value.nodes == Marked(c.nodes, ReadyWave(c.nodes), NodeStatus.Running)
  {
  }

  /** A wave touches no node but its own. */
  lemma WaveSettles(g: Graph, clock: Clock, c: Cfg, order: seq<nat>)
    requires multiset(order) == multiset(ReadyWave(c.nodes))
    ensures Indices(order, |c.nodes|)
    ensures var nodes := NodesOf(Wave(g, clock, c, order));
            nodes == c.nodes || Settled(c.nodes, nodes, ReadyWave(c.nodes))
  {
    LaunchedSettles(g, clock, c, order);
    if Early(g, c).Some? {
      EarlyStops(g, c);
    }
  }

  /** A wave that goes on was launched and used up its pending nodes. */
  lemma WaveProgresses(g: Graph, clock: Clock, c: Cfg, order: seq<nat>)
    requires multiset(order) == multiset(ReadyWave(c.nodes))
    ensures Indices(order, |c.nodes|)
    ensures Wave(g, clock, c, order).Advance? ==>
              && Early(g, c).None? && ReadyWave(c.nodes) != []
              && Pendings(Wave(g, clock, c, order).next.nodes) < Pendings(c.nodes)
  {
    LaunchedSettles(g, clock, c, order);
    if Early(g, c).Some? {
      EarlyStops(g, c);
    } else {
      var ready := ReadyWave(c.nodes);
      ReadyBelowAre(c.nodes, |c.nodes|);
      assert ready[0] in ready;
      SettledProgress(c.nodes, NodesOf(Launched(g, clock, c, order)), ready);
    }
  }

  lemma AfterWaveNodes(g: Graph, c: Cfg, ready: seq<nat>, w: Gathered)
    ensures var r := AfterWave(g, c, ready, w);
            NodesOf(r) == w.nodes
  {
  }

  /** The orders in which the waves' tasks finish, by wave number. */
  type Schedule = nat -> seq<nat>

  function Order(sched: Schedule, c: Cfg): (order: seq<nat>)
    ensures multiset(order) == multiset(ReadyWave(c.nodes)) && Indices(order, |c.nodes|)
  {
    var ready := ReadyWave(c.nodes);
    var order := if multiset(sched(c.wave)) == multiset(ready) then sched(c.wave) else ready;
    OrderIsOfReady(c.nodes, order);
    order
  }

  /** A run: its result, the nodes it leaves, its durable writes and the waves it completed. */
  datatype DagTrace = DagTrace(result: Result<State, Error>, nodes: Nodes, saves: seq<Snapshot>, waves: seq<seq<nat>>)

  function RunWaves(g: Graph, clock: Clock, c: Cfg, sched: Schedule): DagTrace
    decreases Pendings(c.nodes)
  {
    var order := Order(sched, c);
    WaveProgresses(g, clock, c, order);
    match Wave(g, clock, c, order)
    case Stop(result, nodes, saved) => DagTrace(result, nodes, ToSeq(saved), [])
    case Advance(next, save) =>
      var rest := RunWaves(g, clock, next, sched);
      DagTrace(rest.result, rest.nodes, [save] + rest.saves, [ReadyWave(c.nodes)] + rest.waves)
  }

  /** What a record of a run pairs: the statuses and the state. */
  datatype WavePoint = WavePoint(nodes: Nodes, state: State)

  function PointOf(save: Snapshot): WavePoint {
    WavePoint(if save.dag.Some? then save.dag.value else [], save.state)
  }

  function Here(c: Cfg): WavePoint { WavePoint(c.nodes, c.state) }
}
