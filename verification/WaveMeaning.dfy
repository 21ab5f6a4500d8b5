/** What one turn of the wave scheduler means, over the nodes' answers and the order in which
    the tasks finish: who is called on what, what is merged, recorded and reported. */
module WaveMeaning {
  import opened Types
  import opened Executor
  import opened Dags
  import opened Waves
  import opened WaveConfluence

  /** Node `i`, called on the state from before the wave without a budget or an input, finally
      answered this. */
  ghost predicate TaskGave(g: Graph, clock: Clock, c: Cfg, i: nat, answer: NodeResult) {
    && i < |c.nodes|
    && exists calls, waited ::
         Answered(g, NodeContext(c.nodes[i].stepType, 0, None, None, clock(c.wave)(i)), c.state,
                  Tried(answer, calls, waited))
  }

  /** What every node would answer in this wave. */
  ghost predicate WaveAnswers(g: Graph, clock: Clock, c: Cfg, answers: seq<NodeResult>) {
    |answers| == |c.nodes| && forall i :: 0 <= i < |answers| ==> TaskGave(g, clock, c, i, answers[i])
  }

  predicate Overspends(g: Graph, name: Name, a: NodeResult) {
    a.Success? && name in g.nodeBudgets && g.nodeBudgets[name] < a.cost
  }

  predicate Fails(a: NodeResult) { a.Retryable? || a.Fatal? || a.YieldInDynamicNode? }

  /** The answer ends the whole run as soon as the task is joined. */
  predicate Breaks(g: Graph, name: Name, a: NodeResult) {
    Overspends(g, name, a) || a.OverBudget? || (Fails(a) && g.wavePolicy == FailFast)
  }

  predicate BreaksWith(g: Graph, name: Name, a: NodeResult, e: Error) {
    match a
    case Success(_, _, cost) => name in g.nodeBudgets && e == BudgetExceeded(cost, g.nodeBudgets[name])
    case OverBudget(spent, limit) => e == BudgetExceeded(spent, limit)
    case _ => e == NodeFailed(name)
  }

  predicate BreaksAt(g: Graph, nodes: Nodes, answers: seq<NodeResult>, i: nat) {
    i < |nodes| && i < |answers| && Breaks(g, nodes[i].stepType, answers[i])
  }

  function StatusAfter(a: NodeResult): NodeStatus {
    if a.Success? then NodeStatus.Done else if a.Yield? then NodeStatus.Yielded else NodeStatus.Failed
  }

  /** The nodes once the tasks `joined` were: each has the status its answer gives it, the other
      nodes of the wave are running, the rest is as before. */
  predicate JoinedNodes(before: Nodes, answers: seq<NodeResult>, joined: seq<nat>, after: Nodes) {
    && |after| == |before|
    && forall i :: 0 <= i < |before| ==> after[i] == before[i].(status :=
         if i in joined && i < |answers| then StatusAfter(answers[i])
         else if Ready(before, i) then NodeStatus.Running
         else before[i].status)
  }

  /** The names of the nodes in `order` that are in `keep`, in that order. */
  ghost predicate Listed(nodes: Nodes, order: seq<nat>, keep: set<nat>, names: seq<Name>) {
    exists at: seq<nat> :: ListedAt(nodes, order, keep, names, at)
  }

  ghost predicate ListedAt(nodes: Nodes, order: seq<nat>, keep: set<nat>, names: seq<Name>, at: seq<nat>) {
    && |at| == |names| && Increasing(at)
    && (forall x :: KeptAt(order, keep, at, x))
    && (forall k :: 0 <= k < |at| ==> NamedAt(nodes, order, names, at, k))
  }

  predicate KeptAt(order: seq<nat>, keep: set<nat>, at: seq<nat>, x: nat) {
    x in at <==> x < |order| && order[x] in keep
  }

  predicate NamedAt(nodes: Nodes, order: seq<nat>, names: seq<Name>, at: seq<nat>, k: nat) {
    && k < |at| && k < |names| && at[k] < |order| && order[at[k]] < |nodes|
    && names[k] == nodes[order[at[k]]].stepType
  }

  /** The request of the task that yielded last. */
  ghost predicate LastYield(answers: seq<NodeResult>, joined: seq<nat>, request: Option<YieldRequest>) {
    match request
    case None => NoneYields(answers, joined, 0)
    case Some(r) =>
      exists x: nat ::
        YieldsAt(answers, joined, x) && answers[joined[x]] == Yield(r) && NoneYields(answers, joined, x + 1)
  }

  /** From the `from`-th on, no joined task yielded. */
  predicate NoneYields(answers: seq<NodeResult>, joined: seq<nat>, from: nat) {
    forall x :: from <= x < |joined| ==> !YieldsAt(answers, joined, x)
  }

  predicate YieldsAt(answers: seq<NodeResult>, joined: seq<nat>, x: nat) {
    x < |joined| && joined[x] < |answers| && answers[joined[x]].Yield?
  }

  function Successes(answers: seq<NodeResult>): set<nat> { set i | 0 <= i < |answers| && answers[i].Success? }

  function Failures(answers: seq<NodeResult>): set<nat> { set i | 0 <= i < |answers| && Fails(answers[i]) }

  /** What the collection loop holds after the tasks `joined`, none of which ended the run. */
  ghost predicate Gathers(c: Cfg, answers: seq<NodeResult>, joined: seq<nat>, w: Gathered) {
    && JoinedNodes(c.nodes, answers, joined, w.nodes)
    && Listed(c.nodes, joined, Successes(answers), w.succeeded)
    && Listed(c.nodes, joined, Failures(answers), w.failed)
    && LastYield(answers, joined, w.yielded)
  }

  lemma ListedMore(nodes: Nodes, order: seq<nat>, keep: set<nat>, names: seq<Name>, i: nat)
    requires Listed(nodes, order, keep, names) && i < |nodes|
    ensures Listed(nodes, order + [i], keep, names + if i in keep then [nodes[i].stepType] else [])
  {
    var at: seq<nat> :| ListedAt(nodes, order, keep, names, at);
    var longer := if i in keep then at + [|order|] else at;
    var more := names + if i in keep then [nodes[i].stepType] else [];
    forall k | 0 <= k < |at| ensures at[k] < |order| { assert NamedAt(nodes, order, names, at, k); }
    forall x: nat ensures KeptAt(order + [i], keep, longer, x) { assert KeptAt(order, keep, at, x); }
    forall k | 0 <= k < |longer| ensures NamedAt(nodes, order + [i], more, longer, k) {
      if k < |at| { assert NamedAt(nodes, order, names, at, k); }
    }
    assert ListedAt(nodes, order + [i], keep, more, longer);
  }

  lemma YieldMore(answers: seq<NodeResult>, joined: seq<nat>, request: Option<YieldRequest>, i: nat)
    requires LastYield(answers, joined, request) && i < |answers|
    ensures LastYield(answers, joined + [i], if answers[i].Yield? then Some(answers[i].request) else request)
  {
    var longer := joined + [i];
    forall x | 0 <= x < |joined| ensures YieldsAt(answers, longer, x) <==> YieldsAt(answers, joined, x) {}
    if answers[i].Yield? {
      assert YieldsAt(answers, longer, |joined|);
    } else if request.Some? {
      var x: nat :| YieldsAt(answers, joined, x) && answers[joined[x]] == Yield(request.value) &&
        NoneYields(answers, joined, x + 1);
      assert YieldsAt(answers, longer, x) && NoneYields(answers, longer, x + 1);
    }
  }

  lemma NodesMore(before: Nodes, answers: seq<NodeResult>, joined: seq<nat>, nodes: Nodes, i: nat)
    requires JoinedNodes(before, answers, joined, nodes) && i < |before| == |answers|
    ensures JoinedNodes(before, answers, joined + [i], WithStatus(nodes, i, StatusAfter(answers[i])))
  {
  }

  /** The answers the model's tasks give. */
  function AnswersOf(g: Graph, clock: Clock, c: Cfg): seq<NodeResult> {
    seq(|c.nodes|, i requires 0 <= i < |c.nodes| => TaskResult(g, clock(c.wave)(i), c.nodes[i].stepType, c.state))
  }

  lemma AnswersExactly(g: Graph, clock: Clock, c: Cfg, answers: seq<NodeResult>)
    ensures WaveAnswers(g, clock, c, answers) <==> answers == AnswersOf(g, clock, c)
  {
    var mine := AnswersOf(g, clock, c);
    forall i, a | 0 <= i < |c.nodes| ensures TaskGave(g, clock, c, i, a) <==> a == mine[i] {
      TaskExactly(g, clock, c, i, a);
    }
  }

  lemma TaskExactly(g: Graph, clock: Clock, c: Cfg, i: nat, a: NodeResult)
    requires i < |c.nodes|
    ensures TaskGave(g, clock, c, i, a) <==> a == TaskResult(g, clock(c.wave)(i), c.nodes[i].stepType, c.state)
  {
    var ctx := NodeContext(c.nodes[i].stepType, 0, None, None, clock(c.wave)(i));
    var outcome := NodeOutcome(g, ctx, c.state);
    OutcomeExactly(g, ctx, c.state, outcome);
    if TaskGave(g, clock, c, i, a) {
      var calls, waited :| Answered(g, ctx, c.state, Tried(a, calls, waited));
      OutcomeExactly(g, ctx, c.state, Tried(a, calls, waited));
    }
  }

  /** One more joined task, which goes on exactly if it does not end the run. */
  lemma ArriveMeans(g: Graph, clock: Clock, c: Cfg, joined: seq<nat>, w: Gathered, i: nat)
    requires Gathers(c, AnswersOf(g, clock, c), joined, w) && i < |c.nodes|
    ensures var answers, r := AnswersOf(g, clock, c), Arrive(g, clock(c.wave), c.state, w, i);
            && (r.Aborted? <==> BreaksAt(g, c.nodes, answers, i))
            && (r.Collecting? ==> Gathers(c, answers, joined + [i], r.all))
  {
    var answers, r := AnswersOf(g, clock, c), Arrive(g, clock(c.wave), c.state, w, i);
    assert w.nodes[i].stepType == c.nodes[i].stepType;
    if r.Collecting? { ArriveAdds(g, c, answers, clock(c.wave), joined, w, i); }
  }

  lemma ArriveAdds(g: Graph, c: Cfg, answers: seq<NodeResult>, ticks: Ticks, joined: seq<nat>, w: Gathered, i: nat)
    requires Gathers(c, answers, joined, w) && i < |c.nodes| == |answers|
    requires answers[i] == TaskResult(g, ticks(i), c.nodes[i].stepType, c.state)
    requires Arrive(g, ticks, c.state, w, i).Collecting?
    ensures Gathers(c, answers, joined + [i], Arrive(g, ticks, c.state, w, i).all)
  {
    assert w.nodes[i].stepType == c.nodes[i].stepType;
    NodesMore(c.nodes, answers, joined, w.nodes, i);
    ListedMore(c.nodes, joined, Successes(answers), w.succeeded, i);
    ListedMore(c.nodes, joined, Failures(answers), w.failed, i);
    YieldMore(answers, joined, w.yielded, i);
    assert w.succeeded + [] == w.succeeded && w.failed + [] == w.failed;
  }

  lemma ArriveBreaks(g: Graph, clock: Clock, c: Cfg, joined: seq<nat>, w: Gathered, i: nat)
    requires JoinedNodes(c.nodes, AnswersOf(g, clock, c), joined, w.nodes)
    requires i < |c.nodes| && i !in joined && Ready(c.nodes, i)
    ensures var answers, r := AnswersOf(g, clock, c), Arrive(g, clock(c.wave), c.state, w, i);
            r.Aborted? ==>
              && BreaksWith(g, c.nodes[i].stepType, answers[i], r.error)
              && BrokenNodes(c.nodes, answers, joined, i, r.nodes)
  {
    assert w.nodes[i].stepType == c.nodes[i].stepType;
  }

  /** The nodes when task `i` ends the run: one that overspent is still running, any other
      failed. */
  predicate BrokenNodes(before: Nodes, answers: seq<NodeResult>, joined: seq<nat>, i: nat, after: Nodes) {
    && i < |before| == |answers| == |after|
    && JoinedNodes(before, answers, joined,
         after[i := before[i].(status := NodeStatus.Running)])
    && after[i] == before[i].(status := if answers[i].Success? then NodeStatus.Running else NodeStatus.Failed)
  }

  /** No task of the order ends the run. */
  predicate NoneBreaks(g: Graph, nodes: Nodes, answers: seq<NodeResult>, order: seq<nat>) {
    forall x :: 0 <= x < |order| ==> !BreaksAt(g, nodes, answers, order[x])
  }

  lemma FreshGathers(g: Graph, clock: Clock, c: Cfg)
    ensures Gathers(c, AnswersOf(g, clock, c), [], Waves.Fresh(c.nodes, ReadyWave(c.nodes)))
  {
    var answers := AnswersOf(g, clock, c);
    ReadyBelowAre(c.nodes, |c.nodes|);
    assert ListedAt(c.nodes, [], Successes(answers), [], []);
    assert ListedAt(c.nodes, [], Failures(answers), [], []);
  }

  /** Joining tasks none of which ends the run. */
  lemma {:induction false} CollectGathers(g: Graph, clock: Clock, c: Cfg, joined: seq<nat>)
    requires Indices(joined, |c.nodes|) && NoneBreaks(g, c.nodes, AnswersOf(g, clock, c), joined)
    ensures var r := Collect(g, clock(c.wave), c.state, Waves.Fresh(c.nodes, ReadyWave(c.nodes)), joined);
            r.Collecting? && Gathers(c, AnswersOf(g, clock, c), joined, r.all)
    decreases |joined|
  {
    FreshGathers(g, clock, c);
    if joined != [] {
      var front, i := joined[..|joined| - 1], joined[|joined| - 1];
      assert joined == front + [i];
      CollectGathers(g, clock, c, front);
      JoinLast(g, clock, c, front, i);
    }
  }

  /** The last of the joined tasks. */
  lemma JoinLast(g: Graph, clock: Clock, c: Cfg, front: seq<nat>, i: nat)
    requires Indices(front, |c.nodes|) && i < |c.nodes|
    requires var r := Collect(g, clock(c.wave), c.state, Waves.Fresh(c.nodes, ReadyWave(c.nodes)), front);
             r.Collecting? && Gathers(c, AnswersOf(g, clock, c), front, r.all)
    ensures Indices(front + [i], |c.nodes|)
    ensures var w := Waves.Fresh(c.nodes, ReadyWave(c.nodes));
            var r := Collect(g, clock(c.wave), c.state, w, front + [i]);
            && (!BreaksAt(g, c.nodes, AnswersOf(g, clock, c), i) ==>
                r.Collecting? && Gathers(c, AnswersOf(g, clock, c), front + [i], r.all))
            && (BreaksAt(g, c.nodes, AnswersOf(g, clock, c), i) && i !in front && Ready(c.nodes, i) ==>
                && r.Aborted? && BreaksWith(g, c.nodes[i].stepType, AnswersOf(g, clock, c)[i], r.error)
                && BrokenNodes(c.nodes, AnswersOf(g, clock, c), front, i, r.nodes))
  {
    var w := Waves.Fresh(c.nodes, ReadyWave(c.nodes));
    var before := Collect(g, clock(c.wave), c.state, w, front).all;
    CollectSplit(g, clock(c.wave), c.state, w, front, [i]);
    CollectOne(g, clock(c.wave), c.state, before, i);
    ArriveMeans(g, clock, c, front, before, i);
    if i !in front && Ready(c.nodes, i) { ArriveBreaks(g, clock, c, front, before, i); }
  }

  lemma CollectOne(g: Graph, ticks: Ticks, state: State, w: Gathered, i: nat)
    requires i < |w.nodes|
    ensures Collect(g, ticks, state, w, [i]) == Arrive(g, ticks, state, w, i)
  {
    assert [i][1..] == [];
  }

  /** A task ends the run: the first in the order that does, with the tasks before it joined. */
  ghost predicate BrokenWave(g: Graph, c: Cfg, answers: seq<NodeResult>, order: seq<nat>, r: WaveResult) {
    && r.Stop? && r.result.Err? && r.saved.None?
    && exists k :: BrokenBy(g, c, answers, order, k, r.result.error, r.nodes)
  }

  ghost predicate BrokenBy(g: Graph, c: Cfg, answers: seq<NodeResult>, order: seq<nat>, k: nat, e: Error,
                           nodes: Nodes) {
    && k < |order| && NoneBreaks(g, c.nodes, answers, order[..k]) && BreaksAt(g, c.nodes, answers, order[k])
    && BreaksWith(g, c.nodes[order[k]].stepType, answers[order[k]], e)
    && BrokenNodes(c.nodes, answers, order[..k], order[k], nodes)
  }

  /** Some task failed where failures are collected: all are reported, in the order they were
      joined, with those that succeeded. */
  ghost predicate FailedWave(c: Cfg, answers: seq<NodeResult>, order: seq<nat>, r: WaveResult) {
    && (exists x :: 0 <= x < |order| && order[x] in Failures(answers))
    && r.Stop? && r.saved.None? && JoinedNodes(c.nodes, answers, order, r.nodes)
    && r.result.Err? && r.result.error.PartialWaveFailure?
    && Listed(c.nodes, order, Successes(answers), r.result.error.succeeded)
    && Listed(c.nodes, order, Failures(answers), r.result.error.failed)
  }

  predicate NoneFails(answers: seq<NodeResult>, order: seq<nat>) {
    forall x :: 0 <= x < |order| ==> order[x] !in Failures(answers)
  }

  function Numbers(n: nat): seq<nat> { seq(n, i => i) }

  function WithStatusIn(nodes: Nodes, statuses: set<NodeStatus>): set<nat> {
    set i | 0 <= i < |nodes| && nodes[i].status in statuses
  }

  /** Comma-separated, the nodes with one of these statuses in index order. */
  ghost predicate NamesAre(nodes: Nodes, statuses: set<NodeStatus>, text: Name) {
    exists names :: Listed(nodes, Numbers(|nodes|), WithStatusIn(nodes, statuses), names) && text == Joined(names)
  }

  /** Nobody failed and somebody yielded: a gate with the state from before the wave, the nodes
      as they are now and the request of the task that yielded last. */
  ghost predicate GatedWave(c: Cfg, answers: seq<NodeResult>, order: seq<nat>, r: WaveResult) {
    && NoneFails(answers, order) && !NoneYields(answers, order, 0)
    && r.Stop? && r.result == Ok(c.state) && JoinedNodes(c.nodes, answers, order, r.nodes)
    && r.saved.Some?
    && var gate := r.saved.value;
    && gate == Snapshot(c.state, gate.nextNode, Some(r.nodes), CheckpointStatus.Yielded, gate.yieldRequest, None, None)
    && gate.yieldRequest.Some? && LastYield(answers, order, gate.yieldRequest)
    && NamesAre(r.nodes, {NodeStatus.Yielded, NodeStatus.Pending}, gate.nextNode)
  }

  lemma {:induction false} NamesWithAre(nodes: Nodes, a: NodeStatus, b: NodeStatus, n: nat)
    requires n <= |nodes|
    ensures Listed(nodes, Numbers(n), WithStatusIn(nodes, {a, b}), NamesWith(nodes[..n], a, b))
    decreases n
  {
    var keep := WithStatusIn(nodes, {a, b});
    if n == 0 {
      assert ListedAt(nodes, Numbers(0), keep, NamesWith(nodes[..0], a, b), []);
    } else {
      NamesWithAre(nodes, a, b, n - 1);
      ListedMore(nodes, Numbers(n - 1), keep, NamesWith(nodes[..n - 1], a, b), n - 1);
      assert Numbers(n) == Numbers(n - 1) + [n - 1];
      NamesWithMore(nodes, a, b, n);
    }
  }

  lemma NamesWithMore(nodes: Nodes, a: NodeStatus, b: NodeStatus, n: nat)
    requires 0 < n <= |nodes|
    ensures NamesWith(nodes[..n], a, b) == NamesWith(nodes[..n - 1], a, b) +
              if n - 1 in WithStatusIn(nodes, {a, b}) then [nodes[n - 1].stepType] else []
  {
    assert nodes[..n][..n - 1] == nodes[..n - 1];
  }

  lemma NamesAreJoined(nodes: Nodes, a: NodeStatus, b: NodeStatus)
    ensures Listed(nodes, Numbers(|nodes|), WithStatusIn(nodes, {a, b}), NamesWith(nodes, a, b))
    ensures NamesAre(nodes, {a, b}, Joined(NamesWith(nodes, a, b)))
  {
    NamesWithAre(nodes, a, b, |nodes|);
    assert nodes[..|nodes|] == nodes;
  }

  /** What the recorded names are: one name as it is, and two lists with a comma in between. */
  lemma {:induction false} JoinedIs(a: seq<Name>, b: seq<Name>)
    requires a != [] && b != []
    ensures Joined([a[0]]) == a[0] && Joined(a + b) == Joined(a) + "," + Joined(b)
    decreases |a|
  {
    if |a| > 1 {
      assert (a + b)[1..] == a[1..] + b;
      JoinedIs(a[1..], b);
    } else {
      assert a == [a[0]] && (a + b)[1..] == b;
    }
  }

  /** The state is merged with the result of one ready node after the other, in index order. */
  ghost predicate MergedInOrder(g: Graph, c: Cfg, answers: seq<NodeResult>, ms: seq<State>) {
    var ready := ReadyWave(c.nodes);
    && |ms| == |ready| + 1 && ms[0] == c.state
    && forall k :: 0 <= k < |ready| ==> MergesTask(g, answers, ready, ms, k)
  }

  predicate MergesTask(g: Graph, answers: seq<NodeResult>, ready: seq<nat>, ms: seq<State>, k: nat) {
    && k < |ready| && k + 1 < |ms| && ready[k] < |answers| && answers[ready[k]].Success?
    && ms[k + 1] == g.merge(ms[k], answers[ready[k]].state)
  }

  function CostSum(answers: seq<NodeResult>, which: seq<nat>): real
    decreases |which|
  {
    if which == [] then 0.0
    else
      (if which[0] < |answers| && answers[which[0]].Success? then answers[which[0]].cost else 0.0) +
      CostSum(answers, which[1..])
  }

  /** The node a completed wave names next: the first that is pending, or the end. */
  predicate NextIs(nodes: Nodes, name: Name) {
    if exists i :: 0 <= i < |nodes| && nodes[i].status.Pending? then
      exists i :: 0 <= i < |nodes| && FirstPendingAt(nodes, i) && name == nodes[i].stepType
    else name == "__END__"
  }

  predicate FirstPendingAt(nodes: Nodes, i: nat) {
    i < |nodes| && nodes[i].status.Pending? && forall j :: 0 <= j < i ==> !nodes[j].status.Pending?
  }

  /** Every task succeeded: the results are merged and the costs added up; over budget nothing is
      recorded, otherwise the wave is, and the run goes on unless an interrupt follows it. */
  ghost predicate FullWave(g: Graph, c: Cfg, answers: seq<NodeResult>, r: WaveResult) {
    var cost := c.cost + CostSum(answers, ReadyWave(c.nodes));
    && JoinedNodes(c.nodes, answers, ReadyWave(c.nodes), NodesOf(r))
    && exists ms :: MergedInOrder(g, c, answers, ms) && FullEnds(g, c, ms[|ms| - 1], cost, r)
  }

  predicate FullEnds(g: Graph, c: Cfg, merged: State, cost: real, r: WaveResult) {
    var nodes := NodesOf(r);
    if g.budget.Some? && g.budget.value < cost then
      r == Stop(Err(BudgetExceeded(cost, g.budget.value)), nodes, None)
    else if exists i :: i in ReadyWave(c.nodes) && i < |c.nodes| && c.nodes[i].stepType in g.interruptAfter then
      r.Stop? && r.result == Ok(merged) && r.saved.Some? && WaveRecord(r.saved.value, merged, nodes)
    else
      r.Advance? && r.next == Cfg(nodes, merged, cost, c.wave + 1) && WaveRecord(r.save, merged, nodes)
  }

  predicate WaveRecord(save: Snapshot, merged: State, nodes: Nodes) {
    && save == Snapshot(merged, save.nextNode, Some(nodes), Complete, None, None, None)
    && NextIs(nodes, save.nextNode)
  }

  /** What a launched wave does. */
  ghost predicate WaveDid(g: Graph, c: Cfg, answers: seq<NodeResult>, order: seq<nat>, r: WaveResult) {
    if !NoneBreaks(g, c.nodes, answers, order) then BrokenWave(g, c, answers, order, r)
    else if !NoneFails(answers, order) then FailedWave(c, answers, order, r)
    else if !NoneYields(answers, order, 0) then GatedWave(c, answers, order, r)
    else FullWave(g, c, answers, r)
  }

  lemma ListedEmpty(nodes: Nodes, order: seq<nat>, keep: set<nat>, names: seq<Name>)
    requires Listed(nodes, order, keep, names)
    ensures names == [] <==> forall x :: 0 <= x < |order| ==> order[x] !in keep
  {
    var at: seq<nat> :| ListedAt(nodes, order, keep, names, at);
    forall x: nat ensures x in at <==> x < |order| && order[x] in keep { assert KeptAt(order, keep, at, x); }
    if names != [] { assert at[0] in at; }
  }

  lemma FirstBreak(g: Graph, nodes: Nodes, answers: seq<NodeResult>, order: seq<nat>) returns (k: nat)
    requires !NoneBreaks(g, nodes, answers, order)
    ensures k < |order| && BreaksAt(g, nodes, answers, order[k]) && NoneBreaks(g, nodes, answers, order[..k])
    ensures order[k] !in order[..k]
  {
    k := 0;
    while !BreaksAt(g, nodes, answers, order[k])
      invariant k < |order| && NoneBreaks(g, nodes, answers, order[..k])
      invariant exists x :: k <= x < |order| && BreaksAt(g, nodes, answers, order[x])
      decreases |order| - k
    {
      assert order[..k + 1] == order[..k] + [order[k]];
      k := k + 1;
    }
  }

  lemma BrokenMeans(g: Graph, clock: Clock, c: Cfg, order: seq<nat>)
    requires multiset(order) == multiset(ReadyWave(c.nodes)) && Indices(order, |c.nodes|)
    requires !NoneBreaks(g, c.nodes, AnswersOf(g, clock, c), order)
    ensures BrokenWave(g, c, AnswersOf(g, clock, c), order, Launched(g, clock, c, order))
  {
    var k := FirstBreak(g, c.nodes, AnswersOf(g, clock, c), order);
    OrderIsOfReady(c.nodes, order);
    assert order[k] in order;
    BrokenCollect(g, clock, c, order, k);
  }

  lemma BrokenCollect(g: Graph, clock: Clock, c: Cfg, order: seq<nat>, k: nat)
    requires Indices(order, |c.nodes|) && k < |order| && order[k] !in order[..k] && Ready(c.nodes, order[k])
    requires NoneBreaks(g, c.nodes, AnswersOf(g, clock, c), order[..k])
    requires BreaksAt(g, c.nodes, AnswersOf(g, clock, c), order[k])
    ensures var r := Collect(g, clock(c.wave), c.state, Waves.Fresh(c.nodes, ReadyWave(c.nodes)), order);
            r.Aborted? && BrokenBy(g, c, AnswersOf(g, clock, c), order, k, r.error, r.nodes)
  {
    var front, i := order[..k], order[k];
    CollectGathers(g, clock, c, front);
    JoinLast(g, clock, c, front, i);
    AbortStays(g, clock(c.wave), c.state, Waves.Fresh(c.nodes, ReadyWave(c.nodes)), order, k);
  }

  /** Once a task ended the run, the tasks after it do not matter. */
  lemma AbortStays(g: Graph, ticks: Ticks, state: State, w: Gathered, order: seq<nat>, k: nat)
    requires Indices(order, |w.nodes|) && k < |order|
    ensures Indices(order[..k] + [order[k]], |w.nodes|)
    ensures var r := Collect(g, ticks, state, w, order[..k] + [order[k]]);
            r.Aborted? ==> Collect(g, ticks, state, w, order) == r
  {
    assert order == (order[..k] + [order[k]]) + order[k + 1..];
    CollectSplit(g, ticks, state, w, order[..k] + [order[k]], order[k + 1..]);
  }

  lemma GatheredMeans(g: Graph, clock: Clock, c: Cfg, order: seq<nat>, w: Gathered)
    requires Indices(order, |c.nodes|) && Gathers(c, AnswersOf(g, clock, c), order, w)
    requires var answers := AnswersOf(g, clock, c); !NoneFails(answers, order) || !NoneYields(answers, order, 0)
    ensures var answers, r := AnswersOf(g, clock, c), AfterWave(g, c, ReadyWave(c.nodes), w);
            if !NoneFails(answers, order) then FailedWave(c, answers, order, r) else GatedWave(c, answers, order, r)
  {
    var answers := AnswersOf(g, clock, c);
    ListedEmpty(c.nodes, order, Failures(answers), w.failed);
    if w.failed == [] { NamesAreJoined(w.nodes, NodeStatus.Yielded, NodeStatus.Pending); }
  }

  lemma FullSucceeds(g: Graph, clock: Clock, c: Cfg, order: seq<nat>)
    requires multiset(order) == multiset(ReadyWave(c.nodes)) && Indices(order, |c.nodes|)
    requires var answers := AnswersOf(g, clock, c);
             NoneBreaks(g, c.nodes, answers, order) && NoneFails(answers, order) && NoneYields(answers, order, 0)
    ensures WaveSucceeds(g, clock(c.wave), c.nodes, c.state)
  {
    var answers, ready := AnswersOf(g, clock, c), ReadyWave(c.nodes);
    SameMembers(order, ready);
    ReadyBelowAre(c.nodes, |c.nodes|);
    forall x | 0 <= x < |ready|
      ensures ready[x] < |c.nodes| && Succeeds(g, clock(c.wave)(ready[x]), c.nodes[ready[x]].stepType, c.state)
    {
      assert ready[x] in order;
      var y: nat :| y < |order| && order[y] == ready[x];
      assert !BreaksAt(g, c.nodes, answers, order[y]) && order[y] !in Failures(answers);
      assert !YieldsAt(answers, order, y);
    }
  }

  lemma {:induction false} CostsAre(g: Graph, clock: Clock, c: Cfg, which: seq<nat>)
    ensures Costs(g, clock(c.wave), c.nodes, c.state, which) == CostSum(AnswersOf(g, clock, c), which)
    decreases |which|
  {
    if which != [] { CostsAre(g, clock, c, which[1..]); }
  }

  lemma NextIsFirstPending(nodes: Nodes)
    ensures NextIs(nodes, FirstPending(nodes))
  {
    var names := NamesWith(nodes, NodeStatus.Pending, NodeStatus.Pending);
    NamesAreJoined(nodes, NodeStatus.Pending, NodeStatus.Pending);
    var keep := WithStatusIn(nodes, {NodeStatus.Pending, NodeStatus.Pending});
    var order := Numbers(|nodes|);
    ListedEmpty(nodes, order, keep, names);
    var at: seq<nat> :| ListedAt(nodes, order, keep, names, at);
    if names == [] {
      forall i | 0 <= i < |nodes| ensures !nodes[i].status.Pending? { assert order[i] !in keep; }
    } else {
      assert NamedAt(nodes, order, names, at, 0) && KeptAt(order, keep, at, at[0]) && at[0] in at;
      forall j: nat | j < at[0] ensures !nodes[j].status.Pending? {
        LeastFirst(at, j);
        assert KeptAt(order, keep, at, j);
      }
      assert FirstPendingAt(nodes, at[0]);
    }
  }

  lemma LeastFirst(at: seq<nat>, j: nat)
    requires Increasing(at) && at != [] && j < at[0]
    ensures j !in at
  {
  }

  /** The states a merge of the ready nodes' results goes through. */
  lemma {:induction false} MergeChain(g: Graph, state: State, outs: seq<(nat, State)>, n: nat) returns (ms: seq<State>)
    requires n <= |outs|
    ensures |ms| == n + 1 && ms[0] == state && forall k :: 0 <= k < n ==> MergedAt(g, outs, ms, k)
    decreases n
  {
    if n == 0 {
      ms := [state];
    } else {
      var front := MergeChain(g, state, outs, n - 1);
      ms := front + [g.merge(front[n - 1], outs[n - 1].1)];
      forall k | 0 <= k < n - 1 ensures MergedAt(g, outs, ms, k) { assert MergedAt(g, outs, front, k); }
    }
  }

  lemma FullMerges(g: Graph, clock: Clock, c: Cfg) returns (ms: seq<State>)
    requires WaveSucceeds(g, clock(c.wave), c.nodes, c.state)
    ensures MergedInOrder(g, c, AnswersOf(g, clock, c), ms)
    ensures ms[|ms| - 1] == NextState(g, clock(c.wave), c.nodes, c.state)
  {
    var ready, answers := ReadyWave(c.nodes), AnswersOf(g, clock, c);
    var outs := Outs(g, clock(c.wave), c.nodes, c.state, ready);
    ms := MergeChain(g, c.state, outs, |outs|);
    MergeAllIs(g, c.state, outs, ms);
    forall k | 0 <= k < |ready| ensures MergesTask(g, answers, ready, ms, k) { assert MergedAt(g, outs, ms, k); }
  }

  lemma DoneNodes(g: Graph, clock: Clock, c: Cfg)
    requires WaveSucceeds(g, clock(c.wave), c.nodes, c.state)
    ensures JoinedNodes(c.nodes, AnswersOf(g, clock, c), ReadyWave(c.nodes), NextNodes(c.nodes))
  {
    var ready, answers := ReadyWave(c.nodes), AnswersOf(g, clock, c);
    ReadyBelowAre(c.nodes, |c.nodes|);
    forall i | i in ready ensures answers[i].Success? {
      var x :| 0 <= x < |ready| && ready[x] == i;
      assert Succeeds(g, clock(c.wave)(ready[x]), c.nodes[ready[x]].stepType, c.state);
    }
  }

  lemma SucceededEnds(g: Graph, clock: Clock, c: Cfg, merged: State, cost: real)
    requires merged == NextState(g, clock(c.wave), c.nodes, c.state) && cost == NextCost(g, clock, c)
    ensures FullEnds(g, c, merged, cost, Succeeded(g, clock, c))
    ensures NodesOf(Succeeded(g, clock, c)) == NextNodes(c.nodes)
  {
    NextIsFirstPending(NextNodes(c.nodes));
    MeetsIs(c.nodes, ReadyWave(c.nodes), g.interruptAfter);
  }

  lemma MeetsIs(nodes: Nodes, which: seq<nat>, names: set<Name>)
    ensures Meets(nodes, which, names) <==> exists i :: i in which && i < |nodes| && nodes[i].stepType in names
  {
    if i :| i in which && i < |nodes| && nodes[i].stepType in names {
      var x :| 0 <= x < |which| && which[x] == i;
    }
  }

  lemma FullMeans(g: Graph, clock: Clock, c: Cfg, order: seq<nat>)
    requires multiset(order) == multiset(ReadyWave(c.nodes)) && Indices(order, |c.nodes|)
    requires WaveSucceeds(g, clock(c.wave), c.nodes, c.state)
    ensures FullWave(g, c, AnswersOf(g, clock, c), Launched(g, clock, c, order))
  {
    Confluence(g, clock, c, order);
    SucceededMeans(g, clock, c);
  }

  lemma SucceededMeans(g: Graph, clock: Clock, c: Cfg)
    requires WaveSucceeds(g, clock(c.wave), c.nodes, c.state)
    ensures FullWave(g, c, AnswersOf(g, clock, c), Succeeded(g, clock, c))
  {
    CostsAre(g, clock, c, ReadyWave(c.nodes));
    DoneNodes(g, clock, c);
    var ms := FullMerges(g, clock, c);
    SucceededEnds(g, clock, c, ms[|ms| - 1], NextCost(g, clock, c));
    FullFrom(g, c, AnswersOf(g, clock, c), Succeeded(g, clock, c), ms, NextCost(g, clock, c));
  }

  lemma FullFrom(g: Graph, c: Cfg, answers: seq<NodeResult>, r: WaveResult, ms: seq<State>, cost: real)
    requires cost == c.cost + CostSum(answers, ReadyWave(c.nodes))
    requires JoinedNodes(c.nodes, answers, ReadyWave(c.nodes), NodesOf(r)) && MergedInOrder(g, c, answers, ms)
    requires FullEnds(g, c, ms[|ms| - 1], cost, r)
    ensures FullWave(g, c, answers, r)
  {
  }

  /** What a launched wave does, whatever its nodes answer and in whatever order they finish. */
  lemma WaveMeans(g: Graph, clock: Clock, c: Cfg, order: seq<nat>)
    requires multiset(order) == multiset(ReadyWave(c.nodes))
    ensures Indices(order, |c.nodes|)
    ensures WaveDid(g, c, AnswersOf(g, clock, c), order, Launched(g, clock, c, order))
  {
    OrderIsOfReady(c.nodes, order);
    var answers := AnswersOf(g, clock, c);
    if !NoneBreaks(g, c.nodes, answers, order) {
      BrokenMeans(g, clock, c, order);
    } else if NoneFails(answers, order) && NoneYields(answers, order, 0) {
      FullSucceeds(g, clock, c, order);
      FullMeans(g, clock, c, order);
    } else {
      CollectGathers(g, clock, c, order);
      var w := Collect(g, clock(c.wave), c.state, Waves.Fresh(c.nodes, ReadyWave(c.nodes)), order).all;
      GatheredMeans(g, clock, c, order, w);
    }
  }

  predicate Waiting(nodes: Nodes) { exists i :: 0 <= i < |nodes| && nodes[i].status.Pending? }

  predicate SomeReadyIn(nodes: Nodes, names: set<Name>) {
    exists i :: i in ReadyWave(nodes) && i < |nodes| && nodes[i].stepType in names
  }

  predicate UnknownAt(g: Graph, nodes: Nodes, x: nat) {
    var ready := ReadyWave(nodes);
    && x < |ready| && ready[x] < |nodes|
    && nodes[ready[x]].stepType !in g.regular && nodes[ready[x]].stepType !in g.dynamics
  }

  predicate FirstUnknownAt(g: Graph, nodes: Nodes, x: nat) {
    UnknownAt(g, nodes, x) && forall y: nat :: y < x ==> !UnknownAt(g, nodes, y)
  }

  /** Nothing is ready: the run is done, or deadlocked over the nodes that still wait. */
  ghost predicate NothingReadyDid(c: Cfg, r: WaveResult) {
    && r.Stop? && r.nodes == c.nodes && r.saved.None?
    && if Waiting(c.nodes) then
         r.result.Err? && r.result.error.DagDeadlock? &&
         Listed(c.nodes, Numbers(|c.nodes|), WithStatusIn(c.nodes, {NodeStatus.Pending}), r.result.error.pending)
       else r.result == Ok(c.state)
  }

  /** The run stops before a wave, whose names it records. */
  ghost predicate InterruptDid(c: Cfg, r: WaveResult) {
    && r.Stop? && r.nodes == c.nodes && r.result == Ok(c.state) && r.saved.Some?
    && r.saved.value == Snapshot(c.state, r.saved.value.nextNode, Some(c.nodes), Interrupted, None, None, None)
    && exists names ::
         Listed(c.nodes, ReadyWave(c.nodes), ReadyNodesOf(c.nodes), names) && r.saved.value.nextNode == Joined(names)
  }

  /** The first ready node that nobody registered ends the run. */
  ghost predicate UnknownDid(g: Graph, c: Cfg, r: WaveResult) {
    && r.Stop? && r.saved.None? && JoinedNodes(c.nodes, [], [], r.nodes)
    && r.result.Err? && r.result.error.NodeNotFound? && exists x :: UnknownIs(g, c.nodes, x, r.result.error.name)
  }

  predicate UnknownIs(g: Graph, nodes: Nodes, x: nat, name: Name) {
    FirstUnknownAt(g, nodes, x) && name == nodes[ReadyWave(nodes)[x]].stepType
  }

  /** One turn of the loop: it ends when nothing is ready, before a wave with an interrupt that
      is not the first, and at a node nobody registered; otherwise the wave is launched. */
  ghost predicate TurnDid(g: Graph, clock: Clock, c: Cfg, order: seq<nat>, r: WaveResult) {
    if ReadyWave(c.nodes) == [] then NothingReadyDid(c, r)
    else if c.wave > 0 && SomeReadyIn(c.nodes, g.interruptBefore) then InterruptDid(c, r)
    else if exists x :: UnknownAt(g, c.nodes, x) then UnknownDid(g, c, r)
    else exists answers :: WaveAnswers(g, clock, c, answers) && WaveDid(g, c, answers, order, r)
  }

  function ReadyNodesOf(nodes: Nodes): set<nat> { set i | 0 <= i < |nodes| && Ready(nodes, i) }

  lemma ReadyIndices(nodes: Nodes)
    ensures Indices(ReadyWave(nodes), |nodes|)
  {
    ReadyBelowAre(nodes, |nodes|);
    forall x | 0 <= x < |ReadyWave(nodes)| ensures ReadyWave(nodes)[x] < |nodes| {
      assert ReadyWave(nodes)[x] in ReadyWave(nodes);
    }
  }

  predicate UnknownFrom(g: Graph, nodes: Nodes, k: nat, x: nat) {
    k <= x && UnknownAt(g, nodes, x) && forall y: nat :: k <= y < x ==> !UnknownAt(g, nodes, y)
  }

  predicate FoundFrom(g: Graph, nodes: Nodes, k: nat, x: nat, name: Name) {
    UnknownFrom(g, nodes, k, x) && name == nodes[ReadyWave(nodes)[x]].stepType
  }

  /** The scan for an unregistered node finds the first. */
  lemma {:induction false} UnregisteredFrom(g: Graph, nodes: Nodes, k: nat)
    requires Indices(ReadyWave(nodes), |nodes|) && k <= |ReadyWave(nodes)|
    ensures var found := Unregistered(g, nodes, ReadyWave(nodes)[k..]);
            && (found.None? ==> forall x: nat :: k <= x ==> !UnknownAt(g, nodes, x))
            && (found.Some? ==> exists x :: FoundFrom(g, nodes, k, x, found.value))
    decreases |ReadyWave(nodes)| - k
  {
    var ready := ReadyWave(nodes);
    if k < |ready| {
      assert ready[k..][1..] == ready[k + 1..] && ready[k..][0] == ready[k];
      UnregisteredFrom(g, nodes, k + 1);
      var found := Unregistered(g, nodes, ready[k..]);
      if UnknownAt(g, nodes, k) {
        assert FoundFrom(g, nodes, k, k, found.value);
      } else if found.Some? {
        var x :| FoundFrom(g, nodes, k + 1, x, found.value);
        assert FoundFrom(g, nodes, k, x, found.value);
      }
    }
  }

  lemma {:induction false} StepTypesAre(nodes: Nodes, ready: seq<nat>, keep: set<nat>)
    requires Indices(ready, |nodes|) && forall i :: i in ready ==> i in keep
    ensures Listed(nodes, ready, keep, StepTypes(nodes, ready))
  {
    var at := Numbers(|ready|);
    forall x: nat ensures KeptAt(ready, keep, at, x) {
      if x < |ready| { assert at[x] == x && ready[x] in ready; }
    }
    assert ListedAt(nodes, ready, keep, StepTypes(nodes, ready), at);
  }

  lemma EarlyMeans(g: Graph, clock: Clock, c: Cfg, order: seq<nat>)
    requires Early(g, c).Some?
    ensures TurnDid(g, clock, c, order, Early(g, c).value)
  {
    MeetsIs(c.nodes, ReadyWave(c.nodes), g.interruptBefore);
    if ReadyWave(c.nodes) == [] {
      NothingReadyMeans(c.nodes);
    } else if c.wave > 0 && Meets(c.nodes, ReadyWave(c.nodes), g.interruptBefore) {
      InterruptMeans(c);
    } else {
      UnknownMeans(g, c.nodes);
    }
  }

  lemma InterruptMeans(c: Cfg)
    ensures Listed(c.nodes, ReadyWave(c.nodes), ReadyNodesOf(c.nodes), StepTypes(c.nodes, ReadyWave(c.nodes)))
  {
    ReadyIndices(c.nodes);
    ReadyBelowAre(c.nodes, |c.nodes|);
    StepTypesAre(c.nodes, ReadyWave(c.nodes), ReadyNodesOf(c.nodes));
  }

  lemma NothingReadyMeans(nodes: Nodes)
    ensures var names := NamesWith(nodes, NodeStatus.Pending, NodeStatus.Pending);
            && Listed(nodes, Numbers(|nodes|), WithStatusIn(nodes, {NodeStatus.Pending}), names)
            && (names != [] <==> Waiting(nodes))
  {
    var names := NamesWith(nodes, NodeStatus.Pending, NodeStatus.Pending);
    NamesAreJoined(nodes, NodeStatus.Pending, NodeStatus.Pending);
    assert {NodeStatus.Pending, NodeStatus.Pending} == {NodeStatus.Pending};
    var keep := WithStatusIn(nodes, {NodeStatus.Pending});
    ListedEmpty(nodes, Numbers(|nodes|), keep, names);
    forall i: nat | i < |nodes| ensures Numbers(|nodes|)[i] in keep <==> nodes[i].status.Pending? {}
    if i :| 0 <= i < |nodes| && nodes[i].status.Pending? { assert Numbers(|nodes|)[i] in keep; }
  }

  lemma UnknownMeans(g: Graph, nodes: Nodes)
    ensures var found := Unregistered(g, nodes, ReadyWave(nodes));
            && (found.None? <==> forall x :: !UnknownAt(g, nodes, x))
            && (found.Some? ==> exists x :: UnknownIs(g, nodes, x, found.value))
    ensures JoinedNodes(nodes, [], [], Marked(nodes, ReadyWave(nodes), NodeStatus.Running))
  {
    assert ReadyWave(nodes)[0..] == ReadyWave(nodes);
    ReadyIndices(nodes);
    UnregisteredFrom(g, nodes, 0);
    ReadyBelowAre(nodes, |nodes|);
    var found := Unregistered(g, nodes, ReadyWave(nodes));
    if found.Some? {
      var x :| FoundFrom(g, nodes, 0, x, found.value);
      assert UnknownIs(g, nodes, x, found.value);
    }
  }

  /** What one turn of the loop does, for every configuration and every order in which its tasks
      finish. */
  lemma TurnMeans(g: Graph, clock: Clock, c: Cfg, order: seq<nat>)
    requires multiset(order) == multiset(ReadyWave(c.nodes))
    ensures Indices(order, |c.nodes|)
    ensures TurnDid(g, clock, c, order, Wave(g, clock, c, order))
  {
    OrderIsOfReady(c.nodes, order);
    if Early(g, c).Some? {
      EarlyMeans(g, clock, c, order);
    } else {
      LaunchMeans(g, clock, c, order);
    }
  }

  lemma LaunchMeans(g: Graph, clock: Clock, c: Cfg, order: seq<nat>)
    requires multiset(order) == multiset(ReadyWave(c.nodes)) && Indices(order, |c.nodes|) && Early(g, c).None?
    ensures TurnDid(g, clock, c, order, Launched(g, clock, c, order))
  {
    MeetsIs(c.nodes, ReadyWave(c.nodes), g.interruptBefore);
    UnknownMeans(g, c.nodes);
    WaveMeans(g, clock, c, order);
    AnswersExactly(g, clock, c, AnswersOf(g, clock, c));
  }
}
