/** Wave confluence: whatever order the tasks of a succeeding wave finish in, the wave ends
    the same, with the results merged in index order. */
module WaveConfluence {
  import opened Types
  import opened Executor
  import opened Dags
  import opened Waves

  /** The task of this step type succeeds on `state`, within the node's own budget. */
  predicate Succeeds(g: Graph, tick: nat, stepType: Name, state: State) {
    var r := TaskResult(g, tick, stepType, state);
    r.Success? && !g.BreaksNodeBudget(stepType, r.cost)
  }

  predicate AllSucceed(g: Graph, ticks: Ticks, nodes: Nodes, state: State, which: seq<nat>) {
    forall x :: 0 <= x < |which| ==> which[x] < |nodes| && Succeeds(g, ticks(which[x]), nodes[which[x]].stepType, state)
  }

  function CostOf(g: Graph, ticks: Ticks, nodes: Nodes, state: State, i: nat): real {
    if i < |nodes| && TaskResult(g, ticks(i), nodes[i].stepType, state).Success?
    then TaskResult(g, ticks(i), nodes[i].stepType, state).cost else 0.0
  }

  function OutOf(g: Graph, ticks: Ticks, nodes: Nodes, state: State, i: nat): State {
    if i < |nodes| && TaskResult(g, ticks(i), nodes[i].stepType, state).Success?
    then TaskResult(g, ticks(i), nodes[i].stepType, state).state else state
  }

  /** The total cost of the listed nodes. */
  function Costs(g: Graph, ticks: Ticks, nodes: Nodes, state: State, which: seq<nat>): real
    decreases |which|
  {
    if which == [] then 0.0 else CostOf(g, ticks, nodes, state, which[0]) + Costs(g, ticks, nodes, state, which[1..])
  }

  /** The results of the listed nodes, in that order. */
  function Outs(g: Graph, ticks: Ticks, nodes: Nodes, state: State, which: seq<nat>): seq<(nat, State)> {
    seq(|which|, x requires 0 <= x < |which| => (which[x], OutOf(g, ticks, nodes, state, which[x])))
  }

  predicate SameTypes(a: Nodes, b: Nodes) {
    |a| == |b| && forall i :: 0 <= i < |a| ==> a[i].stepType == b[i].stepType
  }

  lemma ArriveSuccess(g: Graph, ticks: Ticks, state: State, nodes: Nodes, w: Gathered, i: nat)
    requires SameTypes(nodes, w.nodes) && i < |nodes| && Succeeds(g, ticks(i), nodes[i].stepType, state)
    ensures var r := Arrive(g, ticks, state, w, i);
            && r.Collecting? && SameTypes(nodes, r.all.nodes)
            && r.all.nodes == WithStatus(w.nodes, i, NodeStatus.Done)
            && r.all.states == w.states + [(i, OutOf(g, ticks, nodes, state, i))]
            && r.all.cost == w.cost + CostOf(g, ticks, nodes, state, i)
            && r.all.failed == w.failed && r.all.yielded == w.yielded
  {
  }

  lemma OneMoreMarked(before: Nodes, order: seq<nat>)
    requires order != [] && order[0] < |before|
    ensures Marked(WithStatus(before, order[0], NodeStatus.Done), order[1..], NodeStatus.Done) ==
            Marked(before, order, NodeStatus.Done)
  {
    assert order == [order[0]] + order[1..];
  }

  lemma OneMoreOut(g: Graph, ticks: Ticks, state: State, nodes: Nodes, order: seq<nat>)
    requires order != []
    ensures [(order[0], OutOf(g, ticks, nodes, state, order[0]))] + Outs(g, ticks, nodes, state, order[1..]) ==
            Outs(g, ticks, nodes, state, order)
  {
  }

  /** What collecting the succeeding tasks `order` adds to `w`. */
  predicate Adds(g: Graph, ticks: Ticks, state: State, nodes: Nodes, w: Gathered, order: seq<nat>, r: Collected) {
    && r.Collecting?
    && r.all.nodes == Marked(w.nodes, order, NodeStatus.Done)
    && r.all.states == w.states + Outs(g, ticks, nodes, state, order)
    && r.all.cost == w.cost + Costs(g, ticks, nodes, state, order)
    && r.all.failed == w.failed && r.all.yielded == w.yielded
  }

  lemma AddsOneMore(g: Graph, ticks: Ticks, state: State, nodes: Nodes, w: Gathered, next: Gathered, order: seq<nat>,
                    r: Collected)
    requires SameTypes(nodes, w.nodes) && Indices(order, |nodes|) && order != []
    requires next.nodes == WithStatus(w.nodes, order[0], NodeStatus.Done)
    requires next.states == w.states + [(order[0], OutOf(g, ticks, nodes, state, order[0]))]
    requires next.cost == w.cost + CostOf(g, ticks, nodes, state, order[0])
    requires next.failed == w.failed && next.yielded == w.yielded
    requires Adds(g, ticks, state, nodes, next, order[1..], r)
    ensures Adds(g, ticks, state, nodes, w, order, r)
  {
    OneMoreMarked(w.nodes, order);
    OneMoreOut(g, ticks, state, nodes, order);
    Regroup(w.states, [(order[0], OutOf(g, ticks, nodes, state, order[0]))], Outs(g, ticks, nodes, state, order[1..]));
  }

  lemma Regroup(a: seq<(nat, State)>, b: seq<(nat, State)>, c: seq<(nat, State)>)
    ensures a + b + c == a + (b + c)
  {
  }

  /** Collecting succeeding tasks in any order. */
  lemma {:induction false} CollectSuccesses(g: Graph, ticks: Ticks, state: State, nodes: Nodes, w: Gathered,
                                            order: seq<nat>)
    requires SameTypes(nodes, w.nodes) && Indices(order, |nodes|) && AllSucceed(g, ticks, nodes, state, order)
    ensures Adds(g, ticks, state, nodes, w, order, Collect(g, ticks, state, w, order))
    decreases |order|
  {
    if order == [] {
      assert Marked(w.nodes, order, NodeStatus.Done) == w.nodes;
    } else {
      ArriveSuccess(g, ticks, state, nodes, w, order[0]);
      var next := Arrive(g, ticks, state, w, order[0]).all;
      CollectSuccesses(g, ticks, state, nodes, next, order[1..]);
      AddsOneMore(g, ticks, state, nodes, w, next, order, Collect(g, ticks, state, next, order[1..]));
    }
  }

  lemma {:induction false} CostsSplit(g: Graph, ticks: Ticks, nodes: Nodes, state: State, a: seq<nat>, b: seq<nat>)
    ensures Costs(g, ticks, nodes, state, a + b) == Costs(g, ticks, nodes, state, a) + Costs(g, ticks, nodes, state, b)
    decreases |a|
  {
    if a == [] {
      assert a + b == b;
    } else {
      CostsSplit(g, ticks, nodes, state, a[1..], b);
      assert (a + b)[1..] == a[1..] + b;
    }
  }

  /** Where an element of one order stands in another order of the same tasks. */
  lemma Position(a: seq<nat>, b: seq<nat>) returns (k: nat)
    requires a != [] && multiset(a) == multiset(b)
    ensures k < |b| && b[k] == a[0] && multiset(a[1..]) == multiset(b[..k] + b[k + 1..])
    ensures b == b[..k] + [a[0]] + b[k + 1..]
  {
    assert a[0] in multiset(a);
    k :| 0 <= k < |b| && b[k] == a[0];
    assert b == b[..k] + [a[0]] + b[k + 1..];
    assert a == [a[0]] + a[1..];
    assert multiset(a) == multiset{a[0]} + multiset(a[1..]);
    assert multiset(b) == multiset{a[0]} + multiset(b[..k] + b[k + 1..]);
    assert multiset(a[1..]) == multiset(a) - multiset{a[0]};
    assert multiset(b[..k] + b[k + 1..]) == multiset(b) - multiset{a[0]};
  }

  lemma {:induction false} CostsAnyOrder(g: Graph, ticks: Ticks, nodes: Nodes, state: State, a: seq<nat>, b: seq<nat>)
    requires multiset(a) == multiset(b)
    ensures Costs(g, ticks, nodes, state, a) == Costs(g, ticks, nodes, state, b)
    decreases |a|
  {
    if a == [] {
      SameMembers(a, b);
    } else {
      var k := Position(a, b);
      CostsAnyOrder(g, ticks, nodes, state, a[1..], b[..k] + b[k + 1..]);
      CostsSplit(g, ticks, nodes, state, b[..k], b[k + 1..]);
      CostsSplit(g, ticks, nodes, state, b[..k], [a[0]] + b[k + 1..]);
      assert b[..k] + ([a[0]] + b[k + 1..]) == b;
      assert ([a[0]] + b[k + 1..])[1..] == b[k + 1..];
    }
  }

  /** Results in increasing index order. */
  predicate InOrder(s: seq<(nat, State)>) {
    forall x, y :: 0 <= x < y < |s| ==> s[x].0 < s[y].0
  }

  predicate NoIndex(s: seq<(nat, State)>, i: nat) {
    forall x :: 0 <= x < |s| ==> s[x].0 != i
  }

  /** Inserting a result keeps every result. */
  lemma {:induction false} InsertKeepsAll(x: (nat, State), s: seq<(nat, State)>)
    ensures multiset(Insert(x, s)) == multiset(s) + multiset{x}
    decreases |s|
  {
    if s != [] && x.0 > s[0].0 {
      InsertKeepsAll(x, s[1..]);
      assert s == [s[0]] + s[1..];
    } else {
      assert Insert(x, s) == [x] + s;
    }
  }

  lemma ElementOf(x: (nat, State), s: seq<(nat, State)>, k: nat)
    requires k < |Insert(x, s)|
    ensures Insert(x, s)[k] == x || Insert(x, s)[k] in s
  {
    InsertKeepsAll(x, s);
    assert Insert(x, s)[k] in multiset(Insert(x, s));
  }

  /** Inserting a result with a new index into results in order keeps the order. */
  lemma {:induction false} InsertKeepsOrder(x: (nat, State), s: seq<(nat, State)>)
    requires InOrder(s) && NoIndex(s, x.0)
    ensures InOrder(Insert(x, s))
    decreases |s|
  {
    if s != [] && x.0 > s[0].0 {
      InsertKeepsOrder(x, s[1..]);
      var t := Insert(x, s[1..]);
      forall k | 0 <= k < |t| ensures s[0].0 < t[k].0 {
        ElementOf(x, s[1..], k);
        if t[k] != x {
          var m :| 0 <= m < |s[1..]| && s[1..][m] == t[k];
          assert s[m + 1] == t[k];
        }
      }
    }
  }

  /** Sorting by index puts the results of distinct nodes in index order and loses none. */
  lemma {:induction false} ByIndexSorts(s: seq<(nat, State)>)
    requires forall x, y :: 0 <= x < y < |s| ==> s[x].0 != s[y].0
    ensures InOrder(ByIndex(s)) && multiset(ByIndex(s)) == multiset(s)
    decreases |s|
  {
    if s != [] {
      ByIndexSorts(s[1..]);
      HeadIsNew(s, ByIndex(s[1..]));
      InsertKeepsOrder(s[0], ByIndex(s[1..]));
      InsertKeepsAll(s[0], ByIndex(s[1..]));
      assert s == [s[0]] + s[1..];
    }
  }

  lemma HeadIsNew(s: seq<(nat, State)>, rest: seq<(nat, State)>)
    requires s != [] && forall x, y :: 0 <= x < y < |s| ==> s[x].0 != s[y].0
    requires multiset(rest) == multiset(s[1..])
    ensures NoIndex(rest, s[0].0)
  {
    forall x | 0 <= x < |rest| ensures rest[x].0 != s[0].0 {
      assert rest[x] in multiset(rest);
      assert rest[x] in s[1..];
      var y :| 0 <= y < |s[1..]| && s[1..][y] == rest[x];
      assert s[y + 1] == rest[x];
    }
  }

  lemma SmallestFirst(a: seq<(nat, State)>, b: seq<(nat, State)>)
    requires InOrder(a) && InOrder(b) && multiset(a) == multiset(b) && a != []
    ensures b != [] && a[0] == b[0]
  {
    assert a[0] in multiset(b) && |multiset(b)| > 0;
    assert b[0] in multiset(a);
    var k :| 0 <= k < |b| && b[k] == a[0];
    var m :| 0 <= m < |a| && a[m] == b[0];
  }

  lemma SameTails(a: seq<(nat, State)>, b: seq<(nat, State)>)
    requires multiset(a) == multiset(b) && a != [] && b != [] && a[0] == b[0]
    ensures multiset(a[1..]) == multiset(b[1..])
  {
    assert a == [a[0]] + a[1..] && b == [a[0]] + b[1..];
    assert multiset(a[1..]) == multiset(a) - multiset{a[0]};
    assert multiset(b[1..]) == multiset(b) - multiset{a[0]};
  }

  /** There is only one way to put results in index order. */
  lemma {:induction false} OrderIsUnique(a: seq<(nat, State)>, b: seq<(nat, State)>)
    requires InOrder(a) && InOrder(b) && multiset(a) == multiset(b)
    ensures a == b
    decreases |a|
  {
    assert |a| == |multiset(a)| == |multiset(b)| == |b|;
    if a != [] {
      SmallestFirst(a, b);
      SameTails(a, b);
      OrderIsUnique(a[1..], b[1..]);
      assert a == [a[0]] + a[1..] && b == [b[0]] + b[1..];
    }
  }

  lemma {:induction false} OutsAnyOrder(g: Graph, ticks: Ticks, nodes: Nodes, state: State, a: seq<nat>, b: seq<nat>)
    requires multiset(a) == multiset(b)
    ensures multiset(Outs(g, ticks, nodes, state, a)) == multiset(Outs(g, ticks, nodes, state, b))
    decreases |a|
  {
    if a == [] {
      SameMembers(a, b);
    } else {
      var k := Position(a, b);
      OutsAnyOrder(g, ticks, nodes, state, a[1..], b[..k] + b[k + 1..]);
      var x := (a[0], OutOf(g, ticks, nodes, state, a[0]));
      var oa, ob := Outs(g, ticks, nodes, state, a), Outs(g, ticks, nodes, state, b);
      assert oa == [x] + Outs(g, ticks, nodes, state, a[1..]);
      assert ob == ob[..k] + [x] + ob[k + 1..];
      assert Outs(g, ticks, nodes, state, b[..k] + b[k + 1..]) == ob[..k] + ob[k + 1..];
    }
  }

  /** Whatever order the results arrived in, sorting leaves them in the order of the wave. */
  lemma SortedOuts(g: Graph, ticks: Ticks, nodes: Nodes, state: State, order: seq<nat>, ready: seq<nat>)
    requires Increasing(ready) && multiset(order) == multiset(ready)
    ensures ByIndex(Outs(g, ticks, nodes, state, order)) == Outs(g, ticks, nodes, state, ready)
  {
    var outs, canonical := Outs(g, ticks, nodes, state, order), Outs(g, ticks, nodes, state, ready);
    OutsAnyOrder(g, ticks, nodes, state, order, ready);
    DistinctOrder(order, ready);
    ByIndexSorts(outs);
    OrderIsUnique(ByIndex(outs), canonical);
  }

  lemma Twice(s: seq<nat>, x: nat, y: nat)
    requires x < y < |s| && s[x] == s[y]
    ensures multiset(s)[s[x]] >= 2
  {
    assert s == s[..x] + [s[x]] + s[x + 1..y] + [s[y]] + s[y + 1..];
  }

  lemma DistinctOrder(order: seq<nat>, ready: seq<nat>)
    requires Increasing(ready) && multiset(order) == multiset(ready)
    ensures forall x, y :: 0 <= x < y < |order| ==> order[x] != order[y]
  {
    forall x, y | 0 <= x < y < |order| ensures order[x] != order[y] {
      OnceEach(ready, order[x]);
      if order[x] == order[y] { Twice(order, x, y); }
    }
  }

  lemma {:induction false} OnceEach(s: seq<nat>, v: nat)
    requires Increasing(s)
    ensures multiset(s)[v] <= 1
    decreases |s|
  {
    if s != [] {
      OnceEach(s[1..], v);
      assert s == [s[0]] + s[1..];
      if s[0] == v {
        assert forall x :: 0 <= x < |s[1..]| ==> s[1..][x] == s[x + 1] > v;
        assert v !in s[1..];
      }
    }
  }

  /** The nodes and state one succeeding wave leads to. */
  function NextNodes(nodes: Nodes): Nodes { Marked(nodes, ReadyWave(nodes), NodeStatus.Done) }

  function NextState(g: Graph, ticks: Ticks, nodes: Nodes, state: State): State {
    MergeAll(g, state, Outs(g, ticks, nodes, state, ReadyWave(nodes)))
  }

  function NextCost(g: Graph, clock: Clock, c: Cfg): real {
    c.cost + Costs(g, clock(c.wave), c.nodes, c.state, ReadyWave(c.nodes))
  }

  /** What a launched wave of succeeding tasks comes to. */
  function Succeeded(g: Graph, clock: Clock, c: Cfg): WaveResult {
    var ready := ReadyWave(c.nodes);
    var nodes, state, cost := NextNodes(c.nodes), NextState(g, clock(c.wave), c.nodes, c.state), NextCost(g, clock, c);
    var save := DagSave(state, FirstPending(nodes), nodes, Complete, None);
    if g.BreaksBudget(cost) then Stop(Err(BudgetExceeded(cost, g.budget.value)), nodes, None)
    else if Meets(c.nodes, ready, g.interruptAfter) then Stop(Ok(state), nodes, Some(save))
    else Advance(Cfg(nodes, state, cost, c.wave + 1), save)
  }

  predicate WaveSucceeds(g: Graph, ticks: Ticks, nodes: Nodes, state: State) {
    AllSucceed(g, ticks, nodes, state, ReadyWave(nodes))
  }

  /** Wave confluence. For every order in which the tasks of a succeeding wave finish, the
      statuses, the merged state, the exact cost, the saved record and the verdict of the
      budget are the same: the results of the pre-wave state, merged in increasing index. */
  lemma Confluence(g: Graph, clock: Clock, c: Cfg, order: seq<nat>)
    requires multiset(order) == multiset(ReadyWave(c.nodes)) && WaveSucceeds(g, clock(c.wave), c.nodes, c.state)
    ensures Indices(order, |c.nodes|)
    ensures Launched(g, clock, c, order) == Succeeded(g, clock, c)
  {
    var ready := ReadyWave(c.nodes);
    OrderIsOfReady(c.nodes, order);
    ReadyBelowAre(c.nodes, |c.nodes|);
    forall x | 0 <= x < |order| ensures Succeeds(g, clock(c.wave)(order[x]), c.nodes[order[x]].stepType, c.state) {
      assert order[x] in ready;
      var y :| 0 <= y < |ready| && ready[y] == order[x];
    }
    var w := Fresh(c.nodes, ready);
    CollectSuccesses(g, clock(c.wave), c.state, c.nodes, w, order);
    SortedOuts(g, clock(c.wave), c.nodes, c.state, order, ready);
    CostsAnyOrder(g, clock(c.wave), c.nodes, c.state, order, ready);
    MarkedTwice(c.nodes, ready, order);
    var all := Collect(g, clock(c.wave), c.state, w, order).all;
    assert all.states == Outs(g, clock(c.wave), c.nodes, c.state, order);
    SucceededAfter(g, clock, c, all);
  }

  lemma MarkedTwice(nodes: Nodes, ready: seq<nat>, order: seq<nat>)
    requires forall i :: i in order <==> i in ready
    ensures Marked(Marked(nodes, ready, NodeStatus.Running), order, NodeStatus.Done) ==
            Marked(nodes, ready, NodeStatus.Done)
  {
  }

  lemma SucceededAfter(g: Graph, clock: Clock, c: Cfg, w: Gathered)
    requires w.failed == [] && w.yielded.None? && w.nodes == NextNodes(c.nodes)
    requires MergeAll(g, c.state, ByIndex(w.states)) == NextState(g, clock(c.wave), c.nodes, c.state)
    requires c.cost + w.cost == NextCost(g, clock, c)
    ensures AfterWave(g, c, ReadyWave(c.nodes), w) == Succeeded(g, clock, c)
  {
  }

  /** Conversely, a wave that goes on had only succeeding tasks. */
  lemma {:induction false} CollectedSucceed(g: Graph, ticks: Ticks, state: State, nodes: Nodes, w: Gathered,
                                            order: seq<nat>)
    requires SameTypes(nodes, w.nodes) && Indices(order, |nodes|)
    requires Collect(g, ticks, state, w, order).Collecting?
    requires var all := Collect(g, ticks, state, w, order).all; all.failed == [] && all.yielded.None?
    ensures AllSucceed(g, ticks, nodes, state, order)
    ensures w.failed == [] && w.yielded.None?
    decreases |order|
  {
    if order != [] {
      var next := Arrive(g, ticks, state, w, order[0]).all;
      CollectedSucceed(g, ticks, state, nodes, next, order[1..]);
      forall x | 0 <= x < |order| ensures Succeeds(g, ticks(order[x]), nodes[order[x]].stepType, state) {
        if x > 0 { assert order[1..][x - 1] == order[x]; }
      }
    }
  }

  /** Collecting in two goes. */
  lemma {:induction false} CollectSplit(g: Graph, ticks: Ticks, state: State, w: Gathered, a: seq<nat>, b: seq<nat>)
    requires Indices(a + b, |w.nodes|)
    ensures Indices(a, |w.nodes|) && Indices(b, |w.nodes|)
    ensures var first := Collect(g, ticks, state, w, a);
            && (first.Collecting? ==> |first.all.nodes| == |w.nodes|)
            && Collect(g, ticks, state, w, a + b) ==
                if first.Aborted? then first else Collect(g, ticks, state, first.all, b)
    decreases |a|
  {
    forall x | 0 <= x < |a| ensures a[x] < |w.nodes| { assert (a + b)[x] == a[x]; }
    forall x | 0 <= x < |b| ensures b[x] < |w.nodes| { assert (a + b)[|a| + x] == b[x]; }
    if a == [] {
      assert a + b == b;
    } else {
      assert (a + b)[1..] == a[1..] + b;
      var r := Arrive(g, ticks, state, w, a[0]);
      if r.Collecting? { CollectSplit(g, ticks, state, r.all, a[1..], b); }
    }
  }

  /** A launched wave goes on, or stops at an interrupt after it, exactly when all its tasks
      succeed within the budgets; in every other case it writes no state of its own. */
  lemma CompletesExactly(g: Graph, clock: Clock, c: Cfg, order: seq<nat>)
    requires multiset(order) == multiset(ReadyWave(c.nodes))
    ensures Indices(order, |c.nodes|)
    ensures Completed(Launched(g, clock, c, order)) <==>
            WaveSucceeds(g, clock(c.wave), c.nodes, c.state) && !g.BreaksBudget(NextCost(g, clock, c))
  {
    OrderIsOfReady(c.nodes, order);
    if WaveSucceeds(g, clock(c.wave), c.nodes, c.state) {
      Confluence(g, clock, c, order);
    } else if Completed(Launched(g, clock, c, order)) {
      CompletedSucceeds(g, clock, c, order);
    }
  }

  predicate Completed(r: WaveResult) {
    r.Advance? || (r.saved.Some? && r.saved.value.status.Complete?)
  }

  lemma CompletedSucceeds(g: Graph, clock: Clock, c: Cfg, order: seq<nat>)
    requires multiset(order) == multiset(ReadyWave(c.nodes)) && Indices(order, |c.nodes|)
    requires Completed(Launched(g, clock, c, order))
    ensures WaveSucceeds(g, clock(c.wave), c.nodes, c.state)
  {
    var ready := ReadyWave(c.nodes);
    SameMembers(order, ready);
    CollectedSucceed(g, clock(c.wave), c.state, c.nodes, Fresh(c.nodes, ready), order);
    forall x | 0 <= x < |ready| ensures ready[x] < |c.nodes| &&
        Succeeds(g, clock(c.wave)(ready[x]), c.nodes[ready[x]].stepType, c.state) {
      assert ready[x] in order;
      var y :| 0 <= y < |order| && order[y] == ready[x];
    }
  }
}
