/** Cycle detection is exact: which inputs `build` accepts, for all inputs. */
module DagBuildExact {
  import opened Types
  import opened Dags
  import opened DagBuild

  /** The popped nodes that node `i` depends on. */
  function Hits(nodes: Nodes, i: nat, popped: set<nat>): set<nat> {
    set j | j in popped && DependsOn(nodes, i, j)
  }

  function Below(n: nat): (s: set<nat>)
    ensures forall j :: j in s <==> 0 <= j < n
    ensures |s| == n
  {
    if n == 0 then {} else Below(n - 1) + {n - 1}
  }

  function All(nodes: Nodes): set<nat> { Below(|nodes|) }

  /** Node `i` lists as many dependencies as there are nodes carrying one of the ids. */
  predicate Balanced(nodes: Nodes, i: nat)
    requires i < |nodes|
  {
    |nodes[i].dependsOn| == |Hits(nodes, i, All(nodes))|
  }

  predicate AllBalanced(nodes: Nodes) {
    forall i :: 0 <= i < |nodes| ==> Balanced(nodes, i)
  }

  predicate Lists(nodes: Nodes, j: nat, id: Id)
    requires j < |nodes|
  {
    id in nodes[j].dependsOn
  }

  ghost predicate NoRepeats(s: seq<nat>) {
    forall x, y :: 0 <= x < y < |s| ==> s[x] != s[y]
  }

  /** The nodes the inner loop queues from node `i` on, in order. */
  function Freed(nodes: Nodes, id: Id, inDegree: seq<nat>, i: nat): seq<nat>
    requires |inDegree| == |nodes|
    decreases |nodes| - i
  {
    if i >= |nodes| then []
    else (if Lists(nodes, i, id) && inDegree[i] == 1 then [i] else []) + Freed(nodes, id, inDegree, i + 1)
  }

  lemma {:induction false} FreedAre(nodes: Nodes, id: Id, inDegree: seq<nat>, i: nat)
    requires |inDegree| == |nodes|
    ensures forall j :: j in Freed(nodes, id, inDegree, i) <==>
            i <= j < |nodes| && Lists(nodes, j, id) && inDegree[j] == 1
    ensures NoRepeats(Freed(nodes, id, inDegree, i))
    decreases |nodes| - i
  {
    if i < |nodes| { FreedAre(nodes, id, inDegree, i + 1); }
  }

  lemma {:induction false} FreedLooksAhead(nodes: Nodes, id: Id, d: seq<nat>, e: seq<nat>, i: nat)
    requires |d| == |e| == |nodes| && i <= |nodes| && d[i..] == e[i..]
    ensures Freed(nodes, id, d, i) == Freed(nodes, id, e, i)
    decreases |nodes| - i
  {
    if i < |nodes| {
      assert d[i..][0] == e[i..][0];
      assert d[i + 1..] == d[i..][1..] && e[i + 1..] == e[i..][1..];
      FreedLooksAhead(nodes, id, d, e, i + 1);
    }
  }

  /** The in-degrees after the inner loop ran from node `i` on. */
  predicate LoweredFrom(nodes: Nodes, id: Id, before: seq<nat>, i: nat, after: seq<nat>) {
    && |before| == |after| == |nodes|
    && forall j {:trigger after[j]} :: 0 <= j < |nodes| ==>
         after[j] + (if i <= j && Lists(nodes, j, id) then 1 else 0) == before[j]
  }

  lemma {:induction false} RelaxLowers(nodes: Nodes, id: Id, k: Kahn, i: nat)
    requires |k.inDegree| == |nodes| && i <= |nodes|
    ensures var r := Relax(nodes, id, k, i);
            && (r.None? ==> exists j :: i <= j < |nodes| && Lists(nodes, j, id) && k.inDegree[j] == 0)
            && (r.Some? ==> LoweredFrom(nodes, id, k.inDegree, i, r.value.inDegree))
    decreases |nodes| - i
  {
    if i < |nodes| {
      if !Lists(nodes, i, id) {
        RelaxLowers(nodes, id, k, i + 1);
      } else if k.inDegree[i] > 0 {
        RelaxLowers(nodes, id, Lowered(k, i), i + 1);
      }
    }
  }

  lemma FreedStep(nodes: Nodes, id: Id, k: Kahn, i: nat)
    requires |k.inDegree| == |nodes| && i < |nodes| && Lists(nodes, i, id) && k.inDegree[i] > 0
    ensures Lowered(k, i).queue + Freed(nodes, id, k.inDegree, i + 1) == k.queue + Freed(nodes, id, k.inDegree, i)
    ensures Freed(nodes, id, Lowered(k, i).inDegree, i + 1) == Freed(nodes, id, k.inDegree, i + 1)
  {
    var tail := Freed(nodes, id, k.inDegree, i + 1);
    assert k.queue + ([i] + tail) == k.queue + [i] + tail;
    FreedLooksAhead(nodes, id, Lowered(k, i).inDegree, k.inDegree, i + 1);
  }

  lemma {:induction false} RelaxQueues(nodes: Nodes, id: Id, k: Kahn, i: nat)
    requires |k.inDegree| == |nodes| && i <= |nodes|
    ensures var r := Relax(nodes, id, k, i);
            r.Some? ==> r.value.queue == k.queue + Freed(nodes, id, k.inDegree, i)
    decreases |nodes| - i
  {
    if i < |nodes| {
      if !Lists(nodes, i, id) {
        RelaxQueues(nodes, id, k, i + 1);
      } else if k.inDegree[i] > 0 {
        RelaxQueues(nodes, id, Lowered(k, i), i + 1);
        FreedStep(nodes, id, k, i);
      }
    }
  }

  /** The inner loop fails on a node whose in-degree is used up; otherwise it takes one from
      every node that lists `id` and queues those that reach zero. */
  lemma RelaxDoes(nodes: Nodes, id: Id, k: Kahn, i: nat)
    requires |k.inDegree| == |nodes| && i <= |nodes|
    ensures var r := Relax(nodes, id, k, i);
            && (r.None? ==> exists j :: i <= j < |nodes| && Lists(nodes, j, id) && k.inDegree[j] == 0)
            && (r.Some? ==>
                && LoweredFrom(nodes, id, k.inDegree, i, r.value.inDegree)
                && r.value.queue == k.queue + Freed(nodes, id, k.inDegree, i))
  {
    RelaxLowers(nodes, id, k, i);
    RelaxQueues(nodes, id, k, i);
  }

  /** The state between two dequeues, `popped` being the nodes dequeued so far. */
  ghost predicate Inv(nodes: Nodes, k: Kahn, popped: set<nat>) {
    && |k.inDegree| == |nodes| && popped <= All(nodes)
    && InRange(k.queue, |nodes|) && NoRepeats(k.queue)
    && (forall q :: q in k.queue ==> q !in popped)
    && (forall i {:trigger k.inDegree[i]} :: 0 <= i < |nodes| ==>
          && k.inDegree[i] + |Hits(nodes, i, popped)| == |nodes[i].dependsOn|
          && (k.inDegree[i] == 0 <==> i in popped || i in k.queue))
  }

  lemma InitialInv(nodes: Nodes)
    ensures Inv(nodes, Initial(nodes), {})
  {
    RootsAre(nodes);
    forall i | 0 <= i < |nodes| ensures Hits(nodes, i, {}) == {} {}
  }

  lemma {:induction false} RootsAre(nodes: Nodes)
    ensures NoRepeats(Roots(nodes))
    ensures forall i :: i in Roots(nodes) <==> 0 <= i < |nodes| && nodes[i].dependsOn == []
    decreases |nodes|
  {
    if nodes != [] { RootsAre(nodes[..|nodes| - 1]); }
  }

  lemma HitsGrow(nodes: Nodes, i: nat, popped: set<nat>, idx: nat)
    requires idx !in popped && idx < |nodes| && i < |nodes|
    ensures |Hits(nodes, i, popped + {idx})| ==
            |Hits(nodes, i, popped)| + (if Lists(nodes, i, nodes[idx].id) then 1 else 0)
  {
    if Lists(nodes, i, nodes[idx].id) {
      assert Hits(nodes, i, popped + {idx}) == Hits(nodes, i, popped) + {idx};
    } else {
      assert Hits(nodes, i, popped + {idx}) == Hits(nodes, i, popped);
    }
  }

  /** The queue after a dequeue holds no node twice and no dequeued node. */
  lemma QueueStaysFresh(queue: seq<nat>, freed: seq<nat>, popped: set<nat>, n: nat)
    requires queue != [] && NoRepeats(queue) && NoRepeats(freed)
    requires InRange(queue, n) && forall x :: 0 <= x < |queue| ==> queue[x] !in popped
    requires forall q :: q in freed ==> q < n && q !in popped && q !in queue
    ensures InRange(queue[1..] + freed, n) && NoRepeats(queue[1..] + freed)
    ensures forall q :: q in queue[1..] + freed ==> q !in popped + {queue[0]}
  {
    var waiting := queue[1..];
    var both := waiting + freed;
    forall x, y | 0 <= x < y < |both| ensures both[x] != both[y] {
      if y < |waiting| {
        assert queue[x + 1] != queue[y + 1];
      } else if x < |waiting| {
        assert both[x] == queue[x + 1] && both[y] in freed;
      }
    }
    forall x | 0 <= x < |both| ensures both[x] < n && both[x] !in popped + {queue[0]} {
      if x < |waiting| {
        assert both[x] == queue[x + 1];
      } else {
        assert both[x] in freed;
      }
    }
  }

  /** One dequeue without underflow keeps the state consistent, and no node whose in-degree
      was used up depends on the dequeued one. */
  lemma DequeueKeepsInv(nodes: Nodes, k: Kahn, popped: set<nat>, r: Kahn)
    requires Inv(nodes, k, popped) && k.queue != []
    requires Relax(nodes, nodes[k.queue[0]].id, k.(queue := k.queue[1..]), 0) == Some(r)
    ensures Inv(nodes, r, popped + {k.queue[0]})
    ensures forall i :: 0 <= i < |nodes| && k.inDegree[i] == 0 ==>
            r.inDegree[i] == 0 && !DependsOn(nodes, i, k.queue[0])
  {
    RelaxDoes(nodes, nodes[k.queue[0]].id, k.(queue := k.queue[1..]), 0);
    DequeueQueue(nodes, k, popped, r.queue);
    forall i | 0 <= i < |nodes| ensures DegreeAfter(nodes, k, popped, r, i) {
      DegreeKeeps(nodes, k, popped, r, i);
    }
    InvAfter(nodes, k, popped, r);
  }

  lemma InvAfter(nodes: Nodes, k: Kahn, popped: set<nat>, r: Kahn)
    requires Inv(nodes, k, popped) && k.queue != [] && |r.inDegree| == |nodes|
    requires InRange(r.queue, |nodes|) && NoRepeats(r.queue)
    requires forall q :: q in r.queue ==> q !in popped + {k.queue[0]}
    requires forall i :: 0 <= i < |nodes| ==> DegreeAfter(nodes, k, popped, r, i)
    ensures Inv(nodes, r, popped + {k.queue[0]})
  {
    forall i | 0 <= i < |nodes|
      ensures r.inDegree[i] + |Hits(nodes, i, popped + {k.queue[0]})| == |nodes[i].dependsOn|
      ensures r.inDegree[i] == 0 <==> i in popped + {k.queue[0]} || i in r.queue
    {
      assert DegreeAfter(nodes, k, popped, r, i);
    }
  }

  lemma DequeueQueue(nodes: Nodes, k: Kahn, popped: set<nat>, after: seq<nat>)
    requires Inv(nodes, k, popped) && k.queue != []
    requires after == k.queue[1..] + Freed(nodes, nodes[k.queue[0]].id, k.inDegree, 0)
    ensures InRange(after, |nodes|) && NoRepeats(after)
    ensures forall q :: q in after ==> q !in popped + {k.queue[0]}
  {
    var freed := Freed(nodes, nodes[k.queue[0]].id, k.inDegree, 0);
    FreedAre(nodes, nodes[k.queue[0]].id, k.inDegree, 0);
    forall q | q in freed ensures q < |nodes| && q !in popped && q !in k.queue {
      assert k.inDegree[q] == 1;
    }
    forall x | 0 <= x < |k.queue| ensures k.queue[x] !in popped { assert k.queue[x] in k.queue; }
    QueueStaysFresh(k.queue, freed, popped, |nodes|);
  }

  predicate DegreeAfter(nodes: Nodes, k: Kahn, popped: set<nat>, r: Kahn, i: nat)
    requires i < |nodes| == |k.inDegree| == |r.inDegree| && k.queue != []
  {
    && r.inDegree[i] + |Hits(nodes, i, popped + {k.queue[0]})| == |nodes[i].dependsOn|
    && (r.inDegree[i] == 0 <==> i in popped + {k.queue[0]} || i in r.queue)
    && (k.inDegree[i] == 0 ==> r.inDegree[i] == 0 && !DependsOn(nodes, i, k.queue[0]))
  }

  lemma DegreeKeeps(nodes: Nodes, k: Kahn, popped: set<nat>, r: Kahn, i: nat)
    requires Inv(nodes, k, popped) && k.queue != [] && i < |nodes| && |r.inDegree| == |nodes|
    requires LoweredFrom(nodes, nodes[k.queue[0]].id, k.inDegree, 0, r.inDegree)
    requires r.queue == k.queue[1..] + Freed(nodes, nodes[k.queue[0]].id, k.inDegree, 0)
    ensures DegreeAfter(nodes, k, popped, r, i)
  {
    var idx := k.queue[0];
    assert k.inDegree[i] + |Hits(nodes, i, popped)| == |nodes[i].dependsOn|;
    assert r.inDegree[i] + (if Lists(nodes, i, nodes[idx].id) then 1 else 0) == k.inDegree[i];
    HitsGrow(nodes, i, popped, idx);
    FreedAre(nodes, nodes[idx].id, k.inDegree, 0);
    assert k.queue == [idx] + k.queue[1..];
  }

  /** The nodes of `final` are exactly those all of whose dependencies were counted off. */
  ghost predicate CountedOff(nodes: Nodes, final: set<nat>) {
    forall i :: 0 <= i < |nodes| ==> (i in final <==> |Hits(nodes, i, final)| == |nodes[i].dependsOn|)
  }

  /** Where the outer loop ends: the dequeued nodes are exactly those all of whose
      dependencies were counted off, and none of them was counted off too early. */
  lemma {:induction false} DrainEnds(nodes: Nodes, k: Kahn, popped: set<nat>) returns (final: set<nat>)
    requires Inv(nodes, k, popped) && Drain(nodes, k).Some?
    ensures popped <= final <= All(nodes) && |final| == |popped| + Drain(nodes, k).value
    ensures CountedOff(nodes, final)
    ensures forall i, j :: 0 <= i < |nodes| && k.inDegree[i] == 0 && j in final && j !in popped ==>
            !DependsOn(nodes, i, j)
    decreases Sum(k.inDegree) + |k.queue|
  {
    if k.queue == [] {
      final := popped;
      forall i | 0 <= i < |nodes| ensures i in final <==> |Hits(nodes, i, final)| == |nodes[i].dependsOn| {
        assert k.inDegree[i] + |Hits(nodes, i, popped)| == |nodes[i].dependsOn|;
      }
    } else {
      var r := Relax(nodes, nodes[k.queue[0]].id, k.(queue := k.queue[1..]), 0).value;
      DequeueKeepsInv(nodes, k, popped, r);
      final := DrainEnds(nodes, r, popped + {k.queue[0]});
    }
  }

  lemma FullSubset(s: set<nat>, n: nat)
    requires s <= Below(n) && |s| == n
    ensures s == Below(n)
  {
    if x :| x in Below(n) && x !in s {
      assert s <= Below(n) - {x};
      SubsetSize(s, Below(n) - {x});
    }
  }

  /** The nodes with chains of at most `k` nodes. */
  ghost function Shallow(nodes: Nodes, k: nat): iset<nat> { iset i: nat | Within(nodes, i, k) }

  ghost predicate AllWithin(nodes: Nodes, s: set<nat>, k: nat) {
    forall i :: i in s ==> i in Shallow(nodes, k)
  }

  lemma NextWithin(nodes: Nodes, popped: set<nat>, idx: nat, n: nat)
    requires AllWithin(nodes, popped, n)
    requires forall j :: DependsOn(nodes, idx, j) ==> j in popped
    ensures AllWithin(nodes, popped + {idx}, n + 1)
  {
    forall p | Walk(nodes, p) && p[0] == idx ensures |p| <= n + 1 {
      if |p| > 1 {
        assert Walk(nodes, p[1..]) && p[1..][0] == p[1];
      }
    }
  }

  /** If every node is dequeued, whatever a freed node depends on was dequeued before. */
  lemma FreedDependsOnPopped(nodes: Nodes, k: Kahn, popped: set<nat>, idx: nat)
    requires Inv(nodes, k, popped) && Drain(nodes, k) == Some(|nodes| - |popped|)
    requires idx < |nodes| && k.inDegree[idx] == 0
    ensures forall j :: DependsOn(nodes, idx, j) ==> j in popped
  {
    var final := DrainEnds(nodes, k, popped);
    FullSubset(final, |nodes|);
  }

  /** Every node gets dequeued, and chains from the first `n` are no longer than `n`. */
  ghost predicate Accepting(nodes: Nodes, k: Kahn, popped: set<nat>, n: nat) {
    Inv(nodes, k, popped) && n == |popped| && Drain(nodes, k) == Some(|nodes| - n) && AllWithin(nodes, popped, n)
  }

  /** If every node is dequeued, the order of dequeuing bounds every dependency chain. */
  lemma {:induction false} AcceptedIsBounded(nodes: Nodes, k: Kahn, popped: set<nat>, n: nat)
    requires Accepting(nodes, k, popped, n)
    ensures AllWithin(nodes, All(nodes), |nodes|)
    decreases Sum(k.inDegree) + |k.queue|
  {
    if k.queue == [] {
      AllDequeued(nodes, k, popped, n);
    } else {
      var r, longer := AcceptedStep(nodes, k, popped, n);
      AcceptedIsBounded(nodes, r, longer, n + 1);
    }
  }

  lemma AcceptedStep(nodes: Nodes, k: Kahn, popped: set<nat>, n: nat) returns (r: Kahn, longer: set<nat>)
    requires Accepting(nodes, k, popped, n) && k.queue != []
    ensures Accepting(nodes, r, longer, n + 1)
    ensures Sum(r.inDegree) + |r.queue| < Sum(k.inDegree) + |k.queue|
  {
    longer := popped + {k.queue[0]};
    r := DequeueAccepted(nodes, k, popped, n, longer);
    NextIsBounded(nodes, k, popped, n, longer);
  }

  lemma AllDequeued(nodes: Nodes, k: Kahn, popped: set<nat>, n: nat)
    requires Accepting(nodes, k, popped, n) && k.queue == []
    ensures AllWithin(nodes, All(nodes), |nodes|)
  {
    FullSubset(popped, |nodes|);
  }

  lemma NextIsBounded(nodes: Nodes, k: Kahn, popped: set<nat>, n: nat, longer: set<nat>)
    requires Accepting(nodes, k, popped, n) && k.queue != [] && longer == popped + {k.queue[0]}
    ensures AllWithin(nodes, longer, n + 1)
  {
    var idx := k.queue[0];
    assert idx in k.queue;
    assert k.inDegree[idx] == 0;
    FreedDependsOnPopped(nodes, k, popped, idx);
    NextWithin(nodes, popped, idx, n);
  }

  lemma DequeueAccepted(nodes: Nodes, k: Kahn, popped: set<nat>, n: nat, longer: set<nat>) returns (r: Kahn)
    requires Inv(nodes, k, popped) && k.queue != [] && n == |popped| && Drain(nodes, k) == Some(|nodes| - n)
    requires longer == popped + {k.queue[0]}
    ensures Inv(nodes, r, longer) && |longer| == n + 1
    ensures Drain(nodes, r) == Some(|nodes| - (n + 1))
    ensures Sum(r.inDegree) + |r.queue| < Sum(k.inDegree) + |k.queue|
  {
    r := Relax(nodes, nodes[k.queue[0]].id, k.(queue := k.queue[1..]), 0).value;
    DequeueKeepsInv(nodes, k, popped, r);
    assert k.queue[0] in k.queue;
  }

  /** Balanced nodes are never counted off too often. */
  lemma {:induction false} BalancedDrains(nodes: Nodes, k: Kahn, popped: set<nat>)
    requires Inv(nodes, k, popped) && AllBalanced(nodes)
    ensures Drain(nodes, k).Some?
    decreases Sum(k.inDegree) + |k.queue|
  {
    if k.queue != [] {
      var idx := k.queue[0];
      var id := nodes[idx].id;
      var k' := k.(queue := k.queue[1..]);
      RelaxDoes(nodes, id, k', 0);
      forall j | 0 <= j < |nodes| && Lists(nodes, j, id) ensures k.inDegree[j] > 0 {
        assert k.inDegree[j] + |Hits(nodes, j, popped)| == |nodes[j].dependsOn| && Balanced(nodes, j);
        HitsGrow(nodes, j, popped, idx);
        SubsetSize(Hits(nodes, j, popped + {idx}), Hits(nodes, j, All(nodes)));
      }
      var r := Relax(nodes, id, k', 0).value;
      DequeueKeepsInv(nodes, k, popped, r);
      BalancedDrains(nodes, r, popped + {idx});
    }
  }

  predicate WaitsOutside(nodes: Nodes, inside: set<nat>, x: nat) {
    exists y :: 0 <= y < |nodes| && y !in inside && DependsOn(nodes, x, y)
  }

  /** Outside a set that every outside node can be left from only to the outside, chains of
      any length exist. */
  lemma {:induction false} ChainOutside(nodes: Nodes, inside: set<nat>, i: nat, m: nat) returns (p: seq<nat>)
    requires i < |nodes| && i !in inside && m > 0
    requires forall x :: 0 <= x < |nodes| && x !in inside ==> WaitsOutside(nodes, inside, x)
    ensures Walk(nodes, p) && p[0] == i && |p| == m
    decreases m
  {
    if m == 1 {
      p := [i];
    } else {
      assert WaitsOutside(nodes, inside, i);
      var j: nat :| j < |nodes| && j !in inside && DependsOn(nodes, i, j);
      var q := ChainOutside(nodes, inside, j, m - 1);
      p := [i] + q;
      assert p[1..] == q;
    }
  }

  /** A node left over by a drained queue is behind another one. */
  lemma LeftOverWaits(nodes: Nodes, final: set<nat>, x: nat)
    requires x < |nodes| && Balanced(nodes, x) && final <= All(nodes)
    requires |Hits(nodes, x, final)| != |nodes[x].dependsOn|
    ensures WaitsOutside(nodes, final, x)
  {
    var all, some := Hits(nodes, x, All(nodes)), Hits(nodes, x, final);
    assert some <= all && some != all;
    var y :| y in all && y !in some;
  }

  lemma SomeoneLeft(final: set<nat>, n: nat) returns (i: nat)
    requires final <= Below(n) && |final| != n
    ensures i < n && i !in final
  {
    assert final != Below(n);
    i :| i in Below(n) && i !in final;
  }

  lemma LeftOverCycles(nodes: Nodes, final: set<nat>)
    requires final <= All(nodes) && |final| != |nodes| && AllBalanced(nodes)
    requires CountedOff(nodes, final)
    ensures !Acyclic(nodes)
  {
    forall x | 0 <= x < |nodes| && x !in final ensures WaitsOutside(nodes, final, x) {
      assert Balanced(nodes, x);
      LeftOverWaits(nodes, final, x);
    }
    var i := SomeoneLeft(final, |nodes|);
    var p := ChainOutside(nodes, final, i, |nodes| + 1);
    LongWalkCycles(nodes, p);
  }

  lemma FullDrainAccepts(nodes: Nodes, final: set<nat>)
    requires final == All(nodes)
    requires CountedOff(nodes, final)
    requires AllWithin(nodes, All(nodes), |nodes|)
    ensures AllBalanced(nodes) && Acyclic(nodes)
  {
    AcyclicMeansBounded(nodes);
    forall p | Walk(nodes, p) ensures |p| <= |nodes| {
      assert Within(nodes, p[0], |nodes|);
    }
  }

  lemma PassedIsSound(nodes: Nodes)
    requires Checked(nodes).Ok?
    ensures AllBalanced(nodes) && Acyclic(nodes)
  {
    InitialInv(nodes);
    AcceptedIsBounded(nodes, Initial(nodes), {}, 0);
    var final := FullDrain(nodes);
    FullDrainAccepts(nodes, final);
  }

  lemma FullDrain(nodes: Nodes) returns (final: set<nat>)
    requires Checked(nodes).Ok?
    ensures final == All(nodes) && CountedOff(nodes, final)
  {
    InitialInv(nodes);
    final := DrainEnds(nodes, Initial(nodes), {});
    FullSubset(final, |nodes|);
  }

  lemma WholeDrain(nodes: Nodes, k: Kahn) returns (final: set<nat>)
    requires Inv(nodes, k, {}) && Drain(nodes, k).Some?
    ensures final <= All(nodes) && CountedOff(nodes, final)
    ensures |final| == Drain(nodes, k).value
  {
    final := DrainEnds(nodes, k, {});
  }

  lemma SoundPasses(nodes: Nodes)
    requires AllBalanced(nodes) && Acyclic(nodes)
    ensures Checked(nodes).Ok?
  {
    InitialInv(nodes);
    BalancedDrains(nodes, Initial(nodes), {});
    var final := WholeDrain(nodes, Initial(nodes));
    if |final| != |nodes| {
      LeftOverCycles(nodes, final);
    }
  }

  /** A resolved DAG passes exactly when every node is balanced and there is no cycle. */
  lemma CheckedExactly(nodes: Nodes)
    ensures Checked(nodes).Ok? <==> AllBalanced(nodes) && Acyclic(nodes)
  {
    if Checked(nodes).Ok? {
      PassedIsSound(nodes);
    } else if AllBalanced(nodes) && Acyclic(nodes) {
      SoundPasses(nodes);
    }
  }

  /** Entry `i` names the step type of entry `j` among its dependencies. */
  predicate Needs(entries: seq<Entry>, i: nat, j: nat) {
    i < |entries| && j < |entries| && entries[j].stepType in entries[i].deps
  }

  predicate Chain(entries: seq<Entry>, p: seq<nat>)
    decreases |p|
  {
    && p != [] && p[0] < |entries|
    && (|p| > 1 ==> Needs(entries, p[0], p[1]) && Chain(entries, p[1..]))
  }

  ghost predicate NoCycle(entries: seq<Entry>) {
    forall p :: !(Chain(entries, p) && |p| >= 2 && p[0] == p[|p| - 1])
  }

  predicate Named(entries: seq<Entry>, dep: Name) {
    exists j :: 0 <= j < |entries| && entries[j].stepType == dep
  }

  predicate AllNamed(entries: seq<Entry>) {
    forall i, dep :: 0 <= i < |entries| && dep in entries[i].deps ==> Named(entries, dep)
  }

  /** Entry `i` lists as many dependencies as there are entries of the step types it names. */
  predicate Even(entries: seq<Entry>, i: nat)
    requires i < |entries|
  {
    |entries[i].deps| == |set j | 0 <= j < |entries| && Needs(entries, i, j)|
  }

  predicate AllEven(entries: seq<Entry>) {
    forall i :: 0 <= i < |entries| ==> Even(entries, i)
  }

  predicate AllAllowed(entries: seq<Entry>, allowed: Option<set<Name>>) {
    allowed.Some? ==> forall i :: 0 <= i < |entries| ==> entries[i].stepType in allowed.value
  }

  lemma {:induction false} OffendersAre(entries: seq<Entry>, allowed: set<Name>)
    ensures Offenders(entries, allowed) == [] <==> forall i :: 0 <= i < |entries| ==> entries[i].stepType in allowed
    decreases |entries|
  {
    if entries != [] {
      var k := |entries| - 1;
      OffendersAre(entries[..k], allowed);
      assert forall i :: 0 <= i < k ==> entries[..k][i] == entries[i];
    }
  }

  /** Fresh, different ids below `next`. */
  ghost predicate Issued(ids: map<Name, Id>, next: Id) {
    && (forall a :: a in ids ==> ids[a] < next)
    && (forall a, b :: a in ids && b in ids && ids[a] == ids[b] ==> a == b)
  }

  lemma {:induction false} NamesInjective(entries: seq<Entry>, firstId: Id)
    ensures Issued(Names(entries, firstId), firstId + |entries|)
    decreases |entries|
  {
    if entries != [] {
      NamesInjective(entries[..|entries| - 1], firstId);
    }
  }

  lemma {:induction false} NamesAre(entries: seq<Entry>, firstId: Id)
    ensures forall name :: name in Names(entries, firstId) <==> Named(entries, name)
    decreases |entries|
  {
    if entries != [] {
      var k := |entries| - 1;
      NamesAre(entries[..k], firstId);
      forall name ensures Named(entries, name) <==> Named(entries[..k], name) || entries[k].stepType == name {
        if Named(entries[..k], name) {
          var j :| 0 <= j < k && entries[..k][j].stepType == name;
          assert entries[j].stepType == name;
        }
      }
    }
  }

  lemma {:induction false} ResolveDepsAre(ids: map<Name, Id>, deps: seq<Name>)
    ensures var r := ResolveDeps(ids, deps);
            && (r.Ok? <==> forall d :: d in deps ==> d in ids)
            && (r.Ok? ==> |r.value| == |deps| && forall i :: 0 <= i < |deps| ==>
                deps[i] in ids && r.value[i] == ids[deps[i]])
    decreases |deps|
  {
    if deps != [] {
      ResolveDepsAre(ids, deps[..|deps| - 1]);
      assert deps == deps[..|deps| - 1] + [deps[|deps| - 1]];
    }
  }

  /** What a resolved node is. */
  predicate ResolvedAs(ids: map<Name, Id>, e: Entry, n: DagNode) {
    && e.stepType in ids && n.id == ids[e.stepType] && n.stepType == e.stepType && n.status.Pending?
    && |n.dependsOn| == |e.deps|
    && forall i :: 0 <= i < |e.deps| ==> e.deps[i] in ids && n.dependsOn[i] == ids[e.deps[i]]
  }

  lemma {:induction false} ResolveIs(ids: map<Name, Id>, entries: seq<Entry>)
    requires forall e :: e in entries ==> e.stepType in ids
    ensures var r := Resolve(ids, entries);
            && (r.Ok? <==> forall i, d :: 0 <= i < |entries| && d in entries[i].deps ==> d in ids)
            && (r.Ok? ==> |r.value| == |entries| && forall i :: 0 <= i < |entries| ==>
                ResolvedAs(ids, entries[i], r.value[i]))
    decreases |entries|
  {
    if entries != [] {
      var k := |entries| - 1;
      ResolveIs(ids, entries[..k]);
      ResolveDepsAre(ids, entries[k].deps);
      assert forall i :: 0 <= i < k ==> entries[..k][i] == entries[i];
    }
  }

  /** Resolution carries the dependency relation over from names to ids. */
  lemma SameRelation(entries: seq<Entry>, firstId: Id, nodes: Nodes, i: nat, j: nat)
    requires forall e :: e in entries ==> e.stepType in Names(entries, firstId)
    requires Resolve(Names(entries, firstId), entries) == Ok(nodes)
    ensures |nodes| == |entries| && (DependsOn(nodes, i, j) <==> Needs(entries, i, j))
  {
    var ids := Names(entries, firstId);
    NamesInjective(entries, firstId);
    assert Issued(ids, firstId + |entries|);
    ResolveIs(ids, entries);
    if i < |entries| && j < |entries| {
      assert ResolvedAs(ids, entries[i], nodes[i]) && ResolvedAs(ids, entries[j], nodes[j]);
      SameDependency(ids, entries[i], entries[j], nodes[i], nodes[j]);
    }
  }

  lemma SameDependency(ids: map<Name, Id>, e: Entry, f: Entry, m: DagNode, n: DagNode)
    requires ResolvedAs(ids, e, m) && ResolvedAs(ids, f, n)
    requires forall a, b :: a in ids && b in ids && ids[a] == ids[b] ==> a == b
    ensures n.id in m.dependsOn <==> f.stepType in e.deps
  {
    if k :| 0 <= k < |m.dependsOn| && m.dependsOn[k] == n.id {
      assert ids[e.deps[k]] == ids[f.stepType];
    }
    if k :| 0 <= k < |e.deps| && e.deps[k] == f.stepType {
      assert m.dependsOn[k] == n.id;
    }
  }

  lemma {:induction false} ChainIsWalk(entries: seq<Entry>, nodes: Nodes, p: seq<nat>)
    requires |nodes| == |entries| && forall i, j :: DependsOn(nodes, i, j) <==> Needs(entries, i, j)
    ensures Chain(entries, p) <==> Walk(nodes, p)
    decreases |p|
  {
    if |p| > 1 {
      ChainIsWalk(entries, nodes, p[1..]);
      assert DependsOn(nodes, p[0], p[1]) <==> Needs(entries, p[0], p[1]);
    }
  }

  /** What resolving the names gives, when every dependency is named: the entries' step types,
      dependencies carried over one for one, and the relation between entries unchanged. */
  ghost predicate Resolution(entries: seq<Entry>, nodes: Nodes) {
    && |nodes| == |entries|
    && (forall i, j :: DependsOn(nodes, i, j) <==> Needs(entries, i, j))
    && (forall i :: 0 <= i < |entries| ==> |nodes[i].dependsOn| == |entries[i].deps|)
  }

  lemma ResolvesExactly(entries: seq<Entry>, firstId: Id)
    ensures forall e :: e in entries ==> e.stepType in Names(entries, firstId)
    ensures var r := Resolve(Names(entries, firstId), entries);
            && (r.Ok? <==> AllNamed(entries))
            && (r.Ok? ==> Resolution(entries, r.value))
  {
    var ids := Names(entries, firstId);
    NamesCover(entries, firstId);
    NamesAre(entries, firstId);
    ResolveIs(ids, entries);
    if Resolve(ids, entries).Ok? {
      var nodes := Resolve(ids, entries).value;
      forall i: nat, j: nat ensures DependsOn(nodes, i, j) <==> Needs(entries, i, j) {
        SameRelation(entries, firstId, nodes, i, j);
      }
      forall i | 0 <= i < |entries| ensures |nodes[i].dependsOn| == |entries[i].deps| {
        assert ResolvedAs(ids, entries[i], nodes[i]);
      }
    }
  }

  /** Cycle detection is exact, for every list of entries: `build` accepts exactly when every
      step type is allowed, every dependency names an entry, every entry lists as many
      dependencies as there are entries of the types it names, and there is no cycle. */
  lemma BuildExactly(entries: seq<Entry>, allowed: Option<set<Name>>, firstId: Id)
    ensures Outcome(entries, allowed, firstId).Ok? <==>
            AllAllowed(entries, allowed) && AllNamed(entries) && AllEven(entries) && NoCycle(entries)
  {
    if allowed.Some? { OffendersAre(entries, allowed.value); }
    ResolvesExactly(entries, firstId);
    if AllNamed(entries) {
      var nodes := Resolve(Names(entries, firstId), entries).value;
      CheckedExactly(nodes);
      SameVerdict(entries, nodes);
      SameBalance(entries, nodes);
    }
  }

  /** Which error a rejected input gets: the allow-list first, then the names, then the
      drained queue; an underflow needs an entry whose dependencies and matching entries
      differ in number, and otherwise a rejection is a cycle. */
  lemma ErrorOrder(entries: seq<Entry>, allowed: Option<set<Name>>, firstId: Id)
    ensures var r := Outcome(entries, allowed, firstId);
            && (r.Err? && r.error.NotAllowed? <==> !AllAllowed(entries, allowed))
            && (r.Err? && r.error.DependencyNotFound? <==> AllAllowed(entries, allowed) && !AllNamed(entries))
            && (r.Err? && r.error.Underflow? ==> !AllEven(entries))
            && (AllAllowed(entries, allowed) && AllNamed(entries) && AllEven(entries) && !NoCycle(entries) ==>
                r == Err(CycleDetected))
  {
    BuildExactly(entries, allowed, firstId);
    if allowed.Some? { OffendersAre(entries, allowed.value); }
    ResolvesExactly(entries, firstId);
    if AllNamed(entries) {
      var nodes := Resolve(Names(entries, firstId), entries).value;
      SameBalance(entries, nodes);
      InitialInv(nodes);
      if AllEven(entries) { BalancedDrains(nodes, Initial(nodes), {}); }
    } else {
      UnnamedIsNotFound(Names(entries, firstId), entries);
    }
  }

  lemma {:induction false} UnnamedIsNotFound(ids: map<Name, Id>, entries: seq<Entry>)
    requires forall e :: e in entries ==> e.stepType in ids
    requires Resolve(ids, entries).Err?
    ensures Resolve(ids, entries).error.DependencyNotFound?
    decreases |entries|
  {
    var k := |entries| - 1;
    if Resolve(ids, entries[..k]).Err? { UnnamedIsNotFound(ids, entries[..k]); }
  }

  lemma SameVerdict(entries: seq<Entry>, nodes: Nodes)
    requires |nodes| == |entries| && forall i, j :: DependsOn(nodes, i, j) <==> Needs(entries, i, j)
    ensures Acyclic(nodes) <==> NoCycle(entries)
  {
    forall p ensures Chain(entries, p) <==> Walk(nodes, p) { ChainIsWalk(entries, nodes, p); }
    forall p ensures Cycle(nodes, p) <==> Chain(entries, p) && |p| >= 2 && p[0] == p[|p| - 1] {}
  }

  lemma SameBalance(entries: seq<Entry>, nodes: Nodes)
    requires Resolution(entries, nodes)
    ensures AllBalanced(nodes) <==> AllEven(entries)
  {
    forall i | 0 <= i < |entries| ensures Balanced(nodes, i) <==> Even(entries, i) {
      assert Hits(nodes, i, All(nodes)) == set j | 0 <= j < |entries| && Needs(entries, i, j);
    }
  }

  predicate DistinctTypes(entries: seq<Entry>) {
    forall i, j :: 0 <= i < j < |entries| ==> entries[i].stepType != entries[j].stepType
  }

  predicate NoDuplicates(names: seq<Name>) {
    forall i, j :: 0 <= i < j < |names| ==> names[i] != names[j]
  }

  function Elements(names: seq<Name>): set<Name> { set n | n in names }

  lemma {:induction false} ElementCount(names: seq<Name>)
    ensures |Elements(names)| <= |names|
    ensures |Elements(names)| == |names| <==> NoDuplicates(names)
    decreases |names|
  {
    if names != [] {
      var k := |names| - 1;
      var front := names[..k];
      ElementCount(front);
      assert names == front + [names[k]];
      assert Elements(names) == Elements(front) + {names[k]};
      if names[k] in front {
        var i :| 0 <= i < k && front[i] == names[k];
        assert names[i] == names[k];
      } else if NoDuplicates(front) {
        assert forall i :: 0 <= i < k ==> names[i] == front[i];
        forall i | 0 <= i < k ensures names[i] != names[k] { assert front[i] in front; }
      }
    }
  }

  lemma {:induction false} TypesCount(entries: seq<Entry>, js: set<nat>)
    requires DistinctTypes(entries) && forall j :: j in js ==> j < |entries|
    ensures |set j | j in js :: entries[j].stepType| == |js|
    decreases |js|
  {
    if j :| j in js {
      var rest := js - {j};
      TypesCount(entries, rest);
      var types := set i | i in rest :: entries[i].stepType;
      assert (set i | i in js :: entries[i].stepType) == types + {entries[j].stepType};
      forall i | i in rest ensures entries[i].stepType != entries[j].stepType {
        assert i < j || j < i;
      }
    }
  }

  /** With distinct step types, listing as many dependencies as there are matching entries
      means listing none twice. */
  lemma EvenMeansNoDuplicates(entries: seq<Entry>, i: nat)
    requires DistinctTypes(entries) && AllNamed(entries) && i < |entries|
    ensures Even(entries, i) <==> NoDuplicates(entries[i].deps)
  {
    var js := set j | 0 <= j < |entries| && Needs(entries, i, j);
    TypesCount(entries, js);
    var types := set j | j in js :: entries[j].stepType;
    forall d ensures d in types <==> d in Elements(entries[i].deps) {
      if d in entries[i].deps {
        assert Named(entries, d);
        var j :| 0 <= j < |entries| && entries[j].stepType == d;
        assert j in js;
      }
    }
    assert types == Elements(entries[i].deps);
    ElementCount(entries[i].deps);
  }

  /** For distinct step types: `build` accepts exactly when every step type is allowed, every
      dependency names an entry, no dependency is listed twice, and there is no cycle; with
      only the last of these missing the answer is the cycle, never an underflow. */
  lemma BuildExactlyForDistinctTypes(entries: seq<Entry>, allowed: Option<set<Name>>, firstId: Id)
    requires DistinctTypes(entries)
    ensures var r := Outcome(entries, allowed, firstId);
            var sound := AllAllowed(entries, allowed) && AllNamed(entries) &&
                         forall i :: 0 <= i < |entries| ==> NoDuplicates(entries[i].deps);
            && (r.Ok? <==> sound && NoCycle(entries))
            && (sound && !NoCycle(entries) ==> r == Err(CycleDetected))
  {
    BuildExactly(entries, allowed, firstId);
    ErrorOrder(entries, allowed, firstId);
    if AllNamed(entries) {
      forall i | 0 <= i < |entries| ensures Even(entries, i) <==> NoDuplicates(entries[i].deps) {
        EvenMeansNoDuplicates(entries, i);
      }
    }
  }

  /** An accepted DAG has its entries' step types in order, all pending, no dangling
      dependency and no cycle; ids are distinct exactly when the step types are. */
  lemma AcceptedDag(entries: seq<Entry>, allowed: Option<set<Name>>, firstId: Id)
    requires Outcome(entries, allowed, firstId).Ok?
    ensures var nodes := Outcome(entries, allowed, firstId).value;
            && |nodes| == |entries|
            && (forall i :: 0 <= i < |nodes| ==> nodes[i].stepType == entries[i].stepType && nodes[i].status.Pending?)
            && NoDangling(nodes) && Acyclic(nodes)
            && (DistinctIds(nodes) <==> DistinctTypes(entries))
  {
    var ids := Names(entries, firstId);
    NamesCover(entries, firstId);
    NamesAre(entries, firstId);
    NamesInjective(entries, firstId);
    assert Issued(ids, firstId + |entries|);
    ResolveIs(ids, entries);
    var nodes := Resolve(ids, entries).value;
    PassedIsSound(nodes);
    ResolvedShape(ids, entries, nodes);
  }

  lemma ResolvedShape(ids: map<Name, Id>, entries: seq<Entry>, nodes: Nodes)
    requires |nodes| == |entries| && forall i :: 0 <= i < |entries| ==> ResolvedAs(ids, entries[i], nodes[i])
    requires forall a, b :: a in ids && b in ids && ids[a] == ids[b] ==> a == b
    requires forall name :: name in ids ==> Named(entries, name)
    ensures NoDangling(nodes) && (DistinctIds(nodes) <==> DistinctTypes(entries))
  {
    forall i, d | 0 <= i < |nodes| && d in nodes[i].dependsOn ensures Carried(nodes, d) {
      assert ResolvedAs(ids, entries[i], nodes[i]);
      var k :| 0 <= k < |nodes[i].dependsOn| && nodes[i].dependsOn[k] == d;
      assert Named(entries, entries[i].deps[k]);
      var j :| 0 <= j < |entries| && entries[j].stepType == entries[i].deps[k];
      assert ResolvedAs(ids, entries[j], nodes[j]);
    }
    forall i, j | 0 <= i < j < |nodes| ensures nodes[i].id == nodes[j].id <==>
        entries[i].stepType == entries[j].stepType {
      assert ResolvedAs(ids, entries[i], nodes[i]) && ResolvedAs(ids, entries[j], nodes[j]);
    }
  }

  predicate TwoForOne(nodes: Nodes) {
    && |nodes| == 3 && nodes[0].dependsOn == [] && nodes[1].dependsOn == []
    && nodes[0].id == nodes[1].id && nodes[2].dependsOn == [nodes[0].id]
  }

  lemma TwoForOneStart(nodes: Nodes)
    requires TwoForOne(nodes)
    ensures Initial(nodes) == Kahn([0, 0, 1], [0, 1])
  {
    assert nodes[..2][..1] == nodes[..1] && nodes[..1][..0] == [];
    assert Roots(nodes[..1]) == [0];
    assert Roots(nodes[..2]) == [0, 1];
    assert Roots(nodes) == [0, 1];
  }

  lemma TwoForOneFirst(nodes: Nodes)
    requires TwoForOne(nodes)
    ensures Relax(nodes, nodes[0].id, Kahn([0, 0, 1], [1]), 0) == Some(Kahn([0, 0, 0], [1, 2]))
  {
    var w := Kahn([0, 0, 1], [1]);
    assert Lowered(w, 2) == Kahn([0, 0, 0], [1, 2]);
    assert Relax(nodes, nodes[0].id, w, 2) == Relax(nodes, nodes[0].id, Lowered(w, 2), 3);
    assert Relax(nodes, nodes[0].id, w, 0) == Relax(nodes, nodes[0].id, w, 1);
  }

  lemma TwoForOneSecond(nodes: Nodes)
    requires TwoForOne(nodes)
    ensures Relax(nodes, nodes[0].id, Kahn([0, 0, 0], [2]), 0) == None
  {
    var w := Kahn([0, 0, 0], [2]);
    assert Relax(nodes, nodes[0].id, w, 2) == None;
    assert Relax(nodes, nodes[0].id, w, 1) == Relax(nodes, nodes[0].id, w, 2);
  }

  /** Two nodes that share an id and one that lists it once: the second dequeue takes from an
      in-degree of zero. */
  lemma TwoForOneUnderflows(nodes: Nodes)
    requires TwoForOne(nodes)
    ensures Checked(nodes) == Err(Underflow)
  {
    TwoForOneStart(nodes);
    TwoForOneFirst(nodes);
    TwoForOneSecond(nodes);
    var k0, k1 := Kahn([0, 0, 1], [0, 1]), Kahn([0, 0, 0], [1, 2]);
    assert k0.queue[1..] == [1] && k1.queue[1..] == [2];
    DrainUnfolds(nodes, k1);
    DrainUnfolds(nodes, k0);
  }

  /** Two entries of one step type share an id, so whoever depends on it is counted off
      twice: an acyclic input whose dependencies all exist ends in an underflow. */
  lemma SharedTypeUnderflows()
    ensures var entries := [Entry("a", []), Entry("a", []), Entry("b", ["a"])];
            && AllNamed(entries) && NoCycle(entries)
            && Outcome(entries, None, 0) == Err(Underflow)
  {
    var entries := [Entry("a", []), Entry("a", []), Entry("b", ["a"])];
    assert entries[0].stepType == "a";
    forall p | Chain(entries, p) && |p| >= 2 ensures p[0] != p[|p| - 1] {
      assert p[0] == 2 && p[1] != 2;
      assert Chain(entries, p[1..]) && p[1..][0] == p[1];
      assert |p[1..]| == 1;
    }
    ResolvesExactly(entries, 0);
    var ids := Names(entries, 0);
    ResolveIs(ids, entries);
    var nodes := Resolve(ids, entries).value;
    assert ResolvedAs(ids, entries[0], nodes[0]) && ResolvedAs(ids, entries[1], nodes[1]) &&
           ResolvedAs(ids, entries[2], nodes[2]);
    assert nodes[2].dependsOn == [nodes[0].id];
    TwoForOneUnderflows(nodes);
  }
}
