/** The dependency relation of a DAG's nodes: walks, cycles and bounds, and the DAG object
    whose statuses a run changes in place. */
module Dags {
  import opened Types

  type Nodes = seq<DagNode>

  /** Node `i` lists node `j`'s id among its dependencies. */
  predicate DependsOn(nodes: Nodes, i: nat, j: nat) {
    i < |nodes| && j < |nodes| && nodes[j].id in nodes[i].dependsOn
  }

  predicate DistinctIds(nodes: Nodes) {
    forall i, j :: 0 <= i < j < |nodes| ==> nodes[i].id != nodes[j].id
  }

  predicate Carried(nodes: Nodes, id: Id) {
    exists j :: 0 <= j < |nodes| && nodes[j].id == id
  }

  /** Every dependency is the id of some node. */
  predicate NoDangling(nodes: Nodes) {
    forall i, d :: 0 <= i < |nodes| && d in nodes[i].dependsOn ==> Carried(nodes, d)
  }

  /** A dependency chain: each node depends on the next. */
  predicate Walk(nodes: Nodes, p: seq<nat>)
    decreases |p|
  {
    && p != [] && p[0] < |nodes|
    && (|p| > 1 ==> DependsOn(nodes, p[0], p[1]) && Walk(nodes, p[1..]))
  }

  predicate Cycle(nodes: Nodes, p: seq<nat>) {
    Walk(nodes, p) && |p| >= 2 && p[0] == p[|p| - 1]
  }

  ghost predicate Acyclic(nodes: Nodes) {
    forall p :: !Cycle(nodes, p)
  }

  /** Every chain from node `i` has at most `k` nodes. */
  ghost predicate Within(nodes: Nodes, i: nat, k: nat) {
    forall p :: Walk(nodes, p) && p[0] == i ==> |p| <= k
  }

  lemma {:induction false} WalkRange(nodes: Nodes, p: seq<nat>, k: nat)
    requires Walk(nodes, p) && k < |p|
    ensures p[k] < |nodes|
    ensures Walk(nodes, p[k..])
    decreases k
  {
    if k > 0 {
      WalkRange(nodes, p[1..], k - 1);
      assert p[1..][k - 1..] == p[k..];
    } else {
      assert p[0..] == p;
    }
  }

  lemma {:induction false} WalkPrefix(nodes: Nodes, p: seq<nat>, k: nat)
    requires Walk(nodes, p) && 0 < k <= |p|
    ensures Walk(nodes, p[..k])
    decreases k
  {
    if k > 1 {
      WalkPrefix(nodes, p[1..], k - 1);
      assert p[..k][1..] == p[1..][..k - 1];
    }
  }

  lemma {:induction false} WalkJoin(nodes: Nodes, p: seq<nat>, q: seq<nat>)
    requires Walk(nodes, p) && Walk(nodes, q) && p[|p| - 1] == q[0]
    ensures Walk(nodes, p + q[1..])
    decreases |p|
  {
    if |p| == 1 {
      assert p + q[1..] == q;
    } else {
      WalkJoin(nodes, p[1..], q);
      assert (p + q[1..])[1..] == p[1..] + q[1..];
    }
  }

  /** Going round a cycle gives chains of any length. */
  lemma {:induction false} Pump(nodes: Nodes, p: seq<nat>, m: nat) returns (q: seq<nat>)
    requires Cycle(nodes, p)
    ensures Cycle(nodes, q) && q[0] == p[0] && |q| > m
  {
    if m == 0 {
      q := p;
    } else {
      var r := Pump(nodes, p, m - 1);
      WalkJoin(nodes, r, p);
      q := r + p[1..];
    }
  }

  lemma {:induction false} Pigeonhole(s: seq<nat>, n: nat) returns (i: nat, j: nat)
    requires |s| > n && forall k :: 0 <= k < |s| ==> s[k] < n
    ensures i < j < |s| && s[i] == s[j]
    decreases n
  {
    if k :| 0 <= k < |s| - 1 && s[k] == s[|s| - 1] {
      i, j := k, |s| - 1;
    } else {
      var last := s[|s| - 1];
      // Rename n-1 to `last` in the rest, which avoids `last`.
      var t := seq(|s| - 1, k requires 0 <= k < |s| - 1 => if s[k] == n - 1 then last else s[k]);
      i, j := Pigeonhole(t, n - 1);
    }
  }

  /** A chain with more nodes than there are goes round a cycle. */
  lemma LongWalkCycles(nodes: Nodes, p: seq<nat>)
    requires Walk(nodes, p) && |p| > |nodes|
    ensures !Acyclic(nodes)
  {
    forall k | 0 <= k < |p| ensures p[k] < |nodes| { WalkRange(nodes, p, k); }
    var i, j := Pigeonhole(p, |nodes|);
    WalkRange(nodes, p, i);
    WalkPrefix(nodes, p[i..], j - i + 1);
    assert Cycle(nodes, p[i..][..j - i + 1]);
  }

  /** A relation is acyclic exactly when no chain has more nodes than there are. */
  lemma AcyclicMeansBounded(nodes: Nodes)
    ensures Acyclic(nodes) <==> forall p :: Walk(nodes, p) ==> |p| <= |nodes|
  {
    if !Acyclic(nodes) {
      var p :| Cycle(nodes, p);
      var q := Pump(nodes, p, |nodes|);
    }
    forall p | Walk(nodes, p) && |p| > |nodes| ensures !Acyclic(nodes) {
      LongWalkCycles(nodes, p);
    }
  }

  lemma {:induction false} SubsetSize(a: set<nat>, b: set<nat>)
    requires a <= b
    ensures |a| <= |b|
  {
    if x :| x in a {
      SubsetSize(a - {x}, b - {x});
    }
  }

  predicate SameShape(a: Nodes, b: Nodes) {
    |a| == |b| && forall i :: 0 <= i < |a| ==> a[i] == b[i].(status := a[i].status)
  }

  /** The status a snapshot has for an id: a map from ids to statuses, built in node order,
      so of several nodes with one id the last counts. */
  function SavedStatus(saved: Nodes, id: Id): Option<NodeStatus>
    decreases |saved|
  {
    if saved == [] then None
    else if saved[|saved| - 1].id == id then Some(saved[|saved| - 1].status)
    else SavedStatus(saved[..|saved| - 1], id)
  }

  function Restored(nodes: Nodes, saved: Nodes): Nodes {
    seq(|nodes|, i requires 0 <= i < |nodes| =>
      var s := SavedStatus(saved, nodes[i].id);
      if s.Some? then nodes[i].(status := s.value) else nodes[i])
  }

  /** Nodes that share an id share a status. */
  predicate Agreeing(saved: Nodes) {
    forall i, j :: 0 <= i < j < |saved| && saved[i].id == saved[j].id ==> saved[i].status == saved[j].status
  }

  lemma {:induction false} SavedStatusOf(saved: Nodes, i: nat)
    requires Agreeing(saved) && i < |saved|
    ensures SavedStatus(saved, saved[i].id) == Some(saved[i].status)
    decreases |saved|
  {
    if i < |saved| - 1 && saved[|saved| - 1].id != saved[i].id {
      SavedStatusOf(saved[..|saved| - 1], i);
    }
  }

  /** Restoring a snapshot of the same DAG into a caller's copy gives back the snapshot,
      whatever statuses the copy has, exactly when nodes that share an id agree. */
  lemma RestoresExactly(nodes: Nodes, saved: Nodes)
    requires SameShape(nodes, saved)
    ensures Restored(nodes, saved) == saved <==> Agreeing(saved)
  {
    if Agreeing(saved) {
      forall i | 0 <= i < |nodes| ensures Restored(nodes, saved)[i] == saved[i] {
        SavedStatusOf(saved, i);
      }
    }
    if Restored(nodes, saved) == saved {
      forall i, j | 0 <= i < j < |saved| && saved[i].id == saved[j].id ensures saved[i].status == saved[j].status {
        assert Restored(nodes, saved)[i].status == saved[i].status &&
               Restored(nodes, saved)[j].status == saved[j].status;
        SavedStatusSome(saved, i);
      }
    }
  }

  lemma {:induction false} SavedStatusSome(saved: Nodes, i: nat)
    requires i < |saved|
    ensures SavedStatus(saved, saved[i].id).Some?
    decreases |saved|
  {
    if i < |saved| - 1 { SavedStatusSome(saved[..|saved| - 1], i); }
  }

  /** Two nodes with one id and different statuses both take the status of the later one. */
  lemma SharedIdsRestoreWrong(a: DagNode, b: DagNode)
    requires a.id == b.id && a.status != b.status
    ensures Restored([a, b], [a, b]) != [a, b]
  {
    assert SavedStatus([a, b], a.id) == Some(b.status);
    assert Restored([a, b], [a, b])[0] != a;
  }

  class Dag {
    var nodes: Nodes

    constructor (nodes: Nodes)
      ensures this.nodes == nodes
    {
      this.nodes := nodes;
    }

    method RestoreStatuses(saved: Nodes)
      modifies this
      ensures nodes == Restored(old(nodes), saved)
    {
      var statusMap: map<Id, NodeStatus> := map[];
      for i := 0 to |saved|
        invariant forall id :: id in statusMap <==> SavedStatus(saved[..i], id).Some?
        invariant forall id :: id in statusMap ==> SavedStatus(saved[..i], id) == Some(statusMap[id])
      {
        assert saved[..i + 1][..i] == saved[..i];
        statusMap := statusMap[saved[i].id := saved[i].status];
      }
      assert saved[..|saved|] == saved;
      ghost var before := nodes;
      for i := 0 to |nodes|
        invariant |nodes| == |before| && nodes[i..] == before[i..]
        invariant forall k :: 0 <= k < i ==> nodes[k] == Restored(before, saved)[k]
      {
        assert nodes[i] == nodes[i..][0] == before[i];
        if nodes[i].id in statusMap {
          nodes := nodes[i := nodes[i].(status := statusMap[nodes[i].id])];
        }
      }
    }
  }
}
