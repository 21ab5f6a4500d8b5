/** `DAGBuilder::build`: name resolution and Kahn's cycle detection. */
module DagBuild {
  import opened Types
  import opened Dags

  datatype Entry = Entry(stepType: Name, deps: seq<Name>)

  /** `Underflow` is the arithmetic overflow of decrementing an in-degree of zero, a panic
      in a checked build. */
  datatype BuildError =
    | NotAllowed(offenders: seq<Name>)
    | DependencyNotFound(dep: Name, node: Name)
    | CycleDetected
    | Underflow

  function Offenders(entries: seq<Entry>, allowed: set<Name>): seq<Name>
    decreases |entries|
  {
    if entries == [] then []
    else
      var rest := Offenders(entries[..|entries| - 1], allowed);
      if entries[|entries| - 1].stepType in allowed then rest else rest + [entries[|entries| - 1].stepType]
  }

  /** The ids of the first pass: entry `i` gets the fresh id `firstId + i`, and a name that
      occurs twice keeps the id of its last occurrence. */
  function Names(entries: seq<Entry>, firstId: Id): map<Name, Id>
    decreases |entries|
  {
    if entries == [] then map[]
    else
      var k := |entries| - 1;
      Names(entries[..k], firstId)[entries[k].stepType := firstId + k]
  }

  function ResolveDeps(ids: map<Name, Id>, deps: seq<Name>): Result<seq<Id>, Name>
    decreases |deps|
  {
    if deps == [] then Ok([])
    else
      var k := |deps| - 1;
      match ResolveDeps(ids, deps[..k])
      case Err(dep) => Err(dep)
      case Ok(resolved) => if deps[k] in ids then Ok(resolved + [ids[deps[k]]]) else Err(deps[k])
  }

  function Resolve(ids: map<Name, Id>, entries: seq<Entry>): Result<Nodes, BuildError>
    requires forall e :: e in entries ==> e.stepType in ids
    decreases |entries|
  {
    if entries == [] then Ok([])
    else
      var k := |entries| - 1;
      match Resolve(ids, entries[..k])
      case Err(e) => Err(e)
      case Ok(nodes) =>
        match ResolveDeps(ids, entries[k].deps)
        case Err(dep) => Err(DependencyNotFound(dep, entries[k].stepType))
        case Ok(deps) => Ok(nodes + [DagNode(ids[entries[k].stepType], entries[k].stepType, deps, NodeStatus.Pending)])
  }

  function Sum(s: seq<nat>): nat
    decreases |s|
  {
    if s == [] then 0 else s[0] + Sum(s[1..])
  }

  lemma {:induction false} SumUpdate(s: seq<nat>, i: nat, v: nat)
    requires i < |s|
    ensures Sum(s[i := v]) + s[i] == Sum(s) + v
    decreases |s|
  {
    if i > 0 {
      assert s[i := v][1..] == s[1..][i - 1 := v];
      SumUpdate(s[1..], i - 1, v);
    } else {
      assert s[0 := v][1..] == s[1..];
    }
  }

  predicate InRange(queue: seq<nat>, n: nat) {
    forall i :: 0 <= i < |queue| ==> queue[i] < n
  }

  /** In-degrees and the queue. */
  datatype Kahn = Kahn(inDegree: seq<nat>, queue: seq<nat>)

  /** The inner loop, from node `i` on: every node that lists `id` loses one from its
      in-degree and is queued when that reaches zero. */
  function Relax(nodes: Nodes, id: Id, k: Kahn, i: nat): (r: Option<Kahn>)
    requires |k.inDegree| == |nodes| && i <= |nodes|
    ensures r.Some? ==> |r.value.inDegree| == |nodes|
    ensures r.Some? ==> Sum(r.value.inDegree) + |r.value.queue| <= Sum(k.inDegree) + |k.queue|
    decreases |nodes| - i
  {
    if i == |nodes| then Some(k)
    else if id !in nodes[i].dependsOn then Relax(nodes, id, k, i + 1)
    else if k.inDegree[i] == 0 then None
    else
      SumUpdate(k.inDegree, i, k.inDegree[i] - 1);
      Relax(nodes, id, Lowered(k, i), i + 1)
  }

  function Lowered(k: Kahn, i: nat): Kahn
    requires i < |k.inDegree| && k.inDegree[i] > 0
  {
    var d := k.inDegree[i] - 1;
    Kahn(k.inDegree[i := d], if d == 0 then k.queue + [i] else k.queue)
  }

  /** The outer loop: how many nodes it dequeues, or `None` on underflow. */
  function Drain(nodes: Nodes, k: Kahn): Option<nat>
    requires |k.inDegree| == |nodes| && InRange(k.queue, |nodes|)
    decreases Sum(k.inDegree) + |k.queue|
  {
    if k.queue == [] then Some(0)
    else
      var next := Relax(nodes, nodes[k.queue[0]].id, k.(queue := k.queue[1..]), 0);
      if next.None? then None
      else
        RelaxQueue(nodes, nodes[k.queue[0]].id, k.(queue := k.queue[1..]), 0);
        var rest := Drain(nodes, next.value);
        if rest.None? then None else Some(rest.value + 1)
  }

  /** One dequeue. */
  lemma DrainUnfolds(nodes: Nodes, k: Kahn)
    requires |k.inDegree| == |nodes| && InRange(k.queue, |nodes|) && k.queue != []
    ensures var next := Relax(nodes, nodes[k.queue[0]].id, Kahn(k.inDegree, k.queue[1..]), 0);
            && (next.None? ==> Drain(nodes, k).None?)
            && (next.Some? ==>
                && InRange(next.value.queue, |nodes|)
                && Sum(next.value.inDegree) + |next.value.queue| < Sum(k.inDegree) + |k.queue|
                && var rest := Drain(nodes, next.value);
                Drain(nodes, k) == if rest.None? then None else Some(rest.value + 1))
  {
    RelaxQueue(nodes, nodes[k.queue[0]].id, Kahn(k.inDegree, k.queue[1..]), 0);
  }

  lemma {:induction false} RelaxQueue(nodes: Nodes, id: Id, k: Kahn, i: nat)
    requires |k.inDegree| == |nodes| && i <= |nodes|
    requires InRange(k.queue, |nodes|)
    ensures var r := Relax(nodes, id, k, i); r.Some? ==> InRange(r.value.queue, |nodes|)
    decreases |nodes| - i
  {
    if i < |nodes| {
      if id !in nodes[i].dependsOn {
        RelaxQueue(nodes, id, k, i + 1);
      } else if k.inDegree[i] > 0 {
        RelaxQueue(nodes, id, Lowered(k, i), i + 1);
      }
    }
  }

  function Roots(nodes: Nodes): seq<nat>
    ensures InRange(Roots(nodes), |nodes|)
    decreases |nodes|
  {
    if nodes == [] then []
    else
      var k := |nodes| - 1;
      if nodes[k].dependsOn == [] then Roots(nodes[..k]) + [k] else Roots(nodes[..k])
  }

  function Initial(nodes: Nodes): Kahn {
    Kahn(seq(|nodes|, i requires 0 <= i < |nodes| => |nodes[i].dependsOn|), Roots(nodes))
  }

  lemma NamesCover(entries: seq<Entry>, firstId: Id)
    ensures forall e :: e in entries ==> e.stepType in Names(entries, firstId)
    decreases |entries|
  {
    if entries != [] {
      var k := |entries| - 1;
      NamesCover(entries[..k], firstId);
      assert entries == entries[..k] + [entries[k]];
    }
  }

  function Checked(nodes: Nodes): Result<Nodes, BuildError> {
    match Drain(nodes, Initial(nodes))
    case None => Err(Underflow)
    case Some(visited) => if visited != |nodes| then Err(CycleDetected) else Ok(nodes)
  }

  function Outcome(entries: seq<Entry>, allowed: Option<set<Name>>, firstId: Id): Result<Nodes, BuildError> {
    NamesCover(entries, firstId);
    if allowed.Some? && Offenders(entries, allowed.value) != [] then
      Err(NotAllowed(Offenders(entries, allowed.value)))
    else
      match Resolve(Names(entries, firstId), entries)
      case Err(e) => Err(e)
      case Ok(nodes) => Checked(nodes)
  }

  method Build(entries: seq<Entry>, allowed: Option<set<Name>>, firstId: Id) returns (r: Result<Nodes, BuildError>)
    ensures r == Outcome(entries, allowed, firstId)
  {
    if allowed.Some? {
      var offenders := ListOffenders(entries, allowed.value);
      if offenders != [] {
        return Err(NotAllowed(offenders));
      }
    }
    var nodes := ResolveNames(entries, firstId);
    if nodes.Err? {
      return Err(nodes.error);
    }
    r := DetectCycle(nodes.value);
  }

  method ListOffenders(entries: seq<Entry>, allowed: set<Name>) returns (offenders: seq<Name>)
    ensures offenders == Offenders(entries, allowed)
  {
    offenders := [];
    for i := 0 to |entries|
      invariant offenders == Offenders(entries[..i], allowed)
    {
      assert entries[..i + 1][..i] == entries[..i];
      if entries[i].stepType !in allowed {
        offenders := offenders + [entries[i].stepType];
      }
    }
    assert entries[..|entries|] == entries;
  }

  method ResolveNames(entries: seq<Entry>, firstId: Id) returns (r: Result<Nodes, BuildError>)
    ensures forall e :: e in entries ==> e.stepType in Names(entries, firstId)
    ensures r == Resolve(Names(entries, firstId), entries)
  {
    NamesCover(entries, firstId);
    var nameToId: map<Name, Id> := map[];
    for i := 0 to |entries|
      invariant nameToId == Names(entries[..i], firstId)
    {
      assert entries[..i + 1][..i] == entries[..i];
      nameToId := nameToId[entries[i].stepType := firstId + i];
    }
    assert entries[..|entries|] == entries;
    var nodes: Nodes := [];
    for i := 0 to |entries|
      invariant Resolve(nameToId, entries[..i]) == Ok(nodes)
    {
      assert entries[..i + 1][..i] == entries[..i];
      var deps := entries[i].deps;
      var resolved: seq<Id> := [];
      for j := 0 to |deps|
        invariant ResolveDeps(nameToId, deps[..j]) == Ok(resolved)
      {
        assert deps[..j + 1][..j] == deps[..j];
        if deps[j] !in nameToId {
          FirstMissing(nameToId, deps, j);
          FirstUnresolved(nameToId, entries, i, deps[j]);
          return Err(DependencyNotFound(deps[j], entries[i].stepType));
        }
        resolved := resolved + [nameToId[deps[j]]];
      }
      assert deps[..|deps|] == deps;
      nodes := nodes + [DagNode(nameToId[entries[i].stepType], entries[i].stepType, resolved, NodeStatus.Pending)];
    }
    r := Ok(nodes);
  }

  lemma {:induction false} FirstMissing(ids: map<Name, Id>, deps: seq<Name>, j: nat)
    requires j < |deps| && ResolveDeps(ids, deps[..j]).Ok? && deps[j] !in ids
    ensures ResolveDeps(ids, deps) == Err(deps[j])
    decreases |deps|
  {
    var k := |deps| - 1;
    if j < k {
      assert deps[..k][..j] == deps[..j];
      FirstMissing(ids, deps[..k], j);
    }
  }

  lemma {:induction false} FirstUnresolved(ids: map<Name, Id>, entries: seq<Entry>, i: nat, dep: Name)
    requires forall e :: e in entries ==> e.stepType in ids
    requires i < |entries| && Resolve(ids, entries[..i]).Ok? && ResolveDeps(ids, entries[i].deps) == Err(dep)
    ensures Resolve(ids, entries) == Err(DependencyNotFound(dep, entries[i].stepType))
    decreases |entries|
  {
    var k := |entries| - 1;
    if i < k {
      assert entries[..k][..i] == entries[..i];
      FirstUnresolved(ids, entries[..k], i, dep);
    }
  }

  /** The inner loop: takes one from the in-degree of every node that lists the dequeued id
      and queues those that reach zero. */
  method LowerDegrees(nodes: Nodes, nodeId: Id, inDegree: array<nat>, waiting: seq<nat>)
    returns (queue: Option<seq<nat>>)
    requires inDegree.Length == |nodes|
    modifies inDegree
    ensures Relax(nodes, nodeId, Kahn(old(inDegree[..]), waiting), 0) ==
            (match queue case None => None case Some(q) => Some(Kahn(inDegree[..], q)))
  {
    ghost var before := Kahn(inDegree[..], waiting);
    var longer: seq<nat> := waiting;
    for i := 0 to |nodes|
      invariant Relax(nodes, nodeId, before, 0) == Relax(nodes, nodeId, Kahn(inDegree[..], longer), i)
    {
      if nodeId in nodes[i].dependsOn {
        if inDegree[i] == 0 {
          return None;
        }
        ghost var k := Kahn(inDegree[..], longer);
        inDegree[i] := inDegree[i] - 1;
        if inDegree[i] == 0 {
          longer := longer + [i];
        }
        assert Kahn(inDegree[..], longer) == Lowered(k, i);
      }
    }
    queue := Some(longer);
  }

  /** The in-degrees and the queue of the nodes without dependencies. */
  method StartQueue(nodes: Nodes) returns (inDegree: array<nat>, queue: seq<nat>)
    ensures fresh(inDegree) && inDegree.Length == |nodes|
    ensures Kahn(inDegree[..], queue) == Initial(nodes)
  {
    inDegree := new nat[|nodes|];
    for i := 0 to |nodes|
      invariant forall j :: 0 <= j < i ==> inDegree[j] == |nodes[j].dependsOn|
    {
      inDegree[i] := |nodes[i].dependsOn|;
    }
    queue := [];
    for i := 0 to |nodes|
      invariant queue == Roots(nodes[..i])
      invariant inDegree[..] == Initial(nodes).inDegree
    {
      assert nodes[..i + 1][..i] == nodes[..i];
      if inDegree[i] == 0 {
        queue := queue + [i];
      }
    }
    assert nodes[..|nodes|] == nodes;
  }

  method DetectCycle(nodes: Nodes) returns (r: Result<Nodes, BuildError>)
    ensures r == Checked(nodes)
  {
    var n := |nodes|;
    var inDegree, queue := StartQueue(nodes);
    var visited := 0;
    while queue != []
      invariant |inDegree[..]| == n
      invariant InRange(queue, n)
      invariant var rest := Drain(nodes, Kahn(inDegree[..], queue));
                Drain(nodes, Initial(nodes)) == if rest.None? then None else Some(visited + rest.value)
      decreases Sum(inDegree[..]) + |queue|
    {
      var idx := queue[0];
      DrainUnfolds(nodes, Kahn(inDegree[..], queue));
      visited := visited + 1;
      var left := LowerDegrees(nodes, nodes[idx].id, inDegree, queue[1..]);
      if left.None? {
        return Err(Underflow);
      }
      queue := left.value;
    }
    if visited != n {
      return Err(CycleDetected);
    }
    r := Ok(nodes);
  }
}
