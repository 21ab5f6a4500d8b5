/** `build` compiled without overflow checks, as a release build is: taking one from an
    in-degree of zero wraps around instead of panicking. What such a build accepts, for all
    inputs, and when it agrees with the checked one. */
module DagBuildUnchecked {
  import opened Types
  import opened Dags
  import opened DagBuild
  import opened DagBuildExact
  import opened Deadlock

  /** The 64-bit decrement. */
  function Decrement(d: nat): nat { if d == 0 then U64_MAX else d - 1 }

  function Wrapped(k: Kahn, i: nat): Kahn
    requires i < |k.inDegree|
  {
    var d := Decrement(k.inDegree[i]);
    Kahn(k.inDegree[i := d], if d == 0 then k.queue + [i] else k.queue)
  }

  /** The inner loop, from node `i` on. */
  function RelaxWrapping(nodes: Nodes, id: Id, k: Kahn, i: nat): (r: Kahn)
    requires |k.inDegree| == |nodes| && i <= |nodes|
    ensures |r.inDegree| == |nodes|
    decreases |nodes| - i
  {
    if i == |nodes| then k
    else RelaxWrapping(nodes, id, if Lists(nodes, i, id) then Wrapped(k, i) else k, i + 1)
  }

  /** The in-degree of a node after `hits` of the listed dependencies were counted off. */
  function DegreeAt(listed: nat, hits: nat): int {
    if hits <= listed then listed - hits else U64_MAX + 1 + listed - hits
  }

  predicate DegreeFits(nodes: Nodes, k: Kahn, popped: set<nat>, i: nat)
    requires i < |nodes| == |k.inDegree|
  {
    && k.inDegree[i] == DegreeAt(|nodes[i].dependsOn|, |Hits(nodes, i, popped)|)
    && (i in popped || i in k.queue <==> |Hits(nodes, i, popped)| >= |nodes[i].dependsOn|)
  }

  /** The state between two dequeues, `popped` being the nodes dequeued so far. */
  ghost predicate WrapInv(nodes: Nodes, k: Kahn, popped: set<nat>) {
    && |k.inDegree| == |nodes| <= U64_MAX && popped <= All(nodes)
    && InRange(k.queue, |nodes|) && NoRepeats(k.queue)
    && (forall x :: 0 <= x < |k.queue| ==> k.queue[x] !in popped)
    && (forall i :: 0 <= i < |nodes| ==> DegreeFits(nodes, k, popped, i))
  }

  lemma HitsBound(nodes: Nodes, i: nat, popped: set<nat>)
    requires popped <= All(nodes)
    ensures |Hits(nodes, i, popped)| <= |nodes|
  {
    SubsetSize(Hits(nodes, i, popped), All(nodes));
  }

  /** The nodes the inner loop queues from node `i` on, in order: those an in-degree of one
      is taken from. */
  lemma {:induction false} RelaxWrappingDoes(nodes: Nodes, id: Id, k: Kahn, i: nat)
    requires |k.inDegree| == |nodes| && i <= |nodes|
    ensures var r := RelaxWrapping(nodes, id, k, i);
            r.queue == k.queue + Freed(nodes, id, k.inDegree, i) && Decremented(nodes, id, k.inDegree, i, r.inDegree)
    decreases |nodes| - i
  {
    if i < |nodes| {
      if Lists(nodes, i, id) {
        var k' := Wrapped(k, i);
        RelaxWrappingDoes(nodes, id, k', i + 1);
        FreedLooksAhead(nodes, id, k'.inDegree, k.inDegree, i + 1);
        var tail := Freed(nodes, id, k.inDegree, i + 1);
        assert k.queue + ([i] + tail) == k.queue + [i] + tail;
      } else {
        RelaxWrappingDoes(nodes, id, k, i + 1);
      }
    }
  }

  predicate Decremented(nodes: Nodes, id: Id, before: seq<nat>, i: nat, after: seq<nat>) {
    && |before| == |after| == |nodes|
    && forall j {:trigger after[j]} :: 0 <= j < |nodes| ==>
         after[j] == if i <= j && Lists(nodes, j, id) then Decrement(before[j]) else before[j]
  }

  lemma WrapInitialInv(nodes: Nodes)
    requires |nodes| <= U64_MAX
    ensures WrapInv(nodes, Initial(nodes), {})
  {
    RootsAre(nodes);
    forall i | 0 <= i < |nodes| ensures DegreeFits(nodes, Initial(nodes), {}, i) {
      assert Hits(nodes, i, {}) == {};
    }
  }

  lemma NextDegree(listed: nat, hits: nat)
    requires hits < U64_MAX
    ensures DegreeAt(listed, hits) >= 0
    ensures DegreeAt(listed, hits + 1) == Decrement(DegreeAt(listed, hits))
  {
  }

  lemma DegreeStillFits(nodes: Nodes, k: Kahn, popped: set<nat>, r: Kahn, i: nat)
    requires WrapInv(nodes, k, popped) && k.queue != [] && i < |nodes| && popped + {k.queue[0]} <= All(nodes)
    requires Decremented(nodes, nodes[k.queue[0]].id, k.inDegree, 0, r.inDegree)
    requires r.queue == k.queue[1..] + Freed(nodes, nodes[k.queue[0]].id, k.inDegree, 0)
    ensures DegreeFits(nodes, r, popped + {k.queue[0]}, i)
  {
    var idx := k.queue[0];
    assert DegreeFits(nodes, k, popped, i);
    HitsGrow(nodes, i, popped, idx);
    HitsBound(nodes, i, popped + {idx});
    if Lists(nodes, i, nodes[idx].id) { NextDegree(|nodes[i].dependsOn|, |Hits(nodes, i, popped)|); }
    FreedAre(nodes, nodes[idx].id, k.inDegree, 0);
    assert k.queue == [idx] + k.queue[1..];
    assert r.inDegree[i] == if Lists(nodes, i, nodes[idx].id) then Decrement(k.inDegree[i]) else k.inDegree[i];
  }

  lemma FreedWaits(nodes: Nodes, k: Kahn, popped: set<nat>, q: nat)
    requires WrapInv(nodes, k, popped) && q < |nodes| && k.inDegree[q] == 1
    ensures q !in popped && q !in k.queue
  {
    assert DegreeFits(nodes, k, popped, q);
    HitsBound(nodes, q, popped);
  }

  /** One dequeue keeps the state consistent: an in-degree reaches zero once, because no node
      is counted off as often as the counter wraps. */
  lemma DequeueWraps(nodes: Nodes, k: Kahn, popped: set<nat>)
    requires WrapInv(nodes, k, popped) && k.queue != []
    ensures k.queue[0] < |nodes|
    ensures var next := RelaxWrapping(nodes, nodes[k.queue[0]].id, k.(queue := k.queue[1..]), 0);
            WrapInv(nodes, next, popped + {k.queue[0]})
    ensures |popped + {k.queue[0]}| == |popped| + 1 <= |nodes|
  {
    var id := nodes[k.queue[0]].id;
    var r := RelaxWrapping(nodes, id, k.(queue := k.queue[1..]), 0);
    RelaxWrappingDoes(nodes, id, k.(queue := k.queue[1..]), 0);
    var freed := Freed(nodes, id, k.inDegree, 0);
    FreedAre(nodes, id, k.inDegree, 0);
    forall q | q in freed ensures q < |nodes| && q !in popped && q !in k.queue { FreedWaits(nodes, k, popped, q); }
    QueueStaysFresh(k.queue, freed, popped, |nodes|);
    forall i | 0 <= i < |nodes| ensures DegreeFits(nodes, r, popped + {k.queue[0]}, i) {
      DegreeStillFits(nodes, k, popped, r, i);
    }
    SubsetSize(popped + {k.queue[0]}, All(nodes));
  }

  /** The outer loop: the nodes it dequeues. */
  ghost function DrainWrapping(nodes: Nodes, k: Kahn, popped: set<nat>): set<nat>
    requires WrapInv(nodes, k, popped)
    decreases |nodes| - |popped|
  {
    if k.queue == [] then popped
    else
      DequeueWraps(nodes, k, popped);
      var next := RelaxWrapping(nodes, nodes[k.queue[0]].id, k.(queue := k.queue[1..]), 0);
      DrainWrapping(nodes, next, popped + {k.queue[0]})
  }

  ghost function Unchecked(nodes: Nodes): Result<Nodes, BuildError>
    requires |nodes| <= U64_MAX
  {
    WrapInitialInv(nodes);
    if |DrainWrapping(nodes, Initial(nodes), {})| != |nodes| then Err(CycleDetected) else Ok(nodes)
  }

  method LowerWrapping(nodes: Nodes, nodeId: Id, inDegree: array<nat>, waiting: seq<nat>) returns (queue: seq<nat>)
    requires inDegree.Length == |nodes|
    modifies inDegree
    ensures Kahn(inDegree[..], queue) == RelaxWrapping(nodes, nodeId, Kahn(old(inDegree[..]), waiting), 0)
  {
    ghost var before := Kahn(inDegree[..], waiting);
    queue := waiting;
    for i := 0 to |nodes|
      invariant RelaxWrapping(nodes, nodeId, before, 0) == RelaxWrapping(nodes, nodeId, Kahn(inDegree[..], queue), i)
    {
      if nodeId in nodes[i].dependsOn {
        ghost var k := Kahn(inDegree[..], queue);
        inDegree[i] := if inDegree[i] == 0 then U64_MAX else inDegree[i] - 1;
        if inDegree[i] == 0 {
          queue := queue + [i];
        }
        assert Kahn(inDegree[..], queue) == Wrapped(k, i);
      }
    }
  }

  method DetectCycleUnchecked(nodes: Nodes) returns (r: Result<Nodes, BuildError>)
    requires |nodes| <= U64_MAX
    ensures r == Unchecked(nodes)
  {
    var inDegree, queue := StartQueue(nodes);
    var visited := 0;
    ghost var popped: set<nat> := {};
    WrapInitialInv(nodes);
    while queue != []
      invariant inDegree.Length == |nodes| && visited == |popped|
      invariant WrapInv(nodes, Kahn(inDegree[..], queue), popped)
      invariant DrainWrapping(nodes, Initial(nodes), {}) == DrainWrapping(nodes, Kahn(inDegree[..], queue), popped)
      decreases |nodes| - |popped|
    {
      var idx := queue[0];
      DequeueWraps(nodes, Kahn(inDegree[..], queue), popped);
      popped := popped + {idx};
      visited := visited + 1;
      queue := LowerWrapping(nodes, nodes[idx].id, inDegree, queue[1..]);
    }
    r := if visited != |nodes| then Err(CycleDetected) else Ok(nodes);
  }

  /** The whole builder without overflow checks. */
  method BuildUnchecked(entries: seq<Entry>, allowed: Option<set<Name>>, firstId: Id)
    returns (r: Result<Nodes, BuildError>)
    requires |entries| <= U64_MAX
    ensures r == OutcomeUnchecked(entries, allowed, firstId)
  {
    if allowed.Some? {
      var offenders := ListOffenders(entries, allowed.value);
      if offenders != [] {
        return Err(NotAllowed(offenders));
      }
    }
    ResolvesExactly(entries, firstId);
    var nodes := ResolveNames(entries, firstId);
    if nodes.Err? {
      return Err(nodes.error);
    }
    r := DetectCycleUnchecked(nodes.value);
  }

  ghost function OutcomeUnchecked(entries: seq<Entry>, allowed: Option<set<Name>>, firstId: Id)
    : Result<Nodes, BuildError>
    requires |entries| <= U64_MAX
  {
    ResolvesExactly(entries, firstId);
    if allowed.Some? && Offenders(entries, allowed.value) != [] then
      Err(NotAllowed(Offenders(entries, allowed.value)))
    else
      match Resolve(Names(entries, firstId), entries)
      case Err(e) => Err(e)
      case Ok(nodes) => Unchecked(nodes)
  }

  /** Node `i` lists more dependencies than there are carriers outside `x`. */
  predicate StuckAt(nodes: Nodes, x: set<nat>, i: nat) {
    i < |nodes| && |nodes[i].dependsOn| > |Hits(nodes, i, All(nodes) - x)|
  }

  /** No node of `x` can be queued before one of `x` was dequeued. */
  predicate Stuck(nodes: Nodes, x: set<nat>) {
    x != {} && x <= All(nodes) && forall i :: i in x ==> StuckAt(nodes, x, i)
  }

  /** The dequeued nodes stay outside every stuck set. */
  lemma {:induction false} StuckStaysOut(nodes: Nodes, k: Kahn, popped: set<nat>, x: set<nat>)
    requires WrapInv(nodes, k, popped) && Stuck(nodes, x) && popped !! x
    ensures DrainWrapping(nodes, k, popped) !! x
    decreases |nodes| - |popped|
  {
    if k.queue != [] {
      DequeueWraps(nodes, k, popped);
      var idx := k.queue[0];
      assert DegreeFits(nodes, k, popped, idx) && idx in k.queue;
      SubsetSize(Hits(nodes, idx, popped), Hits(nodes, idx, All(nodes) - x));
      assert !StuckAt(nodes, x, idx);
      var r := RelaxWrapping(nodes, nodes[idx].id, k.(queue := k.queue[1..]), 0);
      StuckStaysOut(nodes, r, popped + {idx}, x);
    }
  }

  predicate CountedAt(nodes: Nodes, final: set<nat>, i: nat) {
    i < |nodes| ==> (i in final <==> |Hits(nodes, i, final)| >= |nodes[i].dependsOn|)
  }

  /** The nodes of `final` are exactly those with as much counted off as they list. */
  ghost predicate CountedUp(nodes: Nodes, final: set<nat>) {
    forall i :: CountedAt(nodes, final, i)
  }

  /** Where the loop ends, exactly the dequeued nodes have all they wait for counted off. */
  lemma {:induction false} DrainWrappingEnds(nodes: Nodes, k: Kahn, popped: set<nat>)
    requires WrapInv(nodes, k, popped)
    ensures var final := DrainWrapping(nodes, k, popped);
            && popped <= final <= All(nodes)
            && CountedUp(nodes, final)
    decreases |nodes| - |popped|
  {
    if k.queue == [] {
      forall i: nat ensures CountedAt(nodes, popped, i) {
        assert i < |nodes| ==> DegreeFits(nodes, k, popped, i);
      }
    } else {
      DequeueWraps(nodes, k, popped);
      var r := RelaxWrapping(nodes, nodes[k.queue[0]].id, k.(queue := k.queue[1..]), 0);
      DrainWrappingEnds(nodes, r, popped + {k.queue[0]});
    }
  }

  lemma StuckIsLeft(nodes: Nodes, x: set<nat>)
    requires |nodes| <= U64_MAX && Stuck(nodes, x)
    ensures Unchecked(nodes).Err?
  {
    WrapInitialInv(nodes);
    StuckStaysOut(nodes, Initial(nodes), {}, x);
    DrainWrappingEnds(nodes, Initial(nodes), {});
    var i :| i in x;
    var final := DrainWrapping(nodes, Initial(nodes), {});
    SubsetSize(final, All(nodes) - {i});
  }

  /** Without overflow checks a resolved DAG passes exactly when no set of nodes is stuck. */
  lemma UncheckedExactly(nodes: Nodes)
    requires |nodes| <= U64_MAX
    ensures Unchecked(nodes).Ok? <==> forall x :: !Stuck(nodes, x)
  {
    forall x | Stuck(nodes, x) ensures Unchecked(nodes).Err? { StuckIsLeft(nodes, x); }
    WrapInitialInv(nodes);
    var final := DrainWrapping(nodes, Initial(nodes), {});
    DrainWrappingEnds(nodes, Initial(nodes), {});
    if |final| != |nodes| { LeftOverStuck(nodes, final); }
  }

  lemma LeftOverStuck(nodes: Nodes, final: set<nat>)
    requires final <= All(nodes) && |final| != |nodes|
    requires CountedUp(nodes, final)
    ensures Stuck(nodes, All(nodes) - final)
  {
    var x := All(nodes) - final;
    assert All(nodes) - x == final;
    var i := SomeoneLeft(final, |nodes|);
    assert i in x;
    forall j | j in x ensures StuckAt(nodes, x, j) {
      assert CountedAt(nodes, final, j);
      LeftOverIsStuck(nodes, final, x, j);
    }
  }

  lemma LeftOverIsStuck(nodes: Nodes, final: set<nat>, x: set<nat>, j: nat)
    requires All(nodes) - x == final && j < |nodes| && |Hits(nodes, j, final)| < |nodes[j].dependsOn|
    ensures StuckAt(nodes, x, j)
  {
  }

  lemma StuckBalancedCycles(nodes: Nodes, x: set<nat>)
    requires AllBalanced(nodes) && Stuck(nodes, x)
    ensures !Acyclic(nodes)
  {
    var inside := All(nodes) - x;
    forall i | 0 <= i < |nodes| && i !in inside ensures WaitsOutside(nodes, inside, i) {
      assert StuckAt(nodes, x, i) && Balanced(nodes, i);
      LeftOverWaits(nodes, inside, i);
    }
    var i :| i in x;
    var p := ChainOutside(nodes, inside, i, |nodes| + 1);
    LongWalkCycles(nodes, p);
  }

  lemma CycleIsStuck(nodes: Nodes, p: seq<nat>)
    requires AllBalanced(nodes) && Cycle(nodes, p)
    ensures Stuck(nodes, set k | 0 <= k < |p| :: p[k])
  {
    var x := set k | 0 <= k < |p| :: p[k];
    assert p[0] in x;
    forall i | i in x ensures i < |nodes| && StuckAt(nodes, x, i) {
      var k :| 0 <= k < |p| && p[k] == i;
      var m := if k < |p| - 1 then k else 0;
      WalkRange(nodes, p, m);
      WalkRange(nodes, p, m + 1);
      assert DependsOn(nodes, p[m..][0], p[m..][1]);
      OneInside(nodes, x, i, p[m + 1]);
    }
  }

  lemma OneInside(nodes: Nodes, x: set<nat>, i: nat, j: nat)
    requires i < |nodes| && Balanced(nodes, i) && j in x && DependsOn(nodes, i, j)
    ensures StuckAt(nodes, x, i)
  {
    var all, out := Hits(nodes, i, All(nodes)), Hits(nodes, i, All(nodes) - x);
    assert j in all && out <= all - {j};
    SubsetSize(out, all - {j});
  }

  /** Where dependencies and carriers match in number, both builds give the same verdict. */
  lemma UncheckedAgrees(nodes: Nodes)
    requires |nodes| <= U64_MAX && AllBalanced(nodes)
    ensures Unchecked(nodes) == Checked(nodes)
  {
    UncheckedExactly(nodes);
    CheckedExactly(nodes);
    InitialInv(nodes);
    BalancedDrains(nodes, Initial(nodes), {});
    if !Acyclic(nodes) {
      var p :| Cycle(nodes, p);
      CycleIsStuck(nodes, p);
    }
    forall x | Stuck(nodes, x) ensures !Acyclic(nodes) { StuckBalancedCycles(nodes, x); }
  }

  /** The entries outside `x` that entry `i` names. */
  function Met(entries: seq<Entry>, i: nat, x: set<nat>): set<nat> {
    set j | 0 <= j < |entries| && j !in x && Needs(entries, i, j)
  }

  predicate ShortOf(entries: seq<Entry>, i: nat, x: set<nat>) {
    i < |entries| && |entries[i].deps| > |Met(entries, i, x)|
  }

  /** Each entry of `x` lists more dependencies than entries outside `x` carry their names. */
  predicate StuckEntries(entries: seq<Entry>, x: set<nat>) {
    x != {} && forall i :: i in x ==> ShortOf(entries, i, x)
  }

  /** What a build without overflow checks accepts, for every list of entries: allowed step
      types, named dependencies, and no set of entries each of which lists more dependencies
      than it can have counted off by entries outside the set. */
  lemma UncheckedBuildExactly(entries: seq<Entry>, allowed: Option<set<Name>>, firstId: Id)
    requires |entries| <= U64_MAX
    ensures OutcomeUnchecked(entries, allowed, firstId).Ok? <==>
            AllAllowed(entries, allowed) && AllNamed(entries) && forall x :: !StuckEntries(entries, x)
  {
    if allowed.Some? { OffendersAre(entries, allowed.value); }
    ResolvesExactly(entries, firstId);
    if AllNamed(entries) {
      var nodes := Resolve(Names(entries, firstId), entries).value;
      UncheckedExactly(nodes);
      forall x ensures Stuck(nodes, x) <==> StuckEntries(entries, x) { SameStuck(entries, nodes, x); }
    }
  }

  lemma SameStuck(entries: seq<Entry>, nodes: Nodes, x: set<nat>)
    requires Resolution(entries, nodes)
    ensures Stuck(nodes, x) <==> StuckEntries(entries, x)
  {
    forall i: nat | i < |entries| ensures StuckAt(nodes, x, i) <==> ShortOf(entries, i, x) {
      assert Hits(nodes, i, All(nodes) - x) == Met(entries, i, x);
    }
    if StuckEntries(entries, x) {
      forall i | i in x ensures i in All(nodes) { assert ShortOf(entries, i, x); }
    }
  }

  /** Where every entry lists as many dependencies as there are entries of the types it names,
      as distinct step types and duplicate-free lists do, the two builds agree. */
  lemma BuildsAgree(entries: seq<Entry>, allowed: Option<set<Name>>, firstId: Id)
    requires |entries| <= U64_MAX && AllEven(entries)
    ensures OutcomeUnchecked(entries, allowed, firstId) == Outcome(entries, allowed, firstId)
  {
    ResolvesExactly(entries, firstId);
    if AllNamed(entries) {
      var nodes := Resolve(Names(entries, firstId), entries).value;
      SameBalance(entries, nodes);
      UncheckedAgrees(nodes);
    }
  }

  /** What the checked build accepts, the unchecked one accepts as well. */
  lemma CheckedImpliesUnchecked(entries: seq<Entry>, allowed: Option<set<Name>>, firstId: Id)
    requires |entries| <= U64_MAX && Outcome(entries, allowed, firstId).Ok?
    ensures OutcomeUnchecked(entries, allowed, firstId) == Outcome(entries, allowed, firstId)
  {
    BuildExactly(entries, allowed, firstId);
    BuildsAgree(entries, allowed, firstId);
  }

  /** Two entries of one step type, an entry that waits for that type and for another entry,
      and that one, which waits for it in turn. */
  const CYCLE: seq<Entry> := [Entry("a", []), Entry("a", []), Entry("b", ["a", "c"]), Entry("c", ["b"])]

  lemma CycleNeeds()
    ensures Needs(CYCLE, 2, 0) && Needs(CYCLE, 2, 1) && Needs(CYCLE, 2, 3) && Needs(CYCLE, 3, 2)
    ensures AllNamed(CYCLE)
  {
    assert CYCLE[0].stepType == "a" && CYCLE[2].stepType == "b" && CYCLE[3].stepType == "c";
  }

  lemma CycleIsCyclic()
    ensures !NoCycle(CYCLE)
  {
    CycleNeeds();
    assert [2, 3, 2][1..] == [3, 2] && [3, 2][1..] == [2];
    assert Chain(CYCLE, [2]) && Chain(CYCLE, [3, 2]) && Chain(CYCLE, [2, 3, 2]);
  }

  /** The nodes the builder makes of it. */
  lemma CycleNodes(nodes: Nodes)
    requires forall e :: e in CYCLE ==> e.stepType in Names(CYCLE, 0)
    requires Resolve(Names(CYCLE, 0), CYCLE) == Ok(nodes)
    ensures |nodes| == 4 && forall i :: 0 <= i < 4 ==> ResolvedAs(Names(CYCLE, 0), CYCLE[i], nodes[i])
    ensures DependsOn(nodes, 2, 3) && DependsOn(nodes, 3, 2)
    ensures forall k :: 0 <= k < 4 && (nodes[k].id == nodes[2].id || nodes[k].id == nodes[3].id) ==> k == 2 || k == 3
  {
    CycleNeeds();
    ResolvesExactly(CYCLE, 0);
    var ids := Names(CYCLE, 0);
    ResolveIs(ids, CYCLE);
    NamesInjective(CYCLE, 0);
    forall k | 0 <= k < 4 && (nodes[k].id == nodes[2].id || nodes[k].id == nodes[3].id) ensures k == 2 || k == 3 {
      assert ResolvedAs(ids, CYCLE[k], nodes[k]);
      assert ResolvedAs(ids, CYCLE[2], nodes[2]) && ResolvedAs(ids, CYCLE[3], nodes[3]);
    }
  }

  /** Without overflow checks a cycle can pass: the two entries of one step type count off both
      dependencies of the third. The DAG it becomes blocks the two nodes that wait for each
      other. */
  lemma UncheckedAcceptsACycle()
    ensures !NoCycle(CYCLE)
    ensures var r := OutcomeUnchecked(CYCLE, None, 0); r.Ok? && Blocked(r.value) != []
  {
    CycleIsCyclic();
    CyclePasses(CYCLE);
  }

  lemma CyclePasses(entries: seq<Entry>)
    requires entries == CYCLE
    ensures var r := OutcomeUnchecked(entries, None, 0); r.Ok? && Blocked(r.value) != []
  {
    CycleNeeds();
    forall x ensures !StuckEntries(entries, x) { NothingStuck(entries, x); }
    UncheckedBuildExactly(entries, None, 0);
    ResolvesExactly(entries, 0);
    var nodes := Resolve(Names(entries, 0), entries).value;
    CycleNodes(nodes);
    PairIsBlocked(nodes, 2, 3);
  }

  lemma NothingStuck(entries: seq<Entry>, x: set<nat>)
    requires entries == CYCLE
    ensures !StuckEntries(entries, x)
  {
    CycleNeeds();
    if 0 !in x && 1 !in x {
      SubsetSize({0, 1}, Met(entries, 2, x));
    }
    if 2 !in x {
      SubsetSize({2}, Met(entries, 3, x));
    }
    if x != {} {
      var i :| i in x;
      assert i >= 4 ==> !ShortOf(entries, i, x);
    }
  }

  /** Two pending nodes that wait for each other are blocked. */
  lemma PairIsBlocked(nodes: Nodes, i: nat, j: nat)
    requires DependsOn(nodes, i, j) && DependsOn(nodes, j, i)
    requires nodes[i].status.Pending? && nodes[j].status.Pending?
    requires forall k :: 0 <= k < |nodes| && (nodes[k].id == nodes[i].id || nodes[k].id == nodes[j].id) ==>
             k == i || k == j
    ensures Blocked(nodes) != []
  {
    var x := All(nodes) - {i, j};
    forall k: nat ensures ClosedAt(nodes, x, k) {
      if k == i { assert !Supplied(nodes, x, nodes[j].id); }
      if k == j { assert !Supplied(nodes, x, nodes[i].id); }
    }
    assert Closed(nodes, x) && !Reachable(nodes, i);
    BlockedNames(nodes, |nodes|, i);
  }

  lemma {:induction false} BlockedNames(nodes: Nodes, k: nat, i: nat)
    requires i < k <= |nodes| && nodes[i].status.Pending? && !Reachable(nodes, i)
    ensures BlockedBelow(nodes, k) != []
  {
    if i < k - 1 { BlockedNames(nodes, k - 1, i); }
  }
}
