/** Every verdict of `build` as an equivalence: when the checked build underflows, when it
    reports a cycle, and that it answers as the unchecked one in all other cases. */
module DagBuildVerdict {
  import opened Types
  import opened Dags
  import opened DagBuild
  import opened DagBuildExact
  import opened DagBuildUnchecked

  /** An inner loop that does not underflow does not wrap either. */
  lemma {:induction false} RelaxWithoutWrap(nodes: Nodes, id: Id, k: Kahn, i: nat)
    requires |k.inDegree| == |nodes| && i <= |nodes|
    ensures var r := Relax(nodes, id, k, i); r.Some? ==> RelaxWrapping(nodes, id, k, i) == r.value
    decreases |nodes| - i
  {
    if i < |nodes| {
      if !Lists(nodes, i, id) {
        RelaxWithoutWrap(nodes, id, k, i + 1);
      } else if k.inDegree[i] > 0 {
        assert Wrapped(k, i) == Lowered(k, i);
        RelaxWithoutWrap(nodes, id, Lowered(k, i), i + 1);
      }
    }
  }

  /** More carriers of what node `i` lists are in `final` than it lists dependencies. */
  predicate OverAt(nodes: Nodes, final: set<nat>, i: nat) {
    i < |nodes| && |Hits(nodes, i, final)| > |nodes[i].dependsOn|
  }

  ghost predicate Over(nodes: Nodes, final: set<nat>) { exists i :: OverAt(nodes, final, i) }

  lemma MoreHits(nodes: Nodes, i: nat, a: set<nat>, b: set<nat>)
    requires a <= b && OverAt(nodes, a, i)
    ensures OverAt(nodes, b, i)
  {
    assert Hits(nodes, i, a) <= Hits(nodes, i, b);
    SubsetSize(Hits(nodes, i, a), Hits(nodes, i, b));
  }

  /** An inner loop that underflows has met a node that has nothing left to count off. */
  lemma UnderflowIsOver(nodes: Nodes, k: Kahn, popped: set<nat>)
    requires Inv(nodes, k, popped) && WrapInv(nodes, k, popped) && k.queue != []
    requires Relax(nodes, nodes[k.queue[0]].id, k.(queue := k.queue[1..]), 0).None?
    ensures Over(nodes, DrainWrapping(nodes, k, popped))
  {
    var idx := k.queue[0];
    RelaxDoes(nodes, nodes[idx].id, k.(queue := k.queue[1..]), 0);
    var j :| 0 <= j < |nodes| && Lists(nodes, j, nodes[idx].id) && k.inDegree[j] == 0;
    assert k.inDegree[j] + |Hits(nodes, j, popped)| == |nodes[j].dependsOn|;
    HitsGrow(nodes, j, popped, idx);
    DequeueWraps(nodes, k, popped);
    var next := RelaxWrapping(nodes, nodes[idx].id, k.(queue := k.queue[1..]), 0);
    DrainWrappingEnds(nodes, next, popped + {idx});
    MoreHits(nodes, j, popped + {idx}, DrainWrapping(nodes, next, popped + {idx}));
  }

  /** The checked loop underflows exactly when the wrapping one counts some node off more often
      than it lists dependencies; otherwise both dequeue the same number of nodes. */
  ghost predicate Alike(nodes: Nodes, k: Kahn, popped: set<nat>)
    requires WrapInv(nodes, k, popped) && Inv(nodes, k, popped)
  {
    var final := DrainWrapping(nodes, k, popped);
    && (Drain(nodes, k).None? <==> Over(nodes, final))
    && (Drain(nodes, k).Some? ==> |final| == |popped| + Drain(nodes, k).value)
  }

  lemma {:induction false} DrainsAlike(nodes: Nodes, k: Kahn, popped: set<nat>)
    requires Inv(nodes, k, popped) && WrapInv(nodes, k, popped)
    ensures Alike(nodes, k, popped)
    decreases |nodes| - |popped|
  {
    if k.queue == [] {
      forall i: nat ensures !OverAt(nodes, popped, i) {
        assert i < |nodes| ==> k.inDegree[i] + |Hits(nodes, i, popped)| == |nodes[i].dependsOn|;
      }
    } else {
      DrainUnfolds(nodes, k);
      var next := Relax(nodes, nodes[k.queue[0]].id, k.(queue := k.queue[1..]), 0);
      if next.None? {
        UnderflowIsOver(nodes, k, popped);
      } else {
        RelaxWithoutWrap(nodes, nodes[k.queue[0]].id, k.(queue := k.queue[1..]), 0);
        DequeueKeepsInv(nodes, k, popped, next.value);
        DequeueWraps(nodes, k, popped);
        DrainsAlike(nodes, next.value, popped + {k.queue[0]});
      }
    }
  }

  /** Whatever stuck set is left out, more carriers of what node `i` lists remain than it lists
      dependencies. */
  ghost predicate Overmet(nodes: Nodes, i: nat) {
    forall x :: x == {} || Stuck(nodes, x) ==> OverAt(nodes, All(nodes) - x, i)
  }

  lemma OvermetExactly(nodes: Nodes, final: set<nat>, i: nat)
    requires final <= All(nodes) && CountedUp(nodes, final)
    requires forall x :: Stuck(nodes, x) ==> final !! x
    ensures OverAt(nodes, final, i) <==> Overmet(nodes, i)
  {
    if OverAt(nodes, final, i) {
      forall x | x == {} || Stuck(nodes, x) ensures OverAt(nodes, All(nodes) - x, i) {
        MoreHits(nodes, i, final, All(nodes) - x);
      }
    }
    if Overmet(nodes, i) {
      var x := All(nodes) - final;
      assert All(nodes) - x == final;
      if |final| == |nodes| { FullSubset(final, |nodes|); } else { LeftOverStuck(nodes, final); }
      assert OverAt(nodes, All(nodes) - x, i);
    }
  }

  /** What the two builds make of resolved nodes. */
  lemma CheckedVerdict(nodes: Nodes)
    requires |nodes| <= U64_MAX
    ensures Checked(nodes) == if exists i: nat :: Overmet(nodes, i) then Err(Underflow) else Unchecked(nodes)
  {
    InitialInv(nodes);
    WrapInitialInv(nodes);
    DrainsAlike(nodes, Initial(nodes), {});
    DrainWrappingEnds(nodes, Initial(nodes), {});
    var final := DrainWrapping(nodes, Initial(nodes), {});
    forall x | Stuck(nodes, x) ensures final !! x { StuckStaysOut(nodes, Initial(nodes), {}, x); }
    forall i: nat ensures OverAt(nodes, final, i) <==> Overmet(nodes, i) { OvermetExactly(nodes, final, i); }
  }

  /** Entry `i` is named more often than it can bear: whatever set of entries that must wait
      for themselves is left out, more entries remain of the types it names than it lists
      dependencies. */
  ghost predicate OvermetEntry(entries: seq<Entry>, i: nat) {
    forall x :: x == {} || StuckEntries(entries, x) ==> MoreThanListed(entries, i, x)
  }

  predicate MoreThanListed(entries: seq<Entry>, i: nat, x: set<nat>) {
    i < |entries| && |Met(entries, i, x)| > |entries[i].deps|
  }

  lemma SameOvermet(entries: seq<Entry>, nodes: Nodes, i: nat)
    requires Resolution(entries, nodes)
    ensures Overmet(nodes, i) <==> OvermetEntry(entries, i)
  {
    forall x ensures Stuck(nodes, x) <==> StuckEntries(entries, x) { SameStuck(entries, nodes, x); }
    forall x ensures OverAt(nodes, All(nodes) - x, i) <==> MoreThanListed(entries, i, x) {
      if i < |entries| { assert Hits(nodes, i, All(nodes) - x) == Met(entries, i, x); }
    }
  }

  /** Which inputs the checked build underflows on, for every list of entries; on all others
      it answers as the unchecked build. */
  lemma UnderflowExactly(entries: seq<Entry>, allowed: Option<set<Name>>, firstId: Id)
    requires |entries| <= U64_MAX
    ensures Outcome(entries, allowed, firstId) ==
            if AllAllowed(entries, allowed) && AllNamed(entries) && exists i: nat :: OvermetEntry(entries, i)
            then Err(Underflow) else OutcomeUnchecked(entries, allowed, firstId)
  {
    if allowed.Some? { OffendersAre(entries, allowed.value); }
    ResolvesExactly(entries, firstId);
    if AllNamed(entries) {
      var nodes := Resolve(Names(entries, firstId), entries).value;
      CheckedVerdict(nodes);
      forall i: nat ensures Overmet(nodes, i) <==> OvermetEntry(entries, i) { SameOvermet(entries, nodes, i); }
    }
  }

  lemma NeverUnderflows(entries: seq<Entry>, allowed: Option<set<Name>>, firstId: Id)
    requires |entries| <= U64_MAX
    ensures OutcomeUnchecked(entries, allowed, firstId) != Err(Underflow)
  {
    ResolvesExactly(entries, firstId);
    if !AllNamed(entries) { UnnamedIsNotFound(Names(entries, firstId), entries); }
  }

  /** Every verdict of the checked build. */
  lemma BuildVerdict(entries: seq<Entry>, allowed: Option<set<Name>>, firstId: Id)
    requires |entries| <= U64_MAX
    ensures var r := Outcome(entries, allowed, firstId);
            var named := AllAllowed(entries, allowed) && AllNamed(entries);
            && (r.Ok? <==> named && AllEven(entries) && NoCycle(entries))
            && (r.Err? && r.error.NotAllowed? <==> !AllAllowed(entries, allowed))
            && (r.Err? && r.error.DependencyNotFound? <==> AllAllowed(entries, allowed) && !AllNamed(entries))
            && (r == Err(Underflow) <==> named && exists i: nat :: OvermetEntry(entries, i))
            && (r == Err(CycleDetected) <==>
                && named && (forall i: nat :: !OvermetEntry(entries, i))
                && exists x :: StuckEntries(entries, x))
  {
    BuildExactly(entries, allowed, firstId);
    ErrorOrder(entries, allowed, firstId);
    UnderflowExactly(entries, allowed, firstId);
    UncheckedBuildExactly(entries, allowed, firstId);
    NeverUnderflows(entries, allowed, firstId);
  }

  /** An entry that lists one dependency twice: its numbers do not match either, but the
      answer is the cycle. */
  lemma ListedTwiceIsACycle()
    ensures var entries := [Entry("a", []), Entry("b", ["a", "a"])];
            !AllEven(entries) && NoCycle(entries) && Outcome(entries, None, 0) == Err(CycleDetected)
  {
    var entries := [Entry("a", []), Entry("b", ["a", "a"])];
    assert entries[0].stepType == "a";
    forall x ensures Met(entries, 0, x) == {} && Met(entries, 1, x) <= {0} {}
    SubsetSize(Met(entries, 1, {}), {0});
    SubsetSize(Met(entries, 1, {1}), {0});
    forall i: nat ensures !OvermetEntry(entries, i) { assert !MoreThanListed(entries, i, {}); }
    assert ShortOf(entries, 1, {1});
    assert StuckEntries(entries, {1});
    assert (set j | 0 <= j < |entries| && Needs(entries, 1, j)) == Met(entries, 1, {});
    assert !Even(entries, 1);
    forall p | Chain(entries, p) && |p| >= 2 ensures p[0] != p[|p| - 1] {
      assert p[0] == 1 && p[1] == 0;
      assert Chain(entries, p[1..]) && p[1..][0] == p[1];
      assert |p[1..]| == 1;
    }
    BuildVerdict(entries, None, 0);
  }

  /** `at` lists the entries below `n` whose step types are not allowed. */
  ghost predicate OffendersAt(entries: seq<Entry>, allowed: set<Name>, n: nat, at: seq<nat>) {
    && (forall x, y :: 0 <= x < y < |at| ==> at[x] < at[y])
    && forall i :: OffendsAt(entries, allowed, n, at, i)
  }

  predicate OffendsAt(entries: seq<Entry>, allowed: set<Name>, n: nat, at: seq<nat>, i: nat) {
    i in at <==> i < n && i < |entries| && entries[i].stepType !in allowed
  }

  predicate NamesAt(entries: seq<Entry>, names: seq<Name>, at: seq<nat>) {
    |at| == |names| && forall k :: 0 <= k < |at| ==> at[k] < |entries| && names[k] == entries[at[k]].stepType
  }

  /** The step types that are not allowed are reported all, in the order of the entries. */
  lemma {:induction false} OffendersInOrder(entries: seq<Entry>, allowed: set<Name>, n: nat) returns (at: seq<nat>)
    requires n <= |entries|
    ensures OffendersAt(entries, allowed, n, at) && NamesAt(entries, Offenders(entries[..n], allowed), at)
    decreases n
  {
    if n == 0 {
      at := [];
    } else {
      var front := OffendersInOrder(entries, allowed, n - 1);
      assert entries[..n][..n - 1] == entries[..n - 1];
      at := front + if entries[n - 1].stepType in allowed then [] else [n - 1];
      forall x | 0 <= x < |front| ensures front[x] < n - 1 {
        assert OffendsAt(entries, allowed, n - 1, front, front[x]);
      }
      forall i: nat ensures OffendsAt(entries, allowed, n, at, i) {
        assert OffendsAt(entries, allowed, n - 1, front, i);
      }
    }
  }

  lemma OffendersExactly(entries: seq<Entry>, allowed: set<Name>, firstId: Id) returns (at: seq<nat>)
    requires !AllAllowed(entries, Some(allowed))
    ensures OffendersAt(entries, allowed, |entries|, at)
    ensures var r := Outcome(entries, Some(allowed), firstId);
            r.Err? && r.error.NotAllowed? && NamesAt(entries, r.error.offenders, at)
  {
    at := OffendersInOrder(entries, allowed, |entries|);
    assert entries[..|entries|] == entries;
    OffendersAre(entries, allowed);
  }

  predicate NamedUpTo(entries: seq<Entry>, deps: seq<Name>, n: nat) {
    forall k :: 0 <= k < n && k < |deps| ==> Named(entries, deps[k])
  }

  /** Dependency `k` of entry `i` names no entry, and every dependency listed before it does. */
  predicate FirstMissing(entries: seq<Entry>, i: nat, k: nat) {
    && i < |entries| && k < |entries[i].deps| && !Named(entries, entries[i].deps[k])
    && NamedUpTo(entries, entries[i].deps, k)
    && forall j :: 0 <= j < i ==> NamedUpTo(entries, entries[j].deps, |entries[j].deps|)
  }

  lemma {:induction false} DepsMissing(entries: seq<Entry>, ids: map<Name, Id>, deps: seq<Name>) returns (k: nat)
    requires forall name :: name in ids <==> Named(entries, name)
    requires ResolveDeps(ids, deps).Err?
    ensures k < |deps| && ResolveDeps(ids, deps).error == deps[k] && !Named(entries, deps[k])
    ensures NamedUpTo(entries, deps, k)
    decreases |deps|
  {
    var n := |deps| - 1;
    if ResolveDeps(ids, deps[..n]).Err? {
      k := DepsMissing(entries, ids, deps[..n]);
      forall x | 0 <= x < k ensures deps[x] == deps[..n][x] {}
    } else {
      k := n;
      ResolveDepsAre(ids, deps[..n]);
      forall x | 0 <= x < n ensures Named(entries, deps[x]) { assert deps[..n][x] in deps[..n]; }
    }
  }

  lemma {:induction false} ResolveMissing(entries: seq<Entry>, ids: map<Name, Id>, n: nat) returns (i: nat, k: nat)
    requires n <= |entries| && forall name :: name in ids <==> Named(entries, name)
    requires (forall e :: e in entries[..n] ==> e.stepType in ids) && Resolve(ids, entries[..n]).Err?
    ensures FirstMissing(entries, i, k)
    ensures Resolve(ids, entries[..n]) == Err(DependencyNotFound(entries[i].deps[k], entries[i].stepType))
    decreases n
  {
    var front := entries[..n - 1];
    assert entries[..n][..n - 1] == front && entries[..n][n - 1] == entries[n - 1];
    forall e | e in front ensures e.stepType in ids { assert e in entries[..n]; }
    if Resolve(ids, front).Err? {
      i, k := ResolveMissing(entries, ids, n - 1);
    } else {
      i := n - 1;
      k := DepsMissing(entries, ids, entries[i].deps);
      ResolveIs(ids, front);
      forall j | 0 <= j < i ensures NamedUpTo(entries, entries[j].deps, |entries[j].deps|) {
        assert front[j] == entries[j];
      }
    }
  }

  /** The dependency that is reported as not found is the first one, with the entry that lists
      it. */
  lemma MissingIsFirst(entries: seq<Entry>, allowed: Option<set<Name>>, firstId: Id) returns (i: nat, k: nat)
    requires AllAllowed(entries, allowed) && !AllNamed(entries)
    ensures FirstMissing(entries, i, k)
    ensures Outcome(entries, allowed, firstId) == Err(DependencyNotFound(entries[i].deps[k], entries[i].stepType))
  {
    if allowed.Some? { OffendersAre(entries, allowed.value); }
    ResolvesExactly(entries, firstId);
    NamesAre(entries, firstId);
    assert entries[..|entries|] == entries;
    i, k := ResolveMissing(entries, Names(entries, firstId), |entries|);
  }
}
