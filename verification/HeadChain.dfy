/** A store that compares heads atomically with the write, several sequential runs on one
    thread, and rival writers: the contract of `save_state_bound` and what `run_inner` and
    `revert_to_yielded` make of it. */
module HeadChain {
  import opened Types
  import opened Executor
  import opened Checkpoints
  import opened Sequential

  /** How a write came about: by a run's turn, by a run's rollback, or by a rival. */
  datatype Origin = ByTurn(run: nat, at: Position, resolved: Option<InterruptId>) | ByRollback(run: nat) | ByRival

  datatype Link = Link(id: Id, parent: Option<Id>, origin: Origin, body: Snapshot)

  type Chain = seq<Link>

  function Head(chain: Chain): Option<Id> {
    if chain == [] then None else Some(chain[|chain| - 1].id)
  }

  predicate Used(chain: Chain, id: Id) {
    exists i :: 0 <= i < |chain| && chain[i].id == id
  }

  predicate WrittenBy(link: Link, r: nat) {
    !link.origin.ByRival? && link.origin.run == r
  }

  /** `save_state_bound` of a head-checking store: refused, or appended to the head. */
  function Bound(chain: Chain, id: Id, expected: Option<Id>, origin: Origin, body: Snapshot): (CheckpointSave, Chain) {
    if expected != Head(chain) then (Conflict(Head(chain)), chain)
    else (if expected.None? then Created(id) else Advanced(id), chain + [Link(id, expected, origin, body)])
  }

  function RecordsOf(chain: Chain): Log {
    seq(|chain|, i requires 0 <= i < |chain| => Record(chain[i].id, chain[i].body))
  }

  /** The thread in a head-checking store is this chain. */
  ghost predicate Holds(store: Checkpointer, thread: Name, chain: Chain)
    reads store
  {
    store.checksHeads && store.LogOf(thread) == RecordsOf(chain) && store.HeadOf(thread) == Head(chain)
  }

  /** The compare-and-swap on the chain is the one on the store: the same answer, and the store
      holds the chain that `Bound` gives, under an id no link has yet. */
  method SaveOnChain(store: Checkpointer, thread: Name, expected: Option<Id>, origin: Origin, body: Snapshot,
                     ghost chain: Chain)
    returns (answer: CheckpointSave, ghost after: Chain)
    requires store.Valid() && Holds(store, thread, chain)
    modifies store
    ensures store.Valid() && Holds(store, thread, after)
    ensures (answer, after) == Bound(chain, old(store.nextId), expected, origin, body)
    ensures !Used(chain, old(store.nextId))
    ensures forall t :: t != thread ==> store.HeadOf(t) == old(store.HeadOf(t)) && store.LogOf(t) == old(store.LogOf(t))
  {
    ghost var id := store.nextId;
    forall i | 0 <= i < |chain| ensures chain[i].id != id { assert store.LogOf(thread)[i].id == chain[i].id; }
    answer := store.SaveStateBound(thread, body, expected);
    after := Bound(chain, id, expected, origin, body).1;
  }

  /** `undo` is the gate a resumed run rolls back to when it fails; `head` is the head the
      run last read or wrote. */
  datatype Phase =
    | Going(at: Position, resolved: Option<InterruptId>, head: Option<Id>, undo: Option<Snapshot>)
    | Failing(head: Option<Id>, gate: Snapshot, refused: bool)
    | Over(head: Option<Id>, refused: bool)

  datatype System = System(chain: Chain, runs: map<nat, Phase>)

  datatype Action =
    | Begin(r: nat, at: Position, resolved: Option<InterruptId>, undo: Option<Snapshot>)
    | Turn(r: nat, id: Id)
    | RollBack(r: nat, id: Id)
    | RivalWrite(id: Id, expected: Option<Id>, body: Snapshot)

  function Fail(p: Phase, refused: bool): Phase
    requires p.Going?
  {
    if p.undo.Some? then Failing(p.head, p.undo.value, refused) else Over(p.head, refused)
  }

  /** A run reads the head after its state was loaded, so `at` may be out of date by then. */
  function Next(g: Graph, s: System, a: Action): System {
    match a
    case Begin(r, at, resolved, undo) =>
      if r in s.runs then s
      else s.(runs := s.runs[r := Going(at, resolved, Head(s.chain), undo)])
    case Turn(r, id) =>
      if r !in s.runs || !s.runs[r].Going? || Used(s.chain, id) then s
      else
        var p := s.runs[r];
        var origin := ByTurn(r, p.at, p.resolved);
        (match Step(g, p.at, p.resolved)
         case Advance(next, save, _) =>
           var (answer, chain) := Bound(s.chain, id, p.head, origin, save);
           var phase := if answer.Conflict? then Fail(p, true) else Going(next, p.resolved, Some(id), p.undo);
           System(chain, s.runs[r := phase])
         case Stop(result, Some(save), _) =>
           var (answer, chain) := Bound(s.chain, id, p.head, origin, save);
           System(chain, s.runs[r := if answer.Conflict? then Fail(p, true) else Over(Some(id), false)])
         case Stop(result, None, _) =>
           s.(runs := s.runs[r := if result.Ok? then Over(p.head, false) else Fail(p, false)]))
    case RollBack(r, id) =>
      if r !in s.runs || !s.runs[r].Failing? || Used(s.chain, id) then s
      else
        var p := s.runs[r];
        var (answer, chain) := Bound(s.chain, id, p.head, ByRollback(r), p.gate);
        System(chain, s.runs[r := Over(if answer.Conflict? then p.head else Some(id), p.refused || answer.Conflict?)])
    case RivalWrite(id, expected, body) =>
      if Used(s.chain, id) then s else s.(chain := Bound(s.chain, id, expected, ByRival, body).1)
  }

  function Execute(g: Graph, s: System, actions: seq<Action>): System
    decreases |actions|
  {
    if actions == [] then s else Execute(g, Next(g, s, actions[0]), actions[1..])
  }

  /** No fork: every link names its predecessor and no id occurs twice. */
  ghost predicate Linear(chain: Chain) {
    && (forall i :: 0 <= i < |chain| ==> chain[i].parent == Head(chain[..i]))
    && (forall i, j :: 0 <= i < j < |chain| ==> chain[i].id != chain[j].id)
  }

  /** The write of a turn is what that turn computes. */
  predicate Genuine(g: Graph, link: Link) {
    link.origin.ByTurn? ==>
      match Step(g, link.origin.at, link.origin.resolved)
      case Advance(_, save, _) => save == link.body
      case Stop(_, saved, _) => saved == Some(link.body)
  }

  /** The position is at the node and state of the record. */
  predicate StartsFrom(at: Position, record: Snapshot) {
    at.node == record.nextNode && at.state == record.state
  }

  /** If link `i` is a turn behind a write of the same run, the turn started from the node
      and state that write recorded. */
  predicate Follows(chain: Chain, i: nat)
    requires 0 < i < |chain|
  {
    var earlier, later := chain[i - 1], chain[i];
    later.origin.ByTurn? && WrittenBy(earlier, later.origin.run) ==>
      earlier.origin.ByTurn? && StartsFrom(later.origin.at, earlier.body)
  }

  /** The writes of one run stand next to each other. */
  ghost predicate Contiguous(chain: Chain, r: nat) {
    forall i, k, j :: 0 <= i < k < j < |chain| && WrittenBy(chain[i], r) && WrittenBy(chain[j], r) ==>
        WrittenBy(chain[k], r)
  }

  ghost predicate Sound(chain: Chain) {
    && Linear(chain)
    && (forall i :: 0 < i < |chain| ==> Follows(chain, i))
    && (forall r :: Contiguous(chain, r))
  }

  /** A head the chain has moved past; since ids are never reused it never comes back. */
  predicate Stale(chain: Chain, head: Option<Id>) {
    match head
    case None => chain != []
    case Some(x) => exists i :: 0 <= i < |chain| - 1 && chain[i].id == x
  }

  predicate Known(chain: Chain, head: Option<Id>) {
    head.None? || Used(chain, head.value)
  }

  /** Link `i` is run `r`'s last write so far. */
  predicate LastOf(chain: Chain, r: nat, i: nat) {
    i < |chain| && WrittenBy(chain[i], r) && (i + 1 < |chain| ==> !WrittenBy(chain[i + 1], r))
  }

  /** A run's head is known; once it wrote, it is the id of its last write, which a running
      run continues; a refused run's head is stale. */
  ghost predicate RunOk(chain: Chain, r: nat, p: Phase) {
    && Known(chain, p.head)
    && (forall i: nat :: LastOf(chain, r, i) ==>
          && p.head == Some(chain[i].id)
          && (p.Going? ==> chain[i].origin.ByTurn? && StartsFrom(p.at, chain[i].body)))
    && (!p.Going? && p.refused ==> Stale(chain, p.head))
  }

  ghost predicate AllRunsOk(chain: Chain, runs: map<nat, Phase>) {
    forall q :: q in runs ==> RunOk(chain, q, runs[q])
  }

  predicate AllKnown(chain: Chain, runs: map<nat, Phase>) {
    forall i :: 0 <= i < |chain| && !chain[i].origin.ByRival? ==> chain[i].origin.run in runs
  }

  ghost predicate Inv(s: System) {
    Sound(s.chain) && AllRunsOk(s.chain, s.runs) && AllKnown(s.chain, s.runs)
  }

  lemma LastWrite(chain: Chain, r: nat, i: nat) returns (last: nat)
    requires i < |chain| && WrittenBy(chain[i], r)
    ensures i <= last && LastOf(chain, r, last)
    decreases |chain| - i
  {
    if i + 1 < |chain| && WrittenBy(chain[i + 1], r) {
      last := LastWrite(chain, r, i + 1);
    } else {
      last := i;
    }
  }

  /** A fresh link on the head keeps the chain linear. */
  lemma AppendLinear(chain: Chain, link: Link)
    requires Linear(chain) && !Used(chain, link.id) && link.parent == Head(chain)
    ensures Linear(chain + [link])
  {
    var longer := chain + [link];
    forall i | 0 <= i < |longer| ensures longer[i].parent == Head(longer[..i]) {
      assert longer[..i] == chain[..i];
      assert chain[..|chain|] == chain;
    }
  }

  /** Somebody else's write leaves a run's knowledge intact. */
  lemma OthersUnmoved(chain: Chain, link: Link, q: nat, p: Phase)
    requires RunOk(chain, q, p) && !WrittenBy(link, q)
    ensures RunOk(chain + [link], q, p)
  {
    var longer := chain + [link];
    if p.head.Some? {
      var i :| 0 <= i < |chain| && chain[i].id == p.head.value;
      assert longer[i].id == p.head.value;
    }
    if !p.Going? && p.refused && p.head.Some? {
      var i :| 0 <= i < |chain| - 1 && chain[i].id == p.head.value;
      assert longer[i].id == p.head.value;
    }
    forall i: nat | LastOf(longer, q, i)
      ensures LastOf(chain, q, i) && longer[i] == chain[i]
    {
      if i + 1 < |chain| { assert longer[i + 1] == chain[i + 1]; }
    }
  }

  /** A run's accepted write sits right behind its previous one and continues it. */
  lemma OwnWrite(chain: Chain, link: Link, r: nat, p: Phase)
    requires Sound(chain) && RunOk(chain, r, p)
    requires p.head == Head(chain) == link.parent && !Used(chain, link.id)
    requires WrittenBy(link, r)
    requires link.origin.ByTurn? ==> p.Going? && link.origin.at == p.at
    ensures Sound(chain + [link])
    ensures forall i: nat :: LastOf(chain + [link], r, i) ==> i == |chain|
  {
    var longer := chain + [link];
    AppendLinear(chain, link);
    OwnFollows(chain, link, r, p);
    OwnContiguous(chain, link, r);
    forall q ensures Contiguous(longer, q) {
      if q != r { OthersContiguous(chain, link, q); }
    }
    OldFollows(chain, link);
    forall i | 0 < i < |longer| ensures Follows(longer, i) {
      if i < |chain| { assert Follows(chain + [link], i); }
    }
  }

  /** If the run has written before, its last write is the head it continues from. */
  lemma OwnIsLast(chain: Chain, r: nat, p: Phase, i: nat)
    requires Sound(chain) && RunOk(chain, r, p) && p.head == Head(chain)
    requires i < |chain| && WrittenBy(chain[i], r)
    ensures LastOf(chain, r, |chain| - 1)
  {
    var last := LastWrite(chain, r, i);
    assert p.head == Some(chain[last].id);
    assert last == |chain| - 1;
  }

  lemma OwnFollows(chain: Chain, link: Link, r: nat, p: Phase)
    requires Sound(chain) && RunOk(chain, r, p) && p.head == Head(chain) && WrittenBy(link, r)
    requires link.origin.ByTurn? ==> p.Going? && link.origin.at == p.at
    ensures forall i :: 0 <= i < |chain| && WrittenBy(chain[i], r) ==> WrittenBy(chain[|chain| - 1], r)
    ensures chain != [] ==> Follows(chain + [link], |chain|)
  {
    forall i: nat | i < |chain| && WrittenBy(chain[i], r) ensures LastOf(chain, r, |chain| - 1) {
      OwnIsLast(chain, r, p, i);
    }
  }

  lemma OwnContiguous(chain: Chain, link: Link, r: nat)
    requires Contiguous(chain, r) && WrittenBy(link, r)
    requires forall i :: 0 <= i < |chain| && WrittenBy(chain[i], r) ==> WrittenBy(chain[|chain| - 1], r)
    ensures Contiguous(chain + [link], r)
    ensures forall i: nat :: LastOf(chain + [link], r, i) ==> i == |chain|
  {
    var longer := chain + [link];
    forall i, k, j | 0 <= i < k < j < |longer| && WrittenBy(longer[i], r) && WrittenBy(longer[j], r)
      ensures WrittenBy(longer[k], r)
    {
      assert WrittenBy(chain[i], r);
      assert k < |chain| - 1 ==> WrittenBy(chain[k], r);
    }
    forall i | 0 <= i < |chain| && WrittenBy(chain[i], r)
      ensures WrittenBy(longer[i + 1], r)
    {
      if i + 1 < |chain| { assert longer[i + 1] == chain[i + 1]; }
    }
  }

  lemma OldFollows(chain: Chain, link: Link)
    requires forall i :: 0 < i < |chain| ==> Follows(chain, i)
    ensures forall i :: 0 < i < |chain| ==> Follows(chain + [link], i)
  {
    forall i | 0 < i < |chain| ensures Follows(chain + [link], i) {
      assert Follows(chain, i);
    }
  }

  lemma OthersContiguous(chain: Chain, link: Link, q: nat)
    requires Contiguous(chain, q) && !WrittenBy(link, q)
    ensures Contiguous(chain + [link], q)
  {
    var longer := chain + [link];
    forall i, k, j | 0 <= i < k < j < |longer| && WrittenBy(longer[i], q) && WrittenBy(longer[j], q)
      ensures WrittenBy(longer[k], q)
    {
      assert longer[j] == chain[j] && longer[i] == chain[i] && longer[k] == chain[k];
    }
  }

  lemma RivalKeepsSound(chain: Chain, link: Link)
    requires Sound(chain) && link.origin.ByRival? && link.parent == Head(chain) && !Used(chain, link.id)
    ensures Sound(chain + [link])
  {
    AppendLinear(chain, link);
    var longer := chain + [link];
    forall q ensures Contiguous(longer, q) { OthersContiguous(chain, link, q); }
    OldFollows(chain, link);
  }

  /** A known head that is not the current one is stale. */
  lemma RefusedIsStale(chain: Chain, head: Option<Id>)
    requires Known(chain, head) && head != Head(chain)
    ensures Stale(chain, head)
  {
    if head.Some? {
      var i :| 0 <= i < |chain| && chain[i].id == head.value;
      assert i < |chain| - 1;
    }
  }

  /** An accepted write of run `r`. */
  lemma WriteKeepsInv(s: System, r: nat, link: Link, phase: Phase)
    requires Inv(s) && r in s.runs && !s.runs[r].Over? && !Used(s.chain, link.id)
    requires link.parent == s.runs[r].head == Head(s.chain) && WrittenBy(link, r)
    requires link.origin.ByTurn? ==> s.runs[r].Going? && link.origin.at == s.runs[r].at
    requires phase.head == Some(link.id) && (!phase.Going? ==> !phase.refused)
    requires phase.Going? ==> link.origin.ByTurn? && StartsFrom(phase.at, link.body)
    ensures Inv(System(s.chain + [link], s.runs[r := phase]))
  {
    OwnWrite(s.chain, link, r, s.runs[r]);
    OwnRunOk(s.chain, link, r, phase);
    AllOthersUnmoved(s, r, link);
    InvAgain(s, r, link, phase);
  }

  lemma InvAgain(s: System, r: nat, link: Link, phase: Phase)
    requires r in s.runs && WrittenBy(link, r) && AllKnown(s.chain, s.runs)
    requires Sound(s.chain + [link]) && RunOk(s.chain + [link], r, phase)
    requires forall q :: q in s.runs && q != r ==> RunOk(s.chain + [link], q, s.runs[q])
    ensures Inv(System(s.chain + [link], s.runs[r := phase]))
  {
    var chain, runs := s.chain + [link], s.runs[r := phase];
    forall q | q in runs ensures RunOk(chain, q, runs[q]) {}
    forall i | 0 <= i < |chain| && !chain[i].origin.ByRival? ensures chain[i].origin.run in runs {}
  }

  lemma AllOthersUnmoved(s: System, r: nat, link: Link)
    requires Inv(s) && WrittenBy(link, r)
    ensures forall q :: q in s.runs && q != r ==> RunOk(s.chain + [link], q, s.runs[q])
  {
    forall q | q in s.runs && q != r ensures RunOk(s.chain + [link], q, s.runs[q]) {
      OthersUnmoved(s.chain, link, q, s.runs[q]);
    }
  }

  lemma OwnRunOk(chain: Chain, link: Link, r: nat, phase: Phase)
    requires forall i: nat :: LastOf(chain + [link], r, i) ==> i == |chain|
    requires phase.head == Some(link.id) && (!phase.Going? ==> !phase.refused)
    requires phase.Going? ==> link.origin.ByTurn? && StartsFrom(phase.at, link.body)
    ensures RunOk(chain + [link], r, phase)
  {
    assert (chain + [link])[|chain|] == link;
  }

  /** A refused write of run `r`. */
  lemma RefusalKeepsInv(s: System, r: nat, phase: Phase)
    requires Inv(s) && r in s.runs && s.runs[r].head != Head(s.chain)
    requires !phase.Going? && phase.head == s.runs[r].head
    ensures Inv(s.(runs := s.runs[r := phase]))
  {
    RefusedIsStale(s.chain, s.runs[r].head);
  }

  lemma BeginKeepsInv(g: Graph, s: System, a: Action)
    requires Inv(s) && a.Begin? && a.r !in s.runs
    ensures Inv(Next(g, s, a))
  {
    if s.chain != [] { assert s.chain[|s.chain| - 1].id == Head(s.chain).value; }
  }

  lemma TurnKeepsInv(g: Graph, s: System, r: nat, id: Id)
    requires Inv(s) && r in s.runs && s.runs[r].Going? && !Used(s.chain, id)
    ensures Inv(Next(g, s, Turn(r, id)))
  {
    var p := s.runs[r];
    StepShape(g, p.at, p.resolved);
    var turn := Step(g, p.at, p.resolved);
    if turn.Advance? || turn.saved.Some? {
      if p.head != Head(s.chain) {
        RefusalKeepsInv(s, r, Fail(p, true));
      } else {
        var link := Link(id, p.head, ByTurn(r, p.at, p.resolved),
            if turn.Advance? then turn.save else turn.saved.value);
        var phase := if turn.Advance? then Going(turn.next, p.resolved, Some(id), p.undo) else Over(Some(id), false);
        WriteKeepsInv(s, r, link, phase);
      }
    }
  }

  lemma StaleIsNotHead(chain: Chain, head: Option<Id>)
    requires Linear(chain) && Stale(chain, head)
    ensures head != Head(chain)
  {
  }

  lemma RollBackKeepsInv(g: Graph, s: System, r: nat, id: Id)
    requires Inv(s) && r in s.runs && s.runs[r].Failing? && !Used(s.chain, id)
    ensures Inv(Next(g, s, RollBack(r, id)))
  {
    var p := s.runs[r];
    if p.head != Head(s.chain) {
      RefusalKeepsInv(s, r, Over(p.head, true));
    } else {
      if p.refused { StaleIsNotHead(s.chain, p.head); }
      WriteKeepsInv(s, r, Link(id, p.head, ByRollback(r), p.gate), Over(Some(id), false));
    }
  }

  lemma StepKeepsInv(g: Graph, s: System, a: Action)
    requires Inv(s)
    ensures Inv(Next(g, s, a))
  {
    match a
    case Begin(r, _, _, _) =>
      if r !in s.runs { BeginKeepsInv(g, s, a); }
    case Turn(r, id) =>
      if r in s.runs && s.runs[r].Going? && !Used(s.chain, id) { TurnKeepsInv(g, s, r, id); }
    case RollBack(r, id) =>
      if r in s.runs && s.runs[r].Failing? && !Used(s.chain, id) {
        RollBackKeepsInv(g, s, r, id);
      }
    case RivalWrite(id, expected, body) =>
      if !Used(s.chain, id) && expected == Head(s.chain) {
        var link := Link(id, expected, ByRival, body);
        RivalKeepsSound(s.chain, link);
        forall q | q in s.runs ensures RunOk(s.chain + [link], q, s.runs[q]) {
          OthersUnmoved(s.chain, link, q, s.runs[q]);
        }
      }
  }

  lemma {:induction false} ExecuteKeepsInv(g: Graph, s: System, actions: seq<Action>)
    requires Inv(s)
    ensures Inv(Execute(g, s, actions))
    decreases |actions|
  {
    if actions != [] {
      StepKeepsInv(g, s, actions[0]);
      ExecuteKeepsInv(g, Next(g, s, actions[0]), actions[1..]);
    }
  }

  ghost predicate AllGenuine(g: Graph, chain: Chain) {
    forall i :: 0 <= i < |chain| ==> Genuine(g, chain[i])
  }

  lemma GenuineStep(g: Graph, s: System, a: Action)
    requires AllGenuine(g, s.chain)
    ensures AllGenuine(g, Next(g, s, a).chain)
  {
    var chain := Next(g, s, a).chain;
    if chain != s.chain {
      assert |chain| == |s.chain| + 1 && chain[..|s.chain|] == s.chain;
      assert Genuine(g, chain[|s.chain|]);
    }
  }

  lemma {:induction false} WritesAreGenuine(g: Graph, s: System, actions: seq<Action>)
    requires AllGenuine(g, s.chain)
    ensures AllGenuine(g, Execute(g, s, actions).chain)
    decreases |actions|
  {
    if actions != [] {
      GenuineStep(g, s, actions[0]);
      WritesAreGenuine(g, Next(g, s, actions[0]), actions[1..]);
    }
  }

  /** No fork. Any interleaving of runs and rivals leaves one linear chain; the writes of one
      run stand next to each other in it; and a turn that follows another write of its run
      records exactly what one turn of the executor makes of that write's node and state. */
  lemma NoFork(g: Graph, actions: seq<Action>)
    ensures var chain := Execute(g, System([], map[]), actions).chain;
            && Linear(chain)
            && (forall r :: Contiguous(chain, r))
            && (forall i :: 0 < i < |chain| ==> Follows(chain, i))
            && AllGenuine(g, chain)
  {
    ExecuteKeepsInv(g, System([], map[]), actions);
    WritesAreGenuine(g, System([], map[]), actions);
  }

  predicate Refused(s: System, r: nat) {
    r in s.runs && !s.runs[r].Going? && s.runs[r].refused
  }

  /** `after` extends `before` by links that are not `r`'s. */
  ghost predicate GrownWithout(before: Chain, after: Chain, r: nat) {
    && |before| <= |after| && after[..|before|] == before
    && forall i :: |before| <= i < |after| ==> !WrittenBy(after[i], r)
  }

  lemma GrowthComposes(a: Chain, b: Chain, c: Chain, r: nat)
    requires GrownWithout(a, b, r) && GrownWithout(b, c, r)
    ensures GrownWithout(a, c, r)
  {
    assert c[..|a|] == c[..|b|][..|a|];
    forall i | |a| <= i < |c| ensures !WrittenBy(c[i], r) {
      if i < |b| { assert c[i] == c[..|b|][i] == b[i]; }
    }
  }

  lemma RefusedStep(g: Graph, s: System, a: Action, r: nat)
    requires Inv(s) && Refused(s, r)
    ensures var t := Next(g, s, a);
            Refused(t, r) && GrownWithout(s.chain, t.chain, r)
  {
    StaleIsNotHead(s.chain, s.runs[r].head);
    if a.Turn? {
      if a.r != r { TurnGrows(g, s, a.r, a.id, r); }
    } else if a.RollBack? {
      RollBackGrows(g, s, a.r, a.id, r);
    }
  }

  lemma RollBackGrows(g: Graph, s: System, q: nat, id: Id, r: nat)
    requires Refused(s, r) && s.runs[r].head != Head(s.chain)
    ensures var t := Next(g, s, RollBack(q, id)); Refused(t, r) && GrownWithout(s.chain, t.chain, r)
  {
  }

  lemma TurnGrows(g: Graph, s: System, q: nat, id: Id, r: nat)
    requires q != r
    ensures GrownWithout(s.chain, Next(g, s, Turn(q, id)).chain, r)
    ensures r in s.runs ==> r in Next(g, s, Turn(q, id)).runs && Next(g, s, Turn(q, id)).runs[r] == s.runs[r]
  {
  }

  /** A run refused once adds nothing afterwards, its rollback included, and nothing it or
      anyone wrote before is ever lost. */
  lemma {:induction false} RefusedAddsNothing(g: Graph, s: System, actions: seq<Action>, r: nat)
    requires Inv(s) && Refused(s, r)
    ensures var t := Execute(g, s, actions);
            Refused(t, r) && GrownWithout(s.chain, t.chain, r)
    decreases |actions|
  {
    if actions != [] {
      var s' := Next(g, s, actions[0]);
      StepKeepsInv(g, s, actions[0]);
      RefusedStep(g, s, actions[0], r);
      RefusedAddsNothing(g, s', actions[1..], r);
      GrowthComposes(s.chain, s'.chain, Execute(g, s', actions[1..]).chain, r);
    }
  }

  /** A refusal is exactly a head that moved: a run's write is turned down if and only if
      somebody else wrote since the run last read or wrote the head. */
  lemma RefusedExactlyWhenOvertaken(g: Graph, s: System, r: nat, id: Id)
    requires Inv(s) && r in s.runs && s.runs[r].Going? && !Used(s.chain, id)
    requires var turn := Step(g, s.runs[r].at, s.runs[r].resolved); turn.Advance? || turn.saved.Some?
    ensures var t := Next(g, s, Turn(r, id));
            && (t.chain == s.chain <==> Stale(s.chain, s.runs[r].head))
            && (t.chain == s.chain <==> Refused(t, r))
  {
    var p := s.runs[r];
    if p.head != Head(s.chain) {
      RefusedIsStale(s.chain, p.head);
    } else if Stale(s.chain, p.head) {
      StaleIsNotHead(s.chain, p.head);
    }
  }

  lemma {:induction false} ExecuteGrows(g: Graph, s: System, actions: seq<Action>)
    ensures s.chain <= Execute(g, s, actions).chain
    decreases |actions|
  {
    if actions != [] {
      var s' := Next(g, s, actions[0]);
      assert s.chain <= s'.chain;
      ExecuteGrows(g, s', actions[1..]);
    }
  }

  /** Link `i` is run `r`'s first write. */
  predicate FirstOf(chain: Chain, r: nat, i: nat) {
    i < |chain| && WrittenBy(chain[i], r) && forall j :: 0 <= j < i ==> !WrittenBy(chain[j], r)
  }

  /** Run `r`, started from `at` when the chain was `base`, has not written yet. */
  ghost predicate Silent(s: System, r: nat, base: Chain, at: Position, resolved: Option<InterruptId>) {
    && r in s.runs && base <= s.chain && (forall i :: 0 <= i < |s.chain| ==> !WrittenBy(s.chain[i], r))
    && match s.runs[r]
       case Going(p, res, head, _) => p == at && res == resolved && head == Head(base)
       case Failing(head, _, _) => head == Head(base)
       case Over(_, _) => true
  }

  /** Run `r`'s first link stands right on `base`; a turn there started from `at`. */
  predicate FirstLink(chain: Chain, r: nat, base: Chain, at: Position, resolved: Option<InterruptId>) {
    && |base| < |chain| && base <= chain
    && WrittenBy(chain[|base|], r) && FirstOf(chain, r, |base|)
    && chain[|base|].parent == Head(base)
    && (chain[|base|].origin.ByTurn? ==> chain[|base|].origin.at == at && chain[|base|].origin.resolved == resolved)
  }

  lemma SameHeadSameChain(base: Chain, chain: Chain)
    requires Linear(chain) && base <= chain && Head(base) == Head(chain)
    ensures base == chain
  {
    assert base != [] ==> chain[|base| - 1] == base[|base| - 1];
  }

  /** A step of another run, of a rival, or one that adds no link leaves a silent run silent. */
  lemma OthersKeepSilence(g: Graph, s: System, a: Action, r: nat, base: Chain, at: Position,
                          resolved: Option<InterruptId>)
    requires Inv(s) && Silent(s, r, base, at, resolved)
    requires (a.Begin? || a.RivalWrite?) || a.r != r
    ensures Silent(Next(g, s, a), r, base, at, resolved)
  {
    if a.Turn? { TurnGrows(g, s, a.r, a.id, r); }
  }

  /** What a run's turn does to the chain and to the run. */
  lemma TurnOutcome(g: Graph, s: System, r: nat, id: Id)
    requires r in s.runs && s.runs[r].Going? && !Used(s.chain, id)
    ensures var p, t := s.runs[r], Next(g, s, Turn(r, id));
            && r in t.runs
            && (t.chain == s.chain ==> t.runs[r].Over? || (t.runs[r].Failing? && t.runs[r].head == p.head))
            && (t.chain != s.chain ==>
                && p.head == Head(s.chain) && |t.chain| == |s.chain| + 1 && s.chain <= t.chain
                && var link := t.chain[|s.chain|];
                link.parent == p.head && link.origin == ByTurn(r, p.at, p.resolved))
  {
    StepShape(g, s.runs[r].at, s.runs[r].resolved);
  }

  lemma FirstLinkAppended(chain: Chain, longer: Chain, r: nat, base: Chain, at: Position, resolved: Option<InterruptId>)
    requires Linear(chain) && base <= chain && Head(base) == Head(chain)
    requires forall i :: 0 <= i < |chain| ==> !WrittenBy(chain[i], r)
    requires |longer| == |chain| + 1 && chain <= longer
    requires var link := longer[|chain|];
             && WrittenBy(link, r) && link.parent == Head(chain)
             && (link.origin.ByTurn? ==> link.origin.at == at && link.origin.resolved == resolved)
    ensures FirstLink(longer, r, base, at, resolved)
  {
    SameHeadSameChain(base, chain);
    assert forall j :: 0 <= j < |chain| ==> longer[j] == chain[j];
  }

  lemma OwnTurnBreaksSilence(g: Graph, s: System, id: Id, r: nat, base: Chain, at: Position,
                             resolved: Option<InterruptId>)
    requires Inv(s) && Silent(s, r, base, at, resolved)
    ensures var t := Next(g, s, Turn(r, id));
            Silent(t, r, base, at, resolved) || FirstLink(t.chain, r, base, at, resolved)
  {
    var t := Next(g, s, Turn(r, id));
    if s.runs[r].Going? && !Used(s.chain, id) {
      TurnOutcome(g, s, r, id);
      if t.chain != s.chain {
        FirstLinkAppended(s.chain, t.chain, r, base, at, resolved);
      }
    }
  }

  lemma OwnRollBackBreaksSilence(g: Graph, s: System, id: Id, r: nat, base: Chain, at: Position,
                                 resolved: Option<InterruptId>)
    requires Inv(s) && Silent(s, r, base, at, resolved)
    ensures var t := Next(g, s, RollBack(r, id));
            Silent(t, r, base, at, resolved) || FirstLink(t.chain, r, base, at, resolved)
  {
    var t := Next(g, s, RollBack(r, id));
    if t.chain != s.chain {
      FirstLinkAppended(s.chain, t.chain, r, base, at, resolved);
    }
  }

  /** A silent run stays silent, or makes its first write on the chain it read the head of. */
  lemma SilentStep(g: Graph, s: System, a: Action, r: nat, base: Chain, at: Position, resolved: Option<InterruptId>)
    requires Inv(s) && Silent(s, r, base, at, resolved)
    ensures var t := Next(g, s, a);
            Silent(t, r, base, at, resolved) || FirstLink(t.chain, r, base, at, resolved)
  {
    if a.Turn? && a.r == r {
      OwnTurnBreaksSilence(g, s, a.id, r, base, at, resolved);
    } else if a.RollBack? && a.r == r {
      OwnRollBackBreaksSilence(g, s, a.id, r, base, at, resolved);
    } else {
      OthersKeepSilence(g, s, a, r, base, at, resolved);
    }
  }

  lemma FirstLinkStays(chain: Chain, longer: Chain, r: nat, base: Chain, at: Position, resolved: Option<InterruptId>)
    requires FirstLink(chain, r, base, at, resolved) && chain <= longer
    ensures FirstLink(longer, r, base, at, resolved)
  {
    assert forall j :: 0 <= j < |chain| ==> longer[j] == chain[j];
  }

  lemma {:induction false} SilentRun(g: Graph, s: System, actions: seq<Action>, r: nat, base: Chain, at: Position,
                                     resolved: Option<InterruptId>)
    requires Inv(s) && Silent(s, r, base, at, resolved)
    ensures var t := Execute(g, s, actions);
            Silent(t, r, base, at, resolved) || FirstLink(t.chain, r, base, at, resolved)
    decreases |actions|
  {
    if actions != [] {
      var s' := Next(g, s, actions[0]);
      SilentStep(g, s, actions[0], r, base, at, resolved);
      StepKeepsInv(g, s, actions[0]);
      if Silent(s', r, base, at, resolved) {
        SilentRun(g, s', actions[1..], r, base, at, resolved);
      } else {
        ExecuteGrows(g, s', actions[1..]);
        FirstLinkStays(s'.chain, Execute(g, s', actions[1..]).chain, r, base, at, resolved);
      }
    }
  }

  /** A write that continues the record before it: the turn started from its node and state. */
  predicate Continues(chain: Chain, i: nat) {
    0 < i < |chain| && chain[i].origin.ByTurn? && StartsFrom(chain[i].origin.at, chain[i - 1].body)
  }

  /** A run's first write, in every interleaving. It stands right on the chain as it was when
      the run read the head. A first turn therefore continues the record before it exactly
      when that chain's last record has the node and state the run was started from; for a
      run started from an earlier record `loaded`, exactly when nothing with another node or
      state became the latest record between loading it and reading the head. */
  lemma FirstWrite(g: Graph, s: System, r: nat, at: Position, resolved: Option<InterruptId>, undo: Option<Snapshot>,
                   actions: seq<Action>, i: nat)
    requires Inv(s) && r !in s.runs
    requires FirstOf(Execute(g, Next(g, s, Begin(r, at, resolved, undo)), actions).chain, r, i)
    ensures var base, chain := s.chain, Execute(g, Next(g, s, Begin(r, at, resolved, undo)), actions).chain;
            && i == |base| && base <= chain && chain[i].parent == Head(base)
            && (chain[i].origin.ByTurn? && base != [] ==>
                && chain[i].origin.at == at
                && (Continues(chain, i) <==> StartsFrom(at, base[|base| - 1].body))
                && forall loaded :: 0 <= loaded < |base| && StartsFrom(at, base[loaded].body) ==>
                     (Continues(chain, i) <==>
                      base[|base| - 1].body.nextNode == base[loaded].body.nextNode &&
                      base[|base| - 1].body.state == base[loaded].body.state))
  {
    var s' := Next(g, s, Begin(r, at, resolved, undo));
    forall j | 0 <= j < |s.chain| ensures !WrittenBy(s.chain[j], r) {}
    StepKeepsInv(g, s, Begin(r, at, resolved, undo));
    SilentRun(g, s', actions, r, s.chain, at, resolved);
    var chain := Execute(g, s', actions).chain;
    assert FirstLink(chain, r, s.chain, at, resolved);
    assert i == |s.chain|;
  }

  lemma {:induction false} ExecuteSplit(g: Graph, s: System, actions: seq<Action>, k: nat)
    requires k < |actions|
    ensures Execute(g, s, actions) == Execute(g, Next(g, Execute(g, s, actions[..k]), actions[k]), actions[k + 1..])
    decreases k
  {
    if k > 0 {
      ExecuteSplit(g, Next(g, s, actions[0]), actions[1..], k - 1);
      assert actions[1..][..k - 1] == actions[..k][1..] && actions[1..][k - 1 + 1..] == actions[k + 1..];
    } else {
      assert actions[..0] == [];
    }
  }

  /** A run in the system was begun by some action. */
  lemma {:induction false} BegunBy(g: Graph, s: System, actions: seq<Action>, r: nat) returns (k: nat)
    requires r !in s.runs && r in Execute(g, s, actions).runs
    ensures k < |actions| && actions[k].Begin? && actions[k].r == r && r !in Execute(g, s, actions[..k]).runs
    decreases |actions|
  {
    var s' := Next(g, s, actions[0]);
    if r in s'.runs {
      k := 0;
      assert actions[..0] == [];
    } else {
      var m := BegunBy(g, s', actions[1..], r);
      k := m + 1;
      assert actions[..k][1..] == actions[1..][..m];
    }
  }

  /** No fork, first writes included. In the chain any interleaving leaves, the first write of
      every run stands right on the chain of the moment the run read the head, and a turn
      among these started from the position the run was begun with. */
  lemma FirstWritesStandOnTheirHead(g: Graph, actions: seq<Action>, r: nat, i: nat) returns (k: nat)
    requires FirstOf(Execute(g, System([], map[]), actions).chain, r, i)
    ensures var chain := Execute(g, System([], map[]), actions).chain;
            && k < |actions| && actions[k].Begin? && actions[k].r == r
            && Execute(g, System([], map[]), actions[..k]).chain == chain[..i]
            && chain[i].parent == Head(chain[..i])
            && (chain[i].origin.ByTurn? && i > 0 ==>
                chain[i].origin.at == actions[k].at &&
                (Continues(chain, i) <==> StartsFrom(actions[k].at, chain[i - 1].body)))
  {
    var start := System([], map[]);
    ExecuteKeepsInv(g, start, actions);
    var end := Execute(g, start, actions);
    assert end.chain[i].origin.run in end.runs;
    k := BegunBy(g, start, actions, r);
    ExecuteKeepsInv(g, start, actions[..k]);
    ExecuteSplit(g, start, actions, k);
    var b := actions[k];
    FirstWrite(g, Execute(g, start, actions[..k]), r, b.at, b.resolved, b.undo, actions[k + 1..], i);
  }

  /** Only a run's second and later writes are known to continue their predecessor: the state
      is loaded before the head is read, so a first write may be accepted on top of a record
      whose state it never saw. */
  lemma FirstWriteMayBeStale(g: Graph, p: Position, theirs: Snapshot)
    requires Step(g, p, None).Advance? && theirs.state != p.state
    ensures var actions := [RivalWrite(0, None, theirs), Begin(0, p, None, None), Turn(0, 1)];
            var chain := Execute(g, System([], map[]), actions).chain;
            && |chain| == 2 && chain[1].parent == Some(0) && chain[0].body == theirs
            && chain[1].origin == ByTurn(0, p, None) && chain[1].origin.at.state != chain[0].body.state
  {
    var a, b, c := RivalWrite(0, None, theirs), Begin(0, p, None, None), Turn(0, 1);
    ExecuteThree(g, System([], map[]), a, b, c);
    var s1 := Next(g, System([], map[]), a);
    assert s1 == System([Link(0, None, ByRival, theirs)], map[]);
    var s2 := Next(g, s1, b);
    assert s2.runs == map[0 := Going(p, None, Some(0), None)] && s2.chain == s1.chain;
  }

  lemma ExecuteThree(g: Graph, s: System, a: Action, b: Action, c: Action)
    ensures Execute(g, s, [a, b, c]) == Next(g, Next(g, Next(g, s, a), b), c)
  {
    assert [a, b, c][1..] == [b, c] && [b, c][1..] == [c] && [c][1..] == [];
    assert Execute(g, Next(g, s, a), [b, c]) == Execute(g, Next(g, Next(g, s, a), b), [c]);
  }
}
