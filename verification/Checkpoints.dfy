/** The checkpoint table of one thread as a value, and the in-memory checkpointer.

    The claim is stated as a function on a thread's log (oldest record first), so that the
    interleaved systems elsewhere take exactly the step the store takes. */
module Checkpoints {
  import opened Types

  datatype CheckpointSave =
    | Created(id: Id)
    | Advanced(id: Id)
    | IdempotentReplay(id: Id)
    | Conflict(actualHead: Option<Id>)

  /** `OlderThan` drops the records created before a cut-off; `young` is the clock's verdict
      on each record. */
  datatype RetentionPolicy = KeepAll | KeepLast(n: nat) | OlderThan(young: Record -> bool)

  type Log = seq<Record>

  predicate Resolved(log: Log, id: InterruptId) {
    exists i :: 0 <= i < |log| && log[i].body.resolved == Some(id)
  }

  function Last(log: Log): Record
    requires |log| > 0
  {
    log[|log| - 1]
  }

  predicate Gated(log: Log) {
    |log| > 0 && Last(log).body.status.Yielded?
  }

  function WithLast(log: Log, body: Snapshot): Log
    requires |log| > 0
  {
    log[|log| - 1 := Last(log).(body := body)]
  }

  datatype ClaimOutcome = ClaimOutcome(answer: Result<ClaimResult, Error>, log: Log)

  /** `claim_interrupt` over one thread's log. */
  function ClaimStep(log: Log, id: InterruptId): ClaimOutcome {
    if Resolved(log, id) then ClaimOutcome(Ok(AlreadyCompleted), log)
    else if log == [] then ClaimOutcome(Err(NothingToResume), log)
    else
      var last := Last(log).body;
      if last.status.Running? && last.claimed == Some(id) then ClaimOutcome(Ok(ClaimInProgress), log)
      else match last.status
        case Yielded =>
          if last.yieldRequest.None? then ClaimOutcome(Err(NothingToResume), log)
          else if last.yieldRequest.value.interruptId != id then
            ClaimOutcome(Err(InvalidResume(last.yieldRequest.value.interruptId, id)), log)
          else
            ClaimOutcome(Ok(Claimed), WithLast(log, last.(status := CheckpointStatus.Running, claimed := Some(id))))
        case Running => ClaimOutcome(Err(AlreadyRunning(last.claimed)), log)
        case _ => ClaimOutcome(Err(NothingToResume), log)
  }

  /** The caller wins exactly when the id is unresolved and the latest record is a gate
      waiting for that id, and only then does the table change: its latest record turns
      `Running` under the id and nothing else moves. */
  lemma ClaimWinsExactly(log: Log, id: InterruptId)
    ensures var o := ClaimStep(log, id);
            && (o.answer == Ok(Claimed) <==>
                !Resolved(log, id) && Gated(log) && Last(log).body.yieldRequest.Some? &&
                Last(log).body.yieldRequest.value.interruptId == id)
            && (o.answer != Ok(Claimed) <==> o.log == log)
            && (o.answer == Ok(AlreadyCompleted) <==> Resolved(log, id))
            && (o.answer == Ok(Claimed) ==>
                && |o.log| == |log| && o.log[..|log| - 1] == log[..|log| - 1]
                && Last(o.log).id == Last(log).id
                && Last(o.log).body == Last(log).body.(status := CheckpointStatus.Running, claimed := Some(id)))
  {
    if ClaimStep(log, id).answer == Ok(Claimed) {
      assert Last(ClaimStep(log, id).log).body.status != Last(log).body.status;
    }
  }

  /** What a caller is told that does not win: that the id is being resumed, that somebody else
      is running, that the gate asks for another id, or that there is nothing to resume. */
  lemma ClaimAnswers(log: Log, id: InterruptId)
    requires !Resolved(log, id)
    ensures var answer := ClaimStep(log, id).answer;
            if log == [] then answer == Err(NothingToResume)
            else
              var last := Last(log).body;
              && (answer == Ok(ClaimInProgress) <==> last.status.Running? && last.claimed == Some(id))
              && (answer == Err(AlreadyRunning(last.claimed)) <==> last.status.Running? && last.claimed != Some(id))
              && (forall asked :: answer == Err(InvalidResume(asked, id)) <==>
                    last.status.Yielded? && last.yieldRequest.Some? && asked != id &&
                    last.yieldRequest.value.interruptId == asked)
              && (answer == Err(NothingToResume) <==>
                    !last.status.Running? && (last.status.Yielded? ==> last.yieldRequest.None?))
  {
  }

  /** A second claim of a claimed gate is told that a resume is in progress. */
  lemma ClaimTwice(log: Log, id: InterruptId, other: InterruptId)
    requires ClaimStep(log, id).answer == Ok(Claimed)
    ensures var after := ClaimStep(log, id).log;
            && ClaimStep(after, id) == ClaimOutcome(Ok(ClaimInProgress), after)
            && ClaimStep(after, other).answer != Ok(Claimed)
  {
    var after := ClaimStep(log, id).log;
    forall x ensures Resolved(after, x) <==> Resolved(log, x) {
      SameResolved(log, after, x);
    }
  }

  /** Claiming never adds or removes a resolution. */
  lemma SameResolved(log: Log, after: Log, x: InterruptId)
    requires |log| == |after|
    requires forall i :: 0 <= i < |log| ==> log[i].body.resolved == after[i].body.resolved
    ensures Resolved(after, x) <==> Resolved(log, x)
  {
  }

  /** The records that pass, in order. */
  function Retained(log: Log, pass: Record -> bool): (kept: Log)
    ensures |kept| <= |log|
    decreases |log|
  {
    if log == [] then []
    else Retained(log[..|log| - 1], pass) + if pass(Last(log)) then [Last(log)] else []
  }

  lemma {:induction false} RetainedAre(log: Log, pass: Record -> bool)
    ensures forall r :: r in Retained(log, pass) <==> r in log && pass(r)
    decreases |log|
  {
    if log != [] {
      RetainedAre(log[..|log| - 1], pass);
      assert log == log[..|log| - 1] + [Last(log)];
    }
  }

  method Retain(log: Log, pass: Record -> bool) returns (kept: Log)
    ensures kept == Retained(log, pass)
  {
    kept := [];
    for i := 0 to |log|
      invariant kept == Retained(log[..i], pass)
    {
      assert log[..i + 1][..i] == log[..i];
      if pass(log[i]) {
        kept := kept + [log[i]];
      }
    }
    assert log[..|log|] == log;
  }

  predicate DistinctRecords(log: Log) {
    forall i, j :: 0 <= i < j < |log| ==> log[i].id != log[j].id
  }

  lemma {:induction false} RetainedStayDistinct(log: Log, pass: Record -> bool)
    requires DistinctRecords(log)
    ensures DistinctRecords(Retained(log, pass))
    decreases |log|
  {
    if log != [] {
      var front := log[..|log| - 1];
      RetainedStayDistinct(front, pass);
      RetainedAre(front, pass);
      var kept := Retained(front, pass);
      forall i | 0 <= i < |kept| ensures kept[i].id != Last(log).id {
        assert kept[i] in front;
        var j :| 0 <= j < |front| && front[j] == kept[i];
        assert log[j] == kept[i];
      }
    }
  }

  lemma RetainedKeepIds(log: Log, pass: Record -> bool, nextId: Id)
    requires DistinctRecords(log) && forall i :: 0 <= i < |log| ==> log[i].id < nextId
    ensures var kept := Retained(log, pass);
            DistinctRecords(kept) && forall i :: 0 <= i < |kept| ==> kept[i].id < nextId
  {
    RetainedStayDistinct(log, pass);
    RetainedAre(log, pass);
    var kept := Retained(log, pass);
    forall i | 0 <= i < |kept| ensures kept[i].id < nextId {
      assert kept[i] in log;
    }
  }

  function Kept(log: Log, policy: RetentionPolicy): Log {
    match policy
    case KeepAll => log
    case KeepLast(n) => if |log| > n then log[|log| - n..] else log
    case OlderThan(young) => Retained(log, young)
  }

  /** Record `i` stays. */
  ghost predicate Stays(log: Log, policy: RetentionPolicy, i: nat) {
    i < |log| &&
    match policy
    case KeepAll => true
    case KeepLast(n) => |log| - n <= i
    case OlderThan(young) => young(log[i])
  }

  predicate KeptFrom(log: Log, kept: Log, at: seq<nat>, x: nat) {
    x < |at| && x < |kept| && at[x] < |log| && kept[x] == log[at[x]]
  }

  /** The records at the positions `at`, in order. */
  ghost predicate StayAt(log: Log, kept: Log, at: seq<nat>) {
    && |kept| == |at|
    && (forall x :: 0 <= x < |at| ==> KeptFrom(log, kept, at, x))
    && (forall x, y :: 0 <= x < y < |at| ==> at[x] < at[y])
  }

  lemma RetainedMore(log: Log, kept: Log, at: seq<nat>, n: nat)
    requires n < |log| && StayAt(log, kept, at) && forall x :: 0 <= x < |at| ==> at[x] < n
    ensures StayAt(log, kept + [log[n]], at + [n])
  {
    forall x | 0 <= x < |at| + 1 ensures KeptFrom(log, kept + [log[n]], at + [n], x) {
      if x < |at| { assert KeptFrom(log, kept, at, x); }
    }
  }

  lemma {:induction false} RetainedStay(log: Log, young: Record -> bool, n: nat) returns (at: seq<nat>)
    requires n <= |log|
    ensures StayAt(log, Retained(log[..n], young), at)
    ensures forall i: nat :: i in at <==> i < n && Stays(log, OlderThan(young), i)
    decreases n
  {
    if n == 0 {
      at := [];
    } else {
      var front := RetainedStay(log, young, n - 1);
      RetainedNext(log, young, n);
      at := front;
      if young(log[n - 1]) {
        forall x | 0 <= x < |front| ensures front[x] < n - 1 { assert front[x] in front; }
        RetainedMore(log, Retained(log[..n - 1], young), front, n - 1);
        at := front + [n - 1];
      } else {
        assert Retained(log[..n], young) == Retained(log[..n - 1], young);
      }
    }
  }

  lemma RetainedNext(log: Log, young: Record -> bool, n: nat)
    requires 0 < n <= |log|
    ensures Retained(log[..n], young) == Retained(log[..n - 1], young) + if young(log[n - 1]) then [log[n - 1]] else []
  {
    assert log[..n][..n - 1] == log[..n - 1] && Last(log[..n]) == log[n - 1];
  }

  lemma SuffixStays(log: Log, from: nat) returns (at: seq<nat>)
    requires from <= |log|
    ensures StayAt(log, log[from..], at) && forall i :: i in at <==> from <= i < |log|
  {
    at := seq(|log| - from, x requires 0 <= x < |log| - from => from + x);
    forall i: nat | from <= i < |log| ensures i in at { assert at[i - from] == i; }
  }

  /** Pruning keeps the last n records, or those younger than the cut-off, in their order. */
  lemma KeptExactly(log: Log, policy: RetentionPolicy) returns (at: seq<nat>)
    ensures StayAt(log, Kept(log, policy), at) && forall i :: i in at <==> Stays(log, policy, i)
  {
    match policy
    case KeepAll =>
      at := SuffixStays(log, 0);
      assert log[0..] == log;
    case KeepLast(n) =>
      at := SuffixStays(log, if |log| > n then |log| - n else 0);
      assert log[0..] == log;
    case OlderThan(young) =>
      at := RetainedStay(log, young, |log|);
      assert log[..|log|] == log;
  }

  /** The policy does not drop the latest record. */
  predicate SparesLatest(log: Log, policy: RetentionPolicy) {
    match policy
    case KeepAll => true
    case KeepLast(n) => n > 0
    case OlderThan(young) => log != [] ==> young(Last(log))
  }

  lemma KeptIsFrom(log: Log, policy: RetentionPolicy)
    ensures forall i :: 0 <= i < |Kept(log, policy)| ==> Kept(log, policy)[i] in log
  {
    if policy.OlderThan? {
      RetainedAre(log, policy.young);
      forall i | 0 <= i < |Kept(log, policy)| ensures Kept(log, policy)[i] in log {
        assert Kept(log, policy)[i] in Retained(log, policy.young);
      }
    }
  }

  /** Pruning that spares the latest record leaves the gate as it was; it changes a later
      claim only by forgetting that the id was resolved. */
  lemma PruningKeepsTheGate(log: Log, policy: RetentionPolicy, id: InterruptId)
    requires SparesLatest(log, policy)
    ensures var kept := Kept(log, policy);
            && (log == [] <==> kept == [])
            && (log != [] ==> Last(kept) == Last(log))
            && (Resolved(kept, id) ==> Resolved(log, id))
            && (Resolved(kept, id) == Resolved(log, id) ==> ClaimStep(kept, id).answer == ClaimStep(log, id).answer)
            && (Resolved(log, id) && !Resolved(kept, id) ==> ClaimStep(kept, id).answer != Ok(AlreadyCompleted))
  {
    var kept := Kept(log, policy);
    KeptIsFrom(log, policy);
    if i :| 0 <= i < |kept| && kept[i].body.resolved == Some(id) {
      var j :| 0 <= j < |log| && log[j] == kept[i];
    }
  }

  /** The checkpointer. With `checksHeads` unset it is the in-memory store, which has no
      heads and inherits the default bound save; with it set it compares the expected head
      with the id of the thread's last write, atomically with the write. */
  class Checkpointer {
    const checksHeads: bool
    var threads: map<Name, Log>
    var heads: map<Name, Id>
    var nextId: nat

    constructor (checksHeads: bool)
      ensures Valid() && this.checksHeads == checksHeads
      ensures threads == map[] && heads == map[]
    {
      this.checksHeads := checksHeads;
      threads, heads, nextId := map[], map[], 0;
    }

    /** Every id in use was issued, so the next one is fresh. */
    ghost predicate Valid()
      reads this
    {
      && (forall t, i :: t in threads && 0 <= i < |threads[t]| ==> threads[t][i].id < nextId)
      && (forall t :: t in heads ==> heads[t] < nextId)
      && (forall t :: t in threads ==> DistinctRecords(threads[t]))
    }

    function LogOf(thread: Name): Log
      reads this
    {
      if thread in threads then threads[thread] else []
    }

    function HeadOf(thread: Name): Option<Id>
      reads this
    {
      if checksHeads && thread in heads then Some(heads[thread]) else None
    }

    method CurrentHead(thread: Name) returns (head: Option<Id>)
      ensures head == HeadOf(thread)
    {
      head := None;
      if checksHeads && thread in heads {
        head := Some(heads[thread]);
      }
    }

    method SaveState(thread: Name, body: Snapshot) returns (id: Id)
      requires Valid()
      modifies this`threads, this`nextId
      ensures Valid() && id == old(nextId) && nextId == id + 1
      ensures threads == old(threads)[thread := old(LogOf(thread)) + [Record(id, body)]]
    {
      id := nextId;
      nextId := nextId + 1;
      var list := if thread in threads then threads[thread] else [];
      threads := threads[thread := list + [Record(id, body)]];
    }

    method SaveStateBound(thread: Name, body: Snapshot, expectedHead: Option<Id>) returns (save: CheckpointSave)
      requires Valid()
      modifies this
      ensures Valid()
      ensures checksHeads && expectedHead != old(HeadOf(thread)) ==>
                save == Conflict(old(HeadOf(thread))) && unchanged(this)
      ensures !(checksHeads && expectedHead != old(HeadOf(thread))) ==>
                && save == (if old(HeadOf(thread)).None? then Created(old(nextId)) else Advanced(old(nextId)))
                && nextId == old(nextId) + 1
                && threads == old(threads)[thread := old(LogOf(thread)) + [Record(old(nextId), body)]]
                && HeadOf(thread) == (if checksHeads then Some(old(nextId)) else None)
      ensures forall t :: t != thread ==> HeadOf(t) == old(HeadOf(t)) && LogOf(t) == old(LogOf(t))
    {
      var actual := CurrentHead(thread);
      if checksHeads && expectedHead != actual {
        return Conflict(actual);
      }
      var id := SaveState(thread, body);
      if checksHeads {
        heads := heads[thread := id];
      }
      save := if actual.None? then Created(id) else Advanced(id);
    }

    method LoadState(thread: Name) returns (r: Option<Record>)
      ensures r == (if LogOf(thread) == [] then None else Some(Last(LogOf(thread))))
    {
      r := None;
      if thread in threads && |threads[thread]| > 0 {
        r := Some(Last(threads[thread]));
      }
    }

    /** Finds the one record with the id, however much was saved since. */
    method LoadVersion(thread: Name, id: Id) returns (r: Option<Record>)
      requires Valid()
      ensures r.Some? <==> exists i :: 0 <= i < |LogOf(thread)| && LogOf(thread)[i].id == id
      ensures r.Some? ==> r.value in LogOf(thread) && r.value.id == id
      ensures forall i :: 0 <= i < |LogOf(thread)| && LogOf(thread)[i].id == id ==> r == Some(LogOf(thread)[i])
    {
      if thread !in threads {
        return None;
      }
      var list := threads[thread];
      for i := 0 to |list|
        invariant forall j :: 0 <= j < i ==> list[j].id != id
      {
        if list[i].id == id {
          assert LogOf(thread)[i].id == id;
          return Some(list[i]);
        }
      }
      r := None;
    }

    method DeleteCheckpoints(thread: Name, policy: RetentionPolicy) returns (deleted: nat)
      requires Valid()
      modifies this`threads
      ensures Valid()
      ensures LogOf(thread) == Kept(old(LogOf(thread)), policy)
      ensures deleted == |old(LogOf(thread))| - |LogOf(thread)|
      ensures forall t :: t != thread ==> LogOf(t) == old(LogOf(t))
    {
      if thread !in threads {
        return 0;
      }
      var list := threads[thread];
      match policy
      case KeepAll =>
        return 0;
      case KeepLast(n) =>
        if |list| <= n {
          return 0;
        }
        deleted := |list| - n;
        threads := threads[thread := list[deleted..]];
      case OlderThan(young) =>
        var retained := Retain(list, young);
        RetainedKeepIds(list, young, nextId);
        deleted := |list| - |retained|;
        threads := threads[thread := retained];
    }

    method ClaimInterrupt(thread: Name, id: InterruptId) returns (r: Result<ClaimResult, Error>)
      requires Valid()
      modifies this`threads
      ensures Valid()
      ensures ClaimOutcome(r, LogOf(thread)) == ClaimStep(old(LogOf(thread)), id)
      ensures forall t :: t != thread ==> LogOf(t) == old(LogOf(t))
      ensures threads.Keys == old(threads).Keys
    {
      if thread !in threads {
        return Err(NothingToResume);
      }
      var list := threads[thread];
      for i := 0 to |list|
        invariant forall j :: 0 <= j < i ==> list[j].body.resolved != Some(id)
      {
        if list[i].body.resolved == Some(id) {
          return Ok(AlreadyCompleted);
        }
      }
      if list == [] {
        return Err(NothingToResume);
      }
      var last := Last(list).body;
      if last.status.Running? && last.claimed == Some(id) {
        return Ok(ClaimInProgress);
      }
      match last.status
      case Yielded =>
        if last.yieldRequest.None? {
          return Err(NothingToResume);
        }
        if last.yieldRequest.value.interruptId != id {
          return Err(InvalidResume(last.yieldRequest.value.interruptId, id));
        }
        threads := threads[thread := WithLast(list, last.(status := CheckpointStatus.Running, claimed := Some(id)))];
        return Ok(Claimed);
      case Running =>
        return Err(AlreadyRunning(last.claimed));
      case _ =>
        return Err(NothingToResume);
    }
  }
}
