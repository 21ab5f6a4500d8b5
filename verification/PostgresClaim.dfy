/** The Postgres claim: three statements, each atomic on its own, interleaved with other
    claims (of either kind) and with saves on the same thread. */
module PostgresClaim {
  import opened Types
  import opened Checkpoints

  type Caller = nat

  datatype Phase =
    | Checked(id: InterruptId)
    | Seen(id: InterruptId)
    | Answered(id: InterruptId, answer: Result<ClaimResult, Error>)

  /** A `Claimed` answer and the position of the record it won. */
  datatype Win = Win(c: Caller, id: InterruptId, index: nat)

  datatype Table = Table(log: Log, nextId: Id, phases: map<Caller, Phase>, won: seq<Win>)

  datatype Action =
    | CheckHistory(c: Caller, id: InterruptId)
    | ReadLatest(c: Caller)
    | Update(c: Caller)
    | ClaimAtomically(c: Caller, id: InterruptId)
    | Save(body: Snapshot)

  /** The verdict of the second statement: `None` lets the update go ahead. */
  function Verdict(log: Log, id: InterruptId): Option<Result<ClaimResult, Error>> {
    if log == [] then Some(Err(NothingToResume))
    else
      var last := Last(log).body;
      if last.status.Running? && last.claimed == Some(id) then Some(Ok(ClaimInProgress))
      else if !last.status.Yielded? then
        Some(Err(if last.status.Running? then AlreadyRunning(last.claimed) else NothingToResume))
      else if last.yieldRequest.None? then Some(Err(NothingToResume))
      else if last.yieldRequest.value.interruptId != id then
        Some(Err(InvalidResume(last.yieldRequest.value.interruptId, id)))
      else None
  }

  /** What the third statement makes of an open gate. */
  function Taken(log: Log, id: InterruptId): Log
    requires Gated(log)
  {
    WithLast(log, Last(log).body.(status := CheckpointStatus.Running, claimed := Some(id)))
  }

  function Next(s: Table, a: Action): Table {
    match a
    case CheckHistory(c, id) =>
      if c in s.phases then s
      else if Resolved(s.log, id) then s.(phases := s.phases[c := Answered(id, Ok(AlreadyCompleted))])
      else s.(phases := s.phases[c := Checked(id)])
    case ReadLatest(c) =>
      if c !in s.phases || !s.phases[c].Checked? then s
      else
        var id := s.phases[c].id;
        var verdict := Verdict(s.log, id);
        s.(phases := s.phases[c := if verdict.None? then Seen(id) else Answered(id, verdict.value)])
    case Update(c) =>
      if c !in s.phases || !s.phases[c].Seen? then s
      else
        var id := s.phases[c].id;
        if Gated(s.log) then
          s.(log := Taken(s.log, id),
             phases := s.phases[c := Answered(id, Ok(Claimed))],
             won := s.won + [Win(c, id, |s.log| - 1)])
        else s.(phases := s.phases[c := Answered(id, Err(ConcurrentClaimFailed))])
    case ClaimAtomically(c, id) =>
      if c in s.phases then s
      else
        var o := ClaimStep(s.log, id);
        s.(log := o.log,
           phases := s.phases[c := Answered(id, o.answer)],
           won := if o.answer == Ok(Claimed) then s.won + [Win(c, id, |s.log| - 1)] else s.won)
    case Save(body) =>
      s.(log := s.log + [Record(s.nextId, body)], nextId := s.nextId + 1)
  }

  /** The rows of one thread. Run without interruption, the three statements are the atomic
      claim: same answer, same row changed. */
  class ThreadRows {
    var log: Log

    constructor (log: Log)
      ensures this.log == log
    {
      this.log := log;
    }

    method ClaimInterrupt(id: InterruptId) returns (r: Result<ClaimResult, Error>)
      modifies this
      ensures ClaimOutcome(r, log) == ClaimStep(old(log), id)
    {
      var resolved := Resolved(log, id);
      if resolved {
        return Ok(AlreadyCompleted);
      }
      var verdict := Verdict(log, id);
      if verdict.Some? {
        return verdict.value;
      }
      var rowsAffected := 0;
      if Gated(log) {
        log := Taken(log, id);
        rowsAffected := 1;
      }
      r := if rowsAffected == 1 then Ok(Claimed) else Err(ConcurrentClaimFailed);
    }
  }

  function Execute(s: Table, actions: seq<Action>): Table
    decreases |actions|
  {
    if actions == [] then s else Execute(Next(s, actions[0]), actions[1..])
  }

  function ClaimedRecords(log: Log): nat
    decreases |log|
  {
    if log == [] then 0
    else ClaimedRecords(log[..|log| - 1]) + (if Last(log).body.claimed.Some? then 1 else 0)
  }

  predicate Winner(s: Table, c: Caller) {
    c in s.phases && s.phases[c].Answered? && s.phases[c].answer == Ok(Claimed)
  }

  /** The callers that were answered `Claimed`. */
  function Winners(s: Table): set<Caller> { set c | c in s.phases && Winner(s, c) }

  predicate HasWin(won: seq<Win>, c: Caller) {
    exists k :: 0 <= k < |won| && won[k].c == c
  }

  /** The wins are the `Claimed` answers, one for each caller that got one. */
  ghost predicate Tied(s: Table) {
    && (forall k :: 0 <= k < |s.won| ==> Winner(s, s.won[k].c) && s.phases[s.won[k].c].id == s.won[k].id)
    && (forall c :: Winner(s, c) ==> HasWin(s.won, c))
    && (forall k, l :: 0 <= k < l < |s.won| ==> s.won[k].c != s.won[l].c)
  }

  function CallersOf(won: seq<Win>): set<Caller> { set k | 0 <= k < |won| :: won[k].c }

  lemma {:induction false} CallersCount(won: seq<Win>)
    requires forall k, l :: 0 <= k < l < |won| ==> won[k].c != won[l].c
    ensures |CallersOf(won)| == |won|
    decreases |won|
  {
    if won != [] {
      var front, last := won[..|won| - 1], won[|won| - 1];
      CallersCount(front);
      assert CallersOf(won) == CallersOf(front) + {last.c};
      assert last.c !in CallersOf(front);
    }
  }

  lemma WinnersCount(s: Table)
    requires Tied(s)
    ensures |Winners(s)| == |s.won|
  {
    CallersCount(s.won);
    forall c ensures c in Winners(s) <==> c in CallersOf(s.won) {
      if c in Winners(s) {
        assert HasWin(s.won, c);
        var k :| 0 <= k < |s.won| && s.won[k].c == c;
        assert s.won[k].c in CallersOf(s.won);
      }
    }
    assert Winners(s) == CallersOf(s.won);
  }

  /** Answering a caller that had no answer, and counting the win exactly if it is one. */
  lemma AnswerKeepsTied(s: Table, t: Table, c: Caller, index: nat)
    requires Tied(s) && !Winner(s, c) && c in t.phases && t.phases == s.phases[c := t.phases[c]]
    requires t.won == if Winner(t, c) then s.won + [Win(c, t.phases[c].id, index)] else s.won
    ensures Tied(t)
  {
    forall k | 0 <= k < |s.won| ensures s.won[k].c != c {
      assert Winner(s, s.won[k].c);
    }
    forall d | Winner(t, d) ensures HasWin(t.won, d) {
      if d == c {
        assert t.won[|s.won|].c == c;
      } else {
        assert Winner(s, d) && HasWin(s.won, d);
        var k :| 0 <= k < |s.won| && s.won[k].c == d;
        assert t.won[k].c == d;
      }
    }
  }

  lemma StepKeepsTied(s: Table, a: Action)
    requires Tied(s)
    ensures Tied(Next(s, a))
  {
    if !a.Save? && Next(s, a).phases != s.phases {
      if a.ClaimAtomically? { ClaimWinsExactly(s.log, a.id); }
      AnswerKeepsTied(s, Next(s, a), a.c, if s.log == [] then 0 else |s.log| - 1);
    }
  }

  /** An open gate carries no claim, and the wins are distinct records that carry them. */
  ghost predicate Inv(s: Table) {
    && (Gated(s.log) ==> Last(s.log).body.claimed.None?)
    && (forall k :: 0 <= k < |s.won| ==>
          && s.won[k].index < |s.log|
          && s.log[s.won[k].index].body.claimed == Some(s.won[k].id))
    && (forall k, l :: 0 <= k < l < |s.won| ==> s.won[k].index != s.won[l].index)
  }

  lemma WinKeepsInv(s: Table, c: Caller, id: InterruptId)
    requires Inv(s) && Gated(s.log)
    ensures var last := Last(s.log).body;
            var log := WithLast(s.log, last.(status := CheckpointStatus.Running, claimed := Some(id)));
            && Inv(s.(log := log, won := s.won + [Win(c, id, |s.log| - 1)]))
            && ClaimedRecords(log) == ClaimedRecords(s.log) + 1
  {
    var last := Last(s.log).body;
    var log := WithLast(s.log, last.(status := CheckpointStatus.Running, claimed := Some(id)));
    assert log[..|log| - 1] == s.log[..|s.log| - 1];
    forall k | 0 <= k < |s.won| ensures s.won[k].index != |s.log| - 1 {
      assert s.log[s.won[k].index].body.claimed == Some(s.won[k].id);
    }
  }

  lemma SaveConserves(s: Table, body: Snapshot)
    requires Inv(s) && body.claimed.None?
    ensures var t := Next(s, Save(body)); Inv(t) && ClaimedRecords(t.log) == ClaimedRecords(s.log) && t.won == s.won
  {
    var t := Next(s, Save(body));
    assert t.log[..|t.log| - 1] == s.log;
  }

  /** A claim that changes the table wins its latest record. */
  lemma ClaimShape(s: Table, a: Action)
    requires !a.Save? && Next(s, a).log != s.log
    ensures Gated(s.log) && (a.Update? ==> a.c in s.phases)
    ensures var id := if a.Update? then s.phases[a.c].id else a.id;
            && Next(s, a).won == s.won + [Win(a.c, id, |s.log| - 1)]
            && Next(s, a).log ==
               WithLast(s.log, Last(s.log).body.(status := CheckpointStatus.Running, claimed := Some(id)))
  {
    if a.ClaimAtomically? { ClaimWinsExactly(s.log, a.id); }
  }

  lemma QuietClaim(s: Table, a: Action)
    requires !a.Save? && Next(s, a).log == s.log
    ensures Next(s, a).won == s.won
  {
    if a.ClaimAtomically? { ClaimWinsExactly(s.log, a.id); }
    if a.Update? && a.c in s.phases && s.phases[a.c].Seen? && Gated(s.log) { UpdateWrites(s, a.c); }
  }

  lemma UpdateWrites(s: Table, c: Caller)
    requires c in s.phases && s.phases[c].Seen? && Gated(s.log)
    ensures Next(s, Update(c)).log != s.log
  {
    assert Last(Next(s, Update(c)).log).body.status.Running?;
  }

  lemma StepConserves(s: Table, a: Action)
    requires Inv(s) && (a.Save? ==> a.body.claimed.None?)
    ensures var t := Next(s, a);
            && Inv(t) && ClaimedRecords(t.log) + |s.won| == ClaimedRecords(s.log) + |t.won|
  {
    if a.Save? {
      SaveConserves(s, a.body);
    } else if Next(s, a).log != s.log {
      ClaimShape(s, a);
      WinKeepsInv(s, a.c, if a.Update? then s.phases[a.c].id else a.id);
    } else {
      QuietClaim(s, a);
    }
  }

  lemma {:induction false} WinsConserved(s: Table, actions: seq<Action>)
    requires Inv(s) && Tied(s)
    requires forall a :: a in actions && a.Save? ==> a.body.claimed.None?
    ensures var t := Execute(s, actions);
            && ClaimedRecords(t.log) + |s.won| == ClaimedRecords(s.log) + |t.won|
            && Inv(t) && Tied(t)
    decreases |actions|
  {
    if actions != [] {
      assert actions[0] in actions;
      StepConserves(s, actions[0]);
      StepKeepsTied(s, actions[0]);
      WinsConserved(Next(s, actions[0]), actions[1..]);
    }
  }

  /** Claim conservation. In every interleaving of atomic claims, three-statement claims and
      saves that carry no claim, the callers answered `Claimed` are as many as the records
      that gained a claim, each with a record of its own that names its id. */
  lemma ClaimConservation(s: Table, actions: seq<Action>)
    requires Inv(s) && Tied(s)
    requires forall a :: a in actions && a.Save? ==> a.body.claimed.None?
    ensures var t := Execute(s, actions);
            && ClaimedRecords(t.log) + |Winners(s)| == ClaimedRecords(s.log) + |Winners(t)|
            && Inv(t) && Tied(t)
  {
    WinsConserved(s, actions);
    WinnersCount(s);
    WinnersCount(Execute(s, actions));
  }

  /** A caller past its history check that the table still agrees with: its id is unresolved,
      and if it has read the gate, an open gate is still the one it read. */
  ghost predicate UpToDate(s: Table) {
    forall c :: c in s.phases && !s.phases[c].Answered? ==>
      && !Resolved(s.log, s.phases[c].id)
      && (s.phases[c].Seen? && Gated(s.log) ==>
          Last(s.log).body.yieldRequest.Some? && Last(s.log).body.yieldRequest.value.interruptId == s.phases[c].id)
  }

  lemma StepStaysUpToDate(s: Table, a: Action)
    requires UpToDate(s) && !a.Save?
    ensures UpToDate(Next(s, a))
  {
    var t := Next(s, a);
    if t.log != s.log {
      forall x ensures Resolved(t.log, x) <==> Resolved(s.log, x) {
        SameResolved(s.log, t.log, x);
      }
      assert !Gated(t.log);
    }
    forall c | c in t.phases && !t.phases[c].Answered?
      ensures !Resolved(t.log, t.phases[c].id)
      ensures t.phases[c].Seen? && Gated(t.log) ==>
          Last(t.log).body.yieldRequest.Some? && Last(t.log).body.yieldRequest.value.interruptId == t.phases[c].id
    {
      if c in s.phases { assert !s.phases[c].Answered?; }
    }
  }

  /** While nothing is saved, the three statements are as good as one: an update wins exactly
      when the atomic claim made at that moment would win, with the same effect. */
  lemma {:induction false} SaveFreeClaimIsAtomic(s: Table, actions: seq<Action>, c: Caller)
    requires UpToDate(s)
    requires forall a :: a in actions ==> !a.Save?
    ensures var t := Execute(s, actions);
            c in t.phases && t.phases[c].Seen? ==>
              var id, after := t.phases[c].id, Next(t, Update(c));
              && (after.phases[c].answer == Ok(Claimed) <==> ClaimStep(t.log, id).answer == Ok(Claimed))
              && after.log == ClaimStep(t.log, id).log
    decreases |actions|
  {
    if actions == [] {
      if c in s.phases && s.phases[c].Seen? {
        ClaimWinsExactly(s.log, s.phases[c].id);
      }
    } else {
      assert actions[0] in actions;
      StepStaysUpToDate(s, actions[0]);
      SaveFreeClaimIsAtomic(Next(s, actions[0]), actions[1..], c);
    }
  }

  /** Whatever happened since its two reads: the update leaves the table as the atomic claim
      made at that moment would exactly when no gate is open, or the open gate asks for the
      caller's id and the id is unresolved. */
  lemma UpdateIsAtomicExactly(s: Table, c: Caller)
    requires c in s.phases && s.phases[c].Seen?
    ensures var id := s.phases[c].id;
            Next(s, Update(c)).log == ClaimStep(s.log, id).log <==>
            !Gated(s.log) ||
            (!Resolved(s.log, id) && Last(s.log).body.yieldRequest.Some? &&
                Last(s.log).body.yieldRequest.value.interruptId == id)
  {
    var id := s.phases[c].id;
    ClaimWinsExactly(s.log, id);
    if Gated(s.log) {
      assert Last(Next(s, Update(c)).log).body.status.Running?;
    }
  }

  /** With a save in between, a caller can win a gate it never read: the update guards the
      status of the latest record, not its identity. The record ends claimed under an id it
      does not ask for, where the atomic claim refuses. */
  lemma StaleReadWinsForeignGate(state: State, first: YieldRequest, second: YieldRequest)
    requires first.interruptId != second.interruptId
    ensures var gate1 := Snapshot(state, "ask", None, CheckpointStatus.Yielded, Some(first), None, None);
            var gate2 := gate1.(yieldRequest := Some(second));
            var id := first.interruptId;
            var before := Execute(Table([Record(0, gate1)], 1, map[], []),
                [CheckHistory(0, id), ReadLatest(0), Save(gate2)]);
            var after := Next(before, Update(0));
            && 0 in after.phases && after.phases[0] == Answered(id, Ok(Claimed))
            && after.log != [] && Last(after.log).body.claimed == Some(id) &&
                Last(after.log).body.yieldRequest == Some(second)
            && ClaimStep(before.log, id).answer == Err(InvalidResume(second.interruptId, id))
  {
    var gate1 := Snapshot(state, "ask", None, CheckpointStatus.Yielded, Some(first), None, None);
    var gate2 := gate1.(yieldRequest := Some(second));
    var id := first.interruptId;
    var s0 := Table([Record(0, gate1)], 1, map[], []);
    var s1 := Next(s0, CheckHistory(0, id));
    var s2 := Next(s1, ReadLatest(0));
    var s3 := Next(s2, Save(gate2));
    ExecuteThree(s0, CheckHistory(0, id), ReadLatest(0), Save(gate2));
    ClaimWinsExactly(s3.log, id);
  }

  /** With two saves in between, a settled id can be won a second time: the history check
      came too early. The atomic claim answers `AlreadyCompleted`. */
  lemma StaleCheckWinsSettledId(state: State, request: YieldRequest)
    ensures var gate := Snapshot(state, "ask", None, CheckpointStatus.Yielded, Some(request), None, None);
            var id := request.interruptId;
            var settled := Snapshot(state, "ask", None, Complete, None, None, Some(id));
            var start := Table([Record(0, gate)], 1, map[], []);
            var before := Next(Execute(start, [CheckHistory(0, id), Save(settled), Save(gate)]), ReadLatest(0));
            var after := Next(before, Update(0));
            && 0 in after.phases && after.phases[0] == Answered(id, Ok(Claimed))
            && ClaimStep(before.log, id).answer == Ok(AlreadyCompleted)
  {
    var gate := Snapshot(state, "ask", None, CheckpointStatus.Yielded, Some(request), None, None);
    var id := request.interruptId;
    var settled := Snapshot(state, "ask", None, Complete, None, None, Some(id));
    var s0 := Table([Record(0, gate)], 1, map[], []);
    var s1 := Next(s0, CheckHistory(0, id));
    var s2 := Next(s1, Save(settled));
    var s3 := Next(s2, Save(gate));
    ExecuteThree(s0, CheckHistory(0, id), Save(settled), Save(gate));
    assert s3.log[1].body.resolved == Some(id);
  }

  lemma ExecuteThree(s: Table, a: Action, b: Action, c: Action)
    ensures Execute(s, [a, b, c]) == Next(Next(Next(s, a), b), c)
  {
    assert [a, b, c][1..] == [b, c] && [b, c][1..] == [c] && [c][1..] == [];
    assert Execute(Next(s, a), [b, c]) == Execute(Next(Next(s, a), b), [c]);
  }
}
