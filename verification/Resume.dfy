/** Resuming a yielded thread with input (`resume_with_input`, `revert_to_yielded`), when
    nobody else writes. */
module Resume {
  import opened Types
  import opened Executor
  import opened Checkpoints
  import opened Sequential

  /** Where an accepted input re-enters the graph. A hand-off skips the yielded node and
      discards the input. */
  function Entry(g: Graph, loaded: Snapshot, request: YieldRequest, input: Input, tick: nat): Position {
    match request.resumeMode
    case ReEntry => Start(loaded.nextNode, loaded.state, Some(input), tick)
    case Handoff => Start(g.EdgeTarget(loaded.nextNode, loaded.state), loaded.state, None, tick)
  }

  function Rollback(loaded: Snapshot, request: YieldRequest): Snapshot {
    YieldedAt(loaded.state, loaded.nextNode, request)
  }

  datatype Resumed = Resumed(result: Result<State, Error>, log: Log)

  /** A whole call on a thread's log. `accepted` is the verdict of the schema check. */
  function ResumeCall(g: Graph, log: Log, firstId: Id, id: InterruptId, input: Input, accepted: bool,
                      tick: nat): Resumed {
    var claim := ClaimStep(log, id);
    match claim.answer
    case Err(e) => Resumed(Err(e), log)
    case Ok(AlreadyCompleted) => Resumed(Ok(Last(log).body.state), log)
    case Ok(ClaimInProgress) => Resumed(Err(ResumeInProgress(id)), log)
    case Ok(Claimed) =>
      var loaded := Last(claim.log).body;
      if !accepted then Resumed(Err(SchemaValidationFailed(id)), claim.log)
      else
        var t := Run(g, Entry(g, loaded, loaded.yieldRequest.value, input, tick), Some(id));
        var undo := if t.result.Ok? then [] else [Rollback(loaded, loaded.yieldRequest.value)];
        Resumed(t.result, Appended(claim.log, firstId, t.saves + undo))
  }

  method ResumeWithInput(g: Graph, thread: Name, store: Checkpointer, id: InterruptId, input: Input, accepted: bool,
                         tick: nat)
    returns (r: Result<State, Error>)
    requires store.Valid()
    modifies store
    ensures store.Valid()
    ensures Resumed(r, store.LogOf(thread)) ==
            ResumeCall(g, old(store.LogOf(thread)), old(store.nextId), id, input, accepted, tick)
    ensures forall t :: t != thread ==> store.LogOf(t) == old(store.LogOf(t))
  {
    ghost var log, firstId := store.LogOf(thread), store.nextId;
    var claim := store.ClaimInterrupt(thread, id);
    if claim.Err? {
      ClaimWinsExactly(log, id);
      return Err(claim.error);
    }
    ClaimWinsExactly(log, id);
    var loaded := store.LoadState(thread);
    var meta := loaded.value.body;
    match claim.value
    case AlreadyCompleted =>
      return Ok(meta.state);
    case ClaimInProgress =>
      return Err(ResumeInProgress(id));
    case Claimed =>
      var request := meta.yieldRequest.value;
      assert request.interruptId == id;
      if !accepted {
        return Err(SchemaValidationFailed(id));
      }
      ghost var claimed := store.LogOf(thread);
      var start := Entry(g, meta, request, input, tick);
      var result, lastHead := RunInner(g, thread, start, store, Some(id));
      ghost var saves := Run(g, start, Some(id)).saves;
      if result.Ok? {
        assert saves + [] == saves;
        return result;
      }
      RevertToYielded(thread, meta, request, store, lastHead, saves, firstId, claimed);
      return result;
  }

  /** The rollback extends the head the failed run last wrote. */
  method RevertToYielded(thread: Name, loaded: Snapshot, request: YieldRequest, store: Checkpointer,
                         lastHead: Option<Id>,
                         ghost saves: seq<Snapshot>, ghost firstId: Id, ghost log: Log)
    requires store.Valid()
    requires store.checksHeads ==> lastHead == store.HeadOf(thread)
    requires store.nextId == firstId + |saves| && store.LogOf(thread) == Appended(log, firstId, saves)
    modifies store
    ensures store.Valid()
    ensures store.LogOf(thread) == Appended(log, firstId, saves + [Rollback(loaded, request)])
    ensures forall t :: t != thread ==> store.LogOf(t) == old(store.LogOf(t))
  {
    var id := Write(thread, Rollback(loaded, request), store, lastHead, saves, firstId, log);
  }

  /** The records of one run: all but the last are `Complete` and resolve the interrupt; a
      failed run wrote only such records; a gate resolves nothing; no record carries a claim. */
  ghost predicate WellSaved(t: Trace, resolved: Option<InterruptId>) {
    forall i :: 0 <= i < |t.saves| ==>
      var save := t.saves[i];
      && save.claimed.None? && !save.status.Running?
      && (save.status.Yielded? <==> save.yieldRequest.Some?)
      && save.resolved == (if save.status.Yielded? then None else resolved)
      && (i < |t.saves| - 1 || t.result.Err? ==> save.status.Complete?)
  }

  lemma {:induction false} RunSaves(g: Graph, p: Position, resolved: Option<InterruptId>)
    ensures WellSaved(Run(g, p, resolved), resolved)
    decreases g.limits.maxSequentialSteps - p.steps
  {
    StepShape(g, p, resolved);
    var turn := Step(g, p, resolved);
    if turn.Advance? {
      RunSaves(g, turn.next, resolved);
      var t, rest := Run(g, p, resolved), Run(g, turn.next, resolved);
      forall i | 0 < i < |t.saves|
        ensures t.saves[i] == rest.saves[i - 1]
      {
      }
    }
  }

  lemma ResolvedByAppend(log: Log, firstId: Id, saves: seq<Snapshot>, id: InterruptId)
    ensures Resolved(Appended(log, firstId, saves), id) <==>
            Resolved(log, id) || exists i :: 0 <= i < |saves| && saves[i].resolved == Some(id)
  {
    var after := Appended(log, firstId, saves);
    if i :| 0 <= i < |log| && log[i].body.resolved == Some(id) {
      assert after[i] == log[i];
    }
    if i :| 0 <= i < |saves| && saves[i].resolved == Some(id) {
      assert after[|log| + i].body == saves[i];
    }
  }

  /** A failed resume puts the gate back: the latest record has the state, next node and
      request loaded at the claim and no claim. The same id can be claimed again if and only
      if the failed run completed no node; otherwise the id is already answered. */
  lemma RollbackRestoresGate(g: Graph, log: Log, firstId: Id, id: InterruptId, input: Input, tick: nat)
    requires ClaimStep(log, id).answer == Ok(Claimed)
    requires ResumeCall(g, log, firstId, id, input, true, tick).result.Err?
    ensures var gate, after := Last(log).body, ResumeCall(g, log, firstId, id, input, true, tick).log;
            var t := Run(g, Entry(g, gate, gate.yieldRequest.value, input, tick), Some(id));
            && Gated(after)
            && Last(after).body == gate.(dag := None, claimed := None, resolved := None)
            && ClaimStep(after, id).answer == if t.saves == [] then Ok(Claimed) else Ok(AlreadyCompleted)
  {
    var gate := Last(log).body;
    var loaded := Last(ClaimStep(log, id).log).body;
    assert Entry(g, gate, gate.yieldRequest.value, input, tick) ==
           Entry(g, loaded, loaded.yieldRequest.value, input, tick);
    var t := Run(g, Entry(g, gate, gate.yieldRequest.value, input, tick), Some(id));
    var saves := t.saves + [Rollback(loaded, loaded.yieldRequest.value)];
    RunSaves(g, Entry(g, gate, gate.yieldRequest.value, input, tick), Some(id));
    var claimed := ClaimStep(log, id).log;
    SameResolved(log, claimed, id);
    ResolvedByAppend(claimed, firstId, saves, id);
    assert t.saves != [] ==> saves[0].resolved == Some(id);
    assert t.saves == [] ==> saves == [Rollback(loaded, loaded.yieldRequest.value)];
  }

  /** An accepted resume settles its id exactly when its first durable write is not a new
      gate; from then on every further call with the id reads the current state and changes
      nothing. A hand-off straight to `__END__` writes nothing and settles nothing. */
  lemma SettledExactly(g: Graph, log: Log, firstId: Id, id: InterruptId, input: Input, tick: nat)
    requires ClaimStep(log, id).answer == Ok(Claimed)
    ensures var gate, after := Last(log).body, ResumeCall(g, log, firstId, id, input, true, tick).log;
            var saves := Run(g, Entry(g, gate, gate.yieldRequest.value, input, tick), Some(id)).saves;
            && (Resolved(after, id) <==> saves != [] && !saves[0].status.Yielded?)
            && (Resolved(after, id) ==> forall n, x, ok, k ::
                  ResumeCall(g, after, n, id, x, ok, k) == Resumed(Ok(Last(after).body.state), after))
  {
    var gate := Last(log).body;
    var loaded := Last(ClaimStep(log, id).log).body;
    assert Entry(g, gate, gate.yieldRequest.value, input, tick) ==
           Entry(g, loaded, loaded.yieldRequest.value, input, tick);
    var t := Run(g, Entry(g, gate, gate.yieldRequest.value, input, tick), Some(id));
    var undo := if t.result.Ok? then [] else [Rollback(loaded, loaded.yieldRequest.value)];
    RunSaves(g, Entry(g, gate, gate.yieldRequest.value, input, tick), Some(id));
    var claimed := ClaimStep(log, id).log;
    SameResolved(log, claimed, id);
    ResolvedByAppend(claimed, firstId, t.saves + undo, id);
    assert t.saves != [] ==> (t.saves + undo)[0] == t.saves[0];
    forall i | 0 <= i < |t.saves + undo| && (t.saves + undo)[i].resolved == Some(id)
      ensures t.saves != [] && !t.saves[0].status.Yielded?
    {
      assert (t.saves + undo)[i] == if i < |t.saves| then t.saves[i] else undo[i - |t.saves|];
    }
  }

  predicate Claimable(log: Log, id: InterruptId) { ClaimStep(log, id).answer == Ok(Claimed) }

  /** A whole call leaves the latest record claimed exactly when it won the claim and then
      rejected the input or entered the graph at `__END__` with a step left to notice it;
      otherwise only if the record was claimed before, by somebody else. */
  lemma CallLeavesClaimExactly(g: Graph, log: Log, firstId: Id, id: InterruptId, input: Input, accepted: bool,
                               tick: nat)
    ensures var after := ResumeCall(g, log, firstId, id, input, accepted, tick).log;
            && (Claimable(log, id) ==> Last(log).body.yieldRequest.Some?)
            && (after != [] && Last(after).body.status.Running? <==>
                if Claimable(log, id) then
                  !accepted ||
                  (Entry(g, Last(log).body, Last(log).body.yieldRequest.value, input, tick).node == END &&
                   g.limits.maxSequentialSteps > 0)
                else log != [] && Last(log).body.status.Running?)
  {
    ClaimWinsExactly(log, id);
    if Claimable(log, id) && accepted {
      var gate, loaded := Last(log).body, Last(ClaimStep(log, id).log).body;
      var start := Entry(g, gate, gate.yieldRequest.value, input, tick);
      assert start == Entry(g, loaded, loaded.yieldRequest.value, input, tick);
      RunLeavesNothing(g, start, Some(id));
      RunSaves(g, start, Some(id));
      var t := Run(g, start, Some(id));
      var undo := if t.result.Ok? then [] else [Rollback(loaded, loaded.yieldRequest.value)];
      LastAppended(ClaimStep(log, id).log, firstId, t.saves + undo);
    }
  }

  /** A run that succeeds without a record was at `__END__` from the start. */
  lemma RunLeavesNothing(g: Graph, p: Position, resolved: Option<InterruptId>)
    ensures var t := Run(g, p, resolved);
            t.result.Ok? && t.saves == [] <==> p.node == END && p.steps < g.limits.maxSequentialSteps
  {
    StepShape(g, p, resolved);
  }

  lemma LastAppended(log: Log, firstId: Id, saves: seq<Snapshot>)
    ensures saves == [] ==> Appended(log, firstId, saves) == log
    ensures saves != [] ==>
              Appended(log, firstId, saves) != [] && Last(Appended(log, firstId, saves)).body == saves[|saves| - 1]
  {
  }
}
