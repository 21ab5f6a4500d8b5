/** Any number of `resume_with_input` calls on one thread of the in-memory store, as an
    interleaving of their atomic steps: claim, load, one node with its durable write, the
    rollback, and a crash at any moment. Each caller number stands for one call. */
module Callers {
  import opened Types
  import opened Executor
  import opened Checkpoints
  import opened Sequential
  import opened Resume

  datatype Phase =
    | Waiting(id: InterruptId, answer: ClaimResult)
    | Active(id: InterruptId, loaded: Snapshot, at: Position)
    | RollingBack(id: InterruptId, loaded: Snapshot, error: Error)
    | Returned(id: InterruptId, result: Result<State, Error>)
    | RecheckFailed(id: InterruptId)
    | Crashed(id: InterruptId)

  type Caller = nat

  datatype System = System(log: Log, nextId: Id, phases: map<Caller, Phase>)

  datatype Action =
    | Claim(c: Caller, id: InterruptId)
    | Load(c: Caller, accepted: bool, input: Input, tick: nat)
    | Turn(c: Caller)
    | RollBack(c: Caller)
    | Crash(c: Caller)

  /** An action that is not enabled changes nothing. */
  function Next(g: Graph, s: System, a: Action): System {
    if a.Claim? then
      if a.c in s.phases then s
      else
        var claim := ClaimStep(s.log, a.id);
        var phase := match claim.answer case Ok(answer) => Waiting(a.id, answer) case Err(e) => Returned(a.id, Err(e));
        s.(log := claim.log, phases := s.phases[a.c := phase])
    else if a.c !in s.phases then s
    else match (a, s.phases[a.c])
      case (Load(c, accepted, input, tick), Waiting(id, answer)) =>
        s.(phases := s.phases[c := AfterLoad(g, s.log, id, answer, accepted, input, tick)])
      case (Turn(c), Active(id, loaded, p)) =>
        (match Step(g, p, Some(id))
         case Advance(next, save, _) => Saved(s, c, [save], Active(id, loaded, next))
         case Stop(Ok(state), saved, _) => Saved(s, c, ToSeq(saved), Returned(id, Ok(state)))
         case Stop(Err(e), saved, _) => Saved(s, c, ToSeq(saved), RollingBack(id, loaded, e)))
      case (RollBack(c), RollingBack(id, loaded, e)) =>
        if loaded.yieldRequest.None? then s
        else Saved(s, c, [Rollback(loaded, loaded.yieldRequest.value)], Returned(id, Err(e)))
      case (Crash(c), phase) => if Over(phase) then s else s.(phases := s.phases[c := Crashed(phase.id)])
      case _ => s
  }

  /** The load and the re-checks that follow it. */
  function AfterLoad(g: Graph, log: Log, id: InterruptId, answer: ClaimResult, accepted: bool, input: Input,
                     tick: nat): Phase {
    if log == [] then Returned(id, Err(NothingToResume))
    else match answer
      case AlreadyCompleted => Returned(id, Ok(Last(log).body.state))
      case ClaimInProgress => Returned(id, Err(ResumeInProgress(id)))
      case Claimed =>
        var loaded := Last(log).body;
        if loaded.yieldRequest.None? || loaded.yieldRequest.value.interruptId != id then RecheckFailed(id)
        else if !accepted then Returned(id, Err(SchemaValidationFailed(id)))
        else Active(id, loaded, Entry(g, loaded, loaded.yieldRequest.value, input, tick))
  }

  function Saved(s: System, c: Caller, saves: seq<Snapshot>, phase: Phase): System {
    System(Appended(s.log, s.nextId, saves), s.nextId + |saves|, s.phases[c := phase])
  }

  predicate Over(phase: Phase) { phase.Returned? || phase.RecheckFailed? || phase.Crashed? }

  function Execute(g: Graph, s: System, actions: seq<Action>): System
    decreases |actions|
  {
    if actions == [] then s else Execute(g, Next(g, s, actions[0]), actions[1..])
  }

  /** Between a `Claimed` answer and the caller's last write. */
  predicate Holds(s: System, c: Caller) {
    c in s.phases &&
    match s.phases[c]
    case Waiting(_, answer) => answer == Claimed
    case Active(_, _, _) => true
    case RollingBack(_, _, _) => true
    case _ => false
  }

  ghost predicate Free(s: System) { forall c :: !Holds(s, c) }

  predicate ClaimStands(log: Log, id: InterruptId) {
    && log != []
    && Last(log).body.status.Running? && Last(log).body.claimed == Some(id)
    && Last(log).body.yieldRequest.Some? && Last(log).body.yieldRequest.value.interruptId == id
  }

  predicate PhaseOk(log: Log, phase: Phase) {
    match phase
    case Waiting(id, answer) =>
      (answer == Claimed ==> ClaimStands(log, id)) && (answer == AlreadyCompleted ==> Resolved(log, id))
    case Active(id, loaded, _) => loaded.yieldRequest.Some? && loaded.yieldRequest.value.interruptId == id
    case RollingBack(id, loaded, _) => loaded.yieldRequest.Some? && loaded.yieldRequest.value.interruptId == id
    case Returned(_, _) => true
    case RecheckFailed(_) => false
    case Crashed(_) => true
  }

  /** At most one holder, none while a gate is open, and the winner's re-checks hold. */
  ghost predicate Inv(s: System) {
    && (forall c, d :: Holds(s, c) && Holds(s, d) ==> c == d)
    && (Gated(s.log) ==> Free(s))
    && (forall c :: c in s.phases ==> PhaseOk(s.log, s.phases[c]))
  }

  lemma AppendedLast(log: Log, firstId: Id, save: Snapshot)
    ensures Appended(log, firstId, [save]) == log + [Record(firstId, save)]
    ensures Last(Appended(log, firstId, [save])).body == save
    ensures forall x :: Resolved(log, x) ==> Resolved(Appended(log, firstId, [save]), x)
  {
    forall x | Resolved(log, x) ensures Resolved(Appended(log, firstId, [save]), x) {
      ResolvedByAppend(log, firstId, [save], x);
    }
  }

  lemma ClaimKeepsInv(g: Graph, s: System, c: Caller, id: InterruptId)
    requires Inv(s) && c !in s.phases
    ensures Inv(Next(g, s, Claim(c, id)))
  {
    ClaimWinsExactly(s.log, id);
    var t := Next(g, s, Claim(c, id));
    forall x ensures Resolved(t.log, x) <==> Resolved(s.log, x) {
      SameResolved(s.log, t.log, x);
    }
    forall d | Holds(t, d) && d != c ensures Holds(s, d) && t.log == s.log {
      assert Holds(s, d);
    }
  }

  lemma WriteKeepsInv(s: System, c: Caller, save: Snapshot, phase: Phase)
    requires Inv(s) && Holds(s, c) && !s.phases[c].Waiting?
    requires PhaseOk(s.log, phase) && !phase.Waiting?
    requires Holds(Saved(s, c, [save], phase), c) ==> !save.status.Yielded?
    ensures Inv(Saved(s, c, [save], phase))
  {
    AppendedLast(s.log, s.nextId, save);
    var t := Saved(s, c, [save], phase);
    forall d | d in t.phases && d != c ensures !Holds(t, d) && PhaseOk(t.log, t.phases[d]) {
      assert Holds(t, d) ==> Holds(s, d);
    }
  }

  /** A step of one caller that writes nothing and does not begin to hold the claim. */
  lemma QuietKeepsInv(s: System, c: Caller, phase: Phase)
    requires Inv(s) && PhaseOk(s.log, phase)
    requires var t := s.(phases := s.phases[c := phase]); Holds(t, c) ==> Holds(s, c)
    ensures Inv(s.(phases := s.phases[c := phase]))
  {
    var t := s.(phases := s.phases[c := phase]);
    forall d | Holds(t, d) ensures Holds(s, d) { assert d != c ==> t.phases[d] == s.phases[d]; }
    forall d | d in t.phases ensures PhaseOk(t.log, t.phases[d]) { assert d != c ==> t.phases[d] == s.phases[d]; }
  }

  lemma TurnKeepsInv(g: Graph, s: System, c: Caller)
    requires Inv(s) && c in s.phases && s.phases[c].Active?
    ensures Inv(Next(g, s, Turn(c)))
  {
    var id, loaded, p := s.phases[c].id, s.phases[c].loaded, s.phases[c].at;
    StepShape(g, p, Some(id));
    assert Holds(s, c) && PhaseOk(s.log, s.phases[c]);
    match Step(g, p, Some(id))
    case Advance(next, save, _) =>
      WriteKeepsInv(s, c, save, Active(id, loaded, next));
    case Stop(r, saved, _) =>
      var phase := if r.Ok? then Returned(id, r) else RollingBack(id, loaded, r.error);
      if saved.Some? {
        WriteKeepsInv(s, c, saved.value, phase);
      } else {
        assert Appended(s.log, s.nextId, []) == s.log;
        QuietKeepsInv(s, c, phase);
      }
  }

  lemma RollBackKeepsInv(g: Graph, s: System, c: Caller)
    requires Inv(s) && c in s.phases && s.phases[c].RollingBack?
    ensures Inv(Next(g, s, RollBack(c)))
  {
    var id, loaded, e := s.phases[c].id, s.phases[c].loaded, s.phases[c].error;
    assert Holds(s, c) && PhaseOk(s.log, s.phases[c]);
    WriteKeepsInv(s, c, Rollback(loaded, loaded.yieldRequest.value), Returned(id, Err(e)));
  }

  lemma LoadKeepsInv(g: Graph, s: System, c: Caller, accepted: bool, input: Input, tick: nat)
    requires Inv(s) && c in s.phases && s.phases[c].Waiting?
    ensures Inv(Next(g, s, Load(c, accepted, input, tick)))
  {
    var id, answer := s.phases[c].id, s.phases[c].answer;
    assert PhaseOk(s.log, s.phases[c]);
    QuietKeepsInv(s, c, AfterLoad(g, s.log, id, answer, accepted, input, tick));
  }

  lemma StepKeepsInv(g: Graph, s: System, a: Action)
    requires Inv(s)
    ensures Inv(Next(g, s, a))
  {
    if a.Claim? {
      if a.c !in s.phases { ClaimKeepsInv(g, s, a.c, a.id); }
    } else if a.c in s.phases {
      match (a, s.phases[a.c])
      case (Turn(c), Active(_, _, _)) => TurnKeepsInv(g, s, c);
      case (RollBack(c), RollingBack(_, _, _)) => RollBackKeepsInv(g, s, c);
      case (Load(c, accepted, input, tick), Waiting(_, _)) => LoadKeepsInv(g, s, c, accepted, input, tick);
      case (Crash(c), phase) => if !Over(phase) { QuietKeepsInv(s, c, Crashed(phase.id)); }
      case _ =>
    }
  }

  lemma {:induction false} ExecuteKeepsInv(g: Graph, s: System, actions: seq<Action>)
    requires Inv(s)
    ensures Inv(Execute(g, s, actions))
    decreases |actions|
  {
    if actions != [] {
      StepKeepsInv(g, s, actions[0]);
      ExecuteKeepsInv(g, Next(g, s, actions[0]), actions[1..]);
    }
  }

  /** Over every interleaving of every set of callers, from any log: at most one caller is
      between a `Claimed` answer and its last write, none is while the latest record is an
      open gate, and the re-checks after a claim never fail. */
  lemma SingleActiveResumer(g: Graph, log: Log, nextId: Id, actions: seq<Action>)
    ensures var t := Execute(g, System(log, nextId, map[]), actions);
            && (forall c, d :: Holds(t, c) && Holds(t, d) ==> c == d)
            && (Gated(t.log) ==> Free(t))
            && (forall c :: c in t.phases ==> !t.phases[c].RecheckFailed?)
  {
    ExecuteKeepsInv(g, System(log, nextId, map[]), actions);
  }

  /** A call with a settled id can only be told `AlreadyCompleted` and read the state. */
  predicate Barred(s: System, c: Caller, id: InterruptId) {
    c in s.phases ==>
      s.phases[c].id == id &&
      match s.phases[c]
      case Waiting(_, answer) => answer == AlreadyCompleted
      case Returned(_, result) => result.Ok?
      case Crashed(_) => true
      case _ => false
  }

  function Dropping(actions: seq<Action>, c: Caller): seq<Action>
    decreases |actions|
  {
    if actions == [] then []
    else (if actions[0].c == c then [] else [actions[0]]) + Dropping(actions[1..], c)
  }

  predicate SameBut(s: System, u: System, c: Caller) {
    s.log == u.log && s.nextId == u.nextId && s.phases - {c} == u.phases - {c}
  }

  lemma ResolvedStays(g: Graph, s: System, a: Action, id: InterruptId)
    requires Resolved(s.log, id)
    ensures Resolved(Next(g, s, a).log, id)
  {
    if a.Claim? {
      ClaimWinsExactly(s.log, a.id);
      SameResolved(s.log, ClaimStep(s.log, a.id).log, id);
    } else if a.c in s.phases {
      var t := Next(g, s, a);
      if t.log != s.log {
        var saves := match (a, s.phases[a.c])
          case (Turn(_), Active(rid, _, p)) =>
            (match Step(g, p, Some(rid)) case Advance(_, save, _) => [save] case Stop(_, saved, _) => ToSeq(saved))
          case (RollBack(_), RollingBack(_, loaded, _)) => [Rollback(loaded, loaded.yieldRequest.value)]
          case _ => [];
        assert t.log == Appended(s.log, s.nextId, saves);
        ResolvedByAppend(s.log, s.nextId, saves, id);
      }
    }
  }

  lemma OthersStep(g: Graph, s: System, u: System, a: Action, c: Caller)
    requires SameBut(s, u, c) && a.c != c
    ensures SameBut(Next(g, s, a), Next(g, u, a), c)
    ensures (c in s.phases <==> c in Next(g, s, a).phases) && (c in s.phases ==> Next(g, s, a).phases[c] == s.phases[c])
  {
    assert a.c in s.phases <==> a.c in s.phases - {c};
    assert a.c in u.phases <==> a.c in u.phases - {c};
    assert a.c in s.phases ==> s.phases[a.c] == (s.phases - {c})[a.c] == u.phases[a.c];
    var t, v := Next(g, s, a), Next(g, u, a);
    if a.c in t.phases {
      assert t.phases == s.phases[a.c := t.phases[a.c]];
      assert t.phases - {c} == (s.phases - {c})[a.c := t.phases[a.c]];
      assert v.phases - {c} == (u.phases - {c})[a.c := t.phases[a.c]];
    }
  }

  /** Idempotent resume. Once an id is settled, a call with it made at any later time, in any
      interleaving, is answered `AlreadyCompleted`, never runs a node, and leaves no trace:
      the log and every other caller end as if the call had not been made. */
  lemma {:induction false} IdempotentResume(g: Graph, s: System, u: System, actions: seq<Action>, c: Caller,
                                            id: InterruptId)
    requires Resolved(s.log, id) && SameBut(s, u, c) && Barred(s, c, id)
    requires forall a :: a in actions && a.Claim? && a.c == c ==> a.id == id
    ensures var t := Execute(g, s, actions);
            && Resolved(t.log, id) && Barred(t, c, id)
            && SameBut(t, Execute(g, u, Dropping(actions, c)), c)
    decreases |actions|
  {
    if actions != [] {
      var a := actions[0];
      var s' := Next(g, s, a);
      ResolvedStays(g, s, a, id);
      if a.c == c {
        assert a in actions;
        ClaimWinsExactly(s.log, id);
        assert s'.phases - {c} == s.phases - {c};
        assert Dropping(actions, c) == Dropping(actions[1..], c);
        IdempotentResume(g, s', u, actions[1..], c, id);
      } else {
        OthersStep(g, s, u, a, c);
        assert Dropping(actions, c)[1..] == Dropping(actions[1..], c);
        IdempotentResume(g, s', Next(g, u, a), actions[1..], c, id);
      }
    }
  }

  /** The latest record is claimed but nobody holds the claim. */
  ghost predicate Stranded(s: System) {
    s.log != [] && Last(s.log).body.status.Running? && Free(s)
  }

  /** A stranded thread stays exactly as it is, whatever resuming callers do. (What crash
      recovery makes of it is in `Recovery`.) */
  lemma {:induction false} StrandedForever(g: Graph, s: System, actions: seq<Action>)
    requires Stranded(s)
    ensures Execute(g, s, actions).log == s.log && Free(Execute(g, s, actions))
    decreases |actions|
  {
    if actions != [] {
      var a := actions[0];
      var s' := Next(g, s, a);
      ClaimWinsExactly(s.log, if a.Claim? then a.id else "");
      assert !Holds(s, a.c);
      forall c ensures !Holds(s', c) {
        assert !Holds(s, c);
      }
      StrandedForever(g, s', actions[1..]);
    }
  }

  /** The steps at which the holder of the claim lets go of it without a write: it crashes,
      its input is rejected after the claim, or its run is at `__END__` within the limit. */
  predicate LetsGo(g: Graph, s: System, a: Action) {
    && Holds(s, a.c)
    && match (a, s.phases[a.c])
       case (Crash(_), _) => true
       case (Load(_, accepted, _, _), Waiting(_, _)) => !accepted
       case (Turn(_), Active(_, _, p)) => p.node == END && p.steps < g.limits.maxSequentialSteps
       case _ => false
  }

  predicate ClaimOpen(log: Log) {
    log != [] && Last(log).body.status.Running?
  }

  /** Every step but a won claim leaves the latest record as it is or appends one that is not
      running; only the holder of a claim writes. */
  lemma StepWrites(g: Graph, s: System, a: Action)
    requires Inv(s)
    ensures var t := Next(g, s, a);
            && (t.log == s.log || !ClaimOpen(t.log) || (a.Claim? && Holds(t, a.c) && Gated(s.log)))
            && (t.log != s.log && !a.Claim? ==> Holds(s, a.c))
            && (forall d :: d != a.c ==> (Holds(t, d) <==> Holds(s, d)))
  {
    var t := Next(g, s, a);
    if a.Claim? {
      ClaimWinsExactly(s.log, a.id);
    } else if a.c in s.phases {
      assert PhaseOk(s.log, s.phases[a.c]);
      if a.Turn? && s.phases[a.c].Active? {
        StepShape(g, s.phases[a.c].at, Some(s.phases[a.c].id));
      }
    }
  }

  /** When the holder of an open claim takes a step without a write, it lets go exactly by
      one of the steps above. */
  lemma HolderLetsGo(g: Graph, s: System, a: Action)
    requires Inv(s) && Holds(s, a.c) && ClaimOpen(s.log) && Next(g, s, a).log == s.log
    ensures !Holds(Next(g, s, a), a.c) <==> LetsGo(g, s, a)
  {
    assert PhaseOk(s.log, s.phases[a.c]);
    if a.Turn? && s.phases[a.c].Active? {
      StepShape(g, s.phases[a.c].at, Some(s.phases[a.c].id));
    }
  }

  /** A step by which the holder lets go writes nothing. */
  lemma LettingGoWritesNothing(g: Graph, s: System, a: Action)
    requires LetsGo(g, s, a)
    ensures Next(g, s, a).log == s.log
  {
  }

  /** A thread is stranded exactly by such a step on a claim that is still the latest record:
      no other step of any caller, in any state that callers reach, strands it. */
  lemma StrandsExactly(g: Graph, s: System, a: Action)
    requires Inv(s) && !Stranded(s)
    ensures Stranded(Next(g, s, a)) <==> ClaimOpen(s.log) && LetsGo(g, s, a)
  {
    var t := Next(g, s, a);
    StepWrites(g, s, a);
    if LetsGo(g, s, a) { LettingGoWritesNothing(g, s, a); }
    if ClaimOpen(s.log) {
      var holder :| Holds(s, holder);
      if a.c != holder {
        assert Holds(t, holder);
      } else if t.log == s.log {
        HolderLetsGo(g, s, a);
        assert forall d :: d != holder ==> !Holds(t, d);
      }
    }
  }

  /** Three ways to strand a thread: a rejected input (the claim is not rolled back), a crash
      before the first write, and a hand-off straight to `__END__` (which writes nothing). */
  lemma WaysToStrand(g: Graph, s: System, c: Caller, input: Input, tick: nat)
    requires Inv(s) && Holds(s, c) && s.phases[c].Waiting?
    ensures Stranded(Next(g, s, Load(c, false, input, tick)))
    ensures Stranded(Next(g, s, Crash(c)))
    ensures var gate := Last(s.log).body;
            gate.yieldRequest.value.resumeMode.Handoff? && g.EdgeTarget(gate.nextNode, gate.state) == END &&
            g.limits.maxSequentialSteps > 0 ==>
              Stranded(Execute(g, s, [Load(c, true, input, tick), Turn(c)]))
  {
    var rejected, crashed := Next(g, s, Load(c, false, input, tick)), Next(g, s, Crash(c));
    forall d ensures !Holds(rejected, d) && !Holds(crashed, d) {
      assert d != c ==> !Holds(s, d);
    }
    var gate := Last(s.log).body;
    if gate.yieldRequest.value.resumeMode.Handoff? && g.EdgeTarget(gate.nextNode, gate.state) == END &&
        g.limits.maxSequentialSteps > 0 {
      var loaded := Next(g, s, Load(c, true, input, tick));
      var ended := Next(g, loaded, Turn(c));
      assert [Load(c, true, input, tick), Turn(c)][1..] == [Turn(c)] && [Turn(c)][1..] == [];
      assert Execute(g, s, [Load(c, true, input, tick), Turn(c)]) == Execute(g, loaded, [Turn(c)]) == ended;
      assert ended.log == s.log;
      forall d ensures !Holds(ended, d) {
        assert d != c ==> !Holds(s, d);
      }
    }
  }

  /** The actions of a caller that is left alone, from its first turn on. */
  function Turns(g: Graph, c: Caller, id: InterruptId, p: Position): seq<Action>
    decreases g.limits.maxSequentialSteps - p.steps
  {
    [Turn(c)] +
    match Step(g, p, Some(id))
    case Advance(next, _, _) => Turns(g, c, id, next)
    case Stop(Ok(_), _, _) => []
    case Stop(Err(_), _, _) => [RollBack(c)]
  }

  lemma AppendedTwice(log: Log, firstId: Id, a: seq<Snapshot>, b: seq<Snapshot>)
    ensures Appended(Appended(log, firstId, a), firstId + |a|, b) == Appended(log, firstId, a + b)
  {
  }

  lemma {:induction false} LoneTurns(g: Graph, s: System, c: Caller, id: InterruptId, loaded: Snapshot, p: Position)
    requires c in s.phases && s.phases[c] == Active(id, loaded, p) && loaded.yieldRequest.Some?
    ensures var t := Run(g, p, Some(id));
            var undo := if t.result.Ok? then [] else [Rollback(loaded, loaded.yieldRequest.value)];
            var done := Execute(g, s, Turns(g, c, id, p));
            && done.log == Appended(s.log, s.nextId, t.saves + undo)
            && done.phases == s.phases[c := Returned(id, t.result)]
    decreases g.limits.maxSequentialSteps - p.steps
  {
    var turn := Step(g, p, Some(id));
    if turn.Advance? {
      var s1 := Next(g, s, Turn(c));
      assert Turns(g, c, id, p)[0] == Turn(c) && Turns(g, c, id, p)[1..] == Turns(g, c, id, turn.next);
      LoneTurns(g, s1, c, id, loaded, turn.next);
      var rest := Run(g, turn.next, Some(id));
      var undo := if rest.result.Ok? then [] else [Rollback(loaded, loaded.yieldRequest.value)];
      AppendedTwice(s.log, s.nextId, [turn.save], rest.saves + undo);
      assert [turn.save] + (rest.saves + undo) == [turn.save] + rest.saves + undo;
    } else {
      LastTurn(g, s, c, id, loaded, p);
    }
  }

  lemma LastTurn(g: Graph, s: System, c: Caller, id: InterruptId, loaded: Snapshot, p: Position)
    requires c in s.phases && s.phases[c] == Active(id, loaded, p) && loaded.yieldRequest.Some?
    requires Step(g, p, Some(id)).Stop?
    ensures var turn := Step(g, p, Some(id));
            var undo := if turn.result.Ok? then [] else [Rollback(loaded, loaded.yieldRequest.value)];
            var done := Execute(g, s, Turns(g, c, id, p));
            && done.log == Appended(s.log, s.nextId, ToSeq(turn.saved) + undo)
            && done.phases == s.phases[c := Returned(id, turn.result)]
  {
    var turn := Step(g, p, Some(id));
    var s1 := Next(g, s, Turn(c));
    assert Turns(g, c, id, p)[0] == Turn(c);
    if turn.result.Ok? {
      assert Turns(g, c, id, p)[1..] == [];
      assert ToSeq(turn.saved) + [] == ToSeq(turn.saved);
    } else {
      assert Turns(g, c, id, p)[1..] == [RollBack(c)] && [RollBack(c)][1..] == [];
      assert Execute(g, s1, [RollBack(c)]) == Next(g, s1, RollBack(c));
      AppendedTwice(s.log, s.nextId, ToSeq(turn.saved), [Rollback(loaded, loaded.yieldRequest.value)]);
    }
  }

  /** Left alone, a caller's steps are the whole call: same result, same log. */
  lemma LoneCaller(g: Graph, log: Log, nextId: Id, c: Caller, id: InterruptId, input: Input, accepted: bool, tick: nat)
    returns (actions: seq<Action>)
    ensures var done := Execute(g, System(log, nextId, map[]), actions);
            var call := ResumeCall(g, log, nextId, id, input, accepted, tick);
            && done.log == call.log
            && done.phases == map[c := Returned(id, call.result)]
  {
    var s := System(log, nextId, map[]);
    var claim := Claim(c, id);
    var load := Load(c, accepted, input, tick);
    var s1 := Next(g, s, claim);
    var s2 := Next(g, s1, load);
    ClaimWinsExactly(log, id);
    actions := [claim];
    assert actions[1..] == [];
    if ClaimStep(log, id).answer.Ok? {
      ClaimKeepsInv(g, s, c, id);
      var rest := if s2.phases[c].Active? then Turns(g, c, id, s2.phases[c].at) else [];
      actions := [claim, load] + rest;
      assert actions[1..] == [load] + rest && actions[1..][1..] == rest;
      assert Execute(g, s, actions) == Execute(g, s1, [load] + rest) == Execute(g, s2, rest);
      if s2.phases[c].Active? {
        LoneTurns(g, s2, c, id, s2.phases[c].loaded, s2.phases[c].at);
      }
    }
  }
}
