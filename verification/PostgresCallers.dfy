/** Resuming callers over the Postgres claim: the three statements in place of the atomic
    claim, interleaved with the loads, nodes, rollbacks and crashes of every other caller. */
module PostgresCallers {
  import opened Types
  import opened Executor
  import opened Checkpoints
  import opened Sequential
  import opened Resume
  import Callers
  import PostgresClaim

  type Caller = Callers.Caller

  /** A caller that has checked the history, or has read the gate as well. */
  datatype Stage = Checked(id: InterruptId) | Seen(id: InterruptId)

  datatype System = System(inner: Callers.System, early: map<Caller, Stage>)

  datatype Action =
    | Check(c: Caller, id: InterruptId)
    | Read(c: Caller)
    | Update(c: Caller)
    | Then(a: Callers.Action)

  function ActorOf(a: Action): Caller { if a.Then? then a.a.c else a.c }

  function Began(log: Log, nextId: Id): System { System(Callers.System(log, nextId, map[]), map[]) }

  /** Caller `c` leaves the claim with phase `phase` and the log as given. */
  function Leave(s: System, c: Caller, log: Log, phase: Callers.Phase): System {
    System(s.inner.(log := log, phases := s.inner.phases[c := phase]), s.early - {c})
  }

  function Answer(id: InterruptId, answer: Result<ClaimResult, Error>): Callers.Phase {
    match answer case Ok(r) => Callers.Waiting(id, r) case Err(e) => Callers.Returned(id, Err(e))
  }

  /** An action that is not enabled changes nothing. */
  function Next(g: Graph, s: System, a: Action): System {
    match a
    case Check(c, id) =>
      if c in s.inner.phases || c in s.early then s
      else if Resolved(s.inner.log, id) then Leave(s, c, s.inner.log, Answer(id, Ok(AlreadyCompleted)))
      else s.(early := s.early[c := Checked(id)])
    case Read(c) =>
      if c !in s.early || !s.early[c].Checked? then s
      else
        var id := s.early[c].id;
        var verdict := PostgresClaim.Verdict(s.inner.log, id);
        if verdict.None? then s.(early := s.early[c := Seen(id)])
        else Leave(s, c, s.inner.log, Answer(id, verdict.value))
    case Update(c) =>
      if c !in s.early || !s.early[c].Seen? then s
      else
        var id := s.early[c].id;
        if Gated(s.inner.log) then Leave(s, c, PostgresClaim.Taken(s.inner.log, id), Answer(id, Ok(Claimed)))
        else Leave(s, c, s.inner.log, Answer(id, Err(ConcurrentClaimFailed)))
    case Then(a) =>
      if a.Claim? then s else s.(inner := Callers.Next(g, s.inner, a))
  }

  function Execute(g: Graph, s: System, actions: seq<Action>): System
    decreases |actions|
  {
    if actions == [] then s else Execute(g, Next(g, s, actions[0]), actions[1..])
  }

  /** The record a caller was told it claimed is claimed for it. */
  predicate ClaimedFor(log: Log, id: InterruptId) {
    log != [] && Last(log).body.status.Running? && Last(log).body.claimed == Some(id)
  }

  predicate PhaseOk(log: Log, phase: Callers.Phase) {
    match phase
    case Waiting(id, answer) =>
      (answer == Claimed ==> ClaimedFor(log, id)) && (answer == AlreadyCompleted ==> Resolved(log, id))
    case Active(id, loaded, _) => loaded.yieldRequest.Some? && loaded.yieldRequest.value.interruptId == id
    case RollingBack(id, loaded, _) => loaded.yieldRequest.Some? && loaded.yieldRequest.value.interruptId == id
    case _ => true
  }

  /** At most one holder, none while a gate is open. Other than with the atomic claim, the
      record a caller holds may ask for another id than the caller's. */
  ghost predicate InnerInv(s: Callers.System) {
    && (forall c, d :: Callers.Holds(s, c) && Callers.Holds(s, d) ==> c == d)
    && (Gated(s.log) ==> Callers.Free(s))
    && (forall c :: c in s.phases ==> PhaseOk(s.log, s.phases[c]))
  }

  ghost predicate Inv(s: System) {
    InnerInv(s.inner) && s.inner.phases.Keys !! s.early.Keys
  }

  /** The gate asks for this id. */
  predicate Asks(log: Log, id: InterruptId) {
    log != [] && Last(log).body.yieldRequest.Some? && Last(log).body.yieldRequest.value.interruptId == id
  }

  /** A caller that holds nothing gets a phase that holds nothing. */
  lemma QuietKeepsInv(s: Callers.System, c: Caller, phase: Callers.Phase)
    requires InnerInv(s) && PhaseOk(s.log, phase)
    requires var t := s.(phases := s.phases[c := phase]); Callers.Holds(t, c) ==> Callers.Holds(s, c)
    ensures InnerInv(s.(phases := s.phases[c := phase]))
  {
    var t := s.(phases := s.phases[c := phase]);
    forall d | Callers.Holds(t, d) ensures Callers.Holds(s, d) { assert d != c ==> t.phases[d] == s.phases[d]; }
    forall d | d in t.phases ensures PhaseOk(t.log, t.phases[d]) { assert d != c ==> t.phases[d] == s.phases[d]; }
  }

  lemma TakenIs(log: Log, id: InterruptId)
    requires Gated(log)
    ensures var after := PostgresClaim.Taken(log, id);
            && after != [] && ClaimedFor(after, id) && !Gated(after)
            && (forall x :: Resolved(after, x) <==> Resolved(log, x))
            && (forall x :: Asks(after, x) <==> Asks(log, x))
  {
    forall x ensures Resolved(PostgresClaim.Taken(log, id), x) <==> Resolved(log, x) {
      SameResolved(log, PostgresClaim.Taken(log, id), x);
    }
  }

  /** Whoever takes an open gate is the only holder. */
  lemma TakeKeepsInv(s: Callers.System, c: Caller, id: InterruptId)
    requires InnerInv(s) && Gated(s.log) && c !in s.phases
    ensures InnerInv(s.(log := PostgresClaim.Taken(s.log, id), phases := s.phases[c := Callers.Waiting(id, Claimed)]))
  {
    TakenIs(s.log, id);
    var t := s.(log := PostgresClaim.Taken(s.log, id), phases := s.phases[c := Callers.Waiting(id, Claimed)]);
    forall d | Callers.Holds(t, d) ensures d == c {
      if d != c { assert Callers.Holds(s, d); }
    }
    forall d | d in t.phases && d != c ensures PhaseOk(t.log, t.phases[d]) {
      assert !Callers.Holds(s, d) && PhaseOk(s.log, s.phases[d]);
    }
  }

  lemma WriteKeepsInv(s: Callers.System, c: Caller, save: Snapshot, phase: Callers.Phase)
    requires InnerInv(s) && Callers.Holds(s, c)
    requires PhaseOk(s.log, phase) && !phase.Waiting?
    requires Callers.Holds(Callers.Saved(s, c, [save], phase), c) ==> !save.status.Yielded?
    ensures InnerInv(Callers.Saved(s, c, [save], phase))
  {
    Callers.AppendedLast(s.log, s.nextId, save);
    var t := Callers.Saved(s, c, [save], phase);
    forall d | d in t.phases && d != c ensures !Callers.Holds(t, d) && PhaseOk(t.log, t.phases[d]) {
      assert Callers.Holds(t, d) ==> Callers.Holds(s, d);
    }
  }

  lemma TurnKeepsInv(g: Graph, s: Callers.System, c: Caller)
    requires InnerInv(s) && c in s.phases && s.phases[c].Active?
    ensures InnerInv(Callers.Next(g, s, Callers.Turn(c)))
  {
    var id, loaded, p := s.phases[c].id, s.phases[c].loaded, s.phases[c].at;
    StepShape(g, p, Some(id));
    assert Callers.Holds(s, c) && PhaseOk(s.log, s.phases[c]);
    match Step(g, p, Some(id))
    case Advance(next, save, _) =>
      WriteKeepsInv(s, c, save, Callers.Active(id, loaded, next));
    case Stop(r, saved, _) =>
      var phase := if r.Ok? then Callers.Returned(id, r) else Callers.RollingBack(id, loaded, r.error);
      if saved.Some? {
        WriteKeepsInv(s, c, saved.value, phase);
      } else {
        assert Appended(s.log, s.nextId, []) == s.log;
        QuietKeepsInv(s, c, phase);
      }
  }

  lemma RollBackKeepsInv(g: Graph, s: Callers.System, c: Caller)
    requires InnerInv(s) && c in s.phases && s.phases[c].RollingBack?
    ensures InnerInv(Callers.Next(g, s, Callers.RollBack(c)))
  {
    var id, loaded, e := s.phases[c].id, s.phases[c].loaded, s.phases[c].error;
    assert Callers.Holds(s, c) && PhaseOk(s.log, s.phases[c]);
    WriteKeepsInv(s, c, Rollback(loaded, loaded.yieldRequest.value), Callers.Returned(id, Err(e)));
  }

  lemma InnerKeepsInv(g: Graph, s: Callers.System, a: Callers.Action)
    requires InnerInv(s) && !a.Claim?
    ensures InnerInv(Callers.Next(g, s, a)) && Callers.Next(g, s, a).phases.Keys == s.phases.Keys
  {
    if a.c in s.phases {
      match (a, s.phases[a.c])
      case (Turn(c), Active(_, _, _)) => TurnKeepsInv(g, s, c);
      case (RollBack(c), RollingBack(_, _, _)) => RollBackKeepsInv(g, s, c);
      case (Load(c, accepted, input, tick), Waiting(id, answer)) =>
        QuietKeepsInv(s, c, Callers.AfterLoad(g, s.log, id, answer, accepted, input, tick));
      case (Crash(c), phase) => if !Callers.Over(phase) { QuietKeepsInv(s, c, Callers.Crashed(phase.id)); }
      case _ =>
    }
  }

  lemma VerdictIsNoClaim(log: Log, id: InterruptId)
    ensures var v := PostgresClaim.Verdict(log, id);
            v.Some? ==> v.value != Ok(Claimed) && v.value != Ok(AlreadyCompleted)
  {
  }

  lemma StepKeepsInv(g: Graph, s: System, a: Action)
    requires Inv(s)
    ensures Inv(Next(g, s, a))
  {
    match a
    case Then(b) => if !b.Claim? { InnerKeepsInv(g, s.inner, b); }
    case Check(c, id) =>
      if c !in s.inner.phases && c !in s.early && Resolved(s.inner.log, id) {
        QuietKeepsInv(s.inner, c, Callers.Waiting(id, AlreadyCompleted));
      }
    case Read(c) =>
      if c in s.early && s.early[c].Checked? { ReadKeepsInv(s, c); }
    case Update(c) =>
      if c in s.early && s.early[c].Seen? { UpdateKeepsInv(s, c); }
  }

  lemma ReadKeepsInv(s: System, c: Caller)
    requires Inv(s) && c in s.early && s.early[c].Checked?
    ensures var verdict := PostgresClaim.Verdict(s.inner.log, s.early[c].id);
            verdict.Some? ==> InnerInv(Leave(s, c, s.inner.log, Answer(s.early[c].id, verdict.value)).inner)
  {
    var verdict := PostgresClaim.Verdict(s.inner.log, s.early[c].id);
    if verdict.Some? {
      VerdictIsNoClaim(s.inner.log, s.early[c].id);
      QuietKeepsInv(s.inner, c, Answer(s.early[c].id, verdict.value));
    }
  }

  lemma UpdateKeepsInv(s: System, c: Caller)
    requires Inv(s) && c in s.early && s.early[c].Seen?
    ensures var id, log := s.early[c].id, s.inner.log;
            InnerInv(if Gated(log) then Leave(s, c, PostgresClaim.Taken(log, id), Answer(id, Ok(Claimed))).inner
                     else Leave(s, c, log, Answer(id, Err(ConcurrentClaimFailed))).inner)
  {
    assert c !in s.inner.phases;
    if Gated(s.inner.log) {
      TakeKeepsInv(s.inner, c, s.early[c].id);
    } else {
      QuietKeepsInv(s.inner, c, Answer(s.early[c].id, Err(ConcurrentClaimFailed)));
    }
  }

  lemma {:induction false} ExecuteKeepsInv(g: Graph, s: System, actions: seq<Action>)
    requires Inv(s)
    ensures Inv(Execute(g, s, actions))
    decreases |actions|
  {
    if actions != [] {
      StepKeepsInv(g, s, actions[0]);
      ExecuteKeepsInv(g, Next(g, s, actions[0]), actions[1..]);
    }
  }

  /** What of mutual exclusion survives the weak claim. Over every interleaving of any callers,
      from any log: at most one caller is between a `Claimed` answer and its last write, and
      none is while the latest record is an open gate. */
  lemma StillOneResumer(g: Graph, log: Log, nextId: Id, actions: seq<Action>)
    ensures var t := Execute(g, Began(log, nextId), actions);
            && (forall c, d :: Callers.Holds(t.inner, c) && Callers.Holds(t.inner, d) ==> c == d)
            && (Gated(t.inner.log) ==> Callers.Free(t.inner))
            && Inv(t)
  {
    ExecuteKeepsInv(g, Began(log, nextId), actions);
  }

  /** While somebody holds an unused claim, nobody else changes the log or that caller. */
  lemma OthersWait(g: Graph, s: System, a: Action, c: Caller)
    requires Inv(s) && Callers.Holds(s.inner, c) && ActorOf(a) != c
    ensures var t := Next(g, s, a);
            t.inner.log == s.inner.log && c in t.inner.phases && t.inner.phases[c] == s.inner.phases[c]
  {
    assert !Gated(s.inner.log);
    if a.Then? && a.a.c in s.inner.phases { assert !Callers.Holds(s.inner, a.a.c); }
  }

  lemma {:induction false} OthersWaitLong(g: Graph, s: System, actions: seq<Action>, c: Caller)
    requires Inv(s) && Callers.Holds(s.inner, c) && forall a :: a in actions ==> ActorOf(a) != c
    ensures var t := Execute(g, s, actions);
            && Inv(t) && t.inner.log == s.inner.log
            && c in t.inner.phases && t.inner.phases[c] == s.inner.phases[c]
    decreases |actions|
  {
    if actions != [] {
      assert actions[0] in actions;
      OthersWait(g, s, actions[0], c);
      StepKeepsInv(g, s, actions[0]);
      OthersWaitLong(g, Next(g, s, actions[0]), actions[1..], c);
    }
  }

  /** What a won update comes to, whatever the others do before the winner loads: nothing has
      changed since the update; the re-check fails exactly when the gate that was open at the
      update asks for another id; otherwise the caller runs nodes exactly when its input is
      accepted, and whether or not its id was settled long ago. */
  lemma WonUpdate(g: Graph, s: System, c: Caller, actions: seq<Action>, accepted: bool, input: Input, tick: nat)
    requires Inv(s) && c in s.early && s.early[c].Seen? && Gated(s.inner.log)
    requires forall a :: a in actions ==> ActorOf(a) != c
    ensures var id, gate := s.early[c].id, s.inner.log;
            var later := Execute(g, Next(g, s, Update(c)), actions);
            var loaded := Next(g, later, Then(Callers.Load(c, accepted, input, tick)));
            && later.inner.log == PostgresClaim.Taken(gate, id) && c in loaded.inner.phases
            && (ClaimStep(gate, id).answer == Ok(AlreadyCompleted) <==> Resolved(loaded.inner.log, id))
            && (loaded.inner.phases[c].RecheckFailed? <==> !Asks(gate, id))
            && (loaded.inner.phases[c].Active? <==> Asks(gate, id) && accepted)
            && (loaded.inner.phases[c] == Callers.Returned(id, Err(SchemaValidationFailed(id))) <==>
                Asks(gate, id) && !accepted)
            && (Callers.Stranded(loaded.inner) <==> !(Asks(gate, id) && accepted))
  {
    var id, gate := s.early[c].id, s.inner.log;
    var won := Next(g, s, Update(c));
    StepKeepsInv(g, s, Update(c));
    TakenIs(gate, id);
    ClaimWinsExactly(gate, id);
    assert Callers.Holds(won.inner, c);
    OthersWaitLong(g, won, actions, c);
    LoadComesTo(g, Execute(g, won, actions).inner, c, id, accepted, input, tick);
  }

  lemma LoadComesTo(g: Graph, s: Callers.System, c: Caller, id: InterruptId, accepted: bool, input: Input, tick: nat)
    requires InnerInv(s) && c in s.phases && s.phases[c] == Callers.Waiting(id, Claimed)
    ensures var t := Callers.Next(g, s, Callers.Load(c, accepted, input, tick));
            && t.log == s.log && c in t.phases
            && (t.phases[c].RecheckFailed? <==> !Asks(s.log, id))
            && (t.phases[c].Active? <==> Asks(s.log, id) && accepted)
            && (t.phases[c] == Callers.Returned(id, Err(SchemaValidationFailed(id))) <==> Asks(s.log, id) && !accepted)
            && (Callers.Stranded(t) <==> !(Asks(s.log, id) && accepted))
  {
    var t := Callers.Next(g, s, Callers.Load(c, accepted, input, tick));
    assert Callers.Holds(s, c) && PhaseOk(s.log, s.phases[c]);
    forall d | d != c ensures !Callers.Holds(t, d) { assert !Callers.Holds(s, d); }
    assert Callers.Holds(t, c) <==> t.phases[c].Active?;
  }

  /** The steps at which a holder lets go of the claim without a write: those it has with the
      atomic claim, and the re-check of a record that asks for another id. */
  predicate LetsGo(g: Graph, s: System, a: Action) {
    && a.Then? && Callers.Holds(s.inner, a.a.c)
    && (|| Callers.LetsGo(g, s.inner, a.a)
        || (a.a.Load? && s.inner.phases[a.a.c].Waiting? && !Asks(s.inner.log, s.inner.phases[a.a.c].id)))
  }

  /** What a step after the claim does: only a holder writes, and only records that are not
      running. */
  lemma InnerStepWrites(g: Graph, s: Callers.System, a: Callers.Action)
    requires InnerInv(s) && !a.Claim?
    ensures var t := Callers.Next(g, s, a);
            && (t.log == s.log || (!Callers.ClaimOpen(t.log) && Callers.Holds(s, a.c)))
            && (forall d :: d != a.c ==> (Callers.Holds(t, d) <==> Callers.Holds(s, d)))
  {
    if a.c in s.phases {
      assert PhaseOk(s.log, s.phases[a.c]);
      if a.Turn? && s.phases[a.c].Active? { StepShape(g, s.phases[a.c].at, Some(s.phases[a.c].id)); }
    }
  }

  lemma HolderLetsGo(g: Graph, s: System, a: Callers.Action)
    requires Inv(s) && !a.Claim? && Callers.Holds(s.inner, a.c) && Callers.ClaimOpen(s.inner.log)
    requires Callers.Next(g, s.inner, a).log == s.inner.log
    ensures !Callers.Holds(Callers.Next(g, s.inner, a), a.c) <==> LetsGo(g, s, Then(a))
  {
    assert PhaseOk(s.inner.log, s.inner.phases[a.c]);
    if a.Turn? && s.inner.phases[a.c].Active? {
      StepShape(g, s.inner.phases[a.c].at, Some(s.inner.phases[a.c].id));
    }
  }

  lemma LettingGoWritesNothing(g: Graph, s: System, a: Action)
    requires LetsGo(g, s, a)
    ensures Next(g, s, a).inner.log == s.inner.log
  {
  }

  /** A thread is stranded exactly by such a step on a claim that is still the latest record. */
  lemma StrandsExactly(g: Graph, s: System, a: Action)
    requires Inv(s) && !Callers.Stranded(s.inner)
    ensures Callers.Stranded(Next(g, s, a).inner) <==> Callers.ClaimOpen(s.inner.log) && LetsGo(g, s, a)
  {
    if a.Then? {
      if !a.a.Claim? { ThenStrandsExactly(g, s, a.a); }
    } else {
      ClaimStrandsNobody(g, s, a);
    }
  }

  lemma ThenStrandsExactly(g: Graph, s: System, a: Callers.Action)
    requires Inv(s) && !Callers.Stranded(s.inner) && !a.Claim?
    ensures Callers.Stranded(Callers.Next(g, s.inner, a)) <==> Callers.ClaimOpen(s.inner.log) && LetsGo(g, s, Then(a))
  {
    var t := Callers.Next(g, s.inner, a);
    InnerStepWrites(g, s.inner, a);
    if LetsGo(g, s, Then(a)) { LettingGoWritesNothing(g, s, Then(a)); }
    if Callers.ClaimOpen(s.inner.log) {
      var holder :| Callers.Holds(s.inner, holder);
      if a.c != holder {
        assert Callers.Holds(t, holder);
      } else if t.log == s.inner.log {
        HolderLetsGo(g, s, a);
        assert forall d :: d != holder ==> !Callers.Holds(t, d);
      }
    }
  }

  /** The three statements themselves strand nobody. */
  lemma ClaimStrandsNobody(g: Graph, s: System, a: Action)
    requires Inv(s) && !Callers.Stranded(s.inner) && !a.Then?
    ensures !Callers.Stranded(Next(g, s, a).inner)
  {
    var t := Next(g, s, a);
    VerdictIsNoClaim(s.inner.log, if a.c in s.early then s.early[a.c].id else "");
    if a.Update? && a.c in s.early && s.early[a.c].Seen? && Gated(s.inner.log) {
      assert Callers.Holds(t.inner, a.c);
    } else if Callers.ClaimOpen(s.inner.log) {
      var holder :| Callers.Holds(s.inner, holder);
      assert Callers.Holds(t.inner, holder);
    }
  }

  /** A stranded thread stays as it is under the weak claim too. */
  lemma {:induction false} StrandedForever(g: Graph, s: System, actions: seq<Action>)
    requires Inv(s) && Callers.Stranded(s.inner)
    ensures Execute(g, s, actions).inner.log == s.inner.log && Callers.Stranded(Execute(g, s, actions).inner)
    decreases |actions|
  {
    if actions != [] {
      StrandedStep(g, s, actions[0]);
      StepKeepsInv(g, s, actions[0]);
      StrandedForever(g, Next(g, s, actions[0]), actions[1..]);
    }
  }

  lemma StrandedStep(g: Graph, s: System, a: Action)
    requires Inv(s) && Callers.Stranded(s.inner)
    ensures var t := Next(g, s, a); t.inner.log == s.inner.log && Callers.Stranded(t.inner)
  {
    var t := Next(g, s, a);
    assert !Callers.Holds(s.inner, ActorOf(a));
    VerdictIsNoClaim(s.inner.log, if !a.Then? && a.c in s.early then s.early[a.c].id else "");
    forall d ensures !Callers.Holds(t.inner, d) { assert !Callers.Holds(s.inner, d); }
  }

  lemma ResolvedStays(g: Graph, s: System, a: Action, id: InterruptId)
    requires Resolved(s.inner.log, id)
    ensures Resolved(Next(g, s, a).inner.log, id)
  {
    if a.Then? {
      Callers.ResolvedStays(g, s.inner, a.a, id);
    } else if Gated(s.inner.log) && a.c in s.early {
      TakenIs(s.inner.log, s.early[a.c].id);
    }
  }

  /** Only a check that came before the id was settled can make it run again: a caller that
      checks later is answered `AlreadyCompleted` and never runs a node. */
  lemma {:induction false} LateChecksAreSafe(g: Graph, s: System, actions: seq<Action>, c: Caller, id: InterruptId)
    requires Resolved(s.inner.log, id) && c !in s.early && Callers.Barred(s.inner, c, id)
    requires forall a :: a in actions && a.Check? && a.c == c ==> a.id == id
    ensures var t := Execute(g, s, actions);
            Resolved(t.inner.log, id) && c !in t.early && Callers.Barred(t.inner, c, id)
    decreases |actions|
  {
    if actions != [] {
      assert actions[0] in actions;
      ResolvedStays(g, s, actions[0], id);
      StaysBarred(g, s, actions[0], c, id);
      LateChecksAreSafe(g, Next(g, s, actions[0]), actions[1..], c, id);
    }
  }

  lemma StaysBarred(g: Graph, s: System, a: Action, c: Caller, id: InterruptId)
    requires Resolved(s.inner.log, id) && c !in s.early && Callers.Barred(s.inner, c, id)
    requires a.Check? && a.c == c ==> a.id == id
    ensures c !in Next(g, s, a).early && Callers.Barred(Next(g, s, a).inner, c, id)
  {
  }

  /** Steps after the claim, one for one. */
  function ThenAll(actions: seq<Callers.Action>): seq<Action> {
    seq(|actions|, i requires 0 <= i < |actions| => Then(actions[i]))
  }

  lemma {:induction false} ThenRuns(g: Graph, s: System, actions: seq<Callers.Action>)
    requires forall a :: a in actions ==> !a.Claim?
    ensures Execute(g, s, ThenAll(actions)) == System(Callers.Execute(g, s.inner, actions), s.early)
    decreases |actions|
  {
    if actions != [] {
      assert actions[0] in actions;
      assert ThenAll(actions)[1..] == ThenAll(actions[1..]);
      ThenRuns(g, s.(inner := Callers.Next(g, s.inner, actions[0])), actions[1..]);
    }
  }

  lemma {:induction false} TurnsClaimNothing(g: Graph, c: Caller, id: InterruptId, p: Position)
    ensures forall a :: a in Callers.Turns(g, c, id, p) ==> !a.Claim?
    decreases g.limits.maxSequentialSteps - p.steps
  {
    var turn := Step(g, p, Some(id));
    if turn.Advance? { TurnsClaimNothing(g, c, id, turn.next); }
  }

  lemma {:induction false} ExecuteJoins(g: Graph, s: System, a: seq<Action>, b: seq<Action>)
    ensures Execute(g, s, a + b) == Execute(g, Execute(g, s, a), b)
    decreases |a|
  {
    if a == [] {
      assert a + b == b;
    } else {
      assert (a + b)[1..] == a[1..] + b;
      ExecuteJoins(g, Next(g, s, a[0]), a[1..], b);
    }
  }

  /** Callers 0 and 1 have both read an open gate that asks for their id. */
  predicate BothRead(s: System, log: Log, nextId: Id, id: InterruptId) {
    s == System(Callers.System(log, nextId, map[]), map[0 := Seen(id), 1 := Seen(id)])
  }

  lemma ReadBoth(g: Graph, log: Log, nextId: Id, id: InterruptId) returns (actions: seq<Action>)
    requires Claimable(log, id)
    ensures BothRead(Execute(g, Began(log, nextId), actions), log, nextId, id)
  {
    ClaimWinsExactly(log, id);
    var s0 := Began(log, nextId);
    var s1 := Next(g, s0, Check(0, id));
    var s2 := Next(g, s1, Read(0));
    var s3 := Next(g, s2, Check(1, id));
    ExecuteTwo(g, s0, Check(0, id), Read(0));
    ExecuteTwo(g, s2, Check(1, id), Read(1));
    ExecuteJoins(g, s0, [Check(0, id), Read(0)], [Check(1, id), Read(1)]);
    actions := [Check(0, id), Read(0)] + [Check(1, id), Read(1)];
  }

  /** Caller 1 takes the gate and is left alone until it returns: the log is that of a whole
      call over the in-memory store. */
  lemma OneCalls(g: Graph, s: System, log: Log, nextId: Id, id: InterruptId, input: Input, tick: nat)
    returns (actions: seq<Action>)
    requires BothRead(s, log, nextId, id) && Claimable(log, id)
    ensures var t := Execute(g, s, actions);
            && t.inner.log == ResumeCall(g, log, nextId, id, input, true, tick).log
            && t.early == map[0 := Seen(id)]
  {
    ClaimWinsExactly(log, id);
    var won := Next(g, s, Update(1));
    assert won.inner.log == ClaimStep(log, id).log && won.early == map[0 := Seen(id)];
    var loaded := Next(g, won, Then(Callers.Load(1, true, input, tick)));
    var last := Last(won.inner.log).body;
    var p := Entry(g, last, last.yieldRequest.value, input, tick);
    assert loaded.inner.phases[1] == Callers.Active(id, last, p);
    var turns := Callers.Turns(g, 1, id, p);
    TurnsClaimNothing(g, 1, id, p);
    ThenRuns(g, loaded, turns);
    Callers.LoneTurns(g, loaded.inner, 1, id, last, p);
    actions := [Update(1), Then(Callers.Load(1, true, input, tick))] + ThenAll(turns);
    ExecuteJoins(g, s, [Update(1), Then(Callers.Load(1, true, input, tick))], ThenAll(turns));
    ExecuteTwo(g, s, Update(1), Then(Callers.Load(1, true, input, tick)));
  }

  lemma ExecuteTwo(g: Graph, s: System, a: Action, b: Action)
    ensures Execute(g, s, [a, b]) == Next(g, Next(g, s, a), b)
  {
    assert [a, b][1..] == [b] && [b][1..] == [];
    var t := Next(g, s, a);
    assert Execute(g, t, [b]) == Execute(g, Next(g, t, b), []);
  }

  /** What an overtaken reader does, for every graph and every open gate. Two callers read the
      gate; one of them makes its whole call; if that leaves a gate open again, the other
      takes it. Where the new gate asks for another id its re-check fails and the thread is
      stranded; where it asks for the same id again the caller runs nodes, settled or not. */
  lemma OvertakenReader(g: Graph, log: Log, nextId: Id, id: InterruptId, input: Input, tick: nat)
    returns (actions: seq<Action>)
    requires Claimable(log, id) && Gated(ResumeCall(g, log, nextId, id, input, true, tick).log)
    ensures var after := ResumeCall(g, log, nextId, id, input, true, tick).log;
            var end := Execute(g, Began(log, nextId), actions);
            && 0 in end.inner.phases && end.inner.log == PostgresClaim.Taken(after, id)
            && (end.inner.phases[0].RecheckFailed? && Callers.Stranded(end.inner) <==> !Asks(after, id))
            && (end.inner.phases[0].Active? <==> Asks(after, id))
            && (Resolved(end.inner.log, id) <==> Resolved(after, id))
  {
    var after := ResumeCall(g, log, nextId, id, input, true, tick).log;
    var both := ReadBoth(g, log, nextId, id);
    var calls := OneCalls(g, Execute(g, Began(log, nextId), both), log, nextId, id, input, tick);
    ExecuteJoins(g, Began(log, nextId), both, calls);
    var s := Execute(g, Began(log, nextId), both + calls);
    ExecuteKeepsInv(g, Began(log, nextId), both + calls);
    var load := Then(Callers.Load(0, true, input, tick));
    WonUpdate(g, s, 0, [], true, input, tick);
    TakenIs(after, id);
    ExecuteTwo(g, s, Update(0), load);
    actions := both + calls + [Update(0), load];
    ExecuteJoins(g, Began(log, nextId), both + calls, [Update(0), load]);
  }
}
