/** Crash recovery (`resume`) on a thread whose interrupts other callers are resuming: runs that
    continue the latest record without claiming it, interleaved with `resume_with_input`. */
module Recovery {
  import opened Types
  import opened Executor
  import opened Checkpoints
  import opened Sequential
  import opened Resume
  import opened SequentialRestart
  import Callers

  /** A recovering run and the interrupt its records resolve. */
  datatype Runner = Runner(at: Position, resolved: Option<InterruptId>)

  datatype World = World(s: Callers.System, runners: map<nat, Runner>)

  datatype Move =
    | Call(a: Callers.Action)
    | Recover(r: nat, rebind: State -> State, tick: nat)
    | Proceed(r: nat)
    | Die(r: nat)

  /** The run `resume_with` starts on a log, if any. */
  function Begun(g: Graph, log: Log, rebind: State -> State, tick: nat): Option<Runner> {
    if log == [] then None
    else
      var loaded := Last(log).body;
      match ResumeNode(g, loaded, rebind(loaded.state))
      case Err(_) => None
      case Ok(node) => Some(Runner(Start(node, rebind(loaded.state), None, tick), loaded.claimed))
  }

  predicate Starts(g: Graph, w: World, m: Move) {
    m.Recover? && m.r !in w.runners && Begun(g, w.s.log, m.rebind, m.tick).Some?
  }

  function Wrote(s: Callers.System, saves: seq<Snapshot>): Callers.System {
    s.(log := Appended(s.log, s.nextId, saves), nextId := s.nextId + |saves|)
  }

  function Next(g: Graph, w: World, m: Move): World {
    match m
    case Call(a) => w.(s := Callers.Next(g, w.s, a))
    case Recover(r, rebind, tick) =>
      if Starts(g, w, m) then w.(runners := w.runners[r := Begun(g, w.s.log, rebind, tick).value]) else w
    case Proceed(r) =>
      if r !in w.runners then w
      else
        var runner := w.runners[r];
        (match Step(g, runner.at, runner.resolved)
         case Advance(next, save, _) => World(Wrote(w.s, [save]), w.runners[r := Runner(next, runner.resolved)])
         case Stop(_, saved, _) => World(Wrote(w.s, ToSeq(saved)), w.runners - {r}))
    case Die(r) => w.(runners := w.runners - {r})
  }

  function Execute(g: Graph, w: World, moves: seq<Move>): World
    decreases |moves|
  {
    if moves == [] then w else Execute(g, Next(g, w, moves[0]), moves[1..])
  }

  ghost predicate Winnable(log: Log) { exists id :: Claimable(log, id) }

  /** Nobody is at work on the thread and nobody can get to be. */
  ghost predicate Quiet(w: World) {
    w.runners == map[] && Callers.Free(w.s) && !Winnable(w.s.log)
  }

  /** At most one party, a recovering run or the holder of a claim, is at work. */
  ghost predicate Exclusive(w: World) {
    && (forall c, d :: Callers.Holds(w.s, c) && Callers.Holds(w.s, d) ==> c == d)
    && (forall r, q :: r in w.runners && q in w.runners ==> r == q)
    && (w.runners != map[] ==> Callers.Free(w.s))
  }

  ghost predicate Guarded(w: World) {
    Callers.Inv(w.s) && Exclusive(w) && (w.runners != map[] ==> !Winnable(w.s.log))
  }

  lemma OnlyGatesAreWinnable(log: Log)
    ensures Winnable(log) ==> Gated(log)
  {
    if id :| Claimable(log, id) { ClaimWinsExactly(log, id); }
  }

  /** With nobody holding and nothing to win, callers change nothing. */
  lemma CallersIdle(g: Graph, s: Callers.System, a: Callers.Action)
    requires Callers.Inv(s) && Callers.Free(s) && !Winnable(s.log)
    ensures Callers.Next(g, s, a).log == s.log && Callers.Free(Callers.Next(g, s, a))
  {
    var t := Callers.Next(g, s, a);
    assert !Callers.Holds(s, a.c);
    if a.Claim? {
      assert !Claimable(s.log, a.id);
      ClaimWinsExactly(s.log, a.id);
    }
    forall c ensures !Callers.Holds(t, c) { assert !Callers.Holds(s, c); }
  }

  lemma RunnerKeepsInv(s: Callers.System, saves: seq<Snapshot>)
    requires Callers.Inv(s) && Callers.Free(s)
    ensures Callers.Inv(Wrote(s, saves)) && Callers.Free(Wrote(s, saves))
  {
    var t := Wrote(s, saves);
    forall c ensures !Callers.Holds(t, c) { assert !Callers.Holds(s, c); }
    forall c | c in t.phases ensures Callers.PhaseOk(t.log, t.phases[c]) {
      assert Callers.PhaseOk(s.log, s.phases[c]) && !Callers.Holds(s, c);
      ResolvedByAppend(s.log, s.nextId, saves, s.phases[c].id);
    }
  }

  lemma ProceedKeepsGuarded(g: Graph, w: World, r: nat)
    requires Guarded(w) && r in w.runners
    ensures Guarded(Next(g, w, Proceed(r)))
  {
    var runner := w.runners[r];
    StepShape(g, runner.at, runner.resolved);
    var turn := Step(g, runner.at, runner.resolved);
    if turn.Advance? {
      RunnerKeepsInv(w.s, [turn.save]);
      LastAppended(w.s.log, w.s.nextId, [turn.save]);
      OnlyGatesAreWinnable(Wrote(w.s, [turn.save]).log);
    } else {
      RunnerKeepsInv(w.s, ToSeq(turn.saved));
      assert w.runners - {r} == map[];
    }
  }

  lemma CallKeepsGuarded(g: Graph, w: World, a: Callers.Action)
    requires Guarded(w)
    ensures Guarded(Next(g, w, Call(a)))
  {
    Callers.StepKeepsInv(g, w.s, a);
    if w.runners != map[] { CallersIdle(g, w.s, a); }
  }

  lemma DieKeepsGuarded(g: Graph, w: World, r: nat)
    requires Guarded(w)
    ensures Guarded(Next(g, w, Die(r)))
  {
    if w.runners == map[] { assert w.runners - {r} == map[]; }
  }

  lemma NextKeepsGuarded(g: Graph, w: World, m: Move)
    requires Guarded(w) && (Starts(g, w, m) ==> Quiet(w))
    ensures Guarded(Next(g, w, m))
  {
    match m
    case Call(a) => CallKeepsGuarded(g, w, a);
    case Recover(r, _, _) =>
    case Proceed(r) => if r in w.runners { ProceedKeepsGuarded(g, w, r); }
    case Die(r) => DieKeepsGuarded(g, w, r);
  }

  /** Recovery is only started when the thread is quiet. */
  ghost predicate Careful(g: Graph, w: World, moves: seq<Move>)
    decreases |moves|
  {
    moves == [] || ((Starts(g, w, moves[0]) ==> Quiet(w)) && Careful(g, Next(g, w, moves[0]), moves[1..]))
  }

  /** Started only on quiet threads, recovery and resuming callers exclude each other over
      every interleaving: at most one of them is at work. */
  lemma {:induction false} CarefulRecovery(g: Graph, w: World, moves: seq<Move>)
    requires Guarded(w) && Careful(g, w, moves)
    ensures Guarded(Execute(g, w, moves))
    decreases |moves|
  {
    if moves != [] {
      NextKeepsGuarded(g, w, moves[0]);
      CarefulRecovery(g, Next(g, w, moves[0]), moves[1..]);
    }
  }

  predicate NoRecovery(moves: seq<Move>) { forall k :: 0 <= k < |moves| ==> !moves[k].Recover? }

  lemma {:induction false} NoRecoveryIsCareful(g: Graph, w: World, moves: seq<Move>)
    requires NoRecovery(moves)
    ensures Careful(g, w, moves)
    decreases |moves|
  {
    if moves != [] { NoRecoveryIsCareful(g, Next(g, w, moves[0]), moves[1..]); }
  }

  lemma {:induction false} FreshNumber(s: set<nat>) returns (c: nat)
    ensures forall x :: x in s ==> x < c
    decreases |s|
  {
    if s == {} {
      c := 0;
    } else {
      var x :| x in s;
      var d := FreshNumber(s - {x});
      c := if x < d then d else x + 1;
      assert forall y :: y in s ==> y == x || y in s - {x};
    }
  }

  /** Recovery next to an open gate: some caller can win the claim while the run is at work. */
  lemma GateBesideRunner(g: Graph, w: World, r: nat) returns (moves: seq<Move>)
    requires r in w.runners && Winnable(w.s.log)
    ensures NoRecovery(moves) && !Exclusive(Execute(g, w, moves))
  {
    var id :| Claimable(w.s.log, id);
    var c := FreshNumber(w.s.phases.Keys);
    assert c !in w.s.phases;
    moves := [Call(Callers.Claim(c, id))];
    var after := Next(g, w, moves[0]);
    assert moves[1..] == [] && Execute(g, after, moves[1..]) == after;
    assert Callers.Holds(after.s, c);
  }

  /** When recovery is safe, exactly: a started recovery and the resuming callers exclude each
      other in every continuation if and only if nobody was at work on the thread and the
      latest record was no gate that a caller could win. */
  lemma RecoverySafeExactly(g: Graph, w: World, m: Move)
    requires Guarded(w) && Starts(g, w, m)
    ensures Quiet(w) <==> forall moves :: NoRecovery(moves) ==> Exclusive(Execute(g, Next(g, w, m), moves))
  {
    var next := Next(g, w, m);
    if Quiet(w) {
      NextKeepsGuarded(g, w, m);
      forall moves | NoRecovery(moves) ensures Exclusive(Execute(g, next, moves)) {
        NoRecoveryIsCareful(g, next, moves);
        CarefulRecovery(g, next, moves);
      }
    } else {
      var moves := UnquietBreaks(g, w, m);
      assert NoRecovery(moves) && !Exclusive(Execute(g, next, moves));
    }
  }

  lemma UnquietBreaks(g: Graph, w: World, m: Move) returns (moves: seq<Move>)
    requires Guarded(w) && Starts(g, w, m) && !Quiet(w)
    ensures NoRecovery(moves) && !Exclusive(Execute(g, Next(g, w, m), moves))
  {
    var next := Next(g, w, m);
    assert m.r in next.runners;
    if Winnable(w.s.log) {
      moves := GateBesideRunner(g, next, m.r);
    } else {
      moves := [];
      if w.runners != map[] {
        var q :| q in w.runners;
        assert q in next.runners && q != m.r;
      }
    }
  }

  /** A stranded thread with no recovery under way is quiet. */
  lemma StrandedIsQuiet(w: World)
    requires Callers.Stranded(w.s) && w.runners == map[]
    ensures Quiet(w)
  {
    OnlyGatesAreWinnable(w.s.log);
  }

  /** What recovering a stranded thread comes to. `FailFast` refuses; otherwise the run settles
      the claimed id exactly when its first record is not a new gate, and leaves the record
      claimed, the thread stranded as before, exactly when it writes nothing: it stands at
      `__END__`, or its first node fails. */
  lemma RecoverySettles(g: Graph, log: Log, firstId: Id, id: InterruptId, rebind: State -> State, tick: nat)
    requires Callers.ClaimOpen(log) && Last(log).body.claimed == Some(id)
    ensures Begun(g, log, rebind, tick).None? <==> g.crashPolicy.FailFastOnCrash?
    ensures Begun(g, log, rebind, tick).Some? ==>
              var runner := Begun(g, log, rebind, tick).value;
              var t := Run(g, runner.at, runner.resolved);
              var after := Appended(log, firstId, t.saves);
              && runner.resolved == Some(id)
              && (Resolved(after, id) <==> Resolved(log, id) || (t.saves != [] && !t.saves[0].status.Yielded?))
              && (Callers.ClaimOpen(after) <==> t.saves == [])
              && (t.saves == [] ==> t.result.Err? || runner.at.node == END)
  {
    if Begun(g, log, rebind, tick).Some? {
      var runner := Begun(g, log, rebind, tick).value;
      var t := Run(g, runner.at, runner.resolved);
      RunSaves(g, runner.at, Some(id));
      RunLeavesNothing(g, runner.at, Some(id));
      ResolvedByAppend(log, firstId, t.saves, id);
      LastAppended(log, firstId, t.saves);
    }
  }

  /** The moves of a recovery that is left alone. */
  function Proceeds(g: Graph, r: nat, runner: Runner): seq<Move>
    decreases g.limits.maxSequentialSteps - runner.at.steps
  {
    [Proceed(r)] +
    match Step(g, runner.at, runner.resolved)
    case Advance(next, _, _) => Proceeds(g, r, Runner(next, runner.resolved))
    case Stop(_, _, _) => []
  }

  lemma {:induction false} LoneRunner(g: Graph, w: World, r: nat, runner: Runner)
    requires r in w.runners && w.runners[r] == runner
    ensures var t, done := Run(g, runner.at, runner.resolved), Execute(g, w, Proceeds(g, r, runner));
            && done.s == Wrote(w.s, t.saves) && done.runners == w.runners - {r}
    decreases g.limits.maxSequentialSteps - runner.at.steps
  {
    var turn, moves := Step(g, runner.at, runner.resolved), Proceeds(g, r, runner);
    var next := Next(g, w, Proceed(r));
    assert moves[0] == Proceed(r);
    if turn.Advance? {
      assert moves[1..] == Proceeds(g, r, Runner(turn.next, runner.resolved));
      LoneRunner(g, next, r, Runner(turn.next, runner.resolved));
      Callers.AppendedTwice(w.s.log, w.s.nextId, [turn.save], Run(g, turn.next, runner.resolved).saves);
      assert next.runners - {r} == w.runners - {r};
    } else {
      assert moves[1..] == [];
      assert Execute(g, w, moves) == next;
    }
  }

  /** A recovery left alone writes exactly what a resumption of the latest record, under the
      crash policy and with the rebound state, writes; one the policy refuses does nothing. */
  lemma LoneRecovery(g: Graph, w: World, r: nat, rebind: State -> State, tick: nat) returns (moves: seq<Move>)
    requires r !in w.runners && w.s.log != []
    ensures var loaded, done := Last(w.s.log).body, Execute(g, w, moves);
            if loaded.status.Running? && g.crashPolicy.FailFastOnCrash? then moves != [] && done == w
            else exists t :: Resumes(g, loaded, rebind(loaded.state), tick, t) && done == w.(s := Wrote(w.s, t.saves))
  {
    var loaded := Last(w.s.log).body;
    var first := Recover(r, rebind, tick);
    if loaded.status.Running? && g.crashPolicy.FailFastOnCrash? {
      moves := [first];
      assert Execute(g, w, moves) == Execute(g, Next(g, w, first), []);
    } else {
      var runner := Begun(g, w.s.log, rebind, tick).value;
      var t := Run(g, runner.at, runner.resolved);
      ResumesExactly(g, loaded, rebind(loaded.state), tick, t);
      moves := [first] + Proceeds(g, r, runner);
      assert moves[1..] == Proceeds(g, r, runner);
      LoneRunner(g, Next(g, w, first), r, runner);
      assert Next(g, w, first).runners - {r} == w.runners;
    }
  }
}
