/** Resuming a sequential thread (`resume_with`), and restart equivalence. */
module SequentialRestart {
  import opened Types
  import opened Executor
  import opened Checkpoints
  import opened Sequential
  import opened SequentialBounds
  import SequentialMeaning
  import opened Resume

  /** Where `resume` re-enters the graph. */
  function ResumeNode(g: Graph, loaded: Snapshot, state: State): Result<Name, Error> {
    if !loaded.status.Running? then Ok(loaded.nextNode)
    else match g.crashPolicy
      case ResetToPending => Ok(loaded.nextNode)
      case FailFastOnCrash => Err(CrashDetected)
      case SkipAndContinue =>
        if loaded.nextNode in g.edges then Ok(g.EdgeTarget(loaded.nextNode, state)) else Ok(loaded.nextNode)
  }

  /** Where a resumed run begins: at the recorded node, unless the record was cut off while
      running and the policy skips its node along an edge. */
  predicate ResumesAt(g: Graph, loaded: Snapshot, state: State, node: Name) {
    if loaded.status.Running? && g.crashPolicy.SkipAndContinue? && loaded.nextNode in g.edges then
      match g.edges[loaded.nextNode]
      case Unconditional(target) => node == target
      case Conditional(choose) => node == choose(state)
    else node == loaded.nextNode
  }

  ghost predicate Resumes(g: Graph, loaded: Snapshot, state: State, tick: nat, t: Trace) {
    && (loaded.status.Running? ==> !g.crashPolicy.FailFastOnCrash?)
    && exists node :: ResumesAt(g, loaded, state, node) &&
         SequentialMeaning.Means(g, Position(node, state, 0.0, 0, true, None, tick), loaded.claimed, t)
  }

  lemma ResumesExactly(g: Graph, loaded: Snapshot, state: State, tick: nat, t: Trace)
    ensures Resumes(g, loaded, state, tick, t) <==>
            && ResumeNode(g, loaded, state).Ok?
            && t == Run(g, Start(ResumeNode(g, loaded, state).value, state, None, tick), loaded.claimed)
    ensures ResumeNode(g, loaded, state).Err? ==> ResumeNode(g, loaded, state) == Err(CrashDetected)
  {
    var r := ResumeNode(g, loaded, state);
    if r.Ok? {
      assert ResumesAt(g, loaded, state, r.value);
      SequentialMeaning.RunExactly(g, Position(r.value, state, 0.0, 0, true, None, tick), loaded.claimed, t);
    }
  }

  /** The run begins with `node`, called on `state`; where that is `__END__` it calls nothing and
      writes nothing. */
  ghost predicate Begins(g: Graph, node: Name, state: State, tick: nat, t: Trace) {
    && (t.visits != [] ==> exists answer ::
         SequentialMeaning.Gave(g, Position(node, state, 0.0, 0, true, None, tick), t.visits[0], answer))
    && (node == "__END__" ==> t.visits == [] && t.saves == [])
  }

  /** What the crash policies do with a record that was cut off while running, and that no
      policy matters for any other record. */
  lemma CrashPolicies(g: Graph, loaded: Snapshot, state: State, tick: nat, t: Trace)
    requires Resumes(g, loaded, state, tick, t)
    ensures !loaded.status.Running? || g.crashPolicy.ResetToPending? || loaded.nextNode !in g.edges ==>
              Begins(g, loaded.nextNode, state, tick, t)
    ensures loaded.status.Running? && g.crashPolicy.SkipAndContinue? && loaded.nextNode in g.edges ==>
              match g.edges[loaded.nextNode]
              case Unconditional(target) => Begins(g, target, state, tick, t)
              case Conditional(choose) => Begins(g, choose(state), state, tick, t)
  {
    var node :| ResumesAt(g, loaded, state, node) &&
      SequentialMeaning.Means(g, Position(node, state, 0.0, 0, true, None, tick), loaded.claimed, t);
    RunBegins(g, node, state, tick, loaded.claimed, t);
  }

  lemma RunBegins(g: Graph, node: Name, state: State, tick: nat, resolved: Option<InterruptId>, t: Trace)
    requires SequentialMeaning.Means(g, Position(node, state, 0.0, 0, true, None, tick), resolved, t)
    ensures Begins(g, node, state, tick, t)
  {
    var p := Position(node, state, 0.0, 0, true, None, tick);
    SequentialMeaning.RunExactly(g, p, resolved, t);
    if t.visits != [] { var answer := SequentialMeaning.VisitGave(g, p, resolved, t, 0); }
  }

  function Returned(result: Result<State, Error>): Result<Option<State>, Error> {
    match result case Ok(s) => Ok(Some(s)) case Err(e) => Err(e)
  }

  /** `resume_with`: continues from the latest record, under the interrupt it was claimed
      for, on the loaded state after `rebind`. */
  method ResumeWith(g: Graph, thread: Name, store: Checkpointer, rebind: State -> State, tick: nat)
    returns (r: Result<Option<State>, Error>)
    requires store.Valid()
    modifies store
    ensures store.Valid()
    ensures old(store.LogOf(thread)) == [] ==> r == Ok(None) && unchanged(store)
    ensures old(store.LogOf(thread)) != [] ==>
              var loaded := Last(old(store.LogOf(thread))).body;
              var state := rebind(loaded.state);
              match ResumeNode(g, loaded, state)
              case Err(e) => r == Err(e) && unchanged(store)
              case Ok(node) =>
                var t := Run(g, Start(node, state, None, tick), loaded.claimed);
                && store.LogOf(thread) == Appended(old(store.LogOf(thread)), old(store.nextId), t.saves)
                && store.nextId == old(store.nextId) + |t.saves|
                && r == Returned(t.result)
    ensures old(store.LogOf(thread)) != [] ==>
              var loaded := Last(old(store.LogOf(thread))).body;
              if loaded.status.Running? && g.crashPolicy.FailFastOnCrash? then
                r == Err(CrashDetected) && unchanged(store)
              else
                exists t :: Resumes(g, loaded, rebind(loaded.state), tick, t) &&
                  store.LogOf(thread) == Appended(old(store.LogOf(thread)), old(store.nextId), t.saves) &&
                  r == match t.result case Ok(s) => Ok(Some(s)) case Err(e) => Err(e)
    ensures forall t :: t != thread ==> store.LogOf(t) == old(store.LogOf(t))
  {
    var loaded := store.LoadState(thread);
    if loaded.None? {
      return Ok(None);
    }
    var meta := loaded.value.body;
    var state := rebind(meta.state);
    var node := meta.nextNode;
    if meta.status.Running? {
      match g.crashPolicy
      case ResetToPending =>
      case FailFastOnCrash =>
        return Err(CrashDetected);
      case SkipAndContinue =>
        if node in g.edges {
          node := g.EdgeTarget(node, state);
        }
    }
    ghost var t := Run(g, Start(node, state, None, tick), meta.claimed);
    ResumesExactly(g, meta, state, tick, t);
    var result, _ := RunInner(g, thread, Start(node, state, None, tick), store, meta.claimed);
    r := Returned(result);
  }

  /** How one life of the process ends: it dies after some of its durable writes, or the
      run returns (at `__END__` or at an interrupt). */
  datatype Cut = Crash(writes: nat) | Return

  function Written(saves: seq<Snapshot>, cut: Cut): seq<Snapshot> {
    if cut.Crash? && cut.writes < |saves| then saves[..cut.writes] else saves
  }

  /** Every prefix of its writes is what some death of the process leaves. */
  lemma EveryPrefixIsLeft(saves: seq<Snapshot>, n: nat)
    requires n <= |saves|
    ensures Written(saves, Crash(n)) == saves[..n] && Written(saves, Return) == saves
  {
  }

  datatype Point = Point(node: Name, state: State)

  function LatestAfter(from: Point, saves: seq<Snapshot>): Point {
    if saves == [] then from else Point(saves[|saves| - 1].nextNode, saves[|saves| - 1].state)
  }

  /** One life of the process: how it ends, the interrupts set in it and the moment of its
      first call. */
  datatype Life = Life(cut: Cut, interrupts: Interrupts, tick: nat)

  /** `resume` from a record of point `from`. */
  function Resumption(g: Graph, from: Point, life: Life): Trace {
    Run(g.Under(life.interrupts), Start(from.node, from.state, None, life.tick), None)
  }

  /** The uninterrupted run. */
  function Whole(g: Graph, from: Point): Trace {
    Run(g.WithoutInterrupts(), Start(from.node, from.state, None, 0), None)
  }

  function PointAfter(g: Graph, from: Point, life: Life): Point {
    LatestAfter(from, Written(Resumption(g, from, life).saves, life.cut))
  }

  /** The point the thread stands at after the lives. A life that left no record is started
      again where it was. */
  function Replay(g: Graph, from: Point, lives: seq<Life>): Point
    decreases |lives|
  {
    if lives == [] then from
    else Replay(g, PointAfter(g, from, lives[0]), lives[1..])
  }

  function Returns(lives: seq<Life>): nat
    decreases |lives|
  {
    if lives == [] then 0 else (if lives[0].cut.Return? then 1 else 0) + Returns(lives[1..])
  }

  /** The point the uninterrupted run `whole` from `from` stands at after `m` nodes. */
  function Boundary(from: Point, whole: Trace, m: nat): Point
    requires m <= |whole.saves|
  {
    LatestAfter(from, whole.saves[..m])
  }

  /** Position `q` of an interrupted life and position `p` of the uninterrupted run are about
      to execute the same node on the same state; `q` has used no more steps and budget. */
  predicate Lags(g: Graph, q: Position, p: Position) {
    && q.node == p.node && q.state == p.state && q.steps <= p.steps
    && (g.budget.Some? ==> q.cost <= p.cost && 0.0 <= p.cost)
  }

  /** Turn by turn: what the uninterrupted run does next, the interrupted life does too, or
      it stops there with the point it stands at as its last record. */
  lemma LagStep(g: Graph, q: Position, p: Position)
    requires Deterministic(g) && FreeOrPaid(g) && Lags(g, q, p)
    requires Step(g.WithoutInterrupts(), p, None).Advance?
    ensures var next, turn := Step(g.WithoutInterrupts(), p, None).next, Step(g, q, None);
            if !q.first && q.node in g.interruptBefore then
              turn == Stop(Ok(q.state), Some(Plain(q.state, q.node, Interrupted, None)), None)
            else if q.node in g.interruptAfter then
              turn.Stop? && turn.result == Ok(next.state) && turn.visited.Some? &&
              turn.saved == Some(Plain(next.state, next.node, Complete, None))
            else
              turn.Advance? && Lags(g, turn.next, next)
  {
    var h := g.WithoutInterrupts();
    DeterministicOutcome(g, h, Context(g, q), Context(h, p), p.state);
    assert p.node != END && q.steps < g.limits.maxSequentialSteps && g.Registered(p.node);
    if g.budget.Some? {
      CostIsCharged(g, Context(g, q), p.state);
    }
  }

  lemma CostIsCharged(g: Graph, ctx: NodeContext, state: State)
    requires Deterministic(g) && FreeOrPaid(g) && g.budget.Some?
    ensures var r := NodeOutcome(g, ctx, state).result; r.Success? ==> r.cost >= 0.0
  {
    DeterministicAttempts(g, g.PolicyOf(ctx.nodeName), ctx, state);
  }

  /** An uninterrupted run that lags behind a finishing one finishes with the same records. */
  lemma {:induction false} SameFinish(g: Graph, q: Position, p: Position)
    requires Deterministic(g) && FreeOrPaid(g) && Lags(g, q, p)
    requires Finishes(g.WithoutInterrupts(), p, None)
    ensures var h := g.WithoutInterrupts();
            && Finishes(h, q, None)
            && Run(h, q, None).result == Run(h, p, None).result
            && Run(h, q, None).saves == Run(h, p, None).saves
    decreases g.limits.maxSequentialSteps - p.steps
  {
    var h := g.WithoutInterrupts();
    var turn := Step(h, p, None);
    StepShape(h, p, None);
    StepShape(h, q, None);
    if turn.Advance? {
      assert h.WithoutInterrupts() == h;
      LagStep(h, q, p);
      SameFinish(g, Step(h, q, None).next, turn.next);
    }
  }

  function Here(p: Position): Point { Point(p.node, p.state) }

  /** After any number of nodes the uninterrupted run has records left that a fresh
      uninterrupted run from that boundary writes too, up to the same result. */
  lemma {:induction false} FromBoundary(g: Graph, p: Position, m: nat)
    requires Deterministic(g) && FreeOrPaid(g) && Lags(g, p, p)
    requires Finishes(g.WithoutInterrupts(), p, None) && m <= |Run(g.WithoutInterrupts(), p, None).saves|
    ensures var h := g.WithoutInterrupts();
            var whole := Run(h, p, None);
            var b := Boundary(Here(p), whole, m);
            && Finishes(h, Start(b.node, b.state, None, 0), None)
            && Whole(h, b).result == whole.result && Whole(h, b).saves == whole.saves[m..]
    decreases m
  {
    var h := g.WithoutInterrupts();
    var whole := Run(h, p, None);
    if m == 0 {
      SameFinish(g, Start(p.node, p.state, None, 0), p);
    } else {
      FirstTurn(g, p);
      var turn := Step(h, p, None);
      var rest := Run(h, turn.next, None);
      FromBoundary(g, turn.next, m - 1);
      assert whole.saves[..m] == [turn.save] + rest.saves[..m - 1];
      assert whole.saves[m..] == rest.saves[m - 1..];
    }
  }

  /** The first turn of an uninterrupted run that has something to record. */
  lemma FirstTurn(g: Graph, p: Position)
    requires Deterministic(g) && FreeOrPaid(g) && Lags(g, p, p)
    requires Finishes(g.WithoutInterrupts(), p, None) && Run(g.WithoutInterrupts(), p, None).saves != []
    ensures var h := g.WithoutInterrupts();
            var turn, whole := Step(h, p, None), Run(h, p, None);
            && turn.Advance? && Lags(g, turn.next, turn.next) && Finishes(h, turn.next, None)
            && Here(turn.next) == Point(turn.save.nextNode, turn.save.state)
            && whole.saves == [turn.save] + Run(h, turn.next, None).saves
            && whole.result == Run(h, turn.next, None).result
  {
    var h := g.WithoutInterrupts();
    StepShape(h, p, None);
    assert h.WithoutInterrupts() == h;
    LagStep(h, p, p);
  }

  /** Life `t` only ever records points the uninterrupted run `whole` passes, one node
      further each, and returns without an error. */
  ghost predicate OnTrack(from: Point, t: Trace, whole: Trace) {
    && t.result.Ok?
    && |t.visits| <= |t.saves| && |t.visits| <= |whole.saves|
    && forall k :: 0 <= k <= |t.saves| ==>
         LatestAfter(from, t.saves[..k]) == Boundary(from, whole, Min(k, |t.visits|))
  }

  lemma OnTrackPrepend(from: Point, save: Snapshot, visit: Visit, t: Trace, whole: Trace)
    requires OnTrack(Point(save.nextNode, save.state), t, whole)
    ensures OnTrack(from, Trace(t.result, [save] + t.saves, [visit] + t.visits),
                    Trace(whole.result, [save] + whole.saves, [visit] + whole.visits))
  {
    forall k | 0 < k <= |t.saves| + 1
      ensures LatestAfter(from, ([save] + t.saves)[..k]) ==
              LatestAfter(Point(save.nextNode, save.state), t.saves[..k - 1])
    {
      assert ([save] + t.saves)[..k] == [save] + t.saves[..k - 1];
    }
    forall m | 0 < m <= |whole.saves| + 1
      ensures LatestAfter(from, ([save] + whole.saves)[..m]) ==
              LatestAfter(Point(save.nextNode, save.state), whole.saves[..m - 1])
    {
      assert ([save] + whole.saves)[..m] == [save] + whole.saves[..m - 1];
    }
  }

  /** A life whose position lags behind the uninterrupted run stays on its track. */
  lemma {:induction false} LifeOnTrack(g: Graph, q: Position, p: Position)
    requires Deterministic(g) && FreeOrPaid(g) && Lags(g, q, p)
    requires Finishes(g.WithoutInterrupts(), p, None)
    ensures var t, whole := Run(g, q, None), Run(g.WithoutInterrupts(), p, None);
            OnTrack(Here(q), t, whole) && (q.first && whole.saves != [] ==> t.visits != [])
    decreases g.limits.maxSequentialSteps - p.steps
  {
    var h := g.WithoutInterrupts();
    var turn := Step(h, p, None);
    StepShape(h, p, None);
    StepShape(g, q, None);
    if turn.Advance? {
      LagStep(g, q, p);
      var mine := Step(g, q, None);
      if mine.Advance? {
        LifeOnTrack(g, mine.next, turn.next);
        LifeGoesOn(g, q, p);
      }
    }
  }

  lemma LifeGoesOn(g: Graph, q: Position, p: Position)
    requires var mine, turn := Step(g, q, None), Step(g.WithoutInterrupts(), p, None);
             && mine.Advance? && turn.Advance? && mine.save == turn.save &&
                 Here(mine.next) == Point(mine.save.nextNode, mine.save.state)
             && OnTrack(Here(mine.next), Run(g, mine.next, None), Run(g.WithoutInterrupts(), turn.next, None))
    ensures OnTrack(Here(q), Run(g, q, None), Run(g.WithoutInterrupts(), p, None))
  {
    var mine, turn := Step(g, q, None), Step(g.WithoutInterrupts(), p, None);
    var whole := Run(g.WithoutInterrupts(), turn.next, None);
    OnTrackPrepend(Here(q), mine.save, mine.visit, Run(g, mine.next, None), whole);
    SameSaves(Here(q), Run(g, q, None), Run(g.WithoutInterrupts(), p, None),
              Trace(whole.result, [mine.save] + whole.saves, [mine.visit] + whole.visits));
  }

  /** Being on track is about the records of the uninterrupted run alone. */
  lemma SameSaves(from: Point, t: Trace, whole: Trace, other: Trace)
    requires whole.saves == other.saves && OnTrack(from, t, other)
    ensures OnTrack(from, t, whole)
  {
  }

  /** A life from point `b` ends without an error and makes progress, or is at the end. */
  ghost predicate Sound(g: Graph, b: Point, life: Life, whole: Trace) {
    var t := Resumption(g, b, life);
    && t.result.Ok?
    && (b.node != END ==> t.visits != [])
    && (b.node == END ==> t == Trace(whole.result, [], []))
  }

  /** Point `b` is the boundary of the uninterrupted run from `from` after `m` nodes: it could
      be completed to the same result, and every life from there runs without an error and
      executes a node unless it is at `__END__`, where the uninterrupted result is. */
  ghost predicate Stands(g: Graph, from: Point, b: Point, m: nat) {
    var whole, rest := Whole(g, from), Whole(g, b);
    && m <= |whole.saves| && b == Boundary(from, whole, m)
    && rest.result == whole.result && rest.saves == whole.saves[m..]
    && (forall life :: Sound(g, b, life, whole))
    && (m == |whole.saves| ==> b.node == END && whole.result == Ok(b.state))
  }

  predicate Completes(g: Graph, from: Point) {
    Finishes(g.WithoutInterrupts(), Start(from.node, from.state, None, 0), None)
  }

  lemma LifeIsSound(g: Graph, from: Point, life: Life)
    requires Deterministic(g) && FreeOrPaid(g) && Completes(g, from)
    ensures Sound(g, from, life, Whole(g, from))
    ensures OnTrack(from, Resumption(g, from, life), Whole(g, from))
    ensures Whole(g, from).saves != [] ==> Resumption(g, from, life).visits != []
  {
    var p := Start(from.node, from.state, None, 0);
    UnderInterrupts(g, life.interrupts);
    LifeOnTrack(g.Under(life.interrupts), Start(from.node, from.state, None, life.tick), p);
    StepShape(g.WithoutInterrupts(), p, None);
  }

  lemma StandsAtStart(g: Graph, from: Point)
    requires Deterministic(g) && FreeOrPaid(g) && Completes(g, from)
    ensures Stands(g, from, from, 0)
  {
    forall life ensures Sound(g, from, life, Whole(g, from)) { LifeIsSound(g, from, life); }
    StepShape(g.WithoutInterrupts(), Start(from.node, from.state, None, 0), None);
  }

  lemma StandsFurther(g: Graph, from: Point, mid: Point, k: nat, b: Point, m: nat)
    requires Stands(g, mid, b, m)
    requires var whole, rest := Whole(g, from), Whole(g, mid);
             && k <= |whole.saves| && mid == Boundary(from, whole, k)
             && rest.result == whole.result && rest.saves == whole.saves[k..]
    ensures Stands(g, from, b, k + m)
  {
    var whole, rest := Whole(g, from), Whole(g, mid);
    BoundaryShift(from, whole, rest, k, m);
    assert rest.saves[m..] == whole.saves[k + m..];
    forall life ensures Sound(g, b, life, whole) { assert Sound(g, b, life, rest); }
  }

  /** Restart equivalence. Let the uninterrupted run from `from` reach `__END__` within the
      limits. However the process dies after durable writes, and whatever interrupts each
      life sets: after the lives the thread stands at a point the uninterrupted run passed,
      at least as far along as the number of lives that returned. Once as many lives
      returned as the run has nodes, it stands at `__END__` with exactly the uninterrupted
      result. */
  lemma {:induction false} RestartEquivalence(g: Graph, from: Point, lives: seq<Life>) returns (m: nat)
    requires Deterministic(g) && FreeOrPaid(g) && Completes(g, from)
    ensures Stands(g, from, Replay(g, from, lives), m)
    ensures m >= Min(Returns(lives), |Whole(g, from).saves|)
    decreases |lives|
  {
    if lives == [] {
      StandsAtStart(g, from);
      return 0;
    } else {
      var k, mid := NextLife(g, from, lives[0]);
      var rest := RestartEquivalence(g, mid, lives[1..]);
      ReplayUnfolds(g, from, lives, mid);
      m := GoesOn(g, from, lives, k, mid, Replay(g, mid, lives[1..]), rest);
    }
  }

  lemma GoesOn(g: Graph, from: Point, lives: seq<Life>, k: nat, mid: Point, end: Point, rest: nat) returns (m: nat)
    requires lives != [] && Continues(g, from, lives[0], k, mid) && Stands(g, mid, end, rest)
    requires rest >= Min(Returns(lives[1..]), |Whole(g, mid).saves|)
    ensures Stands(g, from, end, m)
    ensures m >= Min(Returns(lives), |Whole(g, from).saves|)
  {
    m := k + rest;
    StandsFurther(g, from, mid, k, end, rest);
    CountsUp(lives, |Whole(g, from).saves|, k, rest);
  }

  lemma CountsUp(lives: seq<Life>, n: nat, k: nat, rest: nat)
    requires lives != [] && k <= n && rest >= Min(Returns(lives[1..]), n - k)
    requires lives[0].cut.Return? ==> k >= Min(1, n)
    ensures k + rest >= Min(Returns(lives), n)
  {
  }

  /** A life from `from` leaves the thread at `mid`, `k` nodes on. */
  ghost predicate Continues(g: Graph, from: Point, life: Life, k: nat, mid: Point) {
    var whole := Whole(g, from);
    && mid == PointAfter(g, from, life)
    && k <= |whole.saves| && mid == Boundary(from, whole, k)
    && (life.cut.Return? ==> k >= Min(1, |whole.saves|))
    && Whole(g, mid).result == whole.result && Whole(g, mid).saves == whole.saves[k..]
  }

  /** A life from `from` leaves the thread at a boundary of the uninterrupted run, further on
      if it returned and there was something left. */
  lemma NextLife(g: Graph, from: Point, life: Life) returns (k: nat, mid: Point)
    requires Deterministic(g) && FreeOrPaid(g) && Completes(g, from)
    ensures Continues(g, from, life, k, mid) && Completes(g, mid)
  {
    LifeIsSound(g, from, life);
    var t := Resumption(g, from, life);
    var saves := Written(t.saves, life.cut);
    assert t.saves[..|t.saves|] == t.saves;
    assert saves == t.saves[..|saves|];
    k := Min(|saves|, |t.visits|);
    mid := LatestAfter(from, saves);
    FromBoundary(g, Start(from.node, from.state, None, 0), k);
    assert g.WithoutInterrupts().WithoutInterrupts() == g.WithoutInterrupts();
  }

  lemma BoundaryShift(from: Point, whole: Trace, rest: Trace, k: nat, m: nat)
    requires k <= |whole.saves| && rest.saves == whole.saves[k..] && m <= |rest.saves|
    ensures Boundary(Boundary(from, whole, k), rest, m) == Boundary(from, whole, k + m)
  {
    assert whole.saves[..k + m] == whole.saves[..k] + rest.saves[..m];
  }

  /** A record from which `resume` continues as from its point: not claimed and not running. */
  predicate Plainly(log: Log) {
    log != [] && Last(log).body.claimed.None? && !Last(log).body.status.Running?
  }

  function PointOf(record: Snapshot): Point { Point(record.nextNode, record.state) }

  /** The thread's log after one life that calls `resume` and writes what its cut lets it. */
  function LogAfter(g: Graph, log: Log, firstId: Id, life: Life): (after: Log)
    requires log != []
    ensures |log| <= |after|
  {
    var loaded := Last(log).body;
    match ResumeNode(g.Under(life.interrupts), loaded, loaded.state)
    case Err(_) => log
    case Ok(node) =>
      var t := Run(g.Under(life.interrupts), Start(node, loaded.state, None, life.tick), loaded.claimed);
      Appended(log, firstId, Written(t.saves, life.cut))
  }

  /** What the call of `resume` returns. */
  function ResultAfter(g: Graph, log: Log, life: Life): Result<Option<State>, Error>
    requires log != []
  {
    var loaded := Last(log).body;
    match ResumeNode(g.Under(life.interrupts), loaded, loaded.state)
    case Err(e) => Err(e)
    case Ok(node) =>
      Returned(Run(g.Under(life.interrupts), Start(node, loaded.state, None, life.tick), loaded.claimed).result)
  }

  /** The thread's log after the lives. */
  function ReplayLog(g: Graph, log: Log, firstId: Id, lives: seq<Life>): Log
    requires log != []
    decreases |lives|
  {
    if lives == [] then log
    else
      var after := LogAfter(g, log, firstId, lives[0]);
      ReplayLog(g, after, firstId + |after| - |log|, lives[1..])
  }

  lemma LifeOnLog(g: Graph, log: Log, firstId: Id, life: Life)
    requires Plainly(log)
    ensures var after := LogAfter(g, log, firstId, life);
            && Plainly(after) && |log| <= |after|
            && PointOf(Last(after).body) == PointAfter(g, PointOf(Last(log).body), life)
  {
    var from := PointOf(Last(log).body);
    var t := Resumption(g, from, life);
    var saves := Written(t.saves, life.cut);
    RunSaves(g.Under(life.interrupts), Start(from.node, from.state, None, life.tick), None);
    LastAppended(log, firstId, saves);
    if saves != [] { assert saves[|saves| - 1] == t.saves[|saves| - 1]; }
  }

  lemma {:induction false} ReplayUnfolds(g: Graph, from: Point, lives: seq<Life>, mid: Point)
    requires lives != [] && mid == PointAfter(g, from, lives[0])
    ensures Replay(g, from, lives) == Replay(g, mid, lives[1..])
  {
  }

  lemma ReplayLogUnfolds(g: Graph, log: Log, firstId: Id, lives: seq<Life>) returns (next: Log, nextId: Id)
    requires log != [] && lives != []
    ensures next == LogAfter(g, log, firstId, lives[0])
    ensures ReplayLog(g, log, firstId, lives) == ReplayLog(g, next, nextId, lives[1..])
  {
    next := LogAfter(g, log, firstId, lives[0]);
    nextId := firstId + |next| - |log|;
  }

  /** The lives are calls of `resume_with` on the thread's log: after them its latest record,
      unclaimed, stands at exactly the point of `Replay`. */
  lemma {:induction false} ReplayIsOnLog(g: Graph, log: Log, firstId: Id, lives: seq<Life>)
    returns (after: Log, point: Point)
    requires Plainly(log)
    ensures after == ReplayLog(g, log, firstId, lives) && point == Replay(g, PointOf(Last(log).body), lives)
    ensures Plainly(after) && PointOf(Last(after).body) == point
    decreases |lives|
  {
    if lives == [] {
      after, point := log, PointOf(Last(log).body);
    } else {
      var next, nextId := NextLog(g, log, firstId, lives);
      ReplayUnfolds(g, PointOf(Last(log).body), lives, PointOf(Last(next).body));
      after, point := ReplayIsOnLog(g, next, nextId, lives[1..]);
    }
  }

  lemma NextLog(g: Graph, log: Log, firstId: Id, lives: seq<Life>) returns (next: Log, nextId: Id)
    requires Plainly(log) && lives != []
    ensures Plainly(next) && PointOf(Last(next).body) == PointAfter(g, PointOf(Last(log).body), lives[0])
    ensures ReplayLog(g, log, firstId, lives) == ReplayLog(g, next, nextId, lives[1..])
  {
    next, nextId := ReplayLogUnfolds(g, log, firstId, lives);
    LifeOnLog(g, log, firstId, lives[0]);
  }

  /** `resume`: `resume_with` without a rebind. A life that returns is one call of it. */
  method ResumeLatest(g: Graph, thread: Name, store: Checkpointer, tick: nat) returns (r: Result<Option<State>, Error>)
    requires store.Valid()
    modifies store
    ensures store.Valid()
    ensures old(store.LogOf(thread)) == [] ==> r == Ok(None) && unchanged(store)
    ensures old(store.LogOf(thread)) != [] ==>
              var life := Life(Return, Interrupts(g.interruptBefore, g.interruptAfter), tick);
              && store.LogOf(thread) == LogAfter(g, old(store.LogOf(thread)), old(store.nextId), life)
              && store.nextId == old(store.nextId) + |store.LogOf(thread)| - |old(store.LogOf(thread))|
              && r == ResultAfter(g, old(store.LogOf(thread)), life)
    ensures forall t :: t != thread ==> store.LogOf(t) == old(store.LogOf(t))
  {
    assert g.Under(Interrupts(g.interruptBefore, g.interruptAfter)) == g;
    r := ResumeWith(g, thread, store, s => s, tick);
  }
}
