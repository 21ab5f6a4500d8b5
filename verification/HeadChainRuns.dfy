/** A run on the head-checked chain, rollback included, against the run of the executor. */
module HeadChainRuns {
  import opened Types
  import opened Executor
  import opened Checkpoints
  import opened Sequential
  import opened HeadChain

  /** Every id in the chain was issued before `id`. */
  predicate IssuedBefore(chain: Chain, id: Id) {
    forall i :: 0 <= i < |chain| ==> chain[i].id < id
  }

  /** The actions of a run that is left alone, writing under the ids from `id` on. */
  function Alone(g: Graph, r: nat, at: Position, resolved: Option<InterruptId>, undo: Option<Snapshot>, id: Id)
    : seq<Action>
    decreases g.limits.maxSequentialSteps - at.steps
  {
    [Turn(r, id)] +
    match Step(g, at, resolved)
    case Advance(next, _, _) => Alone(g, r, next, resolved, undo, id + 1)
    case Stop(Err(_), _, _) => if undo.Some? then [RollBack(r, id)] else []
    case Stop(Ok(_), _, _) => []
  }

  /** What a run leaves: its records, and after a failure the gate it was resumed from. */
  function Written(t: Trace, undo: Option<Snapshot>): seq<Snapshot> {
    t.saves + if t.result.Err? && undo.Some? then [undo.value] else []
  }

  lemma BoundAppends(chain: Chain, id: Id, origin: Origin, body: Snapshot)
    requires IssuedBefore(chain, id)
    ensures !Used(chain, id)
    ensures var (answer, after) := Bound(chain, id, Head(chain), origin, body);
            && !answer.Conflict? && Head(after) == Some(id) && IssuedBefore(after, id + 1)
            && RecordsOf(after) == Appended(RecordsOf(chain), id, [body])
  {
  }

  lemma AppendedTwice(log: Log, firstId: Id, a: seq<Snapshot>, b: seq<Snapshot>)
    ensures Appended(Appended(log, firstId, a), firstId + |a|, b) == Appended(log, firstId, a + b)
  {
  }

  /** How a lone run ended. */
  ghost predicate Left(g: Graph, s: System, r: nat, at: Position, resolved: Option<InterruptId>,
                       undo: Option<Snapshot>, id: Id, done: System) {
    && RecordsOf(done.chain) == Appended(RecordsOf(s.chain), id, Written(Run(g, at, resolved), undo))
    && done.runs == s.runs[r := Over(Head(done.chain), false)]
  }

  /** Left alone, a run writes exactly the records of the executor's run on top of the chain and,
      if it failed after being resumed from a gate, that gate once more. */
  lemma {:induction false} LoneRun(g: Graph, s: System, r: nat, at: Position, resolved: Option<InterruptId>,
                                   undo: Option<Snapshot>, id: Id)
    requires r in s.runs && s.runs[r] == Going(at, resolved, Head(s.chain), undo) && IssuedBefore(s.chain, id)
    ensures Left(g, s, r, at, resolved, undo, id, Execute(g, s, Alone(g, r, at, resolved, undo, id)))
    decreases g.limits.maxSequentialSteps - at.steps
  {
    var turn := Step(g, at, resolved);
    var actions := Alone(g, r, at, resolved, undo, id);
    assert actions[0] == Turn(r, id);
    if turn.Advance? {
      BoundAppends(s.chain, id, ByTurn(r, at, resolved), turn.save);
      var next := Next(g, s, Turn(r, id));
      assert actions[1..] == Alone(g, r, turn.next, resolved, undo, id + 1);
      LoneRun(g, next, r, turn.next, resolved, undo, id + 1);
      RunGoesOn(g, s, r, at, resolved, undo, id, next, Execute(g, s, actions));
    } else {
      LastTurn(g, s, r, at, resolved, undo, id);
    }
  }

  lemma RunGoesOn(g: Graph, s: System, r: nat, at: Position, resolved: Option<InterruptId>, undo: Option<Snapshot>,
                  id: Id, next: System, done: System)
    requires Step(g, at, resolved).Advance? && r in s.runs
    requires RecordsOf(next.chain) == Appended(RecordsOf(s.chain), id, [Step(g, at, resolved).save])
    requires r in next.runs && next.runs == s.runs[r := next.runs[r]]
    requires Left(g, next, r, Step(g, at, resolved).next, resolved, undo, id + 1, done)
    ensures Left(g, s, r, at, resolved, undo, id, done)
  {
    var turn := Step(g, at, resolved);
    var rest := Run(g, turn.next, resolved);
    AppendedTwice(RecordsOf(s.chain), id, [turn.save], Written(rest, undo));
    assert [turn.save] + Written(rest, undo) == Written(Run(g, at, resolved), undo);
  }

  lemma LastTurn(g: Graph, s: System, r: nat, at: Position, resolved: Option<InterruptId>, undo: Option<Snapshot>,
                 id: Id)
    requires r in s.runs && s.runs[r] == Going(at, resolved, Head(s.chain), undo) && IssuedBefore(s.chain, id)
    requires Step(g, at, resolved).Stop?
    ensures Left(g, s, r, at, resolved, undo, id, Execute(g, s, Alone(g, r, at, resolved, undo, id)))
  {
    var turn := Step(g, at, resolved);
    StepShape(g, at, resolved);
    var actions := Alone(g, r, at, resolved, undo, id);
    var next := Next(g, s, Turn(r, id));
    if turn.saved.Some? { BoundAppends(s.chain, id, ByTurn(r, at, resolved), turn.saved.value); }
    if turn.result.Err? && undo.Some? {
      assert actions[1..] == [RollBack(r, id)] && [RollBack(r, id)][1..] == [];
      BoundAppends(s.chain, id, ByRollback(r), undo.value);
      assert Execute(g, s, actions) == Execute(g, next, [RollBack(r, id)]) == Next(g, next, RollBack(r, id));
    } else {
      assert actions[1..] == [];
      assert Execute(g, s, actions) == next;
    }
  }

  /** In any interleaving: a turn that fails, or is refused, makes a resumed run roll back; the
      rollback writes the gate exactly if nobody wrote since the run last did. */
  lemma FailedRunRollsBack(g: Graph, s: System, r: nat, id: Id, later: System, id': Id)
    requires r in s.runs && s.runs[r].Going? && s.runs[r].undo.Some? && !Used(s.chain, id)
    requires var turn := Step(g, s.runs[r].at, s.runs[r].resolved);
             (turn.Stop? && turn.result.Err?) ||
             (s.runs[r].head != Head(s.chain) && (turn.Advance? || turn.saved.Some?))
    requires r in later.runs && later.runs[r] == Next(g, s, Turn(r, id)).runs[r] && !Used(later.chain, id')
    ensures Next(g, s, Turn(r, id)).chain == s.chain
    ensures var gate, head := s.runs[r].undo.value, s.runs[r].head;
            Next(g, later, RollBack(r, id')).chain ==
            later.chain + if head == Head(later.chain) then [Link(id', head, ByRollback(r), gate)] else []
  {
    StepShape(g, s.runs[r].at, s.runs[r].resolved);
  }
}
