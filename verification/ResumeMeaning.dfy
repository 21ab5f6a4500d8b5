/** What an accepted human answer does, over the gate, the nodes' answers and the log alone. */
module ResumeMeaning {
  import opened Types
  import opened Executor
  import opened Checkpoints
  import opened Sequential
  import opened SequentialMeaning
  import opened Resume

  /** Where an accepted input enters the graph: at the node that asked, which is given it, or
      along that node's edge, where nobody is. */
  predicate EntersAt(g: Graph, gate: Snapshot, mode: ResumeMode, input: Input, node: Name, given: Option<Input>) {
    match mode
    case ReEntry => node == gate.nextNode && given == Some(input)
    case Handoff =>
      && given == None
      && if gate.nextNode !in g.edges then node == "__END__"
         else match g.edges[gate.nextNode]
           case Unconditional(target) => node == target
           case Conditional(choose) => node == choose(gate.state)
  }

  /** The run of an accepted resume at this gate. */
  ghost predicate AcceptedRun(g: Graph, gate: Snapshot, id: InterruptId, input: Input, tick: nat, t: Trace)
    requires gate.yieldRequest.Some?
  {
    exists node, given :: EntersAt(g, gate, gate.yieldRequest.value.resumeMode, input, node, given) &&
      Means(g, Position(node, gate.state, 0.0, 0, true, given, tick), Some(id), t)
  }

  /** The records of an accepted resume: those of its run, and after a failure the gate again. */
  ghost predicate Leaves(claimed: Log, firstId: Id, gate: Snapshot, t: Trace, after: Log) {
    var undo := Snapshot(gate.state, gate.nextNode, None, CheckpointStatus.Yielded, gate.yieldRequest, None, None);
    var saves := t.saves + if t.result.Ok? then [] else [undo];
    && |after| == |claimed| + |saves| && after[..|claimed|] == claimed
    && forall k :: 0 <= k < |saves| ==> after[|claimed| + k] == Record(firstId + k, saves[k])
  }

  /** What becomes of an accepted input at the claimed gate. */
  ghost predicate Accepted(g: Graph, claimed: Log, firstId: Id, gate: Snapshot, id: InterruptId, input: Input,
                           tick: nat, r: Resumed)
    requires gate.yieldRequest.Some?
  {
    exists t ::
      AcceptedRun(g, gate, id, input, tick, t) && r.result == t.result && Leaves(claimed, firstId, gate, t, r.log)
  }

  lemma EntryExactly(g: Graph, gate: Snapshot, request: YieldRequest, input: Input, tick: nat, node: Name,
                     given: Option<Input>)
    ensures EntersAt(g, gate, request.resumeMode, input, node, given) <==>
            Entry(g, gate, request, input, tick) == Position(node, gate.state, 0.0, 0, true, given, tick)
  {
  }

  lemma AcceptedExactly(g: Graph, gate: Snapshot, id: InterruptId, input: Input, tick: nat, t: Trace)
    requires gate.yieldRequest.Some?
    ensures AcceptedRun(g, gate, id, input, tick, t) <==>
            t == Run(g, Entry(g, gate, gate.yieldRequest.value, input, tick), Some(id))
  {
    var request := gate.yieldRequest.value;
    var p := Entry(g, gate, request, input, tick);
    EntryExactly(g, gate, request, input, tick, p.node, p.input);
    RunExactly(g, p, Some(id), t);
    if AcceptedRun(g, gate, id, input, tick, t) {
      var node, given :| EntersAt(g, gate, request.resumeMode, input, node, given) &&
        Means(g, Position(node, gate.state, 0.0, 0, true, given, tick), Some(id), t);
      EntryExactly(g, gate, request, input, tick, node, given);
    }
  }

  /** The whole call, for every log: without a claim it changes nothing; with one it rejects the
      input after claiming, or runs as above and records exactly that. */
  lemma CallMeans(g: Graph, log: Log, firstId: Id, id: InterruptId, input: Input, accepted: bool, tick: nat)
    ensures var r := ResumeCall(g, log, firstId, id, input, accepted, tick);
            match ClaimStep(log, id).answer
            case Err(e) => r == Resumed(Err(e), log)
            case Ok(AlreadyCompleted) => log != [] && r == Resumed(Ok(log[|log| - 1].body.state), log)
            case Ok(ClaimInProgress) => r == Resumed(Err(ResumeInProgress(id)), log)
            case Ok(Claimed) =>
              var claimed := ClaimStep(log, id).log;
              && log != [] && log[|log| - 1].body.yieldRequest.Some?
              && if !accepted then r == Resumed(Err(SchemaValidationFailed(id)), claimed)
                 else Accepted(g, claimed, firstId, log[|log| - 1].body, id, input, tick, r)
  {
    ClaimWinsExactly(log, id);
    if Claimable(log, id) && accepted { AcceptedMeans(g, log, firstId, id, input, tick); }
  }

  lemma AcceptedMeans(g: Graph, log: Log, firstId: Id, id: InterruptId, input: Input, tick: nat)
    requires Claimable(log, id)
    ensures log != [] && log[|log| - 1].body.yieldRequest.Some?
    ensures Accepted(g, ClaimStep(log, id).log, firstId, log[|log| - 1].body, id, input, tick,
                     ResumeCall(g, log, firstId, id, input, true, tick))
  {
    ClaimWinsExactly(log, id);
    var gate, loaded := Last(log).body, Last(ClaimStep(log, id).log).body;
    var start := Entry(g, gate, gate.yieldRequest.value, input, tick);
    assert start == Entry(g, loaded, loaded.yieldRequest.value, input, tick);
    var t := Run(g, start, Some(id));
    AcceptedExactly(g, gate, id, input, tick, t);
    var r := ResumeCall(g, log, firstId, id, input, true, tick);
    assert r.result == t.result && Leaves(ClaimStep(log, id).log, firstId, gate, t, r.log);
  }

  /** A node that asks until it is told: without input it yields, with input it succeeds with
      what it makes of the state and the input. */
  ghost predicate Asker(g: Graph, node: Name, request: YieldRequest, f: (State, Input) -> State) {
    forall ctx: NodeContext, s: State :: ctx.nodeName == node ==>
      g.call(ctx, s) == match ctx.resumedInput
                        case None => Yield(request)
                        case Some(x) => Success(f(s, x), None, 0.0)
  }

  /** Nothing but its answer decides what becomes of a first call of the node. */
  predicate Unhindered(g: Graph, node: Name) {
    && (node in g.regular || node in g.dynamics) && node != "__END__" && g.limits.maxSequentialSteps > 0
    && (node in g.nodeBudgets ==> g.nodeBudgets[node] >= 0.0) && (g.budget.Some? ==> g.budget.value >= 0.0)
  }

  lemma AskerIsAnswered(g: Graph, node: Name, request: YieldRequest, f: (State, Input) -> State, state: State,
                        input: Input, resolved: Option<InterruptId>, tick: nat)
    requires Asker(g, node, request, f) && Unhindered(g, node)
    ensures var t := Run(g, Position(node, state, 0.0, 0, true, Some(input), tick), resolved);
            t.saves != [] && t.saves[0].status.Complete? && t.saves[0].state == f(state, input)
            && t.saves[0].resolved == resolved
  {
    var p := Position(node, state, 0.0, 0, true, Some(input), tick);
    var ctx := NodeContext(node, 0, g.Remaining(0.0), Some(input), tick);
    assert g.call(ctx, state) == Success(f(state, input), None, 0.0);
    var answer := NodeOutcome(g, ctx, state);
    assert answer.result == g.call(ctx, state);
    assert Step(g, p, resolved) == AfterNode(g, p, resolved, answer.result, VisitOf(g, p, answer));
  }

  /** The human's answer reaches the node that asked: its first record after an accepted resume
      is what the node makes of the answer, and the id is settled. */
  lemma AnswerMovesOn(g: Graph, log: Log, firstId: Id, id: InterruptId, f: (State, Input) -> State, input: Input,
                      tick: nat)
    requires Claimable(log, id) && Last(log).body.yieldRequest.Some?
    requires var gate := Last(log).body;
             && gate.yieldRequest.value.resumeMode.ReEntry?
             && Asker(g, gate.nextNode, gate.yieldRequest.value, f) && Unhindered(g, gate.nextNode)
    ensures var gate, r := Last(log).body, ResumeCall(g, log, firstId, id, input, true, tick);
            && |r.log| > |log| && Resolved(r.log, id)
            && var first := r.log[|log|].body;
            first.status.Complete? && first.state == f(gate.state, input) && first.resolved == Some(id)
  {
    var gate := Last(log).body;
    ClaimWinsExactly(log, id);
    AcceptedMeans(g, log, firstId, id, input, tick);
    var r := ResumeCall(g, log, firstId, id, input, true, tick);
    var t :| AcceptedRun(g, gate, id, input, tick, t) && r.result == t.result &&
      Leaves(ClaimStep(log, id).log, firstId, gate, t, r.log);
    AcceptedExactly(g, gate, id, input, tick, t);
    AskerIsAnswered(g, gate.nextNode, gate.yieldRequest.value, f, gate.state, input, Some(id), tick);
    assert r.log[|log|].body == t.saves[0];
  }
}
