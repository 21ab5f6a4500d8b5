/** The configured graph and the retry loop around one node. */
module Executor {
  import opened Types
  import opened Backoff

  datatype Edge = Unconditional(target: Name) | Conditional(choose: State -> Name)

  datatype CrashRecoveryPolicy = ResetToPending | FailFastOnCrash | SkipAndContinue

  datatype WaveFailurePolicy = FailFast | ContinueOnError

  /** The declarative interrupts set on a graph. */
  datatype Interrupts = Interrupts(before: set<Name>, after: set<Name>)

  datatype ResourceLimits = ResourceLimits(maxConcurrentNodes: nat, maxDagNodes: nat, maxSequentialSteps: nat)

  /** What a node is told about its call. `tick` numbers the calls of a run and stands for
      everything outside the model a node may depend on (time, randomness, remote
      services), so a node may answer every call differently. */
  datatype NodeContext = NodeContext(
    nodeName: Name,
    attempt: u8,
    budgetRemaining: Option<real>,
    resumedInput: Option<Input>,
    tick: nat)

  datatype Graph = Graph(
    regular: set<Name>,
    dynamics: set<Name>,
    call: (NodeContext, State) -> NodeResult,
    edges: map<Name, Edge>,
    merge: (State, State) -> State,
    retryPolicy: RetryPolicy,
    retryOverrides: map<Name, RetryPolicy>,
    budget: Option<real>,
    nodeBudgets: map<Name, real>,
    interruptBefore: set<Name>,
    interruptAfter: set<Name>,
    crashPolicy: CrashRecoveryPolicy,
    wavePolicy: WaveFailurePolicy,
    limits: ResourceLimits,
    draw: nat -> u64)
  {
    predicate Registered(name: Name) { name in regular || name in dynamics }

    function PolicyOf(name: Name): RetryPolicy {
      if name in retryOverrides then retryOverrides[name] else retryPolicy
    }

    predicate BreaksNodeBudget(name: Name, cost: real) {
      name in nodeBudgets && cost > nodeBudgets[name]
    }

    predicate BreaksBudget(spent: real) {
      budget.Some? && spent > budget.value
    }

    /** The graph as configured for another life of the process. */
    function Under(i: Interrupts): Graph {
      this.(interruptBefore := i.before, interruptAfter := i.after)
    }

    function WithoutInterrupts(): Graph {
      this.(interruptBefore := {}, interruptAfter := {})
    }

    function Remaining(spent: real): Option<real> {
      if budget.None? then None else Some(budget.value - spent)
    }

    /** The edge out of `name`, taken after `name` produced `state`. */
    function EdgeTarget(name: Name, state: State): Name {
      if name !in edges then END
      else match edges[name]
        case Unconditional(target) => target
        case Conditional(choose) => choose(state)
    }

    function Route(name: Name, state: State, event: Option<Name>): Name {
      if event.Some? then event.value else EdgeTarget(name, state)
    }
  }

  /** A node's final answer, how often it was called, and how long it waited (ms). */
  datatype Tried = Tried(result: NodeResult, calls: nat, waited: nat)

  /** The attempts of a regular node from `ctx.attempt` on. Only the first call of a node
      is handed the resumed input. */
  function Attempts(g: Graph, policy: RetryPolicy, ctx: NodeContext, state: State): (t: Tried)
    decreases U8_MAX - ctx.attempt
  {
    var result := g.call(ctx, state);
    if !result.Retryable? || ctx.attempt + 1 >= policy.maxAttempts then
      Tried(result, 1, 0)
    else
      var rest := Attempts(g, policy, NextAttempt(ctx), state);
      Tried(rest.result, rest.calls + 1, rest.waited + DelayFor(policy, ctx.attempt, g.draw(ctx.tick)))
  }

  function NextAttempt(ctx: NodeContext): NodeContext
    requires ctx.attempt < U8_MAX
  {
    ctx.(attempt := ctx.attempt + 1, resumedInput := None, tick := ctx.tick + 1)
  }

  /** Dynamic nodes are called once, regular nodes under their retry policy. */
  function NodeOutcome(g: Graph, ctx: NodeContext, state: State): (t: Tried) {
    if ctx.nodeName in g.dynamics then Tried(g.call(ctx, state), 1, 0)
    else Attempts(g, g.PolicyOf(ctx.nodeName), ctx, state)
  }

  /** The retry loop. The increment of the 8-bit attempt counter never overflows. */
  method CallNode(g: Graph, ctx: NodeContext, state: State) returns (t: Tried)
    requires ctx.attempt == 0
    ensures t == NodeOutcome(g, ctx, state) && Answered(g, ctx, state, t)
    ensures 1 <= t.calls <= Max(1, g.PolicyOf(ctx.nodeName).maxAttempts)
    ensures 8 * t.waited <= WaitBudget(g.PolicyOf(ctx.nodeName), t.calls - 1)
    ensures t.result.Retryable? && ctx.nodeName !in g.dynamics ==>
            t.calls == Max(1, g.PolicyOf(ctx.nodeName).maxAttempts)
  {
    if ctx.nodeName in g.dynamics {
      var result := g.call(ctx, state);
      return Tried(result, 1, 0);
    }
    OutcomeExactly(g, ctx, state, NodeOutcome(g, ctx, state));
    AttemptsBounds(g, g.PolicyOf(ctx.nodeName), ctx, state);
    var policy := g.PolicyOf(ctx.nodeName);
    var attempt: u8 := 0;
    var now := ctx;
    var calls: nat, waited: nat := 0, 0;
    while true
      invariant now.attempt == attempt && (attempt == 0 || attempt < policy.maxAttempts)
      invariant now.nodeName == ctx.nodeName
      invariant var rest := Attempts(g, policy, now, state);
                Attempts(g, policy, ctx, state) == Tried(rest.result, calls + rest.calls, waited + rest.waited)
      decreases U8_MAX - attempt
    {
      var result := g.call(now, state);
      calls := calls + 1;
      if !result.Retryable? {
        return Tried(result, calls, waited);
      }
      attempt := attempt + 1;
      if attempt >= policy.maxAttempts {
        return Tried(result, calls, waited);
      }
      var delay := DelayFor(policy, attempt - 1, g.draw(now.tick));
      waited := waited + delay;
      now := NextAttempt(now);
    }
  }

  /** The call of a node after `k` retries: only the first is handed the resumed input. */
  function CallAfter(ctx: NodeContext, k: nat): NodeContext
    requires ctx.attempt + k <= U8_MAX
  {
    NodeContext(ctx.nodeName, ctx.attempt + k, ctx.budgetRemaining, if k == 0 then ctx.resumedInput else None,
                ctx.tick + k)
  }

  /** The documented delays of `n` waits, from an attempt and a moment on. */
  function DelaySum(policy: RetryPolicy, draw: nat -> u64, attempt: nat, tick: nat, n: nat): int
    decreases n
  {
    if n == 0 then 0
    else Documented(policy, attempt, draw(tick)) + DelaySum(policy, draw, attempt + 1, tick + 1, n - 1)
  }

  /** A regular node with `room` attempts gave these answers: every call but the last was
      retryable, the result is the last answer, it gave up only when the attempts were used
      up, and it waited the documented delays in between. */
  ghost predicate Retried(g: Graph, policy: RetryPolicy, ctx: NodeContext, state: State, room: nat, t: Tried) {
    && 1 <= t.calls <= room && ctx.attempt + t.calls - 1 <= U8_MAX
    && (forall k :: 0 <= k < t.calls - 1 ==> g.call(CallAfter(ctx, k), state).Retryable?)
    && t.result == g.call(CallAfter(ctx, t.calls - 1), state)
    && (t.result.Retryable? ==> t.calls == room)
    && t.waited == DelaySum(policy, g.draw, ctx.attempt, ctx.tick, t.calls - 1)
  }

  /** What one node did, over its answers alone: a dynamic node was called once, a regular one
      under its own retry policy or the graph's. */
  ghost predicate Answered(g: Graph, ctx: NodeContext, state: State, t: Tried)
    requires ctx.attempt == 0
  {
    if ctx.nodeName in g.dynamics then t == Tried(g.call(ctx, state), 1, 0)
    else
      var policy := if ctx.nodeName in g.retryOverrides then g.retryOverrides[ctx.nodeName] else g.retryPolicy;
      Retried(g, policy, ctx, state, if policy.maxAttempts > 1 then policy.maxAttempts else 1, t)
  }

  lemma NextCalls(ctx: NodeContext, k: nat)
    requires k > 0 && ctx.attempt + k <= U8_MAX
    ensures CallAfter(ctx, k) == CallAfter(NextAttempt(ctx), k - 1)
  {
  }

  /** A retryable answer and what the retries after it gave. */
  lemma OneRetryMore(g: Graph, policy: RetryPolicy, ctx: NodeContext, state: State, room: nat, rest: Tried, t: Tried)
    requires ctx.attempt < U8_MAX && room > 0 && g.call(ctx, state).Retryable?
    requires Retried(g, policy, NextAttempt(ctx), state, room - 1, rest)
    requires t.result == rest.result && t.calls == rest.calls + 1
    requires t.waited == rest.waited + Documented(policy, ctx.attempt, g.draw(ctx.tick))
    ensures Retried(g, policy, ctx, state, room, t)
  {
    assert CallAfter(ctx, 0) == ctx;
    NextCalls(ctx, t.calls - 1);
    forall k | 0 <= k < t.calls - 1 ensures g.call(CallAfter(ctx, k), state).Retryable? {
      if k > 0 { NextCalls(ctx, k); }
    }
  }

  lemma {:induction false} AttemptsAnswer(g: Graph, policy: RetryPolicy, ctx: NodeContext, state: State)
    requires ctx.attempt == 0 || ctx.attempt < policy.maxAttempts
    ensures Retried(g, policy, ctx, state, Max(1, policy.maxAttempts) - ctx.attempt, Attempts(g, policy, ctx, state))
    decreases U8_MAX - ctx.attempt
  {
    var t := Attempts(g, policy, ctx, state);
    if g.call(ctx, state).Retryable? && ctx.attempt + 1 < policy.maxAttempts {
      AttemptsAnswer(g, policy, NextAttempt(ctx), state);
      DelayIsDocumented(policy, ctx.attempt, g.draw(ctx.tick));
      var rest := Attempts(g, policy, NextAttempt(ctx), state);
      OneRetryMore(g, policy, ctx, state, policy.maxAttempts - ctx.attempt, rest, t);
    } else {
      assert CallAfter(ctx, 0) == ctx;
    }
  }

  /** Calling again after an answer that is final is ruled out. */
  lemma NotLonger(g: Graph, policy: RetryPolicy, ctx: NodeContext, state: State, room: nat, a: Tried, b: Tried)
    requires Retried(g, policy, ctx, state, room, a) && Retried(g, policy, ctx, state, room, b)
    ensures b.calls <= a.calls
  {
  }

  lemma RetriedOnce(g: Graph, policy: RetryPolicy, ctx: NodeContext, state: State, room: nat, a: Tried, b: Tried)
    requires Retried(g, policy, ctx, state, room, a) && Retried(g, policy, ctx, state, room, b)
    ensures a == b
  {
    NotLonger(g, policy, ctx, state, room, a, b);
    NotLonger(g, policy, ctx, state, room, b, a);
  }

  /** The retry loop, over the node's answers: exactly what `Answered` says is its outcome. */
  lemma OutcomeExactly(g: Graph, ctx: NodeContext, state: State, t: Tried)
    requires ctx.attempt == 0
    ensures Answered(g, ctx, state, t) <==> t == NodeOutcome(g, ctx, state)
  {
    if ctx.nodeName !in g.dynamics {
      var policy := g.PolicyOf(ctx.nodeName);
      var room := Max(1, policy.maxAttempts);
      var outcome := Attempts(g, policy, ctx, state);
      AttemptsAnswer(g, policy, ctx, state);
      if Answered(g, ctx, state, t) { RetriedOnce(g, policy, ctx, state, room, t, outcome); }
    }
  }

  /** Eight times the longest `waits` delays can take. */
  function WaitBudget(policy: RetryPolicy, waits: nat): nat {
    if waits == 0 then 0 else WaitBudget(policy, waits - 1) + 9 * policy.maxDelayMs
  }

  /** At most max(1, max_attempts) calls, all of them used up when the last answer is still
      retryable, and nine eighths of the cap per wait between two calls. */
  lemma {:induction false} AttemptsBounds(g: Graph, policy: RetryPolicy, ctx: NodeContext, state: State)
    requires ctx.attempt == 0 || ctx.attempt < policy.maxAttempts
    ensures var t := Attempts(g, policy, ctx, state);
            && 1 <= t.calls <= Max(1, policy.maxAttempts) - ctx.attempt
            && 8 * t.waited <= WaitBudget(policy, t.calls - 1)
            && (t.result.Retryable? ==> t.calls == Max(1, policy.maxAttempts) - ctx.attempt)
    decreases U8_MAX - ctx.attempt
  {
    if g.call(ctx, state).Retryable? && ctx.attempt + 1 < policy.maxAttempts {
      AttemptsBounds(g, policy, NextAttempt(ctx), state);
      JitterWithinOneEighth(policy, ctx.attempt, g.draw(ctx.tick));
    }
  }

  lemma {:induction false} WaitBudgetIs(policy: RetryPolicy, waits: nat)
    ensures WaitBudget(policy, waits) == waits * (9 * policy.maxDelayMs)
  {
    if waits > 0 {
      WaitBudgetIs(policy, waits - 1);
      assert waits * (9 * policy.maxDelayMs) == (waits - 1) * (9 * policy.maxDelayMs) + 9 * policy.maxDelayMs;
    }
  }

  /** One node's waiting between its calls is at most max(1, max_attempts) - 1 times nine
      eighths of the cap. */
  lemma TotalWait(g: Graph, ctx: NodeContext, state: State)
    requires ctx.attempt == 0
    ensures var policy := g.PolicyOf(ctx.nodeName);
            8 * NodeOutcome(g, ctx, state).waited <= (Max(1, policy.maxAttempts) - 1) * (9 * policy.maxDelayMs)
  {
    var policy := g.PolicyOf(ctx.nodeName);
    var most := Max(1, policy.maxAttempts) - 1;
    MulMono(9 * policy.maxDelayMs, 0, most);
    if ctx.nodeName !in g.dynamics {
      AttemptsBounds(g, policy, ctx, state);
      var waits := Attempts(g, policy, ctx, state).calls - 1;
      WaitBudgetIs(policy, waits);
      MulMono(9 * policy.maxDelayMs, waits, most);
    }
  }

  /** A node whose answer depends only on its name and the state it is given. */
  ghost predicate Deterministic(g: Graph) {
    forall c1: NodeContext, c2: NodeContext, s: State ::
      c1.nodeName == c2.nodeName ==> g.call(c1, s) == g.call(c2, s)
  }

  /** If there is a budget, no success has a negative cost. */
  ghost predicate FreeOrPaid(g: Graph) {
    g.budget.Some? ==> forall c: NodeContext, s: State :: g.call(c, s).Success? ==> g.call(c, s).cost >= 0.0
  }

  /** Interrupts have nothing to do with what nodes answer and charge. */
  lemma UnderInterrupts(g: Graph, i: Interrupts)
    ensures g.Under(i).interruptBefore == i.before && g.Under(i).interruptAfter == i.after
    ensures g.WithoutInterrupts().interruptBefore == {} && g.WithoutInterrupts().interruptAfter == {}
    ensures g.Under(i).WithoutInterrupts() == g.WithoutInterrupts()
    ensures Deterministic(g) ==> Deterministic(g.Under(i))
    ensures FreeOrPaid(g) ==> FreeOrPaid(g.Under(i))
  {
  }

  /** For a deterministic node retrying is pointless: the outcome is the first answer. */
  lemma {:induction false} DeterministicAttempts(g: Graph, policy: RetryPolicy, ctx: NodeContext, state: State)
    requires Deterministic(g)
    ensures Attempts(g, policy, ctx, state).result == g.call(ctx, state)
    decreases U8_MAX - ctx.attempt
  {
    if g.call(ctx, state).Retryable? && ctx.attempt + 1 < policy.maxAttempts {
      DeterministicAttempts(g, policy, NextAttempt(ctx), state);
      assert g.call(NextAttempt(ctx), state) == g.call(ctx, state);
    }
  }

  lemma DeterministicOutcome(g: Graph, h: Graph, c1: NodeContext, c2: NodeContext, state: State)
    requires Deterministic(g) && c1.nodeName == c2.nodeName
    requires h.call == g.call && h.dynamics == g.dynamics
    requires h.retryPolicy == g.retryPolicy && h.retryOverrides == g.retryOverrides
    ensures NodeOutcome(g, c1, state).result == NodeOutcome(h, c2, state).result
  {
    DeterministicAttempts(g, g.PolicyOf(c1.nodeName), c1, state);
    DeterministicAttempts(h, h.PolicyOf(c2.nodeName), c2, state);
    assert g.call(c1, state) == g.call(c2, state);
  }
}
