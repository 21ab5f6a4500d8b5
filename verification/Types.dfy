/** Shared vocabulary: payload, node results, checkpoints and errors. */
module Types {

  datatype Option<+T> = None | Some(value: T)

  datatype Result<+T, +E> = Ok(value: T) | Err(error: E)

  const U8_MAX: nat := 0xFF
  const U64_MAX: nat := 0xFFFF_FFFF_FFFF_FFFF

  type u8 = x: int | 0 <= x <= U8_MAX
  type u64 = x: int | 0 <= x <= U64_MAX

  /** The payload passed between nodes. Nothing is known about it beyond equality. */
  type State(==, !new)

  /** The JSON value handed to a resumed node. */
  type Input(==, !new)

  type Name = string
  type Id = nat
  type InterruptId = string

  const END: Name := "__END__"

  datatype ResumeMode = ReEntry | Handoff

  datatype YieldRequest = YieldRequest(interruptId: InterruptId, resumeMode: ResumeMode)

  /** What one call of a node returns. A missing cost counts as zero, a timeout as
      `Fatal`, a cancellation as `Yield`. */
  datatype NodeResult =
    | Success(state: State, event: Option<Name>, cost: real)
    | Retryable
    | Fatal
    | Yield(request: YieldRequest)
    | OverBudget(spent: real, limit: real)
    | YieldInDynamicNode(interruptId: InterruptId)

  datatype CheckpointStatus = Complete | Running | Yielded | Failed | Interrupted

  datatype NodeStatus = Pending | Running | Done | Failed | Yielded

  /** A DAG entry; `status` is the only part a run changes. */
  datatype DagNode = DagNode(id: Id, stepType: Name, dependsOn: seq<Id>, status: NodeStatus)

  /** The arguments of one durable write. */
  datatype Snapshot = Snapshot(
    state: State,
    nextNode: Name,
    dag: Option<seq<DagNode>>,
    status: CheckpointStatus,
    yieldRequest: Option<YieldRequest>,
    claimed: Option<InterruptId>,
    resolved: Option<InterruptId>)

  /** A stored checkpoint. */
  datatype Record = Record(id: Id, body: Snapshot)

  datatype ClaimResult = Claimed | ClaimInProgress | AlreadyCompleted

  datatype Error =
    | NodeNotFound(name: Name)
    | BudgetExceeded(spent: real, limit: real)
    | DagDeadlock(pending: seq<Name>)
    | NodeFailed(name: Name)
    | PartialWaveFailure(succeeded: seq<Name>, failed: seq<Name>)
    | StepLimitExceeded(steps: nat, maxSteps: nat)
    | RecursionLimitExceeded(depth: nat, maxDepth: nat)
    | TooManyNodes(count: nat, maxNodes: nat)
    | CrashDetected
    | NothingToResume
    | InvalidResume(expected: InterruptId, got: InterruptId)
    | SchemaValidationFailed(interruptId: InterruptId)
    | ResumeInProgress(interruptId: InterruptId)
    | AlreadyRunning(claimed: Option<InterruptId>)
    | ConcurrentClaimFailed

  function Max(a: int, b: int): int { if a > b then a else b }

  function Min(a: int, b: int): int { if a < b then a else b }

  function ToSeq<T>(o: Option<T>): seq<T> {
    match o case None => [] case Some(x) => [x]
  }
}
