# A verified model of the takeln executor

takeln runs graphs of nodes over a shared state and makes every step durable. This project
models its four linked parts in Dafny and proves what they are for:

- **The sequential executor** (`run_inner`, `resume_with`): one node at a time, with routing,
  retries, budgets, interrupts, a step limit and one durable write per node.
- **The wave scheduler** (`DAGBuilder::build`, `run_dag`, `resume_dag`, `restore_statuses`):
  Kahn's algorithm builds the DAG; a loop picks the ready nodes, runs them as concurrent
  tasks, merges their results by node index, writes a checkpoint, and may stop and be resumed.
- **The human-in-the-loop claim** (`claim_interrupt`, `resume_with_input`,
  `revert_to_yielded`): many callers on one thread, over the in-memory store, and the
  three-statement Postgres claim beside it.
- **The head-checked write chain** (`save_state_bound`, `current_head`): several runs and rival
  writers against a store that compares heads.

How it is laid out. `Types`, `Executor`, `Backoff` and `Checkpoints` hold the vocabulary, one
node's retries, and the store as a class. Each loop of the source has a step function
(`Sequential.Step`, `Waves.Wave`), a run as the iteration of that function (`Sequential.Run`,
`Waves.RunWaves`), and an imperative method proved to do exactly that run, in place, on the
store and on the DAG object (`Sequential.RunInner`, `WaveRun.RunDag`). Theorems are about the
runs; the interleaved systems (`Callers`, `PostgresCallers`, `Recovery`, `HeadChain`,
`WaveTasks`) take the same steps, and `Callers.LoneCaller`, `HeadChain.SaveOnChain` and
`WaveTasks.EveryInterleavingIsARun` tie them back. Restarts are stated on points of a run;
`SequentialRestart.ReplayIsOnLog` and `WaveReplay.ReplayIsOnLog` tie them to the thread's log.

What the step functions themselves do is not taken on trust. `Executor.Answered`,
`SequentialMeaning`, `ResumeMeaning`, `WaveMeaning` and `WaveRunMeaning` say, over the nodes'
answers, the configuration and the trace alone, which node is called on what, what is recorded
of its answer and how a run ends, and prove that of every run; `HeadChainRuns.LoneRun` and
`Recovery.LoneRecovery` do so for the two interleaved systems that have no other such lemma.

Nodes, conditional edges and `Merge` are arbitrary functions. A node may answer every call
differently (`NodeContext.tick` numbers the calls; in a DAG run each task of each wave has a
number of its own, an arbitrary function of wave and node index); theorems that need determinism say so
(`Executor.Deterministic`). A timeout counts as a fatal answer, a cancellation as a yield.
The order in which tasks finish is an arbitrary schedule. Checkpoint ids are fresh naturals,
costs are exact reals, a missing cost is zero.

Where the source and its documentation differ, the code is followed:

- `RetryPolicy.jitter` is documented as plus or minus 25% (src/graph.rs:88); `delay_for` draws
  from a range of one quarter centred on the delay, so within one eighth either way. The
  exponent is capped at 10, which ARCHITECTURE.md does not mention.
- ARCHITECTURE.md places the step limit after the node; the code tests it first, before
  `__END__`, so a run needs one step more than it has nodes.
- The rollback of `resume_with_input` re-opens the gate, but a run that completed a node before
  it failed has already settled the id; the re-opened gate then answers `AlreadyCompleted`.

`DAGBuilder::build` decrements its in-degrees without a check. With overflow checks, as in a
debug build, a decrement of zero panics; without, as in a release build, it wraps. Both are
modelled (`DagBuild`, `DagBuildUnchecked`); for distinct step types and duplicate-free
dependency lists they agree.

Results that say where a natural property fails, each with its exact condition:
`DagBuildVerdict.UnderflowExactly` and `DagBuildUnchecked.UncheckedBuildExactly` (equal step
types), `Dags.RestoresExactly`, `WaveAgreement.ResumesWhereSaved` and
`DagSurvives.SurvivesExactly` (shared ids), `WaveDurability.GatePairsExactly` (a gate opened by
a wave keeps the old state), `Resume.RollbackRestoresGate` and `Resume.SettledExactly`,
`Callers.StrandsExactly`, `PostgresCallers.StrandsExactly`, `Resume.CallLeavesClaimExactly` and
`Recovery.RecoverySafeExactly` (stranded threads), `PostgresClaim.UpdateIsAtomicExactly` and
`PostgresCallers.WonUpdate` (the three-statement claim), and `HeadChain.FirstWrite` (state
loaded before the head). The inputs: `SharedTypeUnderflows`, `ListedTwiceIsACycle`,
`UncheckedAcceptsACycle`, `SharedIdRunsAgain`, `WaysToStrand`, `StaleReadWinsForeignGate`,
`StaleCheckWinsSettledId`, `FirstWriteMayBeStale`, and the lemmas of `Witnesses`.

## Model

| member | source | states |
|---|---|---|
| Backoff.DelayIsCappedExponential | src/graph.rs:105-120 | Without jitter the saturating 64-bit computation equals min(cap, base * 2^min(attempt, 10)) over unbounded integers, for every u64 setting and u8 attempt |
| Backoff.DelayIsDocumented | src/graph.rs:105-120 | With jitter too, the saturating computation equals the formula over unbounded integers, a draw from a quarter of the capped delay, centred on it, cut off only beyond 64 bits |
| Backoff.DelayIsMonotone | src/graph.rs:105-120 | The un-jittered delay never shrinks from one attempt to a later one |
| Backoff.JitterWithinOneEighth | src/graph.rs:108-117 | For every random draw the jittered delay stays within one eighth of the plain delay, either way, and never exceeds nine eighths of the cap |
| Executor.CallNode | src/graph.rs:1280-1367 | The retry loop computes `NodeOutcome`, and over the node's own answers: every call but the last was retryable, the result is the last answer, it gave up only after max(1, max_attempts) calls, waited the documented delays, and never overflows the 8-bit attempt counter |
| Executor.OutcomeExactly | src/graph.rs:1280-1367 | For every node and answer: the outcome is the one combination of result, calls and waiting in which each retry follows a retryable answer, only the first call has the input, and the result is the last answer; a dynamic node is called once |
| Executor.AttemptsBounds | src/graph.rs:1307-1367 | Bounds on calls and waiting for every behaviour of the node and every draw |
| Executor.TotalWait | src/graph.rs:1339-1363 | One node's total retry wait is at most (max(1, max_attempts) - 1) * 9/8 * max_delay_ms |
| Executor.DeterministicOutcome | src/graph.rs:1266-1367 | A deterministic node has one outcome whatever the attempt, budget and moment of the call |
| Checkpoints.Checkpointer.SaveState | src/store/memory.rs:70-102 | Appends exactly one record under a fresh id to the thread's log; other threads are untouched |
| Checkpoints.Checkpointer.SaveStateBound | src/checkpoint.rs:70-109 | With head checking: refused with the actual head and nothing changed exactly when the expected head is not the current one, otherwise appended and the new head; without it, `save_state`; logs and heads of other threads are untouched |
| Checkpoints.Checkpointer.LoadState | src/store/memory.rs:104-121 | The latest record of the thread, or none |
| Checkpoints.Checkpointer.LoadVersion | src/store/memory.rs:123-141 | Finds the one record with the id, however much was saved since, and fails exactly when there is none |
| Checkpoints.Checkpointer.DeleteCheckpoints | src/store/memory.rs:156-184 | Keeps exactly the last n records, or in order those younger than the cut-off, and returns how many it dropped; other threads are untouched |
| Checkpoints.Checkpointer.ClaimInterrupt | src/store/memory.rs:186-242 | The search and the edit of the last record equal `ClaimStep` on the thread's log, for every log |
| Checkpoints.ClaimWinsExactly | src/store/memory.rs:195-231 | `Claimed` if and only if the id is unresolved and the latest record is a gate asking for it; only then does the log change, and only in that record's status and claim |
| Checkpoints.ClaimTwice | src/store/memory.rs:209-241 | After a won claim the same id is told it is in progress and no id can be claimed |
| Checkpoints.ClaimAnswers | src/store/memory.rs:195-241 | Which answer a caller gets that does not win: in progress, already running, another id asked for, or nothing to resume, each exactly when |
| Checkpoints.KeptExactly | src/store/memory.rs:156-184 | Which records stay, in order: all, exactly the last n, or exactly those younger than the cut-off |
| Checkpoints.PruningKeepsTheGate | src/store/memory.rs:156-184 | Pruning that spares the latest record keeps the gate and its claim answers, except by forgetting resolutions |
| Sequential.StepShape | src/graph.rs:1203-1586 | What one turn can write: a `Complete` record naming the resolved interrupt for the place it goes to, nothing on failure, and a gate only for the yielding node with the state it was given and no resolution |
| Sequential.RunInner | src/graph.rs:1182-1707 | The loop over a store nobody else writes to returns the result of `Run` and appends exactly its records to the thread, in order, under consecutive fresh ids; on failure it hands back the head it last wrote |
| SequentialMeaning.RunExactly | src/graph.rs:1182-1707 | For every graph, position and trace: the executor's run is exactly the one trace in which each node is called on the state recorded before it with the budget left, a success within its budgets is recorded with the state it returned, its cost and the place its event or edge names, and the run ends as the answers, limits, interrupts and registrations have it |
| SequentialMeaning.WorkIsKept | src/graph.rs:1490-1521 | Before every `Complete` record some call of the node that stood there, on the state recorded before, answered with exactly the recorded state; the spending grew by its cost and its event or edge names the recorded next node |
| SequentialMeaning.ReturnsLastState | src/graph.rs:1490-1521 | A run that succeeds returns the state last recorded, or the one it began with |
| SequentialMeaning.InputIsGivenOnce | src/graph.rs:1294-1309 | In every run each node is called as often as its visit says, every call but its last was retryable, and only the first call of the first node is given the input |
| SequentialBounds.TerminationAndCallBound | src/graph.rs:1203-1224 | Over any edges, cyclic ones included, a run executes at most max_sequential_steps nodes, each within its retry policy; one that returns at `__END__` executed strictly fewer, one that is cut off exactly as many |
| SequentialBounds.BudgetBound | src/graph.rs:1292-1440 | Every node is told a non-negative remaining budget equal to budget minus spend, every `Complete` record is within the budget, and only the last node can overspend, with the spend before it within budget and nothing written for it |
| SequentialRestart.ResumeWith | src/graph.rs:1739-1811 | A resume refuses after a crash under the fail-fast policy; otherwise it returns and appends what a run from the recorded node does, or after a crash under the skipping policy from that node's edge, on the rebound state and with the loaded claim as resolved interrupt; nothing changes without a record; the logs of other threads are untouched |
| SequentialRestart.CrashPolicies | src/graph.rs:1755-1795 | What the resumed run begins with: the recorded node, unless the record was running, the policy skips and the node has an edge, and then the edge's target on the rebound state; at `__END__` it calls and writes nothing |
| SequentialRestart.EveryPrefixIsLeft | src/graph.rs:1505-1521 | Every prefix of a run's writes is what some death of the process leaves |
| SequentialRestart.LagStep | src/graph.rs:1226-1535 | Turn by turn an interrupted life does what the uninterrupted run does, or stops with its position as last record |
| SequentialRestart.RestartEquivalence | src/graph.rs:1739-1811 | For deterministic nodes whose uninterrupted run reaches `__END__`: after any crashes and whatever interrupts each life sets, the thread stands at a boundary of that run at least as far on as the lives that returned, each further resume is at `__END__` or executes a node, and enough lives end in exactly the uninterrupted result |
| SequentialRestart.ReplayIsOnLog | src/graph.rs:1751-1811 | The lives are `resume_with` on the thread's log, crash policy and loaded claim included: after them the latest record is unclaimed and stands at exactly the point the restart theorem speaks of |
| SequentialRestart.ResumeLatest | src/graph.rs:1717-1726 | One call of `resume` appends to the log, under the next ids, what one life that returns does, and returns what that life's run returns; the logs of other threads are untouched |
| Resume.ResumeWithInput | src/graph.rs:1829-1967 | The imperative call on the store equals `ResumeCall` on the thread's log: answers, schema rejection after the claim, the run, and the rollback on failure |
| ResumeMeaning.CallMeans | src/graph.rs:1829-1967 | The whole call for every log: without a claim nothing changes; a rejected input leaves the claim; an accepted one runs from the node that asked, which is given the input, or along its edge, where nobody is, and leaves that run's records and after a failure the gate again |
| ResumeMeaning.AnswerMovesOn | src/graph.rs:1884-1911 | A node that yields until it is told an input and then succeeds: an accepted answer to its gate is recorded first with exactly what the node makes of the answer, and settles the id |
| Resume.RevertToYielded | src/graph.rs:51-77 | Appends the gate with the loaded state, node and request and no claim, on the head the failed run last wrote |
| Resume.RunSaves | src/graph.rs:1505-1586 | Over a whole run: all records but the last are `Complete` and resolve the interrupt, a failed run wrote only such records, gates resolve nothing, no record carries a claim |
| Resume.RollbackRestoresGate | src/graph.rs:1884-1974 | After a failed accepted resume the latest record is the gate as loaded, claim cleared; the id can be claimed again if and only if the failed run completed no node, otherwise it answers `AlreadyCompleted` |
| Resume.SettledExactly | src/graph.rs:1849-1854 | A resume settles its id exactly when its first durable write is not a new gate, and from then on every call with the id returns the saved state and changes nothing |
| Witnesses.GateNobodyCanAnswer | src/graph.rs:1884-1911 | A resumed run that completes one node and fails leaves the gate open, and every further call with its id changes nothing and returns the saved state |
| Callers.SingleActiveResumer | src/graph.rs:1838-1875 | Over every interleaving of any number of callers from any log: at most one is between `Claimed` and its last write, none while the latest record is a gate, and the re-checks after the claim never fail |
| Callers.IdempotentResume | src/graph.rs:1849-1854 | Once an id is settled, a call with it in any interleaving runs no node, and the log and every other caller end as if it had not been made |
| Callers.StrandedForever | src/store/memory.rs:209-241 | A claimed latest record that nobody holds stays exactly so under every further sequence of resuming callers |
| Callers.StrandsExactly | src/graph.rs:1838-1974 | In every state that callers reach: a step strands the thread if and only if the latest record is claimed and the holder crashes, has its input rejected after the claim, or is at `__END__` within the step limit; no other step does |
| Callers.WaysToStrand | src/graph.rs:1877-1880 | Inputs for each: a schema rejection and a crash right after the claim, and a hand-off straight to `__END__` |
| Resume.CallLeavesClaimExactly | src/graph.rs:1838-1967 | A whole call leaves the latest record claimed if and only if it won the claim and the input was rejected or the graph is entered at `__END__` with a positive step limit, or the record was claimed before by another call |
| Recovery.RecoverySafeExactly | src/graph.rs:1739-1811 | Crash recovery beside resuming callers: the two exclude each other in every continuation if and only if, when recovery starts, nobody holds the claim, no other recovery is under way, and the latest record is no gate a caller could win |
| Recovery.CarefulRecovery | src/graph.rs:1739-1811 | Over every interleaving with recoveries started only on such threads, at most one party is at work |
| Recovery.RecoverySettles | src/graph.rs:1754-1806 | Recovering a claimed record: refused exactly under the fail-fast policy; otherwise the id is settled exactly when the first record written is not a new gate, and the thread stays stranded exactly when nothing is written |
| Recovery.LoneRecovery | src/graph.rs:1739-1811 | A recovery left alone writes exactly what a resumption of the latest record does; one the policy refuses does nothing |
| Recovery.StrandedIsQuiet | src/graph.rs:1739-1811 | A stranded thread with no recovery under way meets the condition for safe recovery |
| Callers.LoneCaller | src/graph.rs:1829-1967 | The interleaved steps of one caller left alone are the whole call, result and log |
| PostgresClaim.ThreadRows.ClaimInterrupt | src/store/postgres.rs:298-391 | The three statements in a row, undisturbed, answer and change the rows as the atomic claim does |
| PostgresClaim.ClaimConservation | src/store/postgres.rs:298-391 | In every interleaving of both claim kinds with claim-free saves, the callers answered `Claimed` are as many as the records that gained a claim, each with a record of its own that names its id |
| PostgresClaim.SaveFreeClaimIsAtomic | src/store/postgres.rs:298-391 | While nothing is saved, the guarded update wins exactly when the atomic claim made at that moment would, with the same effect |
| PostgresClaim.UpdateIsAtomicExactly | src/store/postgres.rs:365-391 | Whatever happened since the reads, the update has the atomic claim's effect if and only if no gate is open, or the open gate asks for the id and the id is unresolved |
| PostgresClaim.StaleReadWinsForeignGate | src/store/postgres.rs:365-384 | One save between read and update: a caller wins a gate that asks for another id |
| PostgresClaim.StaleCheckWinsSettledId | src/store/postgres.rs:298-311 | Two saves after the history check: a settled id is won again |
| PostgresCallers.StillOneResumer | src/store/postgres.rs:298-391 | Resuming callers over the three statements, every interleaving from any log: at most one caller is between `Claimed` and its last write, and none while the latest record is a gate |
| PostgresCallers.WonUpdate | src/graph.rs:1838-1880 | After a won update and whatever the others do until the winner loads: the log is unchanged, the re-check fails if and only if the gate at the update asks for another id, nodes run if and only if it asks for the caller's and the input is accepted, settled id or not, and otherwise the thread is stranded |
| PostgresCallers.StrandsExactly | src/graph.rs:1838-1974 | With the three-statement claim a step strands the thread if and only if the latest record is claimed and its holder crashes, is rejected, is at `__END__` within the step limit, or fails the re-check |
| PostgresCallers.LateChecksAreSafe | src/store/postgres.rs:298-311 | A caller that checks the history after its id was settled is answered `AlreadyCompleted` and never runs a node, in every interleaving |
| PostgresCallers.OvertakenReader | src/store/postgres.rs:365-391 | For every graph and open gate: of two callers that read it one makes its whole call, and if that leaves a gate open the other takes it, stranding the thread exactly when the new gate asks for another id and running nodes exactly when it asks for the same one |
| Witnesses.SettledIdRunsAgain | src/graph.rs:1884-1911 | A run that fails after one node re-opens its gate, and an overtaken caller runs the settled id again |
| Witnesses.ForeignGateStrands | src/graph.rs:1871-1875 | A run that asks a second question is overtaken by a caller with the first id, whose re-check fails and strands the thread |
| HeadChain.NoFork | src/checkpoint.rs:70-109 | Any interleaving of runs and rivals leaves one linear chain; one run's writes are adjacent in it; a run's next write is exactly one executor turn from the node and state of its previous write |
| HeadChain.SaveOnChain | src/checkpoint.rs:70-109 | On a head-checking store that holds the chain, `save_state_bound` gives the answer and the chain of `Bound`, under an id no link has yet |
| HeadChain.RefusedAddsNothing | src/graph.rs:30-77 | A run refused once never writes again, its rollback included, and no earlier write is lost |
| HeadChain.RefusedExactlyWhenOvertaken | src/graph.rs:1505-1521 | A run's write is refused if and only if somebody else wrote since the run last read or wrote the head |
| HeadChainRuns.LoneRun | src/graph.rs:1505-1586 | Left alone on the chain a run writes exactly the records of the executor's run and, if it failed after being resumed from a gate, that gate once more |
| HeadChainRuns.FailedRunRollsBack | src/graph.rs:30-77 | In any interleaving a resumed run whose turn fails or is refused writes nothing with it and then rolls back, and the gate is written exactly if nobody wrote since the run last did |
| HeadChain.FirstWrite | src/graph.rs:1200-1201 | In every interleaving a run's first write stands right on the chain as it was when the run read the head; a first turn continues the record before it if and only if that record has the node and state the run was started from, that is, exactly when nothing else became the latest record between load and head read |
| HeadChain.FirstWritesStandOnTheirHead | src/graph.rs:1200-1201 | The same for every run in the chain of any interleaving: its first link is where some step began the run, on the chain of that moment |
| HeadChain.FirstWriteMayBeStale | src/graph.rs:1200-1201 | An input where the condition fails: a rival's record between load and head read |
| Dags.AcyclicMeansBounded | src/dag.rs:212-241 | A dependency relation is acyclic exactly when no chain has more nodes than there are |
| Dags.Dag.RestoreStatuses | src/dag.rs:71-80 | The two loops over the id map overwrite exactly the statuses of nodes the snapshot knows |
| Dags.RestoresExactly | src/dag.rs:71-80 | Restoring into any copy of the DAG gives back the snapshot if and only if nodes that share an id share a status |
| Dags.SharedIdsRestoreWrong | src/dag.rs:71-80 | Two nodes with one id and different statuses are not restored |
| DagBuild.Build | src/dag.rs:163-243 | Built with overflow checks: the builder's passes and Kahn's loop over a mutable in-degree array compute `Outcome`, including which error comes first |
| DagBuild.DetectCycle | src/dag.rs:216-241 | Built with overflow checks: the queue loop computes `Checked`: accepted, cycle, or in-degree underflow, and always terminates |
| DagBuild.LowerDegrees | src/dag.rs:229-237 | Built with overflow checks: the inner loop lowers in place the in-degree of every node that lists the dequeued id, queues those that reach zero, and stops at the first underflow |
| DagBuildExact.DequeueKeepsInv | src/dag.rs:227-238 | One dequeue keeps: in-degree plus counted-off dependencies is the number listed, and exactly dequeued or queued nodes have in-degree zero, each queued once |
| DagBuildExact.CheckedExactly | src/dag.rs:212-241 | Built with overflow checks, for all nodes: accepted if and only if the relation is acyclic and every node lists as many dependencies as there are carriers of the listed ids |
| DagBuildExact.BuildExactly | src/dag.rs:163-243 | Built with overflow checks, for all entries: accepted if and only if step types are allowed, dependencies are named, dependency counts match the entries they name, and there is no cycle |
| DagBuildExact.BuildExactlyForDistinctTypes | src/dag.rs:163-243 | For distinct step types the count condition is exactly that no dependency is listed twice, and an input with only a cycle wrong gets the cycle error, never an underflow |
| DagBuildExact.AcceptedDag | src/dag.rs:188-211 | An accepted DAG has the entries' step types, all pending, no dangling dependency, no cycle, and distinct ids exactly when the step types are distinct |
| DagBuildExact.SharedTypeUnderflows | src/dag.rs:191-237 | Two entries of one step type and a dependent, acyclic and fully named: the checked build underflows |
| DagBuildUnchecked.BuildUnchecked | src/dag.rs:163-243 | Built without overflow checks, where the decrement wraps around 64 bits: the builder computes `OutcomeUnchecked` and terminates |
| DagBuildUnchecked.DequeueWraps | src/dag.rs:227-238 | One dequeue keeps every in-degree at the listed count minus the counted-off dependencies modulo the wrap, and no node is queued twice |
| DagBuildUnchecked.UncheckedBuildExactly | src/dag.rs:163-243 | For all entries, without overflow checks: accepted if and only if step types are allowed, dependencies are named, and no set of entries each list more dependencies than entries outside the set carry their names |
| DagBuildUnchecked.BuildsAgree | src/dag.rs:227-241 | Where dependency counts match the entries they name, the two builds give the same verdict |
| DagBuildUnchecked.CheckedImpliesUnchecked | src/dag.rs:227-241 | What the checked build accepts the unchecked one accepts with the same nodes |
| DagBuildUnchecked.UncheckedAcceptsACycle | src/dag.rs:229-237 | Two entries of one step type let a cycle through the unchecked build, and the accepted DAG blocks its two nodes |
| DagBuildVerdict.UnderflowExactly | src/dag.rs:163-243 | For all entries: the checked build underflows if and only if step types are allowed, dependencies are named, and some entry has, whatever set of entries that wait for themselves is left out, more entries of the types it names than it lists dependencies; in every other case it answers exactly as the unchecked build |
| DagBuildVerdict.BuildVerdict | src/dag.rs:163-243 | Every verdict of the checked build as an equivalence: accepted, not allowed, dependency not found, underflow, and the cycle, which is reported exactly when names are in order, nobody underflows and some set of entries waits for itself |
| DagBuildVerdict.OffendersExactly | src/dag.rs:163-187 | A refusal by the allow-list reports all step types that are not allowed, in the order of the entries |
| DagBuildVerdict.MissingIsFirst | src/dag.rs:188-211 | The dependency reported as not found is the first that names no entry, with the entry that lists it |
| DagBuildVerdict.DrainsAlike | src/dag.rs:216-241 | The checked queue loop underflows exactly when the wrapping one counts a node off more often than it lists dependencies; otherwise both dequeue the same number of nodes |
| DagBuildVerdict.ListedTwiceIsACycle | src/dag.rs:191-241 | An entry that lists one dependency twice: acyclic and uneven, but the answer is the cycle, not an underflow |
| WaveRun.ReadyNodes | src/graph.rs:711-720 | With the completed ids kept up to date, the scan finds exactly the ready wave, in index order |
| WaveRun.CollectWave | src/graph.rs:934-1044 | The join loop updates node statuses and the completed set in place as `Collect` says, for every order of joins, and aborts where it does |
| WaveRun.RunDag | src/graph.rs:668-1148 | The loop on the DAG object and the store, its merge an imperative loop over the sorted results: result, final statuses and appended records are those of `RunWaves` after the depth and size guards |
| WaveMeaning.TurnMeans | src/graph.rs:709-1128 | One turn of the loop over the nodes' answers and any finishing order: deadlock names, the interrupt before, the unregistered node, the task that ends the run and the error it ends in, the failures collected, the gate with the last yield's request, and the completed wave with its merge, cost, budget verdict, record and interrupt after |
| WaveRunMeaning.DagMeans | src/graph.rs:676-692 | A whole run is refused when nested deeper than eight or over the node limit, and is otherwise a chain of such turns from the first wave with nothing spent |
| WaveRunMeaning.RecordsAreMerges | src/graph.rs:1080-1121 | Every completed wave that a run goes on from records the last of a chain of merges that starts with the state before the wave and takes, in index order, what each ready node answered on that state |
| WaveRunMeaning.ResumeMeans | src/graph.rs:2077-2119 | The nodes `resume_dag` starts from: refused exactly after a crash under fail-fast; otherwise each has the status last saved under its id, or its own, and after a crash a running one is pending or done as the policy has it |
| WaveMeaning.JoinedIs | src/graph.rs:750-755 | The recorded names are comma-separated: one name as it is, two lists with a comma in between |
| WaveRun.ResumeDag | src/graph.rs:2068-2128 | Resuming restores the statuses, applies the crash policy to running nodes, and is then a run from the saved state; nothing changes when there is no DAG record or the policy fails fast; the logs of other threads are untouched |
| Waves.WaveProgresses | src/graph.rs:709-1128 | Every wave that goes on strictly shrinks the set of pending nodes, so the loop ends |
| Waves.WaveSettles | src/graph.rs:774-1044 | A wave touches no node but its own, and changes only statuses |
| WaveConfluence.Confluence | src/graph.rs:942-1121 | For every order in which a succeeding wave's tasks finish: the same statuses, merged state, exact cost, saved record and budget verdict, namely the results of the pre-wave state merged in increasing node index (the merge itself is `WaveMeaning.TurnMeans`) |
| WaveConfluence.CompletesExactly | src/graph.rs:1046-1127 | A launched wave completes if and only if all its tasks succeed within the budgets |
| WaveConfluence.ByIndexSorts | src/graph.rs:1080-1086 | Sorting by node index orders the results of distinct nodes and loses none |
| Deadlock.DeadlockExactly | src/graph.rs:710-735 | For any DAG, dangling, cyclic or with shared ids, and any starting statuses: an undisturbed run completes exactly the least fixpoint of readiness, ends in `DAGDeadlock` if and only if a pending node lies outside, and names exactly those in index order; no other run reports a different deadlock |
| Deadlock.SucceedingIsUndisturbed | src/graph.rs:709-1128 | Registered nodes that always succeed, without budget and interrupts, disturb no run |
| WaveLevels.WavesFollowDepth | src/graph.rs:710-720 | From all pending, where nodes that share an id have chains of one length, wave k holds exactly the nodes whose longest dependency chain has k + 1 nodes, whatever ends the run |
| WaveLevels.AcyclicNeverBlocks | src/graph.rs:722-735 | Without dangling dependencies and cycles nothing is ever blocked, from any mixture of pending and done nodes |
| WaveLevels.AcceptedNeverDeadlocks | src/dag.rs:163-243 | A DAG from `build` never deadlocks and, undisturbed, ends with every node done; where nodes that share an id have chains of one length, in as many waves as its longest chain has nodes |
| WaveRestart.LagStep | src/graph.rs:737-1128 | Wave by wave, under any finishing orders, an interrupted life does what the uninterrupted run does, or stops with its position as last record |
| WaveRestart.AnyUninterrupted | src/graph.rs:668-1148 | All uninterrupted runs of deterministic nodes agree on records, statuses and result, whatever order tasks finish in |
| WaveRestart.RestartEquivalence | src/graph.rs:2068-2128 | For deterministic nodes of an undisturbed run, where nodes that share an id share a status at its boundaries: after any crashes and finishing orders, whatever interrupts each life sets, and from any statuses in the caller's copy, the thread stands at a boundary of that run at least as far on as the lives that returned; each further resume completes a wave or ends as that run does, and enough lives give exactly its statuses and state |
| WaveReplay.ReplayIsOnLog | src/graph.rs:2068-2128 | The lives are `resume_dag` on the thread's log, for every graph and whatever lives: after them the latest record has a DAG, is not running, and stands at exactly the point the restart theorem speaks of |
| WaveReplay.ResumeOnce | src/graph.rs:2068-2128 | One call of `resume_dag` makes of the log and the next id what one life that returns does |
| WaveAgreement.ResumesWhereSaved | src/graph.rs:2102-2103 | At every boundary of the uninterrupted run a life starts from the nodes saved there if and only if nodes that share an id share a status there |
| WaveAgreement.SameNeedsAlwaysAgree | src/dag.rs:71-80 | Nodes that share an id and list the same dependencies share a status at every boundary once they do at the first |
| WaveAgreement.AgreesExactly | src/dag.rs:71-80 | From a fresh DAG that the uninterrupted run completes: nodes that share an id share a status at every boundary if and only if their dependency chains have one length |
| WaveAgreement.SharedIdRunsAgain | src/graph.rs:2102-2103 | An accepted DAG with two nodes of one id, one of them behind another node: restoring the record of the first wave makes the completed one pending and ready again |
| WaveDurability.WritesOnlyBoundaries | src/graph.rs:1046-1121 | Every record but the last is exactly the statuses, merged state and within-budget cost of one more completed wave; the last may repeat a boundary or open a gate; a run that ends in an error wrote nothing for its last wave |
| WaveDurability.RecordsConsistent | src/graph.rs:774-1121 | From consistent nodes, no record of any run has a running or failed node, and its done nodes are closed under dependencies |
| WaveDurability.GatePairsExactly | src/graph.rs:1054-1078 | A gate opened by a wave pairs the pre-wave state with its statuses if and only if no task of the wave succeeded |
| Witnesses.MixedWaveGates | src/graph.rs:1054-1078 | Every launched wave in which no task fails and at least one succeeds and one yields saves a gate whose done nodes are not those of its state, in every finishing order |
| Witnesses.GateLosesAResult | src/graph.rs:1054-1078 | Two nodes side by side, one success and one yield: such a gate is what the run saves |
| WaveDurability.OnlyPendingRuns | src/graph.rs:2104-2119 | No run, hence no resume, changes a node that is not pending: a yielded node stays yielded |
| WaveDurability.DagBudget | src/graph.rs:1088-1097 | Every recorded boundary is within the budget, and a run over budget after a succeeding wave reports exactly that wave's cumulative cost, the boundary before it being within budget |
| WaveTasks.EveryInterleavingIsARun | src/graph.rs:779-1044 | Every interleaving of spawned tasks, permits, finishes and joins that ends does so with the result, nodes and records of `RunWaves` under a schedule that is, for every closed wave, exactly the order of the joins in the log, and for the last wave extends it |
| WaveTaskSafety.EveryInterleavingIsSafe | src/graph.rs:694-1007 | In every interleaving: at most max(1, max_concurrent_nodes) running nodes, no node started or succeeded twice, every possible start has its dependencies done and all started tasks of earlier waves joined, and the joins of a wave are a permutation of its ready nodes |
| WaveTaskSafety.NeverStuck | src/graph.rs:694-697 | In every interleaving, while the run has not ended some step changes something, because the permits are clamped to at least one |
| WaveTaskSafety.EveryStepCounts | src/graph.rs:709-1044 | In every interleaving, every step that changes anything lowers the number of steps left, a natural number |
| WaveTaskSafety.EveryInterleavingEnds | src/graph.rs:709-1044 | Every infinite sequence of events, after at most five steps per pending node and one more, reaches the end of the run or an event that changes nothing, so no sequence changes something at every step |
| DagSurvives.AcceptedDagSurvives | src/graph.rs:2068-2128 | For deterministic nodes, a DAG built from entries of which those of one step type have dependency chains of one length, under any interrupts and crashes: once as many lives returned as the longest chain has nodes, every node is done and the saved state is the uninterrupted result |
| DagSurvives.SurvivesExactly | src/dag.rs:188-211 | For every accepted DAG of deterministic nodes whose uninterrupted run is undisturbed: restarts restore what was saved at every boundary if and only if entries of one step type have dependency chains of one length |
| DagSurvives.DistinctTypesAreLevel | src/dag.rs:188-211 | Distinct step types meet that condition |

## Left out

- DagBuild.Build: a panic on in-degree overflow is the result `Underflow`; the wrapping build is `DagBuildUnchecked.BuildUnchecked`, for the 64-bit counter only.
- Checkpoints.Checkpointer.DeleteCheckpoints: the clock is not modelled; which records are younger than the cut-off is a parameter.
- Checkpoints.Checkpointer.SaveStateBound: never answers an idempotent replay, which no store in the repository does either.
- WaveTasks.EveryInterleavingIsARun: the calls and waits of one task are a single step.
- WaveRun.RunDag: several writers racing with a DAG run are not modelled; the head-checked chain is proved for sequential runs, which use the same save.
- Resume.ResumeWithInput: DAG checkpoints are not passed to it, whose next node is a comma-joined list; the schema check is a boolean; the response hash, audit record and resume metrics are not modelled.
- The last checkpoint id a node is told is part of what the call number `tick` may stand for.
- Timeouts, cancellation tokens, sleeping, and panicking tasks: folded into a node's answers or not modelled.
- Errors of the store itself (lost connections, poisoned mutexes, serialization) and the size limit of a checkpoint payload.
- Emitters, metrics, tracing, broadcast events and the execution history: they do not influence a run.
- SQL text, row timestamps and the SQLite store, whose claim is one transaction like the in-memory one.
- Receipt chain and authorization fields of a checkpoint proof, which the executor always fills with the genesis value.
- Floating-point rounding of costs, and token prices.
- `DAG::add_node`, graph builders, `ChildRunner`, examples and benchmarks.
