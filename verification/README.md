# Workflow engine: a verified model

The repository runs workflows of tasks with dependencies. There is no orchestrator: all
state lives in MongoDB, any number of workers and API callers run the engine's functions
concurrently, Redis only says which task to pick up next, and an outbox feeds Kafka.
Correctness rests on transactions, compare-and-set updates, two hand-maintained counters,
leases with fencing tokens, and a reconciler.

This project models that engine and proves what it guarantees over whole runs, in which
transactions commit under snapshot isolation and actors may die between any two steps.
`dafny verify dfyconfig.toml` checks everything.

## Structure

| modules | what they hold |
|---|---|
| `States`, `Documents`, `Transactions`, `Calls` | the status tables; the documents of one run; each call of the engine as a function on them |
| `Graphs`, `WaveOrder`, `Kahn`, `CycleSearch`, `ValidateDag` | task graphs; the validator's two algorithms and its verdict, as loops and a mutable search |
| `Invariant`, `Success`, `FailForGood`, `Moves`, `Preserves`, `Start` | the invariant of a run, and that each call, run alone, keeps it |
| `SnapshotIsolation`, `Commits` | read a snapshot, commit unless a written document changed: the invariant is kept |
| `System`, `SystemInvariant`, `RunTheorems`, `Leases`, `RetryAfterFailure`, `StartsAfterFailure`, `Progress`, `Recovery`, `Termination`, `Outputs` | workers and callers as actors, all their interleavings and crashes, and the guarantees |
| `Effects` | what a caller finds in the documents after each call, said of the documents alone |
| `TaskRepository`, `Engine`, `Worker` | the same calls as methods that update the documents and the queue in place, each proved equal to its function and to have its effects |
| `Lexicographic`, `SortedSets`, `QueueScripts`, `TaskQueue`, `QueueTheorems` | Redis sorted sets, the seven queue scripts, and every sequence of them |
| `RateLimiter`, `SlidingWindow` | the sliding-window script, and every sequence of requests |
| `Grammar`, `Parsing`, `Calculator`, `Evaluator` | derivation trees, recursive descent as functions, soundness and completeness, the cursor-based evaluator |
| `JsonText`, `CanonicalJson`, `JsonReader`, `Idempotency` | string escaping, the canonical printer, a reader for what it prints, runs with idempotency keys |
| `Outbox`, `Pipeline` | relay and consumer in place, all their interleavings, and the end-to-end count |
| `Options`, `Sums`, `Cardinality` | small shared vocabulary |

Two layers describe the engine. `Transactions` gives each transaction as a function of the
documents it reads. `System` lets an actor open a transaction on the current documents and
commit its result later, over whatever the documents are then, unless a document it writes
has changed in value; rows are inserted freely. Comparing values admits every commit that
MongoDB's version check admits. Claims, heartbeats and dispatches are single steps, and any
task id may be tried at any time, so nothing is assumed of the queue.

`Engine` is the imperative form. A method without `Valid` in its contract is the body of a
transaction, or a part of one; the others keep `Valid`, which contains the whole invariant.

## What is taken as given

Transactions commit atomically, single-document updates and Lua scripts are atomic, unique
indexes hold, the database server's and the Redis server's clocks do not run backwards where
a contract says so, and `_id`s are fresh. A lease deadline that is missing counts as passed,
as MongoDB orders null before dates. A missing `dependsOn` is the empty list. Handlers are a
choice of output, retryable or permanent error, or approval request. The calculator's numbers
are any type with the operations JavaScript applies to them. Definitions have at least one
task (src/workflow/workflow.schemas.js:42) and at least one attempt per task.

## Where code and comments differ

The model follows the code.

- src/workflow/dag.js:124 says that the order inside a wave follows input order. The code
  lists a wave in the order in which the wave before frees its tasks. When that is input
  order, and when not: `ValidateDag.WavesFollowInputIff` and `WavesMayNotFollowInput`.
- src/workflow/engine.js:551-552 says that a retry needs a RUNNING run. The code also retries
  in a PAUSED one (line 602): `StartsAfterFailure.RetriesExactly` and `PausedRunThatRetries`.
- src/workflow/engine.js:562-564 says that nothing new starts after a failure. A claim never
  looks at the execution, so tasks of dead workers are started again, and a retry decided
  before the failure may commit after it: `StartsAfterFailure.StartsAfterFailureExactly` and
  `FailedRunThatTakesOver`, `RetryAfterFailure.RetryAfterFailureExactly` and `FailedRunThatRetries`.
- src/queues/taskQueue.js:82-85 says that an ack works only while its caller holds the lease.
  The script checks only that somebody does: `QueueTheorems.AckRemovesExactly`,
  `AckInTime` and `AckMayTakeAnothersLease`.
- src/middleware/rateLimit.js:12-13 says that the limit is never exceeded in any window. That
  needs tags that differ: `SlidingWindow.BoundHoldsIffFresh` and `SharedTagsBreakTheBound`.
- src/services/execution.service.js:27-31 says that retrying the same request returns its run.
  A retry is answered with 404 once its user does not find the workflow, as an admin who
  started a run of somebody else's workflow and was then demoted (src/auth/ownership.js:20-22):
  `Idempotency.RetryReplays` and `RetryMayNotReplay`. The graph is looked at before the key,
  too, but every path that writes a definition validates it (src/services/workflow.service.js:11-19),
  so this branch is not known to be taken by a retry.

## Model

| member | source | states |
|---|---|---|
| `RunTheorems.PendingCounterExact` | src/models/workflowExecution.model.js:27-34 | In every reachable state `pendingTasks` is the number of unfinished tasks; a RUNNING run has some and a COMPLETED run none, so two last completions cannot both miss completing the run |
| `RunTheorems.DeadlockFree` | src/workflow/engine.js:134-162 | Every reachable RUNNING run of a non-empty accepted definition has a positive counter and a task in READY, QUEUED, RUNNING, RETRYING or WAITING_FOR_APPROVAL, whatever was paused or resumed |
| `RunTheorems.DependencySafety` | src/workflow/engine.js:127-151 | While RUNNING, PAUSED or COMPLETED, `remainingDeps` is the number of parents not COMPLETED; always, a task that left PENDING without being cancelled has all parents COMPLETED |
| `RunTheorems.HandlersSeeFinalOutputs` | src/workflow/engine.js:478-487 | Every handler ever started was given, for each parent, the output that parent has for good, and nothing else |
| `Outputs.AppliedOutputStays` | src/workflow/engine.js:518-522 | Whatever happens before and after, an applied report `completeTask(k, token, o)`, or an approval of k, leaves k COMPLETED with exactly the output it reported, for good |
| `Outputs.OutputsWereReported` | src/workflow/engine.js:518-522 | The output of every COMPLETED task of every reachable state is one that an applied report, or an approval, reported of that task |
| `Outputs.HandlersSeeReportedOutputs` | src/workflow/engine.js:478-487 | What a handler was given for a parent was reported by an applied transaction as that parent's output, and is what any applied transaction reported of it |
| `RunTheorems.TerminalOutcomes` | src/workflow/engine.js:178-209 | What COMPLETED, FAILED and CANCELLED of a run say about its tasks and its counter |
| `RunTheorems.HistoryIsOneWay` | src/workflow/states.js:41-67 | Finished statuses and outputs of tasks and runs never change again, the log only grows, and each task moves along a path of the transition table |
| `RunTheorems.TokensCountAttempts` | src/repositories/task.repository.js:81-91 | `attempt` equals `leaseToken`, never falls, and a task has a lease deadline exactly while RUNNING |
| `Leases.LeaseExclusion` | src/repositories/task.repository.js:65-94 | Before its lease deadline passes, a RUNNING task is not claimed again: its token stays, unless its own holder's report was applied |
| `RunTheorems.OneReportPerToken` | src/workflow/engine.js:518-523 | At most one report is ever applied for each task and token |
| `RunTheorems.StaleReportIsFenced` | src/workflow/engine.js:582-583 | Committing a report whose token is no longer current changes no document, on whatever snapshot it was computed |
| `RunTheorems.AckComesLast` | src/workers/queueWorker.js:95-101 | A worker reaches its ack only when the task is not RUNNING under its token, and that stays so for ever |
| `RunTheorems.HandoutsBounded` | src/workflow/engine.js:463-475 | However many workers die, a task is handed to a handler at most `maxAttempts` times |
| `RunTheorems.ApprovalsAreConsistent` | src/workflow/engine.js:663-705 | A task is WAITING_FOR_APPROVAL exactly when its request is pending, is suspended at most once and decided at most once |
| `RunTheorems.ApprovalsNeverConflict` | src/workflow/engine.js:736-744 | On every snapshot an open call works on, a pending request's task is waiting and a held task has no request yet: neither the conflict nor the duplicate key is thrown |
| `RunTheorems.EventLogAgrees` | src/workflow/engine.js:153-169 | The outbox holds exactly one completed, failed or dead-lettered row for each task in that status, one row per approval request and per decision, one terminal row for an ended run, and pauses match resumes, with one more while PAUSED |
| `RunTheorems.RunAlone` | src/workflow/engine.js:510-546 | A call nobody interferes with has the effect of its transaction on the current documents |
| `RetryAfterFailure.RetryAfterFailureExactly` | src/workflow/engine.js:598-626 | A step breaks 'a FAILED run has no RETRYING task' if and only if it commits a retry computed before the run failed, or a failure computed before a retry |
| `RetryAfterFailure.FailedRunThatRetries` | src/workflow/engine.js:598-626 | A reachable FAILED run with a RETRYING task: two failing tasks whose transactions cross |
| `StartsAfterFailure.ClaimableAfterFailure` | src/repositories/task.repository.js:66-77 | In every reachable FAILED run a task can be claimed if and only if it is RETRYING, or RUNNING under a lease that has run out |
| `StartsAfterFailure.StartsAfterFailureExactly` | src/repositories/task.repository.js:65-94 | In a FAILED run a step starts a new attempt of some task if and only if a free worker claims such a task |
| `StartsAfterFailure.AtomicFailureOnlyTakesOver` | src/workflow/engine.js:186-190 | With transactions one at a time only takeovers start in a FAILED run |
| `StartsAfterFailure.FailedRunThatTakesOver` | src/repositories/task.repository.js:65-94 | A reachable FAILED run without RETRYING tasks in which a dead worker's task is started a second time |
| `StartsAfterFailure.RetriesExactly` | src/workflow/engine.js:598-603 | A failed attempt is retried if and only if the error is transient, attempts are left, and the run is RUNNING or PAUSED |
| `StartsAfterFailure.PausedRunThatRetries` | src/workflow/engine.js:598-626 | A reachable PAUSED run in which a report takes a task from RUNNING to RETRYING |
| `RetryAfterFailure.AtomicFailureIsClean` | src/workflow/engine.js:186-190 | If every transaction commits on the state it began with, a FAILED run never has a RETRYING task |
| `Progress.RunsAreBounded` | src/workflow/engine.js:433-488 | With startTask as one step, at most the sum over tasks of 2 * maxAttempts + 7 steps of a run change a task, whatever the actors do |
| `Termination.CanBeServed` | src/workflow/engine.js:763-779 | Once the leases are over, a RUNNING run that waits for no human has a READY task to dispatch or a task that a free worker can start |
| `Termination.RunCanBeServed` | src/workflow/engine.js:763-779 | After any steps, a run that goes on can be served one lease later |
| `Termination.ServedRunsEnd` | src/workflow/engine.js:134-162 | At most the budget of steps serve a run; a run served that often is COMPLETED, FAILED, CANCELLED or PAUSED, or waits for a human: every run served again and again comes to an end |
| `Termination.QueueServes` | src/workflow/engine.js:782-821 | After a reconcile of such a run whose waits have run out, a READY task is there to dispatch, or the queue, whatever it held, hands some worker a task it can claim, by runs of the reaper and the promoter with any positive limit, and claims |
| `Recovery.AlwaysStamped` | src/workflow/engine.js:782-821 | Every READY, QUEUED and RETRYING task carries the time since which it waits, in every reachable state: the sweeps can find it |
| `Recovery.NoRunIsLost` | src/workflow/engine.js:763-779 | In every reachable RUNNING state whose waits and leases have run out, some task is one the reconciler enqueues or waits for a human |
| `Start.StartedKeeps` | src/workflow/engine.js:346-420 | A run of a well-formed non-empty definition starts in the invariant |
| `Preserves.CompleteKeeps` | src/workflow/engine.js:510-546 | completeTask keeps the invariant and undoes nothing |
| `Preserves.FailKeeps` | src/workflow/engine.js:571-652 | failTask keeps it, whether it retries, fails or dead-letters |
| `Preserves.SuspendKeeps` | src/workflow/engine.js:663-705 | suspendForApproval keeps it, and its insert never meets an earlier request |
| `Preserves.ResolveKeeps` | src/workflow/engine.js:721-761 | resolveApproval keeps it, and a decision that wins the request wins the task |
| `Preserves.PauseKeeps` | src/workflow/engine.js:233-248 | pauseExecution keeps it |
| `Preserves.ResumeKeeps` | src/workflow/engine.js:255-284 | resumeExecution keeps it: whatever became ready while paused is promoted, and a finished run completes |
| `Preserves.CancelKeeps` | src/workflow/engine.js:293-328 | cancelExecution keeps it, with the counter at the number left |
| `Preserves.DispatchKeeps` | src/workflow/engine.js:83-89 | dispatchTask keeps it |
| `Preserves.ClaimKeeps` | src/repositories/task.repository.js:65-94 | claimTask keeps it, takeovers included |
| `Preserves.RenewKeeps` | src/repositories/task.repository.js:106-113 | renewTaskLease keeps it |
| `Preserves.TransactionKeeps` | src/workflow/engine.js:220-761 | Every transaction, run alone, keeps it and undoes nothing |
| `SnapshotIsolation.CommitConserves` | src/models/workflowExecution.model.js:27-34 | Conservation under snapshot isolation: whatever a transaction adds to a sum over documents and rows when run alone, its commit adds to the current documents, however much others wrote |
| `SnapshotIsolation.CommitKeepsPending` | src/models/workflowExecution.model.js:27-34 | So the pending counter stays exact whoever commits in between |
| `SnapshotIsolation.CommitKeepsDep` | src/workflow/engine.js:136-140 | And so does each `remainingDeps` that a transaction keeps exact |
| `SnapshotIsolation.AtomicIsSpecial` | src/workflow/engine.js:496-501 | Committing on the snapshot itself is running the transaction alone |
| `Commits.CommitKeeps` | src/workflow/engine.js:489-503 | The commit of any transaction, computed on any earlier snapshot that its writes do not conflict with, keeps the whole invariant of the current documents |
| `SystemInvariant.ReportSettles` | src/workflow/engine.js:518-523 | Once a report committed its ticket is settled; if it changed anything the ticket was not settled before |
| `SystemInvariant.StepOk` | src/workflow/engine.js:433-761 | Every step of every actor keeps the invariant of documents, actors, history and leases |
| `SystemInvariant.ReachableOk` | src/workflow/engine.js:14-17 | So every reachable state satisfies it |
| `TaskRepository.Database.TransitionTask` | src/repositories/task.repository.js:24-32 | Compare-and-set on status and, where given, on the token: it wins exactly when both match, and then changes this task only |
| `TaskRepository.Database.ClaimTask` | src/repositories/task.repository.js:65-94 | Claims exactly the claimable tasks, with a new attempt, token and deadline |
| `TaskRepository.Database.RenewTaskLease` | src/repositories/task.repository.js:106-113 | Moves the deadline exactly for the holder of the current token |
| `TaskRepository.Database.UpdateTasks` | src/workflow/engine.js:186-190 | Every matching task is updated, no other, and the answer is how many matched |
| `TaskRepository.Database.FindTasks` | src/workflow/engine.js:786-788 | Matching tasks only, all of them unless the limit stops the query |
| `TaskRepository.Database.FindOverdueApprovals` | src/workflow/engine.js:825-825 | Only requests that are pending with a deadline before now, all of them unless the limit stops the query |
| `Engine.Engine.StartExecution` | src/workflow/engine.js:346-424 | A run is created if and only if the definition is valid; then every document is as a new one, the roots QUEUED and stamped, and with Redis up exactly the roots' ids are added to the queue; otherwise nothing is written |
| `Engine.Engine.DispatchTask` | src/workflow/engine.js:83-108 | A READY task becomes QUEUED with its stamp, nothing else changes, and exactly its id is added to the queue if Redis is up; the loser of the race does nothing |
| `Engine.Engine.DispatchReady` | src/workflow/engine.js:73-81 | In a RUNNING run every READY task becomes QUEUED with its stamp and, if Redis is up, exactly their ids are added to the queue; otherwise nothing changes |
| `Engine.Engine.AfterTaskSucceeded` | src/workflow/engine.js:127-170 | The documents afterwards are those of the success function: counter, children, completion, rows |
| `Engine.Engine.AfterTaskFailedForGood` | src/workflow/engine.js:178-218 | The documents afterwards are those of the failure function: counter, fail-fast, rows |
| `Effects.CompleteHas` | src/workflow/engine.js:510-546 | What the completion of a held task and the dispatch that follows leave in every document of the run, said field by field |
| `Effects.FailHas` | src/workflow/engine.js:571-652 | The same for a reported failure: a retry and its due time, or the end of the task and the fail-fast cancellation of the unstarted ones |
| `Effects.ApproveHas` | src/workflow/engine.js:721-761 | And for an approval |
| `Effects.RejectHas` | src/workflow/engine.js:721-761 | And for a rejection or an expiry |
| `Engine.Engine.CompleteTask` | src/workflow/engine.js:510-546 | Applied exactly under the current token: the task is COMPLETED with the output reported, its children wait for one task less, those that waited for no other are QUEUED with both stamps, the run completes exactly at zero, and exactly the newly QUEUED ids are added to the queue if Redis is up |
| `Engine.Engine.FailTask` | src/workflow/engine.js:571-652 | Under the current token a failure is retried, due at now plus the delay, exactly if it is transient, attempts are left and the run is live; without attempts left it is parked, and otherwise failed, and fail-fast cancels exactly the unstarted tasks. A retry leaves the lease and waits in the delayed set for its time |
| `Engine.Engine.StartTask` | src/workflow/engine.js:433-488 | Hands out exactly the claimable tasks with attempts left, under the next token and a full lease, with the outputs of all parents and of nothing else; a claim past the last attempt is dead-lettered at once; the queue is not touched |
| `Engine.Engine.RenewLease` | src/workflow/engine.js:223-226 | True exactly while the task is held under the token; then its deadline is one lease from now, and nothing else changes |
| `Engine.Engine.SuspendForApproval` | src/workflow/engine.js:663-705 | Applied exactly under the current token: the task waits, its first request expires at now plus the timeout, and one row is added |
| `Engine.Engine.ResolveApproval` | src/workflow/engine.js:721-761 | A decision is applied exactly if the request is pending, and the conflict is never thrown: the request and one new row say that very decision, the task is COMPLETED with its children served, or FAILED with fail-fast, and only an approval enqueues, exactly what became QUEUED |
| `Engine.Engine.PauseExecution` | src/workflow/engine.js:233-248 | True exactly for a RUNNING run, which is then PAUSED with nothing else changed but one row |
| `Engine.Engine.ResumeExecution` | src/workflow/engine.js:255-284 | True exactly for a PAUSED run: what waits for nothing is QUEUED, or the run is COMPLETED if nothing is left, and exactly the newly QUEUED ids are added to the queue if Redis is up |
| `Engine.Engine.CancelExecution` | src/workflow/engine.js:293-328 | True exactly for a live run: every unfinished task is CANCELLED and every pending request withdrawn, the counter is zero, and what was finished stays as it was |
| `Engine.Engine.SweepReady` | src/workflow/engine.js:786-797 | Sweep 1 dispatches READY tasks that waited too long in a RUNNING run, all of them below the limit, changes no other document, and adds exactly their ids to the queue if Redis is up |
| `Engine.Engine.SweepEnqueue` | src/workflow/engine.js:799-821 | Sweeps 2 to 4: with Redis up and the limit not reached every task of the kind is in the queue, and no other id is added |
| `Engine.Engine.ExpireApprovals` | src/workflow/engine.js:824-834 | Sweep 5: requests pending with `expiresAt` before now end EXPIRED, all of them below the limit; every other request is as before, held and finished tasks are untouched, and without such a request nothing changes at all |
| `Engine.Engine.Reconcile` | src/workflow/engine.js:782-838 | After one reconcile with Redis up and no sweep at its limit, every stale QUEUED, expired RUNNING and overdue RETRYING task and every stale READY task of a RUNNING run is a queue member, whatever the queue held before; no other id is added; only requests past their deadline change, and without one only stale READY tasks do |
| `Worker.QueueWorker.RunTask` | src/workers/runTask.js:60-70 | A task held under the token ends as its handler did: COMPLETED with the output returned, WAITING_FOR_APPROVAL with a request that expires after the timeout asked for, or RETRYING, DEAD_LETTER or FAILED as error, attempts and run decide; a task not held is left alone, documents and queue |
| `Worker.QueueWorker.RunHandler` | src/workers/queueWorker.js:77-93 | While the handler runs each heartbeat moves the deadline in the database and in the queue to one lease after it, and nothing else changes |
| `Worker.QueueWorker.ProcessTask` | src/workers/queueWorker.js:67-102 | Once the report is in, the document tells how the handler ended; the entry is acknowledged only after that, and then forgotten unless a retry was scheduled, and no other entry is; a death before the report leaves the task held and the entry queued |
| `States.TerminalStays` | src/workflow/states.js:41-67 | No path of the task table leaves a finished status, except from FAILED to DEAD_LETTER |
| `States.ReachesTransitive` | src/workflow/states.js:52-67 | Paths of the table compose |
| `ValidateDag.Validate` | src/workflow/dag.js:35-106 | Valid if and only if keys are unique, every dependency names another task once, and there is no cycle; then the order is topological and the levels are the waves, in the order in which they fill; otherwise all structural problems, or one genuine simple cycle |
| `ValidateDag.DuplicateKeys` | src/workflow/dag.js:39-49 | Reports exactly the keys used more than once |
| `ValidateDag.CheckDependencies` | src/workflow/dag.js:51-81 | Reports exactly the problems of one dependency list |
| `ValidateDag.StructuralErrors` | src/workflow/dag.js:36-87 | No errors if and only if the definition is structurally sound, and every error reported is a problem and every problem reported |
| `ValidateDag.NoProblemMeansStructural` | src/workflow/dag.js:83-87 | Structural soundness is the absence of reported problems |
| `ValidateDag.ValidLevelsAreCriticalPath` | src/workflow/dag.js:118-123 | The number of levels is the length of the longest dependency chain, and a task's level index plus one that of the longest chain ending at it |
| `ValidateDag.WavesFollowInputIff` | src/workflow/dag.js:124-124 | All waves follow input order if and only if, of any two tasks of a wave, the first in the input needs nothing of the wave before that stands later there than all that the second needs |
| `ValidateDag.CrossedWave` | src/workflow/dag.js:124-124 | Two tasks that depend on one root each, listed in the opposite order of the roots, are never in input order |
| `ValidateDag.WavesMayNotFollowInput` | src/workflow/dag.js:124-124 | A valid definition A, B, D (on B), C (on A) whose second wave is not in input order |
| `WaveOrder.InputOrderIff` | src/workflow/dag.js:147-155 | A wave follows input order if and only if its tasks were freed in input order |
| `WaveOrder.AllInInputOrderIff` | src/workflow/dag.js:144-156 | The same for all waves at once, said of the input alone |
| `Kahn.Run` | src/workflow/dag.js:126-161 | Emits every task that waits for no cycle, once and after its dependencies, in waves, the first in input order and each other sorted by the task of the wave before that freed it and then by input; the rest are exactly the tasks that each wait for another of them |
| `Kahn.BuildChildren` | src/workflow/dag.js:128-138 | The children lists are exactly the tasks that list a key, in input order |
| `Kahn.CompleteWave` | src/workflow/dag.js:147-155 | The next wave is exactly the tasks whose last missing dependency was in this wave, sorted by the position of that dependency and then by input |
| `Kahn.LevelIsLongestChain` | src/workflow/dag.js:140-157 | A task of level l ends a chain of l + 1 tasks, and none longer |
| `Kahn.LevelsAreCriticalPath` | src/workflow/dag.js:120-122 | As many levels as tasks on the longest chain |
| `CycleSearch.Search.Visit` | src/workflow/dag.js:190-206 | Either a genuine cycle of the path walked back into, or everything reachable is finished and the path is as before |
| `CycleSearch.FindCycle` | src/workflow/dag.js:182-216 | Called with tasks that each wait for another candidate it returns a simple cycle, and never reaches its fallback |
| `CycleSearch.BlockedNeverFinish` | src/workflow/dag.js:214-215 | Tasks that each wait for another of them cannot all be finished: why the fallback is unreachable |
| `Graphs.TopologicalMeansAcyclic` | src/workflow/dag.js:108-117 | A graph with a topological order has no cycle |
| `Graphs.SomeSource` | src/workflow/dag.js:158-160 | In an acyclic graph every non-empty set of tasks has one that depends on none of the others |
| `Graphs.ChildKeysAreEdges` | src/workflow/engine.js:357-361 | A key is in a children list exactly if it lists the parent |
| `QueueTheorems.AlwaysValid` | src/queues/taskQueue.js:9-13 | Every sequence of scripts keeps the ready list, leases and delayed set duplicate-free and disjoint, with union exactly `members` |
| `QueueTheorems.Conservation` | src/queues/taskQueue.js:26-95 | Additions minus removals is the change of |members|: ids are neither made up nor lost |
| `QueueTheorems.LeavesOnlyByAck` | src/queues/taskQueue.js:86-95 | An id leaves the queue only by an ack that found it leased |
| `QueueTheorems.NotBeforeDue` | src/queues/taskQueue.js:40-56 | An id accepted with a delay is claimed by nobody before it is due, whatever is called meanwhile |
| `QueueTheorems.FirstInFirstOut` | src/queues/taskQueue.js:58-68 | The id at position p of the ready list is what the claim after exactly p others takes |
| `QueueTheorems.OwnLease` | src/queues/taskQueue.js:96-110 | The lease found later is the one given exactly if no ack, reschedule or reap past its deadline released it; so nobody else is given the id before that |
| `QueueTheorems.AckRemovesExactly` | src/queues/taskQueue.js:86-95 | An ack by a worker removes its own lease exactly if its claim was never released, another's exactly if the claim never released is a later one, and otherwise nothing |
| `QueueTheorems.InTimeKeepsTheLease` | src/queues/taskQueue.js:58-80 | While the clock is before the deadline last set and nobody acknowledged or rescheduled the id, the lease is the claimer's own with that deadline, and nobody else is given the id |
| `QueueTheorems.AckInTime` | src/queues/taskQueue.js:82-95 | So an ack in time removes the caller's own lease |
| `QueueTheorems.EveryMemberIsDelivered` | src/queues/taskQueue.js:96-127 | No member is stuck: after some time runs of the reaper and the promoter with any positive limit, and enough claims, hand any id of the queue to a worker |
| `QueueTheorems.AllReady` | src/queues/taskQueue.js:96-127 | Once all leases and delays are over, as many sweeps with any positive limit as there are ids leased or delayed leave every member ready |
| `QueueScripts.PromotesEarliest` | src/queues/taskQueue.js:115-126 | The promoter moves the earliest min(limit, number due) delayed entries, all due, in order to the end of the ready list, and changes nothing else |
| `QueueScripts.RequeuesEarliest` | src/queues/taskQueue.js:99-110 | The reaper does so with the leases whose deadline has passed |
| `SortedSets.CountUpToDue` | src/queues/taskQueue.js:103-103 | The range query without a limit returns as many entries as there are due ones |
| `QueueTheorems.AckMayTakeAnothersLease` | src/queues/taskQueue.js:82-95 | The comment says an ack works only while the caller holds the lease; the script cannot know: a late ack removes the lease of the worker that took over |
| `SortedSets.AddKeeps` | src/queues/taskQueue.js:52-52 | ZADD keeps order and distinctness, sets the score of its member and touches no other |
| `SortedSets.DueAreEarliest` | src/queues/taskQueue.js:103-103 | The range query takes due entries only, the earliest, and all of them unless the limit stops it |
| `TaskQueue.Queue.Enqueue` | src/queues/taskQueue.js:30-38 | Added exactly if the id was nowhere in the queue |
| `TaskQueue.Queue.EnqueueDelayed` | src/queues/taskQueue.js:45-56 | Moves a leased id, adds a new one, and otherwise does nothing; the id is a member and not leased afterwards |
| `TaskQueue.Queue.Claim` | src/queues/taskQueue.js:60-68 | Pops the first ready id and leases it in one step |
| `TaskQueue.Queue.ExtendLease` | src/queues/taskQueue.js:71-80 | Moves the deadline exactly if the id is leased |
| `TaskQueue.Queue.Ack` | src/queues/taskQueue.js:86-95 | Forgets the id exactly if it is leased |
| `TaskQueue.Queue.RequeueExpired` | src/queues/taskQueue.js:99-110 | The loop moves the earliest min(limit, number due) leases, all past their deadline, in order to the end of the ready list; everything else stays |
| `TaskQueue.Queue.PromoteDue` | src/queues/taskQueue.js:115-126 | The loop moves the earliest min(limit, number due) delayed ids, all due, in order to the end of the ready list; everything else stays |
| `RateLimiter.Limiter.SlidingWindow` | src/middleware/rateLimit.js:18-31 | The script's answer and new state |
| `RateLimiter.Limiter.Check` | src/middleware/rateLimit.js:47-69 | Open or closed when Redis is down; every caller learns what is left, none if refused, and a refused one the smallest whole number of seconds, at least one, that covers the retry time |
| `RateLimiter.ExpiryIsHarmless` | src/middleware/rateLimit.js:27-27 | The key expiry forgets nothing that still counts |
| `RateLimiter.ScriptKeeps` | src/middleware/rateLimit.js:18-31 | What the set holds after each script |
| `SlidingWindow.CountIsExactIffFresh` | src/middleware/rateLimit.js:23-26 | The limiter counts right if and only if no two admitted requests of the window presented the same time and tag; otherwise too few |
| `SlidingWindow.BoundHoldsIffFresh` | src/middleware/rateLimit.js:10-13 | However many newcomers follow at the same moment, the window stays within the limit if and only if the requests admitted in it so far are all different in time or tag |
| `SlidingWindow.RemainingIsExact` | src/middleware/rateLimit.js:28-31 | With fresh tags a request learns exactly how many more its window has room for, and a refused one that this is none |
| `SlidingWindow.NeverMoreThanTheLimit` | src/middleware/rateLimit.js:10-13 | With fresh tags and a non-decreasing clock no window, wherever it ends, has more admitted requests than the limit |
| `SlidingWindow.SharedTagsBreakTheBound` | src/middleware/rateLimit.js:33-54 | Two processes with one process id can present one tag in one millisecond; then three requests pass a limit of two |
| `SlidingWindow.RetryTimeIsExact` | src/middleware/rateLimit.js:30-31 | After a refusal nobody is admitted before the returned time, and the first request at or after it is |
| `Calculator.AnswersExactly` | src/ai/agent/calculator.js:9-15 | The calculator answers v if and only if the input has at most 200 characters and derives an expression whose finite value rounds to v |
| `Calculator.ExprComplete` | src/ai/agent/calculator.js:77-87 | Whatever derives an expression is read as that expression, up to what follows it |
| `Calculator.TermReached` | src/ai/agent/calculator.js:65-76 | The term loop reads the left-associative tree |
| `Calculator.FactorComplete` | src/ai/agent/calculator.js:54-64 | `^` is right-associative over unary operands |
| `Calculator.UnaryComplete` | src/ai/agent/calculator.js:46-53 | Unary minus applies to the unary after it, tighter than `^` |
| `Calculator.PrimaryComplete` | src/ai/agent/calculator.js:34-45 | Numbers and parentheses, with spaces before each token |
| `Calculator.ExprSound` | src/ai/agent/calculator.js:77-87 | What is read as a value derives an expression with that value |
| `Calculator.ExprAllowed` | src/ai/agent/calculator.js:19-19 | A derivation uses only characters that the first check lets through |
| `Calculator.Unambiguous` | src/ai/agent/calculator.js:9-15 | An input has one tree and so one value |
| `Parsing.NumberLengthOf` | src/ai/agent/calculator.js:27-33 | The greedy number read is the number written |
| `Evaluator.EvaluateArithmetic` | src/ai/agent/calculator.js:16-94 | The cursor-based evaluator answers exactly what the grammar says, and otherwise throws |
| `Evaluator.Cursor.Term` | src/ai/agent/calculator.js:65-76 | The loop accumulates what the reading function returns, and the cursor stands at the text left |
| `Evaluator.Cursor.Expr` | src/ai/agent/calculator.js:77-87 | Likewise; the mutual recursion terminates |
| `Evaluator.Cursor.Factor` | src/ai/agent/calculator.js:54-64 | Likewise |
| `Evaluator.Cursor.Unary` | src/ai/agent/calculator.js:46-53 | Likewise |
| `Evaluator.Cursor.Primary` | src/ai/agent/calculator.js:34-45 | Likewise |
| `Evaluator.Cursor.Number` | src/ai/agent/calculator.js:27-33 | Likewise |
| `CanonicalJson.CanonicalIffSame` | src/services/execution.service.js:8-17 | Two JSON values print the same text if and only if they are equal up to the order of object keys at every depth |
| `JsonReader.TextReadsBack` | src/services/execution.service.js:8-17 | The canonical text of a value reads back, by an independent reader of JSON, as the same value up to key order, with keys in ascending order at every depth |
| `JsonReader.ReadsBack` | src/services/execution.service.js:8-17 | And so it does inside any larger text, whatever separator or end follows |
| `CanonicalJson.CanonicalPasses` | src/services/execution.service.js:8-17 | A reader finds the end of every printed value, whatever follows it |
| `CanonicalJson.SortSorts` | src/services/execution.service.js:12-12 | Sorting orders distinct keys by UTF-16 code units |
| `CanonicalJson.OneSorting` | src/services/execution.service.js:12-12 | A set of properties has one sorted listing |
| `JsonText.UnescapeEscape` | src/services/execution.service.js:13-16 | Escaping a string loses nothing (section 7 of RFC 8259; unpaired surrogates escaped too) |
| `JsonText.QuoteInjective` | src/services/execution.service.js:13-16 | A printed string determines the string and where it ends |
| `Idempotency.TextIffSameRequest` | src/services/execution.service.js:38-40 | Two requests are hashed from one text if and only if they name one workflow and their inputs agree up to key order |
| `Idempotency.ExecutionService.Run` | src/services/execution.service.js:34-67 | New run, replay, 404, invalid graph or 422, exactly as decided from the stored runs; at most one document is added |
| `Idempotency.AtMostOneRunPerKey` | src/models/workflowExecution.model.js:69-74 | However requests are repeated, at most one run carries a user's key |
| `Idempotency.RetryReplays` | src/services/execution.service.js:34-67 | A later request under the key of a started run replays it if and only if the workflow is still found and valid and it is the same request; otherwise 404, the graph error or 422, by the first that fails; nothing is ever started |
| `Idempotency.RetryMayNotReplay` | src/services/execution.service.js:34-36 | A request that started a run, repeated when its user does not find the workflow any more, is answered 404 |
| `Outbox.Relay.RelayOnce` | src/events/relay.js:19-42 | The oldest unmarked rows by `_id` are sent in that order and then marked; a fault leaves rows unmarked that were sent, never the other way round |
| `Outbox.Relay.Drain` | src/events/relay.js:72-75 | After one tick with any faults, all full batches before the first fault are marked and sent; without a fault nothing is left or twenty batches fewer |
| `Outbox.Processor.Process` | src/events/analyticsProcessor.js:20-31 | Applied exactly for an event not seen before; marker and count change together or not at all |
| `Pipeline.AlwaysInv` | src/events/relay.js:19-42 | In every interleaving of commits, relays that die anywhere and deliveries: marked rows are in the topic, and each counter is the number of distinct events processed |
| `Pipeline.CountsNeverExceedTheLog` | src/events/analyticsProcessor.js:9-14 | Each counter is the number of distinct events processed of its type and day, and at most the number in the outbox |
| `Pipeline.MarkedMeansSent` | src/events/relay.js:6-8 | No marked row was lost on the way |
| `Pipeline.DrainedCountsAreTheLog` | src/events/analyticsProcessor.js:9-14 | Once all rows are marked and all messages delivered, the counters are exactly the outbox, however often anything was sent |
| `Pipeline.CountersTellTasks` | src/workflow/engine.js:164-217 | End to end: then a run's task.completed, task.failed and task.dead_lettered counters add up to the numbers of its tasks in those statuses |
| `Pipeline.CountersTellEnd` | src/workflow/engine.js:153-204 | And its execution.completed, execution.failed and execution.cancelled counters to one or zero: whether it ended so |

## Left out

- Other runs: the documents are those of one run. Runs share no documents, so the sweeps of the reconciler and the relay's batches are those of one run.
- Attempt records (TaskExecution), the `task.started` row, `leaseOwner`, error texts, payloads and timestamps that are only displayed.
- `computeBackoff` and `isRetryable` (src/workers/retry.js): the delay and the verdict are parameters of failTask.
- The polling loop with its capped backoff, the maintenance and heartbeat timers, graceful stop, and the worker registry; abort signals and `withTimeout`. A worker is one `ProcessTask` at a time.
- Requests per key: `RateLimiter` models one Redis key; keys are independent. Response headers beyond RateLimit-Remaining and Retry-After are not modelled.
- Engine.Engine.Reconcile: one uninterrupted reconcile; concurrent ones are covered by the steps of `System`, which do not include the queue. Sweeps report through `full` whether one stopped at its limit. Of the counts it answers, which are only logged, nothing is claimed.
- Worker.QueueWorker.ProcessTask: Redis is either up or down during one call, nobody else acts during it, and the worker's death is a parameter; what others do meanwhile is covered by the steps of `System`.
- Engine.Engine.ResolveApproval: the output of an approved task is the word `approved`; who decided, the comment and the time that the code stores with it are not modelled.
- ValidateDag.Validate: which structural errors are reported, not how often nor in which order; messages are not modelled.
- Idempotency.RetryReplays: the digest is any function that tells the two texts apart; collisions of SHA-256 are not modelled, and neither are `undefined`, dates or other values that JSON requests cannot carry.
- Calculator.AnswersExactly: `toPrecision(15)`, floating-point rounding and the arithmetic itself are operations of an arbitrary number type.
- Leadership of the relay (src/queues/lock.js): any number of relays may run at any time, so nothing rests on it. Order of events within a Kafka partition is not claimed: `_id` order need not be commit order.
- Time-to-live clean-up of outbox rows and dedupe markers; a message delivered after its marker expired would be counted again.
- Pause, resume and cancel through `control` in the execution service, with its 409 answer.
- HTTP routes, schemas, authentication, configuration, logging, LLM providers, the agent loop, RAG, the circuit breaker, the scheduler and the distributed lock.
