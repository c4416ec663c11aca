/** The documents of one run: its execution, its tasks, their approval requests and the outbox log. */
module Documents {
  import opened Graphs
  import opened States
  import opened Options

  type Output = string

  datatype Execution = Execution(status: E, pendingTasks: int)

  /** A task document. Its id is its position in `Run.tasks`; `def` and `dependents` never change. */
  datatype Task = Task(
    def: TaskDef,
    dependents: seq<Key>,
    status: T,
    remainingDeps: int,
    attempt: int,
    leaseToken: int,
    leaseExpiresAt: Option<int>,
    readyAt: Option<int>,
    queuedAt: Option<int>,
    retryAt: Option<int>,
    output: Option<Output>
  )

  datatype Decision = APPROVED | REJECTED | EXPIRED

  /** The approval request of a task; `taskId` is unique among requests, so there is one slot per task. */
  datatype Approval = NONE | REQUESTED(expiresAt: int) | DECIDED(decision: Decision) | WITHDRAWN

  datatype Event =
    | ExecutionStarted
    | ExecutionPaused
    | ExecutionResumed
    | ExecutionCompleted
    | ExecutionFailed
    | ExecutionCancelled
    | TaskCompleted(task: nat)
    | TaskFailed(task: nat)
    | TaskDeadLettered(task: nat)
    | TaskRetrying(task: nat, attempt: int)
    | ApprovalRequested(task: nat)
    | ApprovalDecided(task: nat, decision: Decision)

  datatype Run = Run(exec: Execution, tasks: seq<Task>, approvals: seq<Approval>, outbox: seq<Event>)

  /** How often an event is in the log. */
  function Count(log: seq<Event>, e: Event): nat {
    multiset(log)[e]
  }

  ghost predicate SameShape(a: Run, b: Run) {
    |a.tasks| == |b.tasks| && |a.approvals| == |b.approvals|
  }
}
