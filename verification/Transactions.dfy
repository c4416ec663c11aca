/**
 * The engine's calls as functions on the documents of one run
 * (src/workflow/engine.js, src/repositories/task.repository.js).
 * A call whose guard fails returns the run unchanged.
 */
module Transactions {
  import opened Graphs
  import opened States
  import opened Options
  import opened Documents
  import opened Sums

  // ---------------------------------------------------------------- single documents

  /** The task is where a compare-and-set from `from` expects it. */
  predicate At(s: Run, k: nat, from: T) {
    k < |s.tasks| && s.tasks[k].status == from
  }

  /** The fenced guard of every report: RUNNING under this very token. */
  predicate Holds(s: Run, k: nat, token: int) {
    At(s, k, T.RUNNING) && s.tasks[k].leaseToken == token
  }

  function Put(s: Run, k: nat, t: Task): Run
    requires k < |s.tasks|
  {
    s.(tasks := s.tasks[k := t])
  }

  function Emit(s: Run, e: Event): Run {
    s.(outbox := s.outbox + [e])
  }

  /** READY -> QUEUED. */
  function Dispatch(s: Run, k: nat, now: int): Run {
    if At(s, k, T.READY) then Put(s, k, s.tasks[k].(status := T.QUEUED, queuedAt := Some(now))) else s
  }

  /** The lease deadline lies before `now`; a missing deadline sorts before every date. */
  predicate LeaseExpired(t: Task, now: int) {
    t.leaseExpiresAt.None? || t.leaseExpiresAt.value < now
  }

  /** QUEUED, RETRYING, or RUNNING under a lease that has run out. */
  predicate Claimable(s: Run, k: nat, now: int) {
    && k < |s.tasks|
    && (|| s.tasks[k].status == T.QUEUED
        || s.tasks[k].status == T.RETRYING
        || (s.tasks[k].status == T.RUNNING && LeaseExpired(s.tasks[k], now)))
  }

  function Claim(s: Run, k: nat, now: int, leaseMs: int): Run {
    if Claimable(s, k, now) then
      var t := s.tasks[k];
      Put(s, k, t.(status := T.RUNNING, attempt := t.attempt + 1, leaseToken := t.leaseToken + 1,
                   leaseExpiresAt := Some(now + leaseMs)))
    else s
  }

  function Renew(s: Run, k: nat, token: int, now: int, leaseMs: int): Run {
    if Holds(s, k, token) then Put(s, k, s.tasks[k].(leaseExpiresAt := Some(now + leaseMs))) else s
  }

  // ---------------------------------------------------------------- updates of many tasks

  function MapTasks(f: Task -> Task, tasks: seq<Task>): (r: seq<Task>)
    ensures |r| == |tasks|
    ensures forall i :: 0 <= i < |tasks| ==> r[i] == f(tasks[i])
  {
    seq(|tasks|, i requires 0 <= i < |tasks| => f(tasks[i]))
  }

  /** remainingDeps - 1 for the tasks that list a completed one. */
  function Decremented(keys: seq<Key>): Task -> Task {
    (t: Task) => if t.def.key in keys then t.(remainingDeps := t.remainingDeps - 1) else t
  }

  /** PENDING tasks among `keys` that wait for nothing any more become READY. */
  function Promoted(keys: seq<Key>, now: int): Task -> Task {
    (t: Task) =>
      if t.def.key in keys && t.status == T.PENDING && t.remainingDeps == 0
      then t.(status := T.READY, readyAt := Some(now)) else t
  }

  function PromotedAll(now: int): Task -> Task {
    (t: Task) =>
      if t.status == T.PENDING && t.remainingDeps == 0 then t.(status := T.READY, readyAt := Some(now)) else t
  }

  /** What fail-fast cancels: tasks no worker and no human holds. */
  predicate Unstarted(st: T) {
    st in {T.PENDING, T.READY, T.QUEUED, T.RETRYING}
  }

  function FailedFast(): Task -> Task {
    (t: Task) => if Unstarted(t.status) then t.(status := T.CANCELLED) else t
  }

  function CancelledAll(): Task -> Task {
    (t: Task) => if Finished(t.status) then t else t.(status := T.CANCELLED, leaseExpiresAt := None)
  }

  /** One for each task that fail-fast cancels. */
  function UnstartedWeight(): (int, Task) -> int {
    (_: int, t: Task) => if Unstarted(t.status) then 1 else 0
  }

  /** One for each task that is not finished. */
  function UnfinishedWeight(): (int, Task) -> int {
    (_: int, t: Task) => if Finished(t.status) then 0 else 1
  }

  function Withdrawn(approvals: seq<Approval>): (r: seq<Approval>)
    ensures |r| == |approvals|
  {
    seq(|approvals|, i requires 0 <= i < |approvals| => if approvals[i].REQUESTED? then WITHDRAWN else approvals[i])
  }

  // ---------------------------------------------------------------- what follows a finished task

  function ChildrenTold(s: Run, keys: seq<Key>, now: int): Run {
    if !Live(s.exec.status) then s
    else
      var told := MapTasks(Decremented(keys), s.tasks);
      s.(tasks := if s.exec.status == E.RUNNING then MapTasks(Promoted(keys, now), told) else told)
  }

  function CompletedIfDone(s: Run): Run {
    if s.exec.status == E.RUNNING && s.exec.pendingTasks == 0
    then Emit(s.(exec := s.exec.(status := E.COMPLETED)), ExecutionCompleted)
    else s
  }

  function OneLessPending(s: Run): Run {
    s.(exec := s.exec.(pendingTasks := s.exec.pendingTasks - 1))
  }

  function AfterTaskSucceeded(s: Run, k: nat, now: int): Run
    requires k < |s.tasks|
  {
    Emit(CompletedIfDone(ChildrenTold(OneLessPending(s), s.tasks[k].dependents, now)), TaskCompleted(k))
  }

  function FailFast(s: Run): Run {
    if !Live(s.exec.status) then s
    else
      var cancelled := Sum(UnstartedWeight(), s.tasks);
      Emit(s.(tasks := MapTasks(FailedFast(), s.tasks),
              exec := Execution(E.FAILED, s.exec.pendingTasks - cancelled)), ExecutionFailed)
  }

  function AfterTaskFailedForGood(s: Run, k: nat, deadLettered: bool): Run {
    Emit(FailFast(OneLessPending(s)), if deadLettered then TaskDeadLettered(k) else TaskFailed(k))
  }

  // ---------------------------------------------------------------- transactions

  datatype Txn =
    | CompleteTask(task: nat, token: int, result: Output, now: int)
    | FailTask(task: nat, token: int, retryable: bool, delayMs: int, now: int)
    | SuspendForApproval(task: nat, token: int, timeoutMs: int, now: int)
    | ResolveApproval(task: nat, decision: Decision, now: int)
    | PauseExecution
    | ResumeExecution(now: int)
    | CancelExecution

  function Complete(s: Run, k: nat, token: int, output: Output, now: int): Run {
    if !Holds(s, k, token) then s
    else
      AfterTaskSucceeded(
        Put(s, k, s.tasks[k].(status := T.COMPLETED, output := Some(output), leaseExpiresAt := None)), k, now)
  }

  /** A transient error, attempts left, and a run that is still going. */
  predicate WillRetry(s: Run, k: nat, retryable: bool)
    requires k < |s.tasks|
  {
    retryable && s.tasks[k].attempt < s.tasks[k].def.maxAttempts && Live(s.exec.status)
  }

  function Fail(s: Run, k: nat, token: int, retryable: bool, delayMs: int, now: int): Run {
    if !Holds(s, k, token) then s
    else
      var t := s.tasks[k];
      if WillRetry(s, k, retryable) then
        Emit(Put(s, k, t.(status := T.RETRYING, leaseExpiresAt := None, retryAt := Some(now + delayMs))),
             TaskRetrying(k, t.attempt))
      else
        var dead := retryable && t.attempt >= t.def.maxAttempts;
        AfterTaskFailedForGood(
          Put(s, k, t.(status := if dead then T.DEAD_LETTER else T.FAILED, leaseExpiresAt := None)), k, dead)
  }

  /** The unique index on `taskId` refuses a second request for the same task. */
  predicate DuplicateRequest(s: Run, k: nat, token: int) {
    Holds(s, k, token) && k < |s.approvals| && s.approvals[k] != NONE
  }

  function Suspend(s: Run, k: nat, token: int, timeoutMs: int, now: int): Run {
    if !Holds(s, k, token) || k >= |s.approvals| || DuplicateRequest(s, k, token) then s
    else
      var s1 := Put(s, k, s.tasks[k].(status := T.WAITING_FOR_APPROVAL, leaseExpiresAt := None));
      Emit(s1.(approvals := s1.approvals[k := REQUESTED(now + timeoutMs)]), ApprovalRequested(k))
  }

  /** The decision won the request but the task is no longer waiting: the call throws and its transaction aborts. */
  predicate NotActionable(s: Run, k: nat) {
    k < |s.approvals| && s.approvals[k].REQUESTED? && !At(s, k, T.WAITING_FOR_APPROVAL)
  }

  function Resolve(s: Run, k: nat, decision: Decision, now: int): Run {
    if k >= |s.approvals| || !s.approvals[k].REQUESTED? || NotActionable(s, k) then s
    else
      var s1 := s.(approvals := s.approvals[k := DECIDED(decision)]);
      var t := s1.tasks[k];
      var s2 :=
        if decision == APPROVED then
          AfterTaskSucceeded(Put(s1, k, t.(status := T.COMPLETED, output := Some("approved"))), k, now)
        else
          AfterTaskFailedForGood(Put(s1, k, t.(status := T.FAILED)), k, false);
      Emit(s2, ApprovalDecided(k, decision))
  }

  function Pause(s: Run): Run {
    if s.exec.status != E.RUNNING then s
    else Emit(s.(exec := s.exec.(status := E.PAUSED)), ExecutionPaused)
  }

  function Resume(s: Run, now: int): Run {
    if s.exec.status != E.PAUSED then s
    else
      var s1 := Emit(s.(exec := s.exec.(status := E.RUNNING)), ExecutionResumed);
      CompletedIfDone(s1.(tasks := MapTasks(PromotedAll(now), s1.tasks)))
  }

  function Cancel(s: Run): Run {
    if !Live(s.exec.status) then s
    else
      var cancelled := Sum(UnfinishedWeight(), s.tasks);
      Emit(s.(tasks := MapTasks(CancelledAll(), s.tasks), approvals := Withdrawn(s.approvals),
              exec := Execution(E.CANCELLED, s.exec.pendingTasks - cancelled)), ExecutionCancelled)
  }

  function Apply(tx: Txn, s: Run): Run {
    match tx
    case CompleteTask(k, token, output, now) => Complete(s, k, token, output, now)
    case FailTask(k, token, retryable, delayMs, now) => Fail(s, k, token, retryable, delayMs, now)
    case SuspendForApproval(k, token, timeoutMs, now) => Suspend(s, k, token, timeoutMs, now)
    case ResolveApproval(k, decision, now) => Resolve(s, k, decision, now)
    case PauseExecution => Pause(s)
    case ResumeExecution(now) => Resume(s, now)
    case CancelExecution => Cancel(s)
  }

  // ---------------------------------------------------------------- start

  function NewTask(defs: seq<TaskDef>, i: nat, now: int): Task
    requires i < |defs|
  {
    var def := defs[i];
    var isRoot := def.dependsOn == [];
    Task(def, ChildKeys(defs, def.key), if isRoot then T.READY else T.PENDING, |def.dependsOn|,
         0, 0, None, if isRoot then Some(now) else None, None, None, None)
  }

  /** The documents a run starts with, created in one transaction. */
  function Started(defs: seq<TaskDef>, now: int): Run {
    Run(Execution(E.RUNNING, |defs|), seq(|defs|, i requires 0 <= i < |defs| => NewTask(defs, i, now)),
        seq(|defs|, _ => NONE), [ExecutionStarted])
  }
}
