/** The engine's calls with what they do after their transaction commits (src/workflow/engine.js). */
module Calls {
  import opened Graphs
  import opened States
  import opened Options
  import opened Documents
  import opened Transactions

  function Dispatched(now: int): Task -> Task {
    (t: Task) => if t.status == T.READY then t.(status := T.QUEUED, queuedAt := Some(now)) else t
  }

  /** READY -> QUEUED for every READY task, if the run is RUNNING. */
  function DispatchReady(s: Run, now: int): Run {
    if s.exec.status == E.RUNNING then s.(tasks := MapTasks(Dispatched(now), s.tasks)) else s
  }

  /** startTask: a claim past the last attempt is failed at once, not handed out. */
  function StartTask(s: Run, k: nat, now: int, leaseMs: int, delayMs: int): Run {
    var c := Claim(s, k, now, leaseMs);
    if Claimable(s, k, now) && c.tasks[k].attempt > c.tasks[k].def.maxAttempts
    then Fail(c, k, c.tasks[k].leaseToken, true, delayMs, now) else c
  }

  predicate HandsOut(s: Run, k: nat, now: int) {
    Claimable(s, k, now) && s.tasks[k].attempt < s.tasks[k].def.maxAttempts
  }

  /** What a worker is given: the token to report with, and the outputs of the parents. */
  datatype Work = Work(token: int, parents: map<Key, Option<Output>>)

  /** What failTask answers. */
  function FailOutcome(s: Run, k: nat, token: int, retryable: bool): Option<T> {
    if !Holds(s, k, token) then None
    else if WillRetry(s, k, retryable) then Some(T.RETRYING)
    else if retryable && s.tasks[k].attempt >= s.tasks[k].def.maxAttempts then Some(T.DEAD_LETTER)
    else Some(T.FAILED)
  }

  predicate Older(at: Option<int>, cutoff: int) {
    at.Some? && at.value < cutoff
  }

  /** What the reconciler looks for in one task. */
  predicate Stuck(t: Task, cutoff: int, now: int) {
    || (t.status == T.READY && Older(t.readyAt, cutoff))
    || (t.status == T.QUEUED && Older(t.queuedAt, cutoff))
    || (t.status == T.RUNNING && LeaseExpired(t, now))
    || (t.status == T.RETRYING && Older(t.retryAt, cutoff))
  }

  /** A task that no worker may be working on although the run wants it done. */
  predicate NeedsQueue(s: Run, k: nat, cutoff: int, now: int) {
    && k < |s.tasks| && Stuck(s.tasks[k], cutoff, now)
    && (s.tasks[k].status == T.READY ==> s.exec.status == E.RUNNING)
  }

  /** What the reconciler reports: tasks dispatched, enqueued per sweep, and approvals expired. */
  datatype Counts = Counts(ready: nat, queued: nat, running: nat, retrying: nat, expiredApprovals: nat)
}
