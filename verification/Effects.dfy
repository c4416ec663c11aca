/** What a caller of the engine finds in the documents afterwards, said of the documents alone (src/workflow/engine.js). */
module Effects {
  import opened Graphs
  import opened States
  import opened Options
  import opened Documents
  import opened Invariant
  import Tx = Transactions
  import Calls
  import opened SortedSets

  // ---------------------------------------------------------------- starting and dispatching

  /** A task of a run that has just been started: roots are on their way to a worker, the others wait. */
  ghost predicate NewDocument(def: TaskDef, t: Task, now: int) {
    && t.def == def && t.remainingDeps == |def.dependsOn|
    && t.attempt == 0 && t.leaseToken == 0 && t.leaseExpiresAt == None && t.output == None && t.retryAt == None
    && (if def.dependsOn == [] then t.status == T.QUEUED && t.readyAt == Some(now) && t.queuedAt == Some(now)
        else t.status == T.PENDING && t.readyAt == None && t.queuedAt == None)
  }

  ghost predicate JustStarted(defs: seq<TaskDef>, b: Run, now: int) {
    && b.exec == Execution(E.RUNNING, |defs|) && b.outbox == [ExecutionStarted]
    && |b.tasks| == |b.approvals| == |defs|
    && forall i :: 0 <= i < |defs| ==> NewDocument(defs[i], b.tasks[i], now) && b.approvals[i] == NONE
  }

  /** A READY task is QUEUED afterwards, and any other is as before. */
  ghost predicate DispatchedFrom(t: Task, t': Task, now: int) {
    t' == if t.status == T.READY then t.(status := T.QUEUED, queuedAt := Some(now)) else t
  }

  /** The ids of the tasks that are QUEUED in `b` but were not in `a`. */
  ghost function NewlyQueued(a: seq<Task>, b: seq<Task>, ids: seq<Id>): set<Id> {
    set i | 0 <= i < |ids| && i < |b| && b[i].status == T.QUEUED && !(i < |a| && a[i].status == T.QUEUED) :: ids[i]
  }

  /** Task `k` was handed to a worker: a new attempt under a new token, with a lease until `deadline`; nothing else changes. */
  ghost predicate HandedOut(a: Run, b: Run, k: nat, deadline: int) {
    && k < |a.tasks|
    && var t := a.tasks[k];
      b == a.(tasks := a.tasks[k := t.(status := T.RUNNING, attempt := t.attempt + 1, leaseToken := t.leaseToken + 1,
                                       leaseExpiresAt := Some(deadline))])
  }

  // ---------------------------------------------------------------- a task succeeds

  /** The task listed `done`, which completed, and waits for nothing any more. */
  ghost predicate Released(done: Key, was: E, t: Task) {
    was == E.RUNNING && done in t.def.dependsOn && t.status == T.PENDING && t.remainingDeps == 1
  }

  /** A bystander of the completion of `done`: it waits for one task less, and goes to a worker if that was the last. */
  ghost predicate ToldFrom(done: Key, was: E, next: E, t: Task, t': Task, now: int) {
    var ready := t.status == T.READY || Released(done, was, t);
    t' == t.(
      remainingDeps := if was in {E.RUNNING, E.PAUSED} && done in t.def.dependsOn then t.remainingDeps - 1 else t.remainingDeps,
      readyAt := if Released(done, was, t) then Some(now) else t.readyAt,
      status := if ready then (if next == E.RUNNING then T.QUEUED else T.READY) else t.status,
      queuedAt := if ready && next == E.RUNNING then Some(now) else t.queuedAt)
  }

  /** Task `k` succeeded: what became of the run and of all other tasks. */
  ghost predicate Succeeded(a: Run, b: Run, k: nat, now: int) {
    && k < |a.tasks| == |b.tasks|
    && b.exec.pendingTasks == a.exec.pendingTasks - 1
    && b.exec.status == (if a.exec.status == E.RUNNING && b.exec.pendingTasks == 0 then E.COMPLETED else a.exec.status)
    && forall i :: 0 <= i < |a.tasks| && i != k ==>
      ToldFrom(a.tasks[k].def.key, a.exec.status, b.exec.status, a.tasks[i], b.tasks[i], now)
  }

  // ---------------------------------------------------------------- a task fails for good

  /** A bystander of a final failure: fail-fast cancels what no worker and no human holds. */
  ghost predicate StoppedFrom(was: E, t: Task, t': Task) {
    t' == if was in {E.RUNNING, E.PAUSED} && t.status in {T.PENDING, T.READY, T.QUEUED, T.RETRYING}
          then t.(status := T.CANCELLED) else t
  }

  /** Task `k` failed for good: what became of the run and of all other tasks. */
  ghost predicate Failed(a: Run, b: Run, k: nat) {
    && k < |a.tasks| == |b.tasks|
    && b.exec.status == (if a.exec.status in {E.RUNNING, E.PAUSED} then E.FAILED else a.exec.status)
    && forall i :: 0 <= i < |a.tasks| && i != k ==> StoppedFrom(a.exec.status, a.tasks[i], b.tasks[i])
  }

  /**
   * The holder of task `k` reported a failure. It is retried, and nothing else changes,
   * exactly if the error is transient, attempts are left and the run is live; without
   * attempts left it is parked; otherwise it has failed.
   */
  ghost predicate FailureReported(a: Run, b: Run, k: nat, retryable: bool, retryAt: int) {
    && k < |a.tasks| == |b.tasks|
    && var t := a.tasks[k];
      if retryable && t.attempt < t.def.maxAttempts && a.exec.status in {E.RUNNING, E.PAUSED} then
        b == a.(tasks := a.tasks[k := t.(status := T.RETRYING, leaseExpiresAt := None, retryAt := Some(retryAt))],
                outbox := a.outbox + [TaskRetrying(k, t.attempt)])
      else
        && Failed(a, b, k) && b.approvals == a.approvals
        && b.tasks[k] == t.(status := if retryable && t.attempt >= t.def.maxAttempts then T.DEAD_LETTER else T.FAILED,
                            leaseExpiresAt := None)
  }

  // ---------------------------------------------------------------- approvals

  /** The request of task `k` was decided. */
  ghost predicate Decided(a: Run, b: Run, k: nat, decision: Decision, now: int) {
    && k < |a.tasks| == |b.tasks| && k < |a.approvals| && b.approvals == a.approvals[k := DECIDED(decision)]
    && (if decision == APPROVED then
          Succeeded(a, b, k, now) && b.tasks[k] == a.tasks[k].(status := T.COMPLETED, output := Some("approved"))
        else
          Failed(a, b, k) && b.tasks[k] == a.tasks[k].(status := T.FAILED))
  }

  /** No request is pending past its deadline. */
  ghost predicate NoneOverdue(approvals: seq<Approval>, now: int) {
    forall k :: 0 <= k < |approvals| ==> !(approvals[k].REQUESTED? && approvals[k].expiresAt < now)
  }

  /** The requests pending past their deadline are EXPIRED (or, if a limit was reached, left); all others are as before. */
  ghost predicate OnlyOverdueExpired(a: seq<Approval>, b: seq<Approval>, now: int, limited: bool) {
    && |a| == |b|
    && forall k :: 0 <= k < |a| ==>
      if a[k].REQUESTED? && a[k].expiresAt < now then b[k] == DECIDED(EXPIRED) || (limited && b[k] == a[k])
      else b[k] == a[k]
  }

  // ---------------------------------------------------------------- resuming and cancelling

  ghost predicate ResumedFrom(next: E, t: Task, t': Task, now: int) {
    var released := t.status == T.PENDING && t.remainingDeps == 0;
    var ready := t.status == T.READY || released;
    t' == t.(
      readyAt := if released then Some(now) else t.readyAt,
      status := if ready then (if next == E.RUNNING then T.QUEUED else T.READY) else t.status,
      queuedAt := if ready && next == E.RUNNING then Some(now) else t.queuedAt)
  }

  /** A PAUSED run goes on: what became ready meanwhile is dispatched, and a run with nothing left is COMPLETED. */
  ghost predicate Resumed(a: Run, b: Run, now: int) {
    && b.approvals == a.approvals && |a.tasks| == |b.tasks|
    && b.exec == Execution(if a.exec.pendingTasks == 0 then E.COMPLETED else E.RUNNING, a.exec.pendingTasks)
    && forall i :: 0 <= i < |a.tasks| ==> ResumedFrom(b.exec.status, a.tasks[i], b.tasks[i], now)
  }

  /** Everything unfinished is cancelled, every pending request is withdrawn, and nothing else changes. */
  ghost predicate Cancelled(a: Run, b: Run) {
    && |a.tasks| == |b.tasks| && |a.approvals| == |b.approvals|
    && b.exec == Execution(E.CANCELLED, 0) && b.outbox == a.outbox + [ExecutionCancelled]
    && (forall i :: 0 <= i < |a.tasks| ==>
      b.tasks[i] == if a.tasks[i].status in {T.COMPLETED, T.FAILED, T.DEAD_LETTER, T.CANCELLED} then a.tasks[i]
                    else a.tasks[i].(status := T.CANCELLED, leaseExpiresAt := None))
    && (forall i :: 0 <= i < |a.approvals| ==>
      b.approvals[i] == if a.approvals[i].REQUESTED? then WITHDRAWN else a.approvals[i])
  }

  // ---------------------------------------------------------------- the calls have these effects

  /** The children list of `k` names exactly the tasks that list `k`, and `k` is not one of them. */
  ghost predicate ChildrenOf(s: Run, k: nat) {
    && k < |s.tasks|
    && (forall i :: 0 <= i < |s.tasks| ==>
      (s.tasks[i].def.key in s.tasks[k].dependents <==> s.tasks[k].def.key in s.tasks[i].def.dependsOn))
    && s.tasks[k].def.key !in s.tasks[k].dependents
  }

  lemma ChildrenKnown(defs: seq<TaskDef>, s: Run, k: nat)
    requires Inv(defs, s) && k < |s.tasks|
    ensures ChildrenOf(s, k) && |s.approvals| == |s.tasks|
  {
    forall i | 0 <= i < |s.tasks|
      ensures s.tasks[i].def.key in s.tasks[k].dependents <==> s.tasks[k].def.key in s.tasks[i].def.dependsOn
    {
      ChildIffListed(defs, s, k, i);
    }
    ChildIffListed(defs, s, k, k);
  }

  lemma StartHas(defs: seq<TaskDef>, now: int)
    ensures JustStarted(defs, Calls.DispatchReady(Tx.Started(defs, now), now), now)
  {
  }

  /** After the success of `k`, the bystanders before and after the dispatch that follows. */
  lemma SuccessHas(s: Run, k: nat, t': Task, now: int)
    requires ChildrenOf(s, k) && t'.status == T.COMPLETED && t'.def == s.tasks[k].def && t'.dependents == s.tasks[k].dependents
    ensures var b := Calls.DispatchReady(Tx.AfterTaskSucceeded(Tx.Put(s, k, t'), k, now), now);
      Succeeded(s, b, k, now) && b.tasks[k] == t' && b.approvals == s.approvals
  {
  }

  lemma CompleteHas(s: Run, k: nat, token: int, output: Output, now: int)
    requires Tx.Holds(s, k, token) && ChildrenOf(s, k)
    ensures var b := Calls.DispatchReady(Tx.Complete(s, k, token, output, now), now);
      && Succeeded(s, b, k, now) && b.approvals == s.approvals
      && b.tasks[k] == s.tasks[k].(status := T.COMPLETED, output := Some(output), leaseExpiresAt := None)
  {
    SuccessHas(s, k, s.tasks[k].(status := T.COMPLETED, output := Some(output), leaseExpiresAt := None), now);
  }

  lemma FailureHas(s: Run, k: nat, t': Task, dead: bool)
    requires k < |s.tasks| && t'.status in {T.FAILED, T.DEAD_LETTER}
    ensures var b := Tx.AfterTaskFailedForGood(Tx.Put(s, k, t'), k, dead);
      Failed(s, b, k) && b.tasks[k] == t' && b.approvals == s.approvals
  {
  }

  lemma FailHas(s: Run, k: nat, token: int, retryable: bool, delayMs: int, now: int)
    requires Tx.Holds(s, k, token)
    ensures FailureReported(s, Tx.Fail(s, k, token, retryable, delayMs, now), k, retryable, now + delayMs)
  {
    if !Tx.WillRetry(s, k, retryable) {
      var t := s.tasks[k];
      var dead := retryable && t.attempt >= t.def.maxAttempts;
      FailureHas(s, k, t.(status := if dead then T.DEAD_LETTER else T.FAILED, leaseExpiresAt := None), dead);
    }
  }

  /** A claim past the last attempt and the failure that follows at once. */
  lemma ExhaustedIsParked(was: Run, a: Run, b: Run, k: nat, deadline: int, retryAt: int)
    requires HandedOut(was, a, k, deadline) && FailureReported(a, b, k, true, retryAt)
    requires a.tasks[k].attempt >= a.tasks[k].def.maxAttempts
    ensures Failed(was, b, k) && b.tasks[k].status == T.DEAD_LETTER
  {
  }

  lemma ApproveHas(s: Run, k: nat, now: int)
    requires ChildrenOf(s, k) && k < |s.approvals| && s.approvals[k].REQUESTED? && s.tasks[k].status == T.WAITING_FOR_APPROVAL
    ensures var b := Calls.DispatchReady(Tx.Resolve(s, k, APPROVED, now), now);
      && Succeeded(s, b, k, now) && b.approvals == s.approvals[k := DECIDED(APPROVED)]
      && b.tasks[k] == s.tasks[k].(status := T.COMPLETED, output := Some("approved"))
  {
    var s1 := s.(approvals := s.approvals[k := DECIDED(APPROVED)]);
    SuccessHas(s1, k, s.tasks[k].(status := T.COMPLETED, output := Some("approved")), now);
  }

  lemma RejectHas(s: Run, k: nat, decision: Decision, now: int)
    requires k < |s.approvals| && s.approvals[k].REQUESTED? && k < |s.tasks| && s.tasks[k].status == T.WAITING_FOR_APPROVAL
    requires decision != APPROVED
    ensures var b := Tx.Resolve(s, k, decision, now);
      && Failed(s, b, k) && b.approvals == s.approvals[k := DECIDED(decision)]
      && b.tasks[k] == s.tasks[k].(status := T.FAILED)
  {
    FailureHas(s.(approvals := s.approvals[k := DECIDED(decision)]), k, s.tasks[k].(status := T.FAILED), false);
  }

  lemma ResumeHas(s: Run, now: int)
    requires s.exec.status == E.PAUSED
    ensures Resumed(s, Calls.DispatchReady(Tx.Resume(s, now), now), now)
  {
  }

  lemma CancelHas(s: Run)
    requires Live(s.exec.status) && PendingExact(s)
    ensures Cancelled(s, Tx.Cancel(s))
  {
  }

  // ---------------------------------------------------------------- tasks dispatched one by one

  /** These tasks have been dispatched, as far as they were READY, and the others are as before. */
  ghost predicate DispatchedAt(a: seq<Task>, b: seq<Task>, taken: seq<nat>, now: int) {
    |a| == |b| && forall k: nat :: k < |a| ==> if k in taken then DispatchedFrom(a[k], b[k], now) else b[k] == a[k]
  }

  lemma NoneDispatched(a: seq<Task>, now: int)
    ensures DispatchedAt(a, a, [], now)
  {
  }

  lemma OneMoreDispatched(a: seq<Task>, b: seq<Task>, c: seq<Task>, taken: seq<nat>, k: nat, now: int, won: bool)
    requires DispatchedAt(a, b, taken, now) && k < |a| && a[k].status == T.READY
    requires won <==> b[k].status == T.READY
    requires c == if won then b[k := b[k].(status := T.QUEUED, queuedAt := Some(now))] else b
    ensures DispatchedAt(a, c, taken + [k], now)
  {
  }

  lemma AllDispatched(a: seq<Task>, b: seq<Task>, taken: seq<nat>, now: int)
    requires DispatchedAt(a, b, taken, now) && forall k: nat :: k < |a| && a[k].status == T.READY ==> k in taken
    ensures |a| == |b| && forall i :: 0 <= i < |a| ==> DispatchedFrom(a[i], b[i], now)
    ensures b == Tx.MapTasks(Calls.Dispatched(now), a)
  {
  }

  // ---------------------------------------------------------------- which tasks are newly QUEUED

  /** The same tasks are QUEUED. */
  ghost predicate SameQueued(a: seq<Task>, b: seq<Task>) {
    |a| == |b| && forall i :: 0 <= i < |a| ==> (a[i].status == T.QUEUED <==> b[i].status == T.QUEUED)
  }

  lemma QueuedSince(a: seq<Task>, b: seq<Task>, c: seq<Task>, ids: seq<Id>)
    requires SameQueued(a, b)
    ensures NewlyQueued(a, c, ids) == NewlyQueued(b, c, ids)
  {
  }

  /** Before anything is QUEUED, everything QUEUED is new. */
  lemma QueuedAtFirst(a: seq<Task>, b: seq<Task>, ids: seq<Id>)
    requires forall i :: 0 <= i < |a| ==> a[i].status != T.QUEUED
    ensures NewlyQueued(a, b, ids) == NewlyQueued([], b, ids)
  {
  }

  lemma NothingQueued(a: seq<Task>, ids: seq<Id>)
    ensures NewlyQueued(a, a, ids) == {}
  {
  }

  /** Dispatching one more task makes its id new. */
  lemma OneMoreQueued(a: seq<Task>, b: seq<Task>, c: seq<Task>, ids: seq<Id>, k: nat, won: bool)
    requires |a| == |b| == |c| == |ids| && k < |a|
    requires if won then a[k].status != T.QUEUED && b[k].status != T.QUEUED && c == b[k := c[k]] && c[k].status == T.QUEUED else c == b
    ensures NewlyQueued(a, c, ids) == NewlyQueued(a, b, ids) + (if won then {ids[k]} else {})
  {
    if won {
      assert forall i :: 0 <= i < |a| && i != k ==> c[i] == b[i];
      assert ids[k] in NewlyQueued(a, c, ids);
    }
  }

  lemma SuccessQueuesNothing(s: Run, k: nat, t': Task, now: int)
    requires k < |s.tasks| && s.tasks[k].status != T.QUEUED && t'.status != T.QUEUED
    ensures SameQueued(s.tasks, Tx.AfterTaskSucceeded(Tx.Put(s, k, t'), k, now).tasks)
  {
  }

  lemma CompleteQueuesNothing(s: Run, k: nat, token: int, output: Output, now: int)
    ensures SameQueued(s.tasks, Tx.Complete(s, k, token, output, now).tasks)
  {
    if Tx.Holds(s, k, token) {
      SuccessQueuesNothing(s, k, s.tasks[k].(status := T.COMPLETED, output := Some(output), leaseExpiresAt := None), now);
    }
  }

  lemma ApproveQueuesNothing(s: Run, k: nat, now: int)
    ensures SameQueued(s.tasks, Tx.Resolve(s, k, APPROVED, now).tasks)
  {
    if k < |s.approvals| && s.approvals[k].REQUESTED? && !Tx.NotActionable(s, k) {
      var s1 := s.(approvals := s.approvals[k := DECIDED(APPROVED)]);
      SuccessQueuesNothing(s1, k, s.tasks[k].(status := T.COMPLETED, output := Some("approved")), now);
    }
  }

  lemma ResumeQueuesNothing(s: Run, now: int)
    ensures SameQueued(s.tasks, Tx.Resume(s, now).tasks)
  {
  }

  /** What a start queues is the roots. */
  lemma RootsQueued(defs: seq<TaskDef>, b: Run, ids: seq<Id>, now: int)
    requires JustStarted(defs, b, now) && |ids| == |defs|
    ensures NewlyQueued([], b.tasks, ids) == set i | 0 <= i < |defs| && defs[i].dependsOn == [] :: ids[i]
  {
    forall i | 0 <= i < |defs| ensures b.tasks[i].status == T.QUEUED <==> defs[i].dependsOn == [] {
      assert NewDocument(defs[i], b.tasks[i], now);
    }
  }

  lemma NothingQueuedAtFirst(defs: seq<TaskDef>, now: int)
    ensures forall i :: 0 <= i < |Tx.Started(defs, now).tasks| ==> Tx.Started(defs, now).tasks[i].status != T.QUEUED
  {
  }

  // ---------------------------------------------------------------- requests expiring one by one

  /** The requests of these tasks are EXPIRED, and the others as before. */
  ghost predicate ExpiredAt(a: seq<Approval>, b: seq<Approval>, taken: seq<nat>) {
    |a| == |b| && forall k: nat :: k < |a| ==> b[k] == if k in taken then DECIDED(EXPIRED) else a[k]
  }

  lemma NoneExpired(a: seq<Approval>)
    ensures ExpiredAt(a, a, [])
  {
  }

  lemma OneMoreExpired(a: seq<Approval>, b: seq<Approval>, c: seq<Approval>, taken: seq<nat>, k: nat)
    requires ExpiredAt(a, b, taken) && k < |a| && a[k].REQUESTED?
    requires c == if b[k].REQUESTED? then b[k := DECIDED(EXPIRED)] else b
    ensures ExpiredAt(a, c, taken + [k])
  {
  }

  lemma AllExpired(a: seq<Approval>, b: seq<Approval>, taken: seq<nat>, now: int, limited: bool)
    requires ExpiredAt(a, b, taken) && forall k :: k in taken ==> k < |a| && a[k].REQUESTED? && a[k].expiresAt < now
    requires !limited ==> forall k: nat :: k < |a| && a[k].REQUESTED? && a[k].expiresAt < now ==> k in taken
    ensures OnlyOverdueExpired(a, b, now, limited)
    ensures NoneOverdue(a, now) ==> taken == []
  {
    assert taken != [] ==> taken[0] in taken;
  }

  // ---------------------------------------------------------------- the decision's row

  /** A decision adds exactly one row, its own. */
  ghost predicate OneDecisionRow(a: seq<Event>, b: seq<Event>, k: nat, decision: Decision) {
    forall d :: Count(b, ApprovalDecided(k, d)) == Count(a, ApprovalDecided(k, d)) + (if d == decision then 1 else 0)
  }

  lemma DecisionLogged(a: Run, b: Run, k: nat, decision: Decision)
    requires LogAgrees(a) && LogAgrees(b) && k < |a.approvals| && k < |b.approvals|
    requires a.approvals[k].REQUESTED? && b.approvals[k] == DECIDED(decision)
    ensures OneDecisionRow(a.outbox, b.outbox, k, decision)
  {
    forall d ensures Count(b.outbox, ApprovalDecided(k, d)) == Count(a.outbox, ApprovalDecided(k, d)) + (if d == decision then 1 else 0) {
      assert Recorded(ApprovalDecided(k, d));
    }
  }
}
