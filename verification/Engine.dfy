/**
 * The engine's calls as they update the documents and the queue in place (src/workflow/engine.js).
 * Each call is proved equal to its function on the documents (modules Transactions and Calls),
 * and to keep the invariant that those functions keep. `now` is the time at which the call runs.
 */
module Engine {
  import opened Graphs
  import opened States
  import opened Options
  import opened Documents
  import opened Sums
  import opened Invariant
  import opened SortedSets
  import opened TaskRepository
  import opened TaskQueue
  import Tx = Transactions
  import Calls
  import Effects
  import Q = QueueScripts
  import Kahn
  import Moves
  import Preserves
  import Start
  import Success
  import System
  import ValidateDag

  class Engine {
    const db: Database
    const queue: Queue
    const leaseMs: int
    var redisUp: bool
    var ids: seq<Id>               // the `_id` of each task
    ghost var defs: seq<TaskDef>   // the definition the run was started from

    constructor (leaseMs: int)
      ensures fresh(db) && fresh(queue) && queue.Valid() && this.leaseMs == leaseMs
      ensures db.Snapshot() == Run(Execution(E.PENDING, 0), [], [], [])
    {
      db := new Database();
      queue := new Queue();
      this.leaseMs, redisUp, ids, defs := leaseMs, true, [], [];
    }

    /** Every task has an id, and the queue satisfies its invariant. */
    ghost predicate Linked() reads this, db, queue {
      queue.Valid() && |ids| == |db.tasks|
    }

    /** Moreover the documents are those of a run, and satisfy theirs. */
    ghost predicate Valid() reads this, db, queue {
      Linked() && Inv(defs, db.Snapshot())
    }

    // -------------------------------------------------------------- dispatch

    /** Redis being down is no error: the document already says QUEUED. */
    method EnqueueSafely(k: nat) returns (sent: bool)
      requires queue.Valid() && k < |ids|
      modifies queue
      ensures queue.Valid() && sent == redisUp
      ensures Q.Added(old(queue.Contents()), queue.Contents(), if sent then {ids[k]} else {})
    {
      if !redisUp {
        return false;
      }
      Q.OneAdded(queue.Contents(), ids[k]);
      hide Q.Valid;
      var added := queue.Enqueue(ids[k]);
      return true;
    }

    /** A retry waits in the delayed set for its time, and the lease of the worker that failed is over. */
    method EnqueueRetrySafely(k: nat, delayMs: int, now: int)
      requires queue.Valid() && k < |ids|
      modifies queue
      ensures queue.Valid()
      ensures if redisUp then Q.Delayed(old(queue.Contents()), queue.Contents(), ids[k], now + (if delayMs < 0 then 0 else delayMs))
              else queue.Contents() == old(queue.Contents())
    {
      if redisUp {
        Q.OneDelayed(queue.Contents(), ids[k], delayMs, now);
        hide Q.Valid, Q.Delayed;
        var added := queue.EnqueueDelayed(ids[k], delayMs, now);
      }
    }

    method DispatchTask(k: nat, now: int) returns (won: bool)
      requires Linked()
      modifies db`tasks, queue
      ensures Linked() && db.Snapshot() == Tx.Dispatch(old(db.Snapshot()), k, now)
      ensures old(Valid()) ==> Valid() && Evolves(old(db.Snapshot()), db.Snapshot())
      ensures won == Tx.At(old(db.Snapshot()), k, T.READY)
      ensures won ==> db.tasks == old(db.tasks)[k := old(db.tasks)[k].(status := T.QUEUED, queuedAt := Some(now))]
      ensures Q.Added(old(queue.Contents()), queue.Contents(), if won && redisUp then {ids[k]} else {})
    {
      hide Inv, Evolves, Q.Valid;
      if Inv(defs, db.Snapshot()) {
        Preserves.DispatchKeeps(defs, db.Snapshot(), k, now);
      }
      won := db.TransitionTask(k, T.READY, T.QUEUED, None, (t: Task) => t.(queuedAt := Some(now)));
      if !won {
        return false;
      }
      var sent := EnqueueSafely(k);
    }

    method DispatchReady(now: int)
      requires Linked()
      modifies db`tasks, queue
      ensures Linked() && db.Snapshot() == Calls.DispatchReady(old(db.Snapshot()), now)
      ensures old(Valid()) ==> Valid() && Evolves(old(db.Snapshot()), db.Snapshot())
      ensures forall i :: 0 <= i < |db.tasks| ==>
        if db.exec.status == E.RUNNING then Effects.DispatchedFrom(old(db.tasks)[i], db.tasks[i], now)
        else db.tasks[i] == old(db.tasks)[i]
      ensures Q.Added(old(queue.Contents()), queue.Contents(),
        if redisUp then Effects.NewlyQueued(old(db.tasks), db.tasks, ids) else {})
    {
      hide Inv, Evolves, Q.Valid, Q.Added, Effects.NewlyQueued, Effects.DispatchedFrom, Effects.DispatchedAt;
      EvolvesReflexive(db.Snapshot());
      Effects.NoneDispatched(db.tasks, now);
      Q.NothingAdded(queue.Contents());
      Effects.NothingQueued(db.tasks, ids);
      ghost var was, queueWas := db.Snapshot(), queue.Contents();
      if db.exec.status != E.RUNNING {
        return;
      }
      var ready := db.FindTasks((t: Task) => t.status == T.READY, 0);
      for j := 0 to |ready|
        invariant Linked() && |db.tasks| == |was.tasks|
        invariant old(Valid()) ==> Valid() && Evolves(was, db.Snapshot())
        invariant db.exec == was.exec && db.approvals == was.approvals && db.outbox == was.outbox
        invariant Effects.DispatchedAt(was.tasks, db.tasks, ready[..j], now)
        invariant Q.Added(queueWas, queue.Contents(), if redisUp then Effects.NewlyQueued(was.tasks, db.tasks, ids) else {})
      {
        assert ready[..j + 1] == ready[..j] + [ready[j]] && ready[j] in ready;
        ghost var before, queueBefore := db.Snapshot(), queue.Contents();
        var won := DispatchTask(ready[j], now);
        Effects.OneMoreDispatched(was.tasks, before.tasks, db.tasks, ready[..j], ready[j], now, won);
        Effects.OneMoreQueued(was.tasks, before.tasks, db.tasks, ids, ready[j], won);
        Q.AddedIf(redisUp, queueWas, queueBefore, queue.Contents(), Effects.NewlyQueued(was.tasks, before.tasks, ids),
                  if won then {ids[ready[j]]} else {});
        if old(Valid()) {
          EvolvesTransitive(was, before, db.Snapshot());
        }
      }
      assert ready[..|ready|] == ready;
      Effects.AllDispatched(was.tasks, db.tasks, ready, now);
    }

    // -------------------------------------------------------------- start

    /**
     * Only a well-formed acyclic definition becomes a run; otherwise nothing is written.
     * All documents are created together, and then the roots are dispatched.
     */
    method StartExecution(definition: seq<TaskDef>, taskIds: seq<Id>, now: int) returns (check: ValidateDag.Report)
      requires queue.Valid() && |taskIds| == |definition|
      modifies this`ids, this`defs, db, queue
      ensures check.valid <==> ValidGraph(definition)
      ensures !check.valid ==>
        db.Snapshot() == old(db.Snapshot()) && ids == old(ids) && defs == old(defs) && queue.Contents() == old(queue.Contents())
      ensures check.valid ==>
        db.Snapshot() == Calls.DispatchReady(Tx.Started(definition, now), now) && ids == taskIds && Linked()
      ensures check.valid && definition != [] ==> Valid() && defs == definition
      ensures check.valid ==> Effects.JustStarted(definition, db.Snapshot(), now)
      ensures check.valid ==> Q.Added(old(queue.Contents()), queue.Contents(),
        if redisUp then (set i | 0 <= i < |definition| && definition[i].dependsOn == [] :: taskIds[i]) else {})
    {
      hide ValidGraph, Structural, Topological, Kahn.AreLevels, ValidateDag.Problem, SimpleCycle;
      check := ValidateDag.Validate(definition);
      if !check.valid {
        return;
      }
      StartsValid(definition, now);
      Launch(definition, taskIds, now);
    }

    /** All documents of the run at once, and then its roots into the queue. */
    method Launch(definition: seq<TaskDef>, taskIds: seq<Id>, now: int)
      requires queue.Valid() && |taskIds| == |definition| && Structural(definition)
      requires definition != [] ==> Inv(definition, Tx.Started(definition, now))
      modifies this`ids, this`defs, db, queue
      ensures db.Snapshot() == Calls.DispatchReady(Tx.Started(definition, now), now)
      ensures ids == taskIds && defs == definition && Linked() && (definition != [] ==> Valid())
      ensures Effects.JustStarted(definition, db.Snapshot(), now)
      ensures Q.Added(old(queue.Contents()), queue.Contents(),
        if redisUp then (set i | 0 <= i < |definition| && definition[i].dependsOn == [] :: taskIds[i]) else {})
    {
      hide Inv, Structural, Tx.Started, Evolves, Q.Valid, Q.Added, Calls.DispatchReady, Effects.JustStarted, Effects.NewlyQueued;
      Effects.StartHas(definition, now);
      Effects.NothingQueuedAtFirst(definition, now);
      CreateDocuments(definition, now);
      ids, defs := taskIds, definition;
      ghost var created := db.tasks;
      DispatchReady(now);
      Effects.QueuedAtFirst(created, db.tasks, ids);
      Effects.RootsQueued(definition, db.Snapshot(), ids, now);
    }

    /** The execution, its tasks and the first event, in one transaction. */
    method CreateDocuments(definition: seq<TaskDef>, now: int)
      requires Structural(definition)
      modifies db
      ensures db.Snapshot() == Tx.Started(definition, now) && |db.tasks| == |definition|
    {
      var dependents := Kahn.BuildChildren(definition);
      db.exec := Execution(E.RUNNING, |definition|);
      db.tasks := seq(|definition|, i requires 0 <= i < |definition| => NewTask(definition[i], dependents, now));
      db.approvals := seq(|definition|, _ => NONE);
      db.outbox := [ExecutionStarted];
      hide Structural;
      forall i | 0 <= i < |definition| ensures db.tasks[i] == Tx.NewTask(definition, i, now) {
        assert definition[i].key in Keys(definition);
      }
    }

    // -------------------------------------------------------------- what follows a finished task

    method Emit(e: Event)
      modifies db`outbox
      ensures db.outbox == old(db.outbox) + [e]
    {
      db.outbox := db.outbox + [e];
    }

    method AfterTaskSucceeded(k: nat, finishedAt: int)
      requires k < |db.tasks|
      modifies db
      ensures db.Snapshot() == Tx.AfterTaskSucceeded(old(db.Snapshot()), k, finishedAt)
    {
      var dependents := db.tasks[k].dependents;
      ghost var s1 := Tx.OneLessPending(db.Snapshot());
      db.exec := db.exec.(pendingTasks := db.exec.pendingTasks - 1);
      var execution := db.exec;
      var live := execution.status == E.RUNNING || execution.status == E.PAUSED;
      if live && |dependents| > 0 {
        var told := db.UpdateTasks((t: Task) => t.def.key in dependents, (t: Task) => t.(remainingDeps := t.remainingDeps - 1));
        assert db.tasks == Tx.MapTasks(Tx.Decremented(dependents), s1.tasks);
        if execution.status == E.RUNNING {
          ghost var between := db.tasks;
          assert CanMoveTask(T.PENDING, T.READY);
          var promoted := db.UpdateTasks(
            (t: Task) => t.def.key in dependents && t.status == T.PENDING && t.remainingDeps == 0,
            (t: Task) => t.(status := T.READY, readyAt := Some(finishedAt)));
          assert db.tasks == Tx.MapTasks(Tx.Promoted(dependents, finishedAt), between);
        }
      } else if live {
        NobodyToTell(s1.tasks, finishedAt);
      }
      assert db.Snapshot() == Tx.ChildrenTold(s1, dependents, finishedAt);
      if execution.status == E.RUNNING && execution.pendingTasks == 0 {
        assert CanMoveExecution(E.RUNNING, E.COMPLETED);
        db.exec := db.exec.(status := E.COMPLETED);
        Emit(ExecutionCompleted);
      }
      Emit(TaskCompleted(k));
    }

    method AfterTaskFailedForGood(k: nat, deadLettered: bool)
      modifies db
      ensures db.Snapshot() == Tx.AfterTaskFailedForGood(old(db.Snapshot()), k, deadLettered)
    {
      ghost var s1 := Tx.OneLessPending(db.Snapshot());
      db.exec := db.exec.(pendingTasks := db.exec.pendingTasks - 1);
      var updated := db.exec;
      if updated.status == E.RUNNING || updated.status == E.PAUSED {
        var matches := (t: Task) => t.status in {T.PENDING, T.READY, T.QUEUED, T.RETRYING};
        var cancelled := db.UpdateTasks(matches, (t: Task) => t.(status := T.CANCELLED));
        assert db.tasks == Tx.MapTasks(Tx.FailedFast(), s1.tasks);
        SumCongruent(Matching(matches), Tx.UnstartedWeight(), s1.tasks, s1.tasks);
        assert CanMoveExecution(updated.status, E.FAILED);
        db.exec := Execution(E.FAILED, db.exec.pendingTasks - cancelled);
        Emit(ExecutionFailed);
      }
      Emit(if deadLettered then TaskDeadLettered(k) else TaskFailed(k));
    }

    // -------------------------------------------------------------- reports

    method CompleteTransaction(k: nat, token: int, output: Output, now: int) returns (applied: bool)
      modifies db
      ensures applied == Tx.Holds(old(db.Snapshot()), k, token)
      ensures db.Snapshot() == Tx.Complete(old(db.Snapshot()), k, token, output, now)
    {
      applied := db.TransitionTask(k, T.RUNNING, T.COMPLETED, Some(token),
                                   (t: Task) => t.(output := Some(output), leaseExpiresAt := None));
      if applied {
        AfterTaskSucceeded(k, now);
      }
    }

    /** A success is applied once, under the current token; then whatever became ready is dispatched. */
    method CompleteTask(k: nat, token: int, output: Output, now: int) returns (applied: bool)
      requires Valid()
      modifies db, queue
      ensures Valid() && Evolves(old(db.Snapshot()), db.Snapshot())
      ensures applied == Tx.Holds(old(db.Snapshot()), k, token)
      ensures db.Snapshot() ==
        if applied then Calls.DispatchReady(Tx.Complete(old(db.Snapshot()), k, token, output, now), now) else old(db.Snapshot())
      ensures applied ==>
        && Effects.Succeeded(old(db.Snapshot()), db.Snapshot(), k, now) && db.approvals == old(db.approvals)
        && db.tasks[k] == old(db.tasks)[k].(status := T.COMPLETED, output := Some(output), leaseExpiresAt := None)
      ensures Q.Added(old(queue.Contents()), queue.Contents(),
        if applied && redisUp then Effects.NewlyQueued(old(db.tasks), db.tasks, ids) else {})
      ensures !applied ==> queue.Contents() == old(queue.Contents())
    {
      hide Inv, Evolves, Q.Valid, Q.Added, Success.Succeeds, Tx.Complete, Tx.Holds, Calls.DispatchReady, Effects.Succeeded;
      Preserves.CompleteKeeps(defs, db.Snapshot(), k, token, output, now);
      SameTasks(db.Snapshot(), Tx.Complete(db.Snapshot(), k, token, output, now));
      CompleteEffect(defs, db.Snapshot(), k, token, output, now);
      Q.NothingAdded(queue.Contents());
      applied := CompleteTransaction(k, token, output, now);
      if applied {
        ghost var committed := db.Snapshot();
        DispatchReady(now);
        EvolvesTransitive(old(db.Snapshot()), committed, db.Snapshot());
        Effects.QueuedSince(old(db.tasks), committed.tasks, db.tasks, ids);
      }
    }

    method FailTransaction(k: nat, token: int, retryable: bool, delayMs: int, now: int) returns (outcome: Option<T>)
      modifies db
      ensures outcome == Calls.FailOutcome(old(db.Snapshot()), k, token, retryable)
      ensures outcome.Some? ==> k < |old(db.tasks)|
      ensures db.Snapshot() == Tx.Fail(old(db.Snapshot()), k, token, retryable, delayMs, now)
    {
      if k >= |db.tasks| || db.tasks[k].status != T.RUNNING || db.tasks[k].leaseToken != token {
        return None;
      }
      var task := db.tasks[k];
      var execution := db.exec;
      var attemptsLeft := task.attempt < task.def.maxAttempts;
      var live := execution.status == E.RUNNING || execution.status == E.PAUSED;
      if retryable && attemptsLeft && live {
        var won := db.TransitionTask(k, T.RUNNING, T.RETRYING, Some(token),
                                     (t: Task) => t.(leaseExpiresAt := None, retryAt := Some(now + delayMs)));
        if !won {
          return None;
        }
        Emit(TaskRetrying(k, task.attempt));
        return Some(T.RETRYING);
      }
      var dead := retryable && !attemptsLeft;
      var won := db.TransitionTask(k, T.RUNNING, T.FAILED, Some(token), (t: Task) => t.(leaseExpiresAt := None));
      if !won {
        return None;
      }
      if dead {
        var parked := db.TransitionTask(k, T.FAILED, T.DEAD_LETTER, None, (t: Task) => t);
      }
      assert db.Snapshot() == Tx.Put(old(db.Snapshot()), k,
        task.(status := if dead then T.DEAD_LETTER else T.FAILED, leaseExpiresAt := None));
      AfterTaskFailedForGood(k, dead);
      return Some(if dead then T.DEAD_LETTER else T.FAILED);
    }

    /** A failure is applied once, under the current token; a retry is scheduled after the commit. */
    method FailTask(k: nat, token: int, retryable: bool, delayMs: int, now: int) returns (outcome: Option<T>)
      requires Valid()
      modifies db, queue
      ensures Valid() && Evolves(old(db.Snapshot()), db.Snapshot())
      ensures outcome == Calls.FailOutcome(old(db.Snapshot()), k, token, retryable)
      ensures db.Snapshot() == Tx.Fail(old(db.Snapshot()), k, token, retryable, delayMs, now)
      ensures outcome.Some? <==> Tx.Holds(old(db.Snapshot()), k, token)
      ensures outcome.Some? ==>
        && Effects.FailureReported(old(db.Snapshot()), db.Snapshot(), k, retryable, now + delayMs)
        && db.tasks[k].status == outcome.value
      ensures outcome.None? ==> db.Snapshot() == old(db.Snapshot())
      ensures outcome.Some? ==> k < |ids|
      ensures if outcome == Some(T.RETRYING) && redisUp
              then Q.Delayed(old(queue.Contents()), queue.Contents(), ids[k], now + (if delayMs < 0 then 0 else delayMs))
              else queue.Contents() == old(queue.Contents())
    {
      hide Inv, Evolves, Q.Valid, Q.Delayed, Tx.Fail, Calls.FailOutcome, Effects.FailureReported, Tx.Holds;
      Preserves.FailKeeps(defs, db.Snapshot(), k, token, retryable, delayMs, now);
      SameTasks(db.Snapshot(), Tx.Fail(db.Snapshot(), k, token, retryable, delayMs, now));
      FailEffect(db.Snapshot(), k, token, retryable, delayMs, now);
      outcome := FailTransaction(k, token, retryable, delayMs, now);
      if outcome == Some(T.RETRYING) {
        EnqueueRetrySafely(k, delayMs, now);
      }
    }

    /**
     * A worker picks a task up. Nothing is handed out of a task that is finished, held
     * under a live lease, or past its last attempt; a handler gets the outputs of all
     * parents, which are there.
     */
    method StartTask(k: nat, delayMs: int, now: int) returns (claimed: Option<Calls.Work>)
      requires Valid()
      modifies db, queue
      ensures Valid() && Evolves(old(db.Snapshot()), db.Snapshot())
      ensures db.Snapshot() == Calls.StartTask(old(db.Snapshot()), k, now, leaseMs, delayMs)
      ensures claimed.Some? <==> Calls.HandsOut(old(db.Snapshot()), k, now)
      ensures claimed.Some? ==>
        && claimed.value.token == db.tasks[k].leaseToken && Tx.Holds(db.Snapshot(), k, claimed.value.token)
        && forall p: nat :: p < |db.tasks| && IsParent(db.Snapshot(), p, k) ==>
          && db.tasks[p].status == T.COMPLETED && db.tasks[p].def.key in claimed.value.parents
          && claimed.value.parents[db.tasks[p].def.key] == db.tasks[p].output
      ensures claimed.Some? ==> forall key :: key in claimed.value.parents ==> key in db.tasks[k].def.dependsOn
      ensures claimed.Some? ==> Effects.HandedOut(old(db.Snapshot()), db.Snapshot(), k, now + leaseMs)
      ensures claimed.None? && Tx.Claimable(old(db.Snapshot()), k, now) ==>
        Effects.Failed(old(db.Snapshot()), db.Snapshot(), k) && db.tasks[k].status == T.DEAD_LETTER
      ensures claimed.None? && !Tx.Claimable(old(db.Snapshot()), k, now) ==> db.Snapshot() == old(db.Snapshot())
      ensures queue.Contents() == old(queue.Contents())
    {
      hide Inv, Evolves, Q.Valid, Tx.Claim, Tx.Claimable, Tx.Fail, Calls.FailOutcome, IsParent, Tx.Holds, Tx.At,
        Effects.FailureReported, Effects.HandedOut, Effects.Failed;
      Preserves.ClaimKeeps(defs, db.Snapshot(), k, now, leaseMs);
      ClaimWritten(db.Snapshot(), k, now, leaseMs);
      SameTasks(db.Snapshot(), Tx.Claim(db.Snapshot(), k, now, leaseMs));
      if Tx.Claimable(db.Snapshot(), k, now) {
        ClaimedIs(defs, db.Snapshot(), k, now, leaseMs);
      }
      var task := db.ClaimTask(k, leaseMs, now);
      if task == None {
        return None;
      }
      if task.value.attempt > task.value.def.maxAttempts {
        ghost var claimedRun := db.Snapshot();
        var outcome := FailTask(k, task.value.leaseToken, true, delayMs, now);
        EvolvesTransitive(old(db.Snapshot()), claimedRun, db.Snapshot());
        Effects.ExhaustedIsParked(old(db.Snapshot()), claimedRun, db.Snapshot(), k, now + leaseMs, now + delayMs);
        return None;
      }
      var parents := ReadParents(k);
      return Some(Calls.Work(task.value.leaseToken, parents));
    }

    /** The outputs of the tasks that `k` depends on, by key. */
    method ReadParents(k: nat) returns (parents: map<Key, Option<Output>>)
      requires Valid() && k < |db.tasks| && db.tasks[k].status == T.RUNNING
      ensures forall p: nat :: p < |db.tasks| && IsParent(db.Snapshot(), p, k) ==>
        && db.tasks[p].status == T.COMPLETED && db.tasks[p].def.key in parents
        && parents[db.tasks[p].def.key] == db.tasks[p].output
      ensures forall key :: key in parents ==> key in db.tasks[k].def.dependsOn
    {
      ParentsRead(defs, db.Snapshot(), k);
      return System.ParentOutputs(db.Snapshot(), k);
    }

    method SuspendTransaction(k: nat, token: int, timeoutMs: int, now: int) returns (applied: bool)
      requires k < |db.tasks| ==> k < |db.approvals| && !Tx.DuplicateRequest(db.Snapshot(), k, token)
      modifies db
      ensures applied == Tx.Holds(old(db.Snapshot()), k, token) && (applied ==> k < |old(db.approvals)|)
      ensures db.Snapshot() == Tx.Suspend(old(db.Snapshot()), k, token, timeoutMs, now)
    {
      applied := db.TransitionTask(k, T.RUNNING, T.WAITING_FOR_APPROVAL, Some(token), (t: Task) => t.(leaseExpiresAt := None));
      if applied {
        db.approvals := db.approvals[k := REQUESTED(now + timeoutMs)];
        Emit(ApprovalRequested(k));
      }
    }

    /** The request is always the task's first: the unique index never refuses it. */
    method SuspendForApproval(k: nat, token: int, timeoutMs: int, now: int) returns (applied: bool)
      requires Valid()
      modifies db
      ensures Valid() && Evolves(old(db.Snapshot()), db.Snapshot())
      ensures applied == Tx.Holds(old(db.Snapshot()), k, token)
      ensures db.Snapshot() == Tx.Suspend(old(db.Snapshot()), k, token, timeoutMs, now)
      ensures applied ==>
        && db.tasks == old(db.tasks)[k := old(db.tasks)[k].(status := T.WAITING_FOR_APPROVAL, leaseExpiresAt := None)]
        && db.approvals == old(db.approvals)[k := REQUESTED(now + timeoutMs)]
        && db.exec == old(db.exec) && db.outbox == old(db.outbox) + [ApprovalRequested(k)]
      ensures !applied ==> db.Snapshot() == old(db.Snapshot())
    {
      hide Inv, Evolves, Q.Valid, Moves.MovesOn, Tx.DuplicateRequest;
      Preserves.SuspendKeeps(defs, db.Snapshot(), k, token, timeoutMs, now);
      SameTasks(db.Snapshot(), Tx.Suspend(db.Snapshot(), k, token, timeoutMs, now));
      AsManyApprovals(defs, db.Snapshot());
      applied := SuspendTransaction(k, token, timeoutMs, now);
    }

    /** Heartbeat: true exactly while the task is held under this token, and then its deadline moves. */
    method RenewLease(k: nat, token: int, now: int) returns (renewed: bool)
      requires Valid()
      modifies db`tasks
      ensures Valid() && Evolves(old(db.Snapshot()), db.Snapshot())
      ensures renewed == Tx.Holds(old(db.Snapshot()), k, token) == Tx.Holds(db.Snapshot(), k, token)
      ensures db.Snapshot() == Tx.Renew(old(db.Snapshot()), k, token, now, leaseMs)
      ensures db.tasks == if renewed then old(db.tasks)[k := old(db.tasks)[k].(leaseExpiresAt := Some(now + leaseMs))] else old(db.tasks)
    {
      hide Inv, Evolves, Q.Valid;
      Preserves.RenewKeeps(defs, db.Snapshot(), k, token, now, leaseMs);
      RenewHolds(db.Snapshot(), k, token, now, leaseMs);
      renewed := db.RenewTaskLease(k, token, leaseMs, now);
    }

    // -------------------------------------------------------------- approvals

    method ResolveTransaction(k: nat, decision: Decision, now: int) returns (outcome: Option<Decision>, conflict: bool)
      modifies db
      ensures conflict == Tx.NotActionable(old(db.Snapshot()), k)
      ensures outcome == if !conflict && k < |old(db.approvals)| && old(db.approvals)[k].REQUESTED? then Some(decision) else None
      ensures db.Snapshot() == Tx.Resolve(old(db.Snapshot()), k, decision, now)
    {
      if k >= |db.approvals| || !db.approvals[k].REQUESTED? {
        return None, false;
      }
      var before := db.approvals;
      db.approvals := db.approvals[k := DECIDED(decision)];
      var approved := decision == APPROVED;
      var won := db.TransitionTask(k, T.WAITING_FOR_APPROVAL, if approved then T.COMPLETED else T.FAILED, None,
                                   (t: Task) => if approved then t.(output := Some("approved")) else t);
      if !won {
        db.approvals := before;   // the throw aborts the transaction
        return None, true;
      }
      if approved {
        AfterTaskSucceeded(k, now);
      } else {
        AfterTaskFailedForGood(k, false);
      }
      Emit(ApprovalDecided(k, decision));
      return Some(decision), false;
    }

    /** A decision is applied exactly if the request is still pending; the conflict is never thrown. */
    method ResolveApproval(k: nat, decision: Decision, now: int) returns (outcome: Option<Decision>, conflict: bool)
      requires Valid()
      modifies db, queue
      ensures Valid() && Evolves(old(db.Snapshot()), db.Snapshot())
      ensures !conflict
      ensures outcome == if k < |old(db.approvals)| && old(db.approvals)[k].REQUESTED? then Some(decision) else None
      ensures db.Snapshot() ==
        if outcome == Some(APPROVED) then Calls.DispatchReady(Tx.Resolve(old(db.Snapshot()), k, decision, now), now)
        else Tx.Resolve(old(db.Snapshot()), k, decision, now)
      ensures outcome.None? ==> db.Snapshot() == old(db.Snapshot())
      ensures outcome.Some? ==>
        && Effects.Decided(old(db.Snapshot()), db.Snapshot(), k, decision, now)
        && Effects.OneDecisionRow(old(db.outbox), db.outbox, k, decision)
      ensures Q.Added(old(queue.Contents()), queue.Contents(),
        if outcome == Some(APPROVED) && redisUp then Effects.NewlyQueued(old(db.tasks), db.tasks, ids) else {})
      ensures outcome != Some(APPROVED) ==> queue.Contents() == old(queue.Contents())
    {
      hide Inv, Evolves, Q.Valid, Q.Added, Tx.Resolve, Tx.NotActionable, Calls.DispatchReady, Effects.Decided,
        Effects.OneDecisionRow, Effects.SameQueued, Effects.NewlyQueued;
      Preserves.ResolveKeeps(defs, db.Snapshot(), k, decision, now);
      SameTasks(db.Snapshot(), Tx.Resolve(db.Snapshot(), k, decision, now));
      ResolveEffect(defs, db.Snapshot(), k, decision, now);
      DecisionRow(defs, db.Snapshot(), k, decision, now);
      Q.NothingAdded(queue.Contents());
      outcome, conflict := ResolveTransaction(k, decision, now);
      if outcome == Some(APPROVED) {
        ghost var committed := db.Snapshot();
        DispatchReady(now);
        EvolvesTransitive(old(db.Snapshot()), committed, db.Snapshot());
        Effects.QueuedSince(old(db.tasks), committed.tasks, db.tasks, ids);
      }
    }

    // -------------------------------------------------------------- control

    method PauseTransaction() returns (paused: bool)
      modifies db
      ensures paused == (old(db.exec).status == E.RUNNING)
      ensures db.Snapshot() == Tx.Pause(old(db.Snapshot()))
    {
      if db.exec.status != E.RUNNING {
        return false;
      }
      assert CanMoveExecution(E.RUNNING, E.PAUSED);
      db.exec := db.exec.(status := E.PAUSED);
      Emit(ExecutionPaused);
      return true;
    }

    method PauseExecution() returns (paused: bool)
      requires Valid()
      modifies db
      ensures Valid() && Evolves(old(db.Snapshot()), db.Snapshot())
      ensures paused == (old(db.exec).status == E.RUNNING)
      ensures db.Snapshot() == Tx.Pause(old(db.Snapshot()))
      ensures db.tasks == old(db.tasks) && db.approvals == old(db.approvals)
      ensures paused ==>
        db.exec == Execution(E.PAUSED, old(db.exec).pendingTasks) && db.outbox == old(db.outbox) + [ExecutionPaused]
    {
      hide Inv, Evolves, Q.Valid;
      Preserves.PauseKeeps(defs, db.Snapshot());
      SameTasks(db.Snapshot(), Tx.Pause(db.Snapshot()));
      paused := PauseTransaction();
    }

    method ResumeTransaction(now: int) returns (resumed: bool)
      modifies db
      ensures resumed == (old(db.exec).status == E.PAUSED)
      ensures db.Snapshot() == Tx.Resume(old(db.Snapshot()), now)
    {
      if db.exec.status != E.PAUSED {
        return false;
      }
      assert CanMoveExecution(E.PAUSED, E.RUNNING);
      db.exec := db.exec.(status := E.RUNNING);
      var execution := db.exec;
      Emit(ExecutionResumed);
      ghost var tasks := db.tasks;
      var promoted := db.UpdateTasks((t: Task) => t.status == T.PENDING && t.remainingDeps == 0,
                                     (t: Task) => t.(status := T.READY, readyAt := Some(now)));
      assert db.tasks == Tx.MapTasks(Tx.PromotedAll(now), tasks);
      if execution.pendingTasks == 0 {
        db.exec := db.exec.(status := E.COMPLETED);
        Emit(ExecutionCompleted);
      }
      return true;
    }

    method ResumeExecution(now: int) returns (resumed: bool)
      requires Valid()
      modifies db, queue
      ensures Valid() && Evolves(old(db.Snapshot()), db.Snapshot())
      ensures resumed == (old(db.exec).status == E.PAUSED)
      ensures db.Snapshot() ==
        if resumed then Calls.DispatchReady(Tx.Resume(old(db.Snapshot()), now), now) else old(db.Snapshot())
      ensures resumed ==> Effects.Resumed(old(db.Snapshot()), db.Snapshot(), now)
      ensures Q.Added(old(queue.Contents()), queue.Contents(),
        if resumed && redisUp then Effects.NewlyQueued(old(db.tasks), db.tasks, ids) else {})
      ensures !resumed ==> queue.Contents() == old(queue.Contents())
    {
      hide Inv, Evolves, Q.Valid, Q.Added, Moves.Resumes, Calls.DispatchReady, Effects.Resumed, Effects.SameQueued,
        Effects.NewlyQueued;
      Preserves.ResumeKeeps(defs, db.Snapshot(), now);
      SameTasks(db.Snapshot(), Tx.Resume(db.Snapshot(), now));
      Effects.ResumeQueuesNothing(db.Snapshot(), now);
      if db.exec.status == E.PAUSED {
        Effects.ResumeHas(db.Snapshot(), now);
      }
      Q.NothingAdded(queue.Contents());
      resumed := ResumeTransaction(now);
      if resumed {
        ghost var committed := db.Snapshot();
        DispatchReady(now);
        EvolvesTransitive(old(db.Snapshot()), committed, db.Snapshot());
        Effects.QueuedSince(old(db.tasks), committed.tasks, db.tasks, ids);
      }
    }

    method CancelTransaction() returns (cancelled: bool)
      modifies db
      ensures cancelled == Live(old(db.exec).status)
      ensures db.Snapshot() == Tx.Cancel(old(db.Snapshot()))
    {
      if db.exec.status != E.RUNNING && db.exec.status != E.PAUSED {
        return false;
      }
      assert CanMoveExecution(db.exec.status, E.CANCELLED);
      ghost var tasks := db.tasks;
      var matches := (t: Task) =>
        t.status in {T.PENDING, T.READY, T.QUEUED, T.RETRYING, T.RUNNING, T.WAITING_FOR_APPROVAL};
      var modified := db.UpdateTasks(matches, (t: Task) => t.(status := T.CANCELLED, leaseExpiresAt := None));
      forall i | 0 <= i < |tasks| ensures matches(tasks[i]) <==> !Finished(tasks[i].status) {
        UnfinishedStatuses(tasks[i].status);
      }
      assert db.tasks == Tx.MapTasks(Tx.CancelledAll(), tasks);
      SumCongruent(Matching(matches), Tx.UnfinishedWeight(), tasks, tasks);
      db.exec := Execution(E.CANCELLED, db.exec.pendingTasks - modified);
      db.approvals := Tx.Withdrawn(db.approvals);
      Emit(ExecutionCancelled);
      return true;
    }

    method CancelExecution() returns (cancelled: bool)
      requires Valid()
      modifies db
      ensures Valid() && Evolves(old(db.Snapshot()), db.Snapshot())
      ensures cancelled == Live(old(db.exec).status)
      ensures db.Snapshot() == Tx.Cancel(old(db.Snapshot()))
      ensures cancelled ==> Effects.Cancelled(old(db.Snapshot()), db.Snapshot())
      ensures !cancelled ==> db.Snapshot() == old(db.Snapshot())
    {
      hide Inv, Evolves, Q.Valid, Moves.Cancels, Tx.Cancel, Effects.Cancelled;
      Preserves.CancelKeeps(defs, db.Snapshot());
      CancelEffect(defs, db.Snapshot());
      SameTasks(db.Snapshot(), Tx.Cancel(db.Snapshot()));
      cancelled := CancelTransaction();
    }

    // -------------------------------------------------------------- the reconciler

    /** Sweep 1: READY for long means never dispatched, unless the run is paused. */
    method SweepReady(cutoff: int, limit: nat, now: int) returns (n: nat, ghost full: bool)
      requires Valid()
      modifies db`tasks, queue
      ensures Valid() && Evolves(old(db.Snapshot()), db.Snapshot())
      ensures SweptTasks(old(db.Snapshot()), db.Snapshot(), cutoff, now) && (full ==> 0 < limit <= |ids|)
      ensures !full && old(db.exec).status == E.RUNNING ==>
        forall k :: 0 <= k < |db.tasks| && db.tasks[k].status == T.READY ==> !Calls.Older(db.tasks[k].readyAt, cutoff)
      ensures Q.Added(old(queue.Contents()), queue.Contents(),
        if redisUp then Effects.NewlyQueued(old(db.tasks), db.tasks, ids) else {})
    {
      hide Inv, Evolves, Q.Valid, Q.Added, Calls.Older, Effects.NewlyQueued;
      n := 0;
      EvolvesReflexive(db.Snapshot());
      Q.NothingAdded(queue.Contents());
      ghost var was, queueWas := db.Snapshot(), queue.Contents();
      var stuck := db.FindTasks((t: Task) => t.status == T.READY && Calls.Older(t.readyAt, cutoff), limit);
      full := limit > 0 && |stuck| == limit;
      var status := db.exec.status;
      Effects.NothingQueued(db.tasks, ids);
      for j := 0 to |stuck|
        invariant Valid() && Evolves(was, db.Snapshot()) && SweptTasks(was, db.Snapshot(), cutoff, now)
        invariant status == E.RUNNING ==> forall k :: k in stuck[..j] ==> k < |db.tasks| && db.tasks[k].status == T.QUEUED
        invariant Q.Added(queueWas, queue.Contents(), if redisUp then Effects.NewlyQueued(was.tasks, db.tasks, ids) else {})
      {
        assert stuck[..j + 1] == stuck[..j] + [stuck[j]] && stuck[j] in stuck;
        if status != E.RUNNING {
          continue;
        }
        ghost var before, queueBefore := db.Snapshot(), queue.Contents();
        var won := DispatchTask(stuck[j], now);
        EvolvesTransitive(was, before, db.Snapshot());
        Effects.OneMoreQueued(was.tasks, before.tasks, db.tasks, ids, stuck[j], won);
        Q.AddedIf(redisUp, queueWas, queueBefore, queue.Contents(), Effects.NewlyQueued(was.tasks, before.tasks, ids),
                  if won then {ids[stuck[j]]} else {});
        if won {
          n := n + 1;
        }
      }
      assert stuck[..|stuck|] == stuck;
    }

    /** Sweeps 2 to 4: put what may be missing from the queue there again, and nothing else. */
    method SweepEnqueue(status: T, stuck: Task -> bool, limit: nat) returns (n: nat, ghost full: bool)
      requires Linked()
      modifies queue
      ensures Linked() && (full ==> 0 < limit <= |ids|)
      ensures Q.Added(old(queue.Contents()), queue.Contents(), queue.members)
      ensures queue.members <= old(queue.members) + (if redisUp then OfKind(db.tasks, status, stuck, ids) else {})
      ensures redisUp && !full ==> OfKind(db.tasks, status, stuck, ids) <= queue.members
    {
      hide Q.Valid;
      n := 0;
      var stale := db.FindTasks((t: Task) => t.status == status && stuck(t), limit);
      full := limit > 0 && |stale| == limit;
      for j := 0 to |stale|
        invariant Linked() && Q.Added(old(queue.Contents()), queue.Contents(), queue.members)
        invariant queue.members <= old(queue.members) + (if redisUp then OfKind(db.tasks, status, stuck, ids) else {})
        invariant redisUp ==> forall k :: k in stale[..j] ==> k < |ids| && ids[k] in queue.members
      {
        assert stale[..j + 1] == stale[..j] + [stale[j]] && stale[j] in stale;
        var sent := EnqueueSafely(stale[j]);
        if sent {
          n := n + 1;
        }
      }
      assert stale[..|stale|] == stale;
    }

    /** A pending request ends EXPIRED and its task FAILED; nothing is enqueued. */
    method Expire(k: nat, now: int) returns (outcome: Option<Decision>)
      requires Valid() && k < |db.approvals|
      modifies db, queue
      ensures Valid() && Evolves(old(db.Snapshot()), db.Snapshot())
      ensures db.approvals == if old(db.approvals)[k].REQUESTED? then old(db.approvals)[k := DECIDED(EXPIRED)] else old(db.approvals)
      ensures if old(db.approvals)[k].REQUESTED? then Effects.Failed(old(db.Snapshot()), db.Snapshot(), k)
              else db.Snapshot() == old(db.Snapshot())
      ensures queue.Contents() == old(queue.Contents())
    {
      hide Inv, Evolves, Q.Valid, Tx.Resolve, Tx.NotActionable, Effects.Failed, Effects.Succeeded, Effects.OneDecisionRow;
      var conflict;
      outcome, conflict := ResolveApproval(k, EXPIRED, now);
    }

    /** Sweep 5: exactly the approvals that nobody answered in time, and without any nothing changes. */
    method ExpireApprovals(limit: nat, now: int) returns (n: nat, ghost full: bool)
      requires Valid()
      modifies db, queue
      ensures Valid() && Evolves(old(db.Snapshot()), db.Snapshot())
      ensures |db.approvals| == |old(db.approvals)| && (full ==> 0 < limit <= |db.approvals|)
      ensures Effects.OnlyOverdueExpired(old(db.approvals), db.approvals, now, full)
      ensures Effects.NoneOverdue(old(db.approvals), now) ==> db.Snapshot() == old(db.Snapshot())
      ensures Untouched(old(db.Snapshot()), db.Snapshot())
      ensures queue.Contents() == old(queue.Contents())
    {
      hide Inv, Evolves, Q.Valid, Untouched, Effects.ExpiredAt, Effects.OnlyOverdueExpired, Effects.NoneOverdue, Effects.Failed;
      n := 0;
      EvolvesReflexive(db.Snapshot());
      ghost var was := db.Snapshot();
      UntouchedAtFirst(was);
      Effects.NoneExpired(was.approvals);
      var overdue := db.FindOverdueApprovals(limit, now);
      full := limit > 0 && |overdue| == limit;
      for j := 0 to |overdue|
        invariant Valid() && Evolves(was, db.Snapshot())
        invariant queue.Contents() == old(queue.Contents()) && |db.approvals| == |was.approvals|
        invariant Effects.ExpiredAt(was.approvals, db.approvals, overdue[..j])
        invariant j == 0 ==> db.Snapshot() == was
        invariant Untouched(was, db.Snapshot())
      {
        assert overdue[..j + 1] == overdue[..j] + [overdue[j]] && overdue[j] in overdue;
        ghost var before := db.Snapshot();
        var outcome := Expire(overdue[j], now);
        EvolvesTransitive(was, before, db.Snapshot());
        UntouchedStill(defs, was, before, db.Snapshot(), overdue[j]);
        Effects.OneMoreExpired(was.approvals, before.approvals, db.approvals, overdue[..j], overdue[j]);
        if outcome.Some? {
          n := n + 1;
        }
      }
      assert overdue[..|overdue|] == overdue && (|overdue| > 0 ==> overdue[0] in overdue);
      Effects.AllExpired(was.approvals, db.approvals, overdue, now, full);
    }

    method SweepTasks(cutoff: int, limit: nat, now: int) returns (counts: Calls.Counts, ghost full: bool)
      requires Valid()
      modifies db`tasks, queue
      ensures Valid() && Evolves(old(db.Snapshot()), db.Snapshot()) && |db.approvals| == |ids|
      ensures SweptTasks(old(db.Snapshot()), db.Snapshot(), cutoff, now) && (full ==> 0 < limit <= |ids|)
      ensures Refilled(old(queue.Contents()), queue.Contents(), Needy(old(db.Snapshot()), cutoff, now, ids), redisUp, full)
    {
      hide Inv, Evolves, Q.Valid, Calls.NeedsQueue, Needy, OfKind, Effects.NewlyQueued, SweptTasks;
      AsManyApprovals(defs, db.Snapshot());
      ghost var full1, full2, full3, full4;
      var ready, queued, running, retrying;
      ghost var was, q0 := db.Snapshot(), queue.Contents();
      ready, full1 := SweepReady(cutoff, limit, now);
      ghost var q1 := queue.Contents();
      queued, full2 := SweepEnqueue(T.QUEUED, (t: Task) => Calls.Older(t.queuedAt, cutoff), limit);
      ghost var q2 := queue.Contents();
      running, full3 := SweepEnqueue(T.RUNNING, (t: Task) => Tx.LeaseExpired(t, now), limit);
      ghost var q3 := queue.Contents();
      retrying, full4 := SweepEnqueue(T.RETRYING, (t: Task) => Calls.Older(t.retryAt, cutoff), limit);
      full := full1 || full2 || full3 || full4;
      counts := Calls.Counts(ready, queued, running, retrying, 0);
      FourSweeps(q0, q1, q2, q3, queue.Contents());
      OnlyNeedy(was, db.Snapshot(), cutoff, now, ids);
      if redisUp && !full {
        EveryKind(was, db.Snapshot(), cutoff, now, ids, queue.members);
      }
    }

    /**
     * The database is the truth, and the queue is made to agree with it: whatever the
     * queue held before, even nothing, every task that waits for a worker in vain is in
     * it afterwards, unless Redis is down or a sweep stopped at its limit. Nothing else is
     * enqueued, no request that is not overdue is touched, and without an overdue one the
     * documents change only by the dispatch of READY tasks.
     */
    method Reconcile(staleMs: int, limit: nat, now: int) returns (counts: Calls.Counts, ghost full: bool)
      requires Valid()
      modifies db, queue
      ensures Valid() && Evolves(old(db.Snapshot()), db.Snapshot())
      ensures limit == 0 || limit > |ids| ==> !full
      ensures redisUp && !full ==>
        forall k: nat :: Calls.NeedsQueue(old(db.Snapshot()), k, now - staleMs, now) ==> k < |ids| && ids[k] in queue.members
      ensures Refilled(old(queue.Contents()), queue.Contents(), Needy(old(db.Snapshot()), now - staleMs, now, ids), redisUp, full)
      ensures Effects.OnlyOverdueExpired(old(db.approvals), db.approvals, now, full)
      ensures Effects.NoneOverdue(old(db.approvals), now) ==>
        SweptTasks(old(db.Snapshot()), db.Snapshot(), now - staleMs, now)
    {
      hide Inv, Evolves, Q.Valid, Q.Added, Calls.NeedsQueue, Needy, SweptTasks, Refilled, Untouched, Effects.OnlyOverdueExpired,
        Effects.NoneOverdue;
      var cutoff := now - staleMs;
      ghost var was, queueWas := db.Snapshot(), queue.Contents();
      ghost var full1, full2;
      var expired;
      counts, full1 := SweepTasks(cutoff, limit, now);
      ghost var swept := db.Snapshot();
      expired, full2 := ExpireApprovals(limit, now);
      EvolvesTransitive(was, swept, db.Snapshot());
      full := full1 || full2;
      SweptApprovals(was, swept, cutoff, now);
      SomeLeft(was.approvals, db.approvals, now, full2, full);
      RefilledSome(queueWas, queue.Contents(), was, cutoff, now, ids, redisUp, full1, full);
      counts := counts.(expiredApprovals := expired);
    }
  }

  /** The sweeps over tasks: each document is as before, or was READY too long in a RUNNING run and is QUEUED now. */
  ghost predicate SweptTasks(a: Run, b: Run, cutoff: int, now: int) {
    && b == a.(tasks := b.tasks) && |b.tasks| == |a.tasks|
    && forall k :: 0 <= k < |a.tasks| ==>
      || b.tasks[k] == a.tasks[k]
      || (&& a.exec.status == E.RUNNING && a.tasks[k].status == T.READY && Calls.Older(a.tasks[k].readyAt, cutoff)
          && b.tasks[k] == a.tasks[k].(status := T.QUEUED, queuedAt := Some(now)))
  }

  lemma SweptApprovals(a: Run, b: Run, cutoff: int, now: int)
    requires SweptTasks(a, b, cutoff, now)
    ensures b.approvals == a.approvals
  {
  }

  lemma SomeLeft(a: seq<Approval>, b: seq<Approval>, now: int, full: bool, any: bool)
    requires Effects.OnlyOverdueExpired(a, b, now, full) && (full ==> any)
    ensures Effects.OnlyOverdueExpired(a, b, now, any)
  {
  }

  /** The ids of the tasks in this status that an update of this kind is looking for. */
  ghost function OfKind(tasks: seq<Task>, status: T, stuck: Task -> bool, ids: seq<Id>): set<Id> {
    set k | 0 <= k < |ids| && k < |tasks| && tasks[k].status == status && stuck(tasks[k]) :: ids[k]
  }

  /** The ids of the tasks in need. */
  ghost function Needy(s: Run, cutoff: int, now: int, ids: seq<Id>): set<Id> {
    set k: nat | k < |ids| && Calls.NeedsQueue(s, k, cutoff, now) :: ids[k]
  }

  /** Nothing but the ids in need was enqueued, and all of them were unless Redis is down or a limit was reached. */
  ghost predicate Refilled(a: Q.Redis, b: Q.Redis, needy: set<Id>, up: bool, limited: bool) {
    && Q.Added(a, b, b.members) && b.members <= a.members + (if up then needy else {})
    && (up && !limited ==> needy <= b.members)
  }

  lemma RefilledSome(a: Q.Redis, b: Q.Redis, s: Run, cutoff: int, now: int, ids: seq<Id>, up: bool, limited: bool, any: bool)
    requires Refilled(a, b, Needy(s, cutoff, now, ids), up, limited) && (limited ==> any) && |s.tasks| == |ids|
    ensures Refilled(a, b, Needy(s, cutoff, now, ids), up, any)
    ensures up && !any ==> forall k: nat :: Calls.NeedsQueue(s, k, cutoff, now) ==> k < |ids| && ids[k] in b.members
  {
    forall k: nat | up && !any && Calls.NeedsQueue(s, k, cutoff, now) ensures k < |ids| && ids[k] in b.members {
      assert ids[k] in Needy(s, cutoff, now, ids);
    }
  }

  lemma FourSweeps(q0: Q.Redis, q1: Q.Redis, q2: Q.Redis, q3: Q.Redis, q4: Q.Redis)
    requires exists ids :: Q.Added(q0, q1, ids)
    requires Q.Added(q1, q2, q2.members) && Q.Added(q2, q3, q3.members) && Q.Added(q3, q4, q4.members)
    ensures Q.Added(q0, q4, q4.members)
    ensures q0.members <= q1.members <= q2.members <= q3.members <= q4.members
  {
  }

  /** What the sweeps look for after the first one was in need before it. */
  lemma OnlyNeedy(was: Run, b: Run, cutoff: int, now: int, ids: seq<Id>)
    requires SweptTasks(was, b, cutoff, now)
    ensures Effects.NewlyQueued(was.tasks, b.tasks, ids) <= Needy(was, cutoff, now, ids)
    ensures OfKind(b.tasks, T.QUEUED, (t: Task) => Calls.Older(t.queuedAt, cutoff), ids) <= Needy(was, cutoff, now, ids)
    ensures OfKind(b.tasks, T.RUNNING, (t: Task) => Tx.LeaseExpired(t, now), ids) <= Needy(was, cutoff, now, ids)
    ensures OfKind(b.tasks, T.RETRYING, (t: Task) => Calls.Older(t.retryAt, cutoff), ids) <= Needy(was, cutoff, now, ids)
  {
    forall k: nat | k < |ids| && k < |b.tasks| && (b.tasks[k] != was.tasks[k] || Calls.NeedsQueue(was, k, cutoff, now))
      ensures ids[k] in Needy(was, cutoff, now, ids)
    {
      assert Calls.NeedsQueue(was, k, cutoff, now);
    }
  }

  /** The four sweeps together find every task in need. */
  lemma EveryKind(was: Run, b: Run, cutoff: int, now: int, ids: seq<Id>, members: set<Id>)
    requires SweptTasks(was, b, cutoff, now) && |was.tasks| == |ids|
    requires was.exec.status == E.RUNNING ==>
      forall k :: 0 <= k < |b.tasks| && b.tasks[k].status == T.READY ==> !Calls.Older(b.tasks[k].readyAt, cutoff)
    requires Effects.NewlyQueued(was.tasks, b.tasks, ids) <= members
    requires OfKind(b.tasks, T.QUEUED, (t: Task) => Calls.Older(t.queuedAt, cutoff), ids) <= members
    requires OfKind(b.tasks, T.RUNNING, (t: Task) => Tx.LeaseExpired(t, now), ids) <= members
    requires OfKind(b.tasks, T.RETRYING, (t: Task) => Calls.Older(t.retryAt, cutoff), ids) <= members
    ensures Needy(was, cutoff, now, ids) <= members
  {
    forall k: nat | k < |ids| && Calls.NeedsQueue(was, k, cutoff, now) ensures ids[k] in members {
      if was.tasks[k].status == T.READY {
        assert ids[k] in Effects.NewlyQueued(was.tasks, b.tasks, ids);
      } else if was.tasks[k].status == T.QUEUED {
        assert ids[k] in OfKind(b.tasks, T.QUEUED, (t: Task) => Calls.Older(t.queuedAt, cutoff), ids);
      } else if was.tasks[k].status == T.RUNNING {
        assert ids[k] in OfKind(b.tasks, T.RUNNING, (t: Task) => Tx.LeaseExpired(t, now), ids);
      } else {
        assert ids[k] in OfKind(b.tasks, T.RETRYING, (t: Task) => Calls.Older(t.retryAt, cutoff), ids);
      }
    }
  }

  /** What a worker holds, and what is finished, stays as it was. */
  ghost predicate Untouched(a: Run, b: Run) {
    && |b.tasks| == |a.tasks|
    && forall i :: 0 <= i < |a.tasks| ==>
      || a.tasks[i].status in {T.PENDING, T.READY, T.QUEUED, T.RETRYING, T.WAITING_FOR_APPROVAL}
      || b.tasks[i] == a.tasks[i]
  }

  lemma UntouchedAtFirst(a: Run)
    ensures Untouched(a, a)
  {
  }

  lemma UntouchedStill(defs: seq<TaskDef>, was: Run, a: Run, b: Run, k: nat)
    requires Inv(defs, a) && Untouched(was, a) && k < |a.approvals|
    requires if a.approvals[k].REQUESTED? then Effects.Failed(a, b, k) else b == a
    ensures Untouched(was, b)
  {
    if a.approvals[k].REQUESTED? {
      assert Paired(a.tasks[k].status, a.approvals[k]);
    }
  }

  // ---------------------------------------------------------------- effects of whole calls

  lemma CompleteEffect(defs: seq<TaskDef>, s: Run, k: nat, token: int, output: Output, now: int)
    requires Inv(defs, s)
    ensures Effects.SameQueued(s.tasks, Tx.Complete(s, k, token, output, now).tasks)
    ensures Tx.Holds(s, k, token) ==>
      var b := Calls.DispatchReady(Tx.Complete(s, k, token, output, now), now);
      && k < |b.tasks| && Effects.Succeeded(s, b, k, now) && b.approvals == s.approvals
      && b.tasks[k] == s.tasks[k].(status := T.COMPLETED, output := Some(output), leaseExpiresAt := None)
    ensures !Tx.Holds(s, k, token) ==> Tx.Complete(s, k, token, output, now) == s
  {
    Effects.CompleteQueuesNothing(s, k, token, output, now);
    if Tx.Holds(s, k, token) {
      Effects.ChildrenKnown(defs, s, k);
      Effects.CompleteHas(s, k, token, output, now);
    }
  }

  lemma FailEffect(s: Run, k: nat, token: int, retryable: bool, delayMs: int, now: int)
    ensures Calls.FailOutcome(s, k, token, retryable).Some? <==> Tx.Holds(s, k, token)
    ensures var b := Tx.Fail(s, k, token, retryable, delayMs, now);
      if Tx.Holds(s, k, token) then
        && Effects.FailureReported(s, b, k, retryable, now + delayMs) && k < |b.tasks|
        && Calls.FailOutcome(s, k, token, retryable) == Some(b.tasks[k].status)
      else b == s
  {
    if Tx.Holds(s, k, token) {
      Effects.FailHas(s, k, token, retryable, delayMs, now);
      hide Tx.Fail;
    }
  }

  lemma ClaimWritten(s: Run, k: nat, now: int, leaseMs: int)
    ensures Tx.Claimable(s, k, now) ==> Effects.HandedOut(s, Tx.Claim(s, k, now, leaseMs), k, now + leaseMs)
    ensures !Tx.Claimable(s, k, now) ==> Tx.Claim(s, k, now, leaseMs) == s
  {
  }

  lemma ResolveEffect(defs: seq<TaskDef>, s: Run, k: nat, decision: Decision, now: int)
    requires Inv(defs, s)
    ensures Effects.SameQueued(s.tasks, Tx.Resolve(s, k, APPROVED, now).tasks)
    ensures !(k < |s.approvals| && s.approvals[k].REQUESTED?) ==> Tx.Resolve(s, k, decision, now) == s
    ensures k < |s.approvals| && s.approvals[k].REQUESTED? ==>
      Effects.Decided(s, Decided(s, k, decision, now), k, decision, now)
  {
    Effects.ApproveQueuesNothing(s, k, now);
    if k < |s.approvals| && s.approvals[k].REQUESTED? {
      assert k < |s.tasks| && Paired(s.tasks[k].status, s.approvals[k]);
      Effects.ChildrenKnown(defs, s, k);
      hide Inv;
      if decision == APPROVED {
        Effects.ApproveHas(s, k, now);
      } else {
        Effects.RejectHas(s, k, decision, now);
      }
    }
  }

  /** The documents after a decision: an approval is followed by a dispatch. */
  function Decided(s: Run, k: nat, decision: Decision, now: int): Run {
    var b := Tx.Resolve(s, k, decision, now);
    if decision == APPROVED then Calls.DispatchReady(b, now) else b
  }

  lemma DecisionRow(defs: seq<TaskDef>, s: Run, k: nat, decision: Decision, now: int)
    requires Inv(defs, s)
    ensures k < |s.approvals| && s.approvals[k].REQUESTED? ==>
      Effects.OneDecisionRow(s.outbox, Decided(s, k, decision, now).outbox, k, decision)
  {
    if k < |s.approvals| && s.approvals[k].REQUESTED? {
      Preserves.ResolveKeeps(defs, s, k, decision, now);
      ResolveEffect(defs, s, k, decision, now);
      var b := Tx.Resolve(s, k, decision, now);
      hide Tx.Resolve;
      LogsKnown(defs, s);
      LogsKnown(defs, b);
      hide Inv, LogAgrees, Effects.OneDecisionRow;
      assert b.approvals == Decided(s, k, decision, now).approvals && b.outbox == Decided(s, k, decision, now).outbox;
      Effects.DecisionLogged(s, b, k, decision);
    }
  }

  lemma LogsKnown(defs: seq<TaskDef>, s: Run)
    requires Inv(defs, s)
    ensures LogAgrees(s)
  {
  }

  lemma CancelEffect(defs: seq<TaskDef>, s: Run)
    requires Inv(defs, s)
    ensures Live(s.exec.status) ==> Effects.Cancelled(s, Tx.Cancel(s))
    ensures !Live(s.exec.status) ==> Tx.Cancel(s) == s
  {
    if Live(s.exec.status) {
      Effects.CancelHas(s);
    }
  }

  lemma UnfinishedStatuses(st: T)
    ensures st in {T.PENDING, T.READY, T.QUEUED, T.RETRYING, T.RUNNING, T.WAITING_FOR_APPROVAL} <==> !Finished(st)
  {
  }

  /** The token a claim takes is the attempt it makes, and it is what the claimer reports with. */
  lemma ClaimedIs(defs: seq<TaskDef>, s: Run, k: nat, now: int, leaseMs: int)
    requires Inv(defs, s) && Tx.Claimable(s, k, now)
    ensures var c := Tx.Claim(s, k, now, leaseMs);
      && |c.tasks| == |s.tasks| && c.tasks[k].attempt == c.tasks[k].leaseToken && c.tasks[k].def == s.tasks[k].def
      && Tx.Holds(c, k, c.tasks[k].leaseToken)
      && (Calls.HandsOut(s, k, now) <==> c.tasks[k].attempt <= c.tasks[k].def.maxAttempts)
  {
    assert FieldsAgree(s.tasks[k]);
  }

  lemma AsManyApprovals(defs: seq<TaskDef>, s: Run)
    requires Inv(defs, s)
    ensures |s.approvals| == |s.tasks|
  {
  }

  lemma KeysDiffer(defs: seq<TaskDef>, s: Run, k: nat)
    requires Inv(defs, s) && k < |s.tasks| && s.tasks[k].status == T.RUNNING
    ensures System.DistinctKeys(s)
    ensures forall p :: 0 <= p < |s.tasks| && IsParent(s, p, k) ==> s.tasks[p].status == T.COMPLETED
  {
  }

  /** Keys differ, so each parent's output is read under its own key. */
  lemma ParentRead(s: Run, k: nat, p: nat)
    requires System.DistinctKeys(s) && k < |s.tasks| && p < |s.tasks| && IsParent(s, p, k)
    ensures s.tasks[p].def.key in System.ParentOutputs(s, k)
    ensures System.ParentOutputs(s, k)[s.tasks[p].def.key] == s.tasks[p].output
  {
  }

  lemma ParentsRead(defs: seq<TaskDef>, s: Run, k: nat)
    requires Inv(defs, s) && k < |s.tasks| && s.tasks[k].status == T.RUNNING
    ensures System.DistinctKeys(s)
    ensures forall p: nat :: p < |s.tasks| && IsParent(s, p, k) ==>
      && s.tasks[p].status == T.COMPLETED && s.tasks[p].def.key in System.ParentOutputs(s, k)
      && System.ParentOutputs(s, k)[s.tasks[p].def.key] == s.tasks[p].output
  {
    KeysDiffer(defs, s, k);
    hide Inv, IsParent, System.ParentOutputs;
    forall p: nat | p < |s.tasks| && IsParent(s, p, k)
      ensures s.tasks[p].def.key in System.ParentOutputs(s, k)
      ensures System.ParentOutputs(s, k)[s.tasks[p].def.key] == s.tasks[p].output
    {
      ParentRead(s, k, p);
    }
  }

  lemma RenewHolds(s: Run, k: nat, token: int, now: int, leaseMs: int)
    ensures Tx.Holds(Tx.Renew(s, k, token, now, leaseMs), k, token) == Tx.Holds(s, k, token)
    ensures |Tx.Renew(s, k, token, now, leaseMs).tasks| == |s.tasks|
  {
  }

  lemma SameTasks(a: Run, b: Run)
    requires Evolves(a, b)
    ensures |a.tasks| == |b.tasks|
  {
  }

  lemma StartsValid(defs: seq<TaskDef>, now: int)
    requires ValidGraph(defs)
    ensures Structural(defs)
    ensures defs != [] ==> Inv(defs, Tx.Started(defs, now))
  {
    hide Inv, Structural;
    if defs != [] {
      Start.StartedKeeps(defs, now);
    }
  }

  /** The task document of a definition: roots are READY, the others wait for their dependencies. */
  function NewTask(def: TaskDef, dependents: map<Key, seq<Key>>, now: int): Task
    requires def.key in dependents
  {
    var isRoot := |def.dependsOn| == 0;
    Task(def, dependents[def.key], if isRoot then T.READY else T.PENDING, |def.dependsOn|,
         0, 0, None, if isRoot then Some(now) else None, None, None, None)
  }

  /** A task without dependents changes no other task. */
  lemma NobodyToTell(tasks: seq<Task>, now: int)
    ensures Tx.MapTasks(Tx.Decremented([]), tasks) == tasks && Tx.MapTasks(Tx.Promoted([], now), tasks) == tasks
  {
  }
}
