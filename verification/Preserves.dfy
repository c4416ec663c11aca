/** Every call of the engine, run as one atomic step, keeps the invariant and only moves forward. */
module Preserves {
  import opened Graphs
  import opened States
  import opened Options
  import opened Documents
  import opened Sums
  import opened Transactions
  import opened Invariant
  import Success
  import FailForGood
  import Moves

  // ---------------------------------------------------------------- the log

  /** The new rows are exactly what the change of the documents calls for. */
  lemma LogExtended(s: Run, a: Run, rows: seq<Event>)
    requires LogAgrees(s) && a.outbox == s.outbox + rows
    requires forall e :: Recorded(e) ==> multiset(rows)[e] == Expected(a, e) - Expected(s, e)
    requires ExecutionPaused !in rows && ExecutionResumed !in rows
    requires Counting(a.exec.status) ==> Counting(s.exec.status) && (a.exec.status == E.PAUSED <==> s.exec.status == E.PAUSED)
    ensures LogAgrees(a)
  {
    forall e ensures Count(a.outbox, e) == Count(s.outbox, e) + multiset(rows)[e] {
    }
  }

  function AsRows(e: Option<Event>): seq<Event> {
    if e.Some? then [e.value] else []
  }

  /** The rows of a finished task: the run's ending, if it ends, then the task's, then the decision, if one was made. */
  function Rows(ending: Option<Event>, main: Event, decided: Option<Event>): seq<Event> {
    AsRows(ending) + [main] + AsRows(decided)
  }

  function Is(e: Event, o: Option<Event>): nat {
    if o == Some(e) then 1 else 0
  }

  lemma RowCount(ending: Option<Event>, main: Event, decided: Option<Event>)
    ensures forall e :: multiset(Rows(ending, main, decided))[e] == Is(e, ending) + Is(e, Some(main)) + Is(e, decided)
  {
  }

  // ---------------------------------------------------------------- succeeding

  function SuccessRows(s: Run, k: nat, a: Run, decided: bool): seq<Event> {
    Rows(if a.exec.status != s.exec.status then Some(ExecutionCompleted) else None, TaskCompleted(k),
         if decided then Some(ApprovalDecided(k, APPROVED)) else None)
  }

  lemma SuccessRow(s: Run, k: nat, a: Run, decided: bool, e: Event)
    requires Success.Succeeds(s, k, a) && StatusAgrees(s) && |s.approvals| == |s.tasks| && Recorded(e)
    requires if decided then s.approvals[k].REQUESTED? && a.approvals[k] == DECIDED(APPROVED) else a.approvals == s.approvals
    ensures Expected(a, e) == Expected(s, e) + Is(e, Some(TaskCompleted(k)))
      + (if a.exec.status != s.exec.status then Is(e, Some(ExecutionCompleted)) else 0)
      + (if decided then Is(e, Some(ApprovalDecided(k, APPROVED))) else 0)
  {
    if (e.TaskCompleted? || e.TaskFailed? || e.TaskDeadLettered?) && e.task < |s.tasks| && e.task != k {
      assert Success.ToldFrom(s.exec.status, s.tasks[k].dependents, s.tasks[e.task], a.tasks[e.task]);
    }
  }

  lemma SuccessLogs(s: Run, k: nat, a: Run, decided: bool)
    requires Success.Succeeds(s, k, a) && LogAgrees(s) && StatusAgrees(s) && |s.approvals| == |s.tasks|
    requires a.outbox == s.outbox + SuccessRows(s, k, a, decided)
    requires if decided then s.approvals[k].REQUESTED? && a.approvals[k] == DECIDED(APPROVED) else a.approvals == s.approvals
    ensures LogAgrees(a)
  {
    var ending := if a.exec.status != s.exec.status then Some(ExecutionCompleted) else None;
    var extra := if decided then Some(ApprovalDecided(k, APPROVED)) else None;
    RowCount(ending, TaskCompleted(k), extra);
    forall e | Recorded(e) ensures multiset(SuccessRows(s, k, a, decided))[e] == Expected(a, e) - Expected(s, e) {
      SuccessRow(s, k, a, decided, e);
    }
    LogExtended(s, a, SuccessRows(s, k, a, decided));
  }

  lemma CompleteFacts(s: Run, k: nat, token: int, output: Output, now: int)
    requires Holds(s, k, token) && s.tasks[k].def.key !in s.tasks[k].dependents
    ensures var a := Complete(s, k, token, output, now);
      Success.Succeeds(s, k, a) && a.approvals == s.approvals && a.outbox == s.outbox + SuccessRows(s, k, a, false)
  {
    var t' := s.tasks[k].(status := T.COMPLETED, output := Some(output), leaseExpiresAt := None);
    assert s.(approvals := s.approvals) == s;
    Success.Facts(s, k, t', s.approvals, now);
  }

  lemma HeldTask(defs: seq<TaskDef>, s: Run, k: nat, token: int)
    requires Inv(defs, s) && Holds(s, k, token)
    ensures |s.approvals| == |s.tasks| && s.approvals[k] == NONE && s.tasks[k].def.key !in s.tasks[k].dependents
  {
    ChildIffListed(defs, s, k, k);
    assert Paired(s.tasks[k].status, s.approvals[k]);
  }

  lemma CompleteKeeps(defs: seq<TaskDef>, s: Run, k: nat, token: int, output: Output, now: int)
    requires Inv(defs, s)
    ensures Inv(defs, Complete(s, k, token, output, now)) && Evolves(s, Complete(s, k, token, output, now))
    ensures Holds(s, k, token) ==> Success.Succeeds(s, k, Complete(s, k, token, output, now))
  {
    hide Inv, Evolves, Success.Succeeds, SuccessRows, AfterTaskSucceeded;
    if Holds(s, k, token) {
      hide Complete;
      HeldTask(defs, s, k, token);
      CompleteFacts(s, k, token, output, now);
      FinishSuccess(defs, s, k, Complete(s, k, token, output, now), false);
    } else {
      EvolvesReflexive(s);
    }
  }

  lemma FinishSuccess(defs: seq<TaskDef>, s: Run, k: nat, a: Run, decided: bool)
    requires Inv(defs, s) && Success.Succeeds(s, k, a)
    requires a.outbox == s.outbox + SuccessRows(s, k, a, decided)
    requires if decided then s.approvals[k].REQUESTED? && a.approvals[k] == DECIDED(APPROVED)
             else a.approvals == s.approvals && s.approvals[k] == NONE
    ensures Inv(defs, a) && Evolves(s, a)
  {
    Success.Keeps(defs, s, k, a);
    Success.Evolved(s, k, a);
    SuccessLogs(s, k, a, decided);
  }

  // ---------------------------------------------------------------- failing for good

  function FailureEvent(k: nat, t: T): Event {
    if t == T.DEAD_LETTER then TaskDeadLettered(k) else TaskFailed(k)
  }

  function FailureRows(s: Run, k: nat, a: Run, decision: Option<Decision>): seq<Event>
    requires k < |a.tasks|
  {
    Rows(if a.exec.status != s.exec.status then Some(ExecutionFailed) else None,
         FailureEvent(k, a.tasks[k].status),
         if decision.Some? then Some(ApprovalDecided(k, decision.value)) else None)
  }

  lemma FailureRow(s: Run, k: nat, a: Run, decision: Option<Decision>, e: Event)
    requires FailForGood.Fails(s, k, a) && |s.approvals| == |s.tasks| && Recorded(e)
    requires if decision.Some? then s.approvals[k].REQUESTED? && a.approvals[k] == DECIDED(decision.value) else a.approvals == s.approvals
    ensures Expected(a, e) == Expected(s, e) + Is(e, Some(FailureEvent(k, a.tasks[k].status)))
      + (if a.exec.status != s.exec.status then Is(e, Some(ExecutionFailed)) else 0)
      + (if decision.Some? then Is(e, Some(ApprovalDecided(k, decision.value))) else 0)
  {
    if (e.TaskCompleted? || e.TaskFailed? || e.TaskDeadLettered?) && e.task < |s.tasks| && e.task != k {
      assert FailForGood.StoppedFrom(s.exec.status, s.tasks[e.task], a.tasks[e.task]);
    }
  }

  lemma FailureLogs(s: Run, k: nat, a: Run, decision: Option<Decision>)
    requires FailForGood.Fails(s, k, a) && LogAgrees(s) && |s.approvals| == |s.tasks|
    requires a.outbox == s.outbox + FailureRows(s, k, a, decision)
    requires if decision.Some? then s.approvals[k].REQUESTED? && a.approvals[k] == DECIDED(decision.value) else a.approvals == s.approvals
    requires Live(s.exec.status) || s.exec.status == E.FAILED
    ensures LogAgrees(a)
  {
    RowCount(if a.exec.status != s.exec.status then Some(ExecutionFailed) else None, FailureEvent(k, a.tasks[k].status),
             if decision.Some? then Some(ApprovalDecided(k, decision.value)) else None);
    forall e | Recorded(e) ensures multiset(FailureRows(s, k, a, decision))[e] == Expected(a, e) - Expected(s, e) {
      FailureRow(s, k, a, decision, e);
    }
    LogExtended(s, a, FailureRows(s, k, a, decision));
  }

  lemma FinishFailure(defs: seq<TaskDef>, s: Run, k: nat, a: Run, decision: Option<Decision>)
    requires Inv(defs, s) && FailForGood.Fails(s, k, a)
    requires a.outbox == s.outbox + FailureRows(s, k, a, decision)
    requires if decision.Some? then decision.value != APPROVED && a.tasks[k].status == T.FAILED
                                    && s.approvals[k].REQUESTED? && a.approvals[k] == DECIDED(decision.value)
             else a.approvals == s.approvals && s.approvals[k] == NONE
    ensures Inv(defs, a) && Evolves(s, a)
  {
    FailForGood.UnfinishedMeansLive(s, k);
    FailForGood.Keeps(defs, s, k, a);
    FailForGood.Evolved(s, k, a);
    FailureLogs(s, k, a, decision);
  }

  // ---------------------------------------------------------------- moving on

  /** The rows of a move: none, a retry notice, or the notice that `k` asks for approval. */
  ghost predicate MoveRows(s: Run, k: nat, a: Run, rows: seq<Event>)
    requires k < |s.approvals| && k < |a.approvals|
  {
    || (a.approvals[k] == s.approvals[k] && (rows == [] || exists attempt :: rows == [TaskRetrying(k, attempt)]))
    || (s.approvals[k] == NONE && a.approvals[k].REQUESTED? && rows == [ApprovalRequested(k)])
  }

  lemma MoveLogs(s: Run, k: nat, a: Run, rows: seq<Event>)
    requires Moves.MovesOn(s, k, a) && LogAgrees(s) && |s.approvals| == |s.tasks|
    requires a.outbox == s.outbox + rows && MoveRows(s, k, a, rows)
    ensures LogAgrees(a)
  {
    assert ExecutionPaused !in rows && ExecutionResumed !in rows && a.exec.status == s.exec.status;
    hide Moves.MovesOn, LogAgrees, Expected;
    forall e | Recorded(e) ensures multiset(rows)[e] == Expected(a, e) - Expected(s, e) {
      MoveRow(s, k, a, rows, e);
    }
    LogExtended(s, a, rows);
  }

  lemma MoveRow(s: Run, k: nat, a: Run, rows: seq<Event>, e: Event)
    requires Moves.MovesOn(s, k, a) && |s.approvals| == |s.tasks| && MoveRows(s, k, a, rows) && Recorded(e)
    ensures multiset(rows)[e] == Expected(a, e) - Expected(s, e)
  {
    if a.approvals[k] == s.approvals[k] {
      assert multiset(rows)[e] == 0;
    } else {
      assert rows == [ApprovalRequested(k)];
      assert multiset(rows)[e] == if e == ApprovalRequested(k) then 1 else 0;
    }
  }

  lemma FinishMove(defs: seq<TaskDef>, s: Run, k: nat, a: Run, rows: seq<Event>)
    requires Inv(defs, s) && Moves.MovesOn(s, k, a)
    requires FieldsAgree(a.tasks[k]) && Paired(a.tasks[k].status, a.approvals[k])
    requires TaskEvolves(s.tasks[k], a.tasks[k]) && ApprovalEvolves(s.approvals[k], a.approvals[k])
    requires a.outbox == s.outbox + rows && MoveRows(s, k, a, rows)
    ensures Inv(defs, a) && Evolves(s, a)
  {
    Moves.MovesKeeps(defs, s, k, a);
    Moves.MovesEvolves(s, k, a);
    MoveLogs(s, k, a, rows);
  }

  lemma RetryFacts(s: Run, k: nat, token: int, retryable: bool, delayMs: int, now: int)
    requires Holds(s, k, token) && WillRetry(s, k, retryable) && |s.approvals| == |s.tasks|
    requires FieldsAgree(s.tasks[k]) && Paired(s.tasks[k].status, s.approvals[k])
    ensures var a := Fail(s, k, token, retryable, delayMs, now);
      && Moves.MovesOn(s, k, a) && FieldsAgree(a.tasks[k]) && Paired(a.tasks[k].status, a.approvals[k])
      && TaskEvolves(s.tasks[k], a.tasks[k]) && ApprovalEvolves(s.approvals[k], a.approvals[k])
      && a.outbox == s.outbox + [TaskRetrying(k, s.tasks[k].attempt)]
      && MoveRows(s, k, a, [TaskRetrying(k, s.tasks[k].attempt)])
  {
    OneMove(T.RUNNING, T.RETRYING);
  }

  lemma RetryKeeps(defs: seq<TaskDef>, s: Run, k: nat, token: int, retryable: bool, delayMs: int, now: int)
    requires Inv(defs, s) && Holds(s, k, token) && WillRetry(s, k, retryable)
    ensures var a := Fail(s, k, token, retryable, delayMs, now);
      Inv(defs, a) && Evolves(s, a) && Moves.MovesOn(s, k, a)
  {
    assert Paired(s.tasks[k].status, s.approvals[k]) && FieldsAgree(s.tasks[k]) && |s.approvals| == |s.tasks|;
    hide Inv, Evolves, Fail, Moves.MovesOn, Paired, FieldsAgree, TaskEvolves, ApprovalEvolves, MoveRows;
    RetryFacts(s, k, token, retryable, delayMs, now);
    FinishMove(defs, s, k, Fail(s, k, token, retryable, delayMs, now), [TaskRetrying(k, s.tasks[k].attempt)]);
  }

  lemma FailFacts(s: Run, k: nat, token: int, retryable: bool, delayMs: int, now: int)
    requires Holds(s, k, token) && !WillRetry(s, k, retryable)
    ensures var a := Fail(s, k, token, retryable, delayMs, now);
      FailForGood.Fails(s, k, a) && a.approvals == s.approvals && a.outbox == s.outbox + FailureRows(s, k, a, None)
  {
    var dead := retryable && s.tasks[k].attempt >= s.tasks[k].def.maxAttempts;
    var t' := s.tasks[k].(status := if dead then T.DEAD_LETTER else T.FAILED, leaseExpiresAt := None);
    FailForGood.Facts(s, k, t', s.approvals, dead);
    assert s.(approvals := s.approvals) == s;
  }

  lemma FailForGoodKeeps(defs: seq<TaskDef>, s: Run, k: nat, token: int, retryable: bool, delayMs: int, now: int)
    requires Inv(defs, s) && Holds(s, k, token) && !WillRetry(s, k, retryable)
    ensures var a := Fail(s, k, token, retryable, delayMs, now);
      Inv(defs, a) && Evolves(s, a) && FailForGood.Fails(s, k, a)
  {
    hide Inv, Evolves, FailForGood.Fails, FailureRows, Fail;
    HeldTask(defs, s, k, token);
    FailFacts(s, k, token, retryable, delayMs, now);
    FinishFailure(defs, s, k, Fail(s, k, token, retryable, delayMs, now), None);
  }

  lemma FailKeeps(defs: seq<TaskDef>, s: Run, k: nat, token: int, retryable: bool, delayMs: int, now: int)
    requires Inv(defs, s)
    ensures Inv(defs, Fail(s, k, token, retryable, delayMs, now)) && Evolves(s, Fail(s, k, token, retryable, delayMs, now))
  {
    if !Holds(s, k, token) {
      EvolvesReflexive(s);
    } else if WillRetry(s, k, retryable) {
      RetryKeeps(defs, s, k, token, retryable, delayMs, now);
    } else {
      FailForGoodKeeps(defs, s, k, token, retryable, delayMs, now);
    }
  }

  // ---------------------------------------------------------------- approvals

  lemma SuspendKeeps(defs: seq<TaskDef>, s: Run, k: nat, token: int, timeoutMs: int, now: int)
    requires Inv(defs, s)
    ensures !DuplicateRequest(s, k, token)
    ensures Inv(defs, Suspend(s, k, token, timeoutMs, now)) && Evolves(s, Suspend(s, k, token, timeoutMs, now))
    ensures Holds(s, k, token) ==> Moves.MovesOn(s, k, Suspend(s, k, token, timeoutMs, now))
  {
    var a := Suspend(s, k, token, timeoutMs, now);
    if !Holds(s, k, token) {
      EvolvesReflexive(s);
    } else {
      assert Paired(s.tasks[k].status, s.approvals[k]) && FieldsAgree(s.tasks[k]);
      OneMove(T.RUNNING, T.WAITING_FOR_APPROVAL);
      FinishMove(defs, s, k, a, [ApprovalRequested(k)]);
    }
  }

  lemma ApproveFacts(s: Run, k: nat, now: int)
    requires k < |s.approvals| && s.approvals[k].REQUESTED? && At(s, k, T.WAITING_FOR_APPROVAL)
    requires s.tasks[k].leaseExpiresAt.None? && s.tasks[k].def.key !in s.tasks[k].dependents
    ensures var a := Resolve(s, k, APPROVED, now);
      && Success.Succeeds(s, k, a) && a.approvals[k] == DECIDED(APPROVED)
      && a.outbox == s.outbox + SuccessRows(s, k, a, true)
  {
    var t' := s.tasks[k].(status := T.COMPLETED, output := Some("approved"));
    Success.Facts(s, k, t', s.approvals[k := DECIDED(APPROVED)], now);
  }

  lemma ApproveKeeps(defs: seq<TaskDef>, s: Run, k: nat, now: int)
    requires Inv(defs, s) && k < |s.approvals| && s.approvals[k].REQUESTED?
    ensures !NotActionable(s, k)
    ensures var a := Resolve(s, k, APPROVED, now);
      Inv(defs, a) && Evolves(s, a) && Success.Succeeds(s, k, a)
  {
    assert Paired(s.tasks[k].status, s.approvals[k]) && FieldsAgree(s.tasks[k]);
    ChildIffListed(defs, s, k, k);
    ApproveFacts(s, k, now);
    FinishSuccess(defs, s, k, Resolve(s, k, APPROVED, now), true);
  }

  lemma RejectFacts(s: Run, k: nat, decision: Decision, now: int)
    requires k < |s.approvals| && s.approvals[k].REQUESTED? && At(s, k, T.WAITING_FOR_APPROVAL) && decision != APPROVED
    requires s.tasks[k].leaseExpiresAt.None?
    ensures var a := Resolve(s, k, decision, now);
      && FailForGood.Fails(s, k, a) && a.tasks[k].status == T.FAILED && a.approvals[k] == DECIDED(decision)
      && a.outbox == s.outbox + FailureRows(s, k, a, Some(decision))
  {
    FailForGood.Facts(s, k, s.tasks[k].(status := T.FAILED), s.approvals[k := DECIDED(decision)], false);
  }

  lemma RejectKeeps(defs: seq<TaskDef>, s: Run, k: nat, decision: Decision, now: int)
    requires Inv(defs, s) && k < |s.approvals| && s.approvals[k].REQUESTED? && decision != APPROVED
    ensures !NotActionable(s, k)
    ensures var a := Resolve(s, k, decision, now);
      Inv(defs, a) && Evolves(s, a) && FailForGood.Fails(s, k, a)
  {
    assert Paired(s.tasks[k].status, s.approvals[k]) && FieldsAgree(s.tasks[k]);
    RejectFacts(s, k, decision, now);
    FinishFailure(defs, s, k, Resolve(s, k, decision, now), Some(decision));
  }

  /** The decision that wins the request always finds the task waiting: the conflict is never thrown. */
  lemma ResolveKeeps(defs: seq<TaskDef>, s: Run, k: nat, decision: Decision, now: int)
    requires Inv(defs, s)
    ensures !NotActionable(s, k)
    ensures Inv(defs, Resolve(s, k, decision, now)) && Evolves(s, Resolve(s, k, decision, now))
  {
    if k < |s.approvals| && s.approvals[k].REQUESTED? {
      if decision == APPROVED {
        ApproveKeeps(defs, s, k, now);
      } else {
        RejectKeeps(defs, s, k, decision, now);
      }
    } else {
      EvolvesReflexive(s);
    }
  }

  // ---------------------------------------------------------------- pause, resume, cancel

  lemma PauseKeeps(defs: seq<TaskDef>, s: Run)
    requires Inv(defs, s)
    ensures Inv(defs, Pause(s)) && Evolves(s, Pause(s))
  {
    EvolvesReflexive(s);
    if s.exec.status == E.RUNNING {
      var a := Pause(s);
      Moves.PauseKeeps(defs, s, a);
      forall e ensures Count(a.outbox, e) == Count(s.outbox, e) + (if e == ExecutionPaused then 1 else 0) {
      }
    }
  }

  lemma ResumeKeeps(defs: seq<TaskDef>, s: Run, now: int)
    requires Inv(defs, s)
    ensures Inv(defs, Resume(s, now)) && Evolves(s, Resume(s, now))
    ensures s.exec.status == E.PAUSED ==> Moves.Resumes(s, Resume(s, now))
  {
    if s.exec.status == E.PAUSED {
      var a := Resume(s, now);
      Moves.ResumeKeeps(defs, s, a);
      Moves.ResumeEvolves(s, a);
      ResumeLogs(s, a);
    } else {
      EvolvesReflexive(s);
    }
  }

  lemma ResumeLogs(s: Run, a: Run)
    requires Moves.Resumes(s, a) && LogAgrees(s)
    requires a.outbox == s.outbox + [ExecutionResumed] + (if a.exec.status == E.COMPLETED then [ExecutionCompleted] else [])
    ensures LogAgrees(a)
  {
    var rows := [ExecutionResumed] + (if a.exec.status == E.COMPLETED then [ExecutionCompleted] else []);
    assert a.outbox == s.outbox + rows;
    forall e ensures Count(a.outbox, e) == Count(s.outbox, e) + multiset(rows)[e] {
    }
    forall e | Recorded(e) ensures Count(a.outbox, e) == Expected(a, e) {
      assert Count(s.outbox, e) == Expected(s, e);
    }
  }

  lemma CancelFacts(s: Run)
    requires Live(s.exec.status)
    ensures Moves.Cancels(s, Cancel(s)) && Cancel(s).outbox == s.outbox + [ExecutionCancelled]
  {
  }

  lemma CancelLogs(s: Run, a: Run)
    requires Moves.Cancels(s, a) && LogAgrees(s) && ApprovalsAgree(s) && a.outbox == s.outbox + [ExecutionCancelled]
    ensures LogAgrees(a)
  {
    forall e | Recorded(e) ensures multiset([ExecutionCancelled])[e] == Expected(a, e) - Expected(s, e) {
      if (e.TaskCompleted? || e.TaskFailed? || e.TaskDeadLettered?) && e.task < |s.tasks| {
        assert Moves.CancelledFrom(s.tasks[e.task], a.tasks[e.task]);
      }
    }
    LogExtended(s, a, [ExecutionCancelled]);
  }

  lemma CancelKeeps(defs: seq<TaskDef>, s: Run)
    requires Inv(defs, s)
    ensures Inv(defs, Cancel(s)) && Evolves(s, Cancel(s))
    ensures Live(s.exec.status) ==> Moves.Cancels(s, Cancel(s))
  {
    if Live(s.exec.status) {
      var a := Cancel(s);
      CancelFacts(s);
      Moves.CancelKeeps(defs, s, a);
      Moves.CancelEvolves(s, a);
      CancelLogs(s, a);
    } else {
      EvolvesReflexive(s);
    }
  }

  /** Every transaction, run alone, keeps the invariant. */
  lemma TransactionKeeps(defs: seq<TaskDef>, tx: Txn, s: Run)
    requires Inv(defs, s)
    ensures Inv(defs, Apply(tx, s)) && Evolves(s, Apply(tx, s))
  {
    hide Inv, Evolves, Complete, Fail, Suspend, Resolve, Pause, Resume, Cancel;
    match tx
    case CompleteTask(k, token, output, now) => CompleteKeeps(defs, s, k, token, output, now);
    case FailTask(k, token, retryable, delayMs, now) => FailKeeps(defs, s, k, token, retryable, delayMs, now);
    case SuspendForApproval(k, token, timeoutMs, now) => SuspendKeeps(defs, s, k, token, timeoutMs, now);
    case ResolveApproval(k, decision, now) => ResolveKeeps(defs, s, k, decision, now);
    case PauseExecution => PauseKeeps(defs, s);
    case ResumeExecution(now) => ResumeKeeps(defs, s, now);
    case CancelExecution => CancelKeeps(defs, s);
  }

  // ---------------------------------------------------------------- single documents

  /** A compare-and-set on one task that moves it on. */
  ghost predicate Steps(s: Run, k: nat, a: Run) {
    && Moves.MovesOn(s, k, a) && a.approvals == s.approvals && a.outbox == s.outbox
    && FieldsAgree(a.tasks[k]) && TaskEvolves(s.tasks[k], a.tasks[k])
    && a.tasks[k].status != T.WAITING_FOR_APPROVAL && s.tasks[k].status != T.WAITING_FOR_APPROVAL
  }

  lemma StepKeeps(defs: seq<TaskDef>, s: Run, k: nat, a: Run)
    requires Inv(defs, s) && Steps(s, k, a)
    ensures Inv(defs, a) && Evolves(s, a)
  {
    assert Paired(s.tasks[k].status, s.approvals[k]);
    FinishMove(defs, s, k, a, []);
  }

  lemma DispatchSteps(s: Run, k: nat, now: int)
    requires At(s, k, T.READY) && FieldsAgree(s.tasks[k])
    ensures Steps(s, k, Dispatch(s, k, now))
  {
    OneMove(T.READY, T.QUEUED);
  }

  lemma ClaimSteps(s: Run, k: nat, now: int, leaseMs: int)
    requires Claimable(s, k, now) && FieldsAgree(s.tasks[k])
    ensures Steps(s, k, Claim(s, k, now, leaseMs))
  {
    OneMove(T.QUEUED, T.RUNNING);
    OneMove(T.RUNNING, T.RUNNING);
    TwoMoves(T.RETRYING, T.QUEUED, T.RUNNING);
  }

  lemma RenewSteps(s: Run, k: nat, token: int, now: int, leaseMs: int)
    requires Holds(s, k, token) && FieldsAgree(s.tasks[k])
    ensures Steps(s, k, Renew(s, k, token, now, leaseMs))
  {
    OneMove(T.RUNNING, T.RUNNING);
  }

  lemma DispatchKeeps(defs: seq<TaskDef>, s: Run, k: nat, now: int)
    requires Inv(defs, s)
    ensures Inv(defs, Dispatch(s, k, now)) && Evolves(s, Dispatch(s, k, now))
  {
    if At(s, k, T.READY) {
      DispatchSteps(s, k, now);
      StepKeeps(defs, s, k, Dispatch(s, k, now));
    } else {
      EvolvesReflexive(s);
    }
  }

  lemma ClaimKeeps(defs: seq<TaskDef>, s: Run, k: nat, now: int, leaseMs: int)
    requires Inv(defs, s)
    ensures Inv(defs, Claim(s, k, now, leaseMs)) && Evolves(s, Claim(s, k, now, leaseMs))
  {
    if Claimable(s, k, now) {
      ClaimSteps(s, k, now, leaseMs);
      StepKeeps(defs, s, k, Claim(s, k, now, leaseMs));
    } else {
      EvolvesReflexive(s);
    }
  }

  lemma RenewKeeps(defs: seq<TaskDef>, s: Run, k: nat, token: int, now: int, leaseMs: int)
    requires Inv(defs, s)
    ensures Inv(defs, Renew(s, k, token, now, leaseMs)) && Evolves(s, Renew(s, k, token, now, leaseMs))
  {
    if Holds(s, k, token) {
      RenewSteps(s, k, token, now, leaseMs);
      StepKeeps(defs, s, k, Renew(s, k, token, now, leaseMs));
    } else {
      EvolvesReflexive(s);
    }
  }
}
