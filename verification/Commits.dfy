/** The invariant under snapshot isolation: every commit of every transaction keeps it. */
module Commits {
  import opened Graphs
  import opened States
  import opened Options
  import opened Documents
  import opened Sums
  import opened Transactions
  import opened Invariant
  import opened SnapshotIsolation
  import Success
  import FailForGood
  import Moves
  import Preserves

  /**
   * What every transaction of the engine respects: one that does not write the
   * execution only takes RUNNING tasks to RETRYING or WAITING_FOR_APPROVAL, and a
   * PENDING task becomes READY only when its counter is zero, together with a write
   * of the execution.
   */
  ghost predicate Disciplined(base: Run, after: Run) {
    && SameShape(base, after)
    && (after.exec == base.exec ==>
      && PauseBalance(after) == PauseBalance(base)
      && forall i :: 0 <= i < |base.tasks| && after.tasks[i] != base.tasks[i] ==> Quiet(base.tasks[i], after.tasks[i]))
    && (forall i :: 0 <= i < |base.tasks| && base.tasks[i].status == T.PENDING ==> Promotes(base, after, i))
  }

  ghost predicate Quiet(t: Task, t': Task) {
    && t.status == T.RUNNING && (t'.status == T.RETRYING || t'.status == T.WAITING_FOR_APPROVAL)
    && t'.remainingDeps == t.remainingDeps && t'.def == t.def
  }

  ghost predicate Promotes(base: Run, after: Run, i: nat)
    requires i < |base.tasks| == |after.tasks|
  {
    var t := after.tasks[i];
    || t.status == T.PENDING || t.status == T.CANCELLED
    || (t.status == T.READY && t.remainingDeps == 0 && Counting(after.exec.status) && after.exec != base.exec)
  }

  // ---------------------------------------------------------------- the transactions are disciplined

  lemma UnchangedIsDisciplined(s: Run)
    ensures Disciplined(s, s)
  {
  }

  lemma SuccessIsDisciplined(s: Run, k: nat, a: Run)
    requires Success.Succeeds(s, k, a) && OutcomeAgrees(s)
    ensures Disciplined(s, a)
  {
    forall i | 0 <= i < |s.tasks| && s.tasks[i].status == T.PENDING ensures Promotes(s, a, i) {
      assert Success.ToldFrom(s.exec.status, s.tasks[k].dependents, s.tasks[i], a.tasks[i]);
    }
  }

  lemma FailureIsDisciplined(s: Run, k: nat, a: Run)
    requires FailForGood.Fails(s, k, a)
    ensures Disciplined(s, a)
  {
    SumNonNegative(UnstartedWeight(), s.tasks[k := a.tasks[k]]);
    forall i | 0 <= i < |s.tasks| && s.tasks[i].status == T.PENDING ensures Promotes(s, a, i) {
      assert FailForGood.StoppedFrom(s.exec.status, s.tasks[i], a.tasks[i]);
    }
  }

  lemma ResumeIsDisciplined(s: Run, a: Run)
    requires Moves.Resumes(s, a)
    ensures Disciplined(s, a)
  {
    forall i | 0 <= i < |s.tasks| && s.tasks[i].status == T.PENDING ensures Promotes(s, a, i) {
      assert Moves.ReleasedFrom(s.tasks[i], a.tasks[i]);
    }
  }

  lemma CancelIsDisciplined(s: Run, a: Run)
    requires Moves.Cancels(s, a)
    ensures Disciplined(s, a)
  {
    forall i | 0 <= i < |s.tasks| && s.tasks[i].status == T.PENDING ensures Promotes(s, a, i) {
      assert Moves.CancelledFrom(s.tasks[i], a.tasks[i]);
    }
  }

  lemma RetryIsDisciplined(s: Run, k: nat, token: int, retryable: bool, delayMs: int, now: int)
    requires Holds(s, k, token) && WillRetry(s, k, retryable)
    ensures Disciplined(s, Fail(s, k, token, retryable, delayMs, now))
  {
    var a := Fail(s, k, token, retryable, delayMs, now);
    forall e ensures Count(a.outbox, e) == Count(s.outbox, e) + (if e == TaskRetrying(k, s.tasks[k].attempt) then 1 else 0) {
    }
  }

  lemma SuspendIsDisciplined(s: Run, k: nat, token: int, timeoutMs: int, now: int)
    ensures Disciplined(s, Suspend(s, k, token, timeoutMs, now))
  {
    var a := Suspend(s, k, token, timeoutMs, now);
    forall e | a != s ensures Count(a.outbox, e) == Count(s.outbox, e) + (if e == ApprovalRequested(k) then 1 else 0) {
    }
  }

  lemma TransactionIsDisciplined(defs: seq<TaskDef>, tx: Txn, s: Run)
    requires Inv(defs, s)
    ensures Disciplined(s, Apply(tx, s))
  {
    UnchangedIsDisciplined(s);
    match tx
    case CompleteTask(k, token, output, now) =>
      if Holds(s, k, token) {
        Preserves.CompleteKeeps(defs, s, k, token, output, now);
        SuccessIsDisciplined(s, k, Apply(tx, s));
      }
    case FailTask(k, token, retryable, delayMs, now) =>
      if Holds(s, k, token) {
        if WillRetry(s, k, retryable) {
          RetryIsDisciplined(s, k, token, retryable, delayMs, now);
        } else {
          Preserves.FailForGoodKeeps(defs, s, k, token, retryable, delayMs, now);
          FailureIsDisciplined(s, k, Apply(tx, s));
        }
      }
    case SuspendForApproval(k, token, timeoutMs, now) => SuspendIsDisciplined(s, k, token, timeoutMs, now);
    case ResolveApproval(k, decision, now) =>
      if k < |s.approvals| && s.approvals[k].REQUESTED? {
        if decision == APPROVED {
          Preserves.ApproveKeeps(defs, s, k, now);
          SuccessIsDisciplined(s, k, Apply(tx, s));
        } else {
          Preserves.RejectKeeps(defs, s, k, decision, now);
          FailureIsDisciplined(s, k, Apply(tx, s));
        }
      }
    case PauseExecution =>
    case ResumeExecution(now) =>
      if s.exec.status == E.PAUSED {
        Preserves.ResumeKeeps(defs, s, now);
        ResumeIsDisciplined(s, Apply(tx, s));
      }
    case CancelExecution =>
      if Live(s.exec.status) {
        Preserves.CancelKeeps(defs, s);
        CancelIsDisciplined(s, Apply(tx, s));
      }
  }

  // ---------------------------------------------------------------- what a commit keeps

  /** A snapshot, the current documents it evolved into, and a disciplined transaction ready to commit. */
  ghost predicate Ready(base: Run, cur: Run, after: Run) {
    && Evolves(base, cur) && Evolves(base, after) && CanCommit(base, cur, after) && Disciplined(base, after)
  }

  lemma QuietMissing(base: Run, after: Run, deps: seq<Key>)
    requires |base.tasks| == |after.tasks|
    requires forall i :: 0 <= i < |base.tasks| && after.tasks[i] != base.tasks[i] ==> Quiet(base.tasks[i], after.tasks[i])
    ensures Missing(deps, after.tasks) == Missing(deps, base.tasks)
  {
    SumCongruent(MissingWeight(deps), MissingWeight(deps), base.tasks, after.tasks);
  }

  lemma MergeDep(base: Run, cur: Run, after: Run, i: nat)
    requires CanCommit(base, cur, after) && Disciplined(base, after) && i < |base.tasks|
    requires base.tasks[i].def == cur.tasks[i].def == after.tasks[i].def
    requires DepsExact(base) && DepsExact(cur) && DepsExact(after)
    requires Counting(cur.exec.status)
    requires after.exec != base.exec ==> Counting(base.exec.status) && Counting(after.exec.status)
    ensures var m := Merge(base, cur, after); m.tasks[i].remainingDeps == Missing(m.tasks[i].def.dependsOn, m.tasks)
  {
    if after.exec == base.exec {
      QuietMissing(base, after, base.tasks[i].def.dependsOn);
    }
    CommitKeepsDep(base, cur, after, i);
  }

  lemma MergeDeps(base: Run, cur: Run, after: Run)
    requires Ready(base, cur, after) && DepsExact(base) && DepsExact(cur) && DepsExact(after)
    ensures DepsExact(Merge(base, cur, after))
  {
    var m := Merge(base, cur, after);
    if Counting(m.exec.status) {
      forall i | 0 <= i < |m.tasks| ensures m.tasks[i].remainingDeps == Missing(m.tasks[i].def.dependsOn, m.tasks) {
        assert TaskEvolves(base.tasks[i], cur.tasks[i]) && TaskEvolves(base.tasks[i], after.tasks[i]);
        MergeDep(base, cur, after, i);
      }
    }
  }

  lemma MergeParents(base: Run, cur: Run, after: Run)
    requires Ready(base, cur, after) && ParentsDone(cur) && DepsExact(Merge(base, cur, after))
    ensures ParentsDone(Merge(base, cur, after))
  {
    var m := Merge(base, cur, after);
    forall i, p | 0 <= i < |m.tasks| && 0 <= p < |m.tasks|
      && m.tasks[i].status != T.PENDING && m.tasks[i].status != T.CANCELLED && IsParent(m, p, i)
      ensures m.tasks[p].status == T.COMPLETED
    {
      assert TaskEvolves(base.tasks[i], cur.tasks[i]) && TaskEvolves(base.tasks[i], after.tasks[i]);
      assert TaskEvolves(base.tasks[p], cur.tasks[p]) && TaskEvolves(base.tasks[p], after.tasks[p]);
      if after.tasks[i] != base.tasks[i] && base.tasks[i].status == T.PENDING {
        assert Promotes(base, after, i);
        MissingZero(m.tasks[i].def.dependsOn, m.tasks);
      } else {
        assert IsParent(cur, p, i);
      }
    }
  }

  /** With equal executions, no task finished between the snapshot and now. */
  lemma NobodyFinished(base: Run, cur: Run)
    requires Evolves(base, cur) && PendingExact(base) && PendingExact(cur) && base.exec == cur.exec
    ensures forall i :: 0 <= i < |base.tasks| ==> (Finished(cur.tasks[i].status) <==> Finished(base.tasks[i].status))
  {
    var f := UnfinishedWeight();
    forall i | 0 <= i < |base.tasks| ensures f(i, cur.tasks[i]) <= f(i, base.tasks[i]) {
      assert TaskEvolves(base.tasks[i], cur.tasks[i]);
    }
    SumMonotone(f, base.tasks, cur.tasks);
    forall i | 0 <= i < |base.tasks| ensures Finished(cur.tasks[i].status) <==> Finished(base.tasks[i].status) {
      assert f(i, cur.tasks[i]) == f(i, base.tasks[i]);
    }
  }

  /** Task by task: `m` has the written document or the current one, and both come from the snapshot's. */
  ghost predicate TaskMerged(base: Task, cur: Task, after: Task, m: Task) {
    && TaskEvolves(base, cur) && TaskEvolves(base, after)
    && m == (if after != base then after else cur)
    && (after != base ==> cur == base)
  }

  ghost predicate TasksMerged(base: Run, cur: Run, after: Run, m: Run) {
    && |m.tasks| == |base.tasks| == |cur.tasks| == |after.tasks|
    && forall i :: 0 <= i < |m.tasks| ==> TaskMerged(base.tasks[i], cur.tasks[i], after.tasks[i], m.tasks[i])
  }

  /** The execution was not written: the status of the run is the current one. */
  lemma QuietOutcome(cur: Run, m: Run)
    requires |m.tasks| == |cur.tasks| && m.exec == cur.exec && OutcomeAgrees(cur)
    requires forall i :: 0 <= i < |m.tasks| ==> m.tasks[i] == cur.tasks[i] || Quiet(cur.tasks[i], m.tasks[i])
    ensures OutcomeAgrees(m)
  {
    if m.exec.status == E.FAILED {
      var i :| 0 <= i < |cur.tasks| && FailedForGood(cur.tasks[i].status);
      assert m.tasks[i] == cur.tasks[i];
    }
  }

  /** What a task untouched by the transaction may have become since the snapshot. */
  predicate MovedSince(t: T, t': T) {
    StartRank(t') <= StartRank(t) && (Finished(t) ==> t' == t)
  }

  /** The execution was written: the status of the run is the transaction's. */
  lemma WrittenOutcome(cur: Run, after: Run, m: Run)
    requires |m.tasks| == |cur.tasks| == |after.tasks| && m.exec == after.exec
    requires Counting(after.exec.status) ==> Counting(cur.exec.status)
    requires forall i :: 0 <= i < |m.tasks| ==>
      || m.tasks[i] == after.tasks[i]
      || (m.tasks[i] == cur.tasks[i] && MovedSince(after.tasks[i].status, m.tasks[i].status))
    requires OutcomeAgrees(cur) && OutcomeAgrees(after)
    ensures OutcomeAgrees(m)
  {
    if m.exec.status == E.FAILED {
      var i :| 0 <= i < |after.tasks| && FailedForGood(after.tasks[i].status);
      assert FailedForGood(m.tasks[i].status);
    }
  }

  lemma MergeOutcome(base: Run, cur: Run, after: Run)
    requires Ready(base, cur, after) && OutcomeAgrees(base) && OutcomeAgrees(cur) && OutcomeAgrees(after)
    ensures OutcomeAgrees(Merge(base, cur, after))
  {
    var m := Merge(base, cur, after);
    assert TasksMerged(base, cur, after, m);
    forall i | 0 <= i < |m.tasks|
      ensures after.exec == base.exec ==> m.tasks[i] == cur.tasks[i] || Quiet(cur.tasks[i], m.tasks[i])
      ensures || m.tasks[i] == after.tasks[i]
              || (m.tasks[i] == cur.tasks[i] && MovedSince(after.tasks[i].status, m.tasks[i].status))
    {
      assert TaskMerged(base.tasks[i], cur.tasks[i], after.tasks[i], m.tasks[i]);
    }
    if after.exec == base.exec {
      QuietOutcome(cur, m);
    } else {
      WrittenOutcome(cur, after, m);
    }
  }

  /** A PENDING task the transaction did not touch still waits: the parent it waited for did not finish since. */
  lemma StillWaits(base: Run, cur: Run, after: Run, m: Run, i: nat)
    requires TasksMerged(base, cur, after, m) && i < |m.tasks|
    requires after.tasks[i] == base.tasks[i] && cur.tasks[i].status == T.PENDING
    requires after.tasks[i].remainingDeps > 0 && after.tasks[i].remainingDeps == Missing(after.tasks[i].def.dependsOn, after.tasks)
    requires m.tasks[i].remainingDeps == Missing(m.tasks[i].def.dependsOn, m.tasks)
    requires forall p :: 0 <= p < |base.tasks| ==>
      && (Finished(cur.tasks[p].status) <==> Finished(base.tasks[p].status))
      && !FailedForGood(base.tasks[p].status) && base.tasks[p].status != T.CANCELLED
    ensures m.tasks[i].remainingDeps > 0
  {
    var deps := m.tasks[i].def.dependsOn;
    assert TaskMerged(base.tasks[i], cur.tasks[i], after.tasks[i], m.tasks[i]);
    MissingZero(deps, m.tasks);
    MissingZero(deps, after.tasks);
    var p :| 0 <= p < |after.tasks| && after.tasks[p].def.key in deps && after.tasks[p].status != T.COMPLETED;
    assert TaskMerged(base.tasks[p], cur.tasks[p], after.tasks[p], m.tasks[p]);
    assert m.tasks[p].status != T.COMPLETED;
  }

  lemma MergeWaits(base: Run, cur: Run, after: Run)
    requires Ready(base, cur, after) && PendingExact(base) && PendingExact(cur)
    requires PendingWaits(cur) && PendingWaits(after) && DepsExact(after) && OutcomeAgrees(base)
    requires DepsExact(Merge(base, cur, after))
    ensures PendingWaits(Merge(base, cur, after))
  {
    var m := Merge(base, cur, after);
    assert TasksMerged(base, cur, after, m);
    if after.exec != base.exec {
      NobodyFinished(base, cur);
    }
    forall i | m.exec.status == E.RUNNING && 0 <= i < |m.tasks| && m.tasks[i].status == T.PENDING
      ensures m.tasks[i].remainingDeps > 0
    {
      assert TaskMerged(base.tasks[i], cur.tasks[i], after.tasks[i], m.tasks[i]);
      if after.exec != base.exec && after.tasks[i] == base.tasks[i] {
        assert after.tasks[i].status == T.PENDING;
        StillWaits(base, cur, after, m, i);
      }
    }
  }

  lemma MergePaired(base: Run, cur: Run, after: Run)
    requires Ready(base, cur, after) && ApprovalsAgree(base) && ApprovalsAgree(cur) && ApprovalsAgree(after)
    ensures ApprovalsAgree(Merge(base, cur, after))
  {
    var m := Merge(base, cur, after);
    forall i | 0 <= i < |m.tasks| ensures Paired(m.tasks[i].status, m.approvals[i]) {
      assert TaskEvolves(base.tasks[i], cur.tasks[i]) && TaskEvolves(base.tasks[i], after.tasks[i]);
      assert Paired(base.tasks[i].status, base.approvals[i]);
      assert Paired(cur.tasks[i].status, cur.approvals[i]);
      assert Paired(after.tasks[i].status, after.approvals[i]);
    }
  }

  /** A recorded event belongs to one document, so its expected count moves with that document. */
  lemma ExpectedMoves(base: Run, cur: Run, after: Run, e: Event)
    requires CanCommit(base, cur, after)
    ensures Expected(Merge(base, cur, after), e) - Expected(cur, e) == Expected(after, e) - Expected(base, e)
  {
  }

  lemma MergeBalance(base: Run, cur: Run, after: Run)
    requires CanCommit(base, cur, after) && ExecutionEvolves(base.exec, after.exec)
    requires after.exec == base.exec ==> PauseBalance(after) == PauseBalance(base)
    requires LogAgrees(base) && LogAgrees(cur) && LogAgrees(after)
    ensures var m := Merge(base, cur, after);
      Counting(m.exec.status) ==> PauseBalance(m) == if m.exec.status == E.PAUSED then 1 else 0
  {
    RowsAdd(base, cur, after, ExecutionPaused);
    RowsAdd(base, cur, after, ExecutionResumed);
  }

  lemma MergeLog(base: Run, cur: Run, after: Run)
    requires Ready(base, cur, after) && LogAgrees(base) && LogAgrees(cur) && LogAgrees(after)
    ensures LogAgrees(Merge(base, cur, after))
  {
    MergeBalance(base, cur, after);
    forall e | Recorded(e) ensures Count(Merge(base, cur, after).outbox, e) == Expected(Merge(base, cur, after), e) {
      RowsAdd(base, cur, after, e);
      ExpectedMoves(base, cur, after, e);
    }
  }

  lemma MergeFields(defs: seq<TaskDef>, base: Run, cur: Run, after: Run)
    requires Ready(base, cur, after) && Follows(defs, cur) && Follows(defs, after)
    requires TasksAgree(cur) && TasksAgree(after) && StatusAgrees(cur) && StatusAgrees(after)
    ensures var m := Merge(base, cur, after); Follows(defs, m) && TasksAgree(m) && StatusAgrees(m)
  {
  }

  lemma MergeEvolves(base: Run, cur: Run, after: Run)
    requires Ready(base, cur, after)
    ensures Evolves(cur, Merge(base, cur, after))
  {
    var m := Merge(base, cur, after);
    forall i | 0 <= i < |m.tasks| ensures TaskEvolves(cur.tasks[i], m.tasks[i]) {
      SameTaskEvolves(cur.tasks[i]);
      assert TaskEvolves(base.tasks[i], after.tasks[i]);
    }
    forall i | 0 <= i < |m.approvals| ensures ApprovalEvolves(cur.approvals[i], m.approvals[i]) {
      assert ApprovalEvolves(base.approvals[i], after.approvals[i]);
    }
  }

  lemma MergeKeeps(defs: seq<TaskDef>, base: Run, cur: Run, after: Run)
    requires Ready(base, cur, after) && Inv(defs, base) && Inv(defs, cur) && Inv(defs, after)
    ensures Inv(defs, Merge(base, cur, after)) && Evolves(cur, Merge(base, cur, after))
  {
    CommitKeepsPending(base, cur, after);
    MergeDeps(base, cur, after);
    MergeParents(base, cur, after);
    MergeWaits(base, cur, after);
    MergeOutcome(base, cur, after);
    MergePaired(base, cur, after);
    MergeFields(defs, base, cur, after);
    MergeLog(base, cur, after);
    MergeEvolves(base, cur, after);
  }

  /**
   * The commit of any transaction of the engine, computed on any earlier snapshot,
   * keeps the whole invariant of the current documents.
   */
  lemma CommitKeeps(defs: seq<TaskDef>, tx: Txn, base: Run, cur: Run)
    requires Inv(defs, base) && Inv(defs, cur) && Evolves(base, cur) && CanCommit(base, cur, Apply(tx, base))
    ensures Inv(defs, Merge(base, cur, Apply(tx, base))) && Evolves(cur, Merge(base, cur, Apply(tx, base)))
  {
    var after := Apply(tx, base);
    Preserves.TransactionKeeps(defs, tx, base);
    TransactionIsDisciplined(defs, tx, base);
    MergeKeeps(defs, base, cur, after);
  }
}
