/** The other changes: one task moving between workers, and pause, resume and cancel of the run. */
module Moves {
  import opened Graphs
  import opened States
  import opened Options
  import opened Documents
  import opened Sums
  import opened Transactions
  import opened Invariant

  // ---------------------------------------------------------------- one task moves on

  /** Task `k` moves on without finishing; nothing else changes but, perhaps, its approval request. */
  ghost predicate MovesOn(s: Run, k: nat, a: Run) {
    && k < |s.tasks| && SameShape(s, a) && a.exec == s.exec
    && a.tasks == s.tasks[k := a.tasks[k]]
    && (forall i :: 0 <= i < |s.approvals| && i != k ==> a.approvals[i] == s.approvals[i])
    && var t, t' := s.tasks[k], a.tasks[k];
      && !Finished(t.status) && !Finished(t'.status) && t.status != T.PENDING && t'.status != T.PENDING
      && t'.def == t.def && t'.dependents == t.dependents && t'.remainingDeps == t.remainingDeps
      && StartRank(t'.status) <= StartRank(t.status)
  }

  lemma MovesKeeps(defs: seq<TaskDef>, s: Run, k: nat, a: Run)
    requires CoreInv(defs, s) && MovesOn(s, k, a)
    requires FieldsAgree(a.tasks[k]) && Paired(a.tasks[k].status, a.approvals[k])
    ensures CoreInv(defs, a)
  {
    MovesCounters(s, k, a);
    MovesParents(s, k, a);
    MovesOutcome(s, k, a);
    MovesFields(defs, s, k, a);
  }

  lemma MovesFields(defs: seq<TaskDef>, s: Run, k: nat, a: Run)
    requires MovesOn(s, k, a) && Follows(defs, s) && ApprovalsAgree(s) && TasksAgree(s) && PendingWaits(s)
    requires FieldsAgree(a.tasks[k]) && Paired(a.tasks[k].status, a.approvals[k])
    ensures Follows(defs, a) && ApprovalsAgree(a) && TasksAgree(a) && PendingWaits(a)
  {
    forall i | 0 <= i < |s.tasks|
      ensures Paired(a.tasks[i].status, a.approvals[i]) && FieldsAgree(a.tasks[i])
    {
      assert Paired(s.tasks[i].status, s.approvals[i]) && FieldsAgree(s.tasks[i]);
    }
  }

  lemma MovesCounters(s: Run, k: nat, a: Run)
    requires MovesOn(s, k, a) && PendingExact(s) && DepsExact(s)
    ensures PendingExact(a) && DepsExact(a)
  {
    SumOneChange(UnfinishedWeight(), s.tasks, a.tasks, k);
    if Counting(a.exec.status) {
      forall i | 0 <= i < |a.tasks| ensures a.tasks[i].remainingDeps == Missing(a.tasks[i].def.dependsOn, a.tasks) {
        var deps := s.tasks[i].def.dependsOn;
        assert s.tasks[i].remainingDeps == Missing(deps, s.tasks);
        SumOneChange(MissingWeight(deps), s.tasks, a.tasks, k);
      }
    }
  }

  lemma MovesParents(s: Run, k: nat, a: Run)
    requires MovesOn(s, k, a) && ParentsDone(s)
    ensures ParentsDone(a)
  {
    forall i, p | 0 <= i < |a.tasks| && 0 <= p < |a.tasks|
      && a.tasks[i].status != T.PENDING && a.tasks[i].status != T.CANCELLED && IsParent(a, p, i)
      ensures a.tasks[p].status == T.COMPLETED
    {
      assert IsParent(s, p, i);
    }
  }

  lemma MovesOutcome(s: Run, k: nat, a: Run)
    requires MovesOn(s, k, a) && OutcomeAgrees(s)
    ensures OutcomeAgrees(a)
  {
    if s.exec.status == E.FAILED {
      var i :| 0 <= i < |s.tasks| && FailedForGood(s.tasks[i].status);
      assert a.tasks[i] == s.tasks[i];
    }
  }

  lemma MovesEvolves(s: Run, k: nat, a: Run)
    requires MovesOn(s, k, a) && |s.approvals| == |s.tasks|
    requires TaskEvolves(s.tasks[k], a.tasks[k]) && ApprovalEvolves(s.approvals[k], a.approvals[k])
    requires s.outbox <= a.outbox
    ensures Evolves(s, a)
  {
    forall i | 0 <= i < |s.tasks| ensures TaskEvolves(s.tasks[i], a.tasks[i]) {
      SameTaskEvolves(s.tasks[i]);
    }
  }

  // ---------------------------------------------------------------- pause and resume

  ghost predicate Pauses(s: Run, a: Run) {
    s.exec.status == E.RUNNING && a == s.(exec := s.exec.(status := E.PAUSED), outbox := a.outbox)
  }

  lemma PauseKeeps(defs: seq<TaskDef>, s: Run, a: Run)
    requires CoreInv(defs, s) && Pauses(s, a)
    ensures CoreInv(defs, a)
  {
  }

  /** A PENDING task that waits for nothing becomes READY. */
  ghost predicate ReleasedFrom(t: Task, t': Task) {
    if t.status == T.PENDING && t.remainingDeps == 0 then t' == t.(status := T.READY, readyAt := t'.readyAt) else t' == t
  }

  ghost predicate Resumes(s: Run, a: Run) {
    && SameShape(s, a) && s.exec.status == E.PAUSED && a.approvals == s.approvals
    && a.exec == s.exec.(status := if s.exec.pendingTasks == 0 then E.COMPLETED else E.RUNNING)
    && (forall i :: 0 <= i < |s.tasks| ==> ReleasedFrom(s.tasks[i], a.tasks[i]))
  }

  lemma ResumeKeeps(defs: seq<TaskDef>, s: Run, a: Run)
    requires CoreInv(defs, s) && Resumes(s, a)
    ensures CoreInv(defs, a)
  {
    ResumeCounters(s, a);
    ResumeParents(s, a);
    ResumeFields(defs, s, a);
    PendingNonNegative(s);
  }

  lemma ResumeCounters(s: Run, a: Run)
    requires Resumes(s, a) && PendingExact(s) && DepsExact(s)
    ensures PendingExact(a) && DepsExact(a) && PendingWaits(a)
  {
    SumCongruent(UnfinishedWeight(), UnfinishedWeight(), s.tasks, a.tasks);
    forall i | 0 <= i < |a.tasks|
      ensures a.tasks[i].remainingDeps == Missing(a.tasks[i].def.dependsOn, a.tasks) >= 0
    {
      var f := MissingWeight(s.tasks[i].def.dependsOn);
      assert s.tasks[i].remainingDeps == Missing(s.tasks[i].def.dependsOn, s.tasks);
      SumCongruent(f, f, s.tasks, a.tasks);
      MissingZero(a.tasks[i].def.dependsOn, a.tasks);
    }
  }

  lemma ResumeParents(s: Run, a: Run)
    requires Resumes(s, a) && ParentsDone(s) && DepsExact(s)
    ensures ParentsDone(a)
  {
    forall i, p | 0 <= i < |a.tasks| && 0 <= p < |a.tasks|
      && a.tasks[i].status != T.PENDING && a.tasks[i].status != T.CANCELLED && IsParent(a, p, i)
      ensures a.tasks[p].status == T.COMPLETED
    {
      assert IsParent(s, p, i);
      if s.tasks[i].status == T.PENDING {
        MissingZero(s.tasks[i].def.dependsOn, s.tasks);
      }
    }
  }

  lemma ResumeFields(defs: seq<TaskDef>, s: Run, a: Run)
    requires Resumes(s, a) && Follows(defs, s) && OutcomeAgrees(s) && ApprovalsAgree(s) && TasksAgree(s)
    ensures Follows(defs, a) && OutcomeAgrees(a) && ApprovalsAgree(a) && TasksAgree(a)
  {
    forall i | 0 <= i < |s.tasks|
      ensures a.tasks[i].def == s.tasks[i].def && a.tasks[i].dependents == s.tasks[i].dependents
      ensures Paired(a.tasks[i].status, a.approvals[i]) && FieldsAgree(a.tasks[i])
    {
      assert Paired(s.tasks[i].status, s.approvals[i]) && FieldsAgree(s.tasks[i]);
    }
  }

  lemma ResumeEvolves(s: Run, a: Run)
    requires Resumes(s, a) && s.outbox <= a.outbox
    ensures Evolves(s, a)
  {
    forall i | 0 <= i < |s.tasks| ensures TaskEvolves(s.tasks[i], a.tasks[i]) {
      OneMove(s.tasks[i].status, a.tasks[i].status);
    }
  }

  // ---------------------------------------------------------------- cancel

  ghost predicate CancelledFrom(t: Task, t': Task) {
    t' == if Finished(t.status) then t else t.(status := T.CANCELLED, leaseExpiresAt := None)
  }

  ghost predicate Cancels(s: Run, a: Run) {
    && SameShape(s, a) && Live(s.exec.status)
    && a.exec == Execution(E.CANCELLED, s.exec.pendingTasks - Sum(UnfinishedWeight(), s.tasks))
    && (forall i :: 0 <= i < |s.tasks| ==> CancelledFrom(s.tasks[i], a.tasks[i]))
    && (forall i :: 0 <= i < |s.approvals| ==>
      a.approvals[i] == if s.approvals[i].REQUESTED? then WITHDRAWN else s.approvals[i])
  }

  lemma CancelKeeps(defs: seq<TaskDef>, s: Run, a: Run)
    requires CoreInv(defs, s) && Cancels(s, a)
    ensures CoreInv(defs, a) && a.exec.pendingTasks == 0
  {
    SumAllZero(UnfinishedWeight(), a.tasks);
    CancelParents(s, a);
    CancelFields(defs, s, a);
  }

  lemma CancelParents(s: Run, a: Run)
    requires Cancels(s, a) && ParentsDone(s) && OutcomeAgrees(s)
    ensures ParentsDone(a) && OutcomeAgrees(a)
  {
    forall i, p | 0 <= i < |a.tasks| && 0 <= p < |a.tasks|
      && a.tasks[i].status != T.PENDING && a.tasks[i].status != T.CANCELLED && IsParent(a, p, i)
      ensures a.tasks[p].status == T.COMPLETED
    {
      assert IsParent(s, p, i);
    }
  }

  lemma CancelFields(defs: seq<TaskDef>, s: Run, a: Run)
    requires Cancels(s, a) && Follows(defs, s) && ApprovalsAgree(s) && TasksAgree(s)
    ensures Follows(defs, a) && ApprovalsAgree(a) && TasksAgree(a)
  {
    forall i | 0 <= i < |s.tasks|
      ensures a.tasks[i].def == s.tasks[i].def && a.tasks[i].dependents == s.tasks[i].dependents
      ensures Paired(a.tasks[i].status, a.approvals[i]) && FieldsAgree(a.tasks[i])
    {
      assert Paired(s.tasks[i].status, s.approvals[i]) && FieldsAgree(s.tasks[i]);
    }
  }

  lemma CancelEvolves(s: Run, a: Run)
    requires Cancels(s, a) && s.outbox <= a.outbox
    ensures Evolves(s, a)
  {
    forall i | 0 <= i < |s.tasks| ensures TaskEvolves(s.tasks[i], a.tasks[i]) {
      OneMove(s.tasks[i].status, a.tasks[i].status);
    }
    SumNonNegative(UnfinishedWeight(), s.tasks);
  }
}
