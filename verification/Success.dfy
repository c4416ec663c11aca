/** A task that succeeds: everything `afterTaskSucceeded` must keep. */
module Success {
  import opened Graphs
  import opened States
  import opened Options
  import opened Documents
  import opened Sums
  import opened Transactions
  import opened Invariant

  /** `t'` is the document `t`, completed. */
  ghost predicate CompletedFrom(t: Task, t': Task) {
    && t.status in {T.RUNNING, T.WAITING_FOR_APPROVAL} && t'.status == T.COMPLETED
    && t'.def == t.def && t'.dependents == t.dependents && t'.remainingDeps == t.remainingDeps
    && t'.attempt == t.attempt && t'.leaseToken == t.leaseToken
    && t'.output.Some? && t'.leaseExpiresAt.None?
  }

  /** What a bystander becomes when a task with the children `keys` completes. */
  ghost predicate ToldFrom(e: E, keys: seq<Key>, t: Task, t': Task) {
    if !Live(e) || t.def.key !in keys then t' == t
    else
      && t'.remainingDeps == t.remainingDeps - 1
      && (if e == E.RUNNING && t.status == T.PENDING && t'.remainingDeps == 0
          then t'.status == T.READY else t'.status == t.status)
      && t' == t.(remainingDeps := t'.remainingDeps, status := t'.status, readyAt := t'.readyAt)
  }

  /** From `s`, task `k` succeeded and left the documents `a`. */
  ghost predicate Succeeds(s: Run, k: nat, a: Run) {
    && k < |s.tasks| && SameShape(s, a)
    && CompletedFrom(s.tasks[k], a.tasks[k])
    && a.exec.pendingTasks == s.exec.pendingTasks - 1
    && a.exec.status == (if s.exec.status == E.RUNNING && a.exec.pendingTasks == 0 then E.COMPLETED else s.exec.status)
    && (forall i :: 0 <= i < |s.tasks| && i != k ==>
      ToldFrom(s.exec.status, s.tasks[k].dependents, s.tasks[i], a.tasks[i]))
    && (forall i :: 0 <= i < |s.approvals| && i != k ==> a.approvals[i] == s.approvals[i])
  }

  /** What the function computes is such a step. */
  lemma Facts(s: Run, k: nat, t': Task, approvals: seq<Approval>, now: int)
    requires k < |s.tasks| && CompletedFrom(s.tasks[k], t') && t'.def.key !in t'.dependents
    requires |approvals| == |s.approvals| && forall i :: 0 <= i < |approvals| && i != k ==> approvals[i] == s.approvals[i]
    ensures var a := AfterTaskSucceeded(Put(s.(approvals := approvals), k, t'), k, now);
      && Succeeds(s, k, a) && a.tasks[k] == t' && a.approvals == approvals
      && a.outbox == s.outbox + (if a.exec.status != s.exec.status then [ExecutionCompleted, TaskCompleted(k)] else [TaskCompleted(k)])
  {
  }

  lemma KeepsPending(s: Run, k: nat, a: Run)
    requires Succeeds(s, k, a) && PendingExact(s) && StatusAgrees(s)
    ensures PendingExact(a) && StatusAgrees(a)
  {
    SumOneChange(UnfinishedWeight(), s.tasks, a.tasks, k);
    PendingNonNegative(a);
    PendingNonNegative(s);
  }

  /** Only a live run, or a failed one, has a task that can still succeed. */
  lemma UnfinishedMeansLive(s: Run, k: nat)
    requires PendingExact(s) && StatusAgrees(s) && OutcomeAgrees(s) && k < |s.tasks| && !Finished(s.tasks[k].status)
    ensures Live(s.exec.status) || s.exec.status == E.FAILED
  {
    PendingNonNegative(s);
  }

  lemma KeepsDeps(defs: seq<TaskDef>, s: Run, k: nat, a: Run)
    requires Succeeds(s, k, a) && Structural(defs) && Follows(defs, s) && DepsExact(s)
    requires Live(s.exec.status)
    ensures DepsExact(a)
  {
    forall i | 0 <= i < |a.tasks| ensures a.tasks[i].remainingDeps == Missing(a.tasks[i].def.dependsOn, a.tasks) {
      var deps := s.tasks[i].def.dependsOn;
      ChildIffListed(defs, s, k, i);
      SumOneChange(MissingWeight(deps), s.tasks, a.tasks, k);
      assert s.tasks[i].remainingDeps == Missing(deps, s.tasks);
    }
  }

  lemma KeepsParents(s: Run, k: nat, a: Run)
    requires Succeeds(s, k, a) && ParentsDone(s) && DepsExact(a) && (a.exec.status == s.exec.status || Counting(a.exec.status))
    ensures ParentsDone(a)
  {
    forall i, p | 0 <= i < |a.tasks| && 0 <= p < |a.tasks|
      && a.tasks[i].status != T.PENDING && a.tasks[i].status != T.CANCELLED && IsParent(a, p, i)
      ensures a.tasks[p].status == T.COMPLETED
    {
      if i != k && s.tasks[i].status == T.PENDING {
        MissingZero(a.tasks[i].def.dependsOn, a.tasks);
      } else {
        assert IsParent(s, p, i);
      }
    }
  }

  lemma KeepsWaits(s: Run, k: nat, a: Run)
    requires Succeeds(s, k, a) && PendingWaits(s) && DepsExact(a)
    ensures PendingWaits(a)
  {
    forall i | a.exec.status == E.RUNNING && 0 <= i < |a.tasks| && a.tasks[i].status == T.PENDING
      ensures a.tasks[i].remainingDeps > 0
    {
      MissingZero(a.tasks[i].def.dependsOn, a.tasks);
      assert ToldFrom(s.exec.status, s.tasks[k].dependents, s.tasks[i], a.tasks[i]);
    }
  }

  lemma KeepsOutcome(s: Run, k: nat, a: Run)
    requires Succeeds(s, k, a) && OutcomeAgrees(s) && (Live(s.exec.status) || s.exec.status == E.FAILED)
    ensures OutcomeAgrees(a)
  {
    if s.exec.status == E.FAILED {
      var i :| 0 <= i < |s.tasks| && FailedForGood(s.tasks[i].status);
      assert a.tasks[i] == s.tasks[i];
    }
  }

  lemma KeepsFields(defs: seq<TaskDef>, s: Run, k: nat, a: Run)
    requires Succeeds(s, k, a) && Follows(defs, s) && ApprovalsAgree(s) && TasksAgree(s)
    requires Paired(T.COMPLETED, a.approvals[k])
    ensures Follows(defs, a) && ApprovalsAgree(a) && TasksAgree(a)
  {
    forall i | 0 <= i < |s.tasks|
      ensures a.tasks[i].def == s.tasks[i].def && a.tasks[i].dependents == s.tasks[i].dependents
      ensures Paired(a.tasks[i].status, a.approvals[i]) && FieldsAgree(a.tasks[i])
    {
      assert Paired(s.tasks[i].status, s.approvals[i]) && FieldsAgree(s.tasks[i]);
    }
  }

  lemma Keeps(defs: seq<TaskDef>, s: Run, k: nat, a: Run)
    requires Succeeds(s, k, a) && CoreInv(defs, s) && Paired(T.COMPLETED, a.approvals[k])
    ensures CoreInv(defs, a)
  {
    UnfinishedMeansLive(s, k);
    KeepsPending(s, k, a);
    if Live(s.exec.status) {
      KeepsDeps(defs, s, k, a);
    }
    KeepsParents(s, k, a);
    KeepsWaits(s, k, a);
    KeepsOutcome(s, k, a);
    KeepsFields(defs, s, k, a);
  }

  lemma Evolved(s: Run, k: nat, a: Run)
    requires Succeeds(s, k, a) && StatusAgrees(s) && |s.approvals| == |s.tasks|
    requires ApprovalEvolves(s.approvals[k], a.approvals[k]) && s.outbox <= a.outbox
    ensures Evolves(s, a)
  {
    forall i | 0 <= i < |s.tasks| ensures TaskEvolves(s.tasks[i], a.tasks[i]) {
      if i != k {
        assert ToldFrom(s.exec.status, s.tasks[k].dependents, s.tasks[i], a.tasks[i]);
      }
      OneMove(s.tasks[i].status, a.tasks[i].status);
    }
  }
}
