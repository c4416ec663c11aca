/** A task that fails for good: everything `afterTaskFailedForGood` must keep. */
module FailForGood {
  import opened Graphs
  import opened States
  import opened Options
  import opened Documents
  import opened Sums
  import opened Transactions
  import opened Invariant

  /** `t'` is the document `t`, failed for good. */
  ghost predicate FailedFrom(t: Task, t': Task) {
    && t.status in {T.RUNNING, T.WAITING_FOR_APPROVAL} && FailedForGood(t'.status)
    && (t'.status == T.DEAD_LETTER ==> t.status == T.RUNNING)
    && t' == t.(status := t'.status, leaseExpiresAt := None)
  }

  /** What a bystander becomes: fail-fast cancels what nobody holds. */
  ghost predicate StoppedFrom(e: E, t: Task, t': Task) {
    t' == if Live(e) && Unstarted(t.status) then t.(status := T.CANCELLED) else t
  }

  /** From `s`, task `k` failed for good and left the documents `a`. */
  ghost predicate Fails(s: Run, k: nat, a: Run) {
    && k < |s.tasks| && SameShape(s, a)
    && FailedFrom(s.tasks[k], a.tasks[k])
    && (forall i :: 0 <= i < |s.tasks| && i != k ==> StoppedFrom(s.exec.status, s.tasks[i], a.tasks[i]))
    && a.exec.status == (if Live(s.exec.status) then E.FAILED else s.exec.status)
    && a.exec.pendingTasks == s.exec.pendingTasks - 1
      - (if Live(s.exec.status) then Sum(UnstartedWeight(), s.tasks[k := a.tasks[k]]) else 0)
    && (forall i :: 0 <= i < |s.approvals| && i != k ==> a.approvals[i] == s.approvals[i])
  }

  lemma Facts(s: Run, k: nat, t': Task, approvals: seq<Approval>, dead: bool)
    requires k < |s.tasks| && FailedFrom(s.tasks[k], t')
    requires |approvals| == |s.approvals| && forall i :: 0 <= i < |approvals| && i != k ==> approvals[i] == s.approvals[i]
    ensures var a := AfterTaskFailedForGood(Put(s.(approvals := approvals), k, t'), k, dead);
      && Fails(s, k, a) && a.tasks[k] == t' && a.approvals == approvals
      && a.outbox == s.outbox + (if a.exec.status != s.exec.status then [ExecutionFailed] else [])
                              + [if dead then TaskDeadLettered(k) else TaskFailed(k)]
  {
  }

  lemma KeepsPending(s: Run, k: nat, a: Run)
    requires Fails(s, k, a) && PendingExact(s) && StatusAgrees(s)
    ensures PendingExact(a) && StatusAgrees(a)
  {
    var failed := s.tasks[k := a.tasks[k]];
    SumOneChange(UnfinishedWeight(), s.tasks, failed, k);
    if Live(s.exec.status) {
      SumSplit(UnfinishedWeight(), UnstartedWeight(), failed, a.tasks);
    } else {
      assert failed == a.tasks;
    }
    PendingNonNegative(s);
  }

  lemma KeepsParents(defs: seq<TaskDef>, s: Run, k: nat, a: Run)
    requires Fails(s, k, a) && ParentsDone(s) && OutcomeAgrees(s)
    ensures ParentsDone(a)
  {
    forall i, p | 0 <= i < |a.tasks| && 0 <= p < |a.tasks|
      && a.tasks[i].status != T.PENDING && a.tasks[i].status != T.CANCELLED && IsParent(a, p, i)
      ensures a.tasks[p].status == T.COMPLETED
    {
      assert IsParent(s, p, i);
    }
  }

  /** A run that is neither live nor failed has no task left to fail. */
  lemma UnfinishedMeansLive(s: Run, k: nat)
    requires PendingExact(s) && StatusAgrees(s) && OutcomeAgrees(s) && k < |s.tasks| && !Finished(s.tasks[k].status)
    ensures Live(s.exec.status) || s.exec.status == E.FAILED
  {
    PendingNonNegative(s);
  }

  lemma KeepsOutcome(s: Run, k: nat, a: Run)
    requires Fails(s, k, a) && OutcomeAgrees(s) && (Live(s.exec.status) || s.exec.status == E.FAILED)
    ensures OutcomeAgrees(a) && a.exec.status == E.FAILED
  {
    assert FailedForGood(a.tasks[k].status);
  }

  lemma KeepsFields(defs: seq<TaskDef>, s: Run, k: nat, a: Run)
    requires Fails(s, k, a) && Follows(defs, s) && ApprovalsAgree(s) && TasksAgree(s)
    requires Paired(a.tasks[k].status, a.approvals[k])
    ensures Follows(defs, a) && ApprovalsAgree(a) && TasksAgree(a)
  {
    forall i | 0 <= i < |s.tasks|
      ensures a.tasks[i].def == s.tasks[i].def && a.tasks[i].dependents == s.tasks[i].dependents
      ensures Paired(a.tasks[i].status, a.approvals[i]) && FieldsAgree(a.tasks[i])
    {
      assert Paired(s.tasks[i].status, s.approvals[i]) && FieldsAgree(s.tasks[i]);
      if i != k {
        assert StoppedFrom(s.exec.status, s.tasks[i], a.tasks[i]);
      }
    }
  }

  lemma Keeps(defs: seq<TaskDef>, s: Run, k: nat, a: Run)
    requires Fails(s, k, a) && CoreInv(defs, s) && Paired(a.tasks[k].status, a.approvals[k])
    ensures CoreInv(defs, a)
  {
    UnfinishedMeansLive(s, k);
    KeepsPending(s, k, a);
    KeepsParents(defs, s, k, a);
    KeepsOutcome(s, k, a);
    KeepsFields(defs, s, k, a);
  }

  lemma Evolved(s: Run, k: nat, a: Run)
    requires Fails(s, k, a) && PendingExact(s) && |s.approvals| == |s.tasks|
    requires ApprovalEvolves(s.approvals[k], a.approvals[k]) && s.outbox <= a.outbox
    ensures Evolves(s, a)
  {
    forall i | 0 <= i < |s.tasks| ensures TaskEvolves(s.tasks[i], a.tasks[i]) {
      if i == k && a.tasks[k].status == T.DEAD_LETTER {
        TwoMoves(T.RUNNING, T.FAILED, T.DEAD_LETTER);
      } else {
        if i != k {
          assert StoppedFrom(s.exec.status, s.tasks[i], a.tasks[i]);
        }
        OneMove(s.tasks[i].status, a.tasks[i].status);
      }
    }
    SumNonNegative(UnstartedWeight(), s.tasks[k := a.tasks[k]]);
  }
}
