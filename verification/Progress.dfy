/** A run makes only so many steps: the attempts are limited and statuses only move on. */
module Progress {
  import opened Graphs
  import opened States
  import opened Options
  import opened Documents
  import opened Sums
  import opened Transactions
  import opened Invariant
  import opened SnapshotIsolation
  import opened System
  import opened SystemInvariant
  import Success
  import FailForGood
  import Preserves

  /** How far an unfinished status is from finishing. */
  function Rank(t: T): nat {
    match t
    case PENDING => 5
    case READY => 4
    case QUEUED => 3
    case RUNNING => 2
    case RETRYING => 1
    case WAITING_FOR_APPROVAL => 1
    case _ => 0
  }

  /** Attempts left, and the rank of the status. */
  function Measure(t: Task): int {
    if Finished(t.status) then 0 else Rank(t.status) + 2 * (t.def.maxAttempts + 1 - t.attempt)
  }

  function MeasureWeight(): (int, Task) -> int {
    (_: int, t: Task) => Measure(t)
  }

  function Total(run: Run): int {
    Sum(MeasureWeight(), run.tasks)
  }

  /** No unfinished task has used more than its attempts. */
  ghost predicate AttemptsWithin(run: Run) {
    forall i :: 0 <= i < |run.tasks| && !Finished(run.tasks[i].status) ==> 0 <= run.tasks[i].attempt <= run.tasks[i].def.maxAttempts
  }

  predicate SameProgress(t: Task, t': Task) {
    t'.status == t.status && t'.attempt == t.attempt && t'.def == t.def
  }

  ghost predicate Falls(t: Task, t': Task) {
    SameProgress(t, t') || 0 <= Measure(t') < Measure(t)
  }

  ghost predicate AllFall(a: Run, b: Run) {
    |a.tasks| == |b.tasks| && forall i :: 0 <= i < |a.tasks| ==> Falls(a.tasks[i], b.tasks[i])
  }

  /** The step changed the status or the attempts of some task. */
  ghost predicate Effective(a: Run, b: Run) {
    |a.tasks| != |b.tasks| || exists i :: 0 <= i < |a.tasks| && !SameProgress(a.tasks[i], b.tasks[i])
  }

  lemma TotalFalls(a: Run, b: Run)
    requires AllFall(a, b)
    ensures Total(b) <= Total(a) && (Effective(a, b) ==> Total(b) < Total(a))
  {
    SumMonotone(MeasureWeight(), a.tasks, b.tasks);
    if Total(b) == Total(a) {
      forall i | 0 <= i < |a.tasks| ensures SameProgress(a.tasks[i], b.tasks[i]) {
        assert MeasureWeight()(i, b.tasks[i]) == MeasureWeight()(i, a.tasks[i]);
      }
    }
  }

  // ---------------------------------------------------------------- single calls

  /** Attempts and definitions stay, and nothing finished is revived. */
  ghost predicate AllKept(a: Run, b: Run) {
    |a.tasks| == |b.tasks| && forall i :: 0 <= i < |a.tasks| ==>
      && b.tasks[i].attempt == a.tasks[i].attempt && b.tasks[i].def == a.tasks[i].def
      && (Finished(a.tasks[i].status) ==> Finished(b.tasks[i].status))
  }

  lemma SuccessFalls(s: Run, k: nat, a: Run)
    requires AttemptsWithin(s) && Success.Succeeds(s, k, a)
    ensures AllFall(s, a) && AllKept(s, a)
  {
    forall i | 0 <= i < |s.tasks| && i != k ensures Falls(s.tasks[i], a.tasks[i]) {
      assert Success.ToldFrom(s.exec.status, s.tasks[k].dependents, s.tasks[i], a.tasks[i]);
    }
  }

  lemma FailureFalls(s: Run, k: nat, a: Run)
    requires AttemptsWithin(s) && FailForGood.Fails(s, k, a)
    ensures AllFall(s, a) && AllKept(s, a)
  {
    forall i | 0 <= i < |s.tasks| && i != k ensures Falls(s.tasks[i], a.tasks[i]) {
      assert FailForGood.StoppedFrom(s.exec.status, s.tasks[i], a.tasks[i]);
    }
  }

  lemma RetryFalls(s: Run, k: nat, token: int, retryable: bool, delayMs: int, now: int)
    requires AttemptsWithin(s) && Holds(s, k, token) && WillRetry(s, k, retryable)
    ensures var a := Fail(s, k, token, retryable, delayMs, now); AllFall(s, a) && AllKept(s, a)
  {
  }

  lemma TransactionFalls(defs: seq<TaskDef>, tx: Txn, s: Run)
    requires Inv(defs, s) && AttemptsWithin(s)
    ensures AllFall(s, Apply(tx, s)) && AllKept(s, Apply(tx, s))
  {
    hide Inv;
    match tx
    case CompleteTask(k, token, output, now) =>
      if Holds(s, k, token) {
        Preserves.CompleteKeeps(defs, s, k, token, output, now);
        hide AllFall, AllKept, AttemptsWithin, Complete;
        SuccessFalls(s, k, Apply(tx, s));
      }
    case FailTask(k, token, retryable, delayMs, now) =>
      if Holds(s, k, token) {
        if WillRetry(s, k, retryable) {
          RetryFalls(s, k, token, retryable, delayMs, now);
        } else {
          Preserves.FailForGoodKeeps(defs, s, k, token, retryable, delayMs, now);
          hide AllFall, AllKept, AttemptsWithin, Fail;
          FailureFalls(s, k, Apply(tx, s));
        }
      }
    case SuspendForApproval(_, _, _, _) =>
    case ResolveApproval(k, decision, now) =>
      if k < |s.approvals| && s.approvals[k].REQUESTED? {
        if decision == APPROVED {
          Preserves.ApproveKeeps(defs, s, k, now);
          hide AllFall, AllKept, AttemptsWithin, Resolve;
          SuccessFalls(s, k, Apply(tx, s));
        } else {
          Preserves.RejectKeeps(defs, s, k, decision, now);
          hide AllFall, AllKept, AttemptsWithin, Resolve;
          FailureFalls(s, k, Apply(tx, s));
        }
      }
    case PauseExecution =>
    case ResumeExecution(_) =>
    case CancelExecution =>
  }

  lemma MergeFalls(base: Run, cur: Run, after: Run)
    requires CanCommit(base, cur, after) && AllFall(base, after)
    ensures AllFall(cur, Merge(base, cur, after))
  {
    var m := Merge(base, cur, after);
    forall i | 0 <= i < |m.tasks| ensures Falls(cur.tasks[i], m.tasks[i]) {
      assert Falls(base.tasks[i], after.tasks[i]);
    }
  }

  /** Only a claim adds an attempt, so a commit keeps them within their limit. */
  lemma WithinStays(base: Run, cur: Run, after: Run)
    requires AttemptsWithin(base) && AttemptsWithin(cur) && CanCommit(base, cur, after) && AllKept(base, after)
    ensures AttemptsWithin(Merge(base, cur, after))
  {
  }

  // ---------------------------------------------------------------- startTask as one step

  /**
   * `startTask` without a crash between its claim and its guard: a claim past the
   * last attempt is failed at once.
   */
  ghost function Prompt(step: Step, s: Sys, leaseMs: nat): Sys {
    var s1 := Do(step, s, leaseMs);
    if step.ClaimTask? && ActorOf(s, step.w).Idle? && Claimable(s.run, step.task, s.clock) && Exhausted(s1, ClaimTicket(s1, step.task)) then
      Guarded(s1, step.w, ClaimTicket(s1, step.task), leaseMs)
    else s1
  }

  function ClaimTicket(s: Sys, k: nat): Ticket {
    Ticket(k, if k < |s.run.tasks| then s.run.tasks[k].leaseToken else 0)
  }

  ghost function Guarded(s: Sys, w: nat, t: Ticket, leaseMs: nat): Sys {
    Do(Commit(w), Do(Begin(w, Txn.FailTask(t.task, t.token, true, 0, s.clock)), s, leaseMs), leaseMs)
  }

  ghost function PromptExec(steps: seq<Step>, s: Sys, leaseMs: nat): Sys
    decreases |steps|
  {
    if steps == [] then s else Prompt(steps[|steps| - 1], PromptExec(steps[..|steps| - 1], s, leaseMs), leaseMs)
  }

  ghost function EffectiveSteps(steps: seq<Step>, s: Sys, leaseMs: nat): nat
    decreases |steps|
  {
    if steps == [] then 0
    else
      var before := PromptExec(steps[..|steps| - 1], s, leaseMs);
      EffectiveSteps(steps[..|steps| - 1], s, leaseMs)
      + (if Effective(before.run, Prompt(steps[|steps| - 1], before, leaseMs).run) then 1 else 0)
  }

  ghost predicate WithinOk(s: Sys) {
    && AttemptsWithin(s.run)
    && forall w :: w in s.actors && s.actors[w].InTransaction? ==> AttemptsWithin(s.actors[w].base)
  }

  lemma StartFalls(s: Run, k: nat, now: int, leaseMs: nat)
    requires AttemptsWithin(s) && Claimable(s, k, now) && s.tasks[k].attempt == s.tasks[k].leaseToken
    ensures var c := Claim(s, k, now, leaseMs);
      && |c.tasks| == |s.tasks| && c.tasks[k].attempt == c.tasks[k].leaseToken
      && (c.tasks[k].leaseToken <= c.tasks[k].def.maxAttempts ==> AllFall(s, c) && AttemptsWithin(c))
      && (c.tasks[k].leaseToken > c.tasks[k].def.maxAttempts ==>
        var f := Fail(c, k, c.tasks[k].leaseToken, true, 0, now);
        AllFall(s, f) && AttemptsWithin(f))
  {
    var c := Claim(s, k, now, leaseMs);
    if c.tasks[k].leaseToken > c.tasks[k].def.maxAttempts {
      GuardFalls(s, c, k, now);
    }
  }

  lemma GuardFalls(s: Run, c: Run, k: nat, now: int)
    requires AttemptsWithin(s) && k < |s.tasks| && !Finished(s.tasks[k].status)
    requires k < |c.tasks| && c == Put(s, k, c.tasks[k]) && c.tasks[k].attempt == c.tasks[k].leaseToken && c.tasks[k].status == T.RUNNING
    requires c.tasks[k].leaseToken > c.tasks[k].def.maxAttempts
    ensures var f := Fail(c, k, c.tasks[k].leaseToken, true, 0, now); AllFall(s, f) && AttemptsWithin(f)
  {
  }

  /** Every step but a start keeps the attempts within their limit and lets no measure rise. */
  lemma StepFalls(defs: seq<TaskDef>, step: Step, s: Sys, leaseMs: nat)
    requires ActorsOk(defs, s) && WithinOk(s) && !step.ClaimTask?
    ensures WithinOk(Do(step, s, leaseMs)) && AllFall(s.run, Do(step, s, leaseMs).run)
  {
    hide Apply, Merge, CanCommit, Renew, Dispatch, AttemptsWithin, AllKept, Inv, Evolves;
    SameFalls(s.run);
    hide AllFall;
    match step
    case Commit(w) =>
      var a := ActorOf(s, w);
      if a.InTransaction? && CanCommit(a.base, s.run, Apply(a.tx, a.base)) {
        assert ActorOk(defs, s.run, a);
        TransactionFalls(defs, a.tx, a.base);
        MergeFalls(a.base, s.run, Apply(a.tx, a.base));
        WithinStays(a.base, s.run, Apply(a.tx, a.base));
      }
    case DispatchTask(k) => DispatchFalls(s.run, k, s.clock);
    case Heartbeat(w) =>
      var a := ActorOf(s, w);
      if a.Handling? {
        RenewFalls(s.run, a.ticket.task, a.ticket.token, s.clock, leaseMs);
      }
    case _ =>
  }

  lemma SameFalls(s: Run)
    ensures AllFall(s, s)
  {
  }

  lemma DispatchFalls(s: Run, k: nat, now: int)
    requires AttemptsWithin(s)
    ensures AllFall(s, Dispatch(s, k, now)) && AttemptsWithin(Dispatch(s, k, now))
  {
  }

  lemma RenewFalls(s: Run, k: nat, token: int, now: int, leaseMs: nat)
    requires AttemptsWithin(s)
    ensures AllFall(s, Renew(s, k, token, now, leaseMs)) && AttemptsWithin(Renew(s, k, token, now, leaseMs))
  {
  }

  /** The guard's transaction commits at once. */
  lemma GuardedIs(s: Sys, w: nat, t: Ticket, leaseMs: nat)
    requires ActorOf(s, w) == Claimed(t) && Exhausted(s, t)
    ensures var g := Guarded(s, w, t, leaseMs);
      && g.run == Fail(s.run, t.task, t.token, true, 0, s.clock)
      && (forall v :: v in g.actors && g.actors[v].InTransaction? ==> v in s.actors && g.actors[v] == s.actors[v])
  {
    var tx := Txn.FailTask(t.task, t.token, true, 0, s.clock);
    var after := Apply(tx, s.run);
    assert after == Fail(s.run, t.task, t.token, true, 0, s.clock);
    FailShape(s.run, t.task, t.token, s.clock);
    hide Fail, Apply;
    AtomicIsSpecial(s.run, after);
    hide Merge, CanCommit;
    var s1 := Do(Begin(w, tx), s, leaseMs);
    assert ActorOf(s1, w) == InTransaction(tx, s.run, Some(t));
  }

  lemma FailShape(s: Run, k: nat, token: int, now: int)
    ensures CanCommit(s, s, Fail(s, k, token, true, 0, now))
  {
  }

  lemma PromptFalls(defs: seq<TaskDef>, step: Step, s: Sys, leaseMs: nat)
    requires ActorsOk(defs, s) && WithinOk(s) && TasksAgree(s.run)
    ensures WithinOk(Prompt(step, s, leaseMs)) && AllFall(s.run, Prompt(step, s, leaseMs).run)
  {
    if !step.ClaimTask? {
      hide Do, WithinOk, AllFall, ActorsOk;
      StepFalls(defs, step, s, leaseMs);
    } else if ActorOf(s, step.w).Idle? && Claimable(s.run, step.task, s.clock) {
      var s1 := Do(step, s, leaseMs);
      assert FieldsAgree(s.run.tasks[step.task]);
      StartFalls(s.run, step.task, s.clock, leaseMs);
      hide Fail, Claimable, Guarded;
      if Exhausted(s1, ClaimTicket(s1, step.task)) {
        GuardedIs(s1, step.w, ClaimTicket(s1, step.task), leaseMs);
      }
    }
  }

  /** `Prompt` is a sequence of ordinary steps. */
  lemma PromptOk(defs: seq<TaskDef>, step: Step, s: Sys, leaseMs: nat)
    requires SysInv(defs, s, leaseMs)
    ensures SysInv(defs, Prompt(step, s, leaseMs), leaseMs)
  {
    hide SysInv, Do, Claimable, Exhausted;
    var s1 := Do(step, s, leaseMs);
    StepOk(defs, step, s, leaseMs);
    if step.ClaimTask? {
      var begin := Begin(step.w, Txn.FailTask(step.task, ClaimTicket(s1, step.task).token, true, 0, s1.clock));
      StepOk(defs, begin, s1, leaseMs);
      StepOk(defs, Commit(step.w), Do(begin, s1, leaseMs), leaseMs);
    }
  }

  lemma {:induction false} RunFalls(defs: seq<TaskDef>, steps: seq<Step>, s: Sys, leaseMs: nat)
    requires SysInv(defs, s, leaseMs) && WithinOk(s)
    ensures SysInv(defs, PromptExec(steps, s, leaseMs), leaseMs) && WithinOk(PromptExec(steps, s, leaseMs))
    ensures EffectiveSteps(steps, s, leaseMs) + Total(PromptExec(steps, s, leaseMs).run) <= Total(s.run)
    decreases |steps|
  {
    if steps != [] {
      var n := |steps| - 1;
      RunFalls(defs, steps[..n], s, leaseMs);
      var mid := PromptExec(steps[..n], s, leaseMs);
      assert TasksAgree(mid.run) && ActorsOk(defs, mid);
      hide ActorsOk, TasksAgree, SysInv, WithinOk, Prompt, AllFall, Total, Effective;
      PromptFalls(defs, steps[n], mid, leaseMs);
      PromptOk(defs, steps[n], mid, leaseMs);
      TotalFalls(mid.run, Prompt(steps[n], mid, leaseMs).run);
    }
  }

  /** Two steps per attempt and seven more for each task. */
  function Budget(defs: seq<TaskDef>): int {
    if defs == [] then 0 else Budget(defs[..|defs| - 1]) + 2 * defs[|defs| - 1].maxAttempts + 7
  }

  lemma {:induction false} TotalWithinBudget(defs: seq<TaskDef>, tasks: seq<Task>)
    requires |tasks| == |defs|
    requires forall i :: 0 <= i < |tasks| ==> tasks[i].def == defs[i] && tasks[i].attempt == 0 && defs[i].maxAttempts >= 1
    ensures Sum(MeasureWeight(), tasks) <= Budget(defs)
  {
    if tasks != [] {
      TotalWithinBudget(defs[..|defs| - 1], tasks[..|tasks| - 1]);
    }
  }

  lemma {:induction false} TotalNonNegative(run: Run)
    requires AttemptsWithin(run)
    ensures Total(run) >= 0
  {
    SumNonNegative(MeasureWeight(), run.tasks);
  }

  /**
   * Whatever the actors do, a run makes at most a linear number of steps that change
   * a task, in the sum of the attempts its definition allows.
   */
  lemma RunsAreBounded(defs: seq<TaskDef>, now: int, steps: seq<Step>, leaseMs: nat)
    requires ValidGraph(defs) && defs != [] && forall d :: d in defs ==> d.maxAttempts >= 1
    ensures EffectiveSteps(steps, Initial(defs, now), leaseMs) <= Budget(defs)
  {
    var s := Initial(defs, now);
    ReachableOk(defs, now, [], leaseMs);
    assert Exec([], s, leaseMs) == s;
    forall i | 0 <= i < |defs| ensures defs[i].maxAttempts >= 1 {
      assert defs[i] in defs;
    }
    TotalWithinBudget(defs, s.run.tasks);
    hide SysInv;
    RunFalls(defs, steps, s, leaseMs);
    TotalNonNegative(PromptExec(steps, s, leaseMs).run);
  }
}
