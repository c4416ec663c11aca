/**
 * Where the outputs of a run come from: what a handler reported is what is stored, for
 * good, and what every child is given (src/workflow/engine.js, src/workers/runTask.js).
 */
module Outputs {
  import opened Graphs
  import opened States
  import opened Options
  import opened Documents
  import opened Transactions
  import opened Invariant
  import opened SnapshotIsolation
  import opened System
  import opened SystemInvariant
  import opened RunTheorems
  import Preserves

  /** The step commits this transaction, and the transaction changes something. */
  ghost predicate Applies(step: Step, s: Sys, tx: Txn) {
    && step.Commit?
    && var a := ActorOf(s, step.w);
      a.InTransaction? && a.tx == tx && CanCommit(a.base, s.run, Apply(tx, a.base)) && Apply(tx, a.base) != a.base
  }

  /** One of the steps applied this transaction. */
  ghost predicate WasApplied(steps: seq<Step>, s: Sys, leaseMs: nat, tx: Txn) {
    exists i :: 0 <= i < |steps| && Applies(steps[i], Exec(steps[..i], s, leaseMs), tx)
  }

  /** The transaction reports `o` as the output of task `k`: the result of its handler, or the word for an approval. */
  predicate Reports(tx: Txn, k: nat, o: Output) {
    || (tx.CompleteTask? && tx.task == k && tx.result == o)
    || (tx.ResolveApproval? && tx.task == k && tx.decision == APPROVED && o == "approved")
  }

  ghost predicate HasOutput(run: Run, k: nat, o: Output) {
    k < |run.tasks| && run.tasks[k].status == T.COMPLETED && run.tasks[k].output == Some(o)
  }

  // ---------------------------------------------------------------- single transactions

  lemma SucceededDocument(s: Run, k: nat, t': Task, now: int)
    requires k < |s.tasks| && t'.status == T.COMPLETED && t'.def.key !in t'.dependents
    ensures var a := AfterTaskSucceeded(Put(s, k, t'), k, now);
      && |a.tasks| == |s.tasks| && a.tasks[k] == t'
      && forall i :: 0 <= i < |s.tasks| && i != k && a.tasks[i].status == T.COMPLETED ==> s.tasks[i].status == T.COMPLETED
  {
  }

  lemma FailedDocument(s: Run, k: nat, t': Task, dead: bool)
    requires k < |s.tasks| && t'.status != T.COMPLETED
    ensures var a := AfterTaskFailedForGood(Put(s, k, t'), k, dead);
      && |a.tasks| == |s.tasks|
      && forall i :: 0 <= i < |s.tasks| && a.tasks[i].status == T.COMPLETED ==> s.tasks[i].status == T.COMPLETED
  {
  }

  /** A transaction that reports an output and changes something stores that output. */
  lemma ReportStores(defs: seq<TaskDef>, tx: Txn, s: Run, k: nat, o: Output)
    requires Inv(defs, s) && Reports(tx, k, o) && Apply(tx, s) != s
    ensures HasOutput(Apply(tx, s), k, o) && k < |s.tasks| && s.tasks[k].status != T.COMPLETED
  {
    if tx.CompleteTask? {
      Preserves.HeldTask(defs, s, k, tx.token);
      SucceededDocument(s, k, s.tasks[k].(status := T.COMPLETED, output := Some(o), leaseExpiresAt := None), tx.now);
    } else {
      ChildIffListed(defs, s, k, k);
      var t' := s.tasks[k].(status := T.COMPLETED, output := Some(o));
      SucceededDocument(s.(approvals := s.approvals[k := DECIDED(APPROVED)]), k, t', tx.now);
    }
  }

  /** The transaction completes no task but the one whose output it reports. */
  ghost predicate OnlyReportedComplete(tx: Txn, s: Run, a: Run) {
    && |a.tasks| == |s.tasks|
    && forall k :: 0 <= k < |s.tasks| && a.tasks[k].status == T.COMPLETED && s.tasks[k].status != T.COMPLETED ==>
      a.tasks[k].output.Some? && Reports(tx, k, a.tasks[k].output.value)
  }

  lemma OnlyReportsComplete(defs: seq<TaskDef>, tx: Txn, s: Run)
    requires Inv(defs, s)
    ensures OnlyReportedComplete(tx, s, Apply(tx, s))
  {
    hide Inv, Complete, Fail, Resolve, Holds, OnlyReportedComplete, Reports;
    match tx
    case CompleteTask(k, token, o, now) => CompletionCompletes(defs, s, k, token, o, now);
    case FailTask(k, token, retryable, delayMs, now) => FailCompletesNone(s, k, token, retryable, delayMs, now);
    case ResolveApproval(k, decision, now) => DecisionCompletes(defs, s, k, decision, now);
    case _ => OthersCompleteNone(tx, s);
  }

  lemma OthersCompleteNone(tx: Txn, s: Run)
    requires !tx.CompleteTask? && !tx.FailTask? && !tx.ResolveApproval?
    ensures OnlyReportedComplete(tx, s, Apply(tx, s))
  {
  }

  lemma CompletionCompletes(defs: seq<TaskDef>, s: Run, k: nat, token: int, o: Output, now: int)
    requires Inv(defs, s)
    ensures OnlyReportedComplete(CompleteTask(k, token, o, now), s, Complete(s, k, token, o, now))
  {
    hide Inv, AfterTaskSucceeded;
    if Holds(s, k, token) {
      Preserves.HeldTask(defs, s, k, token);
      SucceededDocument(s, k, s.tasks[k].(status := T.COMPLETED, output := Some(o), leaseExpiresAt := None), now);
    }
  }

  lemma FailCompletesNone(s: Run, k: nat, token: int, retryable: bool, delayMs: int, now: int)
    ensures OnlyReportedComplete(FailTask(k, token, retryable, delayMs, now), s, Fail(s, k, token, retryable, delayMs, now))
  {
    if Holds(s, k, token) && !WillRetry(s, k, retryable) {
      var t := s.tasks[k];
      var dead := retryable && t.attempt >= t.def.maxAttempts;
      hide AfterTaskFailedForGood;
      FailedDocument(s, k, t.(status := if dead then T.DEAD_LETTER else T.FAILED, leaseExpiresAt := None), dead);
    }
  }

  lemma NotItsOwnChild(defs: seq<TaskDef>, s: Run, k: nat)
    requires Inv(defs, s) && k < |s.tasks|
    ensures s.tasks[k].def.key !in s.tasks[k].dependents
  {
    ChildIffListed(defs, s, k, k);
  }

  lemma DecisionCompletes(defs: seq<TaskDef>, s: Run, k: nat, decision: Decision, now: int)
    requires Inv(defs, s)
    ensures OnlyReportedComplete(ResolveApproval(k, decision, now), s, Resolve(s, k, decision, now))
  {
    hide Inv, Evolves, AfterTaskSucceeded, AfterTaskFailedForGood;
    if k < |s.approvals| && s.approvals[k].REQUESTED? {
      Preserves.ResolveKeeps(defs, s, k, decision, now);
      NotItsOwnChild(defs, s, k);
      var s1 := s.(approvals := s.approvals[k := DECIDED(decision)]);
      SucceededDocument(s1, k, s.tasks[k].(status := T.COMPLETED, output := Some("approved")), now);
      FailedDocument(s1, k, s.tasks[k].(status := T.FAILED), false);
    }
  }

  // ---------------------------------------------------------------- single steps

  lemma StepEvolves(defs: seq<TaskDef>, step: Step, s: Sys, leaseMs: nat, k: nat, o: Output)
    requires SysInv(defs, s, leaseMs) && HasOutput(s.run, k, o)
    ensures HasOutput(Do(step, s, leaseMs).run, k, o)
  {
    hide SysInv, Do;
    StepOk(defs, step, s, leaseMs);
    assert TaskEvolves(s.run.tasks[k], Do(step, s, leaseMs).run.tasks[k]);
  }

  /** The base of an open transaction satisfies the invariant and has the shape of the run. */
  lemma OpenBase(defs: seq<TaskDef>, s: Sys, leaseMs: nat, w: nat)
    requires SysInv(defs, s, leaseMs) && ActorOf(s, w).InTransaction?
    ensures Inv(defs, ActorOf(s, w).base)
  {
    hide Inv, Evolves;
    assert ActorOk(defs, s.run, ActorOf(s, w));
  }

  lemma CommittedRun(step: Step, s: Sys, leaseMs: nat, tx: Txn)
    requires Applies(step, s, tx)
    ensures var a := ActorOf(s, step.w); Do(step, s, leaseMs).run == Merge(a.base, s.run, Apply(tx, a.base))
  {
    hide Apply, CanCommit, Merge;
  }

  /** The step that applies a report stores its output. */
  lemma StepStores(defs: seq<TaskDef>, step: Step, s: Sys, leaseMs: nat, tx: Txn, k: nat, o: Output)
    requires SysInv(defs, s, leaseMs) && Applies(step, s, tx) && Reports(tx, k, o)
    ensures HasOutput(Do(step, s, leaseMs).run, k, o)
  {
    hide SysInv, Inv, Do, Apply, Reports;
    var base := ActorOf(s, step.w).base;
    OpenBase(defs, s, leaseMs, step.w);
    CommittedRun(step, s, leaseMs, tx);
    ReportStores(defs, tx, base, k, o);
  }

  /** Without a commit no task becomes COMPLETED. */
  lemma OtherStepsCompleteNone(defs: seq<TaskDef>, step: Step, s: Sys, leaseMs: nat, k: nat)
    requires SysInv(defs, s, leaseMs) && !step.Commit? && k < |Do(step, s, leaseMs).run.tasks|
    requires Do(step, s, leaseMs).run.tasks[k].status == T.COMPLETED
    ensures k < |s.run.tasks| && s.run.tasks[k].status == T.COMPLETED
  {
    hide SysInv, Apply, ParentOutputs, DistinctKeys, MayBegin, Committed, LeaseExpired;
  }

  /** A commit that completes a task applies the report of its output. */
  lemma CommitReports(defs: seq<TaskDef>, w: nat, s: Sys, leaseMs: nat, k: nat)
    requires SysInv(defs, s, leaseMs) && k < |s.run.tasks| && s.run.tasks[k].status != T.COMPLETED
    requires var run := Do(Commit(w), s, leaseMs).run; k < |run.tasks| && run.tasks[k].status == T.COMPLETED
    ensures var t, a := Do(Commit(w), s, leaseMs).run.tasks[k], ActorOf(s, w);
      a.InTransaction? && t.output.Some? && Applies(Commit(w), s, a.tx) && Reports(a.tx, k, t.output.value)
  {
    hide SysInv, Inv, Apply, Reports;
    var a := ActorOf(s, w);
    OpenBase(defs, s, leaseMs, w);
    OnlyReportsComplete(defs, a.tx, a.base);
  }

  // ---------------------------------------------------------------- whole runs

  /** What was applied before is still applied after one more step. */
  lemma AppliedStays(steps: seq<Step>, s: Sys, leaseMs: nat, tx: Txn)
    requires steps != [] && WasApplied(steps[..|steps| - 1], s, leaseMs, tx)
    ensures WasApplied(steps, s, leaseMs, tx)
  {
    hide Applies;
    var before := steps[..|steps| - 1];
    var i :| 0 <= i < |before| && Applies(before[i], Exec(before[..i], s, leaseMs), tx);
    assert before[..i] == steps[..i] && before[i] == steps[i];
  }

  /** An applied report leaves its output as the output of the task, for good. */
  lemma {:induction false} AppliedOutputStays(defs: seq<TaskDef>, now: int, steps: seq<Step>, leaseMs: nat, tx: Txn, k: nat, o: Output)
    requires ValidGraph(defs) && defs != [] && WasApplied(steps, Initial(defs, now), leaseMs, tx) && Reports(tx, k, o)
    ensures HasOutput(Exec(steps, Initial(defs, now), leaseMs).run, k, o)
    decreases |steps|
  {
    hide SysInv, Do, Applies, HasOutput, Reports, Initial;
    var s := Initial(defs, now);
    var n := |steps| - 1;
    var i :| 0 <= i < |steps| && Applies(steps[i], Exec(steps[..i], s, leaseMs), tx);
    var mid := Exec(steps[..n], s, leaseMs);
    ReachableOk(defs, now, steps[..n], leaseMs);
    if i == n {
      StepStores(defs, steps[n], mid, leaseMs, tx, k, o);
    } else {
      assert steps[..n][..i] == steps[..i] && steps[..n][i] == steps[i];
      AppliedOutputStays(defs, now, steps[..n], leaseMs, tx, k, o);
      StepEvolves(defs, steps[n], mid, leaseMs, k, o);
    }
  }

  /** Some applied transaction reported this output of the task. */
  ghost predicate WasReported(steps: seq<Step>, s: Sys, leaseMs: nat, k: nat, o: Output) {
    exists tx :: WasApplied(steps, s, leaseMs, tx) && Reports(tx, k, o)
  }

  /** Every stored output was reported. */
  lemma {:induction false} OutputsWereReported(defs: seq<TaskDef>, now: int, steps: seq<Step>, leaseMs: nat, k: nat)
    requires ValidGraph(defs) && defs != []
    requires var run := Exec(steps, Initial(defs, now), leaseMs).run; k < |run.tasks| && run.tasks[k].status == T.COMPLETED
    ensures var run := Exec(steps, Initial(defs, now), leaseMs).run;
      run.tasks[k].output.Some? && WasReported(steps, Initial(defs, now), leaseMs, k, run.tasks[k].output.value)
    decreases |steps|
  {
    var s := Initial(defs, now);
    if steps == [] {
      assert false;
    } else {
      hide SysInv, Do, Applies, Reports, Initial, WasApplied;
      var n := |steps| - 1;
      var mid := Exec(steps[..n], s, leaseMs);
      ReachableOk(defs, now, steps[..n], leaseMs);
      SameNumber(defs, steps[n], mid, leaseMs);
      if mid.run.tasks[k].status == T.COMPLETED {
        OutputsWereReported(defs, now, steps[..n], leaseMs, k);
        var o := mid.run.tasks[k].output.value;
        StepEvolves(defs, steps[n], mid, leaseMs, k, o);
        var tx :| WasApplied(steps[..n], s, leaseMs, tx) && Reports(tx, k, o);
        AppliedStays(steps, s, leaseMs, tx);
      } else {
        StepReports(defs, steps, s, mid, leaseMs, k);
      }
    }
  }

  lemma SameNumber(defs: seq<TaskDef>, step: Step, s: Sys, leaseMs: nat)
    requires SysInv(defs, s, leaseMs)
    ensures |Do(step, s, leaseMs).run.tasks| == |s.run.tasks|
  {
    hide SysInv, Do;
    StepOk(defs, step, s, leaseMs);
  }

  /** The last step completed the task: it applied the report of its output. */
  lemma StepReports(defs: seq<TaskDef>, steps: seq<Step>, s: Sys, mid: Sys, leaseMs: nat, k: nat)
    requires steps != [] && mid == Exec(steps[..|steps| - 1], s, leaseMs) && SysInv(defs, mid, leaseMs)
    requires k < |mid.run.tasks| && mid.run.tasks[k].status != T.COMPLETED
    requires var run := Do(steps[|steps| - 1], mid, leaseMs).run; k < |run.tasks| && run.tasks[k].status == T.COMPLETED
    ensures var run := Do(steps[|steps| - 1], mid, leaseMs).run;
      run.tasks[k].output.Some? && WasReported(steps, s, leaseMs, k, run.tasks[k].output.value)
  {
    hide SysInv, Do, Exec, Applies, Reports;
    var step := steps[|steps| - 1];
    if step.Commit? {
      CommitReports(defs, step.w, mid, leaseMs, k);
      assert WasApplied(steps, s, leaseMs, ActorOf(mid, step.w).tx);
    } else {
      OtherStepsCompleteNone(defs, step, mid, leaseMs, k);
    }
  }

  /**
   * What a handler was given for a parent is exactly what was reported as that parent's
   * output: some applied transaction reported it, and whatever any applied transaction
   * reported of the parent is what the handler was given. It was given nothing else.
   */
  lemma HandlersSeeReportedOutputs(defs: seq<TaskDef>, now: int, steps: seq<Step>, leaseMs: nat, i: nat, p: nat)
    requires ValidGraph(defs) && defs != []
    requires var s := Exec(steps, Initial(defs, now), leaseMs);
      && i < |s.handed| && p < |s.run.tasks|
      && s.handed[i].ticket.task < |s.run.tasks| && IsParent(s.run, p, s.handed[i].ticket.task)
    ensures var s := Exec(steps, Initial(defs, now), leaseMs);
      var key := s.run.tasks[p].def.key;
      && key in s.handed[i].inputs && s.handed[i].inputs[key].Some?
      && WasReported(steps, Initial(defs, now), leaseMs, p, s.handed[i].inputs[key].value)
      && (forall tx, o :: WasApplied(steps, Initial(defs, now), leaseMs, tx) && Reports(tx, p, o) ==>
        s.handed[i].inputs[key] == Some(o))
      && (forall other :: other in s.handed[i].inputs ==> other in s.run.tasks[s.handed[i].ticket.task].def.dependsOn)
  {
    var s := Exec(steps, Initial(defs, now), leaseMs);
    assert Reachable(defs, s, leaseMs);
    HandlersSeeFinalOutputs(defs, s, leaseMs, i, p);
    hide Exec, Initial, Reachable, ValidGraph, IsParent, WasApplied, Reports;
    OutputsWereReported(defs, now, steps, leaseMs, p);
    forall tx, o | WasApplied(steps, Initial(defs, now), leaseMs, tx) && Reports(tx, p, o)
      ensures s.handed[i].inputs[s.run.tasks[p].def.key] == Some(o)
    {
      AppliedOutputStays(defs, now, steps, leaseMs, tx, p, o);
    }
  }
}
