/**
 * Transactions under snapshot isolation: each reads a snapshot `base`, and commits
 * over the then-current documents `cur` only if no document it writes has changed
 * since. A document counts as changed when its value differs, so every commit that
 * a version check would admit is admitted here too.
 */
module SnapshotIsolation {
  import opened Graphs
  import opened States
  import opened Options
  import opened Documents
  import opened Sums
  import opened Transactions
  import opened Invariant

  /** No write conflict: whatever `after` writes still has its snapshot value. */
  ghost predicate CanCommit(base: Run, cur: Run, after: Run) {
    && SameShape(base, cur) && SameShape(base, after)
    && (after.exec != base.exec ==> cur.exec == base.exec)
    && (forall i :: 0 <= i < |base.tasks| && after.tasks[i] != base.tasks[i] ==> cur.tasks[i] == base.tasks[i])
    && (forall i :: 0 <= i < |base.approvals| && after.approvals[i] != base.approvals[i] ==> cur.approvals[i] == base.approvals[i])
    && base.outbox <= after.outbox
  }

  function MergeSeq<A(==)>(base: seq<A>, cur: seq<A>, after: seq<A>): (r: seq<A>)
    requires |base| == |cur| == |after|
    ensures |r| == |base|
    ensures forall i :: 0 <= i < |r| ==> r[i] == if after[i] != base[i] then after[i] else cur[i]
  {
    seq(|base|, i requires 0 <= i < |base| => if after[i] != base[i] then after[i] else cur[i])
  }

  /** The committed state: the written documents, and the inserted rows, over everything else as it is now. */
  function Merge(base: Run, cur: Run, after: Run): Run
    requires SameShape(base, cur) && SameShape(base, after) && base.outbox <= after.outbox
  {
    Run(if after.exec != base.exec then after.exec else cur.exec,
        MergeSeq(base.tasks, cur.tasks, after.tasks),
        MergeSeq(base.approvals, cur.approvals, after.approvals),
        cur.outbox + after.outbox[|base.outbox|..])
  }

  /** Committing over the snapshot itself is running the transaction alone. */
  lemma AtomicIsSpecial(s: Run, after: Run)
    requires CanCommit(s, s, after)
    ensures Merge(s, s, after) == after
  {
    var m := Merge(s, s, after);
    assert m.tasks == after.tasks && m.approvals == after.approvals;
    assert m.outbox == after.outbox;
  }

  // ---------------------------------------------------------------- conservation

  /** A quantity spread over the documents: a weight for each of them. */
  datatype Weights = Weights(
    exec: Execution -> int,
    task: (int, Task) -> int,
    approval: (int, Approval) -> int,
    event: Event,
    perRow: int
  )

  function Total(w: Weights, s: Run): int {
    w.exec(s.exec) + Sum(w.task, s.tasks) + Sum(w.approval, s.approvals) + w.perRow * Count(s.outbox, w.event)
  }

  /**
   * Conservation: whatever a transaction adds to such a quantity when run alone on
   * its snapshot, its commit adds to the current documents, however much others
   * wrote meanwhile. So a quantity every transaction keeps constant is constant
   * under snapshot isolation as well.
   */
  lemma CommitConserves(w: Weights, base: Run, cur: Run, after: Run)
    requires CanCommit(base, cur, after)
    ensures Total(w, Merge(base, cur, after)) - Total(w, cur) == Total(w, after) - Total(w, base)
  {
    var m := Merge(base, cur, after);
    SumMerge(w.task, base.tasks, cur.tasks, after.tasks, m.tasks);
    SumMerge(w.approval, base.approvals, cur.approvals, after.approvals, m.approvals);
    RowsAdd(base, cur, after, w.event);
    var n, b, c, a := Count(m.outbox, w.event), Count(base.outbox, w.event), Count(cur.outbox, w.event), Count(after.outbox, w.event);
    Distributes(w.perRow, n, c, a, b);
    hide Merge, CanCommit, Sum, Count;
  }

  lemma Distributes(p: int, n: int, c: int, a: int, b: int)
    requires n - c == a - b
    ensures p * n - p * c == p * a - p * b
  {
    assert p * (n - c) == p * (a - b);
  }

  lemma RowsAdd(base: Run, cur: Run, after: Run, e: Event)
    requires CanCommit(base, cur, after)
    ensures Count(Merge(base, cur, after).outbox, e) - Count(cur.outbox, e) == Count(after.outbox, e) - Count(base.outbox, e)
  {
    assert after.outbox == base.outbox + after.outbox[|base.outbox|..];
  }

  function Zero<A>(): (int, A) -> int {
    (_: int, _: A) => 0
  }

  lemma SumOfZero<A>(xs: seq<A>)
    ensures Sum(Zero<A>(), xs) == 0
  {
    SumAllZero(Zero<A>(), xs);
  }

  // ---------------------------------------------------------------- the counters

  /** pendingTasks minus the number of unfinished tasks. */
  function PendingWeights(): Weights {
    Weights((e: Execution) => e.pendingTasks, (i: int, t: Task) => -UnfinishedWeight()(i, t), Zero<Approval>(), ExecutionStarted, 0)
  }

  lemma {:induction false} SumNegated<A>(f: (int, A) -> int, g: (int, A) -> int, xs: seq<A>)
    requires forall i :: 0 <= i < |xs| ==> g(i, xs[i]) == -f(i, xs[i])
    ensures Sum(g, xs) == -Sum(f, xs)
  {
    if xs != [] {
      SumNegated(f, g, xs[..|xs| - 1]);
    }
  }

  lemma PendingTotal(s: Run)
    ensures Total(PendingWeights(), s) == s.exec.pendingTasks - Sum(UnfinishedWeight(), s.tasks)
  {
    SumNegated(UnfinishedWeight(), PendingWeights().task, s.tasks);
    SumOfZero(s.approvals);
  }

  /** The pending counter stays exact, whoever else finishes tasks in between. */
  lemma CommitKeepsPending(base: Run, cur: Run, after: Run)
    requires CanCommit(base, cur, after) && PendingExact(base) && PendingExact(cur) && PendingExact(after)
    ensures PendingExact(Merge(base, cur, after))
  {
    CommitConserves(PendingWeights(), base, cur, after);
    PendingTotal(base);
    PendingTotal(cur);
    PendingTotal(after);
    PendingTotal(Merge(base, cur, after));
  }

  /** remainingDeps of task `i` minus the number of its parents that are not COMPLETED. */
  function DepsWeights(i: int, deps: seq<Key>): Weights {
    Weights((_: Execution) => 0,
            (j: int, t: Task) => (if j == i then t.remainingDeps else 0) - MissingWeight(deps)(j, t),
            Zero<Approval>(), ExecutionStarted, 0)
  }

  lemma {:induction false} SumPicked(i: nat, deps: seq<Key>, tasks: seq<Task>)
    ensures Sum(DepsWeights(i, deps).task, tasks) == (if i < |tasks| then tasks[i].remainingDeps else 0) - Missing(deps, tasks)
  {
    if tasks != [] {
      var n := |tasks| - 1;
      SumPicked(i, deps, tasks[..n]);
    }
  }

  lemma DepsTotal(i: nat, s: Run)
    requires i < |s.tasks|
    ensures var deps := s.tasks[i].def.dependsOn;
      Total(DepsWeights(i, deps), s) == s.tasks[i].remainingDeps - Missing(deps, s.tasks)
  {
    SumPicked(i, s.tasks[i].def.dependsOn, s.tasks);
    SumOfZero(s.approvals);
  }

  lemma CommitKeepsDep(base: Run, cur: Run, after: Run, i: nat)
    requires CanCommit(base, cur, after) && i < |base.tasks|
    requires base.tasks[i].def == cur.tasks[i].def == after.tasks[i].def
    requires var deps := base.tasks[i].def.dependsOn;
      && base.tasks[i].remainingDeps - Missing(deps, base.tasks) == after.tasks[i].remainingDeps - Missing(deps, after.tasks)
      && cur.tasks[i].remainingDeps == Missing(deps, cur.tasks)
    ensures var m := Merge(base, cur, after);
      m.tasks[i].remainingDeps == Missing(m.tasks[i].def.dependsOn, m.tasks)
  {
    var m := Merge(base, cur, after);
    CommitConserves(DepsWeights(i, base.tasks[i].def.dependsOn), base, cur, after);
    DepsTotal(i, base);
    DepsTotal(i, cur);
    DepsTotal(i, after);
    DepsTotal(i, m);
  }
}
