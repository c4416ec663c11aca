/** The documents a run starts with satisfy the invariant. */
module Start {
  import opened Graphs
  import opened States
  import opened Options
  import opened Documents
  import opened Sums
  import opened Transactions
  import opened Invariant

  function NamedWeight(k: Key): (int, Task) -> int {
    (_: int, t: Task) => if t.def.key == k then 1 else 0
  }

  ghost predicate Named(tasks: seq<Task>, k: Key) {
    exists i :: 0 <= i < |tasks| && tasks[i].def.key == k
  }

  /** Exactly one task carries a given key. */
  lemma {:induction false} OneTaskPerKey(tasks: seq<Task>, k: Key, at: nat)
    requires at < |tasks| && tasks[at].def.key == k
    requires forall i :: 0 <= i < |tasks| && i != at ==> tasks[i].def.key != k
    ensures Sum(NamedWeight(k), tasks) == 1
  {
    var n := |tasks| - 1;
    if at == n {
      SumAllZero(NamedWeight(k), tasks[..n]);
    } else {
      OneTaskPerKey(tasks[..n], k, at);
    }
  }

  /** With nothing completed, what is missing is the whole dependency list, each entry once. */
  lemma {:induction false} NothingCompletedYet(deps: seq<Key>, tasks: seq<Task>)
    requires Distinct(deps)
    requires forall i :: 0 <= i < |tasks| ==> tasks[i].status != T.COMPLETED
    requires forall i, j :: 0 <= i < j < |tasks| ==> tasks[i].def.key != tasks[j].def.key
    requires forall d :: d in deps ==> Named(tasks, d)
    ensures Missing(deps, tasks) == |deps|
    decreases |deps|
  {
    if deps == [] {
      SumAllZero(MissingWeight(deps), tasks);
    } else {
      var n := |deps| - 1;
      var rest, last := deps[..n], deps[n];
      assert deps == rest + [last] && last !in rest;
      NothingCompletedYet(rest, tasks);
      assert Named(tasks, last);
      var at :| 0 <= at < |tasks| && tasks[at].def.key == last;
      forall i | 0 <= i < |tasks| && i != at ensures tasks[i].def.key != last {
        if i < at {
          assert tasks[i].def.key != tasks[at].def.key;
        } else {
          assert tasks[at].def.key != tasks[i].def.key;
        }
      }
      OneTaskPerKey(tasks, last, at);
      SumAdded(MissingWeight(deps), MissingWeight(rest), NamedWeight(last), tasks);
    }
  }

  lemma {:induction false} SumAdded<A>(f: (int, A) -> int, g: (int, A) -> int, h: (int, A) -> int, xs: seq<A>)
    requires forall i :: 0 <= i < |xs| ==> f(i, xs[i]) == g(i, xs[i]) + h(i, xs[i])
    ensures Sum(f, xs) == Sum(g, xs) + Sum(h, xs)
  {
    if xs != [] {
      SumAdded(f, g, h, xs[..|xs| - 1]);
    }
  }

  lemma {:induction false} AllUnfinished(tasks: seq<Task>)
    requires forall i :: 0 <= i < |tasks| ==> !Finished(tasks[i].status)
    ensures Sum(UnfinishedWeight(), tasks) == |tasks|
  {
    if tasks != [] {
      AllUnfinished(tasks[..|tasks| - 1]);
    }
  }

  lemma StartedDeps(defs: seq<TaskDef>, now: int)
    requires Structural(defs)
    ensures DepsExact(Started(defs, now))
  {
    var s := Started(defs, now);
    forall i | 0 <= i < |s.tasks| ensures s.tasks[i].remainingDeps == Missing(s.tasks[i].def.dependsOn, s.tasks) {
      var deps := defs[i].dependsOn;
      assert defs[i] in defs;
      forall d | d in deps ensures Named(s.tasks, d) {
        assert d in Keys(defs);
        var t :| t in defs && t.key == d;
        var j :| 0 <= j < |defs| && defs[j] == t;
        assert s.tasks[j].def.key == d;
      }
      NothingCompletedYet(deps, s.tasks);
    }
  }

  lemma StartedParents(defs: seq<TaskDef>, now: int)
    requires Structural(defs)
    ensures ParentsDone(Started(defs, now)) && PendingWaits(Started(defs, now))
  {
  }

  lemma StartedLog(defs: seq<TaskDef>, now: int)
    ensures LogAgrees(Started(defs, now))
  {
    var s := Started(defs, now);
    forall e ensures Count(s.outbox, e) == if e == ExecutionStarted then 1 else 0 {
    }
  }

  /** A run of a well-formed definition with at least one task starts in the invariant. */
  lemma StartedKeeps(defs: seq<TaskDef>, now: int)
    requires Structural(defs) && defs != []
    ensures Inv(defs, Started(defs, now))
  {
    hide DepsExact, ParentsDone, PendingWaits, LogAgrees, Structural;
    var s := Started(defs, now);
    AllUnfinished(s.tasks);
    StartedDeps(defs, now);
    StartedParents(defs, now);
    StartedLog(defs, now);
  }
}
