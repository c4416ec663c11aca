/** The documents of one run in the database, updated in place (src/repositories/task.repository.js). */
module TaskRepository {
  import opened Graphs
  import opened States
  import opened Options
  import opened Documents
  import opened Sums
  import Tx = Transactions

  /** One for each task that an update matches. */
  function Matching(matches: Task -> bool): (int, Task) -> int {
    (_: int, t: Task) => if matches(t) then 1 else 0
  }

  class Database {
    var exec: Execution
    var tasks: seq<Task>
    var approvals: seq<Approval>
    var outbox: seq<Event>

    /** No run yet. */
    constructor ()
      ensures Snapshot() == Run(Execution(E.PENDING, 0), [], [], [])
    {
      exec, tasks, approvals, outbox := Execution(E.PENDING, 0), [], [], [];
    }

    function Snapshot(): Run reads this {
      Run(exec, tasks, approvals, outbox)
    }

    /** Compare-and-set on the status, and on the fencing token where one is given. */
    method TransitionTask(k: nat, from: T, to: T, where: Option<int>, update: Task -> Task) returns (won: bool)
      requires CanMoveTask(from, to)
      modifies `tasks
      ensures won == (Tx.At(old(Snapshot()), k, from) && (where.Some? ==> old(tasks)[k].leaseToken == where.value))
      ensures Snapshot() == if won then Tx.Put(old(Snapshot()), k, update(old(tasks)[k]).(status := to)) else old(Snapshot())
    {
      if k < |tasks| && tasks[k].status == from && (where == None || where == Some(tasks[k].leaseToken)) {
        tasks := tasks[k := update(tasks[k]).(status := to)];
        return true;
      }
      return false;
    }

    /** Claim or takeover: a new attempt under a new token and a new lease. */
    method ClaimTask(k: nat, leaseMs: int, now: int) returns (task: Option<Task>)
      modifies `tasks
      ensures Snapshot() == Tx.Claim(old(Snapshot()), k, now, leaseMs)
      ensures task.Some? <==> Tx.Claimable(old(Snapshot()), k, now)
      ensures task.Some? ==>
        && k < |tasks| && task.value == tasks[k] && tasks[k].status == T.RUNNING
        && tasks[k].leaseToken == old(tasks)[k].leaseToken + 1
    {
      assert CanMoveTask(T.QUEUED, T.RUNNING) && CanMoveTask(T.RUNNING, T.QUEUED) && CanMoveTask(T.RETRYING, T.QUEUED);
      if k >= |tasks| {
        return None;
      }
      var t := tasks[k];
      if t.status == T.QUEUED || t.status == T.RETRYING || (t.status == T.RUNNING && Tx.LeaseExpired(t, now)) {
        tasks := tasks[k := t.(status := T.RUNNING, attempt := t.attempt + 1, leaseToken := t.leaseToken + 1,
                               leaseExpiresAt := Some(now + leaseMs))];
        return Some(tasks[k]);
      }
      return None;
    }

    /** Heartbeat: only the holder of the current token moves the deadline. */
    method RenewTaskLease(k: nat, token: int, leaseMs: int, now: int) returns (renewed: bool)
      modifies `tasks
      ensures renewed == Tx.Holds(old(Snapshot()), k, token)
      ensures Snapshot() == Tx.Renew(old(Snapshot()), k, token, now, leaseMs)
    {
      if k < |tasks| && tasks[k].status == T.RUNNING && tasks[k].leaseToken == token {
        tasks := tasks[k := tasks[k].(leaseExpiresAt := Some(now + leaseMs))];
        return true;
      }
      return false;
    }

    /** updateMany: every matching task is updated; how many matched. */
    method UpdateTasks(matches: Task -> bool, update: Task -> Task) returns (modified: int)
      modifies `tasks
      ensures |tasks| == |old(tasks)|
      ensures forall i :: 0 <= i < |tasks| ==> tasks[i] == if matches(old(tasks)[i]) then update(old(tasks)[i]) else old(tasks)[i]
      ensures modified == Sum(Matching(matches), old(tasks))
    {
      modified := Sum(Matching(matches), tasks);
      tasks := Tx.MapTasks((t: Task) => if matches(t) then update(t) else t, tasks);
    }

    /** find with a limit (0 is none): matching tasks in some order, all of them unless the limit stops it. */
    method FindTasks(matches: Task -> bool, limit: nat) returns (found: seq<nat>)
      ensures forall k :: k in found ==> k < |tasks| && matches(tasks[k])
      ensures |found| <= |tasks| && (limit == 0 || |found| <= limit)
      ensures limit == 0 || |found| < limit ==> forall k: nat :: k < |tasks| && matches(tasks[k]) ==> k in found
    {
      found := [];
      for k := 0 to |tasks|
        invariant forall i :: i in found ==> i < k && matches(tasks[i])
        invariant |found| <= k && (limit == 0 || |found| <= limit)
        invariant limit == 0 || |found| < limit ==> forall i: nat :: i < k && matches(tasks[i]) ==> i in found
      {
        if matches(tasks[k]) && (limit == 0 || |found| < limit) {
          found := found + [k];
        }
      }
    }

    /** Pending requests whose deadline has passed, all of them unless the limit stops the query. */
    method FindOverdueApprovals(limit: nat, now: int) returns (found: seq<nat>)
      ensures forall k :: k in found ==> k < |approvals| && approvals[k].REQUESTED? && approvals[k].expiresAt < now
      ensures |found| <= |approvals| && (limit == 0 || |found| <= limit)
      ensures limit == 0 || |found| < limit ==>
        forall k: nat :: k < |approvals| && approvals[k].REQUESTED? && approvals[k].expiresAt < now ==> k in found
    {
      found := [];
      for k := 0 to |approvals|
        invariant forall i :: i in found ==> i < k && approvals[i].REQUESTED? && approvals[i].expiresAt < now
        invariant |found| <= k && (limit == 0 || |found| <= limit)
        invariant limit == 0 || |found| < limit ==>
          forall i: nat :: i < k && approvals[i].REQUESTED? && approvals[i].expiresAt < now ==> i in found
      {
        if approvals[k].REQUESTED? && approvals[k].expiresAt < now && (limit == 0 || |found| < limit) {
          found := found + [k];
        }
      }
    }
  }
}
