/**
 * Every interleaving of engine commits, relays that may die anywhere (and may briefly be
 * several), and deliveries in any number and order (src/events/relay.js,
 * src/events/analyticsProcessor.js), and what the consumer's counts mean at its end.
 */
module Pipeline {
  import opened Graphs
  import opened States
  import opened Documents
  import opened Invariant
  import opened SystemInvariant
  import opened System
  import opened RunTheorems
  import opened Cardinality
  import opened Outbox

  datatype RelayState = Resting | Reading(batch: seq<nat>) | Sent(batch: seq<nat>)

  datatype Pipe = Pipe(log: seq<Row>, published: set<nat>, topic: seq<nat>, relays: map<nat, RelayState>, stats: Stats)

  datatype Step =
    | Append(row: Row)                  // a transaction commits a row
    | Read(relay: nat, batch: seq<nat>)
    | Publish(relay: nat, sent: nat)    // the broker took the first `sent` messages; all of them: the call returned
    | Mark(relay: nat)
    | Die(relay: nat)
    | Deliver(message: nat)             // the consumer is handed a message of the topic, again or for the first time

  function RelayOf(p: Pipe, r: nat): RelayState {
    if r in p.relays then p.relays[r] else Resting
  }

  function Set(p: Pipe, r: nat, s: RelayState): Pipe {
    p.(relays := p.relays[r := s])
  }

  /** A step that is not enabled changes nothing. */
  ghost function Do(step: Step, p: Pipe, batchSize: nat): Pipe {
    match step
    case Append(row) => p.(log := p.log + [row])
    case Read(r, batch) =>
      if RelayOf(p, r).Resting? && IsBatch(p.log, p.published, batchSize, batch) then Set(p, r, Reading(batch)) else p
    case Publish(r, sent) =>
      var s := RelayOf(p, r);
      if !s.Reading? then p
      else if sent >= |s.batch| then Set(p, r, Sent(s.batch)).(topic := p.topic + s.batch)
      else Set(p, r, Resting).(topic := p.topic + s.batch[..sent])
    case Mark(r) =>
      var s := RelayOf(p, r);
      if s.Sent? then Set(p, r, Resting).(published := p.published + Ids(s.batch)) else p
    case Die(r) => Set(p, r, Resting)
    case Deliver(i) =>
      if i < |p.topic| && p.topic[i] < |p.log| then p.(stats := Counted(p.stats, p.topic[i], p.log[p.topic[i]])) else p
  }

  ghost function Exec(steps: seq<Step>, batchSize: nat): Pipe {
    if steps == [] then Pipe([], {}, [], map[], Stats({}, map[]))
    else Do(steps[|steps| - 1], Exec(steps[..|steps| - 1], batchSize), batchSize)
  }

  /** The events of one slot among some rows. */
  ghost function InSlot(log: seq<Row>, ids: set<nat>, slot: Slot): set<nat> {
    set id | id in ids && id < |log| && SlotOf(log[id]) == slot
  }

  ghost function AllIds(log: seq<Row>): set<nat> {
    Unpublished(log, {})
  }

  ghost predicate CountsExact(log: seq<Row>, s: Stats) {
    forall slot :: CountAt(s, slot) == |InSlot(log, s.processed, slot)|
  }

  ghost predicate InLog(log: seq<Row>, batch: seq<nat>) {
    forall id :: id in batch ==> id < |log|
  }

  ghost predicate Inv(p: Pipe) {
    && InLog(p.log, p.topic)
    && (forall id :: id in p.published ==> id in p.topic)
    && (forall id :: id in p.stats.processed ==> id in p.topic)
    && (forall r :: r in p.relays && p.relays[r].Reading? ==> InLog(p.log, p.relays[r].batch))
    && (forall r :: r in p.relays && p.relays[r].Sent? ==> forall id :: id in p.relays[r].batch ==> id in p.topic)
    && CountsExact(p.log, p.stats)
  }

  lemma AppendKeeps(p: Pipe, row: Row)
    requires Inv(p)
    ensures Inv(p.(log := p.log + [row]))
  {
    var log' := p.log + [row];
    forall slot ensures InSlot(log', p.stats.processed, slot) == InSlot(p.log, p.stats.processed, slot) {
    }
  }

  lemma CountedKeeps(log: seq<Row>, s: Stats, id: nat)
    requires CountsExact(log, s) && id < |log|
    ensures CountsExact(log, Counted(s, id, log[id]))
  {
    var s' := Counted(s, id, log[id]);
    if id !in s.processed {
      forall slot ensures CountAt(s', slot) == |InSlot(log, s'.processed, slot)| {
        if slot == SlotOf(log[id]) {
          assert InSlot(log, s'.processed, slot) == InSlot(log, s.processed, slot) + {id};
        } else {
          assert InSlot(log, s'.processed, slot) == InSlot(log, s.processed, slot);
        }
      }
    }
  }

  lemma DeliverKeeps(p: Pipe, i: nat)
    requires Inv(p) && i < |p.topic| && p.topic[i] < |p.log|
    ensures Inv(p.(stats := Counted(p.stats, p.topic[i], p.log[p.topic[i]])))
  {
    CountedKeeps(p.log, p.stats, p.topic[i]);
  }

  lemma PublishKeeps(p: Pipe, r: nat, sent: nat, batchSize: nat)
    requires Inv(p)
    ensures Inv(Do(Publish(r, sent), p, batchSize))
  {
    hide CountsExact;
    if RelayOf(p, r).Reading? {
      var batch := RelayOf(p, r).batch;
      var q := Do(Publish(r, sent), p, batchSize);
      assert forall id :: id in p.topic ==> id in q.topic;
      assert InLog(p.log, batch);
      forall i | 0 <= i < |q.topic| ensures q.topic[i] < |q.log| {
        if i < |p.topic| {
          assert q.topic[i] == p.topic[i] && p.topic[i] in p.topic;
        } else {
          assert q.topic[i] == batch[i - |p.topic|] && q.topic[i] in batch;
        }
      }
      forall x | x in q.relays && q.relays[x].Sent? ensures forall id :: id in q.relays[x].batch ==> id in q.topic {
        if x == r {
          assert q.relays[x].batch == batch && q.topic == p.topic + batch;
        } else {
          assert x in p.relays && q.relays[x] == p.relays[x];
        }
      }
      forall x | x in q.relays && q.relays[x].Reading? ensures InLog(q.log, q.relays[x].batch) {
        assert x in p.relays && q.relays[x] == p.relays[x];
      }
    }
  }

  lemma StepKeeps(step: Step, p: Pipe, batchSize: nat)
    requires Inv(p)
    ensures Inv(Do(step, p, batchSize))
  {
    match step
    case Append(row) => AppendKeeps(p, row);
    case Deliver(i) => if i < |p.topic| && p.topic[i] < |p.log| { DeliverKeeps(p, i); }
    case Read(r, batch) => hide CountsExact;
    case Publish(r, sent) => PublishKeeps(p, r, sent, batchSize);
    case Mark(r) => hide CountsExact;
    case Die(r) => hide CountsExact;
  }

  lemma {:induction false} AlwaysInv(steps: seq<Step>, batchSize: nat)
    ensures Inv(Exec(steps, batchSize))
  {
    hide Do, Inv;
    if steps == [] {
      NothingYet(batchSize);
    } else {
      AlwaysInv(steps[..|steps| - 1], batchSize);
      StepKeeps(steps[|steps| - 1], Exec(steps[..|steps| - 1], batchSize), batchSize);
    }
  }

  lemma NothingYet(batchSize: nat)
    ensures Inv(Exec([], batchSize))
  {
    forall slot ensures InSlot([], {}, slot) == {} {
    }
  }

  /** Each counter is the number of distinct events processed, and never exceeds the outbox. */
  lemma CountsNeverExceedTheLog(steps: seq<Step>, batchSize: nat, slot: Slot)
    ensures var p := Exec(steps, batchSize);
      CountAt(p.stats, slot) == |InSlot(p.log, p.stats.processed, slot)| <= |InSlot(p.log, AllIds(p.log), slot)|
  {
    var p := Exec(steps, batchSize);
    AlwaysInv(steps, batchSize);
    SubsetSize(InSlot(p.log, p.stats.processed, slot), InSlot(p.log, AllIds(p.log), slot));
  }

  /** No marked row was lost on the way: it is in the topic, whatever relay died when. */
  lemma MarkedMeansSent(steps: seq<Step>, batchSize: nat)
    ensures forall id :: id in Exec(steps, batchSize).published ==> id in Exec(steps, batchSize).topic
  {
    AlwaysInv(steps, batchSize);
  }

  /** All rows are marked and all messages delivered at least once. */
  ghost predicate Drained(p: Pipe) {
    Unpublished(p.log, p.published) == {} && forall id :: id in p.topic ==> id in p.stats.processed
  }

  /** Then the counters are exactly the outbox, however often anything was sent or delivered. */
  lemma DrainedCountsAreTheLog(steps: seq<Step>, batchSize: nat, slot: Slot)
    requires Drained(Exec(steps, batchSize))
    ensures var p := Exec(steps, batchSize);
      CountAt(p.stats, slot) == |InSlot(p.log, AllIds(p.log), slot)|
  {
    var p := Exec(steps, batchSize);
    AlwaysInv(steps, batchSize);
    forall id: nat | id < |p.log| ensures id in p.stats.processed {
      assert id !in Unpublished(p.log, p.published);
    }
    assert InSlot(p.log, p.stats.processed, slot) == InSlot(p.log, AllIds(p.log), slot);
  }

  // ---------------------------------------------------------------- end to end

  function KindOf(e: Event): Kind {
    match e
    case ExecutionStarted => "execution.started"
    case ExecutionPaused => "execution.paused"
    case ExecutionResumed => "execution.resumed"
    case ExecutionCompleted => "execution.completed"
    case ExecutionFailed => "execution.failed"
    case ExecutionCancelled => "execution.cancelled"
    case TaskCompleted(_) => "task.completed"
    case TaskFailed(_) => "task.failed"
    case TaskDeadLettered(_) => "task.dead_lettered"
    case TaskRetrying(_, _) => "task.retrying"
    case ApprovalRequested(_) => "approval.requested"
    case ApprovalDecided(_, d) =>
      match d
      case APPROVED => "approval.approved"
      case REJECTED => "approval.rejected"
      case EXPIRED => "approval.expired"
  }

  /** The log holds the rows that a run's transactions wrote, on whatever days. */
  ghost predicate LogOfRun(log: seq<Row>, run: Run) {
    |log| == |run.outbox| && forall i :: 0 <= i < |log| ==> log[i].kind == KindOf(run.outbox[i])
  }

  /** The counters of a kind over the days from `first` up to `end`. */
  function OverDays(s: Stats, kind: Kind, first: int, end: int): nat
    decreases end - first
  {
    if first >= end then 0 else CountAt(s, Slot(kind, first)) + OverDays(s, kind, first + 1, end)
  }

  ghost function OfKind(log: seq<Row>, kind: Kind, first: int, end: int): set<nat> {
    set id | id in AllIds(log) && log[id].kind == kind && first <= log[id].day < end
  }

  lemma {:induction false} DaysAddUp(log: seq<Row>, s: Stats, kind: Kind, first: int, end: int)
    requires forall slot :: CountAt(s, slot) == |InSlot(log, AllIds(log), slot)|
    ensures OverDays(s, kind, first, end) == |OfKind(log, kind, first, end)|
    decreases end - first
  {
    if first >= end {
      assert OfKind(log, kind, first, end) == {};
    } else {
      DaysAddUp(log, s, kind, first + 1, end);
      var today := InSlot(log, AllIds(log), Slot(kind, first));
      assert OfKind(log, kind, first, end) == today + OfKind(log, kind, first + 1, end);
      assert today !! OfKind(log, kind, first + 1, end);
    }
  }

  /** The positions of a run's rows of one kind. */
  ghost function KindRows(run: Run, kind: Kind): set<nat> {
    set i: nat | i < |run.outbox| && KindOf(run.outbox[i]) == kind
  }

  ghost function TasksIn(run: Run, st: T): set<nat> {
    set k: nat | k < |run.tasks| && run.tasks[k].status == st
  }

  /** The statuses in which a task ends by an event of its own. */
  predicate EndsTask(st: T) {
    st in {T.COMPLETED, T.FAILED, T.DEAD_LETTER}
  }

  function TaskEvent(st: T, k: nat): Event
    requires EndsTask(st)
  {
    match st
    case COMPLETED => TaskCompleted(k)
    case FAILED => TaskFailed(k)
    case DEAD_LETTER => TaskDeadLettered(k)
  }

  /** The statuses in which a run ends. */
  predicate EndsRun(st: E) {
    st in {E.COMPLETED, E.FAILED, E.CANCELLED}
  }

  function RunEvent(st: E): Event
    requires EndsRun(st)
  {
    match st
    case COMPLETED => ExecutionCompleted
    case FAILED => ExecutionFailed
    case CANCELLED => ExecutionCancelled
  }

  lemma TaskKinds(st: T, e: Event)
    requires EndsTask(st)
    ensures KindOf(e) == KindOf(TaskEvent(st, 0)) <==> exists k :: e == TaskEvent(st, k)
  {
    assert |"task.completed"| == 14 && |"task.failed"| == 11 && |"task.dead_lettered"| == 18 && |"approval.requested"| == 18;
    assert "task.dead_lettered"[0] == 't' && "approval.requested"[0] == 'a';
    match e
    case TaskCompleted(k) => assert e == TaskEvent(T.COMPLETED, k);
    case TaskFailed(k) => assert e == TaskEvent(T.FAILED, k);
    case TaskDeadLettered(k) => assert e == TaskEvent(T.DEAD_LETTER, k);
    case _ =>
  }

  lemma RunKinds(st: E, e: Event)
    requires EndsRun(st)
    ensures KindOf(e) == KindOf(RunEvent(st)) <==> e == RunEvent(st)
  {
    assert |"execution.completed"| == |"execution.cancelled"| == 19;
    assert "execution.completed"[11] == 'o' && "execution.cancelled"[11] == 'a';
    assert |"execution.failed"| == |"execution.paused"| == |"approval.expired"| == 16;
    assert "execution.failed"[10] == 'f' && "execution.paused"[10] == 'p' && "approval.expired"[0] == 'a';
  }

  lemma CountedOnce(log: seq<Event>, e: Event, i: nat, j: nat)
    requires i < j < |log| && log[i] == log[j] == e
    ensures Count(log, e) >= 2
  {
    assert log == log[..i] + [log[i]] + log[i + 1..];
    assert log[j] == log[i + 1..][j - i - 1];
    assert e in multiset(log[i + 1..]);
  }

  /** One row for each task that ended in this status, and none else. */
  lemma RowsAreTasks(run: Run, st: T)
    requires LogAgrees(run) && EndsTask(st)
    ensures |KindRows(run, KindOf(TaskEvent(st, 0)))| == |TasksIn(run, st)|
  {
    var rows := KindRows(run, KindOf(TaskEvent(st, 0)));
    var f := (i: nat) => if i < |run.outbox| then TaskOf(run.outbox[i]) else 0;
    forall i | i in rows ensures run.outbox[i] == TaskEvent(st, f(i)) && f(i) in TasksIn(run, st) {
      RowsTask(run, st, i);
    }
    forall i, j | i in rows && j in rows && f(i) == f(j) ensures i == j {
      AtMostOneRow(run, TaskEvent(st, f(i)), i, j);
    }
    ImageSize(rows, f);
    forall k | k in TasksIn(run, st) ensures exists i :: i in rows && f(i) == k {
      var i := RowOf(run, st, k);
    }
    assert Image(rows, f) == TasksIn(run, st);
  }

  function TaskOf(e: Event): nat {
    match e
    case TaskCompleted(k) => k
    case TaskFailed(k) => k
    case TaskDeadLettered(k) => k
    case _ => 0
  }

  lemma RowsTask(run: Run, st: T, i: nat)
    requires LogAgrees(run) && EndsTask(st) && i in KindRows(run, KindOf(TaskEvent(st, 0)))
    ensures run.outbox[i] == TaskEvent(st, TaskOf(run.outbox[i])) && TaskOf(run.outbox[i]) in TasksIn(run, st)
  {
    var e := run.outbox[i];
    TaskKinds(st, e);
    assert e in multiset(run.outbox);
    assert Count(run.outbox, e) == Expected(run, e);
  }

  lemma AtMostOneRow(run: Run, e: Event, i: nat, j: nat)
    requires LogAgrees(run) && Recorded(e)
    requires i < |run.outbox| && j < |run.outbox| && run.outbox[i] == run.outbox[j] == e
    ensures i == j
  {
    assert Count(run.outbox, e) == Expected(run, e);
    if i < j {
      CountedOnce(run.outbox, e, i, j);
    } else if j < i {
      CountedOnce(run.outbox, e, j, i);
    }
  }

  lemma RowOf(run: Run, st: T, k: nat) returns (i: nat)
    requires LogAgrees(run) && EndsTask(st) && k in TasksIn(run, st)
    ensures i in KindRows(run, KindOf(TaskEvent(st, 0))) && TaskOf(run.outbox[i]) == k
  {
    var e := TaskEvent(st, k);
    TaskKinds(st, e);
    assert Count(run.outbox, e) == Expected(run, e) == 1;
    i :| 0 <= i < |run.outbox| && run.outbox[i] == e;
  }

  /** One row for the end of the run, if it ended so, and none else. */
  lemma RowsAreEnd(run: Run, st: E)
    requires LogAgrees(run) && EndsRun(st)
    ensures |KindRows(run, KindOf(RunEvent(st)))| == if run.exec.status == st then 1 else 0
  {
    var e, rows := RunEvent(st), KindRows(run, KindOf(RunEvent(st)));
    assert Count(run.outbox, e) == Expected(run, e);
    forall i | i in rows ensures run.outbox[i] == e && e in multiset(run.outbox) {
      RunKinds(st, run.outbox[i]);
    }
    if run.exec.status == st {
      var i :| 0 <= i < |run.outbox| && run.outbox[i] == e;
      forall j | j in rows ensures j == i {
        AtMostOneRow(run, e, i, j);
      }
      assert rows == {i};
    } else {
      assert rows == {};
    }
  }

  /** Everything a reachable run's transactions wrote is published and delivered, between two days. */
  ghost predicate AllDelivered(p: Pipe, run: Run, first: int, end: int) {
    Drained(p) && LogOfRun(p.log, run) && forall i :: 0 <= i < |p.log| ==> first <= p.log[i].day < end
  }

  lemma CountersAreRows(s: Sys, steps: seq<Step>, batchSize: nat, kind: Kind, first: int, end: int)
    requires AllDelivered(Exec(steps, batchSize), s.run, first, end)
    ensures OverDays(Exec(steps, batchSize).stats, kind, first, end) == |KindRows(s.run, kind)|
  {
    hide Exec;
    var p := Exec(steps, batchSize);
    forall slot ensures CountAt(p.stats, slot) == |InSlot(p.log, AllIds(p.log), slot)| {
      DrainedCountsAreTheLog(steps, batchSize, slot);
    }
    DaysAddUp(p.log, p.stats, kind, first, end);
    assert OfKind(p.log, kind, first, end) == KindRows(s.run, kind);
  }

  /**
   * End to end: once a run's rows are all published and delivered, the dashboard's
   * counters add up to the numbers of its COMPLETED, FAILED and dead-lettered tasks.
   */
  lemma CountersTellTasks(defs: seq<TaskDef>, s: Sys, leaseMs: nat, steps: seq<Step>, batchSize: nat, first: int, end: int)
    requires Reachable(defs, s, leaseMs) && AllDelivered(Exec(steps, batchSize), s.run, first, end)
    ensures var stats := Exec(steps, batchSize).stats;
      && OverDays(stats, "task.completed", first, end) == |TasksIn(s.run, T.COMPLETED)|
      && OverDays(stats, "task.failed", first, end) == |TasksIn(s.run, T.FAILED)|
      && OverDays(stats, "task.dead_lettered", first, end) == |TasksIn(s.run, T.DEAD_LETTER)|
  {
    hide SysInv, Reachable, Exec, AllDelivered, OverDays, TasksIn;
    CounterOfTasks(defs, s, leaseMs, steps, batchSize, first, end, T.COMPLETED);
    CounterOfTasks(defs, s, leaseMs, steps, batchSize, first, end, T.FAILED);
    CounterOfTasks(defs, s, leaseMs, steps, batchSize, first, end, T.DEAD_LETTER);
  }

  lemma CounterOfTasks(
    defs: seq<TaskDef>, s: Sys, leaseMs: nat, steps: seq<Step>, batchSize: nat, first: int, end: int, st: T)
    requires Reachable(defs, s, leaseMs) && EndsTask(st)
    requires AllDelivered(Exec(steps, batchSize), s.run, first, end)
    ensures OverDays(Exec(steps, batchSize).stats, KindOf(TaskEvent(st, 0)), first, end) == |TasksIn(s.run, st)|
  {
    hide SysInv, Reachable, Exec, AllDelivered;
    CountersAreRows(s, steps, batchSize, KindOf(TaskEvent(st, 0)), first, end);
    LogOfReachable(defs, s, leaseMs);
    RowsAreTasks(s.run, st);
  }

  /** And each counter of a run's end is one or zero: whether it ended so. */
  lemma CountersTellEnd(defs: seq<TaskDef>, s: Sys, leaseMs: nat, steps: seq<Step>, batchSize: nat, first: int, end: int)
    requires Reachable(defs, s, leaseMs) && AllDelivered(Exec(steps, batchSize), s.run, first, end)
    ensures var stats := Exec(steps, batchSize).stats;
      && OverDays(stats, "execution.completed", first, end) == (if s.run.exec.status == E.COMPLETED then 1 else 0)
      && OverDays(stats, "execution.failed", first, end) == (if s.run.exec.status == E.FAILED then 1 else 0)
      && OverDays(stats, "execution.cancelled", first, end) == (if s.run.exec.status == E.CANCELLED then 1 else 0)
  {
    hide SysInv, Reachable, Exec, AllDelivered, OverDays;
    CounterOfEnd(defs, s, leaseMs, steps, batchSize, first, end, E.COMPLETED);
    CounterOfEnd(defs, s, leaseMs, steps, batchSize, first, end, E.FAILED);
    CounterOfEnd(defs, s, leaseMs, steps, batchSize, first, end, E.CANCELLED);
  }

  lemma CounterOfEnd(
    defs: seq<TaskDef>, s: Sys, leaseMs: nat, steps: seq<Step>, batchSize: nat, first: int, end: int, st: E)
    requires Reachable(defs, s, leaseMs) && EndsRun(st)
    requires AllDelivered(Exec(steps, batchSize), s.run, first, end)
    ensures OverDays(Exec(steps, batchSize).stats, KindOf(RunEvent(st)), first, end) == if s.run.exec.status == st then 1 else 0
  {
    hide SysInv, Reachable, Exec, AllDelivered;
    CountersAreRows(s, steps, batchSize, KindOf(RunEvent(st)), first, end);
    LogOfReachable(defs, s, leaseMs);
    RowsAreEnd(s.run, st);
  }

  lemma LogOfReachable(defs: seq<TaskDef>, s: Sys, leaseMs: nat)
    requires Reachable(defs, s, leaseMs)
    ensures LogAgrees(s.run)
  {
    ReachableInv(defs, s, leaseMs);
  }
}
