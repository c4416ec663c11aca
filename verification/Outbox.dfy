/**
 * From the outbox to the consumer's counts (src/events/relay.js, src/events/analyticsProcessor.js).
 * A row is known by its position in the log; positions stand for the unique event ids.
 */
module Outbox {
  import opened Options

  type Kind = string

  /** What relay and consumer need of a row: its type, the day it occurred on, and its place in the order of `_id`s. */
  datatype Row = Row(kind: Kind, day: int, oid: int)

  /** One counter per type and day. */
  datatype Slot = Slot(kind: Kind, day: int)

  function SlotOf(r: Row): Slot {
    Slot(r.kind, r.day)
  }

  function Unpublished(log: seq<Row>, published: set<nat>): set<nat> {
    set id: nat | id < |log| && id !in published
  }

  function Ids(batch: seq<nat>): set<nat> {
    set id | id in batch
  }

  ghost predicate DistinctIds(batch: seq<nat>) {
    forall i, j :: 0 <= i < j < |batch| ==> batch[i] != batch[j]
  }

  /** In the order of `_id`s. */
  ghost predicate OldestFirst(log: seq<Row>, batch: seq<nat>) {
    && (forall i :: 0 <= i < |batch| ==> batch[i] < |log|)
    && forall i, j :: 0 <= i < j < |batch| ==> log[batch[i]].oid <= log[batch[j]].oid
  }

  /** What the relay reads: the oldest unpublished rows, oldest first, as many as there are up to the batch size. */
  ghost predicate IsBatch(log: seq<Row>, published: set<nat>, batchSize: nat, batch: seq<nat>) {
    && DistinctIds(batch) && OldestFirst(log, batch)
    && (forall id :: id in batch ==> id in Unpublished(log, published))
    && (forall b, id :: b in batch && id in Unpublished(log, published) && id !in batch ==> log[b].oid <= log[id].oid)
    && |batch| <= batchSize
    && (|batch| < batchSize ==> forall id :: id in Unpublished(log, published) ==> id in batch)
  }

  function InsertByOid(log: seq<Row>, id: nat, ids: seq<nat>): seq<nat>
    requires id < |log| && forall i :: 0 <= i < |ids| ==> ids[i] < |log|
  {
    if ids == [] || log[id].oid < log[ids[0]].oid then [id] + ids else [ids[0]] + InsertByOid(log, id, ids[1..])
  }

  lemma {:induction false} InsertKeepsOrder(log: seq<Row>, id: nat, ids: seq<nat>)
    requires id < |log| && OldestFirst(log, ids) && DistinctIds(ids) && id !in ids
    ensures OldestFirst(log, InsertByOid(log, id, ids)) && DistinctIds(InsertByOid(log, id, ids))
    ensures forall x :: x in InsertByOid(log, id, ids) <==> x == id || x in ids
  {
    if ids == [] {
    } else if log[id].oid < log[ids[0]].oid {
      assert OldestFirst(log, [id] + ids);
    } else {
      assert ids == [ids[0]] + ids[1..];
      InsertKeepsOrder(log, id, ids[1..]);
      var rest := InsertByOid(log, id, ids[1..]);
      forall x | x in rest ensures ids[0] != x && x < |log| && log[ids[0]].oid <= log[x].oid {
        if x != id {
          var i :| 0 <= i < |ids[1..]| && ids[1..][i] == x;
          assert ids[i + 1] == x;
        }
      }
      PrependOldest(log, ids[0], rest);
    }
  }

  lemma PrependOldest(log: seq<Row>, id: nat, ids: seq<nat>)
    requires id < |log| && OldestFirst(log, ids) && DistinctIds(ids)
    requires forall x :: x in ids ==> id != x && x < |log| && log[id].oid <= log[x].oid
    ensures OldestFirst(log, [id] + ids) && DistinctIds([id] + ids)
  {
    var all := [id] + ids;
    forall i, j | 0 <= i < j < |all| ensures log[all[i]].oid <= log[all[j]].oid && all[i] != all[j] {
      assert all[j] == ids[j - 1] && ids[j - 1] in ids;
    }
  }

  /** The first entries of all unpublished rows in order are a batch. */
  lemma FirstAreBatch(log: seq<Row>, published: set<nat>, batchSize: nat, all: seq<nat>, n: nat)
    requires DistinctIds(all) && OldestFirst(log, all) && (forall id :: id in all <==> id in Unpublished(log, published))
    requires n == if |all| < batchSize then |all| else batchSize
    ensures IsBatch(log, published, batchSize, all[..n])
  {
    var batch := all[..n];
    forall m | 0 <= m < n ensures all[m] in batch {
      assert batch[m] == all[m];
    }
    forall b, id | b in batch && id in Unpublished(log, published) && id !in batch ensures log[b].oid <= log[id].oid {
      var i :| 0 <= i < n && all[i] == b;
      var j :| 0 <= j < |all| && all[j] == id;
      assert j >= n;
    }
  }

  /** What may go wrong while a batch is relayed. */
  datatype Fault = NoFault | PublishFails(sent: nat) | DiesBeforeMarking

  class Relay {
    const batchSize: nat
    var log: seq<Row>
    var published: set<nat>
    var topic: seq<nat>

    constructor (batchSize: nat)
      ensures this.batchSize == batchSize && log == [] && published == {} && topic == []
    {
      this.batchSize, log, published, topic := batchSize, [], {}, [];
    }

    /** find(publishedAt: null).sort(_id).limit(batchSize) */
    method ReadBatch() returns (batch: seq<nat>)
      ensures IsBatch(log, published, batchSize, batch)
    {
      var all: seq<nat> := [];
      for id := 0 to |log|
        invariant OldestFirst(log, all) && DistinctIds(all)
        invariant forall i: nat :: i in all <==> i < id && i !in published
      {
        if id !in published {
          InsertKeepsOrder(log, id, all);
          all := InsertByOid(log, id, all);
        }
      }
      var n := if |all| < batchSize then |all| else batchSize;
      FirstAreBatch(log, published, batchSize, all, n);
      batch := all[..n];
    }

    /**
     * Publish, then mark. A fault leaves rows unmarked that were sent: they are sent again
     * later. Nothing is marked that was not sent.
     */
    method RelayOnce(fault: Fault) returns (n: nat, ghost batch: seq<nat>)
      modifies `topic, `published
      ensures IsBatch(log, old(published), batchSize, batch)
      ensures fault == NoFault ==>
        n == |batch| && topic == old(topic) + batch && published == old(published) + Ids(batch)
      ensures fault != NoFault ==>
        && n == 0 && published == old(published)
        && exists sent :: 0 <= sent <= |batch| && topic == old(topic) + batch[..sent]
    {
      var read := ReadBatch();
      batch := read;
      if |read| == 0 {
        assert topic == old(topic) + batch[..0];
        return 0, batch;
      }
      match fault
      case PublishFails(sent) =>
        var m := if sent < |read| then sent else |read|;
        topic := topic + read[..m];
        return 0, batch;
      case DiesBeforeMarking =>
        assert read[..|read|] == read;
        topic := topic + read;
        return 0, batch;
      case NoFault =>
        topic := topic + read;
        published := published + Ids(read);
        return |read|, batch;
    }

    /**
     * One tick of the leader: batches until there are none, at most twenty, and none
     * after the first that fails. What one tick does not mark is left for the next.
     */
    method Drain(faults: seq<Fault>) returns (rounds: nat)
      requires batchSize > 0
      modifies `topic, `published
      ensures old(published) <= published && old(topic) <= topic
      ensures forall id :: id in published && id !in old(published) ==> id in topic
      ensures Unpublished(log, published) == {}
        || |Unpublished(log, old(published))| >= |Unpublished(log, published)| + rounds * batchSize
      ensures rounds == 20 || Unpublished(log, published) == {} || (rounds < |faults| && faults[rounds] != NoFault)
    {
      rounds := 0;
      ghost var most := |Unpublished(log, published)|;
      while rounds < 20
        invariant rounds <= 20
        invariant old(published) <= published && old(topic) <= topic
        invariant forall id :: id in published && id !in old(published) ==> id in topic
        invariant most >= |Unpublished(log, published)| + rounds * batchSize || Unpublished(log, published) == {}
      {
        ghost var before := published;
        var fault := if rounds < |faults| then faults[rounds] else NoFault;
        ghost var batch;
        var n;
        n, batch := RelayOnce(fault);
        if fault != NoFault {
          return;   // the tick's catch: it will be retried
        }
        FewerLeft(log, before, batchSize, batch);
        if n == 0 {
          assert Unpublished(log, published) == {};
          return;
        }
        rounds := rounds + 1;
      }
    }
  }

  /** A batch marked leaves that many fewer, or none at all. */
  lemma FewerLeft(log: seq<Row>, published: set<nat>, batchSize: nat, batch: seq<nat>)
    requires batchSize > 0 && IsBatch(log, published, batchSize, batch)
    ensures var before, after := Unpublished(log, published), Unpublished(log, published + Ids(batch));
      && (|batch| < batchSize ==> after == {})
      && (|batch| == batchSize ==> |before| == |after| + batchSize)
  {
    var before, after := Unpublished(log, published), Unpublished(log, published + Ids(batch));
    BatchSize(batch);
    assert before == after + Ids(batch) && after !! Ids(batch);
    assert |after + Ids(batch)| == |after| + |Ids(batch)|;
  }

  lemma {:induction false} BatchSize(batch: seq<nat>)
    requires DistinctIds(batch)
    ensures |Ids(batch)| == |batch|
  {
    if batch == [] {
      assert Ids(batch) == {};
    } else {
      var n := |batch| - 1;
      BatchSize(batch[..n]);
      assert batch[n] !in Ids(batch[..n]);
      assert Ids(batch) == Ids(batch[..n]) + {batch[n]} by {
        assert batch == batch[..n] + [batch[n]];
      }
    }
  }

  // ---------------------------------------------------------------- the consumer

  /** The consumer's documents: a marker per event, and the counters. */
  datatype Stats = Stats(processed: set<nat>, counts: map<Slot, nat>)

  function CountAt(s: Stats, slot: Slot): nat {
    if slot in s.counts then s.counts[slot] else 0
  }

  /** The marker and the effect in one transaction; a second marker aborts both. */
  function Counted(s: Stats, id: nat, r: Row): Stats {
    if id in s.processed then s
    else Stats(s.processed + {id}, s.counts[SlotOf(r) := CountAt(s, SlotOf(r)) + 1])
  }

  class Processor {
    var processed: set<nat>
    var counts: map<Slot, nat>

    constructor ()
      ensures Contents() == Stats({}, map[])
    {
      processed, counts := {}, map[];
    }

    function Contents(): Stats reads this {
      Stats(processed, counts)
    }

    method Process(id: nat, r: Row) returns (applied: bool)
      modifies this
      ensures applied == (id !in old(processed))
      ensures Contents() == Counted(old(Contents()), id, r)
    {
      if id in processed {
        return false;   // the unique index refuses the marker, and the transaction aborts
      }
      processed := processed + {id};
      var slot := SlotOf(r);
      counts := counts[slot := (if slot in counts then counts[slot] else 0) + 1];
      return true;
    }
  }
}
