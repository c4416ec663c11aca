/** Redis sorted sets: distinct members, ordered by score and then by member. */
module SortedSets {
  import opened Graphs
  import Lexicographic

  type Id = seq<int>   // the bytes of a member

  datatype Entry = Entry(member: Id, score: int)

  type SortedSet = seq<Entry>

  predicate Precedes(a: Entry, b: Entry) {
    a.score < b.score || (a.score == b.score && Lexicographic.Less(a.member, b.member))
  }

  function Members(z: SortedSet): (r: seq<Id>)
    ensures |r| == |z|
    ensures forall i :: 0 <= i < |z| ==> r[i] == z[i].member
  {
    seq(|z|, i requires 0 <= i < |z| => z[i].member)
  }

  ghost predicate Sorted(z: SortedSet) {
    && (forall i, j :: 0 <= i < j < |z| ==> Precedes(z[i], z[j]))
    && (forall i, j :: 0 <= i < j < |z| ==> z[i].member != z[j].member)
  }

  /** ZREM. */
  function Without(z: SortedSet, m: Id): SortedSet {
    if z == [] then [] else if z[0].member == m then Without(z[1..], m) else [z[0]] + Without(z[1..], m)
  }

  function Insert(z: SortedSet, e: Entry): SortedSet {
    if z == [] || Precedes(e, z[0]) then [e] + z else [z[0]] + Insert(z[1..], e)
  }

  /** ZADD: a member that is present gets the new score. */
  function Add(z: SortedSet, m: Id, score: int): SortedSet {
    Insert(Without(z, m), Entry(m, score))
  }

  /** ZSCORE answers. */
  predicate Has(z: SortedSet, m: Id) {
    m in Members(z)
  }

  /** How many entries ZRANGEBYSCORE -inf `max` returns. */
  function CountUpTo(z: SortedSet, max: int): (n: nat)
    ensures n <= |z|
  {
    if z == [] || z[0].score > max then 0 else 1 + CountUpTo(z[1..], max)
  }

  /** ZRANGEBYSCORE -inf `max` LIMIT 0 `limit`: how many entries; a negative limit is none. */
  function CountDue(z: SortedSet, max: int, limit: int): (n: nat)
    ensures n <= |z|
  {
    var due := CountUpTo(z, max);
    if 0 <= limit < due then limit else due
  }

  lemma TotalOrder(a: Entry, b: Entry)
    requires a.member != b.member
    ensures Precedes(a, b) || Precedes(b, a)
  {
    Lexicographic.Total(a.member, b.member);
  }

  lemma PrecedesTransitive(a: Entry, b: Entry, c: Entry)
    requires Precedes(a, b) && Precedes(b, c)
    ensures Precedes(a, c)
  {
    if a.score == b.score == c.score {
      Lexicographic.Transitive(a.member, b.member, c.member);
    }
  }

  lemma {:induction false} WithoutKeeps(z: SortedSet, m: Id)
    ensures forall e :: e in Without(z, m) <==> e in z && e.member != m
    ensures Sorted(z) ==> Sorted(Without(z, m))
  {
    if z != [] {
      WithoutKeeps(z[1..], m);
      assert z == [z[0]] + z[1..];
      if Sorted(z) {
        TailSorted(z);
        if z[0].member != m {
          PrependSorted(z[0], Without(z[1..], m));
        }
      }
    }
  }

  lemma TailSorted(z: SortedSet)
    requires Sorted(z) && z != []
    ensures Sorted(z[1..])
    ensures forall e :: e in z[1..] ==> Precedes(z[0], e) && z[0].member != e.member
  {
    forall e | e in z[1..] ensures Precedes(z[0], e) && z[0].member != e.member {
      var i :| 0 <= i < |z[1..]| && z[1..][i] == e;
      assert z[i + 1] == e;
    }
  }

  lemma PrependSorted(e: Entry, z: SortedSet)
    requires Sorted(z)
    requires forall x :: x in z ==> Precedes(e, x) && e.member != x.member
    ensures Sorted([e] + z)
  {
    var r := [e] + z;
    forall i, j | 0 <= i < j < |r| ensures Precedes(r[i], r[j]) && r[i].member != r[j].member {
      assert r[j] == z[j - 1] && r[j] in z;
      if i > 0 {
        assert r[i] == z[i - 1];
      }
    }
  }

  lemma {:induction false} InsertKeeps(z: SortedSet, e: Entry)
    requires Sorted(z) && forall x :: x in z ==> x.member != e.member
    ensures Sorted(Insert(z, e))
    ensures forall x :: x in Insert(z, e) <==> x in z || x == e
  {
    if z == [] {
    } else if Precedes(e, z[0]) {
      TailSorted(z);
      forall x | x in z ensures Precedes(e, x) {
        if x != z[0] {
          assert x in z[1..];
          PrecedesTransitive(e, z[0], x);
        }
      }
      PrependSorted(e, z);
    } else {
      TotalOrder(e, z[0]);
      TailSorted(z);
      assert z == [z[0]] + z[1..];
      InsertKeeps(z[1..], e);
      PrependSorted(z[0], Insert(z[1..], e));
    }
  }

  /** ZADD keeps the order, sets the score of its member, and touches no other. */
  lemma AddKeeps(z: SortedSet, m: Id, score: int)
    requires Sorted(z)
    ensures Sorted(Add(z, m, score))
    ensures forall e :: e in Add(z, m, score) <==> e == Entry(m, score) || (e in z && e.member != m)
  {
    WithoutKeeps(z, m);
    InsertKeeps(Without(z, m), Entry(m, score));
  }

  lemma HasEntry(z: SortedSet, m: Id)
    ensures Has(z, m) <==> exists e :: e in z && e.member == m
  {
    if Has(z, m) {
      var i :| 0 <= i < |z| && Members(z)[i] == m;
      assert z[i] in z;
    }
    if exists e :: e in z && e.member == m {
      var e :| e in z && e.member == m;
      var i :| 0 <= i < |z| && z[i] == e;
      assert Members(z)[i] == m;
    }
  }

  lemma {:induction false} CountUpToIs(z: SortedSet, max: int)
    requires Sorted(z)
    ensures forall i :: 0 <= i < |z| ==> (z[i].score <= max <==> i < CountUpTo(z, max))
  {
    if z != [] {
      TailSorted(z);
      CountUpToIs(z[1..], max);
      forall i | 0 <= i < |z| ensures z[i].score <= max <==> i < CountUpTo(z, max) {
        if i > 0 {
          assert z[i] == z[1..][i - 1] && z[i] in z[1..];
        }
      }
    }
  }

  /** The entries whose score has been reached. */
  function Due(z: SortedSet, max: int): set<Entry> {
    set e | e in z && e.score <= max
  }

  lemma {:induction false} CountUpToDue(z: SortedSet, max: int)
    requires Sorted(z)
    ensures CountUpTo(z, max) == |Due(z, max)|
  {
    if z == [] {
      assert Due(z, max) == {};
    } else {
      TailSorted(z);
      assert z == [z[0]] + z[1..];
      if z[0].score > max {
        assert Due(z, max) == {};
      } else {
        CountUpToDue(z[1..], max);
        assert Due(z, max) == {z[0]} + Due(z[1..], max);
      }
    }
  }

  /** The range query takes due entries only, the earliest ones, and all of them unless the limit stops it. */
  lemma DueAreEarliest(z: SortedSet, max: int, limit: int)
    requires Sorted(z)
    ensures var n := CountDue(z, max, limit);
      && (forall e :: e in z[..n] ==> e.score <= max)
      && (forall e, f :: e in z[..n] && f in z[n..] ==> Precedes(e, f))
      && (n != limit ==> forall e :: e in z[n..] ==> e.score > max)
  {
    CountUpToIs(z, max);
    var n := CountDue(z, max, limit);
    forall e | e in z[n..] ensures n != limit ==> e.score > max {
      var i :| 0 <= i < |z[n..]| && z[n..][i] == e;
      assert z[n + i] == e;
    }
    forall e, f | e in z[..n] && f in z[n..] ensures Precedes(e, f) {
      var i :| 0 <= i < n && z[..n][i] == e;
      var j :| 0 <= j < |z[n..]| && z[n..][j] == f;
      assert z[i] == e && z[n + j] == f;
    }
  }

  lemma SplitSorted(z: SortedSet, n: nat)
    requires Sorted(z) && n <= |z|
    ensures Sorted(z[..n]) && Sorted(z[n..])
    ensures forall e :: e in z <==> e in z[..n] || e in z[n..]
    ensures forall e, f :: e in z[..n] && f in z[n..] ==> e.member != f.member
  {
    assert z == z[..n] + z[n..];
    forall e, f | e in z[..n] && f in z[n..] ensures e.member != f.member {
      var i :| 0 <= i < n && z[..n][i] == e;
      var j :| 0 <= j < |z[n..]| && z[n..][j] == f;
      assert z[i] == e && z[n + j] == f;
    }
  }

  /** Removing the first of the remaining entries. */
  lemma WithoutFirst(z: SortedSet)
    requires Sorted(z) && z != []
    ensures Without(z, z[0].member) == z[1..]
    ensures Has(z, z[0].member)
  {
    TailSorted(z);
    WithoutAbsent(z[1..], z[0].member);
    assert Members(z)[0] == z[0].member;
  }

  lemma FirstGoes(z: SortedSet)
    requires Sorted(z) && z != []
    ensures Without(z, z[0].member) == z[1..] && Has(z, z[0].member) && Sorted(z[1..])
  {
    WithoutFirst(z);
    TailSorted(z);
  }

  lemma {:induction false} WithoutAbsent(z: SortedSet, m: Id)
    requires forall e :: e in z ==> e.member != m
    ensures Without(z, m) == z
  {
    if z != [] {
      WithoutAbsent(z[1..], m);
    }
  }

  lemma {:induction false} AllUpTo(z: SortedSet, max: int)
    requires forall e :: e in z ==> e.score <= max
    ensures CountUpTo(z, max) == |z|
  {
    if z != [] {
      AllUpTo(z[1..], max);
    }
  }

  /** ZREMRANGEBYSCORE -inf `max` keeps exactly the later entries. */
  lemma {:induction false} DropUpTo(z: SortedSet, max: int)
    requires Sorted(z)
    ensures Sorted(z[CountUpTo(z, max)..])
    ensures forall e :: e in z[CountUpTo(z, max)..] <==> e in z && e.score > max
  {
    if z != [] {
      TailSorted(z);
      assert z == [z[0]] + z[1..];
      if z[0].score <= max {
        DropUpTo(z[1..], max);
        assert z[CountUpTo(z, max)..] == z[1..][CountUpTo(z[1..], max)..];
      } else {
        assert z[0..] == z;
        forall e | e in z ensures e.score > max {
        }
      }
    }
  }
}
