/** What every sequence of requests to one limiter key experiences (src/middleware/rateLimit.js). */
module SlidingWindow {
  import opened Cardinality
  import opened Options
  import opened SortedSets
  import opened RateLimiter

  datatype Limit = Limit(windowMs: int, most: nat)

  ghost predicate Sensible(l: Limit) {
    l.windowMs >= 1 && l.most >= 1
  }

  /** The server's clock does not run backwards. */
  ghost predicate Timed(reqs: seq<Request>) {
    forall i, j :: 0 <= i <= j < |reqs| ==> reqs[i].now <= reqs[j].now
  }

  function After(reqs: seq<Request>, l: Limit): Log {
    if reqs == [] then Log([], None)
    else Stored(After(reqs[..|reqs| - 1], l), l.windowMs, l.most, reqs[|reqs| - 1])
  }

  /** Request `i` was let through. */
  predicate Admitted(reqs: seq<Request>, l: Limit, i: nat)
    requires i < |reqs| && l.most >= 1
  {
    Answered(After(reqs[..i], l), l.windowMs, l.most, reqs[i].now).allowed
  }

  /** The requests among the first `n` that were let through in the window that ends at `x`. */
  ghost function InWindow(reqs: seq<Request>, l: Limit, n: nat, x: int): set<nat>
    requires n <= |reqs| && l.most >= 1
  {
    set i: nat | i < n && Admitted(reqs, l, i) && x - l.windowMs < reqs[i].now <= x
  }

  lemma AfterStep(reqs: seq<Request>, l: Limit, n: nat)
    requires n < |reqs|
    ensures After(reqs[..n + 1], l) == Stored(After(reqs[..n], l), l.windowMs, l.most, reqs[n])
  {
    assert reqs[..n + 1][..n] == reqs[..n];
  }

  /** After `n` requests the set holds exactly the entries of those admitted in the window that ends at the last one. */
  ghost predicate Exact(reqs: seq<Request>, l: Limit, n: nat)
    requires 0 < n <= |reqs| && l.most >= 1
  {
    forall e :: e in After(reqs[..n], l).entries <==>
      exists i :: i in InWindow(reqs, l, n, reqs[n - 1].now) && EntryOf(reqs[i]) == e
  }

  lemma {:induction false} HoldsTheWindow(reqs: seq<Request>, l: Limit, n: nat)
    requires Sensible(l) && Timed(reqs) && 0 < n <= |reqs|
    ensures Valid(After(reqs[..n], l), l.windowMs, l.most, reqs[n - 1].now)
    ensures Exact(reqs, l, n)
  {
    var r := reqs[n - 1];
    var before := After(reqs[..n - 1], l);
    AfterStep(reqs, l, n - 1);
    if n > 1 {
      HoldsTheWindow(reqs, l, n - 1);
      ScriptKeeps(before, l.windowMs, l.most, reqs[n - 2].now, r);
    } else {
      assert before == Log([], None);
      ScriptKeeps(before, l.windowMs, l.most, r.now, r);
    }
    hide Valid, After, Stored;
    OneMoreRequest(reqs, l, n);
  }

  lemma OneMoreRequest(reqs: seq<Request>, l: Limit, n: nat)
    requires Sensible(l) && Timed(reqs) && 0 < n <= |reqs|
    requires n > 1 ==> Exact(reqs, l, n - 1)
    requires n == 1 ==> After(reqs[..n - 1], l).entries == []
    requires forall e :: e in After(reqs[..n], l).entries <==>
      || (e in After(reqs[..n - 1], l).entries && e.score > reqs[n - 1].now - l.windowMs)
      || (Admitted(reqs, l, n - 1) && e == EntryOf(reqs[n - 1]))
    ensures Exact(reqs, l, n)
  {
    hide After, Admitted;
    forall e ensures e in After(reqs[..n], l).entries <==>
      exists i :: i in InWindow(reqs, l, n, reqs[n - 1].now) && EntryOf(reqs[i]) == e
    {
      if e in After(reqs[..n], l).entries {
        var i := Admitter(reqs, l, n, e);
      }
      if i :| i in InWindow(reqs, l, n, reqs[n - 1].now) && EntryOf(reqs[i]) == e {
        if i < n - 1 {
          assert i in InWindow(reqs, l, n - 1, reqs[n - 2].now);
        }
      }
    }
  }

  /** Which request an entry comes from. */
  lemma Admitter(reqs: seq<Request>, l: Limit, n: nat, e: Entry) returns (i: nat)
    requires Sensible(l) && Timed(reqs) && 0 < n <= |reqs|
    requires n > 1 ==> Exact(reqs, l, n - 1)
    requires n == 1 ==> After(reqs[..n - 1], l).entries == []
    requires || (e in After(reqs[..n - 1], l).entries && e.score > reqs[n - 1].now - l.windowMs)
             || (Admitted(reqs, l, n - 1) && e == EntryOf(reqs[n - 1]))
    ensures i in InWindow(reqs, l, n, reqs[n - 1].now) && EntryOf(reqs[i]) == e
  {
    hide After, Admitted;
    if Admitted(reqs, l, n - 1) && e == EntryOf(reqs[n - 1]) {
      i := n - 1;
    } else {
      i :| i in InWindow(reqs, l, n - 1, reqs[n - 2].now) && EntryOf(reqs[i]) == e;
    }
  }

  // ---------------------------------------------------------------- counting

  /** No two of these requests present the same time and tag. */
  ghost predicate Fresh(reqs: seq<Request>, s: set<nat>) {
    forall i, j :: i in s && j in s && i < |reqs| && j < |reqs| && i != j ==> reqs[i] != reqs[j]
  }

  ghost predicate AllFresh(reqs: seq<Request>) {
    forall i, j :: 0 <= i < j < |reqs| ==> reqs[i] != reqs[j]
  }

  ghost function EntriesOf(reqs: seq<Request>, s: set<nat>): set<Entry> {
    set i | i in s && i < |reqs| :: EntryOf(reqs[i])
  }

  lemma SameEntry(a: Request, b: Request)
    ensures EntryOf(a) == EntryOf(b) <==> a == b
  {
    if EntryOf(a) == EntryOf(b) {
      assert ([a.now] + a.tag)[1..] == a.tag && ([b.now] + b.tag)[1..] == b.tag;
    }
  }

  /** There are as many entries as requests exactly if the requests differ. */
  lemma {:induction false} CountEntries(reqs: seq<Request>, s: set<nat>)
    requires forall i :: i in s ==> i < |reqs|
    ensures |EntriesOf(reqs, s)| <= |s|
    ensures |EntriesOf(reqs, s)| == |s| <==> Fresh(reqs, s)
    decreases s
  {
    if s == {} {
      assert EntriesOf(reqs, s) == {};
    } else {
      var i :| i in s;
      var rest := s - {i};
      CountEntries(reqs, rest);
      assert EntriesOf(reqs, s) == EntriesOf(reqs, rest) + {EntryOf(reqs[i])};
      if EntryOf(reqs[i]) in EntriesOf(reqs, rest) {
        var j :| j in rest && EntryOf(reqs[j]) == EntryOf(reqs[i]);
        SameEntry(reqs[i], reqs[j]);
      } else {
        forall j | j in rest ensures reqs[j] != reqs[i] {
          assert EntryOf(reqs[j]) in EntriesOf(reqs, rest);
        }
      }
    }
  }

  lemma {:induction false} SortedSize(z: SortedSet)
    requires Sorted(z)
    ensures |set e | e in z| == |z|
  {
    if z == [] {
      assert (set e | e in z) == {};
    } else {
      TailSorted(z);
      SortedSize(z[1..]);
      assert (set e | e in z) == (set e | e in z[1..]) + {z[0]};
    }
  }

  /**
   * The limiter counts right exactly if no two admitted requests of the current window
   * presented the same time and tag; otherwise it counts too few.
   */
  lemma CountIsExactIffFresh(reqs: seq<Request>, l: Limit, n: nat)
    requires Sensible(l) && Timed(reqs) && 0 < n <= |reqs|
    ensures var admitted := InWindow(reqs, l, n, reqs[n - 1].now);
      && |After(reqs[..n], l).entries| <= |admitted| && |After(reqs[..n], l).entries| <= l.most
      && (|After(reqs[..n], l).entries| == |admitted| <==> Fresh(reqs, admitted))
  {
    var z, s := After(reqs[..n], l).entries, InWindow(reqs, l, n, reqs[n - 1].now);
    HoldsTheWindow(reqs, l, n);
    SortedSize(z);
    CountEntries(reqs, s);
    hide After, Admitted, Valid;
    assert (set e | e in z) == EntriesOf(reqs, s);
  }

  // ---------------------------------------------------------------- the bound

  /** The last admitted request at or before `x`, if any was. */
  lemma {:induction false} LastAdmitted(reqs: seq<Request>, l: Limit, n: nat, x: int) returns (j: nat)
    requires l.most >= 1 && n <= |reqs| && InWindow(reqs, l, n, x) != {}
    ensures j in InWindow(reqs, l, n, x)
    ensures forall i :: i in InWindow(reqs, l, n, x) ==> i <= j
  {
    hide Admitted;
    if n - 1 in InWindow(reqs, l, n, x) {
      j := n - 1;
    } else {
      assert InWindow(reqs, l, n, x) == InWindow(reqs, l, n - 1, x);
      j := LastAdmitted(reqs, l, n - 1, x);
    }
  }

  /** No window of `windowMs`, wherever it ends, has more admitted requests than the limit. */
  lemma NeverMoreThanTheLimit(reqs: seq<Request>, l: Limit, x: int)
    requires Sensible(l) && Timed(reqs) && AllFresh(reqs)
    ensures |InWindow(reqs, l, |reqs|, x)| <= l.most
  {
    hide After, Admitted;
    var s := InWindow(reqs, l, |reqs|, x);
    if s != {} {
      var j := LastAdmitted(reqs, l, |reqs|, x);
      var t := InWindow(reqs, l, j + 1, reqs[j].now);
      assert s <= t;
      SubsetSize(s, t);
      CountIsExactIffFresh(reqs, l, j + 1);
    }
  }

  function Once(windowMs: int, r: Request): Log {
    Log([EntryOf(r)], Some(r.now + windowMs))
  }

  lemma FirstIsRecorded(windowMs: int, most: nat, r: Request)
    requires most >= 1
    ensures Stored(Log([], None), windowMs, most, r) == Once(windowMs, r)
    ensures Answered(Log([], None), windowMs, most, r.now).allowed
  {
    assert Trimmed(Log([], None), windowMs, r.now) == [];
    assert Without([], [r.now] + r.tag) == [];
  }

  /** A second request with the same time and tag is admitted, and only replaces the entry of the first. */
  lemma SecondIsNotCounted(windowMs: int, most: nat, r: Request)
    requires windowMs >= 1 && most >= 2
    ensures Stored(Once(windowMs, r), windowMs, most, r) == Once(windowMs, r)
    ensures Answered(Once(windowMs, r), windowMs, most, r.now).allowed
  {
    var z := [EntryOf(r)];
    assert CountUpTo(z, r.now - windowMs) == 0;
    assert Trimmed(Once(windowMs, r), windowMs, r.now) == z;
    WithoutFirst(z);
  }

  lemma AllAdmitted(reqs: seq<Request>, l: Limit)
    requires l.windowMs >= 1 && l.most == 2 && |reqs| == 3 && reqs[0] == reqs[1] && reqs[2].now == reqs[0].now
    ensures Admitted(reqs, l, 0) && Admitted(reqs, l, 1) && Admitted(reqs, l, 2)
  {
    FirstIsRecorded(l.windowMs, 2, reqs[0]);
    SecondIsNotCounted(l.windowMs, 2, reqs[0]);
    AfterNothing(l);
    AfterStep(reqs, l, 0);
    AfterStep(reqs, l, 1);
    hide After, Stored, Answered;
    assert reqs[..0] == [];
  }

  lemma ThreeInWindow(reqs: seq<Request>, l: Limit)
    requires l.windowMs >= 1 && l.most == 2 && |reqs| == 3 && reqs[0].now == reqs[1].now == reqs[2].now
    requires Admitted(reqs, l, 0) && Admitted(reqs, l, 1) && Admitted(reqs, l, 2)
    ensures InWindow(reqs, l, 3, reqs[0].now) == {0, 1, 2}
  {
    hide Admitted;
  }

  /**
   * Two processes with the same process id (two containers, say) may present the same
   * tag in the same millisecond; then three requests of that moment pass a limit of two.
   */
  lemma SharedTagsBreakTheBound(windowMs: int, reqs: seq<Request>)
    requires windowMs >= 1 && |reqs| == 3 && reqs[0] == reqs[1] && reqs[2].now == reqs[0].now
    ensures Sensible(Limit(windowMs, 2)) && Timed(reqs)
    ensures |InWindow(reqs, Limit(windowMs, 2), 3, reqs[0].now)| == 3
  {
    hide Admitted, InWindow;
    AllAdmitted(reqs, Limit(windowMs, 2));
    ThreeInWindow(reqs, Limit(windowMs, 2));
  }

  lemma AfterNothing(l: Limit)
    ensures After([], l) == Log([], None)
  {
  }

  // ---------------------------------------------------------------- exactly when the bound holds

  /** Further requests of the same moment, with tags that nobody presented before. */
  ghost predicate Newcomers(reqs: seq<Request>, more: seq<Request>)
    requires reqs != []
  {
    && (forall i :: 0 <= i < |more| ==> more[i].now == reqs[|reqs| - 1].now && more[i] !in reqs)
    && AllFresh(more)
  }

  ghost function NowInWindow(reqs: seq<Request>, l: Limit): set<nat>
    requires reqs != [] && l.most >= 1
  {
    InWindow(reqs, l, |reqs|, reqs[|reqs| - 1].now)
  }

  function LongTag(reqs: seq<Request>): (t: Tag)
    ensures forall r :: r in reqs ==> |r.tag| < |t|
  {
    if reqs == [] then []
    else
      var rest := LongTag(reqs[1..]);
      assert reqs == [reqs[0]] + reqs[1..];
      if |reqs[0].tag| < |rest| then rest else seq(|reqs[0].tag| + 1, _ => 0)
  }

  /** What was admitted does not depend on later requests. */
  lemma SameAdmissions(reqs: seq<Request>, l: Limit, more: seq<Request>)
    requires l.most >= 1
    ensures forall i: nat :: i < |reqs| ==> (Admitted(reqs + more, l, i) <==> Admitted(reqs, l, i))
  {
    forall i: nat | i < |reqs| ensures Admitted(reqs + more, l, i) <==> Admitted(reqs, l, i) {
      assert (reqs + more)[..i] == reqs[..i];
    }
  }

  lemma OneMoreInWindow(reqs: seq<Request>, l: Limit, r: Request)
    requires Sensible(l) && reqs != [] && r.now == reqs[|reqs| - 1].now && Admitted(reqs + [r], l, |reqs|)
    ensures |NowInWindow(reqs + [r], l)| == |NowInWindow(reqs, l)| + 1
  {
    SameAdmissions(reqs, l, [r]);
    hide Admitted;
    assert NowInWindow(reqs + [r], l) == NowInWindow(reqs, l) + {|reqs|};
  }

  /** A newcomer's member is not in the set yet. */
  lemma NewcomerIsNew(reqs: seq<Request>, l: Limit, r: Request)
    requires Sensible(l) && Timed(reqs) && reqs != [] && r !in reqs
    ensures forall e :: e in After(reqs, l).entries ==> e.member != [r.now] + r.tag
  {
    var n := |reqs|;
    assert reqs[..n] == reqs;
    HoldsTheWindow(reqs, l, n);
    hide After, Admitted, Valid;
    forall e | e in After(reqs, l).entries ensures e.member != [r.now] + r.tag {
      var j :| j in InWindow(reqs, l, n, reqs[n - 1].now) && EntryOf(reqs[j]) == e;
      assert reqs[j] in reqs;
      SameMember(reqs[j], r);
    }
  }

  lemma SameMember(a: Request, b: Request)
    ensures [a.now] + a.tag == [b.now] + b.tag <==> a == b
  {
    var m, n := [a.now] + a.tag, [b.now] + b.tag;
    assert m[0] == a.now && n[0] == b.now && m[1..] == a.tag && n[1..] == b.tag;
  }

  /** Storing a new member in a log with room adds one entry. */
  lemma StoredAddsOne(k: Log, l: Limit, r: Request)
    requires Sensible(l) && Valid(k, l.windowMs, l.most, r.now) && |k.entries| < l.most
    requires forall e :: e in k.entries ==> e.member != [r.now] + r.tag
    ensures Answered(k, l.windowMs, l.most, r.now).allowed
    ensures |Stored(k, l.windowMs, l.most, r).entries| == |k.entries| + 1
  {
    NothingTrimmed(k, l, r.now);
    WithoutAbsent(k.entries, [r.now] + r.tag);
    InsertLength(k.entries, EntryOf(r));
  }

  /** A newcomer is admitted and counted while there is room. */
  lemma NewcomerCounts(reqs: seq<Request>, l: Limit, r: Request)
    requires Sensible(l) && Timed(reqs) && reqs != [] && r !in reqs && r.now == reqs[|reqs| - 1].now
    requires |After(reqs, l).entries| < l.most
    ensures Admitted(reqs + [r], l, |reqs|)
    ensures |After(reqs + [r], l).entries| == |After(reqs, l).entries| + 1
  {
    var longer, n := reqs + [r], |reqs|;
    assert reqs[..n] == reqs && longer[..n] == reqs && longer[..n + 1] == longer;
    HoldsTheWindow(reqs, l, n);
    NewcomerIsNew(reqs, l, r);
    AfterStep(longer, l, n);
    hide After, Stored, Answered, Valid;
    StoredAddsOne(After(reqs, l), l, r);
  }

  /** Nothing leaves the window while the clock stands still. */
  lemma NothingTrimmed(k: Log, l: Limit, now: int)
    requires Sensible(l) && Valid(k, l.windowMs, l.most, now)
    ensures Trimmed(k, l.windowMs, now) == k.entries
  {
    ExpiryIsHarmless(k, l.windowMs, l.most, now, now);
    if k.entries != [] {
      assert k.entries[0] in k.entries;
    }
  }

  /** A request that nobody made before. */
  lemma SomeNewcomer(reqs: seq<Request>) returns (r: Request)
    requires Timed(reqs) && reqs != []
    ensures r !in reqs && r.now == reqs[|reqs| - 1].now && Timed(reqs + [r])
  {
    r := Request(LongTag(reqs), reqs[|reqs| - 1].now);
    StillTimed(reqs, r);
  }

  /** Newcomers fill the set up to the limit, all of them admitted. */
  lemma {:induction false} Flood(reqs: seq<Request>, l: Limit) returns (more: seq<Request>)
    requires Sensible(l) && Timed(reqs) && reqs != [] && |After(reqs, l).entries| <= l.most
    ensures Newcomers(reqs, more) && Timed(reqs + more)
    ensures |NowInWindow(reqs + more, l)| == |NowInWindow(reqs, l)| + l.most - |After(reqs, l).entries|
    decreases l.most - |After(reqs, l).entries|
  {
    hide After, NowInWindow, Timed;
    if |After(reqs, l).entries| == l.most {
      more := [];
      assert reqs + more == reqs;
    } else {
      hide Newcomers;
      var r := SomeNewcomer(reqs);
      NewcomerCounts(reqs, l, r);
      OneMoreInWindow(reqs, l, r);
      hide Admitted;
      var rest := Flood(reqs + [r], l);
      more := [r] + rest;
      FirstNewcomer(reqs, r, rest);
      assert reqs + more == (reqs + [r]) + rest;
    }
  }

  lemma StillTimed(reqs: seq<Request>, r: Request)
    requires Timed(reqs) && reqs != [] && r.now == reqs[|reqs| - 1].now
    ensures Timed(reqs + [r])
  {
  }

  lemma FirstNewcomer(reqs: seq<Request>, r: Request, rest: seq<Request>)
    requires reqs != [] && r !in reqs && r.now == reqs[|reqs| - 1].now && Newcomers(reqs + [r], rest)
    ensures Newcomers(reqs, [r] + rest)
  {
    var more := [r] + rest;
    forall i, j | 0 <= i < j < |more| ensures more[i] != more[j] {
      assert more[j] == rest[j - 1] && rest[j - 1] !in reqs + [r];
    }
    forall i | 0 <= i < |more| ensures more[i].now == r.now && more[i] !in reqs {
      if i > 0 {
        assert more[i] == rest[i - 1] && rest[i - 1] !in reqs + [r];
      }
    }
  }

  /** Newcomers keep a fresh window fresh. */
  lemma StaysFresh(reqs: seq<Request>, l: Limit, more: seq<Request>)
    requires Sensible(l) && reqs != [] && Fresh(reqs, NowInWindow(reqs, l)) && Newcomers(reqs, more)
    ensures Fresh(reqs + more, NowInWindow(reqs + more, l))
  {
    var all, n := reqs + more, |reqs|;
    EarlierInWindow(reqs, l, more);
    hide InWindow, NowInWindow, Newcomers;
    forall i, j | i in NowInWindow(all, l) && j in NowInWindow(all, l) && i < j < |all| ensures all[i] != all[j] {
      if j >= n {
        LaterDiffers(reqs, more, i, j);
      }
    }
  }

  lemma EarlierInWindow(reqs: seq<Request>, l: Limit, more: seq<Request>)
    requires Sensible(l) && reqs != [] && Newcomers(reqs, more)
    ensures forall i :: i in NowInWindow(reqs + more, l) && i < |reqs| ==> i in NowInWindow(reqs, l)
  {
    SameAdmissions(reqs, l, more);
    SameMoment(reqs, more);
    hide Admitted, Newcomers;
  }

  lemma SameMoment(reqs: seq<Request>, more: seq<Request>)
    requires reqs != [] && Newcomers(reqs, more)
    ensures (reqs + more)[|reqs + more| - 1].now == reqs[|reqs| - 1].now
  {
  }

  lemma LaterDiffers(reqs: seq<Request>, more: seq<Request>, i: nat, j: nat)
    requires reqs != [] && Newcomers(reqs, more) && i < j < |reqs + more| && j >= |reqs|
    ensures (reqs + more)[i] != (reqs + more)[j]
  {
    if i < |reqs| {
      assert (reqs + more)[i] in reqs;
    }
  }

  /**
   * However many newcomers follow at the same moment, the window never exceeds the limit
   * if and only if the requests admitted in it so far are all different.
   */
  lemma BoundHoldsIffFresh(reqs: seq<Request>, l: Limit)
    requires Sensible(l) && Timed(reqs) && reqs != []
    ensures Fresh(reqs, NowInWindow(reqs, l)) <==>
      forall more :: Newcomers(reqs, more) && Timed(reqs + more) ==> |NowInWindow(reqs + more, l)| <= l.most
  {
    var n := |reqs|;
    assert reqs[..n] == reqs;
    CountIsExactIffFresh(reqs, l, n);
    hide After, InWindow;
    if Fresh(reqs, NowInWindow(reqs, l)) {
      forall more | Newcomers(reqs, more) && Timed(reqs + more) ensures |NowInWindow(reqs + more, l)| <= l.most {
        var all := reqs + more;
        StaysFresh(reqs, l, more);
        assert all[..|all|] == all && all[|all| - 1].now == reqs[n - 1].now;
        CountIsExactIffFresh(all, l, |all|);
      }
    } else {
      var more := Flood(reqs, l);
    }
  }

  // ---------------------------------------------------------------- what is left

  /** With fresh tags a request learns exactly how many more its window has room for, and if it is refused that is none. */
  lemma RemainingIsExact(reqs: seq<Request>, l: Limit, i: nat)
    requires Sensible(l) && Timed(reqs) && AllFresh(reqs) && i < |reqs|
    ensures var answer := Answered(After(reqs[..i], l), l.windowMs, l.most, reqs[i].now);
      && answer.remaining == l.most - |InWindow(reqs, l, i + 1, reqs[i].now)|
      && (!Admitted(reqs, l, i) ==> answer.remaining == 0)
  {
    var k, r := After(reqs[..i], l), reqs[i];
    var z := Trimmed(k, l.windowMs, r.now);
    AfterStep(reqs, l, i);
    CountIsExactIffFresh(reqs, l, i + 1);
    NotThereYet(reqs, l, i);
    InsertLength(Without(z, [r.now] + r.tag), EntryOf(r));
  }

  /** The member of a fresh request is not in the set. */
  lemma NotThereYet(reqs: seq<Request>, l: Limit, i: nat)
    requires Sensible(l) && Timed(reqs) && AllFresh(reqs) && i < |reqs|
    ensures var z := Trimmed(After(reqs[..i], l), l.windowMs, reqs[i].now);
      Without(z, [reqs[i].now] + reqs[i].tag) == z
  {
    var k, r := After(reqs[..i], l), reqs[i];
    if i > 0 {
      HoldsTheWindow(reqs, l, i);
      TrimKeepsYoung(k, l.windowMs, l.most, reqs[i - 1].now, r.now);
      var z := Trimmed(k, l.windowMs, r.now);
      hide After, Trimmed, Admitted;
      forall e | e in z ensures e.member != [r.now] + r.tag {
        var j :| j in InWindow(reqs, l, i, reqs[i - 1].now) && EntryOf(reqs[j]) == e;
        SameEntry(reqs[j], r);
      }
      WithoutAbsent(z, [r.now] + r.tag);
    }
  }

  // ---------------------------------------------------------------- the retry time

  /** A full log refuses, and stays as it is, exactly until its oldest entry leaves the window. */
  lemma FullUntil(k: Log, l: Limit, last: int, now: int, r: Request)
    requires Sensible(l) && Valid(k, l.windowMs, l.most, last) && now <= r.now
    requires !Answered(k, l.windowMs, l.most, now).allowed
    ensures var t := now + Answered(k, l.windowMs, l.most, now).retryAfterMs;
      && t > now
      && (Answered(k, l.windowMs, l.most, r.now).allowed <==> r.now >= t)
      && (r.now < t ==> Stored(k, l.windowMs, l.most, r) == k)
      && (r.now < t ==> r.now + Answered(k, l.windowMs, l.most, r.now).retryAfterMs == t)
  {
    TrimKeepsAll(k, l, last, now);
    if |Trimmed(k, l.windowMs, r.now)| >= l.most {
      TrimKeepsAll(k, l, last, r.now);
    } else {
      OldestLeft(k, l, last, r.now);
    }
  }

  /** A log that is still full after trimming lost nothing to it. */
  lemma TrimKeepsAll(k: Log, l: Limit, last: int, now: int)
    requires Sensible(l) && Valid(k, l.windowMs, l.most, last) && |Trimmed(k, l.windowMs, now)| >= l.most
    ensures Trimmed(k, l.windowMs, now) == k.entries && |k.entries| == l.most
    ensures k.entries[0].score + l.windowMs > now
  {
    ExpiryIsHarmless(k, l.windowMs, l.most, last, now);
  }

  lemma OldestLeft(k: Log, l: Limit, last: int, now: int)
    requires Sensible(l) && Valid(k, l.windowMs, l.most, last) && |k.entries| == l.most
    requires |Trimmed(k, l.windowMs, now)| < l.most
    ensures k.entries[0].score + l.windowMs <= now
  {
    ExpiryIsHarmless(k, l.windowMs, l.most, last, now);
  }

  /** When a refused request is told to come back. */
  function RetryTime(reqs: seq<Request>, l: Limit, n: nat): int
    requires n < |reqs| && l.most >= 1
  {
    reqs[n].now + Answered(After(reqs[..n], l), l.windowMs, l.most, reqs[n].now).retryAfterMs
  }

  /** The log before a request, whether or not there were any earlier ones. */
  lemma ValidBefore(reqs: seq<Request>, l: Limit, n: nat) returns (last: int)
    requires Sensible(l) && Timed(reqs) && n < |reqs|
    ensures Valid(After(reqs[..n], l), l.windowMs, l.most, last)
  {
    last := reqs[n].now;
    if n > 0 {
      HoldsTheWindow(reqs, l, n);
      last := reqs[n - 1].now;
    }
  }

  /** A refusal, and every request before its retry time, leaves the log as it is. */
  lemma {:induction false} StaysFull(reqs: seq<Request>, l: Limit, n: nat, m: nat)
    requires Sensible(l) && Timed(reqs) && n < m <= |reqs| && !Admitted(reqs, l, n)
    requires forall i :: n < i < m ==> reqs[i].now < RetryTime(reqs, l, n)
    ensures After(reqs[..m], l) == After(reqs[..n], l)
    decreases m
  {
    hide After, Stored, Valid;
    var k, now := After(reqs[..n], l), reqs[n].now;
    var last := ValidBefore(reqs, l, n);
    assert now <= reqs[m - 1].now < RetryTime(reqs, l, n) by {
      if m == n + 1 {
        FullUntil(k, l, last, now, reqs[n]);
      }
    }
    assert After(reqs[..m - 1], l) == k by {
      if m > n + 1 {
        StaysFull(reqs, l, n, m - 1);
      }
    }
    assert Stored(k, l.windowMs, l.most, reqs[m - 1]) == k by {
      FullUntil(k, l, last, now, reqs[m - 1]);
    }
    AfterStep(reqs, l, m - 1);
  }

  /**
   * The retry time is exact: nobody is let through before it, and the first request at
   * or after it is.
   */
  lemma RetryTimeIsExact(reqs: seq<Request>, l: Limit, n: nat, m: nat)
    requires Sensible(l) && Timed(reqs) && n < m < |reqs| && !Admitted(reqs, l, n)
    requires forall i :: n < i < m ==> reqs[i].now < RetryTime(reqs, l, n)
    ensures RetryTime(reqs, l, n) > reqs[n].now
    ensures Admitted(reqs, l, m) <==> reqs[m].now >= RetryTime(reqs, l, n)
  {
    var last := ValidBefore(reqs, l, n);
    StaysFull(reqs, l, n, m);
    hide After, Stored, Answered, Valid;
    FullUntil(After(reqs[..n], l), l, last, reqs[n].now, reqs[m]);
  }
}
