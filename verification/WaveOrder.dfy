/** In which order Kahn's algorithm lists the tasks of a wave (src/workflow/dag.js). */
module WaveOrder {
  import opened Graphs

  /** Where a task stands in the input. */
  function InputIndex(tasks: seq<TaskDef>, k: Key): (i: nat)
    ensures k in Keys(tasks) ==> i < |tasks| && tasks[i].key == k
  {
    if tasks == [] then 0
    else
      var n := |tasks| - 1;
      assert tasks == tasks[..n] + [tasks[n]];
      if k in Keys(tasks[..n]) then InputIndex(tasks[..n], k) else n
  }

  /** What a task depends on. */
  function Needs(tasks: seq<TaskDef>, k: Key): set<Key> {
    if k in Keys(tasks) then set d | d in tasks[InputIndex(tasks, k)].dependsOn else {}
  }

  /** The last position of a sequence that holds a member of `s`, or -1. */
  function LastAmong(xs: seq<Key>, s: set<Key>): (i: int)
    ensures -1 <= i < |xs|
    ensures i >= 0 ==> xs[i] in s
    ensures forall j :: i < j < |xs| ==> xs[j] !in s
  {
    if xs == [] then -1
    else
      var n := |xs| - 1;
      if xs[n] in s then n else LastAmong(xs[..n], s)
  }

  ghost predicate InputOrdered(tasks: seq<TaskDef>, ks: seq<Key>) {
    forall i, j :: 0 <= i < j < |ks| ==> InputIndex(tasks, ks[i]) < InputIndex(tasks, ks[j])
  }

  /** The position in `wave` of the last dependency of `k` to be completed there. */
  function Freed(tasks: seq<TaskDef>, wave: seq<Key>, k: Key): (p: int)
    ensures -1 <= p < |wave|
  {
    LastAmong(wave, Needs(tasks, k))
  }

  /** `x` is listed before `y`: it was freed by an earlier task of the wave, or by the same one and stands before it in the input. */
  predicate Comes(tasks: seq<TaskDef>, wave: seq<Key>, x: Key, y: Key) {
    || Freed(tasks, wave, x) < Freed(tasks, wave, y)
    || (Freed(tasks, wave, x) == Freed(tasks, wave, y) && InputIndex(tasks, x) < InputIndex(tasks, y))
  }

  /** The order in which completing `wave` fills the next one. */
  ghost predicate FillOrder(tasks: seq<TaskDef>, wave: seq<Key>, next: seq<Key>) {
    forall i, j :: 0 <= i < j < |next| ==> Comes(tasks, wave, next[i], next[j])
  }

  /** The first wave is in input order, and each other one in the order in which the wave before fills it. */
  ghost predicate WavesOrdered(tasks: seq<TaskDef>, levels: seq<seq<Key>>) {
    && (levels != [] ==> InputOrdered(tasks, levels[0]))
    && forall l :: 0 < l < |levels| ==> FillOrder(tasks, levels[l - 1], levels[l])
  }

  lemma {:induction false} InputIndexOf(tasks: seq<TaskDef>, i: nat)
    requires UniqueKeys(tasks) && i < |tasks|
    ensures InputIndex(tasks, tasks[i].key) == i
  {
    assert tasks[i] in tasks;
    assert tasks[i].key in Keys(tasks);
  }

  lemma NeedsOf(tasks: seq<TaskDef>, t: TaskDef)
    requires UniqueKeys(tasks) && t in tasks
    ensures Needs(tasks, t.key) == set d | d in t.dependsOn
  {
    var i :| 0 <= i < |tasks| && tasks[i] == t;
    InputIndexOf(tasks, i);
  }

  /** The children lists are in input order. */
  lemma {:induction false} ChildrenInInputOrder(tasks: seq<TaskDef>, m: nat, parent: Key)
    requires UniqueKeys(tasks) && m <= |tasks|
    ensures InputOrdered(tasks, ChildKeys(tasks[..m], parent))
    ensures forall c :: c in ChildKeys(tasks[..m], parent) ==> InputIndex(tasks, c) < m
  {
    hide InputIndex;
    if m > 0 {
      ChildrenInInputOrder(tasks, m - 1, parent);
      InputIndexOf(tasks, m - 1);
      assert tasks[..m][..m - 1] == tasks[..m - 1];
    }
  }

  /** One more task of the wave is completed: what it frees comes after all that was freed before, in input order. */
  lemma OneMoreCompleted(tasks: seq<TaskDef>, wave: seq<Key>, i: nat, next: seq<Key>, added: seq<Key>)
    requires i < |wave| && FillOrder(tasks, wave[..i], next) && InputOrdered(tasks, added)
    requires forall x :: x in next ==> wave[i] !in Needs(tasks, x)
    requires forall x :: x in added ==> wave[i] in Needs(tasks, x)
    ensures FillOrder(tasks, wave[..i + 1], next + added)
  {
    var upTo := wave[..i + 1];
    assert upTo[..i] == wave[..i];
    forall x | x in next ensures Freed(tasks, upTo, x) == Freed(tasks, wave[..i], x) < i {
    }
    forall x | x in added ensures Freed(tasks, upTo, x) == i {
    }
    var all := next + added;
    forall a, b | 0 <= a < b < |all| ensures Comes(tasks, upTo, all[a], all[b]) {
      if b < |next| {
        assert Comes(tasks, wave[..i], next[a], next[b]);
      } else if a < |next| {
        assert next[a] in next && added[b - |next|] in added;
      } else {
        assert added[a - |next|] in added && added[b - |next|] in added;
      }
    }
  }

  // ---------------------------------------------------------------- input order

  /** Of any two tasks of the wave, the one that stands first in the input was not freed later. */
  ghost predicate FreedInInputOrder(tasks: seq<TaskDef>, wave: seq<Key>, next: seq<Key>) {
    forall x, y :: x in next && y in next && InputIndex(tasks, x) < InputIndex(tasks, y) ==>
      Freed(tasks, wave, x) <= Freed(tasks, wave, y)
  }

  /** A wave follows input order if and only if its tasks were freed in input order. */
  lemma InputOrderIff(tasks: seq<TaskDef>, wave: seq<Key>, next: seq<Key>)
    requires FillOrder(tasks, wave, next) && forall k :: k in next ==> k in Keys(tasks)
    ensures InputOrdered(tasks, next) <==> FreedInInputOrder(tasks, wave, next)
  {
    if InputOrdered(tasks, next) {
      forall x, y | x in next && y in next && InputIndex(tasks, x) < InputIndex(tasks, y)
        ensures Freed(tasks, wave, x) <= Freed(tasks, wave, y)
      {
        var i :| 0 <= i < |next| && next[i] == x;
        var j :| 0 <= j < |next| && next[j] == y;
        assert i < j;
        assert Comes(tasks, wave, x, y);
      }
    }
    if FreedInInputOrder(tasks, wave, next) {
      forall i, j | 0 <= i < j < |next| ensures InputIndex(tasks, next[i]) < InputIndex(tasks, next[j]) {
        assert Comes(tasks, wave, next[i], next[j]);
        assert next[i] in next && next[j] in next;
      }
    }
  }

  function InputKeys(tasks: seq<TaskDef>): (r: seq<Key>)
    ensures |r| == |tasks| && forall i :: 0 <= i < |tasks| ==> r[i] == tasks[i].key
  {
    seq(|tasks|, i requires 0 <= i < |tasks| => tasks[i].key)
  }

  /** Where the last of a task's dependencies in `wave` stands in the input. */
  function LatestNeed(tasks: seq<TaskDef>, wave: seq<Key>, k: Key): int {
    LastAmong(InputKeys(tasks), set d | d in Needs(tasks, k) && d in wave)
  }

  /** In a wave that follows input order, the last dependency to be completed is the last in the input. */
  lemma FreedByLatest(tasks: seq<TaskDef>, wave: seq<Key>, k: Key)
    requires UniqueKeys(tasks) && InputOrdered(tasks, wave) && (forall d :: d in wave ==> d in Keys(tasks))
    requires exists d :: d in Needs(tasks, k) && d in wave
    ensures Freed(tasks, wave, k) >= 0
    ensures LatestNeed(tasks, wave, k) == InputIndex(tasks, wave[Freed(tasks, wave, k)])
  {
    var d :| d in Needs(tasks, k) && d in wave;
    var at :| 0 <= at < |wave| && wave[at] == d;
    hide InputIndex, Needs, LastAmong;
    assert Freed(tasks, wave, k) >= at;
    LastIsLatest(tasks, wave, Needs(tasks, k), Freed(tasks, wave, k));
  }

  lemma LastIsLatest(tasks: seq<TaskDef>, wave: seq<Key>, needs: set<Key>, p: int)
    requires UniqueKeys(tasks) && InputOrdered(tasks, wave) && (forall d :: d in wave ==> d in Keys(tasks))
    requires p == LastAmong(wave, needs) && p >= 0
    ensures LastAmong(InputKeys(tasks), set d | d in needs && d in wave) == InputIndex(tasks, wave[p])
  {
    hide InputIndex, LastAmong;
    var both := set d | d in needs && d in wave;
    var q := LastAmong(InputKeys(tasks), both);
    assert wave[p] in both;
    assert InputKeys(tasks)[InputIndex(tasks, wave[p])] == wave[p];
    assert q >= InputIndex(tasks, wave[p]);
    InputIndexOf(tasks, q);
    var m :| 0 <= m < |wave| && wave[m] == InputKeys(tasks)[q];
    assert m <= p;
  }

  /** The tasks of a wave that stand earlier in the input need nothing of the wave before that stands later there. */
  ghost predicate NeedsInInputOrder(tasks: seq<TaskDef>, wave: seq<Key>, next: seq<Key>) {
    forall x, y :: x in next && y in next && InputIndex(tasks, x) < InputIndex(tasks, y) ==>
      LatestNeed(tasks, wave, x) <= LatestNeed(tasks, wave, y)
  }

  /** Every task of a later wave depends on one of the wave before it. */
  ghost predicate EachNeedsOne(tasks: seq<TaskDef>, wave: seq<Key>, next: seq<Key>) {
    forall k :: k in next ==> k in Keys(tasks) && exists d :: d in Needs(tasks, k) && d in wave
  }

  lemma FreedIffNeeds(tasks: seq<TaskDef>, wave: seq<Key>, next: seq<Key>)
    requires UniqueKeys(tasks) && InputOrdered(tasks, wave) && (forall d :: d in wave ==> d in Keys(tasks))
    requires EachNeedsOne(tasks, wave, next)
    ensures FreedInInputOrder(tasks, wave, next) <==> NeedsInInputOrder(tasks, wave, next)
  {
    hide InputIndex, Needs, Freed, LatestNeed, InputOrdered;
    forall x, y | x in next && y in next
      ensures Freed(tasks, wave, x) <= Freed(tasks, wave, y) <==> LatestNeed(tasks, wave, x) <= LatestNeed(tasks, wave, y)
    {
      FreedPair(tasks, wave, x, y);
    }
  }

  lemma FreedPair(tasks: seq<TaskDef>, wave: seq<Key>, x: Key, y: Key)
    requires UniqueKeys(tasks) && InputOrdered(tasks, wave) && (forall d :: d in wave ==> d in Keys(tasks))
    requires exists d :: d in Needs(tasks, x) && d in wave
    requires exists d :: d in Needs(tasks, y) && d in wave
    ensures Freed(tasks, wave, x) <= Freed(tasks, wave, y) <==> LatestNeed(tasks, wave, x) <= LatestNeed(tasks, wave, y)
  {
    hide InputIndex, Needs, Freed, LatestNeed, InputOrdered, UniqueKeys;
    FreedByLatest(tasks, wave, x);
    FreedByLatest(tasks, wave, y);
    PositionsAgree(tasks, wave, Freed(tasks, wave, x), Freed(tasks, wave, y));
  }

  lemma PositionsAgree(tasks: seq<TaskDef>, wave: seq<Key>, p: nat, q: nat)
    requires InputOrdered(tasks, wave) && p < |wave| && q < |wave|
    ensures InputIndex(tasks, wave[p]) <= InputIndex(tasks, wave[q]) <==> p <= q
  {
    hide InputIndex;
  }

  /**
   * All waves follow input order if and only if, wave by wave, earlier tasks of the input
   * need nothing of the wave before that stands later in the input than what later ones need.
   */
  lemma {:induction false} AllInInputOrderIff(tasks: seq<TaskDef>, levels: seq<seq<Key>>, n: nat)
    requires UniqueKeys(tasks) && WavesOrdered(tasks, levels) && n <= |levels|
    requires forall l, k :: 0 <= l < |levels| && k in levels[l] ==> k in Keys(tasks)
    requires forall l :: 0 < l < |levels| ==> EachNeedsOne(tasks, levels[l - 1], levels[l])
    ensures (forall l :: 0 <= l < n ==> InputOrdered(tasks, levels[l])) <==>
      forall l :: 0 < l < n ==> NeedsInInputOrder(tasks, levels[l - 1], levels[l])
  {
    hide InputOrdered, NeedsInInputOrder, EachNeedsOne, FillOrder, FreedInInputOrder;
    if n > 1 {
      AllInInputOrderIff(tasks, levels, n - 1);
      if forall l :: 0 <= l < n - 1 ==> InputOrdered(tasks, levels[l]) {
        assert InputOrdered(tasks, levels[n - 2]) && FillOrder(tasks, levels[n - 2], levels[n - 1]);
        assert EachNeedsOne(tasks, levels[n - 2], levels[n - 1]);
        InputOrderIff(tasks, levels[n - 2], levels[n - 1]);
        FreedIffNeeds(tasks, levels[n - 2], levels[n - 1]);
      }
    }
  }
}
