/** Kahn's algorithm by waves (src/workflow/dag.js). */
module Kahn {
  import opened Graphs
  import opened WaveOrder

  datatype KahnResult = KahnResult(order: seq<Key>, levels: seq<seq<Key>>, unprocessed: seq<Key>)

  /** How many entries of a dependency list are not in `done`. */
  function Waiting(deps: seq<Key>, done: set<Key>): nat {
    if deps == [] then 0
    else Waiting(deps[..|deps| - 1], done) + (if deps[|deps| - 1] in done then 0 else 1)
  }

  lemma {:induction false} WaitingZero(deps: seq<Key>, done: set<Key>)
    ensures Waiting(deps, done) == 0 <==> forall d :: d in deps ==> d in done
  {
    if deps != [] {
      var n := |deps| - 1;
      WaitingZero(deps[..n], done);
      assert deps == deps[..n] + [deps[n]];
    }
  }

  lemma {:induction false} WaitingNothingDone(deps: seq<Key>)
    ensures Waiting(deps, {}) == |deps|
  {
    if deps != [] {
      WaitingNothingDone(deps[..|deps| - 1]);
    }
  }

  /** Completing one more key lowers the count by one for those that list it. */
  lemma {:induction false} WaitingOneDone(deps: seq<Key>, done: set<Key>, k: Key)
    requires Distinct(deps) && k !in done
    ensures Waiting(deps, done + {k}) == Waiting(deps, done) - (if k in deps then 1 else 0)
  {
    if deps != [] {
      var n := |deps| - 1;
      WaitingOneDone(deps[..n], done, k);
      assert deps == deps[..n] + [deps[n]];
      if deps[n] == k {
        assert k !in deps[..n];
      }
    }
  }

  /** With unique keys a task is determined by its key. */
  lemma SameTask(tasks: seq<TaskDef>, t: TaskDef, u: TaskDef)
    requires UniqueKeys(tasks) && t in tasks && u in tasks && t.key == u.key
    ensures t == u
  {
    var i :| 0 <= i < |tasks| && tasks[i] == t;
    var j :| 0 <= j < |tasks| && tasks[j] == u;
    assert i == j;
  }

  function Flatten(levels: seq<seq<Key>>): seq<Key> {
    if levels == [] then [] else Flatten(levels[..|levels| - 1]) + levels[|levels| - 1]
  }

  ghost predicate Forward(tasks: seq<TaskDef>, order: seq<Key>) {
    forall i, j :: 0 <= i < |order| && 0 <= j < |order| && Edge(tasks, order[i], order[j]) ==> i < j
  }

  ghost predicate DependsOnLevel(t: TaskDef, level: seq<Key>) {
    exists d :: d in t.dependsOn && d in level
  }

  ghost predicate BelowLevel(levels: seq<seq<Key>>, l: int, d: Key) {
    exists m :: 0 <= m < l && m < |levels| && d in levels[m]
  }

  /** Each task of a level has all dependencies in earlier levels, and one in the level just before. */
  ghost predicate Layered(tasks: seq<TaskDef>, levels: seq<seq<Key>>) {
    forall l, t :: 0 <= l < |levels| && t in tasks && t.key in levels[l] ==>
      && (forall d :: d in t.dependsOn ==> BelowLevel(levels, l, d))
      && (l > 0 ==> DependsOnLevel(t, levels[l - 1]))
  }

  /** The tasks not emitted, in input order. */
  function Leftovers(tasks: seq<TaskDef>, emitted: set<Key>): seq<Key> {
    if tasks == [] then []
    else
      var k := tasks[|tasks| - 1].key;
      Leftovers(tasks[..|tasks| - 1], emitted) + (if k in emitted then [] else [k])
  }

  lemma {:induction false} LeftoversAre(tasks: seq<TaskDef>, emitted: set<Key>)
    ensures forall k :: k in Leftovers(tasks, emitted) <==> k in Keys(tasks) && k !in emitted
  {
    if tasks != [] {
      var n := |tasks| - 1;
      LeftoversAre(tasks[..n], emitted);
      assert tasks == tasks[..n] + [tasks[n]];
      assert Keys(tasks) == Keys(tasks[..n]) + {tasks[n].key};
    }
  }

  /** Registers one task with each of its dependencies. */
  method AddChild(children0: map<Key, seq<Key>>, t: TaskDef) returns (children: map<Key, seq<Key>>)
    requires Distinct(t.dependsOn) && forall d :: d in t.dependsOn ==> d in children0
    ensures children.Keys == children0.Keys
    ensures forall p :: p in children ==>
      children[p] == children0[p] + (if p in t.dependsOn then [t.key] else [])
  {
    children := children0;
    for j := 0 to |t.dependsOn|
      invariant children.Keys == children0.Keys
      invariant forall p :: p in children ==>
        children[p] == children0[p] + (if p in t.dependsOn[..j] then [t.key] else [])
    {
      var dep := t.dependsOn[j];
      assert dep in t.dependsOn && dep !in t.dependsOn[..j];
      children := children[dep := children[dep] + [t.key]];
      assert t.dependsOn[..j + 1] == t.dependsOn[..j] + [dep];
    }
    assert t.dependsOn[..|t.dependsOn|] == t.dependsOn;
  }

  /** The children lists: for every task, who lists it. */
  method BuildChildren(tasks: seq<TaskDef>) returns (children: map<Key, seq<Key>>)
    requires Structural(tasks)
    ensures children.Keys == Keys(tasks)
    ensures forall p :: p in children ==> children[p] == ChildKeys(tasks, p)
  {
    children := map t | t in tasks :: t.key := [];
    for i := 0 to |tasks|
      invariant children.Keys == Keys(tasks)
      invariant forall p :: p in children ==> children[p] == ChildKeys(tasks[..i], p)
    {
      children := AddChild(children, tasks[i]);
      assert tasks[..i + 1][..i] == tasks[..i];
    }
    assert tasks[..|tasks|] == tasks;
  }

  function KeySet(keys: seq<Key>): set<Key> {
    set k | k in keys
  }

  /** The in-degree of a task counts its dependencies not yet done. */
  ghost predicate Counts(tasks: seq<TaskDef>, done: set<Key>, inDegree: map<Key, int>) {
    && inDegree.Keys == Keys(tasks)
    && forall t :: t in tasks ==> inDegree[t.key] == Waiting(t.dependsOn, done)
  }

  /** The wave is exactly the tasks whose dependencies are all done and that are not done themselves. */
  ghost predicate IsWave(tasks: seq<TaskDef>, order: seq<Key>, wave: seq<Key>) {
    && Distinct(wave) && KeySet(wave) <= Keys(tasks)
    && forall t :: t in tasks ==> (t.key in wave <==> t.key !in order && Waiting(t.dependsOn, KeySet(order)) == 0)
  }

  /** What has been emitted: each task once, dependencies first. */
  ghost predicate IsOrder(tasks: seq<TaskDef>, order: seq<Key>) {
    && Distinct(order) && KeySet(order) <= Keys(tasks) && Forward(tasks, order)
    && forall t, d :: t in tasks && t.key in order && d in t.dependsOn ==> d in order
  }

  /** The waves pushed so far, with the one about to be pushed. */
  ghost predicate AreLevels(tasks: seq<TaskDef>, order: seq<Key>, levels: seq<seq<Key>>, wave: seq<Key>) {
    && order == Flatten(levels) && Layered(tasks, levels)
    && (forall l :: 0 <= l < |levels| ==> levels[l] != [])
    && (forall k :: k in order <==> BelowLevel(levels, |levels|, k))
    && (|levels| > 0 ==> forall t :: t in tasks && t.key in wave ==> DependsOnLevel(t, levels[|levels| - 1]))
  }

  method Run(tasks: seq<TaskDef>) returns (r: KahnResult)
    requires Structural(tasks)
    ensures IsOrder(tasks, r.order) && AreLevels(tasks, r.order, r.levels, [])
    ensures WavesOrdered(tasks, r.levels)
    ensures forall k :: k in r.unprocessed <==> k in Keys(tasks) && k !in r.order
    ensures forall k :: k in r.unprocessed ==> exists d :: d in r.unprocessed && Edge(tasks, d, k)
    ensures r.unprocessed == Leftovers(tasks, KeySet(r.order))
  {
    var inDegree := InDegrees(tasks);
    var children := BuildChildren(tasks);
    var order: seq<Key> := [];
    var levels: seq<seq<Key>> := [];
    var wave := FirstWave(tasks, inDegree);
    assert KeySet(order) == {};
    while wave != []
      invariant Counts(tasks, KeySet(order), inDegree)
      invariant IsWave(tasks, order, wave) && IsOrder(tasks, order) && AreLevels(tasks, order, levels, wave)
      invariant WavesOrdered(tasks, levels + [wave])
      decreases |Keys(tasks)| - |order|
    {
      var next;
      inDegree, next := CompleteWave(tasks, children, order, wave, inDegree);
      WaveEmitted(tasks, order, wave);
      NextWave(tasks, order, wave, next);
      PushedLevels(tasks, order, levels, wave, next);
      OneMoreWave(tasks, levels, wave, next);
      levels := levels + [wave];
      order := order + wave;
      wave := next;
      OrderFits(tasks, order);
    }
    var unprocessed := Leftovers(tasks, KeySet(order));
    LeftoversBlocked(tasks, order);
    FewerWaves(tasks, levels, wave);
    r := KahnResult(order, levels, unprocessed);
  }

  lemma OneMoreWave(tasks: seq<TaskDef>, levels: seq<seq<Key>>, wave: seq<Key>, next: seq<Key>)
    requires WavesOrdered(tasks, levels + [wave]) && FillOrder(tasks, wave, next)
    ensures WavesOrdered(tasks, levels + [wave] + [next])
  {
    hide InputOrdered, FillOrder;
    var more := levels + [wave] + [next];
    forall l | 0 < l < |more| ensures FillOrder(tasks, more[l - 1], more[l]) {
      if l < |more| - 1 {
        assert more[l - 1] == (levels + [wave])[l - 1] && more[l] == (levels + [wave])[l];
      }
    }
    assert more[0] == (levels + [wave])[0];
  }

  lemma FewerWaves(tasks: seq<TaskDef>, levels: seq<seq<Key>>, wave: seq<Key>)
    requires WavesOrdered(tasks, levels + [wave])
    ensures WavesOrdered(tasks, levels)
  {
    hide InputOrdered, FillOrder;
    forall l | 0 < l < |levels| ensures FillOrder(tasks, levels[l - 1], levels[l]) {
      assert levels[l - 1] == (levels + [wave])[l - 1] && levels[l] == (levels + [wave])[l];
    }
    if levels != [] {
      assert levels[0] == (levels + [wave])[0];
    }
  }

  lemma OrderFits(tasks: seq<TaskDef>, order: seq<Key>)
    requires IsOrder(tasks, order)
    ensures |order| <= |Keys(tasks)|
  {
    forall k | k in order ensures k in Keys(tasks) {
      assert k in KeySet(order);
    }
    DistinctWithin(order, Keys(tasks));
  }

  /** A task never emitted waits for another task never emitted. */
  lemma LeftoversBlocked(tasks: seq<TaskDef>, order: seq<Key>)
    requires Structural(tasks) && IsWave(tasks, order, [])
    ensures forall k :: k in Leftovers(tasks, KeySet(order)) <==> k in Keys(tasks) && k !in order
    ensures forall k :: k in Leftovers(tasks, KeySet(order)) ==>
      exists d :: d in Leftovers(tasks, KeySet(order)) && Edge(tasks, d, k)
  {
    var left := Leftovers(tasks, KeySet(order));
    LeftoversAre(tasks, KeySet(order));
    forall k | k in left ensures exists d :: d in left && Edge(tasks, d, k) {
      var t :| t in tasks && t.key == k;
      assert Waiting(t.dependsOn, KeySet(order)) != 0;
      WaitingZero(t.dependsOn, KeySet(order));
      var d :| d in t.dependsOn && d !in KeySet(order);
      assert d in left && Edge(tasks, d, k);
    }
  }

  method InDegrees(tasks: seq<TaskDef>) returns (inDegree: map<Key, int>)
    requires UniqueKeys(tasks)
    ensures inDegree.Keys == Keys(tasks)
    ensures forall t :: t in tasks ==> inDegree[t.key] == Waiting(t.dependsOn, {})
  {
    inDegree := map[];
    for i := 0 to |tasks|
      invariant inDegree.Keys == Keys(tasks[..i])
      invariant forall j :: 0 <= j < i ==> inDegree[tasks[j].key] == |tasks[j].dependsOn|
    {
      assert tasks[..i + 1] == tasks[..i] + [tasks[i]];
      assert Keys(tasks[..i + 1]) == Keys(tasks[..i]) + {tasks[i].key};
      inDegree := inDegree[tasks[i].key := |tasks[i].dependsOn|];
    }
    assert tasks[..|tasks|] == tasks;
    forall t | t in tasks ensures inDegree[t.key] == Waiting(t.dependsOn, {}) {
      WaitingNothingDone(t.dependsOn);
    }
  }

  method FirstWave(tasks: seq<TaskDef>, inDegree: map<Key, int>) returns (wave: seq<Key>)
    requires UniqueKeys(tasks) && inDegree.Keys == Keys(tasks)
    requires forall t :: t in tasks ==> inDegree[t.key] == Waiting(t.dependsOn, {})
    ensures IsWave(tasks, [], wave) && InputOrdered(tasks, wave)
  {
    hide InputIndex;
    wave := [];
    for i := 0 to |tasks|
      invariant Distinct(wave) && InputOrdered(tasks, wave)
      invariant forall k :: k in wave ==> InputIndex(tasks, k) < i
      invariant forall k :: k in wave ==> exists j :: 0 <= j < i && tasks[j].key == k
      invariant forall j :: 0 <= j < i ==> (tasks[j].key in wave <==> inDegree[tasks[j].key] == 0)
    {
      InputIndexOf(tasks, i);
      if inDegree[tasks[i].key] == 0 {
        assert tasks[i].key !in wave;
        DistinctAppend(wave, tasks[i].key);
        wave := wave + [tasks[i].key];
      }
    }
    assert KeySet([]) == {};
  }

  /** The children for which this was the last dependency, in their order. */
  function Reaching(kids: seq<Key>, inDegree: map<Key, int>): seq<Key> {
    if kids == [] then []
    else
      var n := |kids| - 1;
      Reaching(kids[..n], inDegree) + (if kids[n] in inDegree && inDegree[kids[n]] == 1 then [kids[n]] else [])
  }

  lemma {:induction false} ReachingAre(tasks: seq<TaskDef>, kids: seq<Key>, inDegree: map<Key, int>)
    ensures forall k :: k in Reaching(kids, inDegree) <==> k in kids && k in inDegree && inDegree[k] == 1
    ensures InputOrdered(tasks, kids) ==> InputOrdered(tasks, Reaching(kids, inDegree))
  {
    if kids != [] {
      var n := |kids| - 1;
      ReachingAre(tasks, kids[..n], inDegree);
      assert kids == kids[..n] + [kids[n]];
      if InputOrdered(tasks, kids) {
        assert forall k :: k in kids[..n] ==> InputIndex(tasks, k) < InputIndex(tasks, kids[n]);
      }
    }
  }

  /** Decrements each child, and appends to `next` those that reach zero. */
  method DecrementChildren(kids: seq<Key>, inDegree0: map<Key, int>, next0: seq<Key>)
    returns (inDegree: map<Key, int>, next: seq<Key>)
    requires Distinct(kids)
    requires forall c :: c in kids ==> c in inDegree0
    ensures inDegree.Keys == inDegree0.Keys
    ensures forall k :: k in inDegree ==> inDegree[k] == inDegree0[k] - (if k in kids then 1 else 0)
    ensures next == next0 + Reaching(kids, inDegree0)
  {
    inDegree, next := inDegree0, next0;
    for j := 0 to |kids|
      invariant inDegree.Keys == inDegree0.Keys
      invariant forall k :: k in inDegree ==> inDegree[k] == inDegree0[k] - (if k in kids[..j] then 1 else 0)
      invariant next == next0 + Reaching(kids[..j], inDegree0)
    {
      var child := kids[j];
      assert child in kids && child !in kids[..j];
      assert kids[..j + 1] == kids[..j] + [child];
      assert kids[..j + 1][..j] == kids[..j];
      var remaining := inDegree[child] - 1;
      inDegree := inDegree[child := remaining];
      if remaining == 0 {
        next := next + [child];
      }
    }
    assert kids[..|kids|] == kids;
  }

  /**
   * Completes a wave: decrements every child, and collects those that reach zero, first
   * those that the first task of the wave frees, each time in input order.
   */
  method CompleteWave(tasks: seq<TaskDef>, children: map<Key, seq<Key>>, ghost order: seq<Key>, wave: seq<Key>, inDegree0: map<Key, int>)
    returns (inDegree: map<Key, int>, next: seq<Key>)
    requires Structural(tasks)
    requires children.Keys == Keys(tasks) && forall p :: p in children ==> children[p] == ChildKeys(tasks, p)
    requires Counts(tasks, KeySet(order), inDegree0) && IsWave(tasks, order, wave)
    ensures Counts(tasks, KeySet(order + wave), inDegree)
    ensures Distinct(next) && KeySet(next) <= Keys(tasks) && FillOrder(tasks, wave, next)
    ensures forall t :: t in tasks ==> (t.key in next <==>
      Waiting(t.dependsOn, KeySet(order)) > 0 && Waiting(t.dependsOn, KeySet(order + wave)) == 0)
  {
    hide Structural, FillOrder, Counts, IsWave, Reaching, ChildKeys;
    inDegree, next := inDegree0, [];
    CountsKeys(tasks, KeySet(order), inDegree0);
    WaveKeys(tasks, order, wave);
    assert order + wave[..0] == order;
    NothingFilled(tasks, wave[..0]);
    for i := 0 to |wave|
      invariant Counts(tasks, KeySet(order + wave[..i]), inDegree)
      invariant KeySet(next) <= Keys(tasks) && FillOrder(tasks, wave[..i], next) && inDegree.Keys == Keys(tasks)
      invariant forall k :: k in Keys(tasks) ==> (k in next <==> inDegree0[k] > 0 && inDegree[k] == 0)
    {
      var key := wave[i];
      assert key in KeySet(wave);
      WaveKeyIsNew(tasks, order, wave, i);
      var kids := children[key];
      ghost var was, soFar, filled := inDegree, KeySet(order + wave[..i]), next;
      KidsAreWaiting(tasks, soFar, key, inDegree);
      KidsAreWaiting(tasks, KeySet(order), key, inDegree0);
      inDegree, next := DecrementChildren(kids, inDegree, next);
      OneMoreDone(tasks, soFar, key, was, inDegree);
      CountsKeys(tasks, soFar, was);
      OneMoreFilled(tasks, order, wave, i, was, inDegree0, filled);
      assert KeySet(order + wave[..i + 1]) == soFar + {key};
    }
    assert wave[..|wave|] == wave;
    FilledOnce(tasks, wave, next);
    NextIs(tasks, order, wave, inDegree0, inDegree, next);
  }

  lemma CountsKeys(tasks: seq<TaskDef>, done: set<Key>, inDegree: map<Key, int>)
    requires Counts(tasks, done, inDegree)
    ensures inDegree.Keys == Keys(tasks)
  {
  }

  lemma WaveKeys(tasks: seq<TaskDef>, order: seq<Key>, wave: seq<Key>)
    requires IsWave(tasks, order, wave)
    ensures KeySet(wave) <= Keys(tasks)
  {
  }

  /** What the counts say of the tasks collected. */
  lemma NextIs(tasks: seq<TaskDef>, order: seq<Key>, wave: seq<Key>, inDegree0: map<Key, int>, inDegree: map<Key, int>, next: seq<Key>)
    requires Counts(tasks, KeySet(order), inDegree0) && Counts(tasks, KeySet(order + wave), inDegree)
    requires forall k :: k in Keys(tasks) ==> (k in next <==> inDegree0[k] > 0 && inDegree[k] == 0)
    ensures forall t :: t in tasks ==> (t.key in next <==>
      Waiting(t.dependsOn, KeySet(order)) > 0 && Waiting(t.dependsOn, KeySet(order + wave)) == 0)
  {
  }

  lemma NothingFilled(tasks: seq<TaskDef>, wave: seq<Key>)
    ensures FillOrder(tasks, wave, [])
  {
  }

  /** Nothing is listed twice: each listed task comes before the next. */
  lemma FilledOnce(tasks: seq<TaskDef>, wave: seq<Key>, next: seq<Key>)
    requires FillOrder(tasks, wave, next)
    ensures Distinct(next)
  {
    forall i, j | 0 <= i < j < |next| ensures next[i] != next[j] {
      assert Comes(tasks, wave, next[i], next[j]);
    }
  }

  /** What completing one more task appends keeps the list in order, and lists exactly what it frees. */
  lemma OneMoreFilled(tasks: seq<TaskDef>, order: seq<Key>, wave: seq<Key>, i: nat, was: map<Key, int>, inDegree0: map<Key, int>, next: seq<Key>)
    requires Structural(tasks) && i < |wave| && wave[i] in Keys(tasks) && wave[i] !in KeySet(order + wave[..i])
    requires Counts(tasks, KeySet(order + wave[..i]), was) && inDegree0.Keys == was.Keys
    requires KeySet(next) <= Keys(tasks) && FillOrder(tasks, wave[..i], next)
    requires forall k :: k in Keys(tasks) ==> (k in next <==> inDegree0[k] > 0 && was[k] == 0)
    ensures FillOrder(tasks, wave[..i + 1], next + Reaching(ChildKeys(tasks, wave[i]), was))
    ensures forall k :: k in Reaching(ChildKeys(tasks, wave[i]), was) <==>
      k in ChildKeys(tasks, wave[i]) && k in Keys(tasks) && was[k] == 1
  {
    var kids := ChildKeys(tasks, wave[i]);
    assert tasks[..|tasks|] == tasks;
    ChildrenInInputOrder(tasks, |tasks|, wave[i]);
    ReachingAre(tasks, kids, was);
    hide FillOrder, InputOrdered, Needs, InputIndex;
    forall x | x in kids ensures wave[i] in Needs(tasks, x) {
      ChildNeeds(tasks, wave[i], x);
    }
    forall x | x in next ensures wave[i] !in Needs(tasks, x) {
      assert x in KeySet(next);
      DoneNeeds(tasks, KeySet(order + wave[..i]), was, x);
    }
    OneMoreCompleted(tasks, wave, i, next, Reaching(kids, was));
  }

  lemma ChildNeeds(tasks: seq<TaskDef>, parent: Key, child: Key)
    requires Structural(tasks) && child in ChildKeys(tasks, parent)
    ensures parent in Needs(tasks, child)
  {
    ChildKeysAreEdges(tasks, parent);
    var t :| t in tasks && t.key == child && parent in t.dependsOn;
    NeedsOf(tasks, t);
  }

  /** A task that waits for nothing more needs only what is done. */
  lemma DoneNeeds(tasks: seq<TaskDef>, done: set<Key>, inDegree: map<Key, int>, k: Key)
    requires Structural(tasks) && Counts(tasks, done, inDegree) && k in Keys(tasks) && inDegree[k] == 0
    ensures Needs(tasks, k) <= done
  {
    var t :| t in tasks && t.key == k;
    NeedsOf(tasks, t);
    WaitingZero(t.dependsOn, done);
  }

  lemma WaveKeyIsNew(tasks: seq<TaskDef>, order: seq<Key>, wave: seq<Key>, i: nat)
    requires IsWave(tasks, order, wave) && i < |wave|
    ensures wave[i] !in KeySet(order + wave[..i]) && wave[i] !in order
  {
    assert wave[i] in KeySet(wave);
    var t :| t in tasks && t.key == wave[i];
    assert t.key in wave;
  }

  /** The children of a task not yet done still wait for it. */
  lemma KidsAreWaiting(tasks: seq<TaskDef>, done: set<Key>, key: Key, inDegree: map<Key, int>)
    requires Structural(tasks) && key !in done && Counts(tasks, done, inDegree)
    ensures Distinct(ChildKeys(tasks, key))
    ensures forall c :: c in ChildKeys(tasks, key) ==> c in inDegree && inDegree[c] > 0
  {
    ChildKeysDistinct(tasks, key);
    ChildKeysAreEdges(tasks, key);
    forall c | c in ChildKeys(tasks, key) ensures c in inDegree && inDegree[c] > 0 {
      var t :| t in tasks && t.key == c && key in t.dependsOn;
      WaitingZero(t.dependsOn, done);
    }
  }

  /** Decrementing the children of a task is counting it as done. */
  lemma OneMoreDone(tasks: seq<TaskDef>, done: set<Key>, key: Key, was: map<Key, int>, now: map<Key, int>)
    requires Structural(tasks) && key !in done && Counts(tasks, done, was)
    requires now.Keys == was.Keys
    requires forall k :: k in now ==> now[k] == was[k] - (if k in ChildKeys(tasks, key) then 1 else 0)
    ensures Counts(tasks, done + {key}, now)
  {
    ChildKeysAreEdges(tasks, key);
    forall t | t in tasks ensures now[t.key] == Waiting(t.dependsOn, done + {key}) {
      WaitingOneDone(t.dependsOn, done, key);
      if t.key in ChildKeys(tasks, key) {
        var u :| u in tasks && u.key == t.key && key in u.dependsOn;
        SameTask(tasks, t, u);
      }
    }
  }

  /** Emitting a wave keeps the order topological. */
  lemma WaveEmitted(tasks: seq<TaskDef>, order: seq<Key>, wave: seq<Key>)
    requires Structural(tasks) && IsWave(tasks, order, wave) && IsOrder(tasks, order)
    ensures IsOrder(tasks, order + wave)
    ensures forall t, d :: t in tasks && t.key in wave && d in t.dependsOn ==> d in order
  {
    forall t, d | t in tasks && t.key in wave && d in t.dependsOn ensures d in order {
      WaitingZero(t.dependsOn, KeySet(order));
      assert d in KeySet(order);
    }
    forall k | k in wave ensures k !in order && k in Keys(tasks) {
      assert k in KeySet(wave);
      var t :| t in tasks && t.key == k;
    }
    assert KeySet(order + wave) == KeySet(order) + KeySet(wave);
    PushedForward(tasks, order, wave);
  }

  /** What reaches zero while a wave completes is exactly the wave after it. */
  lemma NextWave(tasks: seq<TaskDef>, order: seq<Key>, wave: seq<Key>, next: seq<Key>)
    requires IsWave(tasks, order, wave) && IsOrder(tasks, order)
    requires Distinct(next) && KeySet(next) <= Keys(tasks)
    requires forall t :: t in tasks ==> (t.key in next <==>
      Waiting(t.dependsOn, KeySet(order)) > 0 && Waiting(t.dependsOn, KeySet(order + wave)) == 0)
    ensures IsWave(tasks, order + wave, next)
    ensures forall t :: t in tasks && t.key in next ==> DependsOnLevel(t, wave)
  {
    forall t | t in tasks
      ensures t.key in next <==> t.key !in order + wave && Waiting(t.dependsOn, KeySet(order + wave)) == 0
      ensures t.key in next ==> DependsOnLevel(t, wave)
    {
      WaitingZero(t.dependsOn, KeySet(order));
      if t.key in next {
        WaitingZero(t.dependsOn, KeySet(order + wave));
        var d :| d in t.dependsOn && d !in KeySet(order);
        assert d in KeySet(order + wave);
        assert d in wave;
      }
    }
  }

  /** Pushing a wave as the next level. */
  lemma PushedLevels(tasks: seq<TaskDef>, order: seq<Key>, levels: seq<seq<Key>>, wave: seq<Key>, next: seq<Key>)
    requires AreLevels(tasks, order, levels, wave) && wave != []
    requires forall t, d :: t in tasks && t.key in wave && d in t.dependsOn ==> d in order
    requires forall t :: t in tasks && t.key in next ==> DependsOnLevel(t, wave)
    ensures AreLevels(tasks, order + wave, levels + [wave], next)
  {
    var levels' := levels + [wave];
    assert levels'[..|levels|] == levels && levels'[|levels|] == wave;
    forall l: nat, d | l <= |levels| ensures BelowLevel(levels, l, d) ==> BelowLevel(levels', l, d) {
      if BelowLevel(levels, l, d) {
        var m :| 0 <= m < l && m < |levels| && d in levels[m];
        assert d in levels'[m];
      }
    }
    forall l, t | 0 <= l < |levels'| && t in tasks && t.key in levels'[l]
      ensures forall d :: d in t.dependsOn ==> BelowLevel(levels', l, d)
      ensures l > 0 ==> DependsOnLevel(t, levels'[l - 1])
    {
      if l < |levels| {
        assert t.key in levels[l];
      }
      forall d | d in t.dependsOn ensures BelowLevel(levels', l, d) {
        assert BelowLevel(levels, l, d);
      }
    }
    forall k ensures k in order + wave <==> BelowLevel(levels', |levels'|, k) {
      if k in wave {
        assert k in levels'[|levels|];
      }
      if BelowLevel(levels', |levels'|, k) {
        var m :| 0 <= m < |levels'| && k in levels'[m];
        if m < |levels| {
          assert k in levels[m] && BelowLevel(levels, |levels|, k);
        }
      }
    }
  }

  lemma PushedForward(tasks: seq<TaskDef>, order: seq<Key>, wave: seq<Key>)
    requires Forward(tasks, order) && NoSelfDependency(tasks) && UniqueKeys(tasks)
    requires Distinct(order) && Distinct(wave) && forall k :: k in wave ==> k !in order
    requires forall t, d :: t in tasks && (t.key in order || t.key in wave) && d in t.dependsOn ==> d in order
    ensures Forward(tasks, order + wave)
    ensures Distinct(order + wave)
  {
    var o := order + wave;
    DistinctConcat(order, wave);
    forall i, j | 0 <= i < |o| && 0 <= j < |o| && Edge(tasks, o[i], o[j]) ensures i < j {
      var t :| t in tasks && t.key == o[j] && o[i] in t.dependsOn;
      assert o[j] in order || o[j] in wave;
      assert o[i] in order;
      if j < |order| && i < |order| {
        assert Edge(tasks, order[i], order[j]);
      }
    }
  }

  ghost predicate ChainTo(tasks: seq<TaskDef>, path: seq<Key>, k: Key) {
    |path| > 0 && path[|path| - 1] == k && Chain(tasks, path)
  }

  lemma ChainPrefix(tasks: seq<TaskDef>, path: seq<Key>, n: nat)
    requires Chain(tasks, path) && n <= |path|
    ensures Chain(tasks, path[..n])
  {
    forall i | 0 <= i < n - 1 ensures Edge(tasks, path[..n][i], path[..n][i + 1]) {
      assert Edge(tasks, path[i], path[i + 1]);
    }
  }

  lemma ChainExtended(tasks: seq<TaskDef>, path: seq<Key>, d: Key, k: Key)
    requires ChainTo(tasks, path, d) && Edge(tasks, d, k)
    ensures ChainTo(tasks, path + [k], k)
  {
    var longer := path + [k];
    forall i | 0 <= i < |longer| - 1 ensures Edge(tasks, longer[i], longer[i + 1]) {
      if i < |path| - 1 {
        assert Edge(tasks, path[i], path[i + 1]);
      }
    }
  }

  /** Behind a task of level `l` there is a chain of `l + 1` tasks. */
  lemma {:induction false} LevelHasChain(tasks: seq<TaskDef>, levels: seq<seq<Key>>, l: nat, t: TaskDef) returns (path: seq<Key>)
    requires Layered(tasks, levels) && l < |levels| && t in tasks && t.key in levels[l]
    requires KnownDependencies(tasks)
    ensures ChainTo(tasks, path, t.key) && |path| == l + 1
    decreases l
  {
    if l == 0 {
      path := [t.key];
    } else {
      assert DependsOnLevel(t, levels[l - 1]);
      var d :| d in t.dependsOn && d in levels[l - 1];
      assert d in Keys(tasks);
      var u :| u in tasks && u.key == d;
      var behind := LevelHasChain(tasks, levels, l - 1, u);
      assert Edge(tasks, d, t.key);
      ChainExtended(tasks, behind, d, t.key);
      path := behind + [t.key];
    }
  }

  /** No chain to a task of level `l` has more than `l + 1` tasks. */
  lemma {:induction false} LevelBoundsChains(tasks: seq<TaskDef>, levels: seq<seq<Key>>, l: nat, path: seq<Key>)
    requires Layered(tasks, levels) && l < |levels|
    requires |path| > 0 && path[|path| - 1] in levels[l] && Chain(tasks, path)
    ensures |path| <= l + 1
    decreases |path|
  {
    var n := |path| - 1;
    if n > 0 {
      assert Edge(tasks, path[n - 1], path[n]);
      var u :| u in tasks && u.key == path[n] && path[n - 1] in u.dependsOn;
      assert BelowLevel(levels, l, path[n - 1]);
      var m :| 0 <= m < l && m < |levels| && path[n - 1] in levels[m];
      ChainPrefix(tasks, path, n);
      LevelBoundsChains(tasks, levels, m, path[..n]);
    }
  }

  /** The level of a task, counted from one, is the length of the longest chain of dependencies ending at it. */
  lemma LevelIsLongestChain(tasks: seq<TaskDef>, levels: seq<seq<Key>>, l: nat, k: Key)
    requires Layered(tasks, levels) && l < |levels| && k in levels[l] && k in Keys(tasks)
    requires KnownDependencies(tasks)
    ensures exists path :: ChainTo(tasks, path, k) && |path| == l + 1
    ensures forall path :: ChainTo(tasks, path, k) ==> |path| <= l + 1
  {
    var t :| t in tasks && t.key == k;
    var path := LevelHasChain(tasks, levels, l, t);
    forall path | ChainTo(tasks, path, k) ensures |path| <= l + 1 {
      LevelBoundsChains(tasks, levels, l, path);
    }
  }

  /** `levels.length` is the critical path: some chain is that long and none is longer. */
  lemma LevelsAreCriticalPath(tasks: seq<TaskDef>, levels: seq<seq<Key>>)
    requires Layered(tasks, levels) && levels != [] && KnownDependencies(tasks)
    requires forall l :: 0 <= l < |levels| ==> levels[l] != []
    requires forall k :: k in Keys(tasks) <==> BelowLevel(levels, |levels|, k)
    ensures exists path :: Chain(tasks, path) && |path| == |levels|
    ensures forall path :: Chain(tasks, path) ==> |path| <= |levels|
  {
    var l := |levels| - 1;
    var k := levels[l][0];
    assert BelowLevel(levels, |levels|, k);
    var t :| t in tasks && t.key == k;
    var longest := LevelHasChain(tasks, levels, l, t);
    forall path | Chain(tasks, path) ensures |path| <= |levels| {
      if path != [] {
        assert BelowLevel(levels, |levels|, path[|path| - 1]);
        var m :| 0 <= m < |levels| && path[|path| - 1] in levels[m];
        LevelBoundsChains(tasks, levels, m, path);
      }
    }
  }
}
