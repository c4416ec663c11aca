/** Validation of a workflow definition (src/workflow/dag.js). */
module ValidateDag {
  import opened Graphs
  import opened WaveOrder
  import Kahn
  import CycleSearch

  datatype DagError =
    | DuplicateKey(task: Key)
    | SelfDependency(task: Key)
    | UnknownDependency(task: Key, dependency: Key)
    | DuplicateDependency(task: Key, dependency: Key)
    | CycleFound(cycle: seq<Key>)

  datatype Report = Report(valid: bool, errors: seq<DagError>, order: seq<Key>, levels: seq<seq<Key>>)

  ghost predicate KeyUsedTwice(tasks: seq<TaskDef>, k: Key) {
    exists i, j :: 0 <= i < j < |tasks| && tasks[i].key == tasks[j].key == k
  }

  ghost predicate ListsItself(tasks: seq<TaskDef>, k: Key) {
    exists t :: t in tasks && t.key == k && k in t.dependsOn
  }

  ghost predicate ListsUnknown(tasks: seq<TaskDef>, k: Key, d: Key) {
    d != k && d !in Keys(tasks) && exists t :: t in tasks && t.key == k && d in t.dependsOn
  }

  ghost predicate Repeats(deps: seq<Key>, d: Key) {
    exists i, j :: 0 <= i < j < |deps| && deps[i] == deps[j] == d
  }

  ghost predicate ListsTwice(tasks: seq<TaskDef>, k: Key, d: Key) {
    exists t :: t in tasks && t.key == k && Repeats(t.dependsOn, d)
  }

  /** The problems of one task's dependency list. */
  ghost predicate TaskProblem(t: TaskDef, known: set<Key>, deps: seq<Key>, e: DagError) {
    match e
    case SelfDependency(k) => k == t.key && k in deps
    case UnknownDependency(k, d) => k == t.key && d != k && d in deps && d !in known
    case DuplicateDependency(k, d) => k == t.key && Repeats(deps, d)
    case DuplicateKey(_) => false
    case CycleFound(_) => false
  }

  /** All structural problems of a definition. */
  ghost predicate Problem(tasks: seq<TaskDef>, e: DagError) {
    match e
    case DuplicateKey(k) => KeyUsedTwice(tasks, k)
    case SelfDependency(k) => ListsItself(tasks, k)
    case UnknownDependency(k, d) => ListsUnknown(tasks, k, d)
    case DuplicateDependency(k, d) => ListsTwice(tasks, k, d)
    case CycleFound(_) => false
  }

  /** A definition without structural problems is one the graph algorithms accept, and only such. */
  lemma NoProblemMeansStructural(tasks: seq<TaskDef>)
    ensures Structural(tasks) <==> forall e :: !Problem(tasks, e)
  {
    if !UniqueKeys(tasks) {
      var i, j :| 0 <= i < j < |tasks| && tasks[i].key == tasks[j].key;
      assert Problem(tasks, DuplicateKey(tasks[i].key));
    }
    if !NoSelfDependency(tasks) {
      var t :| t in tasks && t.key in t.dependsOn;
      assert Problem(tasks, SelfDependency(t.key));
    }
    if !KnownDependencies(tasks) {
      var t, d :| t in tasks && d in t.dependsOn && d !in Keys(tasks);
      assert Problem(tasks, UnknownDependency(t.key, d));
    }
    if !NoRepeatedDependency(tasks) {
      var t :| t in tasks && !Distinct(t.dependsOn);
      var i, j :| 0 <= i < j < |t.dependsOn| && t.dependsOn[i] == t.dependsOn[j];
      assert Repeats(t.dependsOn, t.dependsOn[i]);
      assert Problem(tasks, DuplicateDependency(t.key, t.dependsOn[i]));
    }
  }

  method DuplicateKeys(tasks: seq<TaskDef>) returns (errors: seq<DagError>, seen: set<Key>)
    ensures seen == Keys(tasks)
    ensures forall e :: e in errors <==> e.DuplicateKey? && KeyUsedTwice(tasks, e.task)
  {
    errors, seen := [], {};
    for i := 0 to |tasks|
      invariant seen == Keys(tasks[..i])
      invariant forall e :: e in errors <==> e.DuplicateKey? && KeyUsedTwice(tasks[..i], e.task)
    {
      var k := tasks[i].key;
      OneMoreKey(tasks, i);
      if k in seen {
        errors := errors + [DuplicateKey(k)];
      }
      seen := seen + {k};
      assert tasks[..i + 1] == tasks[..i] + [tasks[i]];
    }
    assert tasks[..|tasks|] == tasks;
  }

  lemma OneMoreKey(tasks: seq<TaskDef>, i: nat)
    requires i < |tasks|
    ensures forall k :: KeyUsedTwice(tasks[..i + 1], k) <==>
      KeyUsedTwice(tasks[..i], k) || (k == tasks[i].key && k in Keys(tasks[..i]))
  {
    var a, b := tasks[..i], tasks[..i + 1];
    forall k ensures KeyUsedTwice(b, k) <==> KeyUsedTwice(a, k) || (k == tasks[i].key && k in Keys(a)) {
      if KeyUsedTwice(a, k) {
        var x, y :| 0 <= x < y < |a| && a[x].key == a[y].key == k;
        assert b[x].key == b[y].key == k;
      }
      if k == tasks[i].key && k in Keys(a) {
        var t :| t in a && t.key == k;
        var x :| 0 <= x < |a| && a[x] == t;
        assert b[x].key == b[i].key == k;
      }
      if KeyUsedTwice(b, k) {
        var x, y :| 0 <= x < y < |b| && b[x].key == b[y].key == k;
        assert a[x] == b[x] && a[x] in a;
        if y < i {
          assert a[x].key == a[y].key == k;
        }
      }
    }
  }

  method CheckDependencies(t: TaskDef, known: set<Key>, errors0: seq<DagError>) returns (errors: seq<DagError>)
    ensures errors0 <= errors
    ensures forall e :: e in errors <==> e in errors0 || TaskProblem(t, known, t.dependsOn, e)
  {
    var deps := t.dependsOn;
    var counted: set<Key> := {};
    errors := errors0;
    for j := 0 to |deps|
      invariant errors0 <= errors
      invariant counted == set d | d in deps[..j]
      invariant forall e :: e in errors <==> e in errors0 || TaskProblem(t, known, deps[..j], e)
    {
      var dep := deps[j];
      OneMoreDependency(t, known, j);
      if dep == t.key {
        errors := errors + [SelfDependency(t.key)];
      } else if dep !in known {
        errors := errors + [UnknownDependency(t.key, dep)];
      }
      if dep in counted {
        errors := errors + [DuplicateDependency(t.key, dep)];
      }
      counted := counted + {dep};
      assert deps[..j + 1] == deps[..j] + [dep];
    }
    assert deps[..|deps|] == deps;
  }

  lemma OneMoreRepeat(deps: seq<Key>, j: nat)
    requires j < |deps|
    ensures forall d :: Repeats(deps[..j + 1], d) <==> Repeats(deps[..j], d) || (d == deps[j] && d in deps[..j])
  {
    var dep, a, b := deps[j], deps[..j], deps[..j + 1];
    forall d ensures Repeats(b, d) <==> Repeats(a, d) || (d == dep && dep in a) {
      if Repeats(a, d) {
        var x, y :| 0 <= x < y < |a| && a[x] == a[y] == d;
        assert b[x] == b[y] == d;
      }
      if d == dep && dep in a {
        var x :| 0 <= x < |a| && a[x] == dep;
        assert b[x] == b[j] == d;
      }
      if Repeats(b, d) {
        var x, y :| 0 <= x < y < |b| && b[x] == b[y] == d;
        assert a[x] == d;
        if y < j {
          assert a[x] == a[y] == d;
        }
      }
    }
  }

  lemma OneMoreDependency(t: TaskDef, known: set<Key>, j: nat)
    requires j < |t.dependsOn|
    ensures var dep := t.dependsOn[j];
      forall e :: TaskProblem(t, known, t.dependsOn[..j + 1], e) <==>
        || TaskProblem(t, known, t.dependsOn[..j], e)
        || (dep == t.key && e == SelfDependency(dep))
        || (dep != t.key && dep !in known && e == UnknownDependency(t.key, dep))
        || (dep in t.dependsOn[..j] && e == DuplicateDependency(t.key, dep))
  {
    var dep, a, b := t.dependsOn[j], t.dependsOn[..j], t.dependsOn[..j + 1];
    assert b == a + [dep];
    assert forall d :: d in b <==> d in a || d == dep;
    OneMoreRepeat(t.dependsOn, j);
    hide Repeats;
    forall e ensures TaskProblem(t, known, b, e) <==>
      || TaskProblem(t, known, a, e)
      || (dep == t.key && e == SelfDependency(dep))
      || (dep != t.key && dep !in known && e == UnknownDependency(t.key, dep))
      || (dep in a && e == DuplicateDependency(t.key, dep))
    {
      match e
      case SelfDependency(k) =>
      case UnknownDependency(k, d) =>
      case DuplicateDependency(k, d) =>
      case DuplicateKey(_) =>
      case CycleFound(_) =>
    }
  }

  /** Every structural problem, and nothing else. */
  method StructuralErrors(tasks: seq<TaskDef>) returns (errors: seq<DagError>)
    ensures forall e :: e in errors <==> Problem(tasks, e)
    ensures errors == [] <==> Structural(tasks)
  {
    var seen;
    errors, seen := DuplicateKeys(tasks);
    for i := 0 to |tasks|
      invariant forall e :: e in errors <==>
        || (e.DuplicateKey? && KeyUsedTwice(tasks, e.task))
        || exists t :: t in tasks[..i] && TaskProblem(t, seen, t.dependsOn, e)
    {
      ghost var before := errors;
      errors := CheckDependencies(tasks[i], seen, errors);
      assert tasks[..i + 1] == tasks[..i] + [tasks[i]];
    }
    assert tasks[..|tasks|] == tasks;
    ProblemsByTask(tasks);
    NoProblemMeansStructural(tasks);
    assert errors == [] <==> forall e :: e !in errors by {
      if errors != [] {
        assert errors[0] in errors;
      }
    }
  }

  lemma ProblemsByTask(tasks: seq<TaskDef>)
    ensures forall e :: Problem(tasks, e) <==>
      || (e.DuplicateKey? && KeyUsedTwice(tasks, e.task))
      || exists t :: t in tasks && TaskProblem(t, Keys(tasks), t.dependsOn, e)
  {
  }

  /**
   * The verdict: valid exactly when keys are unique, every dependency names another
   * task once, and there is no cycle. Then `order` is topological and `levels` are the
   * waves; otherwise every structural problem is reported, or one genuine cycle.
   */
  method Validate(tasks: seq<TaskDef>) returns (r: Report)
    ensures r.valid <==> ValidGraph(tasks)
    ensures r.valid ==> r.errors == [] && Topological(tasks, r.order)
    ensures r.valid ==> Kahn.AreLevels(tasks, r.order, r.levels, []) && WavesOrdered(tasks, r.levels)
    ensures !r.valid ==> r.order == [] && r.levels == [] && r.errors != []
    ensures !Structural(tasks) ==> forall e :: e in r.errors <==> Problem(tasks, e)
    ensures !r.valid && Structural(tasks) ==>
      |r.errors| == 1 && r.errors[0].CycleFound? && SimpleCycle(tasks, r.errors[0].cycle)
  {
    var errors := StructuralErrors(tasks);
    if |errors| > 0 {
      return Report(false, errors, [], []);
    }
    var k := Kahn.Run(tasks);
    if |k.unprocessed| > 0 {
      var cycle, fallback := CycleSearch.FindCycle(tasks, k.unprocessed);
      assert CycleSearch.EachBlocked(tasks, k.unprocessed);
      return Report(false, [CycleFound(cycle)], [], []);
    }
    assert Topological(tasks, k.order) by {
      forall key ensures key in k.order <==> key in Keys(tasks) {
        if key in k.order {
          assert key in Kahn.KeySet(k.order);
        }
        assert key !in k.unprocessed;
      }
    }
    TopologicalMeansAcyclic(tasks, k.order);
    r := Report(true, [], k.order, k.levels);
  }

  /** When valid, the number of levels is the number of tasks on the longest dependency chain. */
  lemma ValidLevelsAreCriticalPath(tasks: seq<TaskDef>, order: seq<Key>, levels: seq<seq<Key>>)
    requires ValidGraph(tasks) && tasks != []
    requires Topological(tasks, order) && Kahn.AreLevels(tasks, order, levels, [])
    ensures exists path :: Chain(tasks, path) && |path| == |levels|
    ensures forall path :: Chain(tasks, path) ==> |path| <= |levels|
    ensures forall l, k :: 0 <= l < |levels| && k in levels[l] ==>
      && (exists path :: Kahn.ChainTo(tasks, path, k) && |path| == l + 1)
      && (forall path :: Kahn.ChainTo(tasks, path, k) ==> |path| <= l + 1)
  {
    assert tasks[0].key in order;
    assert levels != [] by {
      assert Kahn.BelowLevel(levels, |levels|, tasks[0].key);
    }
    Kahn.LevelsAreCriticalPath(tasks, levels);
    forall l, k | 0 <= l < |levels| && k in levels[l]
      ensures exists path :: Kahn.ChainTo(tasks, path, k) && |path| == l + 1
      ensures forall path :: Kahn.ChainTo(tasks, path, k) ==> |path| <= l + 1
    {
      assert Kahn.BelowLevel(levels, |levels|, k);
      Kahn.LevelIsLongestChain(tasks, levels, l, k);
    }
  }

  /** What the validator returns for a valid definition. */
  ghost predicate ValidReport(tasks: seq<TaskDef>, order: seq<Key>, levels: seq<seq<Key>>) {
    ValidGraph(tasks) && Topological(tasks, order) && Kahn.AreLevels(tasks, order, levels, []) && WavesOrdered(tasks, levels)
  }

  lemma LevelsNeed(tasks: seq<TaskDef>, order: seq<Key>, levels: seq<seq<Key>>)
    requires ValidReport(tasks, order, levels)
    ensures forall l, k :: 0 <= l < |levels| && k in levels[l] ==> k in Keys(tasks)
    ensures forall l :: 0 < l < |levels| ==> EachNeedsOne(tasks, levels[l - 1], levels[l])
  {
    hide Needs, InputOrdered, FillOrder, Acyclic;
    forall l, k | 0 <= l < |levels| && k in levels[l] ensures k in Keys(tasks) {
      assert Kahn.BelowLevel(levels, |levels|, k);
    }
    forall l | 0 < l < |levels| ensures EachNeedsOne(tasks, levels[l - 1], levels[l]) {
      forall k | k in levels[l] ensures k in Keys(tasks) && exists d :: d in Needs(tasks, k) && d in levels[l - 1] {
        assert k in Keys(tasks);
        var t :| t in tasks && t.key == k;
        assert Kahn.DependsOnLevel(t, levels[l - 1]);
        var d :| d in t.dependsOn && d in levels[l - 1];
        NeedsOf(tasks, t);
        assert d in Needs(tasks, k);
      }
    }
  }

  /**
   * The order inside the waves follows input order if and only if of any two tasks of a
   * wave, the one that stands first in the input needs nothing of the wave before that
   * stands later there than everything the other needs of it.
   */
  lemma WavesFollowInputIff(tasks: seq<TaskDef>, order: seq<Key>, levels: seq<seq<Key>>)
    requires ValidReport(tasks, order, levels)
    ensures (forall l :: 0 <= l < |levels| ==> InputOrdered(tasks, levels[l])) <==>
      forall l :: 0 < l < |levels| ==> NeedsInInputOrder(tasks, levels[l - 1], levels[l])
  {
    LevelsNeed(tasks, order, levels);
    hide InputOrdered, NeedsInInputOrder, EachNeedsOne, WavesOrdered, Kahn.AreLevels, Topological, Acyclic;
    AllInInputOrderIff(tasks, levels, |levels|);
  }

  lemma RootsAreFirst(tasks: seq<TaskDef>, order: seq<Key>, levels: seq<seq<Key>>, t: TaskDef)
    requires ValidReport(tasks, order, levels) && t in tasks && t.dependsOn == []
    ensures forall l :: 0 <= l < |levels| && t.key in levels[l] ==> l == 0
    ensures levels != [] && t.key in levels[0]
  {
    assert t.key in order;
    assert Kahn.BelowLevel(levels, |levels|, t.key);
    forall l | 0 <= l < |levels| && t.key in levels[l] ensures l == 0 {
      assert l > 0 ==> Kahn.DependsOnLevel(t, levels[l - 1]);
    }
  }

  lemma ChildrenOfRootsAreSecond(tasks: seq<TaskDef>, order: seq<Key>, levels: seq<seq<Key>>, t: TaskDef, root: TaskDef)
    requires ValidReport(tasks, order, levels) && t in tasks && root in tasks
    requires t.dependsOn == [root.key] && root.dependsOn == []
    ensures |levels| > 1 && t.key in levels[1]
  {
    RootsAreFirst(tasks, order, levels, root);
    assert t.key in order;
    assert Kahn.BelowLevel(levels, |levels|, t.key);
    var l :| 0 <= l < |levels| && t.key in levels[l];
    assert root.key in t.dependsOn;
    assert Kahn.BelowLevel(levels, l, root.key);
    assert l > 0 && Kahn.DependsOnLevel(t, levels[l - 1]);
  }

  /** The tasks that depend on one root each, listed in the opposite order of the roots. */
  ghost predicate AreCrossed(tasks: seq<TaskDef>, a: nat, b: nat, x: nat, y: nat) {
    && a < b < |tasks| && x < y < |tasks|
    && tasks[a].dependsOn == tasks[b].dependsOn == []
    && tasks[x].dependsOn == [tasks[b].key] && tasks[y].dependsOn == [tasks[a].key]
  }

  /** Such tasks are not in input order in the second wave. */
  lemma CrossedWave(tasks: seq<TaskDef>, order: seq<Key>, levels: seq<seq<Key>>, a: nat, b: nat, x: nat, y: nat)
    requires ValidReport(tasks, order, levels) && AreCrossed(tasks, a, b, x, y)
    ensures |levels| > 1 && !InputOrdered(tasks, levels[1])
  {
    hide Topological, Kahn.AreLevels, Acyclic, Needs, InputIndex, LastAmong, InputOrdered, FillOrder;
    RootsAreFirst(tasks, order, levels, tasks[a]);
    RootsAreFirst(tasks, order, levels, tasks[b]);
    ChildrenOfRootsAreSecond(tasks, order, levels, tasks[x], tasks[b]);
    ChildrenOfRootsAreSecond(tasks, order, levels, tasks[y], tasks[a]);
    CrossedKeys(tasks, a, b, x, y);
    CrossedKeysCross(tasks, levels[0], levels[1], tasks[a].key, tasks[b].key, tasks[x].key, tasks[y].key);
  }

  lemma CrossedKeys(tasks: seq<TaskDef>, a: nat, b: nat, x: nat, y: nat)
    requires UniqueKeys(tasks) && AreCrossed(tasks, a, b, x, y)
    ensures InputIndex(tasks, tasks[a].key) < InputIndex(tasks, tasks[b].key)
    ensures InputIndex(tasks, tasks[x].key) < InputIndex(tasks, tasks[y].key)
    ensures Needs(tasks, tasks[x].key) == {tasks[b].key} && Needs(tasks, tasks[y].key) == {tasks[a].key}
  {
    hide Needs, InputIndex;
    NeedsOf(tasks, tasks[x]);
    NeedsOf(tasks, tasks[y]);
    InputIndexOf(tasks, a);
    InputIndexOf(tasks, b);
    InputIndexOf(tasks, x);
    InputIndexOf(tasks, y);
  }

  lemma CrossedKeysCross(tasks: seq<TaskDef>, wave: seq<Key>, next: seq<Key>, a: Key, b: Key, x: Key, y: Key)
    requires InputOrdered(tasks, wave) && FillOrder(tasks, wave, next)
    requires a in wave && b in wave && InputIndex(tasks, a) < InputIndex(tasks, b)
    requires x in next && y in next && InputIndex(tasks, x) < InputIndex(tasks, y)
    requires Needs(tasks, x) == {b} && Needs(tasks, y) == {a}
    ensures !InputOrdered(tasks, next)
  {
    hide Needs, InputIndex, LastAmong;
    FreedApart(tasks, wave, a, b, x, y);
    var i :| 0 <= i < |next| && next[i] == x;
    var j :| 0 <= j < |next| && next[j] == y;
    assert i < j ==> Comes(tasks, wave, next[i], next[j]);
  }

  lemma FreedApart(tasks: seq<TaskDef>, wave: seq<Key>, a: Key, b: Key, x: Key, y: Key)
    requires InputOrdered(tasks, wave) && a in wave && b in wave && InputIndex(tasks, a) < InputIndex(tasks, b)
    requires Needs(tasks, x) == {b} && Needs(tasks, y) == {a}
    ensures Freed(tasks, wave, y) < Freed(tasks, wave, x)
  {
    hide InputIndex, Needs;
    var i :| 0 <= i < |wave| && wave[i] == a;
    var j :| 0 <= j < |wave| && wave[j] == b;
  }

  function Crossed(): seq<TaskDef> {
    [TaskDef("A", [], 1), TaskDef("B", [], 1), TaskDef("D", ["B"], 1), TaskDef("C", ["A"], 1)]
  }

  /** A valid definition whose second wave does not follow input order: D stands before C, but C is freed first. */
  lemma WavesMayNotFollowInput(order: seq<Key>, levels: seq<seq<Key>>)
    ensures ValidGraph(Crossed())
    ensures ValidReport(Crossed(), order, levels) ==> |levels| > 1 && !InputOrdered(Crossed(), levels[1])
  {
    CrossedIsValid();
    hide ValidGraph, Topological, Kahn.AreLevels, WavesOrdered, InputOrdered;
    if ValidReport(Crossed(), order, levels) {
      CrossedWave(Crossed(), order, levels, 0, 1, 2, 3);
    }
  }

  lemma CrossedIsValid()
    ensures ValidGraph(Crossed())
  {
    var tasks := Crossed();
    assert UniqueKeys(tasks);
    assert tasks[2].dependsOn[0] == tasks[1].key && tasks[3].dependsOn[0] == tasks[0].key;
    assert ListedAfterNeeds(tasks);
    hide ListedAfterNeeds;
    ListedAfterNeedsIsValid(tasks);
  }

  /** Every dependency names a task listed before. */
  ghost predicate ListedAfterNeeds(tasks: seq<TaskDef>) {
    forall i :: 0 <= i < |tasks| ==>
      && |tasks[i].dependsOn| <= 1
      && (|tasks[i].dependsOn| == 1 ==> exists j :: 0 <= j < i && tasks[j].key == tasks[i].dependsOn[0])
  }

  lemma NeededBefore(tasks: seq<TaskDef>, i: nat, d: Key) returns (j: nat)
    requires ListedAfterNeeds(tasks) && i < |tasks| && d in tasks[i].dependsOn
    ensures j < i && tasks[j].key == d
  {
    j :| 0 <= j < i && tasks[j].key == tasks[i].dependsOn[0];
  }

  lemma ListedAfterNeedsIsStructural(tasks: seq<TaskDef>)
    requires UniqueKeys(tasks) && ListedAfterNeeds(tasks)
    ensures Structural(tasks)
  {
    forall t, d | t in tasks && d in t.dependsOn ensures d in Keys(tasks) && d != t.key {
      var i :| 0 <= i < |tasks| && tasks[i] == t;
      var j := NeededBefore(tasks, i, d);
      assert tasks[j] in tasks;
    }
  }

  lemma InputIsTopological(tasks: seq<TaskDef>)
    requires UniqueKeys(tasks) && ListedAfterNeeds(tasks)
    ensures Topological(tasks, InputKeys(tasks))
  {
    var order := InputKeys(tasks);
    forall i, j | 0 <= i < |order| && 0 <= j < |order| && Edge(tasks, order[i], order[j]) ensures i < j {
      var t :| t in tasks && t.key == order[j] && order[i] in t.dependsOn;
      var m :| 0 <= m < |tasks| && tasks[m] == t;
      var p := NeededBefore(tasks, m, order[i]);
      assert m == j && p == i;
    }
    forall k | k in Keys(tasks) ensures k in order {
      var i :| 0 <= i < |tasks| && tasks[i].key == k;
      assert order[i] == k;
    }
    forall k | k in order ensures k in Keys(tasks) {
      var i :| 0 <= i < |order| && order[i] == k;
      assert tasks[i] in tasks;
    }
  }

  lemma ListedAfterNeedsIsValid(tasks: seq<TaskDef>)
    requires UniqueKeys(tasks) && ListedAfterNeeds(tasks)
    ensures ValidGraph(tasks)
  {
    ListedAfterNeedsIsStructural(tasks);
    InputIsTopological(tasks);
    hide Topological, Structural, Acyclic;
    TopologicalMeansAcyclic(tasks, InputKeys(tasks));
  }
}
