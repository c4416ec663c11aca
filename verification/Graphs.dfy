/** Workflow task graphs: what a well-formed acyclic definition is. */
module Graphs {

  type Key = string

  /** One task of a definition; a missing `dependsOn` list is the empty list. */
  datatype TaskDef = TaskDef(key: Key, dependsOn: seq<Key>, maxAttempts: int)

  function Keys(tasks: seq<TaskDef>): set<Key> {
    set t | t in tasks :: t.key
  }

  ghost predicate Distinct<A>(xs: seq<A>) {
    forall i, j :: 0 <= i < j < |xs| ==> xs[i] != xs[j]
  }

  ghost predicate UniqueKeys(tasks: seq<TaskDef>) {
    forall i, j :: 0 <= i < j < |tasks| ==> tasks[i].key != tasks[j].key
  }

  ghost predicate KnownDependencies(tasks: seq<TaskDef>) {
    forall t, d :: t in tasks && d in t.dependsOn ==> d in Keys(tasks)
  }

  ghost predicate NoSelfDependency(tasks: seq<TaskDef>) {
    forall t :: t in tasks ==> t.key !in t.dependsOn
  }

  ghost predicate NoRepeatedDependency(tasks: seq<TaskDef>) {
    forall t :: t in tasks ==> Distinct(t.dependsOn)
  }

  /** What the graph algorithms rely on: unique keys, known edges, each edge once. */
  ghost predicate Structural(tasks: seq<TaskDef>) {
    && UniqueKeys(tasks)
    && KnownDependencies(tasks)
    && NoSelfDependency(tasks)
    && NoRepeatedDependency(tasks)
  }

  /** An edge in execution direction: `child` lists `parent` as a dependency. */
  ghost predicate Edge(tasks: seq<TaskDef>, parent: Key, child: Key) {
    exists t :: t in tasks && t.key == child && parent in t.dependsOn
  }

  /** A walk in execution direction: each key is a dependency of the next. */
  ghost predicate Chain(tasks: seq<TaskDef>, path: seq<Key>) {
    && (forall i :: 0 <= i < |path| ==> path[i] in Keys(tasks))
    && (forall i :: 0 <= i < |path| - 1 ==> Edge(tasks, path[i], path[i + 1]))
  }

  /** A closed walk: the first key repeated at the end. */
  ghost predicate Cycle(tasks: seq<TaskDef>, path: seq<Key>) {
    |path| >= 2 && path[0] == path[|path| - 1] && Chain(tasks, path)
  }

  /** A closed walk that meets no key twice before it closes. */
  ghost predicate SimpleCycle(tasks: seq<TaskDef>, path: seq<Key>) {
    Cycle(tasks, path) && Distinct(path[..|path| - 1])
  }

  ghost predicate Acyclic(tasks: seq<TaskDef>) {
    forall path :: !Cycle(tasks, path)
  }

  /** The definitions a run may start from. */
  ghost predicate ValidGraph(tasks: seq<TaskDef>) {
    Structural(tasks) && Acyclic(tasks)
  }

  /** `order` lists every task once, and every dependency before its dependents. */
  ghost predicate Topological(tasks: seq<TaskDef>, order: seq<Key>) {
    && Distinct(order)
    && (forall k :: k in order <==> k in Keys(tasks))
    && (forall i, j :: 0 <= i < |order| && 0 <= j < |order| && Edge(tasks, order[i], order[j]) ==> i < j)
  }

  /** The keys that list `parent`, in input order. */
  function ChildKeys(tasks: seq<TaskDef>, parent: Key): seq<Key> {
    if tasks == [] then []
    else
      var t := tasks[|tasks| - 1];
      ChildKeys(tasks[..|tasks| - 1], parent) + (if parent in t.dependsOn then [t.key] else [])
  }

  lemma {:induction false} ChildKeysAreEdges(tasks: seq<TaskDef>, parent: Key)
    ensures forall c :: c in ChildKeys(tasks, parent) <==> Edge(tasks, parent, c)
  {
    if tasks != [] {
      var n := |tasks| - 1;
      ChildKeysAreEdges(tasks[..n], parent);
      assert tasks == tasks[..n] + [tasks[n]];
      forall c ensures c in ChildKeys(tasks, parent) <==> Edge(tasks, parent, c) {
        if c in ChildKeys(tasks[..n], parent) {
          assert Edge(tasks[..n], parent, c);
        }
        if Edge(tasks, parent, c) {
          var t :| t in tasks && t.key == c && parent in t.dependsOn;
          if t in tasks[..n] {
            assert Edge(tasks[..n], parent, c);
          }
        }
      }
    }
  }

  lemma {:induction false} ChildKeysDistinct(tasks: seq<TaskDef>, parent: Key)
    requires UniqueKeys(tasks)
    ensures Distinct(ChildKeys(tasks, parent))
  {
    if tasks != [] {
      var n := |tasks| - 1;
      ChildKeysDistinct(tasks[..n], parent);
      ChildKeysAreEdges(tasks[..n], parent);
      if tasks[n].key in ChildKeys(tasks[..n], parent) {
        assert false;
      }
    }
  }

  lemma DistinctConcat<A>(a: seq<A>, b: seq<A>)
    requires Distinct(a) && Distinct(b) && forall x :: x in b ==> x !in a
    ensures Distinct(a + b)
  {
    forall i, j | 0 <= i < j < |a + b| ensures (a + b)[i] != (a + b)[j] {
      if i < |a| <= j {
        assert b[j - |a|] in b && a[i] in a;
      }
    }
  }

  lemma DistinctAppend<A>(a: seq<A>, x: A)
    requires Distinct(a) && x !in a
    ensures Distinct(a + [x])
  {
    DistinctConcat(a, [x]);
  }

  lemma DistinctWithin<A>(xs: seq<A>, s: set<A>)
    requires Distinct(xs)
    requires forall x :: x in xs ==> x in s
    ensures |xs| <= |s|
  {
    if xs != [] {
      var rest, x := xs[1..], xs[0];
      forall y | y in rest ensures y in s - {x} {
        var i :| 0 <= i < |rest| && rest[i] == y;
        assert xs[i + 1] == y;
      }
      DistinctWithin(rest, s - {x});
    }
  }

  /** A topological order leaves no room for a cycle: positions rise along every chain. */
  lemma TopologicalMeansAcyclic(tasks: seq<TaskDef>, order: seq<Key>)
    requires Topological(tasks, order)
    ensures Acyclic(tasks)
  {
    forall path ensures !Cycle(tasks, path) {
      if Cycle(tasks, path) {
        var p := PositionsRise(tasks, order, path);
        assert false;
      }
    }
  }

  lemma {:induction false} PositionsRise(tasks: seq<TaskDef>, order: seq<Key>, path: seq<Key>) returns (p: seq<int>)
    requires Topological(tasks, order) && Chain(tasks, path)
    ensures |p| == |path| && forall i :: 0 <= i < |p| ==> 0 <= p[i] < |order| && order[p[i]] == path[i]
    ensures forall i, j :: 0 <= i < j < |p| ==> p[i] < p[j]
  {
    if path == [] {
      p := [];
    } else {
      var n := |path| - 1;
      assert Chain(tasks, path[..n]) by {
        forall i | 0 <= i < n - 1 ensures Edge(tasks, path[..n][i], path[..n][i + 1]) {
          assert Edge(tasks, path[i], path[i + 1]);
        }
      }
      var q := PositionsRise(tasks, order, path[..n]);
      assert path[n] in Keys(tasks) && path[n] in order;
      var j :| 0 <= j < |order| && order[j] == path[n];
      p := q + [j];
      if n > 0 {
        assert Edge(tasks, path[n - 1], path[n]);
        assert q[n - 1] < j;
      }
    }
  }

  /**
   * In an acyclic graph every non-empty set of tasks has a member none of whose
   * dependencies is in the set: otherwise walking from dependency to dependency
   * inside the set would have to repeat a key, and close a cycle.
   */
  lemma SomeSource(tasks: seq<TaskDef>, s: set<Key>) returns (k: Key)
    requires Acyclic(tasks) && s != {} && s <= Keys(tasks)
    ensures k in s && forall d :: d in s ==> !Edge(tasks, d, k)
  {
    var start :| start in s;
    k := SourceBehind(tasks, s, [start]);
  }

  /** Stepping back into a walk closes a cycle. */
  lemma WalkCloses(tasks: seq<TaskDef>, walk: seq<Key>, d: Key)
    requires Chain(tasks, walk) && d in walk && Edge(tasks, d, walk[0])
    ensures exists path :: Cycle(tasks, path)
  {
    var i :| 0 <= i < |walk| && walk[i] == d;
    var closed := [d] + walk[..i + 1];
    forall j | 0 <= j < |closed| - 1 ensures Edge(tasks, closed[j], closed[j + 1]) {
      if j > 0 {
        assert Edge(tasks, walk[j - 1], walk[j]);
      }
    }
    assert Cycle(tasks, closed);
  }

  lemma {:induction false} SourceBehind(tasks: seq<TaskDef>, s: set<Key>, walk: seq<Key>) returns (k: Key)
    requires Acyclic(tasks) && s <= Keys(tasks)
    requires |walk| > 0 && Chain(tasks, walk) && Distinct(walk) && forall x :: x in walk ==> x in s
    ensures k in s && forall d :: d in s ==> !Edge(tasks, d, k)
    decreases |s| - |walk|
  {
    if d :| d in s && Edge(tasks, d, walk[0]) {
      var longer := [d] + walk;
      assert Chain(tasks, longer) by {
        forall i | 0 <= i < |longer| - 1 ensures Edge(tasks, longer[i], longer[i + 1]) {
          if i > 0 {
            assert Edge(tasks, walk[i - 1], walk[i]);
          }
        }
      }
      if d in walk {
        WalkCloses(tasks, walk, d);
        assert false;
      } else {
        DistinctWithin(longer, s);
        k := SourceBehind(tasks, s, longer);
      }
    } else {
      k := walk[0];
    }
  }
}
