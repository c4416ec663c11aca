/** Three-colour depth-first search for one concrete cycle (src/workflow/dag.js). */
module CycleSearch {
  import opened Graphs
  import opened Options

  datatype Colour = WHITE | GREY | BLACK

  /** A closed walk from task to dependency, no key met twice before it closes. */
  ghost predicate DependencyCycle(tasks: seq<TaskDef>, walk: seq<Key>) {
    && |walk| >= 2 && walk[0] == walk[|walk| - 1]
    && Distinct(walk[..|walk| - 1])
    && forall i :: 0 <= i < |walk| - 1 ==> Edge(tasks, walk[i + 1], walk[i])
  }

  /** The current path goes from task to dependency. */
  ghost predicate DescendingPath(tasks: seq<TaskDef>, path: seq<Key>) {
    Distinct(path) && forall i :: 0 <= i < |path| - 1 ==> Edge(tasks, path[i + 1], path[i])
  }

  /** Every dependency of a finished task was finished before it. */
  ghost predicate FinishOrder(tasks: seq<TaskDef>, finished: seq<Key>) {
    forall i, d :: 0 <= i < |finished| && Edge(tasks, d, finished[i]) ==> d in finished[..i]
  }

  function Reverse<A>(xs: seq<A>): (r: seq<A>)
    ensures |r| == |xs|
    ensures forall i :: 0 <= i < |xs| ==> r[i] == xs[|xs| - 1 - i]
  {
    seq(|xs|, i requires 0 <= i < |xs| => xs[|xs| - 1 - i])
  }

  /** Where `k` first occurs, as `indexOf`. */
  function IndexOf(xs: seq<Key>, k: Key): (i: nat)
    requires k in xs
    ensures i < |xs| && xs[i] == k
  {
    if xs[0] == k then 0 else 1 + IndexOf(xs[1..], k)
  }

  /** Read backwards, a walk from task to dependency is a cycle in execution direction. */
  lemma ReversedIsCycle(tasks: seq<TaskDef>, walk: seq<Key>)
    requires DependencyCycle(tasks, walk) && KnownDependencies(tasks)
    ensures SimpleCycle(tasks, Reverse(walk))
  {
    var r, n := Reverse(walk), |walk| - 1;
    forall i | 0 <= i < n ensures Edge(tasks, r[i], r[i + 1]) {
      assert Edge(tasks, walk[(n - 1 - i) + 1], walk[n - 1 - i]);
    }
    forall i | 0 <= i < |r| ensures r[i] in Keys(tasks) {
      if i > 0 {
        assert Edge(tasks, r[i - 1], r[i]);
      } else {
        assert Edge(tasks, r[n - 1], r[n]);
      }
    }
    forall i, j | 0 <= i < j < n ensures r[..n][i] != r[..n][j] {
      assert r[i] == walk[n - i] && r[j] == walk[n - j];
      if i == 0 {
        assert walk[..n][0] != walk[..n][n - j];
      } else {
        assert walk[..n][n - j] != walk[..n][n - i];
      }
    }
  }

  /** Walking back into the path closes a cycle. */
  lemma PathCloses(tasks: seq<TaskDef>, path: seq<Key>, dep: Key)
    requires DescendingPath(tasks, path) && dep in path && Edge(tasks, dep, path[|path| - 1])
    ensures DependencyCycle(tasks, path[IndexOf(path, dep)..] + [dep])
  {
    var at := IndexOf(path, dep);
    var walk := path[at..] + [dep];
    forall i | 0 <= i < |walk| - 1 ensures Edge(tasks, walk[i + 1], walk[i]) {
      if i < |walk| - 2 {
        assert Edge(tasks, path[at + i + 1], path[at + i]);
      }
    }
    assert walk[..|walk| - 1] == path[at..];
  }

  lemma PathExtended(tasks: seq<TaskDef>, path: seq<Key>, key: Key)
    requires DescendingPath(tasks, path) && key !in path
    requires path != [] ==> Edge(tasks, key, path[|path| - 1])
    ensures DescendingPath(tasks, path + [key])
  {
    DistinctAppend(path, key);
    var longer := path + [key];
    forall i | 0 <= i < |longer| - 1 ensures Edge(tasks, longer[i + 1], longer[i]) {
      if i < |path| - 1 {
        assert Edge(tasks, path[i + 1], path[i]);
      }
    }
  }

  lemma PathShortened(tasks: seq<TaskDef>, path: seq<Key>)
    requires DescendingPath(tasks, path) && path != []
    ensures DescendingPath(tasks, path[..|path| - 1]) && path[|path| - 1] !in path[..|path| - 1]
  {
    var p := path[..|path| - 1];
    forall i | 0 <= i < |p| - 1 ensures Edge(tasks, p[i + 1], p[i]) {
      assert Edge(tasks, path[i + 1], path[i]);
    }
  }

  lemma EdgeKnown(tasks: seq<TaskDef>, dep: Key, key: Key)
    requires Edge(tasks, dep, key) && Structural(tasks)
    ensures dep in Keys(tasks) && key in Keys(tasks)
  {
  }

  lemma FinishExtended(tasks: seq<TaskDef>, finished: seq<Key>, key: Key)
    requires FinishOrder(tasks, finished)
    requires forall d :: Edge(tasks, d, key) ==> d in finished
    ensures FinishOrder(tasks, finished + [key])
  {
    var f := finished + [key];
    forall i, d | 0 <= i < |f| && Edge(tasks, d, f[i]) ensures d in f[..i] {
      if i < |finished| {
        assert f[..i] == finished[..i] && f[i] == finished[i];
      } else {
        assert f[..i] == finished;
      }
    }
  }

  /** There are candidates, and each waits for another one: what Kahn's algorithm leaves. */
  ghost predicate EachBlocked(tasks: seq<TaskDef>, candidates: seq<Key>) {
    candidates != [] && forall k :: k in candidates ==> exists d :: d in candidates && Edge(tasks, d, k)
  }

  /** Tasks each waiting for another of them cannot all finish. */
  lemma BlockedNeverFinish(tasks: seq<TaskDef>, finished: seq<Key>, candidates: seq<Key>)
    requires FinishOrder(tasks, finished)
    requires forall k :: k in candidates ==> k in finished
    ensures !EachBlocked(tasks, candidates)
  {
    if EachBlocked(tasks, candidates) {
      var i := FirstFinished(finished, candidates);
      assert false;
    }
  }

  lemma {:induction false} FirstFinished(finished: seq<Key>, candidates: seq<Key>) returns (i: nat)
    requires candidates != [] && forall k :: k in candidates ==> k in finished
    ensures i < |finished| && finished[i] in candidates
    ensures forall k :: k in candidates ==> k !in finished[..i]
  {
    assert candidates[0] in finished;
    if finished[0] in candidates {
      i := 0;
    } else {
      forall k | k in candidates ensures k in finished[1..] {
        assert k != finished[0];
      }
      var j := FirstFinished(finished[1..], candidates);
      i := j + 1;
      assert finished[..i] == [finished[0]] + finished[1..][..j];
    }
  }

  /** The state of one search: the colours and the path that the visits share. */
  class Search {
    const tasks: seq<TaskDef>
    var colour: map<Key, Colour>
    var path: seq<Key>
    ghost var finished: seq<Key>

    ghost predicate Valid()
      reads this
    {
      && Structural(tasks) && colour.Keys == Keys(tasks)
      && DescendingPath(tasks, path) && FinishOrder(tasks, finished)
      && (forall k :: k in colour ==> (colour[k] == GREY <==> k in path))
      && (forall k :: k in colour ==> (colour[k] == BLACK <==> k in finished))
      && (forall k :: k in path ==> k in colour)
    }

    ghost function White(): set<Key>
      reads this
    {
      set k | k in colour && colour[k] == WHITE
    }

    constructor (tasks: seq<TaskDef>)
      requires Structural(tasks)
      ensures Valid() && this.tasks == tasks && path == [] && finished == []
    {
      this.tasks := tasks;
      colour := map k | k in Keys(tasks) :: WHITE;
      path := [];
      finished := [];
    }

    method DependenciesOf(key: Key) returns (deps: seq<Key>)
      requires Valid() && key in colour
      ensures forall d :: d in deps <==> Edge(tasks, d, key)
    {
      var i := 0;
      while tasks[i].key != key
        invariant 0 <= i < |tasks|
        invariant forall j :: 0 <= j < i ==> tasks[j].key != key
        invariant exists j :: i <= j < |tasks| && tasks[j].key == key
        decreases |tasks| - i
      {
        i := i + 1;
      }
      deps := tasks[i].dependsOn;
      forall d ensures d in deps <==> Edge(tasks, d, key) {
        if Edge(tasks, d, key) {
          var t :| t in tasks && t.key == key && d in t.dependsOn;
          var j :| 0 <= j < |tasks| && tasks[j] == t;
          assert j == i;
        }
      }
    }

    /** `key` turns GREY and joins the path. */
    method Enter(key: Key)
      requires Valid() && key in colour && colour[key] == WHITE
      requires path != [] ==> Edge(tasks, key, path[|path| - 1])
      modifies this
      ensures Valid() && path == old(path) + [key] && finished == old(finished)
      ensures White() == old(White()) - {key}
    {
      hide Structural, DescendingPath, FinishOrder, Edge;
      PathExtended(tasks, path, key);
      colour := colour[key := GREY];
      path := path + [key];
    }

    /** `key`, at the end of the path with all its dependencies finished, leaves it and turns BLACK. */
    method Leave(key: Key)
      requires Valid() && path != [] && path[|path| - 1] == key
      requires forall d :: Edge(tasks, d, key) ==> d in finished
      modifies this
      ensures Valid() && path == old(path)[..|old(path)| - 1] && finished == old(finished) + [key]
      ensures White() == old(White())
    {
      hide Structural, DescendingPath, FinishOrder, Edge;
      FinishExtended(tasks, finished, key);
      PathShortened(tasks, path);
      assert path == path[..|path| - 1] + [key];
      path := path[..|path| - 1];
      colour := colour[key := BLACK];
      finished := finished + [key];
    }

    /** Either a cycle, or everything reachable from `key` is finished and the path is as before. */
    method Visit(key: Key) returns (found: Option<seq<Key>>)
      requires Valid() && key in colour && colour[key] == WHITE
      requires path != [] ==> Edge(tasks, key, path[|path| - 1])
      modifies this
      ensures found.Some? ==> DependencyCycle(tasks, found.value)
      ensures found.None? ==> Valid() && path == old(path) && old(finished) <= finished && key in finished
      ensures found.None? ==> White() <= old(White()) - {key}
      decreases White()
    {
      hide Structural, DescendingPath, FinishOrder, DependencyCycle, Edge;
      ghost var white := White();
      assert key in white;
      Enter(key);
      ghost var here := path;
      var deps := DependenciesOf(key);
      var j := 0;
      while j < |deps|
        invariant 0 <= j <= |deps|
        invariant Valid() && path == here && old(finished) <= finished
        invariant forall d :: d in deps[..j] ==> d in finished
        invariant White() <= white - {key}
      {
        var dep := deps[j];
        assert dep in deps && deps[..j + 1] == deps[..j] + [dep];
        EdgeKnown(tasks, dep, key);
        if colour[dep] == GREY {
          PathCloses(tasks, path, dep);
          return Some(path[IndexOf(path, dep)..] + [dep]);
        }
        if colour[dep] == WHITE {
          var f := Visit(dep);
          if f.Some? {
            return f;
          }
        }
        j := j + 1;
      }
      assert deps[..|deps|] == deps;
      Leave(key);
      return None;
    }
  }

  /**
   * One concrete cycle among the candidates, in execution direction. Called with
   * tasks that each wait for another candidate (Kahn's leftovers), it always ends
   * in a genuine simple cycle: the fallback at the end is never taken.
   */
  method FindCycle(tasks: seq<TaskDef>, candidates: seq<Key>) returns (cycle: seq<Key>, fallback: bool)
    requires Structural(tasks) && forall k :: k in candidates ==> k in Keys(tasks)
    ensures !fallback ==> SimpleCycle(tasks, cycle)
    ensures fallback ==> cycle == candidates
    ensures EachBlocked(tasks, candidates) ==> !fallback
  {
    var search := new Search(tasks);
    for i := 0 to |candidates|
      invariant fresh(search) && search.Valid() && search.path == [] && search.tasks == tasks
      invariant forall k :: k in candidates[..i] ==> k in search.finished
    {
      var key := candidates[i];
      assert key in candidates;
      assert candidates[..i + 1] == candidates[..i] + [key];
      if search.colour[key] == WHITE {
        var found := search.Visit(key);
        if found.Some? {
          ReversedIsCycle(tasks, found.value);
          return Reverse(found.value), false;
        }
      }
    }
    assert candidates[..|candidates|] == candidates;
    BlockedNeverFinish(tasks, search.finished, candidates);
    return candidates, true;
  }
}
