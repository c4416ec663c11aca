/** Starting a run at most once per idempotency key (src/services/execution.service.js). */
module Idempotency {
  import opened Options
  import opened JsonText
  import opened CanonicalJson

  type Hash = seq<int>

  /** What an execution document keeps of the request that started it. */
  datatype Started = Started(triggeredBy: nat, key: Option<Text>, requestHash: Option<Hash>)

  /**
   * A request to run a workflow: whether the user may see the workflow, and whether its
   * graph is valid, are facts about the database at that time.
   */
  datatype Request = Request(user: nat, key: Option<Text>, workflowId: Text, input: Json, found: bool, validGraph: bool)

  datatype Outcome =
    | NewRun(execution: nat)
    | Replayed(execution: nat)
    | WorkflowNotFound
    | InvalidGraph
    | KeyReused                     // 422: same key, different request

  function RequestJson(workflowId: Text, input: Json): Json {
    Obj([Member(Ascii("workflowId"), Str(workflowId)), Member(Ascii("input"), input)])
  }

  function RequestText(workflowId: Text, input: Json): Text {
    Canonical(RequestJson(workflowId, input))
  }

  predicate HasKey(e: Started, user: nat, key: Text) {
    e.triggeredBy == user && e.key == Some(key)
  }

  /** The execution that the unique index finds for a user and a key. */
  function Find(runs: seq<Started>, user: nat, key: Text): (i: Option<nat>)
    ensures i.Some? ==> i.value < |runs| && HasKey(runs[i.value], user, key)
    ensures i.None? ==> forall j :: 0 <= j < |runs| ==> !HasKey(runs[j], user, key)
  {
    if runs == [] then None
    else
      var n := |runs| - 1;
      var earlier := Find(runs[..n], user, key);
      if earlier.Some? then earlier else if HasKey(runs[n], user, key) then Some(n) else None
  }

  function HashOf(digest: Text -> Hash, r: Request): Option<Hash> {
    if r.key.Some? then Some(digest(RequestText(r.workflowId, r.input))) else None
  }

  function Decide(digest: Text -> Hash, runs: seq<Started>, r: Request): Outcome {
    if !r.found then WorkflowNotFound
    else if !r.validGraph then InvalidGraph
    else if r.key.None? then NewRun(|runs|)
    else
      var existing := Find(runs, r.user, r.key.value);
      if existing.None? then NewRun(|runs|)
      else if runs[existing.value].requestHash == HashOf(digest, r) then Replayed(existing.value)
      else KeyReused
  }

  function Stored(digest: Text -> Hash, runs: seq<Started>, r: Request): seq<Started> {
    if Decide(digest, runs, r).NewRun? then runs + [Started(r.user, r.key, HashOf(digest, r))] else runs
  }

  class ExecutionService {
    const digest: Text -> Hash
    var runs: seq<Started>

    constructor (digest: Text -> Hash)
      ensures this.digest == digest && runs == []
    {
      this.digest, runs := digest, [];
    }

    /** The insert that the unique index on (triggeredBy, idempotencyKey) guards. */
    method Insert(e: Started) returns (duplicate: bool)
      modifies this
      ensures duplicate == (e.key.Some? && Find(old(runs), e.triggeredBy, e.key.value).Some?)
      ensures runs == if duplicate then old(runs) else old(runs) + [e]
    {
      if e.key.Some? && Find(runs, e.triggeredBy, e.key.value).Some? {
        return true;
      }
      runs := runs + [e];
      return false;
    }

    method Run(r: Request) returns (outcome: Outcome)
      modifies this
      ensures outcome == Decide(digest, old(runs), r)
      ensures runs == Stored(digest, old(runs), r)
    {
      if !r.found {
        return WorkflowNotFound;
      }
      var requestHash := if r.key.Some? then Some(digest(RequestText(r.workflowId, r.input))) else None;
      if !r.validGraph {
        return InvalidGraph;
      }
      var duplicate := Insert(Started(r.user, r.key, requestHash));
      if !duplicate {
        return NewRun(|runs| - 1);
      }
      var existing := Find(runs, r.user, r.key.value);
      if runs[existing.value].requestHash != requestHash {
        return KeyReused;
      }
      return Replayed(existing.value);
    }
  }

  // ---------------------------------------------------------------- what a request text identifies

  lemma KeysDiffer()
    ensures Ascii("workflowId") != Ascii("input")
  {
    assert |Ascii("workflowId")| != |Ascii("input")|;
  }

  /** Two objects with the same two properties agree exactly if the properties do. */
  lemma PairSame(k: Text, l: Text, v1: Json, u1: Json, v2: Json, u2: Json)
    requires k != l
    ensures Same(Obj([Member(k, v1), Member(l, u1)]), Obj([Member(k, v2), Member(l, u2)])) <==> Same(v1, v2) && Same(u1, u2)
  {
    var a, b := [Member(k, v1), Member(l, u1)], [Member(k, v2), Member(l, u2)];
    assert Same(Obj(a), Obj(b)) <==> Matched(a[0], b) && Matched(a[1], b);
    hide Same;
    assert a[0].key == b[0].key && a[1].key == b[1].key;
    assert Matched(a[0], b) <==> Same(v1, v2);
    assert Matched(a[1], b) <==> Same(u1, u2);
  }

  lemma GoodRequest(workflowId: Text, input: Json)
    requires Good(input)
    ensures Good(RequestJson(workflowId, input))
  {
    KeysDiffer();
    hide Ascii;
    var members := RequestJson(workflowId, input).members;
    assert members[0].value == Str(workflowId) && members[1].value == input;
    assert Good(Str(workflowId));
  }

  /** Two requests have one text exactly if they name one workflow and their inputs agree up to key order. */
  lemma TextIffSameRequest(w1: Text, i1: Json, w2: Text, i2: Json)
    requires Good(i1) && Good(i2)
    ensures RequestText(w1, i1) == RequestText(w2, i2) <==> w1 == w2 && Same(i1, i2)
  {
    GoodRequest(w1, i1);
    GoodRequest(w2, i2);
    KeysDiffer();
    hide Canonical, Ascii, Good;
    PairSame(Ascii("workflowId"), Ascii("input"), Str(w1), i1, Str(w2), i2);
    assert Same(Str(w1), Str(w2)) <==> w1 == w2;
    hide Same;
    CanonicalIffSame(RequestJson(w1, i1), RequestJson(w2, i2));
  }

  // ---------------------------------------------------------------- any sequence of requests

  function After(digest: Text -> Hash, reqs: seq<Request>): seq<Started> {
    if reqs == [] then [] else Stored(digest, After(digest, reqs[..|reqs| - 1]), reqs[|reqs| - 1])
  }

  function Answer(digest: Text -> Hash, reqs: seq<Request>, i: nat): Outcome
    requires i < |reqs|
  {
    Decide(digest, After(digest, reqs[..i]), reqs[i])
  }

  ghost predicate UniqueKeys(runs: seq<Started>) {
    forall i, j :: 0 <= i < j < |runs| && runs[i].key.Some? ==> !HasKey(runs[j], runs[i].triggeredBy, runs[i].key.value)
  }

  /** However often a user retries with one key, at most one run carries it. */
  lemma {:induction false} AtMostOneRunPerKey(digest: Text -> Hash, reqs: seq<Request>)
    ensures UniqueKeys(After(digest, reqs))
  {
    if reqs != [] {
      AtMostOneRunPerKey(digest, reqs[..|reqs| - 1]);
    }
  }

  lemma AfterStep(digest: Text -> Hash, reqs: seq<Request>, n: nat)
    requires n < |reqs|
    ensures After(digest, reqs[..n + 1]) == Stored(digest, After(digest, reqs[..n]), reqs[n])
  {
    assert reqs[..n + 1][..n] == reqs[..n];
  }

  /** Runs are only added. */
  lemma {:induction false} RunsStay(digest: Text -> Hash, reqs: seq<Request>, i: nat, j: nat)
    requires i <= j <= |reqs|
    ensures After(digest, reqs[..i]) <= After(digest, reqs[..j])
    decreases j
  {
    if i < j {
      RunsStay(digest, reqs, i, j - 1);
      AfterStep(digest, reqs, j - 1);
    }
  }

  /**
   * A later request under the key of a started run answers with that run if and only if
   * the workflow is still found and valid and it is the same request. Otherwise it is
   * refused, as the first of these that fails says. It never starts anything.
   */
  lemma RetryReplays(digest: Text -> Hash, reqs: seq<Request>, i: nat, j: nat)
    requires i < j < |reqs| && Answer(digest, reqs, i).NewRun? && reqs[i].key.Some?
    requires reqs[j].user == reqs[i].user && reqs[j].key == reqs[i].key
    requires Good(reqs[i].input) && Good(reqs[j].input)
    requires NoCollision(digest, reqs[i], reqs[j])
    ensures Answer(digest, reqs, j) == Replayed(Answer(digest, reqs, i).execution) <==>
      && reqs[j].found && reqs[j].validGraph
      && reqs[j].workflowId == reqs[i].workflowId && Same(reqs[i].input, reqs[j].input)
    ensures Answer(digest, reqs, j) in {Replayed(Answer(digest, reqs, i).execution), WorkflowNotFound, InvalidGraph, KeyReused}
    ensures Answer(digest, reqs, j) == WorkflowNotFound <==> !reqs[j].found
    ensures Answer(digest, reqs, j) == InvalidGraph <==> reqs[j].found && !reqs[j].validGraph
    ensures After(digest, reqs[..j + 1]) == After(digest, reqs[..j])
  {
    AfterStep(digest, reqs, j);
    if reqs[j].found && reqs[j].validGraph {
      KeyStaysTaken(digest, reqs, i, j);
      TextIffSameRequest(reqs[i].workflowId, reqs[i].input, reqs[j].workflowId, reqs[j].input);
    }
  }

  /** The execution a request started is what its user and key find ever after. */
  lemma KeyStaysTaken(digest: Text -> Hash, reqs: seq<Request>, i: nat, j: nat)
    requires i < j < |reqs| && Answer(digest, reqs, i).NewRun? && reqs[i].key.Some?
    ensures var runs, n := After(digest, reqs[..j]), Answer(digest, reqs, i).execution;
      && n < |runs| && runs[n] == Started(reqs[i].user, reqs[i].key, HashOf(digest, reqs[i]))
      && Find(runs, reqs[i].user, reqs[i].key.value) == Some(n)
  {
    var runs, n := After(digest, reqs[..j]), |After(digest, reqs[..i])|;
    AfterStep(digest, reqs, i);
    RunsStay(digest, reqs, i + 1, j);
    assert runs[n] == Started(reqs[i].user, reqs[i].key, HashOf(digest, reqs[i]));
    AtMostOneRunPerKey(digest, reqs[..j]);
    FoundOnce(runs, reqs[i].user, reqs[i].key.value, n);
  }

  /**
   * Repeating a request is not always answered with its run: an admin who started a run
   * of somebody else's workflow, and is an admin no longer, does not find the workflow.
   */
  lemma RetryMayNotReplay(digest: Text -> Hash, admin: Request)
    requires admin.found && admin.validGraph && admin.key.Some?
    ensures var reqs := [admin, admin.(found := false)];
      && Answer(digest, reqs, 0) == NewRun(0)
      && Answer(digest, reqs, 1) == WorkflowNotFound
  {
    assert [admin, admin.(found := false)][..0] == [];
  }

  /** The digest tells the two request texts apart if they differ. */
  ghost predicate NoCollision(digest: Text -> Hash, r: Request, s: Request) {
    digest(RequestText(r.workflowId, r.input)) == digest(RequestText(s.workflowId, s.input)) ==>
      RequestText(r.workflowId, r.input) == RequestText(s.workflowId, s.input)
  }

  lemma FoundOnce(runs: seq<Started>, user: nat, key: Text, n: nat)
    requires UniqueKeys(runs) && n < |runs| && HasKey(runs[n], user, key)
    ensures Find(runs, user, key) == Some(n)
  {
  }
}
