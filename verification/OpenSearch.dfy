/**
 The search cluster: retrying under pressure, bulk indexing, embedding, and the alias readers
 go through. What the cluster answers is an argument; what a request does to it is modelled.
 */
module OpenSearch {
  import opened Prelude
  import opened Documents

  const MAX_ATTEMPTS: nat := 8
  const EMBED_BATCH_SIZE: nat := 50
  const EMBEDDING_DIMENSIONS: nat := 384

  // Retrying

  /** How one attempt ended: it worked, the cluster shed load, or it failed for good. */
  datatype Attempt = Succeeded | Shed | Broken

  datatype Retried = RetriedOk | GaveUp(last: Attempt) | Cancelled

  /** The sleep after the attempt with `n` before it. */
  function Delay(base: nat, n: nat): nat {
    base * Pow2(n)
  }

  /** All the sleep before the attempt with `n` before it. */
  function TotalSleep(base: nat, n: nat): nat {
    base * (Pow2(n) - 1)
  }

  lemma NoSleepYet(base: nat)
    ensures Delay(base, 0) == base && TotalSleep(base, 0) == 0
  {
  }

  lemma SleptInAll(base: nat, n: nat)
    ensures TotalSleep(base, n) == base * (Pow2(n) - 1)
  {
  }

  lemma Doubling(base: nat, n: nat)
    ensures Delay(base, n + 1) == Delay(base, n) * 2
    ensures TotalSleep(base, n + 1) == TotalSleep(base, n) + Delay(base, n)
  {
    var p := Pow2(n);
    assert base * (2 * p) == base * p * 2;
    assert base * (2 * p - 1) == base * (p - 1) + base * p;
  }

  /** How many attempts run when the `k`th is next. */
  function Tries(outcome: nat -> Attempt, cancelled: nat -> bool, k: nat): (n: nat)
    requires k < MAX_ATTEMPTS
    ensures k < n <= MAX_ATTEMPTS
    decreases MAX_ATTEMPTS - k
  {
    if outcome(k) != Shed || k + 1 == MAX_ATTEMPTS || cancelled(k) then k + 1 else Tries(outcome, cancelled, k + 1)
  }

  function Verdict(outcome: nat -> Attempt, cancelled: nat -> bool): Retried {
    var last := Tries(outcome, cancelled, 0) - 1;
    match outcome(last)
    case Succeeded => RetriedOk
    case Broken => GaveUp(Broken)
    case Shed => if last + 1 == MAX_ATTEMPTS then GaveUp(Shed) else Cancelled
  }

  /** Every attempt before the `n`th was shed, and the caller waited each time. */
  ghost predicate Waited(outcome: nat -> Attempt, cancelled: nat -> bool, n: nat) {
    forall j :: 0 <= j < n ==> outcome(j).Shed? && !cancelled(j)
  }

  /** One of the eight attempts succeeds, and the caller waits for it. */
  ghost predicate GoesThrough(outcome: nat -> Attempt, cancelled: nat -> bool) {
    exists n: nat :: n < 8 && Waited(outcome, cancelled, n) && outcome(n).Succeeded?
  }

  lemma {:induction false} TriesWait(outcome: nat -> Attempt, cancelled: nat -> bool, k: nat)
    requires k < 8 && Waited(outcome, cancelled, k)
    ensures var last := Tries(outcome, cancelled, k) - 1;
            && Waited(outcome, cancelled, last)
            && (outcome(last).Shed? ==> last == 7 || cancelled(last))
    decreases 8 - k
  {
    if outcome(k).Shed? && k + 1 < 8 && !cancelled(k) {
      TriesWait(outcome, cancelled, k + 1);
    }
  }

  /**
   Retrying succeeds exactly when one of eight attempts does, all before it shed and waited out;
   it gives up on the first lasting error, or on the eighth attempt shed, or is cancelled while it waits.
   */
  lemma VerdictsExactly(outcome: nat -> Attempt, cancelled: nat -> bool)
    ensures Verdict(outcome, cancelled).RetriedOk? <==> GoesThrough(outcome, cancelled)
    ensures Verdict(outcome, cancelled) == GaveUp(Broken)
            <==> exists n: nat :: n < 8 && Waited(outcome, cancelled, n) && outcome(n).Broken?
    ensures Verdict(outcome, cancelled) == GaveUp(Shed) <==> Waited(outcome, cancelled, 7) && outcome(7).Shed?
    ensures Verdict(outcome, cancelled).Cancelled?
            <==> exists n: nat :: n < 7 && Waited(outcome, cancelled, n) && outcome(n).Shed? && cancelled(n)
  {
    hide Tries;
    TriesWait(outcome, cancelled, 0);
    var last := Tries(outcome, cancelled, 0) - 1;
    forall n: nat | n < 8 && Waited(outcome, cancelled, n) && (!outcome(n).Shed? || n == 7 || cancelled(n))
      ensures n == last
    {
    }
  }

  /**
   `retryUnderPressure`: at most eight attempts, stopping at the first that does not shed load;
   after each earlier one it sleeps, doubling from `base`, which comes to base * (2^(tries-1) - 1).
   */
  method RetryUnderPressure(outcome: nat -> Attempt, cancelled: nat -> bool, base: nat) returns (tries: nat, slept: nat, result: Retried)
    ensures 1 <= tries <= MAX_ATTEMPTS && tries == Tries(outcome, cancelled, 0)
    ensures result == Verdict(outcome, cancelled)
    ensures forall k :: 0 <= k < tries - 1 ==> outcome(k) == Shed && !cancelled(k)
    ensures result.RetriedOk? <==> outcome(tries - 1).Succeeded?
    ensures slept == base * (Pow2(tries - 1) - 1)
  {
    hide TotalSleep, Delay;
    NoSleepYet(base);
    var delay := base;
    tries, slept := 1, 0;
    while true
      invariant 1 <= tries <= MAX_ATTEMPTS
      invariant Tries(outcome, cancelled, tries - 1) == Tries(outcome, cancelled, 0)
      invariant forall k :: 0 <= k < tries - 1 ==> outcome(k) == Shed && !cancelled(k)
      invariant delay == Delay(base, tries - 1)
      invariant slept == TotalSleep(base, tries - 1)
      decreases MAX_ATTEMPTS - tries
    {
      SleptInAll(base, tries - 1);
      var attempt := outcome(tries - 1);
      if attempt.Succeeded? {
        return tries, slept, RetriedOk;
      }
      if !attempt.Shed? || tries == MAX_ATTEMPTS {
        return tries, slept, GaveUp(attempt);
      }
      if cancelled(tries - 1) {
        return tries, slept, Cancelled;
      }
      Doubling(base, tries - 1);
      slept := slept + delay;
      delay := delay * 2;
      tries := tries + 1;
    }
  }

  // Bulk indexing

  datatype IndexedDoc = IndexedDoc(doc: Doc, embedding: seq<real>)

  type Contents = map<string, IndexedDoc>

  /** The `_bulk` answer: a failed request, an unreadable body, or its error flag and item statuses. */
  datatype BulkReply = RequestFailed(underPressure: bool) | Unreadable | Items(errors: bool, statuses: seq<nat>)

  /** One attempt: the answer, and which items took effect whatever it says. */
  datatype BulkAttempt = BulkAttempt(reply: BulkReply, taken: nat -> bool)

  /** A reply that reports no errors comes from a request all of whose items took effect. */
  ghost predicate Honest(attempt: BulkAttempt, n: nat) {
    attempt.reply.Items? && !attempt.reply.errors ==> forall i :: 0 <= i < n ==> attempt.taken(i)
  }

  function FirstFailure(statuses: seq<nat>): (a: Attempt)
    ensures !a.Succeeded?
  {
    if statuses == [] then Broken
    else if statuses[0] == 429 then Shed
    else if statuses[0] >= 300 then Broken
    else FirstFailure(statuses[1..])
  }

  /** `bulkAttempt`'s reading of the answer. */
  function Classify(reply: BulkReply): Attempt {
    match reply
    case RequestFailed(underPressure) => if underPressure then Shed else Broken
    case Unreadable => Broken
    case Items(errors, statuses) => if errors then FirstFailure(statuses) else Succeeded
  }

  /** The first item refused decides: nothing before it carries a failure status. */
  ghost predicate FirstRefused(statuses: seq<nat>, i: nat) {
    i < |statuses| && statuses[i] >= 300 && forall j :: 0 <= j < i ==> statuses[j] < 300
  }

  lemma {:induction false} FirstFailureIs(statuses: seq<nat>)
    ensures FirstFailure(statuses).Shed? <==> exists i: nat :: FirstRefused(statuses, i) && statuses[i] == 429
  {
    if statuses != [] {
      var rest := statuses[1..];
      FirstFailureIs(rest);
      if statuses[0] >= 300 {
        assert FirstRefused(statuses, 0);
      } else {
        if i: nat :| FirstRefused(statuses, i) && statuses[i] == 429 {
          assert FirstRefused(rest, i - 1);
        }
        if i: nat :| FirstRefused(rest, i) && rest[i] == 429 {
          assert statuses == [statuses[0]] + rest;
          assert FirstRefused(statuses, i + 1);
        }
      }
    }
  }

  /**
   A bulk answer counts as done exactly when it reports no errors, and as load shed, to be retried,
   exactly when the request was refused under pressure or the first item refused was, with a 429.
   */
  lemma RetriedAnswers(reply: BulkReply)
    ensures Classify(reply).Succeeded? <==> reply.Items? && !reply.errors
    ensures Classify(reply).Shed?
            <==> (reply.RequestFailed? && reply.underPressure)
                 || (reply.Items? && reply.errors && exists i: nat :: FirstRefused(reply.statuses, i) && reply.statuses[i] == 429)
  {
    if reply.Items? {
      FirstFailureIs(reply.statuses);
    }
  }

  function Outcomes(cluster: nat -> BulkAttempt): nat -> Attempt {
    (k: nat) => Classify(cluster(k).reply)
  }

  /** `index` overridden by `docs`, each under its product id, later ones winning. */
  function Override(index: Contents, docs: seq<IndexedDoc>): Contents {
    if docs == [] then index
    else Override(index, docs[..|docs| - 1])[docs[|docs| - 1].doc.productId := docs[|docs| - 1]]
  }

  lemma OverrideByNothing(index: Contents, docs: seq<IndexedDoc>)
    requires docs == []
    ensures Override(index, docs) == index
  {
  }

  /** The same where only the items in `taken` took effect. */
  function OverrideSome(index: Contents, docs: seq<IndexedDoc>, taken: nat -> bool): Contents {
    if docs == [] then index
    else
      var n := |docs| - 1;
      var before := OverrideSome(index, docs[..n], taken);
      if taken(n) then before[docs[n].doc.productId := docs[n]] else before
  }

  /** Item `i` takes effect and no later one for the same product does. */
  predicate LastWrite(docs: seq<IndexedDoc>, taken: nat -> bool, i: nat) {
    && i < |docs| && taken(i)
    && forall j :: i < j < |docs| && taken(j) ==> docs[j].doc.productId != docs[i].doc.productId
  }

  /** An item's product holds the last write made to it. */
  lemma {:induction false} LastWriteWins(index: Contents, docs: seq<IndexedDoc>, taken: nat -> bool, i: nat)
    requires LastWrite(docs, taken, i)
    ensures var index' := OverrideSome(index, docs, taken);
            docs[i].doc.productId in index' && index'[docs[i].doc.productId] == docs[i]
  {
    if i < |docs| - 1 {
      LastWriteWins(index, docs[..|docs| - 1], taken, i);
    }
  }

  /** A product nothing was written to stays as it was. */
  lemma {:induction false} UnwrittenStays(index: Contents, docs: seq<IndexedDoc>, taken: nat -> bool, id: string)
    requires forall i :: 0 <= i < |docs| && taken(i) ==> docs[i].doc.productId != id
    ensures var index' := OverrideSome(index, docs, taken);
            (id in index' <==> id in index) && (id in index ==> index'[id] == index[id])
  {
    if docs != [] {
      UnwrittenStays(index, docs[..|docs| - 1], taken, id);
    }
  }

  lemma {:induction false} OverrideIsUnion(index: Contents, docs: seq<IndexedDoc>)
    ensures Override(index, docs) == index + Override(map[], docs)
  {
    if docs != [] {
      OverrideIsUnion(index, docs[..|docs| - 1]);
    }
  }

  lemma {:induction false} OverrideSomeIsUnion(index: Contents, docs: seq<IndexedDoc>, taken: nat -> bool)
    ensures OverrideSome(index, docs, taken) == index + OverrideSome(map[], docs, taken)
    ensures OverrideSome(map[], docs, taken).Keys <= Override(map[], docs).Keys
    ensures (forall i :: 0 <= i < |docs| ==> taken(i)) ==> OverrideSome(index, docs, taken) == Override(index, docs)
  {
    if docs != [] {
      OverrideSomeIsUnion(index, docs[..|docs| - 1], taken);
    }
  }

  /** Replaying a batch over whatever part of it already landed gives what one clean pass gives. */
  lemma ReplayIsHarmless(index: Contents, docs: seq<IndexedDoc>, taken: nat -> bool)
    ensures Override(OverrideSome(index, docs, taken), docs) == Override(index, docs)
  {
    OverrideIsUnion(OverrideSome(index, docs, taken), docs);
    OverrideIsUnion(index, docs);
    OverrideSomeIsUnion(index, docs, taken);
  }

  /** The index after `n` attempts at one batch. */
  function AfterAttempts(index: Contents, docs: seq<IndexedDoc>, cluster: nat -> BulkAttempt, n: nat): Contents {
    if n == 0 then index else OverrideSome(AfterAttempts(index, docs, cluster, n - 1), docs, cluster(n - 1).taken)
  }

  lemma {:induction false} AttemptsAreHarmless(index: Contents, docs: seq<IndexedDoc>, cluster: nat -> BulkAttempt, n: nat)
    ensures Override(AfterAttempts(index, docs, cluster, n), docs) == Override(index, docs)
  {
    if n > 0 {
      AttemptsAreHarmless(index, docs, cluster, n - 1);
      ReplayIsHarmless(AfterAttempts(index, docs, cluster, n - 1), docs, cluster(n - 1).taken);
    }
  }

  /** Whatever the rejected attempts before it applied, a successful one leaves the whole batch applied. */
  lemma SuccessAppliesBatch(index: Contents, docs: seq<IndexedDoc>, cluster: nat -> BulkAttempt, n: nat)
    requires n > 0 && Classify(cluster(n - 1).reply).Succeeded? && Honest(cluster(n - 1), |docs|)
    ensures AfterAttempts(index, docs, cluster, n) == Override(index, docs)
  {
    AttemptsAreHarmless(index, docs, cluster, n - 1);
    OverrideSomeIsUnion(AfterAttempts(index, docs, cluster, n - 1), docs, cluster(n - 1).taken);
  }

  /** Whether `BulkIndex` will succeed, and after how many attempts. */
  function BulkSucceeds(docs: seq<IndexedDoc>, cluster: nat -> BulkAttempt, cancelled: nat -> bool): bool {
    docs == [] || Verdict(Outcomes(cluster), cancelled).RetriedOk?
  }

  /** How many requests it takes. */
  function BulkRequests(docs: seq<IndexedDoc>, cluster: nat -> BulkAttempt, cancelled: nat -> bool): (n: nat)
    ensures docs == [] <==> n == 0
    ensures n <= 8
  {
    if docs == [] then 0 else Tries(Outcomes(cluster), cancelled, 0)
  }

  // The cluster

  datatype ClusterState = ClusterState(indices: map<string, Contents>, alias: set<string>)

  /** What a reader of the alias can see. */
  function Served(c: ClusterState): map<string, Contents> {
    map n | n in c.alias && n in c.indices :: c.indices[n]
  }

  /** `c` differs from `before` at most in the index called `name`, which the alias has gained nothing from. */
  ghost predicate Elsewhere(c: ClusterState, before: ClusterState, name: string) {
    c.indices - {name} == before.indices - {name} && c.alias <= before.alias <= c.alias + {name}
  }

  /** How the read of the alias ends; an error mentioning 404 is taken to mean there is no alias yet. */
  datatype AliasRead = ReadWorks | ReadNotFound | ReadFails

  class Cluster {
    var indices: map<string, Contents>
    var alias: set<string>
    /** Every state the cluster has been in since this client was made. */
    ghost var history: seq<ClusterState>

    constructor (indices: map<string, Contents>, alias: set<string>)
      ensures State() == ClusterState(indices, alias) && history == [State()]
    {
      this.indices := indices;
      this.alias := alias;
      history := [ClusterState(indices, alias)];
    }

    function State(): ClusterState
      reads this
    {
      ClusterState(indices, alias)
    }

    /** One call took the cluster from its old state to the present one. */
    twostate predicate OneStep()
      reads this
    {
      history == old(history) + [State()]
    }

    /** Since the old state only the index `name` changed, and the alias never did. */
    twostate predicate Beside(name: string)
      reads this
    {
      && old(history) <= history
      && alias == old(alias) && indices - {name} == old(indices) - {name} && name in indices
      && forall k :: |old(history)| <= k < |history| ==>
           history[k].alias == old(alias) && history[k].indices - {name} == old(indices) - {name}
    }

    /** DELETE of an index; one that is not there answers index_not_found_exception. */
    method DeleteIndex(name: string, fault: CallFault) returns (ok: bool, found: bool)
      modifies this
      ensures OneStep()
      ensures fault.Fails? ==> State() == old(State()) && !ok
      ensures !fault.Fails? ==> State() == ClusterState(old(indices) - {name}, old(alias) - {name})
      ensures fault.Works? ==> (ok <==> name in old(indices)) && found == ok
      ensures !ok && !found ==> fault.Works?
      ensures fault.LosesReply? ==> !ok
    {
      found := true;
      ok := false;
      if !fault.Fails? {
        if fault.Works? {
          found := name in indices;
          ok := found;
        }
        indices := indices - {name};
        alias := alias - {name};
      }
      history := history + [State()];
    }

    method PutIndex(name: string, fault: CallFault) returns (ok: bool)
      modifies this
      ensures OneStep()
      ensures alias == old(alias)
      ensures fault.Fails? || name in old(indices) ==> State() == old(State()) && !ok
      ensures !fault.Fails? && name !in old(indices) ==> indices == old(indices)[name := map[]] && (ok <==> fault.Works?)
    {
      ok := false;
      if !fault.Fails? && name !in indices {
        indices := indices[name := map[]];
        ok := fault.Works?;
      }
      history := history + [State()];
    }

    /** `CreateVersionedIndex`: whatever bore the name goes first. */
    method CreateVersionedIndex(name: string, delete: CallFault, put: CallFault) returns (ok: bool)
      modifies this
      ensures old(history) < history
      ensures forall k :: |old(history)| <= k < |history| ==> Elsewhere(history[k], old(State()), name)
      ensures history[|history| - 1] == State()
      ensures !delete.Fails? ==> history[|old(history)|] == ClusterState(old(indices) - {name}, old(alias) - {name})
      ensures delete.Fails? ==> !ok && State() == old(State()) && |history| == |old(history)| + 1
      ensures ok ==> name in indices && indices[name] == map[] && alias == old(alias) - {name}
      ensures ok ==> indices - {name} == old(indices) - {name}
      ensures ok <==> delete.Works? && put.Works?
    {
      var deleted, found := DeleteIndex(name, delete);
      if !deleted && found {
        return false;
      }
      ok := PutIndex(name, put);
    }

    /** One `_bulk` request, of which the items in `taken` take effect. */
    method Bulk(name: string, docs: seq<IndexedDoc>, taken: nat -> bool)
      requires name in indices
      modifies this
      ensures Beside(name) && |history| == |old(history)| + 1
      ensures indices[name] == OverrideSome(old(indices)[name], docs, taken)
    {
      hide OverrideSome;
      indices := indices[name := OverrideSome(indices[name], docs, taken)];
      history := history + [State()];
    }

    /** `BulkIndex`: up to eight attempts, each applying what the cluster chooses to. */
    method BulkIndex(name: string, docs: seq<IndexedDoc>, cluster: nat -> BulkAttempt, cancelled: nat -> bool, base: nat)
      returns (ok: bool, ghost attempts: nat)
      requires name in indices
      modifies this
      ensures Beside(name) && |history| == |old(history)| + attempts
      ensures ok <==> BulkSucceeds(docs, cluster, cancelled)
      ensures attempts == BulkRequests(docs, cluster, cancelled) <= MAX_ATTEMPTS
      ensures indices[name] == AfterAttempts(old(indices)[name], docs, cluster, attempts)
      ensures ok && (forall k :: 0 <= k < MAX_ATTEMPTS ==> Honest(cluster(k), |docs|)) ==>
                indices[name] == Override(old(indices)[name], docs)
    {
      hide Tries, Override, OverrideSome, Classify, FirstFailure, Verdict, Honest;
      attempts := 0;
      if |docs| == 0 {
        OverrideByNothing(indices[name], docs);
        return true, 0;
      }
      var tries, slept, result := RetryUnderPressure(Outcomes(cluster), cancelled, base);
      var k := 0;
      while k < tries
        invariant 0 <= k <= tries
        invariant Beside(name) && |history| == |old(history)| + k
        invariant indices[name] == AfterAttempts(old(indices)[name], docs, cluster, k)
      {
        Bulk(name, docs, cluster(k).taken);
        k := k + 1;
      }
      attempts := tries;
      ok := result.RetriedOk?;
      if ok && forall j :: 0 <= j < MAX_ATTEMPTS ==> Honest(cluster(j), |docs|) {
        SuccessAppliesBatch(old(indices)[name], docs, cluster, tries);
      }
    }

    method CountDocuments(name: string) returns (n: nat)
      requires name in indices
      ensures n == |indices[name]|
    {
      n := |indices[name]|;
    }

    /**
     `SwapAlias`: one action adds the new index and removes every other the alias was read to
     name, so the alias moves in one step. It comes to name the new index alone exactly when the
     read was right about the others.
     */
    method SwapAlias(name: string, read: AliasRead, post: CallFault) returns (ok: bool, retired: set<string>)
      modifies this
      ensures indices == old(indices)
      ensures ok <==> !read.ReadFails? && post.Works?
      ensures retired == if ok && read.ReadWorks? then old(alias) - {name} else {}
      ensures var moved := if read.ReadWorks? then {name} else old(alias) + {name};
              alias == if read.ReadFails? || post.Fails? then old(alias) else moved
      ensures if read.ReadFails? || post.Fails? then history == old(history) else OneStep()
    {
      ok, retired := false, {};
      if read.ReadFails? {
        return;
      }
      var current := if read.ReadWorks? then alias else {};
      var others := current - {name};
      if post.Fails? {
        return;
      }
      alias := alias + {name} - others;
      history := history + [State()];
      ok := post.Works?;
      retired := if ok then others else {};
    }
  }

  /** Deleting an index before rebuilding it is invisible exactly when the alias does not serve it. */
  lemma DeleteIsInvisible(c: ClusterState, name: string)
    ensures Served(ClusterState(c.indices - {name}, c.alias - {name})) == Served(c)
            <==> name !in c.alias || name !in c.indices
  {
    var c' := ClusterState(c.indices - {name}, c.alias - {name});
    if name in c.alias && name in c.indices {
      assert name in Served(c) && name !in Served(c');
    }
  }

  // Embedding

  type Vector = seq<real>

  /** What the model answers to one request, after however many attempts. */
  datatype ModelReply = ModelReply(attempts: nat -> Attempt, cancelled: nat -> bool, readable: bool, results: seq<Option<Vector>>)

  /** The request got through and came back whole: a vector of the right size for every text. */
  predicate Usable(reply: ModelReply, n: nat) {
    && Verdict(reply.attempts, reply.cancelled).RetriedOk?
    && reply.readable
    && |reply.results| == n
    && forall i :: 0 <= i < n ==> reply.results[i].Some? && |reply.results[i].value| == EMBEDDING_DIMENSIONS
  }

  /** One of the eight attempts went through, and its answer could be read and is whole. */
  ghost predicate CameBackWhole(reply: ModelReply, n: nat) {
    && GoesThrough(reply.attempts, reply.cancelled) && reply.readable && |reply.results| == n
    && forall i :: 0 <= i < n ==> reply.results[i].Some? && |reply.results[i].value| == 384
  }

  lemma UsableIsWhole(reply: ModelReply, n: nat)
    ensures Usable(reply, n) <==> CameBackWhole(reply, n)
  {
    hide Verdict, GoesThrough;
    VerdictsExactly(reply.attempts, reply.cancelled);
  }

  /** The model computes `predict` in every answer it gives. */
  ghost predicate Computes(model: (nat, seq<string>) -> ModelReply, predict: string -> Vector) {
    forall k, texts, i :: 0 <= i < |texts| && i < |model(k, texts).results| && model(k, texts).results[i].Some? ==>
      model(k, texts).results[i].value == predict(texts[i])
  }

  /** A usable answer holds a vector for each text, and the model's own if it computes `predict`. */
  lemma UsableVectors(model: (nat, seq<string>) -> ModelReply, k: nat, texts: seq<string>, predict: string -> Vector)
    requires Usable(model(k, texts), |texts|)
    ensures var results := model(k, texts).results;
            && |results| == |texts|
            && (forall i :: 0 <= i < |texts| ==> results[i].Some? && |results[i].value| == EMBEDDING_DIMENSIONS)
            && (Computes(model, predict) ==> forall i :: 0 <= i < |texts| ==> results[i].value == predict(texts[i]))
  {
    hide Verdict;
  }

  class Embedder {
    const model: (nat, seq<string>) -> ModelReply
    var requests: seq<seq<string>>

    constructor (model: (nat, seq<string>) -> ModelReply)
      ensures this.model == model && requests == []
    {
      this.model := model;
      requests := [];
    }

    /** Every request from the `from`th on came back whole. */
    ghost predicate AllWhole(from: nat)
      reads this
    {
      forall k :: from <= k < |requests| ==> CameBackWhole(model(k, requests[k]), |requests[k]|)
    }

    /** One request to the model, of at most fifty texts. */
    method Request(texts: seq<string>, ghost predict: string -> Vector) returns (vectors: Option<seq<Vector>>)
      requires 1 <= |texts| <= EMBED_BATCH_SIZE
      modifies this
      ensures requests == old(requests) + [texts]
      ensures vectors.Some? <==> CameBackWhole(model(|old(requests)|, texts), |texts|)
      ensures vectors.Some? ==> |vectors.value| == |texts|
      ensures vectors.Some? ==> forall i :: 0 <= i < |texts| ==> |vectors.value[i]| == EMBEDDING_DIMENSIONS
      ensures vectors.Some? && Computes(model, predict) ==> forall i :: 0 <= i < |texts| ==> vectors.value[i] == predict(texts[i])
    {
      hide Usable, CameBackWhole, Computes;
      var reply := model(|requests|, texts);
      requests := requests + [texts];
      UsableIsWhole(reply, |texts|);
      if !Usable(reply, |texts|) {
        return None;
      }
      UsableVectors(model, |requests| - 1, texts, predict);
      vectors := Some(seq(|texts|, i requires 0 <= i < |texts| => reply.results[i].value));
    }

    /**
     `Embed`: one vector per text, in the order of the texts, from requests of at most fifty
     texts that together carry each text once.
     */
    method Embed(texts: seq<string>, ghost predict: string -> Vector) returns (vectors: Option<seq<Vector>>)
      modifies this
      ensures old(requests) <= requests
      ensures forall k :: |old(requests)| <= k < |requests| ==> 1 <= |requests[k]| <= EMBED_BATCH_SIZE
      ensures vectors.Some? <==> AllWhole(|old(requests)|)
      ensures vectors.Some? ==> |vectors.value| == |texts| && Flatten(requests[|old(requests)|..]) == texts
      ensures vectors.Some? ==> forall i :: 0 <= i < |texts| ==> |vectors.value[i]| == EMBEDDING_DIMENSIONS
      ensures vectors.Some? && Computes(model, predict) ==> forall i :: 0 <= i < |texts| ==> vectors.value[i] == predict(texts[i])
      decreases |texts|
    {
      hide Flatten, CameBackWhole, Computes;
      FlattenNone<string>();
      assert requests[|requests|..] == [];
      if |texts| == 0 {
        return Some([]);
      }
      if |texts| > EMBED_BATCH_SIZE {
        var all: seq<Vector> := [];
        var start := 0;
        while start < |texts|
          invariant 0 <= start <= |texts| && |all| == start
          invariant old(requests) <= requests
          invariant forall k :: |old(requests)| <= k < |requests| ==> 1 <= |requests[k]| <= EMBED_BATCH_SIZE
          invariant AllWhole(|old(requests)|)
          invariant Flatten(requests[|old(requests)|..]) == texts[..start]
          invariant forall i :: 0 <= i < start ==> |all[i]| == EMBEDDING_DIMENSIONS
          invariant Computes(model, predict) ==> forall i :: 0 <= i < start ==> all[i] == predict(texts[i])
        {
          var end := if start + EMBED_BATCH_SIZE < |texts| then start + EMBED_BATCH_SIZE else |texts|;
          ghost var before := requests;
          var group := Embed(texts[start..end], predict);
          if group.None? {
            ghost var bad :| |before| <= bad < |requests| && !CameBackWhole(model(bad, requests[bad]), |requests[bad]|);
            assert !AllWhole(|old(requests)|);
            return None;
          }
          assert requests[|old(requests)|..] == before[|old(requests)|..] + requests[|before|..];
          FlattenAppend(before[|old(requests)|..], requests[|before|..]);
          assert texts[..end] == texts[..start] + texts[start..end];
          all := all + group.value;
          start := end;
        }
        assert texts[..start] == texts;
        return Some(all);
      }
      vectors := Request(texts, predict);
      assert requests[|old(requests)|..] == [texts];
      assert requests[|requests| - 1] == texts;
      FlattenOne(texts);
    }
  }
}
