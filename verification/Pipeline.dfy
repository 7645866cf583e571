/**
 The search half of the ingest run: a new index built beside the live one, counted against
 Postgres, and only then given to readers. What every remote party answers is an argument, so
 each stopping point is one choice of arguments.
 */
module Pipeline {
  import opened Prelude
  import opened Documents
  import opened OpenSearch

  const BULK_BATCH_SIZE: int := 200

  /** What the world outside answers during one run. */
  datatype World = World(
    ready: bool, // the cluster answers, the model is there, the mapping parses
    delete: CallFault,
    put: CallFault,
    counted: Option<seq<DbRow>>, // the joined rows the count query saw
    cursor: Cursor,
    embed: (nat, seq<string>) -> Option<seq<Vector>>,
    bulk: (nat, nat) -> BulkAttempt, // by batch and attempt
    cancelled: (nat, nat) -> bool,
    finalized: bool,
    countAnswered: bool,
    aliasRead: AliasRead,
    aliasPost: CallFault,
    drop: nat -> CallFault)

  function BulkOf(w: World, k: nat): nat -> BulkAttempt {
    (attempt: nat) => w.bulk(k, attempt)
  }

  function CancelledOf(w: World, k: nat): nat -> bool {
    (attempt: nat) => w.cancelled(k, attempt)
  }

  function Texts(batch: seq<Doc>): seq<string> {
    seq(|batch|, i requires 0 <= i < |batch| => batch[i].embeddingSource)
  }

  /** The batch with its vectors; `Embed` gives one per text or fails. */
  function Embedded(w: World, k: nat, batch: seq<Doc>): Option<seq<IndexedDoc>> {
    var vectors := w.embed(k, Texts(batch));
    if vectors.Some? && |vectors.value| == |batch|
    then Some(seq(|batch|, i requires 0 <= i < |batch| => IndexedDoc(batch[i], vectors.value[i])))
    else None
  }

  /** The callback handed to `Stream` fails: no vectors, or a bulk request that does not go through. */
  predicate Refuses(w: World, k: nat, batch: seq<Doc>) {
    var docs := Embedded(w, k, batch);
    docs.None? || !BulkSucceeds(docs.value, BulkOf(w, k), CancelledOf(w, k))
  }

  function Refusal(w: World): (nat, seq<Doc>) -> bool {
    (k: nat, batch: seq<Doc>) => Refuses(w, k, batch)
  }

  /** How many requests the callback makes for a batch; none without its vectors. */
  function RequestsFor(w: World, k: nat, batch: seq<Doc>): (n: nat)
    ensures n <= 8
  {
    var docs := Embedded(w, k, batch);
    if docs.None? then 0 else BulkRequests(docs.value, BulkOf(w, k), CancelledOf(w, k))
  }

  function RequestsForAll(w: World, batches: seq<seq<Doc>>): nat {
    if batches == [] then 0
    else
      var k := |batches| - 1;
      RequestsForAll(w, batches[..k]) + RequestsFor(w, k, batches[k])
  }

  function DocsOf(docs: seq<IndexedDoc>): seq<Doc> {
    seq(|docs|, i requires 0 <= i < |docs| => docs[i].doc)
  }

  /** The documents of one pass over what the cursor yields. */
  ghost function PassOver(cursor: Cursor, indexedAt: string): seq<Doc> {
    if Fetches(cursor.fetches) then RunGroups(RowsFetched(cursor.fetches), indexedAt) else []
  }

  ghost predicate HasId(docs: seq<Doc>, id: string) {
    exists i :: 0 <= i < |docs| && docs[i].productId == id
  }

  /** Exactly these documents, each under its own product id. */
  ghost predicate Complete(contents: Contents, docs: seq<Doc>) {
    && |contents| == |docs|
    && (forall i :: 0 <= i < |docs| ==> docs[i].productId in contents && contents[docs[i].productId].doc == docs[i])
    && (forall id :: id in contents ==> HasId(docs, id))
  }

  /** The embedding calls give each text of every batch its own vector, the one `predict` computes. */
  ghost predicate Predicts(w: World, predict: string -> Vector) {
    forall k, texts :: InTextOrder(w.embed(k, texts), texts, predict)
  }

  ghost predicate InTextOrder(vectors: Option<seq<Vector>>, texts: seq<string>, predict: string -> Vector) {
    vectors.Some? && |vectors.value| == |texts| ==> forall i :: 0 <= i < |texts| ==> vectors.value[i] == predict(texts[i])
  }

  /** Every document is indexed under the vector of its own text. */
  ghost predicate OwnVectors(contents: Contents, predict: string -> Vector) {
    forall id :: id in contents ==> contents[id].embedding == predict(contents[id].doc.embeddingSource)
  }

  /** Every call that is made once is answered, and the cursor reads to its end. */
  ghost predicate Answered(w: World) {
    && w.ready && w.delete.Works? && w.put.Works? && w.counted.Some? && w.finalized && w.countAnswered
    && (forall k: nat :: !CursorStops(w.cursor, k))
    && !w.aliasRead.ReadFails? && w.aliasPost.Works?
  }

  /** Nothing from outside goes wrong: every call goes through in the end, and the count agrees with the cursor. */
  ghost predicate Smooth(w: World) {
    && Answered(w) && (forall n: nat :: w.drop(n).Works?)
    && (forall k, texts :: w.embed(k, texts).Some? && |w.embed(k, texts).value| == |texts|)
    && (forall k: nat :: GoesThrough(Outcomes(BulkOf(w, k)), CancelledOf(w, k)))
    && Fetches(w.cursor.fetches) && ProductIds(w.counted.value) == ProductIds(RowsFetched(w.cursor.fetches))
  }

  lemma SmoothTakes(w: World, k: nat, batch: seq<Doc>)
    requires Smooth(w)
    ensures !Refuses(w, k, batch)
  {
    hide Verdict, GoesThrough, Outcomes;
    VerdictsExactly(Outcomes(BulkOf(w, k)), CancelledOf(w, k));
    assert |Texts(batch)| == |batch|;
    assert w.embed(k, Texts(batch)).Some?;
  }

  /** A reader of the alias sees all it saw before the run, or the complete new index and no other. */
  ghost predicate Whole(c: ClusterState, before: ClusterState, name: string, w: World, indexedAt: string, predict: string -> Vector) {
    || Served(c) == Served(before)
    || (&& Fetches(w.cursor.fetches) && c.alias == {name} && name in c.indices
        && Complete(c.indices[name], PassOver(w.cursor, indexedAt))
        && (Predicts(w, predict) ==> OwnVectors(c.indices[name], predict)))
  }

  /**
   The cursor returns rows grouped by product, a bulk reply without errors means every item took
   effect, and the alias is said to be missing only when it is.
   */
  ghost predicate Trusted(w: World, before: ClusterState) {
    && (Fetches(w.cursor.fetches) ==> Contiguous(RowsFetched(w.cursor.fetches)))
    && (forall k: nat, n: nat, attempt: nat :: Honest(w.bulk(k, attempt), n))
    && (w.aliasRead.ReadNotFound? ==> before.alias == {})
  }

  /** What readers see does not depend on an index the alias does not name. */
  lemma ServedElsewhere(c: ClusterState, before: ClusterState, name: string)
    requires Elsewhere(c, before, name) && name !in before.alias
    ensures Served(c) == Served(before)
  {
    assert c.alias == before.alias;
    forall n | n != name
      ensures n in c.indices <==> n in before.indices
      ensures n in c.indices ==> c.indices[n] == before.indices[n]
    {
      assert n in c.indices <==> n in c.indices - {name};
      assert n in before.indices <==> n in before.indices - {name};
      assert n in c.indices ==> (c.indices - {name})[n] == (before.indices - {name})[n];
    }
  }

  lemma DeletedIsNotWhole(c: ClusterState, before: ClusterState, name: string, w: World, indexedAt: string, predict: string -> Vector)
    requires before.alias <= before.indices.Keys && name in before.alias && name !in c.alias
    ensures !Whole(c, before, name, w, indexedAt, predict)
  {
    assert name in Served(before) && name !in Served(c);
  }

  // Filling the index

  lemma {:induction false} OverrideAppend(index: Contents, docs: seq<IndexedDoc>, more: seq<IndexedDoc>)
    ensures Override(Override(index, docs), more) == Override(index, docs + more)
  {
    if more == [] {
      assert docs + more == docs;
    } else {
      OverrideAppend(index, docs, more[..|more| - 1]);
      assert (docs + more)[..|docs + more| - 1] == docs + more[..|more| - 1];
    }
  }

  ghost predicate DistinctIds(docs: seq<Doc>) {
    forall i, j :: 0 <= i < j < |docs| ==> docs[i].productId != docs[j].productId
  }

  lemma {:induction false} OverrideKeys(docs: seq<IndexedDoc>, id: string)
    ensures id in Override(map[], docs) <==> HasId(DocsOf(docs), id)
  {
    if docs != [] {
      var n := |docs| - 1;
      OverrideKeys(docs[..n], id);
      assert DocsOf(docs) == DocsOf(docs[..n]) + [docs[n].doc];
      assert DocsOf(docs)[n] == docs[n].doc;
      if HasId(DocsOf(docs[..n]), id) {
        var i :| 0 <= i < n && DocsOf(docs[..n])[i].productId == id;
        assert DocsOf(docs)[i].productId == id;
      }
      if HasId(DocsOf(docs), id) && docs[n].doc.productId != id {
        var i :| 0 <= i <= n && DocsOf(docs)[i].productId == id;
        assert DocsOf(docs[..n])[i].productId == id;
      }
    }
  }

  /** Distinct products written over an empty index leave one document each. */
  lemma {:induction false} OverrideDistinct(docs: seq<IndexedDoc>)
    requires DistinctIds(DocsOf(docs))
    ensures |Override(map[], docs)| == |docs|
    ensures forall i :: 0 <= i < |docs| ==> docs[i].doc.productId in Override(map[], docs)
                                            && Override(map[], docs)[docs[i].doc.productId] == docs[i]
  {
    if docs != [] {
      var n := |docs| - 1;
      var front := docs[..n];
      assert forall i :: 0 <= i < n ==> DocsOf(front)[i] == DocsOf(docs)[i];
      OverrideDistinct(front);
      OverrideKeys(front, docs[n].doc.productId);
      assert DocsOf(docs)[n] == docs[n].doc;
      assert forall i :: 0 <= i < n ==> front[i] == docs[i] == IndexedDoc(DocsOf(docs)[i], docs[i].embedding);
    }
  }

  lemma OverrideIsComplete(docs: seq<IndexedDoc>)
    requires DistinctIds(DocsOf(docs))
    ensures Complete(Override(map[], docs), DocsOf(docs))
  {
    hide Override, DistinctIds;
    OverrideDistinct(docs);
    var contents := Override(map[], docs);
    assert forall i :: 0 <= i < |docs| ==> DocsOf(docs)[i] == docs[i].doc;
    forall id | id in contents
      ensures HasId(DocsOf(docs), id)
    {
      OverrideKeys(docs, id);
    }
  }

  function Ids(docs: seq<Doc>): seq<string> {
    seq(|docs|, i requires 0 <= i < |docs| => docs[i].productId)
  }

  lemma ExtendIds(docs: seq<Doc>, row: DbRow, indexedAt: string)
    ensures Ids(Extend(docs, row, indexedAt)) ==
            if docs != [] && docs[|docs| - 1].productId == row.productId then Ids(docs) else Ids(docs) + [row.productId]
  {
    SameProduct(row, indexedAt);
    hide AddOffer, NewDoc;
  }

  /** One pass over grouped rows makes one document per product. */
  lemma {:induction false} PassIds(rows: seq<DbRow>, indexedAt: string)
    requires Contiguous(rows)
    ensures Ids(RunGroups(rows, indexedAt)) == Products(rows)
  {
    hide Extend;
    if rows != [] {
      var n := |rows| - 1;
      PassIds(rows[..n], indexedAt);
      var docs := RunGroups(rows[..n], indexedAt);
      ExtendIds(docs, rows[n], indexedAt);
      if n > 0 {
        LastProduct(rows[..n]);
        assert Ids(docs)[|docs| - 1] == docs[|docs| - 1].productId;
        if rows[n].productId in Products(rows[..n]) {
          StillOpen(rows);
        }
      }
    }
  }

  lemma PassIsDistinct(rows: seq<DbRow>, indexedAt: string)
    requires Contiguous(rows)
    ensures DistinctIds(RunGroups(rows, indexedAt))
  {
    hide RunGroups, Products, Contiguous;
    PassIds(rows, indexedAt);
    ProductsDistinct(rows);
    var docs := RunGroups(rows, indexedAt);
    assert forall i :: 0 <= i < |docs| ==> Ids(docs)[i] == docs[i].productId;
  }

  /** A complete index holds one document per product with a listing, made of exactly its rows. */
  lemma CompleteDescribesCatalog(contents: Contents, rows: seq<DbRow>, indexedAt: string)
    requires Contiguous(rows)
    requires forall i :: 0 <= i < |rows| ==> rows[i].offer.commissionBps >= 0
    requires Complete(contents, RunGroups(rows, indexedAt))
    ensures |contents| == CountProducts(rows)
    ensures forall id :: id in contents <==> id in Products(rows)
    ensures forall id :: id in contents ==> Describes(contents[id].doc, RowsOf(rows, id), indexedAt)
  {
    hide RunGroups, Products, Describes, Contiguous, RowsOf;
    OnePassGroups(rows, indexedAt);
    CountIsProducts(rows);
    var docs := RunGroups(rows, indexedAt);
    forall id
      ensures id in contents <==> id in Products(rows)
      ensures id in contents ==> Describes(contents[id].doc, RowsOf(rows, id), indexedAt)
    {
      if id in Products(rows) {
        var k :| 0 <= k < |docs| && Products(rows)[k] == id;
        assert docs[k].productId == id;
      }
      if id in contents {
        var i :| 0 <= i < |docs| && docs[i].productId == id;
        assert contents[id].doc == docs[i];
      }
    }
  }

  /** All bulk replies without errors are from requests that took effect whole. */
  ghost predicate HonestBulk(w: World) {
    forall k: nat, n: nat, attempt: nat :: Honest(w.bulk(k, attempt), n)
  }

  // Vectors

  ghost predicate OwnVector(d: IndexedDoc, predict: string -> Vector) {
    d.embedding == predict(d.doc.embeddingSource)
  }

  lemma {:induction false} SomeKeepVectors(index: Contents, docs: seq<IndexedDoc>, taken: nat -> bool, predict: string -> Vector)
    requires OwnVectors(index, predict) && forall i :: 0 <= i < |docs| ==> OwnVector(docs[i], predict)
    ensures OwnVectors(OverrideSome(index, docs, taken), predict)
  {
    if docs != [] {
      SomeKeepVectors(index, docs[..|docs| - 1], taken, predict);
      assert OwnVector(docs[|docs| - 1], predict);
    }
  }

  /** Whatever part of a batch lands, and however often, it lands with its own vectors. */
  lemma {:induction false} AttemptsKeepVectors(index: Contents, docs: seq<IndexedDoc>, cluster: nat -> BulkAttempt, n: nat,
                                               predict: string -> Vector)
    requires OwnVectors(index, predict) && forall i :: 0 <= i < |docs| ==> OwnVector(docs[i], predict)
    ensures OwnVectors(AfterAttempts(index, docs, cluster, n), predict)
  {
    hide OwnVectors, OwnVector, OverrideSome;
    if n > 0 {
      AttemptsKeepVectors(index, docs, cluster, n - 1, predict);
      SomeKeepVectors(AfterAttempts(index, docs, cluster, n - 1), docs, cluster(n - 1).taken, predict);
    }
  }

  lemma EmbeddedVectors(w: World, k: nat, batch: seq<Doc>, predict: string -> Vector)
    requires Predicts(w, predict) && Embedded(w, k, batch).Some?
    ensures var docs := Embedded(w, k, batch).value; forall i :: 0 <= i < |docs| ==> OwnVector(docs[i], predict)
  {
    assert InTextOrder(w.embed(k, Texts(batch)), Texts(batch), predict);
  }

  /** What the callback does to the cluster with its `k`th batch. */
  method IndexBatch(w: World, name: string, k: nat, batch: seq<Doc>, cluster: Cluster, base: nat, ghost predict: string -> Vector)
    returns (ghost landed: seq<IndexedDoc>)
    requires name in cluster.indices
    modifies cluster
    ensures cluster.Beside(name) && |cluster.history| == |old(cluster.history)| + RequestsFor(w, k, batch)
    ensures Predicts(w, predict) && OwnVectors(old(cluster.indices)[name], predict) ==> OwnVectors(cluster.indices[name], predict)
    ensures !Refuses(w, k, batch) ==> DocsOf(landed) == batch
    ensures !Refuses(w, k, batch) && HonestBulk(w) ==> cluster.indices[name] == Override(old(cluster.indices)[name], landed)
  {
    hide Override, AfterAttempts, Tries, OwnVectors, OwnVector, Predicts;
    landed := [];
    var docs := Embedded(w, k, batch);
    if docs.Some? {
      landed := docs.value;
      ghost var before := cluster.indices[name];
      var ok, attempts := cluster.BulkIndex(name, docs.value, BulkOf(w, k), CancelledOf(w, k), base);
      if HonestBulk(w) {
        assert forall j :: 0 <= j < MAX_ATTEMPTS ==> Honest(BulkOf(w, k)(j), |landed|);
      }
      if Predicts(w, predict) && OwnVectors(before, predict) {
        EmbeddedVectors(w, k, batch, predict);
        AttemptsKeepVectors(before, docs.value, BulkOf(w, k), attempts, predict);
      }
    }
  }

  /** Index the batches the callback took, then whatever part of the refused one lands. */
  method IndexBatches(w: World, name: string, accepted: seq<seq<Doc>>, refused: Option<seq<Doc>>, cluster: Cluster, base: nat,
                      ghost predict: string -> Vector)
    requires name in cluster.indices && cluster.indices[name] == map[]
    modifies cluster
    ensures cluster.Beside(name)
    ensures |cluster.history| == |old(cluster.history)| + RequestsForAll(w, accepted + if refused.Some? then [refused.value] else [])
    ensures Predicts(w, predict) ==> OwnVectors(cluster.indices[name], predict)
    ensures refused.None? && (forall k :: 0 <= k < |accepted| ==> !Refuses(w, k, accepted[k]))
            && HonestBulk(w) && DistinctIds(Flatten(accepted)) ==>
              Complete(cluster.indices[name], Flatten(accepted))
  {
    hide Override, Flatten, Refuses, DistinctIds, Complete, HonestBulk, Predicts, OwnVectors, RequestsFor;
    NoVectors(predict);
    ghost var all: seq<IndexedDoc> := [];
    ghost var sound := HonestBulk(w) && forall k :: 0 <= k < |accepted| ==> !Refuses(w, k, accepted[k]);
    NothingYet();
    var k := 0;
    while k < |accepted|
      invariant 0 <= k <= |accepted|
      invariant cluster.Beside(name)
      invariant |cluster.history| == |old(cluster.history)| + RequestsForAll(w, accepted[..k])
      invariant Predicts(w, predict) ==> OwnVectors(cluster.indices[name], predict)
      invariant sound ==> cluster.indices[name] == Override(map[], all) && DocsOf(all) == Flatten(accepted[..k])
    {
      ghost var landed := IndexBatch(w, name, k, accepted[k], cluster, base, predict);
      OverrideAppend(map[], all, landed);
      FlattenSnoc(accepted[..k], accepted[k]);
      RequestsSnoc(w, accepted[..k], accepted[k]);
      assert accepted[..k + 1] == accepted[..k] + [accepted[k]];
      assert DocsOf(all + landed) == DocsOf(all) + DocsOf(landed);
      all := all + landed;
      k := k + 1;
    }
    assert accepted[..k] == accepted;
    assert accepted + [] == accepted;
    if refused.Some? {
      RequestsSnoc(w, accepted, refused.value);
      ghost var partly := IndexBatch(w, name, k, refused.value, cluster, base, predict);
    } else if sound && DistinctIds(Flatten(accepted)) {
      OverrideIsComplete(all);
    }
  }

  lemma RequestsSnoc(w: World, batches: seq<seq<Doc>>, batch: seq<Doc>)
    ensures RequestsForAll(w, batches + [batch]) == RequestsForAll(w, batches) + RequestsFor(w, |batches|, batch)
  {
    assert (batches + [batch])[..|batches|] == batches;
  }

  lemma NoVectors(predict: string -> Vector)
    ensures OwnVectors(map[], predict)
  {
  }

  lemma NothingYet()
    ensures Override(map[], []) == map[] && DocsOf([]) == Flatten([]) == []
  {
  }

  // The run

  ghost predicate AllElsewhere(history: seq<ClusterState>, from: nat, before: ClusterState, name: string) {
    forall k :: from <= k < |history| ==> Elsewhere(history[k], before, name)
  }

  ghost predicate AllWhole(history: seq<ClusterState>, from: nat, before: ClusterState, name: string, w: World, indexedAt: string,
                           predict: string -> Vector)
  {
    forall k :: from <= k < |history| ==> Whole(history[k], before, name, w, indexedAt, predict)
  }

  lemma ElsewhereAllWhole(history: seq<ClusterState>, from: nat, before: ClusterState, name: string, w: World, indexedAt: string,
                          predict: string -> Vector)
    requires AllElsewhere(history, from, before, name) && name !in before.alias
    ensures AllWhole(history, from, before, name, w, indexedAt, predict)
  {
    forall k | from <= k < |history|
      ensures Whole(history[k], before, name, w, indexedAt, predict)
    {
      ServedElsewhere(history[k], before, name);
    }
  }

  /** The run so far has deleted nothing. */
  predicate Untouched(w: World) {
    !w.ready || w.delete.Fails?
  }

  /** Everything up to the count check: the new index is built where no reader looks. */
  method BuildIndex(w: World, name: string, cluster: Cluster, indexedAt: string, base: nat, ghost predict: string -> Vector)
    returns (ok: bool, actual: nat)
    modifies cluster
    ensures ok && Predicts(w, predict) ==> name in cluster.indices && OwnVectors(cluster.indices[name], predict)
    ensures old(cluster.history) <= cluster.history
    ensures AllElsewhere(cluster.history, |old(cluster.history)|, old(cluster.State()), name)
    ensures Untouched(w) ==> forall k :: |old(cluster.history)| <= k < |cluster.history| ==> cluster.history[k] == old(cluster.State())
    ensures !Untouched(w) ==> |cluster.history| > |old(cluster.history)| && name !in cluster.history[|old(cluster.history)|].alias
    ensures ok ==> !Untouched(w) && cluster.alias == old(cluster.alias) - {name} && name in cluster.indices
    ensures ok ==> w.counted.Some? && actual == CountProducts(w.counted.value) == |cluster.indices[name]|
    ensures ok ==> cluster.indices - {name} == old(cluster.indices) - {name}
    ensures ok ==> Fetches(w.cursor.fetches) && forall k: nat :: !CursorStops(w.cursor, k)
    ensures ok ==> w.ready && w.delete.Works? && w.put.Works? && w.finalized && w.countAnswered
    ensures ok && Trusted(w, old(cluster.State())) ==> Complete(cluster.indices[name], PassOver(w.cursor, indexedAt))
    ensures Smooth(w) && Trusted(w, old(cluster.State())) ==> ok
  {
    hide RunGroups, Contiguous, Complete, CountProducts, Flatten, Refuses, DistinctIds, Predicts, OwnVectors;
    ok, actual := false, 0;
    if !w.ready {
      return;
    }
    var created := cluster.CreateVersionedIndex(name, w.delete, w.put);
    if !created || w.counted.None? {
      return;
    }
    label Created:
    var expected := CountProducts(w.counted.value);
    var sink := new BatchSink(Refusal(w));
    var indexed, streamed, read := Stream(w.cursor, BULK_BATCH_SIZE, indexedAt, sink);
    IndexBatches(w, name, sink.accepted, sink.refused, cluster, base, predict);
    assert AllElsewhere(cluster.history, |old(cluster.history)|, old(cluster.State()), name);
    if Smooth(w) {
      SmoothStreams(w, sink.accepted, sink.refused, read);
    }
    if !streamed || !w.finalized || !w.countAnswered {
      return;
    }
    actual := cluster.CountDocuments(name);
    ok := actual == expected;
    if Trusted(w, old(cluster.State())) {
      PassIsDistinct(RowsFetched(w.cursor.fetches), indexedAt);
      if Smooth(w) {
        CountsAgree(cluster.indices[name], w, indexedAt);
      }
    }
  }

  lemma SmoothStreams(w: World, accepted: seq<seq<Doc>>, refused: Option<seq<Doc>>, read: nat)
    requires Smooth(w)
    ensures !CursorStops(w.cursor, read)
    ensures refused.Some? ==> !Refuses(w, |accepted|, refused.value)
  {
    hide CursorStops, Refuses;
    if refused.Some? {
      SmoothTakes(w, |accepted|, refused.value);
    }
  }

  /** A complete index has as many documents as the count query expects. */
  lemma CountsAgree(contents: Contents, w: World, indexedAt: string)
    requires Smooth(w) && Contiguous(RowsFetched(w.cursor.fetches)) && Complete(contents, PassOver(w.cursor, indexedAt))
    ensures |contents| == CountProducts(w.counted.value)
  {
    hide CursorStops, GoesThrough, RunGroups, Products, Contiguous, ProductIds;
    var rows := RowsFetched(w.cursor.fetches);
    PassIds(rows, indexedAt);
    CountIsProducts(rows);
  }

  /** The swap, and the clearing away of what it retired. */
  method Promote(w: World, name: string, dropRetired: bool, cluster: Cluster) returns (ok: bool, retired: set<string>)
    requires name in cluster.indices
    modifies cluster
    ensures old(cluster.history) <= cluster.history
    ensures forall k :: |old(cluster.history)| <= k < |cluster.history| ==>
              var c := cluster.history[k];
              && c.alias == (if w.aliasRead.ReadNotFound? then old(cluster.alias) + {name} else {name})
              && name in c.indices && c.indices[name] == old(cluster.indices)[name]
    ensures ok ==> cluster.alias == (if w.aliasRead.ReadNotFound? then old(cluster.alias) + {name} else {name})
    ensures name in cluster.indices && cluster.indices[name] == old(cluster.indices)[name]
    ensures ok ==> retired == (if w.aliasRead.ReadNotFound? then {} else old(cluster.alias) - {name})
    ensures retired <= old(cluster.alias) - {name}
    ensures cluster.indices.Keys <= old(cluster.indices).Keys && old(cluster.indices).Keys - retired <= cluster.indices.Keys
    ensures ok && dropRetired ==> cluster.indices.Keys == old(cluster.indices).Keys - retired
    ensures !dropRetired ==> cluster.indices == old(cluster.indices)
    ensures ok ==> !w.aliasRead.ReadFails? && w.aliasPost.Works?
    ensures !w.aliasRead.ReadFails? && w.aliasPost.Works? && (forall n: nat :: w.drop(n).Works?) ==>
              old(cluster.alias) <= old(cluster.indices).Keys ==> ok
  {
    ok, retired := cluster.SwapAlias(name, w.aliasRead, w.aliasPost);
    if !ok || !dropRetired {
      return;
    }
    var moved := cluster.alias;
    var left, n := retired, 0;
    while left != {}
      invariant left <= retired && ok
      invariant old(cluster.history) <= cluster.history
      invariant forall k :: |old(cluster.history)| <= k < |cluster.history| ==>
                  var c := cluster.history[k];
                  c.alias == moved && name in c.indices && c.indices[name] == old(cluster.indices)[name]
      invariant cluster.alias == moved && name in cluster.indices && cluster.indices[name] == old(cluster.indices)[name]
      invariant cluster.indices.Keys == old(cluster.indices).Keys - (retired - left)
      decreases left
    {
      var index :| index in left;
      var dropped, found := cluster.DeleteIndex(index, w.drop(n));
      assert cluster.alias == moved;
      if !dropped {
        ok := false;
        return;
      }
      left, n := left - {index}, n + 1;
    }
  }

  /**
   `Pipeline.Run` from the new index on. Under trusted answers every state readers pass through is
   whole, exactly when the name was not being served or the run stops before deleting it.
   */
  method RebuildIndex(w: World, version: string, dropRetired: bool, cluster: Cluster, indexedAt: string, base: nat,
                      ghost predict: string -> Vector)
    returns (ok: bool, documents: nat, retired: set<string>)
    requires cluster.alias <= cluster.indices.Keys
    modifies cluster
    ensures old(cluster.history) <= cluster.history
    ensures Trusted(w, old(cluster.State())) ==>
              ("products_v" + version !in old(cluster.alias) || Untouched(w) <==>
               AllWhole(cluster.history, |old(cluster.history)|, old(cluster.State()), "products_v" + version, w, indexedAt, predict))
    ensures ok ==> "products_v" + version in cluster.indices && w.counted.Some? && Fetches(w.cursor.fetches)
    ensures ok ==> documents == |cluster.indices["products_v" + version]| == CountProducts(w.counted.value)
    ensures ok && Trusted(w, old(cluster.State())) ==> cluster.alias == {"products_v" + version}
    ensures ok && Trusted(w, old(cluster.State())) ==> retired == old(cluster.alias) - {"products_v" + version}
    ensures ok && Trusted(w, old(cluster.State())) ==> Complete(cluster.indices["products_v" + version], PassOver(w.cursor, indexedAt))
    ensures ok && Predicts(w, predict) ==> OwnVectors(cluster.indices["products_v" + version], predict)
    ensures ok ==> Answered(w)
    ensures Smooth(w) && Trusted(w, old(cluster.State())) ==> ok
    ensures "products_v" + version !in retired && retired <= old(cluster.alias)
    ensures ok && dropRetired ==> cluster.indices.Keys !! retired
  {
    hide Complete, CountProducts, RunGroups, Predicts, OwnVectors;
    var name := "products_v" + version;
    ghost var before, from := old(cluster.State()), |old(cluster.history)|;
    ok, documents, retired := false, 0, {};
    var built, actual := BuildIndex(w, name, cluster, indexedAt, base, predict);
    if name !in before.alias {
      ElsewhereAllWhole(cluster.history, from, before, name, w, indexedAt, predict);
    } else if !Untouched(w) {
      DeletedIsNotWhole(cluster.history[from], before, name, w, indexedAt, predict);
    }
    if !built {
      return;
    }
    documents := actual;
    assert forall n :: n in cluster.alias ==> n in old(cluster.indices) - {name};
    ok, retired := Promote(w, name, dropRetired, cluster);
  }
}
