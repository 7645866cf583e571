/** Assembling product documents from ordered rows in one pass, and handing them on in batches. */
module Documents {
  import opened Prelude

  datatype Offer = Offer(
    listingId: string,
    merchantId: string,
    listingTitle: string,
    priceCents: int,
    inStock: bool,
    commissionBps: int,
    deepLinkUrl: string)

  /** One row of products JOIN listings; `attributes` is None when the column does not parse. */
  datatype DbRow = DbRow(
    productId: string,
    canonicalTitle: string,
    description: string,
    brand: string,
    categoryId: string,
    attributes: Option<map<string, string>>,
    offer: Offer)

  datatype Doc = Doc(
    productId: string,
    canonicalTitle: string,
    description: string,
    brand: string,
    categoryId: string,
    attributes: map<string, string>,
    embeddingSource: string,
    offerCount: int,
    minPriceCents: int,
    maxPriceCents: int,
    maxCommissionBps: int,
    inStockAnywhere: bool,
    merchantIds: seq<string>,
    offers: seq<Offer>,
    indexedAt: string)

  /** What the cursor yields, and whether iterating it ends in an error. */
  datatype Fetch = Fetched(row: DbRow) | ScanFailed

  datatype Cursor = Cursor(fetches: seq<Fetch>, endFails: bool)

  // One document

  function NewDoc(row: DbRow, indexedAt: string): Doc {
    Doc(row.productId, row.canonicalTitle, row.description, row.brand, row.categoryId,
        if row.attributes.Some? then row.attributes.value else map[],
        row.canonicalTitle + ". " + row.brand + ". " + row.description,
        0, row.offer.priceCents, row.offer.priceCents, 0, false, [], [], indexedAt)
  }

  function AddOffer(d: Doc, o: Offer): Doc {
    d.(offers := d.offers + [o],
       offerCount := d.offerCount + 1,
       merchantIds := d.merchantIds + [o.merchantId],
       minPriceCents := if o.priceCents < d.minPriceCents then o.priceCents else d.minPriceCents,
       maxPriceCents := if o.priceCents > d.maxPriceCents then o.priceCents else d.maxPriceCents,
       maxCommissionBps := if o.commissionBps > d.maxCommissionBps then o.commissionBps else d.maxCommissionBps,
       inStockAnywhere := d.inStockAnywhere || o.inStock)
  }

  lemma SameProduct(row: DbRow, indexedAt: string)
    ensures NewDoc(row, indexedAt).productId == row.productId
    ensures forall d: Doc :: AddOffer(d, row.offer).productId == d.productId
  {
  }

  /** One more row: it joins the last document, or opens a new one when the product changes. */
  function Extend(docs: seq<Doc>, row: DbRow, indexedAt: string): seq<Doc> {
    if docs != [] && docs[|docs| - 1].productId == row.productId
    then docs[..|docs| - 1] + [AddOffer(docs[|docs| - 1], row.offer)]
    else docs + [AddOffer(NewDoc(row, indexedAt), row.offer)]
  }

  /** The documents one pass builds. */
  function RunGroups(rows: seq<DbRow>, indexedAt: string): seq<Doc> {
    if rows == [] then [] else Extend(RunGroups(rows[..|rows| - 1], indexedAt), rows[|rows| - 1], indexedAt)
  }

  lemma RunGroupsSnoc(rows: seq<DbRow>, row: DbRow, indexedAt: string)
    ensures RunGroups(rows + [row], indexedAt) == Extend(RunGroups(rows, indexedAt), row, indexedAt)
  {
    assert (rows + [row])[..|rows|] == rows;
  }

  // Group by, independently of any pass

  /** The distinct products in order of first appearance. */
  function Products(rows: seq<DbRow>): seq<string> {
    if rows == [] then []
    else
      var ids := Products(rows[..|rows| - 1]);
      if rows[|rows| - 1].productId in ids then ids else ids + [rows[|rows| - 1].productId]
  }

  function OfProduct(id: string): DbRow -> bool {
    (row: DbRow) => row.productId == id
  }

  function RowsOf(rows: seq<DbRow>, id: string): seq<DbRow> {
    Filter(rows, OfProduct(id))
  }

  function Offers(rows: seq<DbRow>): seq<Offer> {
    seq(|rows|, i requires 0 <= i < |rows| => rows[i].offer)
  }

  function MerchantIds(offers: seq<Offer>): seq<string> {
    seq(|offers|, i requires 0 <= i < |offers| => offers[i].merchantId)
  }

  /** The roll-ups over a document's offers are what their names say. */
  ghost predicate RollsUp(d: Doc) {
    && d.offers != []
    && d.offerCount == |d.offers|
    && d.merchantIds == MerchantIds(d.offers)
    && (forall o :: o in d.offers ==> d.minPriceCents <= o.priceCents <= d.maxPriceCents)
    && (exists o :: o in d.offers && o.priceCents == d.minPriceCents)
    && (exists o :: o in d.offers && o.priceCents == d.maxPriceCents)
    && (forall o :: o in d.offers ==> o.commissionBps <= d.maxCommissionBps)
    && (d.maxCommissionBps == 0 || exists o :: o in d.offers && o.commissionBps == d.maxCommissionBps)
    && (d.inStockAnywhere <==> exists o :: o in d.offers && o.inStock)
  }

  /** `d` is the document of exactly these rows. */
  ghost predicate Describes(d: Doc, rows: seq<DbRow>, indexedAt: string) {
    && rows != []
    && var first := NewDoc(rows[0], indexedAt);
    && d.productId == first.productId && d.canonicalTitle == first.canonicalTitle && d.description == first.description
    && d.brand == first.brand && d.categoryId == first.categoryId && d.attributes == first.attributes
    && d.embeddingSource == first.embeddingSource && d.indexedAt == indexedAt
    && d.offers == Offers(rows)
    && RollsUp(d)
  }

  /** Rows of one product stand together. */
  ghost predicate Contiguous(rows: seq<DbRow>) {
    forall i, j, k :: 0 <= i < j < k < |rows| && rows[i].productId == rows[k].productId ==> rows[j].productId == rows[i].productId
  }

  /** `ORDER BY product_id`, under whatever total order the collation defines. */
  lemma SortedIsContiguous(rows: seq<DbRow>, le: (string, string) -> bool)
    requires forall i, j :: 0 <= i < j < |rows| ==> le(rows[i].productId, rows[j].productId)
    requires forall x, y :: le(x, y) && le(y, x) ==> x == y
    ensures Contiguous(rows)
  {
  }

  lemma FirstOffer(row: DbRow, indexedAt: string)
    ensures row.offer.commissionBps >= 0 ==> Describes(AddOffer(NewDoc(row, indexedAt), row.offer), [row], indexedAt)
  {
    var d := AddOffer(NewDoc(row, indexedAt), row.offer);
    assert d.offers == [row.offer] == Offers([row]);
    assert row.offer in d.offers;
  }

  lemma NextOffer(d: Doc, rows: seq<DbRow>, row: DbRow, indexedAt: string)
    requires Describes(d, rows, indexedAt)
    ensures Describes(AddOffer(d, row.offer), rows + [row], indexedAt)
  {
    var d' := AddOffer(d, row.offer);
    assert d'.offers == Offers(rows + [row]);
    assert row.offer in d'.offers;
    assert forall o :: o in d.offers ==> o in d'.offers;
    assert forall o :: o in d'.offers ==> o in d.offers || o == row.offer;
  }

  ghost predicate Occurs(rows: seq<DbRow>, id: string) {
    exists i :: 0 <= i < |rows| && rows[i].productId == id
  }

  lemma {:induction false} ProductsOccur(rows: seq<DbRow>, id: string)
    ensures id in Products(rows) <==> Occurs(rows, id)
  {
    if rows != [] {
      var front, row := rows[..|rows| - 1], rows[|rows| - 1];
      ProductsOccur(front, id);
      assert rows == front + [row];
      if Occurs(front, id) {
        var i :| 0 <= i < |front| && front[i].productId == id;
        assert rows[i].productId == id;
      }
      if row.productId == id {
        assert rows[|rows| - 1].productId == id;
      }
      if Occurs(rows, id) && row.productId != id {
        var i :| 0 <= i < |rows| && rows[i].productId == id;
        assert front[i].productId == id;
      }
    }
  }

  /** In contiguous rows only the last row's product is still open. */
  lemma {:induction false} LastProduct(rows: seq<DbRow>)
    requires rows != [] && Contiguous(rows)
    ensures var ids := Products(rows); ids != [] && ids[|ids| - 1] == rows[|rows| - 1].productId
  {
    var n := |rows| - 1;
    var front := rows[..n];
    if front != [] {
      LastProduct(front);
      if rows[n].productId in Products(front) {
        StillOpen(rows);
      }
    }
  }

  /** A product seen before can only come next if it is the last one seen. */
  lemma StillOpen(rows: seq<DbRow>)
    requires |rows| > 1 && Contiguous(rows)
    requires rows[|rows| - 1].productId in Products(rows[..|rows| - 1])
    ensures rows[|rows| - 2].productId == rows[|rows| - 1].productId
  {
    var n := |rows| - 1;
    var front := rows[..n];
    ProductsOccur(front, rows[n].productId);
    var i :| 0 <= i < |front| && front[i].productId == rows[n].productId;
    assert rows[i].productId == rows[n].productId;
    assert i < n - 1 ==> rows[n - 1].productId == rows[i].productId;
  }

  ghost predicate GroupedBy(docs: seq<Doc>, rows: seq<DbRow>, indexedAt: string) {
    && |docs| == |Products(rows)|
    && forall k :: 0 <= k < |docs| ==>
         docs[k].productId == Products(rows)[k] && Describes(docs[k], RowsOf(rows, Products(rows)[k]), indexedAt)
  }

  lemma {:induction false} ProductsDistinct(rows: seq<DbRow>)
    ensures forall i, j :: 0 <= i < j < |Products(rows)| ==> Products(rows)[i] != Products(rows)[j]
  {
    if rows != [] {
      ProductsDistinct(rows[..|rows| - 1]);
    }
  }

  lemma ContiguousFront(rows: seq<DbRow>)
    requires rows != [] && Contiguous(rows)
    ensures Contiguous(rows[..|rows| - 1])
  {
    var front := rows[..|rows| - 1];
    forall i, j, k | 0 <= i < j < k < |front| && front[i].productId == front[k].productId
      ensures front[j].productId == front[i].productId
    {
      assert rows[i].productId == rows[k].productId;
    }
  }

  lemma OneRowGroups(row: DbRow, indexedAt: string)
    requires row.offer.commissionBps >= 0
    ensures GroupedBy(RunGroups([row], indexedAt), [row], indexedAt)
  {
    var id := row.productId;
    FirstOffer(row, indexedAt);
    SameProduct(row, indexedAt);
    assert [row] == [] + [row];
    RunGroupsSnoc([], row, indexedAt);
    FilterSnoc([], row, OfProduct(id));
    hide Describes, NewDoc, AddOffer;
    assert RunGroups([row], indexedAt) == [AddOffer(NewDoc(row, indexedAt), row.offer)];
    assert Products([row]) == [id];
    assert RowsOf([row], id) == [row];
  }

  /**
   One pass over contiguous rows is a group-by: one document per distinct product, in order,
   each describing exactly its rows.
   */
  lemma {:induction false} OnePassGroups(rows: seq<DbRow>, indexedAt: string)
    requires Contiguous(rows)
    requires forall i :: 0 <= i < |rows| ==> rows[i].offer.commissionBps >= 0
    ensures GroupedBy(RunGroups(rows, indexedAt), rows, indexedAt)
  {
    hide GroupedBy, RunGroups, Products, Contiguous;
    if rows == [] {
      NoGroups(indexedAt);
    } else {
      var n := |rows| - 1;
      var front, row := rows[..n], rows[n];
      assert rows == front + [row];
      ContiguousFront(rows);
      OnePassGroups(front, indexedAt);
      if front == [] {
        OneRowGroups(row, indexedAt);
        assert rows == [row];
      } else {
        LastProduct(front);
        if row.productId in Products(front) {
          StillOpen(rows);
        }
        ExtendGroups(front, row, indexedAt);
      }
    }
  }

  lemma NoGroups(indexedAt: string)
    ensures GroupedBy(RunGroups([], indexedAt), [], indexedAt)
  {
  }

  lemma RowsOfSnoc(rows: seq<DbRow>, row: DbRow, id: string)
    ensures RowsOf(rows + [row], id) == if row.productId == id then RowsOf(rows, id) + [row] else RowsOf(rows, id)
  {
    FilterSnoc(rows, row, OfProduct(id));
  }

  lemma NoRowsOf(rows: seq<DbRow>, id: string)
    requires id !in Products(rows)
    ensures RowsOf(rows, id) == []
  {
    ProductsOccur(rows, id);
    FilterNone(rows, OfProduct(id));
  }

  lemma ProductsSnoc(rows: seq<DbRow>, row: DbRow)
    ensures Products(rows + [row]) == if row.productId in Products(rows) then Products(rows) else Products(rows) + [row.productId]
  {
    assert (rows + [row])[..|rows|] == rows;
  }

  /** The next row either extends the last group or opens a new one; the others keep their rows. */
  lemma ExtendGroups(front: seq<DbRow>, row: DbRow, indexedAt: string)
    requires front != [] && GroupedBy(RunGroups(front, indexedAt), front, indexedAt)
    requires var ids := Products(front); ids != [] && ids[|ids| - 1] == front[|front| - 1].productId
    requires row.productId in Products(front) ==> row.productId == front[|front| - 1].productId
    requires row.offer.commissionBps >= 0
    ensures GroupedBy(RunGroups(front + [row], indexedAt), front + [row], indexedAt)
  {
    hide Describes, NewDoc, AddOffer, RowsOf, RunGroups, Products;
    SameProduct(row, indexedAt);
    RunGroupsSnoc(front, row, indexedAt);
    ProductsSnoc(front, row);
    ProductsDistinct(front);
    var docs, ids := RunGroups(front, indexedAt), Products(front);
    var docs', ids' := RunGroups(front + [row], indexedAt), Products(front + [row]);
    var last := |ids| - 1;
    if row.productId == ids[last] {
      NextOffer(docs[last], RowsOf(front, ids[last]), row, indexedAt);
    } else {
      NoRowsOf(front, row.productId);
      FirstOffer(row, indexedAt);
      assert [] + [row] == [row];
    }
    forall k | 0 <= k < |docs'|
      ensures docs'[k].productId == ids'[k] && Describes(docs'[k], RowsOf(front + [row], ids'[k]), indexedAt)
    {
      RowsOfSnoc(front, row, ids'[k]);
    }
  }

  // Batches

  /** Where batches go: the callback's verdict on each, and a copy of those it took. */
  class BatchSink {
    const refuses: (nat, seq<Doc>) -> bool
    var accepted: seq<seq<Doc>>
    var refused: Option<seq<Doc>>

    constructor (refuses: (nat, seq<Doc>) -> bool)
      ensures this.refuses == refuses && accepted == [] && refused.None?
    {
      this.refuses := refuses;
      accepted, refused := [], None;
    }

    method Emit(batch: seq<Doc>) returns (ok: bool)
      modifies this
      ensures ok <==> !refuses(|old(accepted)|, batch)
      ensures accepted == if ok then old(accepted) + [batch] else old(accepted)
      ensures refused == if ok then old(refused) else Some(batch)
    {
      ok := !refuses(|accepted|, batch);
      if ok {
        accepted := accepted + [batch];
      } else {
        refused := Some(batch);
      }
    }

    /** The callback turned down the batch after the accepted ones. */
    ghost predicate Refused()
      reads this
    {
      refused.Some? && refuses(|accepted|, refused.value)
    }

    ghost predicate AllTaken()
      reads this
    {
      refused.None? && forall i :: 0 <= i < |accepted| ==> !refuses(i, accepted[i])
    }
  }

  function Max1(n: int): nat {
    if n < 1 then 1 else n
  }

  /** The state the row loop and its two closures share. */
  class Assembler {
    const sink: BatchSink
    const batchSize: int
    var batch: seq<Doc>
    var current: Option<Doc>
    var emitted: nat

    constructor (sink: BatchSink, batchSize: int)
      requires sink.accepted == [] && sink.refused.None?
      ensures this.sink == sink && this.batchSize == batchSize && Closed() == [] && current.None? && Valid()
    {
      this.sink := sink;
      this.batchSize := batchSize;
      batch, current, emitted := [], None, 0;
    }

    /** Every sent batch is full, and `emitted` counts what they hold. */
    ghost predicate Valid()
      reads this, sink
    {
      && sink.AllTaken()
      && |batch| < Max1(batchSize)
      && emitted == |Flatten(sink.accepted)|
      && forall i :: 0 <= i < |sink.accepted| ==> |sink.accepted[i]| == Max1(batchSize)
    }

    /** The finished documents, sent or waiting. */
    ghost function Closed(): seq<Doc>
      reads this, sink
    {
      Flatten(sink.accepted) + batch
    }

    ghost function Docs(): seq<Doc>
      reads this, sink
    {
      if current.None? then Closed() else Closed() + [current.value]
    }

    method Flush() returns (ok: bool)
      requires emitted == |Flatten(sink.accepted)| && sink.AllTaken()
      modifies this`batch, this`emitted, sink
      ensures emitted == |Flatten(sink.accepted)|
      ensures ok ==> sink.AllTaken()
      ensures ok ==> batch == [] && Closed() == old(Closed())
                     && sink.accepted == if old(batch) == [] then old(sink.accepted) else old(sink.accepted) + [old(batch)]
      ensures !ok ==> batch == old(batch) && sink.accepted == old(sink.accepted) && sink.Refused()
    {
      if |batch| == 0 {
        return true;
      }
      ok := sink.Emit(batch);
      if ok {
        FlattenSnoc(old(sink.accepted), batch);
        emitted := emitted + |batch|;
        batch := [];
      }
    }

    method Take(row: DbRow, indexedAt: string) returns (ok: bool)
      requires Valid() && (current.None? ==> Closed() == [])
      modifies this, sink
      ensures emitted == |Flatten(sink.accepted)|
      ensures forall i :: 0 <= i < |sink.accepted| ==> |sink.accepted[i]| == Max1(batchSize)
      ensures ok ==> Valid() && current.Some? && Docs() == Extend(old(Docs()), row, indexedAt)
      ensures ok ==> current.value.productId == row.productId
      ensures ok ==> row.attributes.Some? || (old(current).Some? && old(current).value.productId == row.productId)
      ensures !ok ==> Flatten(sink.accepted) <= old(Docs())
      ensures !ok ==> sink.Refused()
                      || (row.attributes.None? && (old(current).None? || old(current).value.productId != row.productId))
    {
      SameProduct(row, indexedAt);
      hide AddOffer, NewDoc;
      if current.None? || current.value.productId != row.productId {
        ok := CloseCurrent();
        if !ok {
          return;
        }
        if row.attributes.None? {
          return false;
        }
        current := Some(NewDoc(row, indexedAt));
      }
      current := Some(AddOffer(current.value, row.offer));
      ok := true;
    }

    method CloseCurrent() returns (ok: bool)
      requires Valid()
      modifies this, sink
      ensures emitted == |Flatten(sink.accepted)|
      ensures forall i :: 0 <= i < |sink.accepted| ==> |sink.accepted[i]| == Max1(batchSize)
      ensures Closed() == old(Docs()) && current.None?
      ensures ok ==> Valid()
      ensures !ok ==> sink.Refused()
    {
      if current.None? {
        return true;
      }
      batch := batch + [current.value];
      current := None;
      assert Closed() == old(Docs());
      if |batch| >= batchSize {
        ok := Flush();
        return;
      }
      ok := true;
    }
  }

  ghost predicate Fetches(fetches: seq<Fetch>) {
    forall i :: 0 <= i < |fetches| ==> fetches[i].Fetched?
  }

  function RowsFetched(fetches: seq<Fetch>): (rows: seq<DbRow>)
    requires Fetches(fetches)
    ensures |rows| == |fetches|
  {
    seq(|fetches|, i requires 0 <= i < |fetches| => fetches[i].row)
  }

  /** The first `k` fetches all yield rows. */
  ghost predicate Reads(fetches: seq<Fetch>, k: nat) {
    k <= |fetches| && forall i :: 0 <= i < k ==> fetches[i].Fetched?
  }

  /** The documents of a pass over the first `k` fetches. */
  ghost function Pass(fetches: seq<Fetch>, k: nat, indexedAt: string): seq<Doc>
    requires Reads(fetches, k)
  {
    RunGroups(RowsFetched(fetches[..k]), indexedAt)
  }

  /** The documents sent so far are the first ones of the pass over the first `k` rows. */
  ghost predicate SentPrefix(sent: seq<Doc>, fetches: seq<Fetch>, k: nat, indexedAt: string) {
    Reads(fetches, k) && sent <= Pass(fetches, k, indexedAt)
  }

  /** The cursor stops the pass at `k`: a row that does not scan, a group whose attributes do not parse, or its end. */
  ghost predicate CursorStops(cursor: Cursor, k: nat) {
    || (k == |cursor.fetches| && cursor.endFails)
    || (k < |cursor.fetches| && cursor.fetches[k].ScanFailed?)
    || (Reads(cursor.fetches, k + 1) && cursor.fetches[k].row.attributes.None?
        && (k == 0 || cursor.fetches[k - 1].row.productId != cursor.fetches[k].row.productId))
  }

  lemma NothingRead(fetches: seq<Fetch>, indexedAt: string)
    ensures Pass(fetches, 0, indexedAt) == []
  {
  }

  lemma NextFetch(fetches: seq<Fetch>, i: nat, indexedAt: string)
    requires Reads(fetches, i) && i < |fetches| && fetches[i].Fetched?
    ensures Reads(fetches, i + 1)
    ensures Pass(fetches, i + 1, indexedAt) == Extend(Pass(fetches, i, indexedAt), fetches[i].row, indexedAt)
  {
    hide Extend, RunGroups;
    assert fetches[..i + 1] == fetches[..i] + [fetches[i]];
    assert RowsFetched(fetches[..i + 1]) == RowsFetched(fetches[..i]) + [fetches[i].row];
    RunGroupsSnoc(RowsFetched(fetches[..i]), fetches[i].row, indexedAt);
  }

  lemma AllRead(fetches: seq<Fetch>, indexedAt: string)
    requires Reads(fetches, |fetches|)
    ensures Fetches(fetches) && Pass(fetches, |fetches|, indexedAt) == RunGroups(RowsFetched(fetches), indexedAt)
  {
    hide RunGroups;
    assert fetches[..|fetches|] == fetches;
  }

  /**
   `Stream`: on success the batches sent hold exactly the documents of the pass, all of them
   full but perhaps the last; on failure they hold its first documents and the cursor or the
   sink is to blame; and the count returned is always the documents in the batches sent.
   */
  method Stream(cursor: Cursor, batchSize: int, indexedAt: string, sink: BatchSink) returns (emitted: nat, ok: bool, ghost read: nat)
    requires sink.accepted == [] && sink.refused.None?
    modifies sink
    ensures emitted == |Flatten(sink.accepted)|
    ensures forall i :: 0 <= i < |sink.accepted| ==>
              1 <= |sink.accepted[i]| <= Max1(batchSize) && (i < |sink.accepted| - 1 ==> |sink.accepted[i]| == Max1(batchSize))
    ensures ok ==> sink.AllTaken() && forall k: nat :: !CursorStops(cursor, k)
    ensures ok ==> Fetches(cursor.fetches) && Flatten(sink.accepted) == RunGroups(RowsFetched(cursor.fetches), indexedAt)
    ensures SentPrefix(Flatten(sink.accepted), cursor.fetches, read, indexedAt)
    ensures !ok ==> CursorStops(cursor, read) || sink.Refused()
  {
    hide Extend, RunGroups, Pass, Flatten;
    var a := new Assembler(sink, batchSize);
    var i: nat := 0;
    read := 0;
    NothingRead(cursor.fetches, indexedAt);
    while i < |cursor.fetches|
      invariant Reads(cursor.fetches, i)
      invariant a.Valid() && a.Docs() == Pass(cursor.fetches, i, indexedAt)
      invariant i > 0 <==> a.current.Some?
      invariant i > 0 ==> a.current.value.productId == cursor.fetches[i - 1].row.productId
      invariant forall k: nat :: k < i ==> !CursorStops(cursor, k)
    {
      read := i;
      if cursor.fetches[i].ScanFailed? {
        return a.emitted, false, read;
      }
      var row := cursor.fetches[i].row;
      NextFetch(cursor.fetches, i, indexedAt);
      var taken := a.Take(row, indexedAt);
      if !taken {
        return a.emitted, false, read;
      }
      i := i + 1;
    }
    read := i;
    AllRead(cursor.fetches, indexedAt);
    if cursor.endFails {
      return a.emitted, false, read;
    }
    var closed := a.CloseCurrent();
    if !closed {
      return a.emitted, false, read;
    }
    // The count is read after the last flush.
    ok := a.Flush();
    emitted := a.emitted;
  }

  function ProductIds(rows: seq<DbRow>): set<string> {
    set i | 0 <= i < |rows| :: rows[i].productId
  }

  /** `CountProducts`: the distinct products with a listing. */
  function CountProducts(rows: seq<DbRow>): nat {
    |ProductIds(rows)|
  }

  lemma ProductIdsSnoc(rows: seq<DbRow>, row: DbRow)
    ensures ProductIds(rows + [row]) == ProductIds(rows) + {row.productId}
  {
    var all := rows + [row];
    forall id
      ensures id in ProductIds(all) <==> id in ProductIds(rows) || id == row.productId
    {
      if id in ProductIds(rows) {
        var i :| 0 <= i < |rows| && rows[i].productId == id;
        assert all[i].productId == id;
      }
      if id == row.productId {
        assert all[|rows|].productId == id;
      }
    }
  }

  lemma {:induction false} CountIsProducts(rows: seq<DbRow>)
    ensures CountProducts(rows) == |Products(rows)|
    ensures forall id :: id in Products(rows) <==> id in ProductIds(rows)
  {
    if rows != [] {
      var front, row := rows[..|rows| - 1], rows[|rows| - 1];
      assert rows == front + [row];
      CountIsProducts(front);
      ProductIdsSnoc(front, row);
      ProductsSnoc(front, row);
      hide ProductIds, Products;
    }
  }

  /** A successful pass over contiguous rows makes as many documents as CountProducts expects. */
  lemma StreamMeetsCount(rows: seq<DbRow>, indexedAt: string)
    requires Contiguous(rows)
    requires forall i :: 0 <= i < |rows| ==> rows[i].offer.commissionBps >= 0
    ensures |RunGroups(rows, indexedAt)| == CountProducts(rows)
  {
    OnePassGroups(rows, indexedAt);
    CountIsProducts(rows);
  }
}
