/**
 The whole ingest run: the catalog loaded and swapped in Postgres, then the search index rebuilt
 from it. What the index holds is tied here to the catalog the load made live.
 */
module Ingest {
  import opened Prelude
  import opened Documents
  import opened OpenSearch
  import opened Pipeline
  import P = Postgres

  datatype Product = Product(
    canonicalTitle: string,
    description: string,
    brand: string,
    categoryId: string,
    attributes: Option<map<string, string>>)

  const NO_PRODUCT := Product("", "", "", "", None)

  // products JOIN listings

  function OfferOf(l: P.Listing): Offer {
    Offer(l.listingId, l.merchantId, l.listingTitle, l.priceCents, l.inStock, l.commissionBps, l.deepLinkUrl)
  }

  function HasProduct(products: map<string, Product>): P.Listing -> bool {
    (l: P.Listing) => l.productId in products
  }

  function RowOf(products: map<string, Product>): P.Listing -> DbRow {
    (l: P.Listing) =>
      var p := if l.productId in products then products[l.productId] else NO_PRODUCT;
      DbRow(l.productId, p.canonicalTitle, p.description, p.brand, p.categoryId, p.attributes, OfferOf(l))
  }

  function Join(products: map<string, Product>, listings: seq<P.Listing>): seq<DbRow> {
    Map(Filter(listings, HasProduct(products)), RowOf(products))
  }

  /** All the rows of a live catalog. */
  ghost function LiveRows(c: P.Catalog): seq<P.Listing> {
    P.Scan(c, P.LISTING_PARTITIONS)
  }

  /** The cursor and the count query read the join with the live catalog, whatever its order. */
  ghost predicate ReadsCatalog(w: World, products: map<string, Product>, c: P.Catalog) {
    && (Fetches(w.cursor.fetches) ==> multiset(RowsFetched(w.cursor.fetches)) == multiset(Join(products, LiveRows(c))))
    && (w.counted.Some? ==> multiset(w.counted.value) == multiset(Join(products, LiveRows(c))))
  }

  function ProductIdOf(l: P.Listing): string {
    l.productId
  }

  function ListedProducts(listings: seq<P.Listing>): set<string> {
    set l | l in listings :: ProductIdOf(l)
  }

  function ListedUnder(id: string): P.Listing -> bool {
    (l: P.Listing) => l.productId == id
  }

  function ListingsOf(listings: seq<P.Listing>, id: string): seq<P.Listing> {
    Filter(listings, ListedUnder(id))
  }

  /** The offer a listing makes, column by column. */
  function OfferMap(): P.Listing -> Offer {
    (l: P.Listing) => Offer(listingId := l.listingId, merchantId := l.merchantId, listingTitle := l.listingTitle,
                            priceCents := l.priceCents, inStock := l.inStock, commissionBps := l.commissionBps,
                            deepLinkUrl := l.deepLinkUrl)
  }

  /** `d` is the document of this product: its own columns, all its listings as offers, and their roll-ups. */
  ghost predicate DescribesProduct(d: Doc, id: string, product: Product, listings: seq<P.Listing>) {
    && d.productId == id && d.canonicalTitle == product.canonicalTitle && d.description == product.description
    && d.brand == product.brand && d.categoryId == product.categoryId
    && d.attributes == (if product.attributes.Some? then product.attributes.value else map[])
    && d.embeddingSource == product.canonicalTitle + ". " + product.brand + ". " + product.description
    && multiset(d.offers) == multiset(Map(ListingsOf(listings, id), OfferMap()))
    && RollsUp(d)
  }

  /** One document per listed product, describing exactly its listings. */
  ghost predicate IndexesCatalog(contents: Contents, products: map<string, Product>, listings: seq<P.Listing>) {
    && contents.Keys == ListedProducts(listings)
    && forall id :: id in contents ==> id in products && DescribesProduct(contents[id].doc, id, products[id], listings)
  }

  lemma JoinKeepsAll(products: map<string, Product>, listings: seq<P.Listing>)
    requires forall l :: l in listings ==> l.productId in products
    ensures Join(products, listings) == Map(listings, RowOf(products))
  {
    FilterAll(listings, HasProduct(products));
  }

  lemma SameElements<T>(xs: seq<T>, ys: seq<T>)
    requires multiset(xs) == multiset(ys)
    ensures forall x :: x in xs <==> x in ys
  {
    forall x
      ensures x in xs <==> x in ys
    {
      assert x in xs <==> x in multiset(xs);
      assert x in ys <==> x in multiset(ys);
    }
  }

  /** The rows of one product are, up to order, those of its listings. */
  lemma RowsOfProduct(rows: seq<DbRow>, products: map<string, Product>, listings: seq<P.Listing>, id: string)
    requires multiset(rows) == multiset(Map(listings, RowOf(products)))
    ensures multiset(Offers(RowsOf(rows, id))) == multiset(Map(ListingsOf(listings, id), OfferMap()))
    ensures forall row :: row in RowsOf(rows, id) ==> exists l :: l in listings && l.productId == id && row == RowOf(products)(l)
  {
    FilterMultiset(rows, Map(listings, RowOf(products)), OfProduct(id));
    FilterOfMap(listings, RowOf(products), OfProduct(id), ListedUnder(id));
    var mine, theirs := RowsOf(rows, id), ListingsOf(listings, id);
    assert multiset(mine) == multiset(Map(theirs, RowOf(products)));
    MapMultiset(mine, Map(theirs, RowOf(products)), RowOffer());
    assert Map(mine, RowOffer()) == Offers(mine);
    assert Map(Map(theirs, RowOf(products)), RowOffer()) == Map(theirs, OfferMap());
    SameElements(mine, Map(theirs, RowOf(products)));
    forall row | row in mine
      ensures exists l :: l in listings && l.productId == id && row == RowOf(products)(l)
    {
      var i :| 0 <= i < |theirs| && Map(theirs, RowOf(products))[i] == row;
      FilterHolds(listings, ListedUnder(id), theirs[i]);
    }
  }

  function RowOffer(): DbRow -> Offer {
    (row: DbRow) => row.offer
  }

  lemma ListedInRows(rows: seq<DbRow>, products: map<string, Product>, listings: seq<P.Listing>, id: string)
    requires multiset(rows) == multiset(Map(listings, RowOf(products)))
    ensures id in Products(rows) <==> id in ListedProducts(listings)
  {
    ProductsOccur(rows, id);
    SameElements(rows, Map(listings, RowOf(products)));
    if id in ListedProducts(listings) {
      var l :| l in listings && ProductIdOf(l) == id;
      var i :| 0 <= i < |listings| && listings[i] == l;
      assert Map(listings, RowOf(products))[i] in Map(listings, RowOf(products));
      var j :| 0 <= j < |rows| && rows[j] == Map(listings, RowOf(products))[i];
    }
    if Occurs(rows, id) {
      var j :| 0 <= j < |rows| && rows[j].productId == id;
      assert rows[j] in Map(listings, RowOf(products));
      var i :| 0 <= i < |listings| && Map(listings, RowOf(products))[i] == rows[j];
      assert listings[i] in listings && ProductIdOf(listings[i]) == id;
    }
  }

  lemma RatesOfRows(rows: seq<DbRow>, products: map<string, Product>, listings: seq<P.Listing>)
    requires multiset(rows) == multiset(Map(listings, RowOf(products))) && P.AllCheck(listings)
    ensures forall i :: 0 <= i < |rows| ==> rows[i].offer.commissionBps >= 0
  {
    SameElements(rows, Map(listings, RowOf(products)));
    forall i | 0 <= i < |rows|
      ensures rows[i].offer.commissionBps >= 0
    {
      assert rows[i] in Map(listings, RowOf(products));
      var j :| 0 <= j < |listings| && Map(listings, RowOf(products))[j] == rows[i];
      assert P.ChecksPass(listings[j]);
    }
  }

  /** A complete index over the join with a checked, referenced feed describes that feed. */
  lemma CompleteIndexesCatalog(contents: Contents, rows: seq<DbRow>, products: map<string, Product>, feed: seq<P.Listing>,
                               indexedAt: string)
    requires Contiguous(rows) && Complete(contents, RunGroups(rows, indexedAt))
    requires multiset(rows) == multiset(Map(feed, RowOf(products)))
    requires P.AllCheck(feed) && forall l :: l in feed ==> l.productId in products
    ensures IndexesCatalog(contents, products, feed)
  {
    hide RunGroups, Complete, Contiguous, Products, Describes, RowsOf, RollsUp;
    RatesOfRows(rows, products, feed);
    CompleteDescribesCatalog(contents, rows, indexedAt);
    forall id
      ensures id in contents <==> id in ListedProducts(feed)
      ensures id in contents ==> id in products && DescribesProduct(contents[id].doc, id, products[id], feed)
    {
      ListedInRows(rows, products, feed, id);
      if id in contents {
        DescribedProduct(contents[id].doc, rows, products, feed, id, indexedAt);
      }
    }
  }

  lemma DescribedProduct(d: Doc, rows: seq<DbRow>, products: map<string, Product>, feed: seq<P.Listing>, id: string, indexedAt: string)
    requires Describes(d, RowsOf(rows, id), indexedAt)
    requires multiset(rows) == multiset(Map(feed, RowOf(products)))
    requires forall l :: l in feed ==> l.productId in products
    ensures id in products && DescribesProduct(d, id, products[id], feed)
  {
    hide RowsOf, RollsUp, ListingsOf;
    RowsOfProduct(rows, products, feed, id);
    var first := RowsOf(rows, id)[0];
    assert first in RowsOf(rows, id);
    var l :| l in feed && l.productId == id && first == RowOf(products)(l);
  }

  lemma {:induction false} ScanOfVisible(c: P.Catalog, c': P.Catalog, n: nat)
    requires P.Visible(c) == P.Visible(c')
    ensures P.Scan(c, n) == P.Scan(c', n)
  {
    hide P.Visible;
    if n > 0 {
      ScanOfVisible(c, c', n - 1);
    }
  }

  /** The trusted answers a run depends on, once its catalog is live. */
  ghost predicate Dependable(w: World, before: ClusterState, products: map<string, Product>, c: P.Catalog) {
    Trusted(w, before) && ReadsCatalog(w, products, c)
  }

  /** The feed is live in Postgres, and a complete index over what was read of it describes it. */
  lemma LiveFeedIsIndexed(before: P.Catalog, c: P.Catalog, env: P.Env, a: P.Answers, generation: string,
                          products: map<string, Product>, w: World, state: ClusterState, contents: Contents, indexedAt: string)
    requires P.InService(before) && P.Replaced(before, c, env, a, generation) && env.products == products.Keys
    requires Dependable(w, state, products, c) && Fetches(w.cursor.fetches)
    requires Complete(contents, PassOver(w.cursor, indexedAt))
    ensures IndexesCatalog(contents, products, a.feed.value) && |contents| == |ListedProducts(a.feed.value)|
  {
    hide P.InService, P.AllCheck, P.Unique, P.Scan, P.Visible, P.Part, P.PartitionOf, Complete, RunGroups, Contiguous, IndexesCatalog;
    var feed, rows := a.feed.value, RowsFetched(w.cursor.fetches);
    P.NewCatalog(before, c, env, feed, generation);
    assert forall l :: l in feed ==> l.productId in products;
    JoinKeepsAll(products, feed);
    JoinOfEqual(products, LiveRows(c), feed);
    CompleteIndexesCatalog(contents, rows, products, feed, indexedAt);
    IndexSize(contents, products, feed);
  }

  lemma IndexSize(contents: Contents, products: map<string, Product>, feed: seq<P.Listing>)
    requires IndexesCatalog(contents, products, feed)
    ensures |contents| == |ListedProducts(feed)|
  {
    hide DescribesProduct;
    assert |contents| == |contents.Keys|;
  }

  lemma JoinOfEqual(products: map<string, Product>, xs: seq<P.Listing>, ys: seq<P.Listing>)
    requires multiset(xs) == multiset(ys)
    ensures multiset(Join(products, xs)) == multiset(Join(products, ys))
  {
    FilterMultiset(xs, ys, HasProduct(products));
    MapMultiset(Filter(xs, HasProduct(products)), Filter(ys, HasProduct(products)), RowOf(products));
  }

  /** Readers of the listings table see all of the old catalog or all of the feed. */
  ghost predicate OldOrFeed(c: P.Catalog, before: P.Catalog, a: P.Answers) {
    P.Visible(c) == P.Visible(before) || (a.feed.Some? && multiset(LiveRows(c)) == multiset(a.feed.value))
  }

  lemma LoadedServes(before: P.Catalog, c: P.Catalog, env: P.Env, a: P.Answers, generation: string)
    requires P.InService(before) && P.Replaced(before, c, env, a, generation)
    ensures P.InService(c) && a.feed.Some? && multiset(LiveRows(c)) == multiset(a.feed.value)
  {
    hide P.Acceptable, P.Scan, P.Visible;
    P.NewCatalog(before, c, env, a.feed.value, generation);
  }

  lemma LoadShowsEither(before: P.Catalog, history: seq<P.Catalog>, from: nat, env: P.Env, a: P.Answers, generation: string)
    requires P.InService(before)
    requires forall k :: from <= k < |history| ==> P.OldOrNew(before, history[k], env, a, generation)
    ensures forall k :: from <= k < |history| ==> OldOrFeed(history[k], before, a)
  {
    hide P.InService, P.Replaced, P.SameServing, P.Visible, P.Scan;
    forall k | from <= k < |history|
      ensures OldOrFeed(history[k], before, a)
    {
      if P.SameServing(before, history[k]) {
        P.SameVisible(before, history[k]);
      } else {
        LoadedServes(before, history[k], env, a, generation);
      }
    }
  }

  /**
   `Pipeline.Run`, Postgres first. A failed load leaves the search side untouched. On success the
   live catalog is the feed and, if the queries read that catalog, the alias serves one index
   that describes it; the previous catalog is kept unless retired data was to be dropped.
   */
  method Run(db: P.Database, a: P.Answers, generation: string, products: map<string, Product>, w: World, version: string,
             dropRetired: bool, dropFaults: nat -> CallFault, cluster: Cluster, indexedAt: string, base: nat,
             ghost predict: string -> Vector)
    returns (ok: bool, documents: nat, retired: set<string>)
    requires P.InService(db.catalog) && db.env.products == products.Keys && cluster.alias <= cluster.indices.Keys
    modifies db, cluster
    ensures old(db.history) <= db.history && old(cluster.history) <= cluster.history
    ensures forall k :: |old(db.history)| <= k < |db.history| ==> OldOrFeed(db.history[k], old(db.catalog), a)
    ensures cluster.history != old(cluster.history) ==> a.feed.Some? && multiset(LiveRows(db.catalog)) == multiset(a.feed.value)
    ensures ok ==> a.feed.Some? && P.InService(db.catalog) && multiset(LiveRows(db.catalog)) == multiset(a.feed.value)
    ensures ok && !dropRetired ==> P.Replaced(old(db.catalog), db.catalog, db.env, a, generation)
    ensures ok && Trusted(w, old(cluster.State())) ==> retired == old(cluster.alias) - {"products_v" + version}
    ensures ok && dropRetired ==>
              cluster.indices.Keys !! retired && forall p: nat :: p < P.LISTING_PARTITIONS ==> P.Prev(p) !in db.catalog.tables
    ensures ok ==> P.Undisturbed(a) && P.Acceptable(old(db.catalog), db.env, a.feed.value, generation) && Answered(w)
    ensures ok && dropRetired ==> forall n: nat :: n < P.LISTING_PARTITIONS ==> dropFaults(n).Works?
    ensures P.Undisturbed(a) && P.Acceptable(old(db.catalog), db.env, a.feed.value, generation) && Smooth(w)
            && Trusted(w, old(cluster.State())) && (forall n: nat :: dropFaults(n).Works?) ==>
              ok
    ensures ok && Dependable(w, old(cluster.State()), products, db.catalog) ==>
              && cluster.alias == {"products_v" + version} && "products_v" + version in cluster.indices
              && IndexesCatalog(cluster.indices["products_v" + version], products, a.feed.value)
              && documents == |ListedProducts(a.feed.value)|
              && (Predicts(w, predict) ==>
                    var index := cluster.indices["products_v" + version];
                    forall id :: id in index ==> index[id].embedding == predict(index[id].doc.embeddingSource))
  {
    hide P.InService, P.Replaced, P.SameServing, P.Scan, P.Visible, Complete, IndexesCatalog, ListedProducts, CountProducts;
    ok, documents, retired := false, 0, {};
    var loaded := db.LoadListings(a, generation);
    if !loaded {
      LoadShowsEither(old(db.catalog), db.history, |old(db.history)|, db.env, a, generation);
      return;
    }
    ghost var live := db.catalog;
    LoadedServes(old(db.catalog), live, db.env, a, generation);
    LoadShowsEither(old(db.catalog), db.history, |old(db.history)|, db.env, a, generation);
    ghost var loadedAt := |db.history|;
    ok, documents, retired := RebuildIndex(w, version, dropRetired, cluster, indexedAt, base, predict);
    if ok && Dependable(w, old(cluster.State()), products, live) {
      LiveFeedIsIndexed(old(db.catalog), live, db.env, a, generation, products, w, old(cluster.State()),
                        cluster.indices["products_v" + version], indexedAt);
    }
    if ok && dropRetired {
      ok := db.DropRetiredPartitions(dropFaults);
      ScanOfVisible(live, db.catalog, P.LISTING_PARTITIONS);
      forall k | loadedAt <= k < |db.history|
        ensures OldOrFeed(db.history[k], old(db.catalog), a)
      {
        ScanOfVisible(live, db.history[k], P.LISTING_PARTITIONS);
      }
    }
  }
}
