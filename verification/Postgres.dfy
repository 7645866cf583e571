/**
 The catalog load: stage, validate, build replacement partitions beside the live ones, and swap
 all eight in one transaction. The constraints a statement can trip over are part of its meaning.
 */
module Postgres {
  import opened Prelude

  const LISTING_PARTITIONS: nat := 8

  datatype Listing = Listing(
    listingId: string,
    productId: string,
    merchantId: string,
    merchantSku: string,
    listingTitle: string,
    priceCents: int,
    currency: string,
    inStock: bool,
    commissionBps: int,
    deepLinkUrl: string)

  datatype TableName = Live(part: nat) | Next(part: nat) | Prev(part: nat) | Staging

  /** Rows, the generation stamped on the table's index names, and whether it has the sku index. */
  datatype Table = Table(rows: seq<Listing>, generation: Option<string>, skuIndex: bool)

  /** The tables, and which of them is attached to `listings` for each remainder. */
  datatype Catalog = Catalog(tables: map<TableName, Table>, attached: map<nat, TableName>)

  /** What the statements look up but never change: the partition hash and the parent keys. */
  datatype Env = Env(hash: string -> nat, products: set<string>, merchants: set<string>)

  // Constraints

  function PartitionOf(env: Env, l: Listing): nat {
    env.hash(l.merchantId) % LISTING_PARTITIONS
  }

  function InPartition(env: Env, part: nat): Listing -> bool {
    (l: Listing) => PartitionOf(env, l) == part
  }

  function Part(env: Env, rows: seq<Listing>, part: nat): seq<Listing> {
    Filter(rows, InPartition(env, part))
  }

  predicate ChecksPass(l: Listing) {
    l.priceCents >= 0 && 0 <= l.commissionBps <= 10000
  }

  predicate AllCheck(rows: seq<Listing>) {
    forall l :: l in rows ==> ChecksPass(l)
  }

  predicate Referenced(env: Env, rows: seq<Listing>) {
    forall l :: l in rows ==> l.productId in env.products && l.merchantId in env.merchants
  }

  function PrimaryKey(l: Listing): (string, string) {
    (l.listingId, l.merchantId)
  }

  function SkuKey(l: Listing): (string, string) {
    (l.merchantSku, l.merchantId)
  }

  predicate Unique(rows: seq<Listing>, key: Listing -> (string, string)) {
    forall i, j :: 0 <= i < j < |rows| ==> key(rows[i]) != key(rows[j])
  }

  // Statements

  datatype Statement =
    | DropIfExists(table: TableName)
    | CreateStaging
    | CopyStaging(rows: seq<Listing>)
    | CreateLike(part: nat)
    | InsertPart(part: nat)
    | AddPrimaryKey(part: nat, generation: string)
    | CreateSkuIndex(part: nat)
    | CreatePlainIndex(part: nat)
    | Detach(part: nat)
    | Rename(from: TableName, to: TableName)
    | Attach(part: nat)

  /** Some table of this partition already owns index names of this generation. */
  predicate NamesTaken(c: Catalog, part: nat, generation: string) {
    exists t :: t in [Live(part), Next(part), Prev(part)] && t in c.tables && c.tables[t].generation == Some(generation)
  }

  /** What one statement does, or None when it is refused. */
  function Exec(c: Catalog, env: Env, st: Statement): Option<Catalog> {
    match st
    case DropIfExists(t) =>
      Some(Catalog(c.tables - {t}, map r | r in c.attached && c.attached[r] != t :: c.attached[r]))
    case CreateStaging =>
      Some(if Staging in c.tables then c else c.(tables := c.tables[Staging := Table([], None, false)]))
    case CopyStaging(rows) =>
      if Staging !in c.tables then None
      else Some(c.(tables := c.tables[Staging := c.tables[Staging].(rows := c.tables[Staging].rows + rows)]))
    case CreateLike(p) =>
      if Next(p) in c.tables then None else Some(c.(tables := c.tables[Next(p) := Table([], None, false)]))
    case InsertPart(p) =>
      if Staging !in c.tables || Next(p) !in c.tables then None
      else
        var t, rows := c.tables[Next(p)], Part(env, c.tables[Staging].rows, p);
        if AllCheck(rows) then Some(c.(tables := c.tables[Next(p) := t.(rows := t.rows + rows)])) else None
    case AddPrimaryKey(p, g) =>
      if Next(p) !in c.tables || NamesTaken(c, p, g) || !Unique(c.tables[Next(p)].rows, PrimaryKey) then None
      else Some(c.(tables := c.tables[Next(p) := c.tables[Next(p)].(generation := Some(g))]))
    case CreateSkuIndex(p) =>
      if Next(p) !in c.tables || !Unique(c.tables[Next(p)].rows, SkuKey) then None
      else Some(c.(tables := c.tables[Next(p) := c.tables[Next(p)].(skuIndex := true)]))
    case CreatePlainIndex(p) =>
      if Next(p) !in c.tables then None else Some(c)
    case Detach(p) =>
      if p !in c.attached || c.attached[p] != Live(p) then None else Some(c.(attached := c.attached - {p}))
    case Rename(from, to) =>
      if from !in c.tables || to in c.tables then None
      else Some(Catalog(c.tables[to := c.tables[from]] - {from},
                        map r | r in c.attached :: if c.attached[r] == from then to else c.attached[r]))
    case Attach(p) =>
      if Live(p) !in c.tables || p in c.attached || Live(p) in c.attached.Values then None
      else
        var rows := c.tables[Live(p)].rows;
        if Part(env, rows, p) == rows && Referenced(env, rows) && Unique(rows, PrimaryKey) && Unique(rows, SkuKey)
        then Some(c.(attached := c.attached[p := Live(p)]))
        else None
  }

  function ExecAll(c: Catalog, env: Env, stmts: seq<Statement>): Option<Catalog>
    decreases |stmts|
  {
    if stmts == [] then Some(c)
    else
      var next := Exec(c, env, stmts[0]);
      if next.None? then None else ExecAll(next.value, env, stmts[1..])
  }

  function BuildStatements(p: nat, generation: string): seq<Statement> {
    [DropIfExists(Next(p)), CreateLike(p), InsertPart(p), AddPrimaryKey(p, generation), CreateSkuIndex(p),
     CreatePlainIndex(p), CreatePlainIndex(p)]
  }

  function SwapStatements(p: nat): seq<Statement> {
    [DropIfExists(Prev(p)), Detach(p), Rename(Live(p), Prev(p)), Rename(Next(p), Live(p)), Attach(p)]
  }

  // What readers see

  /** The rows a query of `listings` scans, by remainder. */
  ghost function Visible(c: Catalog): map<nat, seq<Listing>> {
    map r | r in c.attached && c.attached[r] in c.tables :: c.tables[c.attached[r]].rows
  }

  /** The eight partitions are attached under their own names. */
  ghost predicate InService(c: Catalog) {
    && (forall r :: r in c.attached <==> r < LISTING_PARTITIONS)
    && (forall r :: r in c.attached ==> c.attached[r] == Live(r) && Live(r) in c.tables)
  }

  ghost predicate Agree(c: Catalog, c': Catalog, t: TableName) {
    (t in c.tables <==> t in c'.tables) && (t in c.tables ==> c.tables[t] == c'.tables[t])
  }

  /** Nothing that serves, and nothing kept for rollback, has changed. */
  ghost predicate SameServing(c: Catalog, c': Catalog) {
    c'.attached == c.attached && forall t: TableName :: t.Live? || t.Prev? ==> Agree(c, c', t)
  }

  /** Partition `p` was replaced: the new table is live, the old one kept whole, and nothing is left over. */
  ghost predicate Moved(c: Catalog, c': Catalog, p: nat) {
    && Live(p) in c.tables && Next(p) in c.tables && Live(p) in c'.tables && Prev(p) in c'.tables && Next(p) !in c'.tables
    && c'.tables[Live(p)] == c.tables[Next(p)]
    && c'.tables[Prev(p)] == c.tables[Live(p)]
  }

  lemma SameVisible(c: Catalog, c': Catalog)
    requires InService(c) && SameServing(c, c')
    ensures InService(c') && Visible(c') == Visible(c)
  {
    forall r | r in c.attached
      ensures Live(r) in c'.tables && c'.tables[Live(r)] == c.tables[Live(r)]
    {
      assert Agree(c, c', Live(r));
    }
  }

  /** Statements that name only staging and replacement tables. */
  predicate Offline(st: Statement) {
    match st
    case DropIfExists(t) => t.Next? || t.Staging?
    case Detach(_) => false
    case Rename(_, _) => false
    case Attach(_) => false
    case _ => true
  }

  lemma OfflineKeepsServing(c: Catalog, env: Env, st: Statement)
    requires InService(c) && Offline(st) && Exec(c, env, st).Some?
    ensures SameServing(c, Exec(c, env, st).value)
  {
    var c' := Exec(c, env, st).value;
    assert c'.attached == c.attached;
  }

  // Building one partition

  ghost predicate StagedRows(c: Catalog, rows: seq<Listing>) {
    Staging in c.tables && c.tables[Staging].rows == rows
  }

  /** No other table of the partition has taken this generation's index names. */
  ghost predicate NamesFree(c: Catalog, p: nat, generation: string) {
    && (Live(p) in c.tables ==> c.tables[Live(p)].generation != Some(generation))
    && (Prev(p) in c.tables ==> c.tables[Prev(p)].generation != Some(generation))
  }

  /** The constraints the rows of one partition meet. */
  ghost predicate Buildable(c: Catalog, env: Env, rows: seq<Listing>, p: nat, generation: string) {
    && AllCheck(Part(env, rows, p))
    && Unique(Part(env, rows, p), PrimaryKey)
    && Unique(Part(env, rows, p), SkuKey)
    && NamesFree(c, p, generation)
  }

  /** Everything but the replacement table of `p` is the same. */
  ghost predicate OnlyNext(c: Catalog, c': Catalog, p: nat) {
    c'.attached == c.attached && c'.tables - {Next(p)} == c.tables - {Next(p)}
  }

  lemma ExecCons(c: Catalog, env: Env, st: Statement, rest: seq<Statement>)
    ensures var next := Exec(c, env, st);
            ExecAll(c, env, [st] + rest) == if next.None? then None else ExecAll(next.value, env, rest)
  {
    hide Exec;
    assert ([st] + rest)[1..] == rest;
  }

  function WithNext(c: Catalog, p: nat, t: Table): Catalog {
    c.(tables := c.tables[Next(p) := t])
  }

  lemma BuildStart(c: Catalog, env: Env, p: nat)
    requires InService(c)
    ensures var dropped := Exec(c, env, DropIfExists(Next(p)));
            && dropped.Some? && OnlyNext(c, dropped.value, p) && Next(p) !in dropped.value.tables
            && Exec(dropped.value, env, CreateLike(p)) == Some(WithNext(dropped.value, p, Table([], None, false)))
  {
    var c1 := Exec(c, env, DropIfExists(Next(p))).value;
    assert c1.attached == c.attached;
    assert c1.tables - {Next(p)} == c.tables - {Next(p)};
  }

  lemma PutAgain(c: Catalog, p: nat, t: Table, t': Table)
    ensures WithNext(WithNext(c, p, t), p, t') == WithNext(c, p, t')
    ensures WithNext(c, p, t).tables[Next(p)] == t
  {
    assert c.tables[Next(p) := t][Next(p) := t'] == c.tables[Next(p) := t'];
  }

  lemma InsertStep(c: Catalog, env: Env, rows: seq<Listing>, p: nat)
    requires StagedRows(c, rows)
    ensures var part := Part(env, rows, p);
            Exec(WithNext(c, p, Table([], None, false)), env, InsertPart(p))
            == if AllCheck(part) then Some(WithNext(c, p, Table(part, None, false))) else None
  {
    hide Part, AllCheck;
    var part := Part(env, rows, p);
    assert [] + part == part;
    PutAgain(c, p, Table([], None, false), Table(part, None, false));
  }

  lemma NamesFreeWithNext(c: Catalog, p: nat, t: Table, generation: string)
    requires t.generation == None
    ensures NamesTaken(WithNext(c, p, t), p, generation) <==> !NamesFree(c, p, generation)
  {
    assert Live(p) in [Live(p), Next(p), Prev(p)] && Prev(p) in [Live(p), Next(p), Prev(p)];
  }

  lemma KeyStep(c: Catalog, env: Env, part: seq<Listing>, p: nat, generation: string)
    ensures Exec(WithNext(c, p, Table(part, None, false)), env, AddPrimaryKey(p, generation))
            == if NamesFree(c, p, generation) && Unique(part, PrimaryKey)
               then Some(WithNext(c, p, Table(part, Some(generation), false))) else None
  {
    hide Unique, NamesTaken, NamesFree;
    NamesFreeWithNext(c, p, Table(part, None, false), generation);
    PutAgain(c, p, Table(part, None, false), Table(part, Some(generation), false));
  }

  lemma SkuStep(c: Catalog, env: Env, part: seq<Listing>, p: nat, generation: string)
    ensures Exec(WithNext(c, p, Table(part, Some(generation), false)), env, CreateSkuIndex(p))
            == if Unique(part, SkuKey) then Some(WithNext(c, p, Table(part, Some(generation), true))) else None
  {
    hide Unique;
    PutAgain(c, p, Table(part, Some(generation), false), Table(part, Some(generation), true));
  }

  lemma PlainStep(c: Catalog, env: Env, p: nat, t: Table)
    ensures Exec(WithNext(c, p, t), env, CreatePlainIndex(p)) == Some(WithNext(c, p, t))
  {
  }

  /** The statements from the insertion on, given what each of the first three makes of its table. */
  lemma BuildChain(env: Env, p: nat, generation: string, c0: Catalog, c1: Catalog, c2: Catalog, c3: Catalog,
                   checked: bool, keyed: bool, skued: bool)
    requires Exec(c0, env, InsertPart(p)) == if checked then Some(c1) else None
    requires Exec(c1, env, AddPrimaryKey(p, generation)) == if keyed then Some(c2) else None
    requires Exec(c2, env, CreateSkuIndex(p)) == if skued then Some(c3) else None
    requires Exec(c3, env, CreatePlainIndex(p)) == Some(c3)
    ensures ExecAll(c0, env, [InsertPart(p), AddPrimaryKey(p, generation), CreateSkuIndex(p), CreatePlainIndex(p), CreatePlainIndex(p)])
            == if checked && keyed && skued then Some(c3) else None
  {
    hide Exec, ExecAll;
    var plain := [CreatePlainIndex(p)];
    var l3 := plain + plain;
    var l2 := [CreateSkuIndex(p)] + l3;
    var l1 := [AddPrimaryKey(p, generation)] + l2;
    assert [InsertPart(p), AddPrimaryKey(p, generation), CreateSkuIndex(p), CreatePlainIndex(p), CreatePlainIndex(p)] == [InsertPart(p)] + l1;
    ExecCons(c0, env, InsertPart(p), l1);
    ExecCons(c1, env, AddPrimaryKey(p, generation), l2);
    ExecCons(c2, env, CreateSkuIndex(p), l3);
    ExecCons(c3, env, CreatePlainIndex(p), plain);
    assert plain == plain + [];
    ExecCons(c3, env, CreatePlainIndex(p), []);
    ExecNothing(c3, env);
  }

  /** The first two statements leave an empty table and nothing else changed. */
  lemma BuildFrom(c: Catalog, env: Env, p: nat, generation: string, c1: Catalog)
    requires Exec(c, env, DropIfExists(Next(p))) == Some(c1)
    requires Exec(c1, env, CreateLike(p)) == Some(WithNext(c1, p, Table([], None, false)))
    ensures ExecAll(c, env, BuildStatements(p, generation))
            == ExecAll(WithNext(c1, p, Table([], None, false)), env,
                       [InsertPart(p), AddPrimaryKey(p, generation), CreateSkuIndex(p), CreatePlainIndex(p), CreatePlainIndex(p)])
  {
    hide Exec, ExecAll, WithNext;
    var rest := [InsertPart(p), AddPrimaryKey(p, generation), CreateSkuIndex(p), CreatePlainIndex(p), CreatePlainIndex(p)];
    assert BuildStatements(p, generation) == [DropIfExists(Next(p))] + ([CreateLike(p)] + rest);
    ExecCons(c, env, DropIfExists(Next(p)), [CreateLike(p)] + rest);
    ExecCons(c1, env, CreateLike(p), rest);
  }

  lemma OnlyNextPut(c: Catalog, c1: Catalog, p: nat, t: Table)
    requires OnlyNext(c, c1, p)
    ensures OnlyNext(c, WithNext(c1, p, t), p)
  {
    assert WithNext(c1, p, t).tables - {Next(p)} == c1.tables - {Next(p)};
  }

  lemma SameNames(c: Catalog, c1: Catalog, rows: seq<Listing>, p: nat, generation: string)
    requires OnlyNext(c, c1, p) && StagedRows(c, rows)
    ensures StagedRows(c1, rows) && (NamesFree(c1, p, generation) <==> NamesFree(c, p, generation))
  {
    OthersStay(c, c1, p);
    assert Agree(c, c1, Staging) && Agree(c, c1, Live(p)) && Agree(c, c1, Prev(p));
  }

  /** The statements for one partition go through exactly when its rows meet the constraints. */
  lemma BuildOne(c: Catalog, env: Env, rows: seq<Listing>, p: nat, generation: string)
    requires InService(c) && StagedRows(c, rows)
    ensures var built := ExecAll(c, env, BuildStatements(p, generation));
            && (built.Some? <==> Buildable(c, env, rows, p, generation))
            && (built.Some? ==> OnlyNext(c, built.value, p) && Next(p) in built.value.tables
                                && built.value.tables[Next(p)] == Table(Part(env, rows, p), Some(generation), true))
  {
    hide Exec, ExecAll, Part, Unique, AllCheck, InService, OnlyNext, StagedRows, NamesFree, BuildStatements, WithNext;
    BuildStart(c, env, p);
    var c1, part := Exec(c, env, DropIfExists(Next(p))).value, Part(env, rows, p);
    SameNames(c, c1, rows, p, generation);
    BuildFrom(c, env, p, generation, c1);
    InsertStep(c1, env, rows, p);
    KeyStep(c1, env, part, p, generation);
    SkuStep(c1, env, part, p, generation);
    var built := Table(part, Some(generation), true);
    PlainStep(c1, env, p, built);
    BuildChain(env, p, generation, WithNext(c1, p, Table([], None, false)), WithNext(c1, p, Table(part, None, false)),
               WithNext(c1, p, Table(part, Some(generation), false)), WithNext(c1, p, built),
               AllCheck(part), NamesFree(c1, p, generation) && Unique(part, PrimaryKey), Unique(part, SkuKey));
    OnlyNextPut(c, c1, p, built);
    NextIn(c1, p, built);
  }

  lemma NextIn(c: Catalog, p: nat, t: Table)
    ensures Next(p) in WithNext(c, p, t).tables && WithNext(c, p, t).tables[Next(p)] == t
  {
  }

  lemma ExecNothing(c: Catalog, env: Env)
    ensures ExecAll(c, env, []) == Some(c)
  {
  }

  // Swapping one partition

  /** What ATTACH PARTITION verifies: the partition's bound, and the parent's foreign keys and unique indexes. */
  predicate Attachable(env: Env, rows: seq<Listing>, p: nat) {
    Part(env, rows, p) == rows && Referenced(env, rows) && Unique(rows, PrimaryKey) && Unique(rows, SkuKey)
  }

  function SwappedTables(tables: map<TableName, Table>, p: nat): map<TableName, Table>
    requires Live(p) in tables && Next(p) in tables
  {
    (tables - {Next(p)})[Prev(p) := tables[Live(p)]][Live(p) := tables[Next(p)]]
  }

  lemma SwapRenames(c: Catalog, env: Env, p: nat)
    requires Live(p) in c.tables && Next(p) in c.tables && p !in c.attached
    requires forall r :: r in c.attached ==> c.attached[r] == Live(r)
    ensures var c1 := Exec(c, env, DropIfExists(Prev(p)));
            && c1 == Some(c.(tables := c.tables - {Prev(p)}))
            && var c2 := Exec(c1.value, env, Rename(Live(p), Prev(p)));
            && c2.Some?
            && Exec(c2.value, env, Rename(Next(p), Live(p))) == Some(c.(tables := SwappedTables(c.tables, p)))
  {
    var attached := c.attached;
    assert (map r | r in attached && attached[r] != Prev(p) :: attached[r]) == attached;
    assert (map r | r in attached :: if attached[r] == Live(p) then Prev(p) else attached[r]) == attached;
    assert (map r | r in attached :: if attached[r] == Next(p) then Live(p) else attached[r]) == attached;
    var t1 := c.tables - {Prev(p)};
    var t2 := t1[Prev(p) := t1[Live(p)]] - {Live(p)};
    assert t2[Live(p) := t2[Next(p)]] - {Next(p)} == SwappedTables(c.tables, p);
  }

  /** Dropping first and detaching second is the same as the other way round. */
  lemma SwapStart(c: Catalog, env: Env, p: nat)
    requires InService(c) && p < LISTING_PARTITIONS
    ensures Exec(c, env, DropIfExists(Prev(p))) == Some(c.(tables := c.tables - {Prev(p)}))
    ensures Exec(c.(tables := c.tables - {Prev(p)}), env, Detach(p))
            == Some(Catalog(c.tables - {Prev(p)}, c.attached - {p}))
  {
    var dropped := Exec(c, env, DropIfExists(Prev(p))).value;
    assert forall r :: r in c.attached ==> c.attached[r] != Prev(p);
    assert dropped.attached == c.attached;
  }

  /** Attaching the renamed replacement is refused for what it holds, or restores the partition's place. */
  lemma SwapAttach(c: Catalog, env: Env, p: nat)
    requires InService(c) && p < LISTING_PARTITIONS && Next(p) in c.tables
    ensures Exec(Catalog(SwappedTables(c.tables, p), c.attached - {p}), env, Attach(p))
            == if Attachable(env, c.tables[Next(p)].rows, p) then Some(c.(tables := SwappedTables(c.tables, p))) else None
  {
    hide Part, Unique, Referenced;
    assert (c.attached - {p})[p := Live(p)] == c.attached;
    assert SwappedTables(c.tables, p)[Live(p)] == c.tables[Next(p)];
    assert Live(p) !in (c.attached - {p}).Values;
  }

  /** Five statements in a row, given what the first four do. */
  lemma SwapChain(env: Env, p: nat, c0: Catalog, c1: Catalog, c2: Catalog, c3: Catalog, c4: Catalog)
    requires Exec(c0, env, DropIfExists(Prev(p))) == Some(c1) && Exec(c1, env, Detach(p)) == Some(c2)
    requires Exec(c2, env, Rename(Live(p), Prev(p))) == Some(c3) && Exec(c3, env, Rename(Next(p), Live(p))) == Some(c4)
    ensures ExecAll(c0, env, SwapStatements(p)) == Exec(c4, env, Attach(p))
  {
    hide Exec, ExecAll;
    var l4 := [Attach(p)];
    var l3 := [Rename(Next(p), Live(p))] + l4;
    var l2 := [Rename(Live(p), Prev(p))] + l3;
    var l1 := [Detach(p)] + l2;
    assert SwapStatements(p) == [DropIfExists(Prev(p))] + l1;
    ExecCons(c0, env, DropIfExists(Prev(p)), l1);
    ExecCons(c1, env, Detach(p), l2);
    ExecCons(c2, env, Rename(Live(p), Prev(p)), l3);
    ExecCons(c3, env, Rename(Next(p), Live(p)), l4);
    assert l4 == [Attach(p)] + [];
    ExecCons(c4, env, Attach(p), []);
    if Exec(c4, env, Attach(p)).Some? {
      ExecNothing(Exec(c4, env, Attach(p)).value, env);
    }
  }

  /** The five statements for one partition go through exactly when the replacement can be attached. */
  lemma SwapOne(c: Catalog, env: Env, p: nat)
    requires InService(c) && p < LISTING_PARTITIONS && Next(p) in c.tables
    ensures ExecAll(c, env, SwapStatements(p))
            == if Attachable(env, c.tables[Next(p)].rows, p) then Some(c.(tables := SwappedTables(c.tables, p))) else None
  {
    hide Exec, ExecAll, Attachable, SwappedTables, SwapStatements;
    SwapStart(c, env, p);
    var detached := c.(attached := c.attached - {p});
    SwapRenames(detached, env, p);
    SwapAttach(c, env, p);
    var c2 := Catalog(c.tables - {Prev(p)}, c.attached - {p});
    SwapChain(env, p, c, c.(tables := c.tables - {Prev(p)}), c2, Exec(c2, env, Rename(Live(p), Prev(p))).value,
              detached.(tables := SwappedTables(c.tables, p)));
  }

  /** Without a replacement table the second rename is refused. */
  lemma SwapNeedsNext(c: Catalog, env: Env, p: nat)
    requires InService(c) && p < LISTING_PARTITIONS && Next(p) !in c.tables
    ensures ExecAll(c, env, SwapStatements(p)).None?
  {
    SwapStart(c, env, p);
    var c1, c2 := c.(tables := c.tables - {Prev(p)}), Catalog(c.tables - {Prev(p)}, c.attached - {p});
    var c3 := Exec(c2, env, Rename(Live(p), Prev(p))).value;
    assert Exec(c3, env, Rename(Next(p), Live(p))).None?;
    hide Exec, ExecAll, InService;
    var l3 := [Rename(Next(p), Live(p)), Attach(p)];
    var l2 := [Rename(Live(p), Prev(p))] + l3;
    var l1 := [Detach(p)] + l2;
    assert SwapStatements(p) == [DropIfExists(Prev(p))] + l1;
    ExecCons(c, env, DropIfExists(Prev(p)), l1);
    ExecCons(c1, env, Detach(p), l2);
    ExecCons(c2, env, Rename(Live(p), Prev(p)), l3);
    assert l3 == [Rename(Next(p), Live(p))] + [Attach(p)];
    ExecCons(c3, env, Rename(Next(p), Live(p)), [Attach(p)]);
  }

  // Rows and partitions

  lemma UniqueSnoc(rows: seq<Listing>, l: Listing, key: Listing -> (string, string))
    ensures Unique(rows + [l], key) <==> Unique(rows, key) && forall m :: m in rows ==> key(m) != key(l)
  {
    var all := rows + [l];
    assert all[|rows|] == l;
    assert forall i :: 0 <= i < |rows| ==> all[i] == rows[i];
    if Unique(all, key) {
      assert forall i :: 0 <= i < |rows| ==> key(all[i]) != key(all[|rows|]);
    }
  }

  /** Keys that contain the merchant never collide across partitions, so uniqueness can be checked per partition. */
  lemma {:induction false} UniqueByPartition(env: Env, rows: seq<Listing>, key: Listing -> (string, string))
    requires forall l, m :: key(l) == key(m) ==> l.merchantId == m.merchantId
    ensures Unique(rows, key) <==> forall p: nat :: p < LISTING_PARTITIONS ==> Unique(Part(env, rows, p), key)
  {
    hide Unique;
    if rows == [] {
      assert Unique([], key) by { UniqueNone(key); }
      assert forall p :: Part(env, [], p) == [];
    } else {
      var front, last := rows[..|rows| - 1], rows[|rows| - 1];
      assert rows == front + [last];
      UniqueByPartition(env, front, key);
      UniqueSnoc(front, last, key);
      var own := PartitionOf(env, last);
      UniqueSnoc(Part(env, front, own), last, key);
      forall p
        ensures Part(env, rows, p) == if p == own then Part(env, front, p) + [last] else Part(env, front, p)
      {
        FilterSnoc(front, last, InPartition(env, p));
      }
      forall m | m in front && key(m) == key(last)
        ensures m in Part(env, front, own)
      {
        FilterHolds(front, InPartition(env, own), m);
      }
      forall m | m in Part(env, front, own)
        ensures m in front
      {
        FilterHolds(front, InPartition(env, own), m);
      }
      assert forall p: nat :: p < LISTING_PARTITIONS && p != own ==> Part(env, rows, p) == Part(env, front, p);
    }
  }

  lemma UniqueNone(key: Listing -> (string, string))
    ensures Unique([], key)
  {
  }

  lemma PartRows(env: Env, rows: seq<Listing>, p: nat)
    ensures forall l :: l in Part(env, rows, p) <==> l in rows && PartitionOf(env, l) == p
    ensures Part(env, Part(env, rows, p), p) == Part(env, rows, p)
  {
    forall l
      ensures l in Part(env, rows, p) <==> l in rows && PartitionOf(env, l) == p
    {
      FilterHolds(rows, InPartition(env, p), l);
    }
    FilterAll(Part(env, rows, p), InPartition(env, p));
  }

  lemma CheckByPartition(env: Env, rows: seq<Listing>)
    ensures AllCheck(rows) <==> forall p: nat :: p < LISTING_PARTITIONS ==> AllCheck(Part(env, rows, p))
  {
    forall p: nat
      ensures forall l :: l in Part(env, rows, p) <==> l in rows && PartitionOf(env, l) == p
    {
      PartRows(env, rows, p);
    }
    if forall p: nat :: p < LISTING_PARTITIONS ==> AllCheck(Part(env, rows, p)) {
      forall l | l in rows
        ensures ChecksPass(l)
      {
        assert l in Part(env, rows, PartitionOf(env, l));
      }
    }
  }

  /** The rows of the first `n` partitions, one partition after the other. */
  function FirstParts(env: Env, rows: seq<Listing>, n: nat): seq<Listing> {
    if n == 0 then [] else FirstParts(env, rows, n - 1) + Part(env, rows, n - 1)
  }

  lemma {:induction false} FirstPartsCount(env: Env, rows: seq<Listing>, n: nat, l: Listing)
    ensures multiset(FirstParts(env, rows, n))[l] == if PartitionOf(env, l) < n then multiset(rows)[l] else 0
  {
    if n > 0 {
      FirstPartsCount(env, rows, n - 1, l);
      FilterCount(rows, InPartition(env, n - 1), l);
    }
  }

  /** Together the eight partitions hold every row exactly as often as the feed does. */
  lemma PartitionsCover(env: Env, rows: seq<Listing>)
    ensures multiset(FirstParts(env, rows, LISTING_PARTITIONS)) == multiset(rows)
  {
    forall l
      ensures multiset(FirstParts(env, rows, LISTING_PARTITIONS))[l] == multiset(rows)[l]
    {
      FirstPartsCount(env, rows, LISTING_PARTITIONS, l);
    }
  }

  // The load

  /** What the database and the feed answer during one load. */
  datatype Answers = Answers(
    dropStaging: CallFault,
    createStaging: CallFault,
    feed: Option<seq<Listing>>, // None when the file does not read
    copy: CallFault,
    reported: nat, // the row count COPY returns
    countAnswered: bool,
    orphansAnswered: bool,
    build: (nat, nat) -> CallFault, // by partition and statement
    begun: bool,
    swap: (nat, nat) -> bool, // whether each statement inside the transaction goes through
    commit: CallFault)

  function BuildFaults(w: Answers, p: nat): nat -> CallFault {
    (k: nat) => w.build(p, k)
  }

  /** The transaction opens, each of its forty statements goes through, and it commits. */
  ghost predicate SwapUndisturbed(w: Answers) {
    w.begun && w.commit.Works? && forall p: nat, k: nat :: p < LISTING_PARTITIONS && k < 5 ==> w.swap(p, k)
  }

  /** Nothing outside the database's own rules goes wrong. */
  ghost predicate Undisturbed(w: Answers) {
    && w.dropStaging.Works? && w.createStaging.Works? && w.copy.Works?
    && w.feed.Some? && w.reported == |w.feed.value| && w.countAnswered && w.orphansAnswered
    && (forall p: nat, k: nat :: p < LISTING_PARTITIONS && k < 7 ==> w.build(p, k).Works?)
    && SwapUndisturbed(w)
  }

  ghost predicate FreshGeneration(c: Catalog, generation: string) {
    forall t :: t in c.tables && (t.Live? || t.Prev?) && t.part < LISTING_PARTITIONS ==> c.tables[t].generation != Some(generation)
  }

  /** A feed that may replace the catalog. */
  ghost predicate Acceptable(c: Catalog, env: Env, rows: seq<Listing>, generation: string) {
    && rows != [] && Referenced(env, rows) && AllCheck(rows)
    && Unique(rows, PrimaryKey) && Unique(rows, SkuKey)
    && FreshGeneration(c, generation)
  }

  /** Every row's product and merchant are known, and its price and rate in range. */
  predicate RowsInOrder(env: Env, rows: seq<Listing>) {
    forall l :: l in rows ==>
      && l.productId in env.products && l.merchantId in env.merchants
      && l.priceCents >= 0 && 0 <= l.commissionBps <= 10_000
  }

  /** One merchant lists nothing twice, neither under one id nor under one sku. */
  predicate NothingTwice(rows: seq<Listing>) {
    forall i, j :: 0 <= i < j < |rows| && rows[i].merchantId == rows[j].merchantId ==>
      rows[i].listingId != rows[j].listingId && rows[i].merchantSku != rows[j].merchantSku
  }

  lemma KeysMean(rows: seq<Listing>)
    ensures Unique(rows, PrimaryKey) && Unique(rows, SkuKey) <==> NothingTwice(rows)
  {
    forall i, j | 0 <= i < j < |rows|
      ensures PrimaryKey(rows[i]) == PrimaryKey(rows[j])
              <==> rows[i].merchantId == rows[j].merchantId && rows[i].listingId == rows[j].listingId
      ensures SkuKey(rows[i]) == SkuKey(rows[j])
              <==> rows[i].merchantId == rows[j].merchantId && rows[i].merchantSku == rows[j].merchantSku
    {
    }
  }

  /** What a feed must be: there is one, its rows are in order, nothing comes twice, and its stamp is new. */
  lemma AcceptableMeans(c: Catalog, env: Env, rows: seq<Listing>, generation: string)
    ensures Acceptable(c, env, rows, generation)
            <==> rows != [] && FreshGeneration(c, generation) && RowsInOrder(env, rows) && NothingTwice(rows)
  {
    KeysMean(rows);
    hide FreshGeneration, Unique, NothingTwice;
  }

  lemma AcceptableIsBuildable(c: Catalog, env: Env, rows: seq<Listing>, generation: string)
    requires InService(c) && rows != [] && Referenced(env, rows)
    ensures Acceptable(c, env, rows, generation)
            <==> forall p: nat :: p < LISTING_PARTITIONS ==> Buildable(c, env, rows, p, generation)
  {
    CheckByPartition(env, rows);
    UniqueByPartition(env, rows, PrimaryKey);
    UniqueByPartition(env, rows, SkuKey);
    hide AllCheck, Unique, Part, Referenced;
    if Acceptable(c, env, rows, generation) {
      forall p: nat | p < LISTING_PARTITIONS
        ensures Buildable(c, env, rows, p, generation)
      {
        assert Live(p).part == Prev(p).part == p;
      }
    }
    if forall p: nat :: p < LISTING_PARTITIONS ==> Buildable(c, env, rows, p, generation) {
      forall p: nat | p < LISTING_PARTITIONS
        ensures AllCheck(Part(env, rows, p)) && Unique(Part(env, rows, p), PrimaryKey) && Unique(Part(env, rows, p), SkuKey)
      {
        assert Buildable(c, env, rows, p, generation);
      }
      forall t | t in c.tables && (t.Live? || t.Prev?) && t.part < LISTING_PARTITIONS
        ensures c.tables[t].generation != Some(generation)
      {
        assert Buildable(c, env, rows, t.part, generation);
      }
    }
  }

  /** Partition `p`'s replacement is ready: exactly its share of the feed, indexed. */
  ghost predicate Built(c: Catalog, env: Env, rows: seq<Listing>, p: nat, generation: string) {
    Next(p) in c.tables && c.tables[Next(p)] == Table(Part(env, rows, p), Some(generation), true)
  }

  ghost predicate AllBuilt(c: Catalog, env: Env, rows: seq<Listing>, generation: string) {
    forall p: nat :: p < LISTING_PARTITIONS ==> Built(c, env, rows, p, generation)
  }

  /** The catalog after the swap: every partition holds its share and every old one is kept whole. */
  ghost predicate NewGeneration(before: Catalog, c: Catalog, env: Env, rows: seq<Listing>, generation: string) {
    && InService(c)
    && forall p: nat :: p < LISTING_PARTITIONS ==>
         && Live(p) in c.tables && c.tables[Live(p)] == Table(Part(env, rows, p), Some(generation), true)
         && Prev(p) in c.tables && Live(p) in before.tables && c.tables[Prev(p)] == before.tables[Live(p)]
         && Next(p) !in c.tables
  }

  ghost predicate AllServing(before: Catalog, history: seq<Catalog>, from: nat) {
    forall k :: from <= k < |history| ==> SameServing(before, history[k])
  }

  lemma SameServingTrans(a: Catalog, b: Catalog, c: Catalog)
    requires SameServing(a, b) && SameServing(b, c)
    ensures SameServing(a, c)
  {
    forall t: TableName | t.Live? || t.Prev?
      ensures Agree(a, c, t)
    {
      assert Agree(a, b, t) && Agree(b, c, t);
    }
  }

  class Database {
    const env: Env
    var catalog: Catalog
    /** Every state other sessions could have seen since this client was made. */
    ghost var history: seq<Catalog>

    constructor (env: Env, catalog: Catalog)
      ensures this.env == env && this.catalog == catalog && history == [catalog]
    {
      this.env := env;
      this.catalog := catalog;
      history := [catalog];
    }

    /** One statement in its own transaction. */
    method Autocommit(st: Statement, fault: CallFault) returns (ok: bool)
      modifies this
      ensures history == old(history) + [catalog]
      ensures var next := Exec(old(catalog), env, st);
              if next.None? || fault.Fails? then catalog == old(catalog) && !ok
              else catalog == next.value && (ok <==> fault.Works?)
    {
      var next := Exec(catalog, env, st);
      ok := false;
      if next.Some? && !fault.Fails? {
        catalog := next.value;
        ok := fault.Works?;
      }
      history := history + [catalog];
    }

    /** A list of statements outside any transaction, stopping at the first that fails. */
    method AutocommitAll(stmts: seq<Statement>, fault: nat -> CallFault) returns (ok: bool)
      requires InService(catalog) && forall st :: st in stmts ==> Offline(st)
      modifies this
      ensures old(history) <= history && AllServing(old(catalog), history, |old(history)|)
      ensures SameServing(old(catalog), catalog) && InService(catalog)
      ensures ok ==> ExecAll(old(catalog), env, stmts) == Some(catalog) && forall k :: 0 <= k < |stmts| ==> fault(k).Works?
      ensures !ok && (forall k :: 0 <= k < |stmts| ==> fault(k).Works?) ==> ExecAll(old(catalog), env, stmts).None?
    {
      hide Exec, InService, SameServing;
      var k := 0;
      assert SameServing(old(catalog), catalog) by { SameServingSelf(catalog); }
      while k < |stmts|
        invariant 0 <= k <= |stmts|
        invariant old(history) <= history && AllServing(old(catalog), history, |old(history)|)
        invariant SameServing(old(catalog), catalog) && InService(catalog)
        invariant ExecAll(old(catalog), env, stmts) == ExecAll(catalog, env, stmts[k..])
        invariant forall j :: 0 <= j < k ==> fault(j).Works?
      {
        ghost var here := catalog;
        assert stmts[k..][0] == stmts[k] && stmts[k..][1..] == stmts[k + 1..];
        if Exec(catalog, env, stmts[k]).Some? {
          OfflineKeepsServing(catalog, env, stmts[k]);
          SameServingTrans(old(catalog), catalog, Exec(catalog, env, stmts[k]).value);
          SameVisible(catalog, Exec(catalog, env, stmts[k]).value);
        }
        ok := Autocommit(stmts[k], fault(k));
        if !ok {
          return;
        }
        k := k + 1;
      }
      ok := true;
    }

    /** `buildReplacementPartitions`. */
    method BuildReplacementPartitions(rows: seq<Listing>, generation: string, w: Answers) returns (ok: bool)
      requires InService(catalog) && StagedRows(catalog, rows)
      modifies this
      ensures old(history) <= history && AllServing(old(catalog), history, |old(history)|)
      ensures SameServing(old(catalog), catalog) && InService(catalog)
      ensures ok ==> AllBuilt(catalog, env, rows, generation)
      ensures ok ==> forall p: nat, k: nat :: p < LISTING_PARTITIONS && k < 7 ==> w.build(p, k).Works?
      ensures ok ==> forall p: nat :: p < LISTING_PARTITIONS ==> Buildable(old(catalog), env, rows, p, generation)
      ensures !ok && Undisturbed(w) ==> exists p: nat :: p < LISTING_PARTITIONS && !Buildable(old(catalog), env, rows, p, generation)
    {
      hide Exec, ExecAll, Part, InService, Offline;
      assert SameServing(old(catalog), catalog) by { SameServingSelf(catalog); }
      var p: nat := 0;
      while p < LISTING_PARTITIONS
        invariant p <= LISTING_PARTITIONS
        invariant old(history) <= history && AllServing(old(catalog), history, |old(history)|)
        invariant SameServing(old(catalog), catalog) && InService(catalog) && StagedRows(catalog, rows)
        invariant forall q: nat :: q < p ==> Built(catalog, env, rows, q, generation) && Buildable(old(catalog), env, rows, q, generation)
        invariant forall q: nat, k: nat :: q < p && k < 7 ==> w.build(q, k).Works?
      {
        ghost var here, from := catalog, |history|;
        BuildOne(catalog, env, rows, p, generation);
        SameBuildable(old(catalog), catalog, env, rows, p, generation);
        BuildIsOffline(p, generation);
        assert |BuildStatements(p, generation)| == 7;
        ok := AutocommitAll(BuildStatements(p, generation), BuildFaults(w, p));
        ServingSoFar(old(catalog), here, history, |old(history)|, from);
        SameServingTrans(old(catalog), here, catalog);
        if !ok {
          return;
        }
        OthersStay(here, catalog, p);
        assert Agree(here, catalog, Staging);
        forall q: nat | q < p
          ensures Built(catalog, env, rows, q, generation)
        {
          assert Built(here, env, rows, q, generation) && Agree(here, catalog, Next(q));
        }
        forall k: nat | k < 7
          ensures w.build(p, k).Works?
        {
          assert BuildFaults(w, p)(k).Works?;
        }
        p := p + 1;
      }
      ok := true;
    }

    /** `validateStaging`. */
    method ValidateStaging(rows: seq<Listing>, expected: nat, w: Answers) returns (ok: bool)
      requires StagedRows(catalog, rows)
      ensures ok <==> w.countAnswered && rows != [] && |rows| == expected && w.orphansAnswered && Referenced(env, rows)
    {
      if !w.countAnswered || |rows| == 0 || |rows| != expected || !w.orphansAnswered {
        return false;
      }
      ok := Referenced(env, rows);
    }

    /**
     `swapPartitions`: one transaction. Other sessions see either the catalog before it or, once
     it has committed, one in which all eight partitions have moved.
     */
    method SwapPartitions(w: Answers) returns (ok: bool)
      requires InService(catalog)
      modifies this
      ensures catalog == old(catalog) || AllMoved(old(catalog), catalog)
      ensures history == old(history) || history == old(history) + [catalog]
      ensures ok || catalog != old(catalog) ==> history == old(history) + [catalog]
      ensures ok ==> AllMoved(old(catalog), catalog)
      ensures ok <==> SwapUndisturbed(w) && forall p: nat :: p < LISTING_PARTITIONS ==> Replaceable(old(catalog), env, p)
      ensures !ok && !w.commit.LosesReply? ==> catalog == old(catalog)
    {
      hide Exec, ExecAll, InService, Attachable;
      ok := false;
      if !w.begun {
        return;
      }
      var tx := catalog;
      var p: nat := 0;
      while p < LISTING_PARTITIONS
        invariant p <= LISTING_PARTITIONS && InService(tx)
        invariant catalog == old(catalog) && history == old(history)
        invariant MovedBelow(catalog, tx, p) && UntouchedFrom(catalog, tx, p) && Agree(catalog, tx, Staging)
        invariant forall q: nat :: q < p ==> Replaceable(catalog, env, q)
        invariant forall q: nat, k: nat :: q < p && k < 5 ==> w.swap(q, k)
      {
        ghost var start := tx;
        var stmts, k := SwapStatements(p), 0;
        while k < |stmts|
          invariant 0 <= k <= |stmts|
          invariant catalog == old(catalog) && history == old(history)
          invariant ExecAll(start, env, stmts) == ExecAll(tx, env, stmts[k..])
          invariant forall j: nat :: j < k ==> w.swap(p, j)
        {
          assert stmts[k..] == [stmts[k]] + stmts[k + 1..];
          ExecCons(tx, env, stmts[k], stmts[k + 1..]);
          var next := Exec(tx, env, stmts[k]);
          if next.None? || !w.swap(p, k) {
            SwapGoesThrough(catalog, start, env, p);
            return;
          }
          tx := next.value;
          k := k + 1;
        }
        assert stmts[k..] == [];
        ExecNothing(tx, env);
        SwapGoesThrough(catalog, start, env, p);
        SwapAdvances(catalog, start, tx, env, p);
        p := p + 1;
      }
      if w.commit.Fails? {
        return;
      }
      catalog := tx;
      history := history + [catalog];
      ok := w.commit.Works?;
    }

    /** `DropRetiredPartitions`. */
    method DropRetiredPartitions(fault: nat -> CallFault) returns (ok: bool)
      requires InService(catalog)
      modifies this
      ensures InService(catalog) && Visible(catalog) == Visible(old(catalog))
      ensures old(history) <= history && forall k :: |old(history)| <= k < |history| ==> Visible(history[k]) == Visible(old(catalog))
      ensures ok ==> forall p: nat :: p < LISTING_PARTITIONS ==> Prev(p) !in catalog.tables
      ensures forall t: TableName :: !t.Prev? ==> Agree(old(catalog), catalog, t)
      ensures ok <==> forall p: nat :: p < LISTING_PARTITIONS ==> fault(p).Works?
    {
      hide Exec, Visible, InService;
      var p: nat := 0;
      while p < LISTING_PARTITIONS
        invariant p <= LISTING_PARTITIONS && InService(catalog)
        invariant Visible(catalog) == Visible(old(catalog))
        invariant old(history) <= history && forall k :: |old(history)| <= k < |history| ==> Visible(history[k]) == Visible(old(catalog))
        invariant forall q: nat :: q < p ==> Prev(q) !in catalog.tables && fault(q).Works?
        invariant forall t: TableName :: !t.Prev? ==> Agree(old(catalog), catalog, t)
      {
        DropKeepsVisible(catalog, env, Prev(p));
        ok := Autocommit(DropIfExists(Prev(p)), fault(p));
        if !ok {
          return;
        }
        p := p + 1;
      }
      ok := true;
    }

    /** Phase 1: the feed copied into a fresh staging table. */
    method StageListings(w: Answers) returns (ok: bool)
      requires InService(catalog)
      modifies this
      ensures old(history) <= history && AllServing(old(catalog), history, |old(history)|)
      ensures SameServing(old(catalog), catalog) && InService(catalog)
      ensures ok ==> w.feed.Some? && StagedRows(catalog, w.feed.value)
      ensures ok <==> w.dropStaging.Works? && w.createStaging.Works? && w.feed.Some? && w.copy.Works?
    {
      hide Exec, SameServing, InService, StagedRows;
      ghost var before := catalog;
      SameServingSelf(before);
      StagingIsOffline(before, env);
      ok := Autocommit(DropIfExists(Staging), w.dropStaging);
      SameVisible(before, catalog);
      if !ok {
        return;
      }
      ghost var c1 := catalog;
      StagingIsOffline(c1, env);
      ok := Autocommit(CreateStaging, w.createStaging);
      SameServingSelf(c1);
      SameServingTrans(before, c1, catalog);
      SameVisible(before, catalog);
      if !ok || w.feed.None? {
        return false;
      }
      ghost var c2 := catalog;
      CopyIsOffline(c2, env, w.feed.value);
      ok := Autocommit(CopyStaging(w.feed.value), w.copy);
      SameServingSelf(c2);
      SameServingTrans(before, c2, catalog);
      SameVisible(before, catalog);
    }

    /**
     `LoadListings`: every state other sessions see has the whole old catalog or the whole new
     one; it succeeds only on an acceptable feed, and on every one of those when nothing outside
     the database's rules goes wrong.
     */
    method LoadListings(w: Answers, generation: string) returns (ok: bool)
      requires InService(catalog)
      modifies this
      ensures old(history) <= history
      ensures forall k :: |old(history)| <= k < |history| ==> OldOrNew(old(catalog), history[k], env, w, generation)
      ensures OldOrNew(old(catalog), catalog, env, w, generation)
      ensures ok ==> history != old(history) && history[|history| - 1] == catalog
      ensures ok ==> Replaced(old(catalog), catalog, env, w, generation)
      ensures !ok && !w.commit.LosesReply? ==> SameServing(old(catalog), catalog)
      ensures ok <==> Undisturbed(w) && Acceptable(old(catalog), env, w.feed.value, generation)
    {
      hide Exec, ExecAll, Part, AllCheck, Unique, Referenced, SameServing, InService, StagedRows;
      ghost var before := catalog;
      var staged := StageListings(w);
      if !staged {
        return false;
      }
      var rows := w.feed.value;
      var valid := ValidateStaging(rows, w.reported, w);
      if !valid {
        return false;
      }
      ghost var c3, from := catalog, |history|;
      AcceptableIsBuildable(before, env, rows, generation);
      forall p: nat
        ensures Buildable(before, env, rows, p, generation) <==> Buildable(c3, env, rows, p, generation)
      {
        SameBuildable(before, c3, env, rows, p, generation);
      }
      var built := BuildReplacementPartitions(rows, generation, w);
      ServingSoFar(before, c3, history, |old(history)|, from);
      SameServingTrans(before, c3, catalog);
      if !built {
        return false;
      }
      ghost var c4 := catalog;
      BuiltIsReplaceable(c4, env, rows, generation);
      ok := SwapPartitions(w);
      if ok || catalog != c4 {
        MovedIsNew(before, c4, catalog, env, rows, generation);
      }
    }
  }

  /** The feed passed every check, and the whole of it serves. */
  ghost predicate Replaced(before: Catalog, c: Catalog, env: Env, w: Answers, generation: string) {
    && w.feed.Some?
    && Acceptable(before, env, w.feed.value, generation)
    && NewGeneration(before, c, env, w.feed.value, generation)
  }

  ghost predicate OldOrNew(before: Catalog, c: Catalog, env: Env, w: Answers, generation: string) {
    SameServing(before, c) || Replaced(before, c, env, w, generation)
  }

  /** The replacement of `p` exists and can be attached. */
  predicate Replaceable(c: Catalog, env: Env, p: nat) {
    Next(p) in c.tables && Attachable(env, c.tables[Next(p)].rows, p)
  }

  ghost predicate MovedBelow(c: Catalog, c': Catalog, n: nat) {
    forall q: nat :: q < n ==> Moved(c, c', q)
  }

  ghost predicate UntouchedFrom(c: Catalog, c': Catalog, n: nat) {
    forall t: TableName :: !t.Staging? && t.part >= n ==> Agree(c, c', t)
  }

  ghost predicate AllMoved(c: Catalog, c': Catalog) {
    InService(c') && MovedBelow(c, c', LISTING_PARTITIONS)
  }

  /** What swapping partition `p` does to each table. */
  lemma SwapMoves(c: Catalog, p: nat)
    requires InService(c) && p < LISTING_PARTITIONS && Next(p) in c.tables
    ensures var c' := c.(tables := SwappedTables(c.tables, p));
            && InService(c') && Moved(c, c', p)
            && forall t: TableName :: t.Staging? || t.part != p ==> Agree(c, c', t)
  {
  }

  /** A swap elsewhere does not disturb what has moved, or what has not been touched. */
  lemma MovedStays(before: Catalog, c: Catalog, c': Catalog, q: nat)
    requires Moved(before, c, q) && forall t: TableName :: !t.Staging? && t.part == q ==> Agree(c, c', t)
    ensures Moved(before, c', q)
  {
    assert Agree(c, c', Live(q)) && Agree(c, c', Next(q)) && Agree(c, c', Prev(q));
  }

  lemma MovesFirst(before: Catalog, c: Catalog, c': Catalog, p: nat)
    requires Moved(c, c', p) && Agree(before, c, Live(p)) && Agree(before, c, Next(p))
    ensures Moved(before, c', p)
  {
  }

  lemma AgreeTrans(a: Catalog, b: Catalog, c: Catalog, t: TableName)
    requires Agree(a, b, t) && Agree(b, c, t)
    ensures Agree(a, c, t)
  {
  }

  /** One more partition moves, and the ones before it stay moved. */
  lemma SwapAdvances(before: Catalog, c: Catalog, c': Catalog, env: Env, p: nat)
    requires p < LISTING_PARTITIONS && InService(c) && ExecAll(c, env, SwapStatements(p)) == Some(c')
    requires MovedBelow(before, c, p) && UntouchedFrom(before, c, p) && Agree(before, c, Staging)
    ensures InService(c') && MovedBelow(before, c', p + 1) && UntouchedFrom(before, c', p + 1) && Agree(before, c', Staging)
  {
    hide Exec, ExecAll, InService, Agree, Moved, SwappedTables, Attachable;
    if Next(p) !in c.tables {
      SwapNeedsNext(c, env, p);
    }
    SwapOne(c, env, p);
    LiveInService(c, p);
    SwapMoves(c, p);
    AgreeTrans(before, c, c', Staging);
    MovesFirst(before, c, c', p);
    forall q: nat | q < p
      ensures Moved(before, c', q)
    {
      MovedStays(before, c, c', q);
    }
    forall t: TableName | !t.Staging? && t.part >= p + 1
      ensures Agree(before, c', t)
    {
      AgreeTrans(before, c, c', t);
    }
  }

  lemma LiveInService(c: Catalog, p: nat)
    requires InService(c) && p < LISTING_PARTITIONS
    ensures Live(p) in c.tables
  {
  }

  lemma SwapGoesThrough(before: Catalog, c: Catalog, env: Env, p: nat)
    requires p < LISTING_PARTITIONS && InService(c) && UntouchedFrom(before, c, p)
    ensures Replaceable(before, env, p) <==> ExecAll(c, env, SwapStatements(p)).Some?
  {
    hide Exec, ExecAll, Attachable;
    assert Agree(before, c, Next(p));
    if Next(p) in c.tables {
      SwapOne(c, env, p);
    } else {
      SwapNeedsNext(c, env, p);
    }
  }

  lemma DropKeepsVisible(c: Catalog, env: Env, t: TableName)
    requires InService(c) && t.Prev?
    ensures var dropped := Exec(c, env, DropIfExists(t));
            && dropped.Some? && InService(dropped.value) && Visible(dropped.value) == Visible(c)
            && dropped.value.tables == c.tables - {t}
  {
    var c' := Exec(c, env, DropIfExists(t)).value;
    assert c'.attached == c.attached;
  }

  lemma StagingIsOffline(c: Catalog, env: Env)
    requires InService(c)
    ensures var dropped := Exec(c, env, DropIfExists(Staging));
            dropped.Some? && SameServing(c, dropped.value) && Staging !in dropped.value.tables
    ensures Staging !in c.tables ==>
              var created := Exec(c, env, CreateStaging);
              created.Some? && SameServing(c, created.value) && StagedRows(created.value, [])
  {
    OfflineKeepsServing(c, env, DropIfExists(Staging));
    OfflineKeepsServing(c, env, CreateStaging);
  }

  lemma CopyIsOffline(c: Catalog, env: Env, rows: seq<Listing>)
    requires InService(c) && StagedRows(c, [])
    ensures var copied := Exec(c, env, CopyStaging(rows));
            copied.Some? && SameServing(c, copied.value) && StagedRows(copied.value, rows)
  {
    OfflineKeepsServing(c, env, CopyStaging(rows));
    assert [] + rows == rows;
  }

  lemma BuiltIsReplaceable(c: Catalog, env: Env, rows: seq<Listing>, generation: string)
    requires AllBuilt(c, env, rows, generation) && Referenced(env, rows) && Unique(rows, PrimaryKey) && Unique(rows, SkuKey)
    ensures forall p: nat :: p < LISTING_PARTITIONS ==> Replaceable(c, env, p)
  {
    UniqueByPartition(env, rows, PrimaryKey);
    UniqueByPartition(env, rows, SkuKey);
    hide Part, Unique;
    forall p: nat | p < LISTING_PARTITIONS
      ensures Replaceable(c, env, p)
    {
      assert Built(c, env, rows, p, generation);
      PartRows(env, rows, p);
    }
  }

  lemma MovedIsNew(before: Catalog, c: Catalog, c': Catalog, env: Env, rows: seq<Listing>, generation: string)
    requires SameServing(before, c) && InService(before) && AllBuilt(c, env, rows, generation) && AllMoved(c, c')
    ensures NewGeneration(before, c', env, rows, generation)
  {
    hide Part;
    forall p: nat | p < LISTING_PARTITIONS
      ensures Live(p) in c'.tables && c'.tables[Live(p)] == Table(Part(env, rows, p), Some(generation), true)
      ensures Prev(p) in c'.tables && Live(p) in before.tables && c'.tables[Prev(p)] == before.tables[Live(p)]
      ensures Next(p) !in c'.tables
    {
      assert Moved(c, c', p) && Built(c, env, rows, p, generation) && Agree(before, c, Live(p));
    }
  }

  // The new catalog

  /** The rows of a scan over the first `n` partitions. */
  ghost function Scan(c: Catalog, n: nat): seq<Listing> {
    if n == 0 then []
    else Scan(c, n - 1) + if n - 1 in Visible(c) then Visible(c)[n - 1] else []
  }

  lemma {:induction false} NewScan(before: Catalog, c: Catalog, env: Env, rows: seq<Listing>, generation: string, n: nat)
    requires NewGeneration(before, c, env, rows, generation) && n <= LISTING_PARTITIONS
    ensures Scan(c, n) == FirstParts(env, rows, n)
  {
    hide Part;
    if n > 0 {
      NewScan(before, c, env, rows, generation, n - 1);
      assert n - 1 in c.attached && c.attached[n - 1] == Live(n - 1);
    }
  }

  lemma NewVisible(before: Catalog, c: Catalog, env: Env, rows: seq<Listing>, generation: string, r: nat)
    requires NewGeneration(before, c, env, rows, generation) && r in Visible(c)
    ensures Visible(c)[r] == Part(env, rows, r)
  {
    hide Part;
  }

  lemma OldKept(before: Catalog, c: Catalog, env: Env, rows: seq<Listing>, generation: string, p: nat)
    requires InService(before) && NewGeneration(before, c, env, rows, generation) && p < LISTING_PARTITIONS
    ensures p in Visible(before) && Prev(p) in c.tables && c.tables[Prev(p)].rows == Visible(before)[p]
  {
    hide Part;
  }

  /**
   After a committed swap the live table holds the feed, row for row; each row lies in the one
   partition its hash names; and the retired tables hold all that was visible before.
   */
  lemma NewCatalog(before: Catalog, c: Catalog, env: Env, rows: seq<Listing>, generation: string)
    requires InService(before) && NewGeneration(before, c, env, rows, generation)
    ensures multiset(Scan(c, LISTING_PARTITIONS)) == multiset(rows)
    ensures forall r, l :: r in Visible(c) && l in Visible(c)[r] ==> r == PartitionOf(env, l)
    ensures forall p: nat :: p < LISTING_PARTITIONS ==>
              p in Visible(before) && Prev(p) in c.tables && c.tables[Prev(p)].rows == Visible(before)[p]
  {
    hide InService, NewGeneration, Scan, FirstParts, Visible, Part, PartitionOf;
    NewScan(before, c, env, rows, generation, LISTING_PARTITIONS);
    PartitionsCover(env, rows);
    forall r | r in Visible(c)
      ensures forall l :: l in Visible(c)[r] ==> r == PartitionOf(env, l)
    {
      NewVisible(before, c, env, rows, generation, r);
      PartRows(env, rows, r);
    }
    forall p: nat | p < LISTING_PARTITIONS
      ensures p in Visible(before) && Prev(p) in c.tables && c.tables[Prev(p)].rows == Visible(before)[p]
    {
      OldKept(before, c, env, rows, generation, p);
    }
  }

  lemma SameServingSelf(c: Catalog)
    ensures SameServing(c, c)
  {
  }

  lemma BuildIsOffline(p: nat, generation: string)
    ensures forall st :: st in BuildStatements(p, generation) ==> Offline(st)
  {
  }

  lemma SameBuildable(before: Catalog, c: Catalog, env: Env, rows: seq<Listing>, p: nat, generation: string)
    requires SameServing(before, c)
    ensures Buildable(before, env, rows, p, generation) <==> Buildable(c, env, rows, p, generation)
  {
    hide Unique, AllCheck, Part;
    assert Agree(before, c, Live(p)) && Agree(before, c, Prev(p));
  }

  lemma ServingSoFar(before: Catalog, here: Catalog, history: seq<Catalog>, from: nat, middle: nat)
    requires SameServing(before, here) && from <= middle <= |history|
    requires AllServing(before, history[..middle], from) && AllServing(here, history, middle)
    ensures AllServing(before, history, from)
  {
    forall k | from <= k < |history|
      ensures SameServing(before, history[k])
    {
      if k < middle {
        assert history[..middle][k] == history[k];
      } else {
        SameServingTrans(before, here, history[k]);
      }
    }
  }

  lemma OthersStay(c: Catalog, c': Catalog, p: nat)
    requires OnlyNext(c, c', p)
    ensures forall t :: t != Next(p) ==> Agree(c, c', t)
  {
    forall t | t != Next(p)
      ensures Agree(c, c', t)
    {
      assert t in c.tables <==> t in c.tables - {Next(p)};
      assert t in c'.tables <==> t in c'.tables - {Next(p)};
    }
  }
}
