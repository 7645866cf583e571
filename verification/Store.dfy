/**
 The settlement tables and the transactions over them. Each transaction is one atomic change
 of the database, with the ways it can fail as an argument.
 */
module Store {
  import opened Prelude
  import opened Commission

  // 'reversed' is declared by the schema and written by nobody.
  datatype Status = Pending | Confirmed | Failed

  datatype Account = MerchantPayable | PlatformRevenue | PublisherPayable

  const PLATFORM_ACCOUNT_ID: string := "platform"

  datatype Listing = Listing(
    listingId: string,
    productId: string,
    merchantId: string,
    priceCents: int,
    currency: string,
    inStock: bool,
    commissionBps: int)

  /** A settlement as it is first written: all its columns but the outcome. */
  datatype PendingSettlement = PendingSettlement(
    settlementId: string,
    assertionId: string,
    searchRequestId: string,
    publisherId: string,
    merchantId: string,
    productId: string,
    gross: int,
    currency: string,
    commissionBps: int,
    split: Split,
    network: string)

  datatype Claim = Claim(publisherId: string, productId: string)

  /** A settlements row; a NULL column is None. */
  datatype Row = Row(
    details: PendingSettlement,
    searchRequestId: Option<string>,
    status: Status,
    txHash: Option<string>,
    confirmedAt: Option<int>)

  datatype Entry = Entry(settlementId: string, account: Account, accountId: string, amount: int, currency: string)

  datatype Rejection = Rejection(
    publisherId: string,
    assertionId: Option<string>,
    merchantId: Option<string>,
    reason: string,
    detail: Option<string>)

  /** The tables other rows refer to. */
  datatype References = References(
    publishers: set<string>,
    products: set<string>,
    merchants: set<string>,
    searchRequests: set<string>)

  datatype Database = Database(
    consumed: map<string, Claim>,
    settlements: map<string, Row>,
    ledger: seq<Entry>,
    rejected: seq<Rejection>,
    listings: set<Listing>,
    refs: References)

  /**
   How a transaction can go wrong: before its nth statement takes effect, at a commit that
   rolled back, or at a commit that took effect but whose acknowledgement was lost.
   */
  datatype TxFault = NoFault | BeforeStatement(n: nat) | CommitRolledBack | CommitUnacknowledged

  /** How a single statement can go wrong. */
  datatype StatementFault = Executed | NotExecuted | Unacknowledged

  datatype BeginResult = Begun | AssertionReused | BeginFailed

  // Begin

  function NullIfEmpty(s: string): Option<string> {
    if s == "" then None else Some(s)
  }

  /** The constraints on a settlements row: its checks and its foreign keys. */
  predicate RowAllowed(db: Database, p: PendingSettlement) {
    && p.settlementId !in db.settlements
    && p.publisherId in db.refs.publishers
    && p.merchantId in db.refs.merchants
    && p.productId in db.refs.products
    && (p.searchRequestId == "" || p.searchRequestId in db.refs.searchRequests)
    && Balanced(p)
  }

  predicate Balanced(p: PendingSettlement) {
    && p.gross > 0
    && 0 <= p.commissionBps <= 10_000
    && p.split.commission >= 0 && p.split.platformFee >= 0 && p.split.publisher >= 0
    && p.split.platformFee + p.split.publisher == p.split.commission
  }

  predicate ClaimAllowed(db: Database, p: PendingSettlement) {
    p.publisherId in db.refs.publishers && p.productId in db.refs.products
  }

  function PendingRow(p: PendingSettlement): Row {
    Row(p, NullIfEmpty(p.searchRequestId), Pending, None, None)
  }

  function WithPending(db: Database, p: PendingSettlement): Database {
    db.(consumed := db.consumed[p.assertionId := Claim(p.publisherId, p.productId)],
        settlements := db.settlements[p.settlementId := PendingRow(p)])
  }

  /** The claim and the pending row, together or not at all. */
  function BeginTx(db: Database, p: PendingSettlement, fault: TxFault): (Database, BeginResult) {
    if fault == BeforeStatement(0) then (db, BeginFailed)
    else if p.assertionId in db.consumed then (db, AssertionReused)
    else if !ClaimAllowed(db, p) || fault == BeforeStatement(1) || !RowAllowed(db, p) then (db, BeginFailed)
    else
      match fault
      case CommitRolledBack => (db, BeginFailed)
      case CommitUnacknowledged => (WithPending(db, p), BeginFailed)
      case _ => (WithPending(db, p), Begun)
  }

  // Confirm and Fail

  /** `UPDATE settlements ... WHERE settlement_id = $1 AND status = 'pending'` matches a row. */
  predicate IsPending(db: Database, settlementId: string) {
    settlementId in db.settlements && db.settlements[settlementId].status.Pending?
  }

  function EntriesOf(p: PendingSettlement): seq<Entry> {
    [Entry(p.settlementId, MerchantPayable, p.merchantId, -p.split.commission, p.currency),
     Entry(p.settlementId, PlatformRevenue, PLATFORM_ACCOUNT_ID, p.split.platformFee, p.currency),
     Entry(p.settlementId, PublisherPayable, p.publisherId, p.split.publisher, p.currency)]
  }

  function ConfirmedRow(row: Row, txHash: string, at: int): Row {
    row.(status := Confirmed, txHash := Some(txHash), confirmedAt := Some(at))
  }

  function WithConfirmed(db: Database, p: PendingSettlement, txHash: string, at: int): Database
    requires p.settlementId in db.settlements
  {
    db.(settlements := db.settlements[p.settlementId := ConfirmedRow(db.settlements[p.settlementId], txHash, at)],
        ledger := db.ledger + EntriesOf(p))
  }

  /** The status change and the three entries, together or not at all; true when reported done. */
  function ConfirmTx(db: Database, p: PendingSettlement, txHash: string, at: int, fault: TxFault): (Database, bool) {
    if fault == BeforeStatement(0) || !IsPending(db, p.settlementId) || fault == BeforeStatement(1) then (db, false)
    else
      match fault
      case CommitRolledBack => (db, false)
      case CommitUnacknowledged => (WithConfirmed(db, p, txHash, at), false)
      case _ => (WithConfirmed(db, p, txHash, at), true)
  }

  function WithFailed(db: Database, settlementId: string): Database {
    if IsPending(db, settlementId)
    then db.(settlements := db.settlements[settlementId := db.settlements[settlementId].(status := Failed)])
    else db
  }

  function FailTx(db: Database, settlementId: string, fault: StatementFault): (Database, bool) {
    match fault
    case Executed => (WithFailed(db, settlementId), true)
    case NotExecuted => (db, false)
    case Unacknowledged => (WithFailed(db, settlementId), false)
  }

  function RejectTx(db: Database, r: Rejection, fault: StatementFault): (Database, bool) {
    if fault.NotExecuted? then (db, false) else (db.(rejected := db.rejected + [r]), fault.Executed?)
  }

  /** What `SELECT ... WHERE product_id = $1 AND merchant_id = $2` may return as its first row. */
  predicate IsFirstRow(db: Database, productId: string, merchantId: string, row: Option<Listing>) {
    if row.Some?
    then row.value in db.listings && row.value.productId == productId && row.value.merchantId == merchantId
    else forall l :: l in db.listings ==> l.productId != productId || l.merchantId != merchantId
  }

  // What every transaction keeps

  function BelongsTo(settlementId: string): Entry -> bool {
    (e: Entry) => e.settlementId == settlementId
  }

  function EntriesFor(ledger: seq<Entry>, settlementId: string): seq<Entry> {
    Filter(ledger, BelongsTo(settlementId))
  }

  function AmountWeight(): Entry -> int {
    (e: Entry) => e.amount
  }

  predicate Grows(refs: References, refs': References) {
    && refs.publishers <= refs'.publishers && refs.products <= refs'.products
    && refs.merchants <= refs'.merchants && refs.searchRequests <= refs'.searchRequests
  }

  type Rows = map<string, Row>

  /** Consumed assertions and settlements are in bijection by assertion id. */
  ghost predicate ClaimsMatchRows(consumed: map<string, Claim>, rows: Rows) {
    && (forall id :: id in rows ==> HasClaim(consumed, rows[id].details))
    && (forall i, j :: i in rows && j in rows && i != j ==> rows[i].details.assertionId != rows[j].details.assertionId)
    && (forall a :: a in consumed ==> HasRow(rows, a))
  }

  ghost predicate HasClaim(consumed: map<string, Claim>, p: PendingSettlement) {
    p.assertionId in consumed && consumed[p.assertionId] == Claim(p.publisherId, p.productId)
  }

  ghost predicate HasRow(rows: Rows, assertionId: string) {
    exists id :: id in rows && rows[id].details.assertionId == assertionId
  }

  /** Every row satisfies its constraints. */
  ghost predicate RowsLegal(rows: Rows, refs: References) {
    forall id :: id in rows ==> RowLegal(rows[id], id, refs)
  }

  ghost predicate RowLegal(row: Row, id: string, refs: References) {
    && row.details.settlementId == id
    && Balanced(row.details)
    && row.details.publisherId in refs.publishers
    && row.details.merchantId in refs.merchants
    && row.details.productId in refs.products
    && row.searchRequestId == NullIfEmpty(row.details.searchRequestId)
    && (row.searchRequestId.Some? ==> row.searchRequestId.value in refs.searchRequests)
    && (row.status.Confirmed? <==> row.txHash.Some?) && (row.status.Confirmed? <==> row.confirmedAt.Some?)
  }

  function ExpectedEntries(row: Row): seq<Entry> {
    if row.status.Confirmed? then EntriesOf(row.details) else []
  }

  /** A confirmed settlement has exactly the three entries of its split, any other none. */
  ghost predicate LedgerMatchesRows(ledger: seq<Entry>, rows: Rows) {
    && (forall id :: id in rows ==> EntriesFor(ledger, id) == ExpectedEntries(rows[id]))
    && (forall k :: 0 <= k < |ledger| ==> ledger[k].settlementId in rows)
  }

  ghost predicate Consistent(db: Database) {
    && ClaimsMatchRows(db.consumed, db.settlements)
    && RowsLegal(db.settlements, db.refs)
    && LedgerMatchesRows(db.ledger, db.settlements)
    && SumOf(db.ledger, AmountWeight()) == 0
  }

  lemma NewRowKeepsClaims(consumed: map<string, Claim>, rows: Rows, row: Row, id: string)
    requires ClaimsMatchRows(consumed, rows) && row.details.assertionId !in consumed && id !in rows
    ensures var d := row.details;
            ClaimsMatchRows(consumed[d.assertionId := Claim(d.publisherId, d.productId)], rows[id := row])
  {
    var d := row.details;
    var rows' := rows[id := row];
    assert rows'[id].details == d;
    forall a | a in consumed
      ensures HasRow(rows', a)
    {
      var i :| i in rows && rows[i].details.assertionId == a;
      assert rows'[i] == rows[i];
    }
    assert forall i :: i in rows ==> HasClaim(consumed, rows[i].details);
  }

  lemma NewRowKeepsLedger(ledger: seq<Entry>, rows: Rows, row: Row, id: string)
    requires LedgerMatchesRows(ledger, rows) && id !in rows && !row.status.Confirmed?
    ensures LedgerMatchesRows(ledger, rows[id := row])
  {
    FilterNone(ledger, BelongsTo(id));
  }

  lemma BeginKeepsConsistent(db: Database, p: PendingSettlement, fault: TxFault)
    requires Consistent(db)
    ensures Consistent(BeginTx(db, p, fault).0)
  {
    hide ClaimsMatchRows, LedgerMatchesRows;
    if BeginTx(db, p, fault).0 != db {
      NewRowKeepsClaims(db.consumed, db.settlements, PendingRow(p), p.settlementId);
      NewRowKeepsLedger(db.ledger, db.settlements, PendingRow(p), p.settlementId);
    }
  }

  /** The three entries of one settlement offset each other. */
  lemma EntriesSumToZero(p: PendingSettlement)
    requires Balanced(p)
    ensures SumOf(EntriesOf(p), AmountWeight()) == 0
  {
    var e := EntriesOf(p);
    SumThree(e[0], e[1], e[2], AmountWeight());
  }

  lemma SumThree(x: Entry, y: Entry, z: Entry, weight: Entry -> int)
    ensures SumOf([x, y, z], weight) == weight(x) + weight(y) + weight(z)
  {
    assert [x, y, z] == [] + [x] + [y] + [z];
    SumSnoc([], x, weight);
    SumSnoc([] + [x], y, weight);
    SumSnoc([] + [x] + [y], z, weight);
  }

  /** A change of one row's status leaves claims and rows paired as they were. */
  lemma StatusChangeKeepsClaims(consumed: map<string, Claim>, rows: Rows, row: Row, id: string)
    requires ClaimsMatchRows(consumed, rows)
    requires id in rows && row.details == rows[id].details
    ensures ClaimsMatchRows(consumed, rows[id := row])
  {
    var rows' := rows[id := row];
    assert forall i :: i in rows' ==> rows'[i].details == rows[i].details;
    forall a | a in consumed
      ensures HasRow(rows', a)
    {
      var i :| i in rows && rows[i].details.assertionId == a;
      assert rows'[i].details.assertionId == a;
    }
  }

  lemma AppendedEntries(ledger: seq<Entry>, p: PendingSettlement, id: string)
    ensures EntriesFor(ledger + EntriesOf(p), id)
            == EntriesFor(ledger, id) + if id == p.settlementId then EntriesOf(p) else []
  {
    FilterAppend(ledger, EntriesOf(p), BelongsTo(id));
    if id == p.settlementId {
      FilterAll(EntriesOf(p), BelongsTo(id));
    } else {
      FilterNone(EntriesOf(p), BelongsTo(id));
    }
  }

  lemma ConfirmedRowKeepsLedger(ledger: seq<Entry>, rows: Rows, row: Row, id: string)
    requires LedgerMatchesRows(ledger, rows)
    requires id in rows && !rows[id].status.Confirmed? && row.status.Confirmed? && row.details.settlementId == id
    ensures LedgerMatchesRows(ledger + EntriesOf(row.details), rows[id := row])
  {
    var rows' := rows[id := row];
    forall i | i in rows'
      ensures EntriesFor(ledger + EntriesOf(row.details), i) == ExpectedEntries(rows'[i])
    {
      AppendedEntries(ledger, row.details, i);
      assert i in rows && EntriesFor(ledger, i) == ExpectedEntries(rows[i]);
    }
  }

  lemma EntriesBalance(ledger: seq<Entry>, p: PendingSettlement)
    requires Balanced(p)
    ensures SumOf(ledger + EntriesOf(p), AmountWeight()) == SumOf(ledger, AmountWeight())
  {
    EntriesSumToZero(p);
    SumAppend(ledger, EntriesOf(p), AmountWeight());
  }

  lemma LegalRowPut(rows: Rows, row: Row, id: string, refs: References)
    requires RowsLegal(rows, refs) && RowLegal(row, id, refs)
    ensures RowsLegal(rows[id := row], refs)
  {
  }

  lemma ConfirmKeepsConsistent(db: Database, p: PendingSettlement, txHash: string, at: int, fault: TxFault)
    requires Consistent(db)
    requires p.settlementId in db.settlements ==> db.settlements[p.settlementId].details == p
    ensures Consistent(ConfirmTx(db, p, txHash, at, fault).0)
  {
    var id := p.settlementId;
    if ConfirmTx(db, p, txHash, at, fault).0 != db {
      var row := ConfirmedRow(db.settlements[id], txHash, at);
      assert RowLegal(db.settlements[id], id, db.refs);
      StatusChangeKeepsClaims(db.consumed, db.settlements, row, id);
      LegalRowPut(db.settlements, row, id, db.refs);
      ConfirmedRowKeepsLedger(db.ledger, db.settlements, row, id);
      EntriesBalance(db.ledger, p);
      assert ConfirmTx(db, p, txHash, at, fault).0 == WithConfirmed(db, p, txHash, at);
    }
  }

  lemma FailedRowKeepsLedger(ledger: seq<Entry>, rows: Rows, row: Row, id: string)
    requires LedgerMatchesRows(ledger, rows)
    requires id in rows && !rows[id].status.Confirmed? && !row.status.Confirmed?
    ensures LedgerMatchesRows(ledger, rows[id := row])
  {
    assert ExpectedEntries(row) == ExpectedEntries(rows[id]);
  }

  lemma FailKeepsConsistent(db: Database, settlementId: string, fault: StatementFault)
    requires Consistent(db)
    ensures Consistent(FailTx(db, settlementId, fault).0)
  {
    hide ClaimsMatchRows, LedgerMatchesRows;
    if IsPending(db, settlementId) {
      var row := db.settlements[settlementId].(status := Failed);
      assert RowLegal(db.settlements[settlementId], settlementId, db.refs);
      StatusChangeKeepsClaims(db.consumed, db.settlements, row, settlementId);
      FailedRowKeepsLedger(db.ledger, db.settlements, row, settlementId);
    }
  }

  /** Reference tables may grow, and listings and rejections change, without disturbing the settlement tables. */
  lemma SideTablesKeepConsistent(db: Database, db': Database)
    requires Consistent(db) && Grows(db.refs, db'.refs)
    requires db'.consumed == db.consumed && db'.settlements == db.settlements && db'.ledger == db.ledger
    ensures Consistent(db')
  {
    forall id | id in db.settlements
      ensures RowLegal(db.settlements[id], id, db'.refs)
    {
      assert RowLegal(db.settlements[id], id, db.refs);
    }
  }

  /** Every error from `Begin` other than a lost acknowledgement leaves every table unchanged. */
  lemma BeginErrorChangesNothing(db: Database, p: PendingSettlement, fault: TxFault)
    ensures var (db', r) := BeginTx(db, p, fault);
            && (r.Begun? ==> db' == WithPending(db, p) && p.assertionId !in db.consumed)
            && (!r.Begun? && !fault.CommitUnacknowledged? ==> db' == db)
            && (p.assertionId in db.consumed ==> db' == db && !r.Begun?)
            && (r.AssertionReused? <==> p.assertionId in db.consumed && fault != BeforeStatement(0))
  {
  }
}
