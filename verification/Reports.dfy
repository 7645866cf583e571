/** The dashboard's read models, and why they agree with the ledger. */
module Reports {
  import opened Prelude
  import opened Store
  import opened Protocol
  import opened Detail
  import opened Decimal
  import opened ProtocolInvariant
  import opened ProtocolTheorems
  import A = Assertion
  import F = Facilitator

  // The aggregates the queries compute; an absent group is COALESCEd to zero.

  function CountWeight(publisherId: string, status: Status): Row -> int {
    (row: Row) => if row.status == status && row.details.publisherId == publisherId then 1 else 0
  }

  function EarnedWeight(publisherId: string): Row -> int {
    (row: Row) => if row.status.Confirmed? && row.details.publisherId == publisherId then row.details.split.publisher else 0
  }

  function FeeWeight(publisherId: string): Row -> int {
    (row: Row) => if row.status.Confirmed? && row.details.publisherId == publisherId then row.details.split.platformFee else 0
  }

  function GrossWeight(publisherId: string): Row -> int {
    (row: Row) => if row.status.Confirmed? && row.details.publisherId == publisherId then row.details.gross else 0
  }

  function BlockedWeight(publisherId: string): Rejection -> int {
    (r: Rejection) => if r.publisherId == publisherId then 1 else 0
  }

  function ConsumedWeight(publisherId: string): Claim -> int {
    (c: Claim) => if c.publisherId == publisherId then 1 else 0
  }

  /** The columns of `PublisherSummary`, which hold those of a `ListPublishers` line. */
  datatype Summary = Summary(
    settlementCount: int,
    gross: int,
    earned: int,
    platformFee: int,
    assertionsConsumed: int,
    blocked: int,
    failed: int)

  ghost function PublisherSummary(db: Database, publisherId: string): Option<Summary> {
    if publisherId !in db.refs.publishers then None
    else Some(Summary(
      SumMap(db.settlements, CountWeight(publisherId, Confirmed)),
      SumMap(db.settlements, GrossWeight(publisherId)),
      SumMap(db.settlements, EarnedWeight(publisherId)),
      SumMap(db.settlements, FeeWeight(publisherId)),
      SumMap(db.consumed, ConsumedWeight(publisherId)),
      SumOf(db.rejected, BlockedWeight(publisherId)),
      SumMap(db.settlements, CountWeight(publisherId, Failed))))
  }

  /** One settlement from claim to ledger; its inner joins drop a row that lost a partner. */
  function Chain(db: Database, settlementId: string): Option<(Row, Claim, seq<Entry>)> {
    if settlementId !in db.settlements then None
    else
      var row := db.settlements[settlementId];
      var d := row.details;
      if d.publisherId in db.refs.publishers && d.productId in db.refs.products && d.merchantId in db.refs.merchants
         && d.assertionId in db.consumed
      then Some((row, db.consumed[d.assertionId], EntriesFor(db.ledger, settlementId)))
      else None
  }

  // The same figures read off the ledger

  function AccountWeight(account: Account, accountId: string): Entry -> int {
    (e: Entry) => if e.account == account && e.accountId == accountId then e.amount else 0
  }

  function AccountCount(account: Account, accountId: string): Entry -> int {
    (e: Entry) => if e.account == account && e.accountId == accountId then 1 else 0
  }

  function WholeAccount(account: Account): Entry -> int {
    (e: Entry) => if e.account == account then e.amount else 0
  }

  /** Platform revenue from one publisher's settlements. */
  function FeeOnLedger(rows: Rows, publisherId: string): Entry -> int {
    (e: Entry) =>
      if e.account.PlatformRevenue? && e.settlementId in rows && rows[e.settlementId].details.publisherId == publisherId
      then e.amount else 0
  }

  function Not(id: string): Entry -> bool {
    (e: Entry) => e.settlementId != id
  }

  lemma {:induction false} SumByMembership(ledger: seq<Entry>, id: string, weight: Entry -> int)
    ensures SumOf(ledger, weight) == SumOf(EntriesFor(ledger, id), weight) + SumOf(Filter(ledger, Not(id)), weight)
  {
    if ledger != [] {
      var front, e := ledger[..|ledger| - 1], ledger[|ledger| - 1];
      SumByMembership(front, id, weight);
      SumSnoc(EntriesFor(front, id), e, weight);
      SumSnoc(Filter(front, Not(id)), e, weight);
    }
  }

  lemma {:induction false} FilteredLedger(ledger: seq<Entry>, id: string)
    ensures forall j :: j != id ==> EntriesFor(Filter(ledger, Not(id)), j) == EntriesFor(ledger, j)
    ensures forall k :: 0 <= k < |Filter(ledger, Not(id))| ==>
              Filter(ledger, Not(id))[k] in ledger && Filter(ledger, Not(id))[k].settlementId != id
  {
    if ledger != [] {
      var front, e := ledger[..|ledger| - 1], ledger[|ledger| - 1];
      FilteredLedger(front, id);
      assert ledger == front + [e];
      FilterSnoc(front, e, Not(id));
      forall j | j != id
        ensures EntriesFor(Filter(ledger, Not(id)), j) == EntriesFor(ledger, j)
      {
        assert EntriesFor(Filter(front, Not(id)), j) == EntriesFor(front, j);
        FilterSnoc(front, e, BelongsTo(j));
        FilterSnoc(Filter(front, Not(id)), e, BelongsTo(j));
      }
    }
  }

  lemma LedgerWithout(ledger: seq<Entry>, rows: Rows, id: string)
    requires LedgerMatchesRows(ledger, rows) && id in rows
    ensures LedgerMatchesRows(Filter(ledger, Not(id)), rows - {id})
    ensures EntriesFor(ledger, id) == ExpectedEntries(rows[id])
  {
    hide EntriesOf;
    FilteredLedger(ledger, id);
  }

  lemma EntriesNeedRows(ledger: seq<Entry>, rows: Rows)
    requires LedgerMatchesRows(ledger, rows) && ledger != []
    ensures rows != map[]
  {
    assert ledger[0].settlementId in rows;
  }

  /**
   Any figure read off the ledger equals the figure read off the rows, as soon as it does for
   the three entries of each single confirmed row.
   */
  lemma {:induction false} LedgerTotal(ledger: seq<Entry>, rows: Rows, weight: Entry -> int, rowWeight: Row -> int)
    requires LedgerMatchesRows(ledger, rows)
    requires forall id :: id in rows ==> SumOf(ExpectedEntries(rows[id]), weight) == rowWeight(rows[id])
    ensures SumOf(ledger, weight) == SumMap(rows, rowWeight)
    decreases |rows|
  {
    hide LedgerMatchesRows, ExpectedEntries, EntriesFor;
    if rows == map[] {
      if ledger != [] {
        EntriesNeedRows(ledger, rows);
      }
    } else {
      var id :| id in rows;
      var rest := Filter(ledger, Not(id));
      SumByMembership(ledger, id, weight);
      LedgerWithout(ledger, rows, id);
      SumMapTake(rows, id, rowWeight);
      LedgerTotal(rest, rows - {id}, weight, rowWeight);
    }
  }

  lemma EntriesSum(row: Row, weight: Entry -> int)
    ensures row.status.Confirmed? ==>
              var e := EntriesOf(row.details);
              SumOf(ExpectedEntries(row), weight) == weight(e[0]) + weight(e[1]) + weight(e[2])
    ensures !row.status.Confirmed? ==> SumOf(ExpectedEntries(row), weight) == 0
  {
    var e := EntriesOf(row.details);
    SumThree(e[0], e[1], e[2], weight);
  }

  /**
   In every reachable state a publisher's figures are the ledger's: what it earned is its
   publisher_payable balance, how many settlements it has is how many such entries it has, and
   the platform fee shown is the platform_revenue written for its settlements.
   */
  lemma DashboardMatchesLedger(w: World, s: State, publisherId: string)
    requires Reachable(w, s) && publisherId in s.db.refs.publishers
    ensures var summary := PublisherSummary(s.db, publisherId).value;
            && summary.earned == SumOf(s.db.ledger, AccountWeight(PublisherPayable, publisherId))
            && summary.settlementCount == SumOf(s.db.ledger, AccountCount(PublisherPayable, publisherId))
            && summary.platformFee == SumOf(s.db.ledger, FeeOnLedger(s.db.settlements, publisherId))
  {
    hide Reachable, Inv;
    ReachableInv(w, s);
    InvMeansLedger(w, s);
    hide LedgerMatchesRows;
    var rows := s.db.settlements;
    forall id | id in rows
      ensures SumOf(ExpectedEntries(rows[id]), AccountWeight(PublisherPayable, publisherId)) == EarnedWeight(publisherId)(rows[id])
      ensures SumOf(ExpectedEntries(rows[id]), AccountCount(PublisherPayable, publisherId)) == CountWeight(publisherId, Confirmed)(rows[id])
      ensures SumOf(ExpectedEntries(rows[id]), FeeOnLedger(rows, publisherId)) == FeeWeight(publisherId)(rows[id])
    {
      EntriesSum(rows[id], AccountWeight(PublisherPayable, publisherId));
      EntriesSum(rows[id], AccountCount(PublisherPayable, publisherId));
      EntriesSum(rows[id], FeeOnLedger(rows, publisherId));
    }
    LedgerTotal(s.db.ledger, rows, AccountWeight(PublisherPayable, publisherId), EarnedWeight(publisherId));
    LedgerTotal(s.db.ledger, rows, AccountCount(PublisherPayable, publisherId), CountWeight(publisherId, Confirmed));
    LedgerTotal(s.db.ledger, rows, FeeOnLedger(rows, publisherId), FeeWeight(publisherId));
  }

  lemma InvMeansLedger(w: World, s: State)
    requires Inv(w, s)
    ensures LedgerMatchesRows(s.db.ledger, s.db.settlements)
    ensures forall id :: id in s.db.settlements ==> RowLegal(s.db.settlements[id], id, s.db.refs)
    ensures forall id :: id in s.db.settlements ==> s.db.settlements[id].details.settlementId == id
    ensures RowsLegal(s.db.settlements, s.db.refs)
    ensures SumOf(s.db.ledger, AmountWeight()) == 0
    ensures ClaimsMatchRows(s.db.consumed, s.db.settlements)
  {
    hide AdmissionsMatchRows, CallsOk, AttemptsOk, TransfersOk, ConfirmedPaid, Balanced;
  }

  // Every party together

  function EarnedBy(db: Database): string -> int {
    (p: string) => SumOf(db.ledger, AccountWeight(PublisherPayable, p))
  }

  ghost predicate Enumerates(xs: seq<string>, ids: set<string>) {
    && (forall i, j :: 0 <= i < j < |xs| ==> xs[i] != xs[j])
    && (forall x :: x in xs <==> x in ids)
  }

  function InList(account: Account, xs: seq<string>): Entry -> int {
    (e: Entry) => if e.account == account && e.accountId in xs then e.amount else 0
  }

  /** Adding up one account per holder, over distinct holders, adds up every entry they hold. */
  lemma {:induction false} SumOverHolders(ledger: seq<Entry>, account: Account, xs: seq<string>, balance: string -> int)
    requires forall i, j :: 0 <= i < j < |xs| ==> xs[i] != xs[j]
    requires forall x :: x in xs ==> balance(x) == SumOf(ledger, AccountWeight(account, x))
    ensures SumOf(xs, balance) == SumOf(ledger, InList(account, xs))
  {
    if xs == [] {
      NoHolders(ledger, account);
    } else {
      var front, x := xs[..|xs| - 1], xs[|xs| - 1];
      SumOverHolders(ledger, account, front, balance);
      assert xs == front + [x];
      SumSplit(ledger, InList(account, xs), InList(account, front), AccountWeight(account, x));
    }
  }

  lemma {:induction false} NoHolders(ledger: seq<Entry>, account: Account)
    ensures SumOf(ledger, InList(account, [])) == 0
  {
    if ledger != [] {
      NoHolders(ledger[..|ledger| - 1], account);
    }
  }

  /** Every ledger entry's holder is a party of its kind. */
  lemma HoldersKnown(ledger: seq<Entry>, rows: Rows, refs: References, k: nat)
    requires LedgerMatchesRows(ledger, rows) && RowsLegal(rows, refs) && k < |ledger|
    ensures ledger[k].account.PublisherPayable? ==> ledger[k].accountId in refs.publishers
    ensures ledger[k].account.MerchantPayable? ==> ledger[k].accountId in refs.merchants
  {
    var e := ledger[k];
    var id := e.settlementId;
    FilterKeeps(ledger, k, BelongsTo(id));
    assert e in ExpectedEntries(rows[id]);
    assert RowLegal(rows[id], id, refs);
  }

  function OwedBy(db: Database): string -> int {
    (m: string) => SumOf(db.ledger, AccountWeight(MerchantPayable, m))
  }

  /**
   Over all parties the books close: what publishers earned, the platform's revenue and what
   merchants owe sum to zero.
   */
  lemma BooksClose(w: World, s: State, publishers: seq<string>, merchants: seq<string>)
    requires Reachable(w, s)
    requires Enumerates(publishers, s.db.refs.publishers) && Enumerates(merchants, s.db.refs.merchants)
    ensures SumOf(publishers, EarnedBy(s.db)) + SumOf(s.db.ledger, WholeAccount(PlatformRevenue)) + SumOf(merchants, OwedBy(s.db)) == 0
  {
    hide Reachable, Inv, LedgerMatchesRows, ClaimsMatchRows, RowLegal;
    ReachableInv(w, s);
    InvMeansLedger(w, s);
    var db := s.db;
    SumOverHolders(db.ledger, PublisherPayable, publishers, EarnedBy(db));
    SumOverHolders(db.ledger, MerchantPayable, merchants, OwedBy(db));
    LedgerByAccount(db, publishers, merchants);
  }

  lemma LedgerByAccount(db: Database, publishers: seq<string>, merchants: seq<string>)
    requires LedgerMatchesRows(db.ledger, db.settlements) && RowsLegal(db.settlements, db.refs)
    requires Enumerates(publishers, db.refs.publishers) && Enumerates(merchants, db.refs.merchants)
    ensures SumOf(db.ledger, AmountWeight())
            == SumOf(db.ledger, WholeAccount(PlatformRevenue)) + SumOf(db.ledger, InList(PublisherPayable, publishers))
               + SumOf(db.ledger, InList(MerchantPayable, merchants))
  {
    hide LedgerMatchesRows, RowsLegal;
    var others := OthersWeight(publishers, merchants);
    forall k | 0 <= k < |db.ledger|
      ensures AmountWeight()(db.ledger[k]) == WholeAccount(PlatformRevenue)(db.ledger[k]) + others(db.ledger[k])
    {
      HoldersKnown(db.ledger, db.settlements, db.refs, k);
      EntryHasOneAccount(db.ledger[k], publishers, merchants);
    }
    SumSplit(db.ledger, AmountWeight(), WholeAccount(PlatformRevenue), others);
    SumSplit(db.ledger, others, InList(PublisherPayable, publishers), InList(MerchantPayable, merchants));
  }

  lemma EntryHasOneAccount(e: Entry, publishers: seq<string>, merchants: seq<string>)
    requires e.account.PublisherPayable? ==> e.accountId in publishers
    requires e.account.MerchantPayable? ==> e.accountId in merchants
    ensures AmountWeight()(e) == WholeAccount(PlatformRevenue)(e) + OthersWeight(publishers, merchants)(e)
  {
    assert OthersWeight(publishers, merchants)(e) == InList(PublisherPayable, publishers)(e) + InList(MerchantPayable, merchants)(e);
    match e.account
    case MerchantPayable =>
    case PlatformRevenue =>
    case PublisherPayable =>
  }

  function OthersWeight(publishers: seq<string>, merchants: seq<string>): Entry -> int {
    (e: Entry) => InList(PublisherPayable, publishers)(e) + InList(MerchantPayable, merchants)(e)
  }

  // Claims and statuses

  function OfPublisher(publisherId: string): Row -> int {
    (row: Row) => if row.details.publisherId == publisherId then 1 else 0
  }

  lemma NoRowsNoClaims(consumed: map<string, Claim>, rows: Rows)
    requires ClaimsMatchRows(consumed, rows) && rows == map[]
    ensures consumed == map[]
  {
    assert forall a :: a in consumed ==> HasRow(rows, a);
  }

  /** Counting claims or counting rows is the same: they are in bijection. */
  lemma {:induction false} ClaimsCountRows(consumed: map<string, Claim>, rows: Rows, publisherId: string)
    requires ClaimsMatchRows(consumed, rows)
    ensures SumMap(consumed, ConsumedWeight(publisherId)) == SumMap(rows, OfPublisher(publisherId))
    decreases |rows|
  {
    hide ClaimsMatchRows;
    if rows == map[] {
      NoRowsNoClaims(consumed, rows);
    } else {
      var id :| id in rows;
      var a := rows[id].details.assertionId;
      ClaimsWithout(consumed, rows, id);
      SumMapTake(consumed, a, ConsumedWeight(publisherId));
      SumMapTake(rows, id, OfPublisher(publisherId));
      ClaimsCountRows(consumed - {a}, rows - {id}, publisherId);
    }
  }

  lemma ClaimsWithout(consumed: map<string, Claim>, rows: Rows, id: string)
    requires ClaimsMatchRows(consumed, rows) && id in rows
    ensures ClaimsMatchRows(consumed - {rows[id].details.assertionId}, rows - {id})
    ensures HasClaim(consumed, rows[id].details)
  {
    var a := rows[id].details.assertionId;
    var rows' := rows - {id};
    forall i | i in rows'
      ensures HasClaim(consumed - {a}, rows'[i].details)
    {
      assert HasClaim(consumed, rows[i].details) && rows[i].details.assertionId != a;
    }
    forall b | b in consumed && b != a
      ensures HasRow(rows', b)
    {
      assert HasRow(rows, b);
      var i :| i in rows && rows[i].details.assertionId == b;
      assert i in rows' && rows'[i].details.assertionId == b;
    }
  }

  lemma CountByStatus(rows: Rows, publisherId: string)
    ensures SumMap(rows, OfPublisher(publisherId))
            == SumMap(rows, CountWeight(publisherId, Confirmed)) + SumMap(rows, CountWeight(publisherId, Failed))
               + SumMap(rows, CountWeight(publisherId, Pending))
  {
    SumMapSplit(rows, OfPublisher(publisherId), CountWeight(publisherId, Confirmed), CountWeight(publisherId, Failed),
                CountWeight(publisherId, Pending));
  }

  /**
   In every reachable state the assertions a publisher has had consumed are its confirmed, its
   failed and its still pending settlements, and nothing else.
   */
  lemma ConsumedAreAccountedFor(w: World, s: State, publisherId: string)
    requires Reachable(w, s) && publisherId in s.db.refs.publishers
    ensures var summary := PublisherSummary(s.db, publisherId).value;
            summary.assertionsConsumed
            == summary.settlementCount + summary.failed + SumMap(s.db.settlements, CountWeight(publisherId, Pending))
  {
    hide Reachable, Inv, ClaimsMatchRows, LedgerMatchesRows;
    ReachableInv(w, s);
    InvMeansLedger(w, s);
    ClaimsCountRows(s.db.consumed, s.db.settlements, publisherId);
    CountByStatus(s.db.settlements, publisherId);
  }

  // Refusals

  /** The step puts one refusal of this publisher's in the journal. */
  predicate JournalsFor(s: State, step: Step, publisherId: string) {
    match step
    case Journal(c, _, statement) =>
      && Stands(s, c) && s.calls[c].phase.Refused? && !s.calls[c].phase.failure.Internal? && !statement.NotExecuted?
      && s.calls[c].request.assertion.fields.publisherId == publisherId
    case Report(rejection, statement) => !statement.NotExecuted? && rejection.publisherId == publisherId
    case _ => false
  }

  /** How many steps of a run do. */
  function RefusalsJournalled(w: World, s: State, steps: seq<Step>, publisherId: string): nat {
    if steps == [] then 0
    else
      var front := steps[..|steps| - 1];
      RefusalsJournalled(w, s, front, publisherId) + if JournalsFor(Run(w, s, front), steps[|steps| - 1], publisherId) then 1 else 0
  }

  lemma JournalStepCounts(w: World, s: State, step: Step, publisherId: string)
    requires step.Journal?
    ensures SumOf(Do(w, s, step).db.rejected, BlockedWeight(publisherId))
            == SumOf(s.db.rejected, BlockedWeight(publisherId)) + if JournalsFor(s, step, publisherId) then 1 else 0
  {
    if Stands(s, step.call) && s.calls[step.call].phase.Refused? {
      var f := s.calls[step.call].request.assertion.fields;
      JournalWrites(w, s, step.call, step.detail, step.statement);
      hide Do, Names;
      if Do(w, s, step).db != s.db {
        var row :| Do(w, s, step).db.rejected == s.db.rejected + [row]
                   && Journals(row, f.publisherId, f.assertionId, s.calls[step.call].request.merchantId, row.reason, step.detail);
        SumSnoc(s.db.rejected, row, BlockedWeight(publisherId));
      }
    }
  }

  /** No other step of a call, and none of the search service or an administrator, touches the journal. */
  lemma OthersJournalNothing(w: World, s: State, step: Step)
    requires !step.Journal? && !step.Report?
    ensures Do(w, s, step).db.rejected == s.db.rejected
  {
    hide StatusFor, PriceFailure, IsFirstRow, PendingOf, RowAllowed, ClaimAllowed, EntriesOf;
    hide F.HandleSettle, F.HandleVerify, A.Mint;
  }

  lemma StepJournals(w: World, s: State, step: Step, publisherId: string)
    ensures SumOf(Do(w, s, step).db.rejected, BlockedWeight(publisherId))
            == SumOf(s.db.rejected, BlockedWeight(publisherId)) + if JournalsFor(s, step, publisherId) then 1 else 0
  {
    hide SumOf;
    if step.Journal? {
      JournalStepCounts(w, s, step, publisherId);
    } else if step.Report? {
      SumSnoc(s.db.rejected, step.rejection, BlockedWeight(publisherId));
    } else {
      OthersJournalNothing(w, s, step);
    }
  }

  /**
   What a publisher's summary shows as blocked is exactly how often a refusal of its assertions was
   journalled, by the settlement service or reported to it; the platform's own failures are not in it.
   */
  lemma {:induction false} BlockedAreRefusals(w: World, listings: set<Listing>, refs: References, steps: seq<Step>, publisherId: string)
    ensures var s := Run(w, Initial(listings, refs), steps);
            publisherId in s.db.refs.publishers ==>
              PublisherSummary(s.db, publisherId).value.blocked == RefusalsJournalled(w, Initial(listings, refs), steps, publisherId)
  {
    BlockedSum(w, Initial(listings, refs), steps, publisherId);
    hide Run, RefusalsJournalled, SumMap;
  }

  lemma {:induction false} BlockedSum(w: World, s: State, steps: seq<Step>, publisherId: string)
    ensures SumOf(Run(w, s, steps).db.rejected, BlockedWeight(publisherId))
            == SumOf(s.db.rejected, BlockedWeight(publisherId)) + RefusalsJournalled(w, s, steps, publisherId)
  {
    hide Do, JournalsFor;
    if steps != [] {
      var front := steps[..|steps| - 1];
      BlockedSum(w, s, front, publisherId);
      StepJournals(w, Run(w, s, front), steps[|steps| - 1], publisherId);
    }
  }

  // Gross

  /** What a transfer moved, if it was for a confirmed settlement of this publisher's. */
  function PaidForWeight(rows: Rows, publisherId: string): F.Transfer -> int {
    (t: F.Transfer) =>
      if t.origin.Some? && IsConfirmed(rows, t.origin.value) && rows[t.origin.value].details.publisherId == publisherId then ValueOf(t) else 0
  }

  function AtomicWeight(publisherId: string): Row -> int {
    (row: Row) => 10_000 * GrossWeight(publisherId)(row)
  }

  lemma {:induction false} SumMapScale(rows: Rows, publisherId: string)
    ensures SumMap(rows, AtomicWeight(publisherId)) == 10_000 * SumMap(rows, GrossWeight(publisherId))
    decreases |rows|
  {
    if rows != map[] {
      var id :| id in rows;
      SumMapTake(rows, id, AtomicWeight(publisherId));
      SumMapTake(rows, id, GrossWeight(publisherId));
      SumMapScale(rows - {id}, publisherId);
    }
  }

  /**
   A publisher's gross is the value its confirmed settlements moved: 10,000 atomic units for each
   cent of it, as long as those came through the merchant service.
   */
  lemma GrossIsValueMoved(w: World, s: State, publisherId: string)
    requires Reachable(w, s) && publisherId in s.db.refs.publishers
    requires forall id :: IsConfirmed(s.db.settlements, id) && s.db.settlements[id].details.publisherId == publisherId ==>
               Submitted(s.admissions, id)
    ensures 10_000 * PublisherSummary(s.db, publisherId).value.gross
            == SumOf(s.fac.transfers, PaidForWeight(s.db.settlements, publisherId))
  {
    hide Reachable, Submitted;
    var rows, transfers, g := s.db.settlements, s.fac.transfers, AtomicWeight(publisherId);
    SumMapScale(rows, publisherId);
    ConfirmedHaveOwnTransfers(w, s);
    forall id | id in rows && g(rows[id]) != 0
      ensures HasOrigin(transfers, id)
    {
      assert IsConfirmed(rows, id);
    }
    SumOverOrigins(transfers, rows, g);
    forall k | 0 <= k < |transfers|
      ensures OriginWeight(rows, g)(transfers[k]) == PaidForWeight(rows, publisherId)(transfers[k])
    {
      var t := transfers[k];
      if t.origin.Some? && IsConfirmed(rows, t.origin.value) && rows[t.origin.value].details.publisherId == publisherId {
        TransferPaysGross(w, s, k);
      }
    }
    SumAgree(transfers, OriginWeight(rows, g), PaidForWeight(rows, publisherId));
  }

  /** In every reachable state the chain of any settlement reads through to its claim and its entries. */
  lemma ChainIsComplete(w: World, s: State, settlementId: string)
    requires Reachable(w, s)
    ensures Chain(s.db, settlementId).Some? <==> settlementId in s.db.settlements
    ensures settlementId in s.db.settlements ==>
              var row := s.db.settlements[settlementId];
              Chain(s.db, settlementId)
              == Some((row, Claim(row.details.publisherId, row.details.productId), ExpectedEntries(row)))
  {
    hide Reachable, Inv;
    ReachableInv(w, s);
    InvMeansLedger(w, s);
    hide HasRow;
    if settlementId in s.db.settlements {
      assert RowLegal(s.db.settlements[settlementId], settlementId, s.db.refs);
      assert HasClaim(s.db.consumed, s.db.settlements[settlementId].details);
    }
  }
}
