/** The store the settlement service writes through. */
module SettlementStore {
  import opened Prelude
  import opened Store
  import opened Detail

  class SettlementStore {
    var consumed: map<string, Claim>
    var settlements: map<string, Row>
    var ledger: seq<Entry>
    var rejected: seq<Rejection>
    var listings: set<Listing>
    var refs: References

    constructor (listings: set<Listing>, refs: References)
      ensures Db() == Database(map[], map[], [], [], listings, refs)
      ensures Consistent(Db())
    {
      consumed, settlements, ledger, rejected := map[], map[], [], [];
      this.listings := listings;
      this.refs := refs;
    }

    function Db(): Database
      reads this
    {
      Database(consumed, settlements, ledger, rejected, listings, refs)
    }

    method LookupListing(productId: string, merchantId: string) returns (row: Option<Listing>)
      ensures IsFirstRow(Db(), productId, merchantId, row)
      ensures row.Some? ==> row.value in listings && row.value.productId == productId && row.value.merchantId == merchantId
      ensures row.None? ==> forall l :: l in listings ==> !(l.productId == productId && l.merchantId == merchantId)
    {
      if l :| l in listings && l.productId == productId && l.merchantId == merchantId {
        row := Some(l);
      } else {
        row := None;
      }
    }

    method Begin(p: PendingSettlement, fault: TxFault) returns (r: BeginResult)
      modifies this
      ensures (Db(), r) == BeginTx(old(Db()), p, fault)
      ensures old(Consistent(Db())) ==> Consistent(Db())
      ensures r.AssertionReused? <==> fault != BeforeStatement(0) && p.assertionId in old(consumed)
      ensures r.Begun? <==> p.assertionId !in old(consumed) && RowAllowed(old(Db()), p)
                            && fault !in {BeforeStatement(0), BeforeStatement(1), CommitRolledBack, CommitUnacknowledged}
      ensures consumed != old(consumed) || settlements != old(settlements)
              <==> r.Begun? || (fault.CommitUnacknowledged? && p.assertionId !in old(consumed) && RowAllowed(old(Db()), p))
      ensures consumed != old(consumed) || settlements != old(settlements) ==>
                && consumed == old(consumed)[p.assertionId := Claim(p.publisherId, p.productId)]
                && settlements == old(settlements)[p.settlementId :=
                     Row(p, if p.searchRequestId == "" then None else Some(p.searchRequestId), Pending, None, None)]
      ensures ledger == old(ledger) && rejected == old(rejected) && listings == old(listings) && refs == old(refs)
    {
      hide Consistent;
      ghost var before := Db();
      if Consistent(before) {
        BeginKeepsConsistent(before, p, fault);
      }
      if fault == BeforeStatement(0) {
        return BeginFailed;
      }
      // The insert takes no row when the key is already there.
      if p.assertionId in consumed {
        return AssertionReused;
      }
      if !ClaimAllowed(Db(), p) {
        return BeginFailed;
      }
      var claims := consumed[p.assertionId := Claim(p.publisherId, p.productId)];
      if fault == BeforeStatement(1) || !RowAllowed(Db(), p) {
        return BeginFailed;
      }
      var rows := settlements[p.settlementId := Row(p, NullIfEmpty(p.searchRequestId), Pending, None, None)];
      if fault.CommitRolledBack? {
        return BeginFailed;
      }
      consumed, settlements := claims, rows;
      r := if fault.CommitUnacknowledged? then BeginFailed else Begun;
    }

    method Confirm(p: PendingSettlement, txHash: string, at: int, fault: TxFault) returns (ok: bool)
      modifies this
      ensures (Db(), ok) == ConfirmTx(old(Db()), p, txHash, at, fault)
      ensures var pending := p.settlementId in old(settlements) && old(settlements)[p.settlementId].status.Pending?;
              var commits := pending && fault !in {BeforeStatement(0), BeforeStatement(1), CommitRolledBack};
              && (ok <==> commits && !fault.CommitUnacknowledged?)
              && (!commits ==> settlements == old(settlements) && ledger == old(ledger))
              && (commits ==>
                    && settlements == old(settlements)[p.settlementId :=
                         old(settlements)[p.settlementId].(status := Confirmed, txHash := Some(txHash), confirmedAt := Some(at))]
                    && ledger == old(ledger) + [
                         Entry(p.settlementId, MerchantPayable, p.merchantId, -p.split.commission, p.currency),
                         Entry(p.settlementId, PlatformRevenue, "platform", p.split.platformFee, p.currency),
                         Entry(p.settlementId, PublisherPayable, p.publisherId, p.split.publisher, p.currency)])
      ensures consumed == old(consumed) && rejected == old(rejected) && listings == old(listings) && refs == old(refs)
      ensures old(Consistent(Db()))
              && (p.settlementId in old(settlements) ==> old(settlements)[p.settlementId].details == p)
              ==> Consistent(Db())
    {
      hide Consistent;
      ghost var before := Db();
      if Consistent(before) && (p.settlementId in settlements ==> settlements[p.settlementId].details == p) {
        ConfirmKeepsConsistent(before, p, txHash, at, fault);
      }
      if fault == BeforeStatement(0) || p.settlementId !in settlements || !settlements[p.settlementId].status.Pending? {
        return false;
      }
      var row := settlements[p.settlementId].(status := Confirmed, txHash := Some(txHash), confirmedAt := Some(at));
      if fault == BeforeStatement(1) {
        return false;
      }
      var entries := [
        Entry(p.settlementId, MerchantPayable, p.merchantId, -p.split.commission, p.currency),
        Entry(p.settlementId, PlatformRevenue, PLATFORM_ACCOUNT_ID, p.split.platformFee, p.currency),
        Entry(p.settlementId, PublisherPayable, p.publisherId, p.split.publisher, p.currency)];
      if fault.CommitRolledBack? {
        return false;
      }
      settlements, ledger := settlements[p.settlementId := row], ledger + entries;
      ok := !fault.CommitUnacknowledged?;
    }

    method Fail(settlementId: string, fault: StatementFault) returns (ok: bool)
      modifies this
      ensures (Db(), ok) == FailTx(old(Db()), settlementId, fault)
      ensures ok <==> fault.Executed?
      ensures settlements.Keys == old(settlements).Keys
      ensures forall id :: id in settlements ==>
                settlements[id] == if id == settlementId && old(settlements)[id].status.Pending? && !fault.NotExecuted?
                                   then old(settlements)[id].(status := Failed) else old(settlements)[id]
      ensures ledger == old(ledger) && consumed == old(consumed) && rejected == old(rejected)
              && listings == old(listings) && refs == old(refs)
      ensures old(Consistent(Db())) ==> Consistent(Db())
    {
      hide Consistent;
      ghost var before := Db();
      if Consistent(before) {
        FailKeepsConsistent(before, settlementId, fault);
      }
      if !fault.NotExecuted? && settlementId in settlements && settlements[settlementId].status.Pending? {
        settlements := settlements[settlementId := settlements[settlementId].(status := Failed)];
      }
      ok := fault.Executed?;
    }

    method RecordRejection(publisherId: string, assertionId: string, merchantId: string, reason: string, detail: string,
                           fault: StatementFault) returns (ok: bool)
      modifies this`rejected
      ensures (Db(), ok) == RejectTx(old(Db()), RejectionOf(publisherId, assertionId, merchantId, reason, detail), fault)
      ensures ok <==> fault.Executed?
      ensures fault.NotExecuted? ==> rejected == old(rejected)
      ensures !fault.NotExecuted? ==>
                exists row :: rejected == old(rejected) + [row] && Journals(row, publisherId, assertionId, merchantId, reason, detail)
    {
      RejectionColumns(publisherId, assertionId, merchantId, reason, detail);
      if !fault.NotExecuted? {
        rejected := rejected + [RejectionOf(publisherId, assertionId, merchantId, reason, detail)];
      }
      ok := fault.Executed?;
    }
  }
}
