/** The commission rate from the indexed offer, through the signed assertion, to the settlement. */
module Rates {
  import opened Prelude
  import opened Store
  import opened Documents
  import opened Protocol
  import opened ProtocolInvariant
  import A = Assertion
  import F = Facilitator

  /** The assertion says what it was minted from, and carries the signature made for it. */
  ghost predicate Says(r: A.Runtime, a: A.Assertion, assertionId: string, publisherId: string, productId: string, searchRequestId: string,
                       commissionBps: int, issuedAt: int)
  {
    && a.fields.assertionId == assertionId && a.fields.publisherId == publisherId && a.fields.productId == productId
    && a.fields.searchRequestId == searchRequestId && a.fields.commissionBps == commissionBps
    && (A.Sound(r) ==> A.Genuine(r, {a.fields}, a))
    && (A.Sound(r) && 0 <= issuedAt && A.Seconds(issuedAt + A.TTL) <= A.CALENDAR_END ==>
          A.Reads(r, a.fields.issuedAt, issuedAt) && A.Reads(r, a.fields.expiresAt, issuedAt + 3_600_000_000_000))
  }

  lemma MintSays(r: A.Runtime, assertionId: string, publisherId: string, productId: string, searchRequestId: string,
                 commissionBps: int, issuedAt: int)
    ensures var a := A.Mint(r, assertionId, publisherId, productId, searchRequestId, commissionBps, issuedAt);
            && (a.Some? <==> 0 <= commissionBps <= 10_000)
            && (a.Some? ==> Says(r, a.value, assertionId, publisherId, productId, searchRequestId, commissionBps, issuedAt))
  {
    A.MintedFields(r, assertionId, publisherId, productId, searchRequestId, commissionBps, issuedAt);
    hide A.Mint, A.Sound, A.Genuine, A.Reads;
  }

  /** `mintAssertions`: one assertion per product, at its best rate, or none if any rate is out of range. */
  method MintAssertions(r: A.Runtime, newId: nat -> string, searchRequestId: string, publisherId: string, products: seq<Doc>, issuedAt: int)
    returns (minted: Option<seq<A.Assertion>>)
    ensures minted.Some? <==> forall i :: 0 <= i < |products| ==> 0 <= products[i].maxCommissionBps <= 10_000
    ensures minted.Some? ==> |minted.value| == |products|
    ensures minted.Some? ==> forall i :: 0 <= i < |products| ==>
              Says(r, minted.value[i], newId(i), publisherId, products[i].productId, searchRequestId, products[i].maxCommissionBps, issuedAt)
  {
    hide A.Mint, Says;
    var out: seq<A.Assertion> := [];
    for i := 0 to |products|
      invariant |out| == i
      invariant forall j :: 0 <= j < i ==> 0 <= products[j].maxCommissionBps <= 10_000
      invariant forall j :: 0 <= j < i ==>
                  Says(r, out[j], newId(j), publisherId, products[j].productId, searchRequestId, products[j].maxCommissionBps, issuedAt)
    {
      var a := A.Mint(r, newId(i), publisherId, products[i].productId, searchRequestId, products[i].maxCommissionBps, issuedAt);
      MintSays(r, newId(i), publisherId, products[i].productId, searchRequestId, products[i].maxCommissionBps, issuedAt);
      if a.None? {
        return None;
      }
      out := out + [a.value];
    }
    minted := Some(out);
  }

  /** Every mint in a run signs what it was asked for, in range of rate and calendar, and nothing else signs. */
  lemma MintStepSigns(w: World, s: State, step: Step)
    requires A.Sound(w.runtime)
    ensures var s' := Do(w, s, step);
            if step.Mint? && 0 <= step.bps <= 10_000 && 0 <= step.issuedAt && A.Seconds(step.issuedAt + A.TTL) <= A.CALENDAR_END
            then exists a: A.Assertion ::
                   && s' == s.(minted := s.minted + {a.fields})
                   && Says(w.runtime, a, step.assertionId, step.publisherId, step.productId, step.searchRequestId, step.bps, step.issuedAt)
            else s'.minted == s.minted
  {
    hide Says, A.Mint, A.Sound, A.TTL;
    hide F.HandleSettle, F.HandleVerify, PriceFailure, IsFirstRow, BeginTx, ConfirmTx, FailTx, RejectTx, StatusFor, PendingOf;
    if step.Mint? {
      MintSays(w.runtime, step.assertionId, step.publisherId, step.productId, step.searchRequestId, step.bps, step.issuedAt);
    }
  }

  /** No indexed offer of a product carries a better rate than its document's. */
  lemma BestRateCoversOffers(rows: seq<DbRow>, indexedAt: string, k: nat, i: nat)
    requires Contiguous(rows)
    requires forall j :: 0 <= j < |rows| ==> rows[j].offer.commissionBps >= 0
    requires k < |RunGroups(rows, indexedAt)| && i < |rows| && rows[i].productId == RunGroups(rows, indexedAt)[k].productId
    ensures rows[i].offer.commissionBps <= RunGroups(rows, indexedAt)[k].maxCommissionBps
  {
    OnePassGroups(rows, indexedAt);
    var d := RunGroups(rows, indexedAt)[k];
    var mine := RowsOf(rows, d.productId);
    assert Describes(d, mine, indexedAt);
    FilterKeeps(rows, i, OfProduct(d.productId));
    var j :| 0 <= j < |mine| && mine[j] == rows[i];
    assert Offers(mine)[j] == rows[i].offer;
    assert rows[i].offer in d.offers;
  }

  /**
   The rate chain, end to end: a settlement whose assertion was minted for a product document
   never exceeds the signed rate nor the chosen listing's, and when that merchant was indexed at
   no less than its listing's rate now, it settles at exactly the listing's rate.
   */
  lemma RateChain(w: World, s: State, settlementId: string, rows: seq<DbRow>, indexedAt: string, k: nat,
                  assertionId: string, publisherId: string, searchRequestId: string, issuedAt: int)
    requires Reachable(w, s) && settlementId in s.db.settlements && settlementId in s.admissions
    requires Contiguous(rows)
    requires forall j :: 0 <= j < |rows| ==> rows[j].offer.commissionBps >= 0
    requires k < |RunGroups(rows, indexedAt)|
    requires var d := RunGroups(rows, indexedAt)[k];
             A.Mint(w.runtime, assertionId, publisherId, d.productId, searchRequestId, d.maxCommissionBps, issuedAt)
             == Some(s.admissions[settlementId].request.assertion)
    ensures var d := RunGroups(rows, indexedAt)[k];
            var listing := s.admissions[settlementId].listing;
            var settled := s.db.settlements[settlementId].details.commissionBps;
            && listing.productId == d.productId && listing.merchantId == s.db.settlements[settlementId].details.merchantId
            && settled <= d.maxCommissionBps
            && settled <= listing.commissionBps
            && (settled == listing.commissionBps || settled == d.maxCommissionBps)
            && ((exists i :: 0 <= i < |rows| && rows[i].productId == d.productId && rows[i].offer.merchantId == listing.merchantId
                             && listing.commissionBps <= rows[i].offer.commissionBps)
                ==> settled == listing.commissionBps)
  {
    ReachableInv(w, s);
    RowFromAdmission(w, s, settlementId);
    hide Reachable, Inv, RunGroups;
    var d := RunGroups(rows, indexedAt)[k];
    var listing := s.admissions[settlementId].listing;
    if i :| 0 <= i < |rows| && rows[i].productId == d.productId && rows[i].offer.merchantId == listing.merchantId
            && listing.commissionBps <= rows[i].offer.commissionBps {
      BestRateCoversOffers(rows, indexedAt, k, i);
    }
  }

  lemma RowFromAdmission(w: World, s: State, id: string)
    requires Inv(w, s) && id in s.db.settlements
    ensures id in s.admissions && Admitted(w, s.minted, s.db.settlements[id], id, s.admissions[id])
  {
    hide Consistent, AttemptsOk, TransfersOk, ConfirmedPaid, CallsOk, F.NoncesMatchTransfers, A.OnlyMinted, Admitted;
  }

  /**
   Nothing settles without a platform signature: every settlement's assertion carries exactly
   the fields of a minted one, was unexpired when priced, and named an in-stock listing at the
   price and in the currency the settlement records. The row names the request's own parties.
   */
  lemma SettlementsAreAttributed(w: World, s: State, id: string)
    requires A.Sound(w.runtime) && Reachable(w, s) && id in s.db.settlements
    ensures id in s.admissions
    ensures var a := s.admissions[id];
            var fields, row := a.request.assertion.fields, s.db.settlements[id].details;
            && fields in s.minted
            && (exists t :: A.MintedAt(w.runtime, fields, t) && a.pricedAt < t * A.NANOS_PER_SECOND)
            && row.settlementId == id
            && row.assertionId == fields.assertionId && row.publisherId == fields.publisherId
            && row.searchRequestId == fields.searchRequestId
            && row.productId == fields.productId == a.listing.productId
            && row.merchantId == a.request.merchantId == a.listing.merchantId
            && row.network == a.request.requirements.network
            && a.listing.inStock && a.listing.priceCents == row.gross == a.request.gross
            && a.listing.currency == row.currency == a.request.currency
  {
    ReachableInv(w, s);
    RowFromAdmission(w, s, id);
    MintedOnly(w, s);
    hide Reachable, Inv;
    A.VerifyAcceptsExactlyMinted(w.runtime, s.minted, s.admissions[id].request.assertion, s.admissions[id].pricedAt);
  }

  lemma MintedOnly(w: World, s: State)
    requires Inv(w, s)
    ensures A.OnlyMinted(w.runtime, s.minted)
  {
  }
}
