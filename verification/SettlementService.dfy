/** The settlement service: one request driven through the store and the facilitator. */
module SettlementService {
  import opened Prelude
  import opened Commission
  import opened Store
  import opened Detail
  import opened SettlementStore
  import opened Protocol
  import A = Assertion
  import F = Facilitator

  /** The clocks, the fresh id and the failures one request meets. */
  datatype Conditions = Conditions(
    now: int,
    lookupFails: bool,
    verifyNow: int,
    verifyNet: NetFault,
    newId: string,
    begin: TxFault,
    settleNow: int,
    settleNet: NetFault,
    confirmNow: int,
    confirm: TxFault,
    fail: StatementFault,
    detail: string,
    journal: StatementFault)

  datatype Outcome = Ok(result: Result) | Err(failure: Failure)

  /** The steps of one call, in the order `Settle` takes them; those its path skips are disabled. */
  function SettleSteps(req: Request, e: Conditions, row: Option<Listing>): seq<Step> {
    [Arrive(req), Price(0, e.now, row, e.lookupFails), Clear(0, e.verifyNow, e.verifyNet, e.newId), Begin(0, e.begin),
     Pay(0, e.settleNow, e.settleNet), Confirm(0, e.confirmNow, e.confirm), Fail(0, e.fail)]
  }

  function HandleSteps(req: Request, e: Conditions, row: Option<Listing>): seq<Step> {
    SettleSteps(req, e, row) + [Journal(0, e.detail, e.journal)]
  }

  lemma RunSnoc(w: World, s: State, steps: seq<Step>, step: Step)
    ensures Run(w, s, steps + [step]) == Do(w, Run(w, s, steps), step)
  {
    assert (steps + [step])[..|steps|] == steps;
  }

  // One call's steps, one by one

  /** A single call at `phase`, over given tables. */
  predicate Alone(s: State, req: Request, phase: Phase) {
    s.calls == [Call(req, phase)]
  }

  lemma PriceOutcome(w: World, s: State, req: Request, now: int, row: Option<Listing>, lookupFails: bool)
    requires Alone(s, req, Received) && IsFirstRow(s.db, req.assertion.fields.productId, req.merchantId, row)
    ensures var s' := Do(w, s, Price(0, now, row, lookupFails));
            var failure := PriceFailure(w, s.minted, req, now, row, lookupFails);
            && s'.db == s.db && s'.fac == s.fac && s'.issuedIds == s.issuedIds && (failure.None? ==> row.Some?)
            && Alone(s', req, if failure.Some? then Refused(failure.value) else Priced(row.value, now))
  {
    hide IsFirstRow, A.Verify;
  }

  /** What a call hears of its payment. */
  function Heard(w: World, fac: F.FacilitatorState, req: Request, now: int, net: NetFault): F.VerifyReply {
    if net.Delivered? then F.HandleVerify(w.chain, fac.mode, req.payload, req.requirements, now) else F.VerifyUnavailable
  }

  lemma ClearOutcome(w: World, s: State, req: Request, now: int, net: NetFault, newId: string, listing: Listing, pricedAt: int)
    requires Alone(s, req, Priced(listing, pricedAt)) && newId !in s.issuedIds
    ensures var s' := Do(w, s, Clear(0, now, net, newId));
            && s'.db == s.db && s'.fac == s.fac
            && Alone(s', req, match Heard(w, s.fac, req, now, net)
                              case VerifyUnavailable => Refused(FacilitatorUnavailable)
                              case NotVerified => Refused(PaymentInvalid)
                              case Verified(_) => Cleared(PendingOf(req, listing, newId), listing, pricedAt))
  {
    hide F.HandleVerify, PendingOf;
  }

  lemma BeginOutcome(w: World, s: State, req: Request, tx: TxFault, p: PendingSettlement, listing: Listing, pricedAt: int)
    requires Alone(s, req, Cleared(p, listing, pricedAt))
    ensures var s' := Do(w, s, Begin(0, tx));
            && s'.db == BeginTx(s.db, p, tx).0 && s'.fac == s.fac
            && Alone(s', req, match BeginTx(s.db, p, tx).1
                              case Begun => Claimed(p)
                              case AssertionReused => Refused(ReusedAssertion)
                              case BeginFailed => Refused(Internal))
  {
    hide BeginTx;
  }

  /** What the facilitator does with a settle request, and what its caller hears. */
  function Charged(w: World, fac: F.FacilitatorState, req: Request, id: string, now: int, net: NetFault): (F.FacilitatorState, F.SettleReply) {
    if net.RequestLost? || net.LeftInFlight? then (fac, F.SettleUnavailable)
    else
      var (fac', reply) := F.HandleSettle(w.chain, fac, req.payload, req.requirements, now, Some(id));
      (fac', if net.ReplyLost? then F.SettleUnavailable else reply)
  }

  lemma PayOutcome(w: World, s: State, req: Request, now: int, net: NetFault, p: PendingSettlement)
    requires Alone(s, req, Claimed(p))
    ensures var s' := Do(w, s, Pay(0, now, net));
            var (fac, reply) := Charged(w, s.fac, req, p.settlementId, now, net);
            && s'.db == s.db && s'.fac == fac
            && Alone(s', req, match reply
                              case Settled(transaction, network, payer) => Paid(p, transaction, network, payer)
                              case NotSettled => Unpaid(p, SettlementFailed)
                              case SettleUnavailable => Unpaid(p, FacilitatorUnavailable))
  {
    hide F.HandleSettle;
  }

  lemma ConfirmOutcome(w: World, s: State, req: Request, e: Conditions, p: PendingSettlement, transaction: string, network: string,
                       payer: string)
    requires Alone(s, req, Paid(p, transaction, network, payer))
    ensures var s' := Do(w, Do(w, s, Confirm(0, e.confirmNow, e.confirm)), Fail(0, e.fail));
            var (db, ok) := ConfirmTx(s.db, p, transaction, e.confirmNow, e.confirm);
            && s'.db == db && s'.fac == s.fac
            && Alone(s', req, if ok then Done(ResultOf(p, transaction, network, payer)) else Refused(Internal))
  {
    hide ConfirmTx;
  }

  lemma FailOutcome(w: World, s: State, req: Request, e: Conditions, p: PendingSettlement, failure: Failure)
    requires Alone(s, req, Unpaid(p, failure))
    ensures var s' := Do(w, Do(w, s, Confirm(0, e.confirmNow, e.confirm)), Fail(0, e.fail));
            s'.db == FailTx(s.db, p.settlementId, e.fail).0 && s'.fac == s.fac && Alone(s', req, Refused(failure))
  {
    hide FailTx;
  }

  lemma RefusedStays(w: World, s: State, req: Request, e: Conditions, failure: Failure)
    requires Alone(s, req, Refused(failure))
    ensures Do(w, s, Clear(0, e.verifyNow, e.verifyNet, e.newId)) == s && Do(w, s, Begin(0, e.begin)) == s
    ensures Do(w, s, Pay(0, e.settleNow, e.settleNet)) == s
    ensures Do(w, s, Confirm(0, e.confirmNow, e.confirm)) == s && Do(w, s, Fail(0, e.fail)) == s
  {
  }

  /** The journalling step, by what the call came to. */
  lemma JournalOutcome(w: World, s: State, req: Request, e: Conditions, r: Outcome)
    requires Alone(s, req, if r.Ok? then Done(r.result) else Refused(r.failure))
    ensures var s' := Do(w, s, Journal(0, e.detail, e.journal));
            && s'.fac == s.fac && Alone(s', req, if r.Ok? then Done(r.result) else Answered(r.failure))
            && s'.db == if r.Ok? || StatusFor(r.failure).1 == INTERNAL_ERROR then s.db
                        else RejectTx(s.db, JournalEntry(req, e, StatusFor(r.failure).1), e.journal).0
  {
    hide StatusFor, RejectTx;
  }

  function JournalEntry(req: Request, e: Conditions, reason: string): Rejection {
    var f := req.assertion.fields;
    RejectionOf(f.publisherId, f.assertionId, req.merchantId, reason, e.detail)
  }

  lemma SettleStepsKeepJournal(req: Request, e: Conditions, row: Option<Listing>)
    ensures forall step :: step in SettleSteps(req, e, row) ==> !step.Journal? && !step.Report? && !step.Reload?
  {
  }

  lemma PendingNames(req: Request, listing: Listing, id: string)
    ensures PendingOf(req, listing, id).assertionId == req.assertion.fields.assertionId
    ensures PendingOf(req, listing, id).settlementId == id
  {
  }

  class SettlementService {
    const world: World
    const store: SettlementStore
    const facilitator: F.Handler
    var minted: set<A.Fields>

    constructor (world: World, store: SettlementStore, facilitator: F.Handler, minted: set<A.Fields>)
      requires facilitator.chain == world.chain
      ensures this.world == world && this.store == store && this.facilitator == facilitator && this.minted == minted
    {
      this.world := world;
      this.store := store;
      this.facilitator := facilitator;
      this.minted := minted;
    }

    /** The platform seen from here, with no call in flight. */
    function Platform(): State
      reads this, store, facilitator, facilitator.nonces
    {
      State(store.Db(), facilitator.State(), minted, [], {}, map[], [], {})
    }

    ghost predicate Matches(s: State)
      reads store, facilitator, facilitator.nonces
    {
      s.db == store.Db() && s.fac == facilitator.State()
    }

    /** Everything a request is checked for before the facilitator hears of it. */
    method Price(req: Request, e: Conditions) returns (failure: Option<Failure>, row: Option<Listing>)
      ensures IsFirstRow(store.Db(), req.assertion.fields.productId, req.merchantId, row)
      ensures failure == PriceFailure(world, minted, req, e.now, row, e.lookupFails)
    {
      hide A.Verify, IsFirstRow;
      var verdict := A.Verify(world.runtime, minted, req.assertion, e.now);
      row := store.LookupListing(req.assertion.fields.productId, req.merchantId);
      if verdict != A.Accepted {
        failure := Some(match verdict
                        case Expired => ExpiredAssertion
                        case UnreadableExpiry => Internal
                        case _ => BadSignature);
        return;
      }
      if e.lookupFails {
        return Some(Internal), row;
      }
      if row.None? {
        return Some(ListingNotFound), row;
      }
      if !row.value.inStock {
        return Some(OutOfStock), row;
      }
      if row.value.currency != req.currency {
        return Some(CurrencyMismatch), row;
      }
      if row.value.priceCents != req.gross {
        return Some(AmountMismatch), row;
      }
      failure := None;
    }

    /** From the committed claim on: the facilitator settles, and the row is confirmed or failed. */
    method Charge(req: Request, e: Conditions, pending: PendingSettlement, ghost s: State) returns (r: Outcome)
      requires facilitator.chain == world.chain && Matches(s) && Alone(s, req, Claimed(pending))
      modifies store, facilitator`transfers, facilitator.nonces
      ensures var s' := Do(world, Do(world, Do(world, s, Pay(0, e.settleNow, e.settleNet)), Confirm(0, e.confirmNow, e.confirm)), Fail(0, e.fail));
              Matches(s') && Alone(s', req, if r.Ok? then Done(r.result) else Refused(r.failure))
    {
      hide Do, F.HandleSettle, ConfirmTx, FailTx;
      ghost var paid := Do(world, s, Pay(0, e.settleNow, e.settleNet));
      PayOutcome(world, s, req, e.settleNow, e.settleNet, pending);
      var settled := F.SettleUnavailable;
      if !e.settleNet.RequestLost? && !e.settleNet.LeftInFlight? {
        settled := facilitator.Settle(req.payload, req.requirements, e.settleNow, Some(pending.settlementId));
      }
      if e.settleNet.ReplyLost? {
        settled := F.SettleUnavailable;
      }
      if !settled.Settled? {
        var failure := if settled.SettleUnavailable? then FacilitatorUnavailable else SettlementFailed;
        FailOutcome(world, paid, req, e, pending, failure);
        var _ := store.Fail(pending.settlementId, e.fail);
        return Err(failure);
      }
      ConfirmOutcome(world, paid, req, e, pending, settled.transaction, settled.network, settled.payer);
      var confirmed := store.Confirm(pending, settled.transaction, e.confirmNow, e.confirm);
      if !confirmed {
        return Err(Internal);
      }
      r := Ok(Result(pending.settlementId, settled.transaction, settled.network, settled.payer, pending.commissionBps, pending.split));
    }

    /**
     `Settle` is one run of the protocol with a single call in it: whatever goes wrong on the
     way, the tables, the facilitator and the answer are the ones that run ends with.
     */
    method Settle(req: Request, e: Conditions) returns (r: Outcome, ghost row: Option<Listing>)
      requires facilitator.chain == world.chain
      modifies store, facilitator`transfers, facilitator.nonces
      ensures var s := Run(world, old(Platform()), SettleSteps(req, e, row));
              Matches(s) && |s.calls| == 1 && s.calls[0] == Call(req, if r.Ok? then Done(r.result) else Refused(r.failure))
    {
      ghost var w, before := world, Platform();
      ghost var s := Do(w, before, Arrive(req));
      assert Alone(s, req, Received) && Matches(s) && s.minted == minted && s.issuedIds == {};
      hide Do, Run, F.HandleVerify, BeginTx, CalculateCommission, IsFirstRow, PriceFailure;

      var failure, found := Price(req, e);
      row := found;
      SettleRun(w, before, req, e, row);
      PriceOutcome(w, s, req, e.now, row, e.lookupFails);
      s := Do(w, s, Protocol.Price(0, e.now, row, e.lookupFails));
      if failure.Some? {
        RefusedStays(w, s, req, e, failure.value);
        return Err(failure.value), row;
      }
      var listing := found.value;

      ClearOutcome(w, s, req, e.verifyNow, e.verifyNet, e.newId, listing, e.now);
      var verified := facilitator.Verify(req.payload, req.requirements, e.verifyNow);
      if !e.verifyNet.Delivered? {
        verified := F.VerifyUnavailable;
      }
      assert verified == Heard(w, s.fac, req, e.verifyNow, e.verifyNet);
      s := Do(w, s, Clear(0, e.verifyNow, e.verifyNet, e.newId));
      if !verified.Verified? {
        r := Err(if verified.VerifyUnavailable? then FacilitatorUnavailable else PaymentInvalid);
        RefusedStays(w, s, req, e, r.failure);
        return;
      }

      var f := req.assertion.fields;
      var bps := EffectiveBps(f.commissionBps, listing.commissionBps);
      var split := CalculateCommission(req.gross, bps);
      var pending := PendingSettlement(e.newId, f.assertionId, f.searchRequestId, f.publisherId, req.merchantId, f.productId,
                                       req.gross, req.currency, bps, split, req.requirements.network);
      BeginOutcome(w, s, req, e.begin, pending, listing, e.now);
      var begun := store.Begin(pending, e.begin);
      s := Do(w, s, Begin(0, e.begin));
      if !begun.Begun? {
        r := Err(if begun.AssertionReused? then ReusedAssertion else Internal);
        RefusedStays(w, s, req, e, r.failure);
        return;
      }
      r := Charge(req, e, pending, s);
    }

    /** `handleSettle`: settles, and journals a refusal that is not the platform's own failure. */
    method HandleSettle(req: Request, e: Conditions) returns (r: Outcome, ghost row: Option<Listing>)
      requires facilitator.chain == world.chain
      modifies store, facilitator`transfers, facilitator.nonces
      ensures var s := Run(world, old(Platform()), HandleSteps(req, e, row));
              Matches(s) && |s.calls| == 1 && s.calls[0] == Call(req, if r.Ok? then Done(r.result) else Answered(r.failure))
      ensures r.Err? && r.failure != Internal && !e.journal.NotExecuted? ==>
                exists row ::
                  && store.rejected == old(store.rejected) + [row] && Names(row.reason, r.failure)
                  && Journals(row, req.assertion.fields.publisherId, req.assertion.fields.assertionId, req.merchantId, row.reason, e.detail)
      ensures r.Ok? || r.failure == Internal || e.journal.NotExecuted? ==> store.rejected == old(store.rejected)
    {
      hide Do, Run, SettleSteps, RejectTx, StatusFor, Truncated;
      ghost var before := Platform();
      r, row := Settle(req, e);
      JournalOutcome(world, Run(world, before, SettleSteps(req, e, row)), req, e, r);
      StatusTells(if r.Err? then r.failure else Internal);
      SettleStepsKeepJournal(req, e, row);
      RunSnoc(world, before, SettleSteps(req, e, row), Journal(0, e.detail, e.journal));
      SettleLeavesJournal(world, before, SettleSteps(req, e, row));
      if r.Err? {
        var reason := StatusFor(r.failure).1;
        if reason != INTERNAL_ERROR {
          var f := req.assertion.fields;
          var _ := store.RecordRejection(f.publisherId, f.assertionId, req.merchantId, reason, e.detail, e.journal);
        }
      }
    }
  }

  /** The run unfolds into its seven steps. */
  lemma SettleRun(w: World, s: State, req: Request, e: Conditions, row: Option<Listing>)
    ensures Run(w, s, SettleSteps(req, e, row))
            == Do(w, Do(w, Do(w, Do(w, Do(w, Do(w, Do(w, s, Arrive(req)), Price(0, e.now, row, e.lookupFails)),
                  Clear(0, e.verifyNow, e.verifyNet, e.newId)), Begin(0, e.begin)), Pay(0, e.settleNow, e.settleNet)),
                  Confirm(0, e.confirmNow, e.confirm)), Fail(0, e.fail))
  {
    hide Do;
    var t := SettleSteps(req, e, row);
    assert t[..1] == [] + [t[0]] && t[..2] == t[..1] + [t[1]] && t[..3] == t[..2] + [t[2]] && t[..4] == t[..3] + [t[3]];
    assert t[..5] == t[..4] + [t[4]] && t[..6] == t[..5] + [t[5]] && t == t[..6] + [t[6]];
    RunSnoc(w, s, [], t[0]);
    RunSnoc(w, s, t[..1], t[1]);
    RunSnoc(w, s, t[..2], t[2]);
    RunSnoc(w, s, t[..3], t[3]);
    RunSnoc(w, s, t[..4], t[4]);
    RunSnoc(w, s, t[..5], t[5]);
    RunSnoc(w, s, t[..6], t[6]);
  }

  /** Only journalling steps and reports write rejections. */
  lemma {:induction false} SettleLeavesJournal(w: World, s: State, steps: seq<Step>)
    requires forall i :: 0 <= i < |steps| ==> !steps[i].Journal? && !steps[i].Report?  && !steps[i].Reload?
    ensures Run(w, s, steps).db.rejected == s.db.rejected
  {
    hide F.HandleSettle, F.HandleVerify, PendingOf, PriceFailure, A.Mint, RowAllowed, ClaimAllowed;
    if steps != [] {
      SettleLeavesJournal(w, s, steps[..|steps| - 1]);
    }
  }

  // When a settlement succeeds

  /** No failure from outside: nothing lost, no transaction cut off, and time does not run backwards. */
  predicate Undisturbed(e: Conditions) {
    && !e.lookupFails && e.verifyNet.Delivered? && e.begin.NoFault? && e.settleNet.Delivered? && e.confirm.NoFault?
    && e.verifyNow <= e.settleNow
  }

  /** The rows a settlement refers to are there. */
  predicate Grounded(refs: References, req: Request) {
    var f := req.assertion.fields;
    && f.publisherId in refs.publishers && req.merchantId in refs.merchants && f.productId in refs.products
    && (f.searchRequestId == "" || f.searchRequestId in refs.searchRequests)
  }

  /** What has to be true of a request, beforehand, for it to settle. */
  predicate Settleable(w: World, s: State, req: Request, e: Conditions, row: Option<Listing>) {
    && PriceFailure(w, s.minted, req, e.now, row, false).None?
    && row.Some?
    && F.HandleVerify(w.chain, s.fac.mode, req.payload, req.requirements, e.verifyNow).Verified?
    && req.assertion.fields.assertionId !in s.db.consumed
    && Grounded(s.db.refs, req) && Balanced(PendingOf(req, row.value, e.newId))
    && !s.fac.mode.SettleFails? && e.settleNow < F.ValidBefore(req.payload)
    && req.payload.authorization.nonce !in s.fac.nonces
  }

  lemma BeginSucceeds(db: Database, req: Request, p: PendingSettlement, listing: Listing, tx: TxFault)
    requires p == PendingOf(req, listing, p.settlementId) && tx.NoFault? && p.settlementId !in db.settlements
    ensures BeginTx(db, p, tx).1.Begun? <==> p.assertionId !in db.consumed && Grounded(db.refs, req) && Balanced(p)
    ensures BeginTx(db, p, tx).1.Begun? ==> IsPending(BeginTx(db, p, tx).0, p.settlementId)
  {
    hide Balanced, CalculateCommission;
  }

  lemma ConfirmSucceeds(db: Database, p: PendingSettlement, transaction: string, now: int, tx: TxFault)
    requires tx.NoFault?
    ensures ConfirmTx(db, p, transaction, now, tx).1 <==> IsPending(db, p.settlementId)
  {
    hide EntriesOf;
  }

  /**
   Left undisturbed, a request settles exactly when it prices, its payment verifies, its
   assertion is unclaimed, the rows it names exist, its split passes the table's checks, and at
   settlement the payer's window is open and the nonce unused.
   */
  lemma SettlesExactly(w: World, s: State, req: Request, e: Conditions, row: Option<Listing>)
    requires s.calls == [] && e.newId !in s.issuedIds && e.newId !in s.db.settlements && Undisturbed(e)
    requires IsFirstRow(s.db, req.assertion.fields.productId, req.merchantId, row)
    ensures var s' := Run(w, s, SettleSteps(req, e, row));
            |s'.calls| == 1 && (s'.calls[0].phase.Done? <==> Settleable(w, s, req, e, row))
  {
    SettleRun(w, s, req, e, row);
    var s0 := Do(w, s, Arrive(req));
    assert Alone(s0, req, Received) && s0.db == s.db && s0.fac == s.fac && s0.issuedIds == s.issuedIds && s0.minted == s.minted;
    hide Do, Run, IsFirstRow, PriceFailure, PendingOf, Balanced, Grounded, IsPending, BeginTx, ConfirmTx, FailTx;
    hide F.HandleVerify, F.HandleSettle, F.ValidBefore;
    var s1 := Do(w, s0, Price(0, e.now, row, e.lookupFails));
    PriceOutcome(w, s0, req, e.now, row, e.lookupFails);
    var failure := PriceFailure(w, s.minted, req, e.now, row, false);
    if failure.Some? {
      RefusedStays(w, s1, req, e, failure.value);
      return;
    }
    var listing := row.value;
    var p := PendingOf(req, listing, e.newId);
    var s2 := Do(w, s1, Clear(0, e.verifyNow, e.verifyNet, e.newId));
    ClearOutcome(w, s1, req, e.verifyNow, e.verifyNet, e.newId, listing, e.now);
    var heard := Heard(w, s.fac, req, e.verifyNow, e.verifyNet);
    if !heard.Verified? {
      RefusedStays(w, s2, req, e, if heard.VerifyUnavailable? then FacilitatorUnavailable else PaymentInvalid);
      return;
    }
    var s3 := Do(w, s2, Begin(0, e.begin));
    BeginOutcome(w, s2, req, e.begin, p, listing, e.now);
    PendingNames(req, listing, e.newId);
    BeginSucceeds(s.db, req, p, listing, e.begin);
    if !BeginTx(s.db, p, e.begin).1.Begun? {
      RefusedStays(w, s3, req, e, if BeginTx(s.db, p, e.begin).1.AssertionReused? then ReusedAssertion else Internal);
      return;
    }
    SettlesFromClaim(w, s3, s.fac.mode, req, e, p);
  }

  /** From a committed claim on, the window, the nonce and the armed fault decide. */
  lemma SettlesFromClaim(w: World, s: State, mode: F.FaultMode, req: Request, e: Conditions, p: PendingSettlement)
    requires Alone(s, req, Claimed(p)) && IsPending(s.db, p.settlementId) && Undisturbed(e) && s.fac.mode == mode
    requires F.HandleVerify(w.chain, mode, req.payload, req.requirements, e.verifyNow).Verified?
    ensures var s' := Do(w, Do(w, Do(w, s, Pay(0, e.settleNow, e.settleNet)), Confirm(0, e.confirmNow, e.confirm)), Fail(0, e.fail));
            |s'.calls| == 1
            && (s'.calls[0].phase.Done? <==> !mode.SettleFails? && e.settleNow < F.ValidBefore(req.payload)
                                             && req.payload.authorization.nonce !in s.fac.nonces)
  {
    hide Do, IsPending, ConfirmTx, FailTx, F.HandleVerify, F.HandleSettle, F.ValidBefore;
    var s4 := Do(w, s, Pay(0, e.settleNow, e.settleNet));
    PayOutcome(w, s, req, e.settleNow, e.settleNet, p);
    VerifyNeedsMode(w, mode, req, e);
    F.VerifiedThenSettles(w.chain, s.fac, req.payload, req.requirements, e.verifyNow, mode, e.settleNow, Some(p.settlementId));
    match Charged(w, s.fac, req, p.settlementId, e.settleNow, e.settleNet).1
    case Settled(transaction, network, payer) =>
      ConfirmOutcome(w, s4, req, e, p, transaction, network, payer);
      ConfirmSucceeds(s.db, p, transaction, e.confirmNow, e.confirm);
    case NotSettled => FailOutcome(w, s4, req, e, p, SettlementFailed);
    case SettleUnavailable => FailOutcome(w, s4, req, e, p, FacilitatorUnavailable);
  }

  lemma VerifyNeedsMode(w: World, mode: F.FaultMode, req: Request, e: Conditions)
    ensures F.HandleVerify(w.chain, mode, req.payload, req.requirements, e.verifyNow).Verified? ==> !mode.Unavailable?
  {
  }

  /**
   In the safe range of prices the table's checks pass exactly for a positive price settled at a
   rate between 0 and 10,000, the lower of the signed and the listed one.
   */
  lemma SafePricesBalance(req: Request, listing: Listing, id: string)
    requires req.gross <= SAFE_GROSS
    ensures var signed, listed := req.assertion.fields.commissionBps, listing.commissionBps;
            Balanced(PendingOf(req, listing, id))
            <==> req.gross > 0 && 0 <= signed && 0 <= listed && (signed <= 10_000 || listed <= 10_000)
  {
    var bps := EffectiveBps(req.assertion.fields.commissionBps, listing.commissionBps);
    if req.gross > 0 && 0 <= bps <= DIVISOR {
      SplitShape(req.gross, bps);
      SplitAddsUp(req.gross, bps);
    }
  }
}
