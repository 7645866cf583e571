/**
 The settlement protocol as a step machine. Any number of calls run `handleSettle` at once;
 each database transaction and each remote call is one step, and a call may fail, lose a reply
 or crash at any of them. A step whose guard does not hold leaves the state as it is, so every
 list of steps is a run.
 */
module Protocol {
  import opened Prelude
  import opened Commission
  import opened Store
  import opened Detail
  import A = Assertion
  import F = Facilitator

  datatype World = World(runtime: A.Runtime, chain: F.Chain)

  datatype Request = Request(
    assertion: A.Assertion,
    merchantId: string,
    gross: int,
    currency: string,
    payload: F.PaymentPayload,
    requirements: F.PaymentRequirements)

  datatype Failure =
    | ReusedAssertion
    | ExpiredAssertion
    | BadSignature
    | ListingNotFound
    | OutOfStock
    | CurrencyMismatch
    | AmountMismatch
    | PaymentInvalid
    | SettlementFailed
    | FacilitatorUnavailable
    | Internal

  const INTERNAL_ERROR: string := "internal_error"

  /** `statusFor`: the answer a caller can act on, and the reason a refusal is journalled under. */
  function StatusFor(failure: Failure): (nat, string) {
    match failure
    case ReusedAssertion => (409, "assertion_reused")
    case ExpiredAssertion => (401, "assertion_expired")
    case BadSignature => (401, "assertion_signature_invalid")
    case ListingNotFound => (404, "listing_not_found")
    case OutOfStock => (422, "listing_mismatch")
    case CurrencyMismatch => (422, "listing_mismatch")
    case AmountMismatch => (422, "listing_mismatch")
    case PaymentInvalid => (402, "payment_invalid")
    case SettlementFailed => (402, "settlement_failed")
    case FacilitatorUnavailable => (502, "facilitator_unavailable")
    case Internal => (500, INTERNAL_ERROR)
  }

  /** The reason says which failure it was, but for the three ways a listing can disagree. */
  predicate Names(reason: string, failure: Failure) {
    && (reason == "assertion_reused" <==> failure.ReusedAssertion?)
    && (reason == "assertion_expired" <==> failure.ExpiredAssertion?)
    && (reason == "assertion_signature_invalid" <==> failure.BadSignature?)
    && (reason == "listing_not_found" <==> failure.ListingNotFound?)
    && (reason == "listing_mismatch" <==> failure.OutOfStock? || failure.CurrencyMismatch? || failure.AmountMismatch?)
    && (reason == "payment_invalid" <==> failure.PaymentInvalid?)
    && (reason == "settlement_failed" <==> failure.SettlementFailed?)
    && (reason == "facilitator_unavailable" <==> failure.FacilitatorUnavailable?)
    && (reason == "internal_error" <==> failure.Internal?)
  }

  /** A caller can tell from the status alone whose turn it is: its own, the payer's, or the platform's. */
  lemma StatusTells(failure: Failure)
    ensures var (status, reason) := StatusFor(failure);
            && Names(reason, failure)
            && (status == 409 <==> failure.ReusedAssertion?)
            && (status == 401 <==> failure.ExpiredAssertion? || failure.BadSignature?)
            && (status == 404 <==> failure.ListingNotFound?)
            && (status == 422 <==> failure.OutOfStock? || failure.CurrencyMismatch? || failure.AmountMismatch?)
            && (status == 402 <==> failure.PaymentInvalid? || failure.SettlementFailed?)
            && (status == 502 <==> failure.FacilitatorUnavailable?)
            && (status == 500 <==> failure.Internal?)
  {
    var reason := StatusFor(failure).1;
    assert reason[0] in {'a', 'l', 'p', 's', 'f', 'i'};
    assert |reason| == 17 ==> reason[1] in {'s', 'i', 'e'};
  }

  datatype Result = Result(settlementId: string, txHash: string, network: string, payer: string, commissionBps: int, split: Split)

  /** Where a call stands, with what it carries. */
  datatype Phase =
    | Received
    | Priced(listing: Listing, pricedAt: int)
    | Cleared(pending: PendingSettlement, listing: Listing, pricedAt: int)
    | Claimed(pending: PendingSettlement)
    | Paid(pending: PendingSettlement, transaction: string, network: string, payer: string)
    | Unpaid(pending: PendingSettlement, failure: Failure)
    | Done(result: Result)
    | Refused(failure: Failure)
    | Answered(failure: Failure)
    | Crashed

  datatype Call = Call(request: Request, phase: Phase)

  /** The call a settlement row came from and the listing it was priced against. */
  datatype Admission = Admission(request: Request, listing: Listing, pricedAt: int)

  /**
   The platform: its database, the facilitator, the fields signed so far and the calls received.
   `issuedIds`, `admissions` and `attempts` only record history: settlement ids handed out,
   where each row came from, and the settlements a facilitator settle call was issued for.
   `inFlight` are the settlements whose settle request is still on its way although its caller
   has stopped waiting for it.
   */
  datatype State = State(
    db: Database,
    fac: F.FacilitatorState,
    minted: set<A.Fields>,
    calls: seq<Call>,
    issuedIds: set<string>,
    admissions: map<string, Admission>,
    attempts: seq<string>,
    inFlight: set<string>)

  /** A remote call is answered, never arrives, is carried out unheard, or is given up on before it arrives. */
  datatype NetFault = Delivered | RequestLost | ReplyLost | LeftInFlight

  datatype Step =
    | Arrive(request: Request)
    | Price(call: nat, now: int, row: Option<Listing>, lookupFails: bool)
    | Clear(call: nat, now: int, net: NetFault, newId: string)
    | Begin(call: nat, tx: TxFault)
    | Pay(call: nat, now: int, net: NetFault)
    | Deliver(settlementId: string, now: int)
    | Confirm(call: nat, now: int, tx: TxFault)
    | Fail(call: nat, statement: StatementFault)
    | Journal(call: nat, detail: string, statement: StatementFault)
    | Crash(call: nat)
    | Mint(assertionId: string, publisherId: string, productId: string, searchRequestId: string, bps: int, issuedAt: int)
    | Report(rejection: Rejection, statement: StatementFault)
    | Reload(listings: set<Listing>, refs: References)
    | Arm(mode: F.FaultMode)
    | PayDirectly(payload: F.PaymentPayload, requirements: F.PaymentRequirements, now: int)

  // One call's transitions

  function EffectiveBps(signedBps: int, listingBps: int): int {
    if listingBps < signedBps then listingBps else signedBps
  }

  /** Why a request is turned away before the facilitator hears of it; `None` if it is not. */
  function PriceFailure(w: World, minted: set<A.Fields>, req: Request, now: int, row: Option<Listing>, lookupFails: bool): Option<Failure> {
    match A.Verify(w.runtime, minted, req.assertion, now)
    case MalformedSignature => Some(BadSignature)
    case InvalidSignature => Some(BadSignature)
    case UnreadableExpiry => Some(Internal)
    case Expired => Some(ExpiredAssertion)
    case Accepted =>
      if lookupFails then Some(Internal)
      else if row.None? then Some(ListingNotFound)
      else if !row.value.inStock then Some(OutOfStock)
      else if row.value.currency != req.currency then Some(CurrencyMismatch)
      else if row.value.priceCents != req.gross then Some(AmountMismatch)
      else None
  }

  function PendingOf(req: Request, listing: Listing, settlementId: string): PendingSettlement {
    var f := req.assertion.fields;
    var bps := EffectiveBps(f.commissionBps, listing.commissionBps);
    PendingSettlement(settlementId, f.assertionId, f.searchRequestId, f.publisherId, req.merchantId, f.productId,
                      req.gross, req.currency, bps, CalculateCommission(req.gross, bps), req.requirements.network)
  }

  function ResultOf(p: PendingSettlement, transaction: string, network: string, payer: string): Result {
    Result(p.settlementId, transaction, network, payer, p.commissionBps, p.split)
  }

  predicate Stands(s: State, c: nat) {
    c < |s.calls|
  }

  function At(s: State, c: nat, phase: Phase): State
    requires Stands(s, c)
  {
    s.(calls := s.calls[c := s.calls[c].(phase := phase)])
  }

  function DoPrice(w: World, s: State, c: nat, now: int, row: Option<Listing>, lookupFails: bool): State
    requires Stands(s, c)
  {
    var req := s.calls[c].request;
    if !s.calls[c].phase.Received? || !IsFirstRow(s.db, req.assertion.fields.productId, req.merchantId, row) then s
    else
      var failure := PriceFailure(w, s.minted, req, now, row, lookupFails);
      At(s, c, if failure.Some? then Refused(failure.value) else Priced(row.value, now))
  }

  function DoClear(w: World, s: State, c: nat, now: int, net: NetFault, newId: string): State
    requires Stands(s, c)
  {
    var Call(req, phase) := s.calls[c];
    if !phase.Priced? || newId in s.issuedIds then s
    else
      match (if net.Delivered? then F.HandleVerify(w.chain, s.fac.mode, req.payload, req.requirements, now) else F.VerifyUnavailable)
      case VerifyUnavailable => At(s, c, Refused(FacilitatorUnavailable))
      case NotVerified => At(s, c, Refused(PaymentInvalid))
      case Verified(_) =>
        At(s, c, Cleared(PendingOf(req, phase.listing, newId), phase.listing, phase.pricedAt)).(issuedIds := s.issuedIds + {newId})
  }

  function DoBegin(s: State, c: nat, tx: TxFault): State
    requires Stands(s, c)
  {
    var Call(req, phase) := s.calls[c];
    if !phase.Cleared? then s
    else
      var p := phase.pending;
      var (db, r) := BeginTx(s.db, p, tx);
      var next := match r
                  case Begun => Claimed(p)
                  case AssertionReused => Refused(ReusedAssertion)
                  case BeginFailed => Refused(Internal);
      var admitted := if p.settlementId in db.settlements && p.settlementId !in s.db.settlements
                      then s.admissions[p.settlementId := Admission(req, phase.listing, phase.pricedAt)]
                      else s.admissions;
      At(s, c, next).(db := db, admissions := admitted)
  }

  function DoPay(w: World, s: State, c: nat, now: int, net: NetFault): State
    requires Stands(s, c)
  {
    var Call(req, phase) := s.calls[c];
    if !phase.Claimed? then s
    else
      var p := phase.pending;
      var (fac, reply) :=
        if net.RequestLost? || net.LeftInFlight? then (s.fac, F.SettleUnavailable)
        else F.HandleSettle(w.chain, s.fac, req.payload, req.requirements, now, Some(p.settlementId));
      var next :=
        if net.ReplyLost? then Unpaid(p, FacilitatorUnavailable)
        else
          match reply
          case Settled(transaction, network, payer) => Paid(p, transaction, network, payer)
          case NotSettled => Unpaid(p, SettlementFailed)
          case SettleUnavailable => Unpaid(p, FacilitatorUnavailable);
      At(s, c, next).(fac := fac, attempts := s.attempts + [p.settlementId],
                      inFlight := if net.LeftInFlight? then s.inFlight + {p.settlementId} else s.inFlight)
  }

  /** A settle request arrives after its caller has given up; nobody hears the reply. */
  function DoDeliver(w: World, s: State, id: string, now: int): State {
    if id !in s.inFlight || id !in s.admissions then s
    else
      var req := s.admissions[id].request;
      s.(fac := F.HandleSettle(w.chain, s.fac, req.payload, req.requirements, now, Some(id)).0, inFlight := s.inFlight - {id})
  }

  function DoConfirm(s: State, c: nat, now: int, tx: TxFault): State
    requires Stands(s, c)
  {
    var phase := s.calls[c].phase;
    if !phase.Paid? then s
    else
      var (db, ok) := ConfirmTx(s.db, phase.pending, phase.transaction, now, tx);
      var next := if ok then Done(ResultOf(phase.pending, phase.transaction, phase.network, phase.payer)) else Refused(Internal);
      At(s, c, next).(db := db)
  }

  function DoFail(s: State, c: nat, statement: StatementFault): State
    requires Stands(s, c)
  {
    var phase := s.calls[c].phase;
    if !phase.Unpaid? then s
    else At(s, c, Refused(phase.failure)).(db := FailTx(s.db, phase.pending.settlementId, statement).0)
  }

  function DoJournal(s: State, c: nat, detail: string, statement: StatementFault): State
    requires Stands(s, c)
  {
    var Call(req, phase) := s.calls[c];
    if !phase.Refused? then s
    else
      var reason := StatusFor(phase.failure).1;
      var f := req.assertion.fields;
      var rejection := RejectionOf(f.publisherId, f.assertionId, req.merchantId, reason, detail);
      var db := if reason == INTERNAL_ERROR then s.db else RejectTx(s.db, rejection, statement).0;
      At(s, c, Answered(phase.failure)).(db := db)
  }

  function DoCrash(s: State, c: nat): State
    requires Stands(s, c)
  {
    if s.calls[c].phase.Done? || s.calls[c].phase.Answered? then s else At(s, c, Crashed)
  }

  // The rest of the platform

  function DoMint(w: World, s: State, step: Step): State
    requires step.Mint?
  {
    var a := A.Mint(w.runtime, step.assertionId, step.publisherId, step.productId, step.searchRequestId, step.bps, step.issuedAt);
    if a.None? || step.issuedAt < 0 || A.Seconds(step.issuedAt + A.TTL) > A.CALENDAR_END then s
    else s.(minted := s.minted + {a.value.fields})
  }

  function Do(w: World, s: State, step: Step): State {
    match step
    case Arrive(request) => s.(calls := s.calls + [Call(request, Received)])
    case Price(c, now, row, lookupFails) => if Stands(s, c) then DoPrice(w, s, c, now, row, lookupFails) else s
    case Clear(c, now, net, newId) => if Stands(s, c) then DoClear(w, s, c, now, net, newId) else s
    case Begin(c, tx) => if Stands(s, c) then DoBegin(s, c, tx) else s
    case Pay(c, now, net) => if Stands(s, c) then DoPay(w, s, c, now, net) else s
    case Deliver(id, now) => DoDeliver(w, s, id, now)
    case Confirm(c, now, tx) => if Stands(s, c) then DoConfirm(s, c, now, tx) else s
    case Fail(c, statement) => if Stands(s, c) then DoFail(s, c, statement) else s
    case Journal(c, detail, statement) => if Stands(s, c) then DoJournal(s, c, detail, statement) else s
    case Crash(c) => if Stands(s, c) then DoCrash(s, c) else s
    case Mint(_, _, _, _, _, _) => DoMint(w, s, step)
    case Report(rejection, statement) => s.(db := RejectTx(s.db, rejection, statement).0)
    case Reload(listings, refs) => if Grows(s.db.refs, refs) then s.(db := s.db.(listings := listings, refs := refs)) else s
    case Arm(mode) => s.(fac := s.fac.(mode := mode))
    case PayDirectly(payload, requirements, now) =>
      s.(fac := F.HandleSettle(w.chain, s.fac, payload, requirements, now, None).0)
  }

  function Run(w: World, s: State, steps: seq<Step>): State {
    if steps == [] then s else Do(w, Run(w, s, steps[..|steps| - 1]), steps[|steps| - 1])
  }

  function Initial(listings: set<Listing>, refs: References): State {
    State(Database(map[], map[], [], [], listings, refs), F.FacilitatorState({}, [], F.Healthy), {}, [], {}, map[], [], {})
  }
}
