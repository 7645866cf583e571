/** What holds in every reachable state of the settlement protocol. */
module ProtocolInvariant {
  import opened Prelude
  import opened Decimal
  import opened Store
  import opened Protocol
  import A = Assertion
  import F = Facilitator

  /** The request was verified, priced and found in stock against `listing`. */
  ghost predicate Admits(w: World, minted: set<A.Fields>, a: Admission) {
    && A.Verify(w.runtime, minted, a.request.assertion, a.pricedAt) == A.Accepted
    && a.listing.productId == a.request.assertion.fields.productId
    && a.listing.merchantId == a.request.merchantId
    && a.listing.inStock
    && a.listing.currency == a.request.currency
    && a.listing.priceCents == a.request.gross
  }

  /** Row `id` is the one admission `a` led to. */
  ghost predicate Admitted(w: World, minted: set<A.Fields>, row: Row, id: string, a: Admission) {
    Admits(w, minted, a) && row.details == PendingOf(a.request, a.listing, id)
  }

  ghost predicate AdmissionsMatchRows(w: World, minted: set<A.Fields>, rows: Rows, admissions: map<string, Admission>) {
    && admissions.Keys == rows.Keys
    && forall id :: id in rows ==> Admitted(w, minted, rows[id], id, admissions[id])
  }

  ghost predicate PendingRowIs(rows: Rows, p: PendingSettlement) {
    p.settlementId in rows && rows[p.settlementId].status.Pending? && rows[p.settlementId].details == p
  }

  ghost predicate HasTransfer(transfers: seq<F.Transfer>, id: string, transaction: string) {
    exists i :: 0 <= i < |transfers| && transfers[i].origin == Some(id) && transfers[i].transaction == transaction
  }

  /** A success reported to a caller is the confirmed row, hash and split included. */
  ghost predicate Recorded(rows: Rows, r: Result) {
    && r.settlementId in rows
    && rows[r.settlementId].status.Confirmed?
    && rows[r.settlementId].txHash == Some(r.txHash)
    && rows[r.settlementId].details.commissionBps == r.commissionBps
    && rows[r.settlementId].details.split == r.split
  }

  /** Settlement `id` came from this very request. */
  ghost predicate IsOwn(admissions: map<string, Admission>, id: string, request: Request) {
    id in admissions && admissions[id].request == request
  }

  /** The network and the payer are those of the request's own authorization. */
  predicate PaidBy(request: Request, network: string, payer: string) {
    network == request.payload.network && payer == request.payload.authorization.sender
  }

  /** A call's phase agrees with the tables. */
  ghost predicate PhaseOk(w: World, s: State, call: Call) {
    match call.phase
    case Priced(listing, at) => Admits(w, s.minted, Admission(call.request, listing, at))
    case Cleared(p, listing, at) =>
      && Admits(w, s.minted, Admission(call.request, listing, at))
      && p == PendingOf(call.request, listing, p.settlementId)
      && p.settlementId in s.issuedIds && p.settlementId !in s.db.settlements
    case Claimed(p) =>
      && PendingRowIs(s.db.settlements, p) && p.settlementId !in s.attempts
      && IsOwn(s.admissions, p.settlementId, call.request)
    case Paid(p, transaction, network, payer) =>
      && PendingRowIs(s.db.settlements, p) && HasTransfer(s.fac.transfers, p.settlementId, transaction)
      && IsOwn(s.admissions, p.settlementId, call.request) && PaidBy(call.request, network, payer)
    case Unpaid(p, _) => PendingRowIs(s.db.settlements, p)
    case Done(r) =>
      && Recorded(s.db.settlements, r)
      && IsOwn(s.admissions, r.settlementId, call.request) && PaidBy(call.request, r.network, r.payer)
    case _ => true
  }

  /** The settlement a call alone may still touch. */
  function HeldId(phase: Phase): Option<string> {
    match phase
    case Cleared(p, _, _) => Some(p.settlementId)
    case Claimed(p) => Some(p.settlementId)
    case Paid(p, _, _, _) => Some(p.settlementId)
    case Unpaid(p, _) => Some(p.settlementId)
    case _ => None
  }

  ghost predicate CallsOk(w: World, s: State) {
    && (forall c :: 0 <= c < |s.calls| ==> PhaseOk(w, s, s.calls[c]))
    && (forall c, d :: 0 <= c < |s.calls| && 0 <= d < |s.calls| && c != d && HeldId(s.calls[c].phase).Some? ==>
          HeldId(s.calls[c].phase) != HeldId(s.calls[d].phase))
  }

  ghost predicate AttemptsOk(rows: Rows, attempts: seq<string>) {
    && (forall i, j :: 0 <= i < j < |attempts| ==> attempts[i] != attempts[j])
    && (forall i :: 0 <= i < |attempts| ==> attempts[i] in rows)
  }

  /** The transfer made for a settlement is the one its request authorized and required. */
  ghost predicate TransferOk(t: F.Transfer, attempts: seq<string>, admissions: map<string, Admission>) {
    t.origin.Some? ==>
      && t.origin.value in attempts
      && t.origin.value in admissions
      && t.value == admissions[t.origin.value].request.payload.authorization.value
      && BigIntOf(t.value).Some?
      && BigIntOf(t.value) == BigIntOf(admissions[t.origin.value].request.requirements.maxAmountRequired)
  }

  ghost predicate TransfersOk(transfers: seq<F.Transfer>, attempts: seq<string>, admissions: map<string, Admission>) {
    && (forall i :: 0 <= i < |transfers| ==> TransferOk(transfers[i], attempts, admissions))
    && (forall i, j :: 0 <= i < j < |transfers| && transfers[i].origin.Some? ==> transfers[i].origin != transfers[j].origin)
  }

  ghost predicate Unmoved(transfers: seq<F.Transfer>, id: string) {
    forall i :: 0 <= i < |transfers| ==> transfers[i].origin != Some(id)
  }

  /** A request on its way was issued for an admitted settlement and has moved nothing yet. */
  ghost predicate FlightsOk(inFlight: set<string>, attempts: seq<string>, admissions: map<string, Admission>, transfers: seq<F.Transfer>) {
    forall id :: id in inFlight ==> id in attempts && id in admissions && Unmoved(transfers, id)
  }

  ghost predicate ConfirmedPaid(rows: Rows, transfers: seq<F.Transfer>) {
    forall id :: id in rows && rows[id].status.Confirmed? ==>
      rows[id].txHash.Some? && HasTransfer(transfers, id, rows[id].txHash.value)
  }

  ghost predicate Inv(w: World, s: State) {
    && Consistent(s.db)
    && F.NoncesMatchTransfers(s.fac)
    && A.OnlyMinted(w.runtime, s.minted)
    && AdmissionsMatchRows(w, s.minted, s.db.settlements, s.admissions)
    && s.db.settlements.Keys <= s.issuedIds
    && AttemptsOk(s.db.settlements, s.attempts)
    && TransfersOk(s.fac.transfers, s.attempts, s.admissions)
    && FlightsOk(s.inFlight, s.attempts, s.admissions, s.fac.transfers)
    && ConfirmedPaid(s.db.settlements, s.fac.transfers)
    && CallsOk(w, s)
  }

  lemma InitialInv(w: World, listings: set<Listing>, refs: References)
    ensures Inv(w, Initial(listings, refs))
  {
  }

  /** One call moves on and the tables stay: only its own phase has to be shown. */
  lemma MoveOn(w: World, s: State, c: nat, phase: Phase, ids: set<string>)
    requires Inv(w, s) && Stands(s, c) && s.issuedIds <= ids
    requires HeldId(phase).Some? ==> HeldId(phase) == HeldId(s.calls[c].phase)
                                     || (HeldId(phase).value !in s.issuedIds && HeldId(phase).value !in s.db.settlements)
    requires PhaseOk(w, s.(issuedIds := ids), s.calls[c].(phase := phase))
    ensures Inv(w, At(s, c, phase).(issuedIds := ids))
  {
    hide Consistent, AdmissionsMatchRows, AttemptsOk, TransfersOk, FlightsOk, ConfirmedPaid, Admits;
    hide F.NoncesMatchTransfers, A.OnlyMinted, HasTransfer, PendingOf;
    var s' := At(s, c, phase).(issuedIds := ids);
    forall d | 0 <= d < |s'.calls|
      ensures PhaseOk(w, s', s'.calls[d])
    {
      assert d != c ==> PhaseOk(w, s, s.calls[d]);
    }
    forall d | 0 <= d < |s.calls| && HeldId(s.calls[d].phase).Some?
      ensures HeldId(s.calls[d].phase).value in s.issuedIds
    {
      assert PhaseOk(w, s, s.calls[d]);
    }
  }

  /** Nothing but settlement `id` changed, and no record of another one was lost. */
  ghost predicate OnlyTouches(s: State, s': State, id: string) {
    && (forall i :: i != id && i in s.db.settlements ==>
          i in s'.db.settlements && s'.db.settlements[i] == s.db.settlements[i])
    && (forall i :: i != id && i in s'.db.settlements ==> i in s.db.settlements)
    && (forall i :: i != id && i in s'.attempts ==> i in s.attempts)
    && (forall i :: i in s.admissions ==> i in s'.admissions && s'.admissions[i] == s.admissions[i])
    && (id in s.db.settlements && s.db.settlements[id].status.Confirmed? ==>
          id in s'.db.settlements && s'.db.settlements[id] == s.db.settlements[id])
    && s.fac.transfers <= s'.fac.transfers
    && s'.minted == s.minted && s'.issuedIds == s.issuedIds
  }

  lemma TransferStays(transfers: seq<F.Transfer>, transfers': seq<F.Transfer>, id: string, transaction: string)
    requires transfers <= transfers' && HasTransfer(transfers, id, transaction)
    ensures HasTransfer(transfers', id, transaction)
  {
    var i :| 0 <= i < |transfers| && transfers[i].origin == Some(id) && transfers[i].transaction == transaction;
    assert transfers'[i] == transfers[i];
  }

  lemma PhaseUntouched(w: World, s: State, s': State, id: string, call: Call)
    requires PhaseOk(w, s, call) && OnlyTouches(s, s', id) && HeldId(call.phase) != Some(id)
    ensures PhaseOk(w, s', call)
  {
    if call.phase.Paid? {
      TransferStays(s.fac.transfers, s'.fac.transfers, call.phase.pending.settlementId, call.phase.transaction);
    }
  }

  /** The call holding `id` moves on, touching only `id`: every other call is where it was. */
  lemma OthersUntouched(w: World, s: State, s': State, c: nat, id: string, phase: Phase)
    requires CallsOk(w, s) && Stands(s, c) && HeldId(s.calls[c].phase) == Some(id)
    requires OnlyTouches(s, s', id) && s'.calls == s.calls[c := s.calls[c].(phase := phase)]
    requires HeldId(phase).None? || HeldId(phase) == Some(id)
    requires PhaseOk(w, s', s'.calls[c])
    ensures CallsOk(w, s')
  {
    forall d | 0 <= d < |s'.calls|
      ensures PhaseOk(w, s', s'.calls[d])
    {
      if d != c {
        PhaseUntouched(w, s, s', id, s.calls[d]);
      }
    }
  }

  // The tables, part by part

  lemma NewRowKeepsAdmissions(w: World, minted: set<A.Fields>, rows: Rows, admissions: map<string, Admission>, p: PendingSettlement,
                              a: Admission)
    requires AdmissionsMatchRows(w, minted, rows, admissions)
    requires Admits(w, minted, a) && p == PendingOf(a.request, a.listing, p.settlementId)
    ensures AdmissionsMatchRows(w, minted, rows[p.settlementId := PendingRow(p)], admissions[p.settlementId := a])
  {
    hide Admits, PendingOf;
  }

  lemma StatusChangeKeepsAdmissions(w: World, minted: set<A.Fields>, rows: Rows, admissions: map<string, Admission>, id: string, row: Row)
    requires AdmissionsMatchRows(w, minted, rows, admissions) && id in rows && row.details == rows[id].details
    ensures AdmissionsMatchRows(w, minted, rows[id := row], admissions)
  {
    hide Admits, PendingOf;
    assert Admitted(w, minted, rows[id], id, admissions[id]);
  }

  lemma RowPutKeepsPaid(rows: Rows, transfers: seq<F.Transfer>, id: string, row: Row)
    requires ConfirmedPaid(rows, transfers)
    requires row.status.Confirmed? ==> row.txHash.Some? && HasTransfer(transfers, id, row.txHash.value)
    ensures ConfirmedPaid(rows[id := row], transfers)
  {
    hide HasTransfer;
  }

  lemma RowPutKeepsAttempts(rows: Rows, attempts: seq<string>, id: string, row: Row)
    requires AttemptsOk(rows, attempts)
    ensures AttemptsOk(rows[id := row], attempts)
  {
  }

  lemma NewAdmissionKeepsTransfers(transfers: seq<F.Transfer>, attempts: seq<string>, admissions: map<string, Admission>, id: string,
                                   a: Admission)
    requires TransfersOk(transfers, attempts, admissions) && id !in admissions
    ensures TransfersOk(transfers, attempts, admissions[id := a])
  {
    hide BigIntOf;
    forall i | 0 <= i < |transfers|
      ensures TransferOk(transfers[i], attempts, admissions[id := a])
    {
      assert TransferOk(transfers[i], attempts, admissions);
    }
  }

  lemma NewAdmissionKeepsFlights(inFlight: set<string>, attempts: seq<string>, admissions: map<string, Admission>,
                                 transfers: seq<F.Transfer>, id: string, a: Admission)
    requires FlightsOk(inFlight, attempts, admissions, transfers)
    ensures FlightsOk(inFlight, attempts, admissions[id := a], transfers)
  {
    hide Unmoved;
  }

  /** A settlement not attempted before has no transfer yet, and its first one joins the others. */
  lemma NewTransferKeepsTransfers(transfers: seq<F.Transfer>, attempts: seq<string>, admissions: map<string, Admission>, id: string,
                                  added: seq<F.Transfer>)
    requires TransfersOk(transfers, attempts, admissions) && id !in attempts
    requires |added| <= 1
    requires forall t :: t in added ==> t.origin == Some(id) && TransferOk(t, attempts + [id], admissions)
    ensures TransfersOk(transfers + added, attempts + [id], admissions)
  {
    hide BigIntOf;
    forall i | 0 <= i < |transfers|
      ensures TransferOk(transfers[i], attempts + [id], admissions)
      ensures transfers[i].origin != Some(id)
    {
      assert TransferOk(transfers[i], attempts, admissions);
    }
  }

  /** A request on its way brings its settlement's first transfer when it arrives. */
  lemma LateTransferKeepsTransfers(transfers: seq<F.Transfer>, attempts: seq<string>, admissions: map<string, Admission>, id: string,
                                   t: F.Transfer)
    requires TransfersOk(transfers, attempts, admissions) && Unmoved(transfers, id)
    requires t.origin == Some(id) && TransferOk(t, attempts, admissions)
    ensures TransfersOk(transfers + [t], attempts, admissions)
  {
    hide BigIntOf, TransferOk;
  }

  /** The other requests on their way have still moved nothing. */
  lemma TransferKeepsFlights(inFlight: set<string>, attempts: seq<string>, admissions: map<string, Admission>,
                             transfers: seq<F.Transfer>, t: F.Transfer)
    requires FlightsOk(inFlight, attempts, admissions, transfers)
    requires t.origin.Some? ==> t.origin.value !in inFlight
    ensures FlightsOk(inFlight, attempts, admissions, transfers + [t])
  {
    forall id | id in inFlight
      ensures Unmoved(transfers + [t], id)
    {
      assert Unmoved(transfers, id);
    }
  }

  lemma NotAttemptedIsUnmoved(transfers: seq<F.Transfer>, attempts: seq<string>, admissions: map<string, Admission>, id: string)
    requires TransfersOk(transfers, attempts, admissions) && id !in attempts
    ensures Unmoved(transfers, id)
  {
    hide BigIntOf;
    forall i | 0 <= i < |transfers|
      ensures transfers[i].origin != Some(id)
    {
      assert TransferOk(transfers[i], attempts, admissions);
    }
  }

  lemma MoreTransfersKeepPaid(rows: Rows, transfers: seq<F.Transfer>, transfers': seq<F.Transfer>)
    requires ConfirmedPaid(rows, transfers) && transfers <= transfers'
    ensures ConfirmedPaid(rows, transfers')
  {
    forall id | id in rows && rows[id].status.Confirmed?
      ensures HasTransfer(transfers', id, rows[id].txHash.value)
    {
      TransferStays(transfers, transfers', id, rows[id].txHash.value);
    }
  }

  lemma AttemptKeepsAttempts(rows: Rows, attempts: seq<string>, id: string)
    requires AttemptsOk(rows, attempts) && id in rows && id !in attempts
    ensures AttemptsOk(rows, attempts + [id])
  {
  }

  // Each step keeps the invariant

  lemma ArriveKeeps(w: World, s: State, request: Request)
    requires Inv(w, s)
    ensures Inv(w, Do(w, s, Arrive(request)))
  {
    hide Consistent, AttemptsOk, TransfersOk, FlightsOk, ConfirmedPaid, Admits, A.OnlyMinted, PendingOf, HasTransfer;
    var s' := Do(w, s, Arrive(request));
    forall d | 0 <= d < |s'.calls|
      ensures PhaseOk(w, s', s'.calls[d])
    {
      assert d < |s.calls| ==> PhaseOk(w, s, s.calls[d]);
    }
  }

  lemma PriceKeeps(w: World, s: State, c: nat, now: int, row: Option<Listing>, lookupFails: bool)
    requires Inv(w, s) && Stands(s, c)
    ensures Inv(w, DoPrice(w, s, c, now, row, lookupFails))
  {
    var s' := DoPrice(w, s, c, now, row, lookupFails);
    if s' != s {
      MoveOn(w, s, c, s'.calls[c].phase, s.issuedIds);
      assert s' == At(s, c, s'.calls[c].phase).(issuedIds := s.issuedIds);
    }
  }

  lemma ClearKeeps(w: World, s: State, c: nat, now: int, net: NetFault, newId: string)
    requires Inv(w, s) && Stands(s, c)
    ensures Inv(w, DoClear(w, s, c, now, net, newId))
  {
    hide Consistent, AdmissionsMatchRows, AttemptsOk, TransfersOk, FlightsOk, ConfirmedPaid, Admits;
    hide F.NoncesMatchTransfers, A.OnlyMinted, F.HandleVerify, PendingOf;
    var s' := DoClear(w, s, c, now, net, newId);
    if s' != s {
      assert PhaseOk(w, s, s.calls[c]);
      var phase := s'.calls[c].phase;
      var ids := s'.issuedIds;
      SettlementIdOfPending(s.calls[c].request, s.calls[c].phase.listing, newId);
      MoveOn(w, s, c, phase, ids);
      assert s' == At(s, c, phase).(issuedIds := ids);
    }
  }

  lemma SettlementIdOfPending(req: Request, listing: Listing, id: string)
    ensures PendingOf(req, listing, id).settlementId == id
  {
  }

  lemma CrashKeeps(w: World, s: State, c: nat)
    requires Inv(w, s) && Stands(s, c)
    ensures Inv(w, DoCrash(s, c))
  {
    MoveOn(w, s, c, Crashed, s.issuedIds);
    assert At(s, c, Crashed) == At(s, c, Crashed).(issuedIds := s.issuedIds);
  }

  lemma BeginKeeps(w: World, s: State, c: nat, tx: TxFault)
    requires Inv(w, s) && Stands(s, c)
    ensures Inv(w, DoBegin(s, c, tx))
  {
    hide Consistent, AdmissionsMatchRows, AttemptsOk, TransfersOk, FlightsOk, ConfirmedPaid, Admits, CallsOk;
    hide F.NoncesMatchTransfers, A.OnlyMinted, PendingOf, RowAllowed, ClaimAllowed;
    if s.calls[c].phase.Cleared? {
      if BeginTx(s.db, s.calls[c].phase.pending, tx).0 == s.db {
        BeginRefused(w, s, c, tx);
      } else {
        BeginCommitted(w, s, c, tx);
      }
    }
  }

  lemma BeginRefused(w: World, s: State, c: nat, tx: TxFault)
    requires Inv(w, s) && Stands(s, c) && s.calls[c].phase.Cleared?
    requires BeginTx(s.db, s.calls[c].phase.pending, tx).0 == s.db
    ensures Inv(w, DoBegin(s, c, tx))
  {
    hide Consistent, AdmissionsMatchRows, AttemptsOk, TransfersOk, FlightsOk, ConfirmedPaid, Admits;
    hide F.NoncesMatchTransfers, A.OnlyMinted, PendingOf, RowAllowed, ClaimAllowed;
    var s' := DoBegin(s, c, tx);
    assert PhaseOk(w, s, s.calls[c]);
    MoveOn(w, s, c, s'.calls[c].phase, s.issuedIds);
    assert s' == At(s, c, s'.calls[c].phase).(issuedIds := s.issuedIds);
  }

  lemma BeginCommitted(w: World, s: State, c: nat, tx: TxFault)
    requires Inv(w, s) && Stands(s, c) && s.calls[c].phase.Cleared?
    requires BeginTx(s.db, s.calls[c].phase.pending, tx).0 == WithPending(s.db, s.calls[c].phase.pending)
    ensures Inv(w, DoBegin(s, c, tx))
  {
    hide Consistent, AdmissionsMatchRows, AttemptsOk, TransfersOk, FlightsOk, ConfirmedPaid, Admits;
    hide F.NoncesMatchTransfers, A.OnlyMinted, PendingOf, RowAllowed, ClaimAllowed;
    var s' := DoBegin(s, c, tx);
    var Call(req, phase) := s.calls[c];
    var p := phase.pending;
    var a := Admission(req, phase.listing, phase.pricedAt);
    assert PhaseOk(w, s, s.calls[c]);
    BeginKeepsConsistent(s.db, p, tx);
    NewRowKeepsAdmissions(w, s.minted, s.db.settlements, s.admissions, p, a);
    RowPutKeepsAttempts(s.db.settlements, s.attempts, p.settlementId, PendingRow(p));
    RowPutKeepsPaid(s.db.settlements, s.fac.transfers, p.settlementId, PendingRow(p));
    FreshId(w, s, p.settlementId);
    NewAdmissionKeepsTransfers(s.fac.transfers, s.attempts, s.admissions, p.settlementId, a);
    NewAdmissionKeepsFlights(s.inFlight, s.attempts, s.admissions, s.fac.transfers, p.settlementId, a);
    OthersUntouched(w, s, s', c, p.settlementId, s'.calls[c].phase);
  }

  lemma FreshId(w: World, s: State, id: string)
    requires Inv(w, s) && id !in s.db.settlements
    ensures id !in s.admissions && id !in s.attempts
  {
    hide Consistent, TransfersOk, ConfirmedPaid, Admits, CallsOk, F.NoncesMatchTransfers, A.OnlyMinted, PendingOf;
  }

  lemma PayKeeps(w: World, s: State, c: nat, now: int, net: NetFault)
    requires Inv(w, s) && Stands(s, c)
    ensures Inv(w, DoPay(w, s, c, now, net))
  {
    hide Consistent, AdmissionsMatchRows, AttemptsOk, TransfersOk, FlightsOk, ConfirmedPaid, Admits;
    hide F.NoncesMatchTransfers, A.OnlyMinted, TransferOk, F.VerifyPayment, HasTransfer, CallsOk;
    var Call(req, phase) := s.calls[c];
    if phase.Claimed? {
      var s' := DoPay(w, s, c, now, net);
      var p := phase.pending;
      assert PhaseOk(w, s, s.calls[c]) by { CallStands(w, s, c); }
      F.SettleOncePerNonce(w.chain, s.fac, req.payload, req.requirements, now, Some(p.settlementId));
      PayTransfers(w, s, c, now, net);
      PayFlights(w, s, c, now, net);
      AttemptKeepsAttempts(s.db.settlements, s.attempts, p.settlementId);
      MoreTransfersKeepPaid(s.db.settlements, s.fac.transfers, s'.fac.transfers);
      OthersUntouched(w, s, s', c, p.settlementId, s'.calls[c].phase);
    }
  }

  lemma CallStands(w: World, s: State, c: nat)
    requires CallsOk(w, s) && Stands(s, c)
    ensures PhaseOk(w, s, s.calls[c])
  {
  }

  /** What a settle call adds to the transfers, and what it tells the call that made it. */
  lemma PayTransfers(w: World, s: State, c: nat, now: int, net: NetFault)
    requires Inv(w, s) && Stands(s, c) && s.calls[c].phase.Claimed? && PhaseOk(w, s, s.calls[c])
    ensures var s' := DoPay(w, s, c, now, net);
            && TransfersOk(s'.fac.transfers, s'.attempts, s'.admissions)
            && s.fac.transfers <= s'.fac.transfers
            && PhaseOk(w, s', s'.calls[c])
  {
    hide Consistent, AdmissionsMatchRows, AttemptsOk, TransfersOk, FlightsOk, ConfirmedPaid, Admits;
    hide F.NoncesMatchTransfers, A.OnlyMinted, F.VerifyPayment, CallsOk, BigIntOf;
    var Call(req, phase) := s.calls[c];
    var id := phase.pending.settlementId;
    var s' := DoPay(w, s, c, now, net);
    if s'.fac == s.fac {
      NewTransferKeepsTransfers(s.fac.transfers, s.attempts, s.admissions, id, []);
      assert s.fac.transfers + [] == s.fac.transfers;
    } else {
      var t := F.TransferOf(w.chain, req.payload, Some(id));
      assert s'.fac.transfers == s.fac.transfers + [t] && s'.fac.transfers[|s.fac.transfers|] == t;
      F.PayableChargesRequirement(w.chain, req.payload, req.requirements, now);
      assert TransferOk(t, s.attempts + [id], s.admissions);
      NewTransferKeepsTransfers(s.fac.transfers, s.attempts, s.admissions, id, [t]);
    }
  }

  lemma PayFlights(w: World, s: State, c: nat, now: int, net: NetFault)
    requires Inv(w, s) && Stands(s, c) && s.calls[c].phase.Claimed? && PhaseOk(w, s, s.calls[c])
    ensures var s' := DoPay(w, s, c, now, net);
            FlightsOk(s'.inFlight, s'.attempts, s'.admissions, s'.fac.transfers)
  {
    hide Consistent, AdmissionsMatchRows, AttemptsOk, TransfersOk, ConfirmedPaid, Admits;
    hide F.NoncesMatchTransfers, A.OnlyMinted, F.VerifyPayment, CallsOk, Unmoved;
    var Call(req, phase) := s.calls[c];
    var id := phase.pending.settlementId;
    var s' := DoPay(w, s, c, now, net);
    NotAttemptedIsUnmoved(s.fac.transfers, s.attempts, s.admissions, id);
    if s'.fac != s.fac {
      var t := F.TransferOf(w.chain, req.payload, Some(id));
      assert s'.fac.transfers == s.fac.transfers + [t];
      TransferKeepsFlights(s.inFlight, s.attempts, s.admissions, s.fac.transfers, t);
    }
  }

  /** A late arrival keeps the invariant, whatever has become of the settlement's row meanwhile. */
  lemma DeliverKeeps(w: World, s: State, id: string, now: int)
    requires Inv(w, s)
    ensures Inv(w, DoDeliver(w, s, id, now))
  {
    hide Consistent, AdmissionsMatchRows, AttemptsOk, TransfersOk, ConfirmedPaid, PhaseOk;
    hide F.NoncesMatchTransfers, A.OnlyMinted, F.VerifyPayment, Unmoved;
    var s' := DoDeliver(w, s, id, now);
    if id in s.inFlight && id in s.admissions {
      var req := s.admissions[id].request;
      var t := F.TransferOf(w.chain, req.payload, Some(id));
      F.SettleOncePerNonce(w.chain, s.fac, req.payload, req.requirements, now, Some(id));
      assert s'.fac == s.fac || s'.fac.transfers == s.fac.transfers + [t];
      if s'.fac != s.fac {
        F.PayableChargesRequirement(w.chain, req.payload, req.requirements, now);
        assert TransferOk(t, s.attempts, s.admissions);
        LateTransferKeepsTransfers(s.fac.transfers, s.attempts, s.admissions, id, t);
        TransferKeepsFlights(s.inFlight - {id}, s.attempts, s.admissions, s.fac.transfers, t);
      }
      MoreTransfersKeepPaid(s.db.settlements, s.fac.transfers, s'.fac.transfers);
      forall d | 0 <= d < |s'.calls|
        ensures PhaseOk(w, s', s'.calls[d])
      {
        PhaseOfPrefix(w, s, s', s.calls[d]);
      }
    }
  }

  lemma ConfirmKeeps(w: World, s: State, c: nat, now: int, tx: TxFault)
    requires Inv(w, s) && Stands(s, c)
    ensures Inv(w, DoConfirm(s, c, now, tx))
  {
    hide Consistent, AdmissionsMatchRows, AttemptsOk, TransfersOk, FlightsOk, ConfirmedPaid, Admits;
    hide F.NoncesMatchTransfers, A.OnlyMinted, HasTransfer;
    var s' := DoConfirm(s, c, now, tx);
    var phase := s.calls[c].phase;
    if phase.Paid? {
      var p := phase.pending;
      assert PhaseOk(w, s, s.calls[c]);
      ConfirmKeepsConsistent(s.db, p, phase.transaction, now, tx);
      if s'.db != s.db {
        var row := ConfirmedRow(s.db.settlements[p.settlementId], phase.transaction, now);
        StatusChangeKeepsAdmissions(w, s.minted, s.db.settlements, s.admissions, p.settlementId, row);
        RowPutKeepsAttempts(s.db.settlements, s.attempts, p.settlementId, row);
        RowPutKeepsPaid(s.db.settlements, s.fac.transfers, p.settlementId, row);
        assert s'.db.settlements == s.db.settlements[p.settlementId := row];
      }
      OthersUntouched(w, s, s', c, p.settlementId, s'.calls[c].phase);
    }
  }

  lemma FailKeeps(w: World, s: State, c: nat, statement: StatementFault)
    requires Inv(w, s) && Stands(s, c)
    ensures Inv(w, DoFail(s, c, statement))
  {
    hide Consistent, AdmissionsMatchRows, AttemptsOk, TransfersOk, FlightsOk, ConfirmedPaid, Admits;
    hide F.NoncesMatchTransfers, A.OnlyMinted, HasTransfer;
    var s' := DoFail(s, c, statement);
    var phase := s.calls[c].phase;
    if phase.Unpaid? {
      var id := phase.pending.settlementId;
      assert PhaseOk(w, s, s.calls[c]);
      FailKeepsConsistent(s.db, id, statement);
      if s'.db != s.db {
        var row := s.db.settlements[id].(status := Failed);
        StatusChangeKeepsAdmissions(w, s.minted, s.db.settlements, s.admissions, id, row);
        RowPutKeepsAttempts(s.db.settlements, s.attempts, id, row);
        RowPutKeepsPaid(s.db.settlements, s.fac.transfers, id, row);
        assert s'.db.settlements == s.db.settlements[id := row];
      }
      OthersUntouched(w, s, s', c, id, s'.calls[c].phase);
    }
  }

  /** Journalling, reference data and listings leave the settlement tables alone. */
  lemma SideTablesKeep(w: World, s: State, db: Database)
    requires Inv(w, s)
    requires db.consumed == s.db.consumed && db.settlements == s.db.settlements && db.ledger == s.db.ledger
    requires Grows(s.db.refs, db.refs)
    ensures Inv(w, s.(db := db))
  {
    hide Consistent, AttemptsOk, TransfersOk, FlightsOk, ConfirmedPaid, Admits, F.NoncesMatchTransfers, A.OnlyMinted, PendingOf;
    SideTablesKeepConsistent(s.db, db);
    var s' := s.(db := db);
    forall d | 0 <= d < |s'.calls|
      ensures PhaseOk(w, s', s'.calls[d])
    {
      assert PhaseOk(w, s, s.calls[d]);
    }
  }

  lemma JournalKeeps(w: World, s: State, c: nat, detail: string, statement: StatementFault)
    requires Inv(w, s) && Stands(s, c)
    ensures Inv(w, DoJournal(s, c, detail, statement))
  {
    hide Inv, StatusFor;
    var s' := DoJournal(s, c, detail, statement);
    if s.calls[c].phase.Refused? {
      var mid := s.(db := s'.db);
      SideTablesKeep(w, s, s'.db);
      MoveOn(w, mid, c, s'.calls[c].phase, s.issuedIds);
      assert s' == At(mid, c, s'.calls[c].phase).(issuedIds := s.issuedIds);
    }
  }

  /** An accepted assertion stays accepted at that instant, whatever else gets signed. */
  lemma AcceptedStays(r: A.Runtime, minted: set<A.Fields>, minted': set<A.Fields>, a: A.Assertion, now: int)
    requires minted <= minted' && A.Verify(r, minted, a, now) == A.Accepted
    ensures A.Verify(r, minted', a, now) == A.Accepted
  {
  }

  lemma MintKeeps(w: World, s: State, step: Step)
    requires Inv(w, s) && step.Mint?
    ensures Inv(w, DoMint(w, s, step))
  {
    hide Consistent, AttemptsOk, TransfersOk, ConfirmedPaid, F.NoncesMatchTransfers, F.VerifyPayment, A.Verify, A.CanonicalBytes;
    var s' := DoMint(w, s, step);
    if s' != s {
      var f :| s'.minted == s.minted + {f} && A.MintedAt(w.runtime, f, A.Seconds(step.issuedAt + A.TTL));
      forall a | Admits(w, s.minted, a)
        ensures Admits(w, s'.minted, a)
      {
        AcceptedStays(w.runtime, s.minted, s'.minted, a.request.assertion, a.pricedAt);
      }
      forall d | 0 <= d < |s'.calls|
        ensures PhaseOk(w, s', s'.calls[d])
      {
        assert PhaseOk(w, s, s.calls[d]);
      }
    }
  }

  lemma PayDirectlyKeeps(w: World, s: State, payload: F.PaymentPayload, requirements: F.PaymentRequirements, now: int)
    requires Inv(w, s)
    ensures Inv(w, Do(w, s, PayDirectly(payload, requirements, now)))
  {
    hide Consistent, AdmissionsMatchRows, AttemptsOk, ConfirmedPaid, PhaseOk;
    hide F.NoncesMatchTransfers, A.OnlyMinted, F.VerifyPayment;
    var s' := Do(w, s, PayDirectly(payload, requirements, now));
    F.SettleOncePerNonce(w.chain, s.fac, payload, requirements, now, None);
    assert s'.fac.transfers == s.fac.transfers || s'.fac.transfers == s.fac.transfers + [F.TransferOf(w.chain, payload, None)];
    if s'.fac != s.fac {
      TransferKeepsFlights(s.inFlight, s.attempts, s.admissions, s.fac.transfers, F.TransferOf(w.chain, payload, None));
    }
    MoreTransfersKeepPaid(s.db.settlements, s.fac.transfers, s'.fac.transfers);
    forall d | 0 <= d < |s'.calls|
      ensures PhaseOk(w, s', s'.calls[d])
    {
      PhaseOfPrefix(w, s, s', s.calls[d]);
    }
  }

  lemma PhaseOfPrefix(w: World, s: State, s': State, call: Call)
    requires PhaseOk(w, s, call) && s' == s.(fac := s'.fac, inFlight := s'.inFlight) && s.fac.transfers <= s'.fac.transfers
    ensures PhaseOk(w, s', call)
  {
    if call.phase.Paid? {
      TransferStays(s.fac.transfers, s'.fac.transfers, call.phase.pending.settlementId, call.phase.transaction);
    }
  }

  lemma ArmKeeps(w: World, s: State, mode: F.FaultMode)
    requires Inv(w, s)
    ensures Inv(w, Do(w, s, Arm(mode)))
  {
    hide Consistent, AttemptsOk, TransfersOk, FlightsOk, ConfirmedPaid, Admits, A.OnlyMinted, PendingOf, HasTransfer;
    var s' := Do(w, s, Arm(mode));
    forall d | 0 <= d < |s'.calls|
      ensures PhaseOk(w, s', s'.calls[d])
    {
      PhaseOfPrefix(w, s, s', s.calls[d]);
    }
  }

  /** Every step, enabled or not, keeps the invariant. */
  lemma StepKeepsInv(w: World, s: State, step: Step)
    requires Inv(w, s)
    ensures Inv(w, Do(w, s, step))
  {
    hide Inv;
    hide DoPrice, DoClear, DoBegin, DoPay, DoDeliver, DoConfirm, DoFail, DoJournal, DoCrash, DoMint;
    match step
    case Arrive(request) => ArriveKeeps(w, s, request);
    case Price(c, now, row, lookupFails) => if Stands(s, c) { PriceKeeps(w, s, c, now, row, lookupFails); }
    case Clear(c, now, net, newId) => if Stands(s, c) { ClearKeeps(w, s, c, now, net, newId); }
    case Begin(c, tx) => if Stands(s, c) { BeginKeeps(w, s, c, tx); }
    case Pay(c, now, net) => if Stands(s, c) { PayKeeps(w, s, c, now, net); }
    case Deliver(id, now) => DeliverKeeps(w, s, id, now);
    case Confirm(c, now, tx) => if Stands(s, c) { ConfirmKeeps(w, s, c, now, tx); }
    case Fail(c, statement) => if Stands(s, c) { FailKeeps(w, s, c, statement); }
    case Journal(c, detail, statement) => if Stands(s, c) { JournalKeeps(w, s, c, detail, statement); }
    case Crash(c) => if Stands(s, c) { CrashKeeps(w, s, c); }
    case Mint(_, _, _, _, _, _) => MintKeeps(w, s, step);
    case Report(rejection, statement) => SideTablesKeep(w, s, RejectTx(s.db, rejection, statement).0);
    case Reload(listings, refs) =>
      if Grows(s.db.refs, refs) { SideTablesKeep(w, s, s.db.(listings := listings, refs := refs)); }
    case Arm(mode) => ArmKeeps(w, s, mode);
    case PayDirectly(payload, requirements, now) => PayDirectlyKeeps(w, s, payload, requirements, now);
  }

  /** The invariant holds after every run: any number of calls, any interleaving, any failures. */
  lemma {:induction false} RunKeepsInv(w: World, s: State, steps: seq<Step>)
    requires Inv(w, s)
    ensures Inv(w, Run(w, s, steps))
  {
    if steps != [] {
      RunKeepsInv(w, s, steps[..|steps| - 1]);
      StepKeepsInv(w, Run(w, s, steps[..|steps| - 1]), steps[|steps| - 1]);
    }
  }

  /** A state some run leads to from an empty platform. */
  ghost predicate Reachable(w: World, s: State) {
    exists listings, refs, steps :: s == Run(w, Initial(listings, refs), steps)
  }

  lemma ReachableInv(w: World, s: State)
    requires Reachable(w, s)
    ensures Inv(w, s)
  {
    hide Inv, Initial;
    var listings, refs, steps :| s == Run(w, Initial(listings, refs), steps);
    InitialInv(w, listings, refs);
    RunKeepsInv(w, Initial(listings, refs), steps);
  }
}
