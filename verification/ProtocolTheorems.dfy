/** What the settlement protocol guarantees over whole runs. */
module ProtocolTheorems {
  import opened Prelude
  import opened Decimal
  import opened Commission
  import opened Store
  import opened Detail
  import opened Protocol
  import opened ProtocolInvariant
  import A = Assertion
  import F = Facilitator

  // Tables

  /**
   In every reachable state: each consumed assertion has exactly one settlement and each
   settlement's assertion is consumed; a confirmed settlement has exactly the three entries of
   its own split and any other has none; and entries sum to zero per settlement and overall.
   */
  lemma ReachableTables(w: World, s: State)
    requires Reachable(w, s)
    ensures var db := s.db;
            && (forall a :: a in db.consumed <==> HasRow(db.settlements, a))
            && (forall i, j :: i in db.settlements && j in db.settlements && i != j ==>
                  db.settlements[i].details.assertionId != db.settlements[j].details.assertionId)
            && (forall id :: id in db.settlements ==>
                  && EntriesFor(db.ledger, id) == ExpectedEntries(db.settlements[id])
                  && SumOf(EntriesFor(db.ledger, id), AmountWeight()) == 0)
            && (forall k :: 0 <= k < |db.ledger| ==> db.ledger[k].settlementId in db.settlements)
            && SumOf(db.ledger, AmountWeight()) == 0
  {
    hide Reachable, Inv, Consistent;
    ReachableInv(w, s);
    InvConsistent(w, s);
    ConsistentTables(s.db);
  }

  lemma InvConsistent(w: World, s: State)
    requires Inv(w, s)
    ensures Consistent(s.db)
  {
  }

  lemma ConsistentTables(db: Database)
    requires Consistent(db)
    ensures forall a :: a in db.consumed <==> HasRow(db.settlements, a)
    ensures forall i, j :: i in db.settlements && j in db.settlements && i != j ==>
              db.settlements[i].details.assertionId != db.settlements[j].details.assertionId
    ensures forall id :: id in db.settlements ==>
              && EntriesFor(db.ledger, id) == ExpectedEntries(db.settlements[id])
              && SumOf(EntriesFor(db.ledger, id), AmountWeight()) == 0
    ensures forall k :: 0 <= k < |db.ledger| ==> db.ledger[k].settlementId in db.settlements
    ensures SumOf(db.ledger, AmountWeight()) == 0
  {
    hide EntriesOf, Balanced;
    forall id | id in db.settlements
      ensures SumOf(EntriesFor(db.ledger, id), AmountWeight()) == 0
    {
      assert RowLegal(db.settlements[id], id, db.refs);
      EntriesSumToZero(db.settlements[id].details);
    }
    forall a | HasRow(db.settlements, a)
      ensures a in db.consumed
    {
      var id :| id in db.settlements && db.settlements[id].details.assertionId == a;
      assert HasClaim(db.consumed, db.settlements[id].details);
    }
  }

  // Time only adds

  /** Whatever was recorded in `db` still stands in `db'`; only a pending status may have moved. */
  ghost predicate DbLater(db: Database, db': Database) {
    && (forall id :: id in db.settlements ==>
          && id in db'.settlements
          && db'.settlements[id].details == db.settlements[id].details
          && (!db.settlements[id].status.Pending? ==> db'.settlements[id] == db.settlements[id]))
    && (forall a :: a in db.consumed ==> a in db'.consumed && db'.consumed[a] == db.consumed[a])
    && db.ledger <= db'.ledger && db.rejected <= db'.rejected
  }

  ghost predicate Later(s: State, s': State) {
    && DbLater(s.db, s'.db)
    && s.fac.transfers <= s'.fac.transfers && s.fac.nonces <= s'.fac.nonces
    && s.attempts <= s'.attempts && s.minted <= s'.minted
  }

  lemma BeginGoesForward(db: Database, p: PendingSettlement, tx: TxFault)
    ensures DbLater(db, BeginTx(db, p, tx).0)
  {
    hide Balanced, ClaimAllowed;
    assert BeginTx(db, p, tx).0 == db || (BeginTx(db, p, tx).0 == WithPending(db, p) && RowAllowed(db, p));
  }

  lemma ConfirmGoesForward(db: Database, p: PendingSettlement, txHash: string, now: int, tx: TxFault)
    ensures DbLater(db, ConfirmTx(db, p, txHash, now, tx).0)
  {
    hide EntriesOf;
    if ConfirmTx(db, p, txHash, now, tx).0 != db {
      assert ConfirmTx(db, p, txHash, now, tx).0 == WithConfirmed(db, p, txHash, now);
    }
  }

  lemma FailGoesForward(db: Database, id: string, statement: StatementFault)
    ensures DbLater(db, FailTx(db, id, statement).0)
  {
  }

  /** A step that leaves the database and everything else recorded as it was. */
  lemma CallStepGoesForward(w: World, s: State, step: Step)
    requires step.Arrive? || step.Price? || step.Clear? || step.Crash? || step.Arm?
    ensures Later(s, Do(w, s, step))
  {
    hide F.HandleVerify, PendingOf, PriceFailure, IsFirstRow;
  }

  /** One of the three transactions. */
  lemma TransactionGoesForward(w: World, s: State, step: Step)
    requires step.Begin? || step.Confirm? || step.Fail?
    ensures Later(s, Do(w, s, step))
  {
    hide BeginTx, ConfirmTx, FailTx;
    SameDbIsLater(s.db);
    match step
    case Begin(c, tx) =>
      if Stands(s, c) && s.calls[c].phase.Cleared? {
        BeginGoesForward(s.db, s.calls[c].phase.pending, tx);
      }
    case Confirm(c, now, tx) =>
      if Stands(s, c) && s.calls[c].phase.Paid? {
        ConfirmGoesForward(s.db, s.calls[c].phase.pending, s.calls[c].phase.transaction, now, tx);
      }
    case Fail(c, statement) =>
      if Stands(s, c) && s.calls[c].phase.Unpaid? {
        FailGoesForward(s.db, s.calls[c].phase.pending.settlementId, statement);
      }
  }

  lemma SameDbIsLater(db: Database)
    ensures DbLater(db, db)
  {
  }

  /** A settle request reaching the facilitator. */
  lemma PaymentGoesForward(w: World, s: State, step: Step)
    requires step.Pay? || step.Deliver? || step.PayDirectly?
    ensures Later(s, Do(w, s, step))
  {
    hide F.HandleSettle, DbLater;
    SameDbIsLater(s.db);
    match step
    case Pay(c, now, net) =>
      if Stands(s, c) && s.calls[c].phase.Claimed? {
        var req := s.calls[c].request;
        F.SettleMoves(w.chain, s.fac, req.payload, req.requirements, now, Some(s.calls[c].phase.pending.settlementId));
      }
    case Deliver(id, now) =>
      if id in s.admissions {
        F.SettleMoves(w.chain, s.fac, s.admissions[id].request.payload, s.admissions[id].request.requirements, now, Some(id));
      }
    case PayDirectly(payload, requirements, now) => F.SettleMoves(w.chain, s.fac, payload, requirements, now, None);
  }

  /** Journalling, minting, and reference data. */
  lemma SideStepGoesForward(w: World, s: State, step: Step)
    requires step.Journal? || step.Mint? || step.Report? || step.Reload?
    ensures Later(s, Do(w, s, step))
  {
    hide A.Mint, StatusFor;
  }

  lemma StepGoesForward(w: World, s: State, step: Step)
    ensures Later(s, Do(w, s, step))
  {
    hide Do, Later;
    if step.Begin? || step.Confirm? || step.Fail? {
      TransactionGoesForward(w, s, step);
    } else if step.Pay? || step.Deliver? || step.PayDirectly? {
      PaymentGoesForward(w, s, step);
    } else if step.Journal? || step.Mint? || step.Report? || step.Reload? {
      SideStepGoesForward(w, s, step);
    } else {
      CallStepGoesForward(w, s, step);
    }
  }

  /**
   Over any run, no settlement or claim is ever lost, a confirmed or failed settlement never
   changes again, and the ledger, the transfers and the consumed nonces only grow.
   */
  lemma {:induction false} RunGoesForward(w: World, s: State, steps: seq<Step>)
    ensures Later(s, Run(w, s, steps))
  {
    hide Do;
    if steps != [] {
      RunGoesForward(w, s, steps[..|steps| - 1]);
      StepGoesForward(w, Run(w, s, steps[..|steps| - 1]), steps[|steps| - 1]);
    }
  }

  // Single use

  /** Call `c` claims its assertion in this step. */
  predicate ClaimsNow(s: State, s': State, c: nat) {
    Stands(s, c) && Stands(s', c) && s.calls[c].phase.Cleared? && s'.calls[c].phase == Claimed(s.calls[c].phase.pending)
  }

  lemma ClaimIsConsumed(w: World, s: State, c: nat, tx: TxFault)
    requires ClaimsNow(s, Do(w, s, Begin(c, tx)), c)
    ensures s.calls[c].phase.pending.assertionId in Do(w, s, Begin(c, tx)).db.consumed
  {
    hide RowAllowed, ClaimAllowed;
  }

  lemma BeginRefusesReuse(w: World, s: State, c: nat, tx: TxFault)
    requires Stands(s, c) && s.calls[c].phase.Cleared? && s.calls[c].phase.pending.assertionId in s.db.consumed
    ensures var s' := Do(w, s, Begin(c, tx));
            s'.db == s.db && Stands(s', c) && s'.calls[c].phase in {Refused(ReusedAssertion), Refused(Internal)}
  {
    hide RowAllowed, ClaimAllowed;
  }

  /**
   At most one call ever passes `Begin` for an assertion: once one has, any later call carrying
   the same assertion id is refused there and leaves the database as it was.
   */
  lemma ClaimedOnce(w: World, s: State, c: nat, tx: TxFault, between: seq<Step>, d: nat, tx': TxFault)
    requires ClaimsNow(s, Do(w, s, Begin(c, tx)), c)
    requires var s2 := Run(w, Do(w, s, Begin(c, tx)), between);
             && Stands(s2, d) && s2.calls[d].phase.Cleared?
             && s2.calls[d].phase.pending.assertionId == s.calls[c].phase.pending.assertionId
    ensures var s2 := Run(w, Do(w, s, Begin(c, tx)), between);
            var s3 := Do(w, s2, Begin(d, tx'));
            s3.db == s2.db && s3.calls[d].phase in {Refused(ReusedAssertion), Refused(Internal)}
  {
    hide Do, Run, ClaimsNow;
    var s1 := Do(w, s, Begin(c, tx));
    ClaimIsConsumed(w, s, c, tx);
    RunGoesForward(w, s1, between);
    BeginRefusesReuse(w, Run(w, s1, between), d, tx');
  }

  /**
   At most one facilitator settle call is ever issued per assertion, each for a settlement
   whose row was committed and still pending when it was issued.
   */
  lemma OneSettleCallPerAssertion(w: World, s: State, step: Step)
    requires Reachable(w, s)
    ensures forall i :: 0 <= i < |s.attempts| ==> AttemptedAssertion(s, i).Some?
    ensures forall i, j :: 0 <= i < j < |s.attempts| ==> AttemptedAssertion(s, i) != AttemptedAssertion(s, j)
    ensures var s' := Do(w, s, step);
            s'.attempts == s.attempts
            || (exists id :: s'.attempts == s.attempts + [id] && IsPending(s.db, id) && id !in s.attempts)
  {
    hide Reachable, Inv;
    ReachableInv(w, s);
    forall i | 0 <= i < |s.attempts|
      ensures AttemptedAssertion(s, i).Some?
    {
      AttemptsDistinct(w, s, i, i);
    }
    forall i, j | 0 <= i < j < |s.attempts|
      ensures AttemptedAssertion(s, i) != AttemptedAssertion(s, j)
    {
      AttemptsDistinct(w, s, i, j);
    }
    NewAttempt(w, s, step);
  }

  /** The assertion of the settlement attempted at place `i`. */
  function AttemptedAssertion(s: State, i: nat): Option<string>
    requires i < |s.attempts|
  {
    if s.attempts[i] in s.db.settlements then Some(s.db.settlements[s.attempts[i]].details.assertionId) else None
  }

  lemma AttemptsDistinct(w: World, s: State, i: nat, j: nat)
    requires Inv(w, s) && i <= j < |s.attempts|
    ensures AttemptedAssertion(s, i).Some? && (i < j ==> AttemptedAssertion(s, i) != AttemptedAssertion(s, j))
  {
    hide AdmissionsMatchRows, TransfersOk, ConfirmedPaid, F.NoncesMatchTransfers, A.OnlyMinted, LedgerMatchesRows, RowsLegal, CallsOk;
    hide HasRow, HasClaim;
    assert i < j ==> s.attempts[i] != s.attempts[j];
  }

  lemma NewAttempt(w: World, s: State, step: Step)
    requires Inv(w, s)
    ensures var s' := Do(w, s, step);
            s'.attempts == s.attempts
            || (exists id :: s'.attempts == s.attempts + [id] && IsPending(s.db, id) && id !in s.attempts)
  {
    hide Consistent, AdmissionsMatchRows, TransfersOk, ConfirmedPaid, F.NoncesMatchTransfers, A.OnlyMinted;
    hide Admits, PendingOf, F.HandleSettle, F.HandleVerify, PriceFailure, A.Mint, IsFirstRow, BeginTx, ConfirmTx, FailTx, RejectTx;
    if step.Pay? && Stands(s, step.call) && s.calls[step.call].phase.Claimed? {
      assert PhaseOk(w, s, s.calls[step.call]);
      var id := s.calls[step.call].phase.pending.settlementId;
      assert Do(w, s, step).attempts == s.attempts + [id];
    }
  }

  /**
   Value moves for a settlement at most once, and only as its one settle call is made, while the
   row is pending, or as that call arrives late, whatever the row has become.
   */
  lemma TransfersFollowCalls(w: World, s: State, step: Step)
    requires Reachable(w, s)
    ensures var s' := Do(w, s, step);
            s'.fac.transfers == s.fac.transfers
            || (exists t :: s'.fac.transfers == s.fac.transfers + [t] && (t.origin.Some? ==> MovedBy(s, s', t.origin.value)))
  {
    hide Reachable, Inv;
    ReachableInv(w, s);
    if step.Pay? && Stands(s, step.call) && s.calls[step.call].phase.Claimed? {
      PayMoves(w, s, step.call, step.now, step.net);
    } else if step.Deliver? {
      DeliverMoves(w, s, step.settlementId, step.now);
    } else if step.PayDirectly? {
      F.SettleMoves(w.chain, s.fac, step.payload, step.requirements, step.now, None);
    } else {
      hide F.HandleVerify, PendingOf, PriceFailure, A.Mint, IsFirstRow, BeginTx, ConfirmTx, FailTx, RejectTx, StatusFor;
    }
  }

  /** The step from `s` to `s'` made or delivered the settle call of `id`, which had moved nothing. */
  ghost predicate MovedBy(s: State, s': State, id: string) {
    && Unmoved(s.fac.transfers, id)
    && ((s'.attempts == s.attempts + [id] && id !in s.attempts && IsPending(s.db, id))
        || (s'.attempts == s.attempts && id in s.inFlight && id !in s'.inFlight))
  }

  lemma PayMoves(w: World, s: State, c: nat, now: int, net: NetFault)
    requires Inv(w, s) && Stands(s, c) && s.calls[c].phase.Claimed?
    ensures var s' := DoPay(w, s, c, now, net);
            s'.fac.transfers == s.fac.transfers
            || (exists t :: s'.fac.transfers == s.fac.transfers + [t] && (t.origin.Some? ==> MovedBy(s, s', t.origin.value)))
  {
    hide Consistent, AdmissionsMatchRows, AttemptsOk, TransfersOk, FlightsOk, ConfirmedPaid, Admits;
    hide F.NoncesMatchTransfers, A.OnlyMinted, Unmoved, F.HandleSettle, HasTransfer;
    var Call(req, phase) := s.calls[c];
    assert PhaseOk(w, s, s.calls[c]);
    var id := phase.pending.settlementId;
    NotAttemptedIsUnmoved(s.fac.transfers, s.attempts, s.admissions, id);
    F.SettleMoves(w.chain, s.fac, req.payload, req.requirements, now, Some(id));
  }

  lemma DeliverMoves(w: World, s: State, id: string, now: int)
    requires Inv(w, s)
    ensures var s' := DoDeliver(w, s, id, now);
            s'.fac.transfers == s.fac.transfers
            || (exists t :: s'.fac.transfers == s.fac.transfers + [t] && (t.origin.Some? ==> MovedBy(s, s', t.origin.value)))
  {
    hide Consistent, AdmissionsMatchRows, AttemptsOk, TransfersOk, ConfirmedPaid, CallsOk;
    hide F.NoncesMatchTransfers, A.OnlyMinted, Unmoved, F.HandleSettle;
    if id in s.inFlight && id in s.admissions {
      var req := s.admissions[id].request;
      F.SettleMoves(w.chain, s.fac, req.payload, req.requirements, now, Some(id));
    }
  }

  /** A settle request that reaches the facilitator now moves value: nothing is armed, the payment is in order, its nonce unused. */
  predicate Moves(w: World, s: State, req: Request, now: int) {
    && !s.fac.mode.Unavailable? && !s.fac.mode.SettleFails?
    && F.PaysExactly(w.chain, req.payload, req.requirements, now)
    && req.payload.authorization.nonce !in s.fac.nonces
  }

  function MoveOf(w: World, req: Request, id: string): F.Transfer {
    var a := req.payload.authorization;
    F.Transfer(Some(id), a.sender, a.to, a.value, a.nonce, w.chain.transactionHash(a))
  }

  /**
   What one settle call moves, and what its caller learns: they part ways only when the reply is
   lost, or when the request is still on its way after the caller has given up.
   */
  lemma SettleCallMoves(w: World, s: State, c: nat, now: int, net: NetFault)
    requires Stands(s, c) && s.calls[c].phase.Claimed?
    ensures var s', req, p := Do(w, s, Pay(c, now, net)), s.calls[c].request, s.calls[c].phase.pending;
            var moved := (net.Delivered? || net.ReplyLost?) && Moves(w, s, req, now);
            && s'.fac.transfers == s.fac.transfers + (if moved then [MoveOf(w, req, p.settlementId)] else [])
            && s'.fac.nonces == s.fac.nonces + (if moved then {req.payload.authorization.nonce} else {})
            && s'.attempts == s.attempts + [p.settlementId]
            && s'.inFlight == s.inFlight + (if net.LeftInFlight? then {p.settlementId} else {})
            && Stands(s', c)
            && (s'.calls[c].phase.Paid? <==> moved && net.Delivered?) && (!s'.calls[c].phase.Paid? ==> s'.calls[c].phase.Unpaid?)
  {
    hide F.VerifyPayment, F.PaysExactly, IsDecimal;
    F.VerifiesExactly(w.chain, s.calls[c].request.payload, s.calls[c].request.requirements, now);
  }

  /** A request that arrives late moves what it would have moved in time, or nothing; either way it has arrived. */
  lemma LateArrivalMoves(w: World, s: State, id: string, now: int)
    requires id in s.inFlight && id in s.admissions
    ensures var s', req := Do(w, s, Deliver(id, now)), s.admissions[id].request;
            && s'.fac.transfers == s.fac.transfers + (if Moves(w, s, req, now) then [MoveOf(w, req, id)] else [])
            && s'.inFlight == s.inFlight - {id} && s'.calls == s.calls && s'.db == s.db
  {
    hide F.VerifyPayment, F.PaysExactly, IsDecimal;
    F.VerifiesExactly(w.chain, s.admissions[id].request.payload, s.admissions[id].request.requirements, now);
  }

  /** A call can stop at any point before it has answered, but not after; stopping changes nothing else. */
  lemma CrashStops(w: World, s: State, c: nat)
    requires Stands(s, c)
    ensures var s' := Do(w, s, Crash(c));
            && s' == s.(calls := s'.calls)
            && s'.calls == if s.calls[c].phase.Done? || s.calls[c].phase.Answered? then s.calls
                           else s.calls[c := Call(s.calls[c].request, Crashed)]
  {
  }

  /** `t` is the transfer this payment authorizes, signed by its payer and checked in full at some instant. */
  ghost predicate Authorizes(chain: F.Chain, payload: F.PaymentPayload, req: F.PaymentRequirements, t: F.Transfer) {
    && (exists now :: F.PaysExactly(chain, payload, req, now))
    && t.payer == payload.authorization.sender && t.to == payload.authorization.to
    && t.value == payload.authorization.value && t.nonce == payload.authorization.nonce
    && t.transaction == chain.transactionHash(payload.authorization)
  }

  /** A settlement's transfer is the one its own request's payment authorizes. */
  ghost predicate Authorized(chain: F.Chain, admissions: map<string, Admission>, t: F.Transfer) {
    if t.origin.Some?
    then t.origin.value in admissions
         && Authorizes(chain, admissions[t.origin.value].request.payload, admissions[t.origin.value].request.requirements, t)
    else exists payload, req :: Authorizes(chain, payload, req, t)
  }

  ghost predicate AllAuthorized(chain: F.Chain, s: State) {
    forall k :: 0 <= k < |s.fac.transfers| ==> Authorized(chain, s.admissions, s.fac.transfers[k])
  }

  /** What one settle request adds, if anything, its payment authorizes. */
  lemma SettleIsAuthorized(chain: F.Chain, fac: F.FacilitatorState, payload: F.PaymentPayload, req: F.PaymentRequirements, now: int,
                           origin: Option<string>)
    ensures var fac' := F.HandleSettle(chain, fac, payload, req, now, origin).0;
            fac'.transfers == fac.transfers
            || exists t :: fac'.transfers == fac.transfers + [t] && t.origin == origin && Authorizes(chain, payload, req, t)
  {
    hide F.VerifyPayment, F.PaysExactly;
    F.VerifiesExactly(chain, payload, req, now);
    if F.HandleSettle(chain, fac, payload, req, now, origin).1.Settled? {
      assert Authorizes(chain, payload, req, F.TransferOf(chain, payload, origin));
    }
  }

  /** Admissions are never taken back or changed. */
  lemma AdmissionsStay(w: World, s: State, step: Step)
    requires Inv(w, s)
    ensures var s' := Do(w, s, step);
            forall id :: id in s.admissions ==> id in s'.admissions && s'.admissions[id] == s.admissions[id]
  {
    hide Consistent, AttemptsOk, TransfersOk, FlightsOk, ConfirmedPaid, CallsOk, F.NoncesMatchTransfers, A.OnlyMinted, Admitted;
    hide F.HandleVerify, F.HandleSettle, PendingOf, PriceFailure, IsFirstRow, BeginTx, ConfirmTx, FailTx, RejectTx, A.Mint, StatusFor;
  }

  /** Only settle requests add transfers: a call's own, a late one, or a direct payer's. */
  lemma NewTransferAuthorized(w: World, s: State, step: Step)
    requires Inv(w, s)
    ensures var s' := Do(w, s, step);
            s'.fac.transfers == s.fac.transfers
            || exists t :: s'.fac.transfers == s.fac.transfers + [t] && Authorized(w.chain, s.admissions, t)
  {
    hide Consistent, AdmissionsMatchRows, AttemptsOk, TransfersOk, FlightsOk, ConfirmedPaid, F.NoncesMatchTransfers, A.OnlyMinted;
    hide F.HandleSettle, F.HandleVerify, PriceFailure, IsFirstRow, BeginTx, ConfirmTx, FailTx, RejectTx, A.Mint, StatusFor, PendingOf;
    hide Authorizes, HasTransfer, Admits;
    match step
    case Pay(c, now, net) =>
      if Stands(s, c) && s.calls[c].phase.Claimed? {
        var req := s.calls[c].request;
        assert PhaseOk(w, s, s.calls[c]);
        SettleIsAuthorized(w.chain, s.fac, req.payload, req.requirements, now, Some(s.calls[c].phase.pending.settlementId));
      }
    case Deliver(id, now) =>
      if id in s.admissions {
        var req := s.admissions[id].request;
        SettleIsAuthorized(w.chain, s.fac, req.payload, req.requirements, now, Some(id));
      }
    case PayDirectly(payload, requirements, now) => SettleIsAuthorized(w.chain, s.fac, payload, requirements, now, None);
    case _ =>
  }

  lemma StepKeepsAuthorized(w: World, s: State, step: Step)
    requires Inv(w, s) && AllAuthorized(w.chain, s)
    ensures AllAuthorized(w.chain, Do(w, s, step))
  {
    hide Inv, Do, Authorizes;
    var s' := Do(w, s, step);
    AdmissionsStay(w, s, step);
    NewTransferAuthorized(w, s, step);
    forall k | 0 <= k < |s'.fac.transfers|
      ensures Authorized(w.chain, s'.admissions, s'.fac.transfers[k])
    {
      assert k < |s.fac.transfers| ==> s'.fac.transfers[k] == s.fac.transfers[k];
    }
  }

  lemma {:induction false} RunKeepsAuthorized(w: World, s: State, steps: seq<Step>)
    requires Inv(w, s) && AllAuthorized(w.chain, s)
    ensures AllAuthorized(w.chain, Run(w, s, steps))
  {
    hide Inv, Do, AllAuthorized;
    if steps != [] {
      RunKeepsAuthorized(w, s, steps[..|steps| - 1]);
      RunKeepsInv(w, s, steps[..|steps| - 1]);
      StepKeepsAuthorized(w, Run(w, s, steps[..|steps| - 1]), steps[|steps| - 1]);
    }
  }

  /**
   No value ever moves without its payer's signature: in every reachable state each transfer is
   the one a payment authorizes that was signed by the payer and checked in full when it moved,
   and a settlement's transfer is authorized by that settlement's own request.
   */
  lemma TransfersAreSigned(w: World, s: State)
    requires Reachable(w, s)
    ensures forall k :: 0 <= k < |s.fac.transfers| ==> Authorized(w.chain, s.admissions, s.fac.transfers[k])
  {
    hide Inv, Authorized;
    var listings, refs, steps :| s == Run(w, Initial(listings, refs), steps);
    InitialInv(w, listings, refs);
    assert AllAuthorized(w.chain, Initial(listings, refs));
    RunKeepsAuthorized(w, Initial(listings, refs), steps);
  }

  // Giving up

  /** Nobody can confirm `id` any more: its row is there unconfirmed, and no call is on its way to doing so. */
  ghost predicate GivenUp(s: State, id: string) {
    && id in s.db.settlements && !s.db.settlements[id].status.Confirmed? && id in s.issuedIds
    && forall c :: 0 <= c < |s.calls| ==>
         var phase := s.calls[c].phase;
         HeldId(phase) == Some(id) ==> phase.Unpaid?
  }

  lemma UnmovedIsUnconfirmed(rows: Rows, transfers: seq<F.Transfer>, id: string)
    requires ConfirmedPaid(rows, transfers) && Unmoved(transfers, id)
    ensures !IsConfirmed(rows, id)
  {
  }

  lemma InFlightIsGivenUp(w: World, s: State, id: string)
    requires Inv(w, s) && id in s.inFlight
    ensures GivenUp(s, id) && Unmoved(s.fac.transfers, id)
  {
    hide Consistent, F.NoncesMatchTransfers, A.OnlyMinted, TransfersOk, Admits, PendingOf;
    UnmovedIsUnconfirmed(s.db.settlements, s.fac.transfers, id);
    forall c | 0 <= c < |s.calls| && HeldId(s.calls[c].phase) == Some(id)
      ensures s.calls[c].phase.Unpaid?
    {
      assert PhaseOk(w, s, s.calls[c]);
    }
  }

  ghost predicate RowStaysOpen(db: Database, id: string) {
    id in db.settlements && !db.settlements[id].status.Confirmed?
  }

  /** A call that moves on without taking up `id` leaves it given up. */
  lemma GivenUpMove(s: State, s': State, c: nat, phase: Phase, id: string)
    requires GivenUp(s, id) && Stands(s, c) && s'.calls == s.calls[c := s.calls[c].(phase := phase)]
    requires RowStaysOpen(s'.db, id) && s.issuedIds <= s'.issuedIds
    requires HeldId(phase) == Some(id) ==> phase.Unpaid? || HeldId(s.calls[c].phase) == Some(id)
    requires HeldId(s.calls[c].phase) == Some(id) ==> HeldId(phase) != Some(id) || phase.Unpaid?
    ensures GivenUp(s', id)
  {
    hide HeldId;
  }

  /** A step that moves no call and confirms nothing. */
  lemma GivenUpSame(s: State, s': State, id: string)
    requires GivenUp(s, id) && s'.calls == s.calls && RowStaysOpen(s'.db, id) && s.issuedIds <= s'.issuedIds
    ensures GivenUp(s', id)
  {
    hide HeldId;
  }

  lemma GivenUpArrival(s: State, request: Request, id: string)
    requires GivenUp(s, id)
    ensures GivenUp(s.(calls := s.calls + [Call(request, Received)]), id)
  {
  }

  /** What one call's step leaves of its row, and what the call then holds. */
  lemma GivenUpOwnStep(w: World, s: State, step: Step, c: nat, id: string)
    requires GivenUp(s, id) && CallOf(step) == Some(c) && Stands(s, c)
    ensures var s' := Do(w, s, step);
            s' == s || (Stands(s', c) && s'.calls == s.calls[c := s.calls[c].(phase := s'.calls[c].phase)]
                        && RowStaysOpen(s'.db, id) && s.issuedIds <= s'.issuedIds
                        && (HeldId(s'.calls[c].phase) == Some(id) ==> s'.calls[c].phase.Unpaid?))
  {
    hide F.HandleSettle, F.HandleVerify, PriceFailure, StatusFor, IsFirstRow, ConfirmTx, FailTx, BeginTx, PendingOf;
    assert HeldId(s.calls[c].phase) == Some(id) ==> s.calls[c].phase.Unpaid?;
    match step
    case Clear(_, now, net, newId) =>
      if s.calls[c].phase.Priced? {
        SettlementIdOfPending(s.calls[c].request, s.calls[c].phase.listing, newId);
      }
    case Begin(_, tx) =>
      if s.calls[c].phase.Cleared? {
        RowsAfterBegin(s.db, s.calls[c].phase.pending, tx, id);
      }
    case Confirm(_, now, tx) =>
      if s.calls[c].phase.Paid? {
        RowsAfterConfirm(s.db, s.calls[c].phase.pending, s.calls[c].phase.transaction, now, tx, id);
      }
    case Fail(_, statement) =>
      if s.calls[c].phase.Unpaid? {
        RowsAfterFail(s.db, s.calls[c].phase.pending.settlementId, statement, id);
      }
    case _ =>
  }

  /** The steps of no call move no call but an arriving one. */
  lemma GivenUpOtherStep(w: World, s: State, step: Step, id: string)
    requires GivenUp(s, id) && (CallOf(step).None? || !Stands(s, CallOf(step).value))
    ensures GivenUp(Do(w, s, step), id)
  {
    hide F.HandleSettle, A.Mint, GivenUp;
    assert RowStaysOpen(s.db, id) by { OpenRow(s, id); }
    if step.Arrive? {
      GivenUpArrival(s, step.request, id);
    } else {
      GivenUpSame(s, Do(w, s, step), id);
    }
  }

  lemma OpenRow(s: State, id: string)
    requires GivenUp(s, id)
    ensures RowStaysOpen(s.db, id)
  {
  }

  lemma GivenUpStays(w: World, s: State, step: Step, id: string)
    requires GivenUp(s, id)
    ensures GivenUp(Do(w, s, step), id)
  {
    hide Do, GivenUp, HeldId, RowStaysOpen;
    if CallOf(step).Some? && Stands(s, CallOf(step).value) {
      var c, s' := CallOf(step).value, Do(w, s, step);
      GivenUpOwnStep(w, s, step, c, id);
      if s' != s {
        GivenUpMove(s, s', c, s'.calls[c].phase, id);
      }
    } else {
      GivenUpOtherStep(w, s, step, id);
    }
  }

  lemma RowsAfterBegin(db: Database, p: PendingSettlement, tx: TxFault, id: string)
    requires id in db.settlements && !db.settlements[id].status.Confirmed?
    ensures var rows := BeginTx(db, p, tx).0.settlements; id in rows && !rows[id].status.Confirmed?
  {
  }

  lemma RowsAfterConfirm(db: Database, p: PendingSettlement, txHash: string, now: int, tx: TxFault, id: string)
    requires id in db.settlements && !db.settlements[id].status.Confirmed? && p.settlementId != id
    ensures var rows := ConfirmTx(db, p, txHash, now, tx).0.settlements; id in rows && !rows[id].status.Confirmed?
  {
    hide EntriesOf;
  }

  lemma RowsAfterFail(db: Database, failed: string, statement: StatementFault, id: string)
    requires id in db.settlements && !db.settlements[id].status.Confirmed?
    ensures var rows := FailTx(db, failed, statement).0.settlements; id in rows && !rows[id].status.Confirmed?
  {
  }

  /**
   A settlement whose caller stopped waiting for the facilitator is never confirmed afterwards,
   even when the request then arrives and the value moves: that value stays in the open part.
   */
  lemma {:induction false} GivenUpNeverConfirms(w: World, s: State, steps: seq<Step>, id: string)
    requires Reachable(w, s) && id in s.inFlight
    ensures GivenUp(Run(w, s, steps), id) && !IsConfirmed(Run(w, s, steps).db.settlements, id)
  {
    hide Reachable, Inv, Do;
    if steps == [] {
      ReachableInv(w, s);
      InFlightIsGivenUp(w, s, id);
    } else {
      GivenUpNeverConfirms(w, s, steps[..|steps| - 1], id);
      GivenUpStays(w, Run(w, s, steps[..|steps| - 1]), steps[|steps| - 1], id);
    }
  }

  // Errors before the claim

  /** The call a step belongs to. */
  function CallOf(step: Step): Option<nat> {
    match step
    case Price(c, _, _, _) => Some(c)
    case Clear(c, _, _, _) => Some(c)
    case Begin(c, _) => Some(c)
    case Pay(c, _, _) => Some(c)
    case Confirm(c, _, _) => Some(c)
    case Fail(c, _) => Some(c)
    case Journal(c, _, _) => Some(c)
    case Crash(c) => Some(c)
    case _ => None
  }

  /** Call `c` has not got past `Begin`. */
  predicate Unclaimed(s: State, c: nat) {
    Stands(s, c) && var phase := s.calls[c].phase;
    phase.Received? || phase.Priced? || phase.Cleared? || phase.Refused? || phase.Answered? || phase.Crashed?
  }

  /** The same claims, settlements, ledger, nonces and transfers. */
  predicate SameTables(s: State, s': State) {
    && s'.db.consumed == s.db.consumed && s'.db.settlements == s.db.settlements && s'.db.ledger == s.db.ledger
    && s'.fac == s.fac
  }

  /** If step `i` of the run is call `c`'s own, it changes no table, and no row at all unless it journals. */
  ghost predicate Harmless(w: World, s: State, steps: seq<Step>, i: nat, c: nat)
    requires i < |steps|
  {
    CallOf(steps[i]) == Some(c) ==>
      && SameTables(Run(w, s, steps[..i]), Run(w, s, steps[..i + 1]))
      && (!steps[i].Journal? ==> Run(w, s, steps[..i + 1]).db == Run(w, s, steps[..i]).db)
  }

  /** Step `i` of the run does not get call `c` past `Begin`, not even without its being told. */
  ghost predicate NoClaim(w: World, s: State, steps: seq<Step>, i: nat, c: nat)
    requires i < |steps|
  {
    && !ClaimsNow(Run(w, s, steps[..i]), Run(w, s, steps[..i + 1]), c)
    && (steps[i].Begin? && steps[i].call == c ==> !steps[i].tx.CommitUnacknowledged?)
  }

  /** The steps of other calls, and of no call, leave call `c` where it stands. */
  lemma OthersLeaveCall(w: World, s: State, step: Step, c: nat)
    requires Stands(s, c) && CallOf(step) != Some(c)
    ensures Stands(Do(w, s, step), c) && Do(w, s, step).calls[c] == s.calls[c]
  {
    hide F.HandleVerify, F.HandleSettle, PendingOf, PriceFailure, IsFirstRow, BeginTx, ConfirmTx, FailTx, RejectTx, A.Mint, StatusFor;
  }

  lemma OwnStepHarmless(w: World, s: State, step: Step, c: nat)
    requires Unclaimed(s, c) && CallOf(step) == Some(c) && !ClaimsNow(s, Do(w, s, step), c)
    requires step.Begin? ==> !step.tx.CommitUnacknowledged?
    ensures Unclaimed(Do(w, s, step), c)
    ensures SameTables(s, Do(w, s, step)) && (!step.Journal? ==> Do(w, s, step).db == s.db)
  {
    hide F.HandleVerify, F.HandleSettle, PendingOf, PriceFailure, IsFirstRow, BeginTx, ConfirmTx, FailTx, StatusFor;
    if step.Begin? && s.calls[c].phase.Cleared? {
      BeginErrorChangesNothing(s.db, s.calls[c].phase.pending, step.tx);
    }
  }

  lemma UnclaimedStep(w: World, s: State, step: Step, c: nat)
    requires Unclaimed(s, c) && !ClaimsNow(s, Do(w, s, step), c)
    requires step.Begin? && step.call == c ==> !step.tx.CommitUnacknowledged?
    ensures Unclaimed(Do(w, s, step), c)
    ensures CallOf(step) == Some(c) ==>
              SameTables(s, Do(w, s, step)) && (!step.Journal? ==> Do(w, s, step).db == s.db)
  {
    hide Do;
    if CallOf(step) == Some(c) {
      OwnStepHarmless(w, s, step, c);
    } else {
      OthersLeaveCall(w, s, step, c);
    }
  }

  /**
   Over a whole run of any number of calls: a call that ends refused, and never held its claim,
   has by none of its own steps changed a claim, a settlement, the ledger or the facilitator; all
   it ever writes is the journal of its refusal. The one exception is a commit that took effect
   without being acknowledged.
   */
  lemma {:induction false} ErrorBeforeClaimChangesNothing(w: World, s: State, steps: seq<Step>, c: nat)
    requires Stands(s, c) && s.calls[c].phase.Received?
    requires forall i :: 0 <= i < |steps| ==> NoClaim(w, s, steps, i, c)
    ensures Unclaimed(Run(w, s, steps), c)
    ensures forall i :: 0 <= i < |steps| ==> Harmless(w, s, steps, i, c)
  {
    hide Do, Harmless, NoClaim;
    if steps != [] {
      var n := |steps| - 1;
      var front := steps[..n];
      forall i | 0 <= i < n
        ensures NoClaim(w, s, front, i, c)
      {
        PrefixOfFront(w, s, steps, i, c);
      }
      ErrorBeforeClaimChangesNothing(w, s, front, c);
      forall i | 0 <= i < n
        ensures Harmless(w, s, steps, i, c)
      {
        PrefixOfFront(w, s, steps, i, c);
      }
      LastStepHarmless(w, s, steps, c);
    }
  }

  lemma PrefixOfFront(w: World, s: State, steps: seq<Step>, i: nat, c: nat)
    requires i < |steps| - 1
    ensures NoClaim(w, s, steps[..|steps| - 1], i, c) <==> NoClaim(w, s, steps, i, c)
    ensures Harmless(w, s, steps[..|steps| - 1], i, c) <==> Harmless(w, s, steps, i, c)
  {
    hide Run, ClaimsNow, SameTables;
    var front := steps[..|steps| - 1];
    assert front[..i] == steps[..i] && front[..i + 1] == steps[..i + 1];
  }

  lemma LastStepHarmless(w: World, s: State, steps: seq<Step>, c: nat)
    requires steps != [] && Unclaimed(Run(w, s, steps[..|steps| - 1]), c) && NoClaim(w, s, steps, |steps| - 1, c)
    ensures Unclaimed(Run(w, s, steps), c) && Harmless(w, s, steps, |steps| - 1, c)
  {
    hide Do, SameTables, ClaimsNow, Unclaimed;
    var n := |steps| - 1;
    assert steps[..n + 1] == steps;
    UnclaimedStep(w, Run(w, s, steps[..n]), steps[n], c);
  }

  // Refusals

  /** What a call in this phase is refused for, or is about to be. */
  function FailureIn(phase: Phase): Option<Failure> {
    match phase
    case Unpaid(_, failure) => Some(failure)
    case Refused(failure) => Some(failure)
    case Answered(failure) => Some(failure)
    case _ => None
  }

  /** The facilitator does not answer the step's call, or answers with an error. */
  predicate NoAnswer(s: State, req: Request, net: NetFault) {
    || !net.Delivered? || s.fac.mode.Unavailable?
    || !IsDecimal(req.requirements.maxAmountRequired) || F.BreaksLookup(req.payload, req.requirements)
  }

  /** What has to be so, in the state before it, for a step of this request's call to fail this way. */
  predicate Causes(w: World, s: State, req: Request, step: Step, failure: Failure) {
    match failure
    case BadSignature => step.Price? && A.Verify(w.runtime, s.minted, req.assertion, step.now) in {A.MalformedSignature, A.InvalidSignature}
    case ExpiredAssertion => step.Price? && A.Verify(w.runtime, s.minted, req.assertion, step.now) == A.Expired
    case ListingNotFound =>
      step.Price? && forall l :: l in s.db.listings ==>
        l.productId != req.assertion.fields.productId || l.merchantId != req.merchantId
    case OutOfStock => step.Price? && step.row.Some? && !step.row.value.inStock
    case CurrencyMismatch => step.Price? && step.row.Some? && step.row.value.currency != req.currency
    case AmountMismatch => step.Price? && step.row.Some? && step.row.value.priceCents != req.gross
    case PaymentInvalid =>
      step.Clear? && (s.fac.mode.VerifyRejects? || !F.PaysExactly(w.chain, req.payload, req.requirements, step.now))
    case ReusedAssertion => step.Begin? && req.assertion.fields.assertionId in s.db.consumed
    case SettlementFailed =>
      step.Pay? && (s.fac.mode.SettleFails? || !F.PaysExactly(w.chain, req.payload, req.requirements, step.now)
                    || req.payload.authorization.nonce in s.fac.nonces)
    case FacilitatorUnavailable => (step.Clear? || step.Pay?) && NoAnswer(s, req, step.net)
    case Internal =>
      || (step.Price? && (step.lookupFails || A.Verify(w.runtime, s.minted, req.assertion, step.now) == A.UnreadableExpiry))
      || (step.Begin? && req.assertion.fields.assertionId !in s.db.consumed) || (step.Begin? && step.tx == BeforeStatement(0))
      || (step.Confirm? && !step.tx.NoFault?)
  }

  /** A request prices exactly when its assertion verifies and the listing looked up is in stock at its price and currency. */
  lemma PricesExactly(w: World, minted: set<A.Fields>, req: Request, now: int, row: Option<Listing>, lookupFails: bool)
    ensures PriceFailure(w, minted, req, now, row, lookupFails).None?
            <==> A.Verify(w.runtime, minted, req.assertion, now) == A.Accepted && !lookupFails && row.Some? && row.value.inStock
                 && row.value.currency == req.currency && row.value.priceCents == req.gross
  {
    hide A.Verify;
  }

  /** If the step makes call `c` fail, what the failure names was so; a failure then stands until the caller is told. */
  ghost predicate FailsForCause(w: World, s: State, s': State, step: Step, c: nat) {
    && Stands(s, c) && Stands(s', c)
    && var before, after := FailureIn(s.calls[c].phase), FailureIn(s'.calls[c].phase);
    && (before.None? && after.Some? ==> CallOf(step) == Some(c) && Causes(w, s, s.calls[c].request, step, after.value))
    && (before.Some? && after != before ==> step == Crash(c))
  }

  lemma PriceFailsForCause(w: World, s: State, c: nat, now: int, row: Option<Listing>, lookupFails: bool)
    requires Stands(s, c)
    ensures FailsForCause(w, s, DoPrice(w, s, c, now, row, lookupFails), Price(c, now, row, lookupFails), c)
  {
    hide A.Verify, F.PaysExactly, IsDecimal, F.BreaksLookup;
  }

  lemma ClearFailsForCause(w: World, s: State, c: nat, now: int, net: NetFault, newId: string)
    requires Stands(s, c)
    ensures FailsForCause(w, s, DoClear(w, s, c, now, net, newId), Clear(c, now, net, newId), c)
  {
    hide A.Verify, F.PaysExactly, IsDecimal, F.BreaksLookup, F.HandleVerify, PendingOf;
    VerifyAnswers(w, s.fac.mode, s.calls[c].request, now);
  }

  lemma BeginFailsForCause(w: World, s: State, c: nat, tx: TxFault)
    requires Stands(s, c) && PhaseOk(w, s, s.calls[c])
    ensures FailsForCause(w, s, DoBegin(s, c, tx), Begin(c, tx), c)
  {
    hide A.Verify, F.PaysExactly, IsDecimal, F.BreaksLookup, BeginTx, Admits;
    if s.calls[c].phase.Cleared? {
      BeginErrorChangesNothing(s.db, s.calls[c].phase.pending, tx);
    }
  }

  lemma PayFailsForCause(w: World, s: State, c: nat, now: int, net: NetFault)
    requires Stands(s, c)
    ensures FailsForCause(w, s, DoPay(w, s, c, now, net), Pay(c, now, net), c)
  {
    hide A.Verify, F.PaysExactly, IsDecimal, F.BreaksLookup, F.HandleSettle;
    if s.calls[c].phase.Claimed? {
      SettleAnswers(w, s.fac, s.calls[c].request, now, Some(s.calls[c].phase.pending.settlementId));
    }
  }

  lemma ConfirmFailsForCause(w: World, s: State, c: nat, now: int, tx: TxFault)
    requires Stands(s, c) && PhaseOk(w, s, s.calls[c])
    ensures FailsForCause(w, s, DoConfirm(s, c, now, tx), Confirm(c, now, tx), c)
  {
    hide A.Verify, F.PaysExactly, IsDecimal, F.BreaksLookup, ConfirmTx, HasTransfer;
    var phase := s.calls[c].phase;
    if phase.Paid? && !ConfirmTx(s.db, phase.pending, phase.transaction, now, tx).1 {
      ConfirmNeedsFault(s.db, phase.pending, phase.transaction, now, tx);
    }
  }

  /**
   Every refusal is for what it says: when a step makes a call fail, what the failure names was so
   at that moment; and the failure then stands until the caller is told of it.
   */
  lemma RefusalsHaveCause(w: World, s: State, step: Step, c: nat)
    requires Inv(w, s) && Stands(s, c)
    ensures FailsForCause(w, s, Do(w, s, step), step, c)
  {
    hide Inv, PhaseOk, Causes, DoPrice, DoClear, DoBegin, DoPay, DoConfirm, FailTx, RejectTx, StatusFor;
    CallIsOk(w, s, c);
    if CallOf(step) != Some(c) {
      OthersLeaveCall(w, s, step, c);
    } else {
      match step
      case Price(_, now, row, lookupFails) => PriceFailsForCause(w, s, c, now, row, lookupFails);
      case Clear(_, now, net, newId) => ClearFailsForCause(w, s, c, now, net, newId);
      case Begin(_, tx) => BeginFailsForCause(w, s, c, tx);
      case Pay(_, now, net) => PayFailsForCause(w, s, c, now, net);
      case Confirm(_, now, tx) => ConfirmFailsForCause(w, s, c, now, tx);
      case _ =>
    }
  }

  lemma CallIsOk(w: World, s: State, c: nat)
    requires Inv(w, s) && Stands(s, c)
    ensures PhaseOk(w, s, s.calls[c])
  {
    hide Consistent, AdmissionsMatchRows, AttemptsOk, TransfersOk, FlightsOk, ConfirmedPaid, F.NoncesMatchTransfers, A.OnlyMinted;
  }

  lemma VerifyAnswers(w: World, mode: F.FaultMode, req: Request, now: int)
    ensures var reply := F.HandleVerify(w.chain, mode, req.payload, req.requirements, now);
            && (reply.NotVerified? ==> mode.VerifyRejects? || !F.PaysExactly(w.chain, req.payload, req.requirements, now))
            && (reply.VerifyUnavailable? ==>
                  mode.Unavailable? || !IsDecimal(req.requirements.maxAmountRequired) || F.BreaksLookup(req.payload, req.requirements))
  {
    hide F.VerifyPayment, F.PaysExactly, F.BreaksLookup, IsDecimal;
    F.VerifiesExactly(w.chain, req.payload, req.requirements, now);
  }

  lemma SettleAnswers(w: World, fac: F.FacilitatorState, req: Request, now: int, origin: Option<string>)
    ensures var reply := F.HandleSettle(w.chain, fac, req.payload, req.requirements, now, origin).1;
            && (reply.NotSettled? ==> fac.mode.SettleFails? || !F.PaysExactly(w.chain, req.payload, req.requirements, now)
                                      || req.payload.authorization.nonce in fac.nonces)
            && (reply.SettleUnavailable? ==>
                  fac.mode.Unavailable? || !IsDecimal(req.requirements.maxAmountRequired) || F.BreaksLookup(req.payload, req.requirements))
  {
    hide F.VerifyPayment, F.PaysExactly, F.BreaksLookup, IsDecimal;
    F.VerifiesExactly(w.chain, req.payload, req.requirements, now);
  }

  lemma ConfirmNeedsFault(db: Database, p: PendingSettlement, txHash: string, now: int, tx: TxFault)
    requires IsPending(db, p.settlementId) && !ConfirmTx(db, p, txHash, now, tx).1
    ensures !tx.NoFault?
  {
  }

  lemma InternalIsNamed(reason: string, failure: Failure)
    requires Names(reason, failure)
    ensures reason == INTERNAL_ERROR <==> failure.Internal?
  {
  }

  /**
   A refusal that is not the platform's own leaves one row in the journal, if the statement runs:
   it names the publisher, the assertion and the merchant, and the failure the caller is told of.
   */
  lemma JournalWrites(w: World, s: State, c: nat, detail: string, statement: StatementFault)
    requires Stands(s, c) && s.calls[c].phase.Refused?
    ensures var Call(req, phase) := s.calls[c];
            var s' := Do(w, s, Journal(c, detail, statement));
            && Stands(s', c) && s'.calls[c] == Call(req, Answered(phase.failure))
            && (phase.failure.Internal? || statement.NotExecuted? ==> s'.db == s.db)
            && (!phase.failure.Internal? && !statement.NotExecuted? ==>
                  exists row ::
                    && s'.db == s.db.(rejected := s.db.rejected + [row]) && Names(row.reason, phase.failure)
                    && Journals(row, req.assertion.fields.publisherId, req.assertion.fields.assertionId, req.merchantId, row.reason, detail))
  {
    hide StatusFor, Journals, Names, NullIfEmpty, Truncated;
    hide DoPrice, DoClear, DoBegin, DoPay, DoDeliver, DoConfirm, DoFail, DoCrash, DoMint, F.HandleSettle;
    var Call(req, phase) := s.calls[c];
    var s' := DoJournal(s, c, detail, statement);
    var f, reason := req.assertion.fields, StatusFor(phase.failure).1;
    StatusTells(phase.failure);
    assert reason == INTERNAL_ERROR <==> phase.failure.Internal? by { InternalIsNamed(reason, phase.failure); }
    RejectionColumns(f.publisherId, f.assertionId, req.merchantId, reason, detail);
    var row := RejectionOf(f.publisherId, f.assertionId, req.merchantId, reason, detail);
    assert row.reason == reason && Journals(row, f.publisherId, f.assertionId, req.merchantId, row.reason, detail);
  }

  // Value

  /** What the merchant service submits: it asks for, and was authorized, the price in atomic units. */
  predicate MerchantSubmitted(req: Request) {
    && req.gross >= 0
    && req.payload.authorization.value == Digits(10_000 * req.gross)
    && req.requirements.maxAmountRequired == Digits(10_000 * req.gross)
  }

  predicate Submitted(admissions: map<string, Admission>, id: string) {
    id in admissions && MerchantSubmitted(admissions[id].request)
  }

  function ValueOf(t: F.Transfer): int {
    var v := BigIntOf(t.value);
    if v.Some? then v.value else 0
  }

  predicate IsConfirmed(rows: Rows, id: string) {
    id in rows && rows[id].status.Confirmed?
  }

  /** Value moved for merchant-submitted settlements. */
  function MovedWeight(admissions: map<string, Admission>): F.Transfer -> int {
    (t: F.Transfer) => if t.origin.Some? && Submitted(admissions, t.origin.value) then ValueOf(t) else 0
  }

  /** The part of it whose settlement is pending or failed. */
  function OpenWeight(admissions: map<string, Admission>, rows: Rows): F.Transfer -> int {
    (t: F.Transfer) => if t.origin.Some? && Submitted(admissions, t.origin.value) && !IsConfirmed(rows, t.origin.value) then ValueOf(t) else 0
  }

  /** The atomic units of a confirmed, merchant-submitted settlement's gross. */
  function AtomicGross(admissions: map<string, Admission>): Row -> int {
    (row: Row) => if row.status.Confirmed? && Submitted(admissions, row.details.settlementId) then 10_000 * row.details.gross else 0
  }

  function OriginWeight(rows: Rows, g: Row -> int): F.Transfer -> int {
    (t: F.Transfer) => if t.origin.Some? && t.origin.value in rows then g(rows[t.origin.value]) else 0
  }

  ghost predicate HasOrigin(transfers: seq<F.Transfer>, id: string) {
    exists i :: 0 <= i < |transfers| && transfers[i].origin == Some(id)
  }

  ghost predicate DistinctOrigins(transfers: seq<F.Transfer>) {
    forall i, j :: 0 <= i < j < |transfers| && transfers[i].origin.Some? ==> transfers[i].origin != transfers[j].origin
  }

  lemma {:induction false} SumMapZero(rows: Rows, g: Row -> int)
    requires forall id :: id in rows ==> g(rows[id]) == 0
    ensures SumMap(rows, g) == 0
    decreases |rows|
  {
    if rows != map[] {
      var id :| id in rows;
      SumMapTake(rows, id, g);
      SumMapZero(rows - {id}, g);
    }
  }

  /** Adding up over the transfers or over the rows they were made for gives the same sum. */
  lemma {:induction false} SumOverOrigins(transfers: seq<F.Transfer>, rows: Rows, g: Row -> int)
    requires DistinctOrigins(transfers)
    requires forall id :: id in rows && g(rows[id]) != 0 ==> HasOrigin(transfers, id)
    ensures SumOf(transfers, OriginWeight(rows, g)) == SumMap(rows, g)
    decreases |transfers|
  {
    if transfers == [] {
      SumMapZero(rows, g);
    } else {
      var front, t := transfers[..|transfers| - 1], transfers[|transfers| - 1];
      if t.origin.Some? && t.origin.value in rows {
        var id := t.origin.value;
        SumMapTake(rows, id, g);
        OriginsWithout(transfers, rows - {id}, g);
        SumOverOrigins(front, rows - {id}, g);
        SumAgree(front, OriginWeight(rows, g), OriginWeight(rows - {id}, g));
      } else {
        OriginsWithout(transfers, rows, g);
        SumOverOrigins(front, rows, g);
      }
    }
  }

  lemma OriginsWithout(transfers: seq<F.Transfer>, rows: Rows, g: Row -> int)
    requires transfers != [] && DistinctOrigins(transfers)
    requires forall id :: id in rows && g(rows[id]) != 0 ==> HasOrigin(transfers, id)
    requires forall id :: id in rows ==> transfers[|transfers| - 1].origin != Some(id)
    ensures forall id :: id in rows && g(rows[id]) != 0 ==> HasOrigin(transfers[..|transfers| - 1], id)
  {
    var front := transfers[..|transfers| - 1];
    forall id | id in rows && g(rows[id]) != 0
      ensures HasOrigin(front, id)
    {
      var i :| 0 <= i < |transfers| && transfers[i].origin == Some(id);
      assert front[i] == transfers[i];
    }
  }

  /** The transfer made for a merchant-submitted settlement is exactly 10,000 times its gross cents. */
  lemma TransferPaysGross(w: World, s: State, k: nat)
    requires Reachable(w, s) && k < |s.fac.transfers|
    requires s.fac.transfers[k].origin.Some? && Submitted(s.admissions, s.fac.transfers[k].origin.value)
    ensures var id := s.fac.transfers[k].origin.value;
            && id in s.attempts && id in s.db.settlements
            && BigIntOf(s.fac.transfers[k].value) == Some(10_000 * s.db.settlements[id].details.gross)
  {
    ReachableInv(w, s);
    hide Reachable, Consistent, ConfirmedPaid, CallsOk, F.NoncesMatchTransfers, A.OnlyMinted, Admits, BigIntOf;
    var t := s.fac.transfers[k];
    var id := t.origin.value;
    assert TransferOk(t, s.attempts, s.admissions);
    assert Admitted(w, s.minted, s.db.settlements[id], id, s.admissions[id]);
    BigIntOfDigits(10_000 * s.admissions[id].request.gross);
  }

  /** A transfer made for any request charges exactly the amount its requirements name. */
  lemma TransferPaysRequirement(w: World, s: State, k: nat)
    requires Reachable(w, s) && k < |s.fac.transfers| && s.fac.transfers[k].origin.Some?
    ensures var id := s.fac.transfers[k].origin.value;
            && id in s.db.settlements && id in s.admissions
            && BigIntOf(s.fac.transfers[k].value) == BigIntOf(s.admissions[id].request.requirements.maxAmountRequired)
  {
    ReachableInv(w, s);
    hide Reachable, Consistent, ConfirmedPaid, CallsOk, F.NoncesMatchTransfers, A.OnlyMinted, Admits, BigIntOf;
    assert TransferOk(s.fac.transfers[k], s.attempts, s.admissions);
  }

  /**
   Confirmed settlements map one to one into transfers and consumed nonces: each has exactly
   one transfer, whose hash it carries, and no two share a nonce.
   */
  lemma ConfirmedHaveOwnTransfers(w: World, s: State)
    requires Reachable(w, s)
    ensures forall id :: IsConfirmed(s.db.settlements, id) ==>
              exists k :: 0 <= k < |s.fac.transfers| && s.fac.transfers[k].origin == Some(id)
                          && s.db.settlements[id].txHash == Some(s.fac.transfers[k].transaction)
                          && s.fac.transfers[k].nonce in s.fac.nonces
    ensures forall i, j :: 0 <= i < j < |s.fac.transfers| ==>
              && s.fac.transfers[i].nonce != s.fac.transfers[j].nonce
              && (s.fac.transfers[i].origin.Some? ==> s.fac.transfers[i].origin != s.fac.transfers[j].origin)
  {
    ReachableInv(w, s);
    hide Reachable, Consistent, AdmissionsMatchRows, CallsOk, A.OnlyMinted, AttemptsOk;
    forall id | IsConfirmed(s.db.settlements, id)
      ensures exists k :: 0 <= k < |s.fac.transfers| && s.fac.transfers[k].origin == Some(id)
                          && s.db.settlements[id].txHash == Some(s.fac.transfers[k].transaction)
                          && s.fac.transfers[k].nonce in s.fac.nonces
    {
      assert HasTransfer(s.fac.transfers, id, s.db.settlements[id].txHash.value);
    }
  }

  /**
   Value is conserved across merchant, settlement and facilitator: what moved for
   merchant-submitted settlements is 10,000 times the gross of the confirmed ones plus exactly
   what moved for those still pending or marked failed.
   */
  lemma ValueConserved(w: World, s: State)
    requires Reachable(w, s)
    ensures SumOf(s.fac.transfers, MovedWeight(s.admissions))
            == SumMap(s.db.settlements, AtomicGross(s.admissions))
               + SumOf(s.fac.transfers, OpenWeight(s.admissions, s.db.settlements))
  {
    ReachableInv(w, s);
    hide Reachable, Inv;
    var g := AtomicGross(s.admissions);
    var rows, transfers := s.db.settlements, s.fac.transfers;
    forall k | 0 <= k < |transfers|
      ensures MovedWeight(s.admissions)(transfers[k])
              == OriginWeight(rows, g)(transfers[k]) + OpenWeight(s.admissions, rows)(transfers[k])
    {
      TransferWeights(w, s, k);
    }
    SumSplit(transfers, MovedWeight(s.admissions), OriginWeight(rows, g), OpenWeight(s.admissions, rows));
    EveryConfirmedHasOrigin(w, s);
    SumOverOrigins(transfers, rows, g);
  }

  lemma TransferWeights(w: World, s: State, k: nat)
    requires Reachable(w, s) && k < |s.fac.transfers|
    ensures var t := s.fac.transfers[k];
            MovedWeight(s.admissions)(t)
            == OriginWeight(s.db.settlements, AtomicGross(s.admissions))(t) + OpenWeight(s.admissions, s.db.settlements)(t)
  {
    hide Reachable, Inv, BigIntOf, MerchantSubmitted;
    ReachableInv(w, s);
    var t := s.fac.transfers[k];
    if t.origin.Some? {
      TransferPaysRequirement(w, s, k);
      if Submitted(s.admissions, t.origin.value) {
        TransferPaysGross(w, s, k);
      }
      RowNamesItself(w, s, t.origin.value);
    }
  }

  lemma RowNamesItself(w: World, s: State, id: string)
    requires Inv(w, s) && id in s.db.settlements
    ensures s.db.settlements[id].details.settlementId == id
  {
    hide AdmissionsMatchRows, CallsOk, A.OnlyMinted, AttemptsOk, LedgerMatchesRows, ClaimsMatchRows, TransfersOk, ConfirmedPaid;
    assert RowLegal(s.db.settlements[id], id, s.db.refs);
  }

  lemma EveryConfirmedHasOrigin(w: World, s: State)
    requires Reachable(w, s)
    ensures DistinctOrigins(s.fac.transfers)
    ensures forall id :: id in s.db.settlements && AtomicGross(s.admissions)(s.db.settlements[id]) != 0 ==>
              HasOrigin(s.fac.transfers, id)
  {
    ConfirmedHaveOwnTransfers(w, s);
    hide Reachable;
    forall id | id in s.db.settlements && s.db.settlements[id].status.Confirmed?
      ensures HasOrigin(s.fac.transfers, id)
    {
      assert IsConfirmed(s.db.settlements, id);
    }
  }

  /**
   A caller is told of success only for its own settlement, confirmed, paid by a transfer with the
   hash reported, and split as reported; the payer and network named are those of its payment.
   */
  lemma SuccessIsPaid(w: World, s: State, c: nat)
    requires Reachable(w, s) && Stands(s, c) && s.calls[c].phase.Done?
    ensures var r, req := s.calls[c].phase.result, s.calls[c].request;
            && Recorded(s.db.settlements, r) && HasTransfer(s.fac.transfers, r.settlementId, r.txHash)
            && r.settlementId in s.admissions && s.admissions[r.settlementId].request == req
            && s.db.settlements[r.settlementId].details.gross == req.gross
            && r.network == req.payload.network && r.payer == req.payload.authorization.sender
  {
    ReachableInv(w, s);
    hide Reachable, Consistent, AttemptsOk, TransfersOk, F.NoncesMatchTransfers, A.OnlyMinted, HasTransfer;
    assert PhaseOk(w, s, s.calls[c]);
    var id := s.calls[c].phase.result.settlementId;
    assert Admitted(w, s.minted, s.db.settlements[id], id, s.admissions[id]);
  }

  // Shares

  /** The commission is the rate's share of the price, rounded down; the platform takes 30% of it, rounded down. */
  predicate SharesOut(gross: int, bps: int, split: Split) {
    && split.commission == gross * bps / 10_000
    && split.platformFee == split.commission * 3000 / 10_000
    && split.publisher == split.commission - split.platformFee
  }

  /**
   In every reachable state each settlement in the safe range of prices is split at its own rate,
   and that is the lower of the one signed and the one listed. At no price is a share negative.
   */
  lemma RowsSplitAtOwnRate(w: World, s: State, id: string)
    requires Reachable(w, s) && id in s.db.settlements
    ensures id in s.admissions
    ensures var d, a := s.db.settlements[id].details, s.admissions[id];
            && (d.gross <= 922_337_203_685_477 ==> SharesOut(d.gross, d.commissionBps, d.split))
            && d.commissionBps == (if a.listing.commissionBps < a.request.assertion.fields.commissionBps
                                   then a.listing.commissionBps else a.request.assertion.fields.commissionBps)
            && 0 <= d.commissionBps <= 10_000 && d.gross > 0
            && d.split.commission >= 0 && d.split.platformFee >= 0 && d.split.publisher >= 0
  {
    ReachableInv(w, s);
    hide Reachable, AttemptsOk, TransfersOk, ConfirmedPaid, CallsOk, F.NoncesMatchTransfers, A.OnlyMinted, Admits;
    hide CalculateCommission, ClaimsMatchRows, LedgerMatchesRows;
    var d := s.db.settlements[id].details;
    assert Admitted(w, s.minted, s.db.settlements[id], id, s.admissions[id]);
    assert RowLegal(s.db.settlements[id], id, s.db.refs);
    if d.gross <= SAFE_GROSS {
      SafeSplit(d.gross, d.commissionBps);
    }
  }

  lemma SafeSplit(gross: nat, bps: nat)
    requires gross <= SAFE_GROSS && bps <= DIVISOR
    ensures SharesOut(gross, bps, CalculateCommission(gross, bps))
  {
    ProductBound(gross, bps, SAFE_GROSS);
    NoOverflow(gross, bps);
  }

  /** So is the split every successful caller is told. */
  lemma ResultsSplitAtOwnRate(w: World, s: State, c: nat)
    requires Reachable(w, s) && Stands(s, c) && s.calls[c].phase.Done?
    ensures var r, gross := s.calls[c].phase.result, s.calls[c].request.gross;
            gross <= 922_337_203_685_477 ==> SharesOut(gross, r.commissionBps, r.split)
  {
    hide Reachable, SharesOut, HasTransfer;
    SuccessIsPaid(w, s, c);
    RowsSplitAtOwnRate(w, s, s.calls[c].phase.result.settlementId);
  }
}
