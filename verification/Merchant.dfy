/** The merchant's purchase handler: every check it makes before it asks for settlement. */
module Merchant {
  import opened Prelude
  import opened Decimal
  import opened Store
  import opened Protocol
  import opened ProtocolTheorems
  import A = Assertion
  import F = Facilitator
  import Json

  const ATOMIC_UNITS_PER_CENT: int := 10_000

  datatype Config = Config(network: string, assetAddress: string, payToAddress: string)

  /** A header as the handler finds it: missing or empty, not base64 JSON, of the wrong shape, or decoded. */
  datatype Header<T> = Missing | Undecodable | WrongShape | Decoded(value: T)

  datatype Answer =
    | Responded(status: nat, reason: string)
    | Challenged(requirements: F.PaymentRequirements)
    | Forwarded(request: Request)

  /** `centsToAtomicUnits`; `None` where it throws. */
  function CentsToAtomicUnits(cents: int): Option<string> {
    if cents < 0 then None else Some(Digits(cents * ATOMIC_UNITS_PER_CENT))
  }

  function RequirementsFor(config: Config, amount: string): F.PaymentRequirements {
    F.PaymentRequirements(F.SCHEME_EXACT, config.network, config.assetAddress, amount, config.payToAddress)
  }

  /** `PurchaseHandler.handle`, given the listing the catalog found; prices are non-negative there. */
  function Handle(config: Config, r: A.Runtime, minted: set<A.Fields>, productId: string, found: Option<Listing>,
                  payment: Header<F.PaymentPayload>, assertion: Header<A.Assertion>, nowMillis: int): Answer
    requires found.Some? ==> found.value.productId == productId && found.value.priceCents >= 0
  {
    if productId == "" then Responded(400, "")
    else if found.None? then Responded(404, "")
    else if !found.value.inStock then Responded(422, "")
    else
      var listing := found.value;
      var expected := CentsToAtomicUnits(listing.priceCents).value;
      var requirements := RequirementsFor(config, expected);
      if payment.Missing? then Challenged(requirements)
      else if assertion.Missing? then Responded(400, "assertion_missing")
      else if !assertion.Decoded? || payment.Undecodable? then Responded(400, "malformed_headers")
      else if payment.WrongShape? then Responded(400, "malformed_payment")
      else
        var verdict := A.VerifyTs(r, minted, assertion.value, nowMillis);
        if verdict != A.Accepted then Responded(401, A.FailureReason(verdict))
        else
          var authorization := payment.value.authorization;
          if assertion.value.fields.productId != listing.productId then Responded(422, "assertion_product_mismatch")
          else if authorization.value != expected then Responded(422, "amount_mismatch")
          else if !F.SameAddress(authorization.to, config.payToAddress) then Responded(422, "payee_mismatch")
          else Forwarded(Request(assertion.value, listing.merchantId, listing.priceCents, listing.currency, payment.value, requirements))
  }

  /** Everything a purchase has to be before the merchant asks for settlement. */
  predicate InOrder(config: Config, r: A.Runtime, minted: set<A.Fields>, productId: string, found: Option<Listing>,
                    payment: Header<F.PaymentPayload>, assertion: Header<A.Assertion>, nowMillis: int)
    requires found.Some? ==> found.value.priceCents >= 0
  {
    && productId != "" && found.Some? && found.value.inStock
    && payment.Decoded? && assertion.Decoded?
    && A.VerifyTs(r, minted, assertion.value, nowMillis) == A.Accepted
    && assertion.value.fields.productId == found.value.productId
    && payment.value.authorization.value == Digits(10_000 * found.value.priceCents)
    && F.SameAddress(payment.value.authorization.to, config.payToAddress)
  }

  /** The payment the merchant asks for: the listing's price in atomic units, exactly, to its own address. */
  predicate AsksThePrice(config: Config, listing: Listing, req: F.PaymentRequirements)
    requires listing.priceCents >= 0
  {
    && req.scheme == "exact" && req.network == config.network && req.asset == config.assetAddress
    && req.maxAmountRequired == Digits(10_000 * listing.priceCents) && req.payTo == config.payToAddress
  }

  /**
   A purchase is forwarded exactly when it is in order, and then with the merchant, price and
   currency of the listing, the assertion and payment given, and the price asked. A buyer without
   a payment is asked for exactly that price, and no other one is.
   */
  lemma ForwardsExactly(config: Config, r: A.Runtime, minted: set<A.Fields>, productId: string, found: Option<Listing>,
                        payment: Header<F.PaymentPayload>, assertion: Header<A.Assertion>, nowMillis: int)
    requires found.Some? ==> found.value.productId == productId && found.value.priceCents >= 0
    ensures var answer := Handle(config, r, minted, productId, found, payment, assertion, nowMillis);
            && (answer.Forwarded? <==> InOrder(config, r, minted, productId, found, payment, assertion, nowMillis))
            && (answer.Forwarded? ==>
                  var req := answer.request;
                  && req.merchantId == found.value.merchantId && req.gross == found.value.priceCents && req.currency == found.value.currency
                  && req.assertion == assertion.value && req.payload == payment.value
                  && AsksThePrice(config, found.value, req.requirements))
            && (answer.Challenged? <==> productId != "" && found.Some? && found.value.inStock && payment.Missing?)
            && (answer.Challenged? ==> AsksThePrice(config, found.value, answer.requirements))
  {
    hide A.VerifyTs, F.SameAddress, Digits;
  }

  /** The status and the reason a purchase is answered with are true of it. */
  predicate Justified(status: nat, reason: string, config: Config, r: A.Runtime, minted: set<A.Fields>, productId: string,
                      found: Option<Listing>, payment: Header<F.PaymentPayload>, assertion: Header<A.Assertion>, nowMillis: int)
    requires found.Some? ==> found.value.priceCents >= 0
  {
    match status
    case 404 => reason == "" && found.None?
    case 400 =>
      || (reason == "" && productId == "")
      || (reason == "assertion_missing" && assertion.Missing? && !payment.Missing?)
      || (reason == "malformed_headers" && (assertion.Undecodable? || assertion.WrongShape? || payment.Undecodable?))
      || (reason == "malformed_payment" && payment.WrongShape?)
    case 401 =>
      assertion.Decoded? && var verdict := A.VerifyTs(r, minted, assertion.value, nowMillis);
      || (reason == "expired" && verdict == A.Expired)
      || (reason == "invalid_signature" && verdict == A.InvalidSignature)
      || (reason == "malformed_signature" && verdict in {A.MalformedSignature, A.UnreadableExpiry})
    case 422 =>
      found.Some? && var listing := found.value;
      || (reason == "" && !listing.inStock)
      || (reason == "assertion_product_mismatch" && assertion.Decoded? && assertion.value.fields.productId != listing.productId)
      || (reason == "amount_mismatch" && payment.Decoded? && payment.value.authorization.value != Digits(10_000 * listing.priceCents))
      || (reason == "payee_mismatch" && payment.Decoded? && !F.SameAddress(payment.value.authorization.to, config.payToAddress))
    case _ => false
  }

  lemma AnswersAreJustified(config: Config, r: A.Runtime, minted: set<A.Fields>, productId: string, found: Option<Listing>,
                            payment: Header<F.PaymentPayload>, assertion: Header<A.Assertion>, nowMillis: int)
    requires found.Some? ==> found.value.productId == productId && found.value.priceCents >= 0
    requires Handle(config, r, minted, productId, found, payment, assertion, nowMillis).Responded?
    ensures var Responded(status, reason) := Handle(config, r, minted, productId, found, payment, assertion, nowMillis);
            Justified(status, reason, config, r, minted, productId, found, payment, assertion, nowMillis)
  {
    hide A.VerifyTs, F.SameAddress, Digits;
  }

  /**
   Whatever the merchant forwards was authorized for, and asks for, exactly 10,000 atomic units
   per cent of the price it will settle at, payable to the merchant's own address.
   */
  lemma ForwardedPaysThePrice(config: Config, r: A.Runtime, minted: set<A.Fields>, productId: string, found: Option<Listing>,
                              payment: Header<F.PaymentPayload>, assertion: Header<A.Assertion>, nowMillis: int)
    requires found.Some? ==> found.value.productId == productId && found.value.priceCents >= 0
    requires Handle(config, r, minted, productId, found, payment, assertion, nowMillis).Forwarded?
    ensures var req := Handle(config, r, minted, productId, found, payment, assertion, nowMillis).request;
            && MerchantSubmitted(req)
            && req.gross == found.value.priceCents
            && BigIntOf(req.payload.authorization.value) == Some(ATOMIC_UNITS_PER_CENT * req.gross)
            && F.SameAddress(req.payload.authorization.to, config.payToAddress)
            && (F.ToUint256(req.payload.authorization.value).Some? <==> ATOMIC_UNITS_PER_CENT * req.gross <= F.MAX_UINT256)
  {
    hide BigIntOf, A.VerifyTs;
    var amount := ATOMIC_UNITS_PER_CENT * found.value.priceCents;
    BigIntOfDigits(amount);
    DigitsParse(amount);
    DecimalUntrimmed(Digits(amount));
  }

  /**
   The two services agree on what they were shown: an assertion the merchant forwards at some
   instant is one the settlement service accepts at that instant, provided no field holds
   U+2028 or U+2029 and both decode its signature text alike. Whatever row its own lookup finds,
   it then prices the request exactly when that row is in stock and has kept the price and
   currency the merchant read.
   */
  lemma ForwardedIsAccepted(config: Config, w: World, minted: set<A.Fields>, productId: string, found: Option<Listing>,
                            payment: Header<F.PaymentPayload>, assertion: Header<A.Assertion>, nowNanos: int,
                            looked: Option<Listing>)
    requires A.Sound(w.runtime) && A.OnlyMinted(w.runtime, minted)
    requires found.Some? ==> found.value.productId == productId && found.value.priceCents >= 0
    requires Handle(config, w.runtime, minted, productId, found, payment, assertion, nowNanos / A.NANOS_PER_MILLI).Forwarded?
    requires A.SeparatorFree(assertion.value.fields)
    requires A.SIGNATURE_PREFIX <= assertion.value.signature ==>
               var text := assertion.value.signature[|A.SIGNATURE_PREFIX|..];
               w.runtime.decode64(Json.Go, text) == w.runtime.decode64(Json.TypeScript, text)
    ensures A.Verify(w.runtime, minted, assertion.value, nowNanos) == A.Accepted
    ensures PriceFailure(w, minted, Handle(config, w.runtime, minted, productId, found, payment, assertion,
                                           nowNanos / A.NANOS_PER_MILLI).request, nowNanos, looked, false).None?
            <==> looked.Some? && looked.value.inStock
                 && looked.value.priceCents == found.value.priceCents && looked.value.currency == found.value.currency
  {
    ForwardsExactly(config, w.runtime, minted, productId, found, payment, assertion, nowNanos / A.NANOS_PER_MILLI);
    var verdict := A.VerifyTs(w.runtime, minted, assertion.value, nowNanos / A.NANOS_PER_MILLI);
    VerifiedLength(w.runtime, minted, assertion.value, nowNanos / A.NANOS_PER_MILLI);
    hide Handle, A.VerifyTs, A.Verify, A.SeparatorFree, A.Genuine, A.Sound, A.OnlyMinted;
    A.TwinVerdicts(w.runtime, minted, assertion.value, nowNanos);
  }

  lemma VerifiedLength(r: A.Runtime, minted: set<A.Fields>, a: A.Assertion, nowMillis: int)
    requires A.VerifyTs(r, minted, a, nowMillis) == A.Accepted
    ensures A.SIGNATURE_PREFIX <= a.signature
    ensures var raw := r.decode64(Json.TypeScript, a.signature[|A.SIGNATURE_PREFIX|..]);
            raw.Some? && |raw.value| == A.SIGNATURE_BYTES
  {
    hide A.SignatureValid, A.CanonicalBytes;
  }
}
