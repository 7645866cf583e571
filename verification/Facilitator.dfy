/** The payment facilitator: what it verifies, what it settles, and the nonces it refuses twice. */
module Facilitator {
  import opened Prelude
  import opened Decimal

  datatype Authorization = Authorization(
    sender: string,
    to: string,
    value: string,
    validAfter: string,
    validBefore: string,
    nonce: string)

  datatype PaymentPayload = PaymentPayload(scheme: string, network: string, authorization: Authorization, signature: string)

  datatype PaymentRequirements = PaymentRequirements(
    scheme: string,
    network: string,
    asset: string,
    maxAmountRequired: string,
    payTo: string)

  datatype TypedMessage = TypedMessage(
    sender: string,
    to: string,
    value: nat,
    validAfter: nat,
    validBefore: nat,
    nonce: Option<string>) // 64 hexadecimal digits, or None for a text that does not stand for 32 bytes

  datatype SignatureCheck = Throws | Rejects | Recovers

  /** Typed-data signature recovery, which reads addresses as text and the nonce as bytes, and the hash of an authorization, as their library supplies them. */
  datatype Chain = Chain(
    checkSignature: (TypedMessage, string) -> SignatureCheck,
    transactionHash: Authorization -> string)

  datatype InvalidReason =
    | UnsupportedScheme | NetworkMismatch | AssetMismatch | PayeeMismatch | InsufficientAmount
    | NotYetValid | AuthorizationExpired | InvalidSignature | MalformedPayload

  /** A verdict, or an exception outside any handler of its own. */
  datatype Outcome = Valid(payer: string) | Invalid(reason: InvalidReason) | Broken

  const SCHEME_EXACT: string := "exact"
  const BASE_SEPOLIA: string := "base-sepolia"
  const USDC_ADDRESS: string := "0x036CbD53842c5426634e7929541eC2318f3dCF7e"
  const MAX_UINT256: int := 0x1_0000000000000000_0000000000000000_0000000000000000_0000000000000000 - 1

  /** Names every JavaScript object answers to, a table of networks included (ECMA-262, sections 20.1.3 and B.2.2). */
  const INHERITED: set<string> := {
    "constructor", "hasOwnProperty", "isPrototypeOf", "propertyIsEnumerable", "toLocaleString", "toString", "valueOf",
    "__proto__", "__defineGetter__", "__defineSetter__", "__lookupGetter__", "__lookupSetter__"}

  function LowerChar(c: char): char {
    if 'A' <= c <= 'Z' then (c as int + 32) as char else c
  }

  function Lower(s: string): string {
    seq(|s|, i requires 0 <= i < |s| => LowerChar(s[i]))
  }

  predicate SameAddress(left: string, right: string) {
    Lower(left) == Lower(right)
  }

  /** `toUint256`; `None` where it throws. */
  function ToUint256(raw: string): Option<nat> {
    if Trim(raw) == [] then None
    else
      var value := BigIntOf(raw);
      if value.None? || value.value < 0 || value.value > MAX_UINT256 then None else Some(value.value)
  }

  predicate IsHexDigit(c: char) {
    '0' <= c <= '9' || 'a' <= c <= 'f' || 'A' <= c <= 'F'
  }

  predicate AllHex(s: string) {
    forall i :: 0 <= i < |s| ==> IsHexDigit(s[i])
  }

  function Zeros(n: nat): string {
    seq(n, i requires 0 <= i < n => '0')
  }

  /** The text without the first "0x" in it. */
  function WithoutPrefix(text: string): string {
    if |text| < 2 then text
    else if text[..2] == "0x" then text[2..]
    else [text[0]] + WithoutPrefix(text[1..])
  }

  /** The bytes a text is taken to hold: two digits each, rounded up, after 0x, and one a character otherwise. */
  function SizeOf(text: string): nat {
    if "0x" <= text then (|text| - 1) / 2 else |text|
  }

  /**
   The 32 bytes viem encodes a `bytes32` text as, in lower-case digits: it measures the text, drops
   a 0x, pads the digits on the right, and reads them in either case. None is where it throws.
   */
  function NonceBytes(text: string): Option<string> {
    var digits := WithoutPrefix(text);
    if SizeOf(text) == 32 && AllHex(digits) && |digits| <= 64 then Some(Lower(digits) + Zeros(64 - |digits|)) else None
  }

  function ToTypedMessage(a: Authorization): Option<TypedMessage> {
    var value, validAfter, validBefore := ToUint256(a.value), ToUint256(a.validAfter), ToUint256(a.validBefore);
    if value.None? || validAfter.None? || validBefore.None? then None
    else Some(TypedMessage(a.sender, a.to, value.value, validAfter.value, validBefore.value, NonceBytes(a.nonce)))
  }

  /** `verifyPayment`, once the request has passed validation. */
  function VerifyPayment(chain: Chain, payload: PaymentPayload, req: PaymentRequirements, nowSeconds: int): Outcome {
    if payload.scheme != SCHEME_EXACT || req.scheme != SCHEME_EXACT then Invalid(UnsupportedScheme)
    else if payload.network != req.network then Invalid(NetworkMismatch)
    else
      var message := ToTypedMessage(payload.authorization);
      if message.None? || (payload.network != BASE_SEPOLIA && payload.network !in INHERITED) then Invalid(MalformedPayload)
      // An inherited value has no contract address to compare the asset with.
      else if payload.network != BASE_SEPOLIA then Broken
      else if !SameAddress(req.asset, USDC_ADDRESS) then Invalid(AssetMismatch)
      else if !SameAddress(payload.authorization.to, req.payTo) then Invalid(PayeeMismatch)
      else if Some(message.value.value as int) != BigIntOf(req.maxAmountRequired) then Invalid(InsufficientAmount)
      else if nowSeconds < message.value.validAfter then Invalid(NotYetValid)
      else if nowSeconds >= message.value.validBefore then Invalid(AuthorizationExpired)
      else if message.value.nonce.None? then Invalid(MalformedPayload)
      else
        match chain.checkSignature(message.value, payload.signature)
        case Throws => Invalid(MalformedPayload)
        case Rejects => Invalid(InvalidSignature)
        case Recovers => Valid(message.value.sender)
  }

  // What a payment has to be, apart from the order it is checked in

  /** A text `BigInt` reads as a number of 256 bits; a blank one does not count. */
  predicate IsUint256(text: string) {
    Trim(text) != "" && BigIntOf(text).Some? && 0 <= BigIntOf(text).value <= MAX_UINT256
  }

  predicate HasNumbers(a: Authorization) {
    IsUint256(a.value) && IsUint256(a.validAfter) && IsUint256(a.validBefore)
  }

  /** The sender's key signed this very transfer: its two addresses, amount, window and 32 nonce bytes. */
  predicate SignedBySender(chain: Chain, a: Authorization, signature: string) {
    && HasNumbers(a)
    && NonceBytes(a.nonce).Some?
    && chain.checkSignature(TypedMessage(a.sender, a.to, BigIntOf(a.value).value, BigIntOf(a.validAfter).value,
                                         BigIntOf(a.validBefore).value, NonceBytes(a.nonce)), signature) == Recovers
  }

  /** A transfer its payer signed, of exactly what is asked, in the one asset, to the payee, within the window signed. */
  predicate PaysExactly(chain: Chain, payload: PaymentPayload, req: PaymentRequirements, now: int) {
    var a := payload.authorization;
    && payload.scheme == "exact" && req.scheme == "exact"
    && payload.network == "base-sepolia" && req.network == "base-sepolia"
    && SameAddress(req.asset, USDC_ADDRESS)
    && SameAddress(a.to, req.payTo)
    && IsDecimal(req.maxAmountRequired)
    && SignedBySender(chain, a, payload.signature)
    && BigIntOf(a.value) == BigIntOf(req.maxAmountRequired)
    && BigIntOf(a.validAfter).value <= now < BigIntOf(a.validBefore).value
  }

  /** The one request that breaks the service: a network whose name every object inherits. */
  predicate BreaksLookup(payload: PaymentPayload, req: PaymentRequirements) {
    && payload.scheme == "exact" && req.scheme == "exact"
    && payload.network == req.network && payload.network in INHERITED
    && HasNumbers(payload.authorization)
  }

  lemma Uint256Read(text: string)
    ensures ToUint256(text).Some? <==> IsUint256(text)
    ensures ToUint256(text).Some? ==> BigIntOf(text) == Some(ToUint256(text).value)
  {
  }

  lemma MessageSigned(a: Authorization)
    ensures ToTypedMessage(a).Some? <==> HasNumbers(a)
    ensures HasNumbers(a) ==> BigIntOf(a.value).Some? && BigIntOf(a.validAfter).Some? && BigIntOf(a.validBefore).Some?
    ensures HasNumbers(a) ==>
              ToTypedMessage(a).value == TypedMessage(a.sender, a.to, BigIntOf(a.value).value, BigIntOf(a.validAfter).value,
                                                      BigIntOf(a.validBefore).value, NonceBytes(a.nonce))
  {
    hide BigIntOf, Trim, NonceBytes;
    Uint256Read(a.value);
    Uint256Read(a.validAfter);
    Uint256Read(a.validBefore);
  }

  /**
   A payment passes exactly when it pays what is asked and its payer signed for it, and the payer
   reported is the signer; only a network with an inherited name breaks the check.
   */
  lemma VerifiesExactly(chain: Chain, payload: PaymentPayload, req: PaymentRequirements, now: int)
    ensures IsDecimal(req.maxAmountRequired) && VerifyPayment(chain, payload, req, now).Valid? <==> PaysExactly(chain, payload, req, now)
    ensures var outcome := VerifyPayment(chain, payload, req, now);
            outcome.Valid? ==> outcome.payer == payload.authorization.sender
    ensures VerifyPayment(chain, payload, req, now).Broken? <==> BreaksLookup(payload, req)
  {
    hide BigIntOf, Trim, NonceBytes, ToTypedMessage, HasNumbers, SameAddress, IsDecimal;
    MessageSigned(payload.authorization);
    NotInherited();
  }

  lemma NotInherited()
    ensures BASE_SEPOLIA !in INHERITED
  {
    assert BASE_SEPOLIA[4] == '-';
    assert forall name :: name in INHERITED ==> |name| > 4 && name[4] != '-';
  }

  /** Whatever reason a payment is turned down for is true of it. */
  lemma ReasonIsTrue(chain: Chain, payload: PaymentPayload, req: PaymentRequirements, now: int)
    requires VerifyPayment(chain, payload, req, now).Invalid?
    ensures var a := payload.authorization;
            match VerifyPayment(chain, payload, req, now).reason
            case UnsupportedScheme => payload.scheme != "exact" || req.scheme != "exact"
            case NetworkMismatch => payload.network != req.network
            case AssetMismatch => !SameAddress(req.asset, USDC_ADDRESS)
            case PayeeMismatch => !SameAddress(a.to, req.payTo)
            case InsufficientAmount => BigIntOf(a.value) != BigIntOf(req.maxAmountRequired)
            case NotYetValid => HasNumbers(a) && now < BigIntOf(a.validAfter).value
            case AuthorizationExpired => HasNumbers(a) && now >= BigIntOf(a.validBefore).value
            case InvalidSignature => !SignedBySender(chain, a, payload.signature)
            case MalformedPayload =>
              || !HasNumbers(a) || NonceBytes(a.nonce).None? || payload.network != "base-sepolia"
              || chain.checkSignature(ToTypedMessage(a).value, payload.signature) == Throws
  {
    hide BigIntOf, Trim, NonceBytes, ToTypedMessage, HasNumbers, SameAddress;
    MessageSigned(payload.authorization);
  }

  datatype FaultMode = Healthy | VerifyRejects | SettleFails | Unavailable

  /** A transfer the facilitator made, with the settlement it was asked for, if any. */
  datatype Transfer = Transfer(origin: Option<string>, payer: string, to: string, value: string, nonce: string, transaction: string)

  datatype FacilitatorState = FacilitatorState(nonces: set<string>, transfers: seq<Transfer>, mode: FaultMode)

  datatype VerifyReply = Verified(payer: string) | NotVerified | VerifyUnavailable

  datatype SettleReply = Settled(transaction: string, network: string, payer: string) | NotSettled | SettleUnavailable

  /** The verify route: it reads the armed fault and writes nothing. */
  function HandleVerify(chain: Chain, mode: FaultMode, payload: PaymentPayload, req: PaymentRequirements, now: int): VerifyReply {
    if mode.Unavailable? then VerifyUnavailable
    else if mode.VerifyRejects? then NotVerified
    else if !IsDecimal(req.maxAmountRequired) then VerifyUnavailable
    else
      match VerifyPayment(chain, payload, req, now)
      case Valid(payer) => Verified(payer)
      case Invalid(_) => NotVerified
      case Broken => VerifyUnavailable
  }

  /** The payment passes every check but the ledger's. */
  predicate Payable(chain: Chain, payload: PaymentPayload, req: PaymentRequirements, now: int) {
    IsDecimal(req.maxAmountRequired) && VerifyPayment(chain, payload, req, now).Valid?
  }

  function TransferOf(chain: Chain, payload: PaymentPayload, origin: Option<string>): Transfer {
    var a := payload.authorization;
    Transfer(origin, a.sender, a.to, a.value, a.nonce, chain.transactionHash(a))
  }

  /** The settle route: at most one transfer per nonce. */
  function HandleSettle(chain: Chain, fac: FacilitatorState, payload: PaymentPayload, req: PaymentRequirements, now: int,
                        origin: Option<string>): (FacilitatorState, SettleReply)
  {
    var a := payload.authorization;
    if fac.mode.Unavailable? then (fac, SettleUnavailable)
    else if fac.mode.SettleFails? then (fac, NotSettled)
    else if !IsDecimal(req.maxAmountRequired) then (fac, SettleUnavailable)
    else if VerifyPayment(chain, payload, req, now).Broken? then (fac, SettleUnavailable)
    else if VerifyPayment(chain, payload, req, now).Invalid? then (fac, NotSettled)
    else if a.nonce in fac.nonces then (fac, NotSettled)
    else
      var t := TransferOf(chain, payload, origin);
      (fac.(nonces := fac.nonces + {a.nonce}, transfers := fac.transfers + [t]),
       Settled(t.transaction, payload.network, t.payer))
  }

  /** The consumed nonces are exactly those of the transfers made, one transfer each. */
  ghost predicate NoncesMatchTransfers(fac: FacilitatorState) {
    && (forall i, j :: 0 <= i < j < |fac.transfers| ==> fac.transfers[i].nonce != fac.transfers[j].nonce)
    && (forall i :: 0 <= i < |fac.transfers| ==> fac.transfers[i].nonce in fac.nonces)
    && (forall n :: n in fac.nonces ==> exists i :: 0 <= i < |fac.transfers| && fac.transfers[i].nonce == n)
  }

  /** A nonce's text pays once: settling it again, for anyone and with any payload, moves nothing. */
  lemma SettleOncePerNonce(chain: Chain, fac: FacilitatorState, payload: PaymentPayload, req: PaymentRequirements, now: int,
                           origin: Option<string>)
    requires NoncesMatchTransfers(fac)
    ensures var (fac', reply) := HandleSettle(chain, fac, payload, req, now, origin);
            && NoncesMatchTransfers(fac')
            && (reply.Settled? <==> |fac'.transfers| == |fac.transfers| + 1)
            && (!reply.Settled? ==> fac' == fac)
            && (reply.Settled? ==> Payable(chain, payload, req, now) && payload.authorization.nonce !in fac.nonces)
  {
    var (fac', reply) := HandleSettle(chain, fac, payload, req, now, origin);
    if reply.Settled? {
      assert fac'.transfers[|fac.transfers|].nonce == payload.authorization.nonce;
      forall n | n in fac'.nonces
        ensures exists i :: 0 <= i < |fac'.transfers| && fac'.transfers[i].nonce == n
      {
        if n in fac.nonces {
          var i :| 0 <= i < |fac.transfers| && fac.transfers[i].nonce == n;
          assert fac'.transfers[i].nonce == n;
        }
      }
    }
  }

  lemma SettleMoves(chain: Chain, fac: FacilitatorState, payload: PaymentPayload, req: PaymentRequirements, now: int,
                    origin: Option<string>)
    ensures var fac' := HandleSettle(chain, fac, payload, req, now, origin).0;
            && (fac' == fac || fac'.transfers == fac.transfers + [TransferOf(chain, payload, origin)])
            && fac.nonces <= fac'.nonces
    ensures TransferOf(chain, payload, origin).origin == origin
  {
  }

  /** The facilitator charges exactly what the requirements ask for, in their favour and inside the payer's own window. */
  lemma PayableChargesRequirement(chain: Chain, payload: PaymentPayload, req: PaymentRequirements, now: int)
    requires Payable(chain, payload, req, now)
    ensures BigIntOf(payload.authorization.value) == BigIntOf(req.maxAmountRequired)
    ensures BigIntOf(payload.authorization.value).Some?
    ensures SameAddress(payload.authorization.to, req.payTo)
    ensures ValidAfter(payload) <= now < ValidBefore(payload)
  {
  }

  /** The window the payer signed, as the facilitator reads it. */
  function ValidAfter(payload: PaymentPayload): int {
    var t := ToUint256(payload.authorization.validAfter);
    if t.Some? then t.value else 0
  }

  function ValidBefore(payload: PaymentPayload): int {
    var t := ToUint256(payload.authorization.validBefore);
    if t.Some? then t.value else 0
  }

  /** Between two instants at which a payment is payable it always is. */
  lemma PayableOnAnInterval(chain: Chain, payload: PaymentPayload, req: PaymentRequirements, now: int, later: int)
    requires Payable(chain, payload, req, now)
    ensures Payable(chain, payload, req, later) <==> ValidAfter(payload) <= later < ValidBefore(payload)
  {
    hide ToUint256, BigIntOf, IsDecimal, SameAddress;
  }

  /**
   A payment the facilitator verified settles later exactly when settling is not faulted, the
   payer's window is still open and the nonce is still unused: nothing else can come between.
   */
  lemma VerifiedThenSettles(chain: Chain, fac: FacilitatorState, payload: PaymentPayload, req: PaymentRequirements,
                            verifiedAt: int, mode: FaultMode, settledAt: int, origin: Option<string>)
    requires HandleVerify(chain, mode, payload, req, verifiedAt).Verified? && verifiedAt <= settledAt
    ensures HandleSettle(chain, fac, payload, req, settledAt, origin).1.Settled?
            <==> !fac.mode.Unavailable? && !fac.mode.SettleFails? && settledAt < ValidBefore(payload)
                 && payload.authorization.nonce !in fac.nonces
  {
    hide ToUint256, BigIntOf, IsDecimal, SameAddress, VerifyPayment;
    PayableOnAnInterval(chain, payload, req, verifiedAt, settledAt);
    PayableChargesRequirement(chain, payload, req, verifiedAt);
  }

  // One signed message, one payment

  /** Two addresses are the same exactly when they differ at most in the case of their letters. */
  lemma SameAddressIgnoresCase(left: string, right: string)
    ensures SameAddress(left, right)
            <==> |left| == |right|
                 && forall i :: 0 <= i < |left| ==> left[i] == right[i] || (IsLetter(left[i]) && right[i] == OtherCase(left[i]))
  {
    assert |Lower(left)| == |left| && |Lower(right)| == |right|;
    if |left| == |right| {
      forall i | 0 <= i < |left|
        ensures Lower(left)[i] == Lower(right)[i] <==> left[i] == right[i] || (IsLetter(left[i]) && right[i] == OtherCase(left[i]))
      {
      }
    }
  }

  predicate IsLetter(c: char) {
    'a' <= c <= 'z' || 'A' <= c <= 'Z'
  }

  function OtherCase(c: char): char
    requires IsLetter(c)
  {
    if c <= 'Z' then (c as int + 32) as char else (c as int - 32) as char
  }

  /** Written in full, without a letter, and not ending in 0. */
  predicate Unambiguous(nonce: string) {
    "0x" <= nonce && |nonce| == 66 && nonce[65] != '0' && forall i :: 2 <= i < 66 ==> !IsLetter(nonce[i])
  }

  /** A nonce can be written in one way only exactly when its full form has no letter and does not end in 0. */
  lemma OneSpelling(nonce: string)
    requires NonceBytes(nonce).Some?
    ensures (forall text :: NonceBytes(text) == NonceBytes(nonce) ==> text == nonce) <==> Unambiguous(nonce)
  {
    hide NonceBytes;
    if Unambiguous(nonce) {
      forall text | NonceBytes(text) == NonceBytes(nonce)
        ensures text == nonce
      {
        OnlySpelling(text, nonce);
      }
    } else {
      FullForm(nonce);
      var full := "0x" + NonceBytes(nonce).value;
      if nonce == full {
        if nonce[65] == '0' {
          ShortSpelling(nonce);
        } else {
          var i :| 2 <= i < 66 && IsLetter(nonce[i]);
          OtherSpelling(nonce, i);
        }
      }
    }
  }

  /** The lower-case digits of a nonce, written in full, are one of its spellings. */
  lemma FullForm(nonce: string)
    requires NonceBytes(nonce).Some?
    ensures |NonceBytes(nonce).value| == 64 && NonceBytes("0x" + NonceBytes(nonce).value) == NonceBytes(nonce)
  {
    var digits, bytes := WithoutPrefix(nonce), NonceBytes(nonce).value;
    var full := "0x" + bytes;
    assert full[..2] == "0x" && full[2..] == bytes;
    forall i | 0 <= i < 64
      ensures IsHexDigit(bytes[i]) && LowerChar(bytes[i]) == bytes[i]
    {
      if i < |digits| {
        assert bytes[i] == LowerChar(digits[i]) && IsHexDigit(digits[i]);
      }
    }
    assert Lower(bytes) + Zeros(0) == bytes;
  }

  /** Written in full a nonce is its digits in lower case, if they are hexadecimal digits and nothing else. */
  lemma FullNonce(digits: string)
    requires |digits| == 64
    ensures NonceBytes("0x" + digits) == if DigitsIn(digits, 16) then Some(Lower(digits)) else None
  {
    var full := "0x" + digits;
    assert full[..2] == "0x" && full[2..] == digits;
    assert Lower(digits) + Zeros(0) == Lower(digits);
    assert forall i :: 0 <= i < 64 ==> (IsHexDigit(digits[i]) <==> DigitValue(digits[i], 16).Some?);
  }

  /** A last digit 0 is one the padding would supply. */
  lemma ShortSpelling(nonce: string)
    requires NonceBytes(nonce).Some? && "0x" <= nonce && |nonce| == 66 && nonce[65] == '0'
    ensures NonceBytes(nonce[..65]) == NonceBytes(nonce) && nonce[..65] != nonce
  {
    var text := nonce[..65];
    assert text[..2] == nonce[..2] == "0x";
    assert text[2..] == nonce[2..65] && nonce[2..] == text[2..] + "0";
    assert Lower(nonce[2..]) + Zeros(0) == Lower(text[2..]) + Zeros(1);
  }

  lemma OtherSpelling(nonce: string, i: nat)
    requires NonceBytes(nonce).Some? && "0x" <= nonce && 2 <= i < |nonce| && IsLetter(nonce[i])
    ensures var text := nonce[i := OtherCase(nonce[i])];
            text != nonce && NonceBytes(text) == NonceBytes(nonce)
  {
    var text := nonce[i := OtherCase(nonce[i])];
    assert nonce[..2] == "0x" && text[..2] == nonce[..2];
    assert text[2..] == nonce[2..][i - 2 := OtherCase(nonce[i])];
    assert IsHexDigit(nonce[2..][i - 2]);
    assert text[i] != nonce[i];
    assert Lower(text[2..]) == Lower(nonce[2..]);
  }

  /** Dropping a prefix drops nothing or two characters. */
  lemma {:induction false} PrefixLength(text: string)
    ensures |WithoutPrefix(text)| == |text| || |WithoutPrefix(text)| + 2 == |text|
  {
    if |text| >= 2 && text[..2] != "0x" {
      PrefixLength(text[1..]);
    }
  }

  predicate NoPrefixBefore(text: string, n: nat)
    requires n < |text| || n == 0
  {
    forall j :: 0 <= j < n ==> text[j] != '0' || text[j + 1] != 'x'
  }

  /** What is dropped is the first 0x, wherever it stands. */
  lemma {:induction false} PrefixDropped(text: string, i: nat)
    requires i + 2 <= |text| && text[i] == '0' && text[i + 1] == 'x' && NoPrefixBefore(text, i)
    ensures WithoutPrefix(text) == text[..i] + text[i + 2..]
  {
    assert text[..2] == "0x" <==> text[0] == '0' && text[1] == 'x';
    if i > 0 {
      var rest := text[1..];
      PrefixDropped(rest, i - 1);
      assert [text[0]] + (rest[..i - 1] + rest[i + 1..]) == text[..i] + text[i + 2..];
    }
  }

  lemma {:induction false} NothingDropped(text: string)
    requires text == "" || NoPrefixBefore(text, |text| - 1)
    ensures WithoutPrefix(text) == text
  {
    if |text| >= 2 {
      assert text[..2] == "0x" <==> text[0] == '0' && text[1] == 'x';
      NothingDropped(text[1..]);
      assert text == [text[0]] + text[1..];
    }
  }

  lemma PaddingEndsInZero(digits: string)
    ensures |digits| < 64 ==> (Lower(digits) + Zeros(64 - |digits|))[63] == '0'
  {
  }

  lemma OnlySpelling(text: string, nonce: string)
    requires Unambiguous(nonce) && NonceBytes(nonce).Some? && NonceBytes(text) == NonceBytes(nonce)
    ensures text == nonce
  {
    var digits, bytes := WithoutPrefix(text), NonceBytes(nonce).value;
    assert nonce[..2] == "0x";
    assert bytes == Lower(nonce[2..]) + Zeros(0);
    PrefixLength(text);
    // A padded text would end in 0, and only one written after 0x is long enough to need no padding.
    assert bytes[63] == LowerChar(nonce[2..][63]) == LowerChar(nonce[65]);
    PaddingEndsInZero(digits);
    assert |digits| == 64;
    assert "0x" <= text;
    assert text[..2] == "0x" && digits == text[2..];
    assert Lower(digits) == Lower(digits) + Zeros(0) == bytes == Lower(nonce[2..]);
    forall i | 2 <= i < 66
      ensures text[i] == nonce[i]
    {
      assert Lower(digits)[i - 2] == LowerChar(text[i]) && Lower(nonce[2..])[i - 2] == LowerChar(nonce[i]);
    }
    assert text[..2] == nonce[..2];
    assert text == text[..2] + text[2..] && nonce == nonce[..2] + nonce[2..];
  }

  function Respelled(payload: PaymentPayload, text: string): PaymentPayload {
    payload.(authorization := payload.authorization.(nonce := text))
  }

  /**
   Once a payment has settled, the same signed message, its nonce written as `text`, settles again
   exactly when the window is still open and the ledger has not seen that very text. A message
   therefore pays once exactly as far as its nonce has a single spelling.
   */
  lemma MessageSettlesAgain(chain: Chain, fac: FacilitatorState, payload: PaymentPayload, req: PaymentRequirements, now: int,
                            origin: Option<string>, text: string, later: int, origin': Option<string>)
    requires HandleSettle(chain, fac, payload, req, now, origin).1.Settled? && now <= later
    requires NonceBytes(text) == NonceBytes(payload.authorization.nonce)
    ensures ToTypedMessage(Respelled(payload, text).authorization) == ToTypedMessage(payload.authorization)
    ensures var fac' := HandleSettle(chain, fac, payload, req, now, origin).0;
            HandleSettle(chain, fac', Respelled(payload, text), req, later, origin').1.Settled?
            <==> later < ValidBefore(payload) && text != payload.authorization.nonce && text !in fac.nonces
  {
    hide ToUint256, BigIntOf, IsDecimal, SameAddress, NonceBytes;
    PayableOnAnInterval(chain, payload, req, now, later);
    PayableChargesRequirement(chain, payload, req, now);
  }

  /**
   So a settled payment whose nonce has a letter can be presented again with that letter in the
   other case: while the window is open, and that text is new to the ledger, the same signed
   message moves the same value a second time.
   */
  lemma RespelledPaysTwice(chain: Chain, fac: FacilitatorState, payload: PaymentPayload, req: PaymentRequirements, now: int,
                           origin: Option<string>, i: nat, later: int, origin': Option<string>)
    requires HandleSettle(chain, fac, payload, req, now, origin).1.Settled? && now <= later < ValidBefore(payload)
    requires "0x" <= payload.authorization.nonce && 2 <= i < |payload.authorization.nonce| && IsLetter(payload.authorization.nonce[i])
    requires payload.authorization.nonce[i := OtherCase(payload.authorization.nonce[i])] !in fac.nonces
    ensures var again := Respelled(payload, payload.authorization.nonce[i := OtherCase(payload.authorization.nonce[i])]);
            var (fac'', reply) := HandleSettle(chain, HandleSettle(chain, fac, payload, req, now, origin).0, again, req, later, origin');
            && reply.Settled?
            && ToTypedMessage(again.authorization) == ToTypedMessage(payload.authorization)
            && fac''.transfers == fac.transfers + [TransferOf(chain, payload, origin), TransferOf(chain, again, origin')]
            && TransferOf(chain, again, origin').value == TransferOf(chain, payload, origin).value
  {
    hide ToUint256, BigIntOf, IsDecimal, SameAddress, VerifyPayment, ToTypedMessage, NonceBytes, ValidBefore;
    var nonce := payload.authorization.nonce;
    PayableNonce(chain, payload, req, now);
    OtherSpelling(nonce, i);
    MessageSettlesAgain(chain, fac, payload, req, now, origin, nonce[i := OtherCase(nonce[i])], later, origin');
  }

  lemma PayableNonce(chain: Chain, payload: PaymentPayload, req: PaymentRequirements, now: int)
    requires Payable(chain, payload, req, now)
    ensures NonceBytes(payload.authorization.nonce).Some?
  {
    hide ToUint256, BigIntOf, IsDecimal, SameAddress, NonceBytes;
  }

  class NonceLedger {
    var consumed: set<string>

    constructor ()
      ensures consumed == {}
    {
      consumed := {};
    }

    method Claim(nonce: string) returns (unused: bool)
      modifies this
      ensures unused <==> nonce !in old(consumed)
      ensures consumed == old(consumed) + {nonce}
    {
      if nonce in consumed {
        return false;
      }
      consumed := consumed + {nonce};
      unused := true;
    }
  }

  /** The routing and replay logic, holding the nonce ledger and the armed fault. */
  class Handler {
    const chain: Chain
    const nonces: NonceLedger
    var mode: FaultMode
    var transfers: seq<Transfer>

    constructor (chain: Chain)
      ensures this.chain == chain && fresh(nonces)
      ensures State() == FacilitatorState({}, [], Healthy) && NoncesMatchTransfers(State())
    {
      this.chain := chain;
      nonces := new NonceLedger();
      mode := Healthy;
      transfers := [];
    }

    function State(): FacilitatorState
      reads this, nonces
    {
      FacilitatorState(nonces.consumed, transfers, mode)
    }

    method Arm(requested: FaultMode)
      modifies this`mode
      ensures State() == old(State()).(mode := requested)
    {
      mode := requested;
    }

    method Verify(payload: PaymentPayload, req: PaymentRequirements, now: int) returns (reply: VerifyReply)
      ensures reply == HandleVerify(chain, mode, payload, req, now)
      ensures reply.Verified? <==> !mode.Unavailable? && !mode.VerifyRejects? && PaysExactly(chain, payload, req, now)
      ensures reply.Verified? ==> reply.payer == payload.authorization.sender
      ensures reply.VerifyUnavailable?
              <==> mode.Unavailable?
                   || (!mode.VerifyRejects? && (!IsDecimal(req.maxAmountRequired) || BreaksLookup(payload, req)))
    {
      hide VerifyPayment, IsDecimal, PaysExactly, BreaksLookup;
      VerifiesExactly(chain, payload, req, now);
      if mode != Healthy {
        if mode.Unavailable? {
          return VerifyUnavailable;
        }
        if mode.VerifyRejects? {
          return NotVerified;
        }
      }
      if !IsDecimal(req.maxAmountRequired) {
        return VerifyUnavailable;
      }
      var outcome := VerifyPayment(chain, payload, req, now);
      reply := match outcome
               case Valid(payer) => Verified(payer)
               case Invalid(_) => NotVerified
               case Broken => VerifyUnavailable;
    }

    method Settle(payload: PaymentPayload, req: PaymentRequirements, now: int, origin: Option<string>) returns (reply: SettleReply)
      modifies this`transfers, nonces
      ensures (State(), reply) == HandleSettle(chain, old(State()), payload, req, now, origin)
      ensures old(NoncesMatchTransfers(State())) ==> NoncesMatchTransfers(State())
      ensures reply.Settled? <==> !mode.Unavailable? && !mode.SettleFails? && PaysExactly(chain, payload, req, now)
                                  && payload.authorization.nonce !in old(nonces.consumed)
      ensures reply.Settled? ==>
                var a := payload.authorization;
                && reply == Settled(chain.transactionHash(a), payload.network, a.sender)
                && nonces.consumed == old(nonces.consumed) + {a.nonce}
                && transfers == old(transfers) + [Transfer(origin, a.sender, a.to, a.value, a.nonce, chain.transactionHash(a))]
      ensures !reply.Settled? ==> nonces.consumed == old(nonces.consumed) && transfers == old(transfers)
      ensures reply.SettleUnavailable?
              <==> mode.Unavailable?
                   || (!mode.SettleFails? && (!IsDecimal(req.maxAmountRequired) || BreaksLookup(payload, req)))
    {
      hide NoncesMatchTransfers, VerifyPayment, IsDecimal, PaysExactly, BreaksLookup;
      VerifiesExactly(chain, payload, req, now);
      ghost var before := State();
      if NoncesMatchTransfers(before) {
        SettleOncePerNonce(chain, before, payload, req, now, origin);
      }
      if mode != Healthy {
        if mode.Unavailable? {
          return SettleUnavailable;
        }
        if mode.SettleFails? {
          return NotSettled;
        }
      }
      if !IsDecimal(req.maxAmountRequired) {
        return SettleUnavailable;
      }
      var outcome := VerifyPayment(chain, payload, req, now);
      if outcome.Broken? {
        return SettleUnavailable;
      }
      if outcome.Invalid? {
        return NotSettled;
      }
      var authorization := payload.authorization;
      var unused := nonces.Claim(authorization.nonce);
      if !unused {
        assert nonces.consumed == before.nonces;
        return NotSettled;
      }
      var transaction := chain.transactionHash(authorization);
      transfers := transfers
        + [Transfer(origin, outcome.payer, authorization.to, authorization.value, authorization.nonce, transaction)];
      reply := Settled(transaction, payload.network, outcome.payer);
    }
  }
}
