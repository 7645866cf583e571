/** The simulator's attacks on an assertion, against the gateway and against the settlement service. */
module Fraud {
  import opened Prelude
  import opened Assertion
  import opened Json
  import Protocol
  import Store

  datatype Mode = TamperedPublisher | TamperedCommission | Expired | ForgedSignature | UnknownPublisher

  const ATTACKER_PUBLISHER := "pub_999999"
  const INFLATED_COMMISSION_BPS := 9999
  const FORGED_BODY: string := Repeated('A', 86) + "=="

  function Repeated(c: char, n: nat): string {
    if n == 0 then "" else [c] + Repeated(c, n - 1)
  }

  /** `hoursAgo` gives the two timestamps the expired mode writes, issue first. */
  function ApplyFraud(a: Assertion, mode: Mode, hoursAgo: (string, string)): Assertion {
    match mode
    case TamperedPublisher => a.(fields := a.fields.(publisherId := ATTACKER_PUBLISHER))
    case TamperedCommission => a.(fields := a.fields.(commissionBps := INFLATED_COMMISSION_BPS))
    case Expired => a.(fields := a.fields.(issuedAt := hoursAgo.0, expiresAt := hoursAgo.1))
    case ForgedSignature => a.(signature := SIGNATURE_PREFIX + FORGED_BODY)
    case UnknownPublisher => a.(fields := a.fields.(publisherId := ATTACKER_PUBLISHER, commissionBps := INFLATED_COMMISSION_BPS))
  }

  /** The reason the simulator expects each attack to be refused with. */
  function ExpectedRejection(mode: Mode): string {
    match mode
    case Expired => "assertion_expired"
    case _ => "assertion_signature_invalid"
  }

  /** What the gateway answers a purchase with before any forwarding; `None` when it forwards. */
  function EdgeReason(r: Runtime, minted: set<Fields>, a: Assertion, nowMillis: int): Option<string> {
    var v := VerifyTs(r, minted, a, nowMillis);
    if v.Accepted? then None else Some(FailureReason(v))
  }

  /** What the settlement service answers an assertion posted straight to it with. */
  function SettlementReason(r: Runtime, minted: set<Fields>, a: Assertion, now: int): Option<string> {
    match Verify(r, minted, a, now)
    case Accepted => None
    case MalformedSignature => Some("assertion_signature_invalid")
    case InvalidSignature => Some("assertion_signature_invalid")
    case UnreadableExpiry => Some("internal_error")
    case Expired => Some("assertion_expired")
  }

  /** That is the reason the settlement service prices a request with such an assertion by, whatever row it finds. */
  lemma ReasonIsTheServices(w: Protocol.World, minted: set<Fields>, req: Protocol.Request, now: int, row: Option<Store.Listing>)
    ensures var reason := SettlementReason(w.runtime, minted, req.assertion, now);
            var failure := Protocol.PriceFailure(w, minted, req, now, row, false);
            reason.Some? ==> failure.Some? && Protocol.StatusFor(failure.value).1 == reason.value
  {
    hide Verify;
  }

  /** What the attack writes differs, as `lang` reads it, from what was there. */
  predicate Alters(lang: Lang, r: Runtime, a: Assertion, mode: Mode, hoursAgo: (string, string)) {
    match mode
    case TamperedPublisher => a.fields.publisherId != ATTACKER_PUBLISHER
    case TamperedCommission => a.fields.commissionBps != INFLATED_COMMISSION_BPS
    case Expired => (a.fields.issuedAt, a.fields.expiresAt) != hoursAgo
    case ForgedSignature => r.decode64(lang, FORGED_BODY) != Some(r.sign(CanonicalBytes(Go, a.fields)))
    case UnknownPublisher => a.fields.publisherId != ATTACKER_PUBLISHER || a.fields.commissionBps != INFLATED_COMMISSION_BPS
  }

  /** No two minted assertions came out with the same signature. */
  ghost predicate DistinctSignatures(r: Runtime, minted: set<Fields>) {
    forall f, g :: f in minted && g in minted && r.sign(CanonicalBytes(Go, f)) == r.sign(CanonicalBytes(Go, g)) ==> f == g
  }

  /** The assertion as the search service handed it out. */
  predicate AsMinted(r: Runtime, minted: set<Fields>, a: Assertion) {
    a.fields in minted && a.signature == SIGNATURE_PREFIX + r.encode64(r.sign(CanonicalBytes(Go, a.fields)))
  }

  lemma TextAfterPrefix(text: string)
    ensures SIGNATURE_PREFIX <= SIGNATURE_PREFIX + text
    ensures (SIGNATURE_PREFIX + text)[|SIGNATURE_PREFIX|..] == text
  {
  }

  lemma AsMintedIsGenuine(r: Runtime, minted: set<Fields>, a: Assertion)
    requires Sound(r) && AsMinted(r, minted, a)
    ensures Genuine(r, minted, a)
    ensures r.decode64(TypeScript, a.signature[|SIGNATURE_PREFIX|..]) == Some(r.sign(CanonicalBytes(Go, a.fields)))
  {
    TextAfterPrefix(r.encode64(r.sign(CanonicalBytes(Go, a.fields))));
  }

  lemma OtherFieldsRefused(r: Runtime, minted: set<Fields>, a: Assertion, f: Fields)
    requires DistinctSignatures(r, minted) && a.fields in minted && f != a.fields
    ensures !SignatureValid(r, minted, CanonicalBytes(Go, f), r.sign(CanonicalBytes(Go, a.fields)))
  {
    SignatureCoversFields(r, minted, f, r.sign(CanonicalBytes(Go, a.fields)));
  }

  /**
   Posted straight to the settlement service, an attack on a genuine assertion is refused over
   its signature exactly when it changes anything; one that rewrites the timestamps is never
   judged by its expiry.
   */
  lemma FraudIsRefused(r: Runtime, minted: set<Fields>, a: Assertion, mode: Mode, hoursAgo: (string, string), now: int)
    requires DistinctSignatures(r, minted) && Genuine(r, minted, a)
    ensures var forged := ApplyFraud(a, mode, hoursAgo);
            var v := Verify(r, minted, forged, now);
            if Alters(Go, r, a, mode, hoursAgo)
            then v == if mode.ForgedSignature? && r.decode64(Go, FORGED_BODY).None? then MalformedSignature else InvalidSignature
            else v == Verify(r, minted, a, now)
  {
    hide CanonicalBytes, SignatureValid, Repeated;
    var forged := ApplyFraud(a, mode, hoursAgo);
    TextAfterPrefix(FORGED_BODY);
    if forged.fields != a.fields {
      OtherFieldsRefused(r, minted, a, forged.fields);
    } else if mode.ForgedSignature? && r.decode64(Go, FORGED_BODY).Some? {
      SignatureCoversFields(r, minted, a.fields, r.decode64(Go, FORGED_BODY).value);
    }
  }

  /** JavaScript reads the forged signature as 64 bytes. */
  predicate ForgedTextReads(r: Runtime) {
    var raw := r.decode64(TypeScript, FORGED_BODY);
    raw.Some? && |raw.value| == SIGNATURE_BYTES
  }

  /**
   At the gateway, where the simulator sends it, an attack on a minted assertion is refused over
   its signature exactly when it changes anything.
   */
  lemma FraudStopsAtTheEdge(r: Runtime, minted: set<Fields>, a: Assertion, mode: Mode, hoursAgo: (string, string), nowMillis: int)
    requires Sound(r) && DistinctSignatures(r, minted) && OnlyMinted(r, minted) && AsMinted(r, minted, a)
    ensures var reason := EdgeReason(r, minted, ApplyFraud(a, mode, hoursAgo), nowMillis);
            if Alters(TypeScript, r, a, mode, hoursAgo)
            then reason == Some(if mode.ForgedSignature? && !ForgedTextReads(r) then "malformed_signature" else "invalid_signature")
            else reason == EdgeReason(r, minted, a, nowMillis)
  {
    hide CanonicalBytes, SignatureValid, Repeated;
    var forged := ApplyFraud(a, mode, hoursAgo);
    AsMintedIsGenuine(r, minted, a);
    TextAfterPrefix(FORGED_BODY);
    var raw := if mode.ForgedSignature? then r.decode64(TypeScript, FORGED_BODY) else Some(r.sign(CanonicalBytes(Go, a.fields)));
    if raw.Some? && ExactRate(forged.fields) {
      TsSignature(r, minted, forged.fields, raw.value);
      if forged.fields != a.fields {
        OtherFieldsRefused(r, minted, a, forged.fields);
      } else {
        SignatureCoversFields(r, minted, a.fields, raw.value);
      }
    }
  }

  lemma Vocabularies(v: Verdict, mode: Mode)
    requires !v.Accepted?
    ensures FailureReason(v) != ExpectedRejection(mode)
  {
    var reason, expected := FailureReason(v), ExpectedRejection(mode);
    assert reason[0] in {'m', 'i', 'e'};
    assert expected[0] == 'a';
  }

  /**
   The runner compares what the gateway answered with the reason it expects of each attack. They
   never agree, whatever was sent: the gateway's vocabulary is not the settlement service's.
   */
  lemma ExpectationNeverMet(r: Runtime, minted: set<Fields>, a: Assertion, nowMillis: int, mode: Mode)
    ensures EdgeReason(r, minted, a, nowMillis) != Some(ExpectedRejection(mode))
  {
    hide VerifyTs;
    var v := VerifyTs(r, minted, a, nowMillis);
    if !v.Accepted? {
      Vocabularies(v, mode);
    }
  }

  /**
   Posted straight to the settlement service, an attack would be refused for the expected reason
   in every mode but the expired one, whose altered timestamps already break the signature.
   */
  lemma ExpectationMetBySettlement(r: Runtime, minted: set<Fields>, a: Assertion, mode: Mode, hoursAgo: (string, string), now: int)
    requires DistinctSignatures(r, minted) && Genuine(r, minted, a) && Alters(Go, r, a, mode, hoursAgo)
    ensures var reason := SettlementReason(r, minted, ApplyFraud(a, mode, hoursAgo), now);
            reason.Some? && (reason == Some(ExpectedRejection(mode)) <==> !mode.Expired?)
  {
    FraudIsRefused(r, minted, a, mode, hoursAgo, now);
  }
}
