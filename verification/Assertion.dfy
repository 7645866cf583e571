/** Signed attribution assertions: canonical bytes, minting, and the two verifiers. */
module Assertion {
  import opened Prelude
  import opened Decimal
  import opened Utf8
  import opened Json
  import Doubles

  const NANOS_PER_SECOND: int := 1_000_000_000
  const NANOS_PER_MILLI: int := 1_000_000
  const TTL: int := 3600 * NANOS_PER_SECOND
  const MAX_BPS: int := 10_000
  const SIGNATURE_PREFIX: string := "ed25519:"
  const SIGNATURE_BYTES: int := 64

  /** Seconds from 1970-01-01T00:00:00Z to the last one RFC 3339's four-digit years can name. */
  const CALENDAR_END: int := 253_402_300_799

  /** The seven signed fields. */
  datatype Fields = Fields(
    assertionId: string,
    publisherId: string,
    productId: string,
    searchRequestId: string,
    issuedAt: string,
    expiresAt: string,
    commissionBps: int)

  datatype Assertion = Assertion(fields: Fields, signature: string)

  datatype Verdict = Accepted | MalformedSignature | InvalidSignature | UnreadableExpiry | Expired

  /**
   What both languages delegate: the private key's signing function, base64, and RFC 3339
   timestamps, in seconds when written, nanoseconds when Go reads and milliseconds when
   JavaScript does.
   */
  datatype Runtime = Runtime(
    sign: seq<byte> -> seq<byte>,
    encode64: seq<byte> -> string,
    decode64: (Lang, string) -> Option<seq<byte>>,
    formatTime: int -> string,
    parseTimeGo: string -> Option<int>,
    parseTimeTs: string -> Option<int>)

  /** Encoding and decoding are inverse, and signatures have their fixed length. */
  ghost predicate Sound(r: Runtime) {
    && (forall p :: |r.sign(p)| == SIGNATURE_BYTES)
    && (forall lang, b :: r.decode64(lang, r.encode64(b)) == Some(b))
    && (forall t: int :: 0 <= t <= CALENDAR_END ==>
          && r.parseTimeGo(r.formatTime(t)) == Some(t * NANOS_PER_SECOND)
          && r.parseTimeTs(r.formatTime(t)) == Some(t * 1000))
  }

  // Canonical form

  /** One string member followed by `rest`, which starts after its closing quote. */
  function Member(lang: Lang, key: string, value: string, rest: string): string {
    "\"" + key + "\":\"" + (Escape(lang, value) + "\"" + rest)
  }

  function Canonical(lang: Lang, f: Fields): string {
    "{" + Member(lang, "assertion_id", f.assertionId, "," + From2(lang, f))
  }

  function From2(lang: Lang, f: Fields): string {
    Member(lang, "publisher_id", f.publisherId, "," + From3(lang, f))
  }

  function From3(lang: Lang, f: Fields): string {
    Member(lang, "product_id", f.productId, "," + From4(lang, f))
  }

  function From4(lang: Lang, f: Fields): string {
    Member(lang, "search_request_id", f.searchRequestId, "," + From5(lang, f))
  }

  function From5(lang: Lang, f: Fields): string {
    Member(lang, "issued_at", f.issuedAt, "," + From6(lang, f))
  }

  function From6(lang: Lang, f: Fields): string {
    Member(lang, "expires_at", f.expiresAt, "," + From7(f))
  }

  function From7(f: Fields): string {
    "\"commission_bps\":" + PrintInt(f.commissionBps) + "}"
  }

  // The same text as one object

  function Commas(members: seq<string>): string {
    if members == [] then "" else if |members| == 1 then members[0] else members[0] + "," + Commas(members[1..])
  }

  function Quoted(lang: Lang, key: string, value: string): string {
    "\"" + key + "\":\"" + Escape(lang, value) + "\""
  }

  /** The seven members, in the order they are signed. */
  function Members(lang: Lang, f: Fields): seq<string> {
    [Quoted(lang, "assertion_id", f.assertionId), Quoted(lang, "publisher_id", f.publisherId),
     Quoted(lang, "product_id", f.productId), Quoted(lang, "search_request_id", f.searchRequestId),
     Quoted(lang, "issued_at", f.issuedAt), Quoted(lang, "expires_at", f.expiresAt),
     "\"commission_bps\":" + PrintInt(f.commissionBps)]
  }

  lemma MemberFirst(lang: Lang, key: string, value: string, rest: seq<string>)
    requires rest != []
    ensures Member(lang, key, value, "," + Commas(rest) + "}") == Commas([Quoted(lang, key, value)] + rest) + "}"
  {
    hide Escape;
    var all := [Quoted(lang, key, value)] + rest;
    assert all[1..] == rest;
    assert Commas(all) == Quoted(lang, key, value) + "," + Commas(rest);
    var e, c := Escape(lang, value), Commas(rest);
    assert e + "\"" + ("," + c + "}") == e + "\"" + "," + c + "}";
  }

  /** What is signed is one JSON object of the seven members, in order and without white space. */
  lemma CanonicalIsObject(lang: Lang, f: Fields)
    ensures Canonical(lang, f) == "{" + Commas(Members(lang, f)) + "}"
  {
    var m := Members(lang, f);
    hide Commas, Quoted, Member, PrintInt;
    assert From7(f) == Commas(m[6..]) + "}" by { LastMember(f, m[6]); }
    assert "," + Commas(m[6..]) + "}" == "," + From7(f);
    MemberFirst(lang, "expires_at", f.expiresAt, m[6..]);
    assert m[5..] == [m[5]] + m[6..];
    assert "," + Commas(m[5..]) + "}" == "," + From6(lang, f);
    MemberFirst(lang, "issued_at", f.issuedAt, m[5..]);
    assert m[4..] == [m[4]] + m[5..];
    assert "," + Commas(m[4..]) + "}" == "," + From5(lang, f);
    MemberFirst(lang, "search_request_id", f.searchRequestId, m[4..]);
    assert m[3..] == [m[3]] + m[4..];
    assert "," + Commas(m[3..]) + "}" == "," + From4(lang, f);
    MemberFirst(lang, "product_id", f.productId, m[3..]);
    assert m[2..] == [m[2]] + m[3..];
    assert "," + Commas(m[2..]) + "}" == "," + From3(lang, f);
    MemberFirst(lang, "publisher_id", f.publisherId, m[2..]);
    assert m[1..] == [m[1]] + m[2..];
    assert "," + Commas(m[1..]) + "}" == "," + From2(lang, f);
    MemberFirst(lang, "assertion_id", f.assertionId, m[1..]);
    assert m == [m[0]] + m[1..];
    assert "{" + (Commas(m) + "}") == "{" + Commas(m) + "}";
  }

  lemma LastMember(f: Fields, member: string)
    requires member == "\"commission_bps\":" + PrintInt(f.commissionBps)
    ensures From7(f) == Commas([member]) + "}"
  {
    hide PrintInt;
  }

  /** The rate is one a JavaScript number holds exactly. */
  predicate ExactRate(f: Fields) {
    -Doubles.MANTISSA <= f.commissionBps <= Doubles.MANTISSA
  }

  /** What a language signs; JavaScript has no such fields beyond the integers its numbers hold. */
  function CanonicalBytes(lang: Lang, f: Fields): seq<byte>
    requires lang.Go? || ExactRate(f)
  {
    Encode(Canonical(lang, f))
  }

  lemma MemberReadsBack(lang: Lang, lang': Lang, key: string, v: string, v': string, rest: string, rest': string)
    requires Member(lang, key, v, rest) == Member(lang', key, v', rest')
    ensures v == v' && rest == rest'
  {
    var head := "\"" + key + "\":\"";
    assert Member(lang, key, v, rest)[|head|..] == Escape(lang, v) + "\"" + rest;
    assert Member(lang', key, v', rest')[|head|..] == Escape(lang', v') + "\"" + rest';
    StringRoundTrip(lang, v, rest);
    StringRoundTrip(lang', v', rest');
  }

  lemma SameTail(c: string, x: string, y: string)
    requires c + x == c + y
    ensures x == y
  {
    assert (c + x)[|c|..] == x && (c + y)[|c|..] == y;
  }

  /** No two assertions share canonical text, whichever language wrote each of them. */
  lemma CanonicalInjective(lang: Lang, f: Fields, lang': Lang, g: Fields)
    requires Canonical(lang, f) == Canonical(lang', g)
    ensures f == g
  {
    SameTail("{", Member(lang, "assertion_id", f.assertionId, "," + From2(lang, f)),
             Member(lang', "assertion_id", g.assertionId, "," + From2(lang', g)));
    MemberReadsBack(lang, lang', "assertion_id", f.assertionId, g.assertionId, "," + From2(lang, f), "," + From2(lang', g));
    SameTail(",", From2(lang, f), From2(lang', g));
    MemberReadsBack(lang, lang', "publisher_id", f.publisherId, g.publisherId, "," + From3(lang, f), "," + From3(lang', g));
    SameTail(",", From3(lang, f), From3(lang', g));
    MemberReadsBack(lang, lang', "product_id", f.productId, g.productId, "," + From4(lang, f), "," + From4(lang', g));
    SameTail(",", From4(lang, f), From4(lang', g));
    MemberReadsBack(lang, lang', "search_request_id", f.searchRequestId, g.searchRequestId,
                    "," + From5(lang, f), "," + From5(lang', g));
    SameTail(",", From5(lang, f), From5(lang', g));
    MemberReadsBack(lang, lang', "issued_at", f.issuedAt, g.issuedAt, "," + From6(lang, f), "," + From6(lang', g));
    SameTail(",", From6(lang, f), From6(lang', g));
    MemberReadsBack(lang, lang', "expires_at", f.expiresAt, g.expiresAt, "," + From7(f), "," + From7(g));
    SameTail(",", From7(f), From7(g));
    BpsReadsBack(f, g);
  }

  lemma BpsReadsBack(f: Fields, g: Fields)
    requires From7(f) == From7(g)
    ensures f.commissionBps == g.commissionBps
  {
    var key := "\"commission_bps\":";
    var p, q := PrintInt(f.commissionBps), PrintInt(g.commissionBps);
    assert From7(f)[|key|..|From7(f)| - 1] == p;
    assert From7(g)[|key|..|From7(g)| - 1] == q;
    PrintIntInjective(f.commissionBps, g.commissionBps);
  }

  /** Equal canonical bytes mean equal fields, all seven of them. */
  lemma CanonicalBytesInjective(lang: Lang, f: Fields, lang': Lang, g: Fields)
    requires (lang.Go? || ExactRate(f)) && (lang'.Go? || ExactRate(g))
    ensures CanonicalBytes(lang, f) == CanonicalBytes(lang', g) ==> f == g
  {
    if CanonicalBytes(lang, f) == CanonicalBytes(lang', g) {
      EncodeInjective(Canonical(lang, f), Canonical(lang', g));
      CanonicalInjective(lang, f, lang', g);
    }
  }

  predicate SeparatorFree(f: Fields) {
    && !HasSeparator(f.assertionId) && !HasSeparator(f.publisherId) && !HasSeparator(f.productId)
    && !HasSeparator(f.searchRequestId) && !HasSeparator(f.issuedAt) && !HasSeparator(f.expiresAt)
  }

  lemma MemberSeparators(lang: Lang, key: string, v: string, rest: string)
    requires !HasSeparator(key)
    ensures lang.Go? ==> (HasSeparator(Member(lang, key, v, rest)) <==> HasSeparator(rest))
    ensures lang.TypeScript? ==> (HasSeparator(Member(lang, key, v, rest)) <==> HasSeparator(v) || HasSeparator(rest))
    ensures !HasSeparator(v) ==> Member(Go, key, v, rest) == Member(TypeScript, key, v, rest)
  {
    SeparatorsInOutput(v);
    AppendSeparators("\"", key);
    AppendSeparators("\"" + key, "\":\"");
    AppendSeparators("\"" + key + "\":\"", Escape(lang, v) + "\"" + rest);
    AppendSeparators(Escape(lang, v) + "\"", rest);
    AppendSeparators(Escape(lang, v), "\"");
  }

  predicate Spoils(lang: Lang, v: string) {
    lang.TypeScript? && HasSeparator(v)
  }

  /** A member preceded by its punctuation carries a separator when its value spoils it or its tail does. */
  lemma LinkSeparators(lang: Lang, lead: string, key: string, v: string, rest: string)
    requires !HasSeparator(lead) && !HasSeparator(key)
    ensures HasSeparator(lead + Member(lang, key, v, rest)) <==> Spoils(lang, v) || HasSeparator(rest)
  {
    MemberSeparators(lang, key, v, rest);
    AppendSeparators(lead, Member(lang, key, v, rest));
  }

  /** Go's canonical text never holds a separator; TypeScript's does exactly when a field does. */
  lemma CanonicalSeparators(lang: Lang, f: Fields)
    ensures HasSeparator(Canonical(lang, f)) <==> lang.TypeScript? && !SeparatorFree(f)
  {
    var tail := "," + From2(lang, f);
    assert HasSeparator(tail) <==> lang.TypeScript? && !SeparatorFree(f.(assertionId := "")) by {
      TailSeparators(lang, f);
      MiddleSeparators(lang, f);
    }
    LinkSeparators(lang, "{", "assertion_id", f.assertionId, tail);
  }

  lemma MiddleSeparators(lang: Lang, f: Fields)
    ensures HasSeparator("," + From2(lang, f))
            <==> Spoils(lang, f.publisherId) || Spoils(lang, f.productId) || HasSeparator("," + From4(lang, f))
  {
    LinkSeparators(lang, ",", "product_id", f.productId, "," + From4(lang, f));
    LinkSeparators(lang, ",", "publisher_id", f.publisherId, "," + From3(lang, f));
  }

  lemma TailSeparators(lang: Lang, f: Fields)
    ensures HasSeparator("," + From4(lang, f))
            <==> Spoils(lang, f.searchRequestId) || Spoils(lang, f.issuedAt) || Spoils(lang, f.expiresAt)
  {
    RateSeparators(f);
    LinkSeparators(lang, ",", "expires_at", f.expiresAt, "," + From7(f));
    LinkSeparators(lang, ",", "issued_at", f.issuedAt, "," + From6(lang, f));
    LinkSeparators(lang, ",", "search_request_id", f.searchRequestId, "," + From5(lang, f));
  }

  lemma RateSeparators(f: Fields)
    ensures !HasSeparator("," + From7(f))
  {
    var key := "\"commission_bps\":";
    PrintIntPlain(f.commissionBps);
    AppendSeparators(key, PrintInt(f.commissionBps));
    AppendSeparators(key + PrintInt(f.commissionBps), "}");
    AppendSeparators(",", From7(f));
  }

  lemma PrintIntPlain(i: int)
    ensures !HasSeparator(PrintInt(i))
  {
    DigitsParse(if i < 0 then -i else i);
    if i < 0 {
      AppendSeparators("-", Digits(-i));
    }
  }

  lemma CanonicalAgreeWithout(f: Fields)
    requires SeparatorFree(f)
    ensures Canonical(Go, f) == Canonical(TypeScript, f)
  {
    SeparatorsInOutput(f.assertionId);
    SeparatorsInOutput(f.publisherId);
    SeparatorsInOutput(f.productId);
    SeparatorsInOutput(f.searchRequestId);
    SeparatorsInOutput(f.issuedAt);
    SeparatorsInOutput(f.expiresAt);
  }

  /** The two signers agree byte for byte exactly on assertions without U+2028 and U+2029. */
  lemma CanonicalTwins(f: Fields)
    requires ExactRate(f)
    ensures CanonicalBytes(Go, f) == CanonicalBytes(TypeScript, f) <==> SeparatorFree(f)
  {
    if SeparatorFree(f) {
      CanonicalAgreeWithout(f);
    } else if CanonicalBytes(Go, f) == CanonicalBytes(TypeScript, f) {
      EncodeInjective(Canonical(Go, f), Canonical(TypeScript, f));
      CanonicalSeparators(Go, f);
      CanonicalSeparators(TypeScript, f);
    }
  }

  // Minting

  function Seconds(nanos: int): int {
    nanos / NANOS_PER_SECOND
  }

  /** `Signer.Mint`; `None` is ErrCommissionRange. `issuedAt` counts nanoseconds. */
  function Mint(r: Runtime, assertionId: string, publisherId: string, productId: string, searchRequestId: string,
                commissionBps: int, issuedAt: int): Option<Assertion>
  {
    if commissionBps < 0 || commissionBps > MAX_BPS then None
    else
      var f := Fields(assertionId, publisherId, productId, searchRequestId,
                      r.formatTime(Seconds(issuedAt)), r.formatTime(Seconds(issuedAt + TTL)), commissionBps);
      Some(Assertion(f, SIGNATURE_PREFIX + r.encode64(r.sign(CanonicalBytes(Go, f)))))
  }

  /** Minted with an expiry at second `t`: all that ever gets signed. */
  predicate MintedAt(r: Runtime, f: Fields, t: int) {
    0 <= t <= CALENDAR_END && f.expiresAt == r.formatTime(t) && 0 <= f.commissionBps <= MAX_BPS
  }

  ghost predicate OnlyMinted(r: Runtime, minted: set<Fields>) {
    forall f :: f in minted ==> exists t :: MintedAt(r, f, t)
  }

  // Verification

  /** The reason `verifyAssertion` throws with, which the gateway and the merchant answer with. */
  function FailureReason(v: Verdict): string
    requires !v.Accepted?
  {
    match v
    case MalformedSignature => "malformed_signature"
    case InvalidSignature => "invalid_signature"
    case UnreadableExpiry => "malformed_signature"
    case Expired => "expired"
  }

  /**
   An ideal signature: accepted on exactly the bytes the private key signed, with exactly the
   signature it produced.
   */
  predicate SignatureValid(r: Runtime, minted: set<Fields>, payload: seq<byte>, raw: seq<byte>) {
    exists f :: f in minted && payload == CanonicalBytes(Go, f) && raw == r.sign(payload)
  }

  /** `Verifier.Verify`, `now` in nanoseconds. */
  function Verify(r: Runtime, minted: set<Fields>, a: Assertion, now: int): Verdict {
    if !(SIGNATURE_PREFIX <= a.signature) then MalformedSignature
    else
      var raw := r.decode64(Go, a.signature[|SIGNATURE_PREFIX|..]);
      if raw.None? then MalformedSignature
      else if !SignatureValid(r, minted, CanonicalBytes(Go, a.fields), raw.value) then InvalidSignature
      else
        var expires := r.parseTimeGo(a.fields.expiresAt);
        if expires.None? then UnreadableExpiry
        else if now < expires.value then Accepted else Expired
  }

  /**
   `verifyAssertion`, `now` in milliseconds. A rate beyond what a number holds exactly is read,
   and printed, as some other number of at least that size, which nobody ever signed.
   */
  function VerifyTs(r: Runtime, minted: set<Fields>, a: Assertion, now: int): Verdict {
    if !(SIGNATURE_PREFIX <= a.signature) then MalformedSignature
    else
      var raw := r.decode64(TypeScript, a.signature[|SIGNATURE_PREFIX|..]);
      if raw.None? then MalformedSignature
      else if |raw.value| != SIGNATURE_BYTES then MalformedSignature
      else if !ExactRate(a.fields) || !SignatureValid(r, minted, CanonicalBytes(TypeScript, a.fields), raw.value) then InvalidSignature
      else
        var expires := r.parseTimeTs(a.fields.expiresAt);
        if expires.None? then MalformedSignature
        else if now >= expires.value then Expired else Accepted
  }

  /** The signature is the one minted for these very fields. */
  predicate Genuine(r: Runtime, minted: set<Fields>, a: Assertion) {
    && a.fields in minted
    && SIGNATURE_PREFIX <= a.signature
    && r.decode64(Go, a.signature[|SIGNATURE_PREFIX|..]) == Some(r.sign(CanonicalBytes(Go, a.fields)))
  }

  /** Signed text is only ever accepted for the very fields it was signed for. */
  lemma SignatureCoversFields(r: Runtime, minted: set<Fields>, f: Fields, raw: seq<byte>)
    ensures SignatureValid(r, minted, CanonicalBytes(Go, f), raw) <==> f in minted && raw == r.sign(CanonicalBytes(Go, f))
  {
    if SignatureValid(r, minted, CanonicalBytes(Go, f), raw) {
      var g :| g in minted && CanonicalBytes(Go, f) == CanonicalBytes(Go, g);
      CanonicalBytesInjective(Go, f, Go, g);
    }
  }

  /**
   Verify accepts an assertion exactly when its seven fields are those of a minted one, its
   signature decodes to the one minted with them, and the minted expiry is still ahead.
   */
  lemma VerifyAcceptsExactlyMinted(r: Runtime, minted: set<Fields>, a: Assertion, now: int)
    requires Sound(r) && OnlyMinted(r, minted)
    ensures Verify(r, minted, a, now) == Accepted <==>
              && Genuine(r, minted, a)
              && exists t :: MintedAt(r, a.fields, t) && now < t * NANOS_PER_SECOND
    ensures Verify(r, minted, a, now) != UnreadableExpiry
  {
    hide CanonicalBytes, SignatureValid;
    if SIGNATURE_PREFIX <= a.signature {
      var raw := r.decode64(Go, a.signature[|SIGNATURE_PREFIX|..]);
      if raw.Some? {
        SignatureCoversFields(r, minted, a.fields, raw.value);
        if a.fields in minted {
          var t :| MintedAt(r, a.fields, t);
        }
      }
    }
  }

  /** The signature is the expected prefix and base64 as `lang` reads it. */
  predicate Readable(r: Runtime, lang: Lang, a: Assertion) {
    SIGNATURE_PREFIX <= a.signature && r.decode64(lang, a.signature[|SIGNATURE_PREFIX|..]).Some?
  }

  /** What JavaScript takes for a signature: 64 bytes. */
  predicate ReadableTs(r: Runtime, a: Assertion) {
    Readable(r, TypeScript, a) && |r.decode64(TypeScript, a.signature[|SIGNATURE_PREFIX|..]).value| == 64
  }

  /** The fields are minted ones JavaScript spells as Go does, and the signature reads as the one made for them. */
  predicate GenuineTs(r: Runtime, minted: set<Fields>, a: Assertion) {
    && a.fields in minted && SeparatorFree(a.fields) && SIGNATURE_PREFIX <= a.signature
    && r.decode64(TypeScript, a.signature[|SIGNATURE_PREFIX|..]) == Some(r.sign(CanonicalBytes(Go, a.fields)))
  }

  /** Each of Go's verdicts, exactly: the encoding is judged before the signature, and that before the expiry. */
  lemma VerdictsExactly(r: Runtime, minted: set<Fields>, a: Assertion, now: int)
    requires Sound(r) && OnlyMinted(r, minted)
    ensures var v := Verify(r, minted, a, now);
            && (v == MalformedSignature <==> !Readable(r, Go, a))
            && (v == InvalidSignature <==> Readable(r, Go, a) && !Genuine(r, minted, a))
            && (v == Expired <==> Genuine(r, minted, a) && exists t :: MintedAt(r, a.fields, t) && t * 1_000_000_000 <= now)
  {
    hide CanonicalBytes, SignatureValid;
    if Readable(r, Go, a) {
      SignatureCoversFields(r, minted, a.fields, r.decode64(Go, a.signature[|SIGNATURE_PREFIX|..]).value);
      if a.fields in minted {
        var t :| MintedAt(r, a.fields, t);
      }
    }
  }

  /** And each of TypeScript's. */
  lemma VerdictsExactlyTs(r: Runtime, minted: set<Fields>, a: Assertion, nowMillis: int)
    requires Sound(r) && OnlyMinted(r, minted)
    ensures var v := VerifyTs(r, minted, a, nowMillis);
            && (v == MalformedSignature <==> !ReadableTs(r, a))
            && (v == InvalidSignature <==> ReadableTs(r, a) && !GenuineTs(r, minted, a))
            && (v == Expired <==> GenuineTs(r, minted, a) && exists t :: MintedAt(r, a.fields, t) && t * 1000 <= nowMillis)
            && (v == Accepted <==> GenuineTs(r, minted, a) && exists t :: MintedAt(r, a.fields, t) && nowMillis < t * 1000)
  {
    hide CanonicalBytes, SignatureValid, SeparatorFree;
    if ReadableTs(r, a) {
      var raw := r.decode64(TypeScript, a.signature[|SIGNATURE_PREFIX|..]).value;
      SignatureCoversFields(r, minted, a.fields, raw);
      if ExactRate(a.fields) {
        TsSignature(r, minted, a.fields, raw);
      }
      if a.fields in minted {
        var t :| MintedAt(r, a.fields, t);
      }
    }
  }

  /** Both languages read this timestamp as the whole second `instant` falls in; it counts nanoseconds. */
  predicate Reads(r: Runtime, time: string, instant: int) {
    && r.parseTimeGo(time).Some? && r.parseTimeTs(time).Some?
    && r.parseTimeGo(time).value <= instant < r.parseTimeGo(time).value + 1_000_000_000
    && r.parseTimeGo(time).value % 1_000_000_000 == 0
    && r.parseTimeGo(time).value == r.parseTimeTs(time).value * 1_000_000
  }

  lemma TimeReads(r: Runtime, instant: int)
    requires Sound(r) && 0 <= instant && Seconds(instant) <= CALENDAR_END
    ensures Reads(r, r.formatTime(Seconds(instant)), instant)
  {
    var t := Seconds(instant);
    assert r.parseTimeGo(r.formatTime(t)) == Some(t * NANOS_PER_SECOND);
    assert t * 1_000_000_000 % 1_000_000_000 == 0;
  }

  /**
   What `Mint` signs: each argument in its own field, the instant of issue and the one an hour
   later to the second, and the signature made for exactly these fields.
   */
  lemma MintedFields(r: Runtime, assertionId: string, publisherId: string, productId: string, searchRequestId: string,
                     commissionBps: int, issuedAt: int)
    ensures var a := Mint(r, assertionId, publisherId, productId, searchRequestId, commissionBps, issuedAt);
            && (a.Some? <==> 0 <= commissionBps <= 10_000)
            && (a.Some? ==>
                  var f := a.value.fields;
                  && f.assertionId == assertionId && f.publisherId == publisherId && f.productId == productId
                  && f.searchRequestId == searchRequestId && f.commissionBps == commissionBps
                  && (Sound(r) ==> Genuine(r, {f}, a.value))
                  && (Sound(r) && 0 <= issuedAt && Seconds(issuedAt + TTL) <= CALENDAR_END ==>
                        Reads(r, f.issuedAt, issuedAt) && Reads(r, f.expiresAt, issuedAt + 3_600_000_000_000)))
  {
    hide CanonicalBytes, Reads;
    var a := Mint(r, assertionId, publisherId, productId, searchRequestId, commissionBps, issuedAt);
    if a.Some? && Sound(r) {
      var sig := r.encode64(r.sign(CanonicalBytes(Go, a.value.fields)));
      assert a.value.signature[|SIGNATURE_PREFIX|..] == sig;
      if 0 <= issuedAt && Seconds(issuedAt + TTL) <= CALENDAR_END {
        TimeReads(r, issuedAt);
        TimeReads(r, issuedAt + TTL);
      }
    }
  }

  /** A freshly minted assertion verifies up to its whole-second expiry, and not from then on. */
  lemma MintThenVerify(r: Runtime, minted: set<Fields>, assertionId: string, publisherId: string, productId: string,
                       searchRequestId: string, commissionBps: int, issuedAt: int, now: int)
    requires Sound(r) && OnlyMinted(r, minted)
    requires 0 <= issuedAt && Seconds(issuedAt + TTL) <= CALENDAR_END
    ensures var a := Mint(r, assertionId, publisherId, productId, searchRequestId, commissionBps, issuedAt);
            && (a.Some? <==> 0 <= commissionBps <= MAX_BPS)
            && (a.Some? ==>
                  && OnlyMinted(r, minted + {a.value.fields})
                  && Verify(r, minted + {a.value.fields}, a.value, now)
                     == if now < Seconds(issuedAt + TTL) * NANOS_PER_SECOND then Accepted else Expired)
    ensures issuedAt + TTL - NANOS_PER_SECOND < Seconds(issuedAt + TTL) * NANOS_PER_SECOND <= issuedAt + TTL
  {
    hide CanonicalBytes, SignatureValid;
    var a := Mint(r, assertionId, publisherId, productId, searchRequestId, commissionBps, issuedAt);
    if a.Some? {
      var f := a.value.fields;
      var t := Seconds(issuedAt + TTL);
      assert MintedAt(r, f, t);
      var sig := r.encode64(r.sign(CanonicalBytes(Go, f)));
      assert a.value.signature[|SIGNATURE_PREFIX|..] == sig;
      SignatureCoversFields(r, minted + {f}, f, r.sign(CanonicalBytes(Go, f)));
    }
  }

  /**
   The nanosecond verifier and the millisecond verifier return the same verdict on every
   assertion without U+2028 and U+2029 whose signature text both languages decode alike to
   64 bytes or to nothing. On a genuine assertion that freedom from separators is also
   necessary: with one, only Go accepts it.
   */
  lemma TwinVerdicts(r: Runtime, minted: set<Fields>, a: Assertion, nowNanos: int)
    requires Sound(r) && OnlyMinted(r, minted)
    requires SIGNATURE_PREFIX <= a.signature ==>
               var text := a.signature[|SIGNATURE_PREFIX|..];
               && r.decode64(Go, text) == r.decode64(TypeScript, text)
               && (r.decode64(Go, text).Some? ==> |r.decode64(Go, text).value| == SIGNATURE_BYTES)
    ensures var same := Verify(r, minted, a, nowNanos) == VerifyTs(r, minted, a, nowNanos / NANOS_PER_MILLI);
            && (SeparatorFree(a.fields) ==> same)
            && (Genuine(r, minted, a) ==> (same <==> SeparatorFree(a.fields)))
  {
    hide CanonicalBytes, SignatureValid, SeparatorFree;
    if SIGNATURE_PREFIX <= a.signature {
      var raw := r.decode64(Go, a.signature[|SIGNATURE_PREFIX|..]);
      if raw.Some? {
        SignatureCoversFields(r, minted, a.fields, raw.value);
        if ExactRate(a.fields) {
          TsSignature(r, minted, a.fields, raw.value);
        }
        if a.fields in minted {
          var t :| MintedAt(r, a.fields, t);
          MilliExpiry(nowNanos, t);
        }
      }
    }
  }

  /** TypeScript recomputes the signed bytes exactly when the fields hold no separator. */
  lemma TsSignature(r: Runtime, minted: set<Fields>, f: Fields, raw: seq<byte>)
    requires ExactRate(f)
    ensures SignatureValid(r, minted, CanonicalBytes(TypeScript, f), raw)
            <==> SeparatorFree(f) && SignatureValid(r, minted, CanonicalBytes(Go, f), raw)
  {
    CanonicalTwins(f);
    if SignatureValid(r, minted, CanonicalBytes(TypeScript, f), raw) {
      var g :| g in minted && CanonicalBytes(TypeScript, f) == CanonicalBytes(Go, g);
      CanonicalBytesInjective(TypeScript, f, Go, g);
    }
  }

  /** Expiry falls on a whole second, so truncating the clock to milliseconds changes nothing. */
  lemma MilliExpiry(nowNanos: int, t: int)
    ensures nowNanos / NANOS_PER_MILLI < t * 1000 <==> nowNanos < t * NANOS_PER_SECOND
  {
    assert t * NANOS_PER_SECOND == t * 1000 * NANOS_PER_MILLI;
  }
}
