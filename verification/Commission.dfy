/** Splitting a gross amount into platform and publisher shares, in Go and in TypeScript. */
module Commission {
  import opened Prelude
  import opened Doubles

  const DIVISOR: int := 10_000
  const PLATFORM_SHARE_BPS: int := 3000
  const INT64_MAX: int := 0x7FFF_FFFF_FFFF_FFFF
  const SAFE_GROSS: int := INT64_MAX / DIVISOR

  datatype Split = Split(commission: int, platformFee: int, publisher: int)

  /** Two's complement reduction to 64 bits. */
  function Wrap64(x: int): int {
    (x + INT64_MAX + 1) % (2 * (INT64_MAX + 1)) - (INT64_MAX + 1)
  }

  /** Go's integer division truncates toward zero. */
  function TruncDiv(a: int, b: int): int
    requires b > 0
  {
    if a >= 0 then a / b else -(-a / b)
  }

  /** The quotient is the nearest integer toward zero, and negating the dividend negates it. */
  lemma TruncDivTruncates(a: int, b: int)
    requires b > 0
    ensures a >= 0 ==> TruncDiv(a, b) * b <= a < TruncDiv(a, b) * b + b
    ensures TruncDiv(-a, b) == -TruncDiv(a, b)
  {
  }

  /** `CalculateCommission` on int64 values. */
  function CalculateCommission(gross: int, bps: int): Split {
    SplitProduct(Wrap64(gross * bps))
  }

  function SplitProduct(product: int): Split {
    var commission := TruncDiv(product, DIVISOR);
    var fee := TruncDiv(Wrap64(commission * PLATFORM_SHARE_BPS), DIVISOR);
    Split(commission, fee, Wrap64(commission - fee))
  }

  /** `calculateCommission` on binary64 values, every operation rounded. */
  function CalculateCommissionTs(rnd: real -> real, gross: nat, bps: nat): Split {
    SplitProductTs(rnd, gross * bps)
  }

  function SplitProductTs(rnd: real -> real, product: int): Split {
    var commission := RoundedQuotient(rnd, product);
    var fee := RoundedQuotient(rnd, commission * PLATFORM_SHARE_BPS);
    Split(commission, fee, rnd((commission - fee) as real).Floor)
  }

  /** `Math.floor(x / 10_000)` where the product `x` was itself rounded. */
  function RoundedQuotient(rnd: real -> real, x: int): int {
    rnd(rnd(x as real) / 10000.0).Floor
  }

  /** The split without a word size. */
  function ExactSplit(gross: nat, bps: nat): Split {
    var commission := gross * bps / DIVISOR;
    var fee := commission * PLATFORM_SHARE_BPS / DIVISOR;
    Split(commission, fee, commission - fee)
  }

  lemma ProductBound(gross: nat, bps: nat, limit: nat)
    requires gross <= limit && bps <= DIVISOR
    ensures 0 <= gross * bps <= limit * DIVISOR
    ensures 0 <= gross * bps / DIVISOR <= gross
  {
    assert gross * bps <= gross * DIVISOR by { MulLeft(gross, bps, DIVISOR); }
  }

  lemma MulLeft(a: nat, b: nat, c: nat)
    requires b <= c
    ensures a * b <= a * c
  {
  }

  lemma WrapIdentity(x: int)
    ensures Wrap64(x) == x <==> -INT64_MAX - 1 <= x <= INT64_MAX
  {
  }

  /** 64 bits are enough for every rate up to 10,000 exactly when gross stays within SAFE_GROSS. */
  lemma WordSizeSuffices(gross: nat)
    ensures gross <= SAFE_GROSS <==> forall bps: nat :: bps <= DIVISOR ==> Wrap64(gross * bps) == gross * bps
  {
    if gross <= SAFE_GROSS {
      forall bps: nat | bps <= DIVISOR
        ensures Wrap64(gross * bps) == gross * bps
      {
        ProductBound(gross, bps, SAFE_GROSS);
        WrapIdentity(gross * bps);
      }
    } else {
      WrapIdentity(gross * DIVISOR);
      assert Wrap64(gross * DIVISOR) != gross * DIVISOR;
    }
  }

  lemma SplitWithinRange(product: nat)
    requires product <= INT64_MAX
    ensures var s := SplitProduct(product);
            && s.commission == product / DIVISOR
            && s.platformFee == s.commission * PLATFORM_SHARE_BPS / DIVISOR
            && s.publisher == s.commission - s.platformFee
            && 0 <= s.platformFee <= s.publisher
  {
    var commission := product / DIVISOR;
    WrapIdentity(commission * PLATFORM_SHARE_BPS);
    WrapIdentity(commission - commission * PLATFORM_SHARE_BPS / DIVISOR);
  }

  lemma NoOverflow(gross: nat, bps: nat)
    requires gross * bps <= INT64_MAX
    ensures CalculateCommission(gross, bps) == ExactSplit(gross, bps)
  {
    WrapIdentity(gross * bps);
    SplitWithinRange(gross * bps);
  }

  /**
   The split the ledger relies on: the parts add up, nobody is paid more than the commission
   nor the commission more than gross, and the publisher keeps the remainder, the ceiling of 70%.
   */
  lemma SplitShape(gross: nat, bps: nat)
    requires gross <= SAFE_GROSS && bps <= DIVISOR
    ensures var s := CalculateCommission(gross, bps);
            && 0 <= s.platformFee <= s.publisher <= s.commission <= gross
            && s.platformFee + s.publisher == s.commission
            && 10 * (s.publisher - 1) < 7 * s.commission <= 10 * s.publisher
  {
    ProductBound(gross, bps, SAFE_GROSS);
    NoOverflow(gross, bps);
  }

  /** Whatever the inputs, even when the product wraps, the two shares add up to the commission. */
  lemma SplitAddsUp(gross: int, bps: int)
    ensures var s := CalculateCommission(gross, bps); s.platformFee + s.publisher == s.commission
  {
    var s := CalculateCommission(gross, bps);
    var w := Wrap64(gross * bps);
    assert -INT64_MAX - 1 <= w <= INT64_MAX;
    assert -SAFE_GROSS <= s.commission <= SAFE_GROSS;
    WrapIdentity(s.commission * PLATFORM_SHARE_BPS);
    WrapIdentity(s.commission - s.platformFee);
  }

  lemma CommissionMonotone(gross: nat, gross': nat, bps: nat, bps': nat)
    requires gross <= gross' <= SAFE_GROSS && bps <= bps' <= DIVISOR
    ensures CalculateCommission(gross, bps).commission <= CalculateCommission(gross', bps').commission
    ensures CalculateCommission(gross, bps).publisher <= CalculateCommission(gross', bps').publisher
  {
    ProductBound(gross, bps, SAFE_GROSS);
    ProductBound(gross', bps', SAFE_GROSS);
    NoOverflow(gross, bps);
    NoOverflow(gross', bps');
    MulLeft(gross, bps, bps');
    MulLeft(bps', gross, gross');
    var c, c' := gross * bps / DIVISOR, gross' * bps' / DIVISOR;
    assert gross * bps <= gross' * bps';
    assert c <= c';
  }

  function GrossWeight(): int -> int {
    g => g
  }

  function CommissionWeight(bps: int): int -> int {
    g => CalculateCommission(g, bps).commission
  }

  /**
   Truncating settlement by settlement loses less than one cent each: the commissions of n
   settlements at one rate fall short of the commission on their total by fewer than n cents.
   */
  lemma TruncationShortfall(grosses: seq<int>, bps: nat)
    requires grosses != [] && bps <= DIVISOR
    requires forall i :: 0 <= i < |grosses| ==> grosses[i] >= 0
    requires SumOf(grosses, GrossWeight()) <= SAFE_GROSS
    ensures var total := SumOf(grosses, GrossWeight());
            var paid := SumOf(grosses, CommissionWeight(bps));
            0 <= CalculateCommission(total, bps).commission - paid < |grosses|
  {
    RemainderBound(grosses, bps);
    CommissionTerm(SumOf(grosses, GrossWeight()), bps);
  }

  /** One more truncated product loses at most DIVISOR - 1 more. */
  lemma OneMoreRemainder(paid: int, exact: int, n: nat, product: nat)
    requires DIVISOR * paid <= exact <= DIVISOR * paid + (DIVISOR - 1) * n
    ensures DIVISOR * (paid + product / DIVISOR) <= exact + product
    ensures exact + product <= DIVISOR * (paid + product / DIVISOR) + (DIVISOR - 1) * (n + 1)
  {
    assert product == DIVISOR * (product / DIVISOR) + product % DIVISOR;
  }

  lemma CommissionTerm(gross: nat, bps: nat)
    requires gross <= SAFE_GROSS && bps <= DIVISOR
    ensures gross * bps >= 0 && CalculateCommission(gross, bps).commission == gross * bps / DIVISOR
  {
    ProductBound(gross, bps, SAFE_GROSS);
    NoOverflow(gross, bps);
  }

  lemma {:induction false} RemainderBound(grosses: seq<int>, bps: nat)
    requires bps <= DIVISOR
    requires forall i :: 0 <= i < |grosses| ==> grosses[i] >= 0
    requires SumOf(grosses, GrossWeight()) <= SAFE_GROSS
    ensures var exact := SumOf(grosses, GrossWeight()) * bps;
            var paid := SumOf(grosses, CommissionWeight(bps));
            && SumOf(grosses, GrossWeight()) >= 0
            && DIVISOR * paid <= exact <= DIVISOR * paid + (DIVISOR - 1) * |grosses|
  {
    if grosses != [] {
      var front, last := grosses[..|grosses| - 1], grosses[|grosses| - 1];
      SumNonNegative(front);
      RemainderBound(front, bps);
      CommissionTerm(last, bps);
      Distribute(SumOf(front, GrossWeight()), last, bps);
      OneMoreRemainder(SumOf(front, CommissionWeight(bps)), SumOf(front, GrossWeight()) * bps, |front|, last * bps);
    }
  }

  lemma Distribute(a: int, b: int, c: int)
    ensures (a + b) * c == a * c + b * c
  {
  }

  lemma {:induction false} SumNonNegative(grosses: seq<int>)
    requires forall i :: 0 <= i < |grosses| ==> grosses[i] >= 0
    ensures SumOf(grosses, GrossWeight()) >= 0
  {
    if grosses != [] {
      SumNonNegative(grosses[..|grosses| - 1]);
    }
  }

  /**
   The double-precision twin returns the same split as the integer one for every product
   below 2^53, however the rounding breaks ties.
   */
  lemma TwinSplits(rnd: real -> real, gross: nat, bps: nat)
    requires RoundsToNearest(rnd) && gross * bps < MANTISSA
    ensures CalculateCommissionTs(rnd, gross, bps) == CalculateCommission(gross, bps)
  {
    WrapIdentity(gross * bps);
    TwinProduct(rnd, gross * bps);
  }

  lemma RoundedDivision(rnd: real -> real, x: nat)
    requires RoundsToNearest(rnd) && x < MANTISSA
    ensures RoundedQuotient(rnd, x) == x / DIVISOR
  {
    ExactRounding(rnd, x);
    FloorOfRoundedQuotient(rnd, x);
  }

  lemma TwinProduct(rnd: real -> real, product: nat)
    requires RoundsToNearest(rnd) && product < MANTISSA
    ensures SplitProductTs(rnd, product) == SplitProduct(product)
  {
    SplitWithinRange(product);
    var s := SplitProduct(product);
    RoundedDivision(rnd, product);
    assert 0 <= s.commission * PLATFORM_SHARE_BPS < MANTISSA;
    RoundedDivision(rnd, s.commission * PLATFORM_SHARE_BPS);
    assert 0 <= s.publisher <= MANTISSA;
    ExactRounding(rnd, s.publisher);
  }
}
