/** The bounded window of search latencies, and the percentiles read from it. */
module Latency {
  import opened Prelude
  import opened Doubles
  import opened Commission

  /** Between once and twice the capacity: slot 0 still has its first value. */
  function Early(obs: seq<int>, c: nat): seq<int>
    requires 0 < c <= |obs| < 2 * c
  {
    [obs[0]] + obs[c..] + obs[|obs| - c + 1..c]
  }

  /** Later: the newest observation is in slot `r`, the oldest just behind it. */
  function Wrapped(obs: seq<int>, c: nat, r: nat): seq<int>
    requires r < c <= |obs|
  {
    obs[|obs| - r - 1..] + obs[|obs| - c..|obs| - r - 1]
  }

  /**
   What the window holds after observing all of `obs` with room for `c`. A slot is overwritten
   at `total % c`, where `total` already counts the new observation, so slot 0 is the last to
   lose its first value.
   */
  function Window(obs: seq<int>, c: nat): seq<int>
    requires c > 0
  {
    if |obs| <= c then obs
    else if |obs| < 2 * c then Early(obs, c)
    else
      Remainder(|obs|, c);
      Wrapped(obs, c, |obs| % c)
  }

  lemma Remainder(n: nat, c: nat)
    requires c > 0
    ensures 0 <= n % c < c && n == n / c * c + n % c
  {
  }

  lemma {:induction false} AtLeast(q: nat, p: nat, c: nat)
    requires q > p
    ensures q * c >= p * c + c
    decreases q
  {
    if q > p + 1 {
      AtLeast(q - 1, p, c);
    }
    assert q * c == (q - 1) * c + c;
  }

  lemma RemainderIs(n: nat, c: nat, q: nat, r: nat)
    requires r < c && n == q * c + r
    ensures n % c == r
  {
    Remainder(n, c);
    if n / c > q {
      AtLeast(n / c, q, c);
    } else if n / c < q {
      AtLeast(q, n / c, c);
    }
  }

  lemma NextRemainder(n: nat, c: nat)
    requires c > 0
    ensures (n + 1) % c == if n % c == c - 1 then 0 else n % c + 1
  {
    Remainder(n, c);
    var q, r := n / c, n % c;
    if r == c - 1 {
      assert (q + 1) * c == q * c + c;
      RemainderIs(n + 1, c, q + 1, 0);
    } else {
      RemainderIs(n + 1, c, q, r + 1);
    }
  }

  lemma EarlyNext(obs: seq<int>, d: int, c: nat)
    requires 0 < c <= |obs| && |obs| + 1 < 2 * c
    ensures Early(obs + [d], c) == Early(obs, c)[|obs| + 1 - c := d]
  {
  }

  /** The last slot to be overwritten for the first time is slot 0. */
  lemma EarlyToWrapped(obs: seq<int>, d: int, c: nat)
    requires 0 < c && |obs| + 1 == 2 * c
    ensures Wrapped(obs + [d], c, 0) == Early(obs, c)[0 := d]
  {
  }

  lemma WrappedNext(obs: seq<int>, d: int, c: nat, r: nat)
    requires r < c <= |obs|
    ensures var next := if r == c - 1 then 0 else r + 1;
            Wrapped(obs + [d], c, next) == Wrapped(obs, c, r)[next := d]
  {
  }

  lemma EarlySize(obs: seq<int>, c: nat)
    requires c > 0
    ensures c <= |obs| < 2 * c ==> |Early(obs, c)| == c
    ensures forall r: nat :: r < c <= |obs| ==> |Wrapped(obs, c, r)| == c
  {
  }

  lemma JustFull(obs: seq<int>, c: nat)
    requires 0 < c == |obs|
    ensures Early(obs, c) == obs
  {
  }

  /** Overwriting one slot is what one more observation does to a full window. */
  lemma WindowNext(obs: seq<int>, d: int, c: nat)
    requires c > 0 && |obs| >= c
    ensures 0 <= (|obs| + 1) % c < |Window(obs, c)| == c
    ensures Window(obs + [d], c) == Window(obs, c)[(|obs| + 1) % c := d]
  {
    hide Early, Wrapped;
    var n := |obs|;
    Remainder(n, c);
    Remainder(n + 1, c);
    EarlySize(obs, c);
    if n == c {
      JustFull(obs, c);
    }
    if n + 1 < 2 * c {
      RemainderIs(n + 1, c, 1, n + 1 - c);
      EarlyNext(obs, d, c);
    } else if n < 2 * c {
      RemainderIs(n + 1, c, 2, 0);
      EarlyToWrapped(obs, d, c);
    } else {
      NextRemainder(n, c);
      WrappedNext(obs, d, c, n % c);
    }
  }

  lemma EarlyHolds(obs: seq<int>, c: nat)
    requires 0 < c <= |obs| < 2 * c
    ensures multiset(Early(obs, c)) == multiset{obs[0]} + multiset(obs[|obs| - c + 1..])
  {
    var older, newer := obs[|obs| - c + 1..c], obs[c..];
    assert obs[|obs| - c + 1..] == older + newer;
  }

  lemma WrappedHolds(obs: seq<int>, c: nat, r: nat)
    requires r < c <= |obs|
    ensures multiset(Wrapped(obs, c, r)) == multiset(obs[|obs| - c..])
  {
    var older, newer := obs[|obs| - c..|obs| - r - 1], obs[|obs| - r - 1..];
    assert obs[|obs| - c..] == older + newer;
  }

  /**
   As a multiset the window is everything up to the capacity, then the first observation beside
   the last c - 1, and from twice the capacity on exactly the last c.
   */
  lemma WindowHolds(obs: seq<int>, c: nat)
    requires c > 0
    ensures |obs| <= c ==> multiset(Window(obs, c)) == multiset(obs)
    ensures c < |obs| < 2 * c ==> multiset(Window(obs, c)) == multiset{obs[0]} + multiset(obs[|obs| - c + 1..])
    ensures 2 * c <= |obs| ==> multiset(Window(obs, c)) == multiset(obs[|obs| - c..])
  {
    hide Early, Wrapped;
    if c < |obs| < 2 * c {
      EarlyHolds(obs, c);
    } else if 2 * c <= |obs| {
      Remainder(|obs|, c);
      WrappedHolds(obs, c, |obs| % c);
    }
  }

  // Percentiles

  predicate Ascending(xs: seq<int>) {
    forall i, j :: 0 <= i < j < |xs| ==> xs[i] <= xs[j]
  }

  function Insert(xs: seq<int>, x: int): seq<int> {
    if xs == [] || xs[|xs| - 1] <= x then xs + [x] else Insert(xs[..|xs| - 1], x) + [xs[|xs| - 1]]
  }

  function Sort(xs: seq<int>): seq<int> {
    if xs == [] then [] else Insert(Sort(xs[..|xs| - 1]), xs[|xs| - 1])
  }

  lemma {:induction false} InsertKeeps(xs: seq<int>, x: int)
    ensures multiset(Insert(xs, x)) == multiset(xs) + multiset{x}
  {
    if xs != [] && xs[|xs| - 1] > x {
      InsertKeeps(xs[..|xs| - 1], x);
      assert xs == xs[..|xs| - 1] + [xs[|xs| - 1]];
    }
  }

  lemma {:induction false} InsertAscends(xs: seq<int>, x: int)
    requires Ascending(xs)
    ensures Ascending(Insert(xs, x))
  {
    if xs != [] && xs[|xs| - 1] > x {
      var front, last := xs[..|xs| - 1], xs[|xs| - 1];
      InsertAscends(front, x);
      InsertKeeps(front, x);
      var inserted := Insert(front, x);
      assert Insert(xs, x) == inserted + [last];
      forall i | 0 <= i < |inserted|
        ensures inserted[i] <= last
      {
        assert inserted[i] in multiset(inserted);
        assert inserted[i] in multiset(front) || inserted[i] == x;
      }
    }
  }

  lemma {:induction false} SortSorts(xs: seq<int>)
    ensures Ascending(Sort(xs)) && multiset(Sort(xs)) == multiset(xs)
  {
    if xs != [] {
      SortSorts(xs[..|xs| - 1]);
      InsertAscends(Sort(xs[..|xs| - 1]), xs[|xs| - 1]);
      InsertKeeps(Sort(xs[..|xs| - 1]), xs[|xs| - 1]);
      assert xs == xs[..|xs| - 1] + [xs[|xs| - 1]];
    }
  }

  lemma SortSize(xs: seq<int>)
    ensures |Sort(xs)| == |xs|
  {
    SortSorts(xs);
    hide Sort, Ascending;
    assert |multiset(Sort(xs))| == |Sort(xs)| && |multiset(xs)| == |xs|;
  }

  function Product(k: nat, p: real): real {
    k as real * p
  }

  /** The index before clamping: a double product, truncated. */
  function RawIndex(rnd: real -> real, n: nat, p: real): int
    requires n > 0
  {
    rnd(Product(n - 1, p)).Floor
  }

  function Percentile(rnd: real -> real, sorted: seq<int>, p: real): int {
    if |sorted| == 0 then 0
    else
      var raw := RawIndex(rnd, |sorted|, p);
      var idx := if raw < 0 then 0 else raw;
      sorted[if idx >= |sorted| then |sorted| - 1 else idx]
  }

  lemma Products(k: nat, p: real, q: real)
    requires 0.0 <= p <= q <= 1.0
    ensures 0.0 <= Product(k, p) <= Product(k, q) <= k as real
  {
    var r := k as real;
    assert r * p >= 0.0;
    assert r * (q - p) >= 0.0;
    assert r * (1.0 - q) >= 0.0;
  }

  lemma FloorsInRange(rnd: real -> real, last: nat, x: real, y: real)
    requires RoundsToNearest(rnd) && last < MANTISSA && 0.0 <= x <= y <= last as real
    ensures 0 <= rnd(x).Floor <= rnd(y).Floor <= last
  {
    hide RoundsToNearest;
    ExactRounding(rnd, 0);
    ExactRounding(rnd, last);
    RoundingMonotone(rnd, 0.0, x);
    RoundingMonotone(rnd, x, y);
    RoundingMonotone(rnd, y, last as real);
    FloorMonotone(0.0, rnd(x));
    FloorMonotone(rnd(x), rnd(y));
    FloorMonotone(rnd(y), last as real);
  }

  /** The clamps never act, and a larger share never reads an earlier sample. */
  lemma IndexMonotone(rnd: real -> real, n: nat, p: real, q: real)
    requires RoundsToNearest(rnd) && 0 < n <= MANTISSA && 0.0 <= p <= q <= 1.0
    ensures 0 <= RawIndex(rnd, n, p) <= RawIndex(rnd, n, q) <= n - 1
  {
    hide RoundsToNearest, Product;
    Products(n - 1, p, q);
    FloorsInRange(rnd, n - 1, Product(n - 1, p), Product(n - 1, q));
  }

  lemma FloorMonotone(x: real, y: real)
    requires x <= y
    ensures x.Floor <= y.Floor
  {
  }

  /** The three shares as doubles keep their order and stay between 0 and 1. */
  lemma SharesOrdered(rnd: real -> real)
    requires RoundsToNearest(rnd)
    ensures 0.0 <= rnd(0.5) <= rnd(0.95) <= rnd(0.99) <= 1.0
  {
    hide RoundsToNearest;
    ExactRounding(rnd, 0);
    ExactRounding(rnd, 1);
    RoundingMonotone(rnd, 0.0, 0.5);
    RoundingMonotone(rnd, 0.5, 0.95);
    RoundingMonotone(rnd, 0.95, 0.99);
    RoundingMonotone(rnd, 0.99, 1.0);
  }

  lemma HalvesAreDoubles(k: nat)
    requires k < MANTISSA
    ensures IsDouble(Product(k, 0.5))
  {
    assert Pow2(1) == 2;
    assert Scaled(Product(k, 0.5), k, 1);
  }

  lemma FloorOfHalf(k: nat)
    ensures Product(k, 0.5).Floor == k / 2
  {
    assert k == k / 2 * 2 + k % 2;
    assert k as real * 0.5 == (k / 2) as real + (k % 2) as real * 0.5;
  }

  lemma PercentileMonotone(rnd: real -> real, sorted: seq<int>, p: real, q: real)
    requires RoundsToNearest(rnd) && 0 < |sorted| <= MANTISSA && 0.0 <= p <= q <= 1.0 && Ascending(sorted)
    ensures Percentile(rnd, sorted, p) <= Percentile(rnd, sorted, q) <= sorted[|sorted| - 1]
  {
    hide RoundsToNearest, RawIndex;
    IndexMonotone(rnd, |sorted|, p, q);
  }

  /** One half is exact in binary, so p50 reads the lower median. */
  lemma MedianIndex(rnd: real -> real, n: nat)
    requires RoundsToNearest(rnd) && 0 < n <= MANTISSA
    ensures RawIndex(rnd, n, rnd(0.5)) == (n - 1) / 2
  {
    HalvesAreDoubles(1);
    HalvesAreDoubles(n - 1);
    Products(n - 1, 0.5, 0.5);
    assert Product(1, 0.5) == 0.5;
    hide RoundsToNearest, IsDouble, Product;
    Representable(rnd, 0.5);
    Representable(rnd, Product(n - 1, 0.5));
    FloorOfHalf(n - 1);
  }

  // The other two shares are not exact in binary

  /** The window sizes for which the products stay fine enough. */
  const MOST_SAMPLES: nat := 0x100_0000_0000 // 2^40

  ghost predicate NearShare(p: real, percent: nat) {
    Abs(p - percent as real / 100.0) * MANTISSA as real <= 0.4
  }

  lemma UnitsAreDoubles(k: nat)
    requires k < MANTISSA
    ensures IsDouble(k as real / MANTISSA as real)
  {
    FiftyThree();
    assert Scaled(k as real / MANTISSA as real, k, 53);
  }

  lemma FiftyThree()
    ensures Pow2(53) == MANTISSA
  {
    assert Pow2(6) == 64 && Pow2(7) == 128;
    hide Pow2;
    Pow2Sum(6, 7);
    Pow2Sum(7, 7);
    Pow2Sum(13, 13);
    Pow2Sum(13, 14);
    Pow2Sum(26, 27);
  }

  lemma NoCloser(rnd: real -> real, x: real, d: real)
    requires RoundsToNearest(rnd) && 0.0 <= x <= MANTISSA as real && IsDouble(d)
    ensures Abs(rnd(x) - x) <= Abs(d - x)
  {
    hide IsDouble;
    assert Nearest(x, rnd(x));
  }

  /** `k` counts units of 2^-53: the double nearest to the share is at most 0.4 units away from it. */
  lemma ShareAsDouble(rnd: real -> real, percent: nat, k: nat)
    requires RoundsToNearest(rnd) && 0 < percent < 100 && k < MANTISSA
    requires -40 <= 100 * k - percent * MANTISSA <= 40
    ensures NearShare(rnd(percent as real / 100.0), percent)
  {
    hide IsDouble, RoundsToNearest;
    var share, d := percent as real / 100.0, k as real / MANTISSA as real;
    UnitsAreDoubles(k);
    NoCloser(rnd, share, d);
    assert Abs(d - share) * MANTISSA as real <= 0.4;
    AbsMonotone(Abs(rnd(share) - share), Abs(d - share), MANTISSA as real);
  }

  lemma AbsMonotone(x: real, y: real, unit: real)
    requires x <= y && unit > 0.0
    ensures x * unit <= y * unit
  {
    assert (y - x) * unit >= 0.0;
  }

  lemma Times(r: real, b: real)
    requires r >= 0.0 && Abs(b) <= 0.4
    ensures Abs(r * b) <= 0.4 * r
  {
    assert r * (0.4 - b) >= 0.0 && r * (b + 0.4) >= 0.0;
  }

  /** The product is off by at most 0.4 units for each of the `n` samples. */
  lemma ProductNear(n: nat, p: real, percent: nat)
    requires NearShare(p, percent)
    ensures Abs(Product(n, p) - (n * percent) as real / 100.0) * MANTISSA as real <= 0.4 * n as real
  {
    var share, r := percent as real / 100.0, n as real;
    var b := (p - share) * MANTISSA as real;
    Times(r, b);
    assert (n * percent) as real == r * percent as real;
    assert r * (p - share) == Product(n, p) - (n * percent) as real / 100.0;
    assert r * b == r * (p - share) * MANTISSA as real;
  }

  /** Rounding does not carry the product up to the next integer. */
  lemma NotCarried(rnd: real -> real, x: real, i: nat)
    requires RoundsToNearest(rnd) && 0.0 <= x <= i as real + 127.0 / 128.0 && i <= MOST_SAMPLES
    ensures rnd(x).Floor <= i
  {
    var top := i as real + 127.0 / 128.0;
    assert Pow2(7) == 128;
    assert Scaled(top, 128 * i + 127, 7);
    hide RoundsToNearest;
    Representable(rnd, top);
    RoundingMonotone(rnd, x, top);
    FloorMonotone(rnd(x), top);
    assert top.Floor == i;
  }

  /** A product just below an integer it should equal is rounded up to it. */
  lemma RoundedUp(rnd: real -> real, x: real, i: nat, n: nat)
    requires RoundsToNearest(rnd) && 0.0 <= x <= i as real && 0 < i <= MANTISSA
    requires (i as real - x) * MANTISSA as real <= 0.4 * n as real && 5 * i > 4 * n
    ensures rnd(x) >= i as real
  {
    var r, unit := rnd(x), MANTISSA as real;
    IntegerIsDouble(i);
    assert Nearest(x, r);
    assert Abs(r - x) <= Abs(i as real - x);
    hide RoundsToNearest, IsDouble, Nearest;
    if r < i as real {
      assert i as real - r <= 2.0 * (i as real - x);
      AbsMonotone(i as real - r, 2.0 * (i as real - x), unit);
      NearestGap(rnd, x, i);
    }
  }

  lemma NearestGap(rnd: real -> real, x: real, i: nat)
    requires RoundsToNearest(rnd) && 0.0 <= x <= MANTISSA as real && rnd(x) < i as real && i <= MANTISSA
    ensures (i as real - rnd(x)) * MANTISSA as real >= i as real
  {
    assert Nearest(x, rnd(x));
    GapBelow(rnd(x), i);
  }

  /**
   For p95 and p99 the index is exactly the floor of that share of the samples after the first:
   where the share is an integer the product falls short of it, and rounding restores it.
   */
  lemma ShareIndex(rnd: real -> real, n: nat, p: real, percent: nat)
    requires RoundsToNearest(rnd) && 0 < n <= MOST_SAMPLES && 80 < percent < 100
    requires 0.0 <= p <= 1.0 && NearShare(p, percent)
    ensures RawIndex(rnd, n, p) == (n - 1) * percent / 100
  {
    hide RoundsToNearest, NearShare;
    var last, x := n - 1, Product(n - 1, p);
    var i, rest := last * percent / 100, last * percent % 100;
    Products(last, p, p);
    ProductNear(last, p, percent);
    assert last * percent == 100 * i + rest;
    ShareSize(last, percent, i, rest);
    hide Product;
    FloorBounds(x, last, i, rest);
    NotCarried(rnd, x, i);
    ReachesFloor(rnd, x, i, last);
    FloorMonotone(i as real, rnd(x));
  }

  lemma ShareSize(last: nat, percent: nat, i: nat, rest: nat)
    requires last * percent == 100 * i + rest && 80 < percent < 100
    ensures i <= last && (rest == 0 && i > 0 ==> 5 * i > 4 * last)
  {
    assert last * percent <= last * 100;
    assert last * percent >= last * 81;
  }

  lemma ReachesFloor(rnd: real -> real, x: real, i: nat, last: nat)
    requires RoundsToNearest(rnd) && 0.0 <= x && x <= MANTISSA as real && i <= MANTISSA
    requires x < i as real ==> (i as real - x) * MANTISSA as real <= 0.4 * last as real && 5 * i > 4 * last
    ensures rnd(x) >= i as real
  {
    hide RoundsToNearest;
    if x < i as real {
      RoundedUp(rnd, x, i, last);
    } else {
      ExactRounding(rnd, i);
      RoundingMonotone(rnd, i as real, x);
    }
  }

  lemma FloorBounds(x: real, last: nat, i: nat, rest: nat)
    requires last < MOST_SAMPLES && rest < 100
    requires Abs(x - (100 * i + rest) as real / 100.0) * MANTISSA as real <= 0.4 * last as real
    ensures x <= i as real + 127.0 / 128.0
    ensures x < i as real ==> rest == 0 && (i as real - x) * MANTISSA as real <= 0.4 * last as real
  {
    var unit, q := MANTISSA as real, (100 * i + rest) as real / 100.0;
    assert q == i as real + rest as real / 100.0;
    assert Abs(x - q) <= 0.001;
  }

  lemma TailIndices(rnd: real -> real, n: nat)
    requires RoundsToNearest(rnd) && 0 < n <= MOST_SAMPLES
    ensures RawIndex(rnd, n, rnd(0.95)) == (n - 1) * 95 / 100
    ensures RawIndex(rnd, n, rnd(0.99)) == (n - 1) * 99 / 100
  {
    hide RoundsToNearest, RawIndex;
    SharesOrdered(rnd);
    ShareAsDouble(rnd, 95, 8556839292003942);
    ShareAsDouble(rnd, 99, 8917127262193582);
    assert 95 as real / 100.0 == 0.95 && 99 as real / 100.0 == 0.99;
    ShareIndex(rnd, n, rnd(0.95), 95);
    ShareIndex(rnd, n, rnd(0.99), 99);
  }

  /** `Duration.Milliseconds` drops the fraction. */
  function Milliseconds(nanoseconds: int): int {
    TruncDiv(nanoseconds, 1000000)
  }

  /** A duration is reported in whole milliseconds, cut off toward zero. */
  lemma MillisecondsTruncate(nanoseconds: int)
    ensures nanoseconds >= 0 ==>
              Milliseconds(nanoseconds) * 1_000_000 <= nanoseconds < (Milliseconds(nanoseconds) + 1) * 1_000_000
    ensures Milliseconds(-nanoseconds) == -Milliseconds(nanoseconds)
  {
    TruncDivTruncates(nanoseconds, 1_000_000);
  }

  lemma MillisecondsMonotone(x: int, y: int)
    requires x <= y
    ensures Milliseconds(x) <= Milliseconds(y)
  {
  }

  datatype Snapshot = Snapshot(count: int, p50Ms: int, p95Ms: int, p99Ms: int, maxMs: int)

  class LatencyRecorder {
    const capacity: nat
    var samples: seq<int>
    var total: nat
    ghost var observed: seq<int>

    ghost predicate Valid()
      reads this
    {
      0 < capacity <= MOST_SAMPLES && total == |observed| && samples == Window(observed, capacity)
    }

    constructor ()
      ensures Valid() && capacity == 10000 && observed == []
    {
      capacity := 10000;
      samples, total, observed := [], 0, [];
    }

    method Observe(d: int)
      requires Valid()
      modifies this
      ensures Valid() && observed == old(observed) + [d]
    {
      total := total + 1;
      ghost var before := observed;
      observed := observed + [d];
      if |samples| < capacity {
        WindowFilling(before, capacity);
        samples := samples + [d];
        return;
      }
      WindowFull(before, capacity);
      WindowNext(before, d, capacity);
      samples := samples[total % capacity := d];
    }

    /** `snapshot`: percentiles of the window, in order, with its largest sample above them all. */
    method TakeSnapshot(rnd: real -> real) returns (s: Snapshot)
      requires Valid() && RoundsToNearest(rnd)
      ensures observed == [] ==> s == Snapshot(0, 0, 0, 0, 0)
      ensures observed != [] ==> s.count == |observed|
      ensures s.p50Ms <= s.p95Ms <= s.p99Ms <= s.maxMs
      ensures observed != [] ==> var window := Window(observed, capacity);
                                 && IsPercentile(s.p50Ms, window, 50) && IsPercentile(s.p95Ms, window, 95)
                                 && IsPercentile(s.p99Ms, window, 99) && IsLargest(s.maxMs, window)
    {
      hide RoundsToNearest, Window, IsPercentile, IsLargest;
      var sorted := Sort(samples);
      SortSize(samples);
      WindowSize(observed, capacity);
      if |sorted| == 0 {
        return Snapshot(0, 0, 0, 0, 0);
      }
      PercentilesOrdered(rnd, samples);
      s := Snapshot(total,
                    Milliseconds(Percentile(rnd, sorted, rnd(0.5))),
                    Milliseconds(Percentile(rnd, sorted, rnd(0.95))),
                    Milliseconds(Percentile(rnd, sorted, rnd(0.99))),
                    Milliseconds(sorted[|sorted| - 1]));
    }
  }

  /** The sample that share of the way, rounded down, from the least to the largest, in milliseconds. */
  ghost predicate IsPercentile(ms: int, window: seq<int>, percent: nat)
    requires percent <= 100
  {
    && window != [] && |Sort(window)| == |window|
    && ms == Milliseconds(Sort(window)[PercentileIndex(|window|, percent)])
  }

  function PercentileIndex(n: nat, percent: nat): (i: nat)
    requires n > 0 && percent <= 100
    ensures i < n
  {
    ShareWithin(n - 1, percent);
    (n - 1) * percent / 100
  }

  lemma ShareWithin(last: nat, percent: nat)
    requires percent <= 100
    ensures last * percent / 100 <= last
  {
    var product := last * percent;
    assert product <= last * 100 by { assert last * (100 - percent) >= 0; }
  }

  ghost predicate IsLargest(ms: int, window: seq<int>) {
    && (forall d :: d in window ==> Milliseconds(d) <= ms)
    && (exists d :: d in window && Milliseconds(d) == ms)
  }

  lemma PercentilesOrdered(rnd: real -> real, window: seq<int>)
    requires RoundsToNearest(rnd) && 0 < |window| <= MOST_SAMPLES && |Sort(window)| == |window|
    ensures var sorted := Sort(window);
            var top := Milliseconds(sorted[|sorted| - 1]);
            && Milliseconds(Percentile(rnd, sorted, rnd(0.5))) <= Milliseconds(Percentile(rnd, sorted, rnd(0.95)))
            && Milliseconds(Percentile(rnd, sorted, rnd(0.95))) <= Milliseconds(Percentile(rnd, sorted, rnd(0.99))) <= top
            && IsPercentile(Milliseconds(Percentile(rnd, sorted, rnd(0.5))), window, 50)
            && IsPercentile(Milliseconds(Percentile(rnd, sorted, rnd(0.95))), window, 95)
            && IsPercentile(Milliseconds(Percentile(rnd, sorted, rnd(0.99))), window, 99)
            && IsLargest(top, window)
  {
    var sorted, n := Sort(window), |window|;
    hide RoundsToNearest, Sort, RawIndex, Milliseconds;
    SortSorts(window);
    SharesOrdered(rnd);
    MedianIndex(rnd, n);
    TailIndices(rnd, n);
    assert RawIndex(rnd, n, rnd(0.5)) == PercentileIndex(n, 50);
    assert RawIndex(rnd, n, rnd(0.95)) == PercentileIndex(n, 95) && RawIndex(rnd, n, rnd(0.99)) == PercentileIndex(n, 99);
    PercentileMonotone(rnd, sorted, rnd(0.5), rnd(0.95));
    PercentileMonotone(rnd, sorted, rnd(0.95), rnd(0.99));
    var top := sorted[n - 1];
    MillisecondsMonotone(Percentile(rnd, sorted, rnd(0.5)), Percentile(rnd, sorted, rnd(0.95)));
    MillisecondsMonotone(Percentile(rnd, sorted, rnd(0.95)), Percentile(rnd, sorted, rnd(0.99)));
    MillisecondsMonotone(Percentile(rnd, sorted, rnd(0.99)), top);
    forall d | d in window
      ensures Milliseconds(d) <= Milliseconds(top)
    {
      assert d in multiset(sorted);
      MillisecondsMonotone(d, top);
    }
    assert top in multiset(sorted);
    assert top in window;
  }

  lemma WindowSize(obs: seq<int>, c: nat)
    requires c > 0
    ensures |Window(obs, c)| == if |obs| <= c then |obs| else c
  {
    Remainder(|obs|, c);
  }

  lemma WindowFilling(obs: seq<int>, c: nat)
    requires c > 0 && |Window(obs, c)| < c
    ensures |obs| < c
  {
    WindowSize(obs, c);
  }

  lemma WindowFull(obs: seq<int>, c: nat)
    requires c > 0 && |Window(obs, c)| >= c
    ensures |obs| >= c
  {
    WindowSize(obs, c);
  }
}
