/**
 IEEE 754 binary64 rounding, section 4.3.1: an operation returns a representable number
 nearest to the infinitely precise result. Nothing here depends on how ties are broken.
 */
module Doubles {
  import opened Prelude

  const MANTISSA: int := 0x20_0000_0000_0000 // 2^53

  /** Finite binary64 values: 53-bit significands scaled by a power of two. */
  ghost predicate IsDouble(x: real) {
    || (exists m: int, k: nat :: k <= 1074 && -MANTISSA < m < MANTISSA && Scaled(x, m, k))
    || (exists m: int, k: nat :: k <= 971 && -MANTISSA < m < MANTISSA && ScaledUp(x, m, k))
  }

  ghost predicate Scaled(x: real, m: int, k: nat) {
    x * Pow2(k) as real == m as real
  }

  ghost predicate ScaledUp(x: real, m: int, k: nat) {
    x == (m * Pow2(k)) as real
  }

  function Abs(x: real): real {
    if x < 0.0 then -x else x
  }

  ghost predicate Nearest(x: real, r: real) {
    IsDouble(r) && forall d: real :: IsDouble(d) ==> Abs(r - x) <= Abs(d - x)
  }

  /** A rounding function: nearest everywhere in the range the arithmetic stays in. */
  ghost predicate RoundsToNearest(rnd: real -> real) {
    forall x: real :: 0.0 <= x <= MANTISSA as real ==> Nearest(x, rnd(x))
  }

  lemma IntegerIsDouble(n: int)
    requires 0 <= n <= MANTISSA
    ensures IsDouble(n as real)
  {
    if n < MANTISSA {
      assert Scaled(n as real, n, 0);
    } else {
      assert Pow2(1) == 2;
      assert ScaledUp(n as real, 0x10_0000_0000_0000, 1);
    }
  }

  /** A representable result is returned exactly. */
  lemma Representable(rnd: real -> real, x: real)
    requires RoundsToNearest(rnd) && IsDouble(x) && 0.0 <= x <= MANTISSA as real
    ensures rnd(x) == x
  {
    hide IsDouble;
    assert Nearest(x, rnd(x));
    assert Abs(rnd(x) - x) <= Abs(x - x);
  }

  lemma ExactRounding(rnd: real -> real, n: int)
    requires RoundsToNearest(rnd) && 0 <= n <= MANTISSA
    ensures rnd(n as real) == n as real
  {
    IntegerIsDouble(n);
    Representable(rnd, n as real);
  }

  /** Rounding preserves order. */
  lemma RoundingMonotone(rnd: real -> real, x: real, y: real)
    requires RoundsToNearest(rnd)
    requires 0.0 <= x <= y <= MANTISSA as real
    ensures rnd(x) <= rnd(y)
  {
    assert Nearest(x, rnd(x)) && Nearest(y, rnd(y));
    assert Abs(rnd(x) - x) <= Abs(rnd(y) - x);
    assert Abs(rnd(y) - y) <= Abs(rnd(x) - y);
  }

  /** Every multiple of 2^-13 below 2^40 is representable. */
  lemma GridIsDouble(k: nat)
    requires k < MANTISSA
    ensures IsDouble(k as real / 8192.0)
  {
    assert Pow2(13) == 8192;
    assert Scaled(k as real / 8192.0, k, 13);
  }

  /**
   Dividing an integer below 2^53 by 10,000 in double precision and flooring gives the
   integer quotient: the largest gap between doubles there is 2^-13, and half of it is
   smaller than the 1/10,000 that separates a non-integer quotient from the next integer.
   */
  lemma FloorOfRoundedQuotient(rnd: real -> real, x: nat)
    requires RoundsToNearest(rnd) && x < MANTISSA
    ensures rnd(x as real / 10000.0).Floor == x / 10000
  {
    var q := x as real / 10000.0;
    var r := rnd(q);
    var n := x / 10000;
    var k := (q * 8192.0 + 0.5).Floor;
    assert x == n * 10000 + x % 10000;
    assert n as real * 10000.0 + (x % 10000) as real == x as real;
    assert n as real <= q <= n as real + 0.9999;
    assert Nearest(q, r);
    GridPoint(q, k);
    assert Abs(r - q) <= Abs(k as real / 8192.0 - q);
    IntegerIsDouble(n);
    assert Abs(r - q) <= Abs(n as real - q);
  }

  lemma GridPoint(q: real, k: int)
    requires 0.0 <= q <= 900719925475.0 && k == (q * 8192.0 + 0.5).Floor
    ensures IsDouble(k as real / 8192.0)
    ensures Abs(k as real / 8192.0 - q) <= 1.0 / 16384.0
  {
    assert k as real <= q * 8192.0 + 0.5 < k as real + 1.0;
    GridIsDouble(k);
  }

  // Gaps between doubles

  /** The exponent of the finest grid, of which every double is a point. */
  const FINEST: nat := 1074

  lemma {:induction false} Pow2Sum(i: nat, j: nat)
    ensures Pow2(i + j) == Pow2(i) * Pow2(j)
  {
    if i > 0 {
      Pow2Sum(i - 1, j);
      assert 2 * (Pow2(i - 1) * Pow2(j)) == 2 * Pow2(i - 1) * Pow2(j);
    }
  }

  /** A fraction `m / u` of a 53-bit significand that is below `i` is so by at least one part in 2^53 of `i`. */
  lemma FractionGap(d: real, m: int, u: nat, i: nat)
    requires u >= 1 && d * u as real == m as real && m < MANTISSA && d < i as real && i <= MANTISSA
    ensures (i as real - d) * MANTISSA as real >= i as real
  {
    var y := i * u;
    Widen(d, i as real, u as real);
    assert m < y;
    var gap := i as real - d;
    assert gap * u as real == (y - m) as real;
    // Either the grid is no finer than 2^-53 of `i`, or the significand is too small to come close.
    if y <= MANTISSA {
      WeakenGap(gap, u as real, i as real, MANTISSA as real);
    } else {
      assert (y - m) * MANTISSA >= (y - MANTISSA + 1) * MANTISSA >= y;
      ScaleGap(gap, u as real, (y - m) as real, i as real, MANTISSA as real);
    }
  }

  lemma Widen(d: real, i: real, u: real)
    requires d < i && u >= 1.0
    ensures d * u < i * u
  {
    assert (i - d) * u > 0.0;
  }

  lemma WeakenGap(gap: real, u: real, i: real, top: real)
    requires u >= 1.0 && gap * u >= 1.0 && 0.0 <= i && i * u <= top
    ensures gap * top >= i
  {
    assert gap > 0.0;
    assert gap * top >= gap * (i * u) by { assert gap * (top - i * u) >= 0.0; }
    assert gap * (i * u) == gap * u * i;
    assert (gap * u - 1.0) * i >= 0.0;
  }

  lemma ScaleGap(gap: real, u: real, excess: real, i: real, top: real)
    requires u >= 1.0 && gap * u == excess && excess * top >= i * u
    ensures gap * top >= i
  {
    assert gap * top * u == excess * top;
    assert (gap * top - i) * u >= 0.0;
  }

  /** Below an integer no double comes closer than one part in 2^53 of it. */
  lemma GapBelow(d: real, i: nat)
    requires IsDouble(d) && d < i as real && i <= MANTISSA
    ensures (i as real - d) * MANTISSA as real >= i as real
  {
    hide Pow2, Scaled, ScaledUp;
    if m: int, k: nat :| k <= FINEST && m < MANTISSA && Scaled(d, m, k) {
      FractionBelow(d, m, k, i);
    } else {
      var m: int, k: nat :| ScaledUp(d, m, k);
      IntegerBelow(d, m, k, i);
    }
  }

  lemma FractionBelow(d: real, m: int, k: nat, i: nat)
    requires Scaled(d, m, k) && m < MANTISSA && d < i as real && i <= MANTISSA
    ensures (i as real - d) * MANTISSA as real >= i as real
  {
    FractionGap(d, m, Pow2(k), i);
  }

  lemma IntegerBelow(d: real, m: int, k: nat, i: nat)
    requires ScaledUp(d, m, k) && d < i as real && i <= MANTISSA
    ensures (i as real - d) * MANTISSA as real >= i as real
  {
    WholeBelow(d, m * Pow2(k), i);
  }

  lemma WholeBelow(d: real, n: int, i: nat)
    requires d == n as real && d < i as real && i <= MANTISSA
    ensures (i as real - d) * MANTISSA as real >= i as real
  {
    assert i as real - d == (i - n) as real && i - n >= 1;
  }

  // Such a rounding exists

  /** The `n`th point of the finest grid. */
  function GridAt(n: int): real {
    n as real / Pow2(FINEST) as real
  }

  ghost predicate OnGrid(d: real) {
    exists n: int :: d == GridAt(n)
  }

  lemma Quotient(d: real, unit: real, n: real)
    requires unit >= 1.0 && d * unit == n
    ensures d == n / unit
  {
    var q := n / unit;
    assert q * unit == n;
    assert (d - q) * unit == 0.0;
  }

  lemma AtPoint(d: real, n: int)
    requires d * Pow2(FINEST) as real == n as real
    ensures d == GridAt(n)
  {
    hide Pow2;
    Quotient(d, Pow2(FINEST) as real, n as real);
  }

  lemma Regroup(d: real, a: real, b: real, c: real, m: real)
    requires d * a == m && c == a * b
    ensures d * c == m * b
  {
  }

  lemma FractionOnGrid(d: real, m: int, k: nat)
    requires k <= FINEST && Scaled(d, m, k)
    ensures OnGrid(d)
  {
    hide Pow2;
    Pow2Sum(k, FINEST - k);
    Regroup(d, Pow2(k) as real, Pow2(FINEST - k) as real, Pow2(FINEST) as real, m as real);
    AtPoint(d, m * Pow2(FINEST - k));
  }

  lemma IntegerOnGrid(d: real, m: int, k: nat)
    requires ScaledUp(d, m, k)
    ensures OnGrid(d)
  {
    hide Pow2;
    var n := m * Pow2(k);
    assert d * Pow2(FINEST) as real == n as real * Pow2(FINEST) as real == (n * Pow2(FINEST)) as real;
    AtPoint(d, n * Pow2(FINEST));
  }

  lemma DoublesOnGrid(d: real)
    requires IsDouble(d)
    ensures OnGrid(d)
  {
    hide OnGrid, Pow2, Scaled, ScaledUp;
    if m: int, k: nat :| k <= FINEST && Scaled(d, m, k) {
      FractionOnGrid(d, m, k);
    } else {
      var m: int, k: nat :| ScaledUp(d, m, k);
      IntegerOnGrid(d, m, k);
    }
  }

  /** The closest double to `x` among the first points of the grid. */
  ghost function Closest(x: real, n: nat): (r: real)
    ensures IsDouble(r)
    ensures forall i :: 0 <= i <= n && IsDouble(GridAt(i)) ==> Abs(r - x) <= Abs(GridAt(i) - x)
  {
    if n == 0 then
      IntegerIsDouble(0);
      0.0
    else
      var r := Closest(x, n - 1);
      if IsDouble(GridAt(n)) && Abs(GridAt(n) - x) < Abs(r - x) then GridAt(n) else r
  }

  /** How far along the grid a better approximation than 0 can lie. */
  function Reach(x: real): int {
    (2.0 * x * Pow2(FINEST) as real).Floor
  }

  /** Points before the grid's start or beyond the reach are no closer than 0. */
  lemma OutOfReach(x: real, n: int)
    requires x >= 0.0 && (n < 0 || n > Reach(x))
    ensures Abs(0.0 - x) <= Abs(GridAt(n) - x)
  {
    hide Pow2;
    var unit, d := Pow2(FINEST) as real, GridAt(n);
    assert d * unit == n as real;
    if n < 0 {
      assert d < 0.0;
    } else {
      assert n as real > 2.0 * x * unit;
      assert (d - 2.0 * x) * unit > 0.0;
      assert d > 2.0 * x;
    }
  }

  lemma ReachIsNatural(x: real)
    requires x >= 0.0
    ensures Reach(x) >= 0 && GridAt(0) == 0.0
  {
    hide Pow2;
    assert 2.0 * x * Pow2(FINEST) as real >= 0.0;
  }

  /** Every non-negative number has a nearest double. */
  lemma NearestExists(x: real)
    requires x >= 0.0
    ensures exists r :: Nearest(x, r)
  {
    ReachIsNatural(x);
    IntegerIsDouble(0);
    var r := Closest(x, Reach(x));
    hide IsDouble, GridAt, Reach, Closest;
    forall d: real | IsDouble(d)
      ensures Abs(r - x) <= Abs(d - x)
    {
      DoublesOnGrid(d);
      var n: int :| d == GridAt(n);
      if n < 0 || n > Reach(x) {
        OutOfReach(x, n);
      }
    }
    assert Nearest(x, r);
  }

  ghost function ToNearest(x: real): real {
    if x >= 0.0 then
      NearestExists(x);
      var r :| Nearest(x, r);
      r
    else 0.0
  }

  /** Rounding to nearest is possible, so what holds of every such rounding is not idle. */
  lemma RoundingExists()
    ensures exists rnd: real -> real :: RoundsToNearest(rnd)
  {
    assert forall x: real :: 0.0 <= x <= MANTISSA as real ==> Nearest(x, ToNearest(x));
    var rnd := (x: real) => ToNearest(x);
    assert RoundsToNearest(rnd);
  }
}
