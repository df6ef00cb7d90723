/** Python 3's built-in `round` on one argument: round to the nearest
    integer, ties to the even neighbour. `RoundDiv` rounds the exact
    quotient `n / d` of two integers (the model of `round(oh / base)` and of
    `round(ow * (target / shortside))`); `RoundReal` rounds a real (the model
    of `round(zoomw)`). */
module Rounding {

  /** The reference definition: `q` is a half-to-even rounding of `n / d`.
      It is at most half a unit away, and on a tie it is even. */
  predicate IsHalfEvenRounding(n: int, d: int, q: int)
    requires d > 0
  {
    var dist := if n >= q * d then n - q * d else q * d - n;
    && 2 * dist <= d
    && (2 * dist == d ==> q % 2 == 0)
  }

  function RoundDiv(n: int, d: int): (q: int)
    requires d > 0
    ensures IsHalfEvenRounding(n, d, q)
  {
    var f := n / d;
    var r := n % d;
    assert n == f * d + r;
    if 2 * r < d then f
    else if 2 * r > d then f + 1
    else if f % 2 == 0 then f
    else f + 1
  }

  /** A non-zero multiple of `d` is at least `d` away from zero. */
  lemma {:induction false} MulAwayFromZero(k: int, d: int)
    requires d > 0
    ensures k >= 1 ==> k * d >= d
    ensures k <= -1 ==> k * d <= -d
    decreases if k >= 0 then k else -k
  {
    if k > 1 {
      MulAwayFromZero(k - 1, d);
      assert k * d == (k - 1) * d + d;
    } else if k < -1 {
      MulAwayFromZero(k + 1, d);
      assert k * d == (k + 1) * d - d;
    }
  }

  /** `d * (a - b)` is at most `d` in size only when `a` and `b` are
      neighbours or equal. */
  lemma NeighbourMultiples(a: int, b: int, d: int)
    requires d > 0
    requires -d < a * d - b * d < d || a * d - b * d == d || a * d - b * d == -d
    ensures -1 <= a - b <= 1
    ensures a * d - b * d == (a - b) * d
  {
    assert a * d - b * d == (a - b) * d;
    MulAwayFromZero(a - b, d);
  }

  /** Two half-to-even roundings of the same quotient are equal: both lie
      within half a unit of `n / d`, so they are neighbours or equal, and
      neighbours would both sit on a tie, where both must be even. */
  lemma HalfEvenRoundingUnique(n: int, d: int, q: int, p: int)
    requires d > 0
    requires IsHalfEvenRounding(n, d, q) && IsHalfEvenRounding(n, d, p)
    ensures q == p
  {
    var a, b := n - q * d, n - p * d;
    assert -d <= 2 * a <= d && -d <= 2 * b <= d;
    NeighbourMultiples(q, p, d);
    assert q - p == 1 ==> q * d - p * d == d && 2 * a == -d && 2 * b == d;
    assert q - p == -1 ==> q * d - p * d == -d && 2 * a == d && 2 * b == -d;
  }

  /** There is only one half-to-even rounding, so `RoundDiv` is it. */
  lemma RoundDivUnique(n: int, d: int, q: int)
    requires d > 0
    requires IsHalfEvenRounding(n, d, q)
    ensures q == RoundDiv(n, d)
  {
    HalfEvenRoundingUnique(n, d, q, RoundDiv(n, d));
  }

  /** Dividing a multiple of `d` by `d` gives the factor back, exactly. */
  lemma MulDivCancel(q: int, d: int)
    requires d > 0
    ensures (q * d) / d == q && (q * d) % d == 0
  {
    var m := q * d;
    var t := m / d;
    assert m == t * d + m % d;
    NeighbourMultiples(t, q, d);
    MulAwayFromZero(t - q, d);
  }

  /** The reference definition of `round(n / d) * d`: a multiple of `d`
      within half of `d` of `n`, and on a tie the even multiple. */
  predicate NearestMultiple(n: int, d: int, m: int)
    requires d > 0
  {
    && m % d == 0
    && 2 * (if m >= n then m - n else n - m) <= d
    && (2 * (if m >= n then m - n else n - m) == d ==> (m / d) % 2 == 0)
  }

  /** `int(round(n / d) * d)`. */
  function RoundToMultiple(n: nat, d: nat): (m: nat)
    requires d > 0
    ensures NearestMultiple(n, d, m)
  {
    var q := RoundDiv(n, d);
    MulAwayFromZero(q, d);
    MulDivCancel(q, d);
    q * d
  }

  /** `RoundToMultiple` is the only nearest multiple. */
  lemma NearestMultipleUnique(n: nat, d: nat, m: int)
    requires d > 0
    requires NearestMultiple(n, d, m)
    ensures m == RoundToMultiple(n, d)
  {
    var k := m / d;
    assert m == k * d + m % d;
    assert IsHalfEvenRounding(n, d, k);
    RoundDivUnique(n, d, k);
    MulDivCancel(RoundDiv(n, d), d);
  }

  /** A number is its own nearest multiple exactly when it is a multiple. */
  lemma RoundToMultipleFixes(n: nat, d: nat)
    requires d > 0
    ensures RoundToMultiple(n, d) == n <==> n % d == 0
  {
    if n % d == 0 {
      NearestMultipleUnique(n, d, n);
    }
  }

  /** Python's `round` of a real number, ties to even. */
  function RoundReal(x: real): (q: int)
    ensures -0.5 <= q as real - x <= 0.5
    ensures q as real - x == 0.5 || x - q as real == 0.5 ==> q % 2 == 0
  {
    var f := x.Floor;
    var frac := x - f as real;
    if frac < 0.5 then f
    else if frac > 0.5 then f + 1
    else if f % 2 == 0 then f
    else f + 1
  }

  /** Rounding a real at or above an integer never drops below that integer. */
  lemma RoundRealAtLeast(x: real, c: int)
    requires x >= c as real
    ensures RoundReal(x) >= c
  {
  }

  /** Rounding a real at or below an integer never exceeds that integer. */
  lemma RoundRealAtMost(x: real, c: int)
    ensures x <= c as real ==> RoundReal(x) <= c
  {
  }

  /** Rounding `n / d` reaches `k` whenever `n` is at least `k * d`. */
  lemma RoundDivAtLeast(n: int, d: int, k: int)
    requires d > 0
    requires n >= k * d
    ensures RoundDiv(n, d) >= k
  {
    var q := RoundDiv(n, d);
    assert 2 * (k * d - q * d) <= d;
    assert k * d - q * d == (k - q) * d;
    MulAwayFromZero(k - q, d);
  }

  /** An exact quotient is its own rounding. */
  lemma RoundDivExact(k: int, d: int)
    requires d > 0
    ensures RoundDiv(k * d, d) == k
  {
    assert IsHalfEvenRounding(k * d, d, k);
    RoundDivUnique(k * d, d, k);
  }

  /** Euclidean division is unique: any `x == a * n + r` with `0 <= r < n`
      has quotient `a` and remainder `r`. */
  lemma DivModUnique(x: int, n: int, a: int, r: int)
    requires n > 0
    requires 0 <= r < n
    requires x == a * n + r
    ensures x / n == a && x % n == r
  {
    assert x == (x / n) * n + x % n;
    NeighbourMultiples(x / n, a, n);
    MulAwayFromZero(x / n - a, n);
  }

  /** Floor division brackets its dividend: `(n / d) * d <= n < (n / d + 1) * d`. */
  lemma FloorDivBounds(n: int, d: int)
    requires d > 0
    ensures (n / d) * d <= n < (n / d + 1) * d
  {
    assert n == (n / d) * d + n % d;
    assert (n / d + 1) * d == (n / d) * d + d;
  }

  /** `a * c` grows with `a` when `c` is not negative. */
  lemma MulMonotone(a: int, b: int, c: int)
    requires a >= b && c >= 0
    ensures a * c >= b * c
  {
    assert a * c - b * c == (a - b) * c;
    if c > 0 {
      MulAwayFromZero(a - b, c);
    }
  }

  /** A product of naturals is zero only when a factor is. */
  lemma ProductZero(a: nat, b: nat)
    ensures a * b == 0 <==> a == 0 || b == 0
  {
    if a > 0 && b > 0 {
      MulAwayFromZero(a, b);
    }
  }
}
