/** Exact real-number counterparts of the Python numeric operators the simulation uses. */
module Numerics {

  /** Every draw is a sample of `random.random()`. */
  predicate UnitDraws(draws: seq<real>)
  {
    forall i :: 0 <= i < |draws| ==> 0.0 <= draws[i] < 1.0
  }


  /**
   * Python's float `x % m` for a positive divisor: floor-modulo, so the
   * remainder lies in [0, m) even for negative x.
   */
  function PyMod(x: real, m: real): (r: real)
    requires m > 0.0
    ensures 0.0 <= r < m
    ensures 0.0 <= x < m ==> r == x
  {
    FloorMultipleBelow(x, m);
    assert 0.0 <= x < m ==> (x / m).Floor == 0 by {
      if 0.0 <= x < m { QuotientInUnit(x, m); }
    }
    x - (x / m).Floor as real * m
  }

  /** The largest multiple of m not above x lies within m of x. */
  lemma FloorMultipleBelow(x: real, m: real)
    requires m > 0.0
    ensures 0.0 <= x - (x / m).Floor as real * m < m
  {
    var q := x / m;
    var f := q.Floor as real;
    assert x == q * m;
    MulMonotone(f, q, f + 1.0, m);
    assert q * m < (f + 1.0) * m;
    assert (f + 1.0) * m == f * m + m;
    assert x < f * m + m;
  }

  /** A draw in [0, 1) scaled by a positive length lies in [0, length). */
  lemma UnitScale(u: real, L: real)
    requires 0.0 <= u < 1.0 && L > 0.0
    ensures 0.0 <= u * L < L
  {
    MulMonotone(0.0, u, 1.0, L);
    assert 1.0 * L == L;
  }

  /** Multiplying by a positive factor keeps a chain of inequalities. */
  lemma MulMonotone(a: real, b: real, c: real, m: real)
    requires a <= b < c && m > 0.0
    ensures a * m <= b * m < c * m
  {
  }

  /** A quotient of a number in [0, m) by m lies in [0, 1). */
  lemma QuotientInUnit(a: real, m: real)
    requires 0.0 <= a < m
    ensures 0.0 <= a / m < 1.0
  {
  }

  /**
   * The remainder of `PyMod` is the unique r in [0, m) with x = k * m + r for
   * an integer k.
   */
  lemma PyModUnique(x: real, m: real, k: int, r: real)
    requires m > 0.0 && 0.0 <= r < m && x == k as real * m + r
    ensures PyMod(x, m) == r
  {
    var q := x / m;
    assert q == k as real + r / m;
    QuotientInUnit(r, m);
    assert q.Floor == k;
  }

  /** Python's `int(x)` on a float: truncation toward zero. */
  function TruncToInt(x: real): (n: int)
    ensures 0.0 <= x ==> 0 <= n && n as real <= x < n as real + 1.0
    ensures x < 0.0 ==> n <= 0 && n as real - 1.0 < x <= n as real
  {
    if x >= 0.0 then x.Floor else -((-x).Floor)
  }

  /**
   * `int(np.sqrt(n))` for a count n: the integer square root, the largest r
   * with r * r <= n.
   */
  function IntSqrt(n: nat): (r: nat)
    ensures r * r <= n < (r + 1) * (r + 1)
  {
    if n == 0 then 0
    else
      var s := IntSqrt(n - 1);
      if (s + 1) * (s + 1) <= n then s + 1 else s
  }
}
