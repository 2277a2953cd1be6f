/**
 Success rates with their Wilson score interval, over the reals.  The square root is a parameter, known by
 being non-negative and having the right square.
 */
module Wilson {
  import opened Options

  const Z: real := 1.959963984540054

  datatype RateEstimate = RateEstimate(value: Option<real>, sampleSize: nat, low: Option<real>, high: Option<real>)

  function Max(a: real, b: real): real {
    if a < b then b else a
  }

  function Min(a: real, b: real): real {
    if b < a then b else a
  }

  /** What the square root is taken of. */
  function Radicand(z: real, value: real, n: real): real
    requires n > 0.0
  {
    value * (1.0 - value) / n + z * z / (4.0 * n * n)
  }

  function Denominator(z: real, n: real): (d: real)
    requires n > 0.0
    ensures 1.0 <= d
  {
    NonNegative(z, n);
    1.0 + z * z / n
  }

  lemma NonNegative(z: real, n: real)
    requires n > 0.0
    ensures 0.0 <= z * z / n
  {
  }

  function Center(z: real, value: real, n: real): real
    requires n > 0.0
  {
    (value + z * z / (2.0 * n)) / Denominator(z, n)
  }

  function Low(z: real, value: real, n: real, root: real): real
    requires n > 0.0
  {
    Center(z, value, n) - z * root / Denominator(z, n)
  }

  function High(z: real, value: real, n: real, root: real): real
    requires n > 0.0
  {
    Center(z, value, n) + z * root / Denominator(z, n)
  }

  /** `rate_estimate`, given the square root it takes. */
  function Estimate(successes: nat, sampleSize: nat, root: real): RateEstimate {
    if sampleSize == 0 then RateEstimate(None, 0, None, None)
    else
      var n := sampleSize as real;
      var value := successes as real / n;
      RateEstimate(
        Some(value), sampleSize, Some(Max(Low(Z, value, n, root), 0.0)), Some(Min(High(Z, value, n, root), 1.0)))
  }

  // ----------------------------------------------------------------- the algebra

  /** How far `q` misses the rate, against the normal approximation at `q` itself. */
  function Excess(p: real, q: real, c: real): real {
    (p - q) * (p - q) - c * q * (1.0 - q)
  }

  lemma ProductSign(a: real, b: real)
    requires b <= a
    ensures a * b <= 0.0 <==> b <= 0.0 <= a
  {
  }

  lemma SameSign(d: real, x: real)
    requires 0.0 < d
    ensures d * x <= 0.0 <==> x <= 0.0
    ensures 0.0 <= d * x <==> 0.0 <= x
  {
  }

  lemma OrderScaled(d: real, a: real, b: real)
    requires 0.0 < d
    ensures a <= b <==> d * a <= d * b
  {
  }

  lemma OrderDivided(d: real, a: real, b: real)
    requires 0.0 < d && a <= b
    ensures a / d <= b / d
  {
  }

  /** Between the zeros of a parabola that opens upwards its values are not positive, and nowhere else. */
  lemma FactorsDecide(d: real, q: real, low: real, high: real, scaledLow: real, scaledHigh: real, excess: real)
    requires 0.0 < d && scaledLow <= scaledHigh && d * low == scaledLow && d * high == scaledHigh
    requires (d * q - scaledLow) * (d * q - scaledHigh) == d * excess
    ensures low <= q <= high <==> excess <= 0.0
  {
    ProductSign(d * q - scaledLow, d * q - scaledHigh);
    SameSign(d, excess);
    OrderScaled(d, low, q);
    OrderScaled(d, q, high);
  }

  // ------------------------------------------------------------------ the bounds

  lemma QuotientIs(a: real, d: real, y: real)
    requires d != 0.0 && y * d == a
    ensures a / d == y
  {
  }

  lemma Cancel(a: real, b: real, n: real)
    requires n > 0.0 && a * n == b * n
    ensures a == b
  {
  }

  lemma BoundsAreQuotients(z: real, p: real, n: real, root: real)
    requires n > 0.0
    ensures var c := z * z / n;
      && 0.0 <= c
      && (1.0 + c) * Low(z, p, n, root) == p + c / 2.0 - z * root
      && (1.0 + c) * High(z, p, n, root) == p + c / 2.0 + z * root
  {
  }

  /** The condition the interval is made for: `q` is within the normal approximation's reach of the rate. */
  predicate Plausible(z: real, p: real, n: real, q: real)
    requires n > 0.0
  {
    (p - q) * (p - q) <= z * z * q * (1.0 - q) / n
  }

  lemma PlausibleIsNoExcess(z: real, p: real, n: real, q: real)
    requires n > 0.0
    ensures Plausible(z, p, n, q) <==> Excess(p, q, z * z / n) <= 0.0
  {
  }

  /** A root of the radicand, scaled as the margin is. */
  predicate IsMargin(c: real, p: real, m: real) {
    0.0 <= m && m * m == c * p * (1.0 - p) + c * c / 4.0
  }

  lemma RootIsMargin(z: real, p: real, n: real, root: real)
    requires z >= 0.0 && n > 0.0 && root >= 0.0 && root * root == Radicand(z, p, n)
    ensures IsMargin(z * z / n, p, z * root)
  {
  }

  lemma MarginFactors(c: real, p: real, m: real, q: real)
    requires IsMargin(c, p, m)
    ensures 0.0 <= m
    ensures ((1.0 + c) * q - (p + c / 2.0 - m)) * ((1.0 + c) * q - (p + c / 2.0 + m)) == (1.0 + c) * Excess(p, q, c)
  {
  }

  lemma MarginDecides(c: real, p: real, m: real, low: real, high: real, q: real)
    requires 0.0 <= c && IsMargin(c, p, m)
    requires (1.0 + c) * low == p + c / 2.0 - m && (1.0 + c) * high == p + c / 2.0 + m
    ensures low <= q <= high <==> Excess(p, q, c) <= 0.0
  {
    hide Excess, IsMargin;
    MarginFactors(c, p, m, q);
    FactorsDecide(1.0 + c, q, low, high, p + c / 2.0 - m, p + c / 2.0 + m, Excess(p, q, c));
  }

  /** The unclamped interval holds exactly the plausible rates. */
  lemma IntervalIsPlausible(z: real, p: real, n: real, root: real, q: real)
    requires z >= 0.0 && n > 0.0 && root >= 0.0 && root * root == Radicand(z, p, n)
    ensures Low(z, p, n, root) <= q <= High(z, p, n, root) <==> Plausible(z, p, n, q)
  {
    hide Low, High, Excess, Plausible, IsMargin;
    RootIsMargin(z, p, n, root);
    BoundsAreQuotients(z, p, n, root);
    MarginDecides(z * z / n, p, z * root, Low(z, p, n, root), High(z, p, n, root), q);
    PlausibleIsNoExcess(z, p, n, q);
  }

  lemma SquareIsNonNegative(x: real)
    ensures 0.0 <= x * x
  {
  }

  lemma UnitInterval(q: real)
    requires 0.0 <= q * (1.0 - q)
    ensures 0.0 <= q <= 1.0
  {
    ProductSign(q, q - 1.0);
  }

  lemma NonNegativeFactor(c: real, q: real)
    requires 0.0 < c && 0.0 <= c * q * (1.0 - q)
    ensures 0.0 <= q * (1.0 - q)
  {
    SameSign(c, q * (1.0 - q));
  }

  /** Rates without excess lie between 0 and 1. */
  lemma NoExcessIsInside(p: real, q: real, c: real)
    requires 0.0 < c && Excess(p, q, c) <= 0.0
    ensures 0.0 <= q <= 1.0
  {
    SquareIsNonNegative(p - q);
    NonNegativeFactor(c, q);
    UnitInterval(q);
  }

  lemma RateHasNoExcess(p: real, c: real)
    requires 0.0 <= p <= 1.0 && 0.0 <= c
    ensures Excess(p, p, c) <= 0.0
  {
    ProductOfNonNegatives(p, 1.0 - p);
    ProductOfNonNegatives(c, p * (1.0 - p));
    assert c * p * (1.0 - p) == c * (p * (1.0 - p));
  }

  lemma ProductOfNonNegatives(a: real, b: real)
    requires 0.0 <= a && 0.0 <= b
    ensures 0.0 <= a * b
  {
  }

  lemma MarginBounds(c: real, p: real, m: real, low: real, high: real)
    requires 0.0 < c && IsMargin(c, p, m) && 0.0 <= p <= 1.0
    requires (1.0 + c) * low == p + c / 2.0 - m && (1.0 + c) * high == p + c / 2.0 + m
    ensures 0.0 <= low <= p <= high <= 1.0
  {
    hide Excess, IsMargin;
    MarginDecides(c, p, m, low, high, p);
    RateHasNoExcess(p, c);
    MarginDecides(c, p, m, low, high, low);
    MarginDecides(c, p, m, low, high, high);
    NoExcessIsInside(p, low, c);
    NoExcessIsInside(p, high, c);
  }

  /** The rate lies between the bounds and the bounds between 0 and 1. */
  lemma BoundsAreOrdered(z: real, p: real, n: real, root: real)
    requires z > 0.0 && n > 0.0 && 0.0 <= p <= 1.0 && root >= 0.0 && root * root == Radicand(z, p, n)
    ensures 0.0 <= Low(z, p, n, root) <= p <= High(z, p, n, root) <= 1.0
  {
    hide Low, High, IsMargin;
    RootIsMargin(z, p, n, root);
    BoundsAreQuotients(z, p, n, root);
    PositiveQuotient(z, n);
    MarginBounds(z * z / n, p, z * root, Low(z, p, n, root), High(z, p, n, root));
  }

  lemma PositiveQuotient(z: real, n: real)
    requires z > 0.0 && n > 0.0
    ensures 0.0 < z * z / n
  {
    PositiveShare(z, n);
    PositiveProduct(z, z / n);
    assert z * (z / n) == z * z / n;
  }

  lemma PositiveShare(a: real, n: real)
    requires 0.0 < a && 0.0 < n
    ensures 0.0 < a / n
  {
  }

  lemma PositiveProduct(a: real, b: real)
    requires 0.0 < a && 0.0 < b
    ensures 0.0 < a * b
  {
  }

  lemma ExcessGrowsWithDistance(near: real, far: real, q: real, c: real)
    requires q <= near <= far || far <= near <= q
    ensures Excess(near, q, c) <= Excess(far, q, c)
  {
  }

  /** With more successes neither bound falls. */
  lemma BoundsAreMonotone(z: real, p1: real, p2: real, n: real, root1: real, root2: real)
    requires z > 0.0 && n > 0.0 && 0.0 <= p1 <= p2 <= 1.0
    requires root1 >= 0.0 && root1 * root1 == Radicand(z, p1, n)
    requires root2 >= 0.0 && root2 * root2 == Radicand(z, p2, n)
    ensures Low(z, p1, n, root1) <= Low(z, p2, n, root2)
    ensures High(z, p1, n, root1) <= High(z, p2, n, root2)
  {
    hide Low, High, Excess, Plausible, Radicand;
    var low2, high1 := Low(z, p2, n, root2), High(z, p1, n, root1);
    BoundsAreOrdered(z, p1, n, root1);
    BoundsAreOrdered(z, p2, n, root2);
    IntervalIsPlausible(z, p2, n, root2, low2);
    IntervalIsPlausible(z, p1, n, root1, high1);
    IntervalIsPlausible(z, p1, n, root1, low2);
    IntervalIsPlausible(z, p2, n, root2, high1);
    PlausibleIsNoExcess(z, p1, n, low2);
    PlausibleIsNoExcess(z, p2, n, low2);
    PlausibleIsNoExcess(z, p1, n, high1);
    PlausibleIsNoExcess(z, p2, n, high1);
    if low2 <= p1 {
      ExcessGrowsWithDistance(p1, p2, low2, z * z / n);
    }
    if p2 <= high1 {
      ExcessGrowsWithDistance(p2, p1, high1, z * z / n);
    }
  }

  // ---------------------------------------------------------------- the estimates

  predicate IsRoot(successes: nat, sampleSize: nat, root: real)
    requires sampleSize != 0
  {
    root >= 0.0 && root * root == Radicand(Z, successes as real / sampleSize as real, sampleSize as real)
  }

  lemma RateIsShare(successes: nat, sampleSize: nat)
    requires sampleSize != 0 && successes <= sampleSize
    ensures 0.0 <= successes as real / sampleSize as real <= 1.0
  {
  }

  /**
   The reported interval: clamping changes nothing, it holds the rate, it holds exactly the plausible rates,
   and without a sample nothing is reported.
   */
  lemma EstimateIsWilson(successes: nat, sampleSize: nat, root: real, q: real)
    requires sampleSize != 0 ==> successes <= sampleSize && IsRoot(successes, sampleSize, root)
    ensures var e := Estimate(successes, sampleSize, root);
      if sampleSize == 0 then e.value.None? && e.low.None? && e.high.None?
      else
        && e.value.Some? && e.low.Some? && e.high.Some?
        && e.value.value == successes as real / sampleSize as real
        && 0.0 <= e.low.value <= e.value.value <= e.high.value <= 1.0
        && (e.low.value <= q <= e.high.value <==> Plausible(Z, e.value.value, sampleSize as real, q))
  {
    hide Low, High, Plausible, Radicand;
    if sampleSize != 0 {
      var n := sampleSize as real;
      RateIsShare(successes, sampleSize);
      BoundsAreOrdered(Z, successes as real / n, n, root);
      IntervalIsPlausible(Z, successes as real / n, n, root, q);
    }
  }

  lemma EstimatesAreMonotone(fewer: nat, more: nat, sampleSize: nat, rootFewer: real, rootMore: real)
    requires sampleSize != 0 && fewer <= more <= sampleSize
    requires IsRoot(fewer, sampleSize, rootFewer) && IsRoot(more, sampleSize, rootMore)
    ensures Estimate(fewer, sampleSize, rootFewer).low.value <= Estimate(more, sampleSize, rootMore).low.value
    ensures Estimate(fewer, sampleSize, rootFewer).high.value <= Estimate(more, sampleSize, rootMore).high.value
  {
    hide Low, High, Radicand;
    var n := sampleSize as real;
    RateIsShare(fewer, sampleSize);
    RateIsShare(more, sampleSize);
    OrderDivided(n, fewer as real, more as real);
    BoundsAreMonotone(Z, fewer as real / n, more as real / n, n, rootFewer, rootMore);
  }
}
