/**
 * The confidence interval reported beside every proportion (`wilson_interval` in
 * src/evals/metrics.py), over exact reals. The square root is whatever number squares to its
 * argument; rounding is not modelled.
 */
module Wilson {

  predicate IsRoot(root: real, x: real) {
    root >= 0.0 && root * root == x
  }

  /** What the code takes the square root of. */
  function Radicand(proportion: real, n: real, z: real): real
    requires n > 0.0
  {
    proportion * (1.0 - proportion) / n + z * z / (4.0 * (n * n))
  }

  function Max(a: real, b: real): real {
    if a >= b then a else b
  }

  function Min(a: real, b: real): real {
    if a <= b then a else b
  }

  function Denominator(n: real, z: real): (d: real)
    requires n > 0.0
    ensures d >= 1.0
  {
    SquareNonNegative(z);
    1.0 + z * z / n
  }

  function Centre(proportion: real, n: real, z: real): real
    requires n > 0.0
  {
    (proportion + z * z / (2.0 * n)) / Denominator(n, z)
  }

  function Margin(n: real, z: real, root: real): real
    requires n > 0.0
  {
    z * root / Denominator(n, z)
  }

  /** No observations give the empty interval at zero; otherwise the clamped Wilson bounds. */
  function WilsonInterval(successes: nat, total: nat, z: real, root: real): (real, real)
    requires successes <= total && z > 0.0
    requires total > 0 ==> IsRoot(root, Radicand(successes as real / total as real, total as real, z))
  {
    if total == 0 then (0.0, 0.0)
    else
      var n := total as real;
      var proportion := successes as real / n;
      (Max(0.0, Centre(proportion, n, z) - Margin(n, z, root)), Min(1.0, Centre(proportion, n, z) + Margin(n, z, root)))
  }

  lemma SquareNonNegative(x: real)
    ensures x * x >= 0.0
  {
  }

  // ---------------------------------------------------------------------------
  // The score test, cleared of fractions
  // ---------------------------------------------------------------------------

  /**
   * With `w` for z squared over n: the interval's bounds are the roots of the quadratic that the
   * score test is in `p`. Completing the square at the centre leaves the margin's square.
   */
  lemma CompleteTheSquare(s: real, w: real, p: real, c: real, msq: real)
    requires w >= 0.0
    requires c * (1.0 + w) == s + w / 2.0
    requires msq * ((1.0 + w) * (1.0 + w)) == w * (s * (1.0 - s) + w / 4.0)
    ensures (p - c) * (p - c) <= msq <==> (s - p) * (s - p) <= w * (p * (1.0 - p))
  {
    var d := 1.0 + w;
    var k := d * c;
    assert k == s + w / 2.0;
    // d^2 (p - c)^2 - d^2 msq == d ((s - p)^2 - w p (1 - p))
    var u := d * p - k;
    assert u == d * (p - c);
    assert u * u == (d * d) * ((p - c) * (p - c)) by {
      SquareOfProduct(d, p - c);
    }
    assert u * u - w * (s * (1.0 - s) + w / 4.0) == d * ((s - p) * (s - p) - w * (p * (1.0 - p))) by {
      Expand(s, w, p);
    }
    ScaleIff(d * d, (p - c) * (p - c), msq);
    ScaleIff(d, (s - p) * (s - p), w * (p * (1.0 - p)));
    Distribute(d, (s - p) * (s - p), w * (p * (1.0 - p)));
  }

  lemma SquareOfProduct(a: real, b: real)
    ensures (a * b) * (a * b) == (a * a) * (b * b)
  {
  }

  lemma Distribute(d: real, a: real, b: real)
    ensures d * (a - b) == d * a - d * b
  {
  }

  lemma ScaleIff(d: real, a: real, b: real)
    requires d > 0.0
    ensures d * a <= d * b <==> a <= b
  {
  }

  /** The polynomial identity behind it. */
  lemma Expand(s: real, w: real, p: real)
    ensures var d, u := 1.0 + w, (1.0 + w) * p - (s + w / 2.0);
            u * u - w * (s * (1.0 - s) + w / 4.0) == d * ((s - p) * (s - p) - w * (p * (1.0 - p)))
  {
  }

  // ---------------------------------------------------------------------------
  // What the interval is
  // ---------------------------------------------------------------------------

  /** The centre and the margin in terms of `w`, with every fraction cleared. */
  lemma Cleared(s: real, n: real, z: real, root: real, w: real)
    requires n > 0.0 && w == z * z / n && IsRoot(root, Radicand(s, n, z))
    ensures w >= 0.0
    ensures Centre(s, n, z) * (1.0 + w) == s + w / 2.0
    ensures (Margin(n, z, root) * Margin(n, z, root)) * ((1.0 + w) * (1.0 + w)) == w * (s * (1.0 - s) + w / 4.0)
  {
    SquareNonNegative(z);
    var d := Denominator(n, z);
    assert d == 1.0 + w;
    assert z * z == w * n;
    Cancel(z * z, 2.0 * n, w, 2.0, n);
    Undo(s + w / 2.0, d);
    Undo(z * root, d);
    SquareOfProduct(Margin(n, z, root), d);
    SquareOfProduct(z, root);
    ClearRadicand(s, n, z, w);
  }

  lemma Undo(a: real, d: real)
    requires d > 0.0
    ensures a / d * d == a
  {
  }

  lemma ClearRadicand(s: real, n: real, z: real, w: real)
    requires n > 0.0 && w == z * z / n
    ensures (z * z) * Radicand(s, n, z) == w * (s * (1.0 - s) + w / 4.0)
  {
    var v := s * (1.0 - s);
    var a, b := v / n, w / (4.0 * n);
    assert z * z == w * n;
    Associate(4.0, n, n);
    Cancel(z * z, 4.0 * (n * n), w, 4.0 * n, n);
    assert Radicand(s, n, z) == a + b;
    ClearOne(w, n, a, v);
    assert b * (4.0 * n) == w;
    ClearOne(w, n, b, w / 4.0);
    Distribute(z * z, a, -b);
    Distribute(w, v, -(w / 4.0));
  }

  lemma ClearOne(w: real, n: real, a: real, v: real)
    requires n * a == v
    ensures (w * n) * a == w * v
  {
    Associate(w, n, a);
  }

  /** A common factor cancels. */
  lemma Cancel(y: real, e: real, w: real, d: real, n: real)
    requires d > 0.0 && n > 0.0 && y == w * n && e == d * n
    ensures e > 0.0 && y / e == w / d
  {
    var q := w / d;
    ProductPositive(d, n);
    Associate(q, d, n);
    assert q * d == w;
    Quotient(y, e, q);
  }

  lemma Associate(a: real, b: real, c: real)
    ensures a * (b * c) == (a * b) * c
  {
  }

  lemma Quotient(a: real, b: real, q: real)
    requires b > 0.0 && q * b == a
    ensures a / b == q
  {
  }

  lemma WithinMargin(x: real, m: real)
    requires m >= 0.0
    ensures x * x <= m * m <==> -m <= x <= m
  {
    if x >= 0.0 {
      RootOrder(x, m);
    } else {
      assert (-x) * (-x) == x * x;
      RootOrder(-x, m);
    }
  }

  lemma RootOrder(x: real, m: real)
    requires x >= 0.0 && m >= 0.0
    ensures x * x <= m * m <==> x <= m
  {
    Difference(m, x);
    if x <= m {
      ProductNonNegative(m - x, m + x);
    } else {
      ProductPositive(x - m, x + m);
    }
  }

  lemma Difference(m: real, x: real)
    ensures m * m - x * x == (m - x) * (m + x)
    ensures x * x - m * m == (x - m) * (x + m)
  {
  }

  lemma ProductNonNegative(a: real, b: real)
    requires a >= 0.0 && b >= 0.0
    ensures a * b >= 0.0
  {
  }

  lemma ProductPositive(a: real, b: real)
    requires a > 0.0 && b > 0.0
    ensures a * b > 0.0
  {
  }

  /** The bounds before clamping already lie in [0, 1], so in exact arithmetic clamping changes nothing. */
  lemma ClampingIsIdle(s: real, w: real, c: real, m: real)
    requires 0.0 <= s <= 1.0 && w >= 0.0 && m >= 0.0
    requires c * (1.0 + w) == s + w / 2.0
    requires (m * m) * ((1.0 + w) * (1.0 + w)) == w * (s * (1.0 - s) + w / 4.0)
    ensures 0.0 <= c - m && c + m <= 1.0
  {
    var d := 1.0 + w;
    assert (1.0 - c) * d == (1.0 - s) + w / 2.0;
    ScaleIff(d, 0.0, c);
    ScaleIff(d, 0.0, 1.0 - c);
    GapFromEdge(s, w, c, m);
    WithinMargin(m, c);
    Mirror(s, w, m);
    GapFromEdge(1.0 - s, w, 1.0 - c, m);
    WithinMargin(m, 1.0 - c);
  }

  lemma Mirror(s: real, w: real, m: real)
    requires (m * m) * ((1.0 + w) * (1.0 + w)) == w * (s * (1.0 - s) + w / 4.0)
    ensures (m * m) * ((1.0 + w) * (1.0 + w)) == w * ((1.0 - s) * (1.0 - (1.0 - s)) + w / 4.0)
  {
  }

  lemma GapFromEdge(s: real, w: real, c: real, m: real)
    requires w >= 0.0 && c * (1.0 + w) == s + w / 2.0
    requires (m * m) * ((1.0 + w) * (1.0 + w)) == w * (s * (1.0 - s) + w / 4.0)
    ensures m * m <= c * c
  {
    var d := 1.0 + w;
    SquareOfProduct(c, d);
    assert (c * c) * (d * d) == (s + w / 2.0) * (s + w / 2.0);
    assert (s + w / 2.0) * (s + w / 2.0) - w * (s * (1.0 - s) + w / 4.0) == (s * s) * d by {
      Expand(s, w, 0.0);
    }
    SquareNonNegative(s);
    assert (s * s) * d >= 0.0;
    ScaleIff(d * d, m * m, c * c);
  }

  /** The margin is never negative. */
  lemma MarginNonNegative(n: real, z: real, root: real)
    requires n > 0.0 && z > 0.0 && root >= 0.0
    ensures Margin(n, z, root) >= 0.0
  {
    assert z * root >= 0.0;
  }

  lemma ScoreTestScaled(n: real, z: real, w: real, x: real, v: real)
    requires n > 0.0 && w == z * z / n
    ensures n * (x * x) <= z * z * v <==> x * x <= w * v
  {
    assert z * z * v == n * (w * v) by {
      assert z * z == n * w;
    }
    ScaleIff(n, x * x, w * v);
  }

  /**
   * The interval is exactly the region the score test accepts: `p` lies between the bounds if and
   * only if n (s/n - p)^2 <= z^2 p (1 - p). The observed proportion itself lies inside, and both
   * bounds are reached without clamping.
   */
  lemma WilsonIsScoreRegion(successes: nat, total: nat, z: real, root: real, p: real)
    requires 0 < total && successes <= total && z > 0.0
    requires IsRoot(root, Radicand(successes as real / total as real, total as real, z))
    requires 0.0 <= p <= 1.0
    ensures var (low, high) := WilsonInterval(successes, total, z, root);
            var n, s := total as real, successes as real / total as real;
            && (low <= p <= high <==> n * ((s - p) * (s - p)) <= z * z * (p * (1.0 - p)))
            && 0.0 <= low <= s <= high <= 1.0
            && low == Centre(s, n, z) - Margin(n, z, root)
            && high == Centre(s, n, z) + Margin(n, z, root)
  {
    ProportionInRange(successes, total);
    var n, s := total as real, successes as real / total as real;
    RealRegion(s, n, z, root, p);
    RealRegion(s, n, z, root, s);
    ProductNonNegative(s, 1.0 - s);
    ProductNonNegative(z * z, s * (1.0 - s));
    assert n * ((s - s) * (s - s)) == 0.0;
    Unclamped(successes, total, z, root);
  }

  lemma Unclamped(successes: nat, total: nat, z: real, root: real)
    requires 0 < total && successes <= total && z > 0.0
    requires IsRoot(root, Radicand(successes as real / total as real, total as real, z))
    requires var n, s := total as real, successes as real / total as real;
             0.0 <= Centre(s, n, z) - Margin(n, z, root) && Centre(s, n, z) + Margin(n, z, root) <= 1.0
    ensures var n, s := total as real, successes as real / total as real;
            WilsonInterval(successes, total, z, root) ==
            (Centre(s, n, z) - Margin(n, z, root), Centre(s, n, z) + Margin(n, z, root))
  {
  }

  lemma RealRegion(s: real, n: real, z: real, root: real, p: real)
    requires n > 0.0 && z > 0.0 && 0.0 <= s <= 1.0 && IsRoot(root, Radicand(s, n, z))
    ensures var c, m := Centre(s, n, z), Margin(n, z, root);
            && (c - m <= p <= c + m <==> n * ((s - p) * (s - p)) <= z * z * (p * (1.0 - p)))
            && 0.0 <= c - m && c + m <= 1.0
  {
    var w := z * z / n;
    var c, m := Centre(s, n, z), Margin(n, z, root);
    Cleared(s, n, z, root, w);
    MarginNonNegative(n, z, root);
    ClampingIsIdle(s, w, c, m);
    Region(s, w, p, c, m);
    ScoreTestScaled(n, z, w, s - p, p * (1.0 - p));
  }

  /** The same statement about the centre and margin alone. */
  lemma Region(s: real, w: real, p: real, c: real, m: real)
    requires w >= 0.0 && m >= 0.0
    requires c * (1.0 + w) == s + w / 2.0
    requires (m * m) * ((1.0 + w) * (1.0 + w)) == w * (s * (1.0 - s) + w / 4.0)
    ensures c - m <= p <= c + m <==> (s - p) * (s - p) <= w * (p * (1.0 - p))
  {
    CompleteTheSquare(s, w, p, c, m * m);
    WithinMargin(p - c, m);
    Band(c, m, p, (p - c) * (p - c), m * m);
  }

  lemma Band(c: real, m: real, p: real, square: real, msq: real)
    requires square <= msq <==> -m <= p - c <= m
    ensures square <= msq <==> c - m <= p <= c + m
  {
  }

  lemma ProportionInRange(successes: nat, total: nat)
    requires 0 < total && successes <= total
    ensures 0.0 <= successes as real / total as real <= 1.0
  {
  }

  /** Without observations there is no interval to speak of: both bounds are zero. */
  lemma NoObservations(z: real, root: real)
    requires z > 0.0
    ensures WilsonInterval(0, 0, z, root) == (0.0, 0.0)
  {
  }
}
