/**
 Scalar multiplication on the curve: double-and-add computes repeated addition.

 Associativity of point addition and the order of the generator are hypotheses.
 */
module Group {
  import opened Modular
  import opened Curve

  /** Point addition is associative on the points of the curve. */
  ghost predicate Associative(p: int)
    requires p >= 2
  {
    forall a, b, c | OnCurve(p, a) && OnCurve(p, b) && OnCurve(p, c) ::
      PointAdd(p, PointAdd(p, a, b), c) == PointAdd(p, a, PointAdd(p, b, c))
  }

  /** a added k times */
  function Times(p: int, a: Point, k: nat): Point
    requires p >= 2
    decreases k
  {
    if k == 0 then Infinity else PointAdd(p, Times(p, a, k - 1), a)
  }

  /** A point whose multiples stay on the curve. */
  predicate Regular(p: int, a: Point)
    requires p > 0
  {
    OnCurve(p, a) && (a.Affine? ==> a.y != 0)
  }

  ghost predicate HasOrder(p: int, g: Point, n: nat)
    requires p >= 2
  {
    n > 0 && Times(p, g, n) == Infinity && forall k | 0 < k < n :: Times(p, g, k) != Infinity
  }

  lemma {:induction false} TimesOnCurve(p: int, a: Point, k: nat)
    requires IsPrime(p) && p > 2 && Regular(p, a)
    ensures OnCurve(p, Times(p, a, k))
    decreases k
  {
    if k > 0 {
      TimesOnCurve(p, a, k - 1);
      AdditionOnCurve(p, Times(p, a, k - 1), a);
    }
  }

  lemma AddInfinity(p: int, a: Point)
    requires p >= 2
    ensures PointAdd(p, a, Infinity) == a && PointAdd(p, Infinity, a) == a
  {}

  lemma {:induction false} TimesSum(p: int, a: Point, m: nat, n: nat)
    requires IsPrime(p) && p > 2 && Regular(p, a) && Associative(p)
    ensures Times(p, a, m + n) == PointAdd(p, Times(p, a, m), Times(p, a, n))
    decreases n
  {
    hide IsPrime, PointAdd, OnCurve;
    if n == 0 {
      AddInfinity(p, Times(p, a, m));
    } else {
      TimesSum(p, a, m, n - 1);
      TimesOnCurve(p, a, m);
      TimesOnCurve(p, a, n - 1);
      assert Times(p, a, m + n) == PointAdd(p, Times(p, a, m + n - 1), a);
    }
  }

  lemma {:induction false} TimesProduct(p: int, a: Point, m: nat, n: nat)
    requires IsPrime(p) && p > 2 && Regular(p, a) && Associative(p)
    requires m * n >= 0
    ensures Times(p, Times(p, a, m), n) == Times(p, a, m * n)
    decreases n
  {
    hide IsPrime, PointAdd, Regular, Associative;
    if n == 0 {
      assert m * n == 0;
    } else {
      assert m * n == m * (n - 1) + m && m * (n - 1) >= 0;
      TimesProduct(p, a, m, n - 1);
      TimesSum(p, a, m * (n - 1), m);
    }
  }

  /** Multiples of the order can be left out. */
  lemma {:induction false} TimesPeriodic(p: int, g: Point, n: nat, k: nat, m: nat)
    requires IsPrime(p) && p > 2 && Regular(p, g) && Associative(p) && Times(p, g, n) == Infinity
    requires k + n * m >= 0
    ensures Times(p, g, k + n * m) == Times(p, g, k)
    decreases m
  {
    hide IsPrime, PointAdd, Regular, Associative, Times;
    if m > 0 {
      assert k + n * m == (k + n * (m - 1)) + n && n * (m - 1) >= 0;
      TimesPeriodic(p, g, n, k, m - 1);
      TimesSum(p, g, k + n * (m - 1), n);
      AddInfinity(p, Times(p, g, k + n * (m - 1)));
    } else {
      assert n * m == 0;
    }
  }

  // ------------------------------------------------------------------ double-and-add

  /** The remaining steps of point_mul's loop, from accumulator r and doubled point pt. */
  function MulFrom(p: int, r: Point, pt: Point, scalar: nat, steps: nat): Point
    requires p >= 2
    decreases steps, scalar
  {
    if steps == 0 then r
    else
      MulFrom(p, if scalar % 2 == 1 then PointAdd(p, r, pt) else r, PointAdd(p, pt, pt), scalar / 2, steps - 1)
  }

  lemma {:induction false} DoubleAndAdd(p: int, a: Point, u: nat, w: nat, scalar: nat, steps: nat)
    requires IsPrime(p) && p > 2 && Regular(p, a) && Associative(p)
    requires scalar < Pow(2, steps) && u + w * scalar >= 0
    ensures MulFrom(p, Times(p, a, u), Times(p, a, w), scalar, steps) == Times(p, a, u + w * scalar)
    decreases steps
  {
    hide IsPrime, PointAdd, Regular, Associative, Times;
    if steps == 0 {
      assert w * scalar == 0;
    } else {
      var half, odd := scalar / 2, scalar % 2;
      TimesSum(p, a, u, w);
      TimesSum(p, a, w, w);
      HalvedSum(u, w, scalar);
      DoubleAndAdd(p, a, if odd == 1 then u + w else u, w + w, half, steps - 1);
    }
  }

  lemma HalvedSum(u: nat, w: nat, scalar: nat)
    ensures var half, odd := scalar / 2, scalar % 2;
            var next := if odd == 1 then u + w else u;
            next + (w + w) * half == u + w * scalar && next + (w + w) * half >= 0
  {
    var half, odd := scalar / 2, scalar % 2;
    assert scalar == half + half + odd;
    assert w * scalar == w * half + w * half + w * odd;
    assert (w + w) * half == w * half + w * half;
    assert w * half >= 0;
  }

  // ------------------------------------------------------------------ opposite points

  /** Two affine points add to infinity only when they are opposite. */
  lemma OppositePoints(p: int, a: Point, b: Point)
    requires IsPrime(p) && p > 2 && OnCurve(p, a) && OnCurve(p, b) && a.Affine? && b.Affine?
    requires PointAdd(p, a, b) == Infinity
    ensures b == Affine(a.x, p - a.y) && a.y > 0
  {
    assert a.x == b.x && a.y != b.y;
    ZeroSum(Residual(b.x, b.y), Residual(a.x, a.y), p);
    assert Residual(b.x, b.y) - Residual(a.x, a.y) == b.y * b.y - a.y * a.y;
    SameSquare(p, b.y, a.y);
  }

  /** Multiples k and n - k of a point of order n are opposite. */
  lemma ComplementIsOpposite(p: int, g: Point, n: nat, k: nat)
    requires IsPrime(p) && p > 2 && Regular(p, g) && Associative(p) && HasOrder(p, g, n) && 0 < k < n
    ensures var a, b := Times(p, g, k), Times(p, g, n - k);
            a.Affine? && b == Affine(a.x, p - a.y) && a.y > 0
  {
    hide IsPrime, PointAdd, Regular, Associative, Times, OnCurve;
    TimesSum(p, g, k, n - k);
    TimesOnCurve(p, g, k);
    TimesOnCurve(p, g, n - k);
    assert Times(p, g, k) != Infinity && Times(p, g, n - k) != Infinity;
    OppositePoints(p, Times(p, g, k), Times(p, g, n - k));
  }

  // ------------------------------------------------------------------ the verification equation

  lemma LessByFactor(n: nat, q: nat, b: nat)
    requires n * q < n * b
    ensures q < b
  {}

  lemma ProductLeq(e: nat, m: nat, d: nat)
    requires e <= m
    ensures e * d <= m * d
  {}

  lemma Expand(n: nat, d: nat)
    requires n > 0
    ensures (n - 1) * d == n * d - d && n * (d + 1) == n * d + n
  {}

  lemma QuotientBound(n: nat, d: nat, k: nat, e: nat, q: nat, ed: nat, nq: nat, s: nat)
    requires k < n && e < n && ed == e * d && nq == n * q && k + ed == nq + s
    ensures q <= d
  {
    ProductLeq(e, n - 1, d);
    Expand(n, d);
    LessByFactor(n, q, d + 1);
  }

  lemma ReducedScalar(n: nat, d: nat, k: nat, e: nat, q: nat, s: nat)
    requires k < n && e < n && k + e * d == n * q + s
    ensures q <= d && d * (n - e) >= 0 && s + d * (n - e) == k + n * (d - q)
  {
    QuotientBound(n, d, k, e, q, e * d, n * q, s);
    assert d * (n - e) == n * d - e * d;
    assert n * (d - q) == n * d - n * q;
  }

  /** s G + (n - e)(d G) is k G when s is k + e d modulo the order. */
  lemma CombinedMultiple(p: int, g: Point, n: nat, d: nat, k: nat, e: nat, q: nat, s: nat)
    requires IsPrime(p) && p > 2 && Regular(p, g) && Associative(p) && Times(p, g, n) == Infinity
    requires k < n && e < n && k + e * d == n * q + s
    ensures PointAdd(p, Times(p, g, s), Times(p, Times(p, g, d), n - e)) == Times(p, g, k)
  {
    hide IsPrime, PointAdd, Regular, Associative, Times;
    ReducedScalar(n, d, k, e, q, s);
    TimesProduct(p, g, d, n - e);
    TimesSum(p, g, s, d * (n - e));
    TimesPeriodic(p, g, n, k, d - q);
  }

  lemma DivMod(x: nat, n: nat)
    requires n > 0
    ensures x == n * (x / n) + x % n
  {}
}
