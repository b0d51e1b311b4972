/**
 What point_add means: the sum of two curve points is the reflection of the third point in which the
 line through them, or the tangent, meets the curve.  Nothing here computes a slope.
 */
module ChordTangent {
  import opened Modular
  import opened Curve

  /** The reflection of a point. */
  function Opposite(p: int, a: Point): Point {
    if a.Infinity? || a.y == 0 then a else Affine(a.x, p - a.y)
  }

  /** The direction of the chord through two points, or of the tangent where they are one. */
  function Across(a: Point, b: Point): int
    requires a.Affine? && b.Affine?
  {
    if a == b then 2 * a.y else b.x - a.x
  }

  function Up(a: Point, b: Point): int
    requires a.Affine? && b.Affine?
  {
    if a == b then 3 * a.x * a.x else b.y - a.y
  }

  /** (x, y) lies on the line through a and b modulo p. */
  predicate OnLine(p: int, a: Point, b: Point, x: int, y: int)
    requires p > 0 && a.Affine? && b.Affine?
  {
    Zero(Up(a, b) * (x - a.x) - Across(a, b) * (y - a.y), p)
  }

  /** The x of the three points of a line sum to the square of its slope. */
  predicate ThreeRoots(p: int, a: Point, b: Point, x: int)
    requires p > 0 && a.Affine? && b.Affine?
  {
    Zero(Across(a, b) * Across(a, b) * (a.x + b.x + x) - Up(a, b) * Up(a, b), p)
  }

  /** c is the sum of a and b: the reflection of c is the third point on their line. */
  predicate IsSum(p: int, a: Point, b: Point, c: Point)
    requires p > 0
  {
    if a.Infinity? then c == b
    else if b.Infinity? then c == a
    else if b == Opposite(p, a) then c.Infinity?
    else
      && c.Affine? && 0 <= c.x < p && 0 <= c.y < p
      && OnLine(p, a, b, c.x, -c.y) && ThreeRoots(p, a, b, c.x)
  }

  // ------------------------------------------------------------------ the computed point is such a point

  lemma SameXOpposite(p: int, a: Point, b: Point)
    requires IsPrime(p) && p > 2 && OnCurve(p, a) && OnCurve(p, b) && a.Affine? && b.Affine?
    requires a.x == b.x && a.y != b.y
    ensures b == Opposite(p, a)
  {
    ZeroSum(Residual(b.x, b.y), Residual(a.x, a.y), p);
    assert Residual(b.x, b.y) - Residual(a.x, a.y) == b.y * b.y - a.y * a.y;
    SameSquare(p, b.y, a.y);
  }

  lemma NotItsOpposite(p: int, y: int)
    requires IsPrime(p) && p > 2 && 0 < y < p
    ensures p - y != y
  {
    if p - y == y {
      DoubleNotZero(p, y);
      MultipleIsZero(1, p);
    }
  }

  /** The points of different x, or a point that is not its own opposite, have a direction that is not vertical. */
  lemma NotVertical(p: int, a: Point, b: Point)
    requires IsPrime(p) && p > 2 && OnCurve(p, a) && OnCurve(p, b) && a.Affine? && b.Affine?
    requires a.x != b.x || (a == b && a.y != 0)
    ensures !Zero(Across(a, b), p) && b != Opposite(p, a)
  {
    hide IsPrime, Residual, Zero;
    if a == b {
      DoubleNotZero(p, a.y);
      NotItsOpposite(p, a.y);
    } else {
      DifferentNotZero(p, a.x, b.x);
    }
  }

  lemma SlopeIsSlope(p: int, a: Point, b: Point)
    requires IsPrime(p) && p > 2 && OnCurve(p, a) && OnCurve(p, b) && a.Affine? && b.Affine?
    requires a.x != b.x || (a == b && a.y != 0)
    ensures Zero(Slope(p, a, b) * Across(a, b) - Up(a, b), p)
  {
    hide IsPrime, Residual, Zero, PowMod;
    NotVertical(p, a, b);
    QuotientByPower(p, Up(a, b), Across(a, b));
  }

  /** A point computed with the slope lies on the line. */
  lemma ComputedOnLine(p: int, x1: int, y1: int, u: int, v: int, lam: int, x3: int, y3: int)
    requires p > 0 && Zero(lam * u - v, p) && Zero(y3 - (lam * (x1 - x3) - y1), p)
    ensures Zero(v * (x3 - x1) - u * (-y3 - y1), p)
  {
    hide Zero;
    var e, f, d := lam * u - v, y3 - (lam * (x1 - x3) - y1), x1 - x3;
    ZeroProduct(e, d, p);
    ZeroProduct(f, u, p);
    ZeroSum(e * d, f * u, p);
    OnLineIdentity(x1, y1, u, v, lam, x3, y3, e, f, d);
  }

  lemma OnLineIdentity(x1: int, y1: int, u: int, v: int, lam: int, x3: int, y3: int, e: int, f: int, d: int)
    requires e == lam * u - v && d == x1 - x3 && f == y3 - lam * d + y1
    ensures e * d + f * u == v * (x3 - x1) - u * (-y3 - y1)
  {
    assert e * d == lam * u * d - v * d;
    assert f * u == y3 * u - lam * d * u + y1 * u;
  }

  lemma ComputedRoots(p: int, x1: int, x2: int, u: int, v: int, lam: int, x3: int)
    requires p > 0 && Zero(lam * u - v, p) && Zero(x3 - (lam * lam - x1 - x2), p)
    ensures Zero(u * u * (x1 + x2 + x3) - v * v, p)
  {
    hide Zero;
    var e, f := lam * u - v, x3 - (lam * lam - x1 - x2);
    ZeroProduct(e, lam * u + v, p);
    ZeroProduct(f, u * u, p);
    ZeroSum(e * (lam * u + v), f * (u * u), p);
    RootsIdentity(x1, x2, u, v, lam, x3);
  }

  lemma RootsIdentity(x1: int, x2: int, u: int, v: int, lam: int, x3: int)
    ensures (lam * u - v) * (lam * u + v) + (x3 - (lam * lam - x1 - x2)) * (u * u) == u * u * (x1 + x2 + x3) - v * v
  {}

  lemma SumIsSum(p: int, a: Point, b: Point)
    requires IsPrime(p) && p > 2 && OnCurve(p, a) && OnCurve(p, b)
    requires !(a == b && a.Affine? && a.y == 0)
    ensures IsSum(p, a, b, PointAdd(p, a, b))
  {
    hide IsPrime, OnCurve;
    if a.Affine? && b.Affine? {
      if a.x == b.x && a.y != b.y {
        SameXOpposite(p, a, b);
      } else {
        NotVertical(p, a, b);
        SlopeIsSlope(p, a, b);
        AffineSum(p, a, b, Slope(p, a, b));
      }
    }
  }

  lemma AffineSum(p: int, a: Point, b: Point, lam: int)
    requires p > 0 && a.Affine? && b.Affine? && Zero(lam * Across(a, b) - Up(a, b), p)
    ensures var x3 := (lam * lam - a.x - b.x) % p;
            OnLine(p, a, b, x3, -((lam * (a.x - x3) - a.y) % p)) && ThreeRoots(p, a, b, x3)
  {
    hide *;
    var x3 := (lam * lam - a.x - b.x) % p;
    Reduced(lam * lam - a.x - b.x, p);
    Reduced(lam * (a.x - x3) - a.y, p);
    ThirdPoint(p, a, b, lam, x3, (lam * (a.x - x3) - a.y) % p);
  }

  lemma ThirdPoint(p: int, a: Point, b: Point, lam: int, x3: int, y3: int)
    requires p > 0 && a.Affine? && b.Affine? && Zero(lam * Across(a, b) - Up(a, b), p)
    requires Zero(x3 - (lam * lam - a.x - b.x), p) && Zero(y3 - (lam * (a.x - x3) - a.y), p)
    ensures OnLine(p, a, b, x3, -y3) && ThreeRoots(p, a, b, x3)
  {
    hide Zero, Across, Up;
    ComputedOnLine(p, a.x, a.y, Across(a, b), Up(a, b), lam, x3, y3);
    ComputedRoots(p, a.x, b.x, Across(a, b), Up(a, b), lam, x3);
  }

  // ------------------------------------------------------------------ there is only one

  lemma ReducedEqual(p: int, x: int, y: int)
    requires p > 0 && 0 <= x < p && 0 <= y < p && Zero(x - y, p)
    ensures x == y
  {
    SameRemainder(x, y, p);
    SmallRemainder(x, p);
    SmallRemainder(y, p);
  }

  /** Two points that both complete the line are one. */
  lemma OneThirdPoint(p: int, a: Point, b: Point, c: Point, d: Point)
    requires IsPrime(p) && a.Affine? && b.Affine? && c.Affine? && d.Affine? && !Zero(Across(a, b), p)
    requires 0 <= c.x < p && 0 <= c.y < p && 0 <= d.x < p && 0 <= d.y < p
    requires OnLine(p, a, b, c.x, -c.y) && ThreeRoots(p, a, b, c.x)
    requires OnLine(p, a, b, d.x, -d.y) && ThreeRoots(p, a, b, d.x)
    ensures c == d
  {
    assert p >= 2;
    hide IsPrime, Zero, Across, Up;
    var u, v := Across(a, b), Up(a, b);
    ZeroSum(u * u * (a.x + b.x + c.x) - v * v, u * u * (a.x + b.x + d.x) - v * v, p);
    RootsDiffer(u, v, a.x + b.x, c.x, d.x);
    Euclid(p, u, u * (c.x - d.x));
    Euclid(p, u, c.x - d.x);
    ReducedEqual(p, c.x, d.x);
    ZeroSum(v * (c.x - a.x) - u * (-c.y - a.y), v * (d.x - a.x) - u * (-d.y - a.y), p);
    LinesDiffer(u, v * (c.x - a.x), a.y, c.y, d.y);
    Euclid(p, u, c.y - d.y);
    ReducedEqual(p, c.y, d.y);
  }

  lemma RootsDiffer(u: int, v: int, s: int, x: int, y: int)
    ensures (u * u * (s + x) - v * v) - (u * u * (s + y) - v * v) == u * (u * (x - y))
  {}

  lemma LinesDiffer(u: int, w: int, y: int, c: int, d: int)
    ensures (w - u * (-c - y)) - (w - u * (-d - y)) == u * (c - d)
  {}

  /**
   point_add gives the sum by chord and tangent and nothing else: infinity exactly for opposite points,
   and otherwise the one point whose reflection is the third on the line.
   */
  lemma SumExactly(p: int, a: Point, b: Point, c: Point)
    requires IsPrime(p) && p > 2 && OnCurve(p, a) && OnCurve(p, b)
    requires !(a == b && a.Affine? && a.y == 0)
    ensures PointAdd(p, a, b) == c <==> IsSum(p, a, b, c)
  {
    hide PointAdd, OnLine, ThreeRoots, IsPrime, Residual, Zero;
    SumIsSum(p, a, b);
    if a.Affine? && b.Affine? && IsSum(p, a, b, c) && b != Opposite(p, a) {
      if a.x == b.x && a.y != b.y {
        SameXOpposite(p, a, b);
      } else {
        NotVertical(p, a, b);
        OneThirdPoint(p, a, b, c, PointAdd(p, a, b));
      }
    }
  }

  lemma LineSymmetric(p: int, a: Point, b: Point, x: int, y: int)
    requires p > 0 && a.Affine? && b.Affine? && OnLine(p, a, b, x, y)
    ensures OnLine(p, b, a, x, y)
  {
    if a != b {
      var u, v := b.x - a.x, b.y - a.y;
      assert -v * (x - b.x) - -u * (y - b.y) == -(v * (x - a.x) - u * (y - a.y)) by {
        SymmetricIdentity(a.x, a.y, b.x, b.y, x, y);
      }
      hide Zero;
      Negated(v * (x - a.x) - u * (y - a.y), p);
    }
  }

  lemma SymmetricIdentity(x1: int, y1: int, x2: int, y2: int, x: int, y: int)
    ensures var u, v := x2 - x1, y2 - y1; -v * (x - x2) - -u * (y - y2) == -(v * (x - x1) - u * (y - y1))
  {}

  /** Addition does not depend on the order of the points. */
  lemma Commutative(p: int, a: Point, b: Point)
    requires IsPrime(p) && p > 2 && OnCurve(p, a) && OnCurve(p, b)
    ensures PointAdd(p, a, b) == PointAdd(p, b, a)
  {
    hide IsPrime, Residual, PointAdd, OnLine, Zero;
    if a != b {
      var c := PointAdd(p, a, b);
      SumIsSum(p, a, b);
      if a.Affine? && b.Affine? && c.Affine? {
        LineSymmetric(p, a, b, c.x, -c.y);
        RootsSymmetric(p, a, b, c.x);
      }
      SumExactly(p, b, a, c);
    }
  }

  lemma RootsSymmetric(p: int, a: Point, b: Point, x: int)
    requires p > 0 && a.Affine? && b.Affine? && ThreeRoots(p, a, b, x)
    ensures ThreeRoots(p, b, a, x)
  {
    if a != b {
      var u, v := b.x - a.x, b.y - a.y;
      assert -u * -u == u * u && -v * -v == v * v;
    }
  }

  /** Addition by chord and tangent on the whole curve. */
  ghost predicate Geometric(p: int)
    requires p >= 2
  {
    forall a, b, c | OnCurve(p, a) && OnCurve(p, b) :: PointAdd(p, a, b) == c <==> IsSum(p, a, b, c)
  }

  lemma GeometricWithoutFlat(p: int)
    requires IsPrime(p) && p > 2 && NoFlatPoint(p)
    ensures Geometric(p)
  {
    hide IsPrime, PointAdd, IsSum, OnCurve;
    forall a, b, c | OnCurve(p, a) && OnCurve(p, b) ensures PointAdd(p, a, b) == c <==> IsSum(p, a, b, c) {
      assert a.Affine? ==> !OnCurve(p, Affine(a.x, 0));
      SumExactly(p, a, b, c);
    }
  }
}
