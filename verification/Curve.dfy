/**
 The curve y^2 = x^3 + 7 over the integers modulo p, with the point addition of bip340.py.
 */
module Curve {
  import opened Modular

  /** Python's None is the point at infinity. */
  datatype Point = Infinity | Affine(x: int, y: int)

  /** y^2 - x^3 - 7 */
  function Residual(x: int, y: int): int {
    y * y - x * x * x - 7
  }

  /** A point of the curve with reduced coordinates, or infinity. */
  predicate OnCurve(p: int, a: Point)
    requires p > 0
  {
    a.Affine? ==> 0 <= a.x < p && 0 <= a.y < p && Zero(Residual(a.x, a.y), p)
  }

  function Slope(p: int, a: Point, b: Point): int
    requires p >= 2 && a.Affine? && b.Affine?
  {
    if a == b then (3 * a.x * a.x * PowMod(2 * a.y, p - 2, p)) % p
    else ((b.y - a.y) * PowMod(b.x - a.x, p - 2, p)) % p
  }

  /** point_add */
  function PointAdd(p: int, a: Point, b: Point): Point
    requires p >= 2
  {
    if a.Infinity? then b
    else if b.Infinity? then a
    else if a.x == b.x && a.y != b.y then Infinity
    else
      var lam := Slope(p, a, b);
      var x3 := (lam * lam - a.x - b.x) % p;
      Affine(x3, (lam * (a.x - x3) - a.y) % p)
  }

  // ------------------------------------------------------------------ the line through two points

  /** Where the line of this slope through (x1, y1) meets the curve again, without reduction. */
  function ThirdX(x1: int, x2: int, lam: int): int {
    lam * lam - x1 - x2
  }

  function ThirdY(x1: int, y1: int, x2: int, lam: int): int {
    lam * (x1 - ThirdX(x1, x2, lam)) - y1
  }

  /** x^3 + 7 minus the square of the line at x */
  function Gap(x1: int, y1: int, lam: int, x: int): int {
    x * x * x + 7 - (lam * (x - x1) + y1) * (lam * (x - x1) + y1)
  }

  function LinearPart(x1: int, y1: int, x2: int, lam: int): int {
    var x3 := ThirdX(x1, x2, lam);
    2 * lam * lam * x1 - 2 * lam * y1 - (x1 * x2 + x1 * x3 + x2 * x3)
  }

  function ConstantPart(x1: int, y1: int, x2: int, lam: int): int {
    7 - lam * lam * x1 * x1 + 2 * lam * y1 * x1 - y1 * y1 + x1 * x2 * ThirdX(x1, x2, lam)
  }

  /** The gap is a product of three roots up to a linear remainder. */
  lemma GapFactors(x1: int, y1: int, x2: int, lam: int, x: int)
    ensures Gap(x1, y1, lam, x) ==
            (x - x1) * (x - x2) * (x - ThirdX(x1, x2, lam))
            + LinearPart(x1, y1, x2, lam) * x + ConstantPart(x1, y1, x2, lam)
  {}

  lemma GapAtFirst(x1: int, y1: int, lam: int)
    ensures Gap(x1, y1, lam, x1) == -Residual(x1, y1)
  {}

  lemma GapAtSecond(x1: int, y1: int, x2: int, y2: int, lam: int)
    ensures var e := lam * (x2 - x1) - (y2 - y1); Gap(x1, y1, lam, x2) == -Residual(x2, y2) - e * (2 * y2 + e)
  {}

  lemma GapAtThird(x1: int, y1: int, x2: int, lam: int)
    ensures Residual(ThirdX(x1, x2, lam), ThirdY(x1, y1, x2, lam)) == -Gap(x1, y1, lam, ThirdX(x1, x2, lam))
  {}

  lemma TangentLinearPart(x1: int, y1: int, lam: int)
    ensures LinearPart(x1, y1, x1, lam) == 3 * x1 * x1 - lam * (2 * y1)
  {}

  lemma Negated(x: int, p: int)
    requires p > 0 && Zero(x, p)
    ensures Zero(-x, p)
  {
    ZeroProduct(x, -1, p);
  }

  /** When the linear remainder vanishes, the third point is on the curve. */
  lemma ThirdPointCloses(p: int, x1: int, y1: int, x2: int, lam: int)
    requires p > 0 && Zero(Residual(x1, y1), p) && Zero(LinearPart(x1, y1, x2, lam), p)
    ensures Zero(Residual(ThirdX(x1, x2, lam), ThirdY(x1, y1, x2, lam)), p)
  {
    hide Zero, Residual, Gap, LinearPart, ConstantPart;
    var a, b, x3 := LinearPart(x1, y1, x2, lam), ConstantPart(x1, y1, x2, lam), ThirdX(x1, x2, lam);
    GapAtFirst(x1, y1, lam);
    GapAtThird(x1, y1, x2, lam);
    GapFactors(x1, y1, x2, lam, x1);
    GapFactors(x1, y1, x2, lam, x3);
    Negated(Residual(x1, y1), p);
    ZeroProduct(a, x3 - x1, p);
    ZeroSum(-Residual(x1, y1), a * (x3 - x1), p);
    assert a * x3 + b == (a * x1 + b) + a * (x3 - x1);
    Negated(Gap(x1, y1, lam, x3), p);
  }

  lemma ChordCloses(p: int, x1: int, y1: int, x2: int, y2: int, lam: int)
    requires IsPrime(p) && Zero(Residual(x1, y1), p) && Zero(Residual(x2, y2), p)
    requires Zero(lam * (x2 - x1) - (y2 - y1), p) && !Zero(x2 - x1, p)
    ensures Zero(Residual(ThirdX(x1, x2, lam), ThirdY(x1, y1, x2, lam)), p)
  {
    assert p >= 2;
    hide IsPrime, Zero, Residual, Gap, LinearPart, ConstantPart;
    var a, b, e := LinearPart(x1, y1, x2, lam), ConstantPart(x1, y1, x2, lam), lam * (x2 - x1) - (y2 - y1);
    GapAtFirst(x1, y1, lam);
    GapAtSecond(x1, y1, x2, y2, lam);
    GapFactors(x1, y1, x2, lam, x1);
    GapFactors(x1, y1, x2, lam, x2);
    ZeroProduct(e, 2 * y2 + e, p);
    ZeroSum(Residual(x1, y1), Residual(x2, y2), p);
    ZeroSum(Residual(x1, y1) - Residual(x2, y2), e * (2 * y2 + e), p);
    assert a * (x2 - x1) == Gap(x1, y1, lam, x2) - Gap(x1, y1, lam, x1);
    Euclid(p, a, x2 - x1);
    ThirdPointCloses(p, x1, y1, x2, lam);
  }

  lemma TangentCloses(p: int, x1: int, y1: int, lam: int)
    requires p > 0 && Zero(Residual(x1, y1), p) && Zero(lam * (2 * y1) - 3 * x1 * x1, p)
    ensures Zero(Residual(ThirdX(x1, x1, lam), ThirdY(x1, y1, x1, lam)), p)
  {
    hide Zero, Residual, LinearPart;
    TangentLinearPart(x1, y1, lam);
    Negated(lam * (2 * y1) - 3 * x1 * x1, p);
    ThirdPointCloses(p, x1, y1, x1, lam);
  }

  // ------------------------------------------------------------------ reduction and slopes

  lemma ResidualCongruent(p: int, x: int, y: int, x': int, y': int)
    requires p > 0 && Zero(x - x', p) && Zero(y - y', p)
    ensures Zero(Residual(x, y), p) <==> Zero(Residual(x', y'), p)
  {
    hide Zero;
    ZeroProduct(y - y', y + y', p);
    ZeroProduct(x - x', x * x + x * x' + x' * x', p);
    var dy, dx := (y - y') * (y + y'), (x - x') * (x * x + x * x' + x' * x');
    assert Residual(x, y) - Residual(x', y') == dy - dx;
    ZeroSum(dy, dx, p);
    if Zero(Residual(x, y), p) {
      ZeroSum(Residual(x, y), dy - dx, p);
    }
    if Zero(Residual(x', y'), p) {
      ZeroSum(Residual(x', y'), dy - dx, p);
    }
  }

  /** A quotient computed by a power: (num * pow(den, p - 2, p)) % p times den is num. */
  lemma QuotientByPower(p: int, num: int, den: int)
    requires IsPrime(p) && !Zero(den, p)
    ensures Zero((num * PowMod(den, p - 2, p)) % p * den - num, p)
  {
    InverseByPower(den, p);
    assert p >= 2;
    hide IsPrime, Zero;
    var inv := PowMod(den, p - 2, p);
    var lam := (num * inv) % p;
    Reduced(num * inv, p);
    ZeroProduct(lam - num * inv, den, p);
    ZeroProduct(den * inv - 1, num, p);
    ZeroSum((lam - num * inv) * den, num * (den * inv - 1), p);
    Regrouped(num, inv, den);
    assert (lam - num * inv) * den == lam * den - num * inv * den;
  }

  lemma Regrouped(num: int, inv: int, den: int)
    ensures num * (den * inv - 1) == num * inv * den - num
  {}

  lemma DifferentNotZero(p: int, x1: int, x2: int)
    requires p > 0 && 0 <= x1 < p && 0 <= x2 < p && x1 != x2
    ensures !Zero(x2 - x1, p)
  {
    if Zero(x2 - x1, p) {
      var k := Quotient(x2 - x1, p);
      SmallMultiple(k, x2 - x1, p);
    }
  }

  lemma DoubleNotZero(p: int, y: int)
    requires IsPrime(p) && p > 2 && 0 < y < p
    ensures !Zero(2 * y, p)
  {
    SmallNotZero(2, p);
    SmallNotZero(y, p);
    if Zero(2 * y, p) {
      Euclid(p, 2, y);
    }
  }

  /** The reduced third point is on the curve when the unreduced one is. */
  lemma ReducedThirdPoint(p: int, x1: int, y1: int, x2: int, lam: int)
    requires p > 0 && Zero(Residual(ThirdX(x1, x2, lam), ThirdY(x1, y1, x2, lam)), p)
    ensures var x3 := (lam * lam - x1 - x2) % p; OnCurve(p, Affine(x3, (lam * (x1 - x3) - y1) % p))
  {
    hide Residual;
    var bigX, bigY := ThirdX(x1, x2, lam), ThirdY(x1, y1, x2, lam);
    var x3 := bigX % p;
    var mid := lam * (x1 - x3) - y1;
    var y3 := mid % p;
    Reduced(bigX, p);
    Reduced(mid, p);
    ZeroProduct(x3 - bigX, -lam, p);
    assert mid - bigY == (x3 - bigX) * -lam;
    ZeroSum(y3 - mid, mid - bigY, p);
    ResidualCongruent(p, x3, y3, bigX, bigY);
  }

  /** point_add of two different points, or of a point with itself, except for y = 0. */
  lemma AdditionOnCurve(p: int, a: Point, b: Point)
    requires IsPrime(p) && p > 2 && OnCurve(p, a) && OnCurve(p, b)
    requires !(a == b && a.Affine? && a.y == 0)
    ensures OnCurve(p, PointAdd(p, a, b))
  {
    hide IsPrime, Residual;
    if a.Affine? && b.Affine? && (a.x != b.x || a == b) {
      var lam := Slope(p, a, b);
      if a == b {
        DoubleNotZero(p, a.y);
        QuotientByPower(p, 3 * a.x * a.x, 2 * a.y);
        TangentCloses(p, a.x, a.y, lam);
      } else {
        DifferentNotZero(p, a.x, b.x);
        QuotientByPower(p, b.y - a.y, b.x - a.x);
        ChordCloses(p, a.x, a.y, b.x, b.y, lam);
      }
      ReducedThirdPoint(p, a.x, a.y, b.x, lam);
    }
  }

  lemma DoublingOffCurve(p: int, a: Point)
    requires IsPrime(p) && p > 7 && OnCurve(p, a) && a.Affine? && a.y == 0
    ensures !OnCurve(p, PointAdd(p, a, a))
  {
    var x := a.x;
    FlatDoubling(p, a);
    assert p > 7;
    SixtyThree(p);
    hide IsPrime, Residual, PointAdd, Zero;
    Reduced(-2 * x, p);
    if Zero(Residual((-2 * x) % p, 0), p) {
      assert Zero(0, p) by {
        MultipleIsZero(0, p);
      }
      ResidualCongruent(p, (-2 * x) % p, 0, -2 * x, 0);
      ZeroProduct(Residual(x, 0), 8, p);
      ZeroSum(Residual(-2 * x, 0), 8 * Residual(x, 0), p);
      MinusSixtyThree(x);
      Negated(-63, p);
    }
  }

  lemma MinusSixtyThree(x: int)
    ensures Residual(-2 * x, 0) + 8 * Residual(x, 0) == -63
  {}

  lemma FlatDoubling(p: int, a: Point)
    requires p > 2 && a.Affine? && a.y == 0
    ensures PointAdd(p, a, a) == Affine((-2 * a.x) % p, 0)
  {
    assert Pow(0, p - 2) == 0;
    assert Slope(p, a, a) == 0;
  }

  lemma SixtyThree(p: int)
    requires IsPrime(p) && p > 7
    ensures !Zero(63, p)
  {
    SmallNotZero(7, p);
    SmallNotZero(3, p);
    if Zero(9 * 7, p) {
      Euclid(p, 9, 7);
      Euclid(p, 3, 3);
    }
  }

  /**
   point_add maps two points of the curve to a point of the curve or to infinity, exactly
   unless it doubles a point with y = 0.
   */
  lemma PointAddCloses(p: int, a: Point, b: Point)
    requires IsPrime(p) && p > 7 && OnCurve(p, a) && OnCurve(p, b)
    ensures OnCurve(p, PointAdd(p, a, b)) <==> !(a == b && a.Affine? && a.y == 0)
  {
    if a == b && a.Affine? && a.y == 0 {
      DoublingOffCurve(p, a);
    } else {
      AdditionOnCurve(p, a, b);
    }
  }

  /** The addition stays on the curve. */
  ghost predicate Closed(p: int)
    requires p >= 2
  {
    forall a, b | OnCurve(p, a) && OnCurve(p, b) :: OnCurve(p, PointAdd(p, a, b))
  }

  /** No point of the curve has y = 0. */
  ghost predicate NoFlatPoint(p: int)
    requires p >= 2
  {
    forall x :: !OnCurve(p, Affine(x, 0))
  }

  /** Modulo a prime above 7 the addition stays on the curve exactly when no point has y = 0. */
  lemma ClosedExactly(p: int)
    requires IsPrime(p) && p > 7
    ensures Closed(p) <==> NoFlatPoint(p)
  {
    if NoFlatPoint(p) {
      forall a, b | OnCurve(p, a) && OnCurve(p, b) ensures OnCurve(p, PointAdd(p, a, b)) {
        hide OnCurve, PointAdd;
        PointAddCloses(p, a, b);
        assert a.Affine? ==> !OnCurve(p, Affine(a.x, 0));
      }
    }
    forall x | OnCurve(p, Affine(x, 0)) ensures !Closed(p) {
      hide OnCurve, PointAdd;
      PointAddCloses(p, Affine(x, 0), Affine(x, 0));
    }
  }

  lemma CubeNotZero(p: int, x: int)
    requires p > 7 && Zero(x * x * x + 7, p)
    ensures !Zero(x, p)
  {
    SmallNotZero(7, p);
    hide Zero;
    if Zero(x, p) {
      var cube := x * x * x;
      assert cube == x * (x * x);
      ZeroProduct(x, x * x, p);
      ZeroSum(cube + 7, cube, p);
    }
  }

  /** A point with y = 0 makes -7 a cube, and a cube to the power (p - 1) / 3 is 1. */
  lemma FlatPointCube(p: int, x: int, k: nat)
    requires IsPrime(p) && p > 7 && 3 * k == p - 1 && OnCurve(p, Affine(x, 0))
    ensures Zero(Pow(-7, k) - 1, p)
  {
    hide IsPrime, Zero;
    assert Residual(x, 0) == -(x * x * x) - 7;
    Negated(Residual(x, 0), p);
    CubeNotZero(p, x);
    Fermat(x, p);
    SquareIsPower(x);
    PowProduct(x, 3, k);
    PowCongruent(x * x * x, -7, k, p);
    ZeroSum(Pow(x, p - 1) - 1, Pow(x * x * x, k) - Pow(-7, k), p);
  }

  /** Euler's test for cubes: when -7 fails it, no point has y = 0 and the addition stays on the curve. */
  lemma ClosedByTest(p: int, k: nat)
    requires IsPrime(p) && p > 7 && 3 * k == p - 1 && !Zero(Pow(-7, k) - 1, p)
    ensures Closed(p) && NoFlatPoint(p)
  {
    hide IsPrime, Zero, OnCurve, Closed;
    forall x ensures !OnCurve(p, Affine(x, 0)) {
      if OnCurve(p, Affine(x, 0)) {
        FlatPointCube(p, x, k);
      }
    }
    ClosedExactly(p);
  }

  // ------------------------------------------------------------------ lift_x

  /** x^3 + 7, reduced */
  function SquareAt(p: int, x: int): (r: int)
    requires p > 0
    ensures 0 <= r < p
  {
    (PowMod(x, 3, p) + 7) % p
  }

  /** lift_x: the point with this x and an even y, or None. */
  function LiftX(p: int, x: int): Point
    requires p >= 2
  {
    if x >= p then Infinity
    else
      var square := SquareAt(p, x);
      var y := PowMod(square, (p + 1) / 4, p);
      if PowMod(y, 2, p) != square then Infinity
      else Affine(x, if y % 2 == 0 then y else p - y)
  }

  lemma SquareIsPower(y: int)
    ensures Pow(y, 2) == y * y
    ensures Pow(y, 3) == y * y * y
  {
    assert Pow(y, 1) == y * Pow(y, 0);
  }

  lemma SquareReduced(p: int, x: int)
    requires p > 0
    ensures Zero(SquareAt(p, x) - (x * x * x + 7), p)
  {
    hide Zero;
    SquareIsPower(x);
    Reduced(x * x * x, p);
    Reduced(PowMod(x, 3, p) + 7, p);
    ZeroSum(x * x * x % p - x * x * x, (PowMod(x, 3, p) + 7) % p - (PowMod(x, 3, p) + 7), p);
  }

  /** pow(y^2, (p + 1) / 4, p) is a square root of y^2. */
  lemma RootOfSquare(p: int, y: int, k: nat)
    requires IsPrime(p) && 4 * k == p + 1
    ensures Zero(Pow(y * y, k) * Pow(y * y, k) - y * y, p)
  {
    PowSum(y * y, k, k);
    SquareIsPower(y);
    PowProduct(y, 2, k + k);
    PowSum(y, p - 1, 2);
    assert Pow(y * y, k) * Pow(y * y, k) == Pow(y, p - 1) * (y * y);
    if Zero(y, p) {
      ZeroProduct(y, y, p);
      ZeroProduct(y * y, Pow(y, p - 1) - 1, p);
    } else {
      Fermat(y, p);
      ZeroProduct(Pow(y, p - 1) - 1, y * y, p);
    }
    assert (Pow(y, p - 1) - 1) * (y * y) == Pow(y, p - 1) * (y * y) - y * y;
  }

  lemma RootPower(p: int, y: int, s: int, k: nat)
    requires IsPrime(p) && 4 * k == p + 1 && Zero(s - y * y, p)
    ensures var c := PowMod(s, k, p); Zero(c * c - y * y, p)
  {
    RootOfSquare(p, y, k);
    PowCongruent(s, y * y, k, p);
    assert p >= 2;
    hide IsPrime, Zero;
    var c, u, v := PowMod(s, k, p), Pow(s, k), Pow(y * y, k);
    Reduced(u, p);
    ZeroSum(c - u, u - v, p);
    ZeroProduct(c - v, c + v, p);
    ZeroSum((c - v) * (c + v), v * v - y * y, p);
    assert (c - v) * (c + v) == c * c - v * v;
  }

  lemma DifferenceOfSquares(c: int, y: int)
    ensures (c - y) * (c + y) == c * c - y * y
  {}

  lemma ZeroBelowTwice(p: int, d: int)
    requires p > 0 && Zero(d, p) && -p < d < 2 * p
    ensures d == 0 || d == p
  {
    var m := Quotient(d, p);
    TwiceBound(m, p);
  }

  lemma TwiceBound(m: int, p: int)
    requires p > 0
    ensures m >= 2 ==> m * p >= 2 * p
    ensures m <= -1 ==> m * p <= -p
    ensures m == 1 ==> m * p == p
  {}

  /** Two reduced numbers with the same square are equal or opposite. */
  lemma SameSquare(p: int, c: int, y: int)
    requires IsPrime(p) && 0 <= c < p && 0 <= y < p && Zero(c * c - y * y, p)
    ensures c == y || c == p - y
  {
    DifferenceOfSquares(c, y);
    Euclid(p, c - y, c + y);
    assert p >= 2;
    hide IsPrime, Zero;
    if Zero(c - y, p) {
      ZeroBelowTwice(p, c - y);
    } else {
      ZeroBelowTwice(p, c + y);
    }
  }

  lemma PlainResidual(p: int, x: int, y: int)
    requires p > 0
    ensures Zero(Residual(x, y), p) <==> Zero((x * x * x + 7) - y * y, p)
  {
    if Zero(Residual(x, y), p) {
      Negated(Residual(x, y), p);
    }
    if Zero((x * x * x + 7) - y * y, p) {
      Negated((x * x * x + 7) - y * y, p);
    }
  }

  /** lift_x answers only with points of the curve that have this x and an even y. */
  lemma LiftXSound(p: int, x: int)
    requires p > 2 && p % 2 == 1 && 0 <= x && LiftX(p, x).Affine?
    ensures var a := LiftX(p, x); OnCurve(p, a) && a.x == x && a.y % 2 == 0
  {
    hide Residual, Pow, PowMod, Zero, SquareAt;
    var square := SquareAt(p, x);
    var y := PowMod(square, (p + 1) / 4, p);
    RootOnCurve(p, x, y);
    OppositeOnCurve(p, x, y);
  }

  /** A number whose square is the reduced x^3 + 7 gives a curve point. */
  lemma RootOnCurve(p: int, x: int, y: int)
    requires p > 0 && PowMod(y, 2, p) == SquareAt(p, x)
    ensures Zero(Residual(x, y), p)
  {
    hide Zero, Residual;
    var square := SquareAt(p, x);
    SquareIsPower(y);
    Reduced(y * y, p);
    SquareReduced(p, x);
    ZeroSum(y * y % p - y * y, square - (x * x * x + 7), p);
    Negated(y * y % p - y * y - (square - (x * x * x + 7)), p);
    PlainResidual(p, x, y);
    Negated(y * y - (x * x * x + 7), p);
  }

  lemma OppositeOnCurve(p: int, x: int, y: int)
    requires p > 0 && Zero(Residual(x, y), p)
    ensures Zero(Residual(x, p - y), p)
  {
    hide Zero;
    assert Residual(x, p - y) == Residual(x, y) + (p - 2 * y) * p;
    MultipleIsZero(p - 2 * y, p);
    ZeroSum(Residual(x, y), (p - 2 * y) * p, p);
  }

  /** lift_x finds the even point for the x of every curve point. */
  lemma LiftXComplete(p: int, x: int, y: int)
    requires IsPrime(p) && p % 4 == 3 && OnCurve(p, Affine(x, y))
    ensures LiftX(p, x) == Affine(x, if y % 2 == 0 then y else p - y)
  {
    assert p >= 2;
    hide IsPrime, Residual, Pow, PowMod, Zero, SquareAt, LiftX;
    var k := (p + 1) / 4;
    var c := PowMod(SquareAt(p, x), k, p);
    SquareCongruent(p, x, y);
    RootPower(p, y, SquareAt(p, x), k);
    RootAccepted(p, y, SquareAt(p, x), c);
    LiftXIs(p, x, c);
    SameEven(p, c, y);
  }

  lemma LiftXIs(p: int, x: int, c: int)
    requires p >= 2 && x < p && c == PowMod(SquareAt(p, x), (p + 1) / 4, p) && PowMod(c, 2, p) == SquareAt(p, x)
    ensures LiftX(p, x) == Affine(x, if c % 2 == 0 then c else p - c)
  {
    hide PowMod, SquareAt;
  }

  lemma SameEven(p: int, c: int, y: int)
    requires p % 2 == 1 && (c == y || c == p - y)
    ensures (if c % 2 == 0 then c else p - c) == (if y % 2 == 0 then y else p - y)
  {
    OddMinus(p, y);
  }

  lemma OddMinus(p: int, y: int)
    requires p % 2 == 1
    ensures (p - y) % 2 == 1 - y % 2
  {
    var a, b, r := p / 2, y / 2, y % 2;
    assert p - y == 2 * (a - b) + (1 - r);
  }

  lemma SquareCongruent(p: int, x: int, y: int)
    requires p > 0 && Zero(Residual(x, y), p)
    ensures Zero(SquareAt(p, x) - y * y, p)
  {
    hide Zero, Residual, SquareAt;
    var square := SquareAt(p, x);
    SquareReduced(p, x);
    PlainResidual(p, x, y);
    ZeroSum(square - (x * x * x + 7), (x * x * x + 7) - y * y, p);
  }

  lemma RootAccepted(p: int, y: int, square: int, c: int)
    requires IsPrime(p) && 0 <= c < p && 0 <= y < p && 0 <= square < p
    requires Zero(square - y * y, p) && Zero(c * c - y * y, p)
    ensures PowMod(c, 2, p) == square && (c == y || c == p - y)
  {
    SameSquare(p, c, y);
    assert p >= 2;
    hide IsPrime, Zero;
    ZeroSum(c * c - y * y, square - y * y, p);
    SameRemainder(c * c, square, p);
    SquareIsPower(c);
    SmallRemainder(square, p);
  }

  lemma SmallRemainder(x: int, p: int)
    requires 0 <= x < p
    ensures x % p == x
  {}

  /** lift_x answers None exactly for the x of no curve point. */
  lemma LiftXExact(p: int, x: int)
    requires IsPrime(p) && p % 4 == 3 && 0 <= x
    ensures LiftX(p, x).Infinity? <==> !exists y :: OnCurve(p, Affine(x, y))
  {
    if LiftX(p, x).Affine? {
      LiftXSound(p, x);
      assert OnCurve(p, Affine(x, LiftX(p, x).y));
    }
    forall y | OnCurve(p, Affine(x, y)) ensures LiftX(p, x).Affine? {
      LiftXComplete(p, x, y);
    }
  }
}
