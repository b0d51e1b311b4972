/** Arithmetic modulo a prime: Euclid's lemma, Fermat's little theorem and its consequences. */
module Modular {

  /** Standard primality: no proper divisor. */
  ghost predicate IsPrime(p: int) {
    p >= 2 && forall d | 1 < d < p :: p % d != 0
  }

  /** x is a multiple of p. */
  predicate Zero(x: int, p: int)
    requires p > 0
  {
    x % p == 0
  }

  lemma Quotient(x: int, p: int) returns (k: int)
    requires p > 0 && Zero(x, p)
    ensures x == k * p
  {
    k := x / p;
  }

  lemma MultipleIsZero(k: int, p: int)
    requires p > 0
    ensures Zero(k * p, p) && Zero(p * k, p)
  {
    var x := k * p;
    var q, r := x / p, x % p;
    assert x == p * q + r;
    assert (k - q) * p == r;
    SmallMultiple(k - q, r, p);
  }

  lemma MultipleBound(k: int, p: int)
    requires p > 0
    ensures k >= 1 ==> k * p >= p
    ensures k <= -1 ==> k * p <= -p
  {}

  lemma SmallMultiple(k: int, d: int, p: int)
    requires p > 0 && -p < d < p && d == k * p
    ensures d == 0
  {
    MultipleBound(k, p);
  }

  lemma ZeroSum(x: int, y: int, p: int)
    requires p > 0 && Zero(x, p) && Zero(y, p)
    ensures Zero(x + y, p) && Zero(x - y, p)
  {
    var k := Quotient(x, p);
    var l := Quotient(y, p);
    assert x + y == (k + l) * p && x - y == (k - l) * p;
    MultipleIsZero(k + l, p);
    MultipleIsZero(k - l, p);
  }

  lemma ZeroProduct(x: int, y: int, p: int)
    requires p > 0 && Zero(x, p)
    ensures Zero(x * y, p) && Zero(y * x, p)
  {
    var k := Quotient(x, p);
    assert x * y == (k * y) * p;
    MultipleIsZero(k * y, p);
  }

  /** x and x % p differ by a multiple of p. */
  lemma Reduced(x: int, p: int)
    requires p > 0
    ensures Zero(x - x % p, p) && Zero(x % p - x, p)
  {
    assert x - x % p == (x / p) * p && x % p - x == (-(x / p)) * p;
    MultipleIsZero(x / p, p);
    MultipleIsZero(-(x / p), p);
  }

  /** Equal remainders and a difference that is a multiple of p are the same thing. */
  lemma SameRemainder(x: int, y: int, p: int)
    requires p > 0
    ensures Zero(x - y, p) <==> x % p == y % p
  {
    Reduced(x, p);
    Reduced(y, p);
    if x % p == y % p {
      ZeroSum(x - x % p, y - y % p, p);
    }
    if Zero(x - y, p) {
      ZeroSum(x - y, y - y % p, p);
      ZeroSum(x - y + (y - y % p), x - x % p, p);
      var d := x % p - y % p;
      assert Zero(d, p);
      var k := Quotient(d, p);
      SmallMultiple(k, d, p);
    }
  }

  // ------------------------------------------------------------------ Euclid's lemma

  lemma {:induction false} EuclidDescent(p: int, a: int, b: int)
    requires IsPrime(p) && 0 < a < p && Zero(a * b, p)
    ensures Zero(b, p)
    decreases a
  {
    if a > 1 {
      var q, r := p / a, p % a;
      MultipleIsZero(b, p);
      ZeroProduct(a * b, q, p);
      ZeroSum(p * b, (a * b) * q, p);
      assert r * b == p * b - (a * b) * q by {
        assert p == q * a + r;
        assert p * b == (q * a + r) * b == (a * b) * q + r * b;
      }
      EuclidDescent(p, r, b);
    }
  }

  /** A prime dividing a product divides a factor. */
  lemma Euclid(p: int, a: int, b: int)
    requires IsPrime(p) && Zero(a * b, p)
    ensures Zero(a, p) || Zero(b, p)
  {
    if !Zero(a, p) {
      var r := a % p;
      Reduced(a, p);
      ZeroProduct(r - a, b, p);
      ZeroSum(a * b, (r - a) * b, p);
      assert a * b + (r - a) * b == r * b;
      EuclidDescent(p, r, b);
    }
  }

  // ------------------------------------------------------------------ powers

  function Pow(b: int, e: nat): int {
    if e == 0 then 1 else b * Pow(b, e - 1)
  }

  /** Python's pow(b, e, p). */
  function PowMod(b: int, e: nat, p: int): (r: int)
    requires p > 0
    ensures 0 <= r < p
  {
    Pow(b, e) % p
  }

  lemma {:induction false} PowSum(b: int, m: nat, n: nat)
    ensures Pow(b, m + n) == Pow(b, m) * Pow(b, n)
    decreases m
  {
    if m > 0 {
      PowSum(b, m - 1, n);
      assert Pow(b, m + n) == b * Pow(b, m - 1 + n);
      assert b * (Pow(b, m - 1) * Pow(b, n)) == (b * Pow(b, m - 1)) * Pow(b, n);
    }
  }

  lemma {:induction false} PowProduct(b: int, m: nat, n: nat)
    requires m * n >= 0
    ensures Pow(b, m * n) == Pow(Pow(b, m), n)
    decreases n
  {
    if n > 0 {
      assert m * (n - 1) >= 0;
      PowProduct(b, m, n - 1);
      assert m * n == m + m * (n - 1);
      PowSum(b, m, m * (n - 1));
    } else {
      assert m * n == 0;
    }
  }

  /** Congruent bases have congruent powers. */
  lemma {:induction false} PowCongruent(a: int, b: int, e: nat, p: int)
    requires p > 0 && Zero(a - b, p)
    ensures Zero(Pow(a, e) - Pow(b, e), p)
    decreases e
  {
    if e == 0 {
      MultipleIsZero(0, p);
    } else {
      PowCongruent(a, b, e - 1, p);
      var u, v := Pow(a, e - 1), Pow(b, e - 1);
      ZeroProduct(a - b, u, p);
      ZeroProduct(u - v, b, p);
      ZeroSum((a - b) * u, (u - v) * b, p);
      assert a * u - b * v == (a - b) * u + (u - v) * b;
    }
  }

  // ------------------------------------------------------------------ Fermat's little theorem

  function Factorial(n: nat): nat {
    if n == 0 then 1 else n * Factorial(n - 1)
  }

  function Product(s: seq<int>): int {
    if s == [] then 1 else s[0] * Product(s[1..])
  }

  lemma {:induction false} ProductAppend(s: seq<int>, t: seq<int>)
    ensures Product(s + t) == Product(s) * Product(t)
  {
    if s == [] {
      assert s + t == t;
    } else {
      ProductAppend(s[1..], t);
      assert (s + t)[1..] == s[1..] + t;
      assert s[0] * (Product(s[1..]) * Product(t)) == (s[0] * Product(s[1..])) * Product(t);
    }
  }

  /** n different values between 1 and n. */
  ghost predicate Filled(s: seq<int>, n: nat) {
    && |s| == n
    && (forall i | 0 <= i < n :: 1 <= s[i] <= n)
    && (forall i, j | 0 <= i < j < n :: s[i] != s[j])
  }

  lemma {:induction false} DistinctCount(s: seq<int>)
    requires forall i, j | 0 <= i < j < |s| :: s[i] != s[j]
    ensures |set x | x in s| == |s|
  {
    if s != [] {
      DistinctCount(s[1..]);
      assert (set x | x in s) == {s[0]} + set x | x in s[1..];
      assert s[0] !in s[1..];
    }
  }

  function Interval(n: nat): (r: set<int>)
    ensures |r| == n && forall x :: x in r <==> 1 <= x <= n
  {
    if n == 0 then {} else Interval(n - 1) + {n}
  }

  /** The largest value is taken. */
  lemma LargestTaken(s: seq<int>, n: nat)
    requires Filled(s, n) && n > 0
    ensures n in s
  {
    var taken, allowed := (set x | x in s), Interval(n);
    DistinctCount(s);
    assert taken <= allowed;
    assert allowed == taken + (allowed - taken);
    assert |allowed - taken| == 0;
    assert n in allowed;
  }

  function Without(s: seq<int>, k: nat): seq<int>
    requires k < |s|
  {
    s[..k] + s[k + 1..]
  }

  lemma ProductWithout(s: seq<int>, k: nat)
    requires k < |s|
    ensures Product(s) == s[k] * Product(Without(s, k))
  {
    hide Product;
    var l, r := s[..k], s[k + 1..];
    assert s == l + ([s[k]] + r);
    ProductAppend(l, [s[k]] + r);
    ProductAppend(l, r);
    ProductCons(s[k], r);
    Exchange(Product(l), s[k], Product(r));
  }

  lemma ProductCons(x: int, r: seq<int>)
    ensures Product([x] + r) == x * Product(r)
  {
    assert ([x] + r)[1..] == r;
  }

  lemma Exchange(x: int, y: int, z: int)
    ensures x * (y * z) == y * (x * z)
  {}

  lemma FilledWithout(s: seq<int>, n: nat, k: nat)
    requires Filled(s, n) && k < n && s[k] == n
    ensures Filled(Without(s, k), n - 1)
  {
    var rest := Without(s, k);
    assert forall i | 0 <= i < n - 1 :: rest[i] == if i < k then s[i] else s[i + 1];
  }

  lemma {:induction false} FilledProduct(s: seq<int>, n: nat)
    requires Filled(s, n)
    ensures Product(s) == Factorial(n)
    decreases n
  {
    if n > 0 {
      LargestTaken(s, n);
      var k :| 0 <= k < n && s[k] == n;
      FilledWithout(s, n, k);
      ProductWithout(s, k);
      FilledProduct(Without(s, k), n - 1);
    }
  }

  /** The remainders of a, 2a, ..., na. */
  function Row(a: int, p: int, n: nat): (r: seq<int>)
    requires p > 0
    ensures |r| == n && forall i | 0 <= i < n :: r[i] == (a * (i + 1)) % p
  {
    if n == 0 then [] else Row(a, p, n - 1) + [(a * n) % p]
  }

  lemma {:induction false} RowProduct(a: int, p: int, n: nat)
    requires p > 0
    ensures Zero(Product(Row(a, p, n)) - Pow(a, n) * Factorial(n), p)
    decreases n
  {
    if n == 0 {
      MultipleIsZero(0, p);
    } else {
      RowProduct(a, p, n - 1);
      var u, v, r := Product(Row(a, p, n - 1)), Pow(a, n - 1) * Factorial(n - 1), (a * n) % p;
      ProductAppend(Row(a, p, n - 1), [r]);
      assert Product([r]) == r * Product([r][1..]) == r;
      Reduced(a * n, p);
      ZeroProduct(u - v, r, p);
      ZeroProduct(r - a * n, v, p);
      ZeroSum((u - v) * r, (r - a * n) * v, p);
      RowStep(u, v, r, a, n);
    }
  }

  lemma RowStep(u: int, v: int, r: int, a: int, n: nat)
    requires n > 0 && v == Pow(a, n - 1) * Factorial(n - 1)
    ensures (u - v) * r + (r - a * n) * v == u * r - Pow(a, n) * Factorial(n)
  {
    var x, y := Pow(a, n - 1), Factorial(n - 1);
    assert (a * n) * (x * y) == (a * x) * (n * y);
    assert (u - v) * r + (r - a * n) * v == u * r - (a * n) * v;
  }

  lemma SmallNotZero(x: int, p: int)
    requires 0 < x < p
    ensures !Zero(x, p)
  {}

  lemma RowNotZero(a: int, p: int, i: int)
    requires IsPrime(p) && !Zero(a, p) && 0 < i < p
    ensures 1 <= (a * i) % p <= p - 1
  {
    SmallNotZero(i, p);
    if Zero(a * i, p) {
      Euclid(p, a, i);
    }
  }

  lemma RowDistinct(a: int, p: int, i: int, j: int)
    requires IsPrime(p) && !Zero(a, p) && 0 < i < j < p
    ensures (a * i) % p != (a * j) % p
  {
    if (a * j) % p == (a * i) % p {
      SameRemainder(a * j, a * i, p);
      assert a * j - a * i == a * (j - i);
      SmallNotZero(j - i, p);
      Euclid(p, a, j - i);
    }
  }

  lemma RowFilled(a: int, p: int)
    requires IsPrime(p) && !Zero(a, p)
    ensures Filled(Row(a, p, p - 1), p - 1)
  {
    assert p >= 2;
    hide IsPrime, Zero;
    var n, r := p - 1, Row(a, p, p - 1);
    forall i | 0 <= i < n ensures 1 <= r[i] <= n {
      RowNotZero(a, p, i + 1);
    }
    forall i, j | 0 <= i < j < n ensures r[i] != r[j] {
      RowEntriesDiffer(a, p, i, j);
    }
  }

  lemma RowEntriesDiffer(a: int, p: int, i: nat, j: nat)
    requires IsPrime(p) && !Zero(a, p) && i < j < p - 1
    ensures Row(a, p, p - 1)[i] != Row(a, p, p - 1)[j]
  {
    hide IsPrime, Zero;
    RowDistinct(a, p, i + 1, j + 1);
  }

  lemma {:induction false} FactorialNotZero(p: int, n: nat)
    requires IsPrime(p) && n < p
    ensures !Zero(Factorial(n), p)
    decreases n
  {
    if n > 0 {
      FactorialNotZero(p, n - 1);
      if Zero(Factorial(n), p) {
        Euclid(p, n, Factorial(n - 1));
      }
    }
  }

  /** a^(p-1) is 1 modulo a prime p that does not divide a. */
  lemma Fermat(a: int, p: int)
    requires IsPrime(p) && !Zero(a, p)
    ensures Zero(Pow(a, p - 1) - 1, p)
  {
    var f, e := Factorial(p - 1), Pow(a, p - 1);
    RowProduct(a, p, p - 1);
    RowFilled(a, p);
    FilledProduct(Row(a, p, p - 1), p - 1);
    ZeroProduct(f - e * f, -1, p);
    assert (f - e * f) * -1 == f * (e - 1);
    FactorialNotZero(p, p - 1);
    Euclid(p, f, e - 1);
  }

  /** pow(d, p - 2, p) is the inverse of d. */
  lemma InverseByPower(d: int, p: int)
    requires IsPrime(p) && !Zero(d, p)
    ensures Zero(d * PowMod(d, p - 2, p) - 1, p)
  {
    Fermat(d, p);
    var e := Pow(d, p - 2);
    Reduced(e, p);
    ZeroProduct(e % p - e, d, p);
    ZeroSum(d * e - 1, d * (e % p - e), p);
    assert d * e - 1 + d * (e % p - e) == d * (e % p) - 1;
  }
}
