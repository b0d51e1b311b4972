/**
 What schnorr_verify accepts and what schnorr_sign returns, in the words of BIP-340: with points and
 scalar multiples instead of lift_x and point_mul, and with every hash written out.
 */
module Bip340Verify {
  import opened Python
  import opened Bytes
  import opened Unicode
  import opened Modular
  import opened Curve
  import opened Group
  import opened Bip340
  import opened CubeTest

  // ------------------------------------------------------------------ bytes

  /** Big-endian: the bytes in front count 256 to the number of bytes behind them. */
  lemma {:induction false} IntOfAppended(a: ByteString, b: ByteString)
    ensures IntFromBytes(a + b) == IntFromBytes(a) * Pow(256, |b|) + IntFromBytes(b)
    decreases |b|
  {
    if b == [] {
      assert a + b == a;
    } else {
      var n := |b| - 1;
      IntOfAppended(a, b[..n]);
      assert (a + b)[..|a + b| - 1] == a + b[..n];
      AppendedValue(IntFromBytes(a), Pow(256, n), IntFromBytes(b[..n]), b[n]);
    }
  }

  lemma AppendedValue(x: nat, w: int, y: nat, last: nat)
    ensures 256 * (x * w + y) + last == x * (256 * w) + (256 * y + last)
  {}

  lemma {:induction false} BytesRoundTrip(b: ByteString)
    ensures ToBytes(IntFromBytes(b), |b|) == b
    decreases |b|
  {
    if b != [] {
      var n := |b| - 1;
      BytesRoundTrip(b[..n]);
      LastByte(IntFromBytes(b[..n]), b[n]);
      assert b == b[..n] + [b[n]];
    }
  }

  lemma LastByte(x: nat, last: nat)
    requires last < 256
    ensures (256 * x + last) / 256 == x && (256 * x + last) % 256 == last
  {}

  // ------------------------------------------------------------------ what verify accepts

  /** The point of the curve with this x and an even y. */
  predicate EvenPoint(c: Parameters, a: Point, x: nat) {
    a.Affine? && OnCurve(c.p, a) && a.x == x && a.y % 2 == 0
  }

  /** e of a signature with this r */
  ghost function ChallengeOf(c: Parameters, h: HashFn, r: ByteString, pubkey: ByteString, msg: ByteString): nat {
    IntFromBytes(h(h(Utf8("BIP0340/challenge")) + h(Utf8("BIP0340/challenge")) + (r + pubkey + msg))) % c.n
  }

  /** s G - e K is the even point of r, for the even point K of the key. */
  ghost predicate Equation(c: Parameters, key: Point, r: nat, s: nat, e: nat)
    requires e < c.n
  {
    EvenPoint(c, PointAdd(c.p, Times(c.p, c.g, s), Times(c.p, key, c.n - e)), r)
  }

  ghost predicate Accepts(c: Parameters, h: HashFn, msg: ByteString, pubkey: ByteString, sig: ByteString) {
    && |pubkey| == 32 && |sig| == 64
    && IntFromBytes(sig[0..32]) < c.p && IntFromBytes(sig[32..64]) < c.n
    && exists key :: EvenPoint(c, key, IntFromBytes(pubkey))
                     && Equation(c, key, IntFromBytes(sig[0..32]), IntFromBytes(sig[32..64]),
                                 ChallengeOf(c, h, sig[0..32], pubkey, msg))
  }

  lemma EvenPointsAgree(c: Parameters, a: Point, b: Point, x: nat)
    requires IsPrime(c.p) && EvenPoint(c, a, x) && EvenPoint(c, b, x)
    ensures a == b
  {
    hide IsPrime, LiftX, OnCurve;
    LiftEven(c, a);
    LiftEven(c, b);
  }

  lemma LiftedKey(c: Parameters, x: nat)
    requires IsPrime(c.p)
    ensures LiftX(c.p, x).Affine? ==> EvenPoint(c, LiftX(c.p, x), x)
    ensures forall key :: EvenPoint(c, key, x) ==> LiftX(c.p, x) == key
  {
    hide IsPrime, LiftX, OnCurve;
    if LiftX(c.p, x).Affine? {
      LiftXSound(c.p, x);
    }
    forall key | EvenPoint(c, key, x) ensures LiftX(c.p, x) == key {
      LiftEven(c, key);
    }
  }

  lemma MultiplesComputed(c: Parameters, key: Point, s: nat, t: nat)
    requires Usable(c) && Regular(c.p, key) && s < c.n && t <= c.n
    ensures PointMul(c, c.g, s) == Times(c.p, c.g, s) && PointMul(c, key, t) == Times(c.p, key, t)
    ensures OnCurve(c.p, Times(c.p, c.g, s)) && OnCurve(c.p, Times(c.p, key, t))
  {
    ScalarRange();
    hide IsPrime, Associative, HasOrder, PointMul, Times, OnCurve, Pow;
    PointMulIsTimes(c, c.g, s);
    PointMulIsTimes(c, key, t);
    TimesOnCurve(c.p, c.g, s);
    TimesOnCurve(c.p, key, t);
  }

  lemma SumOnCurve(p: int, a: Point, b: Point)
    requires IsPrime(p) && p > 2 && NoFlatPoint(p) && OnCurve(p, a) && OnCurve(p, b)
    ensures OnCurve(p, PointAdd(p, a, b))
  {
    hide IsPrime, PointAdd, OnCurve;
    assert a.Affine? ==> !OnCurve(p, Affine(a.x, 0));
    AdditionOnCurve(p, a, b);
  }

  lemma KeyIsRegular(c: Parameters, key: Point)
    requires NoFlatPoint(c.p) && key.Affine? && OnCurve(c.p, key)
    ensures Regular(c.p, key)
  {
    hide OnCurve;
    assert !OnCurve(c.p, Affine(key.x, 0));
  }

  lemma ChallengeIs(c: Parameters, h: HashFn, r: ByteString, pubkey: ByteString, msg: ByteString)
    ensures Challenge(c, h, r, pubkey, msg) == ChallengeOf(c, h, r, pubkey, msg) < c.n
  {
    hide IntFromBytes;
  }

  /** The last test of verify, for a key that lifts. */
  lemma VerifyEquation(c: Parameters, h: HashFn, msg: ByteString, pubkey: ByteString, sig: ByteString, key: Point)
    requires Usable(c) && NoFlatPoint(c.p) && |pubkey| == 32 && |sig| == 64
    requires IntFromBytes(sig[0..32]) < c.p && IntFromBytes(sig[32..64]) < c.n
    requires LiftX(c.p, IntFromBytes(pubkey)) == key && key.Affine? && OnCurve(c.p, key)
    requires ChallengeOf(c, h, sig[0..32], pubkey, msg) < c.n
    ensures Verify(c, h, msg, pubkey, sig)
            <==> Equation(c, key, IntFromBytes(sig[0..32]), IntFromBytes(sig[32..64]),
                          ChallengeOf(c, h, sig[0..32], pubkey, msg))
  {
    hide IsPrime, Associative, HasOrder, PointMul, Times, OnCurve, PointAdd, LiftX, Verify, IntFromBytes, Challenge,
         ChallengeOf, NoFlatPoint, Regular;
    var s, e := IntFromBytes(sig[32..64]), ChallengeOf(c, h, sig[0..32], pubkey, msg);
    ChallengeIs(c, h, sig[0..32], pubkey, msg);
    KeyIsRegular(c, key);
    MultiplesComputed(c, key, s, c.n - e);
    SumOnCurve(c.p, Times(c.p, c.g, s), Times(c.p, key, c.n - e));
    VerifyUnfolds(c, h, msg, pubkey, sig);
  }

  lemma VerifyRefuses(c: Parameters, h: HashFn, msg: ByteString, pubkey: ByteString, sig: ByteString)
    requires || |pubkey| != 32 || |sig| != 64 || LiftX(c.p, IntFromBytes(pubkey)).Infinity?
             || IntFromBytes(sig[0..32]) >= c.p || IntFromBytes(sig[32..64]) >= c.n
    ensures !Verify(c, h, msg, pubkey, sig)
  {
    hide LiftX, PointAdd, PointMul, Challenge, IntFromBytes;
  }

  lemma VerifyOfKey(c: Parameters, h: HashFn, msg: ByteString, pubkey: ByteString, sig: ByteString, key: Point)
    requires Usable(c) && NoFlatPoint(c.p) && |pubkey| == 32 && |sig| == 64
    requires IntFromBytes(sig[0..32]) < c.p && IntFromBytes(sig[32..64]) < c.n
    requires EvenPoint(c, key, IntFromBytes(pubkey))
    ensures ChallengeOf(c, h, sig[0..32], pubkey, msg) < c.n
    ensures Verify(c, h, msg, pubkey, sig)
            <==> Equation(c, key, IntFromBytes(sig[0..32]), IntFromBytes(sig[32..64]),
                          ChallengeOf(c, h, sig[0..32], pubkey, msg))
  {
    hide Associative, HasOrder, IsPrime, OnCurve, LiftX, Verify, IntFromBytes, ChallengeOf, NoFlatPoint, Regular,
         Equation,
         Challenge;
    ChallengeIs(c, h, sig[0..32], pubkey, msg);
    LiftedKey(c, IntFromBytes(pubkey));
    VerifyEquation(c, h, msg, pubkey, sig, key);
  }

  /**
   verify accepts exactly the signatures of 64 bytes with r below p and s below n, under keys of 32
   bytes that are the x of a curve point K, for which s G - e K is a curve point with an even y and
   x-coordinate r.
   */
  lemma VerifyExactly(c: Parameters, h: HashFn, msg: ByteString, pubkey: ByteString, sig: ByteString)
    requires Usable(c) && NoFlatPoint(c.p)
    ensures Verify(c, h, msg, pubkey, sig) <==> Accepts(c, h, msg, pubkey, sig)
  {
    hide Associative, HasOrder, IsPrime, OnCurve, LiftX, Verify, IntFromBytes, ChallengeOf, NoFlatPoint, Regular,
         Equation;
    if |pubkey| == 32 && |sig| == 64 && IntFromBytes(sig[0..32]) < c.p && IntFromBytes(sig[32..64]) < c.n {
      LiftedKey(c, IntFromBytes(pubkey));
      var key := LiftX(c.p, IntFromBytes(pubkey));
      if key.Affine? {
        VerifyOfKey(c, h, msg, pubkey, sig, key);
        assert Accepts(c, h, msg, pubkey, sig)
               <==> Equation(c, key, IntFromBytes(sig[0..32]), IntFromBytes(sig[32..64]),
                             ChallengeOf(c, h, sig[0..32], pubkey, msg));
      } else {
        VerifyRefuses(c, h, msg, pubkey, sig);
      }
    } else {
      VerifyRefuses(c, h, msg, pubkey, sig);
    }
  }

  // ------------------------------------------------------------------ one scalar for each key and nonce

  function Product(d: nat, t: nat): nat {
    d * t
  }

  lemma ProductAtLeast(n: nat, x: nat)
    requires n > 0
    ensures Product(n, x) >= x
  {
    assert n * x == x + (n - 1) * x && (n - 1) * x >= 0;
  }

  lemma Periodic(c: Parameters, k: nat, m: nat)
    requires Usable(c)
    ensures Times(c.p, c.g, k + Product(c.n, m)) == Times(c.p, c.g, k)
  {
    OrderReached(c);
    hide IsPrime, Associative, HasOrder, Times, PointAdd, Regular;
    TimesPeriodic(c.p, c.g, c.n, k, m);
  }

  lemma SumOfMultiples(c: Parameters, j: nat, k: nat)
    requires Usable(c)
    ensures Times(c.p, c.g, j + k) == PointAdd(c.p, Times(c.p, c.g, j), Times(c.p, c.g, k))
  {
    hide IsPrime, Associative, HasOrder, Times, PointAdd, Regular;
    TimesSum(c.p, c.g, j, k);
  }

  lemma SumsApart(c: Parameters, x: nat, y: nat, rest: nat, gap: nat, whole: nat)
    requires Usable(c) && Times(c.p, c.g, x) == Times(c.p, c.g, y)
    requires x + rest == whole && y + rest == gap + whole
    ensures Times(c.p, c.g, whole) == Times(c.p, c.g, gap + whole)
  {
    hide Usable, Times, PointAdd;
    SumOfMultiples(c, x, rest);
    SumOfMultiples(c, y, rest);
  }

  /** Sums with one multiple tell the multiples below the order apart. */
  lemma MultiplesDiffer(c: Parameters, i: nat, j: nat, m: nat)
    requires Usable(c) && i <= j < c.n && Times(c.p, c.g, i + m) == Times(c.p, c.g, j + m)
    ensures i == j
  {
    hide Usable, Times, PointAdd, Product;
    var x, y := i + m, j + m;
    var whole := Product(c.n, x);
    ProductAtLeast(c.n, x);
    SumsApart(c, x, y, whole - x, j - i, whole);
    Periodic(c, 0, x);
    Periodic(c, j - i, x);
    BelowOrder(c, 0);
    BelowOrder(c, j - i);
  }

  lemma BelowOrder(c: Parameters, k: nat)
    requires Usable(c) && k < c.n
    ensures Times(c.p, c.g, k) == Infinity <==> k == 0
  {
    OneTimes(c, c.g);
    hide IsPrime, Associative, Times, PointAdd, Regular;
  }

  lemma ProductOfMultiple(c: Parameters, d: nat, t: nat)
    requires Usable(c)
    ensures Times(c.p, Times(c.p, c.g, d), t) == Times(c.p, c.g, Product(d, t))
  {
    hide IsPrime, Associative, HasOrder, Times, PointAdd, Regular;
    var m := Product(d, t);
    TimesProduct(c.p, c.g, d, t);
  }

  /** Under the key of d the sum that verify computes is a multiple of G. */
  lemma KeyedSum(c: Parameters, d: nat, s: nat, t: nat, m: nat)
    requires Usable(c) && 0 < d < c.n && s < c.n && t <= c.n
    requires Times(c.p, Times(c.p, c.g, d), t) == Times(c.p, c.g, m)
    ensures PointAdd(c.p, PointMul(c, c.g, s), PointMul(c, Times(c.p, c.g, d), t)) == Times(c.p, c.g, s + m)
  {
    hide IsPrime, Associative, HasOrder, PointMul, Times, OnCurve, PointAdd, Regular;
    ComputedMultiples(c, d, s, t);
    TimesSum(c.p, c.g, s, m);
  }

  /** The multiple of G that verify compares with r, under the key of d. */
  ghost function Compared(c: Parameters, d: nat, s: nat, e: nat): Point
    requires e < c.n
  {
    Times(c.p, c.g, s + Product(d, c.n - e))
  }

  lemma VerifyUnderKey(c: Parameters, h: HashFn, msg: ByteString, d: nat, xd: nat, sig: ByteString, e: nat)
    requires Usable(c) && EvenMultiple(c, d, xd) && |sig| == 64
    requires e < c.n && e == ChallengeOf(c, h, sig[0..32], BytesFromInt(xd), msg)
    ensures var r, s := IntFromBytes(sig[0..32]), IntFromBytes(sig[32..64]);
            Verify(c, h, msg, BytesFromInt(xd), sig)
            <==> r < c.p && s < c.n && EvenPoint(c, Compared(c, d, s, e), r)
  {
    hide IsPrime, Associative, HasOrder, PointMul, Times, OnCurve, PointAdd, LiftX, Verify, IntFromBytes, BytesFromInt,
         Challenge, ChallengeOf, Regular, Product;
    var pubkey := BytesFromInt(xd);
    ChallengeIs(c, h, sig[0..32], pubkey, msg);
    PointBytes(c, Times(c.p, c.g, d));
    LiftEven(c, Times(c.p, c.g, d));
    var r, s, m := IntFromBytes(sig[0..32]), IntFromBytes(sig[32..64]), Product(d, c.n - e);
    if r < c.p && s < c.n {
      ProductOfMultiple(c, d, c.n - e);
      KeyedSum(c, d, s, c.n - e, m);
      TimesOnCurve(c.p, c.g, s + m);
      VerifyUnfolds(c, h, msg, pubkey, sig);
    } else {
      VerifyRefuses(c, h, msg, pubkey, sig);
    }
  }

  /** For one message, key and r at most one s is accepted. */
  lemma OneScalar(c: Parameters, h: HashFn, msg: ByteString, d: nat, xd: nat, sig: ByteString, other: ByteString)
    requires Usable(c) && EvenMultiple(c, d, xd)
    requires Verify(c, h, msg, BytesFromInt(xd), sig) && Verify(c, h, msg, BytesFromInt(xd), other)
    requires |sig| == |other| == 64 && sig[0..32] == other[0..32]
    ensures sig == other
  {
    hide IsPrime, Associative, HasOrder, Times, OnCurve, Verify, IntFromBytes, BytesFromInt, ChallengeOf, Regular,
         Product,
         Challenge;
    ChallengeIs(c, h, sig[0..32], BytesFromInt(xd), msg);
    var s, t, e := IntFromBytes(sig[32..64]), IntFromBytes(other[32..64]), ChallengeOf(c, h, sig[0..32], BytesFromInt(xd), msg);
    VerifyUnderKey(c, h, msg, d, xd, sig, e);
    VerifyUnderKey(c, h, msg, d, xd, other, e);
    EvenPointsAgree(c, Compared(c, d, s, e), Compared(c, d, t, e), IntFromBytes(sig[0..32]));
    if s <= t {
      MultiplesDiffer(c, s, t, Product(d, c.n - e));
    } else {
      MultiplesDiffer(c, t, s, Product(d, c.n - e));
    }
    BytesRoundTrip(sig[32..64]);
    BytesRoundTrip(other[32..64]);
    assert sig == sig[0..32] + sig[32..64] && other == other[0..32] + other[32..64];
  }

  /** For even-y points of the key d and the nonce k, exactly s = (k + e d) mod n is accepted. */
  lemma AcceptedScalar(c: Parameters, h: HashFn, msg: ByteString, d: nat, k: nat, xd: nat, xk: nat, sig: ByteString)
    requires Usable(c) && EvenMultiple(c, d, xd) && EvenMultiple(c, k, xk)
    requires |sig| == 64 && sig[0..32] == BytesFromInt(xk)
    ensures Verify(c, h, msg, BytesFromInt(xd), sig)
            <==> sig[32..64] == BytesFromInt((k + ChallengeOf(c, h, BytesFromInt(xk), BytesFromInt(xd), msg) * d) % c.n)
  {
    hide Usable, EvenMultiple, Verify, BytesFromInt, ChallengeOf, Challenge;
    var e := ChallengeOf(c, h, BytesFromInt(xk), BytesFromInt(xd), msg);
    var good := BytesFromInt(xk) + BytesFromInt((k + e * d) % c.n);
    ChallengeIs(c, h, BytesFromInt(xk), BytesFromInt(xd), msg);
    EquationHolds(c, h, msg, d, k, xd, xk);
    SplitSignature(BytesFromInt(xk), BytesFromInt((k + e * d) % c.n));
    assert sig == sig[0..32] + sig[32..64];
    if Verify(c, h, msg, BytesFromInt(xd), sig) {
      OneScalar(c, h, msg, d, xd, sig, good);
    }
  }

  // ------------------------------------------------------------------ what sign returns

  /** The multiple of G, its scalar replaced by the opposite one when its y is odd. */
  ghost function EvenOf(c: Parameters, k: nat): nat
    requires k <= c.n
  {
    var a := Times(c.p, c.g, k);
    if a.Affine? && a.y % 2 == 1 then c.n - k else k
  }

  /** The nonce of BIP-340 for a key d with an even point. */
  ghost function NonceOf(c: Parameters, h: HashFn, d: nat, pubkey: ByteString, msg: ByteString, aux: ByteString): nat {
    var mask := h(h(Utf8("BIP0340/aux")) + h(Utf8("BIP0340/aux")) + aux);
    var t := XorBytes(BytesFromInt(d), mask);
    IntFromBytes(h(h(Utf8("BIP0340/nonce")) + h(Utf8("BIP0340/nonce")) + (t + pubkey + msg))) % c.n
  }

  /** The signature BIP-340 prescribes for these inputs. */
  ghost function StandardSignature(c: Parameters, h: HashFn, msg: ByteString, d0: nat, aux: ByteString): ByteString
    requires d0 < c.n && Times(c.p, c.g, d0).Affine? && Times(c.p, c.g, d0).x >= 0
  {
    var pubkey := BytesFromInt(Times(c.p, c.g, d0).x);
    var d := EvenOf(c, d0);
    var k0 := NonceOf(c, h, d, pubkey, msg, aux);
    var r := Times(c.p, c.g, k0);
    if r.Infinity? || r.x < 0 then []
    else
      var e := ChallengeOf(c, h, BytesFromInt(r.x), pubkey, msg);
      BytesFromInt(r.x) + BytesFromInt((EvenOf(c, k0) + e * d) % c.n)
  }

  /** Bytewise, as far as both reach. */
  lemma {:induction false} XorAt(a: ByteString, b: ByteString)
    ensures |XorBytes(a, b)| == if |a| <= |b| then |a| else |b|
    ensures forall i | 0 <= i < |XorBytes(a, b)| :: XorBytes(a, b)[i] == XorByte(a[i], b[i])
    decreases |a|
  {
    hide XorByte;
    if a != [] && b != [] {
      XorAt(a[1..], b[1..]);
    }
  }

  lemma EvenOfIs(c: Parameters, k: nat)
    requires Usable(c) && 0 < k < c.n
    ensures EvenScalar(c, k) == Ok(EvenOf(c, k))
  {
    hide Associative, HasOrder, IsPrime, PointMul, Times, OnCurve, Regular;
    MultipleAffine(c, k);
    EvenScalarIs(c, k);
  }

  lemma NonceIs(c: Parameters, h: HashFn, d: nat, pubkey: ByteString, msg: ByteString, aux: ByteString)
    ensures Nonce(c, h, d, pubkey, msg, aux) == NonceOf(c, h, d, pubkey, msg, aux) < c.n
  {
    hide IntFromBytes, XorBytes, BytesFromInt;
  }

  lemma SignatureIs(c: Parameters, h: HashFn, msg: ByteString, pubkey: ByteString, d: nat, k0: nat)
    requires Usable(c) && 0 < k0 < c.n
    ensures var r := Times(c.p, c.g, k0);
            && r.Affine? && r.x >= 0
            && Signature(c, h, msg, pubkey, d, k0)
               == Ok(BytesFromInt(r.x)
                     + BytesFromInt((EvenOf(c, k0) + ChallengeOf(c, h, BytesFromInt(r.x), pubkey, msg) * d) % c.n))
  {
    hide Associative, HasOrder, IsPrime, PointMul, Times, OnCurve, Regular, BytesFromInt, EvenScalar, EvenOf, Challenge,
         ChallengeOf;
    MultipleAffine(c, k0);
    PointBytes(c, Times(c.p, c.g, k0));
    EvenOfIs(c, k0);
    ChallengeIs(c, h, BytesFromInt(Times(c.p, c.g, k0).x), pubkey, msg);
  }

  lemma StandardIs(c: Parameters, h: HashFn, msg: ByteString, d0: nat, aux: ByteString, k0: nat)
    requires d0 < c.n && Times(c.p, c.g, d0).Affine? && Times(c.p, c.g, d0).x >= 0
    requires k0 == NonceOf(c, h, EvenOf(c, d0), BytesFromInt(Times(c.p, c.g, d0).x), msg, aux) < c.n
    requires Times(c.p, c.g, k0).Affine? && Times(c.p, c.g, k0).x >= 0
    ensures var r, pubkey := BytesFromInt(Times(c.p, c.g, k0).x), BytesFromInt(Times(c.p, c.g, d0).x);
            StandardSignature(c, h, msg, d0, aux)
            == r + BytesFromInt((EvenOf(c, k0) + ChallengeOf(c, h, r, pubkey, msg) * EvenOf(c, d0)) % c.n)
  {
    hide Times, BytesFromInt, EvenOf, ChallengeOf, NonceOf;
  }

  /** What sign returns is the signature of the standard, under the x of d0 G as the public key. */
  lemma SignExactly(c: Parameters, h: HashFn, msg: ByteString, seckey: ByteString, aux: ByteString)
    requires Usable(c) && Sign(c, h, msg, seckey, aux).Ok?
    ensures var d0 := IntFromBytes(seckey);
            && 0 < d0 < c.n && Times(c.p, c.g, d0).Affine? && Times(c.p, c.g, d0).x >= 0
            && PubkeyGen(c, seckey) == Ok(BytesFromInt(Times(c.p, c.g, d0).x))
            && Sign(c, h, msg, seckey, aux) == Ok(StandardSignature(c, h, msg, d0, aux))
  {
    hide Associative, HasOrder, IsPrime, PointMul, Times, OnCurve, Regular, BytesFromInt, IntFromBytes, EvenScalar,
         EvenOf,
         Signature, Nonce, NonceOf, StandardSignature, Verify, ChallengeOf, BytesFromPoint;
    var d0 := IntFromBytes(seckey);
    assert 0 < d0 < c.n;
    MultipleAffine(c, d0);
    PointBytes(c, Times(c.p, c.g, d0));
    EvenOfIs(c, d0);
    var d, pubkey := EvenOf(c, d0), BytesFromInt(Times(c.p, c.g, d0).x);
    NonceIs(c, h, d, pubkey, msg, aux);
    var k0 := NonceOf(c, h, d, pubkey, msg, aux);
    assert k0 != 0;
    SignatureIs(c, h, msg, pubkey, d, k0);
    StandardIs(c, h, msg, d0, aux, k0);
  }

  // ------------------------------------------------------------------ the parameters of the source

  lemma Secp256k1Usable()
    requires GroupLaw(SECP256K1)
    ensures Usable(SECP256K1) && NoFlatPoint(SECP256K1.p)
  {
    hide IsPrime, Associative, HasOrder, Regular, NoFlatPoint, Closed;
    GeneratorOnCurve();
    Secp256k1Closed();
  }

  lemma Secp256k1VerifyExactly(h: HashFn, msg: ByteString, pubkey: ByteString, sig: ByteString)
    requires GroupLaw(SECP256K1)
    ensures Verify(SECP256K1, h, msg, pubkey, sig) <==> Accepts(SECP256K1, h, msg, pubkey, sig)
  {
    hide GroupLaw, Usable, NoFlatPoint, Verify, Accepts;
    Secp256k1Usable();
    VerifyExactly(SECP256K1, h, msg, pubkey, sig);
  }
}
