/**
 Schnorr signatures (bip340.py).  The functions take the domain parameters that are module constants
 in the source; SECP256K1 holds its values, and the theorems hold for all parameters of this shape.
 */
module Bip340 {
  import opened Python
  import opened Bytes
  import opened Unicode
  import opened Modular
  import opened Curve
  import opened Group

  const P: int := 0xFFFFFFFF_FFFFFFFF_FFFFFFFF_FFFFFFFF_FFFFFFFF_FFFFFFFF_FFFFFFFE_FFFFFC2F
  const N: int := 0xFFFFFFFF_FFFFFFFF_FFFFFFFF_FFFFFFFE_BAAEDCE6_AF48A03B_BFD25E8C_D0364141
  const G: Point := Affine(
    0x79BE667E_F9DCBBAC_55A06295_CE870B07_029BFCDB_2DCE28D9_59F2815B_16F81798,
    0x483ADA77_26A3C465_5DA4FBFC_0E1108A8_FD17B448_A6855419_9C47D08F_FB10D4B8)

  const SCALAR_BITS: nat := 256
  const TWO_256: nat := 0x1_00000000_00000000_00000000_00000000_00000000_00000000_00000000_00000000

  datatype Domain = Domain(p: int, n: int, g: Point)

  /** The shape of the parameters: coordinates and scalars fit 32 bytes, and P is 3 modulo 4. */
  type Parameters = c: Domain | 7 < c.p < TWO_256 && c.p % 4 == 3 && 0 < c.n < c.p witness Domain(11, 1, Infinity)

  const SECP256K1: Parameters := Domain(P, N, G)

  // ------------------------------------------------------------------ bytes and integers

  /** x as n big-endian bytes */
  function ToBytes(x: nat, n: nat): (r: ByteString)
    ensures |r| == n
    decreases n
  {
    if n == 0 then [] else ToBytes(x / 256, n - 1) + [x % 256]
  }

  function BytesFromInt(x: nat): (r: ByteString)
    ensures |r| == 32
  {
    ToBytes(x, 32)
  }

  function IntFromBytes(b: ByteString): nat {
    if b == [] then 0 else 256 * IntFromBytes(b[..|b| - 1]) + b[|b| - 1]
  }

  function XorByte(x: Byte, y: Byte): Byte {
    ((x as bv8) ^ (y as bv8)) as int
  }

  function XorBytes(b0: ByteString, b1: ByteString): ByteString {
    if b0 == [] || b1 == [] then [] else [XorByte(b0[0], b1[0])] + XorBytes(b0[1..], b1[1..])
  }

  lemma {:induction false} IntRoundTrip(x: nat, n: nat)
    requires x < Pow(256, n)
    ensures IntFromBytes(ToBytes(x, n)) == x
    decreases n
  {
    if n > 0 {
      IntRoundTrip(x / 256, n - 1);
      assert ToBytes(x, n)[..n - 1] == ToBytes(x / 256, n - 1);
    }
  }

  /** bytes_from_point; Python raises TypeError on None. */
  function BytesFromPoint(a: Point): (r: Result<ByteString>)
    ensures r.Ok? ==> |r.value| == 32
  {
    if a.Infinity? then Raise(TypeError)
    else if 0 <= a.x < TWO_256 then Ok(BytesFromInt(a.x))
    else Raise(OverflowError)
  }

  function HasEvenY(a: Point): Result<bool> {
    if a.Infinity? then Raise(TypeError) else Ok(a.y % 2 == 0)
  }

  function TaggedHash(h: HashFn, tag: string, msg: ByteString): Digest {
    var t := h(Utf8(tag));
    h(t + t + msg)
  }

  // ------------------------------------------------------------------ point_mul

  function PointMul(c: Parameters, a: Point, scalar: nat): Point {
    MulFrom(c.p, Infinity, a, scalar, SCALAR_BITS)
  }

  method ComputePointMul(c: Parameters, a: Point, scalar: nat) returns (r: Point)
    ensures r == PointMul(c, a, scalar)
  {
    r := Infinity;
    var pt, rest := a, scalar;
    for i := 0 to SCALAR_BITS
      invariant MulFrom(c.p, r, pt, rest, SCALAR_BITS - i) == PointMul(c, a, scalar)
    {
      if rest % 2 == 1 {
        r := PointAdd(c.p, r, pt);
      }
      pt := PointAdd(c.p, pt, pt);
      rest := rest / 2;
    }
  }

  // ------------------------------------------------------------------ keys and signatures

  function PubkeyGen(c: Parameters, seckey: ByteString): Result<ByteString> {
    var d0 := IntFromBytes(seckey);
    if !(1 <= d0 <= c.n - 1) then Raise(ValueError) else BytesFromPoint(PointMul(c, c.g, d0))
  }

  /** The scalar whose multiple of G has an even y: k itself or N - k. */
  function EvenScalar(c: Parameters, k: nat): Result<nat>
    requires k < c.n
  {
    var even :- HasEvenY(PointMul(c, c.g, k));
    Ok(if even then k else c.n - k)
  }

  function Nonce(c: Parameters, h: HashFn, d: nat, pubkey: ByteString, msg: ByteString, aux: ByteString): nat {
    var t := XorBytes(BytesFromInt(d), TaggedHash(h, "BIP0340/aux", aux));
    IntFromBytes(TaggedHash(h, "BIP0340/nonce", t + pubkey + msg)) % c.n
  }

  function Challenge(c: Parameters, h: HashFn, r: ByteString, pubkey: ByteString, msg: ByteString): (e: nat)
    ensures e < c.n
  {
    IntFromBytes(TaggedHash(h, "BIP0340/challenge", r + pubkey + msg)) % c.n
  }

  /** The signature before the self-check. */
  function Signature(c: Parameters, h: HashFn, msg: ByteString, pubkey: ByteString, d: nat, k0: nat): Result<ByteString>
    requires k0 < c.n
  {
    var r :- BytesFromPoint(PointMul(c, c.g, k0));
    var k :- EvenScalar(c, k0);
    var e := Challenge(c, h, r, pubkey, msg);
    Ok(r + BytesFromInt((k + e * d) % c.n))
  }

  function Sign(c: Parameters, h: HashFn, msg: ByteString, seckey: ByteString, aux: ByteString): Result<ByteString> {
    var d0 := IntFromBytes(seckey);
    if !(1 <= d0 <= c.n - 1) then Raise(ValueError)
    else if |aux| != 32 then Raise(ValueError)
    else
      var d :- EvenScalar(c, d0);
      var pubkey :- BytesFromPoint(PointMul(c, c.g, d0));
      var k0 := Nonce(c, h, d, pubkey, msg, aux);
      if k0 == 0 then Raise(RuntimeError)
      else
        var sig :- Signature(c, h, msg, pubkey, d, k0);
        if !Verify(c, h, msg, pubkey, sig) then Raise(RuntimeError) else Ok(sig)
  }

  predicate Verify(c: Parameters, h: HashFn, msg: ByteString, pubkey: ByteString, sig: ByteString) {
    if |pubkey| != 32 || |sig| != 64 then false
    else
      var pPt := LiftX(c.p, IntFromBytes(pubkey));
      var r, s := IntFromBytes(sig[0..32]), IntFromBytes(sig[32..64]);
      if pPt.Infinity? || r >= c.p || s >= c.n then false
      else
        var e := Challenge(c, h, sig[0..32], pubkey, msg);
        var rPt := PointAdd(c.p, PointMul(c, c.g, s), PointMul(c, pPt, c.n - e));
        rPt.Affine? && rPt.y % 2 == 0 && rPt.x == r
  }

  // ------------------------------------------------------------------ hypotheses

  /** P is prime, point addition is associative on the curve, and G has order N. */
  ghost predicate GroupLaw(c: Parameters) {
    IsPrime(c.p) && Associative(c.p) && HasOrder(c.p, c.g, c.n)
  }

  ghost predicate Usable(c: Parameters) {
    GroupLaw(c) && Regular(c.p, c.g)
  }

  /** The generator of the source is on the curve. */
  lemma GeneratorOnCurve()
    ensures Regular(SECP256K1.p, SECP256K1.g)
  {
    hide Zero;
    assert Residual(G.x, G.y)
      == -0x1B888E01A06E974017A28A5B4DA436169761C9730B7AEEDF75FC60F6A33CFC7792FE74711F025D590B10E57F1B3A7CE38FFC4C885C515894B45C19C9F413E5E9
         * P;
    MultipleIsZero(
      -0x1B888E01A06E974017A28A5B4DA436169761C9730B7AEEDF75FC60F6A33CFC7792FE74711F025D590B10E57F1B3A7CE38FFC4C885C515894B45C19C9F413E5E9,
      P);
  }

  lemma SquaredPower(b: int, e: nat, v: int)
    requires Pow(b, e) == v
    ensures Pow(b, 2 * e) == v * v
  {
    PowSum(b, e, e);
  }

  lemma ByteIsEightBits()
    ensures Pow(2, 8) == 256
  {
    SquaredPower(2, 2, 4);
    SquaredPower(2, 4, 16);
  }

  lemma ScalarRange()
    ensures Pow(2, SCALAR_BITS) == Pow(256, 32) == TWO_256
  {
    ByteIsEightBits();
    hide Pow;
    SquaredPower(2, 8, 0x100);
    SquaredPower(2, 16, 0x1_0000);
    SquaredPower(2, 32, 0x1_0000_0000);
    SquaredPower(2, 64, 0x1_0000_0000_0000_0000);
    SquaredPower(2, 128, 0x1_0000_0000_0000_0000_0000_0000_0000_0000);
    PowProduct(2, 8, 32);
  }

  /** The 256-step loop computes scalar multiplication for every scalar below 2^256. */
  lemma PointMulIsTimes(c: Parameters, a: Point, scalar: nat)
    requires Usable(c) && Regular(c.p, a) && scalar < Pow(2, SCALAR_BITS)
    ensures PointMul(c, a, scalar) == Times(c.p, a, scalar)
  {
    hide MulFrom, Pow, IsPrime, Associative, HasOrder, Regular;
    DoubleAndAdd(c.p, a, 0, 1, scalar, SCALAR_BITS);
    OneTimes(c, a);
  }

  lemma OneTimes(c: Parameters, a: Point)
    ensures Times(c.p, a, 0) == Infinity && Times(c.p, a, 1) == a
  {
    assert Times(c.p, a, 1) == PointAdd(c.p, Times(c.p, a, 0), a);
  }

  // ------------------------------------------------------------------ main theorem

  lemma MultipleAffine(c: Parameters, k: nat)
    requires Usable(c) && 0 < k < c.n
    ensures PointMul(c, c.g, k) == Times(c.p, c.g, k) && Times(c.p, c.g, k).Affine? && OnCurve(c.p, Times(c.p, c.g, k))
    ensures Times(c.p, c.g, k).x >= 0
  {
    ScalarRange();
    PointMulIsTimes(c, c.g, k);
    TimesOnCurve(c.p, c.g, k);
    assert Times(c.p, c.g, k) != Infinity;
  }

  lemma OddComplement(p: int, y: int)
    requires p % 2 == 1 && y % 2 == 1
    ensures (p - y) % 2 == 0
  {}

  lemma EvenScalarIs(c: Parameters, k: nat)
    requires k < c.n && PointMul(c, c.g, k).Affine?
    ensures EvenScalar(c, k) == Ok(if PointMul(c, c.g, k).y % 2 == 0 then k else c.n - k)
  {
    hide PointMul;
  }

  /** When k G has an odd y, (N - k) G is the same point with an even y. */
  lemma OppositeMultiple(c: Parameters, k: nat)
    requires Usable(c) && 0 < k < c.n && Times(c.p, c.g, k).Affine? && Times(c.p, c.g, k).y % 2 == 1
    ensures var a := Times(c.p, c.g, c.n - k);
            a.Affine? && OnCurve(c.p, a) && a.y % 2 == 0 && a.x == Times(c.p, c.g, k).x
  {
    MultipleAffine(c, c.n - k);
    hide IsPrime, Associative, HasOrder, PointMul, Times, OnCurve, Regular;
    ComplementIsOpposite(c.p, c.g, c.n, k);
    OddComplement(c.p, Times(c.p, c.g, k).y);
  }

  ghost predicate EvenMultiple(c: Parameters, j: nat, x: nat) {
    && 0 < j < c.n && Times(c.p, c.g, j).Affine? && OnCurve(c.p, Times(c.p, c.g, j))
    && Times(c.p, c.g, j).y % 2 == 0 && Times(c.p, c.g, j).x == x
  }

  /** EvenScalar picks the one of k and N - k whose multiple of G has an even y, and keeps x. */
  lemma EvenScalarSound(c: Parameters, k: nat)
    requires Usable(c) && 0 < k < c.n
    ensures EvenScalar(c, k).Ok? && PointMul(c, c.g, k).Affine? && PointMul(c, c.g, k).x >= 0
    ensures EvenMultiple(c, EvenScalar(c, k).value, PointMul(c, c.g, k).x)
  {
    hide IsPrime, Associative, HasOrder, PointMul, Times, OnCurve, Regular, EvenScalar;
    MultipleAffine(c, k);
    EvenScalarIs(c, k);
    if Times(c.p, c.g, k).y % 2 == 1 {
      OppositeMultiple(c, k);
    }
  }

  lemma PointBytes(c: Parameters, a: Point)
    requires a.Affine? && OnCurve(c.p, a)
    ensures BytesFromPoint(a) == Ok(BytesFromInt(a.x)) && IntFromBytes(BytesFromInt(a.x)) == a.x < c.p
  {
    ScalarRange();
    IntRoundTrip(a.x, 32);
  }

  lemma SplitSignature(r: ByteString, s: ByteString)
    requires |r| == 32 && |s| == 32
    ensures |r + s| == 64 && (r + s)[0..32] == r && (r + s)[32..64] == s
  {}

  lemma VerifyAccepts(c: Parameters, h: HashFn, msg: ByteString, key: Point, r: Point, s: nat)
    requires key.Affine? && r.Affine? && OnCurve(c.p, key) && OnCurve(c.p, r) && s < c.n
    requires LiftX(c.p, key.x) == key && r.y % 2 == 0
    requires PointAdd(c.p, PointMul(c, c.g, s),
                      PointMul(c, key, c.n - Challenge(c, h, BytesFromInt(r.x), BytesFromInt(key.x), msg))) == r
    ensures Verify(c, h, msg, BytesFromInt(key.x), BytesFromInt(r.x) + BytesFromInt(s))
  {
    hide LiftX, PointAdd, PointMul, OnCurve, Pow, Challenge, IntFromBytes, BytesFromInt, Verify;
    PointBytes(c, key);
    PointBytes(c, r);
    ScalarBytes(c, s);
    SplitSignature(BytesFromInt(r.x), BytesFromInt(s));
    VerifyUnfolds(c, h, msg, BytesFromInt(key.x), BytesFromInt(r.x) + BytesFromInt(s));
  }

  lemma ScalarBytes(c: Parameters, s: nat)
    requires s < c.n
    ensures IntFromBytes(BytesFromInt(s)) == s
  {
    ScalarRange();
    hide Pow;
    IntRoundTrip(s, 32);
  }

  lemma VerifyUnfolds(c: Parameters, h: HashFn, msg: ByteString, pubkey: ByteString, sig: ByteString)
    requires |pubkey| == 32 && |sig| == 64
    requires LiftX(c.p, IntFromBytes(pubkey)).Affine?
    requires IntFromBytes(sig[0..32]) < c.p && IntFromBytes(sig[32..64]) < c.n
    ensures var rPt := PointAdd(c.p, PointMul(c, c.g, IntFromBytes(sig[32..64])),
                                PointMul(c, LiftX(c.p, IntFromBytes(pubkey)),
                                         c.n - Challenge(c, h, sig[0..32], pubkey, msg)));
            Verify(c, h, msg, pubkey, sig) <==> rPt.Affine? && rPt.y % 2 == 0 && rPt.x == IntFromBytes(sig[0..32])
  {
    hide LiftX, PointAdd, PointMul, Challenge, IntFromBytes;
  }

  lemma Divide(x: nat, n: nat) returns (q: nat, s: nat)
    requires n > 0
    ensures x == n * q + s && s == x % n && s < n
  {
    q, s := x / n, x % n;
    DivMod(x, n);
  }

  /** The verification equation holds for even-y points of the key and of the nonce. */
  lemma EquationHolds(c: Parameters, h: HashFn, msg: ByteString, d: nat, k: nat, xd: nat, xk: nat)
    requires Usable(c) && EvenMultiple(c, d, xd) && EvenMultiple(c, k, xk)
    ensures var pubkey, r := BytesFromInt(xd), BytesFromInt(xk);
            var e := Challenge(c, h, r, pubkey, msg);
            Verify(c, h, msg, pubkey, r + BytesFromInt((k + e * d) % c.n))
  {
    hide IsPrime, Associative, HasOrder, PointMul, Times, OnCurve, PointAdd, LiftX, Pow, Verify, BytesFromInt,
         Challenge;
    var dG, kG := Times(c.p, c.g, d), Times(c.p, c.g, k);
    var e := Challenge(c, h, BytesFromInt(xk), BytesFromInt(xd), msg);
    LiftEven(c, dG);
    var q, s := Divide(k + e * d, c.n);
    CombinedPoint(c, d, k, e, q, s);
    VerifyAccepts(c, h, msg, dG, kG, s);
  }

  lemma LiftEven(c: Parameters, a: Point)
    requires IsPrime(c.p) && a.Affine? && OnCurve(c.p, a) && a.y % 2 == 0
    ensures LiftX(c.p, a.x) == a
  {
    hide IsPrime, OnCurve, LiftX;
    LiftXComplete(c.p, a.x, a.y);
  }

  lemma CombinedPoint(c: Parameters, d: nat, k: nat, e: nat, q: nat, s: nat)
    requires Usable(c) && 0 < d < c.n && 0 < k < c.n && e < c.n && s < c.n && k + e * d == c.n * q + s
    ensures PointAdd(c.p, PointMul(c, c.g, s), PointMul(c, Times(c.p, c.g, d), c.n - e)) == Times(c.p, c.g, k)
  {
    hide IsPrime, Associative, HasOrder, PointMul, Times, OnCurve, PointAdd, Pow, Regular;
    OrderReached(c);
    ComputedMultiples(c, d, s, c.n - e);
    CombinedMultiple(c.p, c.g, c.n, d, k, e, q, s);
  }

  lemma ComputedMultiples(c: Parameters, d: nat, s: nat, t: nat)
    requires Usable(c) && 0 < d < c.n && s < c.n && t <= c.n
    ensures PointMul(c, c.g, s) == Times(c.p, c.g, s)
    ensures PointMul(c, Times(c.p, c.g, d), t) == Times(c.p, Times(c.p, c.g, d), t)
  {
    ScalarRange();
    KeyRegular(c, d);
    hide IsPrime, Associative, HasOrder, PointMul, Times, OnCurve, PointAdd, Pow, Regular;
    PointMulIsTimes(c, c.g, s);
    PointMulIsTimes(c, Times(c.p, c.g, d), t);
  }

  lemma OrderReached(c: Parameters)
    requires Usable(c)
    ensures Times(c.p, c.g, c.n) == Infinity
  {}

  lemma KeyRegular(c: Parameters, d: nat)
    requires Usable(c) && 0 < d < c.n
    ensures Regular(c.p, Times(c.p, c.g, d))
  {
    MultipleAffine(c, d);
    ComplementIsOpposite(c.p, c.g, c.n, d);
  }

  lemma SignatureAccepted(c: Parameters, h: HashFn, msg: ByteString, d: nat, xd: nat, k0: nat)
    requires Usable(c) && EvenMultiple(c, d, xd) && 0 < k0 < c.n
    ensures var sig := Signature(c, h, msg, BytesFromInt(xd), d, k0);
            sig.Ok? && Verify(c, h, msg, BytesFromInt(xd), sig.value)
  {
    hide IsPrime, Associative, HasOrder, PointMul, Times, OnCurve, Verify, BytesFromInt, Challenge, IntFromBytes,
         EvenScalar;
    MultipleAffine(c, k0);
    PointBytes(c, PointMul(c, c.g, k0));
    EvenScalarSound(c, k0);
    EquationHolds(c, h, msg, d, EvenScalar(c, k0).value, xd, PointMul(c, c.g, k0).x);
  }

  /** The public key, and the scalar that sign uses in place of the secret key. */
  lemma KeyComputed(c: Parameters, d0: nat)
    requires Usable(c) && 0 < d0 < c.n
    ensures PointMul(c, c.g, d0).Affine? && PointMul(c, c.g, d0).x >= 0 && EvenScalar(c, d0).Ok?
    ensures BytesFromPoint(PointMul(c, c.g, d0)) == Ok(BytesFromInt(PointMul(c, c.g, d0).x))
    ensures EvenMultiple(c, EvenScalar(c, d0).value, PointMul(c, c.g, d0).x)
  {
    hide IsPrime, Associative, HasOrder, PointMul, Times, OnCurve, BytesFromInt, EvenScalar;
    MultipleAffine(c, d0);
    PointBytes(c, PointMul(c, c.g, d0));
    EvenScalarSound(c, d0);
  }

  /** The conditions under which the source does not refuse to sign. */
  predicate Signable(c: Parameters, h: HashFn, msg: ByteString, seckey: ByteString, aux: ByteString) {
    var d0 := IntFromBytes(seckey);
    && 1 <= d0 <= c.n - 1 && |aux| == 32
    && EvenScalar(c, d0).Ok? && PubkeyGen(c, seckey).Ok?
    && Nonce(c, h, EvenScalar(c, d0).value, PubkeyGen(c, seckey).value, msg, aux) != 0
  }

  /**
   Every signature that sign computes, for a key in range, 32 auxiliary bytes and a nonce that
   is not zero, is accepted by verify under the key's public key; so sign refuses nothing else,
   and its self-check never fails.
   */
  lemma SignVerifies(c: Parameters, h: HashFn, msg: ByteString, seckey: ByteString, aux: ByteString)
    requires Usable(c)
    ensures PubkeyGen(c, seckey).Ok? <==> 1 <= IntFromBytes(seckey) <= c.n - 1
    ensures Sign(c, h, msg, seckey, aux).Ok? <==> Signable(c, h, msg, seckey, aux)
    ensures Sign(c, h, msg, seckey, aux).Ok? ==>
              Verify(c, h, msg, PubkeyGen(c, seckey).value, Sign(c, h, msg, seckey, aux).value)
  {
    hide Usable, PointMul, Verify, Signature, BytesFromInt, IntFromBytes, EvenScalar, BytesFromPoint, EvenMultiple,
         Nonce;
    var d0 := IntFromBytes(seckey);
    if 1 <= d0 <= c.n - 1 {
      KeyComputed(c, d0);
      var d, x := EvenScalar(c, d0).value, PointMul(c, c.g, d0).x;
      NonceRange(c, h, d, BytesFromInt(x), msg, aux);
      var k0 := Nonce(c, h, d, BytesFromInt(x), msg, aux);
      if k0 != 0 {
        SignatureAccepted(c, h, msg, d, x, k0);
      }
    }
  }

  lemma NonceRange(c: Parameters, h: HashFn, d: nat, pubkey: ByteString, msg: ByteString, aux: ByteString)
    ensures Nonce(c, h, d, pubkey, msg, aux) < c.n
  {}

  /** The same for the parameters of the source, whose generator is a curve point. */
  lemma Secp256k1SignVerifies(h: HashFn, msg: ByteString, seckey: ByteString, aux: ByteString)
    requires GroupLaw(SECP256K1)
    ensures PubkeyGen(SECP256K1, seckey).Ok? <==> 1 <= IntFromBytes(seckey) <= N - 1
    ensures Sign(SECP256K1, h, msg, seckey, aux).Ok? <==> Signable(SECP256K1, h, msg, seckey, aux)
    ensures Sign(SECP256K1, h, msg, seckey, aux).Ok? ==>
              Verify(SECP256K1, h, msg, PubkeyGen(SECP256K1, seckey).value, Sign(SECP256K1, h, msg, seckey, aux).value)
  {
    hide GroupLaw, Regular, PubkeyGen, Sign, Signable, Verify, IntFromBytes;
    GeneratorOnCurve();
    SignVerifies(SECP256K1, h, msg, seckey, aux);
  }
}
