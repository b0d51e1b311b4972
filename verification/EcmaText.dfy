/** The text of a number is the only one of its value with the form and the notation of ECMA-262. */
module EcmaText {
  import opened Python
  import opened Decimal
  import opened EcmaNumber

  lemma LastDigit(s: string)
    requires IsDigits(s) && s != ""
    ensures NatOf(s) % 10 == 0 <==> s[|s| - 1] == '0'
  {}

  /** The shorter of two texts without leading zeros is the smaller number. */
  lemma ShorterIsSmaller(a: string, b: string)
    requires IsDigits(a) && IsDigits(b) && |a| < |b| && b[0] != '0'
    ensures NatOf(a) < NatOf(b)
  {
    hide NatOf, Ten;
    NatBounds(a);
    NatBounds(b);
    TenGrows(|a|, |b| - 1);
  }

  /** The integer part and the fraction of a text in fixed notation. */
  predicate FixedParts(whole: string, fraction: string) {
    && IsDigits(whole) && IsDigits(fraction) && IsDigits(whole + fraction)
    && whole != "" && (|whole| > 1 ==> whole[0] != '0')
    && (fraction != "" ==> fraction[|fraction| - 1] != '0')
  }

  lemma EndsInZero(s: string, j: nat)
    requires IsDigits(s + Zeros(j))
    ensures j > 0 ==> NatOf(s + Zeros(j)) % 10 == 0
  {
    if j > 0 {
      LastDigit(s + Zeros(j));
    }
  }

  lemma EndsOtherwise(whole: string, fraction: string)
    requires FixedParts(whole, fraction)
    ensures fraction != "" ==> NatOf(whole + fraction) % 10 != 0
  {
    if fraction != "" {
      LastDigit(whole + fraction);
    }
  }

  lemma SameValueSameDigits(w: string, f: string, v: string, g: string)
    requires FixedParts(w, f) && FixedParts(v, g) && |f| <= |g|
    requires Scaled(NatOf(w + f), -|f|) == Scaled(NatOf(v + g), -|g|)
    ensures |f| == |g| && NatOf(w + f) == NatOf(v + g)
  {
    hide Scaled, NatOf;
    var j := |g| - |f|;
    var padded := w + f + Zeros(j);
    ShiftZeros(w + f, j, -|g|);
    ScaledOrder(NatOf(padded), NatOf(v + g), -|g|);
    ScaledOrder(NatOf(v + g), NatOf(padded), -|g|);
    EndsInZero(w + f, j);
    EndsOtherwise(v, g);
    assert w + f + Zeros(0) == w + f;
  }

  lemma LongerIsLarger(w: string, f: string, v: string, g: string)
    requires FixedParts(w, f) && FixedParts(v, g) && |f| == |g|
    ensures |w| < |v| ==> NatOf(w + f) < NatOf(v + g)
  {
    hide NatOf;
    if |w| < |v| {
      var a, b := w + f, v + g;
      assert b[0] == v[0];
      ShorterIsSmaller(a, b);
    }
  }

  lemma FixedUnique(w: string, f: string, v: string, g: string)
    requires FixedParts(w, f) && FixedParts(v, g)
    requires Scaled(NatOf(w + f), -|f|) == Scaled(NatOf(v + g), -|g|)
    ensures w == v && f == g
  {
    hide Scaled, NatOf;
    if |f| <= |g| {
      SameValueSameDigits(w, f, v, g);
    } else {
      SameValueSameDigits(v, g, w, f);
    }
    LongerIsLarger(w, f, v, g);
    LongerIsLarger(v, g, w, f);
    NatInjective(w + f, v + g);
    assert w == (w + f)[..|w|] && v == (v + g)[..|v|];
    assert f == (w + f)[|w|..] && g == (v + g)[|v|..];
  }

  /** The parts of a text with an exponent. */
  predicate FarParts(whole: string, fraction: string, exponent: string) {
    && FixedParts(whole, fraction) && |whole| == 1 && whole[0] != '0'
    && |exponent| > 1 && (exponent[0] == '+' || exponent[0] == '-')
    && IsDigits(exponent[1..]) && exponent[1] != '0'
  }

  lemma FarCanonical(w: string, f: string, e: string)
    requires FarParts(w, f, e)
    ensures CanonicalDigits(w + f) && IsExponent(e) && IntOf(e) != 0
  {
    hide Ten;
    NatBounds(e[1..]);
    assert Ten(|e[1..]| - 1) > 0 by {
      TenPositive(|e[1..]| - 1);
    }
  }

  lemma {:induction false} TenPositive(k: nat)
    ensures Ten(k) > 0
  {
    if k > 0 {
      TenPositive(k - 1);
    }
  }

  lemma ExponentUnique(e: string, f: string)
    requires |e| > 1 && (e[0] == '+' || e[0] == '-') && IsDigits(e[1..]) && e[1] != '0'
    requires |f| > 1 && (f[0] == '+' || f[0] == '-') && IsDigits(f[1..]) && f[1] != '0'
    requires IsExponent(e) && IsExponent(f) && IntOf(e) == IntOf(f) != 0
    ensures e == f
  {
    var d, g := e[1..], f[1..];
    hide NatOf, Ten;
    assert e[0] == f[0] && NatOf(d) == NatOf(g);
    if |d| < |g| {
      ShorterIsSmaller(d, g);
    } else if |g| < |d| {
      ShorterIsSmaller(g, d);
    }
    NatInjective(d, g);
    assert e == [e[0]] + d && f == [f[0]] + g;
  }

  lemma FarUnique(w: string, f: string, e: string, v: string, g: string, x: string)
    requires FarParts(w, f, e) && FarParts(v, g, x) && IsExponent(e) && IsExponent(x)
    requires Scaled(NatOf(w + f), IntOf(e) - |f|) == Scaled(NatOf(v + g), IntOf(x) - |g|)
    ensures w == v && f == g && e == x
  {
    hide Scaled, NatOf, IntOf, CanonicalDigits;
    FarCanonical(w, f, e);
    FarCanonical(v, g, x);
    SameDigits(w + f, IntOf(e) + 1, v + g, IntOf(x) + 1);
    ExponentUnique(e, x);
    assert w == (w + f)[..1] && v == (v + g)[..1];
    assert f == (w + f)[1..] && g == (v + g)[1..];
  }

  /** Two texts of that form and one notation that denote one value are one text. */
  lemma FormUnique(s: string, t: string)
    requires EcmaForm(s) && EcmaForm(t) && IsDecimal(s) && IsDecimal(t) && ValueOf(s) == ValueOf(t)
    requires Parts(s).2 == "" <==> Parts(t).2 == ""
    ensures s == t
  {
    hide Partition, Parts, Scaled, NatOf, IntOf;
    var (w, f, e) := Parts(s);
    var (v, g, x) := Parts(t);
    if e == "" {
      assert IntOf(e) == 0 && IntOf(x) == 0 by {
        NoExponent();
      }
      FixedUnique(w, f, v, g);
    } else {
      FarUnique(w, f, e, v, g, x);
    }
  }

  lemma NoExponent()
    ensures IntOf("") == 0
  {}

  /** The text of a positive number: its value, its form, and its notation by the value. */
  predicate TextOfValue(t: string, value: real) {
    && EcmaForm(t) && IsDecimal(t) && ValueOf(t) == value
    && (Parts(t).2 == "" <==> Pow10(-6) <= value < Pow10(21))
  }

  /**
   The text of a float: "0" for both zeros, and otherwise the sign and the one text of the absolute
   value that has no superfluous digit and is fixed exactly from 1e-6 up to 1e21.
   */
  lemma EcmaTextExactly(x: Float, t: string)
    requires Finite(x)
    ensures x.Zero? ==> EcmaNumberString(x) == Ok("0")
    ensures x.Nonzero? && !x.negative ==> (EcmaNumberString(x) == Ok(t) <==> TextOfValue(t, FloatValue(x)))
    ensures x.Nonzero? && x.negative ==>
              (EcmaNumberString(x) == Ok("-" + t) <==> TextOfValue(t, -FloatValue(x)))
  {
    hide Pow10, Parts, NumberString, ValueOf, IsDecimal, EcmaForm;
    if x.Nonzero? {
      var body := NumberString(x.repr);
      NumberStringValue(x.repr);
      NumberStringForm(x.repr);
      FixedExactly(x.repr);
      if TextOfValue(t, ValueOf(x.repr)) {
        FormUnique(body, t);
      }
      assert "" + body == body;
      assert ("-" + t)[1..] == t && ("-" + body)[1..] == body;
    }
  }
}
