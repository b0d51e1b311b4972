/**
 Number::toString of ECMA-262 from the shortest decimal text of a float, as jcs.py writes floats.

 A float is its sign and the text repr() gives for its absolute value.  ValueOf reads a decimal
 text of any form, so it says what both the input and the output denote.
 */
module EcmaNumber {
  import opened Python
  import opened Decimal

  // ------------------------------------------------------------------ decimal texts

  function Partition(s: string, c: char): (string, string)
  {
    if s == "" then ("", "")
    else if s[0] == c then ("", s[1..])
    else
      var r := Partition(s[1..], c);
      ([s[0]] + r.0, r.1)
  }

  predicate IsExponent(s: string) {
    s == "" || IsDigits(s) || ((s[0] == '-' || s[0] == '+') && |s| > 1 && IsDigits(s[1..]))
  }

  /** int() of an exponent, and 0 when there is none */
  function IntOf(s: string): int
    requires IsExponent(s)
  {
    if s == "" then 0
    else if s[0] == '-' then 0 - NatOf(s[1..])
    else if s[0] == '+' then NatOf(s[1..])
    else NatOf(s)
  }

  function Pow10(n: int): (r: real)
    ensures r > 0.0
    decreases if n < 0 then -n else n
  {
    if n == 0 then 1.0
    else if n > 0 then 10.0 * Pow10(n - 1)
    else Pow10(n + 1) / 10.0
  }

  function Scaled(m: nat, e: int): real {
    m as real * Pow10(e)
  }

  /** The integer part, the fraction and the exponent of a text. */
  function Parts(text: string): (string, string, string) {
    var (mantissa, exponent) := Partition(text, 'e');
    var (whole, fraction) := Partition(mantissa, '.');
    (whole, fraction, exponent)
  }

  predicate IsDecimal(text: string) {
    var (whole, fraction, exponent) := Parts(text);
    IsDigits(whole + fraction) && IsExponent(exponent)
  }

  function ValueOf(text: string): real
    requires IsDecimal(text)
  {
    var (whole, fraction, exponent) := Parts(text);
    Scaled(NatOf(whole + fraction), IntOf(exponent) - |fraction|)
  }

  // ------------------------------------------------------------------ Number::toString

  /** lstrip("0") */
  function StripLeft(s: string): (r: string)
    ensures |r| <= |s| && s == Zeros(|s| - |r|) + r
    ensures r != "" ==> r[0] != '0'
  {
    if s != "" && s[0] == '0' then
      var r := StripLeft(s[1..]);
      assert s == Zeros(|s| - |r|) + r;
      r
    else s
  }

  /** rstrip("0") */
  function StripRight(s: string): (r: string)
    ensures |r| <= |s| && s == r + Zeros(|s| - |r|)
    ensures r != "" ==> r[|r| - 1] != '0'
  {
    if s != "" && s[|s| - 1] == '0' then StripRight(s[..|s| - 1]) else s
  }

  function Mantissa(digits: string): string
    requires digits != ""
  {
    if |digits| == 1 then digits else digits[..1] + ("." + digits[1..])
  }

  function ExponentText(m: int): string {
    (if m >= 0 then "+" else "") + IntText(m)
  }

  /** Digits with the point after the n-th, in the notation ECMA-262 chooses. */
  function Place(digits: string, n: int): string
    requires digits != ""
  {
    var k := |digits|;
    if k <= n <= 21 then digits + Zeros(n - k)
    else if 0 < n <= 21 then digits[..n] + "." + digits[n..]
    else if -6 < n <= 0 then "0." + Zeros(-n) + digits
    else
      Mantissa(digits) + "e" + ExponentText(n - 1)
  }

  function DigitsOf(text: string): string {
    var (whole, fraction, _) := Parts(text);
    var digits := StripRight(StripLeft(whole + fraction));
    if digits == "" then "0" else digits
  }

  /** Where the decimal point stands relative to the first of DigitsOf. */
  function PointOf(text: string): int
    requires IsDecimal(text)
  {
    var (whole, fraction, exponent) := Parts(text);
    var raw := whole + fraction;
    |whole| - (|raw| - |StripLeft(raw)|) + IntOf(exponent)
  }

  function NumberString(text: string): string
    requires IsDecimal(text)
  {
    Place(DigitsOf(text), PointOf(text))
  }

  /** A finite float that is not zero is its sign and the repr of its absolute value. */
  datatype Double = NaN | Infinity(negative: bool) | Zero(negative: bool) | Nonzero(negative: bool, repr: string)

  predicate IsFloat(x: Double) {
    x.Nonzero? ==> IsDecimal(x.repr) && ValueOf(x.repr) > 0.0
  }

  type Float = x: Double | IsFloat(x) witness Zero(false)

  predicate Finite(x: Float) {
    x.Zero? || x.Nonzero?
  }

  function EcmaNumberString(x: Float): Result<string> {
    match x
    case NaN => Raise(ValueError)
    case Infinity(_) => Raise(ValueError)
    case Zero(_) => Ok("0")
    case Nonzero(negative, repr) => Ok((if negative then "-" else "") + NumberString(repr))
  }

  function FloatValue(x: Float): real
    requires Finite(x)
  {
    if x.Zero? then 0.0 else if x.negative then -ValueOf(x.repr) else ValueOf(x.repr)
  }

  /** What a text with an optional sign denotes. */
  function Denotes(s: string): Option<real> {
    if s != "" && s[0] == '-' then
      if IsDecimal(s[1..]) then Some(-ValueOf(s[1..])) else None
    else if IsDecimal(s) then Some(ValueOf(s))
    else None
  }

  // ------------------------------------------------------------------ powers and digits

  lemma Pow10Step(n: int)
    ensures Pow10(n + 1) == 10.0 * Pow10(n)
  {}

  lemma {:induction false} Pow10Grows(m: int, n: int)
    requires m <= n
    ensures Pow10(m) <= Pow10(n)
    decreases n - m
  {
    if m < n {
      Pow10Step(n - 1);
      Pow10Grows(m, n - 1);
    }
  }

  lemma ScaledTen(m: nat, e: int)
    ensures Scaled(10 * m, e) == Scaled(m, e + 1)
  {
    Pow10Step(e);
  }

  lemma OneMoreZero(s: string, j: nat)
    requires IsDigits(s + Zeros(j))
    ensures IsDigits(s + Zeros(j + 1)) && NatOf(s + Zeros(j + 1)) == 10 * NatOf(s + Zeros(j))
  {
    var t := s + Zeros(j + 1);
    assert t == s + Zeros(j) + "0";
    assert t[..|t| - 1] == s + Zeros(j);
  }

  lemma {:induction false} ShiftZeros(s: string, j: nat, e: int)
    requires IsDigits(s)
    ensures IsDigits(s + Zeros(j)) && Scaled(NatOf(s + Zeros(j)), e) == Scaled(NatOf(s), e + j)
    decreases j
  {
    hide Scaled, NatOf;
    if j == 0 {
      assert s + Zeros(0) == s;
    } else {
      ShiftZeros(s, j - 1, e + 1);
      OneMoreZero(s, j - 1);
      ScaledTen(NatOf(s + Zeros(j - 1)), e);
    }
  }

  lemma {:induction false} PartitionAt(a: string, c: char, b: string)
    requires c !in a
    ensures Partition(a + [c] + b, c) == (a, b)
    decreases |a|
  {
    var s := a + [c] + b;
    if a == "" {
      assert s[0] == c && s[1..] == b;
    } else {
      assert a[0] in a && s[0] == a[0];
      PartitionAt(a[1..], c, b);
      assert s[1..] == a[1..] + [c] + b;
      assert [a[0]] + a[1..] == a;
    }
  }

  lemma {:induction false} PartitionNone(a: string, c: char)
    requires c !in a
    ensures Partition(a, c) == (a, "")
    decreases |a|
  {
    if a != "" {
      assert a[0] in a;
      PartitionNone(a[1..], c);
      assert [a[0]] + a[1..] == a;
    }
  }

  /** The parts of a text put together from digits. */
  lemma PartsOf(whole: string, fraction: string, exponent: string, point: bool)
    requires IsDigits(whole) && IsDigits(fraction) && 'e' !in exponent
    requires !point ==> fraction == ""
    ensures var mantissa := whole + (if point then "." + fraction else "");
            && Parts(mantissa) == (whole, fraction, "")
            && Parts(mantissa + "e" + exponent) == (whole, fraction, exponent)
  {
    var mantissa := whole + (if point then "." + fraction else "");
    assert forall i | 0 <= i < |mantissa| :: mantissa[i] == '.' || '0' <= mantissa[i] <= '9';
    PartitionAt(mantissa, 'e', exponent);
    PartitionNone(mantissa, 'e');
    if point {
      PartitionAt(whole, '.', fraction);
      assert whole + "." + fraction == mantissa;
    } else {
      PartitionNone(whole, '.');
      assert mantissa == whole;
    }
  }

  // ------------------------------------------------------------------ what Place writes

  lemma DecimalOf(text: string, whole: string, fraction: string, exponent: string)
    requires Parts(text) == (whole, fraction, exponent)
    requires IsDigits(whole + fraction) && IsExponent(exponent)
    ensures IsDecimal(text)
    ensures ValueOf(text) == Scaled(NatOf(whole + fraction), IntOf(exponent) - |fraction|)
  {}

  lemma PlaceWhole(digits: string, n: int)
    requires IsDigits(digits) && 0 < |digits| <= n <= 21
    ensures Place(digits, n) == digits + Zeros(n - |digits|)
    ensures Parts(Place(digits, n)) == (Place(digits, n), "", "")
    ensures IsDecimal(Place(digits, n)) && ValueOf(Place(digits, n)) == Scaled(NatOf(digits), n - |digits|)
  {
    hide Scaled, NatOf, Partition;
    var whole := digits + Zeros(n - |digits|);
    ShiftZeros(digits, n - |digits|, 0);
    PartsOf(whole, "", "", false);
    assert whole + "" == whole;
    DecimalOf(whole, whole, "", "");
  }

  lemma PlaceInside(digits: string, n: int)
    requires IsDigits(digits) && 0 < n < |digits| && n <= 21
    ensures Parts(Place(digits, n)) == (digits[..n], digits[n..], "")
    ensures IsDecimal(Place(digits, n)) && ValueOf(Place(digits, n)) == Scaled(NatOf(digits), n - |digits|)
  {
    hide Scaled, NatOf, Partition;
    PartsOf(digits[..n], digits[n..], "", true);
    assert digits[..n] + ("." + digits[n..]) == Place(digits, n);
    assert digits[..n] + digits[n..] == digits;
    DecimalOf(Place(digits, n), digits[..n], digits[n..], "");
  }

  lemma PlaceBehind(digits: string, n: int)
    requires IsDigits(digits) && digits != "" && -6 < n <= 0
    ensures Parts(Place(digits, n)) == ("0", Zeros(-n) + digits, "")
    ensures IsDecimal(Place(digits, n)) && ValueOf(Place(digits, n)) == Scaled(NatOf(digits), n - |digits|)
  {
    hide Scaled, NatOf, Partition;
    var fraction := Zeros(-n) + digits;
    LeadingZeros(1 - n, digits);
    AllZeros(1 - n);
    assert "0" + fraction == Zeros(1 - n) + digits;
    PartsOf("0", fraction, "", true);
    assert "0" + ("." + fraction) == Place(digits, n);
    DecimalOf(Place(digits, n), "0", fraction, "");
  }

  lemma AllZeros(j: nat)
    requires j > 0
    ensures Zeros(j) == "0" + Zeros(j - 1)
  {}

  lemma ExponentOf(m: int)
    ensures var e := ExponentText(m);
            && IsExponent(e) && IntOf(e) == m && 'e' !in e
            && |e| > 1 && (e[0] == '+' || e[0] == '-') && IsDigits(e[1..]) && (m != 0 ==> e[1] != '0')
  {
    var digits := NatText(if m < 0 then -m else m);
    NatOfText(if m < 0 then -m else m);
    assert ExponentText(m) == (if m < 0 then "-" else "+") + digits;
    assert ExponentText(m)[1..] == digits;
    assert forall i | 0 <= i < |digits| :: digits[i] != 'e';
  }

  lemma MantissaParts(digits: string, exponent: string)
    requires IsDigits(digits) && digits != "" && 'e' !in exponent
    ensures Parts(Mantissa(digits) + "e" + exponent) == (digits[..1], digits[1..], exponent)
  {
    hide Parts;
    var whole, fraction := digits[..1], digits[1..];
    if |digits| == 1 {
      assert whole == digits && whole + "" == digits && fraction == "";
      PartsOf(whole, fraction, exponent, false);
    } else {
      PartsOf(whole, fraction, exponent, true);
    }
  }

  lemma PlaceFar(digits: string, n: int)
    requires digits != "" && !(-6 < n <= 21)
    ensures Place(digits, n) == Mantissa(digits) + "e" + ExponentText(n - 1)
  {
    hide Mantissa, ExponentText, Zeros;
  }

  lemma PlaceExponent(digits: string, n: int)
    requires IsDigits(digits) && digits != "" && !(-6 < n <= 21)
    ensures Parts(Place(digits, n)) == (digits[..1], digits[1..], ExponentText(n - 1))
    ensures IsDecimal(Place(digits, n)) && ValueOf(Place(digits, n)) == Scaled(NatOf(digits), n - |digits|)
  {
    hide Place, Scaled, NatOf, Parts, IntOf, ExponentText, IsDecimal, ValueOf, Mantissa, IsExponent, IsDigits;
    PlaceFar(digits, n);
    ExponentOf(n - 1);
    MantissaParts(digits, ExponentText(n - 1));
    assert digits[..1] + digits[1..] == digits;
    DecimalOf(Place(digits, n), digits[..1], digits[1..], ExponentText(n - 1));
  }

  /** Whichever notation is chosen, the text denotes 0.digits times ten to the n. */
  lemma PlaceValue(digits: string, n: int)
    requires IsDigits(digits) && digits != ""
    ensures IsDecimal(Place(digits, n)) && ValueOf(Place(digits, n)) == Scaled(NatOf(digits), n - |digits|)
    ensures (Parts(Place(digits, n)).2 == "") <==> -6 < n <= 21
  {
    hide Place, Parts, Scaled, NatOf, IsDecimal, ValueOf, ExponentText;
    if |digits| <= n <= 21 {
      PlaceWhole(digits, n);
    } else if 0 < n <= 21 {
      PlaceInside(digits, n);
    } else if -6 < n <= 0 {
      PlaceBehind(digits, n);
    } else {
      PlaceExponent(digits, n);
      ExponentOf(n - 1);
    }
  }

  // ------------------------------------------------------------------ the digits of the input

  lemma PartsDigits(a: string, b: string)
    requires IsDigits(a + b)
    ensures IsDigits(a) && IsDigits(b)
  {
    var s := a + b;
    assert forall i | 0 <= i < |a| :: s[i] == a[i];
    assert forall i | 0 <= i < |b| :: s[|a| + i] == b[i];
  }

  lemma DigitsAndZeros(raw: string)
    requires IsDigits(raw)
    ensures var left := StripLeft(raw);
            var digits := StripRight(left);
            && raw == Zeros(|raw| - |left|) + left
            && left == digits + Zeros(|left| - |digits|)
            && IsDigits(left) && IsDigits(digits)
            && (digits != "" ==> digits[0] != '0' && digits[|digits| - 1] != '0')
  {
    hide IsDigits, Zeros;
    var left := StripLeft(raw);
    PartsDigits(Zeros(|raw| - |left|), left);
    var digits := StripRight(left);
    PartsDigits(digits, Zeros(|left| - |digits|));
    assert digits != "" ==> digits[0] == left[0];
  }

  lemma NoDigits(j: nat, k: nat)
    ensures IsDigits(Zeros(j) + Zeros(k)) && NatOf(Zeros(j) + Zeros(k)) == 0
  {
    hide Scaled;
    ShiftZeros("", k, 0);
    LeadingZeros(j, Zeros(k));
    LeadingZeros(k, "");
    assert Zeros(k) + "" == Zeros(k);
  }

  predicate CanonicalDigits(digits: string) {
    digits != "" && IsDigits(digits) && digits[0] != '0' && digits[|digits| - 1] != '0'
  }

  /** The digits and the point found denote the value of the text. */
  lemma DigitsValue(text: string)
    requires IsDecimal(text) && ValueOf(text) > 0.0
    ensures CanonicalDigits(DigitsOf(text))
    ensures ValueOf(text) == Scaled(NatOf(DigitsOf(text)), PointOf(text) - |DigitsOf(text)|)
  {
    hide Scaled, NatOf, StripLeft, StripRight;
    var (whole, fraction, exponent) := Parts(text);
    var raw := whole + fraction;
    var lead := |raw| - |StripLeft(raw)|;
    var digits := StripRight(StripLeft(raw));
    DigitsAndZeros(raw);
    var trail := |raw| - lead - |digits|;
    if digits == "" {
      assert digits + Zeros(trail) == Zeros(trail);
      NoDigits(lead, trail);
      ScaledZero(IntOf(exponent) - |fraction|);
    } else {
      ShiftZeros(digits, trail, IntOf(exponent) - |fraction|);
      LeadingZeros(lead, StripLeft(raw));
      assert IntOf(exponent) - |fraction| + trail == PointOf(text) - |digits|;
    }
  }

  lemma ScaledZero(e: int)
    ensures Scaled(0, e) == 0.0
  {}

  /** The output denotes exactly the decimal value of the shortest text. */
  lemma NumberStringValue(text: string)
    requires IsDecimal(text) && ValueOf(text) > 0.0
    ensures IsDecimal(NumberString(text)) && ValueOf(NumberString(text)) == ValueOf(text)
  {
    hide Scaled, NatOf, Place, DigitsOf, PointOf, ValueOf, IsDecimal;
    DigitsValue(text);
    PlaceValue(DigitsOf(text), PointOf(text));
  }

  // ------------------------------------------------------------------ magnitude and notation

  lemma {:induction false} ScaledPower(k: nat, e: int)
    ensures Scaled(Ten(k), e) == Pow10(e + k)
    decreases k
  {
    hide Scaled, Pow10;
    if k == 0 {
      ScaledOne(e);
    } else {
      ScaledTen(Ten(k - 1), e);
      ScaledPower(k - 1, e + 1);
    }
  }

  lemma ScaledOne(e: int)
    ensures Scaled(1, e) == Pow10(e)
  {}

  lemma ScaledOrder(m: nat, n: nat, e: int)
    ensures m < n <==> Scaled(m, e) < Scaled(n, e)
  {
    ProductOrder(m as real, n as real, Pow10(e));
  }

  lemma ProductOrder(x: real, y: real, p: real)
    requires p > 0.0
    ensures x < y <==> x * p < y * p
  {
    if x < y {
      assert (y - x) * p > 0.0;
    } else {
      assert (x - y) * p >= 0.0;
    }
  }

  /** Canonical digits with the point after the n-th stand between two powers of ten. */
  lemma Magnitude(digits: string, n: int)
    requires CanonicalDigits(digits)
    ensures Pow10(n - 1) <= Scaled(NatOf(digits), n - |digits|) < Pow10(n)
  {
    hide Scaled, Pow10, NatOf, Ten;
    var k := |digits|;
    NatBounds(digits);
    ScaledPower(k, n - k);
    ScaledPower(k - 1, n - k);
    ScaledOrder(NatOf(digits), Ten(k), n - k);
    ScaledOrder(NatOf(digits), Ten(k - 1), n - k);
  }

  /**
   Fixed notation exactly from 1e-6 up to 1e21, and an exponent otherwise: the placement rule of
   Number::toString, said of the value.
   */
  lemma FixedExactly(text: string)
    requires IsDecimal(text) && ValueOf(text) > 0.0
    ensures (Parts(NumberString(text)).2 == "") <==> Pow10(-6) <= ValueOf(text) < Pow10(21)
  {
    hide Scaled, Pow10, NatOf, Parts, Place, DigitsOf, PointOf, IsDecimal, ValueOf, CanonicalDigits;
    var digits, n := DigitsOf(text), PointOf(text);
    DigitsValue(text);
    CanonicalIsDigits(digits);
    PlaceValue(digits, n);
    Magnitude(digits, n);
    if n <= -6 {
      Pow10Grows(n, -6);
    } else {
      Pow10Grows(-6, n - 1);
    }
    if n <= 21 {
      Pow10Grows(n, 21);
    } else {
      Pow10Grows(21, n - 1);
    }
  }

  lemma CanonicalIsDigits(digits: string)
    requires CanonicalDigits(digits)
    ensures IsDigits(digits) && digits != ""
  {}

  // ------------------------------------------------------------------ one text for each value

  lemma SameLength(d: string, e: string, n: int)
    requires CanonicalDigits(d) && CanonicalDigits(e) && |d| <= |e|
    requires Scaled(NatOf(d), n - |d|) == Scaled(NatOf(e), n - |e|)
    ensures d == e
  {
    hide Scaled, NatOf;
    var j := |e| - |d|;
    var padded := d + Zeros(j);
    ShiftZeros(d, j, n - |e|);
    ScaledOrder(NatOf(padded), NatOf(e), n - |e|);
    ScaledOrder(NatOf(e), NatOf(padded), n - |e|);
    assert j > 0 ==> padded[|padded| - 1] == '0';
    NatInjective(padded, e);
    assert d + Zeros(0) == d;
  }

  lemma SameDigits(d: string, m: int, e: string, n: int)
    requires CanonicalDigits(d) && CanonicalDigits(e)
    requires Scaled(NatOf(d), m - |d|) == Scaled(NatOf(e), n - |e|)
    ensures d == e && m == n
  {
    hide Scaled, Pow10, NatOf, CanonicalDigits;
    Magnitude(d, m);
    Magnitude(e, n);
    if m < n {
      Pow10Grows(m, n - 1);
    } else if n < m {
      Pow10Grows(n, m - 1);
    }
    if |d| <= |e| {
      SameLength(d, e, n);
    } else {
      SameLength(e, d, n);
    }
  }

  /** The text written depends on the value alone, and tells it apart from every other. */
  lemma OneTextPerValue(s: string, t: string)
    requires IsDecimal(s) && ValueOf(s) > 0.0 && IsDecimal(t) && ValueOf(t) > 0.0
    ensures NumberString(s) == NumberString(t) <==> ValueOf(s) == ValueOf(t)
  {
    hide Scaled, NatOf, Place, DigitsOf, PointOf, ValueOf, IsDecimal, CanonicalDigits;
    NumberStringValue(s);
    NumberStringValue(t);
    DigitsValue(s);
    DigitsValue(t);
    CanonicalIsDigits(DigitsOf(s));
    CanonicalIsDigits(DigitsOf(t));
    if ValueOf(s) == ValueOf(t) {
      SameDigits(DigitsOf(s), PointOf(s), DigitsOf(t), PointOf(t));
    }
  }

  // ------------------------------------------------------------------ the shape of the text

  /** The text with these parts: no point without a fraction, no "e" without an exponent. */
  function Numeral(whole: string, fraction: string, exponent: string): string {
    whole + (if fraction == "" then "" else "." + fraction) + (if exponent == "" then "" else "e" + exponent)
  }

  /** No superfluous digit: the form Number::toString gives every positive number. */
  predicate EcmaForm(text: string) {
    var (whole, fraction, exponent) := Parts(text);
    && text == Numeral(whole, fraction, exponent)
    && IsDigits(whole) && IsDigits(fraction)
    && whole != "" && (|whole| > 1 ==> whole[0] != '0')
    && (fraction != "" ==> fraction[|fraction| - 1] != '0')
    && (exponent != "" ==>
          && |whole| == 1 && whole[0] != '0'
          && |exponent| > 1 && (exponent[0] == '+' || exponent[0] == '-')
          && IsDigits(exponent[1..]) && exponent[1] != '0')
  }

  lemma FormFixed(digits: string, n: int)
    requires CanonicalDigits(digits) && -6 < n <= 21
    ensures EcmaForm(Place(digits, n))
  {
    hide NatOf, Partition, Parts, Scaled, Pow10, ValueOf, IsDecimal;
    var text := Place(digits, n);
    if |digits| <= n {
      PlaceWhole(digits, n);
      assert text + "" + "" == text;
    } else if 0 < n {
      PlaceInside(digits, n);
      assert digits[..n] + ("." + digits[n..]) + "" == text;
    } else {
      PlaceBehind(digits, n);
      assert "0" + ("." + (Zeros(-n) + digits)) + "" == text;
    }
  }

  lemma FormOfParts(text: string, digits: string, exponent: string)
    requires CanonicalDigits(digits) && text == Numeral(digits[..1], digits[1..], exponent)
    requires Parts(text) == (digits[..1], digits[1..], exponent)
    requires |exponent| > 1 && (exponent[0] == '+' || exponent[0] == '-')
    requires IsDigits(exponent[1..]) && exponent[1] != '0'
    ensures EcmaForm(text)
  {
    hide Parts, Numeral;
  }

  lemma FormExponent(digits: string, n: int)
    requires CanonicalDigits(digits) && !(-6 < n <= 21)
    ensures EcmaForm(Place(digits, n))
  {
    hide NatOf, Parts, Scaled, ValueOf, IsDecimal, Place, ExponentText, IsExponent, IntOf, Mantissa, Numeral,
         EcmaForm, CanonicalDigits;
    CanonicalIsDigits(digits);
    PlaceExponent(digits, n);
    PlaceFar(digits, n);
    ExponentOf(n - 1);
    MantissaText(digits, ExponentText(n - 1));
    FormOfParts(Place(digits, n), digits, ExponentText(n - 1));
  }

  lemma MantissaText(digits: string, exponent: string)
    requires digits != "" && exponent != ""
    ensures Mantissa(digits) + "e" + exponent == Numeral(digits[..1], digits[1..], exponent)
  {
    var point := if |digits| == 1 then "" else "." + digits[1..];
    assert Mantissa(digits) == digits[..1] + point;
    assert Mantissa(digits) + "e" + exponent == Mantissa(digits) + ("e" + exponent);
  }

  /** Every output has the form of an ECMAScript number and starts with a digit. */
  lemma NumberStringForm(text: string)
    requires IsDecimal(text) && ValueOf(text) > 0.0
    ensures EcmaForm(NumberString(text))
  {
    hide Scaled, NatOf, Place, DigitsOf, PointOf, ValueOf, IsDecimal, CanonicalDigits, EcmaForm;
    DigitsValue(text);
    var digits, n := DigitsOf(text), PointOf(text);
    if -6 < n <= 21 {
      FormFixed(digits, n);
    } else {
      FormExponent(digits, n);
    }
  }

  lemma FormStartsWithDigit(text: string)
    requires EcmaForm(text)
    ensures text != "" && '0' <= text[0] <= '9'
  {
    hide Partition, Parts;
    var (whole, fraction, exponent) := Parts(text);
    assert text[0] == whole[0];
  }

  // ------------------------------------------------------------------ floats

  lemma ZeroText()
    ensures Denotes("0") == Some(0.0)
  {
    PartsOf("0", "", "", false);
    assert "0" + "" == "0";
    assert NatOf("0") == 0;
    ScaledZero(0);
  }

  lemma NonzeroDenotes(negative: bool, text: string)
    requires EcmaForm(text) && IsDecimal(text)
    ensures Denotes((if negative then "-" else "") + text)
            == Some(if negative then -ValueOf(text) else ValueOf(text))
  {
    hide EcmaForm, IsDecimal, ValueOf;
    FormStartsWithDigit(text);
    assert "" + text == text;
    assert ("-" + text)[1..] == text;
  }

  /**
   A float that is not finite is refused; any other is written as a text that denotes exactly it,
   in the form and notation of Number::toString.
   */
  lemma EcmaNumberStringMeans(x: Float)
    ensures EcmaNumberString(x).Raise? <==> !Finite(x)
    ensures EcmaNumberString(x).Ok? ==> Denotes(EcmaNumberString(x).value) == Some(FloatValue(x))
    ensures x.Nonzero? ==>
              && EcmaForm(NumberString(x.repr))
              && ((Parts(NumberString(x.repr)).2 == "") <==> Pow10(-6) <= ValueOf(x.repr) < Pow10(21))
  {
    hide Pow10, Parts, NumberString, ValueOf, IsDecimal, EcmaForm, Denotes;
    match x
    case Zero(_) => ZeroText();
    case Nonzero(negative, repr) =>
      NumberStringValue(repr);
      NumberStringForm(repr);
      FixedExactly(repr);
      NonzeroDenotes(negative, NumberString(repr));
    case _ =>
  }

  /** Two finite floats are written alike exactly when they are equal; both zeros are "0". */
  lemma EcmaNumberStringUnique(x: Float, y: Float)
    requires Finite(x) && Finite(y)
    ensures EcmaNumberString(x) == EcmaNumberString(y) <==> FloatValue(x) == FloatValue(y)
  {
    hide Pow10, Parts, NumberString, ValueOf, IsDecimal, EcmaForm, Denotes;
    EcmaNumberStringMeans(x);
    EcmaNumberStringMeans(y);
    if x.Nonzero? && y.Nonzero? {
      OneTextPerValue(x.repr, y.repr);
    }
  }
}
