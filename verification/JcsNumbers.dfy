/**
 Numbers in canonical JSON: each value has one text, ints and floats alike, and the parser reads
 that text back as a number of the same value.
 */
module JcsNumbers {
  import opened Python
  import opened Decimal
  import opened EcmaNumber
  import opened Jcs

  const TEN_21: int := 1_000_000_000_000_000_000_000

  // ------------------------------------------------------------------ integers as decimal texts

  lemma TenDigits()
    ensures Ten(21) == TEN_21
  {
    assert Ten(5) == 100_000;
    assert Ten(10) == 100_000 * Ten(5);
  }

  lemma DigitsOnly(t: string)
    requires t != "" && IsDigits(t)
    ensures Parts(t) == (t, "", "") && IsDecimal(t) && ValueOf(t) == NatOf(t) as real
  {
    PartsOf(t, "", "", false);
    assert t + "" == t;
    hide NatOf;
    assert Scaled(NatOf(t), 0) == NatOf(t) as real;
  }

  lemma {:induction false} NothingToStrip(t: string)
    requires t == "" || t[0] != '0'
    ensures StripLeft(t) == t
  {}

  /** An integer of at most 21 digits is written as it is. */
  lemma NumberStringOfInt(n: nat)
    requires 0 < n < TEN_21
    ensures IsDecimal(NatText(n)) && ValueOf(NatText(n)) == n as real && NumberString(NatText(n)) == NatText(n)
  {
    hide NatText, NatOf, Ten, StripRight;
    var t := NatText(n);
    NatOfText(n);
    NatBounds(t);
    TenDigits();
    if |t| > 21 {
      TenGrows(21, |t| - 1);
    }
    DigitsOnly(t);
    NothingToStrip(t);
    assert t + "" == t;
    var d := StripRight(t);
    assert t == d + Zeros(|t| - |d|);
    DigitsAndZeros(t);
  }

  /** The float equal to an integer. */
  function AsFloat(n: int): Double {
    if n == 0 then Zero(false) else Nonzero(n < 0, NatText(if n < 0 then -n else n))
  }

  lemma IntIsFloat(n: int)
    requires -TEN_21 < n < TEN_21
    ensures IsFloat(AsFloat(n)) && Finite(AsFloat(n)) && FloatValue(AsFloat(n)) == n as real
    ensures EcmaNumberString(AsFloat(n)) == Ok(IntText(n))
  {
    hide NumberString, ValueOf, IsDecimal;
    if n != 0 {
      NumberStringOfInt(if n < 0 then -n else n);
      assert "" + NatText(if n < 0 then -n else n) == NatText(if n < 0 then -n else n);
    } else {
      assert NatText(0) == "0";
    }
  }

  // ------------------------------------------------------------------ reading a written number

  predicate NumberText(t: string) {
    t != "" && (t[0] == '-' || '0' <= t[0] <= '9') && forall i | 0 <= i < |t| :: NumberChar(t[i])
  }

  lemma NumeralChars(whole: string, fraction: string, exponent: string)
    requires IsDigits(whole) && IsDigits(fraction)
    requires exponent == "" || ((exponent[0] == '+' || exponent[0] == '-') && IsDigits(exponent[1..]))
    ensures forall i | 0 <= i < |Numeral(whole, fraction, exponent)| :: NumberChar(Numeral(whole, fraction, exponent)[i])
  {
    var point := if fraction == "" then "" else "." + fraction;
    var tail := if exponent == "" then "" else "e" + exponent;
    assert forall i | 0 <= i < |point| :: NumberChar(point[i]);
    forall i | 0 <= i < |tail| ensures NumberChar(tail[i]) {
      if i >= 2 {
        assert tail[i] == exponent[1..][i - 2];
      }
    }
  }

  lemma FormChars(text: string)
    requires EcmaForm(text)
    ensures NumberText(text) && '0' <= text[0] <= '9'
  {
    hide Parts, Numeral, NumberChar;
    var (whole, fraction, exponent) := Parts(text);
    FormStartsWithDigit(text);
    NumeralChars(whole, fraction, exponent);
  }

  lemma SignedText(negative: bool, body: string)
    requires NumberText(body) && '0' <= body[0] <= '9'
    ensures var t := (if negative then "-" else "") + body;
            NumberText(t) && (t[0] == '-' <==> negative) && (if negative then t[1..] == body else t == body)
  {}

  lemma Pow10IsTen(k: nat)
    ensures Pow10(k) == Ten(k) as real
  {
    ScaledPower(k, 0);
    hide Ten;
    assert Scaled(Ten(k), 0) == Ten(k) as real;
  }

  /** A text of digits alone stands for an integer below 10^21. */
  lemma ShortInteger(repr: string)
    requires IsDecimal(repr) && ValueOf(repr) > 0.0 && IsDigits(NumberString(repr)) && NumberString(repr) != ""
    ensures ValueOf(repr) == NatOf(NumberString(repr)) as real && NatOf(NumberString(repr)) < TEN_21
  {
    hide ValueOf, IsDecimal, NumberString, NatOf, Ten, Pow10;
    var body := NumberString(repr);
    NumberStringValue(repr);
    DigitsOnly(body);
    FixedExactly(repr);
    Pow10IsTen(21);
    TenDigits();
  }

  /** What is written for a finite float is read as a number of its value, with the same text. */
  lemma WrittenIsRead(x: Float)
    requires Finite(x)
    ensures EcmaNumberString(x).Ok? && NumberText(EcmaNumberString(x).value)
    ensures var r := ReadNumber(EcmaNumberString(x).value);
            && r.Some? && NumberOf(r.value) == Some(FloatValue(x))
            && (r.value.Int? ==> -TEN_21 < r.value.n < TEN_21)
            && (r.value.Num? ==> EcmaNumberString(r.value.x) == EcmaNumberString(x))
            && (r.value.Int? || r.value.Num?)
  {
    hide ValueOf, IsDecimal, NumberString, NatOf, EcmaForm;
    if x.Zero? {
      assert NatOf("0") == 0 by { ZeroDigit(); }
    } else {
      var body := NumberString(x.repr);
      NumberStringValue(x.repr);
      NumberStringForm(x.repr);
      FormChars(body);
      SignedText(x.negative, body);
      if IsDigits(body) {
        ShortInteger(x.repr);
      } else {
        EcmaNumberStringUnique(Nonzero(x.negative, body), x);
      }
    }
  }

  lemma ZeroDigit()
    ensures IsDigits("0") && NatOf("0") == 0
  {
    assert "0"[..0] == "";
  }

  lemma DigitsRead(negative: bool, t: string)
    requires t != "" && IsDigits(t)
    ensures var text := (if negative then "-" else "") + t;
            NumberText(text) && ReadNumber(text) == Some(Int(if negative then 0 - NatOf(t) else NatOf(t)))
  {
    hide NatOf;
    assert forall i | 0 <= i < |t| :: NumberChar(t[i]);
    SignedText(negative, t);
  }

  lemma IntIsRead(n: int)
    ensures NumberText(IntText(n)) && ReadNumber(IntText(n)) == Some(Int(n))
  {
    hide NatText, NumberText, ReadNumber;
    var m: nat := if n < 0 then -n else n;
    NatOfText(m);
    DigitsRead(n < 0, NatText(m));
    assert "" + NatText(m) == NatText(m);
  }

  // ------------------------------------------------------------------ one number for each value

  predicate IsNumber(v: Json) {
    v.Int? || (v.Num? && Finite(v.x))
  }

  /** The integers for which an int and a float of one value have one text. */
  predicate Small(v: Json) {
    IsNumber(v) && (v.Int? ==> -TEN_21 < v.n < TEN_21)
  }

  /** The text of a number. */
  function TextOf(v: Json): string
    requires IsNumber(v)
  {
    match v
    case Int(n) => IntText(n)
    case Num(x) => EcmaNumberString(x).value
  }

  /** A number that the parser gives for its own text. */
  predicate NormalNumber(v: Json) {
    Small(v) && ReadNumber(TextOf(v)) == Some(v)
  }

  /** Numbers below 10^21 have one text exactly when they have one value, whatever their type. */
  lemma SameText(v: Json, w: Json)
    requires Small(v) && Small(w)
    ensures TextOf(v) == TextOf(w) <==> NumberOf(v) == NumberOf(w)
  {
    hide IsFloat, FloatValue, EcmaNumberString, AsFloat, IntText;
    var x, y := FloatOf(v), FloatOf(w);
    EcmaNumberStringUnique(x, y);
  }

  /** The float of a number, which has its value and its text. */
  function FloatOf(v: Json): (x: Float)
    requires Small(v)
    ensures Finite(x) && NumberOf(v) == Some(FloatValue(x)) && EcmaNumberString(x) == Ok(TextOf(v))
  {
    match v
    case Int(n) =>
      IntIsFloat(n);
      AsFloat(n)
    case Num(x) => x
  }

  lemma NormalUnique(v: Json, w: Json)
    requires NormalNumber(v) && NormalNumber(w) && NumberOf(v) == NumberOf(w)
    ensures v == w
  {
    hide TextOf, ReadNumber, NumberOf;
    SameText(v, w);
  }

  // ------------------------------------------------------------------ numbers inside values

  /** The value as the parser gives it back: a float written like an int is an int. */
  function Normal(v: Json): Json
    decreases v, 1
  {
    match v
    case Num(x) =>
      if Finite(x) then
        WrittenIsRead(x);
        ReadNumber(TextOf(v)).value
      else v
    case Arr(items) => Arr(NormalItems(items))
    case Obj(fields) => Obj(NormalFields(fields))
    case _ => v
  }

  function NormalItems(items: seq<Json>): (r: seq<Json>)
    ensures |r| == |items|
    ensures forall i | 0 <= i < |items| :: r[i] == Normal(items[i])
    decreases items, 0
  {
    if items == [] then [] else [Normal(items[0])] + NormalItems(items[1..])
  }

  function NormalFields(fields: seq<Field>): (r: seq<Field>)
    ensures |r| == |fields|
    ensures forall i | 0 <= i < |fields| :: r[i] == Field(fields[i].key, Normal(fields[i].val))
    decreases fields, 0
  {
    if fields == [] then [] else [Field(fields[0].key, Normal(fields[0].val))] + NormalFields(fields[1..])
  }

  /** Every number is normal. */
  predicate Normalized(v: Json) {
    match v
    case Int(_) => NormalNumber(v)
    case Num(_) => NormalNumber(v)
    case Arr(items) => forall i | 0 <= i < |items| :: Normalized(items[i])
    case Obj(fields) => forall i | 0 <= i < |fields| :: Normalized(fields[i].val)
    case _ => true
  }

  lemma NumberIsNormal(v: Json)
    requires InProfile(v) && (v.Int? || v.Num?)
    ensures NormalNumber(Normal(v)) && NumberOf(Normal(v)) == NumberOf(v)
  {
    hide ReadNumber, EcmaNumberString, FloatValue, IntText;
    match v
    case Int(n) => IntIsRead(n);
    case Num(x) =>
      WrittenIsRead(x);
      if Normal(v).Int? {
        IntIsRead(Normal(v).n);
      }
  }

  lemma {:induction false} NormalIsNormalized(v: Json)
    requires InProfile(v)
    ensures Normalized(Normal(v))
    decreases v
  {
    match v
    case Arr(items) =>
      forall i | 0 <= i < |items| ensures Normalized(Normal(items[i])) {
        NormalIsNormalized(items[i]);
      }
    case Obj(fields) =>
      forall i | 0 <= i < |fields| ensures Normalized(Normal(fields[i].val)) {
        NormalIsNormalized(fields[i].val);
      }
    case Int(_) => NumberIsNormal(v);
    case Num(_) => NumberIsNormal(v);
    case _ =>
  }

  lemma {:induction false} NormalLookup(fields: seq<Field>, key: string)
    ensures Lookup(NormalFields(fields), key)
            == match Lookup(fields, key) case None => None case Some(v) => Some(Normal(v))
  {
    if fields != [] {
      NormalLookup(fields[1..], key);
      assert NormalFields(fields)[1..] == NormalFields(fields[1..]);
    }
  }

  /** A number and its normal form are equal to the same values. */
  lemma NormalScalar(v: Json, w: Json)
    requires !v.Arr? && !v.Obj? && !w.Arr? && !w.Obj?
    ensures NumberOf(Normal(v)) == NumberOf(v)
    ensures JsonEqual(Normal(v), Normal(w)) <==> JsonEqual(v, w)
  {
    hide ReadNumber, FloatValue, IntText, EcmaNumberString;
    if v.Num? && Finite(v.x) {
      WrittenIsRead(v.x);
    }
    if w.Num? && Finite(w.x) {
      WrittenIsRead(w.x);
    }
  }

  lemma {:induction false} NormalEqual(v: Json, w: Json)
    ensures JsonEqual(Normal(v), Normal(w)) <==> JsonEqual(v, w)
    decreases v
  {
    match v
    case Arr(items) =>
      if w.Arr? && |items| == |w.items| {
        forall i | 0 <= i < |items|
          ensures JsonEqual(Normal(items[i]), Normal(w.items[i])) <==> JsonEqual(items[i], w.items[i])
        {
          NormalEqual(items[i], w.items[i]);
        }
      } else if !w.Arr? {
        NormalKind(w);
      }
    case Obj(fields) =>
      if w.Obj? {
        forall i | 0 <= i < |fields|
          ensures NormalFieldEqual(fields[i], w.fields)
        {
          NormalLookup(w.fields, fields[i].key);
          var other := Lookup(w.fields, fields[i].key);
          if other.Some? {
            NormalEqual(fields[i].val, other.value);
          }
        }
        NormalObjects(fields, w.fields);
      } else {
        NormalKind(w);
      }
    case _ =>
      if w.Arr? || w.Obj? {
        NormalKind(v);
      } else {
        NormalScalar(v, w);
      }
  }

  lemma NormalKind(v: Json)
    ensures (Normal(v).Arr? <==> v.Arr?) && (Normal(v).Obj? <==> v.Obj?)
    ensures NumberOf(Normal(v)).Some? <==> NumberOf(v).Some?
  {
    hide ReadNumber, EcmaNumberString, FloatValue;
    if v.Num? && Finite(v.x) {
      WrittenIsRead(v.x);
    }
  }

  ghost predicate FieldEqual(f: Field, gs: seq<Field>) {
    var other := Lookup(gs, f.key);
    other.Some? && JsonEqual(f.val, other.value)
  }

  ghost predicate NormalFieldEqual(f: Field, gs: seq<Field>) {
    FieldEqual(Field(f.key, Normal(f.val)), NormalFields(gs)) <==> FieldEqual(f, gs)
  }

  lemma NormalObjects(fs: seq<Field>, gs: seq<Field>)
    requires forall i | 0 <= i < |fs| :: NormalFieldEqual(fs[i], gs)
    ensures JsonEqual(Normal(Obj(fs)), Normal(Obj(gs))) <==> JsonEqual(Obj(fs), Obj(gs))
  {
    hide Lookup;
    ObjectsEqual(fs, gs);
    ObjectsEqual(NormalFields(fs), NormalFields(gs));
    if forall i | 0 <= i < |fs| :: FieldEqual(NormalFields(fs)[i], NormalFields(gs)) {
      forall i | 0 <= i < |fs| ensures FieldEqual(fs[i], gs) {
        assert FieldEqual(NormalFields(fs)[i], NormalFields(gs));
        assert NormalFieldEqual(fs[i], gs);
      }
    }
  }

  lemma ObjectsEqual(fs: seq<Field>, gs: seq<Field>)
    ensures JsonEqual(Obj(fs), Obj(gs)) <==> |fs| == |gs| && forall i | 0 <= i < |fs| :: FieldEqual(fs[i], gs)
  {}
}
