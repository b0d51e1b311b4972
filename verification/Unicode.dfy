/**
 The two encodings that canonical JSON depends on: UTF-8 for the bytes that are hashed and
 UTF-16 for the order of keys.  A string is a sequence of Unicode scalar values.
 */
module Unicode {
  import opened Python
  import opened Bytes
  import opened Order

  // ------------------------------------------------------------------ UTF-8

  function Utf8Char(c: char): ByteString {
    var n := c as int;
    if n < 0x80 then [n]
    else if n < 0x800 then [0xC0 + n / 0x40, 0x80 + n % 0x40]
    else if n < 0x1_0000 then [0xE0 + n / 0x1000, 0x80 + n / 0x40 % 0x40, 0x80 + n % 0x40]
    else [0xF0 + n / 0x4_0000, 0x80 + n / 0x1000 % 0x40, 0x80 + n / 0x40 % 0x40, 0x80 + n % 0x40]
  }

  function Utf8(s: string): ByteString {
    if s == [] then [] else Utf8Char(s[0]) + Utf8(s[1..])
  }

  /** The scalar value denoted by the leading bytes of an encoded text. */
  function LeadingScalar(b: seq<int>): (n: int)
    requires b != []
  {
    if b[0] < 0x80 || |b| < 2 then b[0]
    else if b[0] < 0xE0 || |b| < 3 then (b[0] - 0xC0) * 0x40 + (b[1] - 0x80)
    else if b[0] < 0xF0 || |b| < 4 then (b[0] - 0xE0) * 0x1000 + (b[1] - 0x80) * 0x40 + (b[2] - 0x80)
    else (b[0] - 0xF0) * 0x4_0000 + (b[1] - 0x80) * 0x1000 + (b[2] - 0x80) * 0x40 + (b[3] - 0x80)
  }

  /** The digits of a number in base 64. */
  lemma Sextets(n: nat)
    ensures n / 0x1000 == n / 0x40 / 0x40 && n / 0x4_0000 == n / 0x1000 / 0x40
  {}

  lemma FromSextets(n: nat, a: nat, b: nat, c: nat)
    requires a == n / 0x40 && b == a / 0x40 && c == b / 0x40
    ensures n == b * 0x1000 + a % 0x40 * 0x40 + n % 0x40
    ensures n == c * 0x4_0000 + b % 0x40 * 0x1000 + a % 0x40 * 0x40 + n % 0x40
  {}

  lemma Utf8CharDecodes(c: char, rest: ByteString)
    ensures LeadingScalar(Utf8Char(c) + rest) == c as int
  {
    var n := c as int;
    Sextets(n);
    FromSextets(n, n / 0x40, n / 0x1000, n / 0x4_0000);
    var b := Utf8Char(c) + rest;
    assert n >= 0x1_0000 ==> b[0] >= 0xF0;
  }

  lemma {:induction false} Utf8Injective(s: string, t: string)
    requires Utf8(s) == Utf8(t)
    ensures s == t
  {
    if s != [] && t != [] {
      Utf8CharDecodes(s[0], Utf8(s[1..]));
      Utf8CharDecodes(t[0], Utf8(t[1..]));
      assert s[0] == t[0];
      var k := |Utf8Char(s[0])|;
      assert Utf8(s)[k..] == Utf8(s[1..]) && Utf8(t)[k..] == Utf8(t[1..]);
      Utf8Injective(s[1..], t[1..]);
      assert s == [s[0]] + s[1..] && t == [t[0]] + t[1..];
    }
  }

  /** A byte that continues a character. */
  predicate Continues(b: ByteString, i: int) {
    0 <= i < |b| && 0x80 <= b[i] < 0xC0
  }

  /** How many bytes the first character takes, if it is encoded as section 3 of RFC 3629 requires. */
  function LeadingLength(b: ByteString): (k: nat)
    ensures k <= |b|
  {
    if b == [] then 0
    else if b[0] < 0x80 then 1
    else if 0xC2 <= b[0] < 0xE0 && Continues(b, 1) then 2
    else if 0xE0 <= b[0] < 0xF0 && Continues(b, 1) && Continues(b, 2) && LeadingScalar(b) >= 0x800 then 3
    else if 0xF0 <= b[0] < 0xF8 && Continues(b, 1) && Continues(b, 2) && Continues(b, 3) && LeadingScalar(b) >= 0x1_0000
    then 4
    else 0
  }

  predicate IsScalar(n: int) {
    0 <= n < 0xD800 || 0xE000 <= n < 0x11_0000
  }

  /** A strict decoder: no overlong form, no surrogate, nothing beyond U+10FFFF. */
  function DecodeUtf8(b: ByteString): Option<string>
    decreases |b|
  {
    if b == [] then Some("")
    else if LeadingLength(b) == 0 || !IsScalar(LeadingScalar(b)) then None
    else
      match DecodeUtf8(b[LeadingLength(b)..])
      case None => None
      case Some(rest) => Some([LeadingScalar(b) as char] + rest)
  }

  lemma Utf8CharLength(c: char, rest: ByteString)
    ensures LeadingLength(Utf8Char(c) + rest) == |Utf8Char(c)| > 0
  {
    hide LeadingScalar;
    Utf8CharDecodes(c, rest);
    CharBytes(c);
    var b := Utf8Char(c) + rest;
    assert forall i | 0 <= i < |Utf8Char(c)| :: b[i] == Utf8Char(c)[i];
  }

  /** The bit patterns of the bytes of one character. */
  lemma CharBytes(c: char)
    ensures var b, n := Utf8Char(c), c as int;
            && (n < 0x80 ==> |b| == 1 && b[0] < 0x80)
            && (0x80 <= n < 0x800 ==> |b| == 2 && 0xC2 <= b[0] < 0xE0)
            && (0x800 <= n < 0x1_0000 ==> |b| == 3 && 0xE0 <= b[0] < 0xF0)
            && (0x1_0000 <= n ==> |b| == 4 && 0xF0 <= b[0] < 0xF8)
            && forall i | 1 <= i < |b| :: Continues(b, i)
  {}

  /** UTF-8 text is read back by the strict decoder. */
  lemma {:induction false} Utf8RoundTrip(s: string)
    ensures DecodeUtf8(Utf8(s)) == Some(s)
  {
    if s != "" {
      hide LeadingScalar, LeadingLength, Utf8Char;
      var head, rest := Utf8Char(s[0]), Utf8(s[1..]);
      Utf8CharDecodes(s[0], rest);
      Utf8CharLength(s[0], rest);
      Utf8RoundTrip(s[1..]);
      assert (head + rest)[|head|..] == rest;
      assert s == [s[0]] + s[1..];
    }
  }

  // ------------------------------------------------------------------ UTF-16

  type CodeUnit = x: int | 0 <= x < 0x1_0000

  function Utf16Char(c: char): seq<CodeUnit> {
    var n := c as int;
    if n < 0x1_0000 then [n]
    else [0xD800 + (n - 0x1_0000) / 0x400, 0xDC00 + (n - 0x1_0000) % 0x400]
  }

  /** The code units of a text. */
  function Utf16(s: string): seq<CodeUnit> {
    if s == [] then [] else Utf16Char(s[0]) + Utf16(s[1..])
  }

  predicate IsLead(u: CodeUnit) {
    0xD800 <= u < 0xDC00
  }

  predicate IsTrail(u: CodeUnit) {
    0xDC00 <= u < 0xE000
  }

  /** A strict decoder: surrogates come in pairs only (section 2.1 of RFC 2781). */
  function DecodeUtf16(u: seq<CodeUnit>): Option<string>
    decreases |u|
  {
    if u == [] then Some("")
    else if !IsLead(u[0]) && !IsTrail(u[0]) then
      match DecodeUtf16(u[1..])
      case None => None
      case Some(rest) => Some([u[0] as char] + rest)
    else if IsLead(u[0]) && |u| >= 2 && IsTrail(u[1]) then
      var lead: int, trail: int := u[0], u[1];
      match DecodeUtf16(u[2..])
      case None => None
      case Some(rest) => Some([((lead - 0xD800) * 0x400 + (trail - 0xDC00) + 0x1_0000) as char] + rest)
    else None
  }

  /** UTF-16 text is read back by the strict decoder. */
  lemma {:induction false} Utf16RoundTrip(s: string)
    ensures DecodeUtf16(Utf16(s)) == Some(s)
  {
    if s != "" {
      Utf16RoundTrip(s[1..]);
      var head, rest := Utf16Char(s[0]), Utf16(s[1..]);
      assert (head + rest)[|head|..] == rest;
      assert s == [s[0]] + s[1..];
    }
  }

  /** Big-endian bytes of code units: str.encode("utf-16-be"). */
  function BigEndian(units: seq<CodeUnit>): ByteString {
    if units == [] then [] else [units[0] / 0x100, units[0] % 0x100] + BigEndian(units[1..])
  }

  function Utf16Be(s: string): ByteString {
    BigEndian(Utf16(s))
  }

  lemma {:induction false} Utf16Injective(s: string, t: string)
    requires Utf16(s) == Utf16(t)
    ensures s == t
  {
    if s != [] && t != [] {
      assert Utf16(s)[0] == Utf16Char(s[0])[0] && Utf16(t)[0] == Utf16Char(t[0])[0];
      assert |Utf16Char(s[0])| == |Utf16Char(t[0])|;
      var k := |Utf16Char(s[0])|;
      assert Utf16(s)[..k] == Utf16Char(s[0]) && Utf16(t)[..k] == Utf16Char(t[0]);
      assert Utf16(s)[k..] == Utf16(s[1..]) && Utf16(t)[k..] == Utf16(t[1..]);
      if k == 2 {
        assert Utf16Char(s[0])[1] == Utf16Char(t[0])[1];
      }
      assert s[0] == t[0];
      Utf16Injective(s[1..], t[1..]);
      assert s == [s[0]] + s[1..] && t == [t[0]] + t[1..];
    }
  }

  /** Ordering the big-endian bytes, as the source does, is ordering the code units. */
  lemma {:induction false} BigEndianOrder(u: seq<CodeUnit>, v: seq<CodeUnit>)
    ensures LexLeq(BigEndian(u), BigEndian(v)) <==> LexLeq(u, v)
    ensures BigEndian(u) == BigEndian(v) <==> u == v
  {
    if u != [] && v != [] {
      var bu: seq<int>, bv: seq<int> := BigEndian(u), BigEndian(v);
      BigEndianOrder(u[1..], v[1..]);
      assert bu[1..][1..] == BigEndian(u[1..]) && bv[1..][1..] == BigEndian(v[1..]);
      assert u == [u[0]] + u[1..] && v == [v[0]] + v[1..];
      assert u[0] == bu[0] * 0x100 + bu[1..][0] && v[0] == bv[0] * 0x100 + bv[1..][0];
    }
  }

  lemma Utf16BeInjective(s: string, t: string)
    requires Utf16Be(s) == Utf16Be(t)
    ensures s == t
  {
    BigEndianOrder(Utf16(s), Utf16(t));
    Utf16Injective(s, t);
  }
}
