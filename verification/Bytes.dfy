/**
 Byte strings, hexadecimal text, and hashing.

 SHA-256 is a parameter: every definition and theorem takes an arbitrary function h
 from byte strings to 32-byte strings.  A collision is always claimed among an explicit
 finite set of preimages, the messages actually hashed, because some collision exists for
 every such h.
 */
module Bytes {
  import opened Python

  type Byte = x: int | 0 <= x < 256
  type ByteString = seq<Byte>
  type Digest = b: ByteString | |b| == 32 witness seq(32, _ => 0)
  type HashFn = ByteString -> Digest

  /** Two different messages of the set have the same hash. */
  ghost predicate Collision(h: HashFn, messages: set<ByteString>) {
    exists x, y :: x in messages && y in messages && x != y && h(x) == h(y)
  }

  lemma CollisionGrows(h: HashFn, small: set<ByteString>, large: set<ByteString>)
    requires small <= large
    ensures Collision(h, small) ==> Collision(h, large)
  {}

  lemma SameMessage(h: HashFn, messages: set<ByteString>, x: ByteString, y: ByteString)
    requires !Collision(h, messages)
    requires x in messages && y in messages && h(x) == h(y)
    ensures x == y
  {}

  // ------------------------------------------------------------------ hexadecimal

  predicate LowerHexDigit(c: char) {
    '0' <= c <= '9' || 'a' <= c <= 'f'
  }

  function HexDigit(n: int): (c: char)
    requires 0 <= n < 16
    ensures LowerHexDigit(c) && HexValue(c) == Some(n)
  {
    if n < 10 then '0' + n as char else 'a' + (n - 10) as char
  }

  function HexValue(c: char): (r: Option<int>)
    ensures r.Some? ==> 0 <= r.value < 16
  {
    if '0' <= c <= '9' then Some(c as int - '0' as int)
    else if 'a' <= c <= 'f' then Some(c as int - 'a' as int + 10)
    else if 'A' <= c <= 'F' then Some(c as int - 'A' as int + 10)
    else None
  }

  /** bytes.hex() */
  function Hex(b: ByteString): string {
    if b == [] then "" else [HexDigit(b[0] / 16), HexDigit(b[0] % 16)] + Hex(b[1..])
  }

  /** The characters bytes.fromhex() skips between two bytes. */
  predicate HexSpace(c: char) {
    c as int == 32 || 9 <= c as int <= 13
  }

  /** bytes.fromhex(); None is its ValueError. */
  function FromHex(s: string): Option<ByteString> {
    if s == [] then Some([])
    else if HexSpace(s[0]) then FromHex(s[1..])
    else if |s| == 1 || HexValue(s[0]).None? || HexValue(s[1]).None? then None
    else
      match FromHex(s[2..])
      case None => None
      case Some(rest) => Some([16 * HexValue(s[0]).value + HexValue(s[1]).value] + rest)
  }

  /** The shape check of trail_head.py: 64 characters, decodable, no upper case. */
  predicate IsHex64(s: string) {
    |s| == 64 && FromHex(s).Some? && forall c | c in s :: !('A' <= c <= 'Z')
  }

  const LOWER_DIGITS := "0123456789abcdef"
  const UPPER_DIGITS := "0123456789ABCDEF"

  /** The digits that are written, and those that are read. */
  lemma HexDigitsExactly(n: int, c: char)
    requires 0 <= n < 16
    ensures HexDigit(n) == LOWER_DIGITS[n]
    ensures HexValue(c) == Some(n) <==> c == LOWER_DIGITS[n] || c == UPPER_DIGITS[n]
  {}

  lemma {:induction false} HexRoundTrip(b: ByteString)
    ensures FromHex(Hex(b)) == Some(b)
    ensures |Hex(b)| == 2 * |b|
    ensures forall c | c in Hex(b) :: LowerHexDigit(c)
  {
    if b != [] {
      HexRoundTrip(b[1..]);
      assert Hex(b)[2..] == Hex(b[1..]);
      assert b == [b[0]] + b[1..];
    }
  }

  lemma HexInjective(a: ByteString, b: ByteString)
    requires Hex(a) == Hex(b)
    ensures a == b
  {
    HexRoundTrip(a);
    HexRoundTrip(b);
  }

  lemma HexOfDigest(d: Digest)
    ensures IsHex64(Hex(d))
  {
    HexRoundTrip(d);
  }

  /** Every pair of characters gives one byte; skipped characters make the result shorter. */
  lemma {:induction false} FromHexLength(s: string)
    requires FromHex(s).Some?
    ensures 2 * |FromHex(s).value| <= |s|
    ensures 2 * |FromHex(s).value| == |s| <==> forall c | c in s :: HexValue(c).Some?
  {
    if s == [] {
    } else if HexSpace(s[0]) {
      FromHexLength(s[1..]);
      assert s[0] in s;
    } else {
      FromHexLength(s[2..]);
      assert s == [s[0], s[1]] + s[2..];
    }
  }

  predicate LowerHex64(s: string) {
    |s| == 64 && forall c | c in s :: LowerHexDigit(c)
  }

  lemma {:induction false} AllDigitsDecode(s: string)
    requires |s| % 2 == 0 && forall c | c in s :: HexValue(c).Some?
    ensures FromHex(s).Some?
  {
    if s != [] {
      assert s[0] in s && s[1] in s;
      AllDigitsDecode(s[2..]);
    }
  }

  /**
   The documentation promises "64 lowercase hex chars".  The code also accepts white space
   between two bytes; it agrees with the documentation exactly on texts without it.
   */
  lemma IsHex64Exactly(s: string)
    ensures LowerHex64(s) <==> IsHex64(s) && forall c | c in s :: !HexSpace(c)
    ensures IsHex64(s) && LowerHex64(s) ==> |FromHex(s).value| == 32
    ensures IsHex64(s) && !LowerHex64(s) ==> |FromHex(s).value| < 32
  {
    if LowerHex64(s) {
      AllDigitsDecode(s);
    }
    if IsHex64(s) {
      FromHexLength(s);
      if forall c | c in s :: !HexSpace(c) {
        DecodedWithoutSpace(s);
      }
    }
  }

  lemma {:induction false} DecodedWithoutSpace(s: string)
    requires FromHex(s).Some? && forall c | c in s :: !HexSpace(c)
    ensures forall c | c in s :: HexValue(c).Some?
  {
    if s != [] {
      assert s[0] in s;
      DecodedWithoutSpace(s[2..]);
      assert s == [s[0], s[1]] + s[2..];
    }
  }

  /** A text the code accepts and the documentation does not: a blank, then 31 bytes, then a blank. */
  lemma BlankedTextAccepted(b: ByteString)
    requires |b| == 31
    ensures IsHex64(" " + Hex(b) + " ") && !LowerHex64(" " + Hex(b) + " ")
  {
    var s := " " + Hex(b) + " ";
    HexRoundTrip(b);
    assert s[1..] == Hex(b) + " ";
    TrailingBlank(b);
    assert ' ' in s;
  }

  lemma {:induction false} TrailingBlank(b: ByteString)
    ensures FromHex(Hex(b) + " ") == Some(b)
  {
    var s := Hex(b) + " ";
    if b == [] {
      assert s[1..] == [];
    } else {
      TrailingBlank(b[1..]);
      assert s[2..] == Hex(b[1..]) + " ";
      assert HexValue(s[0]) == Some(b[0] / 16) && HexValue(s[1]) == Some(b[0] % 16);
      assert b == [b[0]] + b[1..];
    }
  }
}
