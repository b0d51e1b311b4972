/**
 Canonical JSON (jcs.py) and a parser that inverts it.

 A dict is the sequence of its items in insertion order; its keys are distinct.
 */
module Jcs {
  import opened Python
  import opened Bytes
  import opened Order
  import opened Unicode
  import opened Decimal
  import opened EcmaNumber

  datatype Json =
    | Null
    | Bool(b: bool)
    | Int(n: int)
    | Num(x: Float)
    | Str(s: string)
    | Arr(items: seq<Json>)
    | Obj(fields: seq<Field>)

  datatype Field = Field(key: string, val: Json)

  const MAX_SAFE: int := 0x1F_FFFF_FFFF_FFFF

  // ------------------------------------------------------------------ _canonicalize

  /** The sort key of a dict item: the key's big-endian UTF-16 bytes. */
  function SortKey(f: Field): seq<int> {
    Utf16Be(f.key)
  }

  function Canonicalize(v: Json): Json
    decreases v, 1
  {
    match v
    case Obj(fields) => Obj(SortBy(CanonicalizeFields(fields), SortKey))
    case Arr(items) => Arr(CanonicalizeItems(items))
    case _ => v
  }

  function CanonicalizeItems(items: seq<Json>): (r: seq<Json>)
    ensures |r| == |items|
    ensures forall i | 0 <= i < |items| :: r[i] == Canonicalize(items[i])
    decreases items, 0
  {
    if items == [] then [] else [Canonicalize(items[0])] + CanonicalizeItems(items[1..])
  }

  function CanonicalizeFields(fields: seq<Field>): (r: seq<Field>)
    ensures |r| == |fields|
    ensures forall i | 0 <= i < |fields| :: r[i] == Field(fields[i].key, Canonicalize(fields[i].val))
    decreases fields, 0
  {
    if fields == [] then []
    else [Field(fields[0].key, Canonicalize(fields[0].val))] + CanonicalizeFields(fields[1..])
  }

  // ------------------------------------------------------------------ _encode

  /** json.dumps of one character without escaping non-ASCII text */
  function EscapeChar(c: char): string {
    if c == '\"' then "\\\""
    else if c == '\\' then "\\\\"
    else if c == '\n' then "\\n"
    else if c == '\r' then "\\r"
    else if c == '\t' then "\\t"
    else if c as int == 0x0C then "\\f"
    else if c as int == 0x08 then "\\b"
    else if c as int < 0x20 then "\\u00" + [HexDigit(c as int / 16), HexDigit(c as int % 16)]
    else [c]
  }

  function EscapeText(s: string): string {
    if s == [] then "" else EscapeChar(s[0]) + EscapeText(s[1..])
  }

  function EncodeText(s: string): string {
    "\"" + EscapeText(s) + "\""
  }

  function Encode(v: Json): Result<string>
    decreases v, 1
  {
    match v
    case Null => Ok("null")
    case Bool(b) => Ok(if b then "true" else "false")
    case Str(s) => Ok(EncodeText(s))
    case Int(n) => if -MAX_SAFE <= n <= MAX_SAFE then Ok(IntText(n)) else Raise(ValueError)
    case Num(x) => EcmaNumberString(x)
    case Obj(fields) =>
      var body :- EncodeFields(fields);
      Ok("{" + body + "}")
    case Arr(items) =>
      var body :- EncodeItems(items);
      Ok("[" + body + "]")
  }

  /** The items joined by commas. */
  function EncodeItems(items: seq<Json>): Result<string>
    decreases items, 0
  {
    if items == [] then Ok("")
    else
      var first :- Encode(items[0]);
      if |items| == 1 then Ok(first)
      else
        var others :- EncodeItems(items[1..]);
        Ok(first + "," + others)
  }

  function EncodeFields(fields: seq<Field>): Result<string>
    decreases fields, 0
  {
    if fields == [] then Ok("")
    else
      var val :- Encode(fields[0].val);
      var first := EncodeText(fields[0].key) + ":" + val;
      if |fields| == 1 then Ok(first)
      else
        var others :- EncodeFields(fields[1..]);
        Ok(first + "," + others)
  }

  function JcsDumps(v: Json): Result<string> {
    Encode(Canonicalize(v))
  }

  function JcsBytes(v: Json): Result<ByteString> {
    var text :- JcsDumps(v);
    Ok(Utf8(text))
  }

  // ------------------------------------------------------------------ values

  /** Every integer is within +/-(2^53 - 1) and every float is finite. */
  predicate InProfile(v: Json) {
    match v
    case Int(n) => -MAX_SAFE <= n <= MAX_SAFE
    case Num(x) => Finite(x)
    case Arr(items) => forall i | 0 <= i < |items| :: InProfile(items[i])
    case Obj(fields) => forall i | 0 <= i < |fields| :: InProfile(fields[i].val)
    case _ => true
  }

  /** Keys are distinct in every dict, as they are in Python. */
  predicate Proper(v: Json) {
    match v
    case Arr(items) => forall i | 0 <= i < |items| :: Proper(items[i])
    case Obj(fields) =>
      && (forall i, j | 0 <= i < j < |fields| :: fields[i].key != fields[j].key)
      && (forall i | 0 <= i < |fields| :: Proper(fields[i].val))
    case _ => true
  }

  /** dict.get() */
  function Lookup(fields: seq<Field>, key: string): Option<Json> {
    if fields == [] then None
    else if fields[0].key == key then Some(fields[0].val)
    else Lookup(fields[1..], key)
  }

  /** The number a JSON value is: JSON has one kind, whether Python holds an int or a float. */
  function NumberOf(v: Json): Option<real> {
    match v
    case Int(n) => Some(n as real)
    case Num(x) => if Finite(x) then Some(FloatValue(x)) else None
    case _ => None
  }

  /** Equal as JSON: the order of keys does not matter, and numbers are equal by value. */
  predicate JsonEqual(v: Json, w: Json)
    decreases v
  {
    match v
    case Arr(items) =>
      && w.Arr? && |items| == |w.items|
      && forall i | 0 <= i < |items| :: JsonEqual(items[i], w.items[i])
    case Obj(fields) =>
      && w.Obj? && |fields| == |w.fields|
      && forall i | 0 <= i < |fields| ::
           var other := Lookup(w.fields, fields[i].key);
           other.Some? && JsonEqual(fields[i].val, other.value)
    case _ => if NumberOf(v).Some? then NumberOf(v) == NumberOf(w) else v == w
  }

  /** Keys ascend strictly in UTF-16 code units in every dict (section 3.2.3 of RFC 8785). */
  predicate KeysAscend(v: Json) {
    match v
    case Arr(items) => forall i | 0 <= i < |items| :: KeysAscend(items[i])
    case Obj(fields) =>
      && (forall i, j | 0 <= i < j < |fields| :: LexLess(Utf16(fields[i].key), Utf16(fields[j].key)))
      && (forall i | 0 <= i < |fields| :: KeysAscend(fields[i].val))
    case _ => true
  }

  // ------------------------------------------------------------------ a parser of canonical text

  datatype Parsed<+T> = Fail | Done(value: T, rest: string)

  predicate NumberChar(c: char) {
    '0' <= c <= '9' || c == '-' || c == '+' || c == '.' || c == 'e'
  }

  /** The longest prefix of characters of numbers, and what follows it. */
  function TakeNumber(s: string): (r: (string, string))
    ensures |r.0| + |r.1| == |s|
  {
    if s == "" || !NumberChar(s[0]) then ("", s)
    else
      var r := TakeNumber(s[1..]);
      ([s[0]] + r.0, r.1)
  }

  /** A number: an int when it has neither point nor exponent, a float otherwise. */
  function ReadNumber(token: string): Option<Json> {
    var negative := token != "" && token[0] == '-';
    var body := if negative then token[1..] else token;
    if body != "" && IsDigits(body) then Some(Int(if negative then 0 - NatOf(body) else NatOf(body)))
    else if IsDecimal(body) && ValueOf(body) > 0.0 then Some(Num(Nonzero(negative, body)))
    else None
  }

  function Unescape(c: char): Option<char> {
    match c
    case '\"' => Some('\"')
    case '\\' => Some('\\')
    case 'n' => Some('\n')
    case 'r' => Some('\r')
    case 't' => Some('\t')
    case 'f' => Some(0x0C as char)
    case 'b' => Some(0x08 as char)
    case _ => None
  }

  /** A control character without a two-character escape. */
  predicate LongEscape(n: int) {
    0 <= n < 0x20 && n != 0x08 && n != 0x09 && n != 0x0A && n != 0x0C && n != 0x0D
  }

  /**
   The control character that the four digits after "\u" name.  The parser is strict: it reads only
   the spelling of section 3.2.2.2 of RFC 8785, with lowercase digits, and where nothing shorter will do.
   */
  function UnescapeCode(s: string): Option<char> {
    if |s| < 4 || s[0] != '0' || s[1] != '0' || !LowerHexDigit(s[2]) || !LowerHexDigit(s[3]) then None
    else
      var n := 0x10 * HexValue(s[2]).value + HexValue(s[3]).value;
      if LongEscape(n) then Some(n as char) else None
  }

  function Prepend(c: char, p: Parsed<string>): Parsed<string> {
    if p.Fail? then Fail else Done([c] + p.value, p.rest)
  }

  /** The characters of a text up to and including the closing quote. */
  function ParseText(s: string): (r: Parsed<string>)
    ensures r.Done? ==> |r.rest| < |s|
  {
    if s == [] || s[0] as int < 0x20 then Fail
    else if s[0] == '\"' then Done("", s[1..])
    else if s[0] != '\\' then Prepend(s[0], ParseText(s[1..]))
    else if |s| == 1 then Fail
    else if s[1] == 'u' then
      if UnescapeCode(s[2..]).None? then Fail
      else Prepend(UnescapeCode(s[2..]).value, ParseText(s[6..]))
    else
      if Unescape(s[1]).None? then Fail
      else Prepend(Unescape(s[1]).value, ParseText(s[2..]))
  }

  function ParseScalar(s: string): (r: Parsed<Json>)
    ensures r.Done? ==> |r.rest| < |s|
  {
    if "null" <= s then Done(Null, s[4..])
    else if "true" <= s then Done(Bool(true), s[4..])
    else if "false" <= s then Done(Bool(false), s[5..])
    else if "\"" <= s then
      var t := ParseText(s[1..]);
      if t.Fail? then Fail else Done(Str(t.value), t.rest)
    else
      var (token, rest) := TakeNumber(s);
      if token == "" || ReadNumber(token).None? then Fail else Done(ReadNumber(token).value, rest)
  }

  function ArrayOf(p: Parsed<seq<Json>>): Parsed<Json> {
    if p.Fail? then Fail else Done(Arr(p.value), p.rest)
  }

  function ObjectOf(p: Parsed<seq<Field>>): Parsed<Json> {
    if p.Fail? then Fail else Done(Obj(p.value), p.rest)
  }

  function ParseValue(s: string): (r: Parsed<Json>)
    ensures r.Done? ==> |r.rest| < |s|
    decreases |s|, 0
  {
    if "[" <= s then
      if "[]" <= s then Done(Arr([]), s[2..]) else ArrayOf(ParseItems(s[1..]))
    else if "{" <= s then
      if "{}" <= s then Done(Obj([]), s[2..]) else ObjectOf(ParseFields(s[1..]))
    else ParseScalar(s)
  }

  /** One or more values separated by commas, up to and including the closing bracket. */
  function ParseItems(s: string): (r: Parsed<seq<Json>>)
    ensures r.Done? ==> |r.rest| < |s|
    decreases |s|, 1
  {
    var first := ParseValue(s);
    if first.Fail? || first.rest == [] then Fail
    else if first.rest[0] == ']' then Done([first.value], first.rest[1..])
    else if first.rest[0] != ',' then Fail
    else
      var others := ParseItems(first.rest[1..]);
      if others.Fail? then Fail else Done([first.value] + others.value, others.rest)
  }

  /** A quoted key, a colon and a value. */
  function ParseField(s: string): (r: Parsed<Field>)
    ensures r.Done? ==> |r.rest| < |s|
    decreases |s|, 1
  {
    if s == [] || s[0] != '\"' then Fail
    else
      var key := ParseText(s[1..]);
      if key.Fail? || key.rest == [] || key.rest[0] != ':' then Fail
      else
        var val := ParseValue(key.rest[1..]);
        if val.Fail? then Fail else Done(Field(key.value, val.value), val.rest)
  }

  function ParseFields(s: string): (r: Parsed<seq<Field>>)
    ensures r.Done? ==> |r.rest| < |s|
    decreases |s|, 2
  {
    var first := ParseField(s);
    if first.Fail? || first.rest == [] then Fail
    else if first.rest[0] == '}' then Done([first.value], first.rest[1..])
    else if first.rest[0] != ',' then Fail
    else
      var others := ParseFields(first.rest[1..]);
      if others.Fail? then Fail else Done([first.value] + others.value, others.rest)
  }

  /** A whole text that is one JSON value. */
  function Parse(s: string): Option<Json> {
    var r := ParseValue(s);
    if r.Done? && r.rest == [] then Some(r.value) else None
  }
}
