/** The parser inverts the printer, and equal canonical bytes mean equal JSON. */
module JcsTheorems {
  import opened Python
  import opened Bytes
  import opened Order
  import opened Unicode
  import opened Jcs
  import opened Decimal
  import opened EcmaNumber
  import opened JcsNumbers

  // ------------------------------------------------------------------ numbers and texts

  predicate NoNumberFirst(rest: string) {
    rest == [] || !NumberChar(rest[0])
  }

  lemma {:induction false} TakeAll(t: string, rest: string)
    requires NoNumberFirst(rest) && forall i | 0 <= i < |t| :: NumberChar(t[i])
    ensures TakeNumber(t + rest) == (t, rest)
    decreases |t|
  {
    if t == "" {
      assert t + rest == rest;
    } else {
      TakeAll(t[1..], rest);
      assert (t + rest)[1..] == t[1..] + rest;
      assert [t[0]] + t[1..] == t;
    }
  }

  lemma ParseNumber(t: string, v: Json, rest: string)
    requires NumberText(t) && ReadNumber(t) == Some(v) && NoNumberFirst(rest)
    ensures ParseValue(t + rest) == Done(v, rest)
  {
    hide ReadNumber, TakeNumber;
    TakeAll(t, rest);
    assert (t + rest)[0] == t[0];
    ScalarStart(t + rest);
  }

  /** The code of a control character is read back. */
  lemma ControlCode(c: char, tail: string)
    requires LongEscape(c as int)
    ensures UnescapeCode("00" + [HexDigit(c as int / 16), HexDigit(c as int % 16)] + tail) == Some(c)
  {
    var code := "00" + [HexDigit(c as int / 16), HexDigit(c as int % 16)] + tail;
    assert code[0] == '0' && code[1] == '0';
    assert code[2] == HexDigit(c as int / 16) && code[3] == HexDigit(c as int % 16);
  }

  lemma ParseControlChar(c: char, tail: string)
    requires c as int < 0x20 && |EscapeChar(c)| == 6
    ensures ParseText(EscapeChar(c) + tail) == Prepend(c, ParseText(tail))
  {
    var s, code := EscapeChar(c) + tail, "00" + [HexDigit(c as int / 16), HexDigit(c as int % 16)] + tail;
    assert s == "\\u" + code;
    assert s[2..] == code && s[6..] == tail;
    hide HexDigit, UnescapeCode;
    ControlCode(c, tail);
  }

  lemma ParseEscapedChar(c: char, tail: string)
    ensures ParseText(EscapeChar(c) + tail) == Prepend(c, ParseText(tail))
  {
    var s := EscapeChar(c) + tail;
    if |EscapeChar(c)| == 1 {
      assert s[1..] == tail;
    } else if |EscapeChar(c)| == 2 {
      assert s[2..] == tail;
    } else {
      hide ParseText, HexDigit;
      ParseControlChar(c, tail);
    }
  }

  lemma {:induction false} ParseEscapedText(t: string, rest: string)
    ensures ParseText(EscapeText(t) + "\"" + rest) == Done(t, rest)
  {
    if t == [] {
      assert EscapeText(t) + "\"" + rest == "\"" + rest;
      assert ("\"" + rest)[1..] == rest;
    } else {
      var tail := EscapeText(t[1..]) + "\"" + rest;
      assert EscapeText(t) + "\"" + rest == EscapeChar(t[0]) + tail;
      hide EscapeText, EscapeChar, ParseText;
      ParseEscapedText(t[1..], rest);
      ParseEscapedChar(t[0], tail);
      assert t == [t[0]] + t[1..];
    }
  }

  // ------------------------------------------------------------------ the round trip

  /** No encoded value starts with a closing bracket. */
  lemma EncodeStart(v: Json)
    requires Encode(v).Ok?
    ensures Encode(v).value != [] && Encode(v).value[0] != ']'
  {
    hide IntText, EcmaNumberString;
    if v.Int? {
      IntIsRead(v.n);
    } else if v.Num? {
      EcmaNumberStringMeans(v.x);
      WrittenIsRead(v.x);
    }
  }

  lemma ScalarStart(s: string)
    requires s != [] && s[0] != '[' && s[0] != '{'
    ensures ParseValue(s) == ParseScalar(s)
  {}

  lemma ParseWord(rest: string)
    ensures ParseScalar("null" + rest) == Done(Null, rest)
    ensures ParseScalar("true" + rest) == Done(Bool(true), rest)
    ensures ParseScalar("false" + rest) == Done(Bool(false), rest)
  {
    var n, t, f := "null" + rest, "true" + rest, "false" + rest;
    assert n[4..] == rest && t[4..] == rest && f[5..] == rest;
    assert t[0] == 't' && f[0] == 'f';
  }

  lemma ParseTextScalar(t: string, rest: string)
    ensures ParseScalar(EncodeText(t) + rest) == Done(Str(t), rest)
  {
    hide EscapeText, ParseText;
    var s := EncodeText(t) + rest;
    ParseEscapedText(t, rest);
    assert s[0] == '\"' && s[1..] == EscapeText(t) + "\"" + rest;
  }

  lemma ParseEncodedScalar(v: Json, rest: string)
    requires Encode(v).Ok? && NoNumberFirst(rest)
    requires !v.Arr? && !v.Obj?
    ensures ParseValue(Encode(v).value + rest) == Done(Normal(v), rest)
  {
    hide ReadNumber, IntText, EcmaNumberString;
    var s := Encode(v).value + rest;
    match v
    case Null =>
      ParseWord(rest);
      ScalarStart(s);
    case Bool(b) =>
      ParseWord(rest);
      ScalarStart(s);
    case Str(t) =>
      ParseTextScalar(t, rest);
      ScalarStart(s);
    case Int(n) =>
      IntIsRead(n);
      ParseNumber(IntText(n), v, rest);
    case Num(x) =>
      EcmaNumberStringMeans(x);
      WrittenIsRead(x);
      ParseNumber(TextOf(v), Normal(v), rest);
  }

  lemma ParseArrayText(body: string, items: seq<Json>, rest: string)
    requires body != [] && body[0] != ']'
    requires ParseItems(body + ("]" + rest)) == Done(items, rest)
    ensures ParseValue("[" + body + "]" + rest) == Done(Arr(items), rest)
  {
    hide ParseItems, ParseFields, ParseScalar;
    var s := "[" + body + "]" + rest;
    assert s[1..] == body + ("]" + rest);
    assert s[1] == body[0];
  }

  lemma ParseObjectText(body: string, fields: seq<Field>, rest: string)
    requires body != [] && body[0] == '\"'
    requires ParseFields(body + ("}" + rest)) == Done(fields, rest)
    ensures ParseValue("{" + body + "}" + rest) == Done(Obj(fields), rest)
  {
    var s := "{" + body + "}" + rest;
    assert s[1..] == body + ("}" + rest);
    assert s[0] == '{' && s[1] == body[0];
  }

  lemma ParseEmpty(rest: string)
    ensures ParseValue("[" + "" + "]" + rest) == Done(Arr([]), rest)
    ensures ParseValue("{" + "" + "}" + rest) == Done(Obj([]), rest)
  {
    var s, t := "[" + "" + "]" + rest, "{" + "" + "}" + rest;
    assert "[]" <= s && s[2..] == rest;
    assert t[0] == '{' && "{}" <= t && t[2..] == rest;
  }

  lemma {:induction false} ParseEncoded(v: Json, rest: string)
    requires Encode(v).Ok? && NoNumberFirst(rest)
    ensures ParseValue(Encode(v).value + rest) == Done(Normal(v), rest)
    decreases v, 1
  {
    match v
    case Arr(items) =>
      if items == [] {
        ParseEmpty(rest);
      } else {
        ParseEncodedItems(items, rest);
        BodyStart(items);
        ParseArrayText(EncodeItems(items).value, NormalItems(items), rest);
      }
    case Obj(fields) =>
      if fields == [] {
        ParseEmpty(rest);
      } else {
        ParseEncodedFields(fields, rest);
        ParseObjectText(EncodeFields(fields).value, NormalFields(fields), rest);
      }
    case _ => ParseEncodedScalar(v, rest);
  }

  lemma BodyStart(items: seq<Json>)
    requires items != [] && EncodeItems(items).Ok?
    ensures EncodeItems(items).value != [] && EncodeItems(items).value[0] != ']'
  {
    EncodeStart(items[0]);
  }

  lemma ItemsText(items: seq<Json>)
    requires items != [] && EncodeItems(items).Ok?
    ensures Encode(items[0]).Ok?
    ensures |items| == 1 ==> EncodeItems(items).value == Encode(items[0]).value
    ensures |items| > 1 ==>
              && EncodeItems(items[1..]).Ok?
              && EncodeItems(items).value == Encode(items[0]).value + "," + EncodeItems(items[1..]).value
  {}

  lemma ParseLastItem(s: string, v: Json, rest: string)
    requires ParseValue(s) == Done(v, "]" + rest)
    ensures ParseItems(s) == Done([v], rest)
  {
    assert ("]" + rest)[1..] == rest;
  }

  lemma ParseMoreItems(s: string, v: Json, tail: string, others: seq<Json>, rest: string)
    requires ParseValue(s) == Done(v, "," + tail)
    requires ParseItems(tail) == Done(others, rest)
    ensures ParseItems(s) == Done([v] + others, rest)
  {
    assert ("," + tail)[1..] == tail;
  }

  lemma Regroup(first: string, others: string, rest: string)
    ensures first + "," + others + rest == first + ("," + (others + rest))
  {}

  lemma {:induction false} ParseEncodedItems(items: seq<Json>, rest: string)
    requires items != [] && EncodeItems(items).Ok?
    ensures ParseItems(EncodeItems(items).value + ("]" + rest)) == Done(NormalItems(items), rest)
    decreases items, 0
  {
    var s := EncodeItems(items).value + ("]" + rest);
    ItemsText(items);
    var first := Encode(items[0]).value;
    if |items| == 1 {
      ParseEncoded(items[0], "]" + rest);
      assert s == first + ("]" + rest);
      ParseLastItem(s, Normal(items[0]), rest);
      assert NormalItems(items) == [Normal(items[0])];
    } else {
      var tail := EncodeItems(items[1..]).value + ("]" + rest);
      ParseEncoded(items[0], "," + tail);
      ParseEncodedItems(items[1..], rest);
      Regroup(first, EncodeItems(items[1..]).value, "]" + rest);
      ParseMoreItems(s, Normal(items[0]), tail, NormalItems(items[1..]), rest);
    }
  }

  lemma ParseEncodedField(f: Field, text: string, tail: string)
    requires ParseValue(text + tail) == Done(f.val, tail)
    ensures ParseField(EncodeText(f.key) + ":" + text + tail) == Done(f, tail)
  {
    var s := EncodeText(f.key) + ":" + text + tail;
    var colon := ":" + (text + tail);
    ParseEscapedText(f.key, colon);
    FieldTextSplits(EscapeText(f.key), text, tail);
    assert s[0] == '\"' && s[1..] == EscapeText(f.key) + "\"" + colon;
    assert colon[1..] == text + tail;
  }

  lemma FieldTextSplits(key: string, text: string, tail: string)
    ensures "\"" + key + "\"" + ":" + text + tail == "\"" + (key + "\"" + (":" + (text + tail)))
  {}

  lemma FieldsText(fields: seq<Field>)
    requires fields != [] && EncodeFields(fields).Ok?
    ensures Encode(fields[0].val).Ok?
    ensures var first := EncodeText(fields[0].key) + ":" + Encode(fields[0].val).value;
            && (|fields| == 1 ==> EncodeFields(fields).value == first)
            && (|fields| > 1 ==>
                  && EncodeFields(fields[1..]).Ok?
                  && EncodeFields(fields).value == first + "," + EncodeFields(fields[1..]).value)
  {}

  lemma ParseLastField(s: string, f: Field, rest: string)
    requires ParseField(s) == Done(f, "}" + rest)
    ensures ParseFields(s) == Done([f], rest)
  {
    assert ("}" + rest)[1..] == rest;
  }

  lemma ParseMoreFields(s: string, f: Field, tail: string, others: seq<Field>, rest: string)
    requires ParseField(s) == Done(f, "," + tail)
    requires ParseFields(tail) == Done(others, rest)
    ensures ParseFields(s) == Done([f] + others, rest)
  {
    assert ("," + tail)[1..] == tail;
  }

  lemma {:induction false} ParseEncodedFields(fields: seq<Field>, rest: string)
    requires fields != [] && EncodeFields(fields).Ok?
    ensures EncodeFields(fields).value != [] && EncodeFields(fields).value[0] == '\"'
    ensures ParseFields(EncodeFields(fields).value + ("}" + rest)) == Done(NormalFields(fields), rest)
    decreases fields, 0
  {
    var s := EncodeFields(fields).value + ("}" + rest);
    FieldsText(fields);
    var text := Encode(fields[0].val).value;
    var head := EncodeText(fields[0].key) + ":" + text;
    var first := Field(fields[0].key, Normal(fields[0].val));
    if |fields| == 1 {
      ParseEncoded(fields[0].val, "}" + rest);
      ParseEncodedField(first, text, "}" + rest);
      ParseLastField(s, first, rest);
      assert NormalFields(fields) == [first];
    } else {
      var tail := EncodeFields(fields[1..]).value + ("}" + rest);
      ParseEncoded(fields[0].val, "," + tail);
      ParseEncodedField(first, text, "," + tail);
      ParseEncodedFields(fields[1..], rest);
      Regroup(head, EncodeFields(fields[1..]).value, "}" + rest);
      ParseMoreFields(s, first, tail, NormalFields(fields[1..]), rest);
    }
  }

  // ------------------------------------------------------------------ canonical form

  lemma {:induction false} EncodeDefined(v: Json)
    ensures Encode(v).Ok? <==> InProfile(v)
    ensures Encode(v).Raise? ==> Encode(v) == Raise(ValueError)
    decreases v, 1
  {
    match v
    case Arr(items) => EncodeItemsDefined(items);
    case Obj(fields) => EncodeFieldsDefined(fields);
    case _ =>
  }

  lemma {:induction false} EncodeItemsDefined(items: seq<Json>)
    ensures EncodeItems(items).Ok? <==> forall i | 0 <= i < |items| :: InProfile(items[i])
    ensures EncodeItems(items).Raise? ==> EncodeItems(items) == Raise(ValueError)
    decreases items, 0
  {
    if items != [] {
      EncodeDefined(items[0]);
      EncodeItemsDefined(items[1..]);
      assert items == [items[0]] + items[1..];
    }
  }

  lemma {:induction false} EncodeFieldsDefined(fields: seq<Field>)
    ensures EncodeFields(fields).Ok? <==> forall i | 0 <= i < |fields| :: InProfile(fields[i].val)
    ensures EncodeFields(fields).Raise? ==> EncodeFields(fields) == Raise(ValueError)
    decreases fields, 0
  {
    if fields != [] {
      EncodeDefined(fields[0].val);
      EncodeFieldsDefined(fields[1..]);
      assert fields == [fields[0]] + fields[1..];
    }
  }

  /** The items of the canonical form of a dict are its canonicalized items, in some order. */
  lemma CanonicalFields(fields: seq<Field>)
    ensures forall f | f in Canonicalize(Obj(fields)).fields ::
              exists i | 0 <= i < |fields| :: f == Field(fields[i].key, Canonicalize(fields[i].val))
    ensures forall i | 0 <= i < |fields| ::
              Field(fields[i].key, Canonicalize(fields[i].val)) in Canonicalize(Obj(fields)).fields
    ensures |Canonicalize(Obj(fields)).fields| == |fields|
  {
    var mapped := CanonicalizeFields(fields);
    SameMembers(SortBy(mapped, SortKey), mapped);
    forall i | 0 <= i < |fields|
      ensures Field(fields[i].key, Canonicalize(fields[i].val)) in Canonicalize(Obj(fields)).fields
    {
      assert mapped[i] in mapped;
    }
    forall f | f in Canonicalize(Obj(fields)).fields
      ensures exists i | 0 <= i < |fields| :: f == Field(fields[i].key, Canonicalize(fields[i].val))
    {
      assert f in mapped;
    }
  }

  lemma CanonicalFieldsAscend(fields: seq<Field>)
    requires forall i, j | 0 <= i < j < |fields| :: fields[i].key != fields[j].key
    ensures Ascending(Canonicalize(Obj(fields)).fields, SortKey)
  {
    var mapped := CanonicalizeFields(fields);
    forall i, j | 0 <= i < j < |mapped| ensures SortKey(mapped[i]) != SortKey(mapped[j]) {
      if SortKey(mapped[i]) == SortKey(mapped[j]) {
        Utf16BeInjective(mapped[i].key, mapped[j].key);
      }
    }
    SortByAscends(mapped, SortKey);
  }

  lemma DictInProfile(fields: seq<Field>)
    requires forall i | 0 <= i < |fields| :: InProfile(Canonicalize(fields[i].val)) <==> InProfile(fields[i].val)
    ensures InProfile(Canonicalize(Obj(fields))) <==> InProfile(Obj(fields))
  {
    CanonicalFields(fields);
    var form := Canonicalize(Obj(fields));
    assert form.Obj?;
    hide Canonicalize;
    if InProfile(form) {
      forall i | 0 <= i < |fields| ensures InProfile(fields[i].val) {
        var f := Field(fields[i].key, Canonicalize(fields[i].val));
        assert f in form.fields;
        var k :| 0 <= k < |form.fields| && form.fields[k] == f;
      }
    } else {
      var k :| 0 <= k < |form.fields| && !InProfile(form.fields[k].val);
      assert form.fields[k] in form.fields;
    }
  }

  lemma {:induction false} CanonicalInProfile(v: Json)
    ensures InProfile(Canonicalize(v)) <==> InProfile(v)
    decreases v
  {
    match v
    case Arr(items) =>
      forall i | 0 <= i < |items| ensures InProfile(Canonicalize(items[i])) <==> InProfile(items[i]) {
        CanonicalInProfile(items[i]);
      }
    case Obj(fields) =>
      forall i | 0 <= i < |fields| ensures InProfile(Canonicalize(fields[i].val)) <==> InProfile(fields[i].val) {
        hide Canonicalize, InProfile;
        CanonicalInProfile(fields[i].val);
      }
      DictInProfile(fields);
    case _ =>
  }

  /** Keys of the output ascend strictly in UTF-16 code units at every depth. */
  lemma {:induction false} CanonicalKeysAscend(v: Json)
    requires Proper(v)
    ensures KeysAscend(Canonicalize(v))
    decreases v
  {
    match v
    case Arr(items) =>
      forall i | 0 <= i < |items| ensures KeysAscend(Canonicalize(items[i])) {
        CanonicalKeysAscend(items[i]);
      }
    case Obj(fields) =>
      forall i | 0 <= i < |fields| ensures KeysAscend(Canonicalize(fields[i].val)) {
        CanonicalKeysAscend(fields[i].val);
      }
      CanonicalFields(fields);
      CanonicalFieldsAscend(fields);
      var sorted := Canonicalize(v).fields;
      forall k | 0 <= k < |sorted| ensures KeysAscend(sorted[k].val) {
        assert sorted[k] in sorted;
      }
      forall i, j | 0 <= i < j < |sorted|
        ensures LexLess(Utf16(sorted[i].key), Utf16(sorted[j].key))
      {
        assert LexLess(SortKey(sorted[i]), SortKey(sorted[j]));
        BigEndianOrder(Utf16(sorted[i].key), Utf16(sorted[j].key));
      }
    case _ =>
  }

  lemma {:induction false} LookupFinds(fields: seq<Field>, i: int)
    requires forall j, k | 0 <= j < k < |fields| :: fields[j].key != fields[k].key
    requires 0 <= i < |fields|
    ensures Lookup(fields, fields[i].key) == Some(fields[i].val)
  {
    if i > 0 {
      LookupFinds(fields[1..], i - 1);
    }
  }

  lemma {:induction false} LookupIndex(fields: seq<Field>, key: string) returns (i: int)
    requires Lookup(fields, key).Some?
    ensures 0 <= i < |fields| && fields[i] == Field(key, Lookup(fields, key).value)
  {
    if fields[0].key == key {
      i := 0;
    } else {
      i := LookupIndex(fields[1..], key);
      i := i + 1;
    }
  }

  /** Values of normal numbers have the same canonical form exactly when they are equal as JSON. */
  lemma {:induction false} CanonicalFormsEqual(v: Json, w: Json)
    requires Proper(v) && Proper(w) && Normalized(v) && Normalized(w)
    ensures Canonicalize(v) == Canonicalize(w) <==> JsonEqual(v, w)
    decreases v
  {
    match v
    case Arr(items) =>
      if w.Arr? && |items| == |w.items| {
        forall i | 0 <= i < |items|
          ensures Canonicalize(items[i]) == Canonicalize(w.items[i]) <==> JsonEqual(items[i], w.items[i])
        {
          CanonicalFormsEqual(items[i], w.items[i]);
        }
      }
    case Obj(fields) =>
      if w.Obj? {
        forall i | 0 <= i < |fields| ensures ChildAgrees(fields[i], w.fields) {
          if Lookup(w.fields, fields[i].key).Some? {
            var j := LookupIndex(w.fields, fields[i].key);
            CanonicalFormsEqual(fields[i].val, w.fields[j].val);
          }
        }
        if Canonicalize(v) == Canonicalize(w) {
          EqualFormsEqualFields(fields, w.fields);
        }
        if JsonEqual(v, w) {
          EqualFieldsEqualForms(fields, w.fields);
        }
      }
    case _ =>
      if NumberOf(v).Some? && NumberOf(v) == NumberOf(w) {
        NormalUnique(v, w);
      }
  }

  /** The claim about canonical forms holds of f and of the item of gs with its key. */
  ghost predicate ChildAgrees(f: Field, gs: seq<Field>) {
    var other := Lookup(gs, f.key);
    other.Some? ==> (Canonicalize(f.val) == Canonicalize(other.value) <==> JsonEqual(f.val, other.value))
  }

  lemma EqualFormsEqualFields(fs: seq<Field>, gs: seq<Field>)
    requires Proper(Obj(gs)) && forall i | 0 <= i < |fs| :: ChildAgrees(fs[i], gs)
    requires Canonicalize(Obj(fs)) == Canonicalize(Obj(gs))
    ensures JsonEqual(Obj(fs), Obj(gs))
  {
    assert |fs| == |gs| by {
      CanonicalFields(fs);
      CanonicalFields(gs);
    }
    forall i | 0 <= i < |fs|
      ensures var other := Lookup(gs, fs[i].key); other.Some? && JsonEqual(fs[i].val, other.value)
    {
      FormHasField(fs, i);
      var j := FieldOfForm(gs, Field(fs[i].key, Canonicalize(fs[i].val)));
      LookupFinds(gs, j);
      assert ChildAgrees(fs[i], gs);
    }
  }

  lemma FormHasField(fields: seq<Field>, i: int)
    requires 0 <= i < |fields|
    ensures Field(fields[i].key, Canonicalize(fields[i].val)) in Canonicalize(Obj(fields)).fields
  {
    CanonicalFields(fields);
  }

  lemma FieldOfForm(fields: seq<Field>, f: Field) returns (i: int)
    requires f in Canonicalize(Obj(fields)).fields
    ensures 0 <= i < |fields| && f == Field(fields[i].key, Canonicalize(fields[i].val))
  {
    CanonicalFields(fields);
    i :| 0 <= i < |fields| && f == Field(fields[i].key, Canonicalize(fields[i].val));
  }

  lemma EqualFieldsEqualForms(fs: seq<Field>, gs: seq<Field>)
    requires Proper(Obj(fs)) && Proper(Obj(gs)) && forall i | 0 <= i < |fs| :: ChildAgrees(fs[i], gs)
    requires JsonEqual(Obj(fs), Obj(gs))
    ensures Canonicalize(Obj(fs)) == Canonicalize(Obj(gs))
  {
    var cf, cg := Canonicalize(Obj(fs)).fields, Canonicalize(Obj(gs)).fields;
    forall f | f in cf ensures f in cg {
      var i := FieldOfForm(fs, f);
      assert ChildAgrees(fs[i], gs);
      var j := LookupIndex(gs, fs[i].key);
      FormHasField(gs, j);
    }
    assert |cf| == |cg| by {
      CanonicalFields(fs);
      CanonicalFields(gs);
    }
    CanonicalFieldsAscend(fs);
    CanonicalFieldsAscend(gs);
    SubsetOfSameLength(cf, cg);
    AscendingUnique(cf, cg, SortKey);
  }

  /** A strictly ascending sequence included in one of the same length includes it too. */
  lemma SubsetOfSameLength(cf: seq<Field>, cg: seq<Field>)
    requires Ascending(cf, SortKey) && |cf| == |cg|
    requires forall f | f in cf :: f in cg
    ensures forall g | g in cg :: g in cf
  {
    var sf, sg := set f | f in cf, set g | g in cg;
    MembersCount(cf);
    MembersBound(cg);
    assert sf <= sg;
    assert sg == sf + (sg - sf);
    assert |sg - sf| == 0;
    forall g | g in cg ensures g in cf {
      assert g in sg;
    }
  }

  lemma {:induction false} MembersCount(cf: seq<Field>)
    requires Ascending(cf, SortKey)
    ensures |set f | f in cf| == |cf|
  {
    if cf != [] {
      MembersCount(cf[1..]);
      assert (set f | f in cf) == {cf[0]} + set f | f in cf[1..];
      forall f | f in cf[1..] ensures f != cf[0] {
        var j :| 0 <= j < |cf[1..]| && cf[1..][j] == f;
        assert LexLess(SortKey(cf[0]), SortKey(cf[j + 1]));
      }
    }
  }

  lemma {:induction false} MembersBound(cg: seq<Field>)
    ensures |set g | g in cg| <= |cg|
  {
    if cg != [] {
      MembersBound(cg[1..]);
      assert (set g | g in cg) == {cg[0]} + set g | g in cg[1..];
    }
  }

  // ------------------------------------------------------------------ canonical forms and numbers

  lemma {:induction false} InsertNormal(f: Field, fs: seq<Field>)
    ensures NormalFields(Insert(f, fs, SortKey)) == Insert(Field(f.key, Normal(f.val)), NormalFields(fs), SortKey)
    decreases |fs|
  {
    hide Utf16Be, LexLeq, Normal, NormalFields;
    var g := Field(f.key, Normal(f.val));
    NormalFirst(f, fs);
    if fs != [] && !LexLeq(SortKey(f), SortKey(fs[0])) {
      var rest := fs[1..];
      assert fs == [fs[0]] + rest;
      InsertNormal(f, rest);
      NormalFirst(fs[0], Insert(f, rest, SortKey));
      NormalFirst(fs[0], rest);
      InsertLater(g, NormalFields(fs), NormalFields(rest));
    }
  }

  lemma InsertLater(g: Field, fs: seq<Field>, rest: seq<Field>)
    requires fs != [] && fs == [fs[0]] + rest && !LexLeq(SortKey(g), SortKey(fs[0]))
    ensures Insert(g, fs, SortKey) == [fs[0]] + Insert(g, rest, SortKey)
  {
    hide Utf16Be, LexLeq;
    assert fs[1..] == rest;
  }

  lemma NormalFirst(f: Field, fs: seq<Field>)
    ensures NormalFields([f] + fs) == [Field(f.key, Normal(f.val))] + NormalFields(fs)
  {
    assert ([f] + fs)[1..] == fs;
  }

  lemma {:induction false} SortNormal(fs: seq<Field>)
    ensures NormalFields(SortBy(fs, SortKey)) == SortBy(NormalFields(fs), SortKey)
    decreases |fs|
  {
    hide Insert, Normal, SortKey;
    if fs != [] {
      SortNormal(fs[1..]);
      NormalFirst(fs[0], fs[1..]);
      assert fs == [fs[0]] + fs[1..];
      assert NormalFields(fs)[1..] == NormalFields(fs[1..]);
      InsertNormal(fs[0], SortBy(fs[1..], SortKey));
    }
  }

  /** Sorting keys and normalizing numbers commute. */
  lemma {:induction false} NormalCanonical(v: Json)
    ensures Normal(Canonicalize(v)) == Canonicalize(Normal(v))
    decreases v
  {
    match v
    case Arr(items) =>
      forall i | 0 <= i < |items| ensures Normal(Canonicalize(items[i])) == Canonicalize(Normal(items[i])) {
        NormalCanonical(items[i]);
      }
      assert NormalItems(CanonicalizeItems(items)) == CanonicalizeItems(NormalItems(items));
    case Obj(fields) =>
      forall i | 0 <= i < |fields| ensures Normal(Canonicalize(fields[i].val)) == Canonicalize(Normal(fields[i].val)) {
        NormalCanonical(fields[i].val);
      }
      NormalSorted(fields);
    case _ => NormalLeaf(v);
  }

  lemma NormalSorted(fields: seq<Field>)
    requires forall i | 0 <= i < |fields| :: Normal(Canonicalize(fields[i].val)) == Canonicalize(Normal(fields[i].val))
    ensures Normal(Canonicalize(Obj(fields))) == Canonicalize(Normal(Obj(fields)))
  {
    hide SortBy, CanonicalizeFields, NormalFields;
    assert NormalFields(CanonicalizeFields(fields)) == CanonicalizeFields(NormalFields(fields));
    SortNormal(CanonicalizeFields(fields));
  }

  lemma NormalLeaf(v: Json)
    requires !v.Arr? && !v.Obj?
    ensures Canonicalize(v) == v && Canonicalize(Normal(v)) == Normal(v)
  {
    NormalKind(v);
  }

  lemma {:induction false} NormalProper(v: Json)
    requires Proper(v)
    ensures Proper(Normal(v))
    decreases v
  {
    match v
    case Arr(items) =>
      forall i | 0 <= i < |items| ensures Proper(Normal(items[i])) {
        NormalProper(items[i]);
      }
    case Obj(fields) =>
      forall i | 0 <= i < |fields| ensures Proper(Normal(fields[i].val)) {
        NormalProper(fields[i].val);
      }
    case _ => NormalKind(v);
  }

  lemma {:induction false} NormalKeysAscend(v: Json)
    requires KeysAscend(v)
    ensures KeysAscend(Normal(v))
    decreases v
  {
    match v
    case Arr(items) =>
      forall i | 0 <= i < |items| ensures KeysAscend(Normal(items[i])) {
        NormalKeysAscend(items[i]);
      }
    case Obj(fields) =>
      forall i | 0 <= i < |fields| ensures KeysAscend(Normal(fields[i].val)) {
        NormalKeysAscend(fields[i].val);
      }
    case _ => NormalKind(v);
  }

  /** Two values have the same canonical form, up to the type of numbers, exactly when they are equal as JSON. */
  lemma CanonicalEqual(v: Json, w: Json)
    requires Proper(v) && Proper(w) && InProfile(v) && InProfile(w)
    ensures Normal(Canonicalize(v)) == Normal(Canonicalize(w)) <==> JsonEqual(v, w)
  {
    hide Canonicalize, Normal, JsonEqual, Proper, Normalized, InProfile;
    NormalCanonical(v);
    NormalCanonical(w);
    NormalProper(v);
    NormalProper(w);
    NormalIsNormalized(v);
    NormalIsNormalized(w);
    CanonicalFormsEqual(Normal(v), Normal(w));
    NormalEqual(v, w);
  }

  lemma SameNumberText(v: Json, w: Json)
    requires InProfile(v) && InProfile(w) && Normal(v) == Normal(w)
    requires v.Int? || v.Num?
    ensures Encode(v) == Encode(w)
  {
    hide ReadNumber, EcmaNumberString, FloatValue, IntText;
    NormalKind(v);
    NormalKind(w);
    NumberIsNormal(v);
    NumberIsNormal(w);
    SameText(v, w);
    NumberEncodes(v);
    NumberEncodes(w);
  }

  lemma NumberEncodes(v: Json)
    requires InProfile(v) && (v.Int? || v.Num?)
    ensures Encode(v) == Ok(TextOf(v))
  {
    hide IntText;
    if v.Num? {
      EcmaNumberStringMeans(v.x);
    }
  }

  /** Values that differ only in the type of numbers are printed alike. */
  lemma {:induction false} SameNormalSameText(v: Json, w: Json)
    requires InProfile(v) && InProfile(w) && Normal(v) == Normal(w)
    ensures Encode(v) == Encode(w)
    decreases v, 1
  {
    NormalKind(v);
    NormalKind(w);
    match v
    case Arr(items) => SameItemsText(items, w.items);
    case Obj(fields) => SameFieldsText(fields, w.fields);
    case Int(_) => SameNumberText(v, w);
    case Num(_) => SameNumberText(v, w);
    case _ =>
  }

  lemma {:induction false} SameItemsText(items: seq<Json>, others: seq<Json>)
    requires InProfile(Arr(items)) && InProfile(Arr(others)) && NormalItems(items) == NormalItems(others)
    ensures EncodeItems(items) == EncodeItems(others)
    decreases items, 0
  {
    hide Normal;
    if items != [] {
      assert NormalItems(items)[0] == NormalItems(others)[0];
      SameNormalSameText(items[0], others[0]);
      assert NormalItems(items)[1..] == NormalItems(items[1..]) && NormalItems(others)[1..] == NormalItems(others[1..]);
      SameItemsText(items[1..], others[1..]);
    }
  }

  lemma {:induction false} SameFieldsText(fields: seq<Field>, others: seq<Field>)
    requires InProfile(Obj(fields)) && InProfile(Obj(others)) && NormalFields(fields) == NormalFields(others)
    ensures EncodeFields(fields) == EncodeFields(others)
    decreases fields, 0
  {
    hide Normal;
    if fields != [] {
      assert NormalFields(fields)[0] == NormalFields(others)[0];
      SameNormalSameText(fields[0].val, others[0].val);
      assert NormalFields(fields)[1..] == NormalFields(fields[1..]);
      assert NormalFields(others)[1..] == NormalFields(others[1..]);
      SameFieldsText(fields[1..], others[1..]);
    }
  }

  // ------------------------------------------------------------------ main results

  /** jcs_dumps raises exactly for an integer outside the profile or a float that is not finite. */
  lemma JcsDumpsDefined(v: Json)
    ensures JcsDumps(v).Ok? <==> InProfile(v)
    ensures JcsDumps(v).Raise? ==> JcsDumps(v) == Raise(ValueError)
  {
    CanonicalInProfile(v);
    EncodeDefined(Canonicalize(v));
  }

  /** What the output parses to. */
  lemma DumpsParse(v: Json)
    requires JcsDumps(v).Ok?
    ensures Parse(JcsDumps(v).value) == Some(Normal(Canonicalize(v)))
  {
    hide ParseValue, Encode, Canonicalize, Normal;
    var text := JcsDumps(v).value;
    ParseEncoded(Canonicalize(v), "");
    assert text + "" == text;
  }

  /** How section 3.2.2.2 of RFC 8785 spells a character of a string. */
  predicate Spells(t: string, c: char) {
    if c == '\"' || c == '\\' then t == ['\\', c]
    else if c as int >= 0x20 then t == [c]
    else if LongEscape(c as int) then
      && |t| == 6 && t[..4] == "\\u00" && LowerHexDigit(t[4]) && LowerHexDigit(t[5])
      && 0x10 * HexValue(t[4]).value + HexValue(t[5]).value == c as int
    else |t| == 2 && t[0] == '\\' && Unescape(t[1]) == Some(c)
  }

  function Joined(parts: seq<string>): string {
    if parts == [] then "" else parts[0] + Joined(parts[1..])
  }

  lemma CharSpelling(c: char)
    ensures Spells(EscapeChar(c), c)
  {
    if LongEscape(c as int) {
      var t := EscapeChar(c);
      assert t == "\\u00" + [HexDigit(c as int / 16), HexDigit(c as int % 16)];
    }
  }

  /**
   A string is written between quotes, its characters spelled one by one: literally, whatever their
   code, except quotes, backslashes and control characters.
   */
  lemma {:induction false} TextSpelling(s: string) returns (parts: seq<string>)
    ensures |parts| == |s| && forall i | 0 <= i < |s| :: Spells(parts[i], s[i])
    ensures Encode(Str(s)) == Ok("\"" + Joined(parts) + "\"")
    decreases |s|
  {
    hide EscapeChar, Spells;
    if s == "" {
      parts := [];
    } else {
      var rest := TextSpelling(s[1..]);
      CharSpelling(s[0]);
      parts := [EscapeChar(s[0])] + rest;
      assert parts[1..] == rest;
      QuotedEqual(EscapeText(s[1..]), Joined(rest));
    }
  }

  lemma QuotedEqual(a: string, b: string)
    requires "\"" + a + "\"" == "\"" + b + "\""
    ensures a == b
  {
    assert a == ("\"" + a + "\"")[1..|a| + 1];
    assert |a| == |b| && b == ("\"" + b + "\"")[1..|b| + 1];
  }

  /**
   Parsing the output, which is canonical text, gives the value back up to key order, each number by
   value, with ascending keys; the bytes are the UTF-8 of that text.
   */
  lemma ParseInvertsJcsDumps(v: Json)
    requires Proper(v) && JcsDumps(v).Ok?
    ensures Parse(JcsDumps(v).value).Some?
    ensures JsonEqual(v, Parse(JcsDumps(v).value).value)
    ensures KeysAscend(Parse(JcsDumps(v).value).value)
    ensures JcsBytes(v).Ok? && DecodeUtf8(JcsBytes(v).value) == Some(JcsDumps(v).value)
  {
    Utf8RoundTrip(JcsDumps(v).value);
    hide Parse, JcsDumps, Canonicalize, Normal, JsonEqual, Proper, KeysAscend;
    var u := Canonicalize(v);
    DumpsParse(v);
    CanonicalKeysAscend(v);
    NormalKeysAscend(u);
    CanonicalIsEqual(v);
    EqualToNormal(v, u);
  }

  lemma {:induction false} EqualToNormal(v: Json, w: Json)
    requires JsonEqual(v, w)
    ensures JsonEqual(v, Normal(w))
    decreases v
  {
    match v
    case Arr(items) =>
      forall i | 0 <= i < |items| ensures JsonEqual(items[i], Normal(w.items[i])) {
        EqualToNormal(items[i], w.items[i]);
      }
    case Obj(fields) =>
      forall i | 0 <= i < |fields|
        ensures var other := Lookup(NormalFields(w.fields), fields[i].key);
                other.Some? && JsonEqual(fields[i].val, other.value)
      {
        NormalLookup(w.fields, fields[i].key);
        EqualToNormal(fields[i].val, Lookup(w.fields, fields[i].key).value);
      }
    case _ => NormalLeafEqual(v, w);
  }

  lemma NormalLeafEqual(v: Json, w: Json)
    requires !v.Arr? && !v.Obj? && JsonEqual(v, w)
    ensures JsonEqual(v, Normal(w))
  {
    hide ReadNumber, EcmaNumberString, FloatValue;
    if w.Num? && Finite(w.x) {
      WrittenIsRead(w.x);
    }
  }

  lemma {:induction false} CanonicalIsEqual(v: Json)
    requires Proper(v)
    ensures JsonEqual(v, Canonicalize(v)) && Proper(Canonicalize(v))
    decreases v
  {
    match v
    case Arr(items) =>
      forall i | 0 <= i < |items|
        ensures JsonEqual(items[i], Canonicalize(items[i])) && Proper(Canonicalize(items[i]))
      {
        CanonicalIsEqual(items[i]);
      }
    case Obj(fields) =>
      var sorted := Canonicalize(v).fields;
      CanonicalFieldsDistinct(fields);
      forall i | 0 <= i < |fields|
        ensures var other := Lookup(sorted, fields[i].key); other.Some? && JsonEqual(fields[i].val, other.value)
      {
        CanonicalIsEqual(fields[i].val);
        FormHasField(fields, i);
        var j :| 0 <= j < |sorted| && sorted[j] == Field(fields[i].key, Canonicalize(fields[i].val));
        LookupFinds(sorted, j);
      }
      forall k | 0 <= k < |sorted| ensures Proper(sorted[k].val) {
        var i := FieldOfForm(fields, sorted[k]);
        CanonicalIsEqual(fields[i].val);
      }
      CanonicalFields(fields);
    case _ =>
  }

  lemma CanonicalFieldsDistinct(fields: seq<Field>)
    requires forall i, j | 0 <= i < j < |fields| :: fields[i].key != fields[j].key
    ensures var sorted := Canonicalize(Obj(fields)).fields;
            forall i, j | 0 <= i < j < |sorted| :: sorted[i].key != sorted[j].key
  {
    CanonicalFieldsAscend(fields);
    var sorted := Canonicalize(Obj(fields)).fields;
    forall i, j | 0 <= i < j < |sorted| ensures sorted[i].key != sorted[j].key {
      assert LexLess(SortKey(sorted[i]), SortKey(sorted[j]));
    }
  }

  /** Two values have equal bytes exactly when they are equal as JSON. */
  lemma JcsBytesInjective(v: Json, w: Json)
    requires Proper(v) && Proper(w)
    requires JcsBytes(v).Ok? && JcsBytes(w).Ok?
    ensures JcsBytes(v).value == JcsBytes(w).value <==> JsonEqual(v, w)
  {
    hide Canonicalize, Normal, JsonEqual, Proper, InProfile, Encode, Parse;
    JcsDumpsDefined(v);
    JcsDumpsDefined(w);
    CanonicalEqual(v, w);
    if JcsBytes(v).value == JcsBytes(w).value {
      Utf8Injective(JcsDumps(v).value, JcsDumps(w).value);
      DumpsParse(v);
      DumpsParse(w);
    }
    if JsonEqual(v, w) {
      CanonicalInProfile(v);
      CanonicalInProfile(w);
      SameNormalSameText(Canonicalize(v), Canonicalize(w));
    }
  }
}
