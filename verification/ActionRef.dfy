/** The canonical action_ref of action_ref.py: the domain check, the preimage and its digest. */
module ActionRef {
  import opened Python
  import opened Bytes
  import opened Order
  import opened Unicode
  import opened Jcs
  import opened JcsTheorems
  import opened Timestamps

  datatype Action = Action(agentId: string, actionType: string, scope: string, timestamp: string)

  datatype DomainField = AGENT_ID | ACTION_TYPE | SCOPE | TIMESTAMP

  predicate IsAscii(s: string) {
    forall c | c in s :: c as int < 0x80
  }

  /** The field OutOfProfileDomainError names, if any. */
  function OutOfDomain(a: Action): Option<DomainField> {
    if !IsAscii(a.agentId) then Some(AGENT_ID)
    else if !IsAscii(a.actionType) then Some(ACTION_TYPE)
    else if !IsAscii(a.scope) then Some(SCOPE)
    else if a.scope == "" then Some(SCOPE)
    else if !Accepted(a.timestamp) then Some(TIMESTAMP)
    else None
  }

  /** The dict compute_action_ref builds, in its own order. */
  function Payload(a: Action): seq<Field> {
    [Field("agent_id", Str(a.agentId)), Field("action_type", Str(a.actionType)),
     Field("scope", Str(a.scope)), Field("timestamp", Str(a.timestamp))]
  }

  function ItemKey(f: Field): seq<int> {
    CodePoints(f.key)
  }

  /** json.dumps of the items sorted by code point. */
  function JcsEncode(fields: seq<Field>): Result<ByteString> {
    var text :- Encode(Obj(SortBy(fields, ItemKey)));
    Ok(Utf8(text))
  }

  datatype RefResult = Ref(text: string) | OutOfProfile(field: DomainField) | Unencodable

  function ComputeActionRef(h: HashFn, a: Action): RefResult {
    var field := OutOfDomain(a);
    if field.Some? then OutOfProfile(field.value)
    else
      match JcsEncode(Payload(a))
      case Raise(_) => Unencodable
      case Ok(bytes) => Ref(Hex(h(bytes)))
  }

  // ------------------------------------------------------------------ one order for keys

  /** Within the Basic Multilingual Plane a code point is its code unit. */
  predicate IsBmp(s: string) {
    forall c | c in s :: c as int < 0x1_0000
  }

  lemma {:induction false} BmpUnits(s: string)
    requires IsBmp(s)
    ensures Utf16(s) == CodePoints(s)
    decreases |s|
  {
    if s != "" {
      assert s[0] in s && forall c | c in s[1..] :: c in s;
      BmpUnits(s[1..]);
    }
  }

  lemma BmpOrder(s: string, t: string)
    requires IsBmp(s) && IsBmp(t)
    ensures LexLess(CodePoints(s), CodePoints(t)) ==> LexLess(Utf16Be(s), Utf16Be(t))
  {
    hide LexLeq;
    BmpUnits(s);
    BmpUnits(t);
    BigEndianOrder(Utf16(s), Utf16(t));
  }

  /** A flat dict of strings, with keys that are distinct and in the Basic Multilingual Plane. */
  predicate FlatBmp(fields: seq<Field>) {
    && (forall f | f in fields :: f.val.Str? && IsBmp(f.key))
    && (forall i, j | 0 <= i < j < |fields| :: fields[i].key != fields[j].key)
  }

  lemma CodesAscend(fields: seq<Field>)
    requires FlatBmp(fields)
    ensures Ascending(SortBy(fields, ItemKey), SortKey)
  {
    hide CodePoints, Utf16Be;
    forall i, j | 0 <= i < j < |fields|
      ensures ItemKey(fields[i]) != ItemKey(fields[j])
    {
      if ItemKey(fields[i]) == ItemKey(fields[j]) {
        CodesInjective(fields[i].key, fields[j].key);
      }
    }
    SortByAscends(fields, ItemKey);
    var sorted := SortBy(fields, ItemKey);
    SameMembers(sorted, fields);
    forall i, j | 0 <= i < j < |sorted|
      ensures LexLess(SortKey(sorted[i]), SortKey(sorted[j]))
    {
      assert sorted[i] in fields && sorted[j] in fields;
      assert LexLess(ItemKey(sorted[i]), ItemKey(sorted[j]));
      BmpOrder(sorted[i].key, sorted[j].key);
    }
  }

  /** The two sorts give one dict, so this encoding is the canonical one of RFC 8785. */
  lemma JcsEncodeIsJcs(fields: seq<Field>)
    requires FlatBmp(fields)
    ensures JcsEncode(fields) == JcsBytes(Obj(fields))
  {
    hide Encode, Utf8, IsBmp;
    CodesAscend(fields);
    CanonicalFieldsAscend(fields);
    FlatCanonical(fields);
    AscendingUnique(SortBy(fields, ItemKey), Canonicalize(Obj(fields)).fields, SortKey);
  }

  lemma FlatCanonical(fields: seq<Field>)
    requires FlatBmp(fields)
    ensures var sorted := SortBy(fields, ItemKey);
            var canonical := Canonicalize(Obj(fields)).fields;
            && (forall f | f in sorted :: f in canonical)
            && (forall f | f in canonical :: f in sorted)
  {
    FlatKept(fields);
    hide FlatBmp, ItemKey, CanonicalizeFields, SortKey;
    SameMembers(SortBy(fields, ItemKey), fields);
    SameMembers(SortBy(fields, SortKey), fields);
  }

  lemma FlatKept(fields: seq<Field>)
    requires FlatBmp(fields)
    ensures CanonicalizeFields(fields) == fields
  {
    hide IsBmp, CanonicalizeFields;
    forall i | 0 <= i < |fields| ensures CanonicalizeFields(fields)[i] == fields[i] {
      assert fields[i] in fields && fields[i].val.Str?;
    }
  }

  // ------------------------------------------------------------------ what an action_ref binds

  lemma KeysBmp()
    ensures IsBmp("agent_id") && IsBmp("action_type") && IsBmp("scope") && IsBmp("timestamp")
  {}

  lemma PayloadFlat(a: Action)
    ensures FlatBmp(Payload(a)) && Proper(Obj(Payload(a)))
  {
    hide IsBmp;
    KeysBmp();
    assert "agent_id"[1] == 'g' && "action_type"[1] == 'c' && "scope"[0] == 's' && "timestamp"[0] == 't';
  }

  lemma EqualPayloads(a: Action, b: Action)
    requires JsonEqual(Obj(Payload(a)), Obj(Payload(b)))
    ensures a == b
  {
    PayloadFlat(b);
    var p, q := Payload(a), Payload(b);
    forall i | 0 <= i < 4
      ensures p[i].val == q[i].val
    {
      LookupFinds(q, i);
    }
    assert p[0].val == q[0].val && p[1].val == q[1].val && p[2].val == q[2].val && p[3].val == q[3].val;
  }

  function Preimage(a: Action): ByteString {
    match JcsBytes(Obj(Payload(a)))
    case Ok(bytes) => bytes
    case Raise(_) => []
  }

  /** Exactly the actions of the domain have an action_ref: the digest of their canonical JSON. */
  lemma RefDefined(h: HashFn, a: Action)
    ensures OutOfDomain(a).None? ==> ComputeActionRef(h, a) == Ref(Hex(h(Preimage(a))))
    ensures ComputeActionRef(h, a).Ref? ==> OutOfDomain(a).None? && LowerHex64(ComputeActionRef(h, a).text)
  {
    hide Accepted, Payload, IsAscii, JcsDumps, JcsEncode, Proper, FlatBmp, Utf8, Hex, LowerHexDigit;
    PayloadFlat(a);
    JcsEncodeIsJcs(Payload(a));
    PayloadInProfile(a);
    JcsDumpsDefined(Obj(Payload(a)));
    HexRoundTrip(h(Preimage(a)));
  }

  lemma PayloadInProfile(a: Action)
    ensures InProfile(Obj(Payload(a)))
  {}

  /**
   Two accepted actions have one action_ref exactly when they agree on agent, type and scope and
   name the same instant, or their two preimages collide.
   */
  lemma ActionRefBinds(h: HashFn, a: Action, b: Action)
    requires OutOfDomain(a).None? && OutOfDomain(b).None?
    ensures ComputeActionRef(h, a).Ref? && ComputeActionRef(h, b).Ref?
    ensures Accepted(a.timestamp) && Accepted(b.timestamp)
    ensures (&& a.agentId == b.agentId && a.actionType == b.actionType && a.scope == b.scope
             && Instant(a.timestamp) == Instant(b.timestamp))
            ==> ComputeActionRef(h, a) == ComputeActionRef(h, b)
    ensures ComputeActionRef(h, a) == ComputeActionRef(h, b) ==>
              || (&& a.agentId == b.agentId && a.actionType == b.actionType && a.scope == b.scope
                  && Instant(a.timestamp) == Instant(b.timestamp))
              || Collision(h, {Preimage(a), Preimage(b)})
  {
    RefDefined(h, a);
    RefDefined(h, b);
    hide ComputeActionRef, Accepted, Instant, IsAscii;
    StringOrderIsTimeOrder(a.timestamp, b.timestamp);
    if ComputeActionRef(h, a) == ComputeActionRef(h, b) {
      HexInjective(h(Preimage(a)), h(Preimage(b)));
      if Preimage(a) == Preimage(b) {
        SamePreimage(a, b);
      }
    }
  }

  lemma SamePreimage(a: Action, b: Action)
    requires Preimage(a) == Preimage(b)
    ensures a == b
  {
    hide Payload, JsonEqual;
    PayloadFlat(a);
    PayloadFlat(b);
    PayloadInProfile(a);
    PayloadInProfile(b);
    JcsDumpsDefined(Obj(Payload(a)));
    JcsDumpsDefined(Obj(Payload(b)));
    JcsBytesInjective(Obj(Payload(a)), Obj(Payload(b)));
    EqualPayloads(a, b);
  }

  // ------------------------------------------------------------------ the domain and the preimage

  /** The exception names the first field, in the order of the checks, that leaves the domain. */
  lemma RefusedExactly(h: HashFn, a: Action)
    ensures ComputeActionRef(h, a).Ref? <==>
              && (forall c | c in a.agentId :: c as int <= 0x7F)
              && (forall c | c in a.actionType :: c as int <= 0x7F)
              && (forall c | c in a.scope :: c as int <= 0x7F) && a.scope != ""
              && Accepted(a.timestamp)
    ensures !ComputeActionRef(h, a).Ref? ==>
              ComputeActionRef(h, a).OutOfProfile? && FirstFault(a, ComputeActionRef(h, a).field)
  {
    RefDefined(h, a);
    hide JcsEncode, Accepted, FirstFault, Fault;
    if OutOfDomain(a).Some? {
      FirstFaultFound(a);
    }
  }

  lemma FirstFaultFound(a: Action)
    requires OutOfDomain(a).Some?
    ensures FirstFault(a, OutOfDomain(a).value)
  {
    hide Accepted;
  }

  predicate Fault(a: Action, field: DomainField) {
    match field
    case AGENT_ID => exists c :: c in a.agentId && c as int > 0x7F
    case ACTION_TYPE => exists c :: c in a.actionType && c as int > 0x7F
    case SCOPE => a.scope == "" || exists c :: c in a.scope && c as int > 0x7F
    case TIMESTAMP => !Accepted(a.timestamp)
  }

  /** The fault is in this field, and the fields checked before it have none. */
  predicate FirstFault(a: Action, field: DomainField) {
    && Fault(a, field)
    && (field != AGENT_ID ==> !Fault(a, AGENT_ID))
    && (field == SCOPE || field == TIMESTAMP ==> !Fault(a, ACTION_TYPE))
    && (field == TIMESTAMP ==> !Fault(a, SCOPE))
  }

  /** The JSON text of a string: quotes around the spellings of its characters. */
  ghost predicate SpelledText(t: string, s: string) {
    exists parts: seq<string> ::
      |parts| == |s| && t == "\"" + Joined(parts) + "\"" && forall i | 0 <= i < |s| :: Spells(parts[i], s[i])
  }

  lemma TextIsSpelled(s: string)
    ensures SpelledText(EncodeText(s), s)
  {
    var parts := TextSpelling(s);
  }

  lemma CodesLess(s: string, t: string, k: nat)
    requires k < |s| && k < |t| && s[..k] == t[..k] && s[k] < t[k]
    ensures LexLess(CodePoints(s), CodePoints(t))
  {
    var a, b := CodePoints(s), CodePoints(t);
    forall i | 0 <= i < k ensures a[i] == b[i] {
      assert s[..k][i] == t[..k][i];
    }
    LexExactly(a, b);
    assert FirstDifference(a, b, k);
  }

  function SortedPayload(a: Action): seq<Field> {
    [Field("action_type", Str(a.actionType)), Field("agent_id", Str(a.agentId)),
     Field("scope", Str(a.scope)), Field("timestamp", Str(a.timestamp))]
  }

  lemma KeysAscending(a: Action)
    ensures Ascending(SortedPayload(a), ItemKey)
  {
    hide CodePoints, LexLess;
    var p := SortedPayload(a);
    CodesLess(p[0].key, p[1].key, 1);
    CodesLess(p[0].key, p[2].key, 0);
    CodesLess(p[0].key, p[3].key, 0);
    CodesLess(p[1].key, p[2].key, 0);
    CodesLess(p[1].key, p[3].key, 0);
    CodesLess(p[2].key, p[3].key, 0);
  }

  lemma {:induction false} AscendingDistinct<T>(xs: seq<T>, key: T -> seq<int>)
    requires Ascending(xs, key)
    ensures Distinct(xs, key)
  {
    hide LexLeq;
    forall i, j | 0 <= i < j < |xs| ensures key(xs[i]) != key(xs[j]) {
      assert LexLess(key(xs[i]), key(xs[j]));
    }
  }

  lemma PayloadDistinct(a: Action)
    ensures Distinct(Payload(a), ItemKey)
  {
    hide LexLeq, CodePoints;
    var p, q := Payload(a), SortedPayload(a);
    KeysAscending(a);
    AscendingDistinct(q, ItemKey);
    assert p[0] == q[1] && p[1] == q[0] && p[2] == q[2] && p[3] == q[3];
    assert ItemKey(q[0]) != ItemKey(q[1]);
  }

  lemma PayloadSorts(a: Action)
    ensures SortBy(Payload(a), ItemKey) == SortedPayload(a)
  {
    KeysAscending(a);
    PayloadDistinct(a);
    SortByAscends(Payload(a), ItemKey);
    SameMembers(SortBy(Payload(a), ItemKey), Payload(a));
    SameItems(a);
    hide Ascending, Distinct, ItemKey, SortBy, Payload, SortedPayload;
    AscendingUnique(SortBy(Payload(a), ItemKey), SortedPayload(a), ItemKey);
  }

  lemma SameItems(a: Action)
    ensures forall f :: f in Payload(a) <==> f in SortedPayload(a)
  {}

  function Member(key: string, text: string): string {
    EncodeText(key) + ":" + EncodeText(text)
  }

  lemma EncodeMember(fields: seq<Field>, i: nat, key: string, s: string, rest: string)
    requires i < |fields| && fields[i] == Field(key, Str(s))
    requires EncodeFields(fields[i + 1..]) == Ok(rest)
    ensures EncodeFields(fields[i..]) == Ok(if i + 1 == |fields| then Member(key, s) else Member(key, s) + "," + rest)
  {
    hide EncodeText;
    var f := fields[i..];
    assert f[1..] == fields[i + 1..] && f[0] == fields[i];
    assert Encode(f[0].val) == Ok(EncodeText(s));
  }

  lemma EncodePayload(a: Action)
    ensures Encode(Obj(SortedPayload(a))) == Ok(
              "{" + (Member("action_type", a.actionType) + "," + (Member("agent_id", a.agentId) + "," + (
                Member("scope", a.scope) + "," + Member("timestamp", a.timestamp)))) + "}")
  {
    var p := SortedPayload(a);
    NothingToEncode();
    hide Member, EncodeFields;
    assert p[4..] == [] && p[0..] == p;
    EncodeMember(p, 3, "timestamp", a.timestamp, "");
    EncodeMember(p, 2, "scope", a.scope, EncodeFields(p[3..]).value);
    EncodeMember(p, 1, "agent_id", a.agentId, EncodeFields(p[2..]).value);
    EncodeMember(p, 0, "action_type", a.actionType, EncodeFields(p[1..]).value);
  }

  lemma PayloadText(a: Action)
    ensures Encode(Obj(SortedPayload(a))) == Ok(
              "{" + ("\"action_type\"" + ":" + EncodeText(a.actionType) + "," + (
                "\"agent_id\"" + ":" + EncodeText(a.agentId) + "," + (
                "\"scope\"" + ":" + EncodeText(a.scope) + "," + (
                "\"timestamp\"" + ":" + EncodeText(a.timestamp)))))
              + "}")
  {
    hide EncodeText, Encode, SortedPayload;
    PlainKeys();
    EncodePayload(a);
  }

  /** The bytes whose SHA-256 an action_ref is: the four members in this order, without white space. */
  lemma RefText(h: HashFn, a: Action)
    requires ComputeActionRef(h, a).Ref?
    ensures SpelledText(EncodeText(a.actionType), a.actionType) && SpelledText(EncodeText(a.agentId), a.agentId)
    ensures SpelledText(EncodeText(a.scope), a.scope) && SpelledText(EncodeText(a.timestamp), a.timestamp)
    ensures ComputeActionRef(h, a) == Ref(Hex(h(Utf8(
              "{" + ("\"action_type\"" + ":" + EncodeText(a.actionType) + "," + (
                "\"agent_id\"" + ":" + EncodeText(a.agentId) + "," + (
                "\"scope\"" + ":" + EncodeText(a.scope) + "," + (
                "\"timestamp\"" + ":" + EncodeText(a.timestamp)))))
              + "}"))))
  {
    hide OutOfDomain, SpelledText, EncodeText, SortedPayload, Payload, Encode, Utf8, Hex;
    PayloadSorts(a);
    PayloadText(a);
    TextIsSpelled(a.actionType);
    TextIsSpelled(a.agentId);
    TextIsSpelled(a.scope);
    TextIsSpelled(a.timestamp);
  }

  lemma NothingToEncode()
    ensures EncodeFields([]) == Ok("")
  {}

  lemma PlainKeys()
    ensures EncodeText("action_type") == "\"action_type\"" && EncodeText("agent_id") == "\"agent_id\""
    ensures EncodeText("scope") == "\"scope\"" && EncodeText("timestamp") == "\"timestamp\""
  {
    hide EscapeText;
    PlainText("action_type");
    PlainText("agent_id");
    PlainText("scope");
    PlainText("timestamp");
  }

  lemma PlainChar(c: char)
    requires c as int >= 0x20 && c != '\"' && c != '\\'
    ensures EscapeChar(c) == [c]
  {}

  lemma {:induction false} PlainText(s: string)
    requires forall c | c in s :: c as int >= 0x20 && c != '\"' && c != '\\'
    ensures EscapeText(s) == s
    decreases |s|
  {
    hide EscapeChar;
    if s != "" {
      assert s[0] in s && forall c | c in s[1..] :: c in s;
      PlainChar(s[0]);
      PlainText(s[1..]);
      assert s == [s[0]] + s[1..];
    }
  }
}
