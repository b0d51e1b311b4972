/**
 What the verdicts of verify_trail mean: a sealed verdict binds the presented entries to the
 honest log, unless two hashed messages collide.
 */
module TrailTheorems {
  import opened Python
  import opened Bytes
  import opened Order
  import opened Jcs
  import opened JcsTheorems
  import opened Merkle
  import opened MerkleTheorems
  import opened TrailHead

  // ------------------------------------------------------------------ preimages

  lemma JsonEqualSymmetric(v: Json, w: Json)
    requires Proper(v) && Proper(w) && JcsBytes(v).Ok? && JcsBytes(w).Ok? && JsonEqual(v, w)
    ensures JsonEqual(w, v)
  {
    hide JsonEqual, Proper, JcsBytes;
    JcsBytesInjective(v, w);
    JcsBytesInjective(w, v);
  }

  /** Equal dictionaries have equal items. */
  lemma EqualItems(v: Json, w: Json, key: string)
    requires v.Obj? && w.Obj? && Proper(v) && Proper(w) && JsonEqual(v, w)
    requires JcsBytes(v).Ok? && JcsBytes(w).Ok?
    ensures Has(v, key) <==> Has(w, key)
    ensures JsonEqual(Get(v, key), Get(w, key))
  {
    hide JcsBytes;
    JsonEqualSymmetric(v, w);
    if Has(v, key) {
      var i := LookupIndex(v.fields, key);
      LookupFinds(v.fields, i);
    }
    if Has(w, key) {
      var i := LookupIndex(w.fields, key);
      LookupFinds(w.fields, i);
    }
  }

  predicate Scalar(v: Json) {
    !v.Arr? && !v.Obj?
  }

  /** The items of a preimage, by key. */
  lemma PreimageLookup(agentId: Json, seqNo: int, actionRef: Json, prevHead: Json, agentSeq: Json, key: string)
    requires EntryPreimage(agentId, seqNo, actionRef, prevHead, agentSeq).Ok?
    ensures Lookup(EntryPreimage(agentId, seqNo, actionRef, prevHead, agentSeq).value.fields, key) ==
      if key == "v" then Some(Str(ENTRY_V)) else if key == "agent_id" then Some(agentId)
      else if key == "seq" then Some(Int(seqNo)) else if key == "action_ref" then Some(actionRef)
      else if key == "prev_head" && prevHead != Null then Some(prevHead)
      else if key == "agent_seq" && agentSeq != Null then Some(agentSeq)
      else None
  {
    var v, a, s, r := Field("v", Str(ENTRY_V)), Field("agent_id", agentId), Field("seq", Int(seqNo)),
                      Field("action_ref", actionRef);
    KeysDiffer();
    LookupFour(v, a, s, r, key);
    LookupAppend([v, a, s, r] + Optional("prev_head", prevHead), Optional("agent_seq", agentSeq), key);
    LookupAppend([v, a, s, r], Optional("prev_head", prevHead), key);
    LookupOptional("prev_head", prevHead, key);
    LookupOptional("agent_seq", agentSeq, key);
  }

  lemma PreimageProper(agentId: Json, seqNo: int, actionRef: Json, prevHead: Json, agentSeq: Json)
    requires EntryPreimage(agentId, seqNo, actionRef, prevHead, agentSeq).Ok?
    requires Scalar(agentId)
    ensures EntryPreimage(agentId, seqNo, actionRef, prevHead, agentSeq).value.Obj?
    ensures Proper(EntryPreimage(agentId, seqNo, actionRef, prevHead, agentSeq).value)
  {
    var v, a, s, r := Field("v", Str(ENTRY_V)), Field("agent_id", agentId), Field("seq", Int(seqNo)),
                      Field("action_ref", actionRef);
    KeysDiffer();
    assert Proper(Obj([v, a, s, r]));
    LookupFour(v, a, s, r, "prev_head");
    OptionalProper([v, a, s, r], "prev_head", prevHead);
    LookupFour(v, a, s, r, "agent_seq");
    LookupAppend([v, a, s, r], Optional("prev_head", prevHead), "agent_seq");
    LookupOptional("prev_head", prevHead, "agent_seq");
    OptionalProper([v, a, s, r] + Optional("prev_head", prevHead), "agent_seq", agentSeq);
  }

  lemma OptionalProper(fields: seq<Field>, name: string, v: Json)
    requires Proper(Obj(fields)) && Proper(v) && Lookup(fields, name).None?
    ensures Proper(Obj(fields + Optional(name, v)))
  {
    AbsentKey(fields, name);
    var r := fields + Optional(name, v);
    forall i | 0 <= i < |r| ensures Proper(r[i].val) {
      if i < |fields| {
        assert r[i] == fields[i];
      }
    }
  }

  lemma {:induction false} AbsentKey(fields: seq<Field>, name: string)
    requires Lookup(fields, name).None?
    ensures forall i | 0 <= i < |fields| :: fields[i].key != name
  {
    if fields != [] {
      AbsentKey(fields[1..], name);
    }
  }

  /** The keys used in entries and checkpoints are distinct texts. */
  lemma KeysDiffer()
    ensures "agent_seq" != "prev_head" && "v" != "seq" && "seq" != "head"
  {
    assert "agent_seq"[0] == 'a' && "prev_head"[0] == 'p';
    assert "seq"[0] == 's' && "head"[0] == 'h';
  }

  lemma LookupFour(a: Field, b: Field, c: Field, d: Field, key: string)
    ensures Lookup([a, b, c, d], key) ==
            if a.key == key then Some(a.val) else if b.key == key then Some(b.val)
            else if c.key == key then Some(c.val) else if d.key == key then Some(d.val) else None
  {
    assert [a, b, c, d][1..] == [b, c, d];
    assert [b, c, d][1..] == [c, d];
    assert [c, d][1..] == [d];
    assert [d][1..] == [];
    assert Lookup([d], key) == if d.key == key then Some(d.val) else None;
    assert Lookup([c, d], key) == if c.key == key then Some(c.val) else Lookup([d], key);
    assert Lookup([b, c, d], key) == if b.key == key then Some(b.val) else Lookup([c, d], key);
  }

  lemma LookupOptional(name: string, v: Json, key: string)
    ensures Lookup(Optional(name, v), key) == if v != Null && key == name then Some(v) else None
  {
    if v != Null {
      assert [Field(name, v)][1..] == [];
    }
  }

  lemma {:induction false} LookupAppend(a: seq<Field>, b: seq<Field>, key: string)
    ensures Lookup(a + b, key) == if Lookup(a, key).Some? then Lookup(a, key) else Lookup(b, key)
  {
    if a == [] {
      assert a + b == b;
    } else {
      LookupAppend(a[1..], b, key);
      assert (a + b)[1..] == a[1..] + b;
    }
  }

  function PreimageBytes(agentId: Json, seqNo: int, actionRef: Json, prevHead: Json, agentSeq: Json)
      : Result<ByteString> {
    var pre :- EntryPreimage(agentId, seqNo, actionRef, prevHead, agentSeq);
    JcsBytes(pre)
  }

  /** The encoding of a preimage is injective in every field. */
  lemma PreimageInjective(agentId: Json, n: int, r: Json, p: Json, s: Json, n': int, r': Json, p': Json, s': Json)
    requires Scalar(agentId)
    requires PreimageBytes(agentId, n, r, p, s).Ok?
    requires PreimageBytes(agentId, n, r, p, s) == PreimageBytes(agentId, n', r', p', s')
    ensures n == n' && r == r' && p == p' && s == s'
  {
    var v, w := EntryPreimage(agentId, n, r, p, s).value, EntryPreimage(agentId, n', r', p', s').value;
    PreimageProper(agentId, n, r, p, s);
    PreimageProper(agentId, n', r', p', s');
    JcsBytesInjective(v, w);
    ItemEqual(agentId, n, r, p, s, n', r', p', s', "seq");
    ItemEqual(agentId, n, r, p, s, n', r', p', s', "action_ref");
    ItemEqual(agentId, n, r, p, s, n', r', p', s', "prev_head");
    ItemEqual(agentId, n, r, p, s, n', r', p', s', "agent_seq");
  }

  lemma ItemEqual(agentId: Json, n: int, r: Json, p: Json, s: Json, n': int, r': Json, p': Json, s': Json, key: string)
    requires Scalar(agentId)
    requires EntryPreimage(agentId, n, r, p, s).Ok? && EntryPreimage(agentId, n', r', p', s').Ok?
    requires PreimageBytes(agentId, n, r, p, s).Ok? && PreimageBytes(agentId, n', r', p', s').Ok?
    requires JsonEqual(EntryPreimage(agentId, n, r, p, s).value, EntryPreimage(agentId, n', r', p', s').value)
    ensures key == "seq" ==> n == n'
    ensures key == "action_ref" ==> r == r'
    ensures key == "prev_head" ==> p == p'
    ensures key == "agent_seq" ==> s == s'
  {
    hide JcsBytes, Proper, Lookup, Optional;
    var v, w := EntryPreimage(agentId, n, r, p, s).value, EntryPreimage(agentId, n', r', p', s').value;
    PreimageProper(agentId, n, r, p, s);
    PreimageProper(agentId, n', r', p', s');
    EqualItems(v, w, key);
    PreimageLookup(agentId, n, r, p, s, key);
    PreimageLookup(agentId, n', r', p', s', key);
    KeysDiffer();
  }

  // ------------------------------------------------------------------ honest logs

  /** The bytes hashed for one record of the log. */
  function EntryBytes(e: Entry): Result<ByteString> {
    PreimageBytes(Str(e.agentId), e.seqNo, Str(e.actionRef), OptStr(e.prevHead), OptInt(e.agentSeq))
  }

  ghost predicate HonestEntry(h: HashFn, agentId: string, log: seq<Entry>, i: int)
    requires 0 <= i < |log|
  {
    && log[i].agentId == agentId
    && log[i].seqNo == i + 1
    && log[i].prevHead == (if i == 0 then None else Some(log[i - 1].head))
    && EntryBytes(log[i]).Ok?
    && log[i].head == Hex(h(EntryBytes(log[i]).value))
  }

  ghost predicate HonestLog(h: HashFn, agentId: string, log: seq<Entry>) {
    forall i | 0 <= i < |log| :: HonestEntry(h, agentId, log, i)
  }

  /** Every record of a log built by append_entry is numbered, linked and hashed. */
  lemma LogIsHonest(h: HashFn, agentId: string, inputs: seq<Input>)
    requires LogOf(h, agentId, inputs).Ok?
    ensures HonestLog(h, agentId, LogOf(h, agentId, inputs).value)
  {
    LogLength(h, agentId, inputs);
    var log := LogOf(h, agentId, inputs).value;
    forall i | 0 <= i < |log| ensures HonestEntry(h, agentId, log, i) {
      LogEntryHonest(h, agentId, inputs, i);
    }
  }

  lemma {:induction false} LogLength(h: HashFn, agentId: string, inputs: seq<Input>)
    requires LogOf(h, agentId, inputs).Ok?
    ensures |LogOf(h, agentId, inputs).value| == |inputs|
  {
    if inputs != [] {
      LogLength(h, agentId, inputs[..|inputs| - 1]);
    }
  }

  lemma {:induction false} LogEntryHonest(h: HashFn, agentId: string, inputs: seq<Input>, i: nat)
    requires LogOf(h, agentId, inputs).Ok? && i < |inputs|
    ensures |LogOf(h, agentId, inputs).value| == |inputs|
    ensures HonestEntry(h, agentId, LogOf(h, agentId, inputs).value, i)
    ensures LogOf(h, agentId, inputs).value[i].actionRef == inputs[i].actionRef
    ensures LogOf(h, agentId, inputs).value[i].agentSeq == inputs[i].agentSeq
  {
    var n := |inputs| - 1;
    LogLength(h, agentId, inputs);
    LogLength(h, agentId, inputs[..n]);
    var before := LogOf(h, agentId, inputs[..n]).value;
    var log := LogOf(h, agentId, inputs).value;
    if i < n {
      LogEntryHonest(h, agentId, inputs[..n], i);
      HonestPrefix(h, agentId, before, log[n], i);
    } else {
      LastIsHonest(h, agentId, before, inputs[n], log);
    }
  }

  lemma HonestPrefix(h: HashFn, agentId: string, before: seq<Entry>, e: Entry, i: nat)
    requires i < |before| && HonestEntry(h, agentId, before, i)
    ensures HonestEntry(h, agentId, before + [e], i)
  {}

  lemma LastIsHonest(h: HashFn, agentId: string, before: seq<Entry>, input: Input, log: seq<Entry>)
    requires NextEntry(h, before, agentId, input).Ok?
    requires log == before + [NextEntry(h, before, agentId, input).value]
    ensures HonestEntry(h, agentId, log, |before|)
    ensures log[|before|].actionRef == input.actionRef && log[|before|].agentSeq == input.agentSeq
  {
    if before != [] {
      assert log[|before| - 1] == before[|before| - 1];
    }
  }

  // ------------------------------------------------------------------ the chain

  /** The presented entry states exactly what the record of the log committed to. */
  ghost predicate Commits(e: Json, x: Entry) {
    && e.Obj?
    && Get(e, "seq") == Int(x.seqNo)
    && Get(e, "action_ref") == Str(x.actionRef)
    && Get(e, "prev_head") == OptStr(x.prevHead)
    && Get(e, "agent_seq") == OptInt(x.agentSeq)
    && Get(e, "head") == Str(x.head)
  }

  /** The bytes hashed by the verifier for one presented entry. */
  function PresentedBytes(e: Json, agentId: Json): Result<ByteString>
    requires WellShaped(e)
  {
    PreimageBytes(agentId, SeqNo(e), Get(e, "action_ref"), Get(e, "prev_head"), Get(e, "agent_seq"))
  }

  lemma {:induction false} ChainFrom(h: HashFn, entries: seq<Json>, agentId: Json, fromSeq: int, k: nat, i: nat)
    requires AllShaped(entries) && k <= i < |entries|
    requires Chain(h, entries, agentId, fromSeq, k).Pass?
    ensures LinkOf(h, entries[i], agentId, fromSeq, fromSeq + i, PrevHead(entries, i)).Pass?
    decreases i - k
  {
    hide LinkOf, PrevHead, AllShaped;
    ChainAt(h, entries, agentId, fromSeq, k);
    if k < i {
      ChainFrom(h, entries, agentId, fromSeq, k + 1, i);
    }
  }

  /** What an accepted chain says of each of its entries. */
  lemma AcceptedEntry(h: HashFn, entries: seq<Json>, agentId: Json, fromSeq: int, i: nat)
    requires AllShaped(entries) && i < |entries|
    requires Chain(h, entries, agentId, fromSeq, 0).Pass?
    ensures SeqNo(entries[i]) == fromSeq + i
    ensures PresentedBytes(entries[i], agentId).Ok?
    ensures Get(entries[i], "head") == Str(Hex(h(PresentedBytes(entries[i], agentId).value)))
    ensures i > 0 ==> Get(entries[i], "prev_head") == Get(entries[i - 1], "head")
  {
    hide Chain, LinkOf, PresentedBytes;
    ChainFrom(h, entries, agentId, fromSeq, 0, i);
    AcceptedLink(h, entries[i], agentId, fromSeq, fromSeq + i, PrevHead(entries, i));
  }

  lemma AcceptedLink(h: HashFn, e: Json, agentId: Json, fromSeq: int, expected: int, prevHead: Json)
    requires WellShaped(e) && LinkOf(h, e, agentId, fromSeq, expected, prevHead).Pass?
    ensures SeqNo(e) == expected && PresentedBytes(e, agentId).Ok?
    ensures Get(e, "head") == Str(Hex(h(PresentedBytes(e, agentId).value)))
    ensures SeqNo(e) > fromSeq ==> Get(e, "prev_head") == prevHead
  {}

  /** Equal heads: the entry states what the record committed to, or the two messages collide. */
  lemma HeadBindsEntry(h: HashFn, e: Json, x: Entry, messages: set<ByteString>)
    requires WellShaped(e) && PresentedBytes(e, Str(x.agentId)).Ok? && EntryBytes(x).Ok?
    requires PresentedBytes(e, Str(x.agentId)).value in messages && EntryBytes(x).value in messages
    requires !Collision(h, messages)
    requires Get(e, "head") == Str(Hex(h(PresentedBytes(e, Str(x.agentId)).value))) == Str(x.head)
    requires x.head == Hex(h(EntryBytes(x).value))
    ensures Commits(e, x)
  {
    var b, b' := PresentedBytes(e, Str(x.agentId)).value, EntryBytes(x).value;
    HexInjective(h(b), h(b'));
    SameMessage(h, messages, b, b');
    PreimageInjective(Str(x.agentId), SeqNo(e), Get(e, "action_ref"), Get(e, "prev_head"), Get(e, "agent_seq"),
                      x.seqNo, Str(x.actionRef), OptStr(x.prevHead), OptInt(x.agentSeq));
  }

  ghost predicate AllHashed(entries: seq<Json>, agentId: string, log: seq<Entry>, messages: set<ByteString>)
    requires AllShaped(entries)
  {
    && (forall i {:trigger PresentedBytes(entries[i], Str(agentId))} | 0 <= i < |entries| ::
          var b := PresentedBytes(entries[i], Str(agentId)); b.Ok? ==> b.value in messages)
    && (forall i {:trigger EntryBytes(log[i])} | 0 <= i < |log| ::
          EntryBytes(log[i]).Ok? ==> EntryBytes(log[i]).value in messages)
  }

  ghost predicate Binding(
      h: HashFn, entries: seq<Json>, agentId: string, log: seq<Entry>, fromSeq: int, messages: set<ByteString>)
    requires AllShaped(entries)
  {
    && 1 <= fromSeq
    && Chain(h, entries, Str(agentId), fromSeq, 0).Pass?
    && HonestLog(h, agentId, log)
    && AllHashed(entries, agentId, log, messages)
    && !Collision(h, messages)
  }

  /** One step back along the chain. */
  lemma ChainBindsOne(
      h: HashFn, entries: seq<Json>, agentId: string, log: seq<Entry>, fromSeq: int, j: nat, messages: set<ByteString>)
    requires AllShaped(entries) && Binding(h, entries, agentId, log, fromSeq, messages)
    requires j < |entries| && fromSeq + j <= |log|
    requires Get(entries[j], "head") == Str(log[fromSeq + j - 1].head)
    ensures Commits(entries[j], log[fromSeq + j - 1])
    ensures j > 0 ==> Get(entries[j - 1], "head") == Str(log[fromSeq + j - 2].head)
  {
    var x := log[fromSeq + j - 1];
    assert HonestEntry(h, agentId, log, fromSeq + j - 1);
    AcceptedEntry(h, entries, Str(agentId), fromSeq, j);
    assert PresentedBytes(entries[j], Str(x.agentId)).value in messages;
    HeadBindsEntry(h, entries[j], x, messages);
  }

  /** A matching head at position j commits to every presented entry up to it. */
  lemma {:induction false} ChainBindsBackward(
      h: HashFn, entries: seq<Json>, agentId: string, log: seq<Entry>, fromSeq: int, j: nat, i: nat,
      messages: set<ByteString>)
    requires AllShaped(entries) && Binding(h, entries, agentId, log, fromSeq, messages)
    requires i <= j < |entries| && fromSeq + j <= |log|
    requires Get(entries[j], "head") == Str(log[fromSeq + j - 1].head)
    ensures Commits(entries[i], log[fromSeq + i - 1])
  {
    hide Binding, Commits;
    ChainBindsOne(h, entries, agentId, log, fromSeq, j, messages);
    if i < j {
      ChainBindsBackward(h, entries, agentId, log, fromSeq, j - 1, i, messages);
    }
  }

  // ------------------------------------------------------------------ sealed checkpoints

  lemma CheckpointLookup(c: Checkpoint, key: string)
    ensures Lookup(CheckpointJson(c).fields, key) ==
      if key == "v" then Some(Str(CHECKPOINT_V)) else if key == "agent_id" then Some(Str(c.agentId))
      else if key == "period_end" then Some(Str(c.periodEnd)) else if key == "seq" then Some(Int(c.seqNo))
      else if key == "head" then Some(Str(c.head)) else None
  {
    var four := [Field("v", Str(CHECKPOINT_V)), Field("agent_id", Str(c.agentId)),
                 Field("period_end", Str(c.periodEnd)), Field("seq", Int(c.seqNo))];
    assert CheckpointJson(c).fields == four + [Field("head", Str(c.head))];
    LookupFour(four[0], four[1], four[2], four[3], key);
    LookupAppend(four, [Field("head", Str(c.head))], key);
    LookupOptional("head", Str(c.head), key);
  }

  lemma CheckpointProper(c: Checkpoint)
    ensures Proper(CheckpointJson(c))
  {
    KeysDiffer();
  }

  /** A dictionary equal to a checkpoint states the same agent, number and head. */
  lemma CheckpointBinds(cp: Json, c: Checkpoint)
    requires cp.Obj? && Proper(cp) && JsonEqual(cp, CheckpointJson(c))
    requires JcsBytes(cp).Ok? && JcsBytes(CheckpointJson(c)).Ok?
    ensures Get(cp, "agent_id") == Str(c.agentId) && Get(cp, "head") == Str(c.head)
    ensures AsInt(Get(cp, "seq")).Some? ==> Get(cp, "seq") == Int(c.seqNo)
    ensures Has(cp, "period_end") && Get(cp, "period_end") == Str(c.periodEnd)
  {
    CheckpointLookup(c, "agent_id");
    CheckpointLookup(c, "seq");
    CheckpointLookup(c, "head");
    CheckpointLookup(c, "period_end");
    CheckpointItem(cp, c, "agent_id");
    CheckpointItem(cp, c, "seq");
    CheckpointItem(cp, c, "head");
    CheckpointItem(cp, c, "period_end");
  }

  lemma CheckpointItem(cp: Json, c: Checkpoint, key: string)
    requires cp.Obj? && Proper(cp) && JsonEqual(cp, CheckpointJson(c))
    requires JcsBytes(cp).Ok? && JcsBytes(CheckpointJson(c)).Ok?
    requires Has(CheckpointJson(c), key)
    ensures Has(cp, key) && (Get(cp, key).Num? || Get(cp, key) == Get(CheckpointJson(c), key))
    ensures Get(CheckpointJson(c), key).Str? ==> Get(cp, key) == Get(CheckpointJson(c), key)
  {
    hide JcsBytes, Proper, Lookup;
    CheckpointProper(c);
    EqualItems(cp, CheckpointJson(c), key);
    CheckpointLookup(c, key);
  }

  function CheckpointBytes(cps: seq<Checkpoint>): set<ByteString> {
    set i | 0 <= i < |cps| && JcsBytes(CheckpointJson(cps[i])).Ok? :: JcsBytes(CheckpointJson(cps[i])).value
  }

  /** The messages hashed while sealing a period. */
  function SealMessages(h: HashFn, cps: seq<Checkpoint>): set<ByteString>
    requires SealPeriod(h, cps).Ok?
  {
    CheckpointBytes(SortBy(cps, AgentKey)) + TreeMessages(h, SealPeriod(h, cps).value.digests)
  }

  /** The messages hashed while checking a checkpoint's inclusion. */
  function InclusionMessages(h: HashFn, cp: Json, proof: Option<seq<string>>): set<ByteString> {
    if proof.None? || JcsBytes(cp).Raise? then {}
    else {JcsBytes(cp).value} + CheckMessages(h, Hex(h(JcsBytes(cp).value)), proof.value)
  }

  /** An included checkpoint is one of those that were sealed. */
  lemma IncludedWasSealed(h: HashFn, cps: seq<Checkpoint>, cp: Json, proof: Option<seq<string>>,
                          messages: set<ByteString>) returns (c: Checkpoint)
    requires SealPeriod(h, cps).Ok? && Proper(cp)
    requires ProvenIn(h, cp, proof, Some(SealPeriod(h, cps).value.root)) == Ok(true)
    requires SealMessages(h, cps) <= messages && InclusionMessages(h, cp, proof) <= messages
    requires !Collision(h, messages)
    ensures c in SortBy(cps, AgentKey) && JsonEqual(cp, CheckpointJson(c))
    ensures JcsBytes(cp).Ok? && JcsBytes(CheckpointJson(c)).Ok?
  {
    hide JcsBytes, CheckpointJson, Proper, JsonEqual, Included, RootOf, ValidRef, Hex, FromHex;
    var ordered := SortBy(cps, AgentKey);
    var digests := SealPeriod(h, cps).value.digests;
    var b := JcsBytes(cp).value;
    var i := MatchingDigest(h, digests, b, proof.value, messages);
    c := ordered[i];
    var b' := JcsBytes(CheckpointJson(c)).value;
    HexRoundTrip(h(b));
    HexRoundTrip(h(b'));
    assert b' in CheckpointBytes(ordered);
    SameMessage(h, messages, b, b');
    CheckpointProper(c);
    JcsBytesInjective(cp, CheckpointJson(c));
  }

  lemma MatchingDigest(h: HashFn, digests: seq<string>, b: ByteString, proof: seq<string>, messages: set<ByteString>)
      returns (i: nat)
    requires digests != [] && forall k | 0 <= k < |digests| :: ValidRef(digests[k])
    requires Included(h, Hex(h(b)), proof, RootOf(h, digests))
    requires TreeMessages(h, digests) <= messages && CheckMessages(h, Hex(h(b)), proof) <= messages
    requires !Collision(h, messages)
    ensures i < |digests| && RefBytes(digests[i]) == RefBytes(Hex(h(b)))
  {
    InclusionSound(h, digests, Hex(h(b)), proof);
    CollisionGrows(h, TreeMessages(h, digests) + CheckMessages(h, Hex(h(b)), proof), messages);
    i :| 0 <= i < |digests| && RefBytes(digests[i]) == RefBytes(Hex(h(b)));
  }

  /** One checkpoint per agent: two sealed checkpoints of one agent are the same. */
  lemma OneCheckpointPerAgent(h: HashFn, cps: seq<Checkpoint>, c: Checkpoint, d: Checkpoint)
    requires SealPeriod(h, cps).Ok?
    requires c in SortBy(cps, AgentKey) && d in cps && c.agentId == d.agentId
    ensures c == d
  {
    var ordered := SortBy(cps, AgentKey);
    SameMembers(ordered, cps);
    assert d in ordered;
    var i :| 0 <= i < |ordered| && ordered[i] == c;
    var j :| 0 <= j < |ordered| && ordered[j] == d;
    assert !(i < j) && !(j < i);
  }

  // ------------------------------------------------------------------ main theorem

  function LogMessages(log: seq<Entry>): set<ByteString> {
    set i | 0 <= i < |log| && EntryBytes(log[i]).Ok? :: EntryBytes(log[i]).value
  }

  function PresentedMessages(entries: seq<Json>, agentId: Json): set<ByteString> {
    set i | 0 <= i < |entries| && WellShaped(entries[i]) && PresentedBytes(entries[i], agentId).Ok? ::
      PresentedBytes(entries[i], agentId).value
  }

  /** Every message hashed by the producer of the log, by the sealer, and by the verifier. */
  function HashedMessages(h: HashFn, log: seq<Entry>, cps: seq<Checkpoint>, req: Request): set<ByteString>
    requires SealPeriod(h, cps).Ok?
  {
    LogMessages(log) + SealMessages(h, cps)
    + PresentedMessages(req.Entries(), AgentOf(req.Entries())) + InclusionMessages(h, req.checkpoint, req.proof)
  }

  predicate SealedVerdict(v: Verdict) {
    v.Complete? || v.CompleteUnsealedTail? || v.WindowComplete? || v.WindowCompleteUnsealedTail?
  }

  /** A failing check never answers with a sealed verdict. */
  predicate Unsealed(step: Step) {
    step.Stop? && step.result.Ok? ==> !SealedVerdict(step.result.value.verdict)
  }

  lemma {:induction false} ShapeUnsealed(entries: seq<Json>, agentId: Json, k: nat)
    requires k <= |entries|
    ensures Unsealed(Shape(entries, agentId, k))
    decreases |entries| - k
  {
    if k < |entries| {
      ShapeUnsealed(entries, agentId, k + 1);
    }
  }

  lemma {:induction false} ChainUnsealed(h: HashFn, entries: seq<Json>, agentId: Json, fromSeq: int, k: nat)
    requires k <= |entries| && AllShaped(entries)
    ensures Unsealed(Chain(h, entries, agentId, fromSeq, k))
    decreases |entries| - k
  {
    hide LinkOf;
    if k < |entries| {
      ChainUnsealed(h, entries, agentId, fromSeq, k + 1);
      ChainAt(h, entries, agentId, fromSeq, k);
      LinkUnsealed(h, entries[k], agentId, fromSeq, fromSeq + k, PrevHead(entries, k));
    }
  }

  lemma LinkUnsealed(h: HashFn, e: Json, agentId: Json, fromSeq: int, expected: int, prevHead: Json)
    requires WellShaped(e)
    ensures Unsealed(LinkOf(h, e, agentId, fromSeq, expected, prevHead))
  {}

  lemma {:induction false} CountersUnsealed(entries: seq<Json>, k: nat)
    requires k < |entries| && AllShaped(entries)
    ensures Unsealed(Counters(entries, k))
    decreases |entries| - k
  {
    if k + 1 < |entries| {
      CountersUnsealed(entries, k + 1);
    }
  }

  lemma ContinuityUnsealed(h: HashFn, req: Request)
    ensures Unsealed(Continuity(h, req))
  {
    hide Chain, OrderCheck, AnchorCheck, CounterCheck;
    var entries, agentId := req.Entries(), AgentOf(req.Entries());
    if entries != [] {
      ShapeUnsealed(entries, agentId, 0);
      if Shape(entries, agentId, 0).Pass? && req.fromSeq >= 1 {
        ShapePasses(entries, agentId, 0);
        ChainUnsealed(h, entries, agentId, req.fromSeq, 0);
        OrderUnsealed(SeqNos(entries), req.fromSeq);
        AnchorUnsealed(h, req, agentId);
        CounterUnsealed(entries, req.fromSeq);
      }
    }
  }

  lemma OrderUnsealed(seqs: seq<int>, fromSeq: int)
    ensures Unsealed(OrderCheck(seqs, fromSeq))
  {}

  lemma AnchorUnsealed(h: HashFn, req: Request, agentId: Json)
    requires req.Entries() != [] && WellShaped(req.Entries()[0])
    ensures Unsealed(AnchorCheck(h, req, agentId))
  {
    hide ProvenIn, PyEqual;
  }

  lemma CounterUnsealed(entries: seq<Json>, fromSeq: int)
    requires entries != [] && AllShaped(entries)
    ensures Unsealed(CounterCheck(entries, fromSeq))
  {
    CountersUnsealed(entries, 0);
  }

  lemma CheckpointCheckFacts(h: HashFn, iso: IsoParser, req: Request, agentId: Json)
    ensures Unsealed(CheckpointCheck(h, iso, req, agentId))
    ensures CheckpointCheck(h, iso, req, agentId).Pass? ==>
              && req.checkpoint.Obj? && AsInt(Get(req.checkpoint, "seq")).Some?
              && PyEqual(Get(req.checkpoint, "agent_id"), agentId)
              && ProvenIn(h, req.checkpoint, req.proof, req.root) == Ok(true)
  {}

  lemma AgainstCheckpointFacts(req: Request, lastSeq: int)
    requires req.Entries() != [] && AllShaped(req.Entries())
    requires lastSeq == req.fromSeq + |req.Entries()| - 1
    requires req.checkpoint.Obj? && AsInt(Get(req.checkpoint, "seq")).Some?
    requires AgainstCheckpoint(req, lastSeq).Ok? && SealedVerdict(AgainstCheckpoint(req, lastSeq).value.verdict)
    ensures var c, verdict := AsInt(Get(req.checkpoint, "seq")).value, AgainstCheckpoint(req, lastSeq).value.verdict;
            && req.fromSeq <= c <= lastSeq
            && Get(req.Entries()[c - req.fromSeq], "head") == Get(req.checkpoint, "head")
            && (verdict.WindowComplete? || verdict.WindowCompleteUnsealedTail? <==> req.fromSeq > 1)
            && (verdict.Complete? || verdict.WindowComplete? <==> c == lastSeq)
  {}

  lemma SealedVerdictContinuous(h: HashFn, iso: IsoParser, req: Request)
    requires VerifyTrail(h, iso, req).Ok? && SealedVerdict(VerifyTrail(h, iso, req).value.verdict)
    ensures Continuity(h, req).Pass? && req.Entries() != [] && AllShaped(req.Entries())
    ensures VerifyTrail(h, iso, req) == Completed(h, iso, req)
  {
    hide Continuity, Completed;
    ContinuityUnsealed(h, req);
    if Continuity(h, req).Pass? {
      ContinuityPasses(h, req);
    }
  }

  /** What a sealed verdict has checked of the checkpoint. */
  lemma SealedVerdictFacts(h: HashFn, iso: IsoParser, req: Request)
    requires req.Entries() != [] && AllShaped(req.Entries())
    requires Completed(h, iso, req).Ok? && SealedVerdict(Completed(h, iso, req).value.verdict)
    ensures req.checkpoint.Obj? && AsInt(Get(req.checkpoint, "seq")).Some?
    ensures PyEqual(Get(req.checkpoint, "agent_id"), AgentOf(req.Entries()))
    ensures ProvenIn(h, req.checkpoint, req.proof, req.root) == Ok(true)
    ensures AgainstCheckpoint(req, req.fromSeq + |req.Entries()| - 1) == Completed(h, iso, req)
  {
    hide AgainstCheckpoint, CheckpointCheck, PyEqual, ProvenIn;
    CheckpointCheckFacts(h, iso, req, AgentOf(req.Entries()));
  }

  /** The accepted checkpoint states the number and head of the honest one of this agent. */
  lemma CheckpointIsHonest(h: HashFn, cps: seq<Checkpoint>, honest: Checkpoint, cp: Json, proof: Option<seq<string>>,
                           messages: set<ByteString>)
    requires SealPeriod(h, cps).Ok? && honest in cps && cp.Obj? && Proper(cp)
    requires ProvenIn(h, cp, proof, Some(SealPeriod(h, cps).value.root)) == Ok(true)
    requires PyEqual(Get(cp, "agent_id"), Str(honest.agentId)) && AsInt(Get(cp, "seq")).Some?
    requires SealMessages(h, cps) <= messages && InclusionMessages(h, cp, proof) <= messages
    requires !Collision(h, messages)
    ensures Get(cp, "seq") == Int(honest.seqNo) && Get(cp, "head") == Str(honest.head)
  {
    hide JcsBytes, Proper, JsonEqual, SealPeriod, SealMessages, InclusionMessages, Collision, Lookup;
    var c := IncludedWasSealed(h, cps, cp, proof, messages);
    CheckpointBinds(cp, c);
    OneCheckpointPerAgent(h, cps, c, honest);
  }

  lemma MessagesCover(h: HashFn, agentId: string, log: seq<Entry>, cps: seq<Checkpoint>, req: Request)
    requires SealPeriod(h, cps).Ok? && AllShaped(req.Entries()) && AgentOf(req.Entries()) == Str(agentId)
    ensures var messages := HashedMessages(h, log, cps, req);
            && AllHashed(req.Entries(), agentId, log, messages)
            && SealMessages(h, cps) <= messages
            && InclusionMessages(h, req.checkpoint, req.proof) <= messages
  {
    hide PresentedBytes, EntryBytes, SealMessages, InclusionMessages;
    forall i {:trigger log[i]} | 0 <= i < |log| && EntryBytes(log[i]).Ok?
      ensures EntryBytes(log[i]).value in LogMessages(log)
    {}
    forall i {:trigger req.Entries()[i]} | 0 <= i < |req.Entries()| && PresentedBytes(req.Entries()[i], Str(agentId)).Ok?
      ensures PresentedBytes(req.Entries()[i], Str(agentId)).value in PresentedMessages(req.Entries(), Str(agentId))
    {}
  }

  /** The presented entries from fromSeq to the end of the log state what the log committed to. */
  ghost predicate BoundTo(entries: seq<Json>, fromSeq: int, log: seq<Entry>) {
    && 1 <= fromSeq <= |log| < fromSeq + |entries|
    && (forall i {:trigger entries[i]} | 0 <= i <= |log| - fromSeq :: Commits(entries[i], log[fromSeq + i - 1]))
    && (fromSeq > 1 ==> entries[0].Obj? && Get(entries[0], "prev_head") == Str(log[fromSeq - 2].head))
  }

  lemma MatchingHeadBinds(h: HashFn, entries: seq<Json>, agentId: string, log: seq<Entry>, fromSeq: int,
                          messages: set<ByteString>)
    requires AllShaped(entries) && Binding(h, entries, agentId, log, fromSeq, messages)
    requires 1 <= fromSeq <= |log| < fromSeq + |entries|
    requires Get(entries[|log| - fromSeq], "head") == Str(log[|log| - 1].head)
    ensures BoundTo(entries, fromSeq, log)
  {
    hide Binding, Commits;
    forall i {:trigger entries[i]} | 0 <= i <= |log| - fromSeq ensures Commits(entries[i], log[fromSeq + i - 1]) {
      ChainBindsBackward(h, entries, agentId, log, fromSeq, |log| - fromSeq, i, messages);
    }
    FirstPrevHead(h, entries, agentId, log, fromSeq, messages);
  }

  lemma FirstPrevHead(h: HashFn, entries: seq<Json>, agentId: string, log: seq<Entry>, fromSeq: int,
                      messages: set<ByteString>)
    requires AllShaped(entries) && Binding(h, entries, agentId, log, fromSeq, messages)
    requires 1 <= fromSeq <= |log| && entries != [] && Commits(entries[0], log[fromSeq - 1])
    ensures fromSeq > 1 ==> Get(entries[0], "prev_head") == Str(log[fromSeq - 2].head)
  {
    assert HonestEntry(h, agentId, log, fromSeq - 1);
  }

  lemma LastNumber(h: HashFn, agentId: string, log: seq<Entry>)
    requires HonestLog(h, agentId, log) && log != []
    ensures log[|log| - 1].seqNo == |log|
  {
    assert HonestEntry(h, agentId, log, |log| - 1);
  }

  lemma BindingHolds(h: HashFn, req: Request, agentId: string, log: seq<Entry>, messages: set<ByteString>)
    requires Continuity(h, req).Pass? && AgentOf(req.Entries()) == Str(agentId) && AllShaped(req.Entries())
    requires HonestLog(h, agentId, log) && AllHashed(req.Entries(), agentId, log, messages) && !Collision(h, messages)
    ensures Binding(h, req.Entries(), agentId, log, req.fromSeq, messages)
  {
    hide Continuity, HonestLog, AllHashed, Collision;
    ContinuityPasses(h, req);
  }

  ghost predicate FullyBound(req: Request, verdict: Verdict, log: seq<Entry>) {
    && BoundTo(req.Entries(), req.fromSeq, log)
    && (verdict.Complete? || verdict.CompleteUnsealedTail? ==> req.fromSeq == 1)
    && (verdict.Complete? || verdict.WindowComplete? ==> req.fromSeq + |req.Entries()| == |log| + 1)
  }

  ghost predicate SealedIn(h: HashFn, req: Request, cps: seq<Checkpoint>, messages: set<ByteString>) {
    && SealPeriod(h, cps).Ok? && req.root == Some(SealPeriod(h, cps).value.root)
    && SealMessages(h, cps) <= messages && InclusionMessages(h, req.checkpoint, req.proof) <= messages
    && !Collision(h, messages)
  }

  /** The sealed verdict compared the presented log with the honest head at its last number. */
  lemma HonestHeadReached(h: HashFn, iso: IsoParser, req: Request, cps: seq<Checkpoint>, honest: Checkpoint,
                          messages: set<ByteString>)
    requires req.Entries() != [] && AllShaped(req.Entries()) && Proper(req.checkpoint)
    requires Completed(h, iso, req).Ok? && SealedVerdict(Completed(h, iso, req).value.verdict)
    requires SealedIn(h, req, cps, messages)
    requires honest in cps && AgentOf(req.Entries()) == Str(honest.agentId)
    ensures var verdict, lastSeq := Completed(h, iso, req).value.verdict, req.fromSeq + |req.Entries()| - 1;
            && req.fromSeq <= honest.seqNo <= lastSeq
            && Get(req.Entries()[honest.seqNo - req.fromSeq], "head") == Str(honest.head)
            && (verdict.WindowComplete? || verdict.WindowCompleteUnsealedTail? <==> req.fromSeq > 1)
            && (verdict.Complete? || verdict.WindowComplete? <==> honest.seqNo == lastSeq)
  {
    hide AgainstCheckpoint, Completed, ProvenIn, PyEqual, SealPeriod, SealMessages, InclusionMessages, Collision,
         Proper;
    SealedVerdictFacts(h, iso, req);
    CheckpointIsHonest(h, cps, honest, req.checkpoint, req.proof, messages);
    AgainstCheckpointFacts(req, req.fromSeq + |req.Entries()| - 1);
  }

  lemma CompletedBinds(h: HashFn, iso: IsoParser, req: Request, log: seq<Entry>, cps: seq<Checkpoint>,
                       honest: Checkpoint, messages: set<ByteString>)
    requires req.Entries() != [] && AllShaped(req.Entries()) && Proper(req.checkpoint)
    requires Completed(h, iso, req).Ok? && SealedVerdict(Completed(h, iso, req).value.verdict)
    requires SealedIn(h, req, cps, messages)
    requires honest in cps && AgentOf(req.Entries()) == Str(honest.agentId)
    requires 1 <= req.fromSeq && Binding(h, req.Entries(), honest.agentId, log, req.fromSeq, messages)
    requires log != [] && honest.seqNo == |log| && honest.head == log[|log| - 1].head
    ensures FullyBound(req, Completed(h, iso, req).value.verdict, log)
  {
    hide Binding, BoundTo, Completed, HonestLog, AllHashed, Collision, Proper, AllShaped,
         SealPeriod, SealMessages, InclusionMessages;
    HonestHeadReached(h, iso, req, cps, honest, messages);
    MatchingHeadBinds(h, req.Entries(), honest.agentId, log, req.fromSeq, messages);
  }

  /**
   The meaning of a sealed verdict.  The root was built by seal_period over one checkpoint per
   agent, among them the honest checkpoint of this agent's log.  Then the presented entries
   equal that log from fromSeq to its end in every committed field, a window's first
   prev_head is the honest head before it even without an anchor, and a complete verdict leaves
   nothing out and nothing over; or two different messages, among those that were hashed, have
   one hash.
   */
  lemma SealedVerdictBindsLog(
      h: HashFn, iso: IsoParser, req: Request, agentId: string, inputs: seq<Input>, periodEnd: string,
      cps: seq<Checkpoint>)
    requires LogOf(h, agentId, inputs).Ok?
    requires MakeCheckpoint(iso, agentId, periodEnd, LogOf(h, agentId, inputs).value).Ok?
    requires MakeCheckpoint(iso, agentId, periodEnd, LogOf(h, agentId, inputs).value).value in cps
    requires SealPeriod(h, cps).Ok? && req.root == Some(SealPeriod(h, cps).value.root)
    requires AgentOf(req.Entries()) == Str(agentId) && Proper(req.checkpoint)
    requires VerifyTrail(h, iso, req).Ok? && SealedVerdict(VerifyTrail(h, iso, req).value.verdict)
    ensures FullyBound(req, VerifyTrail(h, iso, req).value.verdict, LogOf(h, agentId, inputs).value)
            || Collision(h, HashedMessages(h, LogOf(h, agentId, inputs).value, cps, req))
  {
    hide FullyBound, Binding, HonestLog, AllHashed, SealMessages, InclusionMessages, HashedMessages, Collision,
         SealPeriod,
         Continuity, Completed, AllShaped, VerifyTrail, LogOf;
    var log := LogOf(h, agentId, inputs).value;
    SealedVerdictContinuous(h, iso, req);
    MessagesCover(h, agentId, log, cps, req);
    LogIsHonest(h, agentId, inputs);
    LastNumber(h, agentId, log);
    if !Collision(h, HashedMessages(h, log, cps, req)) {
      var honest := MakeCheckpoint(iso, agentId, periodEnd, log).value;
      BindingHolds(h, req, agentId, log, HashedMessages(h, log, cps, req));
      ContinuityPasses(h, req);
      CompletedBinds(h, iso, req, log, cps, honest, HashedMessages(h, log, cps, req));
    }
  }
}
