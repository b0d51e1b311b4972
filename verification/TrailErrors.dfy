/** When verify_trail raises an exception instead of answering, and which one. */
module TrailErrors {
  import opened Python
  import opened Bytes
  import opened Jcs
  import opened JcsTheorems
  import opened Merkle
  import opened TrailHead
  import opened TrailTheorems
  import opened TrailDamage
  import opened TrailHonest

  // ------------------------------------------------------------------ the situations, by stage

  /** Records of one agent, each of the required shape. */
  predicate Uniform(entries: seq<Json>) {
    && entries != [] && AllShaped(entries)
    && forall i | 0 <= i < |entries| :: PyEqual(Get(entries[i], "agent_id"), AgentOf(entries))
  }

  /** The first k records continue the chain, and nothing was reordered. */
  predicate LinkedUpTo(h: HashFn, req: Request, k: nat) {
    var entries := req.Entries();
    && Uniform(entries) && req.fromSeq >= 1 && k <= |entries|
    && OrderCheck(SeqNos(entries), req.fromSeq).Pass?
    && forall i | 0 <= i < k ::
         LinkOf(h, entries[i], AgentOf(entries), req.fromSeq, req.fromSeq + i, PrevHead(entries, i)).Pass?
  }

  /** The records form a chain. */
  predicate Linked(h: HashFn, req: Request) {
    LinkedUpTo(h, req, |req.Entries()|)
  }

  /** The record has no canonical bytes: its agent_id or one of its counters lies outside the profile. */
  predicate Unhashable(e: Json, agentId: Json)
    requires WellShaped(e)
  {
    || !InProfile(agentId) || SeqNo(e) > MAX_SAFE
    || (Get(e, "agent_seq").Int? && Get(e, "agent_seq").n > MAX_SAFE)
  }

  /** The chain reaches record k, which is in its place and complete but has no canonical bytes. */
  predicate RecordRaises(h: HashFn, req: Request, k: nat) {
    var entries := req.Entries();
    && k < |entries| && LinkedUpTo(h, req, k)
    && SeqNo(entries[k]) == req.fromSeq + k && PresentedPreimage(entries[k], AgentOf(entries)).Ok?
    && Unhashable(entries[k], AgentOf(entries))
  }

  /** The anchor is compared with its root, and has no canonical bytes. */
  predicate AnchorRaises(h: HashFn, req: Request) {
    var a := req.anchor;
    && Linked(h, req)
    && a.Obj? && Get(a, "v") == Str(CHECKPOINT_V) && IsHexJson(Get(a, "head")) && Get(a, "seq").Int?
    && PyEqual(Get(a, "agent_id"), AgentOf(req.Entries())) && req.anchorProof.Some? && req.anchorRoot.Some?
    && !InProfile(a)
  }

  /** A window of two or more records that all carry a counter, the first one null. */
  predicate CounterRaises(h: HashFn, req: Request) {
    var entries := req.Entries();
    && Linked(h, req) && AnchorCheck(h, req, AgentOf(entries)).Pass?
    && |entries| >= 2 && req.fromSeq > 1
    && (forall i | 0 <= i < |entries| :: Has(entries[i], "agent_seq"))
    && Get(entries[0], "agent_seq") == Null
  }

  /** The checkpoint is compared with its root, and has no canonical bytes. */
  predicate CheckpointRaises(h: HashFn, req: Request) {
    Continuity(h, req).Pass? && CheckpointRead(req) && !InProfile(req.checkpoint)
  }

  predicate CheckpointRead(req: Request) {
    var c := req.checkpoint;
    && c.Obj? && Get(c, "v") == Str(CHECKPOINT_V) && IsHexJson(Get(c, "head")) && AsInt(Get(c, "seq")).Some?
    && PyEqual(Get(c, "agent_id"), AgentOf(req.Entries())) && req.proof.Some? && req.root.Some?
  }

  /** The checkpoint is proven in the root. */
  predicate CheckpointProven(h: HashFn, req: Request) {
    Continuity(h, req).Pass? && CheckpointRead(req) && ProvenIn(h, req.checkpoint, req.proof, req.root) == Ok(true)
  }

  /** Its age is asked for, and one of the two times cannot be read. */
  predicate AgeRaises(h: HashFn, iso: IsoParser, req: Request, x: Exception) {
    && CheckpointProven(h, req) && req.maxAgeSeconds.Some? && req.now.Some?
    && if ParseTs(iso, Str(req.now.value)).Raise? then x == ValueError
       else if !Has(req.checkpoint, "period_end") then x == KeyError
       else ParseTs(iso, Get(req.checkpoint, "period_end")).Raise? && x == ValueError
  }

  /** Its age is not asked for, its head is presented, and it names no period. */
  predicate EndRaises(h: HashFn, req: Request) {
    && CheckpointProven(h, req) && (req.maxAgeSeconds.None? || req.now.None?)
    && !Has(req.checkpoint, "period_end")
    && var k := AsInt(Get(req.checkpoint, "seq")).value - req.fromSeq;
       && 0 <= k < |req.Entries()| && req.Entries()[k].Obj?
       && Get(req.Entries()[k], "head") == Get(req.checkpoint, "head")
  }

  ghost predicate ContinuityBecause(h: HashFn, req: Request, x: Exception) {
    || (x == ValueError && Uniform(req.Entries()) && req.fromSeq < 1)
    || (x == ValueError && exists k: nat :: RecordRaises(h, req, k))
    || (x == ValueError && AnchorRaises(h, req))
    || (x == TypeError && CounterRaises(h, req))
  }

  /** The seven situations, each with its exception. */
  ghost predicate RaisesBecause(h: HashFn, iso: IsoParser, req: Request, x: Exception) {
    || ContinuityBecause(h, req, x)
    || (x == ValueError && CheckpointRaises(h, req))
    || AgeRaises(h, iso, req, x)
    || (x == KeyError && EndRaises(h, req))
  }

  // ------------------------------------------------------------------ one stage at a time

  lemma Sha256Defined(h: HashFn, v: Json)
    ensures Sha256Jcs(h, v).Ok? <==> InProfile(v)
    ensures Sha256Jcs(h, v).Raise? ==> Sha256Jcs(h, v) == Raise(ValueError)
  {
    hide JcsDumps, InProfile;
    JcsDumpsDefined(v);
  }

  lemma PreimageProfile(agentId: Json, seqNo: int, actionRef: Json, prevHead: Json, agentSeq: Json)
    requires EntryPreimage(agentId, seqNo, actionRef, prevHead, agentSeq).Ok?
    ensures InProfile(EntryPreimage(agentId, seqNo, actionRef, prevHead, agentSeq).value)
            <==> InProfile(agentId) && seqNo <= MAX_SAFE && (agentSeq.Int? ==> agentSeq.n <= MAX_SAFE)
  {
    hide IsHex64;
    var four := [Field("v", Str(ENTRY_V)), Field("agent_id", agentId), Field("seq", Int(seqNo)),
                 Field("action_ref", actionRef)];
    ProfileAppend(four + Optional("prev_head", prevHead), Optional("agent_seq", agentSeq));
    ProfileAppend(four, Optional("prev_head", prevHead));
    ProfileFour(four[0], four[1], four[2], four[3]);
    ProfileOptional("prev_head", prevHead);
    ProfileOptional("agent_seq", agentSeq);
  }

  lemma ProfileAppend(a: seq<Field>, b: seq<Field>)
    ensures InProfile(Obj(a + b)) <==> InProfile(Obj(a)) && InProfile(Obj(b))
  {
    if InProfile(Obj(a + b)) {
      forall i | 0 <= i < |a| ensures InProfile(a[i].val) {
        assert (a + b)[i] == a[i];
      }
      forall i | 0 <= i < |b| ensures InProfile(b[i].val) {
        assert (a + b)[|a| + i] == b[i];
      }
    }
  }

  lemma ProfileFour(a: Field, b: Field, c: Field, d: Field)
    ensures InProfile(Obj([a, b, c, d])) <==> InProfile(a.val) && InProfile(b.val) && InProfile(c.val) && InProfile(d.val)
  {
    var fields := [a, b, c, d];
    assert InProfile(Obj(fields)) ==> InProfile(fields[0].val) && InProfile(fields[1].val) && InProfile(fields[2].val)
                                      && InProfile(fields[3].val);
  }

  lemma ProfileOptional(key: string, v: Json)
    ensures InProfile(Obj(Optional(key, v))) <==> InProfile(v)
  {
    if v != Null {
      assert InProfile(Obj([Field(key, v)])) ==> InProfile([Field(key, v)][0].val);
    }
  }

  lemma UnhashableExactly(h: HashFn, e: Json, agentId: Json)
    requires WellShaped(e) && PresentedPreimage(e, agentId).Ok?
    ensures Sha256Jcs(h, PresentedPreimage(e, agentId).value).Raise? <==> Unhashable(e, agentId)
    ensures Unhashable(e, agentId) ==> Sha256Jcs(h, PresentedPreimage(e, agentId).value) == Raise(ValueError)
  {
    hide InProfile, EntryPreimage, Sha256Jcs, Get, IsHex64;
    Sha256Defined(h, PresentedPreimage(e, agentId).value);
    PreimageProfile(agentId, SeqNo(e), Get(e, "action_ref"), Get(e, "prev_head"), Get(e, "agent_seq"));
  }

  /** A record raises exactly when it is in its place, complete, and has no canonical bytes. */
  lemma LinkRaises(h: HashFn, e: Json, agentId: Json, fromSeq: int, expected: int, prevHead: Json, x: Exception)
    requires WellShaped(e)
    ensures LinkOf(h, e, agentId, fromSeq, expected, prevHead) == Stop(Raise(x))
            <==> x == ValueError && SeqNo(e) == expected && PresentedPreimage(e, agentId).Ok? && Unhashable(e, agentId)
  {
    hide PresentedPreimage, Unhashable, Sha256Jcs, Get, IsHex64, SeqNo;
    if PresentedPreimage(e, agentId).Ok? {
      UnhashableExactly(h, e, agentId);
    }
  }

  lemma {:induction false} ShapeExactly(entries: seq<Json>, agentId: Json, k: nat)
    requires k <= |entries|
    ensures Shape(entries, agentId, k).Pass?
            <==> forall i | k <= i < |entries| :: WellShaped(entries[i]) && PyEqual(Get(entries[i], "agent_id"), agentId)
    ensures Shape(entries, agentId, k).Stop? ==> Shape(entries, agentId, k).result.Ok?
    decreases |entries| - k
  {
    hide PyEqual, IsHex64, Get;
    if k < |entries| {
      ShapeExactly(entries, agentId, k + 1);
    }
  }

  predicate LinkPasses(h: HashFn, entries: seq<Json>, agentId: Json, fromSeq: int, i: nat)
    requires i < |entries| && AllShaped(entries)
  {
    LinkOf(h, entries[i], agentId, fromSeq, fromSeq + i, PrevHead(entries, i)).Pass?
  }

  /** The chain stops with what the first record that does not pass gives. */
  lemma {:induction false} ChainStops(h: HashFn, entries: seq<Json>, agentId: Json, fromSeq: int, k: nat)
    returns (j: nat)
    requires k <= |entries| && AllShaped(entries)
    ensures k <= j <= |entries| && forall i | k <= i < j :: LinkPasses(h, entries, agentId, fromSeq, i)
    ensures Chain(h, entries, agentId, fromSeq, k)
            == if j == |entries| then Pass
               else LinkOf(h, entries[j], agentId, fromSeq, fromSeq + j, PrevHead(entries, j))
    ensures j < |entries| ==> !LinkPasses(h, entries, agentId, fromSeq, j)
    decreases |entries| - k
  {
    hide LinkOf, AllShaped;
    if k == |entries| {
      j := k;
    } else {
      ChainAt(h, entries, agentId, fromSeq, k);
      if LinkPasses(h, entries, agentId, fromSeq, k) {
        j := ChainStops(h, entries, agentId, fromSeq, k + 1);
      } else {
        j := k;
      }
    }
  }

  lemma {:induction false} CountersRaise(entries: seq<Json>, k: nat, x: Exception)
    requires k < |entries| && AllShaped(entries)
    ensures Counters(entries, k) == Stop(Raise(x))
            <==> x == TypeError && k + 1 < |entries| && AsInt(Get(entries[k], "agent_seq")).None?
    decreases |entries| - k
  {
    hide Get, WellShaped;
    if k + 1 < |entries| {
      CountersRaise(entries, k + 1, x);
    }
  }

  /** The counters raise exactly in a window of two or more records whose first counter is not a number. */
  lemma CounterCheckRaises(entries: seq<Json>, fromSeq: int, x: Exception)
    requires entries != [] && AllShaped(entries)
    ensures CounterCheck(entries, fromSeq) == Stop(Raise(x))
            <==> && x == TypeError && |entries| >= 2 && fromSeq != 1
                 && (forall i | 0 <= i < |entries| :: Has(entries[i], "agent_seq"))
                 && AsInt(Get(entries[0], "agent_seq")).None?
  {
    hide Get, WellShaped, Has, Counters;
    CountersRaise(entries, 0, x);
  }

  lemma ProvenRaises(h: HashFn, cp: Json, proof: Option<seq<string>>, root: Option<string>, x: Exception)
    ensures ProvenIn(h, cp, proof, root) == Raise(x)
            <==> x == ValueError && proof.Some? && root.Some? && !InProfile(cp)
  {
    hide InProfile, Sha256Jcs, Included;
    Sha256Defined(h, cp);
  }

  lemma AnchorCheckRaises(h: HashFn, req: Request, x: Exception)
    requires Linked(h, req)
    ensures AnchorCheck(h, req, AgentOf(req.Entries())) == Stop(Raise(x)) <==> x == ValueError && AnchorRaises(h, req)
  {
    hide InProfile, ProvenIn, Get, WellShaped, PyEqual, IsHex64, AgentOf, OrderCheck, LinkOf;
    ProvenRaises(h, req.anchor, req.anchorProof, req.anchorRoot, x);
  }

  /** The first counter of a chain is null or a number. */
  lemma LinkedCounter(h: HashFn, req: Request)
    requires Linked(h, req)
    ensures var e := req.Entries()[0]; AsInt(Get(e, "agent_seq")).None? <==> Get(e, "agent_seq") == Null
  {
    hide InProfile, Get, WellShaped, PyEqual, IsHex64, AgentOf, OrderCheck, Sha256Jcs;
    assert LinkPasses(h, req.Entries(), AgentOf(req.Entries()), req.fromSeq, 0);
  }

  // ------------------------------------------------------------------ checks 1 to 3

  lemma NotUniformAnswers(h: HashFn, req: Request)
    requires !Uniform(req.Entries())
    ensures Continuity(h, req).Stop? && Continuity(h, req).result.Ok?
  {
    hide WellShaped, PyEqual, OrderCheck, Chain, AnchorCheck, CounterCheck;
    ShapeExactly(req.Entries(), AgentOf(req.Entries()), 0);
  }

  lemma UniformContinues(h: HashFn, req: Request)
    requires Uniform(req.Entries())
    ensures var entries, agentId := req.Entries(), AgentOf(req.Entries());
            Continuity(h, req)
            == if req.fromSeq < 1 then Stop(Raise(ValueError))
               else if OrderCheck(SeqNos(entries), req.fromSeq).Stop? then OrderCheck(SeqNos(entries), req.fromSeq)
               else if Chain(h, entries, agentId, req.fromSeq, 0).Stop? then Chain(h, entries, agentId, req.fromSeq, 0)
               else if AnchorCheck(h, req, agentId).Stop? then AnchorCheck(h, req, agentId)
               else CounterCheck(entries, req.fromSeq)
  {
    hide WellShaped, PyEqual, OrderCheck, Chain, AnchorCheck, CounterCheck, Shape;
    ShapeExactly(req.Entries(), AgentOf(req.Entries()), 0);
  }

  /** The record at which the chain stops, if it stops. */
  lemma ChainReaches(h: HashFn, req: Request) returns (j: nat)
    requires LinkedUpTo(h, req, 0)
    ensures LinkedUpTo(h, req, j) && forall k: nat :: LinkedUpTo(h, req, k) ==> k <= j
    ensures var entries, agentId := req.Entries(), AgentOf(req.Entries());
            && Chain(h, entries, agentId, req.fromSeq, 0)
               == (if j == |entries| then Pass
                   else LinkOf(h, entries[j], agentId, req.fromSeq, req.fromSeq + j, PrevHead(entries, j)))
            && (j < |entries| ==> Chain(h, entries, agentId, req.fromSeq, 0).Stop?)
  {
    hide LinkOf, Chain, OrderCheck, AgentOf, WellShaped, PyEqual, Get, PrevHead;
    j := ChainStops(h, req.Entries(), AgentOf(req.Entries()), req.fromSeq, 0);
    forall i | 0 <= i < j
      ensures LinkOf(h, req.Entries()[i], AgentOf(req.Entries()), req.fromSeq, req.fromSeq + i,
                     PrevHead(req.Entries(), i)).Pass?
    {
      assert LinkPasses(h, req.Entries(), AgentOf(req.Entries()), req.fromSeq, i);
    }
  }

  /** The step of record k, in the vocabulary of the situations. */
  lemma RecordStep(h: HashFn, req: Request, k: nat)
    requires LinkedUpTo(h, req, k) && k < |req.Entries()|
    ensures var step := LinkOf(h, req.Entries()[k], AgentOf(req.Entries()), req.fromSeq, req.fromSeq + k,
                               PrevHead(req.Entries(), k));
            && (RecordRaises(h, req, k) <==> step == Stop(Raise(ValueError)))
            && (forall x :: step == Stop(Raise(x)) ==> x == ValueError)
            && (LinkedUpTo(h, req, k + 1) ==> step.Pass?)
  {
    hide LinkOf, OrderCheck, AgentOf, WellShaped, PyEqual, Get, PrevHead, SeqNo, Unhashable, PresentedPreimage;
    forall x {
      LinkRaises(h, req.Entries()[k], AgentOf(req.Entries()), req.fromSeq, req.fromSeq + k, PrevHead(req.Entries(), k), x);
    }
  }

  lemma LinkedDown(h: HashFn, req: Request, j: nat, k: nat)
    requires LinkedUpTo(h, req, j) && k <= j
    ensures LinkedUpTo(h, req, k)
  {
    hide LinkOf, OrderCheck, AgentOf, WellShaped, PyEqual, Get, PrevHead, SeqNo, Uniform;
  }

  /** At most the record at which the chain stops can raise. */
  lemma OnlyLastRaises(h: HashFn, req: Request, j: nat)
    requires LinkedUpTo(h, req, j) && forall k: nat :: LinkedUpTo(h, req, k) ==> k <= j
    ensures forall k: nat :: RecordRaises(h, req, k) ==> k == j
  {
    forall k: nat | RecordRaises(h, req, k) ensures k == j {
      hide LinkOf, LinkedUpTo, AllShaped, AgentOf;
      assert LinkedUpTo(h, req, k) && k <= j;
      if k < j {
        LinkedDown(h, req, j, k + 1);
        LinkedDown(h, req, j, k);
        RecordStep(h, req, k);
      }
    }
  }

  lemma OrderAnswers(seqs: seq<int>, fromSeq: int)
    ensures OrderCheck(seqs, fromSeq).Stop? ==> OrderCheck(seqs, fromSeq).result.Ok?
  {}

  lemma LinkedParts(h: HashFn, req: Request, k: nat)
    requires LinkedUpTo(h, req, k)
    ensures Uniform(req.Entries()) && AllShaped(req.Entries()) && req.fromSeq >= 1 && k <= |req.Entries()|
    ensures req.Entries() != [] && OrderCheck(SeqNos(req.Entries()), req.fromSeq).Pass? && LinkedUpTo(h, req, 0)
  {
    hide LinkOf, OrderCheck, AgentOf, WellShaped, PyEqual, Get, PrevHead, SeqNo;
  }

  /** What must have passed before each of these situations. */
  lemma RaisesAfter(h: HashFn, req: Request)
    ensures AnchorRaises(h, req) || CounterRaises(h, req) ==> Linked(h, req)
    ensures forall k: nat :: RecordRaises(h, req, k) ==> k < |req.Entries()| && LinkedUpTo(h, req, k)
  {
    hide Linked, AllShaped, AgentOf, AnchorCheck, OrderCheck;
  }

  lemma RecordsFirst(h: HashFn, req: Request)
    ensures (exists k: nat :: RecordRaises(h, req, k)) || AnchorRaises(h, req) || CounterRaises(h, req)
            ==> LinkedUpTo(h, req, 0)
  {
    hide LinkedUpTo, RecordRaises, AnchorRaises, CounterRaises;
    RaisesAfter(h, req);
    forall k: nat | LinkedUpTo(h, req, k) ensures LinkedUpTo(h, req, 0) {
      LinkedParts(h, req, k);
    }
  }

  lemma ContinuityRaises(h: HashFn, req: Request, x: Exception)
    ensures Continuity(h, req) == Stop(Raise(x)) <==> ContinuityBecause(h, req, x)
  {
    hide Continuity, AnchorCheck, CounterCheck, Chain, AgentOf, LinkOf, SeqNos, RecordRaises, AnchorRaises,
         CounterRaises,
         AllShaped, WellShaped, PyEqual, OrderCheck;
    RecordsFirst(h, req);
    if !Uniform(req.Entries()) {
      NotUniformAnswers(h, req);
    } else {
      UniformContinues(h, req);
      if req.fromSeq >= 1 {
        OrderAnswers(SeqNos(req.Entries()), req.fromSeq);
        if OrderCheck(SeqNos(req.Entries()), req.fromSeq).Pass? {
          ChainDecidesRaise(h, req, x);
        }
      }
    }
  }

  lemma ChainDecidesRaise(h: HashFn, req: Request, x: Exception)
    requires LinkedUpTo(h, req, 0)
    ensures Continuity(h, req) == Stop(Raise(x)) <==> ContinuityBecause(h, req, x)
  {
    hide Continuity, AnchorCheck, CounterCheck, Chain, AgentOf, LinkOf, SeqNos, RecordRaises, LinkedUpTo, AllShaped,
         WellShaped, PyEqual, OrderCheck, Uniform, Get, Has;
    LinkedParts(h, req, 0);
    UniformContinues(h, req);
    var j := ChainReaches(h, req);
    OnlyLastRaises(h, req, j);
    LinkedParts(h, req, j);
    RaisesAfter(h, req);
    if j < |req.Entries()| {
      RecordStep(h, req, j);
      assert !Linked(h, req);
    } else {
      assert Linked(h, req);
      LinkedDecides(h, req, x);
    }
  }

  lemma LinkedDecides(h: HashFn, req: Request, x: Exception)
    requires Linked(h, req) && req.Entries() != [] && AllShaped(req.Entries())
    ensures var anchor, counters := AnchorCheck(h, req, AgentOf(req.Entries())), CounterCheck(req.Entries(), req.fromSeq);
            (if anchor.Stop? then anchor else counters) == Stop(Raise(x))
            <==> (x == ValueError && AnchorRaises(h, req)) || (x == TypeError && CounterRaises(h, req))
  {
    hide AnchorCheck, CounterCheck, AgentOf, LinkedUpTo, AllShaped, WellShaped, PyEqual, Get, Has, AnchorRaises;
    LinkedParts(h, req, |req.Entries()|);
    AnchorCheckRaises(h, req, x);
    AnchorCheckRaises(h, req, ValueError);
    CounterCheckRaises(req.Entries(), req.fromSeq, x);
    LinkedCounter(h, req);
  }

  // ------------------------------------------------------------------ the checkpoint

  lemma AgeCheckRaises(iso: IsoParser, req: Request, x: Exception)
    requires req.checkpoint.Obj?
    ensures AgeCheck(iso, req) == Stop(Raise(x))
            <==> && req.maxAgeSeconds.Some? && req.now.Some?
                 && if ParseTs(iso, Str(req.now.value)).Raise? then x == ValueError
                    else if !Has(req.checkpoint, "period_end") then x == KeyError
                    else ParseTs(iso, Get(req.checkpoint, "period_end")).Raise? && x == ValueError
  {
    hide Has, Get;
  }

  lemma CheckpointCheckRaises(h: HashFn, iso: IsoParser, req: Request, x: Exception)
    requires Continuity(h, req).Pass?
    ensures CheckpointCheck(h, iso, req, AgentOf(req.Entries())) == Stop(Raise(x))
            <==> (x == ValueError && CheckpointRaises(h, req)) || AgeRaises(h, iso, req, x)
  {
    hide Continuity, Sha256Jcs, Included, InProfile, Get, Has, PyEqual, IsHex64, ParseTs, AgeCheck, AgentOf;
    ProvenRaises(h, req.checkpoint, req.proof, req.root, x);
    ProvenRaises(h, req.checkpoint, req.proof, req.root, ValueError);
    if req.checkpoint.Obj? {
      AgeCheckRaises(iso, req, x);
    }
  }

  lemma CheckpointPasses(h: HashFn, iso: IsoParser, req: Request)
    requires Continuity(h, req).Pass? && CheckpointCheck(h, iso, req, AgentOf(req.Entries())).Pass?
    ensures CheckpointProven(h, req) && AgeCheck(iso, req).Pass?
  {
    hide Continuity, Sha256Jcs, Included, InProfile, Get, Has, PyEqual, IsHex64, ParseTs, AgeCheck, AgentOf;
  }

  lemma AgePasses(iso: IsoParser, req: Request)
    requires req.checkpoint.Obj? && AgeCheck(iso, req).Pass?
    ensures req.maxAgeSeconds.None? || req.now.None? || Has(req.checkpoint, "period_end")
  {
    hide Get, Has, ParseTs;
  }

  lemma EndCheckRaises(h: HashFn, iso: IsoParser, req: Request, x: Exception)
    requires Continuity(h, req).Pass? && req.Entries() != [] && AllShaped(req.Entries())
    requires CheckpointCheck(h, iso, req, AgentOf(req.Entries())).Pass?
    requires req.checkpoint.Obj? && AsInt(Get(req.checkpoint, "seq")).Some?
    ensures AgainstCheckpoint(req, req.fromSeq + |req.Entries()| - 1) == Raise(x) <==> x == KeyError && EndRaises(h, req)
  {
    hide Continuity, CheckpointCheck, AgeCheck, CheckpointRead, ProvenIn, Get, Has, AgentOf;
    CheckpointPasses(h, iso, req);
    AgePasses(iso, req);
  }

  lemma LaterSituations(h: HashFn, iso: IsoParser, req: Request, x: Exception)
    ensures CheckpointRaises(h, req) || AgeRaises(h, iso, req, x) || EndRaises(h, req)
            ==> Continuity(h, req).Pass? && req.checkpoint.Obj?
    ensures EndRaises(h, req) ==> CheckpointCheck(h, iso, req, AgentOf(req.Entries())).Pass?
  {
    hide Continuity, Sha256Jcs, Included, InProfile, Get, Has, PyEqual, IsHex64, ParseTs, AgentOf;
  }

  lemma PassedCheckpoint(h: HashFn, iso: IsoParser, req: Request, agentId: Json)
    requires CheckpointCheck(h, iso, req, agentId).Pass?
    ensures req.checkpoint.Obj? && AsInt(Get(req.checkpoint, "seq")).Some?
  {
    hide Continuity, ProvenIn, Get, PyEqual, IsHex64, AgeCheck;
  }

  lemma CompletedRaises(h: HashFn, iso: IsoParser, req: Request, x: Exception)
    requires Continuity(h, req).Pass? && req.Entries() != [] && AllShaped(req.Entries())
    ensures Completed(h, iso, req) == Raise(x)
            <==> (x == ValueError && CheckpointRaises(h, req)) || AgeRaises(h, iso, req, x)
                 || (x == KeyError && EndRaises(h, req))
  {
    hide Continuity, CheckpointCheck, AgainstCheckpoint, CheckpointRaises, AgeRaises, EndRaises, AgentOf, AllShaped,
         Get,
         AsInt;
    LaterSituations(h, iso, req, x);
    CheckpointCheckRaises(h, iso, req, x);
    if CheckpointCheck(h, iso, req, AgentOf(req.Entries())).Pass? {
      PassedCheckpoint(h, iso, req, AgentOf(req.Entries()));
      EndCheckRaises(h, iso, req, x);
    }
  }

  // ------------------------------------------------------------------ main results

  /** verify_trail raises x exactly in the situations of x; in every other case it gives a report. */
  lemma RaisesExactly(h: HashFn, iso: IsoParser, req: Request, x: Exception)
    ensures VerifyTrail(h, iso, req) == Raise(x) <==> RaisesBecause(h, iso, req, x)
  {
    hide Continuity, Completed, ContinuityBecause, CheckpointRaises, AgeRaises, EndRaises, AllShaped;
    ContinuityRaises(h, req, x);
    LaterSituations(h, iso, req, x);
    if Continuity(h, req).Pass? {
      ContinuityPasses(h, req);
      CompletedRaises(h, iso, req, x);
    }
  }

  /** A full log never gives a TypeError, nor does a window whose first counter is absent or a number. */
  lemma TypeErrorOnlyInWindows(h: HashFn, iso: IsoParser, req: Request)
    requires VerifyTrail(h, iso, req) == Raise(TypeError)
    ensures req.fromSeq > 1 && |req.Entries()| >= 2 && req.Entries()[0].Obj?
    ensures Has(req.Entries()[0], "agent_seq") && Get(req.Entries()[0], "agent_seq") == Null
  {
    hide VerifyTrail, LinkedUpTo, AnchorCheck, CheckpointProven, Get, Has, AgentOf, WellShaped;
    RaisesExactly(h, iso, req, TypeError);
    LinkedParts(h, req, |req.Entries()|);
    FirstShaped(req.Entries());
  }

  // ------------------------------------------------------------------ a family that raises

  /** The record with a null counter. */
  function NullCounter(e: Json): Json
    requires e.Obj?
  {
    Obj(e.fields + [Field("agent_seq", Null)])
  }

  /** Records of the log from position off on, each with a null counter. */
  function NullCounters(log: seq<Entry>, off: nat, n: nat): (r: seq<Json>)
    requires off + n <= |log|
    ensures |r| == n && forall i | 0 <= i < n :: r[i] == NullCounter(EntryJson(log[off + i]))
  {
    if n == 0 then [] else NullCounters(log, off, n - 1) + [NullCounter(EntryJson(log[off + n - 1]))]
  }

  lemma NullCounterItem(x: Entry, key: string)
    requires x.agentSeq.None?
    ensures Get(NullCounter(EntryJson(x)), key) == Get(EntryJson(x), key)
    ensures Has(NullCounter(EntryJson(x)), "agent_seq")
  {
    hide EntryJson;
    EntryIsDict(x);
    var fields := EntryJson(x).fields;
    EntryLookup(x, "agent_seq");
    KeysDiffer();
    LookupAppend(fields, [Field("agent_seq", Null)], key);
    LookupAppend(fields, [Field("agent_seq", Null)], "agent_seq");
    LookupOne("agent_seq", key);
    LookupOne("agent_seq", "agent_seq");
  }

  lemma LookupOne(name: string, key: string)
    ensures Lookup([Field(name, Null)], key) == if name == key then Some(Null) else None
  {
    assert [Field(name, Null)][1..] == [];
  }

  predicate SameItems(e: Json, d: Json) {
    && e.Obj? && d.Obj?
    && Get(e, "agent_id") == Get(d, "agent_id") && Get(e, "seq") == Get(d, "seq")
    && Get(e, "action_ref") == Get(d, "action_ref") && Get(e, "prev_head") == Get(d, "prev_head")
    && Get(e, "agent_seq") == Get(d, "agent_seq") && Get(e, "head") == Get(d, "head")
  }

  ghost predicate SameItemsAll(es: seq<Json>, ds: seq<Json>) {
    |es| == |ds| && forall i | 0 <= i < |es| :: SameItems(es[i], ds[i])
  }

  lemma SameItemsSameSteps(h: HashFn, e: Json, d: Json, agentId: Json, fromSeq: int, expected: int, prevHead: Json)
    requires SameItems(e, d) && WellShaped(e)
    ensures WellShaped(d) && SeqNo(e) == SeqNo(d) && ShapeOf(e, agentId) == ShapeOf(d, agentId)
    ensures LinkOf(h, e, agentId, fromSeq, expected, prevHead) == LinkOf(h, d, agentId, fromSeq, expected, prevHead)
  {
    hide Get, IsHex64, PyEqual, EntryPreimage, Sha256Jcs;
  }

  lemma SameItemsShaped(h: HashFn, es: seq<Json>, ds: seq<Json>, agentId: Json)
    requires SameItemsAll(es, ds) && AllShaped(es) && Shape(es, agentId, 0).Pass? && AgentOf(es) == agentId && es != []
    ensures AllShaped(ds) && Shape(ds, agentId, 0).Pass? && AgentOf(ds) == agentId && SeqNos(es) == SeqNos(ds)
  {
    hide Get, PyEqual, SameItems, IsHex64, ShapeOf, LinkOf;
    forall i | 0 <= i < |ds| ensures WellShaped(ds[i]) && SeqNo(es[i]) == SeqNo(ds[i]) {
      assert SameItems(es[i], ds[i]) && WellShaped(es[i]);
      SameItemsSameSteps(h, es[i], ds[i], agentId, 1, 1, Null);
    }
    ShapeExactly(es, agentId, 0);
    forall i | 0 <= i < |ds| ensures PyEqual(Get(ds[i], "agent_id"), agentId) {
      SameAgent(es[i], ds[i]);
    }
    ShapeExactly(ds, agentId, 0);
    SameAgent(es[0], ds[0]);
  }

  lemma SameAgent(e: Json, d: Json)
    requires SameItems(e, d)
    ensures e.Obj? && d.Obj? && Get(e, "agent_id") == Get(d, "agent_id") && Get(e, "head") == Get(d, "head")
  {
    hide Get;
  }

  lemma {:induction false} SameItemsChain(h: HashFn, es: seq<Json>, ds: seq<Json>, agentId: Json, fromSeq: int, k: nat)
    requires SameItemsAll(es, ds) && AllShaped(es) && AllShaped(ds) && k <= |es|
    ensures Chain(h, es, agentId, fromSeq, k) == Chain(h, ds, agentId, fromSeq, k)
    decreases |es| - k
  {
    hide Chain, LinkOf, SameItems, AllShaped, Get, WellShaped;
    if k == |es| {
      ChainEnd(h, es, agentId, fromSeq);
      ChainEnd(h, ds, agentId, fromSeq);
    } else {
      ChainAt(h, es, agentId, fromSeq, k);
      ChainAt(h, ds, agentId, fromSeq, k);
      SameItemsChain(h, es, ds, agentId, fromSeq, k + 1);
      SameLinkAt(h, es, ds, agentId, fromSeq, k);
    }
  }

  lemma SameLinkAt(h: HashFn, es: seq<Json>, ds: seq<Json>, agentId: Json, fromSeq: int, k: nat)
    requires SameItemsAll(es, ds) && AllShaped(es) && AllShaped(ds) && k < |es|
    ensures LinkOf(h, es[k], agentId, fromSeq, fromSeq + k, PrevHead(es, k))
            == LinkOf(h, ds[k], agentId, fromSeq, fromSeq + k, PrevHead(ds, k))
  {
    hide LinkOf, SameItems, Get, WellShaped;
    if k > 0 {
      SameAgent(es[k - 1], ds[k - 1]);
    }
    SameItemsSameSteps(h, es[k], ds[k], agentId, fromSeq, fromSeq + k, PrevHead(es, k));
  }

  lemma NullCountersSame(log: seq<Entry>, off: nat, n: nat)
    requires off + n <= |log| && forall i | 0 <= i < |log| :: log[i].agentSeq.None?
    ensures SameItemsAll(Select(log, Consecutive(off, n)), NullCounters(log, off, n))
    ensures forall i | 0 <= i < n ::
              var e := NullCounters(log, off, n)[i];
              e.Obj? && Has(e, "agent_seq") && Get(e, "agent_seq") == Null
  {
    hide Get, Has, EntryJson, Select, Consecutive, NullCounters, NullCounter;
    var es, ds := Select(log, Consecutive(off, n)), NullCounters(log, off, n);
    forall i | 0 <= i < n
      ensures SameItems(es[i], ds[i]) && ds[i].Obj? && Has(ds[i], "agent_seq") && Get(ds[i], "agent_seq") == Null
    {
      assert Consecutive(off, n)[i] == off + i;
      NullCounterSame(log[off + i]);
    }
  }

  lemma NullCounterSame(x: Entry)
    requires x.agentSeq.None?
    ensures EntryJson(x).Obj?
    ensures var d := NullCounter(EntryJson(x));
            SameItems(EntryJson(x), d) && d.Obj? && Has(d, "agent_seq") && Get(d, "agent_seq") == Null
  {
    hide EntryJson, Get, Has;
    EntryIsDict(x);
    NullCounterItem(x, "agent_id");
    NullCounterItem(x, "seq");
    NullCounterItem(x, "action_ref");
    NullCounterItem(x, "prev_head");
    NullCounterItem(x, "agent_seq");
    NullCounterItem(x, "head");
    EntryItems(x);
  }

  lemma NullCounterCheck(entries: seq<Json>, fromSeq: int)
    requires entries != [] && AllShaped(entries)
    requires forall i | 0 <= i < |entries| ::
               entries[i].Obj? && Has(entries[i], "agent_seq") && Get(entries[i], "agent_seq") == Null
    ensures CounterCheck(entries, fromSeq)
            == if fromSeq == 1 then Reject(AgentGap, AgentSeqNotContiguous, Some(1))
               else if |entries| == 1 then Pass else Stop(Raise(TypeError))
  {
    hide Has, Get, WellShaped;
    assert Has(entries[0], "agent_seq") && Get(entries[0], "agent_seq") == Null;
  }

  /**
   Honest records, each with a null agent_seq added: a full log is an agent gap, a window of two or
   more records a TypeError, whatever checkpoint comes with it.
   */
  lemma NullCountersRaise(h: HashFn, iso: IsoParser, req: Request, agentId: string, log: seq<Entry>, n: nat)
    requires HonestLog(h, agentId, log) && forall i | 0 <= i < |log| :: log[i].agentSeq.None?
    requires req.fromSeq >= 1 && 2 <= n && req.fromSeq - 1 + n <= |log| && req.anchor == Null
    requires req.Entries() == NullCounters(log, req.fromSeq - 1, n)
    ensures VerifyTrail(h, iso, req)
            == if req.fromSeq == 1 then Ok(FailedReport(AgentGap, AgentSeqNotContiguous, Some(1))) else Raise(TypeError)
  {
    hide HonestLog, Select, NullCounters, Continuity, CounterCheck, AllShaped, Chain, Shape, OrderCheck, SeqNos,
         AgentOf,
         Completed, SameItemsAll, WellShaped, Get, Has;
    var off: nat := req.fromSeq - 1;
    WindowChain(h, agentId, log, off, n);
    NullCountersSame(log, off, n);
    SameItemsShaped(h, Select(log, Consecutive(off, n)), req.Entries(), Str(agentId));
    SameItemsChain(h, Select(log, Consecutive(off, n)), req.Entries(), Str(agentId), req.fromSeq, 0);
    FirstShaped(req.Entries());
    ContinuityDecided(h, req, Str(agentId));
    NullCounterCheck(req.Entries(), req.fromSeq);
  }
}
