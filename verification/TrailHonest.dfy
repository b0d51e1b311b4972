/**
 Honest logs pass: what verify_trail answers to undamaged logs and windows, with or without an
 anchor, a checkpoint and a staleness bound.
 */
module TrailHonest {
  import opened Python
  import opened Bytes
  import opened Order
  import opened Jcs
  import opened Merkle
  import opened MerkleTheorems
  import opened TrailHead
  import opened TrailTheorems
  import opened TrailDamage

  /** The n positions from off on. */
  function Consecutive(off: nat, n: nat): (r: seq<nat>)
    ensures |r| == n && forall i | 0 <= i < n :: r[i] == off + i
  {
    if n == 0 then [] else Consecutive(off, n - 1) + [off + n - 1]
  }

  // ------------------------------------------------------------------ agent counters

  /** No entry carries an agent counter, or every entry carries its position. */
  predicate CountersFit(inputs: seq<Input>) {
    || (forall i | 0 <= i < |inputs| :: inputs[i].agentSeq == None)
    || (forall i | 0 <= i < |inputs| :: inputs[i].agentSeq == Some(i + 1))
  }

  predicate CountersOf(log: seq<Entry>) {
    || (forall i | 0 <= i < |log| :: log[i].agentSeq == None)
    || (forall i | 0 <= i < |log| :: log[i].agentSeq == Some(i + 1))
  }

  lemma LogCounters(h: HashFn, agentId: string, inputs: seq<Input>)
    requires LogOf(h, agentId, inputs).Ok? && CountersFit(inputs)
    ensures CountersOf(LogOf(h, agentId, inputs).value)
  {
    hide LogOf, HonestEntry;
    LogLength(h, agentId, inputs);
    var log := LogOf(h, agentId, inputs).value;
    forall i | 0 <= i < |log| ensures log[i].agentSeq == inputs[i].agentSeq {
      LogEntryHonest(h, agentId, inputs, i);
    }
  }

  lemma WindowRecord(log: seq<Entry>, off: nat, n: nat, i: nat)
    requires i < n && off + n <= |log|
    ensures var e, x := Select(log, Consecutive(off, n))[i], log[off + i];
            && e.Obj? && Get(e, "agent_seq") == OptInt(x.agentSeq) && (Has(e, "agent_seq") <==> x.agentSeq.Some?)
            && Get(e, "head") == Str(x.head) && Get(e, "prev_head") == OptStr(x.prevHead)
  {
    hide Get, Has, OptInt, OptStr, Select, Consecutive, EntryJson;
    var positions := Consecutive(off, n);
    assert positions[i] == off + i;
    EntryIsDict(log[off + i]);
    EntryItems(log[off + i]);
  }

  lemma EntryIsDict(x: Entry)
    ensures EntryJson(x).Obj?
  {
    hide Optional;
  }

  lemma {:induction false} CountersPass(log: seq<Entry>, off: nat, n: nat, k: nat)
    requires k < n && off + n <= |log| && AllShaped(Select(log, Consecutive(off, n)))
    requires forall i | 0 <= i < |log| :: log[i].agentSeq == Some(i + 1)
    ensures Counters(Select(log, Consecutive(off, n)), k).Pass?
    decreases n - k
  {
    hide WellShaped, Get, EntryJson, Select;
    WindowRecord(log, off, n, k);
    if k + 1 < n {
      WindowRecord(log, off, n, k + 1);
      CountersPass(log, off, n, k + 1);
    }
  }

  lemma CounterCheckPasses(log: seq<Entry>, off: nat, n: nat)
    requires 1 <= n && off + n <= |log| && AllShaped(Select(log, Consecutive(off, n))) && CountersOf(log)
    ensures CounterCheck(Select(log, Consecutive(off, n)), off + 1).Pass?
  {
    hide AllShaped, Select, Counters;
    var entries := Select(log, Consecutive(off, n));
    if forall i | 0 <= i < |log| :: log[i].agentSeq == None {
      forall i | 0 <= i < |entries| ensures entries[i].Obj? && !Has(entries[i], "agent_seq") {
        WindowRecord(log, off, n, i);
      }
      CounterAbsent(entries, off + 1);
    } else {
      forall i | 0 <= i < |entries| ensures entries[i].Obj? && Has(entries[i], "agent_seq") {
        WindowRecord(log, off, n, i);
      }
      CountersPass(log, off, n, 0);
      WindowRecord(log, off, n, 0);
      CounterPresent(entries, off + 1);
    }
  }

  lemma CounterAbsent(entries: seq<Json>, fromSeq: int)
    requires entries != [] && AllShaped(entries)
    requires forall i | 0 <= i < |entries| :: entries[i].Obj? && !Has(entries[i], "agent_seq")
    ensures CounterCheck(entries, fromSeq).Pass?
  {
    hide Has, Get, WellShaped;
  }

  lemma CounterPresent(entries: seq<Json>, fromSeq: int)
    requires entries != [] && AllShaped(entries)
    requires forall i | 0 <= i < |entries| :: entries[i].Obj? && Has(entries[i], "agent_seq")
    requires Get(entries[0], "agent_seq") == Int(fromSeq) && Counters(entries, 0).Pass?
    ensures CounterCheck(entries, fromSeq).Pass?
  {
    hide Has, Get, WellShaped;
  }

  // ------------------------------------------------------------------ continuity

  lemma WindowChain(h: HashFn, agentId: string, log: seq<Entry>, off: nat, n: nat)
    requires HonestLog(h, agentId, log) && 1 <= n && off + n <= |log|
    ensures var entries := Select(log, Consecutive(off, n));
            && Shape(entries, Str(agentId), 0).Pass? && AllShaped(entries) && AgentOf(entries) == Str(agentId)
            && OrderCheck(SeqNos(entries), off + 1).Pass?
            && Chain(h, entries, Str(agentId), off + 1, 0).Pass?
  {
    hide WellShaped, AllShaped, HonestLog, EntryJson, Shape, Chain, OrderCheck, Select, SeqNos, AgentOf;
    var positions := Consecutive(off, n);
    var entries := Select(log, positions);
    SelectionShaped(h, agentId, log, positions);
    AscendingPasses(SeqNos(entries), positions, off + 1);
    ChainUpTo(h, agentId, log, positions, off, n);
    ChainEnd(h, entries, Str(agentId), off + 1);
  }

  lemma ContinuityDecided(h: HashFn, req: Request, agentId: Json)
    requires req.Entries() != [] && req.fromSeq >= 1 && AgentOf(req.Entries()) == agentId
    requires Shape(req.Entries(), agentId, 0).Pass? && AllShaped(req.Entries())
    requires OrderCheck(SeqNos(req.Entries()), req.fromSeq).Pass?
    requires Chain(h, req.Entries(), agentId, req.fromSeq, 0).Pass?
    requires AnchorCheck(h, req, agentId).Pass?
    ensures Continuity(h, req) == CounterCheck(req.Entries(), req.fromSeq)
  {
    hide Shape, OrderCheck, Chain, AnchorCheck, CounterCheck, AgentOf, SeqNos;
  }

  lemma WindowContinuous(h: HashFn, agentId: string, log: seq<Entry>, off: nat, n: nat, req: Request)
    requires HonestLog(h, agentId, log) && CountersOf(log) && 1 <= n && off + n <= |log|
    requires req.Entries() == Select(log, Consecutive(off, n)) && req.fromSeq == off + 1
    requires WellShaped(req.Entries()[0]) && AnchorCheck(h, req, Str(agentId)).Pass?
    ensures Continuity(h, req).Pass? && AgentOf(req.Entries()) == Str(agentId) && AllShaped(req.Entries())
  {
    hide HonestLog, CountersOf, Select, Shape, OrderCheck, Chain, AnchorCheck, CounterCheck, AgentOf, SeqNos, AllShaped,
         Continuity, WellShaped;
    WindowChain(h, agentId, log, off, n);
    ContinuityDecided(h, req, Str(agentId));
    CounterCheckPasses(log, off, n);
  }

  // ------------------------------------------------------------------ sealed checkpoints are proven

  /** The proof get_proof extracts for a leaf that is the checkpoint's digest. */
  ghost predicate LeafProof(h: HashFn, seal: Seal, cp: Checkpoint, proof: Option<seq<string>>, idx: nat) {
    && idx < |seal.digests| && Sha256Jcs(h, CheckpointJson(cp)) == Ok(seal.digests[idx])
    && proof == Some(ProofFrom(seal.tree.levels, idx))
  }

  /** The checkpoint is in the period of this root and comes with a proof of it. */
  ghost predicate SealedWith(h: HashFn, cps: seq<Checkpoint>, cp: Checkpoint, proof: Option<seq<string>>,
                             root: Option<string>) {
    && SealPeriod(h, cps).Ok? && root == Some(SealPeriod(h, cps).value.root)
    && exists idx: nat :: LeafProof(h, SealPeriod(h, cps).value, cp, proof, idx)
  }

  lemma SealParts(h: HashFn, cps: seq<Checkpoint>)
    requires SealPeriod(h, cps).Ok?
    ensures var seal := SealPeriod(h, cps).value;
            && seal.digests != [] && (forall i | 0 <= i < |seal.digests| :: ValidRef(seal.digests[i]))
            && seal.root == RootOf(h, seal.digests) && seal.tree == TreeOfRefs(h, seal.digests)
  {
    hide Sha256Jcs, RootOf, TreeOfRefs;
  }

  /** Such a proof exists for every sealed checkpoint, and verify_inclusion accepts it. */
  lemma SealedCheckpointHasProof(h: HashFn, cps: seq<Checkpoint>, cp: Checkpoint) returns (proof: Option<seq<string>>)
    requires SealPeriod(h, cps).Ok? && cp in cps
    ensures SealedWith(h, cps, cp, proof, Some(SealPeriod(h, cps).value.root))
    ensures ProvenIn(h, CheckpointJson(cp), proof, Some(SealPeriod(h, cps).value.root)) == Ok(true)
  {
    hide CheckpointJson, ProofFrom, SealPeriod;
    var idx := SealedCheckpointHasLeaf(h, cps, cp);
    SealParts(h, cps);
    var seal := SealPeriod(h, cps).value;
    proof := Some(ProofFrom(seal.tree.levels, idx));
    assert LeafProof(h, seal, cp, proof, idx);
    SealedIsProven(h, cps, cp, proof, Some(seal.root));
  }

  /** Every checkpoint of the period has its leaf. */
  lemma SealedCheckpointHasLeaf(h: HashFn, cps: seq<Checkpoint>, cp: Checkpoint) returns (idx: nat)
    requires SealPeriod(h, cps).Ok? && cp in cps
    ensures idx < |SealPeriod(h, cps).value.digests|
    ensures Sha256Jcs(h, CheckpointJson(cp)) == Ok(SealPeriod(h, cps).value.digests[idx])
  {
    hide Sha256Jcs, CheckpointJson, RootOf, TreeOfRefs;
    var ordered := SortBy(cps, AgentKey);
    SameMembers(ordered, cps);
    idx :| 0 <= idx < |ordered| && ordered[idx] == cp;
    assert DigestAll(h, ordered).Ok?;
  }

  lemma SealedIsProven(h: HashFn, cps: seq<Checkpoint>, cp: Checkpoint, proof: Option<seq<string>>, root: Option<string>)
    requires SealedWith(h, cps, cp, proof, root)
    ensures ProvenIn(h, CheckpointJson(cp), proof, root) == Ok(true)
  {
    hide SealPeriod, Sha256Jcs, CheckpointJson, Included, ProofFrom, ValidRef, RootOf, TreeOfRefs;
    SealParts(h, cps);
    var seal := SealPeriod(h, cps).value;
    var idx: nat :| LeafProof(h, seal, cp, proof, idx);
    ProofAccepted(h, seal.digests, idx);
  }

  // ------------------------------------------------------------------ the anchor

  /** No anchor, or the sealed checkpoint of the record before the window. */
  ghost predicate HonestAnchor(h: HashFn, req: Request, agentId: string, log: seq<Entry>, off: nat,
                               anchor: Checkpoint, cps: seq<Checkpoint>) {
    || req.anchor == Null
    || (&& 1 <= off <= |log| && req.anchor == CheckpointJson(anchor)
        && anchor.agentId == agentId && anchor.seqNo == off && anchor.head == log[off - 1].head
        && SealedWith(h, cps, anchor, req.anchorProof, req.anchorRoot))
  }

  lemma AnchorItems(c: Checkpoint)
    ensures var j := CheckpointJson(c);
            && j.Obj? && j != Null && Get(j, "v") == Str(CHECKPOINT_V) && Get(j, "agent_id") == Str(c.agentId)
            && Get(j, "seq") == Int(c.seqNo) && Get(j, "head") == Str(c.head)
            && Has(j, "period_end") && Get(j, "period_end") == Str(c.periodEnd)
  {
    CheckpointLookup(c, "v");
    CheckpointLookup(c, "agent_id");
    CheckpointLookup(c, "seq");
    CheckpointLookup(c, "head");
    CheckpointLookup(c, "period_end");
    KeysDiffer();
  }

  lemma HonestNumber(h: HashFn, agentId: string, log: seq<Entry>, i: nat)
    requires HonestLog(h, agentId, log) && i < |log|
    ensures log[i].seqNo == i + 1 && IsHex64(log[i].head)
    ensures log[i].prevHead == (if i == 0 then None else Some(log[i - 1].head))
  {
    assert HonestEntry(h, agentId, log, i);
    HexOfDigest(h(EntryBytes(log[i]).value));
  }

  lemma AnchorAccepted(h: HashFn, agentId: string, log: seq<Entry>, off: nat, n: nat, req: Request,
                       anchor: Checkpoint, cps: seq<Checkpoint>)
    requires HonestLog(h, agentId, log) && 1 <= n && off + n <= |log|
    requires req.Entries() == Select(log, Consecutive(off, n)) && req.fromSeq == off + 1
    requires WellShaped(req.Entries()[0]) && HonestAnchor(h, req, agentId, log, off, anchor, cps)
    ensures AnchorCheck(h, req, Str(agentId)).Pass?
  {
    hide HonestLog, Select, EntryJson, CheckpointJson, Get, SealedWith, ProvenIn, IsHex64, WellShaped;
    if req.anchor != Null {
      AnchorItems(anchor);
      SealedIsProven(h, cps, anchor, req.anchorProof, req.anchorRoot);
      HonestNumber(h, agentId, log, off - 1);
      HonestNumber(h, agentId, log, off);
      WindowRecord(log, off, n, 0);
    }
  }

  // ------------------------------------------------------------------ the checkpoint and its age

  /** The age of a checkpoint in microseconds, when the caller asks for it. */
  function AgeOf(iso: IsoParser, req: Request, cp: Checkpoint): Option<int> {
    if req.maxAgeSeconds.None? || req.now.None? then None
    else
      match (ParseTs(iso, Str(req.now.value)), ParseTs(iso, Str(cp.periodEnd)))
      case (Ok(now), Ok(end)) => Some(now - end)
      case _ => None
  }

  /** The caller states no bound, or a time of its own that parses. */
  predicate Timed(iso: IsoParser, req: Request) {
    req.maxAgeSeconds.None? || req.now.None? || ParseTs(iso, Str(req.now.value)).Ok?
  }

  predicate TooOld(iso: IsoParser, req: Request, cp: Checkpoint) {
    var age := AgeOf(iso, req, cp);
    age.Some? && req.maxAgeSeconds.Some? && age.value as real > req.maxAgeSeconds.value * 1_000_000.0
  }

  lemma HonestCheckpointAccepted(h: HashFn, iso: IsoParser, req: Request, cp: Checkpoint, cps: seq<Checkpoint>)
    requires SealedWith(h, cps, cp, req.proof, req.root) && req.checkpoint == CheckpointJson(cp)
    requires IsHex64(cp.head) && Timed(iso, req) && ParseTs(iso, Str(cp.periodEnd)).Ok?
    ensures CheckpointCheck(h, iso, req, Str(cp.agentId))
            == if TooOld(iso, req, cp)
               then Stop(Ok(FailedReport(StaleCheckpoint, CheckpointTooOld, None).(
                              checkpointAge := Some(WholeSeconds(AgeOf(iso, req, cp).value)))))
               else Pass
  {
    hide SealedWith, ProvenIn, IsHex64, CheckpointJson, Get, Has, ParseTs, WholeSeconds;
    AnchorItems(cp);
    SealedIsProven(h, cps, cp, req.proof, req.root);
  }

  // ------------------------------------------------------------------ verdicts

  /** The report on the records from k to m of an honest log sealed when it had n. */
  function HonestReport(k: nat, m: nat, n: nat, periodEnd: string, anchor: WindowAnchor): Report {
    if n < k then
      Report(ContinuityOnly, NotEvaluated, CheckpointBeforeWindow, None, Some(m), Some(n), None, Null, Some(anchor), None)
    else if m < n then
      Report(Truncated, Failed, LogShorterThanCheckpoint, Some(m + 1), Some(m), Some(n), None, Null, None, None)
    else if m == n then
      Report(if k > 1 then WindowComplete else Complete, if k > 1 then ProvenFromSeq else Proven,
             NoReason, None, Some(m), None, None, Str(periodEnd), Some(anchor), None)
    else
      Report(if k > 1 then WindowCompleteUnsealedTail else CompleteUnsealedTail,
             if k > 1 then ProvenFromSeqThroughCheckpoint else ProvenThroughCheckpoint,
             NoReason, None, Some(m), Some(n), Some(m - n), Str(periodEnd), Some(anchor), None)
  }

  lemma HonestHeadMatches(req: Request, k: nat, m: nat, n: nat, cp: Checkpoint)
    requires 1 <= k <= m && 1 <= n && |req.Entries()| == m - k + 1 && AllShaped(req.Entries()) && req.fromSeq == k
    requires req.checkpoint.Obj? && Get(req.checkpoint, "seq") == Int(n)
    requires Get(req.checkpoint, "head") == Str(cp.head)
    requires Has(req.checkpoint, "period_end") && Get(req.checkpoint, "period_end") == Str(cp.periodEnd)
    requires k <= n <= m ==> req.Entries()[n - k].Obj? && Get(req.Entries()[n - k], "head") == Str(cp.head)
    ensures AgainstCheckpoint(req, m) == Ok(HonestReport(k, m, n, cp.periodEnd, AnchorState(req)))
  {
    hide AllShaped, WellShaped, Get, Has;
  }

  lemma CheckpointDecides(h: HashFn, iso: IsoParser, req: Request)
    requires Continuity(h, req).Pass? && req.Entries() != [] && AllShaped(req.Entries())
    requires req.checkpoint.Obj? && AsInt(Get(req.checkpoint, "seq")).Some?
    ensures var check := CheckpointCheck(h, iso, req, AgentOf(req.Entries()));
            VerifyTrail(h, iso, req)
            == if check.Stop? then check.result else AgainstCheckpoint(req, req.fromSeq + |req.Entries()| - 1)
  {
    hide Continuity, CheckpointCheck, AgainstCheckpoint, AllShaped, Get;
  }

  lemma {:induction false} LogOfPrefix(h: HashFn, agentId: string, inputs: seq<Input>, n: nat)
    requires LogOf(h, agentId, inputs).Ok? && n <= |inputs|
    ensures |LogOf(h, agentId, inputs).value| == |inputs|
    ensures LogOf(h, agentId, inputs[..n]) == Ok(LogOf(h, agentId, inputs).value[..n])
  {
    hide NextEntry;
    LogLength(h, agentId, inputs);
    if n == |inputs| {
      assert inputs[..n] == inputs;
      assert LogOf(h, agentId, inputs).value[..n] == LogOf(h, agentId, inputs).value;
    } else {
      var shorter := inputs[..|inputs| - 1];
      LogOfPrefix(h, agentId, shorter, n);
      assert shorter[..n] == inputs[..n];
      assert LogOf(h, agentId, inputs).value[..n] == LogOf(h, agentId, shorter).value[..n];
    }
  }

  lemma CheckpointMade(iso: IsoParser, agentId: string, periodEnd: string, log: seq<Entry>, cp: Checkpoint)
    requires MakeCheckpoint(iso, agentId, periodEnd, log) == Ok(cp)
    ensures log != [] && ParseTs(iso, Str(cp.periodEnd)).Ok?
    ensures cp == Checkpoint(agentId, periodEnd, log[|log| - 1].seqNo, log[|log| - 1].head)
  {}

  /** The checkpoint make_checkpoint gives for the first n records. */
  lemma PrefixCheckpoint(h: HashFn, iso: IsoParser, agentId: string, inputs: seq<Input>, n: nat, periodEnd: string,
                         cp: Checkpoint)
    requires LogOf(h, agentId, inputs).Ok? && 1 <= n <= |inputs|
    requires LogOf(h, agentId, inputs[..n]).Ok?
    requires MakeCheckpoint(iso, agentId, periodEnd, LogOf(h, agentId, inputs[..n]).value) == Ok(cp)
    ensures |LogOf(h, agentId, inputs).value| == |inputs| && ParseTs(iso, Str(cp.periodEnd)).Ok?
    ensures cp == Checkpoint(agentId, periodEnd, n, LogOf(h, agentId, inputs).value[n - 1].head) && IsHex64(cp.head)
  {
    hide LogOf, MakeCheckpoint, IsHex64, ParseTs;
    LogIsHonest(h, agentId, inputs);
    LogOfPrefix(h, agentId, inputs, n);
    CheckpointMade(iso, agentId, periodEnd, LogOf(h, agentId, inputs[..n]).value, cp);
    HonestNumber(h, agentId, LogOf(h, agentId, inputs).value, n - 1);
  }

  /** Honest records, presented from position off on, and an honest anchor if any. */
  ghost predicate Presents(h: HashFn, req: Request, agentId: string, inputs: seq<Input>, m: nat,
                           anchor: Checkpoint, anchorCps: seq<Checkpoint>) {
    && LogOf(h, agentId, inputs).Ok? && CountersFit(inputs)
    && 1 <= req.fromSeq <= m <= |LogOf(h, agentId, inputs).value|
    && req.Entries() == Select(LogOf(h, agentId, inputs).value, Consecutive(req.fromSeq - 1, m - req.fromSeq + 1))
    && HonestAnchor(h, req, agentId, LogOf(h, agentId, inputs).value, req.fromSeq - 1, anchor, anchorCps)
  }

  lemma WindowPasses(h: HashFn, agentId: string, log: seq<Entry>, off: nat, n: nat, req: Request,
                     anchor: Checkpoint, cps: seq<Checkpoint>)
    requires HonestLog(h, agentId, log) && CountersOf(log) && 1 <= n && off + n <= |log|
    requires req.Entries() == Select(log, Consecutive(off, n)) && req.fromSeq == off + 1
    requires HonestAnchor(h, req, agentId, log, off, anchor, cps)
    ensures Continuity(h, req).Pass? && AgentOf(req.Entries()) == Str(agentId) && AllShaped(req.Entries())
  {
    hide HonestLog, Continuity, Select, HonestAnchor, CountersOf, WellShaped, AllShaped, AgentOf, Shape, Chain,
         OrderCheck,
         SeqNos, AnchorCheck;
    WindowChain(h, agentId, log, off, n);
    FirstShaped(req.Entries());
    AnchorAccepted(h, agentId, log, off, n, req, anchor, cps);
    WindowContinuous(h, agentId, log, off, n, req);
  }

  lemma PresentedContinuous(h: HashFn, req: Request, agentId: string, inputs: seq<Input>, m: nat,
                            anchor: Checkpoint, anchorCps: seq<Checkpoint>)
    requires Presents(h, req, agentId, inputs, m, anchor, anchorCps)
    ensures Continuity(h, req).Pass? && AgentOf(req.Entries()) == Str(agentId) && AllShaped(req.Entries())
    ensures |req.Entries()| == m - req.fromSeq + 1
  {
    hide LogOf, HonestLog, Continuity, Select, HonestAnchor, CountersFit, CountersOf, WellShaped, AllShaped, AgentOf,
         Consecutive;
    LogIsHonest(h, agentId, inputs);
    LogCounters(h, agentId, inputs);
    WindowPasses(h, agentId, LogOf(h, agentId, inputs).value, req.fromSeq - 1, m - req.fromSeq + 1, req, anchor, anchorCps);
  }

  lemma FirstShaped(entries: seq<Json>)
    requires AllShaped(entries) && entries != []
    ensures WellShaped(entries[0])
  {}

  /** Without a checkpoint, honest records are continuous and their completeness is not evaluated. */
  lemma HonestLogIsContinuous(h: HashFn, iso: IsoParser, req: Request, agentId: string, inputs: seq<Input>, m: nat,
                              anchor: Checkpoint, anchorCps: seq<Checkpoint>)
    requires Presents(h, req, agentId, inputs, m, anchor, anchorCps) && req.checkpoint == Null
    ensures VerifyTrail(h, iso, req) == Ok(Report(ContinuityOnly, NotEvaluated, NoCheckpoint, None, Some(m),
                                                  None, None, Null, Some(AnchorState(req)), None))
  {
    hide Presents, Continuity;
    PresentedContinuous(h, req, agentId, inputs, m, anchor, anchorCps);
  }

  /**
   Records k to m of an honest log, with an honest anchor or none, against the sealed checkpoint of
   its first n records: truncated at m + 1 when m < n, complete when m = n, complete with an unsealed
   tail of exactly m - n records when m > n, and not evaluated when the checkpoint lies before the
   window; stale, with the age, exactly when the caller's bound is exceeded.
   */
  lemma HonestVerdict(h: HashFn, iso: IsoParser, req: Request, agentId: string, inputs: seq<Input>, m: nat, n: nat,
                      periodEnd: string, cp: Checkpoint, cps: seq<Checkpoint>,
                      anchor: Checkpoint, anchorCps: seq<Checkpoint>)
    requires Presents(h, req, agentId, inputs, m, anchor, anchorCps)
    requires 1 <= n <= |inputs| && LogOf(h, agentId, inputs[..n]).Ok?
    requires MakeCheckpoint(iso, agentId, periodEnd, LogOf(h, agentId, inputs[..n]).value) == Ok(cp)
    requires SealedWith(h, cps, cp, req.proof, req.root) && req.checkpoint == CheckpointJson(cp)
    requires Timed(iso, req)
    ensures VerifyTrail(h, iso, req)
            == Ok(if TooOld(iso, req, cp)
                  then FailedReport(StaleCheckpoint, CheckpointTooOld, None).(
                         checkpointAge := Some(WholeSeconds(AgeOf(iso, req, cp).value)))
                  else HonestReport(req.fromSeq, m, n, periodEnd, AnchorState(req)))
  {
    hide Presents, VerifyTrail, Continuity, CheckpointCheck, AgainstCheckpoint, SealedWith, HonestReport,
         CheckpointJson,
         Get, Has, AllShaped, MakeCheckpoint, IsHex64, Timed, TooOld, AgeOf, WholeSeconds, LogOf, AgentOf, ParseTs;
    PresentedContinuous(h, req, agentId, inputs, m, anchor, anchorCps);
    ParametersOf(h, req, agentId, inputs, m, anchor, anchorCps);
    PrefixCheckpoint(h, iso, agentId, inputs, n, periodEnd, cp);
    HonestCheckpointAccepted(h, iso, req, cp, cps);
    AnchorItems(cp);
    CheckpointDecides(h, iso, req);
    HeadOfPresented(h, req, agentId, inputs, m, anchor, anchorCps, n);
    HonestHeadMatches(req, req.fromSeq, m, n, cp);
  }

  lemma ParametersOf(h: HashFn, req: Request, agentId: string, inputs: seq<Input>, m: nat,
                     anchor: Checkpoint, anchorCps: seq<Checkpoint>)
    requires Presents(h, req, agentId, inputs, m, anchor, anchorCps)
    ensures LogOf(h, agentId, inputs).Ok? && 1 <= req.fromSeq <= m
  {}

  lemma HeadOfPresented(h: HashFn, req: Request, agentId: string, inputs: seq<Input>, m: nat,
                        anchor: Checkpoint, anchorCps: seq<Checkpoint>, n: nat)
    requires Presents(h, req, agentId, inputs, m, anchor, anchorCps) && |req.Entries()| == m - req.fromSeq + 1
    ensures req.fromSeq <= n <= m ==>
              && req.Entries()[n - req.fromSeq].Obj?
              && Get(req.Entries()[n - req.fromSeq], "head") == Str(LogOf(h, agentId, inputs).value[n - 1].head)
  {
    hide LogOf, HonestAnchor, CountersFit, Select, Get;
    if req.fromSeq <= n <= m {
      WindowRecord(LogOf(h, agentId, inputs).value, req.fromSeq - 1, m - req.fromSeq + 1, n - req.fromSeq);
    }
  }
}
