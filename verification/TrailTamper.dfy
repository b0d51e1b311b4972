/** What an altered record is answered, in a full log or a window of an honest log. */
module TrailTamper {
  import opened Python
  import opened Bytes
  import opened Jcs
  import opened TrailHead
  import opened TrailTheorems
  import opened TrailDamage
  import opened TrailHonest
  import opened TrailErrors
  import opened TrailVerdicts

  /** A record that could stand at its place: its number, this agent, and fields that can be hashed. */
  predicate Plausible(e: Json, agentId: string, seqNo: int) {
    && WellShaped(e) && Get(e, "agent_id") == Str(agentId) && SeqNo(e) == seqNo && FieldsAllowed(e)
    && JcsBytes(Committed(e, Str(agentId))).Ok?
  }

  /** Records of the log from position off on, with that of position off + k replaced. */
  ghost predicate Altered(log: seq<Entry>, off: nat, n: nat, k: nat, e: Json, entries: seq<Json>)
    requires k < n && off + n <= |log|
  {
    entries == Select(log, Consecutive(off, n))[k := e]
  }

  lemma HonestRecordGood(h: HashFn, agentId: string, log: seq<Entry>, i: nat)
    requires HonestLog(h, agentId, log) && i < |log|
    ensures var e := EntryJson(log[i]);
            && WellShaped(e) && Get(e, "agent_id") == Str(agentId) && SeqNo(e) == i + 1
  {
    hide LinkOf, WellShaped;
    HonestRecordPasses(h, agentId, log, i, i + 1, Null);
    assert HonestEntry(h, agentId, log, i);
    EntryItems(log[i]);
  }

  lemma AlteredEntry(log: seq<Entry>, off: nat, n: nat, k: nat, e: Json, entries: seq<Json>, i: nat)
    requires k < n && off + n <= |log| && Altered(log, off, n, k, e, entries) && i < n
    ensures |entries| == n && entries[i] == if i == k then e else EntryJson(log[off + i])
  {
    hide Select, EntryJson;
    assert Consecutive(off, n)[i] == off + i;
  }

  /** The presented records are good, numbered by their places. */
  lemma AlteredGood(h: HashFn, agentId: string, log: seq<Entry>, off: nat, n: nat, k: nat, e: Json, entries: seq<Json>)
    requires HonestLog(h, agentId, log) && k < n && off + n <= |log| && Altered(log, off, n, k, e, entries)
    requires Plausible(e, agentId, off + k + 1)
    ensures |entries| == n && AllShaped(entries) && AgentOf(entries) == Str(agentId) && Uniform(entries)
    ensures forall i | 0 <= i < n :: SeqNo(entries[i]) == off + 1 + i
  {
    hide Altered, HonestLog, EntryJson, FieldsAllowed, Committed, JcsDumps, SeqNo, Get, IsHex64;
    AlteredEntry(log, off, n, k, e, entries, 0);
    forall i | 0 <= i < n
      ensures WellShaped(entries[i]) && Get(entries[i], "agent_id") == Str(agentId) && SeqNo(entries[i]) == off + 1 + i
    {
      AlteredEntry(log, off, n, k, e, entries, i);
      HonestRecordGood(h, agentId, log, off + i);
    }
    AlteredEntry(log, off, n, k, e, entries, k);
  }

  lemma AlteredInOrder(entries: seq<Json>, req: Request)
    requires AllShaped(entries) && req.Entries() == entries
    requires forall i | 0 <= i < |entries| :: SeqNo(entries[i]) == req.fromSeq + i
    ensures !Reordered(req)
  {
    hide SeqNo, WellShaped;
    RangeIs(SeqNos(entries), req.fromSeq);
  }

  /** An honest record holds at its place. */
  lemma HonestHolds(h: HashFn, agentId: string, log: seq<Entry>, off: nat, n: nat, k: nat, e: Json, req: Request, i: nat)
    requires HonestLog(h, agentId, log) && k < n && off + n <= |log| && Altered(log, off, n, k, e, req.Entries())
    requires i < k && req.fromSeq == off + 1
    requires AllShaped(req.Entries()) && AgentOf(req.Entries()) == Str(agentId)
    ensures RecordHolds(h, req, i)
  {
    hide Altered, HonestLog, EntryJson, LinkOf, AllShaped, AgentOf, Get, WellShaped;
    AlteredEntry(log, off, n, k, e, req.Entries(), i);
    if i > 0 {
      AlteredEntry(log, off, n, k, e, req.Entries(), i - 1);
      EntryItems(log[off + i - 1]);
    }
    HonestRecordPasses(h, agentId, log, off + i, off + 1, PrevHead(req.Entries(), i));
    PassesHolds(h, req, i);
  }

  lemma AlteredChained(h: HashFn, agentId: string, log: seq<Entry>, off: nat, n: nat, k: nat, e: Json, req: Request)
    requires HonestLog(h, agentId, log) && k < n && off + n <= |log| && Altered(log, off, n, k, e, req.Entries())
    requires Plausible(e, agentId, off + k + 1)
    requires req.fromSeq == off + 1
    ensures |req.Entries()| == n && Chained(h, req, k) && req.Entries()[k] == e && AgentOf(req.Entries()) == Str(agentId)
    ensures k > 0 ==> req.Entries()[k - 1] == EntryJson(log[off + k - 1])
  {
    hide Altered, HonestLog, EntryJson, AllShaped, AgentOf, Uniform, Reordered, RecordHolds, Plausible;
    AlteredGood(h, agentId, log, off, n, k, e, req.Entries());
    AlteredInOrder(req.Entries(), req);
    AlteredEntry(log, off, n, k, e, req.Entries(), k);
    if k > 0 {
      AlteredEntry(log, off, n, k, e, req.Entries(), k - 1);
    }
    forall i | 0 <= i < k ensures RecordHolds(h, req, i) {
      HonestHolds(h, agentId, log, off, n, k, e, req, i);
    }
  }

  /**
   An altered record whose head is not the hash of its own fields is a head mismatch at its number,
   and one that is rehashed but does not name its predecessor's head a link mismatch, whatever anchor,
   checkpoint and bound come with the records.
   */
  lemma AlterationIsReported(h: HashFn, iso: IsoParser, agentId: string, log: seq<Entry>, off: nat, n: nat, k: nat, e: Json,
                             req: Request)
    requires HonestLog(h, agentId, log) && k < n && off + n <= |log| && Altered(log, off, n, k, e, req.Entries())
    requires req.fromSeq == off + 1
    requires Plausible(e, agentId, off + k + 1)
    ensures !HeadHolds(h, e, Str(agentId)) ==>
              VerifyTrail(h, iso, req) == Ok(Failure(Broken, HeadMismatch, Some(off + k + 1)))
    ensures HeadHolds(h, e, Str(agentId)) && k > 0 && Get(e, "prev_head") != Str(log[off + k - 1].head) ==>
              VerifyTrail(h, iso, req) == Ok(Failure(Broken, LinkMismatch, Some(off + k + 1)))
  {
    hide HonestLog, Altered, VerifyTrail, Chained, AgentOf, FieldsAllowed, Committed, HeadHolds, Get, JcsDumps, SeqNo,
         EntryJson;
    AlteredChained(h, agentId, log, off, n, k, e, req);
    if k > 0 {
      HeadOfEntry(log[off + k - 1]);
    }
    ReportedAt(h, iso, req, k, agentId);
  }

  lemma HeadOfEntry(x: Entry)
    ensures EntryJson(x).Obj? && Get(EntryJson(x), "head") == Str(x.head)
  {
    hide EntryJson, Get, Has;
    EntryIsDict(x);
    EntryItems(x);
  }

  lemma ReportedAt(h: HashFn, iso: IsoParser, req: Request, k: nat, agentId: string)
    requires k < |req.Entries()| && Chained(h, req, k) && AgentOf(req.Entries()) == Str(agentId)
    requires Plausible(req.Entries()[k], agentId, req.fromSeq + k)
    requires k > 0 ==> req.Entries()[k - 1].Obj?
    ensures var e, at := req.Entries()[k], req.fromSeq + k;
            && (!HeadHolds(h, e, Str(agentId)) ==> VerifyTrail(h, iso, req) == Ok(Failure(Broken, HeadMismatch, Some(at))))
            && (HeadHolds(h, e, Str(agentId)) && k > 0 && Get(e, "prev_head") != Get(req.Entries()[k - 1], "head")
                ==> VerifyTrail(h, iso, req) == Ok(Failure(Broken, LinkMismatch, Some(at))))
  {
    hide VerifyTrail, Chained, AgentOf, FieldsAllowed, Committed, HeadHolds, Get, JcsDumps, SeqNo, HeadDiffersAt,
         LinkDiffersAt;
    var e := req.Entries()[k];
    SituationsAt(h, req, k, agentId);
    if !HeadHolds(h, e, Str(agentId)) {
      HeadDiffersReported(h, iso, req, k);
    } else if k > 0 && Get(e, "prev_head") != Get(req.Entries()[k - 1], "head") {
      LinkDiffersReported(h, iso, req, k);
    }
  }

  lemma SituationsAt(h: HashFn, req: Request, k: nat, agentId: string)
    requires k < |req.Entries()| && Chained(h, req, k) && AgentOf(req.Entries()) == Str(agentId)
    requires Plausible(req.Entries()[k], agentId, req.fromSeq + k)
    requires k > 0 ==> req.Entries()[k - 1].Obj?
    ensures NumberAt(req, k) == Some(req.fromSeq + k)
    ensures HeadDiffersAt(h, req, k) <==> !HeadHolds(h, req.Entries()[k], Str(agentId))
    ensures k > 0 ==>
              (LinkDiffersAt(h, req, k)
               <==> HeadHolds(h, req.Entries()[k], Str(agentId))
                    && Get(req.Entries()[k], "prev_head") != Get(req.Entries()[k - 1], "head"))
  {
    hide Chained, AgentOf, FieldsAllowed, Committed, HeadHolds, Get, JcsDumps, SeqNo;
  }

  lemma HeadDiffersReported(h: HashFn, iso: IsoParser, req: Request, k: nat)
    requires HeadDiffersAt(h, req, k)
    ensures VerifyTrail(h, iso, req) == Ok(Failure(Broken, HeadMismatch, NumberAt(req, k)))
  {
    var rep := Failure(Broken, HeadMismatch, NumberAt(req, k));
    hide VerifyTrail, HeadDiffersAt, NumberAt, ShapeReport, AnchorReport, CounterReport, CheckpointReport;
    assert ChainReport(h, req, rep);
    ReportExactly(h, iso, req, rep);
  }

  lemma LinkDiffersReported(h: HashFn, iso: IsoParser, req: Request, k: nat)
    requires LinkDiffersAt(h, req, k)
    ensures VerifyTrail(h, iso, req) == Ok(Failure(Broken, LinkMismatch, NumberAt(req, k)))
  {
    var rep := Failure(Broken, LinkMismatch, NumberAt(req, k));
    hide VerifyTrail, LinkDiffersAt, NumberAt, ShapeReport, AnchorReport, CounterReport, CheckpointReport;
    assert ChainReport(h, req, rep);
    ReportExactly(h, iso, req, rep);
  }

  /** The record states other things than the one at this place of the log. */
  predicate SaysOther(e: Json, x: Entry)
    requires e.Obj?
  {
    || Get(e, "action_ref") != Str(x.actionRef) || Get(e, "prev_head") != OptStr(x.prevHead)
    || Get(e, "agent_seq") != OptInt(x.agentSeq)
  }

  lemma CommittedBytes(e: Json, agentId: Json)
    requires WellShaped(e) && FieldsAllowed(e)
    ensures PresentedBytes(e, agentId) == JcsBytes(Committed(e, agentId))
  {
    hide FieldsAllowed, Committed, JcsDumps, Get, IsHex64;
    PreimageIs(e, agentId);
  }

  /** Other statements under the same number have other bytes. */
  lemma OtherBytes(e: Json, x: Entry)
    requires Plausible(e, x.agentId, x.seqNo) && EntryBytes(x).Ok? && SaysOther(e, x)
    ensures JcsBytes(Committed(e, Str(x.agentId))).value != EntryBytes(x).value
  {
    CommittedBytes(e, Str(x.agentId));
    hide FieldsAllowed, Committed, JcsDumps, Get, IsHex64, PreimageBytes;
    if JcsBytes(Committed(e, Str(x.agentId))).value == EntryBytes(x).value {
      PreimageInjective(Str(x.agentId), SeqNo(e), Get(e, "action_ref"), Get(e, "prev_head"), Get(e, "agent_seq"),
                        x.seqNo, Str(x.actionRef), OptStr(x.prevHead), OptInt(x.agentSeq));
    }
  }

  /** A record with altered fields and its old head is a head mismatch, unless two messages collide. */
  lemma KeptHeadIsReported(h: HashFn, iso: IsoParser, agentId: string, log: seq<Entry>, off: nat, n: nat, k: nat, e: Json,
                           req: Request)
    requires HonestLog(h, agentId, log) && k < n && off + n <= |log| && Altered(log, off, n, k, e, req.Entries())
    requires req.fromSeq == off + 1 && Plausible(e, agentId, off + k + 1)
    requires Get(e, "head") == Str(log[off + k].head) && SaysOther(e, log[off + k])
    ensures || VerifyTrail(h, iso, req) == Ok(Failure(Broken, HeadMismatch, Some(off + k + 1)))
            || (var m := JcsBytes(Committed(e, Str(agentId)));
                EntryBytes(log[off + k]).Ok? && m.value != EntryBytes(log[off + k]).value
                && h(m.value) == h(EntryBytes(log[off + k]).value))
  {
    assert HonestEntry(h, agentId, log, off + k);
    OtherBytes(e, log[off + k]);
    AlterationIsReported(h, iso, agentId, log, off, n, k, e, req);
    hide HonestLog, Altered, VerifyTrail, FieldsAllowed, Committed, Get, JcsDumps, SaysOther, EntryBytes;
    if HeadHolds(h, e, Str(agentId)) {
      HexRoundTrip(h(JcsBytes(Committed(e, Str(agentId))).value));
      HexRoundTrip(h(EntryBytes(log[off + k]).value));
    }
  }
}
