/**
 Trail heads, checkpoints and the trail verifier of trail_head.py.

 The producer's records are typed; the verifier takes arbitrary JSON values, as the source
 does.  A JSON null stands for Python's None.  datetime.fromisoformat is the parameter iso,
 giving microseconds.
 */
module TrailHead {
  import opened Python
  import opened Bytes
  import opened Order
  import opened Jcs
  import opened Merkle

  const ENTRY_V := "trail-head-ref/v1"
  const CHECKPOINT_V := "trail-head-ref/v1/checkpoint"

  type IsoParser = string -> Option<int>

  // ------------------------------------------------------------------ dictionaries

  /** d.get(key) */
  function Get(d: Json, key: string): Json
    requires d.Obj?
  {
    var r := Lookup(d.fields, key);
    if r.Some? then r.value else Null
  }

  predicate Has(d: Json, key: string)
    requires d.Obj?
  {
    Lookup(d.fields, key).Some?
  }

  predicate IsHexJson(v: Json) {
    v.Str? && IsHex64(v.s)
  }

  /** The number Python compares a value by: True and False are 1 and 0. */
  function PyNumber(v: Json): Option<real> {
    if v.Bool? then Some(if v.b then 1.0 else 0.0) else NumberOf(v)
  }

  /** Python's == on JSON values: numbers, booleans among them, by value, and no NaN equal to another. */
  predicate PyEqual(v: Json, w: Json)
    decreases v
  {
    match v
    case Arr(items) =>
      && w.Arr? && |items| == |w.items|
      && forall i | 0 <= i < |items| :: PyEqual(items[i], w.items[i])
    case Obj(fields) =>
      && w.Obj? && |fields| == |w.fields|
      && forall i | 0 <= i < |fields| ::
           var other := Lookup(w.fields, fields[i].key);
           other.Some? && PyEqual(fields[i].val, other.value)
    case _ => if PyNumber(v).Some? then PyNumber(v) == PyNumber(w) else !(v.Num? && v.x.NaN?) && v == w
  }

  /** isinstance(v, int), which holds of booleans too, and the integer it is. */
  function AsInt(v: Json): Option<int> {
    match v
    case Int(n) => Some(n)
    case Bool(b) => Some(if b then 1 else 0)
    case _ => None
  }

  // ------------------------------------------------------------------ producer side

  /** Hash of the canonical bytes, in hexadecimal. */
  function Sha256Jcs(h: HashFn, v: Json): Result<string> {
    var bytes :- JcsBytes(v);
    Ok(Hex(h(bytes)))
  }

  /** entry_preimage; Null stands for an absent prev_head or agent_seq. */
  function EntryPreimage(agentId: Json, seqNo: int, actionRef: Json, prevHead: Json, agentSeq: Json): Result<Json> {
    if seqNo < 1 then Raise(ValueError)
    else if !IsHexJson(actionRef) then Raise(ValueError)
    else if (seqNo == 1) != (prevHead == Null) then Raise(ValueError)
    else if prevHead != Null && !IsHexJson(prevHead) then Raise(ValueError)
    else if agentSeq != Null && (!agentSeq.Int? || agentSeq.n < 1) then Raise(ValueError)
    else
      Ok(Obj([Field("v", Str(ENTRY_V)), Field("agent_id", agentId), Field("seq", Int(seqNo)),
              Field("action_ref", actionRef)]
             + Optional("prev_head", prevHead) + Optional("agent_seq", agentSeq)))
  }

  function Optional(key: string, v: Json): seq<Field> {
    if v == Null then [] else [Field(key, v)]
  }

  /** One record of an agent's log. */
  datatype Entry = Entry(agentId: string, seqNo: int, actionRef: string, prevHead: Option<string>,
                         agentSeq: Option<int>, head: string)

  function OptStr(s: Option<string>): Json {
    match s case None => Null case Some(t) => Str(t)
  }

  function OptInt(n: Option<int>): Json {
    match n case None => Null case Some(k) => Int(k)
  }

  /** The record as the dictionary that is presented to a verifier. */
  function EntryJson(e: Entry): Json {
    Obj([Field("agent_id", Str(e.agentId)), Field("seq", Int(e.seqNo)), Field("action_ref", Str(e.actionRef))]
        + Optional("prev_head", OptStr(e.prevHead)) + Optional("agent_seq", OptInt(e.agentSeq))
        + [Field("head", Str(e.head))])
  }

  /** What the caller of append_entry supplies. */
  datatype Input = Input(actionRef: string, agentSeq: Option<int>)

  /** The record append_entry adds to the log. */
  function NextEntry(h: HashFn, log: seq<Entry>, agentId: string, input: Input): Result<Entry> {
    var seqNo := |log| + 1;
    var prev := if log == [] then None else Some(log[|log| - 1].head);
    var pre :- EntryPreimage(Str(agentId), seqNo, Str(input.actionRef), OptStr(prev), OptInt(input.agentSeq));
    var head :- Sha256Jcs(h, pre);
    Ok(Entry(agentId, seqNo, input.actionRef, prev, input.agentSeq, head))
  }

  /** The log of one agent after append_entry calls with these inputs, when none of them raises. */
  function LogOf(h: HashFn, agentId: string, inputs: seq<Input>): Result<seq<Entry>> {
    if inputs == [] then Ok([])
    else
      var before :- LogOf(h, agentId, inputs[..|inputs| - 1]);
      var e :- NextEntry(h, before, agentId, inputs[|inputs| - 1]);
      Ok(before + [e])
  }

  /** An agent's log held in memory. */
  class TrailLog {
    var entries: seq<Entry>

    constructor ()
      ensures entries == []
    {
      entries := [];
    }

    method AppendEntry(h: HashFn, agentId: string, input: Input) returns (r: Result<Entry>)
      modifies this
      ensures r == NextEntry(h, old(entries), agentId, input)
      ensures entries == if r.Ok? then old(entries) + [r.value] else old(entries)
    {
      var prev := if entries == [] then None else Some(entries[|entries| - 1].head);
      var pre := EntryPreimage(Str(agentId), |entries| + 1, Str(input.actionRef), OptStr(prev), OptInt(input.agentSeq));
      if pre.Raise? {
        return Raise(pre.exception);
      }
      var head := Sha256Jcs(h, pre.value);
      if head.Raise? {
        return Raise(head.exception);
      }
      var e := Entry(agentId, |entries| + 1, input.actionRef, prev, input.agentSeq, head.value);
      entries := entries + [e];
      return Ok(e);
    }
  }

  /** _parse_ts: microseconds of an RFC 3339 UTC timestamp. */
  function ParseTs(iso: IsoParser, ts: Json): Result<int> {
    if !ts.Str? || ts.s == "" || ts.s[|ts.s| - 1] != 'Z' then Raise(ValueError)
    else
      match iso(ts.s[..|ts.s| - 1] + "+00:00")
      case None => Raise(ValueError)
      case Some(t) => Ok(t)
  }

  datatype Checkpoint = Checkpoint(agentId: string, periodEnd: string, seqNo: int, head: string)

  function CheckpointJson(c: Checkpoint): Json {
    Obj([Field("v", Str(CHECKPOINT_V)), Field("agent_id", Str(c.agentId)), Field("period_end", Str(c.periodEnd)),
         Field("seq", Int(c.seqNo)), Field("head", Str(c.head))])
  }

  function MakeCheckpoint(iso: IsoParser, agentId: string, periodEnd: string, log: seq<Entry>): Result<Checkpoint> {
    if log == [] then Raise(ValueError)
    else
      var _ :- ParseTs(iso, Str(periodEnd));
      Ok(Checkpoint(agentId, periodEnd, log[|log| - 1].seqNo, log[|log| - 1].head))
  }

  function AgentKey(c: Checkpoint): seq<int> {
    CodePoints(c.agentId)
  }

  function DigestAll(h: HashFn, cs: seq<Checkpoint>): (r: Result<seq<string>>)
    ensures r.Ok? ==> |r.value| == |cs|
    ensures r.Ok? ==> forall i | 0 <= i < |cs| ::
              Sha256Jcs(h, CheckpointJson(cs[i])) == Ok(r.value[i]) && ValidRef(r.value[i])
  {
    if cs == [] then Ok([])
    else
      var first :- Sha256Jcs(h, CheckpointJson(cs[0]));
      var others :- DigestAll(h, cs[1..]);
      HexOfDigest(h(JcsBytes(CheckpointJson(cs[0])).value));
      Ok([first] + others)
  }

  datatype Seal = Seal(root: string, tree: MerkleTree, digests: seq<string>)

  /** The Merkle tree over the period's checkpoint digests, sorted by agent. */
  function SealPeriod(h: HashFn, checkpoints: seq<Checkpoint>): Result<Seal> {
    var ordered := SortBy(checkpoints, AgentKey);
    if exists i, j | 0 <= i < j < |ordered| :: ordered[i].agentId == ordered[j].agentId then Raise(ValueError)
    else if ordered == [] || exists i | 0 <= i < |ordered| :: ordered[i].periodEnd != ordered[0].periodEnd then
      Raise(ValueError)
    else
      var digests :- DigestAll(h, ordered);
      Ok(Seal(RootOf(h, digests), TreeOfRefs(h, digests), digests))
  }

  // ------------------------------------------------------------------ verifier side

  datatype Verdict =
    | Malformed | Broken | AnchorUnproven | AnchorMismatch | AgentGap | ContinuityOnly
    | CheckpointUnproven | StaleCheckpoint | Truncated | CheckpointMismatch
    | Complete | CompleteUnsealedTail | WindowComplete | WindowCompleteUnsealedTail

  datatype Completeness =
    | Proven | ProvenThroughCheckpoint | ProvenFromSeq | ProvenFromSeqThroughCheckpoint
    | NotEvaluated | Failed

  datatype Reason =
    | NoReason
    | EmptyOrNotAList | EntryShape | AgentMixed | SeqOrder | SeqGap | BadPreimage | HeadMismatch | LinkMismatch
    | AnchorShape | AnchorOtherAgent | AnchorNotInRoot | AnchorNotAdjacent | PrevHeadDiffersFromAnchor
    | AgentSeqPartial | AgentSeqNotContiguous
    | NoCheckpoint | CheckpointShape | CheckpointOtherAgent | NotInRoot | CheckpointTooOld
    | CheckpointBeforeWindow | LogShorterThanCheckpoint | HeadDiffersFromCheckpoint

  datatype WindowAnchor = Genesis | Certified | Uncertified

  datatype Report = Report(
    verdict: Verdict, completeness: Completeness, reason: Reason, atSeq: Option<int>,
    lastSeq: Option<int>, checkpointSeq: Option<int>, unsealedEntries: Option<int>,
    asOf: Json, windowAnchor: Option<WindowAnchor>, checkpointAge: Option<int>)

  function FailedReport(verdict: Verdict, reason: Reason, atSeq: Option<int>): Report {
    Report(verdict, Failed, reason, atSeq, None, None, None, Null, None, None)
  }

  datatype Request = Request(
    presented: Json, checkpoint: Json, proof: Option<seq<string>>, root: Option<string>,
    now: Option<string>, maxAgeSeconds: Option<real>,
    anchor: Json, anchorProof: Option<seq<string>>, anchorRoot: Option<string>, fromSeq: int)
  {
    /** The presented records; what is not a list is treated like an empty one. */
    function Entries(): seq<Json> {
      if presented.Arr? then presented.items else []
    }
  }

  /** A check passes, or decides the result. */
  datatype Step = Pass | Stop(result: Result<Report>)

  function Reject(verdict: Verdict, reason: Reason, atSeq: Option<int>): Step {
    Stop(Ok(FailedReport(verdict, reason, atSeq)))
  }

  /** 1. Shape of one entry. */
  function ShapeOf(e: Json, agentId: Json): Step {
    if !e.Obj? || !IsHexJson(Get(e, "head")) || !IsHexJson(Get(e, "action_ref")) || !Get(e, "seq").Int? then
      Reject(Malformed, EntryShape, None)
    else if !PyEqual(Get(e, "agent_id"), agentId) then
      Reject(Malformed, AgentMixed, Some(Get(e, "seq").n))
    else Pass
  }

  function Shape(entries: seq<Json>, agentId: Json, k: nat): Step
    requires k <= |entries|
    decreases |entries| - k
  {
    if k == |entries| then Pass
    else if ShapeOf(entries[k], agentId).Stop? then ShapeOf(entries[k], agentId)
    else Shape(entries, agentId, k + 1)
  }

  predicate WellShaped(e: Json) {
    e.Obj? && IsHexJson(Get(e, "head")) && IsHexJson(Get(e, "action_ref")) && Get(e, "seq").Int?
  }

  predicate AllShaped(entries: seq<Json>) {
    forall i {:trigger entries[i]} | 0 <= i < |entries| :: WellShaped(entries[i])
  }

  function SeqNo(e: Json): int
    requires WellShaped(e)
  {
    Get(e, "seq").n
  }

  function SeqNos(entries: seq<Json>): (r: seq<int>)
    requires AllShaped(entries)
    ensures |r| == |entries| && forall i | 0 <= i < |r| :: r[i] == SeqNo(entries[i])
  {
    if entries == [] then [] else [SeqNo(entries[0])] + SeqNos(entries[1..])
  }

  function IntKey(n: int): seq<int> {
    [n]
  }

  function Range(start: int, n: nat): (r: seq<int>)
    ensures |r| == n && forall i | 0 <= i < n :: r[i] == start + i
    decreases n
  {
    if n == 0 then [] else [start] + Range(start + 1, n - 1)
  }

  /** The first value that is not at its place. */
  function FirstMisplaced(seqs: seq<int>, start: int): Option<int> {
    if seqs == [] then None
    else if seqs[0] != start then Some(seqs[0])
    else FirstMisplaced(seqs[1..], start + 1)
  }

  /** 2a. The right sequence numbers in the wrong order. */
  function OrderCheck(seqs: seq<int>, fromSeq: int): Step {
    var sorted := SortBy(seqs, IntKey);
    if sorted == Range(fromSeq, |seqs|) && seqs != sorted then
      Reject(Broken, SeqOrder, FirstMisplaced(seqs, fromSeq))
    else Pass
  }

  function PresentedPreimage(e: Json, agentId: Json): Result<Json>
    requires WellShaped(e)
  {
    EntryPreimage(agentId, SeqNo(e), Get(e, "action_ref"), Get(e, "prev_head"), Get(e, "agent_seq"))
  }

  /** 2b-2d. One entry of the chain, given the expected sequence number and the previous head. */
  function LinkOf(h: HashFn, e: Json, agentId: Json, fromSeq: int, expected: int, prevHead: Json): Step
    requires WellShaped(e)
  {
    if SeqNo(e) != expected then Reject(Broken, SeqGap, Some(SeqNo(e)))
    else
      var pre := PresentedPreimage(e, agentId);
      if pre.Raise? then Reject(Malformed, BadPreimage, Some(SeqNo(e)))
      else
        var head := Sha256Jcs(h, pre.value);
        if head.Raise? then Stop(Raise(head.exception))
        else if Str(head.value) != Get(e, "head") then Reject(Broken, HeadMismatch, Some(SeqNo(e)))
        else if SeqNo(e) > fromSeq && Get(e, "prev_head") != prevHead then
          Reject(Broken, LinkMismatch, Some(SeqNo(e)))
        else Pass
  }

  function PrevHead(entries: seq<Json>, k: nat): Json
    requires k <= |entries| && AllShaped(entries)
  {
    if k == 0 then Null else Get(entries[k - 1], "head")
  }

  /** The first entry from k on that breaks the chain. */
  function Chain(h: HashFn, entries: seq<Json>, agentId: Json, fromSeq: int, k: nat): Step
    requires k <= |entries| && AllShaped(entries)
    decreases |entries| - k
  {
    if k == |entries| then Pass
    else
      var here := LinkOf(h, entries[k], agentId, fromSeq, fromSeq + k, PrevHead(entries, k));
      if here.Stop? then here else Chain(h, entries, agentId, fromSeq, k + 1)
  }

  /** Inclusion of a checkpoint-like dictionary in a period root, as the verifier decides it. */
  function ProvenIn(h: HashFn, cp: Json, proof: Option<seq<string>>, root: Option<string>): Result<bool> {
    if root.None? || proof.None? then Ok(false)
    else
      var digest :- Sha256Jcs(h, cp);
      Ok(Included(h, digest, proof.value, root.value))
  }

  /** 2e. The anchor of a window. */
  function AnchorCheck(h: HashFn, req: Request, agentId: Json): Step
    requires req.Entries() != [] && WellShaped(req.Entries()[0])
  {
    var a := req.anchor;
    if a == Null then Pass
    else if !a.Obj? || Get(a, "v") != Str(CHECKPOINT_V) || !IsHexJson(Get(a, "head")) || !Get(a, "seq").Int? then
      Reject(AnchorUnproven, AnchorShape, None)
    else if !PyEqual(Get(a, "agent_id"), agentId) then Reject(AnchorUnproven, AnchorOtherAgent, None)
    else
      match ProvenIn(h, a, req.anchorProof, req.anchorRoot)
      case Raise(x) => Stop(Raise(x))
      case Ok(included) =>
        if !included then Reject(AnchorUnproven, AnchorNotInRoot, None)
        else if req.fromSeq == 1 || Get(a, "seq").n != req.fromSeq - 1 then
          Reject(AnchorUnproven, AnchorNotAdjacent, Some(req.fromSeq))
        else if Get(req.Entries()[0], "prev_head") != Get(a, "head") then
          Reject(AnchorMismatch, PrevHeadDiffersFromAnchor, Some(req.fromSeq))
        else Pass
  }

  function AnchorState(req: Request): WindowAnchor {
    if req.anchor != Null then Certified else if req.fromSeq == 1 then Genesis else Uncertified
  }

  /** The first pair from k on whose agent counters are not consecutive. */
  function Counters(entries: seq<Json>, k: nat): Step
    requires k < |entries| && AllShaped(entries)
    decreases |entries| - k
  {
    if k + 1 == |entries| then Pass
    else
      var a, b := Get(entries[k], "agent_seq"), Get(entries[k + 1], "agent_seq");
      if AsInt(a).None? then Stop(Raise(TypeError))
      else if AsInt(b) != Some(AsInt(a).value + 1) then
        Reject(AgentGap, AgentSeqNotContiguous, Some(SeqNo(entries[k + 1])))
      else Counters(entries, k + 1)
  }

  /** 3. The agent-side counter, if the agent supplied one. */
  function CounterCheck(entries: seq<Json>, fromSeq: int): Step
    requires entries != [] && AllShaped(entries)
  {
    if forall i | 0 <= i < |entries| :: !Has(entries[i], "agent_seq") then Pass
    else if exists i | 0 <= i < |entries| :: !Has(entries[i], "agent_seq") then
      Reject(AgentGap, AgentSeqPartial, None)
    else if fromSeq == 1 && AsInt(Get(entries[0], "agent_seq")) != Some(1) then
      Reject(AgentGap, AgentSeqNotContiguous, Some(1))
    else Counters(entries, 0)
  }

  /** int() of a duration in seconds: the fraction is cut off. */
  function WholeSeconds(micros: int): int {
    if micros >= 0 then micros / 1_000_000 else -((-micros) / 1_000_000)
  }

  /** The staleness bound, when the caller gives one. */
  function AgeCheck(iso: IsoParser, req: Request): Step
    requires req.checkpoint.Obj?
  {
    if req.maxAgeSeconds.None? || req.now.None? then Pass
    else
      match ParseTs(iso, Str(req.now.value))
      case Raise(x) => Stop(Raise(x))
      case Ok(now) =>
        if !Has(req.checkpoint, "period_end") then Stop(Raise(KeyError))
        else
          match ParseTs(iso, Get(req.checkpoint, "period_end"))
          case Raise(x) => Stop(Raise(x))
          case Ok(end) =>
            if (now - end) as real > req.maxAgeSeconds.value * 1_000_000.0 then
              Stop(Ok(FailedReport(StaleCheckpoint, CheckpointTooOld, None).(
                        checkpointAge := Some(WholeSeconds(now - end)))))
            else Pass
  }

  /** 5-6. Shape, agent, inclusion and age of the checkpoint. */
  function CheckpointCheck(h: HashFn, iso: IsoParser, req: Request, agentId: Json): Step {
    var c := req.checkpoint;
    if !c.Obj? || Get(c, "v") != Str(CHECKPOINT_V) || !IsHexJson(Get(c, "head")) || AsInt(Get(c, "seq")).None? then
      Reject(Malformed, CheckpointShape, None)
    else if !PyEqual(Get(c, "agent_id"), agentId) then Reject(CheckpointUnproven, CheckpointOtherAgent, None)
    else
      match ProvenIn(h, c, req.proof, req.root)
      case Raise(x) => Stop(Raise(x))
      case Ok(included) =>
        if !included then Reject(CheckpointUnproven, NotInRoot, None) else AgeCheck(iso, req)
  }

  /** 7-8. The log against an accepted checkpoint; lastSeq is the last sequence number presented. */
  function AgainstCheckpoint(req: Request, lastSeq: int): Result<Report>
    requires req.Entries() != [] && AllShaped(req.Entries())
    requires lastSeq == req.fromSeq + |req.Entries()| - 1
    requires req.checkpoint.Obj? && AsInt(Get(req.checkpoint, "seq")).Some?
  {
    var cpSeq := AsInt(Get(req.checkpoint, "seq")).value;
    var end := Get(req.checkpoint, "period_end");
    var window := req.fromSeq > 1;
    var scope := Some(AnchorState(req));
    if cpSeq < req.fromSeq then
      Ok(Report(ContinuityOnly, NotEvaluated, CheckpointBeforeWindow, None, Some(lastSeq), Some(cpSeq), None, Null,
                scope, None))
    else if lastSeq < cpSeq then
      Ok(Report(Truncated, Failed, LogShorterThanCheckpoint, Some(lastSeq + 1), Some(lastSeq), Some(cpSeq),
                None, Null, None, None))
    else if Get(req.Entries()[cpSeq - req.fromSeq], "head") != Get(req.checkpoint, "head") then
      Ok(FailedReport(CheckpointMismatch, HeadDiffersFromCheckpoint, Some(cpSeq)))
    else if !Has(req.checkpoint, "period_end") then Raise(KeyError)
    else if lastSeq == cpSeq then
      Ok(Report(if window then WindowComplete else Complete, if window then ProvenFromSeq else Proven,
                NoReason, None, Some(lastSeq), None, None, end, scope, None))
    else
      Ok(Report(if window then WindowCompleteUnsealedTail else CompleteUnsealedTail,
                if window then ProvenFromSeqThroughCheckpoint else ProvenThroughCheckpoint,
                NoReason, None, Some(lastSeq), Some(cpSeq), Some(lastSeq - cpSeq), end, scope, None))
  }

  /** agent_id of the first entry */
  function AgentOf(entries: seq<Json>): Json {
    if entries != [] && entries[0].Obj? then Get(entries[0], "agent_id") else Null
  }

  /** Checks 1 to 3 in order: the first that stops decides. */
  function Continuity(h: HashFn, req: Request): Step {
    var entries, agentId := req.Entries(), AgentOf(req.Entries());
    if entries == [] then Reject(Malformed, EmptyOrNotAList, None)
    else if Shape(entries, agentId, 0).Stop? then Shape(entries, agentId, 0)
    else if req.fromSeq < 1 then Stop(Raise(ValueError))
    else
      ShapePasses(entries, agentId, 0);
      if OrderCheck(SeqNos(entries), req.fromSeq).Stop? then OrderCheck(SeqNos(entries), req.fromSeq)
      else if Chain(h, entries, agentId, req.fromSeq, 0).Stop? then Chain(h, entries, agentId, req.fromSeq, 0)
      else if AnchorCheck(h, req, agentId).Stop? then AnchorCheck(h, req, agentId)
      else CounterCheck(entries, req.fromSeq)
  }

  lemma {:induction false} ShapePasses(entries: seq<Json>, agentId: Json, k: nat)
    requires k <= |entries| && Shape(entries, agentId, k).Pass?
    ensures forall i {:trigger entries[i]} | k <= i < |entries| ::
              WellShaped(entries[i]) && PyEqual(Get(entries[i], "agent_id"), agentId)
    decreases |entries| - k
  {
    if k < |entries| {
      ShapePasses(entries, agentId, k + 1);
    }
  }

  /** verify_trail */
  function VerifyTrail(h: HashFn, iso: IsoParser, req: Request): Result<Report> {
    var continuity := Continuity(h, req);
    if continuity.Stop? then continuity.result
    else
      ContinuityPasses(h, req);
      Completed(h, iso, req)
  }

  /** 4. The result for a continuous log. */
  function Completed(h: HashFn, iso: IsoParser, req: Request): Result<Report>
    requires req.Entries() != [] && AllShaped(req.Entries())
  {
    var lastSeq := req.fromSeq + |req.Entries()| - 1;
    if req.checkpoint == Null then
      Ok(Report(ContinuityOnly, NotEvaluated, NoCheckpoint, None, Some(lastSeq), None, None, Null,
                Some(AnchorState(req)), None))
    else
      var cp := CheckpointCheck(h, iso, req, AgentOf(req.Entries()));
      if cp.Stop? then cp.result else AgainstCheckpoint(req, lastSeq)
  }

  lemma ContinuityPasses(h: HashFn, req: Request)
    requires Continuity(h, req).Pass?
    ensures req.Entries() != [] && req.fromSeq >= 1
    ensures AllShaped(req.Entries())
    ensures Chain(h, req.Entries(), AgentOf(req.Entries()), req.fromSeq, 0).Pass?
  {
    ShapePasses(req.Entries(), AgentOf(req.Entries()), 0);
  }

  // ------------------------------------------------------------------ the verifier's loops

  method CheckShape(entries: seq<Json>, agentId: Json) returns (step: Step)
    ensures step == Shape(entries, agentId, 0)
  {
    for k := 0 to |entries|
      invariant Shape(entries, agentId, 0) == Shape(entries, agentId, k)
    {
      step := ShapeOf(entries[k], agentId);
      if step.Stop? {
        return;
      }
    }
    return Pass;
  }

  lemma ChainAt(h: HashFn, entries: seq<Json>, agentId: Json, fromSeq: int, k: nat)
    requires k < |entries| && AllShaped(entries)
    ensures var here := LinkOf(h, entries[k], agentId, fromSeq, fromSeq + k, PrevHead(entries, k));
            && Chain(h, entries, agentId, fromSeq, k)
               == (if here.Stop? then here else Chain(h, entries, agentId, fromSeq, k + 1))
            && (here.Pass? ==> SeqNo(entries[k]) == fromSeq + k)
  {}

  lemma ChainEnd(h: HashFn, entries: seq<Json>, agentId: Json, fromSeq: int)
    requires AllShaped(entries)
    ensures Chain(h, entries, agentId, fromSeq, |entries|) == Pass
  {}

  method CheckChain(h: HashFn, entries: seq<Json>, agentId: Json, fromSeq: int) returns (step: Step)
    requires AllShaped(entries)
    ensures step == Chain(h, entries, agentId, fromSeq, 0)
  {
    hide Chain, LinkOf, Get, SeqNo;
    ChainEnd(h, entries, agentId, fromSeq);
    var prevSeq, prevHead := fromSeq - 1, Null;
    ghost var whole := Chain(h, entries, agentId, fromSeq, 0);
    for k := 0 to |entries|
      invariant prevSeq == fromSeq - 1 + k && prevHead == PrevHead(entries, k)
      invariant whole == Chain(h, entries, agentId, fromSeq, k)
    {
      ChainAt(h, entries, agentId, fromSeq, k);
      step := LinkOf(h, entries[k], agentId, fromSeq, prevSeq + 1, prevHead);
      if step.Stop? {
        return;
      }
      prevSeq, prevHead := SeqNo(entries[k]), Get(entries[k], "head");
    }
    return Pass;
  }

  method CheckCounters(entries: seq<Json>) returns (step: Step)
    requires entries != [] && AllShaped(entries)
    ensures step == Counters(entries, 0)
  {
    for k := 0 to |entries| - 1
      invariant Counters(entries, 0) == Counters(entries, k)
    {
      var a, b := Get(entries[k], "agent_seq"), Get(entries[k + 1], "agent_seq");
      if AsInt(a).None? {
        return Stop(Raise(TypeError));
      }
      if AsInt(b) != Some(AsInt(a).value + 1) {
        return Reject(AgentGap, AgentSeqNotContiguous, Some(SeqNo(entries[k + 1])));
      }
    }
    return Pass;
  }

  /** Checks 1 to 3, the first failing one wins. */
  method CheckContinuity(h: HashFn, req: Request) returns (step: Step)
    ensures step == Continuity(h, req)
  {
    var entries, agentId := req.Entries(), AgentOf(req.Entries());
    if entries == [] {
      return Reject(Malformed, EmptyOrNotAList, None);
    }
    step := CheckShape(entries, agentId);
    if step.Stop? {
      return;
    }
    if req.fromSeq < 1 {
      return Stop(Raise(ValueError));
    }
    ShapePasses(entries, agentId, 0);
    step := OrderCheck(SeqNos(entries), req.fromSeq);
    if step.Stop? {
      return;
    }
    step := CheckChain(h, entries, agentId, req.fromSeq);
    if step.Stop? {
      return;
    }
    step := AnchorCheck(h, req, agentId);
    if step.Stop? {
      return;
    }
    if forall i | 0 <= i < |entries| :: !Has(entries[i], "agent_seq") {
      return Pass;
    }
    if exists i | 0 <= i < |entries| :: !Has(entries[i], "agent_seq") {
      return Reject(AgentGap, AgentSeqPartial, None);
    }
    if req.fromSeq == 1 && AsInt(Get(entries[0], "agent_seq")) != Some(1) {
      return Reject(AgentGap, AgentSeqNotContiguous, Some(1));
    }
    step := CheckCounters(entries);
  }

  method RunVerifyTrail(h: HashFn, iso: IsoParser, req: Request) returns (r: Result<Report>)
    ensures r == VerifyTrail(h, iso, req)
  {
    var step := CheckContinuity(h, req);
    if step.Stop? {
      return step.result;
    }
    ContinuityPasses(h, req);
    return Completed(h, iso, req);
  }
}
