/**
 The report verify_trail gives, as a table: each situation of the presented records, the anchor and the
 checkpoint, said of the data, with the one report it gets.
 */
module TrailVerdicts {
  import opened Python
  import opened Bytes
  import opened Jcs
  import opened Merkle
  import opened TrailHead
  import opened TrailDamage
  import opened TrailErrors

  function Failure(verdict: Verdict, reason: Reason, at: Option<int>): Report {
    Report(verdict, Failed, reason, at, None, None, None, Null, None, None)
  }

  // ------------------------------------------------------------------ records

  /** A record of the required shape and of the first record's agent. */
  predicate Good(e: Json, agentId: Json) {
    WellShaped(e) && PyEqual(Get(e, "agent_id"), agentId)
  }

  /** What entry_preimage admits. */
  predicate FieldsAllowed(e: Json)
    requires WellShaped(e)
  {
    var prev, counter := Get(e, "prev_head"), Get(e, "agent_seq");
    && SeqNo(e) >= 1 && (SeqNo(e) == 1 <==> prev == Null) && (prev == Null || IsHexJson(prev))
    && (counter == Null || (counter.Int? && counter.n >= 1))
  }

  /** The dictionary whose hash a record's head must be. */
  function Committed(e: Json, agentId: Json): Json
    requires WellShaped(e)
  {
    var prev, counter := Get(e, "prev_head"), Get(e, "agent_seq");
    Obj([Field("v", Str("trail-head-ref/v1")), Field("agent_id", agentId), Field("seq", Get(e, "seq")),
         Field("action_ref", Get(e, "action_ref"))]
        + (if prev == Null then [] else [Field("prev_head", prev)])
        + (if counter == Null then [] else [Field("agent_seq", counter)]))
  }

  /** The stated head is the hexadecimal hash of the canonical bytes. */
  predicate HeadHolds(h: HashFn, e: Json, agentId: Json)
    requires WellShaped(e) && JcsBytes(Committed(e, agentId)).Ok?
  {
    Get(e, "head") == Str(Hex(h(JcsBytes(Committed(e, agentId)).value)))
  }

  /** Record i is in its place, allowed, hashed as it says, and linked to the one before it. */
  predicate RecordHolds(h: HashFn, req: Request, i: nat)
    requires i < |req.Entries()| && AllShaped(req.Entries())
  {
    var entries, agentId := req.Entries(), AgentOf(req.Entries());
    var e := entries[i];
    && SeqNo(e) == req.fromSeq + i && FieldsAllowed(e)
    && JcsBytes(Committed(e, agentId)).Ok? && HeadHolds(h, e, agentId)
    && (i > 0 ==> Get(e, "prev_head") == Get(entries[i - 1], "head"))
  }

  /** The sequence numbers are the right ones in another order. */
  predicate Reordered(req: Request)
    requires AllShaped(req.Entries())
  {
    var seqs := SeqNos(req.Entries());
    multiset(seqs) == multiset(Range(req.fromSeq, |seqs|)) && seqs != Range(req.fromSeq, |seqs|)
  }

  /** The first k records hold. */
  predicate Chained(h: HashFn, req: Request, k: nat) {
    && Uniform(req.Entries()) && req.fromSeq >= 1 && k <= |req.Entries()| && !Reordered(req)
    && forall i | 0 <= i < k :: RecordHolds(h, req, i)
  }

  lemma PreimageIs(e: Json, agentId: Json)
    requires WellShaped(e)
    ensures PresentedPreimage(e, agentId)
            == if FieldsAllowed(e) then Ok(Committed(e, agentId)) else Raise(ValueError)
  {
    hide Get, IsHex64;
  }

  /** The step of one record, case by case. */
  lemma LinkCases(h: HashFn, e: Json, agentId: Json, fromSeq: int, expected: int, prevHead: Json)
    requires WellShaped(e)
    ensures var step := LinkOf(h, e, agentId, fromSeq, expected, prevHead);
            step == if SeqNo(e) != expected then Reject(Broken, SeqGap, Some(SeqNo(e)))
                    else if !FieldsAllowed(e) then Reject(Malformed, BadPreimage, Some(SeqNo(e)))
                    else if JcsBytes(Committed(e, agentId)).Raise? then Stop(Raise(ValueError))
                    else if !HeadHolds(h, e, agentId) then Reject(Broken, HeadMismatch, Some(SeqNo(e)))
                    else if SeqNo(e) > fromSeq && Get(e, "prev_head") != prevHead
                    then Reject(Broken, LinkMismatch, Some(SeqNo(e)))
                    else Pass
  {
    hide Get, IsHex64, FieldsAllowed, Committed, PresentedPreimage, JcsDumps;
    PreimageIs(e, agentId);
    if FieldsAllowed(e) {
      Sha256Defined(h, Committed(e, agentId));
    }
  }

  // ------------------------------------------------------------------ the situations of the records

  function NumberAt(req: Request, k: nat): Option<int> {
    if k < |req.Entries()| && WellShaped(req.Entries()[k]) then Some(SeqNo(req.Entries()[k])) else None
  }

  predicate GoodUpTo(req: Request, k: nat) {
    k <= |req.Entries()| && forall i | 0 <= i < k :: Good(req.Entries()[i], AgentOf(req.Entries()))
  }

  /** The first record that is not good has not the shape of one. */
  predicate MisshapenAt(req: Request, k: nat) {
    k < |req.Entries()| && GoodUpTo(req, k) && !WellShaped(req.Entries()[k])
  }

  /** The first record that is not good is another agent's. */
  predicate ForeignAt(req: Request, k: nat) {
    && k < |req.Entries()| && GoodUpTo(req, k) && WellShaped(req.Entries()[k])
    && !PyEqual(Get(req.Entries()[k], "agent_id"), AgentOf(req.Entries()))
  }

  /** The records are the right ones in another order, and record k is the first out of its place. */
  predicate MisplacedAt(req: Request, k: nat) {
    && Uniform(req.Entries()) && req.fromSeq >= 1 && Reordered(req) && k < |req.Entries()|
    && SeqNo(req.Entries()[k]) != req.fromSeq + k
    && forall i | 0 <= i < k :: SeqNo(req.Entries()[i]) == req.fromSeq + i
  }

  /** The records before record k hold, and its number is not the next. */
  predicate NumberMissingAt(h: HashFn, req: Request, k: nat) {
    k < |req.Entries()| && Chained(h, req, k) && SeqNo(req.Entries()[k]) != req.fromSeq + k
  }

  /** Record k is the next, but its fields are not those of a record. */
  predicate BadFieldsAt(h: HashFn, req: Request, k: nat) {
    && k < |req.Entries()| && Chained(h, req, k) && SeqNo(req.Entries()[k]) == req.fromSeq + k
    && !FieldsAllowed(req.Entries()[k])
  }

  /** Record k is the next, but its head is not the hash of its fields. */
  predicate HeadDiffersAt(h: HashFn, req: Request, k: nat) {
    && k < |req.Entries()| && Chained(h, req, k) && SeqNo(req.Entries()[k]) == req.fromSeq + k
    && FieldsAllowed(req.Entries()[k]) && JcsBytes(Committed(req.Entries()[k], AgentOf(req.Entries()))).Ok?
    && !HeadHolds(h, req.Entries()[k], AgentOf(req.Entries()))
  }

  /** Record k is the next and hashed as it says, but names another predecessor than the one presented. */
  predicate LinkDiffersAt(h: HashFn, req: Request, k: nat) {
    && 0 < k < |req.Entries()| && Chained(h, req, k) && SeqNo(req.Entries()[k]) == req.fromSeq + k
    && FieldsAllowed(req.Entries()[k]) && JcsBytes(Committed(req.Entries()[k], AgentOf(req.Entries()))).Ok?
    && HeadHolds(h, req.Entries()[k], AgentOf(req.Entries()))
    && Get(req.Entries()[k], "prev_head") != Get(req.Entries()[k - 1], "head")
  }

  ghost predicate ShapeReport(req: Request, rep: Report) {
    || (req.Entries() == [] && rep == Failure(Malformed, EmptyOrNotAList, None))
    || (exists k: nat :: MisshapenAt(req, k) && rep == Failure(Malformed, EntryShape, None))
    || (exists k: nat :: ForeignAt(req, k) && rep == Failure(Malformed, AgentMixed, NumberAt(req, k)))
  }

  ghost predicate ChainReport(h: HashFn, req: Request, rep: Report) {
    || (exists k: nat :: MisplacedAt(req, k) && rep == Failure(Broken, SeqOrder, NumberAt(req, k)))
    || (exists k: nat :: NumberMissingAt(h, req, k) && rep == Failure(Broken, SeqGap, NumberAt(req, k)))
    || (exists k: nat :: BadFieldsAt(h, req, k) && rep == Failure(Malformed, BadPreimage, NumberAt(req, k)))
    || (exists k: nat :: HeadDiffersAt(h, req, k) && rep == Failure(Broken, HeadMismatch, NumberAt(req, k)))
    || (exists k: nat :: LinkDiffersAt(h, req, k) && rep == Failure(Broken, LinkMismatch, NumberAt(req, k)))
  }

  // ------------------------------------------------------------------ shape

  /** The shape check stops with what the first record that is not good gives. */
  lemma {:induction false} ShapeStops(entries: seq<Json>, agentId: Json, k: nat) returns (j: nat)
    requires k <= |entries|
    ensures k <= j <= |entries| && forall i | k <= i < j :: Good(entries[i], agentId)
    ensures Shape(entries, agentId, k) == if j == |entries| then Pass else ShapeOf(entries[j], agentId)
    ensures j < |entries| ==> !Good(entries[j], agentId)
    decreases |entries| - k
  {
    hide PyEqual, IsHex64, Get;
    if k == |entries| || !Good(entries[k], agentId) {
      j := k;
    } else {
      j := ShapeStops(entries, agentId, k + 1);
    }
  }

  lemma BadShape(e: Json, agentId: Json)
    requires !Good(e, agentId)
    ensures ShapeOf(e, agentId)
            == if WellShaped(e) then Reject(Malformed, AgentMixed, Some(SeqNo(e))) else Reject(Malformed, EntryShape, None)
  {
    hide PyEqual, IsHex64, Get;
  }

  lemma GoodAll(req: Request)
    requires GoodUpTo(req, |req.Entries()|) && req.Entries() != []
    ensures Uniform(req.Entries())
  {
    hide PyEqual, IsHex64, Get, WellShaped, AgentOf;
    assert forall i | 0 <= i < |req.Entries()| :: Good(req.Entries()[i], AgentOf(req.Entries()));
  }

  lemma UniformGood(req: Request, k: nat)
    requires Uniform(req.Entries())
    ensures !MisshapenAt(req, k) && !ForeignAt(req, k)
  {
    hide PyEqual, IsHex64, Get, WellShaped, AgentOf;
  }

  lemma FirstBad(req: Request, j: nat, k: nat)
    requires j < |req.Entries()| && GoodUpTo(req, j) && !Good(req.Entries()[j], AgentOf(req.Entries()))
    requires MisshapenAt(req, k) || ForeignAt(req, k)
    ensures k == j
  {
    hide PyEqual, IsHex64, Get, WellShaped, AgentOf;
    assert !Good(req.Entries()[k], AgentOf(req.Entries())) by {
      BadIsBad(req, k);
    }
  }

  lemma BadIsBad(req: Request, k: nat)
    requires MisshapenAt(req, k) || ForeignAt(req, k)
    ensures k < |req.Entries()| && !Good(req.Entries()[k], AgentOf(req.Entries()))
  {
    hide PyEqual, IsHex64, Get, AgentOf, GoodUpTo;
  }

  lemma ShapeDecides(h: HashFn, req: Request)
    requires req.Entries() != [] && Shape(req.Entries(), AgentOf(req.Entries()), 0).Stop?
    ensures Continuity(h, req) == Shape(req.Entries(), AgentOf(req.Entries()), 0)
  {
    hide Shape, AgentOf;
  }

  lemma ShapeReports(h: HashFn, req: Request, rep: Report)
    requires !Uniform(req.Entries())
    ensures Continuity(h, req) == Stop(Ok(rep)) <==> ShapeReport(req, rep)
  {
    hide PyEqual, IsHex64, Get, WellShaped, AgentOf, Shape, ShapeOf, Uniform, Good, Continuity, MisshapenAt, ForeignAt,
         NumberAt;
    var entries, agentId := req.Entries(), AgentOf(req.Entries());
    if entries == [] {
      EmptyDecides(h, req);
    } else {
      var j := ShapeStops(entries, agentId, 0);
      if j == |entries| {
        GoodAll(req);
      } else {
        BadShape(entries[j], agentId);
        ShapeDecides(h, req);
        BadSituation(req, j);
        forall k: nat | MisshapenAt(req, k) || ForeignAt(req, k) ensures k == j {
          FirstBad(req, j, k);
        }
      }
    }
  }

  lemma BadSituation(req: Request, j: nat)
    requires j < |req.Entries()| && GoodUpTo(req, j) && !Good(req.Entries()[j], AgentOf(req.Entries()))
    ensures MisshapenAt(req, j) <==> !WellShaped(req.Entries()[j])
    ensures ForeignAt(req, j) <==> WellShaped(req.Entries()[j])
    ensures WellShaped(req.Entries()[j]) ==> NumberAt(req, j) == Some(SeqNo(req.Entries()[j]))
  {
    hide PyEqual, IsHex64, Get, AgentOf, GoodUpTo;
  }

  lemma EmptyDecides(h: HashFn, req: Request)
    requires req.Entries() == []
    ensures Continuity(h, req) == Stop(Ok(Failure(Malformed, EmptyOrNotAList, None)))
    ensures forall k: nat :: !MisshapenAt(req, k) && !ForeignAt(req, k)
  {}

  // ------------------------------------------------------------------ order and chain

  lemma OrderCases(seqs: seq<int>, fromSeq: int)
    ensures OrderCheck(seqs, fromSeq).Pass?
            <==> !(multiset(seqs) == multiset(Range(fromSeq, |seqs|)) && seqs != Range(fromSeq, |seqs|))
    ensures OrderCheck(seqs, fromSeq).Stop?
            ==> OrderCheck(seqs, fromSeq) == Reject(Broken, SeqOrder, FirstMisplaced(seqs, fromSeq))
  {
    if multiset(seqs) == multiset(Range(fromSeq, |seqs|)) {
      PermutationSorts(seqs, fromSeq, |seqs|);
    }
  }

  lemma RangeIs(seqs: seq<int>, fromSeq: int)
    requires forall i | 0 <= i < |seqs| :: seqs[i] == fromSeq + i
    ensures seqs == Range(fromSeq, |seqs|)
  {}

  lemma FirstOut(seqs: seq<int>, fromSeq: int) returns (k: nat)
    requires seqs != Range(fromSeq, |seqs|)
    ensures k < |seqs| && seqs[k] != fromSeq + k && forall i | 0 <= i < k :: seqs[i] == fromSeq + i
  {
    k := 0;
    while k < |seqs| && seqs[k] == fromSeq + k
      invariant k <= |seqs| && forall i | 0 <= i < k :: seqs[i] == fromSeq + i
    {
      k := k + 1;
    }
    if k == |seqs| {
      RangeIs(seqs, fromSeq);
    }
  }

  lemma MisplacedDecides(req: Request, k: nat)
    requires MisplacedAt(req, k)
    ensures OrderCheck(SeqNos(req.Entries()), req.fromSeq) == Reject(Broken, SeqOrder, NumberAt(req, k))
  {
    hide OrderCheck, WellShaped, SeqNo, Range, PyEqual, AgentOf;
    var seqs := SeqNos(req.Entries());
    OrderCases(seqs, req.fromSeq);
    FirstMisplacedAt(seqs, req.fromSeq, k);
  }

  lemma ReorderedMisplaced(req: Request) returns (k: nat)
    requires Uniform(req.Entries()) && req.fromSeq >= 1 && Reordered(req)
    ensures MisplacedAt(req, k)
  {
    hide WellShaped, SeqNo, PyEqual, AgentOf;
    k := FirstOut(SeqNos(req.Entries()), req.fromSeq);
  }

  lemma ReorderedExactly(req: Request)
    requires AllShaped(req.Entries())
    ensures OrderCheck(SeqNos(req.Entries()), req.fromSeq).Pass? <==> !Reordered(req)
  {
    hide OrderCheck, AllShaped, SeqNos, Range;
    OrderCases(SeqNos(req.Entries()), req.fromSeq);
  }

  lemma PassesHolds(h: HashFn, req: Request, i: nat)
    requires i < |req.Entries()| && AllShaped(req.Entries())
    ensures LinkPasses(h, req.Entries(), AgentOf(req.Entries()), req.fromSeq, i) <==> RecordHolds(h, req, i)
  {
    hide LinkOf, WellShaped, SeqNo, AgentOf, FieldsAllowed, Committed, HeadHolds, Get, JcsDumps;
    LinkCases(h, req.Entries()[i], AgentOf(req.Entries()), req.fromSeq, req.fromSeq + i, PrevHead(req.Entries(), i));
  }

  lemma UniformParts(req: Request)
    requires Uniform(req.Entries())
    ensures req.Entries() != [] && AllShaped(req.Entries())
  {
    hide WellShaped, AgentOf, PyEqual;
  }

  /** The record at which the chain stops, if it stops. */
  lemma ChainReachesRecord(h: HashFn, req: Request) returns (j: nat)
    requires Uniform(req.Entries()) && AllShaped(req.Entries()) && req.fromSeq >= 1 && !Reordered(req)
    ensures Chained(h, req, j)
    ensures j < |req.Entries()| ==> !RecordHolds(h, req, j)
    ensures var entries, agentId := req.Entries(), AgentOf(req.Entries());
            Chain(h, entries, agentId, req.fromSeq, 0)
            == if j == |entries| then Pass
               else LinkOf(h, entries[j], agentId, req.fromSeq, req.fromSeq + j, PrevHead(entries, j))
  {
    hide LinkOf, Chain, AllShaped, AgentOf, Uniform, Reordered, RecordHolds, LinkPasses;
    j := ChainStops(h, req.Entries(), AgentOf(req.Entries()), req.fromSeq, 0);
    forall i | 0 <= i < j ensures RecordHolds(h, req, i) {
      PassesHolds(h, req, i);
    }
    if j < |req.Entries()| {
      PassesHolds(h, req, j);
    }
  }

  lemma OneStop(h: HashFn, req: Request, j: nat, k: nat)
    requires j < |req.Entries()| && Chained(h, req, j) && AllShaped(req.Entries()) && !RecordHolds(h, req, j)
    requires k < |req.Entries()| && Chained(h, req, k) && !RecordHolds(h, req, k)
    ensures j == k
  {
    hide AllShaped, Uniform, Reordered, RecordHolds;
  }

  /** The four situations of a record that stops the chain. */
  lemma StopSituations(h: HashFn, req: Request, k: nat)
    requires NumberMissingAt(h, req, k) || BadFieldsAt(h, req, k) || HeadDiffersAt(h, req, k) || LinkDiffersAt(h, req, k)
    ensures k < |req.Entries()| && Chained(h, req, k) && AllShaped(req.Entries()) && !RecordHolds(h, req, k)
    ensures !Reordered(req)
  {
    hide WellShaped, SeqNo, AgentOf, FieldsAllowed, Committed, HeadHolds, Get, JcsDumps, Reordered, PyEqual;
  }

  lemma StoppedSituation(h: HashFn, req: Request, k: nat, rep: Report)
    requires k < |req.Entries()| && Chained(h, req, k) && AllShaped(req.Entries()) && !RecordHolds(h, req, k)
    ensures var entries := req.Entries();
            LinkOf(h, entries[k], AgentOf(entries), req.fromSeq, req.fromSeq + k, PrevHead(entries, k)) == Stop(Ok(rep))
            <==> || (NumberMissingAt(h, req, k) && rep == Failure(Broken, SeqGap, NumberAt(req, k)))
                 || (BadFieldsAt(h, req, k) && rep == Failure(Malformed, BadPreimage, NumberAt(req, k)))
                 || (HeadDiffersAt(h, req, k) && rep == Failure(Broken, HeadMismatch, NumberAt(req, k)))
                 || (LinkDiffersAt(h, req, k) && rep == Failure(Broken, LinkMismatch, NumberAt(req, k)))
  {
    hide LinkOf, WellShaped, SeqNo, AgentOf, FieldsAllowed, Committed, HeadHolds, Get, JcsDumps, Chained, Reordered;
    LinkCases(h, req.Entries()[k], AgentOf(req.Entries()), req.fromSeq, req.fromSeq + k, PrevHead(req.Entries(), k));
  }

  lemma ChainReports(h: HashFn, req: Request, rep: Report)
    requires Uniform(req.Entries()) && req.fromSeq >= 1 && !Chained(h, req, |req.Entries()|)
    ensures Continuity(h, req) == Stop(Ok(rep)) <==> ChainReport(h, req, rep)
  {
    hide Uniform, OrderCheck, Chain, AnchorCheck, CounterCheck, Continuity, Reordered, AllShaped, Chained, SeqNos,
         AgentOf,
         MisplacedAt, NumberMissingAt, BadFieldsAt, HeadDiffersAt, LinkDiffersAt, RecordHolds, NumberAt, LinkOf;
    UniformParts(req);
    UniformContinues(h, req);
    ReorderedExactly(req);
    if Reordered(req) {
      var j := ReorderedMisplaced(req);
      MisplacedDecides(req, j);
      forall k: nat | MisplacedAt(req, k) ensures NumberAt(req, k) == NumberAt(req, j) {
        MisplacedDecides(req, k);
      }
      NoStopWhenReordered(h, req);
    } else {
      NotMisplaced(req);
      ChainStopReports(h, req, rep);
    }
  }

  lemma NotMisplaced(req: Request)
    requires AllShaped(req.Entries()) && !Reordered(req)
    ensures forall k: nat :: !MisplacedAt(req, k)
  {
    hide Uniform, AllShaped, Reordered, SeqNo;
  }

  lemma NoStopWhenReordered(h: HashFn, req: Request)
    requires AllShaped(req.Entries()) && Reordered(req)
    ensures forall k: nat ::
              !NumberMissingAt(h, req, k) && !BadFieldsAt(h, req, k) && !HeadDiffersAt(h, req, k) && !LinkDiffersAt(h, req, k)
  {
    hide AllShaped, Reordered, NumberMissingAt, BadFieldsAt, HeadDiffersAt, LinkDiffersAt;
    forall k: nat
      ensures !NumberMissingAt(h, req, k) && !BadFieldsAt(h, req, k) && !HeadDiffersAt(h, req, k) && !LinkDiffersAt(h, req, k)
    {
      if NumberMissingAt(h, req, k) || BadFieldsAt(h, req, k) || HeadDiffersAt(h, req, k) || LinkDiffersAt(h, req, k) {
        StopSituations(h, req, k);
      }
    }
  }

  lemma ChainStopReports(h: HashFn, req: Request, rep: Report)
    requires Uniform(req.Entries()) && AllShaped(req.Entries()) && req.fromSeq >= 1 && !Reordered(req)
    requires !Chained(h, req, |req.Entries()|)
    ensures Chain(h, req.Entries(), AgentOf(req.Entries()), req.fromSeq, 0).Stop?
    ensures Chain(h, req.Entries(), AgentOf(req.Entries()), req.fromSeq, 0) == Stop(Ok(rep))
            <==> || (exists k: nat :: NumberMissingAt(h, req, k) && rep == Failure(Broken, SeqGap, NumberAt(req, k)))
                 || (exists k: nat :: BadFieldsAt(h, req, k) && rep == Failure(Malformed, BadPreimage, NumberAt(req, k)))
                 || (exists k: nat :: HeadDiffersAt(h, req, k) && rep == Failure(Broken, HeadMismatch, NumberAt(req, k)))
                 || (exists k: nat :: LinkDiffersAt(h, req, k) && rep == Failure(Broken, LinkMismatch, NumberAt(req, k)))
  {
    hide Uniform, Chain, Reordered, AllShaped, Chained, AgentOf, NumberMissingAt, BadFieldsAt, HeadDiffersAt,
         LinkDiffersAt,
         RecordHolds, NumberAt, LinkOf;
    var j := ChainReachesRecord(h, req);
    ChainedWithin(h, req, j);
    StoppedSituation(h, req, j, rep);
    StoppedStops(h, req, j);
    forall k: nat | NumberMissingAt(h, req, k) || BadFieldsAt(h, req, k) || HeadDiffersAt(h, req, k) || LinkDiffersAt(h, req, k)
      ensures k == j
    {
      StopSituations(h, req, k);
      OneStop(h, req, j, k);
    }
  }

  lemma ChainedWithin(h: HashFn, req: Request, j: nat)
    requires Chained(h, req, j)
    ensures j <= |req.Entries()|
  {
    hide Uniform, Reordered, RecordHolds;
  }

  lemma StoppedStops(h: HashFn, req: Request, j: nat)
    requires j < |req.Entries()| && AllShaped(req.Entries()) && !RecordHolds(h, req, j)
    ensures LinkOf(h, req.Entries()[j], AgentOf(req.Entries()), req.fromSeq, req.fromSeq + j, PrevHead(req.Entries(), j)).Stop?
  {
    hide LinkOf, AllShaped, RecordHolds, AgentOf;
    PassesHolds(h, req, j);
  }

  // ------------------------------------------------------------------ the anchor and the agent's counters

  predicate Connected(h: HashFn, req: Request) {
    Chained(h, req, |req.Entries()|)
  }

  /** The dictionary has the tag and the head of a checkpoint. */
  predicate CheckpointForm(c: Json) {
    c.Obj? && Get(c, "v") == Str("trail-head-ref/v1/checkpoint") && IsHexJson(Get(c, "head"))
  }

  predicate InclusionHolds(h: HashFn, c: Json, proof: Option<seq<string>>, root: Option<string>) {
    && proof.Some? && root.Some? && JcsBytes(c).Ok?
    && Included(h, Hex(h(JcsBytes(c).value)), proof.value, root.value)
  }

  predicate InclusionFails(h: HashFn, c: Json, proof: Option<seq<string>>, root: Option<string>) {
    || proof.None? || root.None?
    || (JcsBytes(c).Ok? && !Included(h, Hex(h(JcsBytes(c).value)), proof.value, root.value))
  }

  lemma ProvenCases(h: HashFn, c: Json, proof: Option<seq<string>>, root: Option<string>)
    ensures ProvenIn(h, c, proof, root) == Ok(true) <==> InclusionHolds(h, c, proof, root)
    ensures ProvenIn(h, c, proof, root) == Ok(false) <==> InclusionFails(h, c, proof, root)
  {
    hide Included, JcsDumps;
  }

  /** No anchor, or one for this agent, proven in its root, at the record before the window. */
  predicate AnchorHolds(h: HashFn, req: Request) {
    var a := req.anchor;
    || a == Null
    || (&& CheckpointForm(a) && Get(a, "seq").Int? && PyEqual(Get(a, "agent_id"), AgentOf(req.Entries()))
        && InclusionHolds(h, a, req.anchorProof, req.anchorRoot)
        && req.fromSeq > 1 && Get(a, "seq") == Int(req.fromSeq - 1)
        && req.Entries() != [] && req.Entries()[0].Obj? && Get(req.Entries()[0], "prev_head") == Get(a, "head"))
  }

  /** What is wrong with an anchor. */
  ghost predicate AnchorReport(h: HashFn, req: Request, rep: Report) {
    var a := req.anchor;
    && Connected(h, req) && a != Null
    && if !CheckpointForm(a) || !Get(a, "seq").Int? then rep == Failure(AnchorUnproven, AnchorShape, None)
       else if !PyEqual(Get(a, "agent_id"), AgentOf(req.Entries())) then
         rep == Failure(AnchorUnproven, AnchorOtherAgent, None)
       else if InclusionFails(h, a, req.anchorProof, req.anchorRoot) then
         rep == Failure(AnchorUnproven, AnchorNotInRoot, None)
       else
         && InclusionHolds(h, a, req.anchorProof, req.anchorRoot)
         && if req.fromSeq == 1 || Get(a, "seq") != Int(req.fromSeq - 1) then
              rep == Failure(AnchorUnproven, AnchorNotAdjacent, Some(req.fromSeq))
            else !AnchorHolds(h, req) && rep == Failure(AnchorMismatch, PrevHeadDiffersFromAnchor, Some(req.fromSeq))
  }

  lemma AnchorSteps(h: HashFn, req: Request, agentId: Json)
    requires req.Entries() != [] && WellShaped(req.Entries()[0])
    ensures var a, first := req.anchor, req.Entries()[0];
            AnchorCheck(h, req, agentId)
            == if a == Null then Pass
               else if !CheckpointForm(a) || !Get(a, "seq").Int? then Reject(AnchorUnproven, AnchorShape, None)
               else if !PyEqual(Get(a, "agent_id"), agentId) then Reject(AnchorUnproven, AnchorOtherAgent, None)
               else if InclusionFails(h, a, req.anchorProof, req.anchorRoot) then Reject(AnchorUnproven, AnchorNotInRoot, None)
               else if !InclusionHolds(h, a, req.anchorProof, req.anchorRoot) then Stop(Raise(ValueError))
               else if req.fromSeq == 1 || Get(a, "seq") != Int(req.fromSeq - 1) then
                 Reject(AnchorUnproven, AnchorNotAdjacent, Some(req.fromSeq))
               else if Get(first, "prev_head") != Get(a, "head") then
                 Reject(AnchorMismatch, PrevHeadDiffersFromAnchor, Some(req.fromSeq))
               else Pass
  {
    hide ProvenIn, Included, Get, PyEqual, IsHex64, InclusionHolds, InclusionFails, JcsDumps;
    ProvenCases(h, req.anchor, req.anchorProof, req.anchorRoot);
    ProvenRaises(h, req.anchor, req.anchorProof, req.anchorRoot, ValueError);
    OnlyValueError(h, req.anchor, req.anchorProof, req.anchorRoot);
  }

  lemma OnlyValueError(h: HashFn, c: Json, proof: Option<seq<string>>, root: Option<string>)
    ensures ProvenIn(h, c, proof, root).Raise? ==> ProvenIn(h, c, proof, root) == Raise(ValueError)
  {
    hide ProvenIn;
    if ProvenIn(h, c, proof, root).Raise? {
      ProvenRaises(h, c, proof, root, ProvenIn(h, c, proof, root).exception);
    }
  }

  lemma AnchorCases(h: HashFn, req: Request, rep: Report)
    requires Connected(h, req) && req.fromSeq >= 1 && req.Entries() != [] && WellShaped(req.Entries()[0])
    ensures AnchorCheck(h, req, AgentOf(req.Entries())).Pass? <==> AnchorHolds(h, req)
    ensures AnchorCheck(h, req, AgentOf(req.Entries())) == Stop(Ok(rep)) <==> AnchorReport(h, req, rep)
  {
    hide Connected, AnchorCheck, CheckpointForm, Get, PyEqual, AgentOf, WellShaped, InclusionHolds, InclusionFails;
    AnchorSteps(h, req, AgentOf(req.Entries()));
    ShapedObject(req.Entries()[0]);
    FormIsObject(req.anchor);
    NotBoth(h, req.anchor, req.anchorProof, req.anchorRoot);
  }

  lemma FormIsObject(c: Json)
    ensures CheckpointForm(c) ==> c.Obj?
  {}

  lemma NotBoth(h: HashFn, c: Json, proof: Option<seq<string>>, root: Option<string>)
    ensures !(InclusionHolds(h, c, proof, root) && InclusionFails(h, c, proof, root))
  {
    hide Included, JcsDumps;
  }

  lemma ShapedObject(e: Json)
    requires WellShaped(e)
    ensures e.Obj?
  {}

  predicate Counted(req: Request, i: nat) {
    i < |req.Entries()| && req.Entries()[i].Obj? && Has(req.Entries()[i], "agent_seq")
  }

  function CounterAt(req: Request, i: nat): Json {
    if i < |req.Entries()| && req.Entries()[i].Obj? then Get(req.Entries()[i], "agent_seq") else Null
  }

  predicate AllCounted(req: Request) {
    forall i: nat | i < |req.Entries()| :: Counted(req, i)
  }

  predicate NoneCounted(req: Request) {
    forall i: nat | i < |req.Entries()| :: !Counted(req, i)
  }

  /** The counter of record i + 1 is the next after that of record i. */
  predicate Counts(req: Request, i: nat) {
    CounterAt(req, i).Int? && CounterAt(req, i + 1) == Int(CounterAt(req, i).n + 1)
  }

  predicate StartsRight(req: Request) {
    req.fromSeq == 1 ==> CounterAt(req, 0) == Int(1)
  }

  /** No record carries a counter, or all do and they are consecutive, from 1 on in a full log. */
  predicate CountersHold(req: Request) {
    || NoneCounted(req)
    || (AllCounted(req) && StartsRight(req) && forall i: nat | i + 1 < |req.Entries()| :: Counts(req, i))
  }

  /** The first counter that is not the next is that of record k. */
  predicate JumpAt(req: Request, k: nat) {
    && 0 < k < |req.Entries()| && AllCounted(req) && StartsRight(req)
    && (forall i: nat | i + 1 < k :: Counts(req, i)) && CounterAt(req, k - 1).Int? && !Counts(req, k - 1)
  }

  ghost predicate CounterReport(h: HashFn, req: Request, rep: Report) {
    && Connected(h, req) && AnchorHolds(h, req) && !NoneCounted(req)
    && if !AllCounted(req) then rep == Failure(AgentGap, AgentSeqPartial, None)
       else if !StartsRight(req) then rep == Failure(AgentGap, AgentSeqNotContiguous, Some(1))
       else exists k: nat :: JumpAt(req, k) && rep == Failure(AgentGap, AgentSeqNotContiguous, NumberAt(req, k))
  }

  /** Counters of records that hold are null or positive integers. */
  lemma CounterKind(h: HashFn, req: Request, i: nat)
    requires Connected(h, req) && i < |req.Entries()|
    ensures req.Entries()[i].Obj? && WellShaped(req.Entries()[i])
    ensures CounterAt(req, i) == Null || CounterAt(req, i).Int?
    ensures Counted(req, i) <==> Has(req.Entries()[i], "agent_seq")
  {
    assert RecordHolds(h, req, i);
    hide Chained, Committed, HeadHolds, Get, Has, IsHex64, AgentOf, JcsDumps, Uniform;
  }

  /** The counter check stops with what the first pair that does not count gives. */
  lemma {:induction false} CountersStop(req: Request, k: nat) returns (j: nat)
    requires k < |req.Entries()| && AllShaped(req.Entries())
    requires forall i: nat | i < |req.Entries()| :: CounterAt(req, i) == Null || CounterAt(req, i).Int?
    ensures k <= j < |req.Entries()| && forall i: nat | k <= i < j :: Counts(req, i)
    ensures j + 1 < |req.Entries()| ==> !Counts(req, j)
    ensures Counters(req.Entries(), k)
            == if j + 1 == |req.Entries()| then Pass
               else if !CounterAt(req, j).Int? then Stop(Raise(TypeError))
               else Reject(AgentGap, AgentSeqNotContiguous, NumberAt(req, j + 1))
    decreases |req.Entries()| - k
  {
    hide Get, IsHex64;
    if k + 1 == |req.Entries()| {
      j := k;
    } else {
      CounterPair(req, k);
      if Counts(req, k) {
        j := CountersStop(req, k + 1);
      } else {
        j := k;
      }
    }
  }

  lemma CounterPair(req: Request, k: nat)
    requires k + 1 < |req.Entries()| && AllShaped(req.Entries())
    requires CounterAt(req, k) == Null || CounterAt(req, k).Int?
    requires CounterAt(req, k + 1) == Null || CounterAt(req, k + 1).Int?
    ensures Counters(req.Entries(), k)
            == if !CounterAt(req, k).Int? then Stop(Raise(TypeError))
               else if !Counts(req, k) then Reject(AgentGap, AgentSeqNotContiguous, NumberAt(req, k + 1))
               else Counters(req.Entries(), k + 1)
  {
    hide Get, IsHex64;
    ShapedObject(req.Entries()[k]);
    ShapedObject(req.Entries()[k + 1]);
  }

  lemma CounterWords(req: Request)
    requires req.Entries() != [] && AllShaped(req.Entries())
    requires forall i: nat | i < |req.Entries()| :: CounterAt(req, i) == Null || CounterAt(req, i).Int?
    ensures (forall i | 0 <= i < |req.Entries()| :: !Has(req.Entries()[i], "agent_seq")) <==> NoneCounted(req)
    ensures (exists i | 0 <= i < |req.Entries()| :: !Has(req.Entries()[i], "agent_seq")) <==> !AllCounted(req)
    ensures (req.fromSeq == 1 && AsInt(Get(req.Entries()[0], "agent_seq")) != Some(1)) <==> !StartsRight(req)
  {
    hide Get, Has, IsHex64;
    forall i: nat | i < |req.Entries()| ensures Counted(req, i) <==> Has(req.Entries()[i], "agent_seq") {
      ShapedObject(req.Entries()[i]);
    }
    ShapedObject(req.Entries()[0]);
  }

  lemma CounterSteps(req: Request)
    requires req.Entries() != [] && AllShaped(req.Entries())
    requires forall i: nat | i < |req.Entries()| :: CounterAt(req, i) == Null || CounterAt(req, i).Int?
    ensures CounterCheck(req.Entries(), req.fromSeq)
            == if NoneCounted(req) then Pass
               else if !AllCounted(req) then Reject(AgentGap, AgentSeqPartial, None)
               else if !StartsRight(req) then Reject(AgentGap, AgentSeqNotContiguous, Some(1))
               else Counters(req.Entries(), 0)
  {
    hide Get, Has, WellShaped, NoneCounted, AllCounted, StartsRight, CounterAt, Counters;
    CounterWords(req);
  }

  lemma CountersTable(req: Request, rep: Report)
    requires req.Entries() != [] && AllShaped(req.Entries()) && AllCounted(req) && StartsRight(req)
    requires forall i: nat | i < |req.Entries()| :: CounterAt(req, i) == Null || CounterAt(req, i).Int?
    ensures Counters(req.Entries(), 0).Pass? <==> forall i: nat | i + 1 < |req.Entries()| :: Counts(req, i)
    ensures Counters(req.Entries(), 0) == Stop(Ok(rep))
            <==> exists k: nat :: JumpAt(req, k) && rep == Failure(AgentGap, AgentSeqNotContiguous, NumberAt(req, k))
  {
    hide AllShaped, AllCounted, StartsRight, CounterAt, Counters, NumberAt;
    var j := CountersStop(req, 0);
    forall k: nat | JumpAt(req, k) ensures k == j + 1 {
      JumpIsAt(req, j, k);
    }
    if j + 1 < |req.Entries()| && CounterAt(req, j).Int? {
      assert JumpAt(req, j + 1);
    }
  }

  lemma JumpIsAt(req: Request, j: nat, k: nat)
    requires j < |req.Entries()| && (forall i: nat | i < j :: Counts(req, i))
    requires j + 1 < |req.Entries()| ==> !Counts(req, j)
    requires JumpAt(req, k)
    ensures k == j + 1
  {
    hide AllCounted, StartsRight, CounterAt, Counts;
    assert !Counts(req, k - 1);
  }

  lemma CounterCases(h: HashFn, req: Request, rep: Report)
    requires Connected(h, req) && AnchorHolds(h, req) && req.Entries() != [] && AllShaped(req.Entries())
    ensures CounterCheck(req.Entries(), req.fromSeq).Pass? <==> CountersHold(req)
    ensures CounterCheck(req.Entries(), req.fromSeq) == Stop(Ok(rep)) <==> CounterReport(h, req, rep)
  {
    hide Connected, AnchorHolds, AllShaped, NoneCounted, AllCounted, StartsRight, CounterAt, Counters, CounterCheck,
         JumpAt,
         Counts, NumberAt;
    forall i: nat | i < |req.Entries()| ensures CounterAt(req, i) == Null || CounterAt(req, i).Int? {
      CounterKind(h, req, i);
    }
    CounterSteps(req);
    if AllCounted(req) && StartsRight(req) {
      CountersTable(req, rep);
    }
  }

  // ------------------------------------------------------------------ continuity

  /** The records are a chain from the anchor on, with the agent's counters in step. */
  predicate Continuous(h: HashFn, req: Request) {
    req.Entries() != [] && Connected(h, req) && AnchorHolds(h, req) && CountersHold(req)
  }

  ghost predicate ContinuityReport(h: HashFn, req: Request, rep: Report) {
    ShapeReport(req, rep) || ChainReport(h, req, rep) || AnchorReport(h, req, rep) || CounterReport(h, req, rep)
  }

  lemma ReportsAfter(h: HashFn, req: Request, rep: Report)
    ensures ChainReport(h, req, rep) ==> Uniform(req.Entries()) && req.fromSeq >= 1
    ensures AnchorReport(h, req, rep) || CounterReport(h, req, rep) ==> Connected(h, req)
    ensures Connected(h, req) ==> Uniform(req.Entries()) && req.fromSeq >= 1 && !Reordered(req)
    ensures ChainReport(h, req, rep) ==> !Connected(h, req)
    ensures Uniform(req.Entries()) ==> !ShapeReport(req, rep)
  {
    hide WellShaped, AgentOf, PyEqual, Reordered, RecordHolds, AnchorHolds, CheckpointForm, NoneCounted, AllCounted,
         StartsRight, NumberAt, SeqNo, FieldsAllowed, Committed, HeadHolds, JcsDumps, Get, InclusionHolds,
         InclusionFails,
         MisplacedAt, NumberMissingAt, BadFieldsAt, HeadDiffersAt, LinkDiffersAt, MisshapenAt, ForeignAt, Uniform;
    forall k: nat | MisplacedAt(req, k) ensures Uniform(req.Entries()) && req.fromSeq >= 1 && !Connected(h, req) {
      MisplacedParts(h, req, k);
    }
    forall k: nat | NumberMissingAt(h, req, k) || BadFieldsAt(h, req, k) || HeadDiffersAt(h, req, k) || LinkDiffersAt(h, req, k)
      ensures Uniform(req.Entries()) && req.fromSeq >= 1 && !Connected(h, req)
    {
      StopSituations(h, req, k);
      StopNotConnected(h, req, k);
    }
    if Uniform(req.Entries()) {
      UniformParts(req);
      forall k: nat ensures !MisshapenAt(req, k) && !ForeignAt(req, k) {
        UniformGood(req, k);
      }
    }
  }

  lemma MisplacedParts(h: HashFn, req: Request, k: nat)
    requires MisplacedAt(req, k)
    ensures Uniform(req.Entries()) && req.fromSeq >= 1 && !Connected(h, req)
  {
    hide WellShaped, AgentOf, PyEqual, Reordered, RecordHolds, SeqNo;
  }

  lemma StopNotConnected(h: HashFn, req: Request, k: nat)
    requires k < |req.Entries()| && Chained(h, req, k) && AllShaped(req.Entries()) && !RecordHolds(h, req, k)
    ensures Uniform(req.Entries()) && req.fromSeq >= 1 && !Connected(h, req)
  {
    hide Uniform, AllShaped, Reordered, RecordHolds;
  }

  lemma ConnectedContinues(h: HashFn, req: Request)
    requires Connected(h, req) && Uniform(req.Entries()) && AllShaped(req.Entries()) && req.fromSeq >= 1
    requires req.Entries() != [] && WellShaped(req.Entries()[0])
    ensures Continuity(h, req)
            == if AnchorCheck(h, req, AgentOf(req.Entries())).Stop? then AnchorCheck(h, req, AgentOf(req.Entries()))
               else CounterCheck(req.Entries(), req.fromSeq)
  {
    ReportsAfter(h, req, Failure(Broken, SeqGap, None));
    hide Connected, Chained, Uniform, AllShaped, OrderCheck, Chain, AnchorCheck, CounterCheck, Continuity, Reordered,
         SeqNos,
         AgentOf, LinkOf, ChainReport, ShapeReport, AnchorReport, CounterReport;
    UniformContinues(h, req);
    ReorderedExactly(req);
    var j := ChainReachesRecord(h, req);
    if j < |req.Entries()| {
      ConnectedAt(h, req, j);
    } else {
      ChainedWithin(h, req, j);
    }
  }

  lemma ConnectedAt(h: HashFn, req: Request, j: nat)
    requires Connected(h, req) && j < |req.Entries()| && AllShaped(req.Entries())
    ensures RecordHolds(h, req, j)
  {
    hide Uniform, AllShaped, Reordered, RecordHolds;
  }

  /** Checks 1 to 3 pass exactly for continuous records, and otherwise report the first situation. */
  lemma ContinuityExactly(h: HashFn, req: Request, rep: Report)
    ensures Continuity(h, req).Pass? <==> Continuous(h, req)
    ensures Continuity(h, req) == Stop(Ok(rep)) <==> ContinuityReport(h, req, rep)
  {
    hide Connected, Uniform, OrderCheck, Chain, AnchorCheck, CounterCheck, Continuity, Reordered, SeqNos, AgentOf,
         LinkOf,
         ChainReport, ShapeReport, AnchorReport, CounterReport, AnchorHolds, CountersHold, AllShaped, WellShaped;
    ReportsAfter(h, req, rep);
    if !Uniform(req.Entries()) {
      ShapeReports(h, req, rep);
      NotUniformAnswers(h, req);
    } else {
      UniformParts(req);
      if req.fromSeq < 1 {
        UniformContinues(h, req);
      } else if !Connected(h, req) {
        NotConnectedStops(h, req, rep);
      } else {
        FirstOfAll(req.Entries());
        ConnectedContinues(h, req);
        AnchorCases(h, req, rep);
        if AnchorHolds(h, req) {
          CounterCases(h, req, rep);
          NoAnchorReport(h, req, rep);
        } else {
          NoCounterReport(h, req, rep);
        }
      }
    }
  }

  lemma FirstOfAll(entries: seq<Json>)
    requires AllShaped(entries) && entries != []
    ensures WellShaped(entries[0])
  {
    hide WellShaped;
  }

  lemma NoAnchorReport(h: HashFn, req: Request, rep: Report)
    requires AnchorHolds(h, req)
    ensures !AnchorReport(h, req, rep)
  {
    hide Connected, CheckpointForm, Get, PyEqual, AgentOf, InclusionHolds, InclusionFails;
    FormIsObject(req.anchor);
    NotBoth(h, req.anchor, req.anchorProof, req.anchorRoot);
  }

  lemma NoCounterReport(h: HashFn, req: Request, rep: Report)
    requires !AnchorHolds(h, req)
    ensures !CounterReport(h, req, rep)
  {
    hide AnchorHolds, Connected, NoneCounted, AllCounted;
  }

  lemma NotConnectedStops(h: HashFn, req: Request, rep: Report)
    requires Uniform(req.Entries()) && AllShaped(req.Entries()) && req.fromSeq >= 1 && !Connected(h, req)
    ensures Continuity(h, req).Stop? && (Continuity(h, req) == Stop(Ok(rep)) <==> ChainReport(h, req, rep))
  {
    hide Uniform, OrderCheck, Chain, AnchorCheck, CounterCheck, Continuity, Reordered, SeqNos, AgentOf, LinkOf,
         ChainReport, AllShaped, Chained, RecordHolds;
    ChainReports(h, req, rep);
    UniformContinues(h, req);
    ReorderedExactly(req);
    if !Reordered(req) {
      ChainStopReports(h, req, rep);
    }
  }

  // ------------------------------------------------------------------ the checkpoint

  predicate AgeAsked(req: Request) {
    req.maxAgeSeconds.Some? && req.now.Some?
  }

  /** The age of the checkpoint in microseconds, where both times can be read. */
  function Age(iso: IsoParser, req: Request): Option<int> {
    if req.now.None? || !req.checkpoint.Obj? || !Has(req.checkpoint, "period_end") then None
    else
      match (ParseTs(iso, Str(req.now.value)), ParseTs(iso, Get(req.checkpoint, "period_end")))
      case (Ok(now), Ok(end)) => Some(now - end)
      case _ => None
  }

  predicate TooOld(iso: IsoParser, req: Request) {
    AgeAsked(req) && Age(iso, req).Some? && Age(iso, req).value as real > req.maxAgeSeconds.value * 1_000_000.0
  }

  predicate FreshEnough(iso: IsoParser, req: Request) {
    || !AgeAsked(req)
    || (Age(iso, req).Some? && Age(iso, req).value as real <= req.maxAgeSeconds.value * 1_000_000.0)
  }

  function Scope(req: Request): Option<WindowAnchor> {
    Some(if req.anchor != Null then Certified else if req.fromSeq == 1 then Genesis else Uncertified)
  }

  /** What the records are worth against an accepted checkpoint at seq n. */
  ghost predicate EndReport(req: Request, n: int, rep: Report)
    requires req.checkpoint.Obj? && AllShaped(req.Entries())
  {
    var last, end, window := req.fromSeq + |req.Entries()| - 1, Get(req.checkpoint, "period_end"), req.fromSeq > 1;
    if n < req.fromSeq then
      rep == Report(ContinuityOnly, NotEvaluated, CheckpointBeforeWindow, None, Some(last), Some(n), None, Null, Scope(req), None)
    else if last < n then
      rep == Report(Truncated, Failed, LogShorterThanCheckpoint, Some(last + 1), Some(last), Some(n), None, Null, None, None)
    else if !WellShaped(req.Entries()[n - req.fromSeq])
            || Get(req.Entries()[n - req.fromSeq], "head") != Get(req.checkpoint, "head") then
      rep == Failure(CheckpointMismatch, HeadDiffersFromCheckpoint, Some(n))
    else
      && Has(req.checkpoint, "period_end")
      && if last == n then
           rep == Report(if window then WindowComplete else Complete, if window then ProvenFromSeq else Proven,
                         NoReason, None, Some(last), None, None, end, Scope(req), None)
         else
           rep == Report(if window then WindowCompleteUnsealedTail else CompleteUnsealedTail,
                         if window then ProvenFromSeqThroughCheckpoint else ProvenThroughCheckpoint,
                         NoReason, None, Some(last), Some(n), Some(last - n), end, Scope(req), None)
  }

  ghost predicate CheckpointReport(h: HashFn, iso: IsoParser, req: Request, rep: Report) {
    var c, last := req.checkpoint, req.fromSeq + |req.Entries()| - 1;
    && Continuous(h, req) && AllShaped(req.Entries())
    && if c == Null then
         rep == Report(ContinuityOnly, NotEvaluated, NoCheckpoint, None, Some(last), None, None, Null, Scope(req), None)
       else if !CheckpointForm(c) || AsInt(Get(c, "seq")).None? then rep == Failure(Malformed, CheckpointShape, None)
       else if !PyEqual(Get(c, "agent_id"), AgentOf(req.Entries())) then
         rep == Failure(CheckpointUnproven, CheckpointOtherAgent, None)
       else if InclusionFails(h, c, req.proof, req.root) then rep == Failure(CheckpointUnproven, NotInRoot, None)
       else
         && InclusionHolds(h, c, req.proof, req.root)
         && if TooOld(iso, req) then
              rep == Failure(StaleCheckpoint, CheckpointTooOld, None).(checkpointAge := Some(WholeSeconds(Age(iso, req).value)))
            else FreshEnough(iso, req) && EndReport(req, AsInt(Get(c, "seq")).value, rep)
  }

  lemma AgeCases(iso: IsoParser, req: Request)
    requires req.checkpoint.Obj?
    ensures AgeCheck(iso, req).Pass? <==> FreshEnough(iso, req)
    ensures TooOld(iso, req) ==>
              AgeCheck(iso, req)
              == Stop(Ok(Failure(StaleCheckpoint, CheckpointTooOld, None).(checkpointAge := Some(WholeSeconds(Age(iso, req).value)))))
    ensures !FreshEnough(iso, req) && !TooOld(iso, req) ==> AgeCheck(iso, req).Stop? && AgeCheck(iso, req).result.Raise?
  {
    hide Get, Has, ParseTs, WholeSeconds;
  }

  lemma CheckpointSteps(h: HashFn, iso: IsoParser, req: Request, agentId: Json)
    ensures var c := req.checkpoint;
            CheckpointCheck(h, iso, req, agentId)
            == if !CheckpointForm(c) || AsInt(Get(c, "seq")).None? then Reject(Malformed, CheckpointShape, None)
               else if !PyEqual(Get(c, "agent_id"), agentId) then Reject(CheckpointUnproven, CheckpointOtherAgent, None)
               else if InclusionFails(h, c, req.proof, req.root) then Reject(CheckpointUnproven, NotInRoot, None)
               else if !InclusionHolds(h, c, req.proof, req.root) then Stop(Raise(ValueError))
               else AgeCheck(iso, req)
  {
    hide ProvenIn, Included, Get, PyEqual, IsHex64, InclusionHolds, InclusionFails, JcsDumps, AgeCheck;
    ProvenCases(h, req.checkpoint, req.proof, req.root);
    OnlyValueError(h, req.checkpoint, req.proof, req.root);
  }

  lemma EndCases(req: Request, n: int, rep: Report)
    requires req.Entries() != [] && AllShaped(req.Entries()) && req.checkpoint.Obj?
    requires AsInt(Get(req.checkpoint, "seq")) == Some(n)
    ensures AgainstCheckpoint(req, req.fromSeq + |req.Entries()| - 1) == Ok(rep) <==> EndReport(req, n, rep)
  {
    hide Get, Has, WellShaped;
  }

  lemma NoCheckpointReport(h: HashFn, iso: IsoParser, req: Request)
    requires req.Entries() != [] && AllShaped(req.Entries()) && req.checkpoint == Null
    ensures Completed(h, iso, req)
            == Ok(Report(ContinuityOnly, NotEvaluated, NoCheckpoint, None, Some(req.fromSeq + |req.Entries()| - 1), None, None,
                         Null, Scope(req), None))
  {
    hide AllShaped;
  }

  lemma CompletedCases(h: HashFn, iso: IsoParser, req: Request, rep: Report)
    requires Continuous(h, req) && AllShaped(req.Entries()) && req.Entries() != []
    ensures Completed(h, iso, req) == Ok(rep) <==> CheckpointReport(h, iso, req, rep)
  {
    hide Continuous, CheckpointForm, Get, PyEqual, AgentOf, AllShaped, InclusionHolds, InclusionFails, AgeCheck,
         EndReport,
         AgainstCheckpoint, CheckpointCheck, TooOld, FreshEnough, AsInt, WholeSeconds, Age, Scope;
    if req.checkpoint == Null {
      NoCheckpointReport(h, iso, req);
    } else {
      FormIsObject(req.checkpoint);
      NotBoth(h, req.checkpoint, req.proof, req.root);
      CheckpointSteps(h, iso, req, AgentOf(req.Entries()));
      if CheckpointForm(req.checkpoint) {
        AgeCases(iso, req);
        OldOrFresh(iso, req);
        if AsInt(Get(req.checkpoint, "seq")).Some? {
          EndCases(req, AsInt(Get(req.checkpoint, "seq")).value, rep);
        }
      }
    }
  }

  lemma OldOrFresh(iso: IsoParser, req: Request)
    ensures !(TooOld(iso, req) && FreshEnough(iso, req))
  {
    hide Age;
  }

  // ------------------------------------------------------------------ main result

  /** The situations of the table, each with its report. */
  ghost predicate ReportBecause(h: HashFn, iso: IsoParser, req: Request, rep: Report) {
    ContinuityReport(h, req, rep) || CheckpointReport(h, iso, req, rep)
  }

  /** verify_trail gives a report exactly in the situations the table lists for it. */
  lemma ReportExactly(h: HashFn, iso: IsoParser, req: Request, rep: Report)
    ensures VerifyTrail(h, iso, req) == Ok(rep) <==> ReportBecause(h, iso, req, rep)
  {
    hide Continuity, Completed, ContinuityReport, CheckpointReport, Continuous, AllShaped;
    ContinuityExactly(h, req, rep);
    ReportOfContinuous(h, iso, req, rep);
    if Continuity(h, req).Pass? {
      ContinuityPasses(h, req);
      CompletedCases(h, iso, req, rep);
    }
  }

  lemma ReportOfContinuous(h: HashFn, iso: IsoParser, req: Request, rep: Report)
    ensures CheckpointReport(h, iso, req, rep) ==> Continuous(h, req)
  {
    hide Continuous, CheckpointForm, Get, PyEqual, AgentOf, AllShaped, InclusionHolds, InclusionFails, EndReport,
         TooOld,
         FreshEnough, AsInt, WholeSeconds, Age, Scope;
  }

  /**
   What continuity without completeness means: every head is the hash of its own record's fields, every
   record names its predecessor's head, and under an anchor the first names the head of a checkpoint
   proven in the anchor's root.
   */
  lemma ContinuityOnlyMeans(h: HashFn, iso: IsoParser, req: Request)
    requires VerifyTrail(h, iso, req).Ok? && VerifyTrail(h, iso, req).value.verdict == ContinuityOnly
    ensures req.fromSeq >= 1 && req.Entries() != [] && AllShaped(req.Entries())
    ensures forall i: nat | i < |req.Entries()| :: RecordHolds(h, req, i)
    ensures CountersHold(req) && VerifyTrail(h, iso, req).value.windowAnchor == Scope(req)
    ensures req.anchor != Null ==>
              && InclusionHolds(h, req.anchor, req.anchorProof, req.anchorRoot) && req.anchor.Obj? && req.Entries()[0].Obj?
              && Get(req.anchor, "seq") == Int(req.fromSeq - 1)
              && Get(req.Entries()[0], "prev_head") == Get(req.anchor, "head")
  {
    hide VerifyTrail, ShapeReport, ChainReport, AnchorReport, CounterReport, CheckpointReport, Continuous, AllShaped,
         RecordHolds, InclusionHolds, Get, CountersHold, Scope;
    var rep := VerifyTrail(h, iso, req).value;
    ReportExactly(h, iso, req, rep);
    OnlyCompleted(h, iso, req, rep);
    ContinuousParts(h, req);
  }

  lemma OnlyCompleted(h: HashFn, iso: IsoParser, req: Request, rep: Report)
    requires rep.verdict == ContinuityOnly
    ensures !ContinuityReport(h, req, rep)
    ensures CheckpointReport(h, iso, req, rep) ==> Continuous(h, req) && AllShaped(req.Entries()) && rep.windowAnchor == Scope(req)
  {
    hide Continuous, CheckpointForm, Get, PyEqual, AgentOf, AllShaped, InclusionHolds, InclusionFails, TooOld, Has,
         FreshEnough, AsInt, WholeSeconds, Age, Scope, MisplacedAt, NumberMissingAt, BadFieldsAt, HeadDiffersAt,
         LinkDiffersAt, MisshapenAt, ForeignAt, NumberAt, JumpAt, NoneCounted, AllCounted, Connected, AnchorHolds,
         StartsRight;
  }

  lemma ContinuousParts(h: HashFn, req: Request)
    requires Continuous(h, req) && AllShaped(req.Entries())
    ensures req.fromSeq >= 1 && req.Entries() != [] && CountersHold(req)
    ensures forall i: nat | i < |req.Entries()| :: RecordHolds(h, req, i)
    ensures req.anchor != Null ==>
              && InclusionHolds(h, req.anchor, req.anchorProof, req.anchorRoot) && req.anchor.Obj? && req.Entries()[0].Obj?
              && Get(req.anchor, "seq") == Int(req.fromSeq - 1)
              && Get(req.Entries()[0], "prev_head") == Get(req.anchor, "head")
  {
    hide CheckpointForm, Get, PyEqual, AgentOf, AllShaped, InclusionHolds, CountersHold, Uniform, Reordered,
         RecordHolds;
    FormIsObject(req.anchor);
  }
}
