/** Honest logs verify, and each kind of damage to one gets its own verdict. */
module TrailDamage {
  import opened Python
  import opened Bytes
  import opened Order
  import opened Jcs
  import opened TrailHead
  import opened TrailTheorems

  /** The records of the log at these positions, in this order. */
  function Select(log: seq<Entry>, positions: seq<nat>): (r: seq<Json>)
    requires forall i | 0 <= i < |positions| :: positions[i] < |log|
    ensures |r| == |positions|
    ensures forall i | 0 <= i < |positions| :: r[i] == EntryJson(log[positions[i]])
  {
    if positions == [] then [] else [EntryJson(log[positions[0]])] + Select(log, positions[1..])
  }

  ghost predicate Positions(log: seq<Entry>, positions: seq<nat>) {
    forall i | 0 <= i < |positions| :: positions[i] < |log|
  }

  // ------------------------------------------------------------------ honest records

  lemma EntryLookup(x: Entry, key: string)
    ensures Lookup(EntryJson(x).fields, key) ==
      if key == "agent_id" then Some(Str(x.agentId)) else if key == "seq" then Some(Int(x.seqNo))
      else if key == "action_ref" then Some(Str(x.actionRef))
      else if key == "prev_head" && x.prevHead.Some? then Some(Str(x.prevHead.value))
      else if key == "agent_seq" && x.agentSeq.Some? then Some(Int(x.agentSeq.value))
      else if key == "head" then Some(Str(x.head)) else None
  {
    var three := [Field("agent_id", Str(x.agentId)), Field("seq", Int(x.seqNo)), Field("action_ref", Str(x.actionRef))];
    var prev, counter := Optional("prev_head", OptStr(x.prevHead)), Optional("agent_seq", OptInt(x.agentSeq));
    LookupAppend(three + prev + counter, [Field("head", Str(x.head))], key);
    LookupAppend(three + prev, counter, key);
    LookupAppend(three, prev, key);
    LookupOptional("prev_head", OptStr(x.prevHead), key);
    LookupOptional("agent_seq", OptInt(x.agentSeq), key);
    LookupOptional("head", Str(x.head), key);
    LookupThree(three[0], three[1], three[2], key);
    KeysDiffer();
  }

  lemma LookupThree(a: Field, b: Field, c: Field, key: string)
    ensures Lookup([a, b, c], key) ==
            if a.key == key then Some(a.val) else if b.key == key then Some(b.val)
            else if c.key == key then Some(c.val) else None
  {
    assert [a, b, c][1..] == [b, c];
    assert [b, c][1..] == [c];
    assert [c][1..] == [];
    assert Lookup([c], key) == if c.key == key then Some(c.val) else None;
  }

  lemma EntryItems(x: Entry)
    ensures var e := EntryJson(x);
            && Get(e, "agent_id") == Str(x.agentId) && Get(e, "seq") == Int(x.seqNo)
            && Get(e, "action_ref") == Str(x.actionRef) && Get(e, "prev_head") == OptStr(x.prevHead)
            && Get(e, "agent_seq") == OptInt(x.agentSeq) && Get(e, "head") == Str(x.head)
            && (Has(e, "agent_seq") <==> x.agentSeq.Some?)
  {
    EntryLookup(x, "agent_id");
    EntryLookup(x, "seq");
    EntryLookup(x, "action_ref");
    EntryLookup(x, "prev_head");
    EntryLookup(x, "agent_seq");
    EntryLookup(x, "head");
    KeysDiffer();
  }

  /** An honest record passes the shape check and, after its predecessor or first of a window, its link check. */
  lemma HonestRecordPasses(h: HashFn, agentId: string, log: seq<Entry>, i: nat, fromSeq: int, prevHead: Json)
    requires HonestLog(h, agentId, log) && i < |log|
    requires i + 1 <= fromSeq || (i > 0 && prevHead == Str(log[i - 1].head))
    ensures var e := EntryJson(log[i]);
            && ShapeOf(e, Str(agentId)).Pass? && WellShaped(e) && SeqNo(e) == i + 1
            && LinkOf(h, e, Str(agentId), fromSeq, i + 1, prevHead).Pass?
  {
    hide JcsBytes;
    var x := log[i];
    assert HonestEntry(h, agentId, log, i);
    EntryItems(x);
    HexOfDigest(h(EntryBytes(x).value));
  }

  lemma {:induction false} ShapeOfAll(entries: seq<Json>, agentId: Json, k: nat)
    requires k <= |entries|
    requires forall i | k <= i < |entries| :: ShapeOf(entries[i], agentId).Pass?
    ensures Shape(entries, agentId, k).Pass?
    decreases |entries| - k
  {
    if k < |entries| {
      ShapeOfAll(entries, agentId, k + 1);
    }
  }

  /** Any selection of honest records passes the shape check. */
  lemma SelectionShaped(h: HashFn, agentId: string, log: seq<Entry>, positions: seq<nat>)
    requires HonestLog(h, agentId, log) && Positions(log, positions) && positions != []
    ensures var entries := Select(log, positions);
            && AgentOf(entries) == Str(agentId)
            && Shape(entries, Str(agentId), 0).Pass? && AllShaped(entries)
            && |SeqNos(entries)| == |positions|
            && forall i | 0 <= i < |positions| :: SeqNos(entries)[i] == positions[i] + 1
  {
    hide LinkOf;
    var entries := Select(log, positions);
    forall i | 0 <= i < |entries| ensures ShapeOf(entries[i], Str(agentId)).Pass? {
      HonestRecordPasses(h, agentId, log, positions[i], positions[i] + 1, Null);
    }
    ShapeOfAll(entries, Str(agentId), 0);
    ShapePasses(entries, Str(agentId), 0);
    assert HonestEntry(h, agentId, log, positions[0]);
    EntryItems(log[positions[0]]);
    forall i | 0 <= i < |positions| ensures SeqNos(entries)[i] == positions[i] + 1 {
      HonestRecordPasses(h, agentId, log, positions[i], positions[i] + 1, Null);
    }
  }

  /** The first k entries are at their places in a window that starts after off records. */
  ghost predicate InPlace(positions: seq<nat>, off: nat, k: nat) {
    k <= |positions| && forall i | 0 <= i < k :: positions[i] == off + i
  }

  lemma {:induction false} ChainUpTo(h: HashFn, agentId: string, log: seq<Entry>, positions: seq<nat>, off: nat, k: nat)
    requires HonestLog(h, agentId, log) && Positions(log, positions) && InPlace(positions, off, k)
    requires AllShaped(Select(log, positions))
    ensures Chain(h, Select(log, positions), Str(agentId), off + 1, 0)
            == Chain(h, Select(log, positions), Str(agentId), off + 1, k)
    decreases k
  {
    hide LinkOf, Chain, AllShaped, HonestLog, Select, WellShaped;
    if k > 0 {
      ChainUpTo(h, agentId, log, positions, off, k - 1);
      ChainAt(h, Select(log, positions), Str(agentId), off + 1, k - 1);
      LinkInPlace(h, agentId, log, positions, off, k - 1);
    }
  }

  lemma LinkInPlace(h: HashFn, agentId: string, log: seq<Entry>, positions: seq<nat>, off: nat, i: nat)
    requires HonestLog(h, agentId, log) && Positions(log, positions) && InPlace(positions, off, i + 1)
    requires AllShaped(Select(log, positions))
    ensures var entries := Select(log, positions);
            LinkOf(h, entries[i], Str(agentId), off + 1, off + 1 + i, PrevHead(entries, i)).Pass?
  {
    hide LinkOf, AllShaped, HonestLog, Select, EntryJson, Get, WellShaped, SeqNo, ShapeOf;
    var entries := Select(log, positions);
    assert positions[i] == off + i && entries[i] == EntryJson(log[off + i]);
    if i > 0 {
      assert positions[i - 1] == off + i - 1 && entries[i - 1] == EntryJson(log[off + i - 1]);
      EntryItems(log[off + i - 1]);
    }
    HonestRecordPasses(h, agentId, log, off + i, off + 1, PrevHead(entries, i));
  }

  lemma AscendingSorted(seqs: seq<int>)
    requires forall i, j | 0 <= i < j < |seqs| :: seqs[i] < seqs[j]
    ensures SortBy(seqs, IntKey) == seqs
  {
    forall i, j | 0 <= i < j < |seqs| ensures LexLess(IntKey(seqs[i]), IntKey(seqs[j])) {
      IntKeyOrder(seqs[i], seqs[j]);
    }
    SortByAscends(seqs, IntKey);
    SameMembers(SortBy(seqs, IntKey), seqs);
    AscendingUnique(SortBy(seqs, IntKey), seqs, IntKey);
  }

  lemma IntKeyOrder(a: int, b: int)
    requires a < b
    ensures LexLess(IntKey(a), IntKey(b))
  {
    assert IntKey(a)[0] != IntKey(b)[0];
  }

  // ------------------------------------------------------------------ damaged logs

  lemma ChainDecides(h: HashFn, iso: IsoParser, req: Request)
    requires req.Entries() != [] && AllShaped(req.Entries()) && req.fromSeq >= 1
    requires Shape(req.Entries(), AgentOf(req.Entries()), 0).Pass?
    requires OrderCheck(SeqNos(req.Entries()), req.fromSeq).Pass?
    requires Chain(h, req.Entries(), AgentOf(req.Entries()), req.fromSeq, 0).Stop?
    ensures VerifyTrail(h, iso, req) == Chain(h, req.Entries(), AgentOf(req.Entries()), req.fromSeq, 0).result
  {
    hide Shape, OrderCheck, Chain, AnchorCheck, CounterCheck, Completed;
  }

  lemma OrderDecides(h: HashFn, iso: IsoParser, req: Request)
    requires req.Entries() != [] && AllShaped(req.Entries()) && req.fromSeq >= 1
    requires Shape(req.Entries(), AgentOf(req.Entries()), 0).Pass?
    requires OrderCheck(SeqNos(req.Entries()), req.fromSeq).Stop?
    ensures VerifyTrail(h, iso, req) == OrderCheck(SeqNos(req.Entries()), req.fromSeq).result
  {
    hide Shape, OrderCheck, Chain, AnchorCheck, CounterCheck, Completed;
  }

  /** The chain check stops at the first record that is not at its place. */
  lemma GapAt(h: HashFn, agentId: string, log: seq<Entry>, positions: seq<nat>, off: nat, k: nat)
    requires HonestLog(h, agentId, log) && Positions(log, positions)
    requires AllShaped(Select(log, positions))
    requires k < |positions| && InPlace(positions, off, k) && positions[k] != off + k
    ensures Chain(h, Select(log, positions), Str(agentId), off + 1, 0)
            == Reject(Broken, SeqGap, Some(positions[k] + 1))
  {
    hide LinkOf, Chain, WellShaped, HonestLog, EntryJson;
    var entries := Select(log, positions);
    ChainUpTo(h, agentId, log, positions, off, k);
    SelectedNumber(h, agentId, log, positions, k);
    LinkGap(h, entries[k], Str(agentId), off + 1, off + 1 + k, PrevHead(entries, k));
    ChainAt(h, entries, Str(agentId), off + 1, k);
  }

  lemma SelectedNumber(h: HashFn, agentId: string, log: seq<Entry>, positions: seq<nat>, k: nat)
    requires HonestLog(h, agentId, log) && Positions(log, positions) && k < |positions|
    ensures WellShaped(Select(log, positions)[k]) && SeqNo(Select(log, positions)[k]) == positions[k] + 1
  {
    hide LinkOf, WellShaped;
    HonestRecordPasses(h, agentId, log, positions[k], positions[k] + 1, Null);
  }

  lemma LinkGap(h: HashFn, e: Json, agentId: Json, fromSeq: int, expected: int, prevHead: Json)
    requires WellShaped(e) && SeqNo(e) != expected
    ensures LinkOf(h, e, agentId, fromSeq, expected, prevHead) == Reject(Broken, SeqGap, Some(SeqNo(e)))
  {}

  /**
   Presenting a full log or a window with records removed that are not all at its end is a gap,
   reported at the first record after the hole, whatever checkpoint is presented.
   */
  lemma RemovalIsGap(h: HashFn, iso: IsoParser, agentId: string, inputs: seq<Input>, positions: seq<nat>, k: nat,
                     req: Request)
    requires LogOf(h, agentId, inputs).Ok? && req.fromSeq >= 1
    requires Positions(LogOf(h, agentId, inputs).value, positions)
    requires forall i, j | 0 <= i < j < |positions| :: positions[i] < positions[j]
    requires k < |positions| && InPlace(positions, req.fromSeq - 1, k) && positions[k] != req.fromSeq - 1 + k
    requires req.Entries() == Select(LogOf(h, agentId, inputs).value, positions)
    ensures VerifyTrail(h, iso, req) == Ok(FailedReport(Broken, SeqGap, Some(positions[k] + 1)))
  {
    hide LogOf, VerifyTrail, HonestLog, Select;
    LogIsHonest(h, agentId, inputs);
    RemovalDecides(h, iso, agentId, LogOf(h, agentId, inputs).value, positions, req.fromSeq - 1, k, req);
  }

  lemma RemovalDecides(h: HashFn, iso: IsoParser, agentId: string, log: seq<Entry>, positions: seq<nat>, off: nat,
                       k: nat, req: Request)
    requires HonestLog(h, agentId, log) && Positions(log, positions)
    requires forall i, j | 0 <= i < j < |positions| :: positions[i] < positions[j]
    requires k < |positions| && InPlace(positions, off, k) && positions[k] != off + k
    requires req.Entries() == Select(log, positions) && req.fromSeq == off + 1
    ensures VerifyTrail(h, iso, req) == Ok(FailedReport(Broken, SeqGap, Some(positions[k] + 1)))
  {
    hide VerifyTrail, HonestLog, Shape, Chain, AllShaped, Select, OrderCheck, SeqNos, WellShaped, AgentOf;
    SelectionShaped(h, agentId, log, positions);
    AscendingPasses(SeqNos(req.Entries()), positions, off + 1);
    GapAt(h, agentId, log, positions, off, k);
    ChainDecides(h, iso, req);
  }

  lemma AscendingPasses(seqs: seq<int>, positions: seq<int>, fromSeq: int)
    requires |seqs| == |positions| && forall i | 0 <= i < |seqs| :: seqs[i] == positions[i] + 1
    requires forall i, j | 0 <= i < j < |positions| :: positions[i] < positions[j]
    ensures OrderCheck(seqs, fromSeq).Pass?
  {
    AscendingSorted(seqs);
  }

  lemma {:induction false} FirstMisplacedAt(seqs: seq<int>, start: int, k: nat)
    requires k < |seqs| && seqs[k] != start + k && forall i | 0 <= i < k :: seqs[i] == start + i
    ensures FirstMisplaced(seqs, start) == Some(seqs[k])
  {
    if k > 0 {
      FirstMisplacedAt(seqs[1..], start + 1, k - 1);
    }
  }

  /** Consecutive sequence numbers in any order sort to consecutive ones. */
  lemma PermutationSorts(seqs: seq<int>, start: int, n: nat)
    requires multiset(seqs) == multiset(Range(start, n))
    ensures SortBy(seqs, IntKey) == Range(start, n) && |seqs| == n
  {
    var sorted, range := SortBy(seqs, IntKey), Range(start, n);
    assert |multiset(seqs)| == |seqs| && |multiset(range)| == n;
    RangeDistinct(seqs, start, n);
    SortByAscends(seqs, IntKey);
    forall i, j | 0 <= i < j < n ensures LexLess(IntKey(range[i]), IntKey(range[j])) {
      IntKeyOrder(range[i], range[j]);
    }
    SameMembers(sorted, range);
    AscendingUnique(sorted, range, IntKey);
  }

  lemma RangeDistinct(seqs: seq<int>, start: int, n: nat)
    requires multiset(seqs) == multiset(Range(start, n))
    ensures Distinct(seqs, IntKey)
  {
    forall i, j | 0 <= i < j < |seqs| ensures IntKey(seqs[i]) != IntKey(seqs[j]) {
      assert IntKey(seqs[i])[0] == seqs[i] && IntKey(seqs[j])[0] == seqs[j];
      if seqs[i] == seqs[j] {
        TwiceInSequence(seqs, i, j);
        OnceInRange(start, n, seqs[i]);
      }
    }
  }

  lemma TwiceInSequence(seqs: seq<int>, i: nat, j: nat)
    requires i < j < |seqs| && seqs[i] == seqs[j]
    ensures multiset(seqs)[seqs[i]] >= 2
  {
    var a, b := seqs[..j], seqs[j..];
    assert seqs == a + b;
    assert a[i] in multiset(a) && b[0] in multiset(b);
  }

  lemma {:induction false} OnceInRange(start: int, n: nat, v: int)
    ensures multiset(Range(start, n))[v] <= 1
    decreases n
  {
    if n > 0 {
      OnceInRange(start + 1, n - 1, v);
      var tail := Range(start + 1, n - 1);
      assert Range(start, n) == [start] + tail;
      if v == start {
        assert v !in tail;
        assert v !in multiset(tail);
      }
    }
  }

  lemma OrderStops(seqs: seq<int>, start: int, n: nat, k: nat)
    requires multiset(seqs) == multiset(Range(start, n))
    requires k < |seqs| && seqs[k] != start + k && forall i | 0 <= i < k :: seqs[i] == start + i
    ensures OrderCheck(seqs, start) == Reject(Broken, SeqOrder, Some(seqs[k]))
  {
    PermutationSorts(seqs, start, n);
    assert seqs[k] != Range(start, n)[k];
    FirstMisplacedAt(seqs, start, k);
  }

  lemma {:induction false} ShiftCount(a: seq<int>, b: seq<int>, v: int)
    requires |a| == |b| && forall i | 0 <= i < |a| :: b[i] == a[i] + 1
    ensures multiset(b)[v + 1] == multiset(a)[v]
  {
    if a != [] {
      ShiftCount(a[1..], b[1..], v);
      assert a == [a[0]] + a[1..] && b == [b[0]] + b[1..];
    }
  }

  lemma ShiftedPermutation(positions: seq<int>, seqs: seq<int>, off: int, n: nat)
    requires |seqs| == |positions| && forall i | 0 <= i < |seqs| :: seqs[i] == positions[i] + 1
    requires multiset(positions) == multiset(Range(off, n))
    ensures multiset(seqs) == multiset(Range(off + 1, n))
  {
    forall v: int ensures multiset(seqs)[v] == multiset(Range(off + 1, n))[v] {
      ShiftCount(positions, seqs, v - 1);
      ShiftCount(Range(off, n), Range(off + 1, n), v - 1);
    }
  }

  /** Presenting a full log or a window in another order is reported at the first misplaced record. */
  lemma ReorderIsReported(h: HashFn, iso: IsoParser, agentId: string, inputs: seq<Input>, positions: seq<nat>, k: nat,
                          req: Request)
    requires LogOf(h, agentId, inputs).Ok? && req.fromSeq >= 1
    requires Positions(LogOf(h, agentId, inputs).value, positions)
    requires multiset(positions) == multiset(Range(req.fromSeq - 1, |positions|))
    requires k < |positions| && InPlace(positions, req.fromSeq - 1, k) && positions[k] != req.fromSeq - 1 + k
    requires req.Entries() == Select(LogOf(h, agentId, inputs).value, positions)
    ensures VerifyTrail(h, iso, req) == Ok(FailedReport(Broken, SeqOrder, Some(positions[k] + 1)))
  {
    hide LogOf, VerifyTrail, HonestLog, Select, Range;
    LogIsHonest(h, agentId, inputs);
    ReorderDecides(h, iso, agentId, LogOf(h, agentId, inputs).value, positions, req.fromSeq - 1, k, req);
  }

  lemma ReorderDecides(h: HashFn, iso: IsoParser, agentId: string, log: seq<Entry>, positions: seq<nat>, off: nat,
                       k: nat, req: Request)
    requires HonestLog(h, agentId, log) && Positions(log, positions)
    requires multiset(positions) == multiset(Range(off, |positions|))
    requires k < |positions| && InPlace(positions, off, k) && positions[k] != off + k
    requires req.Entries() == Select(log, positions) && req.fromSeq == off + 1
    ensures VerifyTrail(h, iso, req) == Ok(FailedReport(Broken, SeqOrder, Some(positions[k] + 1)))
  {
    ReorderedNumbers(h, agentId, log, positions, off, k);
    hide VerifyTrail, HonestLog, Shape, AllShaped, Select, OrderCheck, SeqNos, Range, InPlace, Positions, AgentOf;
    OrderDecides(h, iso, req);
  }

  lemma ReorderedNumbers(h: HashFn, agentId: string, log: seq<Entry>, positions: seq<nat>, off: nat, k: nat)
    requires HonestLog(h, agentId, log) && Positions(log, positions)
    requires multiset(positions) == multiset(Range(off, |positions|))
    requires k < |positions| && InPlace(positions, off, k) && positions[k] != off + k
    ensures var entries := Select(log, positions);
            && Shape(entries, Str(agentId), 0).Pass? && AllShaped(entries) && AgentOf(entries) == Str(agentId)
            && OrderCheck(SeqNos(entries), off + 1) == Reject(Broken, SeqOrder, Some(positions[k] + 1))
  {
    hide HonestLog, OrderCheck, Shape, AllShaped, WellShaped, EntryJson, Select;
    SelectionShaped(h, agentId, log, positions);
    NumbersReordered(SeqNos(Select(log, positions)), positions, off, k);
  }

  lemma NumbersReordered(seqs: seq<int>, positions: seq<int>, off: nat, k: nat)
    requires |seqs| == |positions| && forall i | 0 <= i < |seqs| :: seqs[i] == positions[i] + 1
    requires multiset(positions) == multiset(Range(off, |positions|))
    requires k < |positions| && positions[k] != off + k && forall i | 0 <= i < k :: positions[i] == off + i
    ensures OrderCheck(seqs, off + 1) == Reject(Broken, SeqOrder, Some(positions[k] + 1))
  {
    hide OrderCheck;
    ShiftedPermutation(positions, seqs, off, |positions|);
    OrderStops(seqs, off + 1, |positions|, k);
  }
}
