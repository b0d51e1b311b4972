/** What append_entry, make_checkpoint and seal_period accept, and what they return. */
module TrailProducer {
  import opened Python
  import opened Bytes
  import opened Order
  import opened Jcs
  import opened Merkle
  import opened TrailHead
  import opened TrailTheorems
  import opened TrailHonest
  import opened TrailErrors

  // ------------------------------------------------------------------ append_entry

  lemma AppendPreimage(agentId: string, log: seq<Entry>, prev: Option<string>, input: Input)
    requires prev == (if log == [] then None else Some(log[|log| - 1].head))
    requires prev.Some? ==> IsHex64(prev.value)
    ensures EntryPreimage(Str(agentId), |log| + 1, Str(input.actionRef), OptStr(prev), OptInt(input.agentSeq)).Ok?
            <==> IsHex64(input.actionRef) && (input.agentSeq.Some? ==> input.agentSeq.value >= 1)
    ensures EntryPreimage(Str(agentId), |log| + 1, Str(input.actionRef), OptStr(prev), OptInt(input.agentSeq)).Raise?
            ==> EntryPreimage(Str(agentId), |log| + 1, Str(input.actionRef), OptStr(prev), OptInt(input.agentSeq))
                == Raise(ValueError)
  {
    hide IsHex64;
  }

  lemma AppendDigest(h: HashFn, agentId: string, seqNo: int, prev: Option<string>, input: Input)
    requires EntryPreimage(Str(agentId), seqNo, Str(input.actionRef), OptStr(prev), OptInt(input.agentSeq)).Ok?
    ensures var pre := EntryPreimage(Str(agentId), seqNo, Str(input.actionRef), OptStr(prev), OptInt(input.agentSeq)).value;
            && (Sha256Jcs(h, pre).Ok?
                <==> seqNo <= MAX_SAFE && (input.agentSeq.Some? ==> input.agentSeq.value <= MAX_SAFE))
            && (Sha256Jcs(h, pre).Raise? ==> Sha256Jcs(h, pre) == Raise(ValueError))
  {
    PreimageProfile(Str(agentId), seqNo, Str(input.actionRef), OptStr(prev), OptInt(input.agentSeq));
    TextInProfile(agentId);
    hide EntryPreimage, Sha256Jcs, InProfile;
    Sha256Defined(h, EntryPreimage(Str(agentId), seqNo, Str(input.actionRef), OptStr(prev), OptInt(input.agentSeq)).value);
  }

  lemma LastHead(h: HashFn, agentId: string, log: seq<Entry>)
    requires HonestLog(h, agentId, log)
    ensures log != [] ==> IsHex64(log[|log| - 1].head)
  {
    if log != [] {
      HonestNumber(h, agentId, log, |log| - 1);
    }
  }

  /** append_entry refuses exactly malformed references and counters out of range, with a ValueError. */
  lemma AppendExactly(h: HashFn, agentId: string, log: seq<Entry>, input: Input)
    requires HonestLog(h, agentId, log)
    ensures NextEntry(h, log, agentId, input).Ok?
            <==> && IsHex64(input.actionRef) && |log| < MAX_SAFE
                 && (input.agentSeq.Some? ==> 1 <= input.agentSeq.value <= MAX_SAFE)
    ensures NextEntry(h, log, agentId, input).Raise? ==> NextEntry(h, log, agentId, input) == Raise(ValueError)
  {
    LastHead(h, agentId, log);
    hide HonestLog, IsHex64, EntryPreimage, Sha256Jcs, OptStr, OptInt;
    var prev := if log == [] then None else Some(log[|log| - 1].head);
    AppendPreimage(agentId, log, prev, input);
    if EntryPreimage(Str(agentId), |log| + 1, Str(input.actionRef), OptStr(prev), OptInt(input.agentSeq)).Ok? {
      AppendDigest(h, agentId, |log| + 1, prev, input);
    }
  }

  lemma TextInProfile(s: string)
    ensures InProfile(Str(s))
  {}

  // ------------------------------------------------------------------ make_checkpoint

  /** A timestamp is read exactly when it is a text that ends in "Z" and fromisoformat reads the rest as UTC. */
  lemma ParseTsExactly(iso: IsoParser, v: Json, t: int)
    ensures ParseTs(iso, v) == Ok(t) <==> exists s :: v == Str(s + "Z") && iso(s + "+00:00") == Some(t)
    ensures ParseTs(iso, v).Raise? ==> ParseTs(iso, v) == Raise(ValueError)
  {
    if v.Str? && v.s != "" {
      var s := v.s[..|v.s| - 1];
      assert v.s[|v.s| - 1] == 'Z' ==> v.s == s + "Z";
      forall u | v == Str(u + "Z") ensures u == s {}
    }
  }

  /** The checkpoint of a log is that of its last record; only an empty log and an unreadable time are refused. */
  lemma CheckpointExactly(iso: IsoParser, agentId: string, periodEnd: string, log: seq<Entry>)
    ensures MakeCheckpoint(iso, agentId, periodEnd, log)
            == if log == [] || ParseTs(iso, Str(periodEnd)).Raise? then Raise(ValueError)
               else Ok(Checkpoint(agentId, periodEnd, log[|log| - 1].seqNo, log[|log| - 1].head))
  {
    ParseTsExactly(iso, Str(periodEnd), 0);
    hide ParseTs;
  }

  // ------------------------------------------------------------------ seal_period

  /** One checkpoint per agent, all for one period, all within the numbers of canonical JSON. */
  ghost predicate Sealable(cps: seq<Checkpoint>) {
    && cps != []
    && (forall i, j | 0 <= i < j < |cps| :: cps[i].agentId != cps[j].agentId)
    && (forall i, j | 0 <= i < |cps| && 0 <= j < |cps| :: cps[i].periodEnd == cps[j].periodEnd)
    && (forall i | 0 <= i < |cps| :: -MAX_SAFE <= cps[i].seqNo <= MAX_SAFE)
  }

  lemma {:induction false} DigestsDefined(h: HashFn, cs: seq<Checkpoint>)
    ensures DigestAll(h, cs).Ok? <==> forall i | 0 <= i < |cs| :: Sha256Jcs(h, CheckpointJson(cs[i])).Ok?
    ensures DigestAll(h, cs).Raise? ==> DigestAll(h, cs) == Raise(ValueError)
  {
    hide Sha256Jcs, CheckpointJson;
    if cs != [] {
      DigestsDefined(h, cs[1..]);
      Sha256Defined(h, CheckpointJson(cs[0]));
      assert forall i | 1 <= i < |cs| :: cs[i] == cs[1..][i - 1];
    }
  }

  lemma CheckpointProfile(h: HashFn, c: Checkpoint)
    ensures Sha256Jcs(h, CheckpointJson(c)).Ok? <==> -MAX_SAFE <= c.seqNo <= MAX_SAFE
  {
    hide Sha256Jcs;
    Sha256Defined(h, CheckpointJson(c));
    var fields := CheckpointJson(c).fields;
    assert InProfile(Obj(fields)) ==> InProfile(fields[3].val);
  }

  /** A value that occurs twice stands at two places. */
  lemma TwoPlaces<T>(xs: seq<T>, x: T) returns (p: nat, q: nat)
    requires multiset(xs)[x] >= 2
    ensures p < q < |xs| && xs[p] == xs[q] == x
  {
    assert x in multiset(xs);
    p :| 0 <= p < |xs| && xs[p] == x;
    var rest := xs[..p] + xs[p + 1..];
    assert xs == xs[..p] + [x] + xs[p + 1..];
    assert multiset(rest)[x] >= 1;
    var r :| 0 <= r < |rest| && rest[r] == x;
    q := if r < p then r else r + 1;
    if q < p {
      p, q := q, p;
    }
  }

  lemma TwiceCounted<T>(xs: seq<T>, i: nat, j: nat)
    requires i < j < |xs| && xs[i] == xs[j]
    ensures multiset(xs)[xs[i]] >= 2
  {
    var a, b := xs[..j], xs[j..];
    assert xs == a + b;
    assert a[i] in multiset(a) && b[0] in multiset(b);
  }

  /** Two checkpoints of one agent in one order are two in every order. */
  lemma SameAgentTwice(xs: seq<Checkpoint>, ys: seq<Checkpoint>, i: nat, j: nat) returns (p: nat, q: nat)
    requires multiset(xs) == multiset(ys) && i < j < |xs| && xs[i].agentId == xs[j].agentId
    ensures p < q < |ys| && ys[p].agentId == ys[q].agentId
  {
    if xs[i] == xs[j] {
      TwiceCounted(xs, i, j);
      p, q := TwoPlaces(ys, xs[i]);
    } else {
      assert xs[i] in multiset(xs) && xs[j] in multiset(xs);
      p :| 0 <= p < |ys| && ys[p] == xs[i];
      q :| 0 <= q < |ys| && ys[q] == xs[j];
      if q < p {
        p, q := q, p;
      }
    }
  }

  lemma SealableReordered(xs: seq<Checkpoint>, ys: seq<Checkpoint>)
    requires multiset(xs) == multiset(ys) && Sealable(xs)
    ensures Sealable(ys)
  {
    assert |multiset(xs)| == |xs| && |multiset(ys)| == |ys|;
    SameMembers(ys, xs);
    forall i, j | 0 <= i < j < |ys| ensures ys[i].agentId != ys[j].agentId {
      if ys[i].agentId == ys[j].agentId {
        var p, q := SameAgentTwice(ys, xs, i, j);
      }
    }
    forall i, j | 0 <= i < |ys| && 0 <= j < |ys| ensures ys[i].periodEnd == ys[j].periodEnd {
      assert ys[i] in xs && ys[j] in xs;
    }
    forall i | 0 <= i < |ys| ensures -MAX_SAFE <= ys[i].seqNo <= MAX_SAFE {
      assert ys[i] in xs;
    }
  }

  /** The seal of these checkpoints, taken in this order. */
  ghost predicate SealOf(h: HashFn, ordered: seq<Checkpoint>, seal: Seal) {
    && |seal.digests| == |ordered| > 0
    && (forall i | 0 <= i < |ordered| :: ValidRef(seal.digests[i]))
    && (forall i | 0 <= i < |ordered| :: Sha256Jcs(h, CheckpointJson(ordered[i])) == Ok(seal.digests[i]))
    && seal.root == RootOf(h, seal.digests) && seal.tree == TreeOfRefs(h, seal.digests)
  }

  ghost predicate ByAgent(ordered: seq<Checkpoint>, cps: seq<Checkpoint>) {
    && multiset(ordered) == multiset(cps)
    && forall i, j | 0 <= i < j < |ordered| :: LexLess(CodePoints(ordered[i].agentId), CodePoints(ordered[j].agentId))
  }

  lemma DigestsProfile(h: HashFn, cs: seq<Checkpoint>)
    ensures DigestAll(h, cs).Ok? <==> forall i | 0 <= i < |cs| :: -MAX_SAFE <= cs[i].seqNo <= MAX_SAFE
    ensures DigestAll(h, cs).Raise? ==> DigestAll(h, cs) == Raise(ValueError)
  {
    hide Sha256Jcs, CheckpointJson, DigestAll;
    DigestsDefined(h, cs);
    forall i | 0 <= i < |cs|
      ensures Sha256Jcs(h, CheckpointJson(cs[i])).Ok? <==> -MAX_SAFE <= cs[i].seqNo <= MAX_SAFE
    {
      CheckpointProfile(h, cs[i]);
    }
  }

  lemma SealableExactly(ordered: seq<Checkpoint>)
    ensures Sealable(ordered)
            <==> && !(exists i, j | 0 <= i < j < |ordered| :: ordered[i].agentId == ordered[j].agentId)
                 && ordered != [] && !(exists i | 0 <= i < |ordered| :: ordered[i].periodEnd != ordered[0].periodEnd)
                 && (forall i | 0 <= i < |ordered| :: -MAX_SAFE <= ordered[i].seqNo <= MAX_SAFE)
  {
    if ordered != [] {
      SamePeriods(ordered);
    }
  }

  lemma SealCases(h: HashFn, cps: seq<Checkpoint>)
    ensures var ordered := SortBy(cps, AgentKey);
            && (SealPeriod(h, cps).Ok? <==> Sealable(ordered))
            && (SealPeriod(h, cps).Raise? ==> SealPeriod(h, cps) == Raise(ValueError))
            && (SealPeriod(h, cps).Ok? ==> SealOf(h, ordered, SealPeriod(h, cps).value))
  {
    hide Sha256Jcs, CheckpointJson, RootOf, TreeOfRefs, ValidRef, DigestAll, SortBy, Sealable;
    var ordered := SortBy(cps, AgentKey);
    DigestsProfile(h, ordered);
    SealableExactly(ordered);
  }

  lemma SamePeriods(ordered: seq<Checkpoint>)
    requires ordered != []
    ensures (exists i | 0 <= i < |ordered| :: ordered[i].periodEnd != ordered[0].periodEnd)
            <==> exists i, j | 0 <= i < |ordered| && 0 <= j < |ordered| :: ordered[i].periodEnd != ordered[j].periodEnd
  {}

  /**
   seal_period seals exactly one checkpoint per agent of one period, in the order of the agents' names,
   under the Merkle root of the checkpoints' digests; everything else is a ValueError.
   */
  lemma SealExactly(h: HashFn, cps: seq<Checkpoint>)
    ensures SealPeriod(h, cps).Ok? <==> Sealable(cps)
    ensures SealPeriod(h, cps).Raise? ==> SealPeriod(h, cps) == Raise(ValueError)
    ensures SealPeriod(h, cps).Ok? ==>
              exists ordered :: ByAgent(ordered, cps) && SealOf(h, ordered, SealPeriod(h, cps).value)
  {
    hide SealPeriod, Sealable, SealOf;
    var ordered := SortBy(cps, AgentKey);
    SealCases(h, cps);
    if Sealable(ordered) {
      SealableReordered(ordered, cps);
      AgentsAscend(cps);
      assert ByAgent(ordered, cps);
    }
    if Sealable(cps) {
      SealableReordered(cps, ordered);
    }
  }

  lemma AgentsAscend(cps: seq<Checkpoint>)
    requires Sealable(cps)
    ensures ByAgent(SortBy(cps, AgentKey), cps)
  {
    forall i, j | 0 <= i < j < |cps| ensures AgentKey(cps[i]) != AgentKey(cps[j]) {
      if AgentKey(cps[i]) == AgentKey(cps[j]) {
        SameCodePoints(cps[i].agentId, cps[j].agentId);
      }
    }
    SortByAscends(cps, AgentKey);
  }

  lemma SameCodePoints(s: string, t: string)
    requires CodePoints(s) == CodePoints(t)
    ensures s == t
  {
    assert forall i | 0 <= i < |s| :: s[i] as int == CodePoints(s)[i] == t[i] as int;
  }
}
