/**
 verify_checkpoint_cadence: a ceiling, in seconds, on the gap between consecutive checkpoints of one
 agent.  Gaps are in microseconds, the unit of the timestamps.
 */
module Cadence {
  import opened Python
  import opened Order
  import opened EcmaNumber
  import opened Jcs
  import opened TrailHead

  datatype CadenceReport =
    | WithinCeiling
    | MalformedStream(reason: MalformedReason)
    | Exceeds(prevEnd: Json, periodEnd: Json, gap: int, declaredMax: Json)

  datatype MalformedReason = NotAList | MixedAgents | BadPeriodEnd

  /** A number that is not a boolean, and not <= 0; NaN is not. */
  predicate IsCeiling(v: Json) {
    match v
    case Int(n) => n > 0
    case Num(x) => x.NaN? || !(if Finite(x) then FloatValue(x) <= 0.0 else x.negative)
    case _ => false
  }

  /** The gap is greater than the ceiling; nothing is greater than NaN or infinity. */
  predicate Above(gap: int, ceiling: Json) {
    NumberOf(ceiling).Some? && gap as real > NumberOf(ceiling).value * 1_000_000.0
  }

  function AgentIdOf(c: Json): Json {
    if c.Obj? then Get(c, "agent_id") else Null
  }

  /** Python can put it in a set. */
  predicate Hashable(v: Json) {
    !v.Arr? && !v.Obj?
  }

  /** The instant of a checkpoint's period_end; indexing anything but a dict is a TypeError. */
  function EndOf(iso: IsoParser, c: Json): Result<int> {
    if !c.Obj? then Raise(TypeError)
    else if !Has(c, "period_end") then Raise(KeyError)
    else ParseTs(iso, Get(c, "period_end"))
  }

  predicate AllEnd(iso: IsoParser, cps: seq<Json>) {
    forall i | 0 <= i < |cps| :: EndOf(iso, cps[i]).Ok?
  }

  function EndKey(iso: IsoParser): Json -> seq<int> {
    c => if EndOf(iso, c).Ok? then [EndOf(iso, c).value] else [0]
  }

  function End(iso: IsoParser, c: Json): int {
    EndKey(iso)(c)[0]
  }

  /** The first gap above the ceiling from position k on. */
  function Gaps(iso: IsoParser, ordered: seq<Json>, ceiling: Json, k: nat): CadenceReport
    requires 0 < |ordered| && k < |ordered| && AllEnd(iso, ordered)
    decreases |ordered| - k
  {
    if k + 1 == |ordered| then WithinCeiling
    else
      var gap := End(iso, ordered[k + 1]) - End(iso, ordered[k]);
      if Above(gap, ceiling) then
        assert EndOf(iso, ordered[k]).Ok? && EndOf(iso, ordered[k + 1]).Ok?;
        Exceeds(Get(ordered[k], "period_end"), Get(ordered[k + 1], "period_end"), gap, ceiling)
      else Gaps(iso, ordered, ceiling, k + 1)
  }

  predicate OneAgent(cps: seq<Json>) {
    forall i | 0 <= i < |cps| :: PyEqual(AgentIdOf(cps[i]), AgentIdOf(cps[0]))
  }

  predicate AllHashable(cps: seq<Json>) {
    forall i | 0 <= i < |cps| :: Hashable(AgentIdOf(cps[i]))
  }

  function VerifyCadence(iso: IsoParser, checkpoints: Json, ceiling: Json): Result<CadenceReport> {
    if !IsCeiling(ceiling) then Raise(ValueError)
    else if !checkpoints.Arr? then Ok(MalformedStream(NotAList))
    else
      var cps := checkpoints.items;
      if |cps| < 2 then Ok(WithinCeiling)
      else if !AllHashable(cps) then Raise(TypeError)
      else if !OneAgent(cps) then Ok(MalformedStream(MixedAgents))
      else if !AllEnd(iso, cps) then Ok(MalformedStream(BadPeriodEnd))
      else
        SortedEnds(iso, cps);
        Ok(Gaps(iso, SortBy(cps, EndKey(iso)), ceiling, 0))
  }

  lemma SortedEnds(iso: IsoParser, cps: seq<Json>)
    requires AllEnd(iso, cps)
    ensures AllEnd(iso, SortBy(cps, EndKey(iso)))
  {
    hide EndOf, EndKey;
    var ordered := SortBy(cps, EndKey(iso));
    SameMembers(ordered, cps);
    forall i | 0 <= i < |ordered|
      ensures EndOf(iso, ordered[i]).Ok?
    {
      assert ordered[i] in cps;
    }
  }

  method CheckCadence(iso: IsoParser, checkpoints: Json, ceiling: Json) returns (r: Result<CadenceReport>)
    ensures r == VerifyCadence(iso, checkpoints, ceiling)
  {
    hide EndOf, EndKey, SortBy, AllHashable, OneAgent, Above, Get;
    if !IsCeiling(ceiling) {
      return Raise(ValueError);
    }
    if !checkpoints.Arr? {
      return Ok(MalformedStream(NotAList));
    }
    var cps := checkpoints.items;
    if |cps| < 2 {
      return Ok(WithinCeiling);
    }
    if !AllHashable(cps) {
      return Raise(TypeError);
    }
    if !OneAgent(cps) {
      return Ok(MalformedStream(MixedAgents));
    }
    if !AllEnd(iso, cps) {
      return Ok(MalformedStream(BadPeriodEnd));
    }
    SortedEnds(iso, cps);
    var ordered := SortBy(cps, EndKey(iso));
    for k := 0 to |ordered| - 1
      invariant Gaps(iso, ordered, ceiling, 0) == Gaps(iso, ordered, ceiling, k)
    {
      var prev, cur := ordered[k], ordered[k + 1];
      EndsAreDicts(iso, ordered, k);
      var gap := End(iso, cur) - End(iso, prev);
      if Above(gap, ceiling) {
        return Ok(Exceeds(Get(prev, "period_end"), Get(cur, "period_end"), gap, ceiling));
      }
    }
    return Ok(WithinCeiling);
  }

  lemma EndsAreDicts(iso: IsoParser, ordered: seq<Json>, k: nat)
    requires AllEnd(iso, ordered) && k + 1 < |ordered|
    ensures ordered[k].Obj? && ordered[k + 1].Obj?
  {
    assert EndOf(iso, ordered[k]).Ok? && EndOf(iso, ordered[k + 1]).Ok?;
  }

  // ------------------------------------------------------------------ what the ceiling promises

  ghost predicate Between(iso: IsoParser, cps: seq<Json>, t: int) {
    && (exists c :: c in cps && End(iso, c) <= t)
    && (exists c :: c in cps && t < End(iso, c))
  }

  ghost predicate Reached(iso: IsoParser, cps: seq<Json>, t: int, ceiling: Json) {
    exists c :: c in cps && t < End(iso, c) && !Above(End(iso, c) - t, ceiling)
  }

  /** From every instant between the first and the last checkpoint, the next one is within the ceiling. */
  ghost predicate Covered(iso: IsoParser, cps: seq<Json>, ceiling: Json) {
    forall t :: Between(iso, cps, t) ==> Reached(iso, cps, t, ceiling)
  }

  ghost predicate EndsInOrder(iso: IsoParser, ordered: seq<Json>) {
    forall i, j | 0 <= i < j < |ordered| :: End(iso, ordered[i]) <= End(iso, ordered[j])
  }

  lemma InOrder(iso: IsoParser, ordered: seq<Json>, i: nat, j: nat)
    requires EndsInOrder(iso, ordered) && i < |ordered| && j < |ordered|
    ensures i <= j ==> End(iso, ordered[i]) <= End(iso, ordered[j])
  {}

  lemma SortedInOrder(iso: IsoParser, cps: seq<Json>)
    ensures EndsInOrder(iso, SortBy(cps, EndKey(iso)))
  {
    SortByOrders(cps, EndKey(iso));
    var ordered := SortBy(cps, EndKey(iso));
    forall i, j | 0 <= i < j < |ordered|
      ensures End(iso, ordered[i]) <= End(iso, ordered[j])
    {
      assert LexLeq(EndKey(iso)(ordered[i]), EndKey(iso)(ordered[j]));
    }
  }

  predicate StepsFit(iso: IsoParser, ordered: seq<Json>, ceiling: Json, k: nat) {
    forall i | k <= i < |ordered| - 1 :: !Above(End(iso, ordered[i + 1]) - End(iso, ordered[i]), ceiling)
  }

  lemma {:induction false} GapsExactly(iso: IsoParser, ordered: seq<Json>, ceiling: Json, k: nat)
    requires k < |ordered| && AllEnd(iso, ordered)
    ensures Gaps(iso, ordered, ceiling, k) == WithinCeiling <==> StepsFit(iso, ordered, ceiling, k)
    decreases |ordered| - k
  {
    hide EndOf, EndKey, End, Above;
    if k + 1 < |ordered| {
      EndsAreDicts(iso, ordered, k);
      GapsExactly(iso, ordered, ceiling, k + 1);
      assert StepsFit(iso, ordered, ceiling, k) ==> !Above(End(iso, ordered[k + 1]) - End(iso, ordered[k]), ceiling);
    }
  }

  /** The checkpoint that ends last among those not after t. */
  lemma {:induction false} LastBefore(iso: IsoParser, ordered: seq<Json>, t: int, i: nat, j: nat) returns (k: nat)
    requires i < j < |ordered| && End(iso, ordered[i]) <= t < End(iso, ordered[j])
    ensures i <= k < j && End(iso, ordered[k]) <= t < End(iso, ordered[k + 1])
    decreases j - i
  {
    hide EndKey, End, Above, IsCeiling;
    if i + 1 == j {
      k := i;
    } else if End(iso, ordered[i + 1]) <= t {
      k := LastBefore(iso, ordered, t, i + 1, j);
    } else {
      k := i;
    }
  }

  lemma SmallerFits(gap: int, larger: int, ceiling: Json)
    requires gap <= larger && !Above(larger, ceiling)
    ensures !Above(gap, ceiling)
  {
    hide NumberOf;
  }

  lemma NoGapFits(gap: int, ceiling: Json)
    requires gap <= 0 && IsCeiling(ceiling)
    ensures !Above(gap, ceiling)
  {
    hide FloatValue;
  }

  lemma StepReaches(iso: IsoParser, ordered: seq<Json>, ceiling: Json, t: int)
    requires EndsInOrder(iso, ordered) && StepsFit(iso, ordered, ceiling, 0) && Between(iso, ordered, t)
    ensures Reached(iso, ordered, t, ceiling)
  {
    hide EndKey, End, Above, EndsInOrder;
    var c :| c in ordered && End(iso, c) <= t;
    var d :| d in ordered && t < End(iso, d);
    var i :| 0 <= i < |ordered| && ordered[i] == c;
    var j :| 0 <= j < |ordered| && ordered[j] == d;
    InOrder(iso, ordered, j, i);
    var k := LastBefore(iso, ordered, t, i, j);
    var next := ordered[k + 1];
    SmallerFits(End(iso, next) - t, End(iso, next) - End(iso, ordered[k]), ceiling);
    assert next in ordered;
  }

  lemma FitCovers(iso: IsoParser, ordered: seq<Json>, ceiling: Json)
    requires EndsInOrder(iso, ordered) && StepsFit(iso, ordered, ceiling, 0)
    ensures Covered(iso, ordered, ceiling)
  {
    hide EndsInOrder, StepsFit, Between, Reached;
    forall t | Between(iso, ordered, t) ensures Reached(iso, ordered, t, ceiling) {
      StepReaches(iso, ordered, ceiling, t);
    }
  }

  lemma CoveredStep(iso: IsoParser, ordered: seq<Json>, ceiling: Json, i: nat)
    requires EndsInOrder(iso, ordered) && Covered(iso, ordered, ceiling) && IsCeiling(ceiling) && i + 1 < |ordered|
    ensures !Above(End(iso, ordered[i + 1]) - End(iso, ordered[i]), ceiling)
  {
    hide EndKey, End, Above, IsCeiling, EndsInOrder;
    var t := End(iso, ordered[i]);
    if t < End(iso, ordered[i + 1]) {
      assert ordered[i] in ordered && ordered[i + 1] in ordered;
      assert Between(iso, ordered, t);
      assert Reached(iso, ordered, t, ceiling);
      var c :| c in ordered && t < End(iso, c) && !Above(End(iso, c) - t, ceiling);
      var j :| 0 <= j < |ordered| && ordered[j] == c;
      InOrder(iso, ordered, j, i);
      InOrder(iso, ordered, i + 1, j);
      SmallerFits(End(iso, ordered[i + 1]) - t, End(iso, c) - t, ceiling);
    } else {
      NoGapFits(End(iso, ordered[i + 1]) - t, ceiling);
    }
  }

  lemma CoversFit(iso: IsoParser, ordered: seq<Json>, ceiling: Json)
    requires EndsInOrder(iso, ordered) && Covered(iso, ordered, ceiling) && IsCeiling(ceiling)
    ensures StepsFit(iso, ordered, ceiling, 0)
  {
    hide EndsInOrder, Covered, IsCeiling, Above, End;
    forall i | 0 <= i < |ordered| - 1 ensures !Above(End(iso, ordered[i + 1]) - End(iso, ordered[i]), ceiling) {
      CoveredStep(iso, ordered, ceiling, i);
    }
  }

  lemma SameCover(iso: IsoParser, cps: seq<Json>, ordered: seq<Json>, ceiling: Json)
    requires multiset(cps) == multiset(ordered)
    ensures Covered(iso, cps, ceiling) <==> Covered(iso, ordered, ceiling)
  {
    hide EndKey, End, Above, IsCeiling;
    SameMembers(cps, ordered);
    forall t
      ensures Between(iso, cps, t) <==> Between(iso, ordered, t)
      ensures Reached(iso, cps, t, ceiling) <==> Reached(iso, ordered, t, ceiling)
    {}
  }

  predicate Comparable(iso: IsoParser, cps: seq<Json>) {
    AllHashable(cps) && OneAgent(cps) && AllEnd(iso, cps)
  }

  /**
   The stream of one agent is within the ceiling exactly when no stretch of that length between its
   first and its last checkpoint passes without one, in whatever order the checkpoints are given.
   */
  lemma CadenceCovers(iso: IsoParser, cps: seq<Json>, ceiling: Json)
    requires IsCeiling(ceiling) && |cps| >= 2 && Comparable(iso, cps)
    ensures VerifyCadence(iso, Arr(cps), ceiling) == Ok(WithinCeiling) <==> Covered(iso, cps, ceiling)
  {
    hide EndOf, EndKey, SortBy, Covered, Gaps;
    var ordered := SortBy(cps, EndKey(iso));
    SortedEnds(iso, cps);
    SortedInOrder(iso, cps);
    GapsExactly(iso, ordered, ceiling, 0);
    SameCover(iso, cps, ordered, ceiling);
    if StepsFit(iso, ordered, ceiling, 0) {
      FitCovers(iso, ordered, ceiling);
    }
    if Covered(iso, ordered, ceiling) {
      CoversFit(iso, ordered, ceiling);
    }
  }

  /** The first two neighbours in time that are further apart than the ceiling. */
  ghost predicate Breach(iso: IsoParser, cps: seq<Json>, ceiling: Json, r: CadenceReport) {
    exists c, d :: BreachBetween(iso, cps, ceiling, r, c, d)
  }

  /** Every stretch that begins before c is covered. */
  ghost predicate CoveredUntil(iso: IsoParser, cps: seq<Json>, ceiling: Json, c: Json) {
    forall t :: Between(iso, cps, t) && t < End(iso, c) ==> Reached(iso, cps, t, ceiling)
  }

  ghost predicate BreachBetween(iso: IsoParser, cps: seq<Json>, ceiling: Json, r: CadenceReport, c: Json, d: Json) {
    && c in cps && d in cps && c.Obj? && d.Obj?
    && r == Exceeds(Get(c, "period_end"), Get(d, "period_end"), End(iso, d) - End(iso, c), ceiling)
    && Above(r.gap, ceiling)
    && (forall e | e in cps :: End(iso, e) <= End(iso, c) || End(iso, d) <= End(iso, e))
    && CoveredUntil(iso, cps, ceiling, c)
  }

  /** The loop stops at the first gap above the ceiling. */
  lemma {:induction false} GapsStop(iso: IsoParser, ordered: seq<Json>, ceiling: Json, k: nat) returns (j: nat)
    requires k < |ordered| && AllEnd(iso, ordered)
    ensures k <= j < |ordered|
    ensures forall i | k <= i < j :: !Above(End(iso, ordered[i + 1]) - End(iso, ordered[i]), ceiling)
    ensures j + 1 == |ordered| ==> Gaps(iso, ordered, ceiling, k) == WithinCeiling
    ensures j + 1 < |ordered| ==>
              && ordered[j].Obj? && ordered[j + 1].Obj?
              && Above(End(iso, ordered[j + 1]) - End(iso, ordered[j]), ceiling)
              && Gaps(iso, ordered, ceiling, k)
                 == Exceeds(Get(ordered[j], "period_end"), Get(ordered[j + 1], "period_end"),
                            End(iso, ordered[j + 1]) - End(iso, ordered[j]), ceiling)
    decreases |ordered| - k
  {
    hide EndOf, EndKey, End, Above;
    if k + 1 == |ordered| {
      j := k;
    } else {
      EndsAreDicts(iso, ordered, k);
      if Above(End(iso, ordered[k + 1]) - End(iso, ordered[k]), ceiling) {
        j := k;
      } else {
        j := GapsStop(iso, ordered, ceiling, k + 1);
      }
    }
  }

  /** Before a position up to which the steps fit, every stretch is covered. */
  lemma ReachedBefore(iso: IsoParser, ordered: seq<Json>, ceiling: Json, j: nat, t: int)
    requires EndsInOrder(iso, ordered) && j < |ordered| && Between(iso, ordered, t) && t < End(iso, ordered[j])
    requires forall i | 0 <= i < j :: !Above(End(iso, ordered[i + 1]) - End(iso, ordered[i]), ceiling)
    ensures Reached(iso, ordered, t, ceiling)
  {
    hide EndKey, End, Above, EndsInOrder;
    var c :| c in ordered && End(iso, c) <= t;
    var i :| 0 <= i < |ordered| && ordered[i] == c;
    InOrder(iso, ordered, j, i);
    var k := LastBefore(iso, ordered, t, i, j);
    var next := ordered[k + 1];
    SmallerFits(End(iso, next) - t, End(iso, next) - End(iso, ordered[k]), ceiling);
    assert next in ordered;
  }

  lemma NoneBetween(iso: IsoParser, ordered: seq<Json>, j: nat)
    requires EndsInOrder(iso, ordered) && j + 1 < |ordered|
    ensures forall e | e in ordered :: End(iso, e) <= End(iso, ordered[j]) || End(iso, ordered[j + 1]) <= End(iso, e)
  {
    hide EndKey, End, EndsInOrder;
    forall e | e in ordered ensures End(iso, e) <= End(iso, ordered[j]) || End(iso, ordered[j + 1]) <= End(iso, e) {
      var i :| 0 <= i < |ordered| && ordered[i] == e;
      InOrder(iso, ordered, i, j);
      InOrder(iso, ordered, j + 1, i);
    }
  }

  /** The stream is refused as malformed, with this reason. */
  predicate MalformedBy(iso: IsoParser, checkpoints: Json, reason: MalformedReason) {
    match reason
    case NotAList => !checkpoints.Arr?
    case MixedAgents =>
      checkpoints.Arr? && |checkpoints.items| >= 2 && AllHashable(checkpoints.items) && !OneAgent(checkpoints.items)
    case BadPeriodEnd =>
      && checkpoints.Arr? && |checkpoints.items| >= 2 && AllHashable(checkpoints.items) && OneAgent(checkpoints.items)
      && exists i | 0 <= i < |checkpoints.items| :: EndOf(iso, checkpoints.items[i]).Raise?
  }

  /** When a stream is refused, with which reason or exception. */
  lemma CadenceRefusals(iso: IsoParser, checkpoints: Json, ceiling: Json)
    ensures VerifyCadence(iso, checkpoints, ceiling) == Raise(ValueError) <==> !IsCeiling(ceiling)
    ensures VerifyCadence(iso, checkpoints, ceiling) == Raise(TypeError)
            <==> IsCeiling(ceiling) && checkpoints.Arr? && |checkpoints.items| >= 2 && !AllHashable(checkpoints.items)
    ensures forall reason :: VerifyCadence(iso, checkpoints, ceiling) == Ok(MalformedStream(reason))
                             <==> IsCeiling(ceiling) && MalformedBy(iso, checkpoints, reason)
    ensures IsCeiling(ceiling) && checkpoints.Arr? && |checkpoints.items| < 2 ==>
              VerifyCadence(iso, checkpoints, ceiling) == Ok(WithinCeiling)
  {
    hide EndOf, EndKey, SortBy, Gaps, AllHashable, OneAgent, IsCeiling;
    if checkpoints.Arr? && |checkpoints.items| >= 2 && AllEnd(iso, checkpoints.items) {
      SortedEnds(iso, checkpoints.items);
      GapsKind(iso, SortBy(checkpoints.items, EndKey(iso)), ceiling, 0);
    }
  }

  lemma {:induction false} GapsKind(iso: IsoParser, ordered: seq<Json>, ceiling: Json, k: nat)
    requires 0 < |ordered| && k < |ordered| && AllEnd(iso, ordered)
    ensures !Gaps(iso, ordered, ceiling, k).MalformedStream?
    decreases |ordered| - k
  {
    hide EndOf, EndKey, Above;
    if k + 1 < |ordered| {
      EndsAreDicts(iso, ordered, k);
      GapsKind(iso, ordered, ceiling, k + 1);
    }
  }

  lemma SameUntil(iso: IsoParser, cps: seq<Json>, ordered: seq<Json>, ceiling: Json, c: Json)
    requires multiset(cps) == multiset(ordered)
    ensures CoveredUntil(iso, cps, ceiling, c) <==> CoveredUntil(iso, ordered, ceiling, c)
  {
    hide EndKey, End, Above, IsCeiling;
    SameMembers(cps, ordered);
    forall t
      ensures Between(iso, cps, t) <==> Between(iso, ordered, t)
      ensures Reached(iso, cps, t, ceiling) <==> Reached(iso, ordered, t, ceiling)
    {}
  }

  /**
   A breach that is reported names two checkpoints of the stream with none between them, and every
   stretch before the first of them is covered.
   */
  lemma CadenceBreach(iso: IsoParser, cps: seq<Json>, ceiling: Json)
    requires IsCeiling(ceiling) && |cps| >= 2 && Comparable(iso, cps)
    ensures var r := VerifyCadence(iso, Arr(cps), ceiling);
            r == Ok(WithinCeiling) || (r.Ok? && Breach(iso, cps, ceiling, r.value))
  {
    hide EndOf, EndKey, End, SortBy, Gaps, EndsInOrder, Between, Reached, Above;
    var ordered := SortBy(cps, EndKey(iso));
    SortedEnds(iso, cps);
    SortedInOrder(iso, cps);
    SameMembers(ordered, cps);
    var j := GapsStop(iso, ordered, ceiling, 0);
    var r := Gaps(iso, ordered, ceiling, 0);
    if j + 1 < |ordered| {
      var c, d := ordered[j], ordered[j + 1];
      forall t | Between(iso, ordered, t) && t < End(iso, c) ensures Reached(iso, ordered, t, ceiling) {
        ReachedBefore(iso, ordered, ceiling, j, t);
      }
      SameUntil(iso, cps, ordered, ceiling, c);
      NoneBetween(iso, ordered, j);
      assert c in ordered && d in ordered;
      assert BreachBetween(iso, cps, ceiling, r, c, d);
    }
  }
}
