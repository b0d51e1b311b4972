/**
 The verifier of delegation chains and its replay registry.

 The digests of a chain and of a leaf preimage, and the Ed25519 check, are parameters.
 */
module Delegation {
  import opened Python
  import opened Scopes

  datatype Hop = Hop(delegator: string, delegatee: string, scope: string, delegationRef: string,
                     signature: Option<string>)

  datatype Chain = Chain(chainId: string, rootDelegator: string, leafActionRef: string, hops: seq<Hop>)

  datatype Leaf = Leaf(agentId: string, actionType: string, scope: string, timestamp: string)

  datatype Vector = Vector(chain: Chain, chainRef: string, leaf: Option<Leaf>)

  datatype Primitives = Primitives(
    chainDigest: Chain -> string, leafDigest: Leaf -> string,
    signatureHolds: (string, string, Hop, string) -> bool)

  /** What the caller declares. */
  datatype Policy = Policy(pubkeys: map<string, string>, keysAreComplete: bool, enforceNarrowing: bool)

  datatype Finding =
    | ChainRefMismatch | ChainBreak(hop: nat) | RootMismatch | LeafMismatch | LeafScopeMismatch
    | SignatureInvalid(hop: nat) | KeyNotInCompleteSet(hop: nat) | SignatureNotAssessed(hop: nat)
    | ScopeWidening(hop: nat) | ReplayDetected

  datatype Verdict = PASS | FAIL | NOT_ASSESSED

  datatype Report = Report(verdict: Verdict, failures: seq<Finding>, notAssessed: seq<Finding>)

  // ------------------------------------------------------------------ the checks

  datatype SignatureState = VALID | INVALID | KEY_UNRESOLVED

  /** verify_hop_signature */
  function HopSignature(p: Primitives, pubkeys: map<string, string>, chainId: string, hop: Hop, signature: string)
      : SignatureState {
    if hop.delegator !in pubkeys || pubkeys[hop.delegator] == "" then KEY_UNRESOLVED
    else if p.signatureHolds(pubkeys[hop.delegator], chainId, hop, signature) then VALID
    else INVALID
  }

  function If(c: bool, f: Finding): seq<Finding> {
    if c then [f] else []
  }

  /** The breaks of continuity among the first n neighbours. */
  function Breaks(hops: seq<Hop>, n: nat): seq<Finding>
    requires n < |hops| || n == 0
  {
    if n == 0 then []
    else Breaks(hops, n - 1) + If(hops[n - 1].delegatee != hops[n].delegator, ChainBreak(n - 1))
  }

  /** The delegator of a signed hop has a key, and the signature does not verify under it. */
  predicate BadSignature(p: Primitives, policy: Policy, chain: Chain, i: nat)
    requires i < |chain.hops|
  {
    var hop := chain.hops[i];
    && hop.signature.Some? && hop.delegator in policy.pubkeys && policy.pubkeys[hop.delegator] != ""
    && !p.signatureHolds(policy.pubkeys[hop.delegator], chain.chainId, hop, hop.signature.value)
  }

  /** The delegator of a signed hop has no key. */
  predicate Unresolved(p: Primitives, policy: Policy, chain: Chain, i: nat)
    requires i < |chain.hops|
  {
    var hop := chain.hops[i];
    hop.signature.Some? && (hop.delegator !in policy.pubkeys || policy.pubkeys[hop.delegator] == "")
  }

  function SignatureFailures(p: Primitives, policy: Policy, chain: Chain, n: nat): seq<Finding>
    requires n <= |chain.hops|
  {
    if n == 0 then []
    else
      SignatureFailures(p, policy, chain, n - 1)
      + If(BadSignature(p, policy, chain, n - 1), SignatureInvalid(n - 1))
      + If(Unresolved(p, policy, chain, n - 1) && policy.keysAreComplete, KeyNotInCompleteSet(n - 1))
  }

  function SignatureGaps(p: Primitives, policy: Policy, chain: Chain, n: nat): seq<Finding>
    requires n <= |chain.hops|
  {
    if n == 0 then []
    else
      SignatureGaps(p, policy, chain, n - 1)
      + If(Unresolved(p, policy, chain, n - 1) && !policy.keysAreComplete, SignatureNotAssessed(n - 1))
  }

  /** The hops below n that are not narrower than their parent. */
  function Widenings(hops: seq<Hop>, n: nat): seq<Finding>
    requires n <= |hops|
  {
    if n <= 1 then []
    else Widenings(hops, n - 1) + If(!Narrows(hops[n - 2].scope, hops[n - 1].scope), ScopeWidening(n - 1))
  }

  function LeafFailures(p: Primitives, v: Vector): seq<Finding>
    requires v.chain.hops != []
  {
    if v.leaf.None? then []
    else
      If(p.leafDigest(v.leaf.value) != v.chain.leafActionRef, LeafMismatch)
      + If(v.leaf.value.scope != v.chain.hops[|v.chain.hops| - 1].scope, LeafScopeMismatch)
  }

  function ChainFailures(p: Primitives, v: Vector): seq<Finding>
    requires v.chain.hops != []
  {
    var hops := v.chain.hops;
    If(p.chainDigest(v.chain) != v.chainRef, ChainRefMismatch)
    + Breaks(hops, |hops| - 1)
    + If(v.chain.rootDelegator != hops[0].delegator, RootMismatch)
    + LeafFailures(p, v)
  }

  /** Every failure but the replay, in the order they are found. */
  function OwnFailures(p: Primitives, policy: Policy, v: Vector): seq<Finding>
    requires v.chain.hops != []
  {
    ChainFailures(p, v)
    + SignatureFailures(p, policy, v.chain, |v.chain.hops|)
    + (if policy.enforceNarrowing then Widenings(v.chain.hops, |v.chain.hops|) else [])
  }

  function Gaps(p: Primitives, policy: Policy, v: Vector): seq<Finding> {
    SignatureGaps(p, policy, v.chain, |v.chain.hops|)
  }

  // ------------------------------------------------------------------ the registry

  datatype Seen = Seen(chainIds: set<string>, refs: set<string>)

  const Nothing := Seen({}, {})

  function RefsOf(hops: seq<Hop>): (r: set<string>)
    ensures forall x :: x in r <==> exists i | 0 <= i < |hops| :: hops[i].delegationRef == x
  {
    set i | 0 <= i < |hops| :: hops[i].delegationRef
  }

  predicate Contains(seen: Seen, chain: Chain) {
    chain.chainId in seen.chainIds || RefsOf(chain.hops) * seen.refs != {}
  }

  function Record(seen: Seen, chain: Chain): Seen {
    Seen(seen.chainIds + {chain.chainId}, seen.refs + RefsOf(chain.hops))
  }

  function VerdictOf(failures: seq<Finding>, notAssessed: seq<Finding>): Verdict {
    if failures != [] then FAIL else if notAssessed != [] then NOT_ASSESSED else PASS
  }

  /** The report, and the registry afterwards.  A chain without hops has no first delegator to read. */
  function Evaluate(p: Primitives, policy: Policy, seen: Seen, v: Vector): (Result<Report>, Seen) {
    if v.chain.hops == [] then (Raise(IndexError), seen)
    else
      var own, gaps := OwnFailures(p, policy, v), Gaps(p, policy, v);
      var failures := own + If(Contains(seen, v.chain), ReplayDetected);
      (Ok(Report(VerdictOf(failures, gaps), failures, gaps)),
       if failures == [] && gaps == [] then Record(seen, v.chain) else seen)
  }

  class SeenRegistry {
    var chainIds: set<string>
    var delegationRefs: set<string>

    constructor ()
      ensures View() == Nothing
    {
      chainIds, delegationRefs := {}, {};
    }

    function View(): Seen
      reads this
    {
      Seen(chainIds, delegationRefs)
    }

    method ContainsChain(chain: Chain) returns (r: bool)
      ensures r == Contains(View(), chain)
    {
      r := chain.chainId in chainIds;
      var i := 0;
      while i < |chain.hops| && !r
        invariant 0 <= i <= |chain.hops|
        invariant r == (|| chain.chainId in chainIds
                        || exists j | 0 <= j < i :: chain.hops[j].delegationRef in delegationRefs)
      {
        r := chain.hops[i].delegationRef in delegationRefs;
        i := i + 1;
      }
      if r && chain.chainId !in chainIds {
        var j :| 0 <= j < i && chain.hops[j].delegationRef in delegationRefs;
        assert chain.hops[j].delegationRef in RefsOf(chain.hops) * delegationRefs;
      }
      assert !r ==> forall x | x in RefsOf(chain.hops) :: x !in delegationRefs;
    }

    method RecordChain(chain: Chain)
      modifies this
      ensures View() == Record(old(View()), chain)
    {
      chainIds := chainIds + {chain.chainId};
      delegationRefs := delegationRefs + (set i | 0 <= i < |chain.hops| :: chain.hops[i].delegationRef);
    }
  }

  method CheckContinuity(hops: seq<Hop>) returns (failures: seq<Finding>)
    ensures failures == if hops == [] then [] else Breaks(hops, |hops| - 1)
  {
    failures := [];
    var i := 0;
    while i < |hops| - 1
      invariant 0 <= i < |hops| || i == 0
      invariant failures == Breaks(hops, i)
    {
      if hops[i].delegatee != hops[i + 1].delegator {
        failures := failures + [ChainBreak(i)];
      }
      i := i + 1;
    }
  }

  method CheckLeaf(p: Primitives, v: Vector) returns (failures: seq<Finding>)
    requires v.chain.hops != []
    ensures failures == LeafFailures(p, v)
  {
    failures := [];
    if v.leaf.Some? {
      if p.leafDigest(v.leaf.value) != v.chain.leafActionRef {
        failures := failures + [LeafMismatch];
      }
      if v.leaf.value.scope != v.chain.hops[|v.chain.hops| - 1].scope {
        failures := failures + [LeafScopeMismatch];
      }
    }
  }

  /** Checks 0 to 3. */
  method CheckAnchors(p: Primitives, v: Vector) returns (r: Result<seq<Finding>>)
    ensures r == if v.chain.hops == [] then Raise(IndexError) else Ok(ChainFailures(p, v))
  {
    hide Breaks, LeafFailures;
    var failures := [];
    if p.chainDigest(v.chain) != v.chainRef {
      failures := failures + [ChainRefMismatch];
    }
    assert failures == If(p.chainDigest(v.chain) != v.chainRef, ChainRefMismatch);
    var breaks := CheckContinuity(v.chain.hops);
    failures := failures + breaks;
    if v.chain.hops == [] {
      return Raise(IndexError);
    }
    assert failures + [] == failures;
    if v.chain.rootDelegator != v.chain.hops[0].delegator {
      failures := failures + [RootMismatch];
    }
    var leaf := CheckLeaf(p, v);
    return Ok(failures + leaf);
  }

  method CheckSignatures(p: Primitives, policy: Policy, chain: Chain)
      returns (failures: seq<Finding>, gaps: seq<Finding>)
    ensures failures == SignatureFailures(p, policy, chain, |chain.hops|)
    ensures gaps == SignatureGaps(p, policy, chain, |chain.hops|)
  {
    failures, gaps := [], [];
    for i := 0 to |chain.hops|
      invariant failures == SignatureFailures(p, policy, chain, i)
      invariant gaps == SignatureGaps(p, policy, chain, i)
    {
      var hop := chain.hops[i];
      if hop.signature.Some? {
        var state := HopSignature(p, policy.pubkeys, chain.chainId, hop, hop.signature.value);
        if state.INVALID? {
          failures := failures + [SignatureInvalid(i)];
        } else if state.KEY_UNRESOLVED? && policy.keysAreComplete {
          failures := failures + [KeyNotInCompleteSet(i)];
        } else if state.KEY_UNRESOLVED? {
          gaps := gaps + [SignatureNotAssessed(i)];
        }
      }
    }
  }

  method CheckNarrowing(hops: seq<Hop>) returns (failures: seq<Finding>)
    ensures failures == Widenings(hops, |hops|)
  {
    failures := [];
    var i := 1;
    while i < |hops|
      invariant 1 <= i && (i <= |hops| || i == 1)
      invariant i <= |hops| ==> failures == Widenings(hops, i)
      invariant i > |hops| ==> failures == []
    {
      if !Narrows(hops[i - 1].scope, hops[i].scope) {
        failures := failures + [ScopeWidening(i)];
      }
      i := i + 1;
    }
  }

  /** evaluate_vector, with or without a registry */
  method EvaluateVector(p: Primitives, policy: Policy, registry: SeenRegistry?, v: Vector)
      returns (r: Result<Report>)
    modifies if registry == null then {} else {registry}
    ensures registry != null ==> (r, registry.View()) == Evaluate(p, policy, old(registry.View()), v)
    ensures registry == null ==> r == Evaluate(p, policy, Nothing, v).0
  {
    hide ChainFailures, SignatureFailures, SignatureGaps, Widenings, Contains, Record;
    var anchored := CheckAnchors(p, v);
    if anchored.Raise? {
      return Raise(anchored.exception);
    }
    var failures := anchored.value;
    var signed, gaps := CheckSignatures(p, policy, v.chain);
    failures := failures + signed;
    if policy.enforceNarrowing {
      var widened := CheckNarrowing(v.chain.hops);
      failures := failures + widened;
    }
    assert failures == OwnFailures(p, policy, v);
    assert failures + [] == failures;
    if registry != null {
      var replay := registry.ContainsChain(v.chain);
      if replay {
        failures := failures + [ReplayDetected];
      } else if failures == [] && gaps == [] {
        registry.RecordChain(v.chain);
      }
    } else {
      NothingContains(v.chain);
    }
    r := Ok(Report(VerdictOf(failures, gaps), failures, gaps));
  }

  lemma NothingContains(chain: Chain)
    ensures !Contains(Nothing, chain)
  {}

  // ------------------------------------------------------------------ what PASS means

  predicate Continuous(hops: seq<Hop>) {
    forall i | 0 <= i < |hops| - 1 :: hops[i].delegatee == hops[i + 1].delegator
  }

  predicate SignaturesHold(p: Primitives, policy: Policy, chain: Chain) {
    forall i | 0 <= i < |chain.hops| ::
      var hop := chain.hops[i];
      hop.signature.Some? ==>
        && hop.delegator in policy.pubkeys && policy.pubkeys[hop.delegator] != ""
        && p.signatureHolds(policy.pubkeys[hop.delegator], chain.chainId, hop, hop.signature.value)
  }

  function ScopesOf(hops: seq<Hop>): (r: seq<string>)
    ensures |r| == |hops| && forall i | 0 <= i < |hops| :: r[i] == hops[i].scope
  {
    seq(|hops|, i requires 0 <= i < |hops| => hops[i].scope)
  }

  /** The invariants of the specification other than the signatures, each stated for the whole chain. */
  predicate Anchored(p: Primitives, policy: Policy, v: Vector) {
    var hops := v.chain.hops;
    && hops != []
    && v.chainRef == p.chainDigest(v.chain)
    && Continuous(hops)
    && v.chain.rootDelegator == hops[0].delegator
    && (v.leaf.Some? ==>
          && p.leafDigest(v.leaf.value) == v.chain.leafActionRef
          && v.leaf.value.scope == hops[|hops| - 1].scope)
    && (policy.enforceNarrowing ==> PairwiseNarrow(ScopesOf(hops)))
  }

  predicate Conforms(p: Primitives, policy: Policy, v: Vector) {
    Anchored(p, policy, v) && SignaturesHold(p, policy, v.chain)
  }

  lemma {:induction false} BreaksNone(hops: seq<Hop>, n: nat)
    requires n < |hops| || n == 0
    ensures Breaks(hops, n) == [] <==> forall i | 0 <= i < n :: hops[i].delegatee == hops[i + 1].delegator
    decreases n
  {
    if n > 0 {
      BreaksNone(hops, n - 1);
    }
  }

  lemma {:induction false} SignaturesNone(p: Primitives, policy: Policy, chain: Chain, n: nat)
    requires n <= |chain.hops|
    ensures SignatureFailures(p, policy, chain, n) == [] && SignatureGaps(p, policy, chain, n) == []
            <==> forall i | 0 <= i < n :: !BadSignature(p, policy, chain, i) && !Unresolved(p, policy, chain, i)
    decreases n
  {
    hide BadSignature, Unresolved;
    if n > 0 {
      SignaturesNone(p, policy, chain, n - 1);
    }
  }

  lemma SignaturesHoldExactly(p: Primitives, policy: Policy, chain: Chain)
    ensures SignaturesHold(p, policy, chain) <==>
            forall i | 0 <= i < |chain.hops| :: !BadSignature(p, policy, chain, i) && !Unresolved(p, policy, chain, i)
  {
    if forall i | 0 <= i < |chain.hops| :: !BadSignature(p, policy, chain, i) && !Unresolved(p, policy, chain, i) {
      forall i | 0 <= i < |chain.hops| && chain.hops[i].signature.Some?
        ensures var hop := chain.hops[i];
                && hop.delegator in policy.pubkeys && policy.pubkeys[hop.delegator] != ""
                && p.signatureHolds(policy.pubkeys[hop.delegator], chain.chainId, hop, hop.signature.value)
      {
        assert !BadSignature(p, policy, chain, i) && !Unresolved(p, policy, chain, i);
      }
    }
  }

  lemma {:induction false} WideningsNone(hops: seq<Hop>, n: nat)
    requires n <= |hops|
    ensures Widenings(hops, n) == [] <==> forall i | 1 <= i < n :: Narrows(hops[i - 1].scope, hops[i].scope)
    decreases n
  {
    hide Narrows;
    if n > 1 {
      WideningsNone(hops, n - 1);
    }
  }

  lemma NarrowExactly(hops: seq<Hop>)
    ensures PairwiseNarrow(ScopesOf(hops)) <==> Widenings(hops, |hops|) == []
  {
    hide Narrows;
    WideningsNone(hops, |hops|);
    var s := ScopesOf(hops);
    if Widenings(hops, |hops|) == [] {
      forall i | 1 <= i < |s|
        ensures Narrows(s[i - 1], s[i])
      {
        assert Narrows(hops[i - 1].scope, hops[i].scope);
      }
    }
  }

  lemma OwnFailuresNone(p: Primitives, policy: Policy, v: Vector)
    requires v.chain.hops != []
    ensures OwnFailures(p, policy, v) == [] && Gaps(p, policy, v) == [] <==> Conforms(p, policy, v)
  {
    hide Breaks, SignatureFailures, SignatureGaps, Widenings, PairwiseNarrow, SignaturesHold, BadSignature, Unresolved;
    BreaksNone(v.chain.hops, |v.chain.hops| - 1);
    SignaturesNone(p, policy, v.chain, |v.chain.hops|);
    SignaturesHoldExactly(p, policy, v.chain);
    NarrowExactly(v.chain.hops);
  }

  // ------------------------------------------------------------------ the other two verdicts

  /** No check of the chain fails; keys may be missing if the caller did not declare them complete. */
  predicate Faultless(p: Primitives, policy: Policy, v: Vector) {
    && Anchored(p, policy, v)
    && (forall i | 0 <= i < |v.chain.hops| :: !BadSignature(p, policy, v.chain, i))
    && (policy.keysAreComplete ==> forall i | 0 <= i < |v.chain.hops| :: !Unresolved(p, policy, v.chain, i))
  }

  lemma {:induction false} FailuresNone(p: Primitives, policy: Policy, chain: Chain, n: nat)
    requires n <= |chain.hops|
    ensures SignatureFailures(p, policy, chain, n) == [] <==>
            forall i | 0 <= i < n ::
              !BadSignature(p, policy, chain, i) && !(Unresolved(p, policy, chain, i) && policy.keysAreComplete)
    ensures SignatureGaps(p, policy, chain, n) == [] <==>
            forall i | 0 <= i < n :: !(Unresolved(p, policy, chain, i) && !policy.keysAreComplete)
    decreases n
  {
    hide BadSignature, Unresolved;
    if n > 0 {
      FailuresNone(p, policy, chain, n - 1);
    }
  }

  lemma FaultlessExactly(p: Primitives, policy: Policy, v: Vector)
    requires v.chain.hops != []
    ensures OwnFailures(p, policy, v) == [] <==> Faultless(p, policy, v)
  {
    hide Breaks, SignatureFailures, SignatureGaps, Widenings, PairwiseNarrow, BadSignature, Unresolved;
    BreaksNone(v.chain.hops, |v.chain.hops| - 1);
    FailuresNone(p, policy, v.chain, |v.chain.hops|);
    NarrowExactly(v.chain.hops);
  }

  /**
   FAIL exactly for a finding against the chain or a replay; NOT_ASSESSED exactly when there is none
   but a signed hop's delegator has no key, which therefore never reads as a bad signature.
   */
  lemma VerdictExactly(p: Primitives, policy: Policy, seen: Seen, v: Vector)
    requires v.chain.hops != []
    ensures Evaluate(p, policy, seen, v).0.Ok?
    ensures var verdict := Evaluate(p, policy, seen, v).0.value.verdict;
            && (verdict == FAIL <==> !Faultless(p, policy, v) || Contains(seen, v.chain))
            && (verdict == NOT_ASSESSED <==>
                  && Faultless(p, policy, v) && !Contains(seen, v.chain)
                  && exists i | 0 <= i < |v.chain.hops| :: Unresolved(p, policy, v.chain, i))
  {
    hide OwnFailures, SignatureFailures, SignatureGaps, Contains, BadSignature, Unresolved, Record;
    FaultlessExactly(p, policy, v);
    FailuresNone(p, policy, v.chain, |v.chain.hops|);
  }

  predicate Passes(p: Primitives, policy: Policy, seen: Seen, v: Vector) {
    var r := Evaluate(p, policy, seen, v).0;
    r.Ok? && r.value.verdict == PASS
  }

  /** PASS exactly when the whole chain conforms and nothing of it was accepted before. */
  lemma PassExactly(p: Primitives, policy: Policy, seen: Seen, v: Vector)
    ensures Passes(p, policy, seen, v) <==> Conforms(p, policy, v) && !Contains(seen, v.chain)
    ensures Evaluate(p, policy, seen, v).1 == if Passes(p, policy, seen, v) then Record(seen, v.chain) else seen
  {
    hide OwnFailures, Gaps, Contains, Record;
    if v.chain.hops != [] {
      OwnFailuresNone(p, policy, v);
    }
  }

  /**
   When a chain passes with narrowing enforced, every later hop's scope, and the leaf's, is narrower
   than or equal to that of every earlier hop that does not end in ":*:*".
   */
  lemma PassNarrowsChainWide(p: Primitives, policy: Policy, seen: Seen, v: Vector, i: nat, j: nat)
    requires Passes(p, policy, seen, v) && policy.enforceNarrowing
    requires i <= j < |v.chain.hops| && !EndsWith(v.chain.hops[i].scope, ":*:*")
    ensures Narrows(v.chain.hops[i].scope, v.chain.hops[j].scope)
    ensures v.leaf.Some? ==> Narrows(v.chain.hops[i].scope, v.leaf.value.scope)
  {
    hide Evaluate, Narrows, PairwiseNarrow;
    PassExactly(p, policy, seen, v);
    var s := ScopesOf(v.chain.hops);
    ChainWideNarrow(s, i, j);
    ChainWideNarrow(s, i, |s| - 1);
  }

  // ------------------------------------------------------------------ runs over one registry

  datatype Submission = Submission(policy: Policy, vector: Vector)

  predicate Accepts(p: Primitives, seen: Seen, x: Submission) {
    Passes(p, x.policy, seen, x.vector)
  }

  function Next(p: Primitives, seen: Seen, x: Submission): Seen {
    Evaluate(p, x.policy, seen, x.vector).1
  }

  /** The reports of a run of submissions. */
  function Reports(p: Primitives, seen: Seen, xs: seq<Submission>): (r: seq<Result<Report>>)
    ensures |r| == |xs|
    decreases |xs|
  {
    if xs == [] then []
    else [Evaluate(p, xs[0].policy, seen, xs[0].vector).0] + Reports(p, Next(p, seen, xs[0]), xs[1..])
  }

  /** The submissions of a run that pass. */
  function Accepted(p: Primitives, seen: Seen, xs: seq<Submission>): (r: seq<Submission>)
    decreases |xs|
  {
    if xs == [] then []
    else (if Accepts(p, seen, xs[0]) then [xs[0]] else []) + Accepted(p, Next(p, seen, xs[0]), xs[1..])
  }

  function AfterAll(p: Primitives, seen: Seen, xs: seq<Submission>): Seen
    decreases |xs|
  {
    if xs == [] then seen else AfterAll(p, Next(p, seen, xs[0]), xs[1..])
  }

  predicate Unused(seen: Seen, x: Submission) {
    !Contains(seen, x.vector.chain)
  }

  /** Two submissions share neither a chain id nor the reference of a delegation. */
  predicate Disjoint(x: Submission, y: Submission) {
    && x.vector.chain.chainId != y.vector.chain.chainId
    && RefsOf(x.vector.chain.hops) * RefsOf(y.vector.chain.hops) == {}
  }

  ghost predicate PairwiseDisjoint(xs: seq<Submission>) {
    forall i, j | 0 <= i < j < |xs| :: Disjoint(xs[i], xs[j])
  }

  lemma NoUnion(a: set<string>, b: set<string>)
    ensures a + b == {} <==> a == {} && b == {}
  {
    assert a <= a + b && b <= a + b;
  }

  lemma RecordKeepsApart(seen: Seen, x: Submission, y: Submission)
    ensures Unused(Record(seen, x.vector.chain), y) <==> Unused(seen, y) && Disjoint(x, y)
  {
    var rx, ry := RefsOf(x.vector.chain.hops), RefsOf(y.vector.chain.hops);
    assert ry * (seen.refs + rx) == ry * seen.refs + rx * ry;
    NoUnion(ry * seen.refs, rx * ry);
  }

  lemma {:induction false} AcceptedApart(p: Primitives, seen: Seen, xs: seq<Submission>)
    ensures PairwiseDisjoint(Accepted(p, seen, xs))
    ensures forall y | y in Accepted(p, seen, xs) :: Unused(seen, y)
    decreases |xs|
  {
    hide Evaluate, Unused, Disjoint, Passes, Record, Conforms, Contains, PairwiseDisjoint;
    if xs == [] {
      NoneDisjoint();
    } else {
      var x := xs[0];
      PassExactly(p, x.policy, seen, x.vector);
      UnusedIsNotContained(seen, x);
      AcceptedApart(p, Next(p, seen, x), xs[1..]);
      var rest := Accepted(p, Next(p, seen, x), xs[1..]);
      if Accepts(p, seen, x) {
        AddApart(seen, x, rest);
      }
      assert [] + rest == rest;
    }
  }

  lemma NoneDisjoint()
    ensures PairwiseDisjoint([])
  {}

  lemma AddApart(seen: Seen, x: Submission, rest: seq<Submission>)
    requires PairwiseDisjoint(rest) && Unused(seen, x)
    requires forall y | y in rest :: Unused(Record(seen, x.vector.chain), y)
    ensures PairwiseDisjoint([x] + rest) && forall y | y in [x] + rest :: Unused(seen, y)
  {
    hide Unused, Disjoint, Record;
    forall y | y in rest ensures Unused(seen, y) && Disjoint(x, y) {
      RecordKeepsApart(seen, x, y);
    }
  }

  lemma UnusedIsNotContained(seen: Seen, x: Submission)
    ensures Unused(seen, x) <==> !Contains(seen, x.vector.chain)
  {}

  /** Chains that pass have pairwise different chain ids and pairwise disjoint delegation references. */
  lemma NoReplayPasses(p: Primitives, xs: seq<Submission>)
    ensures PairwiseDisjoint(Accepted(p, Nothing, xs))
  {
    AcceptedApart(p, Nothing, xs);
  }

  lemma AcceptedCons(p: Primitives, seen: Seen, x: Submission, rest: seq<Submission>)
    ensures Accepted(p, seen, [x] + rest)
            == (if Accepts(p, seen, x) then [x] else []) + Accepted(p, Next(p, seen, x), rest)
    ensures AfterAll(p, seen, [x] + rest) == AfterAll(p, Next(p, seen, x), rest)
    ensures [] + rest == rest
  {
    hide Evaluate, Passes;
    assert ([x] + rest)[0] == x && ([x] + rest)[1..] == rest;
  }

  /**
   Deleting every submission that did not pass changes nothing for those that did: they are all
   accepted again, in their order, and the registry ends the same.
   */
  lemma {:induction false} RejectedLeaveNoTrace(p: Primitives, seen: Seen, xs: seq<Submission>)
    ensures Accepted(p, seen, Accepted(p, seen, xs)) == Accepted(p, seen, xs)
    ensures AfterAll(p, seen, Accepted(p, seen, xs)) == AfterAll(p, seen, xs)
    decreases |xs|
  {
    if xs != [] {
      hide Evaluate, Passes;
      var x := xs[0];
      PassExactly(p, x.policy, seen, x.vector);
      RejectedLeaveNoTrace(p, Next(p, seen, x), xs[1..]);
      var rest := Accepted(p, Next(p, seen, x), xs[1..]);
      AcceptedCons(p, seen, x, rest);
    }
  }

  /** Deleting any one submission that did not pass leaves every other report as it was. */
  lemma {:induction false} RejectedChangesNoReport(p: Primitives, seen: Seen, before: seq<Submission>, x: Submission,
                                                   after: seq<Submission>)
    requires !Accepts(p, AfterAll(p, seen, before), x)
    ensures var all := Reports(p, seen, before + [x] + after);
            Reports(p, seen, before + after) == all[..|before|] + all[|before| + 1..]
    decreases |before|
  {
    hide Evaluate, Passes;
    if before == [] {
      PassExactly(p, x.policy, seen, x.vector);
      assert before + [x] + after == [x] + after && before + after == after;
      assert ([x] + after)[1..] == after;
    } else {
      var b := before[0];
      RejectedChangesNoReport(p, Next(p, seen, b), before[1..], x, after);
      assert (before + [x] + after)[1..] == before[1..] + [x] + after;
      assert (before + after)[1..] == before[1..] + after;
    }
  }

  /**
   Whether a submission passes depends on its own chain and the chains accepted before it, and on
   nothing else that was submitted.
   */
  lemma PassesExactly(p: Primitives, before: seq<Submission>, x: Submission)
    ensures Accepts(p, AfterAll(p, Nothing, before), x) <==>
              && Conforms(p, x.policy, x.vector)
              && forall y | y in Accepted(p, Nothing, before) :: Disjoint(y, x)
  {
    hide Evaluate, Passes, Conforms, Disjoint;
    PassExactly(p, x.policy, AfterAll(p, Nothing, before), x.vector);
    UnusedAfterAll(p, Nothing, before, x);
    NothingContains(x.vector.chain);
  }

  lemma {:induction false} UnusedAfterAll(p: Primitives, seen: Seen, before: seq<Submission>, x: Submission)
    ensures Unused(AfterAll(p, seen, before), x) <==>
            Unused(seen, x) && forall y | y in Accepted(p, seen, before) :: Disjoint(y, x)
    decreases |before|
  {
    hide Evaluate, Passes, Unused, Disjoint;
    if before != [] {
      var b := before[0];
      PassExactly(p, b.policy, seen, b.vector);
      UnusedAfterAll(p, Next(p, seen, b), before[1..], x);
      RecordKeepsApart(seen, b, x);
      var rest := Accepted(p, Next(p, seen, b), before[1..]);
      if Accepts(p, seen, b) {
        assert Accepted(p, seen, before) == [b] + rest;
        assert b in Accepted(p, seen, before);
        assert forall y :: y in Accepted(p, seen, before) <==> y == b || y in rest;
      } else {
        assert Accepted(p, seen, before) == rest;
      }
    }
  }
}
