/** What a report of the delegation verifier lists: every finding that holds, once, in the order of the checks. */
module DelegationFindings {
  import opened Scopes
  import opened Delegation

  /** The finding is made against this vector. */
  predicate Holds(p: Primitives, policy: Policy, seen: Seen, v: Vector, f: Finding)
    requires v.chain.hops != []
  {
    var hops := v.chain.hops;
    match f
    case ChainRefMismatch => p.chainDigest(v.chain) != v.chainRef
    case ChainBreak(i) => i + 1 < |hops| && hops[i].delegatee != hops[i + 1].delegator
    case RootMismatch => v.chain.rootDelegator != hops[0].delegator
    case LeafMismatch => v.leaf.Some? && p.leafDigest(v.leaf.value) != v.chain.leafActionRef
    case LeafScopeMismatch => v.leaf.Some? && v.leaf.value.scope != hops[|hops| - 1].scope
    case SignatureInvalid(i) => i < |hops| && BadSignature(p, policy, v.chain, i)
    case KeyNotInCompleteSet(i) => i < |hops| && Unresolved(p, policy, v.chain, i) && policy.keysAreComplete
    case ScopeWidening(i) => policy.enforceNarrowing && 1 <= i < |hops| && !Narrows(hops[i - 1].scope, hops[i].scope)
    case ReplayDetected => Contains(seen, v.chain)
    case SignatureNotAssessed(i) => i < |hops| && Unresolved(p, policy, v.chain, i) && !policy.keysAreComplete
  }

  /** The check that makes a finding, and the hop it is about. */
  function Place(f: Finding): (int, int) {
    match f
    case ChainRefMismatch => (0, 0)
    case ChainBreak(i) => (1, i)
    case RootMismatch => (2, 0)
    case LeafMismatch => (3, 0)
    case LeafScopeMismatch => (4, 0)
    case SignatureInvalid(i) => (5, i)
    case KeyNotInCompleteSet(i) => (5, i)
    case SignatureNotAssessed(i) => (5, i)
    case ScopeWidening(i) => (6, i)
    case ReplayDetected => (7, 0)
  }

  predicate Earlier(f: Finding, g: Finding) {
    Place(f).0 < Place(g).0 || (Place(f).0 == Place(g).0 && Place(f).1 < Place(g).1)
  }

  /** The findings come in the order of the checks, each at most once. */
  predicate InOrder(fs: seq<Finding>) {
    forall i, j | 0 <= i < j < |fs| :: Earlier(fs[i], fs[j])
  }

  predicate Before(fs: seq<Finding>, gs: seq<Finding>) {
    forall f, g | f in fs && g in gs :: Earlier(f, g)
  }

  lemma JoinInOrder(fs: seq<Finding>, gs: seq<Finding>)
    requires InOrder(fs) && InOrder(gs) && Before(fs, gs)
    ensures InOrder(fs + gs)
  {
    hide Earlier;
    forall i, j | 0 <= i < j < |fs + gs| ensures Earlier((fs + gs)[i], (fs + gs)[j]) {
      if i < |fs| <= j {
        assert fs[i] in fs && gs[j - |fs|] in gs;
      }
    }
  }

  /** All findings are of one check, about hops below n. */
  predicate OfCheck(fs: seq<Finding>, check: int, n: int) {
    forall f | f in fs :: Place(f).0 == check && Place(f).1 < n
  }

  lemma AddOne(fs: seq<Finding>, f: Finding, check: int, n: int)
    requires InOrder(fs) && OfCheck(fs, check, n) && Place(f) == (check, n)
    ensures InOrder(fs + [f]) && OfCheck(fs + [f], check, n + 1)
  {
    JoinInOrder(fs, [f]);
  }

  lemma {:induction false} BreaksAre(hops: seq<Hop>, n: nat)
    requires n < |hops| || n == 0
    ensures InOrder(Breaks(hops, n)) && OfCheck(Breaks(hops, n), 1, n)
    ensures forall f :: f in Breaks(hops, n) <==> f.ChainBreak? && f.hop < n && hops[f.hop].delegatee != hops[f.hop + 1].delegator
    decreases n
  {
    if n > 0 {
      BreaksAre(hops, n - 1);
      AddOne(Breaks(hops, n - 1), ChainBreak(n - 1), 1, n - 1);
    }
  }

  lemma {:induction false} SignatureFailuresAre(p: Primitives, policy: Policy, chain: Chain, n: nat)
    requires n <= |chain.hops|
    ensures InOrder(SignatureFailures(p, policy, chain, n)) && OfCheck(SignatureFailures(p, policy, chain, n), 5, n)
    ensures forall f :: f in SignatureFailures(p, policy, chain, n)
                        <==> || (f.SignatureInvalid? && f.hop < n && BadSignature(p, policy, chain, f.hop))
                             || (f.KeyNotInCompleteSet? && f.hop < n && Unresolved(p, policy, chain, f.hop)
                                 && policy.keysAreComplete)
    decreases n
  {
    if n > 0 {
      SignatureFailuresAre(p, policy, chain, n - 1);
      var before := SignatureFailures(p, policy, chain, n - 1);
      NotBoth(p, policy, chain, n - 1);
      hide BadSignature, Unresolved;
      AddOne(before, SignatureInvalid(n - 1), 5, n - 1);
      AddOne(before, KeyNotInCompleteSet(n - 1), 5, n - 1);
      var now := SignatureFailures(p, policy, chain, n);
      assert now == before || now == before + [SignatureInvalid(n - 1)] || now == before + [KeyNotInCompleteSet(n - 1)];
    }
  }

  lemma NotBoth(p: Primitives, policy: Policy, chain: Chain, i: nat)
    requires i < |chain.hops|
    ensures !(BadSignature(p, policy, chain, i) && Unresolved(p, policy, chain, i))
  {}

  lemma {:induction false} SignatureGapsAre(p: Primitives, policy: Policy, chain: Chain, n: nat)
    requires n <= |chain.hops|
    ensures InOrder(SignatureGaps(p, policy, chain, n)) && OfCheck(SignatureGaps(p, policy, chain, n), 5, n)
    ensures forall f :: f in SignatureGaps(p, policy, chain, n)
                        <==> f.SignatureNotAssessed? && f.hop < n && Unresolved(p, policy, chain, f.hop)
                             && !policy.keysAreComplete
    decreases n
  {
    hide Unresolved;
    if n > 0 {
      SignatureGapsAre(p, policy, chain, n - 1);
      AddOne(SignatureGaps(p, policy, chain, n - 1), SignatureNotAssessed(n - 1), 5, n - 1);
    }
  }

  predicate WidensAt(hops: seq<Hop>, i: nat) {
    1 <= i < |hops| && !Narrows(hops[i - 1].scope, hops[i].scope)
  }

  lemma WideningsStep(hops: seq<Hop>, n: nat)
    requires 1 < n <= |hops|
    ensures Widenings(hops, n) == Widenings(hops, n - 1) + If(WidensAt(hops, n - 1), ScopeWidening(n - 1))
  {
    hide Narrows;
  }

  lemma {:induction false} WideningsAre(hops: seq<Hop>, n: nat)
    requires n <= |hops|
    ensures InOrder(Widenings(hops, n)) && OfCheck(Widenings(hops, n), 6, n)
    ensures forall f :: f in Widenings(hops, n) <==> f.ScopeWidening? && f.hop < n && WidensAt(hops, f.hop)
    decreases n
  {
    if n > 1 {
      WideningsAre(hops, n - 1);
      WideningsStep(hops, n);
      hide Widenings, WidensAt, InOrder;
      AddOne(Widenings(hops, n - 1), ScopeWidening(n - 1), 6, n - 1);
    }
  }

  /** All findings are of checks from lo up to but not including hi. */
  predicate Between(fs: seq<Finding>, lo: int, hi: int) {
    forall f | f in fs :: lo <= Place(f).0 < hi
  }

  lemma JoinChecks(fs: seq<Finding>, gs: seq<Finding>, lo: int, mid: int, hi: int)
    requires InOrder(fs) && InOrder(gs) && Between(fs, lo, mid) && Between(gs, mid, hi) && lo <= mid <= hi
    ensures InOrder(fs + gs) && Between(fs + gs, lo, hi)
  {
    JoinInOrder(fs, gs);
  }

  lemma Single(c: bool, f: Finding, check: int)
    requires Place(f) == (check, 0)
    ensures InOrder(If(c, f)) && Between(If(c, f), check, check + 1)
    ensures forall g :: g in If(c, f) <==> c && g == f
  {}

  lemma ChainFailuresAre(p: Primitives, v: Vector)
    requires v.chain.hops != []
    ensures InOrder(ChainFailures(p, v)) && Between(ChainFailures(p, v), 0, 5)
    ensures forall f :: f in ChainFailures(p, v)
                        <==> || (f == ChainRefMismatch && p.chainDigest(v.chain) != v.chainRef)
                             || (f.ChainBreak? && f.hop < |v.chain.hops| - 1
                                 && v.chain.hops[f.hop].delegatee != v.chain.hops[f.hop + 1].delegator)
                             || (f == RootMismatch && v.chain.rootDelegator != v.chain.hops[0].delegator)
                             || f in LeafFailures(p, v)
  {
    hide Breaks, LeafFailures, If;
    var hops := v.chain.hops;
    var ref := If(p.chainDigest(v.chain) != v.chainRef, ChainRefMismatch);
    var breaks := Breaks(hops, |hops| - 1);
    var root := If(v.chain.rootDelegator != hops[0].delegator, RootMismatch);
    Single(p.chainDigest(v.chain) != v.chainRef, ChainRefMismatch, 0);
    BreaksAre(hops, |hops| - 1);
    Single(v.chain.rootDelegator != hops[0].delegator, RootMismatch, 2);
    LeafFailuresAre(p, v);
    JoinChecks(ref, breaks, 0, 1, 2);
    JoinChecks(ref + breaks, root, 0, 2, 3);
    JoinChecks(ref + breaks + root, LeafFailures(p, v), 0, 3, 5);
  }

  lemma LeafFailuresAre(p: Primitives, v: Vector)
    requires v.chain.hops != []
    ensures InOrder(LeafFailures(p, v)) && Between(LeafFailures(p, v), 3, 5)
    ensures forall f :: f in LeafFailures(p, v)
                        <==> && v.leaf.Some?
                             && (|| (f == LeafMismatch && p.leafDigest(v.leaf.value) != v.chain.leafActionRef)
                                 || (f == LeafScopeMismatch
                                     && v.leaf.value.scope != v.chain.hops[|v.chain.hops| - 1].scope))
  {
    hide If;
    if v.leaf.Some? {
      var leaf := If(p.leafDigest(v.leaf.value) != v.chain.leafActionRef, LeafMismatch);
      var scope := If(v.leaf.value.scope != v.chain.hops[|v.chain.hops| - 1].scope, LeafScopeMismatch);
      Single(p.leafDigest(v.leaf.value) != v.chain.leafActionRef, LeafMismatch, 3);
      Single(v.leaf.value.scope != v.chain.hops[|v.chain.hops| - 1].scope, LeafScopeMismatch, 4);
      JoinChecks(leaf, scope, 3, 4, 5);
    }
  }

  lemma OwnFailuresAre(p: Primitives, policy: Policy, v: Vector)
    requires v.chain.hops != []
    ensures InOrder(OwnFailures(p, policy, v)) && Between(OwnFailures(p, policy, v), 0, 7)
    ensures forall f :: f in OwnFailures(p, policy, v)
                        <==> || f in ChainFailures(p, v) || f in SignatureFailures(p, policy, v.chain, |v.chain.hops|)
                             || (policy.enforceNarrowing && f in Widenings(v.chain.hops, |v.chain.hops|))
  {
    hide ChainFailures, SignatureFailures, Widenings, BadSignature, Unresolved, Narrows;
    var signatures := SignatureFailures(p, policy, v.chain, |v.chain.hops|);
    var narrowing := if policy.enforceNarrowing then Widenings(v.chain.hops, |v.chain.hops|) else [];
    ChainFailuresAre(p, v);
    SignatureFailuresAre(p, policy, v.chain, |v.chain.hops|);
    WideningsAre(v.chain.hops, |v.chain.hops|);
    JoinChecks(ChainFailures(p, v), signatures, 0, 5, 6);
    JoinChecks(ChainFailures(p, v) + signatures, narrowing, 0, 6, 7);
  }

  /** A report lists exactly the findings that hold, each once, in the order of the checks and of the hops. */
  lemma FindingsExactly(p: Primitives, policy: Policy, seen: Seen, v: Vector)
    requires v.chain.hops != []
    ensures Evaluate(p, policy, seen, v).0.Ok?
    ensures var r := Evaluate(p, policy, seen, v).0.value;
            && InOrder(r.failures) && InOrder(r.notAssessed)
            && (forall f :: f in r.failures <==> !f.SignatureNotAssessed? && Holds(p, policy, seen, v, f))
            && (forall f :: f in r.notAssessed <==> f.SignatureNotAssessed? && Holds(p, policy, seen, v, f))
  {
    hide ChainFailures, SignatureFailures, Widenings, BadSignature, Unresolved, Narrows, OwnFailures, SignatureGaps,
         LeafFailures, Contains, Record, VerdictOf;
    OwnFailuresAre(p, policy, v);
    ChainFailuresAre(p, v);
    LeafFailuresAre(p, v);
    SignatureFailuresAre(p, policy, v.chain, |v.chain.hops|);
    WideningsAre(v.chain.hops, |v.chain.hops|);
    SignatureGapsAre(p, policy, v.chain, |v.chain.hops|);
    Single(Contains(seen, v.chain), ReplayDetected, 7);
    JoinChecks(OwnFailures(p, policy, v), If(Contains(seen, v.chain), ReplayDetected), 0, 7, 8);
  }
}
