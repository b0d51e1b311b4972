/** The Merkle tree of merkle.py: building, extracting a proof, and checking inclusion. */
module Merkle {
  import opened Python
  import opened Bytes
  import opened Order

  datatype MerkleTree = MerkleTree(actionRefs: seq<string>, levels: seq<seq<Digest>>)

  // ------------------------------------------------------------------ hashed messages

  function LeafMessage(data: ByteString): ByteString {
    [0] + data
  }

  /** Siblings are hashed in byte order, so no direction bit is needed. */
  function NodeMessage(left: ByteString, right: ByteString): ByteString {
    if LexLeq(left, right) then [1] + left + right else [1] + right + left
  }

  function NodeHash(h: HashFn, left: ByteString, right: ByteString): Digest {
    h(NodeMessage(left, right))
  }

  /** What build_merkle_tree accepts as a leaf. */
  predicate ValidRef(s: string) {
    |s| == 64 && FromHex(s).Some?
  }

  function RefBytes(s: string): ByteString
    requires ValidRef(s)
  {
    FromHex(s).value
  }

  function Decoded(refs: seq<string>): (r: seq<ByteString>)
    requires forall i | 0 <= i < |refs| :: ValidRef(refs[i])
    ensures |r| == |refs|
    ensures forall i | 0 <= i < |refs| :: r[i] == RefBytes(refs[i])
  {
    if refs == [] then [] else [RefBytes(refs[0])] + Decoded(refs[1..])
  }

  function LeafLevel(h: HashFn, leaves: seq<ByteString>): (r: seq<Digest>)
    ensures |r| == |leaves|
    ensures forall i | 0 <= i < |leaves| :: r[i] == h(LeafMessage(leaves[i]))
  {
    if leaves == [] then [] else [h(LeafMessage(leaves[0]))] + LeafLevel(h, leaves[1..])
  }

  // ------------------------------------------------------------------ specification

  /** Neighbours hashed in pairs; an odd last node is carried up. */
  function NextLevel(h: HashFn, level: seq<Digest>): (r: seq<Digest>)
    ensures |r| == (|level| + 1) / 2
  {
    if |level| <= 1 then level
    else [NodeHash(h, level[0], level[1])] + NextLevel(h, level[2..])
  }

  function Levels(h: HashFn, level: seq<Digest>): (r: seq<seq<Digest>>)
    ensures r != [] && r[0] == level
    decreases |level|
  {
    if |level| <= 1 then [level] else [level] + Levels(h, NextLevel(h, level))
  }

  function Sibling(idx: nat): nat {
    if idx % 2 == 0 then idx + 1 else idx - 1
  }

  /** The siblings on the way up from position idx, without the root level. */
  function ProofFrom(levels: seq<seq<Digest>>, idx: nat): seq<string>
    decreases |levels|
  {
    if |levels| <= 1 then []
    else
      (if Sibling(idx) < |levels[0]| then [Hex(levels[0][Sibling(idx)])] else [])
      + ProofFrom(levels[1..], idx / 2)
  }

  function DecodeProof(proof: seq<string>): Option<seq<ByteString>> {
    if proof == [] then Some([])
    else
      match (FromHex(proof[0]), DecodeProof(proof[1..]))
      case (Some(first), Some(others)) => Some([first] + others)
      case _ => None
  }

  function Climb(h: HashFn, current: Digest, siblings: seq<ByteString>): Digest
    decreases |siblings|
  {
    if siblings == [] then current
    else Climb(h, NodeHash(h, current, siblings[0]), siblings[1..])
  }

  /** What verify_inclusion decides. */
  predicate Included(h: HashFn, actionRef: string, proof: seq<string>, root: string) {
    && ValidRef(actionRef)
    && DecodeProof(proof).Some?
    && Hex(Climb(h, h(LeafMessage(RefBytes(actionRef))), DecodeProof(proof).value)) == root
  }

  /** The tree build_merkle_tree returns, and its root. */
  function TreeOfRefs(h: HashFn, refs: seq<string>): MerkleTree
    requires forall i | 0 <= i < |refs| :: ValidRef(refs[i])
  {
    MerkleTree(refs, Levels(h, LeafLevel(h, Decoded(refs))))
  }

  function RootOf(h: HashFn, refs: seq<string>): string
    requires refs != [] && forall i | 0 <= i < |refs| :: ValidRef(refs[i])
  {
    var levels := TreeOfRefs(h, refs).levels;
    LastLevel(h, LeafLevel(h, Decoded(refs)));
    Hex(levels[|levels| - 1][0])
  }

  lemma {:induction false} LastLevel(h: HashFn, level: seq<Digest>)
    requires level != []
    ensures var levels := Levels(h, level); |levels[|levels| - 1]| == 1
    decreases |level|
  {
    if |level| > 1 {
      LastLevel(h, NextLevel(h, level));
    }
  }

  // ------------------------------------------------------------------ the operations

  method BuildMerkleTree(h: HashFn, actionRefs: seq<string>) returns (r: Result<MerkleTree>)
    ensures r.Ok? <==> actionRefs != [] && forall i | 0 <= i < |actionRefs| :: ValidRef(actionRefs[i])
    ensures r.Raise? ==> r == Raise(ValueError)
    ensures r.Ok? ==> r.value.actionRefs == actionRefs && r.value == TreeOfRefs(h, actionRefs)
  {
    if actionRefs == [] {
      return Raise(ValueError);
    }
    for k := 0 to |actionRefs|
      invariant forall j | 0 <= j < k :: ValidRef(actionRefs[j])
    {
      if !ValidRef(actionRefs[k]) {
        return Raise(ValueError);
      }
    }
    var levels := GrowLevels(h, LeafLevel(h, Decoded(actionRefs)));
    return Ok(MerkleTree(actionRefs, levels));
  }

  method GrowLevels(h: HashFn, leafLevel: seq<Digest>) returns (levels: seq<seq<Digest>>)
    ensures levels == Levels(h, leafLevel)
  {
    var current := leafLevel;
    var below: seq<seq<Digest>> := [];
    levels := [current];
    while |current| > 1
      invariant levels == below + [current]
      invariant Levels(h, leafLevel) == below + Levels(h, current)
      decreases |current|
    {
      var nextLevel := HashPairs(h, current);
      AppendOne(below, current, Levels(h, nextLevel));
      below := levels;
      levels := levels + [nextLevel];
      current := nextLevel;
    }
  }

  lemma {:induction false} NextLevelAt(h: HashFn, level: seq<Digest>, k: nat)
    requires 2 * k < |level|
    ensures NextLevel(h, level)[k] ==
            if 2 * k + 1 < |level| then NodeHash(h, level[2 * k], level[2 * k + 1]) else level[2 * k]
  {
    if k > 0 {
      NextLevelAt(h, level[2..], k - 1);
    }
  }

  method HashPairs(h: HashFn, current: seq<Digest>) returns (nextLevel: seq<Digest>)
    ensures nextLevel == NextLevel(h, current)
  {
    nextLevel := [];
    var i := 0;
    while i < |current|
      invariant 0 <= i <= |current| && |nextLevel| == (i + 1) / 2 && (i < |current| ==> i % 2 == 0)
      invariant forall k | 0 <= k < |nextLevel| :: nextLevel[k] == NextLevel(h, current)[k]
    {
      NextLevelAt(h, current, i / 2);
      if i + 1 < |current| {
        nextLevel := nextLevel + [NodeHash(h, current[i], current[i + 1])];
        i := i + 2;
      } else {
        nextLevel := nextLevel + [current[i]];
        i := i + 1;
      }
    }
  }

  method GetProof(actionRef: string, tree: MerkleTree) returns (r: Result<seq<string>>)
    ensures r.Ok? <==> actionRef in tree.actionRefs
    ensures r.Raise? ==> r == Raise(ValueError)
    ensures r.Ok? ==> exists idx: nat | idx < |tree.actionRefs| ::
                        && tree.actionRefs[idx] == actionRef
                        && actionRef !in tree.actionRefs[..idx]
                        && r.value == ProofFrom(tree.levels, idx)
  {
    var start := 0;
    while start < |tree.actionRefs| && tree.actionRefs[start] != actionRef
      invariant 0 <= start <= |tree.actionRefs|
      invariant actionRef !in tree.actionRefs[..start]
    {
      start := start + 1;
    }
    if start == |tree.actionRefs| {
      assert tree.actionRefs[..start] == tree.actionRefs;
      return Raise(ValueError);
    }
    var proof := CollectSiblings(tree.levels, start);
    return Ok(proof);
  }

  method CollectSiblings(levels: seq<seq<Digest>>, start: nat) returns (proof: seq<string>)
    ensures proof == ProofFrom(levels, start)
  {
    hide Hex, Sibling;
    proof := [];
    var idx := start;
    var k := 0;
    while k + 1 < |levels|
      invariant 0 <= k <= |levels| && 0 <= idx
      invariant ProofFrom(levels, start) == proof + ProofFrom(levels[k..], idx)
    {
      var level := levels[k];
      assert levels[k..][0] == level && levels[k..][1..] == levels[k + 1..];
      if Sibling(idx) < |level| {
        AppendOne(proof, Hex(level[Sibling(idx)]), ProofFrom(levels[k + 1..], idx / 2));
        proof := proof + [Hex(level[Sibling(idx)])];
      }
      idx := idx / 2;
      k := k + 1;
    }
  }

  method VerifyInclusion(h: HashFn, actionRef: string, proof: seq<string>, root: string) returns (accepted: bool)
    ensures accepted == Included(h, actionRef, proof, root)
  {
    if |actionRef| != 64 {
      return false;
    }
    var data := FromHex(actionRef);
    var siblingBytes := DecodeProof(proof);
    if data.None? || siblingBytes.None? {
      return false;
    }
    var current := h(LeafMessage(data.value));
    for k := 0 to |siblingBytes.value|
      invariant Climb(h, h(LeafMessage(data.value)), siblingBytes.value)
             == Climb(h, current, siblingBytes.value[k..])
    {
      assert siblingBytes.value[k..][1..] == siblingBytes.value[k + 1..];
      current := NodeHash(h, current, siblingBytes.value[k]);
    }
    return Hex(current) == root;
  }
}
