/**
 Soundness, binding and completeness of the Merkle tree.

 A level-by-level tree of hashes is read as a binary tree over the leaf data; two trees
 with one root then differ only by swapped siblings, unless two hashed messages collide.
 */
module MerkleTheorems {
  import opened Python
  import opened Bytes
  import opened Order
  import opened Merkle

  datatype Tree = Leaf(data: ByteString) | Node(left: Tree, right: Tree)

  /** A leaf is hashed after a zero byte, two children after a one, the lexicographically smaller first. */
  function TreeHash(h: HashFn, t: Tree): Digest {
    match t
    case Leaf(data) => h([0] + data)
    case Node(l, r) =>
      var a, b := TreeHash(h, l), TreeHash(h, r);
      if LexLeq(a, b) then h([1] + a + b) else h([1] + b + a)
  }

  /** The messages hashed while building the tree. */
  function Messages(h: HashFn, t: Tree): set<ByteString> {
    match t
    case Leaf(data) => {LeafMessage(data)}
    case Node(l, r) => {NodeMessage(TreeHash(h, l), TreeHash(h, r))} + Messages(h, l) + Messages(h, r)
  }

  function Leaves(t: Tree): multiset<ByteString> {
    match t
    case Leaf(data) => multiset{data}
    case Node(l, r) => Leaves(l) + Leaves(r)
  }

  // ------------------------------------------------------------------ levels as trees

  function LeafTrees(leaves: seq<ByteString>): (r: seq<Tree>)
    ensures |r| == |leaves|
  {
    if leaves == [] then [] else [Leaf(leaves[0])] + LeafTrees(leaves[1..])
  }

  function Hashes(h: HashFn, ts: seq<Tree>): (r: seq<Digest>)
    ensures |r| == |ts|
  {
    if ts == [] then [] else [TreeHash(h, ts[0])] + Hashes(h, ts[1..])
  }

  function PairUp(ts: seq<Tree>): (r: seq<Tree>)
    ensures |r| == (|ts| + 1) / 2
  {
    if |ts| <= 1 then ts else [Node(ts[0], ts[1])] + PairUp(ts[2..])
  }

  function Combine(ts: seq<Tree>): Tree
    requires ts != []
    decreases |ts|
  {
    if |ts| == 1 then ts[0] else Combine(PairUp(ts))
  }

  function TreeOf(refs: seq<string>): Tree
    requires refs != [] && forall i | 0 <= i < |refs| :: ValidRef(refs[i])
  {
    Combine(LeafTrees(Decoded(refs)))
  }

  lemma {:induction false} LeafTreesHash(h: HashFn, leaves: seq<ByteString>)
    ensures Hashes(h, LeafTrees(leaves)) == LeafLevel(h, leaves)
  {
    if leaves != [] {
      LeafTreesHash(h, leaves[1..]);
      assert LeafTrees(leaves)[1..] == LeafTrees(leaves[1..]);
    }
  }

  lemma {:induction false} PairUpHash(h: HashFn, ts: seq<Tree>)
    ensures NextLevel(h, Hashes(h, ts)) == Hashes(h, PairUp(ts))
  {
    if |ts| >= 2 {
      var level := Hashes(h, ts);
      assert level[1] == Hashes(h, ts[1..])[0] == TreeHash(h, ts[1]);
      assert ts[1..][1..] == ts[2..];
      assert level[2..] == Hashes(h, ts[1..])[1..] == Hashes(h, ts[2..]);
      PairUpHash(h, ts[2..]);
      assert PairUp(ts)[1..] == PairUp(ts[2..]);
    }
  }

  lemma {:induction false} CombineHash(h: HashFn, ts: seq<Tree>)
    requires ts != []
    ensures var levels := Levels(h, Hashes(h, ts));
            |levels[|levels| - 1]| >= 1 && levels[|levels| - 1][0] == TreeHash(h, Combine(ts))
    decreases |ts|
  {
    if |ts| > 1 {
      PairUpHash(h, ts);
      CombineHash(h, PairUp(ts));
    }
  }

  /** The root is the hash of the binary tree over the decoded leaves. */
  lemma RootIsTreeHash(h: HashFn, refs: seq<string>)
    requires refs != [] && forall i | 0 <= i < |refs| :: ValidRef(refs[i])
    ensures RootOf(h, refs) == Hex(TreeHash(h, TreeOf(refs)))
  {
    LeafTreesHash(h, Decoded(refs));
    CombineHash(h, LeafTrees(Decoded(refs)));
    LastLevel(h, LeafLevel(h, Decoded(refs)));
  }

  function LeavesOfAll(ts: seq<Tree>): multiset<ByteString> {
    if ts == [] then multiset{} else Leaves(ts[0]) + LeavesOfAll(ts[1..])
  }

  lemma {:induction false} PairUpLeaves(ts: seq<Tree>)
    ensures LeavesOfAll(PairUp(ts)) == LeavesOfAll(ts)
  {
    if |ts| >= 2 {
      PairUpLeaves(ts[2..]);
      assert ts[1..][1..] == ts[2..] && PairUp(ts)[1..] == PairUp(ts[2..]);
    }
  }

  lemma {:induction false} CombineLeaves(ts: seq<Tree>)
    requires ts != []
    ensures Leaves(Combine(ts)) == LeavesOfAll(ts)
    decreases |ts|
  {
    if |ts| == 1 {
      assert ts[1..] == [];
    } else {
      PairUpLeaves(ts);
      CombineLeaves(PairUp(ts));
    }
  }

  lemma {:induction false} LeafTreesLeaves(leaves: seq<ByteString>)
    ensures LeavesOfAll(LeafTrees(leaves)) == multiset(leaves)
  {
    if leaves != [] {
      LeafTreesLeaves(leaves[1..]);
      assert leaves == [leaves[0]] + leaves[1..];
      assert LeafTrees(leaves)[1..] == LeafTrees(leaves[1..]);
    }
  }

  lemma TreeOfLeaves(refs: seq<string>)
    requires refs != [] && forall i | 0 <= i < |refs| :: ValidRef(refs[i])
    ensures Leaves(TreeOf(refs)) == multiset(Decoded(refs))
  {
    CombineLeaves(LeafTrees(Decoded(refs)));
    LeafTreesLeaves(Decoded(refs));
  }

  // ------------------------------------------------------------------ soundness

  predicate Subtree(u: Tree, t: Tree) {
    u == t || (t.Node? && (Subtree(u, t.left) || Subtree(u, t.right)))
  }

  lemma {:induction false} SubtreeParts(h: HashFn, u: Tree, t: Tree)
    requires Subtree(u, t)
    ensures Messages(h, u) <= Messages(h, t)
    ensures u.Node? ==> Subtree(u.left, t) && Subtree(u.right, t)
    ensures u.Leaf? ==> u.data in Leaves(t)
  {
    if u != t {
      if Subtree(u, t.left) {
        SubtreeParts(h, u, t.left);
      } else {
        SubtreeParts(h, u, t.right);
      }
    } else if u.Node? {
      assert Subtree(u.left, u.left) && Subtree(u.right, u.right);
    }
  }

  /** The messages hashed by one inclusion check. */
  function ClimbMessages(h: HashFn, current: Digest, siblings: seq<ByteString>): set<ByteString>
    decreases |siblings|
  {
    if siblings == [] then {}
    else {NodeMessage(current, siblings[0])} + ClimbMessages(h, NodeHash(h, current, siblings[0]), siblings[1..])
  }

  function CheckMessages(h: HashFn, actionRef: string, proof: seq<string>): set<ByteString> {
    if !ValidRef(actionRef) || DecodeProof(proof).None? then {}
    else
      var leaf := LeafMessage(RefBytes(actionRef));
      {leaf} + ClimbMessages(h, h(leaf), DecodeProof(proof).value)
  }

  function TreeMessages(h: HashFn, refs: seq<string>): set<ByteString>
    requires refs != [] && forall i | 0 <= i < |refs| :: ValidRef(refs[i])
  {
    Messages(h, TreeOf(refs))
  }

  /** Equal node messages over two 32-byte children have the same children, in some order. */
  lemma NodeMessageBinds(current: Digest, sibling: ByteString, l: Digest, r: Digest)
    requires NodeMessage(current, sibling) == NodeMessage(l, r)
    ensures (current == l && sibling == r) || (current == r && sibling == l)
  {
    var m := NodeMessage(current, sibling);
    assert |m| == 65;
    var a, b := m[1..33], m[33..65];
    assert (a == l && b == r) || (a == r && b == l);
    assert (a == current && b == sibling) || (a == sibling && b == current);
  }

  lemma PrefixesDiffer(data: ByteString, l: ByteString, r: ByteString)
    ensures LeafMessage(data) != NodeMessage(l, r)
  {
    assert LeafMessage(data)[0] != NodeMessage(l, r)[0];
  }

  /** Without a collision, a climb that ends in the root started at a node of the tree. */
  lemma {:induction false} ClimbStartsInTree(
      h: HashFn, t: Tree, current: Digest, siblings: seq<ByteString>, messages: set<ByteString>)
      returns (u: Tree)
    requires Climb(h, current, siblings) == TreeHash(h, t)
    requires Messages(h, t) <= messages && ClimbMessages(h, current, siblings) <= messages
    requires !Collision(h, messages)
    ensures Subtree(u, t) && TreeHash(h, u) == current
    decreases |siblings|
  {
    if siblings == [] {
      u := t;
    } else {
      var parent := ClimbStartsInTree(h, t, NodeHash(h, current, siblings[0]), siblings[1..], messages);
      SubtreeParts(h, parent, t);
      var m := NodeMessage(current, siblings[0]);
      match parent
      case Leaf(data) =>
        SameMessage(h, messages, LeafMessage(data), m);
        PrefixesDiffer(data, current, siblings[0]);
        assert false;
      case Node(l, r) =>
        var lh, rh := TreeHash(h, l), TreeHash(h, r);
        SameMessage(h, messages, NodeMessage(lh, rh), m);
        NodeMessageBinds(current, siblings[0], lh, rh);
        u := if current == lh then l else r;
    }
  }

  /**
   An accepted proof, of any length and with siblings of any byte length, proves that the
   decoded action_ref is one of the decoded leaves, or two of the messages hashed by the
   builder and the verifier collide.
   */
  lemma InclusionSound(h: HashFn, refs: seq<string>, actionRef: string, proof: seq<string>)
    requires refs != [] && forall i | 0 <= i < |refs| :: ValidRef(refs[i])
    requires Included(h, actionRef, proof, RootOf(h, refs))
    ensures (exists i | 0 <= i < |refs| :: RefBytes(refs[i]) == RefBytes(actionRef))
            || Collision(h, TreeMessages(h, refs) + CheckMessages(h, actionRef, proof))
  {
    var messages := TreeMessages(h, refs) + CheckMessages(h, actionRef, proof);
    var t, data := TreeOf(refs), RefBytes(actionRef);
    var siblings := DecodeProof(proof).value;
    if !Collision(h, messages) {
      RootIsTreeHash(h, refs);
      HexInjective(Climb(h, h(LeafMessage(data)), siblings), TreeHash(h, t));
      var u := ClimbStartsInTree(h, t, h(LeafMessage(data)), siblings, messages);
      SubtreeParts(h, u, t);
      LeafFound(h, u, data, messages);
      TreeOfLeaves(refs);
      assert data in multiset(Decoded(refs));
      assert data in Decoded(refs);
    }
  }

  lemma LeafFound(h: HashFn, u: Tree, data: ByteString, messages: set<ByteString>)
    requires TreeHash(h, u) == h(LeafMessage(data))
    requires Messages(h, u) <= messages && LeafMessage(data) in messages && !Collision(h, messages)
    ensures u == Leaf(data)
  {
    match u
    case Leaf(d) =>
      SameMessage(h, messages, LeafMessage(d), LeafMessage(data));
      assert LeafMessage(d)[1..] == d && LeafMessage(data)[1..] == data;
    case Node(l, r) =>
      var m := NodeMessage(TreeHash(h, l), TreeHash(h, r));
      SameMessage(h, messages, LeafMessage(data), m);
      PrefixesDiffer(data, TreeHash(h, l), TreeHash(h, r));
      assert false;
  }

  // ------------------------------------------------------------------ binding

  /** The same tree up to exchanging siblings. */
  predicate SwapEqual(t: Tree, u: Tree) {
    match t
    case Leaf(data) => u == t
    case Node(l, r) =>
      && u.Node?
      && ((SwapEqual(l, u.left) && SwapEqual(r, u.right)) || (SwapEqual(l, u.right) && SwapEqual(r, u.left)))
  }

  lemma {:induction false} SwapEqualLeaves(t: Tree, u: Tree)
    requires SwapEqual(t, u)
    ensures Leaves(t) == Leaves(u)
  {
    if t.Node? {
      if SwapEqual(t.left, u.left) && SwapEqual(t.right, u.right) {
        SwapEqualLeaves(t.left, u.left);
        SwapEqualLeaves(t.right, u.right);
      } else {
        SwapEqualLeaves(t.left, u.right);
        SwapEqualLeaves(t.right, u.left);
      }
    }
  }

  lemma NodeMessageSymmetric(a: ByteString, b: ByteString)
    ensures NodeMessage(a, b) == NodeMessage(b, a)
  {
    LexTotal(a, b);
  }

  lemma {:induction false} SwapEqualHash(h: HashFn, t: Tree, u: Tree)
    requires SwapEqual(t, u)
    ensures TreeHash(h, t) == TreeHash(h, u)
  {
    if t.Node? {
      if SwapEqual(t.left, u.left) && SwapEqual(t.right, u.right) {
        SwapEqualHash(h, t.left, u.left);
        SwapEqualHash(h, t.right, u.right);
      } else {
        SwapEqualHash(h, t.left, u.right);
        SwapEqualHash(h, t.right, u.left);
        NodeMessageSymmetric(TreeHash(h, u.left), TreeHash(h, u.right));
      }
    }
  }

  lemma {:induction false} HashBindsTree(h: HashFn, t: Tree, u: Tree, messages: set<ByteString>)
    requires TreeHash(h, t) == TreeHash(h, u)
    requires Messages(h, t) <= messages && Messages(h, u) <= messages && !Collision(h, messages)
    ensures SwapEqual(t, u)
  {
    match t
    case Leaf(data) => LeafFound(h, u, data, messages);
    case Node(l, r) =>
      var lh, rh := TreeHash(h, l), TreeHash(h, r);
      if u.Leaf? {
        LeafFound(h, t, u.data, messages);
      } else {
        var ulh, urh := TreeHash(h, u.left), TreeHash(h, u.right);
        SameMessage(h, messages, NodeMessage(lh, rh), NodeMessage(ulh, urh));
        NodeMessageBinds(lh, rh, ulh, urh);
        if lh == ulh && rh == urh {
          HashBindsTree(h, l, u.left, messages);
          HashBindsTree(h, r, u.right, messages);
        } else {
          HashBindsTree(h, l, u.right, messages);
          HashBindsTree(h, r, u.left, messages);
        }
      }
  }

  /**
   Two lists of leaves of any lengths have the same root exactly when their trees are equal
   up to exchanging siblings; then they hold the same multiset of decoded leaves.  Otherwise
   two of the messages hashed for the two trees collide.
   */
  lemma EqualRootsBindLeaves(h: HashFn, refs: seq<string>, others: seq<string>)
    requires refs != [] && forall i | 0 <= i < |refs| :: ValidRef(refs[i])
    requires others != [] && forall i | 0 <= i < |others| :: ValidRef(others[i])
    ensures Collision(h, TreeMessages(h, refs) + TreeMessages(h, others))
            || (RootOf(h, refs) == RootOf(h, others) <==> SwapEqual(TreeOf(refs), TreeOf(others)))
    ensures RootOf(h, refs) == RootOf(h, others) ==>
              multiset(Decoded(refs)) == multiset(Decoded(others))
              || Collision(h, TreeMessages(h, refs) + TreeMessages(h, others))
  {
    var messages := TreeMessages(h, refs) + TreeMessages(h, others);
    var t, u := TreeOf(refs), TreeOf(others);
    RootIsTreeHash(h, refs);
    RootIsTreeHash(h, others);
    TreeOfLeaves(refs);
    TreeOfLeaves(others);
    if RootOf(h, refs) == RootOf(h, others) && !Collision(h, messages) {
      HexInjective(TreeHash(h, t), TreeHash(h, u));
      HashBindsTree(h, t, u, messages);
      SwapEqualLeaves(t, u);
    }
    if SwapEqual(t, u) {
      SwapEqualHash(h, t, u);
    }
  }

  // ------------------------------------------------------------------ completeness

  function Pow2(d: nat): nat {
    if d == 0 then 1 else 2 * Pow2(d - 1)
  }

  /** A level of n nodes has d levels above it, with 2^(d-1) < n <= 2^d. */
  lemma {:induction false} LevelsDepth(h: HashFn, level: seq<Digest>)
    requires level != []
    ensures var d := |Levels(h, level)| - 1;
            |level| <= Pow2(d) && (d > 0 ==> Pow2(d - 1) < |level|)
    decreases |level|
  {
    if |level| > 1 {
      LevelsDepth(h, NextLevel(h, level));
    }
  }

  lemma {:induction false} ProofLength(levels: seq<seq<Digest>>, idx: nat)
    requires levels != []
    ensures |ProofFrom(levels, idx)| <= |levels| - 1
    decreases |levels|
  {
    if |levels| > 1 {
      ProofLength(levels[1..], idx / 2);
    }
  }

  lemma DecodeProofStep(d: Digest, others: seq<string>)
    requires DecodeProof(others).Some?
    ensures DecodeProof([Hex(d)] + others) == Some([d] + DecodeProof(others).value)
  {
    HexRoundTrip(d);
    assert ([Hex(d)] + others)[1..] == others;
  }

  lemma ProofStep(h: HashFn, level: seq<Digest>, idx: nat)
    requires |level| > 1 && idx < |level|
    ensures var above := ProofFrom(Levels(h, NextLevel(h, level)), idx / 2);
            ProofFrom(Levels(h, level), idx) ==
            if Sibling(idx) < |level| then [Hex(level[Sibling(idx)])] + above else above
  {
    assert Levels(h, level)[1..] == Levels(h, NextLevel(h, level));
  }

  /** One step of the check reproduces one step of the construction. */
  lemma ParentOf(h: HashFn, level: seq<Digest>, idx: nat)
    requires |level| > 1 && idx < |level|
    ensures idx / 2 < |NextLevel(h, level)|
    ensures NextLevel(h, level)[idx / 2] ==
            if Sibling(idx) < |level| then NodeHash(h, level[idx], level[Sibling(idx)]) else level[idx]
  {
    hide NextLevel;
    var k := idx / 2;
    NextLevelAt(h, level, k);
    if idx % 2 == 0 {
      assert idx == 2 * k && Sibling(idx) == 2 * k + 1;
    } else {
      assert idx == 2 * k + 1 && Sibling(idx) == 2 * k;
      NodeMessageSymmetric(level[2 * k], level[2 * k + 1]);
    }
  }

  /** From any position of a level, the extracted siblings climb to the root. */
  lemma {:induction false} ClimbFromLevel(h: HashFn, level: seq<Digest>, idx: nat)
    requires idx < |level|
    ensures var levels := Levels(h, level);
            var proof := ProofFrom(levels, idx);
            && DecodeProof(proof).Some?
            && |levels[|levels| - 1]| >= 1
            && Climb(h, level[idx], DecodeProof(proof).value) == levels[|levels| - 1][0]
    decreases |level|
  {
    if |level| > 1 {
      var next := NextLevel(h, level);
      ParentOf(h, level, idx);
      ClimbFromLevel(h, next, idx / 2);
      ProofStep(h, level, idx);
      var above := ProofFrom(Levels(h, next), idx / 2);
      if Sibling(idx) < |level| {
        DecodeProofStep(level[Sibling(idx)], above);
        ClimbStep(h, level[idx], level[Sibling(idx)], DecodeProof(above).value);
      }
    }
  }

  lemma ClimbStep(h: HashFn, current: Digest, sibling: ByteString, above: seq<ByteString>)
    ensures Climb(h, current, [sibling] + above) == Climb(h, NodeHash(h, current, sibling), above)
  {
    assert ([sibling] + above)[1..] == above;
  }

  /** The root a proof leads to: each sibling is hashed with what the siblings below it lead to. */
  function PathRoot(h: HashFn, data: ByteString, siblings: seq<ByteString>): Digest
    decreases |siblings|
  {
    if siblings == [] then h([0] + data)
    else
      var n := |siblings| - 1;
      var a, b := PathRoot(h, data, siblings[..n]), siblings[n];
      if LexLeq(a, b) then h([1] + a + b) else h([1] + b + a)
  }

  lemma {:induction false} ClimbOneMore(h: HashFn, current: Digest, siblings: seq<ByteString>)
    requires siblings != []
    ensures var n := |siblings| - 1;
            Climb(h, current, siblings) == NodeHash(h, Climb(h, current, siblings[..n]), siblings[n])
    decreases |siblings|
  {
    var n := |siblings| - 1;
    if n > 0 {
      ClimbOneMore(h, NodeHash(h, current, siblings[0]), siblings[1..]);
      assert siblings[1..][..n - 1] == siblings[..n][1..];
    }
  }

  lemma {:induction false} ClimbIsPath(h: HashFn, data: ByteString, siblings: seq<ByteString>)
    ensures Climb(h, h(LeafMessage(data)), siblings) == PathRoot(h, data, siblings)
    decreases |siblings|
  {
    if siblings != [] {
      ClimbOneMore(h, h(LeafMessage(data)), siblings);
      ClimbIsPath(h, data, siblings[..|siblings| - 1]);
    }
  }

  lemma {:induction false} DecodedSiblings(proof: seq<string>)
    ensures DecodeProof(proof).Some? <==> forall i | 0 <= i < |proof| :: FromHex(proof[i]).Some?
    ensures DecodeProof(proof).Some? ==>
              && |DecodeProof(proof).value| == |proof|
              && forall i | 0 <= i < |proof| :: FromHex(proof[i]) == Some(DecodeProof(proof).value[i])
  {
    if proof != [] {
      DecodedSiblings(proof[1..]);
    }
  }

  /** verify_inclusion accepts well-formed input for exactly one root, and malformed input for none. */
  lemma InclusionExactly(h: HashFn, actionRef: string, proof: seq<string>, siblings: seq<ByteString>, root: string)
    requires |siblings| == |proof|
    requires forall i | 0 <= i < |proof| :: FromHex(proof[i]).Some? ==> FromHex(proof[i]) == Some(siblings[i])
    ensures Included(h, actionRef, proof, root)
            <==> && |actionRef| == 64 && FromHex(actionRef).Some?
                 && (forall i | 0 <= i < |proof| :: FromHex(proof[i]).Some?)
                 && root == Hex(PathRoot(h, FromHex(actionRef).value, siblings))
  {
    hide FromHex, Hex, Climb, PathRoot, DecodeProof, LeafMessage;
    DecodedSiblings(proof);
    if DecodeProof(proof).Some? {
      assert DecodeProof(proof).value == siblings;
      if ValidRef(actionRef) {
        ClimbIsPath(h, RefBytes(actionRef), siblings);
      }
    }
  }

  /**
   Every proof get_proof returns for a member is accepted against the tree's root, and has
   no more siblings than the tree has levels above the leaves.
   */
  lemma ProofAccepted(h: HashFn, refs: seq<string>, idx: nat)
    requires idx < |refs| && forall i | 0 <= i < |refs| :: ValidRef(refs[i])
    ensures var levels := TreeOfRefs(h, refs).levels;
            var proof := ProofFrom(levels, idx);
            && Included(h, refs[idx], proof, RootOf(h, refs))
            && |proof| <= |levels| - 1
  {
    hide RefBytes, FromHex, Levels, ProofFrom, Climb;
    var level := LeafLevel(h, Decoded(refs));
    assert level[idx] == h(LeafMessage(RefBytes(refs[idx])));
    ClimbFromLevel(h, level, idx);
    ProofLength(Levels(h, level), idx);
    LastLevel(h, level);
  }

  lemma TreeDepth(h: HashFn, refs: seq<string>)
    requires refs != [] && forall i | 0 <= i < |refs| :: ValidRef(refs[i])
    ensures var d := |TreeOfRefs(h, refs).levels| - 1;
            |refs| <= Pow2(d) && (d > 0 ==> Pow2(d - 1) < |refs|)
  {
    LevelsDepth(h, LeafLevel(h, Decoded(refs)));
  }
}
