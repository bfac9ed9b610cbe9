/** The Merkle tree as the node builds and uses it: the level loop, proof generation and proof
    checking, each against the functions of `Merkle`. */
module MerkleProof {
  import opened Bytes
  import opened Crypto
  import opened Merkle
  import opened MerkleBinding

  datatype PathStep<+H> = PathStep(sibling: H, siblingIsRight: bool)

  datatype MerkleProof = MerkleProof(leafIndex: nat, totalLeaves: nat, auditPath: seq<PathStep<Hash>>)

  datatype MerkleTree = MerkleTree(leaves: seq<Hash>, levels: seq<seq<Hash>>)

  /** What `from_leaf_hashes` builds. */
  ghost predicate IsBuilt(hash: Hasher, tree: MerkleTree) {
    tree.levels == if tree.leaves == [] then [[ZERO]] else Levels(NodeHash(hash), tree.leaves)
  }

  method FromLeafHashes(hash: Hasher, leaves: seq<Hash>) returns (tree: MerkleTree)
    ensures tree.leaves == leaves && IsBuilt(hash, tree)
  {
    if leaves == [] {
      return MerkleTree([], [[ZERO]]);
    }
    var levels := [leaves];
    var currentLevel := leaves;
    ghost var node := NodeHash(hash);
    assert levels[..0] + Levels(node, leaves) == Levels(node, leaves);
    hide Levels, Up, NodeHash;
    while |currentLevel| > 1
      invariant levels != [] && levels[|levels| - 1] == currentLevel
      invariant currentLevel != []
      invariant levels[..|levels| - 1] + Levels(node, currentLevel) == Levels(node, leaves)
      decreases |currentLevel|
    {
      var nextLevel := BuildLevel(hash, currentLevel);
      LevelsStep(node, currentLevel);
      LevelPushed(levels, currentLevel, nextLevel, Levels(node, nextLevel));
      levels := levels + [nextLevel];
      currentLevel := nextLevel;
    }
    LevelsStep(node, currentLevel);
    LevelPushed(levels, currentLevel, [], []);
    return MerkleTree(leaves, levels);
  }

  lemma LevelsStep<H>(node: Noder<H>, level: seq<H>)
    ensures Levels(node, level) == if |level| <= 1 then [level] else [level] + Levels(node, Up(node, level))
  {
    hide Up;
  }

  lemma LevelPushed<T>(levels: seq<seq<T>>, last: seq<T>, next: seq<T>, above: seq<seq<T>>)
    requires levels != [] && levels[|levels| - 1] == last
    ensures levels == levels[..|levels| - 1] + [last]
    ensures (levels + [next])[..|levels|] + above == levels[..|levels| - 1] + ([last] + above)
  {
  }

  method BuildLevel(hash: Hasher, level: seq<Hash>) returns (nextLevel: seq<Hash>)
    ensures nextLevel == Up(NodeHash(hash), level)
  {
    hide *;
    nextLevel := [];
    var i := 0;
    assert level[0..] == level && [] + Up(NodeHash(hash), level) == Up(NodeHash(hash), level);
    while i < |level|
      invariant i <= |level| + 1 && i % 2 == 0
      invariant nextLevel + Up(NodeHash(hash), level[if i <= |level| then i else |level|..])
           == Up(NodeHash(hash), level)
    {
      var rest, before := level[i..], nextLevel;
      UpUnfolds(NodeHash(hash), rest);
      if |rest| >= 2 {
        nextLevel := nextLevel + [NodeHash(hash)(rest[0], rest[1])];
        assert rest[2..] == level[i + 2..];
      } else {
        nextLevel := nextLevel + [NodeHash(hash)(rest[0], rest[0])];
        assert level[|level|..] == [];
      }
      UpUnfolds(NodeHash(hash), []);
      i := i + 2;
      ConcatAssociative(before, nextLevel[|before|..],
        Up(NodeHash(hash), level[if i <= |level| then i else |level|..]));
    }
    UpUnfolds(NodeHash(hash), []);
    assert nextLevel + [] == nextLevel;
  }

  lemma UpUnfolds<H>(node: Noder<H>, level: seq<H>)
    ensures level == [] ==> Up(node, level) == []
    ensures |level| == 1 ==> Up(node, level) == [node(level[0], level[0])] + []
    ensures |level| >= 2 ==> Up(node, level) == [node(level[0], level[1])] + Up(node, level[2..])
  {
  }

  method FromLeafPayloads(hash: Hasher, payloads: seq<Bytes>) returns (tree: MerkleTree)
    ensures tree.leaves == HashLeaves(hash, payloads) && IsBuilt(hash, tree)
  {
    tree := FromLeafHashes(hash, HashLeaves(hash, payloads));
  }

  /** The root a tree reports: the first item of its last level. */
  method GetRoot(hash: Hasher, tree: MerkleTree) returns (root: Hash)
    requires IsBuilt(hash, tree)
    ensures root == Root(hash, tree.leaves)
  {
    if tree.leaves != [] {
      TopIsRoot(NodeHash(hash), tree.leaves);
    }
    if tree.levels != [] && tree.levels[|tree.levels| - 1] != [] {
      root := tree.levels[|tree.levels| - 1][0];
    } else {
      root := ZERO;
    }
  }

  // ---------------------------------------------------------------------------------------------
  // Proofs.

  function StepUp<H>(node: Noder<H>, current: H, step: PathStep<H>): H {
    if step.siblingIsRight then node(current, step.sibling) else node(step.sibling, current)
  }

  /** The digest a path leads to from a leaf. */
  function Climb<H>(node: Noder<H>, leaf: H, path: seq<PathStep<H>>): H {
    if path == [] then leaf else StepUp(node, Climb(node, leaf, path[..|path| - 1]), path[|path| - 1])
  }

  /** The leaf position the directions of a path spell, lowest bit first. */
  function Position<H>(path: seq<PathStep<H>>): nat {
    if path == [] then 0
    else Position(path[..|path| - 1]) + (if path[|path| - 1].siblingIsRight then 0 else Pow2(|path| - 1))
  }

  predicate Accepts(hash: Hasher, proof: MerkleProof, root: Hash, leafData: Bytes) {
    Climb(NodeHash(hash), HashLeaf(hash, leafData), proof.auditPath) == root
  }

  method Verify(hash: Hasher, proof: MerkleProof, expectedRoot: Hash, leafData: Bytes) returns (ok: bool)
    ensures ok <==> Accepts(hash, proof, expectedRoot, leafData)
  {
    var currentHash := HashLeaf(hash, leafData);
    var path := proof.auditPath;
    for i := 0 to |path|
      invariant currentHash == Climb(NodeHash(hash), HashLeaf(hash, leafData), path[..i])
    {
      assert path[..i + 1][..i] == path[..i];
      currentHash :=
        if path[i].siblingIsRight then NodeHash(hash)(currentHash, path[i].sibling)
        else NodeHash(hash)(path[i].sibling, currentHash);
    }
    assert path[..|path|] == path;
    ok := currentHash == expectedRoot;
  }

  /** The step `generate_proof` takes at index i of a level: its neighbour, or itself when odd out. */
  function Sibling<H>(level: seq<H>, i: nat): PathStep<H>
    requires i < |level|
  {
    if i % 2 == 0 then PathStep(level[if i + 1 < |level| then i + 1 else i], true)
    else PathStep(level[i - 1], false)
  }

  function Half(i: nat, k: nat): nat {
    if k == 0 then i else Half(i, k - 1) / 2
  }

  /** Climbing one level from index i reaches index i / 2. */
  lemma {:induction false} SiblingClimbs<H>(node: Noder<H>, level: seq<H>, i: nat)
    requires i < |level|
    ensures StepUp(node, level[i], Sibling(level, i)) == Up(node, level)[i / 2]
    decreases |level|
  {
    if i >= 2 {
      SiblingClimbs(node, level[2..], i - 2);
      assert Sibling(level[2..], i - 2) == Sibling(level, i);
      assert Up(node, level)[i / 2] == Up(node, level[2..])[i / 2 - 1];
    }
  }

  /** The path kept after k levels: it climbs from the leaf to index i / 2^k of level k, and its
      directions are the k lowest bits of i. */
  ghost predicate Reaches<H>(node: Noder<H>, leaves: seq<H>, i: nat, path: seq<PathStep<H>>)
    requires i < |leaves|
  {
    && Half(i, |path|) < |LevelAt(node, leaves, |path|)|
    && Climb(node, leaves[i], path) == LevelAt(node, leaves, |path|)[Half(i, |path|)]
    && i == Position(path) + Half(i, |path|) * Pow2(|path|)
  }

  lemma BitSplits(i: nat, position: nat, index: nat, p: nat)
    requires i == position + index * p
    ensures i == position + (if index % 2 == 0 then 0 else p) + (index / 2) * (2 * p)
  {
    assert index == index % 2 + 2 * (index / 2);
    assert index * p == (index % 2) * p + (index / 2) * (2 * p);
  }

  lemma ReachesNext<H>(node: Noder<H>, leaves: seq<H>, i: nat, path: seq<PathStep<H>>, step: PathStep<H>)
    requires i < |leaves| && Reaches(node, leaves, i, path)
    requires step == Sibling(LevelAt(node, leaves, |path|), Half(i, |path|))
    ensures Reaches(node, leaves, i, path + [step])
  {
    var k := |path|;
    var index := Half(i, k);
    assert (path + [step])[..k] == path;
    assert i == Position(path + [step]) + Half(i, k + 1) * Pow2(k + 1) by {
      BitSplits(i, Position(path), index, Pow2(k));
    }
    assert Climb(node, leaves[i], path + [step]) == Up(node, LevelAt(node, leaves, k))[index / 2] by {
      SiblingClimbs(node, LevelAt(node, leaves, k), index);
    }
    LevelAtSplits(node, leaves, k);
  }

  lemma ReachesStart<H>(node: Noder<H>, leaves: seq<H>, i: nat)
    requires i < |leaves|
    ensures Reaches(node, leaves, i, [])
  {
  }

  lemma ReachesBound<H>(node: Noder<H>, leaves: seq<H>, i: nat, path: seq<PathStep<H>>)
    requires i < |leaves| && Reaches(node, leaves, i, path)
    ensures Half(i, |path|) < |LevelAt(node, leaves, |path|)|
  {
    hide LevelAt, Climb, Position, Half;
  }

  /** At the top there is one item left, so every bit of the index is spent. */
  lemma ReachesTop<H>(node: Noder<H>, leaves: seq<H>, i: nat, path: seq<PathStep<H>>)
    requires i < |leaves| && Reaches(node, leaves, i, path)
    requires LevelAt(node, leaves, |path|) == [RootOf(node, TreeOf(leaves))]
    ensures Climb(node, leaves[i], path) == RootOf(node, TreeOf(leaves)) && Position(path) == i
  {
    hide LevelAt, Climb, Position, Half, RootOf, TreeOf;
  }

  method GenerateProof(hash: Hasher, tree: MerkleTree, leafIndex: nat) returns (proof: Option<MerkleProof>)
    requires IsBuilt(hash, tree)
    ensures proof.Some? <==> leafIndex < |tree.leaves|
    ensures proof.Some? ==>
      && proof.value.leafIndex == leafIndex && proof.value.totalLeaves == |tree.leaves|
      && |proof.value.auditPath| == Height(|tree.leaves|)
      && Climb(NodeHash(hash), tree.leaves[leafIndex], proof.value.auditPath) == Root(hash, tree.leaves)
      && Position(proof.value.auditPath) == leafIndex
  {
    if leafIndex >= |tree.leaves| {
      return None;
    }
    ghost var node := NodeHash(hash);
    LevelsAreLevelAt(node, tree.leaves);
    TopIsRoot(node, tree.leaves);
    ReachesStart(node, tree.leaves, leafIndex);
    var auditPath: seq<PathStep<Hash>> := [];
    var index := leafIndex;
    hide Reaches, Levels, LevelAt, NodeHash, RootOf, TreeOf, Climb, Position;
    for k := 0 to |tree.levels| - 1
      invariant |auditPath| == k && index == Half(leafIndex, k)
      invariant Reaches(node, tree.leaves, leafIndex, auditPath)
    {
      var level := tree.levels[k];
      var isRight := index % 2 == 0;
      var siblingIndex := if isRight then (if index + 1 < |level| then index + 1 else index) else index - 1;
      ReachesBound(node, tree.leaves, leafIndex, auditPath);
      ReachesNext(node, tree.leaves, leafIndex, auditPath, PathStep(level[siblingIndex], isRight));
      auditPath := auditPath + [PathStep(level[siblingIndex], isRight)];
      index := index / 2;
    }
    ReachesTop(node, tree.leaves, leafIndex, auditPath);
    return Some(MerkleProof(leafIndex, |tree.leaves|, auditPath));
  }

  /** Completeness: the proof generated for any payload of any list claims the payload's index, spells
      it in its directions, and is accepted against the root of that list. */
  method ProveAndVerify(hash: Hasher, payloads: seq<Bytes>, i: nat) returns (root: Hash, proof: MerkleProof, ok: bool)
    requires i < |payloads|
    ensures root == Root(hash, HashLeaves(hash, payloads))
    ensures proof.leafIndex == i && proof.totalLeaves == |payloads| && Position(proof.auditPath) == i
    ensures |proof.auditPath| == Height(|payloads|)
    ensures Accepts(hash, proof, root, payloads[i]) && ok
  {
    var tree := FromLeafPayloads(hash, payloads);
    root := GetRoot(hash, tree);
    var generated := GenerateProof(hash, tree, i);
    proof := generated.value;
    ok := Verify(hash, proof, root, payloads[i]);
  }

  // ---------------------------------------------------------------------------------------------
  // Soundness.

  /** The pairs hashed while checking a path are among these. */
  ghost predicate CoversPath<H>(node: Noder<H>, leaf: H, path: seq<PathStep<H>>, pairs: set<Pair<H>>) {
    path != [] ==>
      var before, step := path[..|path| - 1], path[|path| - 1];
      var current := Climb(node, leaf, before);
      && (if step.siblingIsRight then Pair(current, step.sibling) else Pair(step.sibling, current)) in pairs
      && CoversPath(node, leaf, before, pairs)
  }

  /** A path that leads from a leaf digest to the root has the tree's height, and starts at the
      padded leaf its directions select. */
  lemma {:induction false} ClimbSelects<H>(node: Noder<H>, k: nat, tree: Tree<H>, leaf: H, path: seq<PathStep<H>>,
      pairs: set<Pair<H>>, digests: set<H>)
    requires IsPerfect(k, tree) && Separates(node, pairs, digests) && leaf in digests
    requires Covers(node, tree, pairs, digests) && CoversPath(node, leaf, path, pairs)
    requires Climb(node, leaf, path) == RootOf(node, tree)
    ensures |path| == k
    ensures Position(path) < |Fringe(tree)| == Pow2(k) && leaf == Fringe(tree)[Position(path)]
    decreases |path|
  {
    FringeOfPerfect(k, tree);
    if tree.Node? {
      assert Pair(RootOf(node, tree.left), RootOf(node, tree.right)).Parent(node) == RootOf(node, tree);
    }
    if path != [] {
      var before, step := path[..|path| - 1], path[|path| - 1];
      var current := Climb(node, leaf, before);
      var hashed := if step.siblingIsRight then Pair(current, step.sibling) else Pair(step.sibling, current);
      assert hashed.Parent(node) == RootOf(node, tree);
      FringeOfPerfect(k - 1, tree.left);
      ClimbSelects(node, k - 1, if step.siblingIsRight then tree.left else tree.right, leaf, before, pairs, digests);
    }
  }

  /** The index of the list that a padded position repeats. */
  function PadIndex(k: nat, n: nat, i: nat): (j: nat)
    requires 0 < n <= Pow2(k) && i < Pow2(k)
    ensures j < n && (i < n ==> j == i)
    decreases k
  {
    if k == 0 then 0
    else
      var half := Pow2(k - 1);
      if n <= half then PadIndex(k - 1, n, if i < half then i else i - half)
      else if i < half then i
      else half + PadIndex(k - 1, n - half, i - half)
  }

  lemma PadUnfolds<T>(k: nat, leaves: seq<T>, i: nat)
    requires 0 < |leaves| <= Pow2(k) && i < Pow2(k)
    ensures k == 0 ==> Pad(k, leaves)[i] == leaves[PadIndex(k, |leaves|, i)]
    ensures k > 0 ==>
      var half := Pow2(k - 1);
      if |leaves| <= half then
        && Pad(k, leaves)[i] == Pad(k - 1, leaves)[if i < half then i else i - half]
        && PadIndex(k, |leaves|, i) == PadIndex(k - 1, |leaves|, if i < half then i else i - half)
      else if i < half then Pad(k, leaves)[i] == leaves[i] && PadIndex(k, |leaves|, i) == i
      else
        && Pad(k, leaves)[i] == Pad(k - 1, leaves[half..])[i - half]
        && PadIndex(k, |leaves|, i) == half + PadIndex(k - 1, |leaves| - half, i - half)
  {
    PadKeepsElements(k, leaves);
  }

  lemma {:induction false} PadRepeats<T>(k: nat, leaves: seq<T>, i: nat)
    requires 0 < |leaves| <= Pow2(k) && i < Pow2(k)
    ensures Pad(k, leaves)[i] == leaves[PadIndex(k, |leaves|, i)]
    decreases k
  {
    hide Pad, PadIndex;
    PadUnfolds(k, leaves, i);
    if k > 0 {
      var half := Pow2(k - 1);
      if |leaves| <= half {
        PadRepeats(k - 1, leaves, if i < half then i else i - half);
      } else if i >= half {
        PadRepeats(k - 1, leaves[half..], i - half);
      }
    }
  }

  /** Soundness: whatever proof verifies, it has the tree's height and carries a leaf of the list,
      the one its directions select. */
  lemma ProofSelectsLeaf<H>(node: Noder<H>, leaves: seq<H>, leaf: H, path: seq<PathStep<H>>, pairs: set<Pair<H>>,
                            digests: set<H>)
    requires leaves != [] && Separates(node, pairs, digests) && leaf in digests
    requires Covers(node, TreeOf(leaves), pairs, digests) && CoversPath(node, leaf, path, pairs)
    requires Climb(node, leaf, path) == RootOf(node, TreeOf(leaves))
    ensures |path| == Height(|leaves|)
    ensures |leaves| <= Pow2(|path|) && Position(path) < Pow2(|path|)
    ensures leaf == leaves[PadIndex(|path|, |leaves|, Position(path))]
  {
    var k := Height(|leaves|);
    HeightBounds(|leaves|);
    TreeOverIsPerfect(k, leaves);
    FringeIsPad(k, leaves);
    ClimbSelects(node, k, TreeOf(leaves), leaf, path, pairs, digests);
    PadRepeats(k, leaves, Position(path));
  }

  /** `verify` never reads the index a proof claims: for two payloads, the proof of the first is
      accepted when it claims the index of the second. */
  lemma ClaimedIndexUnchecked(hash: Hasher, first: Bytes, second: Bytes)
    ensures Accepts(hash, MerkleProof(1, 2, [PathStep(HashLeaf(hash, second), true)]),
      Root(hash, HashLeaves(hash, [first, second])), first)
  {
    var node := NodeHash(hash);
    var leaves := HashLeaves(hash, [first, second]);
    var path := [PathStep(leaves[1], true)];
    assert leaves[0] == HashLeaf(hash, first) && leaves[1] == HashLeaf(hash, second);
    assert |leaves| == 2 && Pow2(0) == 1 && Height(2) == 1 + Height(1);
    assert leaves[..1] == [leaves[0]] && leaves[1..] == [leaves[1]];
    assert TreeOver(1, leaves) == Node(TreeOver(0, leaves[..1]), TreeOver(0, leaves[1..]));
    assert TreeOf(leaves) == Node(Leaf(leaves[0]), Leaf(leaves[1]));
    assert path[..0] == [];
    assert Climb(node, leaves[0], path) == StepUp(node, leaves[0], path[0]) == node(leaves[0], leaves[1]);
    assert Root(hash, leaves) == node(RootOf(node, Leaf(leaves[0])), RootOf(node, Leaf(leaves[1])));
  }

  /** When the leaves are distinct, the claimed index is the payload's exactly when the directions
      select it. */
  lemma ClaimedIndexHolds<H>(node: Noder<H>, leaves: seq<H>, leaf: H, path: seq<PathStep<H>>, claimed: nat,
                             pairs: set<Pair<H>>, digests: set<H>)
    requires claimed < |leaves| && Distinct(leaves) && Separates(node, pairs, digests) && leaf in digests
    requires Covers(node, TreeOf(leaves), pairs, digests) && CoversPath(node, leaf, path, pairs)
    requires Climb(node, leaf, path) == RootOf(node, TreeOf(leaves))
    ensures |leaves| <= Pow2(|path|) && Position(path) < Pow2(|path|)
    ensures leaf == leaves[claimed] <==> PadIndex(|path|, |leaves|, Position(path)) == claimed
  {
    ProofSelectsLeaf(node, leaves, leaf, path, pairs, digests);
  }
}
