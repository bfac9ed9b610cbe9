/** What a light client can verify against a block header, and what it cannot. */
module LightClient {
  import opened Bytes
  import opened Crypto
  import opened Merkle
  import opened MerkleBinding
  import opened MerkleProof
  import opened Transactions
  import opened Blocks

  /** `verify_light_client_proof`: the transaction hash is handed over as leaf data. */
  function VerifyLightClientProof(hash: Hasher, root: Hash, tx: Transaction, proof: MerkleProof): bool {
    Accepts(hash, proof, root, tx.TxHash(hash))
  }

  function LeafInput(hash: Hasher, tx: Transaction): Preimage {
    Preimage(MerkleLeafDomain, [0x00] + tx.TxHash(hash))
  }

  /** Everything hashed for the block and while checking the proof is among these. */
  ghost predicate ProofHashed(hash: Hasher, block: Block, tx: Transaction, proof: MerkleProof, pairs: set<Pair<Hash>>,
                              inputs: set<Preimage>) {
    && BlockHashed(hash, block, inputs) && LeafInput(hash, tx) in inputs
    && PairsHashed(pairs, inputs)
    && (block.transactions != [] ==> PairsOf(hash, TreeOf(TxHashes(hash, block.transactions))) <= pairs)
    && CoversPath(NodeHash(hash), HashLeaf(hash, tx.TxHash(hash)), proof.auditPath, pairs)
  }

  /** The check never passes: a block's leaves are bare transaction hashes, while the check hashes
      its leaf data once more, in another domain. So it rejects members and strangers alike. */
  lemma LightClientRejects(hash: Hasher, block: Block, tx: Transaction, proof: MerkleProof, pairs: set<Pair<Hash>>,
                           inputs: set<Preimage>)
    requires SoundInputs(hash, inputs) && ProofHashed(hash, block, tx, proof, pairs, inputs)
    ensures !VerifyLightClientProof(hash, block.ComputeMerkleRoot(hash), tx, proof)
  {
    var leaf := HashLeaf(hash, tx.TxHash(hash));
    assert leaf == Digest(hash, LeafInput(hash, tx));
    if block.transactions == [] {
      ClimbNotZero(hash, leaf, proof.auditPath, pairs, inputs);
    } else if VerifyLightClientProof(hash, block.ComputeMerkleRoot(hash), tx, proof) {
      var xs := TxHashes(hash, block.transactions);
      var digests := (set t | t in block.transactions :: t.TxHash(hash)) + {leaf};
      PathSeparates(hash, block.transactions, tx, pairs, inputs);
      FringeOfList(hash, block.transactions, digests);
      HashedTreeCovers(hash, TreeOf(xs), inputs, pairs, digests);
      hide CoversPath, Climb, Separates, Covers, TreeOf, PairsOf, RootOf, BlockHashed;
      ProofSelectsLeaf(NodeHash(hash), xs, leaf, proof.auditPath, pairs, digests);
      var j := PadIndex(|proof.auditPath|, |xs|, Position(proof.auditPath));
      LeafIsNoTransaction(hash, block.transactions[j], tx, inputs);
    }
  }

  lemma LeafIsNoTransaction(hash: Hasher, member: Transaction, tx: Transaction, inputs: set<Preimage>)
    requires CollisionFree(hash, inputs) && TxInput(member) in inputs && LeafInput(hash, tx) in inputs
    ensures member.TxHash(hash) != HashLeaf(hash, tx.TxHash(hash))
  {
    hide Transaction.HashedBytes;
    assert Digest(hash, TxInput(member)) == member.TxHash(hash);
    assert Digest(hash, LeafInput(hash, tx)) == HashLeaf(hash, tx.TxHash(hash));
  }

  lemma PathSeparates(hash: Hasher, txs: seq<Transaction>, tx: Transaction, pairs: set<Pair<Hash>>,
                      inputs: set<Preimage>)
    requires CollisionFree(hash, inputs) && PairsHashed(pairs, inputs) && LeafInput(hash, tx) in inputs
    requires forall i :: 0 <= i < |txs| ==> TxInput(txs[i]) in inputs
    ensures Separates(NodeHash(hash), pairs, (set t | t in txs :: t.TxHash(hash)) + {HashLeaf(hash, tx.TxHash(hash))})
  {
    var node, members := NodeHash(hash), set t | t in txs;
    InputsSeparate(hash, inputs, pairs, members);
    assert (set t | t in members :: t.TxHash(hash)) == (set t | t in txs :: t.TxHash(hash));
    hide Transaction.HashedBytes;
    forall p | p in pairs ensures p.Parent(node) != HashLeaf(hash, tx.TxHash(hash)) {
      assert Digest(hash, NodeInput(p.left, p.right)) == p.Parent(node);
      assert Digest(hash, LeafInput(hash, tx)) == HashLeaf(hash, tx.TxHash(hash));
    }
  }

  lemma ClimbNotZero(hash: Hasher, leaf: Hash, path: seq<PathStep<Hash>>, pairs: set<Pair<Hash>>, inputs: set<Preimage>)
    requires SoundInputs(hash, inputs) && PairsHashed(pairs, inputs) && CoversPath(NodeHash(hash), leaf, path, pairs)
    requires leaf != ZERO
    ensures Climb(NodeHash(hash), leaf, path) != ZERO
  {
    if path != [] {
      var before, step := path[..|path| - 1], path[|path| - 1];
      var current := Climb(NodeHash(hash), leaf, before);
      var p := if step.siblingIsRight then Pair(current, step.sibling) else Pair(step.sibling, current);
      assert Digest(hash, NodeInput(p.left, p.right)) == p.Parent(NodeHash(hash));
    }
  }

  // ---------------------------------------------------------------------------------------------
  // What the tree's own proofs show.

  function PayloadInput(data: Bytes): Preimage {
    Preimage(MerkleLeafDomain, [0x00] + data)
  }

  /** Everything hashed for a list of payloads and while checking a proof is among these. */
  ghost predicate PayloadsHashed(hash: Hasher, payloads: seq<Bytes>, data: Bytes, proof: MerkleProof,
                                 pairs: set<Pair<Hash>>, inputs: set<Preimage>)
    requires payloads != []
  {
    var tree := TreeOf(HashLeaves(hash, payloads));
    && (forall i :: 0 <= i < |payloads| ==> PayloadInput(payloads[i]) in inputs) && PayloadInput(data) in inputs
    && PairsHashed(pairs, inputs) && TreeHashed(hash, tree, inputs) && PairsOf(hash, tree) <= pairs
    && CoversPath(NodeHash(hash), HashLeaf(hash, data), proof.auditPath, pairs)
  }

  /** A proof shows its payload: whatever proof is accepted against the root of a list, it has the tree's
      height and its data is the payload of the list that its directions select. */
  lemma AcceptedShowsPayload(hash: Hasher, payloads: seq<Bytes>, data: Bytes, proof: MerkleProof,
                             pairs: set<Pair<Hash>>, inputs: set<Preimage>)
    requires payloads != [] && CollisionFree(hash, inputs)
    requires PayloadsHashed(hash, payloads, data, proof, pairs, inputs)
    requires Accepts(hash, proof, Root(hash, HashLeaves(hash, payloads)), data)
    ensures |proof.auditPath| == Height(|payloads|)
    ensures |payloads| <= Pow2(|proof.auditPath|) && Position(proof.auditPath) < Pow2(|proof.auditPath|)
    ensures data == payloads[PadIndex(|proof.auditPath|, |payloads|, Position(proof.auditPath))]
  {
    var xs, leaf := HashLeaves(hash, payloads), HashLeaf(hash, data);
    var digests := (set x | x in xs) + {leaf};
    PayloadsSeparate(hash, payloads, data, pairs, inputs);
    hide CoversPath, Climb, Separates, Covers, TreeOf, PairsOf, RootOf, TreeHashed, HashLeaf, Height, Pow2, Position;
    hide PadIndex, CollisionFree, PairsHashed;
    PayloadsCovered(hash, xs, inputs, pairs, digests);
    ProofSelectsLeaf(NodeHash(hash), xs, leaf, proof.auditPath, pairs, digests);
    var j := PadIndex(|proof.auditPath|, |xs|, Position(proof.auditPath));
    SameLeafSamePayload(hash, data, payloads[j], inputs);
  }

  lemma PayloadsCovered(hash: Hasher, xs: seq<Hash>, inputs: set<Preimage>, pairs: set<Pair<Hash>>, digests: set<Hash>)
    requires xs != [] && TreeHashed(hash, TreeOf(xs), inputs) && PairsOf(hash, TreeOf(xs)) <= pairs
    requires forall x :: x in xs ==> x in digests
    ensures Covers(NodeHash(hash), TreeOf(xs), pairs, digests)
  {
    HeightBounds(|xs|);
    FringeIsPad(Height(|xs|), xs);
    PadKeepsElements(Height(|xs|), xs);
    HashedTreeCovers(hash, TreeOf(xs), inputs, pairs, digests);
  }

  lemma SameLeafSamePayload(hash: Hasher, a: Bytes, b: Bytes, inputs: set<Preimage>)
    requires CollisionFree(hash, inputs) && PayloadInput(a) in inputs && PayloadInput(b) in inputs
    requires HashLeaf(hash, a) == HashLeaf(hash, b)
    ensures a == b
  {
    assert Digest(hash, PayloadInput(a)) == Digest(hash, PayloadInput(b));
    ConcatInjective([0x00], a, [0x00], b);
  }

  lemma PayloadsSeparate(hash: Hasher, payloads: seq<Bytes>, data: Bytes, pairs: set<Pair<Hash>>,
                         inputs: set<Preimage>)
    requires CollisionFree(hash, inputs) && PairsHashed(pairs, inputs) && PayloadInput(data) in inputs
    requires forall i :: 0 <= i < |payloads| ==> PayloadInput(payloads[i]) in inputs
    ensures Separates(NodeHash(hash), pairs, (set x | x in HashLeaves(hash, payloads)) + {HashLeaf(hash, data)})
  {
    var node, xs := NodeHash(hash), HashLeaves(hash, payloads);
    InputsSeparate(hash, inputs, pairs, {});
    hide CollisionFree, HashLeaf, NodeHash, HashLeaves;
    forall p, x | p in pairs && (x in xs || x == HashLeaf(hash, data)) ensures p.Parent(node) != x {
      if x == HashLeaf(hash, data) {
        NoNodeIsLeaf(hash, p, data, inputs);
      } else {
        var i :| 0 <= i < |xs| && xs[i] == x;
        NoNodeIsLeaf(hash, p, payloads[i], inputs);
      }
    }
  }

  lemma NoNodeIsLeaf(hash: Hasher, p: Pair<Hash>, data: Bytes, inputs: set<Preimage>)
    requires CollisionFree(hash, inputs) && NodeInput(p.left, p.right) in inputs && PayloadInput(data) in inputs
    ensures p.Parent(NodeHash(hash)) != HashLeaf(hash, data)
  {
    assert Digest(hash, NodeInput(p.left, p.right)) == p.Parent(NodeHash(hash));
    assert Digest(hash, PayloadInput(data)) == HashLeaf(hash, data);
  }
}
