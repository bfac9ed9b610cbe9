/** Headers and blocks: what a header hash fixes of the header, and what an accepted header fixes
    of the body. */
module Blocks {
  import opened Bytes
  import opened Crypto
  import opened Merkle
  import opened MerkleBinding
  import opened Transactions
  import opened Votes

  const HEADER_VERSION: U32 := 1

  datatype BlockHeader = BlockHeader(
    version: U32,
    chainId: Bytes,
    height: U64,
    round: U32,
    prevHash: Hash,
    merkleRoot: Hash,
    stateRoot: Hash,
    validatorSetHash: Hash,
    timestamp: U64,
    proposer: Address,
    signature: Signature)
  {
    /** The fields after the chain id, all of fixed width. */
    function Tail(): (b: Bytes)
      ensures |b| == 168
    {
      BigEndian(height, 8) + BigEndian(round, 4) + prevHash + merkleRoot + stateRoot + validatorSetHash
        + BigEndian(timestamp, 8) + proposer
    }

    function SigningBytes(): Bytes {
      BigEndian(version, 4) + BigEndian(|chainId| % U32_END, 4) + chainId + Tail()
    }

    function HashedBytes(): Bytes {
      SigningBytes() + signature
    }

    function VerifySignature(crypto: Crypto, pubkey: PublicKey): Outcome<PrimitiveError> {
      if crypto.AddressOf(pubkey) != proposer then Fail(AddressMismatch)
      else if !crypto.accepts(pubkey, SigningBytes(), signature) then Fail(InvalidSignature)
      else Pass
    }

    function HeaderHash(hash: Hasher): Hash {
      hash(HeaderDomain, HashedBytes())
    }
  }

  lemma TailInjective(a: BlockHeader, b: BlockHeader)
    requires a.Tail() == b.Tail()
    ensures a.height == b.height && a.round == b.round && a.prevHash == b.prevHash && a.merkleRoot == b.merkleRoot
    ensures a.stateRoot == b.stateRoot && a.validatorSetHash == b.validatorSetHash
    ensures a.timestamp == b.timestamp && a.proposer == b.proposer
  {
    var x, y := BigEndian(a.height, 8) + BigEndian(a.round, 4), BigEndian(b.height, 8) + BigEndian(b.round, 4);
    var p, q := x + a.prevHash + a.merkleRoot, y + b.prevHash + b.merkleRoot;
    var s, t := p + a.stateRoot + a.validatorSetHash, q + b.stateRoot + b.validatorSetHash;
    ConcatInjective(s + BigEndian(a.timestamp, 8), a.proposer, t + BigEndian(b.timestamp, 8), b.proposer);
    ConcatInjective(s, BigEndian(a.timestamp, 8), t, BigEndian(b.timestamp, 8));
    ConcatInjective(p + a.stateRoot, a.validatorSetHash, q + b.stateRoot, b.validatorSetHash);
    ConcatInjective(p, a.stateRoot, q, b.stateRoot);
    ConcatInjective(x + a.prevHash, a.merkleRoot, y + b.prevHash, b.merkleRoot);
    ConcatInjective(x, a.prevHash, y, b.prevHash);
    ConcatInjective(BigEndian(a.height, 8), BigEndian(a.round, 4), BigEndian(b.height, 8), BigEndian(b.round, 4));
    U64Injective(a.height, b.height);
    U64Injective(a.timestamp, b.timestamp);
    U32Width();
    BigEndianInjective(a.round, b.round, 4);
  }

  /** The hashed encoding determines the whole header, even where the chain id's length prefix is
      cut to 32 bits. */
  lemma HeaderFromBytes(a: BlockHeader, b: BlockHeader)
    requires a.HashedBytes() == b.HashedBytes()
    ensures a == b
  {
    assert |a.chainId| == |b.chainId|;
    ConcatInjective(a.SigningBytes(), a.signature, b.SigningBytes(), b.signature);
    var v, w := BigEndian(a.version, 4), BigEndian(b.version, 4);
    var m, n := BigEndian(|a.chainId| % U32_END, 4), BigEndian(|b.chainId| % U32_END, 4);
    ConcatInjective(v + m + a.chainId, a.Tail(), w + n + b.chainId, b.Tail());
    ConcatInjective(v + m, a.chainId, w + n, b.chainId);
    ConcatInjective(v, m, w, n);
    U32Width();
    BigEndianInjective(a.version, b.version, 4);
    TailInjective(a, b);
  }

  /** What is signed for a header determines every field but the signature. */
  lemma HeaderFromSigning(a: BlockHeader, b: BlockHeader)
    requires a.SigningBytes() == b.SigningBytes()
    ensures b == a.(signature := b.signature)
  {
    var c := a.(signature := b.signature);
    HeaderSigningIgnoresSignature(a, b.signature);
    hide BlockHeader.SigningBytes;
    HeaderFromBytes(c, b);
  }

  lemma HeaderSigningIgnoresSignature(header: BlockHeader, signature: Signature)
    ensures header.(signature := signature).SigningBytes() == header.SigningBytes()
  {
    hide BigEndian;
  }

  function TxHashes(hash: Hasher, txs: seq<Transaction>): (hashes: seq<Hash>)
    ensures |hashes| == |txs|
    ensures forall i :: 0 <= i < |txs| ==> hashes[i] == txs[i].TxHash(hash)
  {
    if txs == [] then [] else [txs[0].TxHash(hash)] + TxHashes(hash, txs[1..])
  }

  /** The first transaction check that fails. */
  function VerifyAll(crypto: Crypto, txs: seq<Transaction>): (r: Outcome<PrimitiveError>)
    ensures r.Pass? <==> forall i :: 0 <= i < |txs| ==> txs[i].Verify(crypto).Pass?
  {
    if txs == [] then Pass
    else if txs[0].Verify(crypto).Fail? then txs[0].Verify(crypto)
    else VerifyAll(crypto, txs[1..])
  }

  datatype Block = Block(
    header: BlockHeader,
    transactions: seq<Transaction>,
    lastCommitQc: Option<QuorumCertificate>)
  {
    function ComputeMerkleRoot(hash: Hasher): Hash {
      Root(hash, TxHashes(hash, transactions))
    }

    function BlockHash(hash: Hasher): Hash {
      header.HeaderHash(hash)
    }

    function ValidateBasic(crypto: Crypto): Outcome<PrimitiveError> {
      var calculated := ComputeMerkleRoot(crypto.hash);
      if calculated != header.merkleRoot then Fail(MerkleRootMismatch(header.merkleRoot, calculated))
      else VerifyAll(crypto, transactions)
    }
  }

  // ---------------------------------------------------------------------------------------------
  // What was hashed for a block.

  function HeaderInput(header: BlockHeader): Preimage {
    Preimage(HeaderDomain, header.HashedBytes())
  }

  function TxInput(tx: Transaction): Preimage {
    Preimage(TxDomain, tx.HashedBytes())
  }

  function NodeInput(left: Hash, right: Hash): Preimage {
    Preimage(MerkleNodeDomain, [0x01] + left + right)
  }

  /** The inputs hashed for the nodes of a tree are among these. */
  ghost predicate TreeHashed(hash: Hasher, tree: Tree<Hash>, inputs: set<Preimage>) {
    match tree
    case Leaf(_) => true
    case Node(l, r) =>
      && NodeInput(RootOf(NodeHash(hash), l), RootOf(NodeHash(hash), r)) in inputs
      && TreeHashed(hash, l, inputs) && TreeHashed(hash, r, inputs)
  }

  /** Everything hashed while a block is validated is among these. */
  ghost predicate BlockHashed(hash: Hasher, block: Block, inputs: set<Preimage>) {
    && HeaderInput(block.header) in inputs
    && (forall i :: 0 <= i < |block.transactions| ==> TxInput(block.transactions[i]) in inputs)
    && (block.transactions != [] ==> TreeHashed(hash, TreeOf(TxHashes(hash, block.transactions)), inputs))
  }

  /** Sound inputs: no two share a digest, and none hashes to ZERO. */
  ghost predicate SoundInputs(hash: Hasher, inputs: set<Preimage>) {
    CollisionFree(hash, inputs) && forall p :: p in inputs ==> Digest(hash, p) != ZERO
  }

  ghost function PairsOf(hash: Hasher, tree: Tree<Hash>): set<Pair<Hash>> {
    match tree
    case Leaf(_) => {}
    case Node(l, r) =>
      {Pair(RootOf(NodeHash(hash), l), RootOf(NodeHash(hash), r))} + PairsOf(hash, l) + PairsOf(hash, r)
  }

  ghost predicate PairsHashed(pairs: set<Pair<Hash>>, inputs: set<Preimage>) {
    forall p :: p in pairs ==> NodeInput(p.left, p.right) in inputs
  }

  lemma {:induction false} HashedTreeCovers(hash: Hasher, tree: Tree<Hash>, inputs: set<Preimage>,
      pairs: set<Pair<Hash>>, digests: set<Hash>)
    requires TreeHashed(hash, tree, inputs) && PairsOf(hash, tree) <= pairs
    requires forall x :: x in Fringe(tree) ==> x in digests
    ensures Covers(NodeHash(hash), tree, pairs, digests) && PairsHashed(PairsOf(hash, tree), inputs)
  {
    match tree
    case Leaf(digest) => assert digest in Fringe(tree);
    case Node(l, r) =>
      HashedTreeCovers(hash, l, inputs, pairs, digests);
      HashedTreeCovers(hash, r, inputs, pairs, digests);
  }

  /** Collision-free inputs keep nodes apart from each other and from transaction hashes. */
  lemma InputsSeparate(hash: Hasher, inputs: set<Preimage>, pairs: set<Pair<Hash>>, txs: set<Transaction>)
    requires CollisionFree(hash, inputs) && PairsHashed(pairs, inputs)
    requires forall tx :: tx in txs ==> TxInput(tx) in inputs
    ensures Separates(NodeHash(hash), pairs, set tx | tx in txs :: tx.TxHash(hash))
  {
    var node := NodeHash(hash);
    forall p, q | p in pairs && q in pairs && p.Parent(node) == q.Parent(node) ensures p == q {
      assert Digest(hash, NodeInput(p.left, p.right)) == Digest(hash, NodeInput(q.left, q.right));
      ConcatInjective([0x01] + p.left, p.right, [0x01] + q.left, q.right);
      ConcatInjective([0x01], p.left, [0x01], q.left);
    }
    forall p, tx | p in pairs && tx in txs ensures p.Parent(node) != tx.TxHash(hash) {
      assert Digest(hash, NodeInput(p.left, p.right)) == p.Parent(node);
      assert Digest(hash, TxInput(tx)) == tx.TxHash(hash);
    }
  }

  lemma {:induction false} SameHashesSameTransactions(hash: Hasher, a: seq<Transaction>, b: seq<Transaction>,
      inputs: set<Preimage>)
    requires CollisionFree(hash, inputs) && TxHashes(hash, a) == TxHashes(hash, b)
    requires forall i :: 0 <= i < |a| ==> TxInput(a[i]) in inputs
    requires forall i :: 0 <= i < |b| ==> TxInput(b[i]) in inputs
    ensures a == b
  {
    hide TxHashes, Transaction.TxHash, CollisionFree;
    assert |a| == |b|;
    forall i | 0 <= i < |a| ensures a[i] == b[i] {
      assert TxHashes(hash, a)[i] == TxHashes(hash, b)[i];
      SameHashSame(hash, a[i], b[i], inputs);
    }
  }

  lemma {:induction false} PadHashes(hash: Hasher, k: nat, txs: seq<Transaction>)
    requires 0 < |txs| <= Pow2(k)
    ensures Pad(k, TxHashes(hash, txs)) == TxHashes(hash, Pad(k, txs))
    decreases k
  {
    hide *;
    PadStep(k, txs);
    PadStep(k, TxHashes(hash, txs));
    if k > 0 {
      var half := Pow2(k - 1);
      if |txs| <= half {
        PadHashes(hash, k - 1, txs);
        HashesConcat(hash, Pad(k - 1, txs), Pad(k - 1, txs));
      } else {
        var a, b := txs[..half], txs[half..];
        assert txs == a + b;
        HashesConcat(hash, a, b);
        PadHashes(hash, k - 1, a);
        PadHashes(hash, k - 1, b);
        HashesConcat(hash, Pad(k - 1, a), Pad(k - 1, b));
      }
    }
  }

  lemma HashesConcat(hash: Hasher, a: seq<Transaction>, b: seq<Transaction>)
    ensures TxHashes(hash, a + b) == TxHashes(hash, a) + TxHashes(hash, b)
    ensures TxHashes(hash, a + b)[..|a|] == TxHashes(hash, a) && TxHashes(hash, a + b)[|a|..] == TxHashes(hash, b)
  {
    hide TxHashes, Transaction.TxHash;
  }

  /** Padding the hashes is hashing the padded list. */
  lemma PaddedHashes(hash: Hasher, txs: seq<Transaction>)
    requires txs != []
    ensures Padded(TxHashes(hash, txs)) == TxHashes(hash, Padded(txs))
  {
    HeightBounds(|txs|);
    PadHashes(hash, Height(|txs|), txs);
  }

  /** Transaction lists that one tree stands for have one Merkle root, whatever the hash function. */
  lemma SamePaddedSameRoot(hash: Hasher, a: seq<Transaction>, b: seq<Transaction>)
    requires SamePadded(a, b)
    ensures Root(hash, TxHashes(hash, a)) == Root(hash, TxHashes(hash, b))
    ensures a != [] ==> TreeOf(TxHashes(hash, a)) == TreeOf(TxHashes(hash, b))
  {
    hide TxHashes, Padded, TreeOf;
    if a != [] {
      PaddedHashes(hash, a);
      PaddedHashes(hash, b);
      TreesMatchPadded(TxHashes(hash, a), TxHashes(hash, b));
    }
  }

  /** What the Merkle root fixes of the transactions, exactly: two lists have one root if and only if
      one tree stands for both. */
  lemma RootBindsTransactions(hash: Hasher, a: Block, b: Block, inputs: set<Preimage>)
    requires SoundInputs(hash, inputs) && BlockHashed(hash, a, inputs) && BlockHashed(hash, b, inputs)
    ensures a.ComputeMerkleRoot(hash) == b.ComputeMerkleRoot(hash) <==> SamePadded(a.transactions, b.transactions)
  {
    hide *;
    RootIs(hash, a);
    RootIs(hash, b);
    SamePaddedIs(a.transactions, b.transactions);
    if a.transactions == [] || b.transactions == [] {
      NonEmptyRootIsNotZero(hash, if a.transactions == [] then b else a, inputs);
    } else if a.ComputeMerkleRoot(hash) == b.ComputeMerkleRoot(hash) {
      var txs := Padded(a.transactions);
      EqualRootsEqualPadded(hash, a, b, inputs);
      PaddedHashes(hash, a.transactions);
      PaddedHashes(hash, b.transactions);
      PaddedHashed(hash, a, inputs);
      PaddedHashed(hash, b, inputs);
      SoundIsCollisionFree(hash, inputs);
      SameHashesSameTransactions(hash, txs, Padded(b.transactions), inputs);
    }
    if SamePadded(a.transactions, b.transactions) {
      SamePaddedSameRoot(hash, a.transactions, b.transactions);
    }
  }

  lemma RootIs(hash: Hasher, block: Block)
    ensures block.ComputeMerkleRoot(hash) == Root(hash, TxHashes(hash, block.transactions))
    ensures block.transactions == [] ==> block.ComputeMerkleRoot(hash) == ZERO
  {
  }

  lemma SamePaddedIs(a: seq<Transaction>, b: seq<Transaction>)
    ensures SamePadded(a, b) <==> if a == [] || b == [] then a == b else Padded(a) == Padded(b)
  {
    hide Padded;
  }

  lemma PaddedHashed(hash: Hasher, block: Block, inputs: set<Preimage>)
    requires BlockHashed(hash, block, inputs) && block.transactions != []
    ensures forall i :: 0 <= i < |Padded(block.transactions)| ==> TxInput(Padded(block.transactions)[i]) in inputs
  {
    hide *;
    HashedParts(hash, block, inputs);
    PaddedExtends(block.transactions);
    forall i | 0 <= i < |Padded(block.transactions)| ensures TxInput(Padded(block.transactions)[i]) in inputs {
      assert Padded(block.transactions)[i] in Padded(block.transactions);
    }
  }

  lemma SameHashSame(hash: Hasher, a: Transaction, b: Transaction, inputs: set<Preimage>)
    requires CollisionFree(hash, inputs) && TxInput(a) in inputs && TxInput(b) in inputs
    requires a.TxHash(hash) == b.TxHash(hash)
    ensures a == b
  {
    hide Transaction.HashedBytes;
    assert Digest(hash, TxInput(a)) == Digest(hash, TxInput(b));
    TransactionFromBytes(a, b);
  }

  lemma EqualRootsEqualPadded(hash: Hasher, a: Block, b: Block, inputs: set<Preimage>)
    requires SoundInputs(hash, inputs) && BlockHashed(hash, a, inputs) && BlockHashed(hash, b, inputs)
    requires a.transactions != [] && b.transactions != [] && a.ComputeMerkleRoot(hash) == b.ComputeMerkleRoot(hash)
    ensures Padded(TxHashes(hash, a.transactions)) == Padded(TxHashes(hash, b.transactions))
  {
    hide *;
    var xs, ys := TxHashes(hash, a.transactions), TxHashes(hash, b.transactions);
    var pairs := PairsOf(hash, TreeOf(xs)) + PairsOf(hash, TreeOf(ys));
    var txs := (set tx | tx in a.transactions) + (set tx | tx in b.transactions);
    var digests := set tx | tx in txs :: tx.TxHash(hash);
    HashedParts(hash, a, inputs);
    HashedParts(hash, b, inputs);
    SoundIsCollisionFree(hash, inputs);
    FringeOfList(hash, a.transactions, digests);
    FringeOfList(hash, b.transactions, digests);
    HashedTreeCovers(hash, TreeOf(xs), inputs, pairs, digests);
    HashedTreeCovers(hash, TreeOf(ys), inputs, pairs, digests);
    PairsOfBoth(PairsOf(hash, TreeOf(xs)), PairsOf(hash, TreeOf(ys)), inputs);
    InputsSeparate(hash, inputs, pairs, txs);
    RootBindsPadded(NodeHash(hash), xs, ys, pairs, digests);
  }

  lemma SoundIsCollisionFree(hash: Hasher, inputs: set<Preimage>)
    requires SoundInputs(hash, inputs)
    ensures CollisionFree(hash, inputs)
  {
    hide CollisionFree;
  }

  lemma PairsOfBoth(p: set<Pair<Hash>>, q: set<Pair<Hash>>, inputs: set<Preimage>)
    requires PairsHashed(p, inputs) && PairsHashed(q, inputs)
    ensures PairsHashed(p + q, inputs)
  {
    hide NodeInput;
  }

  lemma HashedParts(hash: Hasher, block: Block, inputs: set<Preimage>)
    requires BlockHashed(hash, block, inputs) && block.transactions != []
    ensures TreeHashed(hash, TreeOf(TxHashes(hash, block.transactions)), inputs)
    ensures forall tx :: tx in block.transactions ==> TxInput(tx) in inputs
    ensures block.ComputeMerkleRoot(hash) == RootOf(NodeHash(hash), TreeOf(TxHashes(hash, block.transactions)))
  {
    hide TreeHashed, TxInput, TreeOf, RootOf, NodeHash;
  }

  lemma FringeOfList(hash: Hasher, txs: seq<Transaction>, digests: set<Hash>)
    requires txs != [] && forall tx :: tx in txs ==> tx.TxHash(hash) in digests
    ensures forall x :: x in Fringe(TreeOf(TxHashes(hash, txs))) ==> x in digests
  {
    var xs := TxHashes(hash, txs);
    HeightBounds(|xs|);
    FringeIsPad(Height(|xs|), xs);
    PadKeepsElements(Height(|xs|), xs);
    forall x | x in Fringe(TreeOf(xs)) ensures x in digests {
      assert x in xs;
      var i :| 0 <= i < |xs| && xs[i] == x;
      assert txs[i] in txs;
    }
  }

  lemma NonEmptyRootIsNotZero(hash: Hasher, block: Block, inputs: set<Preimage>)
    requires SoundInputs(hash, inputs) && BlockHashed(hash, block, inputs)
    ensures block.transactions != [] ==> block.ComputeMerkleRoot(hash) != ZERO
  {
    if block.transactions != [] {
      var xs := TxHashes(hash, block.transactions);
      match TreeOf(xs)
      case Node(l, r) =>
        assert Digest(hash, NodeInput(RootOf(NodeHash(hash), l), RootOf(NodeHash(hash), r)))
          == block.ComputeMerkleRoot(hash);
      case Leaf(digest) =>
        FringeOfList(hash, block.transactions, set tx | tx in block.transactions :: tx.TxHash(hash));
        assert digest in Fringe(TreeOf(xs));
    }
  }

  // ---------------------------------------------------------------------------------------------
  // What a block hash fixes of the body.

  lemma SameHashSameHeader(hash: Hasher, a: BlockHeader, b: BlockHeader, inputs: set<Preimage>)
    requires CollisionFree(hash, inputs) && HeaderInput(a) in inputs && HeaderInput(b) in inputs
    ensures a.HeaderHash(hash) == b.HeaderHash(hash) <==> a == b
  {
    hide BlockHeader.HashedBytes, CollisionFree;
    if a.HeaderHash(hash) == b.HeaderHash(hash) {
      SameDigestSameInput(hash, HeaderInput(a), HeaderInput(b), inputs);
      HeaderFromBytes(a, b);
    }
  }

  lemma SameDigestSameInput(hash: Hasher, p: Preimage, q: Preimage, inputs: set<Preimage>)
    requires CollisionFree(hash, inputs) && p in inputs && q in inputs && Digest(hash, p) == Digest(hash, q)
    ensures p == q
  {
  }

  lemma SamePaddedVerify(crypto: Crypto, a: seq<Transaction>, b: seq<Transaction>)
    requires SamePadded(a, b) && VerifyAll(crypto, a).Pass?
    ensures VerifyAll(crypto, b).Pass?
  {
    hide VerifyAll, Transaction.Verify, SamePadded;
    SamePaddedIsPrefix(a, b);
    forall i | 0 <= i < |b| ensures b[i].Verify(crypto).Pass? {
      assert b[i] in b;
      var j :| 0 <= j < |a| && a[j] == b[i];
    }
  }

  /** Which blocks pass `validate_basic` under the hash of one that does: exactly those of its header
      whose body one tree stands for. Such a body is the same one if and only if it is equally long. */
  lemma BlockHashBindsBody(crypto: Crypto, a: Block, b: Block, inputs: set<Preimage>)
    requires SoundInputs(crypto.hash, inputs)
    requires BlockHashed(crypto.hash, a, inputs) && BlockHashed(crypto.hash, b, inputs)
    requires a.ValidateBasic(crypto).Pass?
    ensures b.ValidateBasic(crypto).Pass? && a.BlockHash(crypto.hash) == b.BlockHash(crypto.hash)
       <==> a.header == b.header && SamePadded(a.transactions, b.transactions)
    ensures b.ValidateBasic(crypto).Pass? && a.BlockHash(crypto.hash) == b.BlockHash(crypto.hash) ==>
      && (a.transactions == b.transactions <==> |a.transactions| == |b.transactions|)
      && (Distinct(a.transactions) && Distinct(b.transactions) ==> a.transactions == b.transactions)
  {
    hide *;
    SoundIsCollisionFree(crypto.hash, inputs);
    HeaderHashed(crypto.hash, a, inputs);
    HeaderHashed(crypto.hash, b, inputs);
    SameHashSameHeader(crypto.hash, a.header, b.header, inputs);
    RootBindsTransactions(crypto.hash, a, b, inputs);
    PassesIff(crypto, a);
    PassesIff(crypto, b);
    if SamePadded(a.transactions, b.transactions) {
      SamePaddedIsPrefix(a.transactions, b.transactions);
      SamePaddedVerify(crypto, a.transactions, b.transactions);
    }
  }

  lemma HeaderHashed(hash: Hasher, block: Block, inputs: set<Preimage>)
    requires BlockHashed(hash, block, inputs)
    ensures HeaderInput(block.header) in inputs && block.BlockHash(hash) == block.header.HeaderHash(hash)
  {
    hide TreeHashed, TxInput, HeaderInput, BlockHeader.HeaderHash;
  }

  lemma PassesIff(crypto: Crypto, block: Block)
    ensures block.ValidateBasic(crypto).Pass?
       <==> (&& block.ComputeMerkleRoot(crypto.hash) == block.header.merkleRoot
             && VerifyAll(crypto, block.transactions).Pass?)
  {
    hide Block.ComputeMerkleRoot, VerifyAll;
  }

  /** A second body: spelling out what the builder repeats leaves a block that passes under the same
      hash, and a different one unless the number of transactions is a power of two. */
  lemma PaddedBodyPasses(crypto: Crypto, block: Block)
    requires block.ValidateBasic(crypto).Pass? && block.transactions != []
    ensures var twin := block.(transactions := Padded(block.transactions));
      && twin.ValidateBasic(crypto).Pass? && twin.BlockHash(crypto.hash) == block.BlockHash(crypto.hash)
      && (twin.transactions != block.transactions <==> |block.transactions| != Pow2(Height(|block.transactions|)))
  {
    var twin := block.(transactions := Padded(block.transactions));
    PaddedTwice(block.transactions);
    PaddedSelfIff(block.transactions);
    SamePaddedPasses(crypto, block, twin);
    hide *;
  }

  lemma SamePaddedPasses(crypto: Crypto, block: Block, twin: Block)
    requires block.ValidateBasic(crypto).Pass? && SamePadded(block.transactions, twin.transactions)
    requires twin.header == block.header
    ensures twin.ValidateBasic(crypto).Pass? && twin.BlockHash(crypto.hash) == block.BlockHash(crypto.hash)
  {
    SamePaddedSameRoot(crypto.hash, block.transactions, twin.transactions);
    SamePaddedVerify(crypto, block.transactions, twin.transactions);
    hide SamePadded, VerifyAll, Root, TxHashes, BlockHeader.HeaderHash;
  }

  /** A block passes under the hash of another. */
  ghost predicate PassesAs(crypto: Crypto, other: Block, block: Block, inputs: set<Preimage>) {
    && BlockHashed(crypto.hash, other, inputs)
    && other.ValidateBasic(crypto).Pass? && other.BlockHash(crypto.hash) == block.BlockHash(crypto.hash)
  }

  /** The body of a block is the only one its hash lets pass. */
  ghost predicate OnlyBody(crypto: Crypto, block: Block, inputs: set<Preimage>) {
    forall other: Block :: PassesAs(crypto, other, block, inputs) ==> other.transactions == block.transactions
  }

  /** When a block hash fixes the body: exactly when the body is empty or full and not the padding of
      its own beginning. */
  lemma OnlyBodyIff(crypto: Crypto, block: Block, inputs: set<Preimage>)
    requires SoundInputs(crypto.hash, inputs) && BlockHashed(crypto.hash, block, inputs)
    requires block.ValidateBasic(crypto).Pass?
    ensures OnlyBody(crypto, block, inputs) <==> Unshared(block.transactions)
  {
    hide *;
    UnsharedIff(block.transactions);
    if Unshared(block.transactions) {
      forall other: Block | PassesAs(crypto, other, block, inputs) ensures other.transactions == block.transactions {
        PassesAsIs(crypto, other, block, inputs);
        BlockHashBindsBody(crypto, block, other, inputs);
      }
      OnlyBodyFrom(crypto, block, inputs);
    } else {
      var txs :| SamePadded(block.transactions, txs) && txs != block.transactions;
      var twin := block.(transactions := txs);
      SamePaddedPasses(crypto, block, twin);
      SamePaddedHashed(crypto.hash, block, twin, inputs);
      PassesAsIs(crypto, twin, block, inputs);
      NotOnlyBody(crypto, block, twin, inputs);
    }
  }

  lemma OnlyBodyFrom(crypto: Crypto, block: Block, inputs: set<Preimage>)
    requires forall other: Block :: PassesAs(crypto, other, block, inputs) ==> other.transactions == block.transactions
    ensures OnlyBody(crypto, block, inputs)
  {
    hide PassesAs;
  }

  lemma NotOnlyBody(crypto: Crypto, block: Block, twin: Block, inputs: set<Preimage>)
    requires PassesAs(crypto, twin, block, inputs) && twin.transactions != block.transactions
    ensures !OnlyBody(crypto, block, inputs)
  {
    hide PassesAs;
  }

  lemma PassesAsIs(crypto: Crypto, other: Block, block: Block, inputs: set<Preimage>)
    ensures PassesAs(crypto, other, block, inputs)
       <==> BlockHashed(crypto.hash, other, inputs) && other.ValidateBasic(crypto).Pass?
              && other.BlockHash(crypto.hash) == block.BlockHash(crypto.hash)
  {
    hide BlockHashed, Block.ValidateBasic, Block.BlockHash;
  }

  lemma SamePaddedHashed(hash: Hasher, block: Block, twin: Block, inputs: set<Preimage>)
    requires BlockHashed(hash, block, inputs) && SamePadded(block.transactions, twin.transactions)
    requires twin.header == block.header
    ensures BlockHashed(hash, twin, inputs)
  {
    hide *;
    SamePaddedSameRoot(hash, block.transactions, twin.transactions);
    SamePaddedIsPrefix(block.transactions, twin.transactions);
    HeaderHashed(hash, block, inputs);
    if block.transactions != [] {
      HashedParts(hash, block, inputs);
    }
    HashedFrom(hash, twin, inputs);
  }

  lemma HashedFrom(hash: Hasher, block: Block, inputs: set<Preimage>)
    requires HeaderInput(block.header) in inputs && forall tx :: tx in block.transactions ==> TxInput(tx) in inputs
    requires block.transactions != [] ==> TreeHashed(hash, TreeOf(TxHashes(hash, block.transactions)), inputs)
    ensures BlockHashed(hash, block, inputs)
  {
    hide TreeHashed, TxInput, HeaderInput, TxHashes, TreeOf;
  }
}
