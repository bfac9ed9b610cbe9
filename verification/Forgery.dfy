/** What verification of signatures keeps out. A signature scheme is only asked that, among the
    signatures really seen, none is a forgery. */
module Forgery {
  import opened Bytes
  import opened Crypto
  import opened Kv
  import opened Transactions
  import opened Votes
  import opened Blocks
  import opened Ledger
  import opened ChainStore
  import opened Sync
  import opened Agreement
  import opened Redelivery

  /** A signature on a message under a key, accepted or not. */
  datatype Signing = Signing(pubkey: PublicKey, message: Bytes, signature: Signature)

  /** One of the signatures seen, accepted under a key with this address. */
  ghost predicate InName(crypto: Crypto, seen: set<Signing>, owner: Address, s: Signing) {
    s in seen && crypto.AddressOf(s.pubkey) == owner && crypto.accepts(s.pubkey, s.message, s.signature)
  }

  // ---------------------------------------------------------------------------------------------
  // Votes.

  function VoteSigning(vote: Vote): Signing {
    Signing(vote.pubkey, SigningBytes(vote.blockHash, vote.height, vote.round, vote.voteType, vote.validator),
      vote.signature)
  }

  /** No vote among these signatures is forged: a key with the address of an honest engine that accepts
      what is signed for a vote is followed by a vote that engine signed, on the same message. */
  ghost predicate NoForgedVotes(ctx: Context, seen: set<Signing>, sent: set<Vote>) {
    forall vote: Vote, n :: n in ctx.keys && InName(ctx.crypto, seen, ctx.AddressAt(n), VoteSigning(vote)) ==>
      SignedBy(ctx, sent, n, VoteSigning(vote).message)
  }

  ghost predicate SignedBy(ctx: Context, sent: set<Vote>, n: NodeId, message: Bytes)
    requires n in ctx.keys
  {
    exists v :: v in sent && v.validator == ctx.AddressAt(n) && VoteSigning(v).message == message
  }

  /** A vote that verifies and names an honest engine says what that engine signed. */
  lemma VerifiedIsSigned(ctx: Context, seen: set<Signing>, sent: set<Vote>, vote: Vote)
    requires NoForgedVotes(ctx, seen, sent) && VoteSigning(vote) in seen
    requires vote.Verify(ctx.crypto).Pass? && ctx.IsHonest(vote.validator)
    ensures exists v :: v in sent && v == vote.(pubkey := v.pubkey, signature := v.signature)
  {
    hide SigningBytes, Crypto.AddressOf;
    var n :| n in ctx.keys && ctx.AddressAt(n) == vote.validator;
    assert SignedBy(ctx, sent, n, VoteSigning(vote).message);
    var v :| v in sent && v.validator == ctx.AddressAt(n) && VoteSigning(v).message == VoteSigning(vote).message;
    VoteFromBytes(vote, v);
  }

  /** If honest engines have signed no two conflicting votes, no evidence made of unforged signatures is
      accepted against one. */
  lemma NoEvidence(ctx: Context, seen: set<Signing>, sent: set<Vote>, e: DoubleSignEvidence, v: Address)
    requires OneVote(sent) && NoForgedVotes(ctx, seen, sent)
    requires VoteSigning(e.voteA) in seen && VoteSigning(e.voteB) in seen
    ensures e.Verify(ctx.crypto) == Ok(v) ==> !ctx.IsHonest(v)
  {
    hide *;
    EvidenceIff(ctx.crypto, e.voteA, e.voteB, v);
    assert e == DoubleSignEvidence(e.voteA, e.voteB);
    if e.Verify(ctx.crypto) == Ok(v) && ctx.IsHonest(v) {
      VerifiedIsSigned(ctx, seen, sent, e.voteA);
      VerifiedIsSigned(ctx, seen, sent, e.voteB);
      var x :| x in sent && x == e.voteA.(pubkey := x.pubkey, signature := x.signature);
      var y :| y in sent && y == e.voteB.(pubkey := y.pubkey, signature := y.signature);
      OneVoteIs(sent, x, y);
    }
  }

  lemma OneVoteIs(sent: set<Vote>, x: Vote, y: Vote)
    requires OneVote(sent) && x in sent && y in sent
    requires x.validator == y.validator && x.height == y.height && x.voteType == y.voteType
    ensures x.blockHash == y.blockHash
  {
  }

  /** No honest engine is convicted, whoever puts the evidence together: in any allowed run, two votes
      by anyone over signatures that are not forged make accepted evidence only against a validator
      without an honest engine. */
  lemma ForgeryRejected(ctx: Context, stores: map<NodeId, Store>, events: seq<Event>, seen: set<Signing>,
                        e: DoubleSignEvidence, v: Address)
    requires ctx.WellFormed() && stores.Keys == ctx.keys.Keys && AllowedRun(ctx, Genesis(ctx, stores), events)
    requires NoForgedVotes(ctx, seen, RunNetwork(ctx, Genesis(ctx, stores), events).sent)
    requires VoteSigning(e.voteA) in seen && VoteSigning(e.voteB) in seen
    ensures e.Verify(ctx.crypto) == Ok(v) ==> !ctx.IsHonest(v)
  {
    hide *;
    var net := RunNetwork(ctx, Genesis(ctx, stores), events);
    GenesisInv(ctx, stores);
    RunKeeps(ctx, Genesis(ctx, stores), events);
    NetParts(ctx, net);
    NoEvidence(ctx, seen, net.sent, e, v);
  }

  /** Nor when blocks are delivered again. */
  lemma RedeliveredForgeryRejected(ctx: Context, stores: map<NodeId, Store>, events: seq<Event>, seen: set<Signing>,
                                   e: DoubleSignEvidence, v: Address)
    requires ctx.WellFormed() && stores.Keys == ctx.keys.Keys && RepeatableRun(ctx, Genesis(ctx, stores), events)
    requires NoForgedVotes(ctx, seen, RunNetwork(ctx, Genesis(ctx, stores), events).sent)
    requires VoteSigning(e.voteA) in seen && VoteSigning(e.voteB) in seen
    ensures e.Verify(ctx.crypto) == Ok(v) ==> !ctx.IsHonest(v)
  {
    hide *;
    var net := RunNetwork(ctx, Genesis(ctx, stores), events);
    GenesisGood(ctx, stores);
    RepeatRunKeeps(ctx, Genesis(ctx, stores), events);
    NetGoodParts(ctx, net);
    NoEvidence(ctx, seen, net.sent, e, v);
  }

  // ---------------------------------------------------------------------------------------------
  // Transactions.

  function TxSigning(tx: Transaction): Signing {
    Signing(tx.pubkey, tx.SigningBytes(), tx.signature)
  }

  ghost predicate TxSigned(signed: set<Transaction>, message: Bytes) {
    exists t :: t in signed && t.SigningBytes() == message
  }

  /** No transaction among these signatures is forged in the name of this owner, who signed these. */
  ghost predicate NoForgedTransactions(crypto: Crypto, seen: set<Signing>, owner: Address, signed: set<Transaction>) {
    forall tx: Transaction :: InName(crypto, seen, owner, TxSigning(tx)) ==> TxSigned(signed, tx.SigningBytes())
  }

  /** A transaction that verifies in the owner's name is one the owner signed. */
  lemma VerifiedIsOwners(crypto: Crypto, seen: set<Signing>, owner: Address, signed: set<Transaction>, tx: Transaction)
    requires NoForgedTransactions(crypto, seen, owner, signed) && TxSigning(tx) in seen
    requires tx.Verify(crypto).Pass? && tx.sender == owner
    ensures exists t :: t in signed && t == tx.(signature := t.signature)
  {
    hide Transaction.SigningBytes, Crypto.AddressOf;
    assert TxSigned(signed, tx.SigningBytes());
    var t :| t in signed && t.SigningBytes() == tx.SigningBytes();
    TransactionFromSigning(tx, t);
  }

  ghost predicate AllSeen(seen: set<Signing>, txs: seq<Transaction>) {
    forall i :: 0 <= i < |txs| ==> TxSigning(txs[i]) in seen
  }

  /** Everything in a list that the owner is the sender of, the owner signed. */
  ghost predicate OwnersOnly(owner: Address, signed: set<Transaction>, txs: seq<Transaction>) {
    forall i :: 0 <= i < |txs| && txs[i].sender == owner ==>
      exists t :: t in signed && t == txs[i].(signature := t.signature)
  }

  lemma {:induction false} BatchVerifies(crypto: Crypto, blocks: seq<Block>)
    requires forall i :: 0 <= i < |blocks| ==> blocks[i].ValidateBasic(crypto).Pass?
    ensures forall i :: 0 <= i < |TransactionsOf(blocks)| ==> TransactionsOf(blocks)[i].Verify(crypto).Pass?
  {
    hide Transaction.Verify, VerifyAll, Block.ComputeMerkleRoot;
    if blocks != [] {
      BatchVerifies(crypto, blocks[1..]);
      PassesIff(crypto, blocks[0]);
    }
  }

  lemma {:induction false} NothingSent(owner: Address, signed: set<Transaction>, txs: seq<Transaction>)
    requires signed == {} && OwnersOnly(owner, signed, txs)
    ensures SentBy(owner, txs) == 0
  {
    if txs != [] {
      var before := txs[..|txs| - 1];
      assert forall i :: 0 <= i < |before| ==> before[i] == txs[i];
      NothingSent(owner, signed, before);
    }
  }

  /** Across a batch, on every exit, a nonce rises by the number of applied transactions in its owner's
      name, and each of those the owner signed; so without a signature of the owner it stays. */
  lemma NonceNeedsSignature(crypto: Crypto, codec: Codec, data: Store, blocks: seq<Block>, inputs: set<Preimage>,
                            seen: set<Signing>, owner: Address, signed: set<Transaction>)
    requires codec.RoundTrips() && CollisionFree(crypto.hash, inputs)
    requires forall i :: 0 <= i < |blocks| ==> HeaderInput(blocks[i].header) in inputs
    requires Chain(codec, crypto.hash, data, inputs) && LatestHeight(data) + |blocks| < U64_END
    requires NoForgedTransactions(crypto, seen, owner, signed)
    requires AllSeen(seen, TransactionsOf(Run(crypto, codec, data, LatestHeight(data), blocks).applied))
    ensures var run := Run(crypto, codec, data, LatestHeight(data), blocks);
      var before, after, txs := AccountsOf(codec, data), AccountsOf(codec, run.data), TransactionsOf(run.applied);
      && OwnersOnly(owner, signed, txs)
      && Get(after, owner).nonce == (Get(before, owner).nonce + SentBy(owner, txs)) % U64_END
      && (signed == {} ==> Get(after, owner).nonce == Get(before, owner).nonce)
  {
    hide *;
    var run := Run(crypto, codec, data, LatestHeight(data), blocks);
    var txs := TransactionsOf(run.applied);
    AppliedPass(crypto, codec, data, LatestHeight(data), blocks);
    BatchVerifies(crypto, run.applied);
    RunSupply(crypto, codec, data, blocks, inputs, owner);
    AllOwners(crypto, seen, owner, signed, txs);
    if signed == {} {
      NothingSent(owner, signed, txs);
      SmallNonce(Get(AccountsOf(codec, data), owner).nonce);
    }
  }

  lemma SmallNonce(nonce: U64)
    ensures nonce % U64_END == nonce
  {
  }

  lemma AllOwners(crypto: Crypto, seen: set<Signing>, owner: Address, signed: set<Transaction>, txs: seq<Transaction>)
    requires NoForgedTransactions(crypto, seen, owner, signed) && AllSeen(seen, txs)
    requires forall i :: 0 <= i < |txs| ==> txs[i].Verify(crypto).Pass?
    ensures OwnersOnly(owner, signed, txs)
  {
    hide NoForgedTransactions, Transaction.Verify, TxSigning;
    forall i | 0 <= i < |txs| && txs[i].sender == owner
      ensures exists t :: t in signed && t == txs[i].(signature := t.signature)
    {
      VerifiedIsOwners(crypto, seen, owner, signed, txs[i]);
    }
  }

  // ---------------------------------------------------------------------------------------------
  // Headers.

  function HeaderSigning(pubkey: PublicKey, header: BlockHeader): Signing {
    Signing(pubkey, header.SigningBytes(), header.signature)
  }

  ghost predicate HeaderSigned(signed: set<BlockHeader>, message: Bytes) {
    exists g :: g in signed && g.SigningBytes() == message
  }

  ghost predicate NoForgedHeaders(crypto: Crypto, seen: set<Signing>, proposer: Address, signed: set<BlockHeader>) {
    forall pubkey: PublicKey, header: BlockHeader ::
      InName(crypto, seen, proposer, HeaderSigning(pubkey, header)) ==> HeaderSigned(signed, header.SigningBytes())
  }

  /** A header whose signature verifies is one its proposer signed. */
  lemma VerifiedIsProposers(crypto: Crypto, seen: set<Signing>, signed: set<BlockHeader>, pubkey: PublicKey,
                            header: BlockHeader)
    requires NoForgedHeaders(crypto, seen, header.proposer, signed) && HeaderSigning(pubkey, header) in seen
    requires header.VerifySignature(crypto, pubkey).Pass?
    ensures exists g :: g in signed && g == header.(signature := g.signature)
  {
    hide BlockHeader.SigningBytes, Crypto.AddressOf;
    assert HeaderSigned(signed, header.SigningBytes());
    var g :| g in signed && g.SigningBytes() == header.SigningBytes();
    HeaderFromSigning(header, g);
  }
}
