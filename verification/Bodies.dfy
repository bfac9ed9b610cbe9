/** Two bodies under one block hash: what they do to the ledger, and to two engines that are handed
    one each. */
module Bodies {
  import opened Bytes
  import opened Crypto
  import opened Kv
  import opened Transactions
  import opened Merkle
  import opened MerkleBinding
  import opened Blocks
  import opened Ledger
  import opened ChainStore
  import opened Execution
  import Sync
  import opened EngineSpec
  import opened EngineRuns

  lemma {:induction false} SentByConcat(a: Address, first: seq<Transaction>, second: seq<Transaction>)
    ensures SentBy(a, first + second) == SentBy(a, first) + SentBy(a, second)
  {
    if second == [] {
      assert first + second == first;
    } else {
      SentByConcat(a, first, second[..|second| - 1]);
      assert (first + second)[..|first + second| - 1] == first + second[..|second| - 1];
    }
  }

  lemma {:induction false} SentByBounded(a: Address, txs: seq<Transaction>)
    ensures SentBy(a, txs) <= |txs|
  {
    if txs != [] {
      SentByBounded(a, txs[..|txs| - 1]);
    }
  }

  lemma FirstSends(txs: seq<Transaction>)
    requires txs != []
    ensures 0 < SentBy(txs[0].sender, txs) <= |txs|
  {
    assert txs == [txs[0]] + txs[1..];
    SentByConcat(txs[0].sender, [txs[0]], txs[1..]);
    SentByBounded(txs[0].sender, txs);
    assert [txs[0]][..0] == [];
  }

  lemma DifferentNonces(nonce: U64, m: nat, n: nat)
    requires 0 < n < U64_END
    ensures (nonce + m) % U64_END != (nonce + m + n) % U64_END
  {
  }

  /** Over any accounts, a list and a longer one that begins with it have different effects: the
      sender of the next transaction ends at another nonce. */
  lemma LongerListDiffers(accounts: Accounts, xs: seq<Transaction>, ys: seq<Transaction>)
    requires |xs| < |ys| < U64_END && ys[..|xs|] == xs
    ensures ExecuteAll(accounts, xs) != ExecuteAll(accounts, ys)
  {
    hide *;
    var rest := ys[|xs|..];
    var sender := rest[0].sender;
    assert ys == xs + rest;
    FirstSends(rest);
    SentByConcat(sender, xs, rest);
    NonceCountsTransactions(accounts, xs, sender);
    NonceCountsTransactions(accounts, ys, sender);
    DifferentNonces(Get(accounts, sender).nonce, SentBy(sender, xs), SentBy(sender, rest));
  }

  /** Two blocks that pass under one hash leave the same accounts, whatever the ledger, if and only
      if they have equally many transactions. */
  lemma OneHashSameEffectIff(crypto: Crypto, a: Block, b: Block, inputs: set<Preimage>, accounts: Accounts)
    requires SoundInputs(crypto.hash, inputs)
    requires BlockHashed(crypto.hash, a, inputs) && BlockHashed(crypto.hash, b, inputs)
    requires a.ValidateBasic(crypto).Pass? && b.ValidateBasic(crypto).Pass?
    requires a.BlockHash(crypto.hash) == b.BlockHash(crypto.hash)
    requires |a.transactions| < U64_END && |b.transactions| < U64_END
    ensures ExecuteAll(accounts, a.transactions) == ExecuteAll(accounts, b.transactions)
       <==> |a.transactions| == |b.transactions|
  {
    hide *;
    BlockHashBindsBody(crypto, a, b, inputs);
    SamePaddedIsPrefix(a.transactions, b.transactions);
    if |a.transactions| < |b.transactions| {
      LongerListDiffers(accounts, a.transactions, b.transactions);
    } else if |b.transactions| < |a.transactions| {
      LongerListDiffers(accounts, b.transactions, a.transactions);
    }
  }

  // ---------------------------------------------------------------------------------------------
  // Nobody else looks at the body.

  function Twin(block: Block): Block
    requires block.transactions != []
  {
    block.(transactions := Padded(block.transactions))
  }

  /** Where an engine or the syncer takes a block, it takes the block with its repeats spelled out. */
  lemma TwinTaken(crypto: Crypto, codec: Codec, core: Core, data: Store, latest: U64, block: Block)
    requires block.transactions != []
    ensures Acceptable(crypto, core, block) ==> Acceptable(crypto, core, Twin(block))
    ensures Sync.CheckNext(crypto, codec, data, latest, block).Pass? ==>
      Sync.CheckNext(crypto, codec, data, latest, Twin(block)).Pass?
  {
    if block.ValidateBasic(crypto).Pass? {
      PaddedBodyPasses(crypto, block);
    }
    hide Block.ValidateBasic, Block.BlockHash, BlockAtHeight, Padded;
  }

  lemma TwinLength(block: Block)
    requires block.transactions != [] && |block.transactions| != Pow2(Height(|block.transactions|))
    ensures |block.transactions| < |Twin(block).transactions| == Pow2(Height(|block.transactions|))
    ensures Twin(block).transactions[..|block.transactions|] == block.transactions
  {
    PaddedExtends(block.transactions);
  }

  lemma CommitAccounts(crypto: Crypto, codec: Codec, key: SecretKey, node: Node, input: Input)
    requires codec.RoundTrips() && Handle(crypto, codec, key, node, input).commit.Some?
    ensures AccountsOf(codec, Next(crypto, codec, key, node, input).data)
         == ExecuteAll(AccountsOf(codec, node.data), Handle(crypto, codec, key, node, input).commit.value.transactions)
  {
    var block := Handle(crypto, codec, key, node, input).commit.value;
    ExecuteThenCommit(codec, crypto.hash, node.data, block);
    NextStore(crypto, codec, key, node, input);
    hide Handle, Next, AccountsOf, Committed, OverlayAll, ExecuteAll, Codec.RoundTrips;
  }

  /** So one certified hash can leave two ledgers: two engines of one state, each able to decide, are
      handed a block whose transactions do not fill their tree and that block with its repeats
      spelled out. Both certify one hash, and their accounts differ. */
  lemma OneHashTwoLedgers(crypto: Crypto, codec: Codec, key: SecretKey, node: Node, block: Block)
    requires codec.RoundTrips() && Sound(node.core) && Acceptable(crypto, node.core, block)
    requires CanDecide(crypto, codec, key, node.data)
    requires block.transactions != [] && |block.transactions| != Pow2(Height(|block.transactions|)) < U64_END
    ensures var one, two := Proposal(block), Proposal(Twin(block));
      var first, second := Handle(crypto, codec, key, node, one), Handle(crypto, codec, key, node, two);
      && first.qc.Some? && second.qc.Some? && first.qc.value.blockHash == second.qc.value.blockHash
      && first.commit == Some(block) && second.commit == Some(Twin(block))
      && AccountsOf(codec, Next(crypto, codec, key, node, one).data)
          != AccountsOf(codec, Next(crypto, codec, key, node, two).data)
  {
    hide *;
    var twin := Twin(block);
    TwinTaken(crypto, codec, node.core, node.data, 0, block);
    TwinLength(block);
    TwinHash(crypto, node.core, block);
    DecidesAlone(crypto, codec, key, node, block);
    DecidesAlone(crypto, codec, key, node, twin);
    CommitAccounts(crypto, codec, key, node, Proposal(block));
    CommitAccounts(crypto, codec, key, node, Proposal(twin));
    LongerListDiffers(AccountsOf(codec, node.data), block.transactions, twin.transactions);
  }

  lemma TwinHash(crypto: Crypto, core: Core, block: Block)
    requires block.transactions != [] && Acceptable(crypto, core, block)
    ensures Twin(block).BlockHash(crypto.hash) == block.BlockHash(crypto.hash)
  {
    PaddedBodyPasses(crypto, block);
    hide Block.ValidateBasic, Block.BlockHash, Padded;
  }
}
