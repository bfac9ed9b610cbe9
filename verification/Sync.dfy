/** Applying a batch of downloaded blocks: what the loop does, and the chain it keeps. */
module Sync {
  import opened Bytes
  import opened Crypto
  import opened Kv
  import opened Transactions
  import opened Blocks
  import opened Ledger
  import opened ChainStore
  import opened State
  import opened Execution

  /** `PreviousBlockMissing` is the `expect` on the parent block, which panics. */
  datatype SyncError =
    | Primitive(error: PrimitiveError)
    | InvalidBlockLink(height: U64)
    | PreviousBlockMissing

  datatype SyncRun = SyncRun(data: Store, applied: seq<Block>, result: Result<U64, SyncError>)

  /** The checks on a block at the next height. */
  function CheckNext(crypto: Crypto, codec: Codec, data: Store, latest: U64, block: Block): Outcome<SyncError> {
    match block.ValidateBasic(crypto)
    case Fail(error) => Fail(Primitive(error))
    case Pass =>
      match BlockAtHeight(codec, data, latest)
      case None => Fail(PreviousBlockMissing)
      case Some(previous) =>
        if block.header.prevHash != previous.BlockHash(crypto.hash) then Fail(InvalidBlockLink(block.header.height))
          else Pass
  }

  /** The whole batch: a block that is not at the next height is skipped, the first bad one at the
      next height ends the run, the others are committed. */
  function Run(crypto: Crypto, codec: Codec, data: Store, latest: U64, blocks: seq<Block>): SyncRun
    decreases |blocks|
  {
    hide CheckNext, CommitNext, WrapAdd;
    if blocks == [] then SyncRun(data, [], Ok(latest)) else
      var block := blocks[0];
      if block.header.height != WrapAdd(latest, 1) then Run(crypto, codec, data, latest, blocks[1..]) else
        match CheckNext(crypto, codec, data, latest, block)
        case Fail(error) => SyncRun(data, [], Err(error))
        case Pass =>
          var rest := Run(crypto, codec, CommitNext(crypto, codec, data, block), block.header.height, blocks[1..]);
          rest.(applied := [block] + rest.applied)
  }

  class ChainSyncer {
    const stateDb: StateDB

    constructor (stateDb: StateDB)
      ensures this.stateDb == stateDb
    {
      this.stateDb := stateDb;
    }

    method ApplyBlockBatch(blocks: seq<Block>) returns (result: Result<U64, SyncError>)
      requires stateDb.Valid()
      modifies stateDb.kv, stateDb.smt
      ensures stateDb.Valid()
      ensures var run := Run(stateDb.crypto, stateDb.codec, old(stateDb.kv.data), LatestHeight(old(stateDb.kv.data)),
        blocks);
        stateDb.kv.data == run.data && result == run.result
      ensures AddressesApart(stateDb.crypto.hash) && old(stateDb.Mirrored()) ==> stateDb.Mirrored()
    {
      var crypto, codec := stateDb.crypto, stateDb.codec;
      var latestHeight := stateDb.GetLatestHeight();
      ghost var run := Run(crypto, codec, stateDb.kv.data, latestHeight, blocks);
      ghost var applied: seq<Block> := [];
      hide AddressesApart, StateDB.Valid, StateDB.Mirrored, CommitNext, AccountsOf;
      for i := 0 to |blocks|
        invariant stateDb.Valid()
        invariant AddressesApart(crypto.hash) && old(stateDb.Mirrored()) ==> stateDb.Mirrored()
        invariant run == Resumed(applied, Run(crypto, codec, stateDb.kv.data, latestHeight, blocks[i..]))
      {
        var block := blocks[i];
        var height := block.header.height;
        RunStep(crypto, codec, stateDb.kv.data, latestHeight, blocks, i, applied);
        if height != WrapAdd(latestHeight, 1) {
          continue;
        }
        var valid := block.ValidateBasic(crypto);
        if valid.Fail? {
          return Err(Primitive(valid.error));
        }
        var previous := stateDb.GetBlockByHeight(latestHeight);
        if previous.None? {
          return Err(PreviousBlockMissing);
        }
        if block.header.prevHash != previous.value.BlockHash(crypto.hash) {
          return Err(InvalidBlockLink(height));
        }
        ExecuteAndCommit(stateDb, block);
        latestHeight := height;
        applied := applied + [block];
      }
      result := Ok(latestHeight);
    }
  }

  function Resumed(applied: seq<Block>, rest: SyncRun): SyncRun {
    rest.(applied := applied + rest.applied)
  }

  lemma RunStep(crypto: Crypto, codec: Codec, data: Store, latest: U64, blocks: seq<Block>, i: nat, applied: seq<Block>)
    requires i < |blocks|
    ensures Resumed(applied, Run(crypto, codec, data, latest, blocks[i..]))
         == if blocks[i].header.height
             != WrapAdd(latest, 1) then Resumed(applied, Run(crypto, codec, data, latest, blocks[i + 1..]))
            else match CheckNext(crypto, codec, data, latest, blocks[i])
              case Fail(error) => SyncRun(data, applied, Err(error))
              case Pass =>
                var next := CommitNext(crypto, codec, data, blocks[i]);
                Resumed(applied + [blocks[i]], Run(crypto, codec, next, blocks[i].header.height, blocks[i + 1..]))
  {
    hide CheckNext, CommitNext, WrapAdd;
    assert blocks[i..][1..] == blocks[i + 1..];
    if blocks[i].header.height == WrapAdd(latest, 1) && CheckNext(crypto, codec, data, latest, blocks[i]).Pass? {
      var rest :=
        Run(crypto, codec, CommitNext(crypto, codec, data, blocks[i]), blocks[i].header.height, blocks[i + 1..]);
      ConcatAssociative(applied, [blocks[i]], rest.applied);
    }
  }

  // ---------------------------------------------------------------------------------------------
  // The chain.

  /** The stored chain: every height up to the latest holds a block of that height under its own
      hash, and links to its parent's hash. `inputs` lists the header encodings hashed so far. */
  ghost predicate Chain(codec: Codec, hash: Hasher, data: Store, inputs: set<Preimage>) {
    && (forall h :: 0 <= h <= LatestHeight(data) ==> Holds(codec, hash, data, inputs, h))
    && (forall h :: 0 < h <= LatestHeight(data) ==> Linked(codec, hash, data, h))
  }

  ghost predicate Holds(codec: Codec, hash: Hasher, data: Store, inputs: set<Preimage>, h: U64) {
    && HeightKey(h) in data && BlockAtHeight(codec, data, h).Some?
    && var block := BlockAtHeight(codec, data, h).value;
    block.header.height == h && data[HeightKey(h)] == block.BlockHash(hash) && HeaderInput(block.header) in inputs
  }

  ghost predicate Linked(codec: Codec, hash: Hasher, data: Store, h: U64) {
    && 0 < h && BlockAtHeight(codec, data, h - 1).Some? && BlockAtHeight(codec, data, h).Some?
    && BlockAtHeight(codec, data, h).value.header.prevHash == BlockAtHeight(codec, data, h - 1).value.BlockHash(hash)
  }

  /** A genesis is a chain of height 0. */
  lemma GenesisIsChain(codec: Codec, hash: Hasher, data: Store, genesis: GenesisConfig, inputs: set<Preimage>)
    requires codec.RoundTrips() && HeaderInput(GenesisBlock(hash, genesis).header) in inputs
    ensures Chain(codec, hash, GenesisStore(codec, hash, data, genesis), inputs)
    ensures LatestHeight(GenesisStore(codec, hash, data, genesis)) == 0
  {
    hide *;
    var block, after := GenesisBlock(hash, genesis), GenesisStore(codec, hash, data, genesis);
    GenesisStoreIs(codec, hash, data, genesis);
    PutBlockReads(codec, hash, ApplyAll(data, GenesisOps(codec, data, genesis)), block);
    HoldsFrom(codec, hash, after, inputs, block);
    ChainFrom(codec, hash, after, inputs);
  }

  /** The block a genesis stores at height 0: it carries what the configuration gives, names no parent,
      has no transactions, and passes `validate_basic`. */
  lemma GenesisBlockStored(crypto: Crypto, codec: Codec, data: Store, genesis: GenesisConfig)
    requires codec.RoundTrips()
    ensures var stored := BlockAtHeight(codec, GenesisStore(codec, crypto.hash, data, genesis), 0);
      && stored.Some? && stored.value.ValidateBasic(crypto).Pass?
      && stored.value.transactions == [] && stored.value.lastCommitQc.None?
      && var header := stored.value.header;
      && header.version == 1 && header.chainId == genesis.chainId && header.height == 0 && header.round == 0
      && header.prevHash == ZERO && header.stateRoot == genesis.initialStateRoot
      && header.timestamp == genesis.timestamp
      && header.validatorSetHash == crypto.hash(RawDomain, ValidatorBytes(genesis.validators))
  {
    PutBlockReads(codec, crypto.hash, ApplyAll(data, GenesisOps(codec, data, genesis)),
      GenesisBlock(crypto.hash, genesis));
    hide PutBlock, ApplyAll, GenesisOps, ValidatorBytes, LatestHeight, BlockAtHeight, HeightKey, Codec.RoundTrips;
  }

  lemma GenesisStoreIs(codec: Codec, hash: Hasher, data: Store, genesis: GenesisConfig)
    ensures GenesisBlock(hash, genesis).header.height == 0
    ensures GenesisStore(codec, hash, data, genesis)
         == PutBlock(codec, hash, ApplyAll(data, GenesisOps(codec, data, genesis)), GenesisBlock(hash, genesis))
  {
    hide PutBlock, ApplyAll, GenesisOps;
  }

  lemma HoldsFrom(codec: Codec, hash: Hasher, data: Store, inputs: set<Preimage>, block: Block)
    requires BlockAtHeight(codec, data, block.header.height) == Some(block) && HeaderInput(block.header) in inputs
    requires HeightKey(block.header.height) in data && data[HeightKey(block.header.height)] == block.BlockHash(hash)
    ensures Holds(codec, hash, data, inputs, block.header.height)
  {
    hide HeightKey, BlockAtHeight, Block.BlockHash;
  }

  /** A block of another height has another hash, so a commit leaves what a height holds. */
  lemma HeightSurvives(codec: Codec, hash: Hasher, data: Store, block: Block, overlay: Accounts, inputs: set<Preimage>,
                       h: U64)
    requires codec.RoundTrips() && CollisionFree(hash, inputs) && HeaderInput(block.header) in inputs
    requires Holds(codec, hash, data, inputs, h) && h != block.header.height
    ensures var after := Committed(codec, hash, data, block, overlay);
      Holds(codec, hash, after, inputs, h) && BlockAtHeight(codec, after, h) == BlockAtHeight(codec, data, h)
  {
    var held := BlockAtHeight(codec, data, h).value;
    if held.BlockHash(hash) == block.BlockHash(hash) {
      assert Digest(hash, HeaderInput(held.header)) == Digest(hash, HeaderInput(block.header));
      HeaderFromBytes(held.header, block.header);
    }
    OtherHeightKept(codec, hash, data, block, overlay, h);
    hide Committed, HeightKey, BlockAtHeight;
  }

  /** A commit at the next height extends the chain if and only if the block links to the latest. */
  lemma CommitChainsIff(codec: Codec, hash: Hasher, data: Store, block: Block, overlay: Accounts, inputs: set<Preimage>)
    requires codec.RoundTrips() && CollisionFree(hash, inputs) && HeaderInput(block.header) in inputs
    requires Chain(codec, hash, data, inputs) && block.header.height == LatestHeight(data) + 1
    ensures var after := Committed(codec, hash, data, block, overlay);
      && BlockAtHeight(codec, data, LatestHeight(data)).Some?
      && LatestHeight(after) == LatestHeight(data) + 1
      && BlockAtHeight(codec, after, LatestHeight(after)) == Some(block)
      && (forall h :: 0 <= h <= LatestHeight(data) ==> BlockAtHeight(codec, after, h) == BlockAtHeight(codec, data, h))
      && (Chain(codec, hash, after, inputs)
          <==> block.header.prevHash == BlockAtHeight(codec, data, LatestHeight(data)).value.BlockHash(hash))
  {
    hide *;
    var latest, after := LatestHeight(data), Committed(codec, hash, data, block, overlay);
    CommitShows(codec, hash, data, block, overlay, inputs);
    ChainParts(codec, hash, data, inputs);
    HeldBlock(codec, hash, data, inputs, latest);
    forall h: U64 | 0 <= h <= latest
      ensures Holds(codec, hash, after, inputs, h) && BlockAtHeight(codec, after, h) == BlockAtHeight(codec, data, h)
    {
      HeightSurvives(codec, hash, data, block, overlay, inputs, h);
    }
    if block.header.prevHash == BlockAtHeight(codec, data, latest).value.BlockHash(hash) {
      forall h: U64 | 0 < h <= latest + 1 ensures Linked(codec, hash, after, h) {
        LinkKept(codec, hash, data, after, block, h);
      }
      ChainFrom(codec, hash, after, inputs);
    }
    if Chain(codec, hash, after, inputs) {
      ChainParts(codec, hash, after, inputs);
      LinkTells(codec, hash, data, after, block);
    }
  }

  lemma HeldBlock(codec: Codec, hash: Hasher, data: Store, inputs: set<Preimage>, h: U64)
    requires Holds(codec, hash, data, inputs, h)
    ensures BlockAtHeight(codec, data, h).Some?
  {
    hide BlockAtHeight;
  }

  lemma LinkTells(codec: Codec, hash: Hasher, data: Store, after: Store, block: Block)
    requires LatestHeight(data) + 1 < U64_END && Linked(codec, hash, after, LatestHeight(data) + 1)
    requires BlockAtHeight(codec, after, LatestHeight(data)) == BlockAtHeight(codec, data, LatestHeight(data))
    requires BlockAtHeight(codec, after, LatestHeight(data) + 1) == Some(block)
    ensures BlockAtHeight(codec, data, LatestHeight(data)).Some?
    ensures block.header.prevHash == BlockAtHeight(codec, data, LatestHeight(data)).value.BlockHash(hash)
  {
    hide BlockAtHeight, LatestHeight;
  }

  /** One checked commit on top of a chain. */
  lemma CommitExtends(crypto: Crypto, codec: Codec, data: Store, block: Block, overlay: Accounts, inputs: set<Preimage>)
    requires codec.RoundTrips() && CollisionFree(crypto.hash, inputs) && HeaderInput(block.header) in inputs
    requires Chain(codec, crypto.hash, data, inputs) && block.header.height == LatestHeight(data) + 1
    requires CheckNext(crypto, codec, data, LatestHeight(data), block).Pass?
    ensures var after := Committed(codec, crypto.hash, data, block, overlay);
      && Chain(codec, crypto.hash, after, inputs) && LatestHeight(after) == LatestHeight(data) + 1
      && BlockAtHeight(codec, after, LatestHeight(after)) == Some(block)
      && forall h :: 0 <= h <= LatestHeight(data) ==> BlockAtHeight(codec, after, h) == BlockAtHeight(codec, data, h)
  {
    hide *;
    PassedCheck(crypto, codec, data, LatestHeight(data), block);
    CommitChainsIff(codec, crypto.hash, data, block, overlay, inputs);
  }

  lemma CommitShows(codec: Codec, hash: Hasher, data: Store, block: Block, overlay: Accounts, inputs: set<Preimage>)
    requires codec.RoundTrips() && HeaderInput(block.header) in inputs
    ensures var after := Committed(codec, hash, data, block, overlay);
      && LatestHeight(after) == block.header.height
      && BlockAtHeight(codec, after, block.header.height) == Some(block)
      && Holds(codec, hash, after, inputs, block.header.height)
  {
    PutBlockReads(codec, hash, PutAccounts(codec, data, overlay), block);
    hide PutBlock, PutAccounts, LatestHeight, HeightKey, BlockAtHeight;
  }

  lemma PassedCheck(crypto: Crypto, codec: Codec, data: Store, latest: U64, block: Block)
    requires CheckNext(crypto, codec, data, latest, block).Pass?
    ensures block.ValidateBasic(crypto).Pass? && BlockAtHeight(codec, data, latest).Some?
    ensures block.header.prevHash == BlockAtHeight(codec, data, latest).value.BlockHash(crypto.hash)
  {
    hide BlockAtHeight;
  }

  lemma ChainParts(codec: Codec, hash: Hasher, data: Store, inputs: set<Preimage>)
    requires Chain(codec, hash, data, inputs)
    ensures forall h: U64 :: 0 <= h <= LatestHeight(data) ==> Holds(codec, hash, data, inputs, h)
    ensures forall h: U64 :: 0 < h <= LatestHeight(data) ==> Linked(codec, hash, data, h)
  {
    hide LatestHeight, Holds, Linked;
  }

  lemma ChainFrom(codec: Codec, hash: Hasher, data: Store, inputs: set<Preimage>)
    requires forall h: U64 :: 0 <= h <= LatestHeight(data) ==> Holds(codec, hash, data, inputs, h)
    requires forall h: U64 :: 0 < h <= LatestHeight(data) ==> Linked(codec, hash, data, h)
    ensures Chain(codec, hash, data, inputs)
  {
    hide LatestHeight, Holds, Linked;
  }

  lemma LinkKept(codec: Codec, hash: Hasher, data: Store, after: Store, block: Block, h: U64)
    requires 0 < h && BlockAtHeight(codec, after, h - 1) == BlockAtHeight(codec, data, h - 1)
    requires h != block.header.height ==>
      Linked(codec, hash, data, h) && BlockAtHeight(codec, after, h) == BlockAtHeight(codec, data, h)
    requires h == block.header.height ==>
      && BlockAtHeight(codec, after, h) == Some(block) && BlockAtHeight(codec, data, h - 1).Some?
      && block.header.prevHash == BlockAtHeight(codec, data, h - 1).value.BlockHash(hash)
    ensures Linked(codec, hash, after, h)
  {
    hide BlockAtHeight;
  }

  function TransactionsOf(blocks: seq<Block>): seq<Transaction> {
    if blocks == [] then [] else blocks[0].transactions + TransactionsOf(blocks[1..])
  }

  /** The chain held before and after a batch. */
  ghost predicate Extends(codec: Codec, hash: Hasher, data: Store, run: SyncRun, inputs: set<Preimage>) {
    var latest, n := LatestHeight(data), |run.applied|;
    && Chain(codec, hash, run.data, inputs)
    && LatestHeight(run.data) == latest + n
    && (forall h :: 0 <= h <= latest ==> BlockAtHeight(codec, run.data, h) == BlockAtHeight(codec, data, h))
    && (forall i :: 0 <= i < n ==> BlockAtHeight(codec, run.data, latest + 1 + i) == Some(run.applied[i]))
    && AccountsOf(codec, run.data) == ExecuteAll(AccountsOf(codec, data), TransactionsOf(run.applied))
  }

  /** On every exit, good or bad, a batch leaves a chain: the old one with the applied blocks on
      top, nothing below changed, and the accounts are the direct fold over the applied blocks'
      transactions. The parent lookup never fails, and an Ok is the old height plus the number of
      blocks applied. */
  lemma {:induction false} RunExtendsChain(crypto: Crypto, codec: Codec, data: Store, blocks: seq<Block>,
      inputs: set<Preimage>)
    requires codec.RoundTrips() && CollisionFree(crypto.hash, inputs)
    requires forall i :: 0 <= i < |blocks| ==> HeaderInput(blocks[i].header) in inputs
    requires Chain(codec, crypto.hash, data, inputs) && LatestHeight(data) + |blocks| < U64_END
    ensures var run := Run(crypto, codec, data, LatestHeight(data), blocks);
      && |run.applied| <= |blocks|
      && Extends(codec, crypto.hash, data, run, inputs)
      && run.result != Err(PreviousBlockMissing)
      && (run.result.Ok? ==> run.result.value == LatestHeight(data) + |run.applied|)
    decreases |blocks|
  {
    hide *;
    var latest := LatestHeight(data);
    RunUnfolds(crypto, codec, data, latest, blocks);
    if blocks == [] {
      NothingApplied(codec, crypto.hash, data, inputs, Ok(latest));
    } else {
      var block := blocks[0];
      WrapAddSmall(latest);
      if block.header.height != latest + 1 {
        RunExtendsChain(crypto, codec, data, blocks[1..], inputs);
      } else if CheckNext(crypto, codec, data, latest, block).Pass? {
        var next := CommitNext(crypto, codec, data, block);
        NextExtends(crypto, codec, data, block, inputs);
        RunExtendsChain(crypto, codec, next, blocks[1..], inputs);
        ExtendsCompose(codec, crypto.hash, data, next, block, Run(crypto, codec, next, latest + 1, blocks[1..]),
          inputs);
      } else {
        ParentExists(crypto, codec, data, block, inputs);
        NothingApplied(codec, crypto.hash, data, inputs, Err(CheckNext(crypto, codec, data, latest, block).error));
      }
    }
  }

  lemma RunUnfolds(crypto: Crypto, codec: Codec, data: Store, latest: U64, blocks: seq<Block>)
    ensures Run(crypto, codec, data, latest, blocks)
         == if blocks == [] then SyncRun(data, [], Ok(latest))
            else if blocks[0].header.height != WrapAdd(latest, 1) then Run(crypto, codec, data, latest, blocks[1..])
            else match CheckNext(crypto, codec, data, latest, blocks[0])
              case Fail(error) => SyncRun(data, [], Err(error))
              case Pass =>
                var rest :=
                  Run(crypto, codec, CommitNext(crypto, codec, data, blocks[0]), blocks[0].header.height, blocks[1..]);
                rest.(applied := [blocks[0]] + rest.applied)
  {
    hide CheckNext, CommitNext, WrapAdd;
  }

  lemma NothingApplied(codec: Codec, hash: Hasher, data: Store, inputs: set<Preimage>, result: Result<U64, SyncError>)
    requires Chain(codec, hash, data, inputs)
    ensures Extends(codec, hash, data, SyncRun(data, [], result), inputs)
  {
    hide Chain, LatestHeight, BlockAtHeight, AccountsOf;
  }

  /** The `expect` on the parent cannot fail on a chain. */
  lemma ParentExists(crypto: Crypto, codec: Codec, data: Store, block: Block, inputs: set<Preimage>)
    requires Chain(codec, crypto.hash, data, inputs)
    ensures CheckNext(crypto, codec, data, LatestHeight(data), block) != Fail(PreviousBlockMissing)
  {
    ChainParts(codec, crypto.hash, data, inputs);
    assert Holds(codec, crypto.hash, data, inputs, LatestHeight(data));
    hide Chain, LatestHeight, BlockAtHeight, HeightKey;
  }

  lemma NextExtends(crypto: Crypto, codec: Codec, data: Store, block: Block, inputs: set<Preimage>)
    requires codec.RoundTrips() && CollisionFree(crypto.hash, inputs) && HeaderInput(block.header) in inputs
    requires Chain(codec, crypto.hash, data, inputs) && block.header.height == LatestHeight(data) + 1
    requires CheckNext(crypto, codec, data, LatestHeight(data), block).Pass?
    ensures var after := CommitNext(crypto, codec, data, block);
      && Chain(codec, crypto.hash, after, inputs) && LatestHeight(after) == LatestHeight(data) + 1
      && BlockAtHeight(codec, after, LatestHeight(after)) == Some(block)
      && (forall h :: 0 <= h <= LatestHeight(data) ==> BlockAtHeight(codec, after, h) == BlockAtHeight(codec, data, h))
      && AccountsOf(codec, after) == ExecuteAll(AccountsOf(codec, data), block.transactions)
  {
    CommitExtends(crypto, codec, data, block, OverlayAll(AccountsOf(codec, data), map[], block.transactions), inputs);
    ExecuteThenCommit(codec, crypto.hash, data, block);
    hide Chain, LatestHeight, BlockAtHeight, AccountsOf, Committed, OverlayAll, ExecuteAll;
  }

  lemma WrapAddSmall(n: U64)
    requires n + 1 < U64_END
    ensures WrapAdd(n, 1) == n + 1
  {
  }

  lemma AccountsCompose(accounts: Accounts, block: Block, rest: seq<Block>)
    ensures ExecuteAll(accounts, TransactionsOf([block] + rest))
         == ExecuteAll(ExecuteAll(accounts, block.transactions), TransactionsOf(rest))
  {
    assert ([block] + rest)[1..] == rest;
    ExecuteConcat(accounts, block.transactions, TransactionsOf(rest));
  }

  lemma ExtendsCompose(codec: Codec, hash: Hasher, data: Store, next: Store, block: Block, rest: SyncRun,
                       inputs: set<Preimage>)
    requires LatestHeight(next) == LatestHeight(data) + 1
    requires BlockAtHeight(codec, next, LatestHeight(next)) == Some(block)
    requires forall h :: 0 <= h <= LatestHeight(data) ==> BlockAtHeight(codec, next, h) == BlockAtHeight(codec, data, h)
    requires AccountsOf(codec, next) == ExecuteAll(AccountsOf(codec, data), block.transactions)
    requires Extends(codec, hash, next, rest, inputs)
    ensures Extends(codec, hash, data, rest.(applied := [block] + rest.applied), inputs)
  {
    var applied := [block] + rest.applied;
    AccountsCompose(AccountsOf(codec, data), block, rest.applied);
    hide LatestHeight, BlockAtHeight, AccountsOf, ExecuteAll, Chain, TransactionsOf;
    var latest := LatestHeight(data);
    forall i | 0 <= i < |applied| ensures BlockAtHeight(codec, rest.data, latest + 1 + i) == Some(applied[i]) {
      if i > 0 {
        assert rest.applied[i - 1] == applied[i];
        assert BlockAtHeight(codec, rest.data, latest + 1 + 1 + (i - 1)) == Some(rest.applied[i - 1]);
      }
    }
  }

  /** The ledger across a batch, on every exit: the stored supply and every nonce obey the ledger and
      nonce equations over the applied transactions; and while their amounts fit beside the supply in
      64 bits, the supply falls by just their fees and losses if and only if each was covered when it
      executed. */
  lemma RunSupply(crypto: Crypto, codec: Codec, data: Store, blocks: seq<Block>, inputs: set<Preimage>, a: Address)
    requires codec.RoundTrips() && CollisionFree(crypto.hash, inputs)
    requires forall i :: 0 <= i < |blocks| ==> HeaderInput(blocks[i].header) in inputs
    requires Chain(codec, crypto.hash, data, inputs) && LatestHeight(data) + |blocks| < U64_END
    ensures var run := Run(crypto, codec, data, LatestHeight(data), blocks);
      var before, after, txs := AccountsOf(codec, data), AccountsOf(codec, run.data), TransactionsOf(run.applied);
      && Supply(after) == Supply(before) - FeesAndLosses(txs) + Shortfalls(before, txs) - Clippings(before, txs)
      && (Supply(before) + Amounts(txs) < U64_END ==>
           (Supply(after) == Supply(before) - FeesAndLosses(txs) <==> CoveredAll(before, txs)))
      && Get(after, a).nonce == (Get(before, a).nonce + SentBy(a, txs)) % U64_END
  {
    hide *;
    RunExtendsChain(crypto, codec, data, blocks, inputs);
    var run := Run(crypto, codec, data, LatestHeight(data), blocks);
    ExtendedAccounts(codec, crypto.hash, data, run, inputs);
    var before, txs := AccountsOf(codec, data), TransactionsOf(run.applied);
    LedgerEquation(before, txs);
    if Supply(before) + Amounts(txs) < U64_END {
      SupplyBalancesIff(before, txs);
    }
    NonceCountsTransactions(before, txs, a);
  }

  lemma ExtendedAccounts(codec: Codec, hash: Hasher, data: Store, run: SyncRun, inputs: set<Preimage>)
    requires Extends(codec, hash, data, run, inputs)
    ensures AccountsOf(codec, run.data) == ExecuteAll(AccountsOf(codec, data), TransactionsOf(run.applied))
  {
    hide Chain, LatestHeight, BlockAtHeight, AccountsOf, ExecuteAll, TransactionsOf;
  }

  // ---------------------------------------------------------------------------------------------
  // Which blocks are applied.

  /** The hash a block at the next height has to name: that of the last block applied, or before any,
      that of the stored latest block. */
  ghost function TipHash(codec: Codec, hash: Hasher, data: Store, applied: seq<Block>): Option<Hash> {
    if applied != [] then Some(applied[|applied| - 1].BlockHash(hash))
    else match BlockAtHeight(codec, data, LatestHeight(data))
      case Some(block) => Some(block.BlockHash(hash))
      case None => None
  }

  /** The checks of a block against the chain, told without the store. */
  lemma CheckIs(crypto: Crypto, codec: Codec, data: Store, latest: U64, block: Block)
    requires BlockAtHeight(codec, data, latest).Some?
    ensures var tip := BlockAtHeight(codec, data, latest).value.BlockHash(crypto.hash);
      && (CheckNext(crypto, codec, data, latest, block).Pass? <==>
            block.ValidateBasic(crypto).Pass? && block.header.prevHash == tip)
      && (block.ValidateBasic(crypto).Fail? ==>
            CheckNext(crypto, codec, data, latest, block) == Fail(Primitive(block.ValidateBasic(crypto).error)))
      && (block.ValidateBasic(crypto).Pass? && block.header.prevHash != tip ==>
            CheckNext(crypto, codec, data, latest, block) == Fail(InvalidBlockLink(block.header.height)))
  {
    hide BlockAtHeight, Block.ValidateBasic, Block.BlockHash;
  }

  /** One more block at the end of a batch. */
  ghost function RunOn(crypto: Crypto, codec: Codec, run: SyncRun, block: Block): SyncRun {
    match run.result
    case Err(_) => run
    case Ok(latest) =>
      if block.header.height != WrapAdd(latest, 1) then run else
        match CheckNext(crypto, codec, run.data, latest, block)
        case Fail(error) => SyncRun(run.data, run.applied, Err(error))
        case Pass => SyncRun(CommitNext(crypto, codec, run.data, block), run.applied + [block], Ok(block.header.height))
  }

  lemma {:induction false} RunSnoc(crypto: Crypto, codec: Codec, data: Store, latest: U64, blocks: seq<Block>,
                                   block: Block)
    ensures Run(crypto, codec, data, latest, blocks + [block])
         == RunOn(crypto, codec, Run(crypto, codec, data, latest, blocks), block)
    decreases |blocks|
  {
    hide *;
    OneFits();
    RunUnfolds(crypto, codec, data, latest, blocks);
    RunUnfolds(crypto, codec, data, latest, blocks + [block]);
    if blocks == [] {
      assert (blocks + [block])[1..] == [];
      RunOnIs(crypto, codec, Run(crypto, codec, data, latest, []), block);
      if block.header.height == WrapAdd(latest, 1) && CheckNext(crypto, codec, data, latest, block).Pass? {
        RunUnfolds(crypto, codec, CommitNext(crypto, codec, data, block), block.header.height, []);
        assert [block] + [] == [] + [block];
      } else {
        RunUnfolds(crypto, codec, data, latest, []);
      }
    } else {
      var first, later := blocks[0], blocks[1..];
      assert (blocks + [block])[1..] == later + [block];
      if first.header.height != WrapAdd(latest, 1) {
        RunSnoc(crypto, codec, data, latest, later, block);
      } else if CheckNext(crypto, codec, data, latest, first).Pass? {
        var next := CommitNext(crypto, codec, data, first);
        RunSnoc(crypto, codec, next, first.header.height, later, block);
        RunOnLater(crypto, codec, Run(crypto, codec, next, first.header.height, later), first, block);
      } else {
        RunOnIs(crypto, codec, Run(crypto, codec, data, latest, blocks), block);
      }
    }
  }

  lemma OneFits()
    ensures 1 < U64_END
  {
  }

  lemma RunOnIs(crypto: Crypto, codec: Codec, run: SyncRun, block: Block)
    ensures run.result.Err? ==> RunOn(crypto, codec, run, block) == run
    ensures run.result.Ok? && block.header.height != WrapAdd(run.result.value, 1) ==>
      RunOn(crypto, codec, run, block) == run
    ensures run.result.Ok? && block.header.height == WrapAdd(run.result.value, 1) ==>
      var check := CheckNext(crypto, codec, run.data, run.result.value, block);
      RunOn(crypto, codec, run, block)
        == if check.Fail? then SyncRun(run.data, run.applied, Err(check.error))
           else SyncRun(CommitNext(crypto, codec, run.data, block), run.applied + [block], Ok(block.header.height))
  {
    hide CheckNext, CommitNext, WrapAdd;
  }

  lemma RunOnLater(crypto: Crypto, codec: Codec, run: SyncRun, first: Block, block: Block)
    ensures RunOn(crypto, codec, run.(applied := [first] + run.applied), block)
         == RunOn(crypto, codec, run, block).(applied := [first] + RunOn(crypto, codec, run, block).applied)
  {
    hide CheckNext, CommitNext, WrapAdd;
    ConcatAssociative([first], run.applied, [block]);
  }

  /** A block that a batch so far can go on with: at the next height, valid, and naming the tip. */
  ghost predicate GoesOn(crypto: Crypto, latest: nat, tip: Option<Hash>, block: Block) {
    block.header.height == latest + 1 && block.ValidateBasic(crypto).Pass? && tip == Some(block.header.prevHash)
  }

  /** A block it stops at: at the next height, but not valid, or naming another parent. */
  ghost predicate StopsAt(crypto: Crypto, latest: nat, tip: Option<Hash>, block: Block) {
    block.header.height == latest + 1 && (block.ValidateBasic(crypto).Fail? || tip != Some(block.header.prevHash))
  }

  function StopError(crypto: Crypto, block: Block): SyncError {
    match block.ValidateBasic(crypto)
    case Fail(error) => Primitive(error)
    case Pass => InvalidBlockLink(block.header.height)
  }

  /** What one more block does to a batch, told by its height, its validity and its parent alone. */
  lemma BatchStep(crypto: Crypto, codec: Codec, data: Store, blocks: seq<Block>, block: Block, inputs: set<Preimage>)
    requires codec.RoundTrips() && CollisionFree(crypto.hash, inputs) && HeaderInput(block.header) in inputs
    requires forall i :: 0 <= i < |blocks| ==> HeaderInput(blocks[i].header) in inputs
    requires Chain(codec, crypto.hash, data, inputs) && LatestHeight(data) + |blocks| + 1 < U64_END
    ensures var run := Run(crypto, codec, data, LatestHeight(data), blocks);
      var after := Run(crypto, codec, data, LatestHeight(data), blocks + [block]);
      var latest, tip := LatestHeight(data) + |run.applied|, TipHash(codec, crypto.hash, data, run.applied);
      && (run.result.Err? ==> after == run)
      && (run.result.Ok? && GoesOn(crypto, latest, tip, block) ==>
          after.applied == run.applied + [block] && after.result == Ok(latest + 1))
      && (run.result.Ok? && StopsAt(crypto, latest, tip, block) ==>
          after == run.(result := Err(StopError(crypto, block))))
      && (block.header.height != latest + 1 ==> after == run)
  {
    hide *;
    var latest := LatestHeight(data);
    var run := Run(crypto, codec, data, latest, blocks);
    RunExtendsChain(crypto, codec, data, blocks, inputs);
    RunSnoc(crypto, codec, data, latest, blocks, block);
    RunOnIs(crypto, codec, run, block);
    if run.result.Ok? {
      WrapAddSmall(latest + |run.applied|);
      TipStored(crypto, codec, data, run, inputs);
      CheckIs(crypto, codec, run.data, latest + |run.applied|, block);
      StepWords(crypto, latest + |run.applied|, TipHash(codec, crypto.hash, data, run.applied), block);
    }
  }

  lemma StepWords(crypto: Crypto, latest: nat, tip: Option<Hash>, block: Block)
    ensures GoesOn(crypto, latest, tip, block)
       <==> block.header.height == latest + 1 && block.ValidateBasic(crypto).Pass? && tip == Some(block.header.prevHash)
    ensures StopsAt(crypto, latest, tip, block)
       <==> (&& block.header.height == latest + 1
             && (block.ValidateBasic(crypto).Fail? || tip != Some(block.header.prevHash)))
    ensures StopError(crypto, block)
         == if block.ValidateBasic(crypto).Fail? then Primitive(block.ValidateBasic(crypto).error)
            else InvalidBlockLink(block.header.height)
  {
    hide Block.ValidateBasic;
  }

  lemma TipStored(crypto: Crypto, codec: Codec, data: Store, run: SyncRun, inputs: set<Preimage>)
    requires Chain(codec, crypto.hash, data, inputs) && Extends(codec, crypto.hash, data, run, inputs)
    ensures var stored := BlockAtHeight(codec, run.data, LatestHeight(data) + |run.applied|);
      stored.Some? && TipHash(codec, crypto.hash, data, run.applied) == Some(stored.value.BlockHash(crypto.hash))
  {
    hide Chain, LatestHeight, BlockAtHeight, AccountsOf, Block.BlockHash;
    ChainParts(codec, crypto.hash, data, inputs);
    HeldBlock(codec, crypto.hash, data, inputs, LatestHeight(data));
    if run.applied != [] {
      assert BlockAtHeight(codec, run.data, LatestHeight(data) + 1 + (|run.applied| - 1))
        == Some(run.applied[|run.applied| - 1]);
    }
  }

  /** The blocks follow the chain and each other: the next heights in turn, each valid and naming the
      hash of the one before. */
  ghost predicate FollowOn(crypto: Crypto, codec: Codec, data: Store, blocks: seq<Block>) {
    forall i :: 0 <= i < |blocks| ==>
      GoesOn(crypto, LatestHeight(data) + i, TipHash(codec, crypto.hash, data, blocks[..i]), blocks[i])
  }

  /** A good batch is applied whole. */
  lemma {:induction false} GoodBatchApplied(crypto: Crypto, codec: Codec, data: Store, blocks: seq<Block>,
      inputs: set<Preimage>)
    requires codec.RoundTrips() && CollisionFree(crypto.hash, inputs)
    requires forall i :: 0 <= i < |blocks| ==> HeaderInput(blocks[i].header) in inputs
    requires Chain(codec, crypto.hash, data, inputs) && LatestHeight(data) + |blocks| < U64_END
    requires FollowOn(crypto, codec, data, blocks)
    ensures var run := Run(crypto, codec, data, LatestHeight(data), blocks);
      run.applied == blocks && run.result == Ok(LatestHeight(data) + |blocks|)
    decreases |blocks|
  {
    hide *;
    if blocks == [] {
      RunUnfolds(crypto, codec, data, LatestHeight(data), blocks);
    } else {
      var before, last := blocks[..|blocks| - 1], blocks[|blocks| - 1];
      FollowOnParts(crypto, codec, data, blocks);
      GoodBatchApplied(crypto, codec, data, before, inputs);
      BatchStep(crypto, codec, data, before, last, inputs);
      assert before + [last] == blocks;
    }
  }

  lemma FollowOnParts(crypto: Crypto, codec: Codec, data: Store, blocks: seq<Block>)
    requires blocks != [] && FollowOn(crypto, codec, data, blocks)
    ensures var before := blocks[..|blocks| - 1];
      && FollowOn(crypto, codec, data, before)
      && GoesOn(crypto, LatestHeight(data) + |before|, TipHash(codec, crypto.hash, data, before), blocks[|blocks| - 1])
  {
    hide GoesOn, TipHash, LatestHeight;
    var before := blocks[..|blocks| - 1];
    forall i | 0 <= i < |before|
      ensures GoesOn(crypto, LatestHeight(data) + i, TipHash(codec, crypto.hash, data, before[..i]), before[i])
    {
      assert before[..i] == blocks[..i];
    }
  }

  /** The batch stops at its i-th block: those before it all went well, and it is at the next height
      but not valid, or does not name the tip. */
  ghost predicate FailsAt(crypto: Crypto, codec: Codec, data: Store, blocks: seq<Block>, i: nat)
    requires i < |blocks|
  {
    var before := Run(crypto, codec, data, LatestHeight(data), blocks[..i]);
    before.result.Ok?
    && StopsAt(crypto, LatestHeight(data) + |before.applied|,
         TipHash(codec, crypto.hash, data, before.applied), blocks[i])
  }

  ghost predicate Fails(crypto: Crypto, codec: Codec, data: Store, blocks: seq<Block>) {
    exists i :: 0 <= i < |blocks| && FailsAt(crypto, codec, data, blocks, i)
  }

  /** When a batch fails: exactly if some block at the then-next height is not valid or does not name
      the tip. The error is that block's, and what was applied is what was before it. */
  lemma {:induction false} FailsIff(crypto: Crypto, codec: Codec, data: Store, blocks: seq<Block>,
      inputs: set<Preimage>)
    requires codec.RoundTrips() && CollisionFree(crypto.hash, inputs)
    requires forall i :: 0 <= i < |blocks| ==> HeaderInput(blocks[i].header) in inputs
    requires Chain(codec, crypto.hash, data, inputs) && LatestHeight(data) + |blocks| < U64_END
    ensures Run(crypto, codec, data, LatestHeight(data), blocks).result.Err? <==> Fails(crypto, codec, data, blocks)
    ensures forall i :: 0 <= i < |blocks| && FailsAt(crypto, codec, data, blocks, i) ==>
      Run(crypto, codec, data, LatestHeight(data), blocks)
        == Run(crypto, codec, data, LatestHeight(data), blocks[..i]).(result := Err(StopError(crypto, blocks[i])))
    decreases |blocks|
  {
    hide *;
    if blocks == [] {
      RunUnfolds(crypto, codec, data, LatestHeight(data), blocks);
      NothingFails(crypto, codec, data);
    } else {
      var before, last := blocks[..|blocks| - 1], blocks[|blocks| - 1];
      assert before + [last] == blocks;
      FailsIff(crypto, codec, data, before, inputs);
      BatchStep(crypto, codec, data, before, last, inputs);
      FailsLast(crypto, codec, data, blocks);
      var run := Run(crypto, codec, data, LatestHeight(data), before);
      StepWords(crypto, LatestHeight(data) + |run.applied|, TipHash(codec, crypto.hash, data, run.applied), last);
      forall i | 0 <= i < |blocks| && FailsAt(crypto, codec, data, blocks, i)
        ensures Run(crypto, codec, data, LatestHeight(data), blocks)
             == Run(crypto, codec, data, LatestHeight(data), blocks[..i]).(result := Err(StopError(crypto, blocks[i])))
      {
        if i < |before| {
          FailsEarlier(crypto, codec, data, blocks, i);
        }
      }
    }
  }

  lemma NothingFails(crypto: Crypto, codec: Codec, data: Store)
    ensures !Fails(crypto, codec, data, [])
  {
    hide FailsAt;
  }

  lemma FailsEarlier(crypto: Crypto, codec: Codec, data: Store, blocks: seq<Block>, i: nat)
    requires i < |blocks| - 1
    ensures blocks[..|blocks| - 1][..i] == blocks[..i] && blocks[..|blocks| - 1][i] == blocks[i]
    ensures FailsAt(crypto, codec, data, blocks[..|blocks| - 1], i) <==> FailsAt(crypto, codec, data, blocks, i)
  {
    hide Run, StopsAt, TipHash;
    assert blocks[..|blocks| - 1][..i] == blocks[..i];
  }

  lemma FailsLast(crypto: Crypto, codec: Codec, data: Store, blocks: seq<Block>)
    requires blocks != []
    ensures var before, last := blocks[..|blocks| - 1], |blocks| - 1;
      && (Fails(crypto, codec, data, blocks)
          <==> Fails(crypto, codec, data, before) || FailsAt(crypto, codec, data, blocks, last))
      && (FailsAt(crypto, codec, data, blocks, last) <==>
            var run := Run(crypto, codec, data, LatestHeight(data), before);
            run.result.Ok? && StopsAt(crypto, LatestHeight(data) + |run.applied|,
                                TipHash(codec, crypto.hash, data, run.applied), blocks[last]))
  {
    hide Run, StopsAt, TipHash;
    var before := blocks[..|blocks| - 1];
    forall i | 0 <= i < |before|
      ensures FailsAt(crypto, codec, data, before, i) <==> FailsAt(crypto, codec, data, blocks, i)
    {
      FailsEarlier(crypto, codec, data, blocks, i);
    }
  }

  /** Every applied block passed `validate_basic`. */
  lemma {:induction false} AppliedPass(crypto: Crypto, codec: Codec, data: Store, latest: U64, blocks: seq<Block>)
    ensures var run := Run(crypto, codec, data, latest, blocks);
      forall i :: 0 <= i < |run.applied| ==> run.applied[i].ValidateBasic(crypto).Pass? && run.applied[i] in blocks
    decreases |blocks|
  {
    hide *;
    OneFits();
    RunUnfolds(crypto, codec, data, latest, blocks);
    if blocks != [] {
      if blocks[0].header.height != WrapAdd(latest, 1) {
        AppliedPass(crypto, codec, data, latest, blocks[1..]);
      } else if CheckNext(crypto, codec, data, latest, blocks[0]).Pass? {
        PassedCheck(crypto, codec, data, latest, blocks[0]);
        AppliedPass(crypto, codec, CommitNext(crypto, codec, data, blocks[0]), blocks[0].header.height, blocks[1..]);
      }
    }
  }
}
