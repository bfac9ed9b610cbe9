/** The engine object: its handlers, step by step, against the state machine. */
module Engine {
  import opened Bytes
  import opened Crypto
  import opened Kv
  import opened Smt
  import opened Votes
  import opened Blocks
  import opened ChainStore
  import opened State
  import opened Execution
  import opened Proposer
  import opened Quorums
  import opened EngineSpec
  import opened Pool
  import opened Harvest
  import M = Mempool

  const MAX_BLOCK_BYTES: nat := 1024 * 1024

  /** The pool after a handler: a committed block's transactions leave it. */
  function PoolSettled(hash: Hasher, pool: TxPool, commit: Option<Block>): TxPool {
    match commit
    case Some(block) => M.Remaining(hash, pool, block.transactions)
    case None => pool
  }

  class ConsensusEngine {
    const crypto: Crypto
    const codec: Codec
    const keypair: SecretKey
    const validatorAddress: Address
    const stateDb: StateDB
    const mempool: M.Mempool
    const chainId: Bytes
    var currentHeight: U64
    var currentRound: U32
    var step: ConsensusStep
    var proposedBlock: Option<Block>
    var prevotes: Ballots
    var precommits: Ballots
    var lastQc: Option<QuorumCertificate>

    ghost predicate Valid()
      reads this, stateDb, stateDb.kv, stateDb.smt, stateDb.smt.emptyRoots, stateDb.smt.emptyRoots.roots, mempool
    {
      Wired() && stateDb.Valid() && mempool.Valid()
    }

    ghost predicate Wired() {
      && stateDb.crypto == crypto && stateDb.codec == codec && mempool.crypto == crypto
      && validatorAddress == crypto.AddressOf(crypto.publicKey(keypair))
    }

    function AsCore(): Core
      reads this
    {
      Core(currentHeight, currentRound, step, proposedBlock, prevotes, precommits, lastQc)
    }

    ghost function Validators(): seq<ValidatorInfo>
      reads this, stateDb, stateDb.kv
    {
      ActiveValidators(codec, stateDb.kv.data)
    }

    constructor (keypair: SecretKey, stateDb: StateDB, mempool: M.Mempool, chainId: Bytes)
      requires stateDb.Valid() && mempool.Valid() && mempool.crypto == stateDb.crypto
      ensures Valid() && this.stateDb == stateDb && this.mempool == mempool && this.keypair == keypair
      ensures this.chainId == chainId
      ensures AsCore() == Core(NextHeight(LatestHeight(stateDb.kv.data)), 0, NewRound, None, map[], map[], None)
    {
      this.crypto := stateDb.crypto;
      this.codec := stateDb.codec;
      this.keypair := keypair;
      this.validatorAddress := stateDb.crypto.AddressOf(stateDb.crypto.publicKey(keypair));
      this.stateDb := stateDb;
      this.mempool := mempool;
      this.chainId := chainId;
      var latestHeight := stateDb.GetLatestHeight();
      currentHeight, currentRound, step := NextHeight(latestHeight), 0, NewRound;
      proposedBlock, prevotes, precommits, lastQc := None, map[], map[], None;
      new;
      hide *;
      Parts();
    }

    /** What an instance's predicates stand for, without what their parts stand for. */
    lemma Parts()
      ensures AsCore() == Core(currentHeight, currentRound, step, proposedBlock, prevotes, precommits, lastQc)
      ensures Validators() == ActiveValidators(codec, stateDb.kv.data)
      ensures Wired() <==>
        && stateDb.crypto == crypto && stateDb.codec == codec && mempool.crypto == crypto
        && validatorAddress == crypto.AddressOf(crypto.publicKey(keypair))
      ensures Valid() <==> Wired() && stateDb.Valid() && mempool.Valid()
      ensures mempool.Valid() ==> mempool.Indexed()
      ensures forall h: nat :: stateDb.GetBlockByHeight(h) == BlockAtHeight(stateDb.codec, stateDb.kv.data, h)
      ensures stateDb.GetLatestHeight() == LatestHeight(stateDb.kv.data)
    {
      hide StateDB.Valid, M.Mempool.Indexed, ActiveValidators, BlockAtHeight, LatestHeight;
    }

    method GetActiveValidators() returns (validators: seq<ValidatorInfo>)
      requires Valid()
      ensures validators == Validators()
    {
      hide *;
      Parts();
      ActiveAre(codec, stateDb.kv.data);
      var entries := stateDb.GetValidators();
      validators := CollectInfos(entries);
    }

    /** Commit the held proposal and take its transactions out of the pool. */
    method CommitProposed(block: Block)
      requires Valid()
      modifies stateDb.kv, stateDb.smt, mempool
      ensures Valid()
      ensures stateDb.kv.data == CommitNext(crypto, codec, old(stateDb.kv.data), block)
      ensures mempool.byHash == M.Remaining(crypto.hash, old(mempool.byHash), block.transactions)
      ensures AddressesApart(crypto.hash) && old(stateDb.Mirrored()) ==> stateDb.Mirrored()
    {
      hide *;
      Parts();
      ExecuteAndCommit(stateDb, block);
      mempool.RemoveCommitted(block.transactions);
      Parts();
    }

    method HandlePreCommit(vote: Vote) returns (qc: Option<QuorumCertificate>)
      requires Valid()
      modifies this, stateDb.kv, stateDb.smt, mempool
      ensures Valid()
      ensures var run := OnPreCommit(crypto.hash, old(AsCore()), old(Validators()), vote);
        && AsCore() == run.core && qc == run.qc
        && stateDb.kv.data == Settled(crypto, codec, old(stateDb.kv.data), run.commit)
        && mempool.byHash == PoolSettled(crypto.hash, old(mempool.byHash), run.commit)
      ensures AddressesApart(crypto.hash) && old(stateDb.Mirrored()) ==> stateDb.Mirrored()
    {
      hide *;
      Parts();
      OnPreCommitUnfolds(crypto.hash, AsCore(), Validators(), vote);
      SettleUnfolds(crypto, codec, stateDb.kv.data, mempool.byHash, proposedBlock);
      var validators := GetActiveValidators();
      var counted, votes := RecordVote(precommits, vote);
      precommits := counted;
      Parts();
      var totalPower := SumPower(validators);
      var votePower := Tally(votes, validators);
      if IsQuorum(totalPower, votePower) && !step.Committing? {
        step := Committing;
        var formed := QuorumCertificate(vote.blockHash, currentHeight, currentRound, votes, totalPower, votePower);
        Parts();
        if proposedBlock.Some? && proposedBlock.value.BlockHash(crypto.hash) == vote.blockHash {
          CommitProposed(proposedBlock.value);
        }
        Advance(formed);
        return Some(formed);
      }
      qc := None;
    }

    /** On to the next height. */
    method Advance(formed: QuorumCertificate)
      requires Valid()
      modifies this
      ensures Valid() && AsCore() == Core(NextHeight(old(currentHeight)), 0, NewRound, None, map[], map[], Some(formed))
    {
      hide *;
      Parts();
      lastQc := Some(formed);
      currentHeight := NextHeight(currentHeight);
      currentRound := 0;
      step := NewRound;
      proposedBlock := None;
      prevotes := map[];
      precommits := map[];
      Parts();
    }

    method HandlePreVote(vote: Vote) returns (cast: Option<Vote>)
      requires Valid()
      modifies this, stateDb.kv, stateDb.smt, mempool
      ensures Valid()
      ensures var run := OnPreVote(crypto, keypair, old(AsCore()), old(Validators()), vote);
        && AsCore() == run.core && cast == run.precommit
        && stateDb.kv.data == Settled(crypto, codec, old(stateDb.kv.data), run.commit)
        && mempool.byHash == PoolSettled(crypto.hash, old(mempool.byHash), run.commit)
      ensures AddressesApart(crypto.hash) && old(stateDb.Mirrored()) ==> stateDb.Mirrored()
    {
      hide *;
      Parts();
      OnPreVoteUnfolds(crypto, keypair, AsCore(), Validators(), vote);
      SettleUnfolds(crypto, codec, stateDb.kv.data, mempool.byHash, None);
      var validators := GetActiveValidators();
      var counted, votes := RecordVote(prevotes, vote);
      prevotes := counted;
      Parts();
      var totalPower := SumPower(validators);
      var votePower := Tally(votes, validators);
      if IsQuorum(totalPower, votePower) && step.PreVoting? {
        step := PreCommitting;
        var precommit := NewSigned(crypto, keypair, vote.blockHash, currentHeight, currentRound, PreCommit);
        Parts();
        var _ := HandlePreCommit(precommit);
        return Some(precommit);
      }
      cast := None;
    }

    method HandleProposal(block: Block) returns (result: Result<Vote, ConsensusError>)
      requires Valid()
      modifies this, stateDb.kv, stateDb.smt, mempool
      ensures Valid()
      ensures result.Ok? == Acceptable(crypto, old(AsCore()), block)
      ensures result.Err? ==>
        AsCore() == old(AsCore()) && stateDb.kv.data == old(stateDb.kv.data) && mempool.byHash == old(mempool.byHash)
      ensures result.Ok? ==>
        var run := OnProposal(crypto, keypair, old(AsCore()), old(Validators()), block);
        && AsCore() == run.core && result.value == PreVoteFor(crypto, keypair, old(AsCore()), block)
        && stateDb.kv.data == Settled(crypto, codec, old(stateDb.kv.data), run.commit)
        && mempool.byHash == PoolSettled(crypto.hash, old(mempool.byHash), run.commit)
      ensures AddressesApart(crypto.hash) && old(stateDb.Mirrored()) ==> stateDb.Mirrored()
    {
      hide *;
      Parts();
      OnProposalUnfolds(crypto, keypair, AsCore(), Validators(), block);
      if block.header.height != currentHeight || block.header.round != currentRound {
        return Err(InvalidProposal);
      }
      if block.ValidateBasic(crypto).Fail? {
        return Err(InvalidProposal);
      }
      proposedBlock := Some(block);
      step := PreVoting;
      var vote := NewSigned(crypto, keypair, block.BlockHash(crypto.hash), currentHeight, currentRound, PreVote);
      Parts();
      var _ := HandlePreVote(vote);
      result := Ok(vote);
    }

    method IsProposer(height: U64, round: U32) returns (yes: bool)
      requires Valid()
      ensures yes == var chosen := Selected(crypto.hash, height, round, Validators());
        chosen.Some? && chosen.value.address == validatorAddress
    {
      var validators := GetActiveValidators();
      var proposer := SelectProposer(crypto.hash, height, round, validators);
      yes := proposer.Some? && proposer.value.address == validatorAddress;
    }

    /** The clock is a parameter. The speculative execution changes nothing that is kept. */
    method CreateProposal(now: U64) returns (result: Result<Block, ConsensusError>)
      requires Valid()
      modifies this
      ensures Valid()
      ensures result == Proposed(crypto, codec, keypair, chainId, old(AsCore()), stateDb.kv.data,
                                 DenseRoot(crypto.hash, stateDb.smt.leaves), mempool.byHash, now)
      ensures AsCore()
           == if result.Ok? then old(AsCore()).(proposed := Some(result.value), step := Propose) else old(AsCore())
    {
      hide *;
      Parts();
      var height: U64, round: U32 := currentHeight, currentRound;
      var validators := GetActiveValidators();
      ProposedUnfolds(crypto, codec, keypair, chainId, AsCore(), stateDb.kv.data,
        DenseRoot(crypto.hash, stateDb.smt.leaves), mempool.byHash, now);
      var proposer := SelectProposer(crypto.hash, height, round, validators);
      if proposer.None? || proposer.value.address != validatorAddress {
        return Err(NotProposer(height, round));
      }
      var previous := stateDb.GetBlockByHeight(PreviousHeight(height));
      if previous.None? {
        return Err(PreviousBlockMissing);
      }
      var txs := mempool.Harvest(MAX_BLOCK_BYTES);
      var overlay := new StateOverlay();
      ExecuteTransactions(stateDb, txs, overlay);
      var setBytes := SetBytes(validators);
      var stateRoot := stateDb.GetStateRoot();
      var header := BlockHeader(HEADER_VERSION, chainId, height, round, previous.value.BlockHash(crypto.hash), ZERO,
        stateRoot,
        crypto.hash(RawDomain, setBytes), now, validatorAddress, ZERO_SIGNATURE);
      var block := Block(header, txs, lastQc);
      header := header.(merkleRoot := block.ComputeMerkleRoot(crypto.hash));
      header := header.(signature := crypto.sign(keypair, header.SigningBytes()));
      block := block.(header := header);
      Hold(block);
      result := Ok(block);
    }

    method Hold(block: Block)
      requires Valid()
      modifies this
      ensures Valid() && AsCore() == old(AsCore()).(proposed := Some(block), step := Propose)
    {
      hide *;
      Parts();
      proposedBlock := Some(block);
      step := Propose;
      Parts();
    }
  }

  lemma ActiveAre(codec: Codec, data: Store)
    ensures ActiveValidators(codec, data) == InfosOf(ValidatorsIn(codec, Scan(data, CF_ACCOUNTS)))
  {
  }

  lemma OnPreCommitUnfolds(hash: Hasher, core: Core, validators: seq<ValidatorInfo>, vote: Vote)
    ensures var precommits := AddVote(core.precommits, vote);
      var votes := VotesFor(precommits, vote.blockHash);
      var total, power := PowerSum(validators), VotePower(votes, validators);
      OnPreCommit(hash, core, validators, vote)
        == if IsQuorum(total, power) && !core.step.Committing? then
             var qc := QuorumCertificate(vote.blockHash, core.height, core.round, votes, total, power);
             Handled(Core(NextHeight(core.height), 0, NewRound, None, map[], map[], Some(qc)), None, Some(qc),
               if core.proposed.Some? && core.proposed.value.BlockHash(hash) == vote.blockHash then core.proposed
                 else None)
           else Handled(core.(precommits := precommits), None, None, None)
  {
    hide AddVote, VotesFor, PowerSum, VotePower, NextHeight, Block.BlockHash;
  }

  lemma OnPreVoteUnfolds(crypto: Crypto, key: SecretKey, core: Core, validators: seq<ValidatorInfo>, vote: Vote)
    ensures var prevotes := AddVote(core.prevotes, vote);
      var votes := VotesFor(prevotes, vote.blockHash);
      var total, power := PowerSum(validators), VotePower(votes, validators);
      OnPreVote(crypto, key, core, validators, vote)
        == if IsQuorum(total, power) && core.step.PreVoting? then
             var precommit := NewSigned(crypto, key, vote.blockHash, core.height, core.round, PreCommit);
             OnPreCommit(crypto.hash, core.(prevotes := prevotes, step := PreCommitting), validators,
               precommit).(precommit := Some(precommit))
           else Handled(core.(prevotes := prevotes), None, None, None)
  {
    hide AddVote, VotesFor, PowerSum, VotePower, OnPreCommit, NewSigned;
  }

  lemma OnProposalUnfolds(crypto: Crypto, key: SecretKey, core: Core, validators: seq<ValidatorInfo>, block: Block)
    ensures Acceptable(crypto, core, block)
       <==> block.header.height == core.height && block.header.round == core.round && !block.ValidateBasic(crypto).Fail?
    ensures PreVoteFor(crypto, key, core, block)
         == NewSigned(crypto, key, block.BlockHash(crypto.hash), core.height, core.round, PreVote)
    ensures Acceptable(crypto, core, block) ==>
      OnProposal(crypto, key, core, validators, block)
        == OnPreVote(crypto, key, core.(proposed := Some(block), step := PreVoting), validators,
            PreVoteFor(crypto, key, core, block))
  {
    hide OnPreVote, NewSigned, Block.ValidateBasic, Block.BlockHash;
  }

  lemma SettleUnfolds(crypto: Crypto, codec: Codec, data: Store, pool: TxPool, proposed: Option<Block>)
    ensures Settled(crypto, codec, data, None) == data && PoolSettled(crypto.hash, pool, None) == pool
    ensures proposed.Some? ==>
      && Settled(crypto, codec, data, proposed) == CommitNext(crypto, codec, data, proposed.value)
      && PoolSettled(crypto.hash, pool, proposed) == M.Remaining(crypto.hash, pool, proposed.value.transactions)
  {
    hide CommitNext, M.Remaining;
  }

  /** The `filter_map` over the stored validators. */
  method CollectInfos(entries: seq<ValidatorEntry>) returns (validators: seq<ValidatorInfo>)
    ensures validators == InfosOf(entries)
  {
    validators := [];
    for i := 0 to |entries|
      invariant validators == InfosOf(entries[..i])
    {
      assert entries[..i + 1][..i] == entries[..i];
      match entries[i].account.validatorPubkey {
        case Some(pubkey) =>
          validators := validators + [ValidatorInfo(entries[i].address, pubkey, entries[i].account.stakedAmount)];
        case None =>
      }
    }
    assert entries[..|entries|] == entries;
  }

  /** File a vote under its hash unless that validator is already there. */
  method RecordVote(ballots: Ballots, vote: Vote) returns (counted: Ballots, votes: seq<Vote>)
    ensures counted == AddVote(ballots, vote) && votes == VotesFor(counted, vote.blockHash)
  {
    votes := if vote.blockHash in ballots then ballots[vote.blockHash] else [];
    var voted := AlreadyVoted(votes, vote.validator);
    if !voted {
      votes := votes + [vote];
    }
    counted := ballots[vote.blockHash := votes];
  }

  method AlreadyVoted(votes: seq<Vote>, validator: Address) returns (found: bool)
    ensures found == HasVoted(votes, validator)
  {
    for i := 0 to |votes|
      invariant forall j :: 0 <= j < i ==> votes[j].validator != validator
    {
      if votes[i].validator == validator {
        return true;
      }
    }
    found := false;
  }

  method Tally(votes: seq<Vote>, validators: seq<ValidatorInfo>) returns (power: U64)
    ensures power == VotePower(votes, validators)
  {
    power := 0;
    hide WrapAdd, PowerOf;
    for i := 0 to |votes|
      invariant power == VotePower(votes[..i], validators)
    {
      assert votes[..i + 1][..i] == votes[..i];
      var own := Find(validators, votes[i].validator);
      power := WrapAdd(power, own);
    }
    assert votes[..|votes|] == votes;
  }

  /** The power of the first validator with this address; none counts nothing. */
  method Find(validators: seq<ValidatorInfo>, a: Address) returns (power: U64)
    ensures power == PowerOf(validators, a)
  {
    for i := 0 to |validators|
      invariant PowerOf(validators, a) == PowerOf(validators[i..], a)
    {
      assert validators[i..][1..] == validators[i + 1..];
      if validators[i].address == a {
        return validators[i].votingPower;
      }
    }
    power := 0;
  }

  method SetBytes(validators: seq<ValidatorInfo>) returns (bytes: Bytes)
    ensures bytes == InfoBytes(validators)
  {
    bytes := [];
    for i := 0 to |validators|
      invariant bytes == InfoBytes(validators[..i])
    {
      assert validators[..i + 1][..i] == validators[..i];
      bytes := bytes + validators[i].address;
      bytes := bytes + validators[i].pubkey;
      bytes := bytes + BigEndian(validators[i].votingPower, 8);
    }
    assert validators[..|validators|] == validators;
  }

  lemma ProposedUnfolds(crypto: Crypto, codec: Codec, key: SecretKey, chainId: Bytes, core: Core, data: Store,
                        stateRoot: Hash, pool: TxPool, now: U64)
    ensures var chosen := Selected(crypto.hash, core.height, core.round, ActiveValidators(codec, data));
      var previous := BlockAtHeight(codec, data, PreviousHeight(core.height));
      Proposed(crypto, codec, key, chainId, core, data, stateRoot, pool, now)
        == if chosen.None? || chosen.value.address
            != crypto.AddressOf(crypto.publicKey(key)) then Err(NotProposer(core.height, core.round))
           else if previous.None? then Err(PreviousBlockMissing)
           else
             var draft := Block(BlockHeader(HEADER_VERSION, chainId, core.height, core.round,
               previous.value.BlockHash(crypto.hash), ZERO, stateRoot,
                 crypto.hash(RawDomain, InfoBytes(ActiveValidators(codec, data))), now,
                   crypto.AddressOf(crypto.publicKey(key)), ZERO_SIGNATURE),
               Harvested(pool, MAX_BLOCK_BYTES), core.lastQc);
             var header := draft.header.(merkleRoot := draft.ComputeMerkleRoot(crypto.hash));
             Ok(draft.(header := header.(signature := crypto.sign(key, header.SigningBytes()))))
  {
    hide Selected, ActiveValidators, BlockAtHeight, PreviousHeight, InfoBytes, Harvested;
    hide Block.ComputeMerkleRoot, Block.BlockHash, BlockHeader.SigningBytes, Crypto.AddressOf;
  }

  /** What a proposal attempt yields. */
  ghost function Proposed(crypto: Crypto, codec: Codec, key: SecretKey, chainId: Bytes, core: Core, data: Store,
                          stateRoot: Hash, pool: TxPool, now: U64): Result<Block, ConsensusError>
  {
    var validators := ActiveValidators(codec, data);
    match Selected(crypto.hash, core.height, core.round, validators)
    case None => Err(NotProposer(core.height, core.round))
    case Some(chosen) =>
      if chosen.address != crypto.AddressOf(crypto.publicKey(key)) then Err(NotProposer(core.height, core.round)) else
        match BlockAtHeight(codec, data, PreviousHeight(core.height))
        case None => Err(PreviousBlockMissing)
        case Some(previous) =>
          Ok(Completed(crypto, key, Block(
            DraftHeader(crypto, key, chainId, core, previous, stateRoot, validators, now),
            Harvested(pool, MAX_BLOCK_BYTES), core.lastQc)))
  }
}
