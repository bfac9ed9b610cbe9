/** What the engine does with what it is given, over whole runs: whom it counts, what it commits, what
    it accepts, and what it proposes. */
module EngineLaws {
  import opened Bytes
  import opened Crypto
  import opened Sums
  import opened Kv
  import opened Transactions
  import opened Merkle
  import opened Votes
  import opened Blocks
  import opened ChainStore
  import opened Execution
  import Sync
  import opened Proposer
  import opened Quorums
  import opened EngineSpec
  import opened Engine
  import opened EngineRuns
  import opened Pool
  import opened Harvest
  import opened PoolTheorems

  // ---------------------------------------------------------------------------------------------
  // Who is counted.

  function OwnAddress(crypto: Crypto, key: SecretKey): Address {
    crypto.AddressOf(crypto.publicKey(key))
  }

  function OneIf(yes: bool, a: Address): set<Address> {
    if yes then {a} else {}
  }

  /** Those counted for a hash after an input, from those counted before. */
  lemma VotersAfter(crypto: Crypto, codec: Codec, key: SecretKey, node: Node, input: Input, h: Hash)
    ensures var run, own := Handle(crypto, codec, key, node, input), OwnAddress(crypto, key);
      var proposal :=
        input.Proposal? && Acceptable(crypto, node.core, input.block) && input.block.BlockHash(crypto.hash) == h;
      && (run.qc.Some? ==> run.core.prevotes == map[] && run.core.precommits == map[])
      && (run.qc.None? ==>
            Voters(VotesFor(run.core.prevotes, h)) == Voters(VotesFor(node.core.prevotes, h)) + OneIf(proposal, own)
              + (if input.PreVoteIn? && input.vote.blockHash == h then {input.vote.validator} else {}))
      && (run.qc.None? ==>
            Voters(VotesFor(run.core.precommits, h)) == Voters(VotesFor(node.core.precommits, h))
              + (if input.PreCommitIn? && input.vote.blockHash == h then {input.vote.validator} else {})
              + OneIf(run.precommit.Some? && run.precommit.value.blockHash == h, own))
  {
    hide *;
    var core, validators := node.core, ActiveValidators(codec, node.data);
    HandleParts(crypto, codec, key, node, input);
    OwnIs(crypto, key);
    match input
    case Create(_, _, _, _) =>
      CreatedCounts(crypto, codec, key, node, input);
    case Proposal(block) =>
      if Acceptable(crypto, core, block) {
        var prevote := PreVoteFor(crypto, key, core, block);
        OnProposalUnfolds(crypto, key, core, validators, block);
        SignedFor(crypto, key, block.BlockHash(crypto.hash), core.height, core.round, PreVote);
        PreVoteCounts(crypto, key, core.(proposed := Some(block), step := PreVoting), validators, prevote, h);
      }
    case PreVoteIn(vote) =>
      PreVoteCounts(crypto, key, core, validators, vote, h);
    case PreCommitIn(vote) =>
      PreCommitCounts(crypto.hash, core, validators, vote, h);
  }

  lemma OwnIs(crypto: Crypto, key: SecretKey)
    ensures OwnAddress(crypto, key) == crypto.AddressOf(crypto.publicKey(key))
    ensures forall yes, a :: OneIf(yes, a) == if yes then {a} else {}
  {
    hide Crypto.AddressOf;
  }

  lemma CreatedCounts(crypto: Crypto, codec: Codec, key: SecretKey, node: Node, input: Input)
    requires input.Create?
    ensures var run := Handle(crypto, codec, key, node, input);
      && run.qc.None? && run.precommit.None? && run.commit.None?
      && run.core.prevotes == node.core.prevotes && run.core.precommits == node.core.precommits
  {
    CreatedCore(crypto, codec, key, node, input);
    hide Proposed, ActiveValidators;
  }

  lemma PreCommitCounts(hash: Hasher, core: Core, validators: seq<ValidatorInfo>, vote: Vote, h: Hash)
    ensures var run := OnPreCommit(hash, core, validators, vote);
      && run.precommit.None?
      && (run.qc.Some? ==> run.core.prevotes == map[] && run.core.precommits == map[])
      && (run.qc.None? ==>
            && run.core.prevotes == core.prevotes
            && Voters(VotesFor(run.core.precommits, h))
                 == Voters(VotesFor(core.precommits, h)) + (if vote.blockHash == h then {vote.validator} else {}))
  {
    hide *;
    OnPreCommitUnfolds(hash, core, validators, vote);
    AddVoteCounts(core.precommits, vote, h);
  }

  lemma PreVoteCounts(crypto: Crypto, key: SecretKey, core: Core, validators: seq<ValidatorInfo>, vote: Vote, h: Hash)
    ensures var run := OnPreVote(crypto, key, core, validators, vote);
      && (run.qc.Some? ==> run.core.prevotes == map[] && run.core.precommits == map[])
      && (run.qc.None? ==>
            && Voters(VotesFor(run.core.prevotes, h))
                 == Voters(VotesFor(core.prevotes, h)) + (if vote.blockHash == h then {vote.validator} else {})
            && Voters(VotesFor(run.core.precommits, h))
                 == Voters(VotesFor(core.precommits, h))
                      + OneIf(run.precommit.Some? && run.precommit.value.blockHash == h, OwnAddress(crypto, key)))
  {
    hide *;
    OwnIs(crypto, key);
    OnPreVoteUnfolds(crypto, key, core, validators, vote);
    AddVoteCounts(core.prevotes, vote, h);
    SignedFor(crypto, key, vote.blockHash, core.height, core.round, PreCommit);
    PreCommitCounts(crypto.hash, core.(prevotes := AddVote(core.prevotes, vote), step := PreCommitting), validators,
      NewSigned(crypto, key, vote.blockHash, core.height, core.round, PreCommit), h);
  }

  /** Everyone who precommitted to a hash since the last certificate, as a run tells it: by the votes
      delivered and the ones the engine cast. */
  ghost function HeardFrom(crypto: Crypto, codec: Codec, key: SecretKey, node: Node, inputs: seq<Input>,
                           h: Hash): set<Address> {
    if inputs == [] then Voters(VotesFor(node.core.precommits, h)) else
      var earlier, input := inputs[..|inputs| - 1], inputs[|inputs| - 1];
      var run := Handle(crypto, codec, key, After(crypto, codec, key, node, earlier), input);
      if run.qc.Some? then {} else
        HeardFrom(crypto, codec, key, node, earlier, h)
          + (if input.PreCommitIn? && input.vote.blockHash == h then {input.vote.validator} else {})
          + OneIf(run.precommit.Some? && run.precommit.value.blockHash == h, OwnAddress(crypto, key))
  }

  /** Over any run, the voters an engine has counted for a hash are just those it heard from. */
  lemma {:induction false} CountedAreHeard(crypto: Crypto, codec: Codec, key: SecretKey, node: Node, inputs: seq<Input>,
      h: Hash)
    ensures Voters(VotesFor(After(crypto, codec, key, node, inputs).core.precommits, h))
         == HeardFrom(crypto, codec, key, node, inputs, h)
  {
    hide *;
    RunUnfolds(crypto, codec, key, node, inputs);
    HeardStep(crypto, codec, key, node, inputs, h);
    if inputs != [] {
      var earlier, input := inputs[..|inputs| - 1], inputs[|inputs| - 1];
      CountedAreHeard(crypto, codec, key, node, earlier, h);
      VotersAfter(crypto, codec, key, After(crypto, codec, key, node, earlier), input, h);
      NobodyCounted(h);
    }
  }

  lemma NobodyCounted(h: Hash)
    ensures Voters(VotesFor(map[], h)) == {}
  {
  }

  lemma HeardStep(crypto: Crypto, codec: Codec, key: SecretKey, node: Node, inputs: seq<Input>, h: Hash)
    ensures inputs == [] ==> HeardFrom(crypto, codec, key, node, inputs, h) == Voters(VotesFor(node.core.precommits, h))
    ensures inputs != [] ==>
      var earlier, input := inputs[..|inputs| - 1], inputs[|inputs| - 1];
      var run := Handle(crypto, codec, key, After(crypto, codec, key, node, earlier), input);
      HeardFrom(crypto, codec, key, node, inputs, h)
        == if run.qc.Some? then {} else
             HeardFrom(crypto, codec, key, node, earlier, h)
               + (if input.PreCommitIn? && input.vote.blockHash == h then {input.vote.validator} else {})
               + OneIf(run.precommit.Some? && run.precommit.value.blockHash == h, OwnAddress(crypto, key))
  {
    hide Handle, After, Voters, VotesFor, OneIf, OwnAddress;
  }

  /** When a run certifies: a delivered precommit forms a certificate exactly when those who precommitted
      to its hash since the last certificate, the engine itself and this voter included, hold more
      than two thirds of the stored power. */
  lemma RunCertifiesIff(crypto: Crypto, codec: Codec, key: SecretKey, data: Store, inputs: seq<Input>, vote: Vote)
    requires codec.RoundTrips() && LatestHeight(data) + 1 + |inputs| < U64_END
    requires TotalPower(ActiveValidators(codec, After(crypto, codec, key, Started(data), inputs).data)) < U64_END
    ensures var node := After(crypto, codec, key, Started(data), inputs);
      var validators := ActiveValidators(codec, node.data);
      var heard := HeardFrom(crypto, codec, key, Started(data), inputs, vote.blockHash) + {vote.validator};
      Handle(crypto, codec, key, node, PreCommitIn(vote)).qc.Some? <==>
        Sum(heard, PowerIn(validators)) * 3 > TotalPower(validators) * 2
  {
    hide *;
    var node := After(crypto, codec, key, Started(data), inputs);
    RunInvariant(crypto, codec, key, data, inputs);
    CountedAreHeard(crypto, codec, key, Started(data), inputs, vote.blockHash);
    ActiveDistinct(codec, node.data);
    HandleParts(crypto, codec, key, node, PreCommitIn(vote));
    CertificateIff(crypto.hash, node.core, ActiveValidators(codec, node.data), vote);
  }

  // ---------------------------------------------------------------------------------------------
  // What is held and committed.

  /** The proposal an engine holds while it handles an input. */
  function Holding(crypto: Crypto, core: Core, input: Input): Option<Block> {
    if input.Proposal? && Acceptable(crypto, core, input.block) then Some(input.block) else core.proposed
  }

  /** What is committed: exactly the held proposal, exactly when the certificate formed is for it. Short
      of a certificate the engine goes on holding it. */
  lemma CommitsHeld(crypto: Crypto, codec: Codec, key: SecretKey, node: Node, input: Input)
    ensures var run, held := Handle(crypto, codec, key, node, input), Holding(crypto, node.core, input);
      && run.commit
           == (if run.qc.Some? && held.Some? && held.value.BlockHash(crypto.hash) == run.qc.value.blockHash
               then held else None)
      && (run.qc.None? && !input.Create? ==> run.core.proposed == held)
  {
    hide *;
    var core, validators := node.core, ActiveValidators(codec, node.data);
    HandleParts(crypto, codec, key, node, input);
    HoldingIs(crypto, core, input);
    match input
    case Create(_, _, _, _) =>
      CreatedCounts(crypto, codec, key, node, input);
    case Proposal(block) =>
      if Acceptable(crypto, core, block) {
        OnProposalUnfolds(crypto, key, core, validators, block);
        PreVoteCommits(crypto, key, core.(proposed := Some(block), step := PreVoting), validators,
          PreVoteFor(crypto, key, core, block));
      }
    case PreVoteIn(vote) =>
      PreVoteCommits(crypto, key, core, validators, vote);
    case PreCommitIn(vote) =>
      OnPreCommitUnfolds(crypto.hash, core, validators, vote);
  }

  lemma HoldingIs(crypto: Crypto, core: Core, input: Input)
    ensures Holding(crypto, core, input)
         == if input.Proposal? && Acceptable(crypto, core, input.block) then Some(input.block) else core.proposed
  {
    hide Acceptable;
  }

  lemma PreVoteCommits(crypto: Crypto, key: SecretKey, core: Core, validators: seq<ValidatorInfo>, vote: Vote)
    ensures var run, held := OnPreVote(crypto, key, core, validators, vote), core.proposed;
      && run.commit
           == (if run.qc.Some? && held.Some? && held.value.BlockHash(crypto.hash) == run.qc.value.blockHash
               then held else None)
      && (run.qc.None? ==> run.core.proposed == held)
  {
    hide *;
    OnPreVoteUnfolds(crypto, key, core, validators, vote);
    OnPreCommitUnfolds(crypto.hash, core.(prevotes := AddVote(core.prevotes, vote), step := PreCommitting), validators,
      NewSigned(crypto, key, vote.blockHash, core.height, core.round, PreCommit));
  }

  /** What is accepted: exactly the blocks of the engine's height and round whose Merkle root is that of
      their transactions and whose transactions are signed by the keys of their senders' addresses. The
      prevote cast is for the block's hash, at that height and round, and signed by the engine. */
  lemma AcceptedIff(crypto: Crypto, key: SecretKey, core: Core, block: Block)
    ensures Acceptable(crypto, core, block) <==>
      && block.header.height == core.height && block.header.round == core.round
      && block.header.merkleRoot == Root(crypto.hash, TxHashes(crypto.hash, block.transactions))
      && forall i :: 0 <= i < |block.transactions| ==>
           var tx := block.transactions[i];
           crypto.AddressOf(tx.pubkey) == tx.sender && crypto.accepts(tx.pubkey, tx.SigningBytes(), tx.signature)
    ensures var vote := PreVoteFor(crypto, key, core, block);
      && vote.blockHash == block.BlockHash(crypto.hash) && vote.height == core.height && vote.round == core.round
      && vote.voteType == PreVote && vote.validator == OwnAddress(crypto, key)
      && (crypto.SignaturesVerify() ==> vote.Verify(crypto) == Pass)
  {
    hide Crypto.AddressOf, Transaction.SigningBytes, Root, TxHashes, Vote.Verify, Block.BlockHash, NewSigned;
  }

  // ---------------------------------------------------------------------------------------------
  // Proposals.

  /** A created block extends the chain. At an engine one above its stored chain, a proposal succeeds
      exactly when the choice by stake falls on the engine; the block then names the latest stored
      block as its parent, passes the checks of every syncer on that chain, and keeps it a chain. */
  lemma CreatedExtendsChain(crypto: Crypto, codec: Codec, key: SecretKey, chainId: Bytes, core: Core, data: Store,
                            stateRoot: Hash, pool: TxPool, now: U64, inputs: set<Preimage>)
    requires codec.RoundTrips() && CollisionFree(crypto.hash, inputs) && crypto.SignaturesVerify()
    requires Admitted(crypto, pool)
    requires Sync.Chain(codec, crypto.hash, data, inputs) && core.height == LatestHeight(data) + 1
    ensures var r := Proposed(crypto, codec, key, chainId, core, data, stateRoot, pool, now);
      var tip := BlockAtHeight(codec, data, LatestHeight(data));
      var chosen := Selected(crypto.hash, core.height, core.round, ActiveValidators(codec, data));
      && tip.Some?
      && (r.Ok? <==> chosen.Some? && chosen.value.address == crypto.AddressOf(crypto.publicKey(key)))
      && (r.Err? ==> r == Err(NotProposer(core.height, core.round)))
      && (r.Ok? ==>
            && r.value.header.prevHash == tip.value.BlockHash(crypto.hash)
            && Sync.CheckNext(crypto, codec, data, LatestHeight(data), r.value).Pass?
            && (HeaderInput(r.value.header) in inputs ==>
                  Sync.Chain(codec, crypto.hash, CommitNext(crypto, codec, data, r.value), inputs)))
  {
    hide *;
    var latest := LatestHeight(data);
    var r := Proposed(crypto, codec, key, chainId, core, data, stateRoot, pool, now);
    Sync.ChainParts(codec, crypto.hash, data, inputs);
    Sync.HeldBlock(codec, crypto.hash, data, inputs, latest);
    PreviousIs(latest);
    ProposedUnfolds(crypto, codec, key, chainId, core, data, stateRoot, pool, now);
    CreatedIsAcceptable(crypto, codec, key, chainId, core, data, stateRoot, pool, now, core);
    if r.Ok? {
      OnProposalUnfolds(crypto, key, core, ActiveValidators(codec, data), r.value);
      Sync.CheckIs(crypto, codec, data, latest, r.value);
      if HeaderInput(r.value.header) in inputs {
        Sync.NextExtends(crypto, codec, data, r.value, inputs);
      }
    }
  }

  lemma PreviousIs(latest: U64)
    requires latest + 1 < U64_END
    ensures PreviousHeight(latest + 1) == latest
  {
  }

  /** What a created block carries besides: the engine's height, round and last certificate, the chain id,
      state root and time given, its proposer, the digest of the stored validators, and the harvest of
      at most a mebibyte. */
  lemma CreatedCarries(crypto: Crypto, codec: Codec, key: SecretKey, chainId: Bytes, core: Core, data: Store,
                       stateRoot: Hash, pool: TxPool, now: U64)
    ensures var r := Proposed(crypto, codec, key, chainId, core, data, stateRoot, pool, now);
      r.Ok? ==>
        var header := r.value.header;
        && header.version == 1 && header.chainId == chainId && header.height == core.height
        && header.round == core.round
        && header.stateRoot == stateRoot && header.timestamp == now
        && header.proposer == crypto.AddressOf(crypto.publicKey(key))
        && header.validatorSetHash == crypto.hash(RawDomain, InfoBytes(ActiveValidators(codec, data)))
        && r.value.lastCommitQc == core.lastQc && r.value.transactions == Harvested(pool, 1048576)
  {
    ProposedUnfolds(crypto, codec, key, chainId, core, data, stateRoot, pool, now);
    hide Proposed, Selected, ActiveValidators, BlockAtHeight, PreviousHeight, InfoBytes, Harvested;
    hide Block.ComputeMerkleRoot, Block.BlockHash, BlockHeader.SigningBytes, Crypto.AddressOf;
  }

  /** The digest in a header names the validator set, each address, key, stake and their order. */
  lemma ValidatorSetBound(hash: Hasher, a: seq<ValidatorInfo>, b: seq<ValidatorInfo>, inputs: set<Preimage>)
    requires CollisionFree(hash, inputs)
    requires Preimage(RawDomain, InfoBytes(a)) in inputs && Preimage(RawDomain, InfoBytes(b)) in inputs
    ensures hash(RawDomain, InfoBytes(a)) == hash(RawDomain, InfoBytes(b)) <==> a == b
  {
    hide InfoBytes;
    if hash(RawDomain, InfoBytes(a)) == hash(RawDomain, InfoBytes(b)) {
      SameDigestSameInput(hash, Preimage(RawDomain, InfoBytes(a)), Preimage(RawDomain, InfoBytes(b)), inputs);
      InfoBytesInjective(a, b);
    }
  }
}
