/** One engine over whole runs: what its ballots, certificates and heights always satisfy. */
module EngineRuns {
  import opened Bytes
  import opened Crypto
  import opened Sums
  import opened Kv
  import opened Transactions
  import opened Votes
  import opened Blocks
  import opened ChainStore
  import Sync
  import opened Proposer
  import opened Quorums
  import opened EngineSpec
  import opened Engine
  import opened Validation
  import opened Pool
  import opened Harvest
  import opened PoolTheorems

  /** An engine and the store it alone writes. */
  datatype Node = Node(core: Core, data: Store)

  /** A call of a public handler. Votes are taken as they come: no handler checks them. */
  datatype Input =
    | Create(chainId: Bytes, stateRoot: Hash, pool: TxPool, now: U64)
    | Proposal(block: Block)
    | PreVoteIn(vote: Vote)
    | PreCommitIn(vote: Vote)

  function Idle(core: Core): Handled {
    Handled(core, None, None, None)
  }

  ghost function Handle(crypto: Crypto, codec: Codec, key: SecretKey, node: Node, input: Input): Handled {
    var validators := ActiveValidators(codec, node.data);
    match input
    case Create(chainId, stateRoot, pool, now) =>
      (match Proposed(crypto, codec, key, chainId, node.core, node.data, stateRoot, pool, now)
       case Ok(block) => Idle(node.core.(proposed := Some(block), step := Propose))
       case Err(_) => Idle(node.core))
    case Proposal(block) =>
      if Acceptable(crypto, node.core, block) then OnProposal(crypto, key, node.core, validators, block)
        else Idle(node.core)
    case PreVoteIn(vote) => OnPreVote(crypto, key, node.core, validators, vote)
    case PreCommitIn(vote) => OnPreCommit(crypto.hash, node.core, validators, vote)
  }

  ghost function Next(crypto: Crypto, codec: Codec, key: SecretKey, node: Node, input: Input): Node {
    var run := Handle(crypto, codec, key, node, input);
    Node(run.core, Settled(crypto, codec, node.data, run.commit))
  }

  /** What each input is handled by. */
  lemma HandleParts(crypto: Crypto, codec: Codec, key: SecretKey, node: Node, input: Input)
    ensures var run := Handle(crypto, codec, key, node, input);
      var validators := ActiveValidators(codec, node.data);
      match input
      case Create(_, _, _, _) => true
      case Proposal(block) =>
        run == if Acceptable(crypto, node.core, block) then OnProposal(crypto, key, node.core, validators, block)
               else Handled(node.core, None, None, None)
      case PreVoteIn(vote) => run == OnPreVote(crypto, key, node.core, validators, vote)
      case PreCommitIn(vote) => run == OnPreCommit(crypto.hash, node.core, validators, vote)
  {
    hide ActiveValidators, Acceptable, OnProposal, OnPreVote, OnPreCommit, Proposed;
  }

  lemma NoPreCommitCast(hash: Hasher, core: Core, validators: seq<ValidatorInfo>, vote: Vote)
    ensures OnPreCommit(hash, core, validators, vote).precommit.None?
  {
  }

  lemma CreatedCore(crypto: Crypto, codec: Codec, key: SecretKey, node: Node, input: Input)
    requires input.Create?
    ensures var run := Handle(crypto, codec, key, node, input);
      && run.qc.None? && run.precommit.None?
      && run.core.height == node.core.height
      && run.core.prevotes == node.core.prevotes && run.core.precommits == node.core.precommits
      && (run.core.step == node.core.step || run.core.step.Propose?)
  {
    hide Proposed, ActiveValidators;
  }

  // ---------------------------------------------------------------------------------------------
  // The invariant.

  /** Each list holds votes for its own hash, one per validator. */
  ghost predicate OrderlyBallots(ballots: Ballots) {
    forall h :: h in ballots ==> OrderlyVotes(ballots[h], h)
  }

  ghost predicate OrderlyVotes(votes: seq<Vote>, h: Hash) {
    DistinctVoters(votes) && forall i :: 0 <= i < |votes| ==> votes[i].blockHash == h
  }

  /** A certificate is a quorum of orderly votes, and its counted power is real power. */
  ghost predicate SoundCertificate(qc: QuorumCertificate, validators: seq<ValidatorInfo>) {
    && qc.IsValidQuorum() && OrderlyVotes(qc.votes, qc.blockHash)
    && qc.totalVotingPower == PowerSum(validators) && qc.signersVotingPower == VotePower(qc.votes, validators)
    && (TotalPower(validators) < U64_END ==>
         CountedPower(qc.votes, validators) == qc.signersVotingPower <= qc.totalVotingPower == TotalPower(validators))
  }

  ghost predicate Sound(core: Core) {
    && OrderlyBallots(core.prevotes) && OrderlyBallots(core.precommits)
    && core.round == 0 && !core.step.Committing?
    && (core.proposed.Some? ==>
          core.proposed.value.header.height == core.height && core.proposed.value.header.round == core.round)
    && (core.lastQc.Some? ==> core.lastQc.value.IsValidQuorum())
  }

  /** What one handler call does to the height: up by one with a certificate of the old height, and
      only then; and only a certified held proposal is committed. */
  ghost predicate Steady(hash: Hasher, before: Core, run: Handled, validators: seq<ValidatorInfo>) {
    && (run.qc.None? ==> run.core.height == before.height && run.commit.None?)
    && (run.qc.Some? ==>
          && run.core.height == NextHeight(before.height) && run.core.lastQc == run.qc
          && run.core.prevotes == map[] && run.core.precommits == map[] && run.core.proposed == None
          && run.core.step == NewRound && run.core.round == 0
          && run.qc.value.height == before.height && run.qc.value.round == before.round
          && SoundCertificate(run.qc.value, validators))
    && (run.commit.Some? ==>
          && run.commit.value.header.height == before.height
          && run.commit.value.BlockHash(hash) == run.qc.value.blockHash)
  }

  lemma AddVoteOrderly(ballots: Ballots, vote: Vote)
    requires OrderlyBallots(ballots)
    ensures OrderlyBallots(AddVote(ballots, vote))
    ensures OrderlyVotes(VotesFor(AddVote(ballots, vote), vote.blockHash), vote.blockHash)
  {
    var votes := VotesFor(ballots, vote.blockHash);
    assert OrderlyVotes(votes, vote.blockHash);
    assert OrderlyVotes(if HasVoted(votes, vote.validator) then votes else votes + [vote], vote.blockHash);
  }

  lemma CertificateSound(core: Core, validators: seq<ValidatorInfo>, votes: seq<Vote>, h: Hash)
    requires OrderlyVotes(votes, h) && DistinctValidators(validators)
    requires IsQuorum(PowerSum(validators), VotePower(votes, validators))
    ensures SoundCertificate(QuorumCertificate(h, core.height, core.round, votes, PowerSum(validators),
      VotePower(votes, validators)), validators)
  {
    if TotalPower(validators) < U64_END {
      QuorumMeansTwoThirds(votes, validators);
      CountedBounded(votes, validators);
    }
    hide DistinctVoters, DistinctValidators, PowerSum, VotePower, TotalPower, CountedPower;
  }

  lemma PreCommitSound(hash: Hasher, core: Core, validators: seq<ValidatorInfo>, vote: Vote)
    requires Sound(core) && DistinctValidators(validators)
    ensures var run := OnPreCommit(hash, core, validators, vote); Sound(run.core) && Steady(hash, core, run, validators)
  {
    hide *;
    var counted := AddVote(core.precommits, vote);
    var votes := VotesFor(counted, vote.blockHash);
    SoundParts(core);
    OnPreCommitUnfolds(hash, core, validators, vote);
    AddVoteOrderly(core.precommits, vote);
    if IsQuorum(PowerSum(validators), VotePower(votes, validators)) {
      CertificateSound(core, validators, votes, vote.blockHash);
      CommittedSound(hash, core, validators, OnPreCommit(hash, core, validators, vote));
    } else {
      QuietSound(hash, core, validators, counted);
    }
  }

  lemma SoundParts(core: Core)
    requires Sound(core)
    ensures OrderlyBallots(core.prevotes) && OrderlyBallots(core.precommits) && !core.step.Committing?
  {
    hide OrderlyBallots;
  }

  lemma CommittedSound(hash: Hasher, core: Core, validators: seq<ValidatorInfo>, run: Handled)
    requires Sound(core) && run.qc.Some? && SoundCertificate(run.qc.value, validators)
    requires run.qc.value.height == core.height && run.qc.value.round == core.round
    requires run.core == Core(NextHeight(core.height), 0, NewRound, None, map[], map[], run.qc)
    requires run.commit == if core.proposed.Some?
      && core.proposed.value.BlockHash(hash) == run.qc.value.blockHash then core.proposed else None
    ensures Sound(run.core) && Steady(hash, core, run, validators)
  {
    hide OrderlyVotes, NextHeight, Block.BlockHash, PowerSum, VotePower, TotalPower, CountedPower;
  }

  lemma QuietSound(hash: Hasher, core: Core, validators: seq<ValidatorInfo>, precommits: Ballots)
    requires Sound(core) && OrderlyBallots(precommits)
    ensures var run := Handled(core.(precommits := precommits), None, None, None);
      Sound(run.core) && Steady(hash, core, run, validators)
  {
    hide OrderlyBallots, SoundCertificate, NextHeight;
  }

  lemma PreVoteSound(crypto: Crypto, key: SecretKey, core: Core, validators: seq<ValidatorInfo>, vote: Vote)
    requires Sound(core) && DistinctValidators(validators)
    ensures var run := OnPreVote(crypto, key, core, validators, vote);
      Sound(run.core) && Steady(crypto.hash, core, run, validators)
  {
    hide *;
    var prevotes := AddVote(core.prevotes, vote);
    var run := OnPreVote(crypto, key, core, validators, vote);
    SoundParts(core);
    AddVoteOrderly(core.prevotes, vote);
    OnPreVoteUnfolds(crypto, key, core, validators, vote);
    PreVotedSound(core, prevotes);
    if run.precommit.Some? {
      var precommit := NewSigned(crypto, key, vote.blockHash, core.height, core.round, PreCommit);
      var counted := core.(prevotes := prevotes, step := PreCommitting);
      PreCommitSound(crypto.hash, counted, validators, precommit);
      SteadyFrom(crypto.hash, counted, core, OnPreCommit(crypto.hash, counted, validators, precommit), run, validators);
    } else {
      QuietSteady(crypto.hash, core, core.(prevotes := prevotes), validators);
    }
  }

  lemma PreVotedSound(core: Core, prevotes: Ballots)
    requires Sound(core) && OrderlyBallots(prevotes)
    ensures Sound(core.(prevotes := prevotes)) && Sound(core.(prevotes := prevotes, step := PreCommitting))
  {
    hide OrderlyBallots;
  }

  /** A handler that calls another is as steady as the one it calls. */
  lemma SteadyFrom(hash: Hasher, inner: Core, outer: Core, called: Handled, run: Handled,
                   validators: seq<ValidatorInfo>)
    requires Steady(hash, inner, called, validators) && inner.height == outer.height && inner.round == outer.round
    requires run == called.(precommit := run.precommit)
    ensures Steady(hash, outer, run, validators)
  {
    hide SoundCertificate, NextHeight, Block.BlockHash;
  }

  lemma QuietSteady(hash: Hasher, before: Core, after: Core, validators: seq<ValidatorInfo>)
    requires before.height == after.height
    ensures Steady(hash, before, Handled(after, None, None, None), validators)
  {
    hide SoundCertificate, NextHeight;
  }

  lemma ProposalSound(crypto: Crypto, key: SecretKey, core: Core, validators: seq<ValidatorInfo>, block: Block)
    requires Sound(core) && DistinctValidators(validators) && Acceptable(crypto, core, block)
    ensures var run := OnProposal(crypto, key, core, validators, block);
      Sound(run.core) && Steady(crypto.hash, core, run, validators)
  {
    hide OnPreVote, OrderlyBallots, SoundCertificate, NextHeight, PreVoteFor, DistinctValidators, Block.ValidateBasic;
    PreVoteSound(crypto, key, core.(proposed := Some(block), step := PreVoting), validators,
      PreVoteFor(crypto, key, core, block));
  }

  /** Whatever comes in, a handler keeps the engine sound, and moves the height by one exactly when
      it forms a certificate, which is then a valid quorum. */
  lemma HandleSound(crypto: Crypto, codec: Codec, key: SecretKey, node: Node, input: Input)
    requires Sound(node.core)
    ensures var run := Handle(crypto, codec, key, node, input);
      Sound(run.core) && Steady(crypto.hash, node.core, run, ActiveValidators(codec, node.data))
  {
    var validators := ActiveValidators(codec, node.data);
    ActiveDistinct(codec, node.data);
    hide ActiveValidators, OrderlyBallots, SoundCertificate, NextHeight, OnPreVote, OnPreCommit, OnProposal, Acceptable;
    match input
    case Create(chainId, stateRoot, pool, now) =>
      ProposedAtHeight(crypto, codec, key, chainId, node.core, node.data, stateRoot, pool, now);
      hide Proposed;
    case Proposal(block) =>
      hide Proposed;
      if Acceptable(crypto, node.core, block) {
        ProposalSound(crypto, key, node.core, validators, block);
      }
    case PreVoteIn(vote) =>
      hide Proposed;
      PreVoteSound(crypto, key, node.core, validators, vote);
    case PreCommitIn(vote) =>
      hide Proposed;
      PreCommitSound(crypto.hash, node.core, validators, vote);
  }

  lemma ProposedAtHeight(crypto: Crypto, codec: Codec, key: SecretKey, chainId: Bytes, core: Core, data: Store,
                         stateRoot: Hash, pool: TxPool, now: U64)
    ensures var r := Proposed(crypto, codec, key, chainId, core, data, stateRoot, pool, now);
      r.Ok? ==> r.value.header.height == core.height && r.value.header.round == core.round
  {
    hide Selected, ActiveValidators, BlockAtHeight, InfoBytes, Harvested, Block.ComputeMerkleRoot, Block.BlockHash;
    hide BlockHeader.SigningBytes, Crypto.AddressOf;
  }

  // ---------------------------------------------------------------------------------------------
  // When certificates form.

  /** A vote adds its validator to those counted for its hash, and touches no other list. */
  lemma AddVoteCounts(ballots: Ballots, vote: Vote, h: Hash)
    ensures Voters(VotesFor(AddVote(ballots, vote), h))
         == Voters(VotesFor(ballots, h)) + (if h == vote.blockHash then {vote.validator} else {})
  {
    var votes := VotesFor(ballots, vote.blockHash);
    if h == vote.blockHash {
      if HasVoted(votes, vote.validator) {
        assert vote.validator in Voters(votes);
      } else {
        assert (votes + [vote])[..|votes|] == votes;
      }
    }
  }

  /** A certificate forms exactly when those who have precommitted to the hash, this vote included,
      hold more than two thirds of all power. */
  lemma CertificateIff(hash: Hasher, core: Core, validators: seq<ValidatorInfo>, vote: Vote)
    requires Sound(core) && DistinctValidators(validators) && TotalPower(validators) < U64_END
    ensures OnPreCommit(hash, core, validators, vote).qc.Some?
       <==> Sum(Voters(VotesFor(core.precommits, vote.blockHash))
           + {vote.validator}, PowerIn(validators)) * 3 > TotalPower(validators) * 2
  {
    hide *;
    var votes := VotesFor(AddVote(core.precommits, vote), vote.blockHash);
    SoundParts(core);
    AddVoteOrderly(core.precommits, vote);
    AddVoteCounts(core.precommits, vote, vote.blockHash);
    OrderlyDistinct(votes, vote.blockHash);
    OnPreCommitUnfolds(hash, core, validators, vote);
    QuorumMeansTwoThirds(votes, validators);
    CountedIsSum(votes, validators);
  }

  /** And a precommit is cast exactly when the engine waits for prevotes and those who have prevoted
      for the hash hold more than two thirds; it is for that hash, at the engine's height and round, and
      signed by the engine. */
  lemma PreCommitIff(crypto: Crypto, key: SecretKey, core: Core, validators: seq<ValidatorInfo>, vote: Vote)
    requires Sound(core) && DistinctValidators(validators) && TotalPower(validators) < U64_END
    ensures var cast := OnPreVote(crypto, key, core, validators, vote).precommit;
      && (cast.Some? <==>
            && core.step.PreVoting?
            && Sum(Voters(VotesFor(core.prevotes, vote.blockHash)) + {vote.validator}, PowerIn(validators)) * 3
                 > TotalPower(validators) * 2)
      && (cast.Some? ==>
            && cast.value.blockHash == vote.blockHash && cast.value.height == core.height
            && cast.value.round == core.round && cast.value.voteType == PreCommit
            && cast.value.validator == crypto.AddressOf(crypto.publicKey(key))
            && (crypto.SignaturesVerify() ==> cast.value.Verify(crypto) == Pass))
  {
    hide *;
    var votes := VotesFor(AddVote(core.prevotes, vote), vote.blockHash);
    SoundParts(core);
    AddVoteOrderly(core.prevotes, vote);
    AddVoteCounts(core.prevotes, vote, vote.blockHash);
    OrderlyDistinct(votes, vote.blockHash);
    OnPreVoteUnfolds(crypto, key, core, validators, vote);
    QuorumMeansTwoThirds(votes, validators);
    CountedIsSum(votes, validators);
  }

  /** An engine with more than two thirds of the power decides alone: handling an acceptable
      proposal certifies it and has it committed in the same call. */
  lemma LoneMajorityCommits(crypto: Crypto, key: SecretKey, core: Core, validators: seq<ValidatorInfo>, block: Block)
    requires Sound(core) && DistinctValidators(validators) && TotalPower(validators) < U64_END
    requires Acceptable(crypto, core, block)
    requires PowerOf(validators, crypto.AddressOf(crypto.publicKey(key))) * 3 > TotalPower(validators) * 2
    ensures var run := OnProposal(crypto, key, core, validators, block);
      run.qc.Some? && run.qc.value.blockHash == block.BlockHash(crypto.hash) && run.commit == Some(block)
  {
    hide *;
    var own := crypto.AddressOf(crypto.publicKey(key));
    var prevote := PreVoteFor(crypto, key, core, block);
    var proposed := core.(proposed := Some(block), step := PreVoting);
    OnProposalUnfolds(crypto, key, core, validators, block);
    SignedFor(crypto, key, block.BlockHash(crypto.hash), core.height, core.round, PreVote);
    SoundWithProposal(core, block);
    OwnPowerCounts(validators, Voters(VotesFor(proposed.prevotes, prevote.blockHash)), own);
    PreCommitIff(crypto, key, proposed, validators, prevote);
    OnPreVoteUnfolds(crypto, key, proposed, validators, prevote);
    var counted := proposed.(prevotes := AddVote(proposed.prevotes, prevote), step := PreCommitting);
    var precommit := NewSigned(crypto, key, prevote.blockHash, core.height, core.round, PreCommit);
    SignedFor(crypto, key, prevote.blockHash, core.height, core.round, PreCommit);
    SoundParts(proposed);
    AddVoteOrderly(proposed.prevotes, prevote);
    PreVotedSound(proposed, counted.prevotes);
    OwnPowerCounts(validators, Voters(VotesFor(counted.precommits, prevote.blockHash)), own);
    CertificateIff(crypto.hash, counted, validators, precommit);
    OnPreCommitUnfolds(crypto.hash, counted, validators, precommit);
  }

  /** The engine holds more than two thirds of the stored stake. */
  ghost predicate CanDecide(crypto: Crypto, codec: Codec, key: SecretKey, data: Store) {
    var validators := ActiveValidators(codec, data);
    && TotalPower(validators) < U64_END
    && PowerOf(validators, crypto.AddressOf(crypto.publicKey(key))) * 3 > TotalPower(validators) * 2
  }

  /** The same of the handler on a store. */
  lemma DecidesAlone(crypto: Crypto, codec: Codec, key: SecretKey, node: Node, block: Block)
    requires Sound(node.core) && Acceptable(crypto, node.core, block) && CanDecide(crypto, codec, key, node.data)
    ensures var run := Handle(crypto, codec, key, node, Proposal(block));
      run.qc.Some? && run.qc.value.blockHash == block.BlockHash(crypto.hash) && run.commit == Some(block)
  {
    hide *;
    var validators := ActiveValidators(codec, node.data);
    ActiveDistinct(codec, node.data);
    DecidingIs(crypto, codec, key, node.data);
    LoneMajorityCommits(crypto, key, node.core, validators, block);
    HandlingIs(crypto, codec, key, node, block);
  }

  lemma DecidingIs(crypto: Crypto, codec: Codec, key: SecretKey, data: Store)
    requires CanDecide(crypto, codec, key, data)
    ensures var validators := ActiveValidators(codec, data);
      && TotalPower(validators) < U64_END
      && PowerOf(validators, crypto.AddressOf(crypto.publicKey(key))) * 3 > TotalPower(validators) * 2
  {
    hide ActiveValidators, TotalPower, PowerOf, Crypto.AddressOf;
  }

  lemma HandlingIs(crypto: Crypto, codec: Codec, key: SecretKey, node: Node, block: Block)
    requires Acceptable(crypto, node.core, block)
    ensures Handle(crypto, codec, key, node, Proposal(block))
         == OnProposal(crypto, key, node.core, ActiveValidators(codec, node.data), block)
  {
    hide ActiveValidators, OnProposal, Acceptable;
  }

  lemma SignedFor(crypto: Crypto, key: SecretKey, h: Hash, height: U64, round: U32, voteType: VoteType)
    ensures var vote := NewSigned(crypto, key, h, height, round, voteType);
      vote.blockHash == h && vote.validator == crypto.AddressOf(crypto.publicKey(key))
  {
    hide NewSigned;
  }

  lemma SoundWithProposal(core: Core, block: Block)
    requires Sound(core) && block.header.height == core.height && block.header.round == core.round
    ensures Sound(core.(proposed := Some(block), step := PreVoting))
  {
    hide OrderlyBallots;
  }

  lemma OwnPowerCounts(validators: seq<ValidatorInfo>, voters: set<Address>, own: Address)
    ensures Sum(voters + {own}, PowerIn(validators)) >= PowerOf(validators, own)
  {
    hide PowerOf;
    SumRemove(voters + {own}, PowerIn(validators), own);
    SumNonNegative(voters + {own} - {own}, PowerIn(validators));
  }

  lemma OrderlyDistinct(votes: seq<Vote>, h: Hash)
    requires OrderlyVotes(votes, h)
    ensures DistinctVoters(votes)
  {
    hide DistinctVoters;
  }

  // ---------------------------------------------------------------------------------------------
  // Runs.

  ghost function After(crypto: Crypto, codec: Codec, key: SecretKey, node: Node, inputs: seq<Input>): Node {
    if inputs == [] then node
    else Next(crypto, codec, key, After(crypto, codec, key, node, inputs[..|inputs| - 1]), inputs[|inputs| - 1])
  }

  /** How many certificates a run formed. */
  ghost function Certificates(crypto: Crypto, codec: Codec, key: SecretKey, node: Node, inputs: seq<Input>): nat {
    if inputs == [] then 0 else
      var before := After(crypto, codec, key, node, inputs[..|inputs| - 1]);
      Certificates(crypto, codec, key, node, inputs[..|inputs| - 1])
        + (if Handle(crypto, codec, key, before, inputs[|inputs| - 1]).qc.Some? then 1 else 0)
  }

  /** Every certificate of the run was for the proposal then held. */
  ghost predicate AlwaysHeld(crypto: Crypto, codec: Codec, key: SecretKey, node: Node, inputs: seq<Input>) {
    inputs == [] ||
    (&& AlwaysHeld(crypto, codec, key, node, inputs[..|inputs| - 1])
     && var run := Handle(crypto, codec, key, After(crypto, codec, key, node, inputs[..|inputs| - 1]),
         inputs[|inputs| - 1]);
        run.qc.Some? ==> run.commit.Some?)
  }

  /** The last certificate of the run, if it formed one, was for the proposal then held. */
  ghost predicate LastHeld(crypto: Crypto, codec: Codec, key: SecretKey, node: Node, inputs: seq<Input>) {
    inputs == [] ||
    var run :=
      Handle(crypto, codec, key, After(crypto, codec, key, node, inputs[..|inputs| - 1]), inputs[|inputs| - 1]);
    if run.qc.Some? then run.commit.Some? else LastHeld(crypto, codec, key, node, inputs[..|inputs| - 1])
  }

  lemma {:induction false} AlwaysHeldIsLast(crypto: Crypto, codec: Codec, key: SecretKey, node: Node,
      inputs: seq<Input>)
    requires AlwaysHeld(crypto, codec, key, node, inputs)
    ensures LastHeld(crypto, codec, key, node, inputs)
  {
    hide Handle, After;
    if inputs != [] {
      AlwaysHeldIsLast(crypto, codec, key, node, inputs[..|inputs| - 1]);
    }
  }

  /** The engine as `new` starts it on a store. */
  function Started(data: Store): Node {
    Node(Core(NextHeight(LatestHeight(data)), 0, NewRound, None, map[], map[], None), data)
  }

  lemma SettledHeight(crypto: Crypto, codec: Codec, data: Store, commit: Option<Block>)
    requires codec.RoundTrips()
    ensures LatestHeight(Settled(crypto, codec, data, commit))
         == if commit.Some? then commit.value.header.height else LatestHeight(data)
  {
    if commit.Some? {
      var block := commit.value;
      PutBlockReads(codec, crypto.hash, PutAccounts(codec, data, CommitOverlay(codec, data, block)), block);
      hide PutBlock, PutAccounts, LatestHeight, AccountsOf;
    }
  }

  /** The run invariant. Over any inputs the engine stays sound; its height is the start plus the
      certificates formed, always above the stored height, and exactly one above if and only if the
      last certificate formed, if any, was for the held proposal; so in particular while all were. */
  lemma {:induction false} RunInvariant(crypto: Crypto, codec: Codec, key: SecretKey, data: Store, inputs: seq<Input>)
    requires codec.RoundTrips() && LatestHeight(data) + 1 + |inputs| < U64_END
    ensures var node := After(crypto, codec, key, Started(data), inputs);
      && Sound(node.core)
      && node.core.height == LatestHeight(data) + 1 + Certificates(crypto, codec, key, Started(data), inputs)
      && Certificates(crypto, codec, key, Started(data), inputs) <= |inputs|
      && LatestHeight(node.data) < node.core.height
      && (node.core.height == LatestHeight(node.data) + 1 <==> LastHeld(crypto, codec, key, Started(data), inputs))
      && (AlwaysHeld(crypto, codec, key, Started(data), inputs) ==> node.core.height == LatestHeight(node.data) + 1)
    decreases |inputs|
  {
    hide *;
    StartedSound(data);
    RunUnfolds(crypto, codec, key, Started(data), inputs);
    if AlwaysHeld(crypto, codec, key, Started(data), inputs) {
      AlwaysHeldIsLast(crypto, codec, key, Started(data), inputs);
    }
    if inputs != [] {
      var before := After(crypto, codec, key, Started(data), inputs[..|inputs| - 1]);
      var run := Handle(crypto, codec, key, before, inputs[|inputs| - 1]);
      RunInvariant(crypto, codec, key, data, inputs[..|inputs| - 1]);
      HandleSound(crypto, codec, key, before, inputs[|inputs| - 1]);
      SteadyParts(crypto.hash, before.core, run, ActiveValidators(codec, before.data));
      SettledHeight(crypto, codec, before.data, run.commit);
      NextHeightSmall(before.core.height, LatestHeight(data) + 1 + |inputs|);
    }
  }

  lemma NextHeightSmall(height: U64, bound: int)
    requires height < bound < U64_END
    ensures NextHeight(height) == height + 1
  {
  }

  lemma StartedSound(data: Store)
    ensures Sound(Started(data).core) && Started(data).data == data
    ensures LatestHeight(data) + 1 < U64_END ==> Started(data).core.height == LatestHeight(data) + 1
  {
    hide LatestHeight;
  }

  lemma SteadyParts(hash: Hasher, before: Core, run: Handled, validators: seq<ValidatorInfo>)
    requires Steady(hash, before, run, validators)
    ensures run.qc.None? ==> run.core.height == before.height && run.commit.None?
    ensures run.qc.Some? ==> run.core.height == NextHeight(before.height)
    ensures run.commit.Some? ==> run.commit.value.header.height == before.height
  {
    hide SoundCertificate, NextHeight, Block.BlockHash;
  }

  lemma RunUnfolds(crypto: Crypto, codec: Codec, key: SecretKey, node: Node, inputs: seq<Input>)
    ensures inputs == [] ==>
      && After(crypto, codec, key, node, inputs) == node && Certificates(crypto, codec, key, node, inputs) == 0
      && LastHeld(crypto, codec, key, node, inputs)
    ensures inputs != [] ==>
      var earlier := inputs[..|inputs| - 1];
      var before := After(crypto, codec, key, node, earlier);
      var run := Handle(crypto, codec, key, before, inputs[|inputs| - 1]);
      && After(crypto, codec, key, node, inputs) == Node(run.core, Settled(crypto, codec, before.data, run.commit))
      && Certificates(crypto, codec, key, node, inputs)
          == Certificates(crypto, codec, key, node, earlier) + (if run.qc.Some? then 1 else 0)
      && (LastHeld(crypto, codec, key, node, inputs)
          <==> if run.qc.Some? then run.commit.Some? else LastHeld(crypto, codec, key, node, earlier))
  {
    hide Handle, Settled;
  }

  // ---------------------------------------------------------------------------------------------
  // The engine and the chain.

  /** `handle_proposal` does not look at the parent. */
  lemma AcceptableIgnoresParent(crypto: Crypto, core: Core, block: Block, parent: Hash)
    ensures Acceptable(crypto, core, block)
       <==> Acceptable(crypto, core, block.(header := block.header.(prevHash := parent)))
  {
    hide Merkle.Root, VerifyAll;
  }

  /** So an engine that is one above a chain keeps it a chain with its commit if and only if the block
      it commits links to the latest one, which nothing it checks decides. */
  lemma CommitKeepsChainIff(crypto: Crypto, codec: Codec, key: SecretKey, node: Node, input: Input,
                            inputs: set<Preimage>)
    requires codec.RoundTrips() && CollisionFree(crypto.hash, inputs)
    requires Sound(node.core) && Sync.Chain(codec, crypto.hash, node.data, inputs)
    requires node.core.height == LatestHeight(node.data) + 1
    requires var commit := Handle(crypto, codec, key, node, input).commit;
      commit.Some? && HeaderInput(commit.value.header) in inputs
    ensures BlockAtHeight(codec, node.data, LatestHeight(node.data)).Some?
    ensures Sync.Chain(codec, crypto.hash, Next(crypto, codec, key, node, input).data, inputs)
       <==> Handle(crypto, codec, key, node, input).commit.value.header.prevHash
              == BlockAtHeight(codec, node.data, LatestHeight(node.data)).value.BlockHash(crypto.hash)
  {
    hide *;
    var run := Handle(crypto, codec, key, node, input);
    HandleSound(crypto, codec, key, node, input);
    SteadyParts(crypto.hash, node.core, run, ActiveValidators(codec, node.data));
    NextStore(crypto, codec, key, node, input);
    Sync.CommitChainsIff(codec, crypto.hash, node.data, run.commit.value,
      CommitOverlay(codec, node.data, run.commit.value), inputs);
  }

  /** The other side, at an engine that decides alone: whatever parent it is made to name, a block it
      accepts is committed, and if that is not the latest block's hash, the stored chain is broken. */
  lemma UnlinkedBlockCommitted(crypto: Crypto, codec: Codec, key: SecretKey, node: Node, block: Block, parent: Hash,
                               inputs: set<Preimage>)
    requires codec.RoundTrips() && CollisionFree(crypto.hash, inputs)
    requires Sound(node.core) && Sync.Chain(codec, crypto.hash, node.data, inputs)
    requires node.core.height == LatestHeight(node.data) + 1
    requires Acceptable(crypto, node.core, block) && CanDecide(crypto, codec, key, node.data)
    requires HeaderInput(block.header.(prevHash := parent)) in inputs
    ensures var unlinked := block.(header := block.header.(prevHash := parent));
      && Handle(crypto, codec, key, node, Proposal(unlinked)).commit == Some(unlinked)
      && BlockAtHeight(codec, node.data, LatestHeight(node.data)).Some?
      && (parent != BlockAtHeight(codec, node.data, LatestHeight(node.data)).value.BlockHash(crypto.hash) ==>
            !Sync.Chain(codec, crypto.hash, Next(crypto, codec, key, node, Proposal(unlinked)).data, inputs))
  {
    hide *;
    var unlinked := block.(header := block.header.(prevHash := parent));
    AcceptableIgnoresParent(crypto, node.core, block, parent);
    DecidesAlone(crypto, codec, key, node, unlinked);
    CommitKeepsChainIff(crypto, codec, key, node, Proposal(unlinked), inputs);
  }

  ghost function CommitOverlay(codec: Codec, data: Store, block: Block): Ledger.Accounts {
    Ledger.OverlayAll(AccountsOf(codec, data), map[], block.transactions)
  }

  lemma NextStore(crypto: Crypto, codec: Codec, key: SecretKey, node: Node, input: Input)
    ensures var commit := Handle(crypto, codec, key, node, input).commit;
      commit.Some? ==>
        Next(crypto, codec, key, node, input).data
          == Committed(codec, crypto.hash, node.data, commit.value, CommitOverlay(codec, node.data, commit.value))
  {
    hide Handle, Committed, AccountsOf;
  }

  // ---------------------------------------------------------------------------------------------
  // Proposals.

  lemma {:induction false} GreedyFromPool(pool: TxPool, hashes: seq<Hash>, space: nat, i: nat)
    requires i < |Greedy(pool, hashes, space)|
    ensures exists h :: h in pool && pool[h] == Greedy(pool, hashes, space)[i]
  {
    hide Transaction.SizeBytes;
    if hashes != [] {
      if hashes[0] !in pool {
        GreedyFromPool(pool, hashes[1..], space, i);
      } else if pool[hashes[0]].SizeBytes() > space {
        GreedyFromPool(pool, hashes[1..], space, i);
      } else if i > 0 {
        GreedyFromPool(pool, hashes[1..], space - pool[hashes[0]].SizeBytes(), i - 1);
      }
    }
  }

  lemma HarvestVerifies(crypto: Crypto, pool: TxPool, maxBytes: nat)
    requires Admitted(crypto, pool)
    ensures VerifyAll(crypto, Harvested(pool, maxBytes)).Pass?
  {
    var txs := Harvested(pool, maxBytes);
    hide Greedy, Transaction.Verify, Transaction.SizeBytes, Ranked;
    forall i | 0 <= i < |txs| ensures txs[i].Verify(crypto).Pass? {
      GreedyFromPool(pool, Ranked(pool), maxBytes, i);
      var h :| h in pool && pool[h] == txs[i];
      assert ValidateStateless(crypto, pool[h]).Pass?;
    }
  }

  /** A created proposal over an admitted pool is acceptable to every engine at its height and
      round, and carries its proposer's verifying signature, the previous block's hash, and a
      harvest that fits. */
  lemma CreatedIsAcceptable(crypto: Crypto, codec: Codec, key: SecretKey, chainId: Bytes, core: Core, data: Store,
                            stateRoot: Hash, pool: TxPool, now: U64, other: Core)
    requires crypto.SignaturesVerify() && Admitted(crypto, pool)
    requires other.height == core.height && other.round == core.round
    ensures var r := Proposed(crypto, codec, key, chainId, core, data, stateRoot, pool, now);
      r.Ok? ==>
        && Acceptable(crypto, other, r.value)
        && r.value.header.VerifySignature(crypto, crypto.publicKey(key)).Pass?
        && BlockAtHeight(codec, data, PreviousHeight(core.height)).Some?
        && r.value.header.prevHash
            == BlockAtHeight(codec, data, PreviousHeight(core.height)).value.BlockHash(crypto.hash)
        && TotalSize(r.value.transactions) <= MAX_BLOCK_BYTES
  {
    HarvestVerifies(crypto, pool, MAX_BLOCK_BYTES);
    HarvestIsFull(pool, MAX_BLOCK_BYTES);
    hide Selected, ActiveValidators, BlockAtHeight, PreviousHeight, InfoBytes, Harvested;
    hide Merkle.Root, TotalSize, Crypto.AddressOf, BlockHeader.Tail, VerifyAll, Admitted;
  }
}
