/** Agreement when blocks are delivered again: an engine may handle blocks of one hash at a height as
    often as they come, and precommit each time, as long as the prevotes it hears are authentic. */
module Redelivery {
  import opened Bytes
  import opened Crypto
  import opened Sums
  import opened Kv
  import opened Votes
  import opened Blocks
  import opened ChainStore
  import opened Proposer
  import opened Quorums
  import opened EngineSpec
  import opened Engine
  import opened EngineRuns
  import opened Agreement

  // ---------------------------------------------------------------------------------------------
  // The rule and the invariant.

  /** What the engine has prevoted for at this height is this hash. */
  ghost predicate OnlyPreVoted(ctx: Context, sent: set<Vote>, n: NodeId, height: U64, h: Hash)
    requires n in ctx.keys
  {
    forall v :: v in sent && v.validator == ctx.AddressAt(n) && v.height == height && v.voteType.PreVote? ==>
      v.blockHash == h
  }

  /** Delivered votes are authentic, at most a third of the power stored at the handling engine is
      faulty, and the blocks an engine handles at one height have one hash. */
  ghost predicate Repeatable(ctx: Context, net: Network, event: Event) {
    && event.node in net.nodes && event.node in ctx.keys
    && var node := net.nodes[event.node];
    && node.core.height + 1 < U64_END && WithinBounds(ctx, ActiveValidators(ctx.codec, node.data))
    && match event.input
       case Create(_, _, _, _) => true
       case Proposal(block) => Acceptable(ctx.crypto, node.core, block) ==>
         OnlyPreVoted(ctx, net.sent, event.node, node.core.height, block.BlockHash(ctx.crypto.hash))
       case PreVoteIn(vote) => Authentic(ctx, net.sent, vote, PreVote, node.core.height)
       case PreCommitIn(vote) => Authentic(ctx, net.sent, vote, PreCommit, node.core.height)
  }

  /** The engine has signed nothing above its height. */
  ghost predicate Below(ctx: Context, sent: set<Vote>, n: NodeId, height: nat)
    requires n in ctx.keys
  {
    forall v :: v in sent && v.validator == ctx.AddressAt(n) ==> v.height < height
  }

  /** What the engine has precommitted to at its height, a quorum of the prevotes it holds is for. */
  ghost predicate Backed(ctx: Context, sent: set<Vote>, n: NodeId, core: Core, validators: seq<ValidatorInfo>)
    requires n in ctx.keys
  {
    forall v :: v in sent && v.validator == ctx.AddressAt(n) && v.height == core.height && v.voteType.PreCommit? ==>
      Passes(core.prevotes, v.blockHash, validators)
  }

  ghost predicate NodeGood(ctx: Context, sent: set<Vote>, n: NodeId, core: Core, validators: seq<ValidatorInfo>) {
    && n in ctx.keys && Sound(core)
    && GoodBallots(ctx, sent, core.prevotes, core.height, PreVote)
    && GoodBallots(ctx, sent, core.precommits, core.height, PreCommit)
    && Below(ctx, sent, n, core.height + 1) && Backed(ctx, sent, n, core, validators)
  }

  ghost predicate NetGood(ctx: Context, net: Network) {
    && (forall n :: n in net.nodes ==>
         NodeGood(ctx, net.sent, n, net.nodes[n].core, ActiveValidators(ctx.codec, net.nodes[n].data)))
    && OneVote(net.sent)
    && (forall cert :: cert in net.certs ==> GoodCert(ctx, net.sent, cert))
  }

  lemma GoodParts(ctx: Context, sent: set<Vote>, n: NodeId, core: Core, validators: seq<ValidatorInfo>)
    ensures NodeGood(ctx, sent, n, core, validators) <==>
      && n in ctx.keys && Sound(core)
      && GoodBallots(ctx, sent, core.prevotes, core.height, PreVote)
      && GoodBallots(ctx, sent, core.precommits, core.height, PreCommit)
      && Below(ctx, sent, n, core.height + 1) && Backed(ctx, sent, n, core, validators)
  {
    hide Sound, GoodBallots, Below, Backed;
  }

  ghost predicate GoodUnderAny(ctx: Context, sent: set<Vote>, n: NodeId, core: Core) {
    forall validators :: NodeGood(ctx, sent, n, core, validators)
  }

  /** A handler's outcome: a certificate leaves the engine with nothing counted or signed at its new
      height, so in order under any validators. */
  ghost predicate StepGood(ctx: Context, sent: set<Vote>, n: NodeId, run: Handled, validators: seq<ValidatorInfo>) {
    if run.qc.Some? then GoodCert(ctx, sent, Cert(n, validators, run.qc.value)) && GoodUnderAny(ctx, sent, n, run.core)
    else NodeGood(ctx, sent, n, run.core, validators)
  }

  // ---------------------------------------------------------------------------------------------
  // Quorums of prevotes.

  lemma ListAt(ctx: Context, sent: set<Vote>, ballots: Ballots, height: U64, voteType: VoteType, h: Hash)
    requires OrderlyBallots(ballots) && GoodBallots(ctx, sent, ballots, height, voteType)
    ensures DistinctVoters(VotesFor(ballots, h)) && GoodList(ctx, sent, VotesFor(ballots, h), h, height, voteType)
  {
    hide Authentic;
    assert OrderlyVotes(VotesFor(ballots, h), h);
  }

  lemma QuorumIff(ballots: Ballots, h: Hash, validators: seq<ValidatorInfo>)
    requires DistinctVoters(VotesFor(ballots, h)) && DistinctValidators(validators) && TotalPower(validators) < U64_END
    ensures Passes(ballots, h, validators)
       <==> CountedPower(VotesFor(ballots, h), validators) * 3 > TotalPower(validators) * 2
  {
    QuorumMeansTwoThirds(VotesFor(ballots, h), validators);
    hide DistinctVoters, DistinctValidators, TotalPower, CountedPower, VotesFor, PowerSum, VotePower, IsQuorum;
  }

  lemma OrderlyAt(ballots: Ballots, h: Hash)
    requires OrderlyBallots(ballots)
    ensures DistinctVoters(VotesFor(ballots, h))
  {
    assert OrderlyVotes(VotesFor(ballots, h), h);
  }

  /** More votes never undo a quorum. */
  lemma StillPasses(ballots: Ballots, vote: Vote, h: Hash, validators: seq<ValidatorInfo>)
    requires OrderlyBallots(ballots) && DistinctValidators(validators) && TotalPower(validators) < U64_END
    requires Passes(ballots, h, validators)
    ensures Passes(AddVote(ballots, vote), h, validators)
  {
    hide *;
    AddVoteOrderly(ballots, vote);
    OrderlyAt(ballots, h);
    OrderlyAt(AddVote(ballots, vote), h);
    QuorumIff(ballots, h, validators);
    QuorumIff(AddVote(ballots, vote), h, validators);
    var few, many := VotesFor(ballots, h), VotesFor(AddVote(ballots, vote), h);
    CountedIsSum(few, validators);
    CountedIsSum(many, validators);
    AddVoteCounts(ballots, vote, h);
    PowerGrows(validators, Voters(few), Voters(many));
  }

  lemma PowerGrows(validators: seq<ValidatorInfo>, few: set<Address>, many: set<Address>)
    requires few <= many
    ensures Sum(few, PowerIn(validators)) <= Sum(many, PowerIn(validators))
  {
    hide PowerOf;
    SumMonotone(many, few, PowerIn(validators));
  }

  /** Two hashes with quorums of authentic prevotes are one. */
  lemma PreVotesAgree(ctx: Context, sent: set<Vote>, core: Core, validators: seq<ValidatorInfo>, g: Hash, h: Hash)
    requires OneVote(sent) && OrderlyBallots(core.prevotes)
    requires GoodBallots(ctx, sent, core.prevotes, core.height, PreVote)
    requires DistinctValidators(validators) && WithinBounds(ctx, validators)
    requires Passes(core.prevotes, g, validators) && Passes(core.prevotes, h, validators)
    ensures g == h
  {
    hide *;
    BoundsAre(ctx, validators);
    ListAt(ctx, sent, core.prevotes, core.height, PreVote, g);
    ListAt(ctx, sent, core.prevotes, core.height, PreVote, h);
    QuorumIff(core.prevotes, g, validators);
    QuorumIff(core.prevotes, h, validators);
    QuorumsAgree(ctx, sent, validators, VotesFor(core.prevotes, g), VotesFor(core.prevotes, h), g, h, core.height,
      PreVote);
  }

  lemma BoundsAre(ctx: Context, validators: seq<ValidatorInfo>)
    requires WithinBounds(ctx, validators)
    ensures TotalPower(validators) < U64_END
    ensures Sum(Faulty(ctx, validators), PowerIn(validators)) * 3 <= TotalPower(validators)
  {
    hide TotalPower, Faulty, PowerIn;
  }

  // ---------------------------------------------------------------------------------------------
  // One engine's step.

  lemma PreCommitGood(ctx: Context, sent: set<Vote>, n: NodeId, core: Core, validators: seq<ValidatorInfo>, vote: Vote)
    requires NodeGood(ctx, sent, n, core, validators) && Authentic(ctx, sent, vote, PreCommit, core.height)
    requires DistinctValidators(validators) && core.height + 1 < U64_END
    ensures StepGood(ctx, sent, n, OnPreCommit(ctx.crypto.hash, core, validators, vote), validators)
  {
    hide *;
    var run := OnPreCommit(ctx.crypto.hash, core, validators, vote);
    GoodParts(ctx, sent, n, core, validators);
    OnPreCommitUnfolds(ctx.crypto.hash, core, validators, vote);
    AddVoteGood(ctx, sent, core.precommits, vote, core.height, PreCommit);
    PreCommitSound(ctx.crypto.hash, core, validators, vote);
    if run.qc.Some? {
      CertificateGood(ctx, sent, n, validators, ctx.crypto.hash, core, run);
      NextHeightSmall(core.height, core.height + 1);
      forall later ensures NodeGood(ctx, sent, n, run.core, later) {
        NothingCounted(ctx, sent, n, run.core, later);
        GoodParts(ctx, sent, n, run.core, later);
      }
      UnderAny(ctx, sent, n, run.core);
    } else {
      BackedSame(ctx, sent, n, core, run.core, validators);
      GoodParts(ctx, sent, n, run.core, validators);
    }
    StepIs(ctx, sent, n, run, validators);
  }

  lemma StepIs(ctx: Context, sent: set<Vote>, n: NodeId, run: Handled, validators: seq<ValidatorInfo>)
    ensures StepGood(ctx, sent, n, run, validators)
         == if run.qc.Some?
            then GoodCert(ctx, sent, Cert(n, validators, run.qc.value)) && GoodUnderAny(ctx, sent, n, run.core)
            else NodeGood(ctx, sent, n, run.core, validators)
  {
    hide GoodCert, NodeGood, GoodUnderAny;
  }

  lemma UnderAny(ctx: Context, sent: set<Vote>, n: NodeId, core: Core)
    ensures GoodUnderAny(ctx, sent, n, core) <==> forall validators :: NodeGood(ctx, sent, n, core, validators)
  {
    hide NodeGood;
  }

  lemma NothingCounted(ctx: Context, sent: set<Vote>, n: NodeId, core: Core, validators: seq<ValidatorInfo>)
    requires n in ctx.keys && Below(ctx, sent, n, core.height) && core.prevotes == map[] && core.precommits == map[]
    ensures GoodBallots(ctx, sent, core.prevotes, core.height, PreVote)
    ensures GoodBallots(ctx, sent, core.precommits, core.height, PreCommit)
    ensures Below(ctx, sent, n, core.height + 1) && Backed(ctx, sent, n, core, validators)
  {
    hide Context.AddressAt, Passes, GoodVotes;
  }

  lemma BackedSame(ctx: Context, sent: set<Vote>, n: NodeId, core: Core, other: Core, validators: seq<ValidatorInfo>)
    requires n in ctx.keys && Backed(ctx, sent, n, core, validators) && other.height == core.height
    requires other.prevotes == core.prevotes
    ensures Backed(ctx, sent, n, other, validators)
  {
    hide Context.AddressAt, Passes;
  }

  lemma BackedMore(ctx: Context, sent: set<Vote>, n: NodeId, core: Core, other: Core, validators: seq<ValidatorInfo>,
                   vote: Vote)
    requires n in ctx.keys && Backed(ctx, sent, n, core, validators) && OrderlyBallots(core.prevotes)
    requires other.height == core.height && other.prevotes == AddVote(core.prevotes, vote)
    requires DistinctValidators(validators) && WithinBounds(ctx, validators)
    ensures Backed(ctx, sent, n, other, validators)
  {
    hide Context.AddressAt, Passes, AddVote, OrderlyBallots, DistinctValidators, WithinBounds;
    BoundsAre(ctx, validators);
    forall v | v in sent && v.validator == ctx.AddressAt(n) && v.height == core.height && v.voteType.PreCommit?
      ensures Passes(other.prevotes, v.blockHash, validators)
    {
      StillPasses(core.prevotes, vote, v.blockHash, validators);
    }
  }

  /** A precommit for a hash with a quorum of prevotes agrees with every earlier one of the height. */
  lemma PreCommitAgain(ctx: Context, sent: set<Vote>, n: NodeId, core: Core, validators: seq<ValidatorInfo>, vote: Vote)
    requires NodeGood(ctx, sent, n, core, validators) && OneVote(sent) && DistinctValidators(validators)
    requires WithinBounds(ctx, validators)
    requires vote.validator == ctx.AddressAt(n) && vote.height == core.height && vote.round == 0
    requires vote.voteType == PreCommit && vote.Verify(ctx.crypto).Pass?
    requires Passes(core.prevotes, vote.blockHash, validators)
    ensures OneVote(sent + {vote}) && Authentic(ctx, sent + {vote}, vote, PreCommit, core.height)
    ensures NodeGood(ctx, sent + {vote}, n, core, validators)
  {
    hide *;
    GoodParts(ctx, sent, n, core, validators);
    SoundParts(core);
    forall v | OwnPreCommitAt(ctx, sent, n, core.height, v) ensures v.blockHash == vote.blockHash {
      BackedAt(ctx, sent, n, core, validators, v);
      PreVotesAgree(ctx, sent, core, validators, v.blockHash, vote.blockHash);
    }
    SignedAgain(ctx, sent, n, core, validators, vote);
    GoodBallotsGrow(ctx, sent, sent + {vote}, core.prevotes, core.height, PreVote);
    GoodBallotsGrow(ctx, sent, sent + {vote}, core.precommits, core.height, PreCommit);
    GoodParts(ctx, sent + {vote}, n, core, validators);
  }

  ghost predicate OwnPreCommitAt(ctx: Context, sent: set<Vote>, n: NodeId, height: U64, v: Vote)
    requires n in ctx.keys
  {
    v in sent && v.validator == ctx.AddressAt(n) && v.height == height && v.voteType.PreCommit?
  }

  lemma BackedAt(ctx: Context, sent: set<Vote>, n: NodeId, core: Core, validators: seq<ValidatorInfo>, v: Vote)
    requires n in ctx.keys && Backed(ctx, sent, n, core, validators) && OwnPreCommitAt(ctx, sent, n, core.height, v)
    ensures Passes(core.prevotes, v.blockHash, validators)
  {
    hide Context.AddressAt, Passes;
  }

  lemma SignedAgain(ctx: Context, sent: set<Vote>, n: NodeId, core: Core, validators: seq<ValidatorInfo>, vote: Vote)
    requires n in ctx.keys && OneVote(sent) && Below(ctx, sent, n, core.height + 1)
    requires Backed(ctx, sent, n, core, validators)
    requires vote.validator == ctx.AddressAt(n) && vote.height == core.height && vote.round == 0
    requires vote.voteType == PreCommit && vote.Verify(ctx.crypto).Pass?
    requires Passes(core.prevotes, vote.blockHash, validators)
    requires forall v :: OwnPreCommitAt(ctx, sent, n, core.height, v) ==> v.blockHash == vote.blockHash
    ensures OneVote(sent + {vote}) && Authentic(ctx, sent + {vote}, vote, PreCommit, core.height)
    ensures Below(ctx, sent + {vote}, n, core.height + 1) && Backed(ctx, sent + {vote}, n, core, validators)
  {
    hide Context.AddressAt, Context.IsHonest, Vote.Verify, Passes;
    assert forall v ::
      v in sent && v.validator == vote.validator && v.height == vote.height && v.voteType == vote.voteType ==>
        OwnPreCommitAt(ctx, sent, n, core.height, v);
  }

  lemma PreVoteGood(ctx: Context, sent: set<Vote>, n: NodeId, core: Core, validators: seq<ValidatorInfo>, vote: Vote)
    requires ctx.WellFormed() && NodeGood(ctx, sent, n, core, validators) && OneVote(sent)
    requires Authentic(ctx, sent, vote, PreVote, core.height)
    requires DistinctValidators(validators) && WithinBounds(ctx, validators) && core.height + 1 < U64_END
    ensures var run := OnPreVote(ctx.crypto, ctx.keys[n], core, validators, vote);
      var more := sent + PreCommitOf(run);
      && StepGood(ctx, more, n, run, validators) && OneVote(more)
      && (run.precommit.Some? ==> run.precommit.value.validator == ctx.AddressAt(n))
  {
    hide *;
    GoodParts(ctx, sent, n, core, validators);
    var run := OnPreVote(ctx.crypto, ctx.keys[n], core, validators, vote);
    SoundParts(core);
    AddVoteOrderly(core.prevotes, vote);
    AddVoteGood(ctx, sent, core.prevotes, vote, core.height, PreVote);
    OnPreVoteUnfolds(ctx.crypto, ctx.keys[n], core, validators, vote);
    PreCommitOfIs(run);
    var counted :=
      core.(prevotes := AddVote(core.prevotes, vote), step := if run.precommit.Some? then PreCommitting else core.step);
    SoundWith(core, counted);
    BackedMore(ctx, sent, n, core, counted, validators, vote);
    GoodParts(ctx, sent, n, counted, validators);
    if run.precommit.Some? {
      var precommit := run.precommit.value;
      SignedVote(ctx, n, vote.blockHash, core.height, core.round, PreCommit);
      QuorumPasses(counted.prevotes, vote.blockHash, validators);
      PreCommitAgain(ctx, sent, n, counted, validators, precommit);
      PreCommitGood(ctx, sent + {precommit}, n, counted, validators, precommit);
      StepIs(ctx, sent + {precommit}, n, OnPreCommit(ctx.crypto.hash, counted, validators, precommit), validators);
    } else {
      assert sent + {} == sent;
    }
    StepIs(ctx, sent + PreCommitOf(run), n, run, validators);
  }

  lemma QuorumPasses(ballots: Ballots, h: Hash, validators: seq<ValidatorInfo>)
    ensures Passes(ballots, h, validators)
       <==> IsQuorum(PowerSum(validators), VotePower(VotesFor(ballots, h), validators))
  {
    hide IsQuorum, PowerSum, VotePower, VotesFor;
  }

  lemma ProposalGood(ctx: Context, sent: set<Vote>, n: NodeId, core: Core, validators: seq<ValidatorInfo>, block: Block)
    requires ctx.WellFormed() && NodeGood(ctx, sent, n, core, validators) && OneVote(sent)
    requires Acceptable(ctx.crypto, core, block)
    requires OnlyPreVoted(ctx, sent, n, core.height, block.BlockHash(ctx.crypto.hash))
    requires DistinctValidators(validators) && WithinBounds(ctx, validators) && core.height + 1 < U64_END
    ensures var run := OnProposal(ctx.crypto, ctx.keys[n], core, validators, block);
      var prevote := PreVoteFor(ctx.crypto, ctx.keys[n], core, block);
      var more := sent + {prevote} + PreCommitOf(run);
      && StepGood(ctx, more, n, run, validators) && OneVote(more) && prevote.validator == ctx.AddressAt(n)
      && (run.precommit.Some? ==> run.precommit.value.validator == ctx.AddressAt(n))
  {
    hide *;
    GoodParts(ctx, sent, n, core, validators);
    SoundParts(core);
    SoundWith(core, core);
    var prevote := PreVoteFor(ctx.crypto, ctx.keys[n], core, block);
    var proposed := core.(proposed := Some(block), step := PreVoting);
    OnProposalUnfolds(ctx.crypto, ctx.keys[n], core, validators, block);
    SignedVote(ctx, n, block.BlockHash(ctx.crypto.hash), core.height, core.round, PreVote);
    SoundWithProposal(core, block);
    PreVoteAgain(ctx, sent, n, core, validators, prevote);
    GoodBallotsGrow(ctx, sent, sent + {prevote}, core.prevotes, core.height, PreVote);
    GoodBallotsGrow(ctx, sent, sent + {prevote}, core.precommits, core.height, PreCommit);
    BackedSame(ctx, sent + {prevote}, n, core, proposed, validators);
    GoodParts(ctx, sent + {prevote}, n, proposed, validators);
    PreVoteGood(ctx, sent + {prevote}, n, proposed, validators, prevote);
  }

  lemma PreVoteAgain(ctx: Context, sent: set<Vote>, n: NodeId, core: Core, validators: seq<ValidatorInfo>, vote: Vote)
    requires n in ctx.keys && OneVote(sent) && Below(ctx, sent, n, core.height + 1)
    requires Backed(ctx, sent, n, core, validators)
    requires vote.validator == ctx.AddressAt(n) && vote.height == core.height && vote.round == 0
    requires vote.voteType == PreVote && vote.Verify(ctx.crypto).Pass?
    requires OnlyPreVoted(ctx, sent, n, core.height, vote.blockHash)
    ensures OneVote(sent + {vote}) && Authentic(ctx, sent + {vote}, vote, PreVote, core.height)
    ensures Below(ctx, sent + {vote}, n, core.height + 1) && Backed(ctx, sent + {vote}, n, core, validators)
  {
    hide Context.AddressAt, Context.IsHonest, Vote.Verify, Passes;
  }

  lemma CreateGood(ctx: Context, sent: set<Vote>, n: NodeId, node: Node, input: Input, validators: seq<ValidatorInfo>)
    requires NodeGood(ctx, sent, n, node.core, validators) && input.Create?
    ensures var run := Handle(ctx.crypto, ctx.codec, ctx.keys[n], node, input);
      run.qc.None? && run.precommit.None? && StepGood(ctx, sent, n, run, validators)
  {
    hide *;
    GoodParts(ctx, sent, n, node.core, validators);
    var run := Handle(ctx.crypto, ctx.codec, ctx.keys[n], node, input);
    HandleSound(ctx.crypto, ctx.codec, ctx.keys[n], node, input);
    CreatedCore(ctx.crypto, ctx.codec, ctx.keys[n], node, input);
    BackedSame(ctx, sent, n, node.core, run.core, validators);
    GoodParts(ctx, sent, n, run.core, validators);
    StepIs(ctx, sent, n, run, validators);
  }

  // ---------------------------------------------------------------------------------------------
  // The network's step.

  /** Votes signed elsewhere do not disturb an engine. */
  lemma OtherGood(ctx: Context, sent: set<Vote>, more: set<Vote>, n: NodeId, m: NodeId, core: Core,
                  validators: seq<ValidatorInfo>)
    requires ctx.WellFormed() && n in ctx.keys && m != n && NodeGood(ctx, sent, m, core, validators) && sent <= more
    requires forall v :: v in more && v !in sent ==> v.validator == ctx.AddressAt(n)
    ensures NodeGood(ctx, more, m, core, validators)
  {
    hide *;
    GoodParts(ctx, sent, m, core, validators);
    GoodBallotsGrow(ctx, sent, more, core.prevotes, core.height, PreVote);
    GoodBallotsGrow(ctx, sent, more, core.precommits, core.height, PreCommit);
    OtherSigned(ctx, sent, more, n, m, core, validators);
    GoodParts(ctx, more, m, core, validators);
  }

  lemma OtherSigned(ctx: Context, sent: set<Vote>, more: set<Vote>, n: NodeId, m: NodeId, core: Core,
                    validators: seq<ValidatorInfo>)
    requires ctx.WellFormed() && n in ctx.keys && m in ctx.keys && m != n
    requires Below(ctx, sent, m, core.height + 1) && Backed(ctx, sent, m, core, validators)
    requires forall v :: v in more && v !in sent ==> v.validator == ctx.AddressAt(n)
    ensures Below(ctx, more, m, core.height + 1) && Backed(ctx, more, m, core, validators)
  {
    hide Crypto.SignaturesVerify, Context.AddressAt, Passes;
    assert ctx.AddressAt(m) != ctx.AddressAt(n);
  }

  /** What the handling engine signed, and that its outcome is good. */
  lemma HandleGood(ctx: Context, net: Network, event: Event)
    requires ctx.WellFormed() && NetGood(ctx, net) && Repeatable(ctx, net, event)
    ensures event.node in net.nodes && event.node in ctx.keys
    ensures var node := net.nodes[event.node];
      var run := Handle(ctx.crypto, ctx.codec, ctx.keys[event.node], node, event.input);
      var more := net.sent + Signed(ctx.crypto, ctx.keys[event.node], node.core, event.input, run);
      && StepGood(ctx, more, event.node, run, ActiveValidators(ctx.codec, node.data)) && OneVote(more)
      && (forall v :: v in more && v !in net.sent ==> v.validator == ctx.AddressAt(event.node))
  {
    hide *;
    RepeatableParts(ctx, net, event);
    var n, input := event.node, event.input;
    var node, key := net.nodes[n], ctx.keys[n];
    var core, validators := node.core, ActiveValidators(ctx.codec, node.data);
    var run := Handle(ctx.crypto, ctx.codec, key, node, input);
    NetGoodParts(ctx, net);
    ActiveDistinct(ctx.codec, node.data);
    HandleParts(ctx.crypto, ctx.codec, key, node, input);
    PreCommitOfIs(run);
    SignedIs(ctx.crypto, key, net.sent, core, input, run);
    assert net.sent + {} == net.sent;
    match input {
      case Create(_, _, _, _) =>
        CreateGood(ctx, net.sent, n, node, input, validators);
      case Proposal(block) =>
        if Acceptable(ctx.crypto, core, block) {
          ProposalGood(ctx, net.sent, n, core, validators, block);
        } else {
          StepIs(ctx, net.sent, n, run, validators);
        }
      case PreVoteIn(vote) =>
        PreVoteGood(ctx, net.sent, n, core, validators, vote);
      case PreCommitIn(vote) =>
        PreCommitGood(ctx, net.sent, n, core, validators, vote);
        NoPreCommitCast(ctx.crypto.hash, core, validators, vote);
    }
  }

  lemma SignedIs(crypto: Crypto, key: SecretKey, sent: set<Vote>, core: Core, input: Input, run: Handled)
    ensures sent + Signed(crypto, key, core, input, run)
         == (if input.Proposal? && Acceptable(crypto, core, input.block)
             then sent + {PreVoteFor(crypto, key, core, input.block)} else sent)
              + PreCommitOf(run)
  {
    hide Acceptable, PreVoteFor, PreCommitOf;
  }

  lemma RepeatableParts(ctx: Context, net: Network, event: Event)
    requires Repeatable(ctx, net, event)
    ensures event.node in net.nodes && event.node in ctx.keys
    ensures var node := net.nodes[event.node];
      && node.core.height + 1 < U64_END && WithinBounds(ctx, ActiveValidators(ctx.codec, node.data))
      && (event.input.Proposal? && Acceptable(ctx.crypto, node.core, event.input.block) ==>
            OnlyPreVoted(ctx, net.sent, event.node, node.core.height, event.input.block.BlockHash(ctx.crypto.hash)))
      && (event.input.PreVoteIn? ==> Authentic(ctx, net.sent, event.input.vote, PreVote, node.core.height))
      && (event.input.PreCommitIn? ==> Authentic(ctx, net.sent, event.input.vote, PreCommit, node.core.height))
  {
    hide Authentic, Acceptable, OnlyPreVoted, WithinBounds, ActiveValidators, Block.BlockHash;
  }

  lemma NetGoodParts(ctx: Context, net: Network)
    requires NetGood(ctx, net)
    ensures forall n :: n in net.nodes ==>
      NodeGood(ctx, net.sent, n, net.nodes[n].core, ActiveValidators(ctx.codec, net.nodes[n].data))
    ensures OneVote(net.sent) && forall cert :: cert in net.certs ==> GoodCert(ctx, net.sent, cert)
  {
    hide NodeGood, OneVote, GoodCert, ActiveValidators;
  }

  lemma NetGoodFrom(ctx: Context, net: Network)
    requires forall n :: n in net.nodes ==>
      NodeGood(ctx, net.sent, n, net.nodes[n].core, ActiveValidators(ctx.codec, net.nodes[n].data))
    requires OneVote(net.sent) && forall cert :: cert in net.certs ==> GoodCert(ctx, net.sent, cert)
    ensures NetGood(ctx, net)
  {
    hide NodeGood, OneVote, GoodCert, ActiveValidators;
  }

  lemma RepeatKeeps(ctx: Context, net: Network, event: Event)
    requires ctx.WellFormed() && NetGood(ctx, net) && Repeatable(ctx, net, event)
    ensures NetGood(ctx, Deliver(ctx, net, event))
  {
    hide *;
    HandleGood(ctx, net, event);
    NetGoodParts(ctx, net);
    DeliverUnfolds(ctx, net, event);
    var n, after := event.node, Deliver(ctx, net, event);
    var node := net.nodes[n];
    var run, validators :=
      Handle(ctx.crypto, ctx.codec, ctx.keys[n], node, event.input), ActiveValidators(ctx.codec, node.data);
    StepIs(ctx, after.sent, n, run, validators);
    UnderAny(ctx, after.sent, n, run.core);
    GoodParts(ctx, net.sent, n, node.core, validators);
    HandleSound(ctx.crypto, ctx.codec, ctx.keys[n], node, event.input);
    SteadyParts(ctx.crypto.hash, node.core, run, validators);
    SettleUnfolds(ctx.crypto, ctx.codec, node.data, map[], None);
    forall m | m in after.nodes
      ensures NodeGood(ctx, after.sent, m, after.nodes[m].core, ActiveValidators(ctx.codec, after.nodes[m].data))
    {
      if m != n {
        OtherGood(ctx, net.sent, after.sent, n, m, net.nodes[m].core, ActiveValidators(ctx.codec, net.nodes[m].data));
      }
    }
    forall cert | cert in after.certs ensures GoodCert(ctx, after.sent, cert) {
      if cert in net.certs {
        CertKept(ctx, net.sent, after.sent, cert);
      }
    }
    NetGoodFrom(ctx, after);
  }

  // ---------------------------------------------------------------------------------------------
  // Runs.

  ghost predicate RepeatableRun(ctx: Context, net: Network, events: seq<Event>)
    decreases |events|
  {
    events != [] ==> Repeatable(ctx, net, events[0]) && RepeatableRun(ctx, Deliver(ctx, net, events[0]), events[1..])
  }

  lemma {:induction false} RepeatRunKeeps(ctx: Context, net: Network, events: seq<Event>)
    requires ctx.WellFormed() && NetGood(ctx, net) && RepeatableRun(ctx, net, events)
    ensures NetGood(ctx, RunNetwork(ctx, net, events))
    decreases |events|
  {
    hide NetGood, Repeatable, Deliver, Context.WellFormed;
    if events != [] {
      RepeatKeeps(ctx, net, events[0]);
      RepeatRunKeeps(ctx, Deliver(ctx, net, events[0]), events[1..]);
    }
  }

  lemma GenesisGood(ctx: Context, stores: map<NodeId, Store>)
    requires stores.Keys == ctx.keys.Keys
    ensures NetGood(ctx, Genesis(ctx, stores))
  {
    hide Sound, ActiveValidators, Started;
    forall n | n in stores
      ensures NodeGood(ctx, {}, n, Started(stores[n]).core, ActiveValidators(ctx.codec, stores[n]))
    {
      StartedSound(stores[n]);
      StartedEmpty(stores[n]);
    }
  }

  lemma StartedEmpty(data: Store)
    ensures Started(data).data == data && Started(data).core.prevotes == map[] && Started(data).core.precommits == map[]
  {
    hide LatestHeight, NextHeight;
  }

  /** Agreement under redelivery. However often engines handle the block of a height again, and precommit
      again, two certificates of one height under one validator set are for the same block. */
  lemma RedeliveredAgree(ctx: Context, stores: map<NodeId, Store>, events: seq<Event>, a: Cert, b: Cert)
    requires ctx.WellFormed() && stores.Keys == ctx.keys.Keys && RepeatableRun(ctx, Genesis(ctx, stores), events)
    requires a in RunNetwork(ctx, Genesis(ctx, stores), events).certs
    requires b in RunNetwork(ctx, Genesis(ctx, stores), events).certs
    requires a.qc.height == b.qc.height && a.validators == b.validators && WithinBounds(ctx, a.validators)
    ensures a.qc.blockHash == b.qc.blockHash
  {
    hide *;
    var net := RunNetwork(ctx, Genesis(ctx, stores), events);
    GenesisGood(ctx, stores);
    RepeatRunKeeps(ctx, Genesis(ctx, stores), events);
    NetGoodParts(ctx, net);
    BoundsAre(ctx, a.validators);
    GoodCertsAgree(ctx, net.sent, a, b);
  }

  /** And no two votes of honest engines are evidence, though they may repeat. */
  lemma RedeliveredNotConvicted(ctx: Context, stores: map<NodeId, Store>, events: seq<Event>, x: Vote, y: Vote)
    requires ctx.WellFormed() && stores.Keys == ctx.keys.Keys && RepeatableRun(ctx, Genesis(ctx, stores), events)
    requires x in RunNetwork(ctx, Genesis(ctx, stores), events).sent
    requires y in RunNetwork(ctx, Genesis(ctx, stores), events).sent
    ensures DoubleSignEvidence(x, y).Verify(ctx.crypto).Err?
  {
    hide *;
    var net := RunNetwork(ctx, Genesis(ctx, stores), events);
    GenesisGood(ctx, stores);
    RepeatRunKeeps(ctx, Genesis(ctx, stores), events);
    NetGoodParts(ctx, net);
    OneVoteNoEvidence(ctx.crypto, net.sent, x, y);
  }
}
