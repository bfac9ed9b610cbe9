/** Many engines at once: honest ones run the handlers, everyone else votes at will. */
module Agreement {
  import opened Bytes
  import opened Crypto
  import opened Sums
  import opened Kv
  import opened Votes
  import opened Blocks
  import opened ChainStore
  import opened Proposer
  import opened Quorums
  import opened EngineSpec
  import opened Engine
  import opened EngineRuns

  type NodeId = nat

  /** The honest engines and their keys. */
  datatype Context = Context(crypto: Crypto, codec: Codec, keys: map<NodeId, SecretKey>) {
    function AddressAt(n: NodeId): Address
      requires n in keys
    {
      crypto.AddressOf(crypto.publicKey(keys[n]))
    }

    ghost predicate IsHonest(a: Address) {
      exists n :: n in keys && AddressAt(n) == a
    }

    /** Engines have addresses of their own, and honest signatures verify. */
    ghost predicate WellFormed() {
      && (forall m, n :: m in keys && n in keys && AddressAt(m) == AddressAt(n) ==> m == n)
      && crypto.SignaturesVerify()
    }
  }

  datatype Cert = Cert(node: NodeId, validators: seq<ValidatorInfo>, qc: QuorumCertificate)

  /** The engines, every vote they have signed, the heights at which each has handled a proposal,
      and every certificate formed. */
  datatype Network = Network(
    nodes: map<NodeId, Node>,
    sent: set<Vote>,
    handled: set<(NodeId, U64)>,
    certs: set<Cert>)

  datatype Event = Event(node: NodeId, input: Input)

  /** A delivered vote fits the handler and the engine's height, and is authentic: it verifies, and
      if it names an honest engine, that engine signed it. */
  ghost predicate Authentic(ctx: Context, sent: set<Vote>, vote: Vote, voteType: VoteType, height: U64) {
    && vote.voteType == voteType && vote.height == height && vote.round == 0
    && vote.Verify(ctx.crypto).Pass?
    && (ctx.IsHonest(vote.validator) ==> vote in sent)
  }

  /** Delivered precommits are authentic, and heights stay below 2^64; prevotes may be anything. With
      `once`, each engine also handles at most one proposal per height. */
  ghost predicate Proper(ctx: Context, net: Network, event: Event, once: bool) {
    && event.node in net.nodes && event.node in ctx.keys
    && var core := net.nodes[event.node].core;
    && core.height + 1 < U64_END
    && match event.input
       case Create(_, _, _, _) => true
       case Proposal(block) => once && Acceptable(ctx.crypto, core, block) ==> (event.node, core.height) !in net.handled
       case PreVoteIn(_) => true
       case PreCommitIn(vote) => Authentic(ctx, net.sent, vote, PreCommit, core.height)
  }

  ghost predicate Allowed(ctx: Context, net: Network, event: Event) {
    Proper(ctx, net, event, true)
  }

  function Signed(crypto: Crypto, key: SecretKey, core: Core, input: Input, run: Handled): set<Vote> {
    (if input.Proposal? && Acceptable(crypto, core, input.block) then {PreVoteFor(crypto, key, core, input.block)}
      else {})
      + PreCommitOf(run)
  }

  function PreCommitOf(run: Handled): set<Vote> {
    if run.precommit.Some? then {run.precommit.value} else {}
  }

  /** One engine handles one event; events for strangers change nothing. */
  ghost function Deliver(ctx: Context, net: Network, event: Event): Network {
    if event.node !in net.nodes || event.node !in ctx.keys then net else
    var n, input := event.node, event.input;
    var key, node := ctx.keys[n], net.nodes[n];
    var run := Handle(ctx.crypto, ctx.codec, key, node, input);
    Network(
      net.nodes[n := Next(ctx.crypto, ctx.codec, key, node, input)],
      net.sent + Signed(ctx.crypto, key, node.core, input, run),
      net.handled + (if input.Proposal? && Acceptable(ctx.crypto, node.core, input.block) then {(n, node.core.height)}
        else {}),
      net.certs + (if run.qc.Some? then {Cert(n, ActiveValidators(ctx.codec, node.data), run.qc.value)} else {}))
  }

  /** What one delivery does, in terms of the handler. */
  lemma DeliverUnfolds(ctx: Context, net: Network, event: Event)
    requires event.node in net.nodes && event.node in ctx.keys
    ensures var n, input := event.node, event.input;
      var node, key := net.nodes[n], ctx.keys[n];
      var run, after := Handle(ctx.crypto, ctx.codec, key, node, input), Deliver(ctx, net, event);
      && after.nodes == net.nodes[n := Node.Node(run.core, Settled(ctx.crypto, ctx.codec, node.data, run.commit))]
      && after.sent == net.sent + Signed(ctx.crypto, key, node.core, input, run)
      && after.certs == net.certs
          + (if run.qc.Some? then {Cert(n, ActiveValidators(ctx.codec, node.data), run.qc.value)} else {})
      && after.handled == net.handled + (if input.Proposal?
          && Acceptable(ctx.crypto, node.core, input.block) then {(n, node.core.height)} else {})
      && forall m, g :: m != n ==> ((m, g) in after.handled <==> (m, g) in net.handled)
  {
    hide Handle, ActiveValidators, Acceptable, Settled, Signed;
  }

  // ---------------------------------------------------------------------------------------------
  // The invariant.

  ghost predicate GoodVotes(ctx: Context, sent: set<Vote>, votes: seq<Vote>, height: U64, voteType: VoteType) {
    forall i :: 0 <= i < |votes| ==> Authentic(ctx, sent, votes[i], voteType, height)
  }

  ghost predicate GoodBallots(ctx: Context, sent: set<Vote>, ballots: Ballots, height: U64, voteType: VoteType) {
    forall h :: h in ballots ==> GoodVotes(ctx, sent, ballots[h], height, voteType)
  }

  /** What an engine has signed lies at or below its height, at heights where it handled a proposal;
      while it waits for prevotes it has not yet precommitted at its height. */
  ghost predicate Restrained(ctx: Context, sent: set<Vote>, handled: set<(NodeId, U64)>, n: NodeId, height: U64,
                             preVoting: bool)
    requires n in ctx.keys
  {
    forall v :: v in sent && v.validator == ctx.AddressAt(n) ==>
      v.height <= height && (n, v.height) in handled && (preVoting && v.voteType.PreCommit? ==> v.height < height)
  }

  ghost predicate NodeInv(ctx: Context, sent: set<Vote>, handled: set<(NodeId, U64)>, n: NodeId, core: Core) {
    && n in ctx.keys && Sound(core)
    && GoodBallots(ctx, sent, core.precommits, core.height, PreCommit)
    && (core.step.PreVoting? ==> (n, core.height) in handled)
    && Restrained(ctx, sent, handled, n, core.height, core.step.PreVoting?)
  }

  /** Honest validators never sign two votes of one type at one height for different blocks. */
  ghost predicate OneVote(sent: set<Vote>) {
    forall v, w :: v in sent && w in sent && v.validator == w.validator && v.height == w.height
      && v.voteType == w.voteType
      ==> v.blockHash == w.blockHash
  }

  ghost predicate GoodCert(ctx: Context, sent: set<Vote>, cert: Cert) {
    && DistinctValidators(cert.validators) && SoundCertificate(cert.qc, cert.validators)
    && GoodVotes(ctx, sent, cert.qc.votes, cert.qc.height, PreCommit)
  }

  ghost predicate NetInv(ctx: Context, net: Network) {
    && (forall n :: n in net.nodes ==> NodeInv(ctx, net.sent, net.handled, n, net.nodes[n].core))
    && OneVote(net.sent)
    && (forall cert :: cert in net.certs ==> GoodCert(ctx, net.sent, cert))
  }

  lemma GoodVotesGrow(ctx: Context, sent: set<Vote>, more: set<Vote>, votes: seq<Vote>, height: U64, voteType: VoteType)
    requires GoodVotes(ctx, sent, votes, height, voteType) && sent <= more
    ensures GoodVotes(ctx, more, votes, height, voteType)
  {
    hide Context.IsHonest, Vote.Verify;
  }

  lemma GoodBallotsGrow(ctx: Context, sent: set<Vote>, more: set<Vote>, ballots: Ballots, height: U64,
                        voteType: VoteType)
    requires GoodBallots(ctx, sent, ballots, height, voteType) && sent <= more
    ensures GoodBallots(ctx, more, ballots, height, voteType)
  {
    hide GoodVotes;
    forall h | h in ballots ensures GoodVotes(ctx, more, ballots[h], height, voteType) {
      GoodVotesGrow(ctx, sent, more, ballots[h], height, voteType);
    }
  }

  lemma AddVoteGood(ctx: Context, sent: set<Vote>, ballots: Ballots, vote: Vote, height: U64, voteType: VoteType)
    requires GoodBallots(ctx, sent, ballots, height, voteType) && Authentic(ctx, sent, vote, voteType, height)
    ensures GoodBallots(ctx, sent, AddVote(ballots, vote), height, voteType)
    ensures GoodVotes(ctx, sent, VotesFor(AddVote(ballots, vote), vote.blockHash), height, voteType)
  {
    hide Authentic;
    var votes := VotesFor(ballots, vote.blockHash);
    assert GoodVotes(ctx, sent, votes, height, voteType);
    assert GoodVotes(ctx, sent, if HasVoted(votes, vote.validator) then votes else votes + [vote], height, voteType);
  }

  // ---------------------------------------------------------------------------------------------
  // One engine's step.

  lemma PreCommitStep(ctx: Context, sent: set<Vote>, handled: set<(NodeId, U64)>, n: NodeId, core: Core,
                      validators: seq<ValidatorInfo>, vote: Vote)
    requires NodeInv(ctx, sent, handled, n, core) && Authentic(ctx, sent, vote, PreCommit, core.height)
    requires DistinctValidators(validators) && core.height + 1 < U64_END
    ensures var run := OnPreCommit(ctx.crypto.hash, core, validators, vote);
      && NodeInv(ctx, sent, handled, n, run.core)
      && (run.qc.Some? ==> GoodCert(ctx, sent, Cert(n, validators, run.qc.value)))
  {
    hide *;
    var run := OnPreCommit(ctx.crypto.hash, core, validators, vote);
    NodeParts(ctx, sent, handled, n, core);
    OnPreCommitUnfolds(ctx.crypto.hash, core, validators, vote);
    AddVoteGood(ctx, sent, core.precommits, vote, core.height, PreCommit);
    PreCommitSound(ctx.crypto.hash, core, validators, vote);
    if run.qc.Some? {
      AdvancedInv(ctx, sent, handled, n, core, run.core);
      CertificateGood(ctx, sent, n, validators, ctx.crypto.hash, core, run);
    } else {
      NodeFrom(ctx, sent, handled, n, run.core);
    }
  }

  lemma NodeParts(ctx: Context, sent: set<Vote>, handled: set<(NodeId, U64)>, n: NodeId, core: Core)
    requires NodeInv(ctx, sent, handled, n, core)
    ensures n in ctx.keys && Sound(core) && GoodBallots(ctx, sent, core.precommits, core.height, PreCommit)
    ensures core.step.PreVoting? ==> (n, core.height) in handled
    ensures Restrained(ctx, sent, handled, n, core.height, core.step.PreVoting?)
  {
    hide Sound, GoodBallots, Restrained;
  }

  lemma NodeFrom(ctx: Context, sent: set<Vote>, handled: set<(NodeId, U64)>, n: NodeId, core: Core)
    requires n in ctx.keys && Sound(core) && GoodBallots(ctx, sent, core.precommits, core.height, PreCommit)
    requires core.step.PreVoting? ==> (n, core.height) in handled
    requires Restrained(ctx, sent, handled, n, core.height, core.step.PreVoting?)
    ensures NodeInv(ctx, sent, handled, n, core)
  {
    hide Sound, GoodBallots, Restrained;
  }

  lemma AdvancedInv(ctx: Context, sent: set<Vote>, handled: set<(NodeId, U64)>, n: NodeId, core: Core, next: Core)
    requires NodeInv(ctx, sent, handled, n, core) && core.height + 1 < U64_END && Sound(next)
    requires next.height == NextHeight(core.height) && next.precommits == map[] && next.step.NewRound?
    ensures NodeInv(ctx, sent, handled, n, next)
  {
    hide Sound;
  }

  lemma CertificateGood(ctx: Context, sent: set<Vote>, n: NodeId, validators: seq<ValidatorInfo>, hash: Hasher,
                        core: Core, run: Handled)
    requires DistinctValidators(validators) && Steady(hash, core, run, validators) && run.qc.Some?
    requires GoodVotes(ctx, sent, run.qc.value.votes, core.height, PreCommit)
    ensures GoodCert(ctx, sent, Cert(n, validators, run.qc.value))
  {
    hide DistinctValidators, SoundCertificate, GoodVotes, NextHeight, Block.BlockHash;
  }

  /** Signing a precommit on leaving the prevote step. */
  lemma PreVoteStep(ctx: Context, sent: set<Vote>, handled: set<(NodeId, U64)>, n: NodeId, core: Core,
                    validators: seq<ValidatorInfo>, vote: Vote)
    requires ctx.WellFormed() && NodeInv(ctx, sent, handled, n, core) && OneVote(sent)
    requires DistinctValidators(validators) && core.height + 1 < U64_END
    ensures var run := OnPreVote(ctx.crypto, ctx.keys[n], core, validators, vote);
      var more := sent + PreCommitOf(run);
      && NodeInv(ctx, more, handled, n, run.core) && OneVote(more)
      && (run.precommit.Some? ==> run.precommit.value.validator == ctx.AddressAt(n))
      && (run.qc.Some? ==> GoodCert(ctx, more, Cert(n, validators, run.qc.value)))
  {
    hide *;
    NodeParts(ctx, sent, handled, n, core);
    var run := OnPreVote(ctx.crypto, ctx.keys[n], core, validators, vote);
    var prevotes := AddVote(core.prevotes, vote);
    SoundParts(core);
    AddVoteOrderly(core.prevotes, vote);
    OnPreVoteUnfolds(ctx.crypto, ctx.keys[n], core, validators, vote);
    if run.precommit.Some? {
      var precommit, counted := run.precommit.value, core.(prevotes := prevotes, step := PreCommitting);
      SignedVote(ctx, n, vote.blockHash, core.height, core.round, PreCommit);
      OwnPreCommit(ctx, sent, handled, n, core, precommit);
      SoundWith(core, counted);
      GoodBallotsGrow(ctx, sent, sent + {precommit}, core.precommits, core.height, PreCommit);
      NodeFrom(ctx, sent + {precommit}, handled, n, counted);
      PreCommitStep(ctx, sent + {precommit}, handled, n, counted, validators, precommit);
      PreCommitOfIs(run);
    } else {
      SoundWith(core, run.core);
      NodeFrom(ctx, sent, handled, n, run.core);
      PreCommitOfIs(run);
      assert sent + {} == sent;
    }
  }

  lemma PreCommitOfIs(run: Handled)
    ensures PreCommitOf(run) == if run.precommit.Some? then {run.precommit.value} else {}
  {
  }

  lemma SignedVote(ctx: Context, n: NodeId, h: Hash, height: U64, round: U32, voteType: VoteType)
    requires ctx.WellFormed() && n in ctx.keys
    ensures var vote := NewSigned(ctx.crypto, ctx.keys[n], h, height, round, voteType);
      && vote.Verify(ctx.crypto).Pass? && vote.validator == ctx.AddressAt(n)
      && vote.blockHash == h && vote.height == height && vote.round == round && vote.voteType == voteType
  {
    hide NewSigned, Vote.Verify;
  }

  lemma SoundWith(core: Core, other: Core)
    requires Sound(core) && OrderlyBallots(other.prevotes) && !other.step.Committing?
    requires other == core.(prevotes := other.prevotes, step := other.step)
    ensures Sound(other) && core.round == 0
  {
    hide OrderlyBallots;
  }

  /** A precommit signed while waiting for prevotes is the engine's first at its height. */
  lemma OwnPreCommit(ctx: Context, sent: set<Vote>, handled: set<(NodeId, U64)>, n: NodeId, core: Core, vote: Vote)
    requires NodeInv(ctx, sent, handled, n, core) && OneVote(sent) && core.step.PreVoting?
    requires vote.validator == ctx.AddressAt(n) && vote.height == core.height && vote.round == core.round
    requires vote.voteType == PreCommit && vote.Verify(ctx.crypto).Pass?
    ensures OneVote(sent + {vote}) && Authentic(ctx, sent + {vote}, vote, PreCommit, core.height)
    ensures Restrained(ctx, sent + {vote}, handled, n, core.height, false)
  {
    hide GoodBallots, OrderlyBallots, Context.AddressAt, Context.IsHonest, Vote.Verify;
  }

  /** Signing a prevote for the one proposal handled at a height. */
  lemma ProposalStep(ctx: Context, sent: set<Vote>, handled: set<(NodeId, U64)>, n: NodeId, core: Core,
                     validators: seq<ValidatorInfo>, block: Block)
    requires ctx.WellFormed() && NodeInv(ctx, sent, handled, n, core) && OneVote(sent)
    requires DistinctValidators(validators) && core.height + 1 < U64_END
    requires Acceptable(ctx.crypto, core, block) && (n, core.height) !in handled
    ensures var run := OnProposal(ctx.crypto, ctx.keys[n], core, validators, block);
      var prevote := PreVoteFor(ctx.crypto, ctx.keys[n], core, block);
      var more := sent + {prevote} + PreCommitOf(run);
      && NodeInv(ctx, more, handled + {(n, core.height)}, n, run.core) && OneVote(more)
      && prevote.validator == ctx.AddressAt(n)
      && (run.precommit.Some? ==> run.precommit.value.validator == ctx.AddressAt(n))
      && (run.qc.Some? ==> GoodCert(ctx, more, Cert(n, validators, run.qc.value)))
  {
    hide *;
    NodeParts(ctx, sent, handled, n, core);
    var prevote := PreVoteFor(ctx.crypto, ctx.keys[n], core, block);
    var proposed := core.(proposed := Some(block), step := PreVoting);
    OnProposalUnfolds(ctx.crypto, ctx.keys[n], core, validators, block);
    SignedVote(ctx, n, block.BlockHash(ctx.crypto.hash), core.height, core.round, PreVote);
    OwnPreVote(ctx, sent, handled, n, core, prevote);
    SoundWithProposal(core, block);
    GoodBallotsGrow(ctx, sent, sent + {prevote}, core.precommits, core.height, PreCommit);
    NodeFrom(ctx, sent + {prevote}, handled + {(n, core.height)}, n, proposed);
    PreVoteStep(ctx, sent + {prevote}, handled + {(n, core.height)}, n, proposed, validators, prevote);
  }

  lemma OwnPreVote(ctx: Context, sent: set<Vote>, handled: set<(NodeId, U64)>, n: NodeId, core: Core, vote: Vote)
    requires NodeInv(ctx, sent, handled, n, core) && OneVote(sent) && (n, core.height) !in handled
    requires vote.validator == ctx.AddressAt(n) && vote.height == core.height && vote.voteType == PreVote
    ensures OneVote(sent + {vote})
    ensures Restrained(ctx, sent + {vote}, handled + {(n, core.height)}, n, core.height, true)
  {
    hide GoodBallots, OrderlyBallots, Context.AddressAt;
  }

  // ---------------------------------------------------------------------------------------------
  // The network's step.

  /** Votes signed elsewhere do not disturb an engine. */
  lemma OtherNodeKept(ctx: Context, sent: set<Vote>, more: set<Vote>, handled: set<(NodeId, U64)>,
                      moreHandled: set<(NodeId, U64)>, n: NodeId, m: NodeId, core: Core)
    requires ctx.WellFormed() && n in ctx.keys && m != n && NodeInv(ctx, sent, handled, m, core)
    requires sent <= more && handled <= moreHandled
    requires forall v :: v in more && v !in sent ==> v.validator == ctx.AddressAt(n)
    ensures NodeInv(ctx, more, moreHandled, m, core)
  {
    NodeParts(ctx, sent, handled, m, core);
    GoodBallotsGrow(ctx, sent, more, core.precommits, core.height, PreCommit);
    hide Sound, GoodBallots, Crypto.SignaturesVerify, Context.AddressAt;
    assert ctx.AddressAt(m) != ctx.AddressAt(n);
  }

  lemma CertKept(ctx: Context, sent: set<Vote>, more: set<Vote>, cert: Cert)
    requires GoodCert(ctx, sent, cert) && sent <= more
    ensures GoodCert(ctx, more, cert)
  {
    GoodVotesGrow(ctx, sent, more, cert.qc.votes, cert.qc.height, PreCommit);
    hide GoodVotes, SoundCertificate, DistinctValidators;
  }

  /** The engine that handled the event, and what it signed and certified. */
  ghost predicate Stepped(ctx: Context, net: Network, n: NodeId, core: Core, more: set<Vote>,
                          moreHandled: set<(NodeId, U64)>, moreCerts: set<Cert>) {
    && n in ctx.keys && net.sent <= more && net.handled <= moreHandled
    && (forall v :: v in more && v !in net.sent ==> v.validator == ctx.AddressAt(n))
    && NodeInv(ctx, more, moreHandled, n, core) && OneVote(more)
    && (forall cert :: cert in moreCerts && cert !in net.certs ==> GoodCert(ctx, more, cert))
  }

  lemma HandleStep(ctx: Context, net: Network, event: Event)
    requires ctx.WellFormed() && NetInv(ctx, net) && Allowed(ctx, net, event)
    ensures var after := Deliver(ctx, net, event);
      Stepped(ctx, net, event.node, after.nodes[event.node].core, after.sent, after.handled, after.certs)
  {
    hide *;
    DeliverParts(ctx, net, event);
    var n, input := event.node, event.input;
    var node := net.nodes[n];
    var core, validators := node.core, ActiveValidators(ctx.codec, node.data);
    var key := ctx.keys[n];
    var run := Handle(ctx.crypto, ctx.codec, key, node, input);
    ActiveDistinct(ctx.codec, node.data);
    HandleParts(ctx.crypto, ctx.codec, key, node, input);
    PreCommitOfIs(run);
    var after := Deliver(ctx, net, event);
    assert net.sent + {} == net.sent;
    match input {
      case Create(_, _, _, _) =>
        CreateStep(ctx, net.sent, net.handled, n, node, input);
      case Proposal(block) =>
        if Acceptable(ctx.crypto, core, block) {
          ProposalStep(ctx, net.sent, net.handled, n, core, validators, block);
        }
      case PreVoteIn(vote) =>
        PreVoteStep(ctx, net.sent, net.handled, n, core, validators, vote);
      case PreCommitIn(vote) =>
        PreCommitStep(ctx, net.sent, net.handled, n, core, validators, vote);
        NoPreCommitCast(ctx.crypto.hash, core, validators, vote);
    }
    SteppedFrom(ctx, net, n, run.core, after, run, validators);
  }

  lemma SteppedFrom(ctx: Context, net: Network, n: NodeId, core: Core, after: Network, run: Handled,
                    validators: seq<ValidatorInfo>)
    requires n in ctx.keys && net.sent <= after.sent && net.handled <= after.handled
    requires forall v :: v in after.sent && v !in net.sent ==> v.validator == ctx.AddressAt(n)
    requires NodeInv(ctx, after.sent, after.handled, n, core) && OneVote(after.sent)
    requires after.certs == net.certs + (if run.qc.Some? then {Cert(n, validators, run.qc.value)} else {})
    requires run.qc.Some? ==> GoodCert(ctx, after.sent, Cert(n, validators, run.qc.value))
    ensures Stepped(ctx, net, n, core, after.sent, after.handled, after.certs)
  {
    hide NodeInv, OneVote, GoodCert, Context.AddressAt;
  }

  lemma DeliverParts(ctx: Context, net: Network, event: Event)
    requires NetInv(ctx, net) && Allowed(ctx, net, event)
    ensures event.node in net.nodes && event.node in ctx.keys
    ensures var n, input := event.node, event.input;
      var node, key := net.nodes[n], ctx.keys[n];
      var after, run := Deliver(ctx, net, event), Handle(ctx.crypto, ctx.codec, key, node, input);
      && n in after.nodes && after.nodes[n].core == run.core && node.core.height + 1 < U64_END
      && NodeInv(ctx, net.sent, net.handled, n, node.core) && OneVote(net.sent)
      && after.certs == net.certs
          + (if run.qc.Some? then {Cert(n, ActiveValidators(ctx.codec, node.data), run.qc.value)} else {})
      && (if input.Proposal? && Acceptable(ctx.crypto, node.core, input.block) then
            && (n, node.core.height) !in net.handled && after.handled == net.handled + {(n, node.core.height)}
            && after.sent == net.sent + {PreVoteFor(ctx.crypto, key, node.core, input.block)} + PreCommitOf(run)
          else after.handled == net.handled && after.sent == net.sent + PreCommitOf(run))
      && (input.PreCommitIn? ==> Authentic(ctx, net.sent, input.vote, PreCommit, node.core.height))
  {
    hide NodeInv, OneVote, GoodCert, Handle, Deliver, ActiveValidators, PreVoteFor, PreCommitOf, Acceptable, Authentic;
    hide Settled;
    var n, input := event.node, event.input;
    var node, key := net.nodes[n], ctx.keys[n];
    var run := Handle(ctx.crypto, ctx.codec, key, node, input);
    DeliverUnfolds(ctx, net, event);
    if input.Proposal? && Acceptable(ctx.crypto, node.core, input.block) {
      var prevote := PreVoteFor(ctx.crypto, key, node.core, input.block);
      assert net.sent + ({prevote} + PreCommitOf(run)) == net.sent + {prevote} + PreCommitOf(run);
    } else {
      assert {} + PreCommitOf(run) == PreCommitOf(run);
      assert net.handled + {} == net.handled;
    }
  }

  lemma CreateStep(ctx: Context, sent: set<Vote>, handled: set<(NodeId, U64)>, n: NodeId, node: Node, input: Input)
    requires NodeInv(ctx, sent, handled, n, node.core) && input.Create?
    ensures var run := Handle(ctx.crypto, ctx.codec, ctx.keys[n], node, input);
      NodeInv(ctx, sent, handled, n, run.core) && run.qc.None? && run.precommit.None?
  {
    hide *;
    NodeParts(ctx, sent, handled, n, node.core);
    HandleSound(ctx.crypto, ctx.codec, ctx.keys[n], node, input);
    CreatedCore(ctx.crypto, ctx.codec, ctx.keys[n], node, input);
    var core := Handle(ctx.crypto, ctx.codec, ctx.keys[n], node, input).core;
    NotPreVoting(ctx, sent, handled, n, core.height, node.core.step.PreVoting?);
    NodeFrom(ctx, sent, handled, n, core);
  }

  lemma NotPreVoting(ctx: Context, sent: set<Vote>, handled: set<(NodeId, U64)>, n: NodeId, height: U64,
                     preVoting: bool)
    requires n in ctx.keys && Restrained(ctx, sent, handled, n, height, preVoting)
    ensures Restrained(ctx, sent, handled, n, height, false)
  {
    hide Context.AddressAt;
  }

  /** Every allowed event keeps the invariant. */
  lemma DeliverKeeps(ctx: Context, net: Network, event: Event)
    requires ctx.WellFormed() && NetInv(ctx, net) && Allowed(ctx, net, event)
    ensures NetInv(ctx, Deliver(ctx, net, event))
  {
    hide *;
    HandleStep(ctx, net, event);
    var after := Deliver(ctx, net, event);
    OthersUntouched(ctx, net, event);
    NetParts(ctx, net);
    SteppedParts(ctx, net, event.node, after.nodes[event.node].core, after.sent, after.handled, after.certs);
    forall m | m in after.nodes ensures NodeInv(ctx, after.sent, after.handled, m, after.nodes[m].core) {
      if m != event.node {
        OtherNodeKept(ctx, net.sent, after.sent, net.handled, after.handled, event.node, m, net.nodes[m].core);
      }
    }
    forall cert | cert in after.certs ensures GoodCert(ctx, after.sent, cert) {
      if cert in net.certs {
        CertKept(ctx, net.sent, after.sent, cert);
      }
    }
    NetFrom(ctx, after);
  }

  lemma OthersUntouched(ctx: Context, net: Network, event: Event)
    requires Allowed(ctx, net, event)
    ensures var after := Deliver(ctx, net, event);
      && after.nodes.Keys == net.nodes.Keys && event.node in net.nodes
      && forall m :: m in net.nodes && m != event.node ==> after.nodes[m] == net.nodes[m]
  {
    hide Next, Handle, Signed, ActiveValidators, Acceptable, Authentic;
  }

  lemma SteppedParts(ctx: Context, net: Network, n: NodeId, core: Core, more: set<Vote>,
                     moreHandled: set<(NodeId, U64)>, moreCerts: set<Cert>)
    requires Stepped(ctx, net, n, core, more, moreHandled, moreCerts)
    ensures n in ctx.keys && net.sent <= more && net.handled <= moreHandled
    ensures forall v :: v in more && v !in net.sent ==> v.validator == ctx.AddressAt(n)
    ensures NodeInv(ctx, more, moreHandled, n, core) && OneVote(more)
    ensures forall cert :: cert in moreCerts && cert !in net.certs ==> GoodCert(ctx, more, cert)
  {
    hide NodeInv, OneVote, GoodCert, Context.AddressAt;
  }

  lemma NetFrom(ctx: Context, net: Network)
    requires forall n :: n in net.nodes ==> NodeInv(ctx, net.sent, net.handled, n, net.nodes[n].core)
    requires OneVote(net.sent) && forall cert :: cert in net.certs ==> GoodCert(ctx, net.sent, cert)
    ensures NetInv(ctx, net)
  {
    hide NodeInv, OneVote, GoodCert;
  }

  // ---------------------------------------------------------------------------------------------
  // Runs.

  /** Engines as `new` starts them, each on some store. */
  ghost function Genesis(ctx: Context, stores: map<NodeId, Store>): Network {
    Network(map n | n in stores :: Started(stores[n]), {}, {}, {})
  }

  ghost predicate ProperRun(ctx: Context, net: Network, events: seq<Event>, once: bool)
    decreases |events|
  {
    events != [] ==>
      Proper(ctx, net, events[0], once) && ProperRun(ctx, Deliver(ctx, net, events[0]), events[1..], once)
  }

  ghost predicate AllowedRun(ctx: Context, net: Network, events: seq<Event>) {
    ProperRun(ctx, net, events, true)
  }

  lemma AllowedIs(ctx: Context, net: Network, events: seq<Event>)
    ensures AllowedRun(ctx, net, events) <==> ProperRun(ctx, net, events, true)
  {
    hide ProperRun;
  }

  ghost function RunNetwork(ctx: Context, net: Network, events: seq<Event>): Network
    decreases |events|
  {
    if events == [] then net else RunNetwork(ctx, Deliver(ctx, net, events[0]), events[1..])
  }

  lemma {:induction false} RunKeeps(ctx: Context, net: Network, events: seq<Event>)
    requires ctx.WellFormed() && NetInv(ctx, net) && AllowedRun(ctx, net, events)
    ensures NetInv(ctx, RunNetwork(ctx, net, events))
    decreases |events|
  {
    hide NetInv, Proper, Deliver, Context.WellFormed;
    if events != [] {
      DeliverKeeps(ctx, net, events[0]);
      RunKeeps(ctx, Deliver(ctx, net, events[0]), events[1..]);
    }
  }

  lemma GenesisInv(ctx: Context, stores: map<NodeId, Store>)
    requires stores.Keys == ctx.keys.Keys
    ensures NetInv(ctx, Genesis(ctx, stores))
  {
    forall n | n in stores ensures NodeInv(ctx, {}, {}, n, Started(stores[n]).core) {
      StartedSound(stores[n]);
    }
  }

  // ---------------------------------------------------------------------------------------------
  // Agreement and accountability.

  /** The validators that no honest engine stands behind. */
  ghost function Faulty(ctx: Context, validators: seq<ValidatorInfo>): set<Address> {
    set a | a in Addresses(validators) && !ctx.IsHonest(a)
  }

  /** The bounds of agreement: the power fits in 64 bits, and at most a third of it is faulty. */
  ghost predicate WithinBounds(ctx: Context, validators: seq<ValidatorInfo>) {
    && TotalPower(validators) < U64_END
    && Sum(Faulty(ctx, validators), PowerIn(validators)) * 3 <= TotalPower(validators)
  }

  /** Authentic votes of one type and height for a hash, one per validator. */
  ghost predicate GoodList(ctx: Context, sent: set<Vote>, votes: seq<Vote>, h: Hash, height: U64, voteType: VoteType) {
    OrderlyVotes(votes, h) && GoodVotes(ctx, sent, votes, height, voteType)
  }

  lemma CertThreshold(ctx: Context, sent: set<Vote>, cert: Cert)
    requires GoodCert(ctx, sent, cert) && TotalPower(cert.validators) < U64_END
    ensures DistinctVoters(cert.qc.votes) && DistinctValidators(cert.validators)
    ensures CountedPower(cert.qc.votes, cert.validators) * 3 > TotalPower(cert.validators) * 2
  {
    hide DistinctVoters, DistinctValidators, TotalPower, CountedPower, PowerSum, VotePower, GoodVotes;
  }

  lemma CertList(ctx: Context, sent: set<Vote>, cert: Cert)
    requires GoodCert(ctx, sent, cert)
    ensures GoodList(ctx, sent, cert.qc.votes, cert.qc.blockHash, cert.qc.height, PreCommit)
  {
    hide OrderlyVotes, DistinctValidators, TotalPower, CountedPower, PowerSum, VotePower, GoodVotes;
  }

  /** One validator's votes for two hashes. */
  ghost predicate BothBy(ctx: Context, sent: set<Vote>, g: Hash, h: Hash, height: U64, voteType: VoteType, v: Address,
                         x: Vote, y: Vote) {
    && x.validator == v && y.validator == v && x.blockHash == g && y.blockHash == h
    && Authentic(ctx, sent, x, voteType, height) && Authentic(ctx, sent, y, voteType, height)
  }

  lemma SharedVotes(ctx: Context, sent: set<Vote>, a: seq<Vote>, b: seq<Vote>, g: Hash, h: Hash, height: U64,
                    voteType: VoteType, v: Address)
    returns (x: Vote, y: Vote)
    requires GoodList(ctx, sent, a, g, height, voteType) && GoodList(ctx, sent, b, h, height, voteType)
    requires v in Voters(a) * Voters(b)
    ensures x in a && y in b && BothBy(ctx, sent, g, h, height, voteType, v, x, y)
  {
    hide Authentic, DistinctVoters;
    var i :| 0 <= i < |a| && a[i].validator == v;
    var j :| 0 <= j < |b| && b[j].validator == v;
    x, y := a[i], b[j];
  }

  /** Quorums of authentic votes of one type agree when honest validators vote once and the others
      hold at most a third. */
  lemma QuorumsAgree(ctx: Context, sent: set<Vote>, validators: seq<ValidatorInfo>, a: seq<Vote>, b: seq<Vote>, g: Hash,
                     h: Hash, height: U64, voteType: VoteType)
    requires OneVote(sent) && DistinctValidators(validators) && DistinctVoters(a) && DistinctVoters(b)
    requires GoodList(ctx, sent, a, g, height, voteType) && GoodList(ctx, sent, b, h, height, voteType)
    requires CountedPower(a, validators) * 3 > TotalPower(validators) * 2
    requires CountedPower(b, validators) * 3 > TotalPower(validators) * 2
    requires Sum(Faulty(ctx, validators), PowerIn(validators)) * 3 <= TotalPower(validators)
    ensures g == h
  {
    hide *;
    QuorumsIntersect(a, b, validators);
    SharedAreValidators(validators, Voters(a) * Voters(b));
    var shared := Voters(a) * Voters(b) * Addresses(validators);
    MoreThanFaulty(validators, shared, Faulty(ctx, validators));
    var v :| v in shared && v !in Faulty(ctx, validators);
    FaultyIs(ctx, validators, v);
    var x, y := SharedVotes(ctx, sent, a, b, g, h, height, voteType, v);
    HonestAgree(ctx, sent, g, h, height, voteType, v, x, y);
  }

  lemma GoodCertsAgree(ctx: Context, sent: set<Vote>, a: Cert, b: Cert)
    requires OneVote(sent) && GoodCert(ctx, sent, a) && GoodCert(ctx, sent, b)
    requires a.qc.height == b.qc.height && a.validators == b.validators && TotalPower(a.validators) < U64_END
    requires Sum(Faulty(ctx, a.validators), PowerIn(a.validators)) * 3 <= TotalPower(a.validators)
    ensures a.qc.blockHash == b.qc.blockHash
  {
    hide *;
    CertThreshold(ctx, sent, a);
    CertThreshold(ctx, sent, b);
    CertList(ctx, sent, a);
    CertList(ctx, sent, b);
    QuorumsAgree(ctx, sent, a.validators, a.qc.votes, b.qc.votes, a.qc.blockHash, b.qc.blockHash, a.qc.height,
      PreCommit);
  }

  /** Agreement. In every run of honest engines among arbitrary voters, two certificates of one
      height under one validator set are for the same block, as long as validators without an honest
      engine hold at most a third of the power. */
  lemma CertificatesAgree(ctx: Context, stores: map<NodeId, Store>, events: seq<Event>, a: Cert, b: Cert)
    requires ctx.WellFormed() && stores.Keys == ctx.keys.Keys && AllowedRun(ctx, Genesis(ctx, stores), events)
    requires a in RunNetwork(ctx, Genesis(ctx, stores), events).certs
    requires b in RunNetwork(ctx, Genesis(ctx, stores), events).certs
    requires a.qc.height == b.qc.height && a.validators == b.validators && TotalPower(a.validators) < U64_END
    requires Sum(Faulty(ctx, a.validators), PowerIn(a.validators)) * 3 <= TotalPower(a.validators)
    ensures a.qc.blockHash == b.qc.blockHash
  {
    hide *;
    var net := RunNetwork(ctx, Genesis(ctx, stores), events);
    GenesisInv(ctx, stores);
    RunKeeps(ctx, Genesis(ctx, stores), events);
    NetParts(ctx, net);
    GoodCertsAgree(ctx, net.sent, a, b);
  }

  lemma NetParts(ctx: Context, net: Network)
    requires NetInv(ctx, net)
    ensures OneVote(net.sent) && forall cert :: cert in net.certs ==> GoodCert(ctx, net.sent, cert)
    ensures forall n :: n in net.nodes ==> NodeInv(ctx, net.sent, net.handled, n, net.nodes[n].core)
  {
    hide OneVote, GoodCert, NodeInv;
  }

  lemma FaultyIs(ctx: Context, validators: seq<ValidatorInfo>, v: Address)
    requires v in Addresses(validators) && v !in Faulty(ctx, validators)
    ensures ctx.IsHonest(v)
  {
    hide Context.IsHonest;
  }

  /** Only validators count. */
  lemma SharedAreValidators(validators: seq<ValidatorInfo>, s: set<Address>)
    ensures Sum(s * Addresses(validators), PowerIn(validators)) == Sum(s, PowerIn(validators))
  {
    var all := Addresses(validators);
    hide Addresses, PowerOf;
    SumDifference(s, s * all, PowerIn(validators));
    PowerOfStrangers(validators, s - s * all);
  }

  lemma HonestAgree(ctx: Context, sent: set<Vote>, g: Hash, h: Hash, height: U64, voteType: VoteType, v: Address,
                    x: Vote, y: Vote)
    requires OneVote(sent) && ctx.IsHonest(v) && BothBy(ctx, sent, g, h, height, voteType, v, x, y)
    ensures g == h
  {
    hide Context.IsHonest, Vote.Verify;
  }

  /** A validator both of whose votes together make evidence of double signing. */
  ghost predicate Convictable(crypto: Crypto, a: QuorumCertificate, b: QuorumCertificate, v: Address) {
    exists x, y :: x in a.votes && y in b.votes && DoubleSignEvidence(x, y).Verify(crypto) == Ok(v)
  }

  lemma GoodCertsConvict(ctx: Context, sent: set<Vote>, a: Cert, b: Cert)
    requires GoodCert(ctx, sent, a) && GoodCert(ctx, sent, b)
    requires a.qc.height == b.qc.height && a.validators == b.validators && TotalPower(a.validators) < U64_END
    requires a.qc.blockHash != b.qc.blockHash
    ensures var guilty := Voters(a.qc.votes) * Voters(b.qc.votes);
      && Sum(guilty, PowerIn(a.validators)) * 3 > TotalPower(a.validators)
      && forall v :: v in guilty ==> Convictable(ctx.crypto, a.qc, b.qc, v)
  {
    hide *;
    CertThreshold(ctx, sent, a);
    CertThreshold(ctx, sent, b);
    CertList(ctx, sent, a);
    CertList(ctx, sent, b);
    QuorumsIntersect(a.qc.votes, b.qc.votes, a.validators);
    forall v | v in Voters(a.qc.votes) * Voters(b.qc.votes) ensures Convictable(ctx.crypto, a.qc, b.qc, v) {
      var x, y :=
        SharedVotes(ctx, sent, a.qc.votes, b.qc.votes, a.qc.blockHash, b.qc.blockHash, a.qc.height, PreCommit, v);
      BothConvict(ctx, sent, a, b, v, x, y);
    }
  }

  lemma GuiltyNotHonest(ctx: Context, sent: set<Vote>, a: Cert, b: Cert, v: Address)
    requires OneVote(sent) && GoodCert(ctx, sent, a) && GoodCert(ctx, sent, b) && a.qc.height == b.qc.height
    requires a.qc.blockHash != b.qc.blockHash && v in Voters(a.qc.votes) * Voters(b.qc.votes)
    ensures !ctx.IsHonest(v)
  {
    hide *;
    CertList(ctx, sent, a);
    CertList(ctx, sent, b);
    if ctx.IsHonest(v) {
      var x, y :=
        SharedVotes(ctx, sent, a.qc.votes, b.qc.votes, a.qc.blockHash, b.qc.blockHash, a.qc.height, PreCommit, v);
      HonestAgree(ctx, sent, a.qc.blockHash, b.qc.blockHash, a.qc.height, PreCommit, v, x, y);
    }
  }

  /** Accountability. However many validators misbehave, if two certificates of one height under one
      validator set disagree, validators holding more than a third of the power signed both, none of
      them is honest, and each pair of their votes is evidence that `verify` accepts. */
  lemma DisagreementConvicts(ctx: Context, stores: map<NodeId, Store>, events: seq<Event>, a: Cert, b: Cert)
    requires ctx.WellFormed() && stores.Keys == ctx.keys.Keys && AllowedRun(ctx, Genesis(ctx, stores), events)
    requires a in RunNetwork(ctx, Genesis(ctx, stores), events).certs
    requires b in RunNetwork(ctx, Genesis(ctx, stores), events).certs
    requires a.qc.height == b.qc.height && a.validators == b.validators && TotalPower(a.validators) < U64_END
    requires a.qc.blockHash != b.qc.blockHash
    ensures var guilty := Voters(a.qc.votes) * Voters(b.qc.votes);
      && Sum(guilty, PowerIn(a.validators)) * 3 > TotalPower(a.validators)
      && forall v :: v in guilty ==> Convictable(ctx.crypto, a.qc, b.qc, v) && !ctx.IsHonest(v)
  {
    hide *;
    var net := RunNetwork(ctx, Genesis(ctx, stores), events);
    GenesisInv(ctx, stores);
    RunKeeps(ctx, Genesis(ctx, stores), events);
    NetParts(ctx, net);
    GoodCertsConvict(ctx, net.sent, a, b);
    forall v | v in Voters(a.qc.votes) * Voters(b.qc.votes) ensures !ctx.IsHonest(v) {
      GuiltyNotHonest(ctx, net.sent, a, b, v);
    }
  }

  lemma BothConvict(ctx: Context, sent: set<Vote>, a: Cert, b: Cert, v: Address, x: Vote, y: Vote)
    requires BothBy(ctx, sent, a.qc.blockHash, b.qc.blockHash, a.qc.height, PreCommit, v, x, y)
    requires a.qc.blockHash != b.qc.blockHash
    requires x in a.qc.votes && y in b.qc.votes
    ensures Convictable(ctx.crypto, a.qc, b.qc, v)
  {
    hide Context.IsHonest, Vote.Verify;
    assert DoubleSignEvidence(x, y).Verify(ctx.crypto) == Ok(v);
  }

  /** And no honest engine is ever convicted: no two votes it signed make accepted evidence. */
  lemma HonestNotConvicted(ctx: Context, stores: map<NodeId, Store>, events: seq<Event>, x: Vote, y: Vote)
    requires ctx.WellFormed() && stores.Keys == ctx.keys.Keys && AllowedRun(ctx, Genesis(ctx, stores), events)
    requires x in RunNetwork(ctx, Genesis(ctx, stores), events).sent
    requires y in RunNetwork(ctx, Genesis(ctx, stores), events).sent
    ensures DoubleSignEvidence(x, y).Verify(ctx.crypto).Err?
  {
    hide *;
    GenesisInv(ctx, stores);
    RunKeeps(ctx, Genesis(ctx, stores), events);
    NetParts(ctx, RunNetwork(ctx, Genesis(ctx, stores), events));
    OneVoteNoEvidence(ctx.crypto, RunNetwork(ctx, Genesis(ctx, stores), events).sent, x, y);
  }

  lemma OneVoteNoEvidence(crypto: Crypto, sent: set<Vote>, x: Vote, y: Vote)
    requires OneVote(sent) && x in sent && y in sent
    ensures DoubleSignEvidence(x, y).Verify(crypto).Err?
  {
    hide Vote.Verify;
  }

  /** Nothing in the code holds an engine to one proposal per height: handling a second one signs a
      second prevote, and the two are accepted evidence exactly when the blocks differ. */
  lemma SecondProposalConvicts(crypto: Crypto, key: SecretKey, core: Core, later: Core, a: Block, b: Block)
    requires crypto.SignaturesVerify() && Acceptable(crypto, core, a) && Acceptable(crypto, later, b)
    requires later.height == core.height && later.round == core.round
    ensures DoubleSignEvidence(PreVoteFor(crypto, key, core, a), PreVoteFor(crypto, key, later, b)).Verify(crypto).Ok?
       <==> a.BlockHash(crypto.hash) != b.BlockHash(crypto.hash)
  {
    hide Block.BlockHash, Block.ValidateBasic, Vote.Verify, NewSigned;
  }
}
