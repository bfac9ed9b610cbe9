/** Two honest engines of equal stake, and no other validator: a run in which both certify one block,
    and one in which each handles two proposals and they certify different blocks. */
module TwoEngines {
  import opened Bytes
  import opened Crypto
  import opened Sums
  import opened Kv
  import opened Votes
  import opened Blocks
  import opened Ledger
  import opened ChainStore
  import opened State
  import opened StateTheorems
  import opened Proposer
  import opened Quorums
  import opened EngineSpec
  import opened Engine
  import opened EngineRuns
  import opened Agreement

  // ---------------------------------------------------------------------------------------------
  // The setting.

  ghost predicate IsPair(ctx: Context) {
    ctx.WellFormed() && ctx.codec.RoundTrips() && ctx.keys.Keys == {0, 1}
  }

  function UnitStake(pubkey: PublicKey): Account {
    Account(0, 0, 1, true, Some(pubkey))
  }

  function EntryAt(ctx: Context, n: NodeId): ValidatorEntry
    requires n in ctx.keys
  {
    ValidatorEntry(ctx.AddressAt(n), UnitStake(ctx.crypto.publicKey(ctx.keys[n])))
  }

  /** The store both start from: an account for each, and no block yet. */
  function PairStore(ctx: Context): Store
    requires 0 in ctx.keys && 1 in ctx.keys
  {
    map[AccountKey(ctx.AddressAt(0)) := ctx.codec.encodeAccount(EntryAt(ctx, 0).account),
        AccountKey(ctx.AddressAt(1)) := ctx.codec.encodeAccount(EntryAt(ctx, 1).account)]
  }

  /** Two validators of one unit each. */
  ghost predicate EqualStakes(validators: seq<ValidatorInfo>, a: Address, b: Address) {
    && a != b && DistinctValidators(validators) && TotalPower(validators) == 2
    && PowerOf(validators, a) == 1 && PowerOf(validators, b) == 1 && Addresses(validators) == {a, b}
  }

  lemma AddressesDiffer(ctx: Context)
    requires IsPair(ctx)
    ensures 0 in ctx.keys && 1 in ctx.keys && ctx.AddressAt(0) != ctx.AddressAt(1)
  {
    hide Context.AddressAt, Crypto.SignaturesVerify;
    assert 0 in ctx.keys.Keys && 1 in ctx.keys.Keys;
  }

  lemma EntryIsActive(ctx: Context, v: ValidatorEntry)
    requires IsPair(ctx) && 0 in ctx.keys && 1 in ctx.keys
    ensures IsActive(ctx.codec, PairStore(ctx), v) <==> v == EntryAt(ctx, 0) || v == EntryAt(ctx, 1)
  {
    AddressesDiffer(ctx);
    hide Context.AddressAt, Context.WellFormed;
    assert AccountKey(v.address)[2..] == v.address;
    assert AccountKey(ctx.AddressAt(0))[2..] == ctx.AddressAt(0)
      && AccountKey(ctx.AddressAt(1))[2..] == ctx.AddressAt(1);
  }

  lemma TwoEntries(entries: seq<ValidatorEntry>, x: ValidatorEntry, y: ValidatorEntry)
    requires DistinctAddresses(entries) && x.address != y.address && forall v :: v in entries <==> v == x || v == y
    ensures entries == [x, y] || entries == [y, x]
  {
    assert x in entries && y in entries;
    assert entries[0] in entries;
    var z := if entries[0] == x then y else x;
    forall k | 1 <= k < |entries| ensures entries[k] == z {
      assert entries[k] in entries && entries[0].address != entries[k].address;
    }
    assert z in entries;
    assert entries[1].address == entries[|entries| - 1].address;
  }

  lemma InfosOfTwo(x: ValidatorEntry, y: ValidatorEntry)
    requires x.account.validatorPubkey.Some? && y.account.validatorPubkey.Some?
    ensures InfosOf([x, y]) == [
      ValidatorInfo(x.address, x.account.validatorPubkey.value, x.account.stakedAmount),
      ValidatorInfo(y.address, y.account.validatorPubkey.value, y.account.stakedAmount)]
  {
    assert [x, y][..1] == [x] && [x][..0] == [];
    assert InfosOf([x]) == InfosOf([])
      + [ValidatorInfo(x.address, x.account.validatorPubkey.value, x.account.stakedAmount)];
  }

  lemma UnitPowers(x: ValidatorInfo, y: ValidatorInfo)
    requires x.address != y.address && x.votingPower == 1 && y.votingPower == 1
    ensures EqualStakes([x, y], x.address, y.address) && EqualStakes([x, y], y.address, x.address)
  {
    assert [x, y][..1] == [x] && [x][..0] == [] && [x, y][1..] == [y];
    assert TotalPower([x]) == 1;
    assert Addresses([x]) == {x.address};
  }

  lemma StakesAreEqual(ctx: Context)
    requires IsPair(ctx) && 0 in ctx.keys && 1 in ctx.keys
    ensures var validators := ActiveValidators(ctx.codec, PairStore(ctx));
      && EqualStakes(validators, ctx.AddressAt(0), ctx.AddressAt(1))
      && EqualStakes(validators, ctx.AddressAt(1), ctx.AddressAt(0))
  {
    var data, x, y := PairStore(ctx), EntryAt(ctx, 0), EntryAt(ctx, 1);
    var entries := ValidatorsIn(ctx.codec, Scan(data, CF_ACCOUNTS));
    AddressesDiffer(ctx);
    hide *;
    EntryFields(ctx, 0);
    EntryFields(ctx, 1);
    ValidatorsExactly(ctx.codec, data);
    forall v ensures v in entries <==> v == x || v == y {
      EntryIsActive(ctx, v);
    }
    TwoEntries(entries, x, y);
    ActiveAre(ctx.codec, data);
    InfosOfTwo(x, y);
    InfosOfTwo(y, x);
    UnitPowers(InfosOf([x, y])[0], InfosOf([x, y])[1]);
    UnitPowers(InfosOf([y, x])[0], InfosOf([y, x])[1]);
  }

  lemma EntryFields(ctx: Context, n: NodeId)
    requires n in ctx.keys
    ensures EntryAt(ctx, n).address == ctx.AddressAt(n) && EntryAt(ctx, n).account.stakedAmount == 1
    ensures EntryAt(ctx, n).account.validatorPubkey.Some?
  {
  }

  /** One vote is no quorum, two are. */
  lemma VotesNeeded(validators: seq<ValidatorInfo>, a: Address, b: Address)
    requires EqualStakes(validators, a, b)
    ensures Sum({a}, PowerIn(validators)) == 1 && Sum({} + {a}, PowerIn(validators)) == 1
    ensures Sum({a} + {b}, PowerIn(validators)) == 2
  {
    hide DistinctValidators, TotalPower, PowerOf, Addresses;
    var w := PowerIn(validators);
    SumAdd({}, w, a);
    SumAdd({a}, w, b);
    assert {} + {a} == {a};
  }

  // ---------------------------------------------------------------------------------------------
  // What one engine does.

  function VoteOf(ctx: Context, n: NodeId, h: Hash, voteType: VoteType): Vote
    requires n in ctx.keys
  {
    NewSigned(ctx.crypto, ctx.keys[n], h, 1, 0, voteType)
  }

  function PreVoters(core: Core, h: Hash): set<Address> {
    Voters(VotesFor(core.prevotes, h))
  }

  function PreCommitters(core: Core, h: Hash): set<Address> {
    Voters(VotesFor(core.precommits, h))
  }

  ghost predicate AtFirstHeight(core: Core) {
    Sound(core) && core.height == 1 && core.round == 0
  }

  /** An engine after it was handed a block. */
  function Handed(ctx: Context, n: NodeId, core: Core, block: Block): Core
    requires n in ctx.keys
  {
    var h := block.BlockHash(ctx.crypto.hash);
    core.(proposed := Some(block), step := PreVoting, prevotes := AddVote(core.prevotes, VoteOf(ctx, n, h, PreVote)))
  }

  /** And after it heard the other's prevote for it. */
  function Convinced(ctx: Context, n: NodeId, other: NodeId, core: Core, h: Hash): Core
    requires n in ctx.keys && other in ctx.keys
  {
    core.(
      prevotes := AddVote(core.prevotes, VoteOf(ctx, other, h, PreVote)),
      step := PreCommitting,
      precommits := AddVote(core.precommits, VoteOf(ctx, n, h, PreCommit)))
  }

  lemma VoteFields(ctx: Context, n: NodeId, h: Hash, voteType: VoteType)
    requires ctx.WellFormed() && n in ctx.keys
    ensures var vote := VoteOf(ctx, n, h, voteType);
      && vote == NewSigned(ctx.crypto, ctx.keys[n], h, 1, 0, voteType)
      && vote.validator == ctx.AddressAt(n) && vote.blockHash == h && vote.height == 1 && vote.round == 0
      && vote.voteType == voteType && vote.Verify(ctx.crypto).Pass?
  {
    hide NewSigned, Vote.Verify;
  }

  lemma HandingIsQuiet(ctx: Context, n: NodeId, other: NodeId, core: Core, validators: seq<ValidatorInfo>, block: Block)
    requires ctx.WellFormed() && n in ctx.keys && other in ctx.keys
    requires EqualStakes(validators, ctx.AddressAt(n), ctx.AddressAt(other))
    requires AtFirstHeight(core) && Acceptable(ctx.crypto, core, block)
    requires PreVoters(core, block.BlockHash(ctx.crypto.hash)) == {}
    ensures OnProposal(ctx.crypto, ctx.keys[n], core, validators, block)
         == Handled(Handed(ctx, n, core, block), None, None, None)
    ensures PreVoteFor(ctx.crypto, ctx.keys[n], core, block)
         == VoteOf(ctx, n, block.BlockHash(ctx.crypto.hash), PreVote)
  {
    hide *;
    var h := block.BlockHash(ctx.crypto.hash);
    var proposed := core.(proposed := Some(block), step := PreVoting);
    var prevote := VoteOf(ctx, n, h, PreVote);
    HeightParts(core);
    StakeParts(validators, ctx.AddressAt(n), ctx.AddressAt(other));
    VotesNeeded(validators, ctx.AddressAt(n), ctx.AddressAt(other));
    VoteFields(ctx, n, h, PreVote);
    OnProposalUnfolds(ctx.crypto, ctx.keys[n], core, validators, block);
    SoundWithProposal(core, block);
    VotersAre(proposed, h);
    VotersAre(core, h);
    PreCommitIff(ctx.crypto, ctx.keys[n], proposed, validators, prevote);
    OnPreVoteUnfolds(ctx.crypto, ctx.keys[n], proposed, validators, prevote);
    HandedIs(ctx, n, core, block);
  }

  lemma ConvincingIsQuiet(ctx: Context, n: NodeId, other: NodeId, core: Core, validators: seq<ValidatorInfo>, h: Hash)
    requires ctx.WellFormed() && n in ctx.keys && other in ctx.keys
    requires EqualStakes(validators, ctx.AddressAt(n), ctx.AddressAt(other))
    requires AtFirstHeight(core) && core.step.PreVoting?
    requires PreVoters(core, h) == {ctx.AddressAt(n)} && PreCommitters(core, h) == {}
    ensures OnPreVote(ctx.crypto, ctx.keys[n], core, validators, VoteOf(ctx, other, h, PreVote))
         == Handled(Convinced(ctx, n, other, core, h), Some(VoteOf(ctx, n, h, PreCommit)), None, None)
  {
    hide *;
    var prevote, precommit := VoteOf(ctx, other, h, PreVote), VoteOf(ctx, n, h, PreCommit);
    var counted := core.(prevotes := AddVote(core.prevotes, prevote), step := PreCommitting);
    HeightParts(core);
    StakeParts(validators, ctx.AddressAt(n), ctx.AddressAt(other));
    VotesNeeded(validators, ctx.AddressAt(n), ctx.AddressAt(other));
    VoteFields(ctx, other, h, PreVote);
    VoteFields(ctx, n, h, PreCommit);
    VotersAre(core, h);
    PreCommitIff(ctx.crypto, ctx.keys[n], core, validators, prevote);
    OnPreVoteUnfolds(ctx.crypto, ctx.keys[n], core, validators, prevote);
    SoundParts(core);
    AddVoteOrderly(core.prevotes, prevote);
    PreVotedSound(core, counted.prevotes);
    CertificateIff(ctx.crypto.hash, counted, validators, precommit);
    OnPreCommitUnfolds(ctx.crypto.hash, counted, validators, precommit);
    ConvincedIs(ctx, n, other, core, h);
  }

  /** The other's precommit beside one's own certifies. */
  lemma PreCommitCertifies(ctx: Context, n: NodeId, other: NodeId, core: Core, validators: seq<ValidatorInfo>, h: Hash)
    requires ctx.WellFormed() && n in ctx.keys && other in ctx.keys
    requires EqualStakes(validators, ctx.AddressAt(n), ctx.AddressAt(other))
    requires AtFirstHeight(core) && PreCommitters(core, h) == {ctx.AddressAt(n)}
    ensures var run := OnPreCommit(ctx.crypto.hash, core, validators, VoteOf(ctx, other, h, PreCommit));
      run.qc.Some? && run.qc.value.height == 1 && run.qc.value.blockHash == h
  {
    hide *;
    HeightParts(core);
    StakeParts(validators, ctx.AddressAt(n), ctx.AddressAt(other));
    VotesNeeded(validators, ctx.AddressAt(n), ctx.AddressAt(other));
    VoteFields(ctx, other, h, PreCommit);
    VotersAre(core, h);
    CertificateIff(ctx.crypto.hash, core, validators, VoteOf(ctx, other, h, PreCommit));
    OnPreCommitUnfolds(ctx.crypto.hash, core, validators, VoteOf(ctx, other, h, PreCommit));
  }

  lemma HeightParts(core: Core)
    ensures AtFirstHeight(core) <==> Sound(core) && core.height == 1 && core.round == 0
  {
    hide Sound;
  }

  lemma StakeParts(validators: seq<ValidatorInfo>, a: Address, b: Address)
    requires EqualStakes(validators, a, b)
    ensures a != b && DistinctValidators(validators) && TotalPower(validators) == 2 < U64_END
  {
    hide DistinctValidators, TotalPower, PowerOf, Addresses;
  }

  lemma VotersAre(core: Core, h: Hash)
    ensures PreVoters(core, h) == Voters(VotesFor(core.prevotes, h))
    ensures PreCommitters(core, h) == Voters(VotesFor(core.precommits, h))
  {
    hide Voters, VotesFor;
  }

  lemma HandedIs(ctx: Context, n: NodeId, core: Core, block: Block)
    requires n in ctx.keys
    ensures Handed(ctx, n, core, block) == core.(proposed := Some(block), step := PreVoting,
      prevotes := AddVote(core.prevotes, VoteOf(ctx, n, block.BlockHash(ctx.crypto.hash), PreVote)))
  {
    hide AddVote, VoteOf, Block.BlockHash;
  }

  lemma ConvincedIs(ctx: Context, n: NodeId, other: NodeId, core: Core, h: Hash)
    requires n in ctx.keys && other in ctx.keys
    ensures Convinced(ctx, n, other, core, h)
         == core.(prevotes := AddVote(core.prevotes, VoteOf(ctx, other, h, PreVote)),
      step := PreCommitting, precommits := AddVote(core.precommits, VoteOf(ctx, n, h, PreCommit)))
  {
    hide AddVote, VoteOf;
  }

  /** What an engine has counted after it was handed a block. */
  lemma HandedCounts(ctx: Context, n: NodeId, core: Core, block: Block, g: Hash)
    requires ctx.WellFormed() && n in ctx.keys && AtFirstHeight(core) && Acceptable(ctx.crypto, core, block)
    ensures var h, after := block.BlockHash(ctx.crypto.hash), Handed(ctx, n, core, block);
      && AtFirstHeight(after) && after.step.PreVoting? && after.proposed == Some(block)
      && PreVoters(after, g) == PreVoters(core, g) + (if g == h then {ctx.AddressAt(n)} else {})
      && PreCommitters(after, g) == PreCommitters(core, g)
  {
    hide *;
    var h := block.BlockHash(ctx.crypto.hash);
    var after, vote := Handed(ctx, n, core, block), VoteOf(ctx, n, h, PreVote);
    HeightParts(core);
    HeightParts(after);
    HandedIs(ctx, n, core, block);
    VoteFields(ctx, n, h, PreVote);
    VotersAre(core, g);
    VotersAre(after, g);
    AddVoteCounts(core.prevotes, vote, g);
    AcceptableParts(ctx.crypto, core, block);
    SoundWithProposal(core, block);
    SoundParts(core);
    AddVoteOrderly(core.prevotes, vote);
    PreVotedSound(core.(proposed := Some(block), step := PreVoting), after.prevotes);
  }

  lemma AcceptableParts(crypto: Crypto, core: Core, block: Block)
    requires Acceptable(crypto, core, block)
    ensures block.header.height == core.height && block.header.round == core.round
  {
    hide Block.ValidateBasic;
  }

  lemma ConvincedCounts(ctx: Context, n: NodeId, other: NodeId, core: Core, h: Hash, g: Hash)
    requires ctx.WellFormed() && n in ctx.keys && other in ctx.keys && AtFirstHeight(core)
    ensures var after := Convinced(ctx, n, other, core, h);
      && AtFirstHeight(after) && after.step.PreCommitting? && after.proposed == core.proposed
      && PreVoters(after, g) == PreVoters(core, g) + (if g == h then {ctx.AddressAt(other)} else {})
      && PreCommitters(after, g) == PreCommitters(core, g) + (if g == h then {ctx.AddressAt(n)} else {})
  {
    hide *;
    var after := Convinced(ctx, n, other, core, h);
    var prevote, precommit := VoteOf(ctx, other, h, PreVote), VoteOf(ctx, n, h, PreCommit);
    HeightParts(core);
    HeightParts(after);
    ConvincedIs(ctx, n, other, core, h);
    VoteFields(ctx, other, h, PreVote);
    VoteFields(ctx, n, h, PreCommit);
    VotersAre(core, g);
    VotersAre(after, g);
    AddVoteCounts(core.prevotes, prevote, g);
    AddVoteCounts(core.precommits, precommit, g);
    SoundParts(core);
    AddVoteOrderly(core.prevotes, prevote);
    AddVoteOrderly(core.precommits, precommit);
    PreVotedSound(core, after.prevotes);
    SoundPreCommits(core.(prevotes := after.prevotes, step := PreCommitting), after.precommits);
  }

  lemma SoundPreCommits(core: Core, precommits: Ballots)
    requires Sound(core) && OrderlyBallots(precommits)
    ensures Sound(core.(precommits := precommits))
  {
    hide OrderlyBallots;
  }

  // ---------------------------------------------------------------------------------------------
  // One round of both.

  /** The network with one engine's fields replaced and more votes signed. */
  ghost predicate Moved(net: Network, after: Network, n: NodeId, core: Core, votes: set<Vote>) {
    && n in net.nodes && after.nodes == net.nodes[n := Node.Node(core, net.nodes[n].data)]
    && after.sent == net.sent + votes && after.certs == net.certs
    && forall m, g :: m != n ==> ((m, g) in after.handled <==> (m, g) in net.handled)
  }

  lemma SignedParts(crypto: Crypto, key: SecretKey, core: Core, input: Input, run: Handled)
    ensures Signed(crypto, key, core, input, run)
         == (if input.Proposal? && Acceptable(crypto, core, input.block)
             then {PreVoteFor(crypto, key, core, input.block)} else {})
              + (if run.precommit.Some? then {run.precommit.value} else {})
  {
    hide Acceptable, PreVoteFor;
  }

  lemma Quietly(ctx: Context, net: Network, event: Event, core: Core, precommit: Option<Vote>)
    requires event.node in net.nodes && event.node in ctx.keys
    requires Handle(ctx.crypto, ctx.codec, ctx.keys[event.node], net.nodes[event.node], event.input)
         == Handled(core, precommit, None, None)
    ensures var before := net.nodes[event.node].core;
      Moved(net, Deliver(ctx, net, event), event.node, core,
        Signed(ctx.crypto, ctx.keys[event.node], before, event.input, Handled(core, precommit, None, None)))
  {
    hide *;
    DeliverUnfolds(ctx, net, event);
    var run := Handled(core, precommit, None, None);
    NothingSettled(ctx, net.nodes[event.node].data);
    assert net.certs + {} == net.certs;
    MovedFrom(net, Deliver(ctx, net, event), event.node, core,
      Signed(ctx.crypto, ctx.keys[event.node], net.nodes[event.node].core, event.input, run));
  }

  lemma NothingSettled(ctx: Context, data: Store)
    ensures Settled(ctx.crypto, ctx.codec, data, None) == data
  {
  }

  lemma MovedFrom(net: Network, after: Network, n: NodeId, core: Core, votes: set<Vote>)
    requires n in net.nodes && after.nodes == net.nodes[n := Node.Node(core, net.nodes[n].data)]
    requires after.sent == net.sent + votes && after.certs == net.certs
    requires forall m, g :: m != n ==> ((m, g) in after.handled <==> (m, g) in net.handled)
    ensures Moved(net, after, n, core, votes)
  {
  }

  /** Handing a block to one engine. */
  lemma HandOver(ctx: Context, net: Network, n: NodeId, other: NodeId, block: Block)
    requires ctx.WellFormed() && n in ctx.keys && other in ctx.keys && n in net.nodes
    requires EqualStakes(ActiveValidators(ctx.codec, net.nodes[n].data), ctx.AddressAt(n), ctx.AddressAt(other))
    requires var core := net.nodes[n].core;
      AtFirstHeight(core) && Acceptable(ctx.crypto, core, block)
        && PreVoters(core, block.BlockHash(ctx.crypto.hash)) == {}
    ensures var event := Event(n, Proposal(block));
      && Proper(ctx, net, event, false) && ((n, 1) !in net.handled ==> Proper(ctx, net, event, true))
      && Moved(net, Deliver(ctx, net, event), n, Handed(ctx, n, net.nodes[n].core, block),
           {VoteOf(ctx, n, block.BlockHash(ctx.crypto.hash), PreVote)})
  {
    hide *;
    var node, event := net.nodes[n], Event(n, Proposal(block));
    HeightParts(node.core);
    HandingIsQuiet(ctx, n, other, node.core, ActiveValidators(ctx.codec, node.data), block);
    HandleParts(ctx.crypto, ctx.codec, ctx.keys[n], node, event.input);
    Quietly(ctx, net, event, Handed(ctx, n, node.core, block), None);
    SignedParts(ctx.crypto, ctx.keys[n], node.core, event.input,
      Handled(Handed(ctx, n, node.core, block), None, None, None));
    var vote := VoteOf(ctx, n, block.BlockHash(ctx.crypto.hash), PreVote);
    assert {vote} + {} == {vote};
    ProperParts(ctx, net, event);
  }

  lemma ProperParts(ctx: Context, net: Network, event: Event)
    requires event.node in net.nodes && event.node in ctx.keys && net.nodes[event.node].core.height == 1
    ensures event.input.Proposal? ==>
      Proper(ctx, net, event, false) && ((event.node, 1) !in net.handled ==> Proper(ctx, net, event, true))
    ensures event.input.PreVoteIn? ==> Proper(ctx, net, event, false) && Proper(ctx, net, event, true)
    ensures event.input.PreCommitIn? && Authentic(ctx, net.sent, event.input.vote, PreCommit, 1) ==>
      Proper(ctx, net, event, false) && Proper(ctx, net, event, true)
  {
    hide Authentic, Acceptable;
  }

  /** Telling one engine of the other's prevote. */
  lemma Tell(ctx: Context, net: Network, n: NodeId, other: NodeId, h: Hash)
    requires ctx.WellFormed() && n in ctx.keys && other in ctx.keys && n in net.nodes
    requires EqualStakes(ActiveValidators(ctx.codec, net.nodes[n].data), ctx.AddressAt(n), ctx.AddressAt(other))
    requires var core := net.nodes[n].core;
      AtFirstHeight(core) && core.step.PreVoting? && PreVoters(core, h) == {ctx.AddressAt(n)}
        && PreCommitters(core, h) == {}
    ensures var event := Event(n, PreVoteIn(VoteOf(ctx, other, h, PreVote)));
      && Proper(ctx, net, event, false) && Proper(ctx, net, event, true)
      && Moved(net, Deliver(ctx, net, event), n, Convinced(ctx, n, other, net.nodes[n].core, h),
          {VoteOf(ctx, n, h, PreCommit)})
  {
    hide *;
    var node, event := net.nodes[n], Event(n, PreVoteIn(VoteOf(ctx, other, h, PreVote)));
    var after, cast := Convinced(ctx, n, other, node.core, h), Some(VoteOf(ctx, n, h, PreCommit));
    HeightParts(node.core);
    ConvincingIsQuiet(ctx, n, other, node.core, ActiveValidators(ctx.codec, node.data), h);
    HandleParts(ctx.crypto, ctx.codec, ctx.keys[n], node, event.input);
    Quietly(ctx, net, event, after, cast);
    SignedParts(ctx.crypto, ctx.keys[n], node.core, event.input, Handled(after, cast, None, None));
    assert {} + {cast.value} == {cast.value};
    ProperParts(ctx, net, event);
  }

  /** Both engines at the first height on the store they started from. */
  ghost predicate BothAt(ctx: Context, net: Network)
    requires 0 in ctx.keys && 1 in ctx.keys
  {
    && net.nodes.Keys == {0, 1} && net.nodes[0].data == PairStore(ctx) && net.nodes[1].data == PairStore(ctx)
    && AtFirstHeight(net.nodes[0].core) && AtFirstHeight(net.nodes[1].core)
  }

  lemma Cons(ctx: Context, net: Network, event: Event, events: seq<Event>, once: bool)
    ensures ProperRun(ctx, net, [event] + events, once)
       <==> Proper(ctx, net, event, once) && ProperRun(ctx, Deliver(ctx, net, event), events, once)
    ensures RunNetwork(ctx, net, [event] + events) == RunNetwork(ctx, Deliver(ctx, net, event), events)
  {
    hide Proper, Deliver;
    assert ([event] + events)[1..] == events;
  }

  lemma NoEvents(ctx: Context, net: Network, once: bool)
    ensures ProperRun(ctx, net, [], once) && RunNetwork(ctx, net, []) == net
  {
  }

  lemma {:induction false} RunConcat(ctx: Context, net: Network, first: seq<Event>, second: seq<Event>, once: bool)
    requires ProperRun(ctx, net, first, once) && ProperRun(ctx, RunNetwork(ctx, net, first), second, once)
    ensures ProperRun(ctx, net, first + second, once)
    ensures RunNetwork(ctx, net, first + second) == RunNetwork(ctx, RunNetwork(ctx, net, first), second)
    decreases |first|
  {
    hide Proper, Deliver;
    if first == [] {
      assert first + second == second;
    } else {
      assert (first + second)[1..] == first[1..] + second;
      RunConcat(ctx, Deliver(ctx, net, first[0]), first[1..], second, once);
    }
  }

  /** What a round leaves of one engine. */
  ghost predicate Rounded(ctx: Context, before: Core, after: Core, n: NodeId, block: Block)
    requires n in ctx.keys
  {
    var h := block.BlockHash(ctx.crypto.hash);
    && AtFirstHeight(after) && after.proposed == Some(block)
    && PreCommitters(after, h) == PreCommitters(before, h) + {ctx.AddressAt(n)}
    && forall g :: g != h ==>
         PreVoters(after, g) == PreVoters(before, g) && PreCommitters(after, g) == PreCommitters(before, g)
  }

  lemma RoundOfOne(ctx: Context, n: NodeId, other: NodeId, core: Core, block: Block)
    requires ctx.WellFormed() && n in ctx.keys && other in ctx.keys && AtFirstHeight(core)
    requires Acceptable(ctx.crypto, core, block)
    requires PreVoters(core, block.BlockHash(ctx.crypto.hash)) == {}
    ensures var h, handed := block.BlockHash(ctx.crypto.hash), Handed(ctx, n, core, block);
      && AtFirstHeight(handed) && handed.step.PreVoting?
      && PreVoters(handed, h) == {ctx.AddressAt(n)} && PreCommitters(handed, h) == PreCommitters(core, h)
      && Rounded(ctx, core, Convinced(ctx, n, other, handed, h), n, block)
  {
    hide *;
    var h, handed := block.BlockHash(ctx.crypto.hash), Handed(ctx, n, core, block);
    forall g {
      HandedCounts(ctx, n, core, block, g);
    }
    HandedCounts(ctx, n, core, block, h);
    assert {} + {ctx.AddressAt(n)} == {ctx.AddressAt(n)};
    assert PreCommitters(handed, h) == PreCommitters(core, h);
    var after := Convinced(ctx, n, other, handed, h);
    ConvincedCounts(ctx, n, other, handed, h, h);
    forall g | g != h
      ensures PreVoters(after, g) == PreVoters(core, g) && PreCommitters(after, g) == PreCommitters(core, g)
    {
      HandedCounts(ctx, n, core, block, g);
      ConvincedCounts(ctx, n, other, handed, h, g);
    }
    RoundedFrom(ctx, core, after, n, block);
  }

  lemma RoundedFrom(ctx: Context, before: Core, after: Core, n: NodeId, block: Block)
    requires n in ctx.keys && AtFirstHeight(after) && after.proposed == Some(block)
    requires var h := block.BlockHash(ctx.crypto.hash);
      && PreCommitters(after, h) == PreCommitters(before, h) + {ctx.AddressAt(n)}
      && forall g :: g != h ==>
           PreVoters(after, g) == PreVoters(before, g) && PreCommitters(after, g) == PreCommitters(before, g)
    ensures Rounded(ctx, before, after, n, block)
  {
    hide AtFirstHeight, PreVoters, PreCommitters, Block.BlockHash, Context.AddressAt;
  }

  /** Both engines are handed a block, then told of each other's prevote. */
  function RoundEvents(ctx: Context, block: Block): seq<Event>
    requires 0 in ctx.keys && 1 in ctx.keys
  {
    var h := block.BlockHash(ctx.crypto.hash);
    [Event(0, Proposal(block)), Event(1, Proposal(block)),
     Event(0, PreVoteIn(VoteOf(ctx, 1, h, PreVote))), Event(1, PreVoteIn(VoteOf(ctx, 0, h, PreVote)))]
  }

  lemma RoundEventsAre(ctx: Context, block: Block)
    requires 0 in ctx.keys && 1 in ctx.keys
    ensures var h := block.BlockHash(ctx.crypto.hash);
      RoundEvents(ctx, block) == [Event(0, Proposal(block))] + ([Event(1, Proposal(block))]
        + ([Event(0, PreVoteIn(VoteOf(ctx, 1, h, PreVote)))]
            + ([Event(1, PreVoteIn(VoteOf(ctx, 0, h, PreVote)))] + [])))
  {
    hide VoteOf, Block.BlockHash;
  }

  /** After such a round both have precommitted to the block. */
  lemma Round(ctx: Context, net: Network, block: Block, once: bool)
    requires IsPair(ctx) && 0 in ctx.keys && 1 in ctx.keys && BothAt(ctx, net)
    requires forall n :: n in net.nodes ==> Acceptable(ctx.crypto, net.nodes[n].core, block)
    requires forall n :: n in net.nodes ==> PreVoters(net.nodes[n].core, block.BlockHash(ctx.crypto.hash)) == {}
    requires forall n :: n in net.nodes ==> PreCommitters(net.nodes[n].core, block.BlockHash(ctx.crypto.hash)) == {}
    requires once ==> (0, 1) !in net.handled && (1, 1) !in net.handled
    ensures ProperRun(ctx, net, RoundEvents(ctx, block), once)
    ensures var h, after := block.BlockHash(ctx.crypto.hash), RunNetwork(ctx, net, RoundEvents(ctx, block));
      && BothAt(ctx, after) && net.sent <= after.sent
      && VoteOf(ctx, 0, h, PreCommit) in after.sent && VoteOf(ctx, 1, h, PreCommit) in after.sent
      && Rounded(ctx, net.nodes[0].core, after.nodes[0].core, 0, block)
      && Rounded(ctx, net.nodes[1].core, after.nodes[1].core, 1, block)
  {
    hide *;
    PairParts(ctx, net);
    var h, c0, c1 := block.BlockHash(ctx.crypto.hash), net.nodes[0].core, net.nodes[1].core;
    StakesAreEqual(ctx);
    RoundOfOne(ctx, 0, 1, c0, block);
    RoundOfOne(ctx, 1, 0, c1, block);
    var e1, e2 := Event(0, Proposal(block)), Event(1, Proposal(block));
    var e3, e4 := Event(0, PreVoteIn(VoteOf(ctx, 1, h, PreVote))), Event(1, PreVoteIn(VoteOf(ctx, 0, h, PreVote)));
    HandOver(ctx, net, 0, 1, block);
    var net1 := Deliver(ctx, net, e1);
    var d0 := Handed(ctx, 0, c0, block);
    MovedParts(net, net1, 0, d0, {VoteOf(ctx, 0, h, PreVote)});
    HandOver(ctx, net1, 1, 0, block);
    var net2 := Deliver(ctx, net1, e2);
    var d1 := Handed(ctx, 1, c1, block);
    MovedParts(net1, net2, 1, d1, {VoteOf(ctx, 1, h, PreVote)});
    Tell(ctx, net2, 0, 1, h);
    var net3 := Deliver(ctx, net2, e3);
    MovedParts(net2, net3, 0, Convinced(ctx, 0, 1, d0, h), {VoteOf(ctx, 0, h, PreCommit)});
    Tell(ctx, net3, 1, 0, h);
    var net4 := Deliver(ctx, net3, e4);
    MovedParts(net3, net4, 1, Convinced(ctx, 1, 0, d1, h), {VoteOf(ctx, 1, h, PreCommit)});
    NoEvents(ctx, net4, once);
    Cons(ctx, net3, e4, [], once);
    Cons(ctx, net2, e3, [e4] + [], once);
    Cons(ctx, net1, e2, [e3] + ([e4] + []), once);
    Cons(ctx, net, e1, [e2] + ([e3] + ([e4] + [])), once);
    RoundEventsAre(ctx, block);
    RoundedAt(ctx, c0, net4.nodes[0].core, 0, block);
    RoundedAt(ctx, c1, net4.nodes[1].core, 1, block);
    PairFrom(ctx, net4);
  }

  lemma RoundedAt(ctx: Context, before: Core, after: Core, n: NodeId, block: Block)
    requires n in ctx.keys && Rounded(ctx, before, after, n, block)
    ensures AtFirstHeight(after)
  {
    hide AtFirstHeight, PreVoters, PreCommitters;
  }

  lemma PairParts(ctx: Context, net: Network)
    requires IsPair(ctx) && 0 in ctx.keys && 1 in ctx.keys && BothAt(ctx, net)
    ensures ctx.WellFormed() && net.nodes.Keys == {0, 1} && net.nodes[0].data == PairStore(ctx)
    ensures net.nodes[1].data == PairStore(ctx)
    ensures AtFirstHeight(net.nodes[0].core) && AtFirstHeight(net.nodes[1].core)
  {
    hide AtFirstHeight, PairStore, Context.WellFormed;
  }

  lemma PairFrom(ctx: Context, net: Network)
    requires 0 in ctx.keys && 1 in ctx.keys && net.nodes.Keys == {0, 1}
    requires net.nodes[0].data == PairStore(ctx) && net.nodes[1].data == PairStore(ctx)
    requires AtFirstHeight(net.nodes[0].core) && AtFirstHeight(net.nodes[1].core)
    ensures BothAt(ctx, net)
  {
    hide AtFirstHeight, PairStore;
  }

  lemma MovedParts(net: Network, after: Network, n: NodeId, core: Core, votes: set<Vote>)
    requires Moved(net, after, n, core, votes)
    ensures n in net.nodes && after.nodes == net.nodes[n := Node.Node(core, net.nodes[n].data)]
    ensures after.nodes.Keys == net.nodes.Keys
    ensures after.sent == net.sent + votes && after.certs == net.certs
    ensures forall m, g :: m != n ==> ((m, g) in after.handled <==> (m, g) in net.handled)
  {
  }

  // ---------------------------------------------------------------------------------------------
  // Certificates.

  /** Telling one engine of the other's precommit: it certifies. */
  lemma Certify(ctx: Context, net: Network, n: NodeId, other: NodeId, h: Hash, once: bool)
    requires ctx.WellFormed() && n in ctx.keys && other in ctx.keys && n in net.nodes
    requires EqualStakes(ActiveValidators(ctx.codec, net.nodes[n].data), ctx.AddressAt(n), ctx.AddressAt(other))
    requires AtFirstHeight(net.nodes[n].core) && PreCommitters(net.nodes[n].core, h) == {ctx.AddressAt(n)}
    requires VoteOf(ctx, other, h, PreCommit) in net.sent
    ensures var event := Event(n, PreCommitIn(VoteOf(ctx, other, h, PreCommit)));
      var after := Deliver(ctx, net, event);
      && Proper(ctx, net, event, once)
      && (exists cert :: cert in after.certs && CertifiedBy(cert, n, h, ActiveValidators(ctx.codec, net.nodes[n].data)))
      && net.certs <= after.certs && net.sent <= after.sent && after.nodes.Keys == net.nodes.Keys
      && forall m :: m in net.nodes && m != n ==> after.nodes[m] == net.nodes[m]
  {
    hide *;
    var vote, node := VoteOf(ctx, other, h, PreCommit), net.nodes[n];
    var event, validators := Event(n, PreCommitIn(vote)), ActiveValidators(ctx.codec, node.data);
    HeightParts(node.core);
    VoteFields(ctx, other, h, PreCommit);
    PreCommitCertifies(ctx, n, other, node.core, validators, h);
    HandleParts(ctx.crypto, ctx.codec, ctx.keys[n], node, event.input);
    DeliverUnfolds(ctx, net, event);
    AuthenticIs(ctx, net.sent, vote);
    ProperParts(ctx, net, event);
    var cert := Cert(n, validators, Handle(ctx.crypto, ctx.codec, ctx.keys[n], node, event.input).qc.value);
    CertifiedIs(cert, n, h, validators);
    assert cert in Deliver(ctx, net, event).certs;
  }

  ghost predicate CertifiedBy(cert: Cert, n: NodeId, h: Hash, validators: seq<ValidatorInfo>) {
    cert.node == n && cert.qc.height == 1 && cert.qc.blockHash == h && cert.validators == validators
  }

  lemma CertifiedIs(cert: Cert, n: NodeId, h: Hash, validators: seq<ValidatorInfo>)
    ensures CertifiedBy(cert, n, h, validators)
       <==> cert.node == n && cert.qc.height == 1 && cert.qc.blockHash == h && cert.validators == validators
  {
  }

  lemma AuthenticIs(ctx: Context, sent: set<Vote>, vote: Vote)
    requires vote in sent && vote.voteType == PreCommit && vote.height == 1 && vote.round == 0
    requires vote.Verify(ctx.crypto).Pass?
    ensures Authentic(ctx, sent, vote, PreCommit, 1)
  {
    hide Vote.Verify, Context.IsHonest;
  }

  // ---------------------------------------------------------------------------------------------
  // The two runs.

  /** A block for the first height, told apart by its time. */
  function FirstBlock(now: U64): Block {
    Block(BlockHeader(HEADER_VERSION, [], 1, 0, ZERO, ZERO, ZERO, ZERO, now, ZERO_ADDRESS, ZERO_SIGNATURE), [], None)
  }

  lemma FirstBlockAcceptable(crypto: Crypto, core: Core, now: U64)
    requires AtFirstHeight(core)
    ensures Acceptable(crypto, core, FirstBlock(now))
  {
    hide Sound;
  }

  function PairStart(ctx: Context): Network
    requires 0 in ctx.keys && 1 in ctx.keys
  {
    Network(map[0 := Started(PairStore(ctx)), 1 := Started(PairStore(ctx))], {}, {}, {})
  }

  lemma PairStarts(ctx: Context)
    requires IsPair(ctx) && 0 in ctx.keys && 1 in ctx.keys
    ensures Genesis(ctx, map[0 := PairStore(ctx), 1 := PairStore(ctx)]) == PairStart(ctx)
    ensures BothAt(ctx, PairStart(ctx))
    ensures forall h ::
      PreVoters(Started(PairStore(ctx)).core, h) == {} && PreCommitters(Started(PairStore(ctx)).core, h) == {}
  {
    var data := PairStore(ctx);
    StartedSound(data);
    PairHasNoHeight(ctx);
    hide PairStore, LatestHeight;
    assert (map n | n in map[0 := data, 1 := data] :: Started(data)) == map[0 := Started(data), 1 := Started(data)];
  }

  lemma PairHasNoHeight(ctx: Context)
    requires 0 in ctx.keys && 1 in ctx.keys
    ensures LatestHeight(PairStore(ctx)) == 0
  {
    hide Context.AddressAt;
    assert AccountKey(ctx.AddressAt(0))[0] == 97 && AccountKey(ctx.AddressAt(1))[0] == 97;
    assert LATEST_HEIGHT_KEY !in PairStore(ctx);
  }

  /** The two engines are the only validators, hold one unit each, and so neither decides alone. */
  ghost predicate EvenPair(ctx: Context, validators: seq<ValidatorInfo>)
    requires 0 in ctx.keys && 1 in ctx.keys
  {
    && EqualStakes(validators, ctx.AddressAt(0), ctx.AddressAt(1)) && Faulty(ctx, validators) == {}
    && (forall n :: n in ctx.keys ==> PowerOf(validators, ctx.AddressAt(n)) * 3 <= TotalPower(validators) * 2)
  }

  lemma PairIsEven(ctx: Context)
    requires IsPair(ctx) && 0 in ctx.keys && 1 in ctx.keys
    ensures EvenPair(ctx, ActiveValidators(ctx.codec, PairStore(ctx)))
    ensures WithinBounds(ctx, ActiveValidators(ctx.codec, PairStore(ctx)))
  {
    hide *;
    StakesAreEqual(ctx);
    EqualsHonest(ctx, ActiveValidators(ctx.codec, PairStore(ctx)));
  }

  lemma EqualsHonest(ctx: Context, validators: seq<ValidatorInfo>)
    requires IsPair(ctx) && 0 in ctx.keys && 1 in ctx.keys
    requires EqualStakes(validators, ctx.AddressAt(0), ctx.AddressAt(1))
    ensures EvenPair(ctx, validators) && WithinBounds(ctx, validators)
  {
    hide PowerOf, TotalPower, DistinctValidators, Context.AddressAt, Context.WellFormed;
    assert ctx.IsHonest(ctx.AddressAt(0)) && ctx.IsHonest(ctx.AddressAt(1));
    assert Faulty(ctx, validators) == {};
    assert forall n :: n in ctx.keys ==> n in ctx.keys.Keys;
  }

  /** Each engine is told of the other's precommit. */
  function CertifyEvents(ctx: Context, h0: Hash, h1: Hash): seq<Event>
    requires 0 in ctx.keys && 1 in ctx.keys
  {
    [Event(0, PreCommitIn(VoteOf(ctx, 1, h0, PreCommit))), Event(1, PreCommitIn(VoteOf(ctx, 0, h1, PreCommit)))]
  }

  lemma CertifyEventsAre(ctx: Context, h0: Hash, h1: Hash)
    requires 0 in ctx.keys && 1 in ctx.keys
    ensures CertifyEvents(ctx, h0, h1)
         == [Event(0, PreCommitIn(VoteOf(ctx, 1, h0, PreCommit)))]
             + ([Event(1, PreCommitIn(VoteOf(ctx, 0, h1, PreCommit)))] + [])
  {
    hide VoteOf;
  }

  /** Each certifies the hash it has precommitted to. */
  lemma BothCertify(ctx: Context, net: Network, h0: Hash, h1: Hash, once: bool) returns (x: Cert, y: Cert)
    requires IsPair(ctx) && 0 in ctx.keys && 1 in ctx.keys && BothAt(ctx, net)
    requires 0 in net.nodes && PreCommitters(net.nodes[0].core, h0) == {ctx.AddressAt(0)}
    requires 1 in net.nodes && PreCommitters(net.nodes[1].core, h1) == {ctx.AddressAt(1)}
    requires VoteOf(ctx, 1, h0, PreCommit) in net.sent && VoteOf(ctx, 0, h1, PreCommit) in net.sent
    ensures ProperRun(ctx, net, CertifyEvents(ctx, h0, h1), once)
    ensures x in RunNetwork(ctx, net, CertifyEvents(ctx, h0, h1)).certs
    ensures y in RunNetwork(ctx, net, CertifyEvents(ctx, h0, h1)).certs
    ensures CertifiedBy(x, 0, h0, ActiveValidators(ctx.codec, PairStore(ctx)))
    ensures CertifiedBy(y, 1, h1, ActiveValidators(ctx.codec, PairStore(ctx)))
  {
    hide *;
    PairParts(ctx, net);
    StakesAreEqual(ctx);
    var validators := ActiveValidators(ctx.codec, PairStore(ctx));
    var e1, e2 :=
      Event(0, PreCommitIn(VoteOf(ctx, 1, h0, PreCommit))), Event(1, PreCommitIn(VoteOf(ctx, 0, h1, PreCommit)));
    Certify(ctx, net, 0, 1, h0, once);
    var net1 := Deliver(ctx, net, e1);
    var first :| first in net1.certs && CertifiedBy(first, 0, h0, validators);
    Certify(ctx, net1, 1, 0, h1, once);
    var net2 := Deliver(ctx, net1, e2);
    var second :| second in net2.certs && CertifiedBy(second, 1, h1, validators);
    NoEvents(ctx, net2, once);
    Cons(ctx, net1, e2, [], once);
    Cons(ctx, net, e1, [e2] + [], once);
    CertifyEventsAre(ctx, h0, h1);
    x, y := first, second;
  }

  lemma RoundedCounts(ctx: Context, before: Core, after: Core, n: NodeId, block: Block)
    requires n in ctx.keys && Rounded(ctx, before, after, n, block)
    requires PreCommitters(before, block.BlockHash(ctx.crypto.hash)) == {}
    ensures PreCommitters(after, block.BlockHash(ctx.crypto.hash)) == {ctx.AddressAt(n)}
  {
    hide AtFirstHeight, PreVoters, PreCommitters, Block.BlockHash, Context.AddressAt;
  }

  lemma RoundedElsewhere(ctx: Context, before: Core, after: Core, n: NodeId, block: Block, g: Hash)
    requires n in ctx.keys && Rounded(ctx, before, after, n, block) && g != block.BlockHash(ctx.crypto.hash)
    ensures PreVoters(after, g) == PreVoters(before, g) && PreCommitters(after, g) == PreCommitters(before, g)
  {
    hide AtFirstHeight, PreVoters, PreCommitters, Block.BlockHash, Context.AddressAt;
  }

  lemma StartFields(ctx: Context)
    requires 0 in ctx.keys && 1 in ctx.keys
    ensures var start := PairStart(ctx);
      && start.nodes.Keys == {0, 1} && start.handled == {}
      && start.nodes[0] == Started(PairStore(ctx)) && start.nodes[1] == Started(PairStore(ctx))
  {
    hide Started, PairStore;
  }

  /** The run forms both certificates, of one height and one validator set. */
  ghost predicate Forms(ctx: Context, stores: map<NodeId, Store>, events: seq<Event>, x: Cert, y: Cert) {
    var certs := RunNetwork(ctx, Genesis(ctx, stores), events).certs;
    && stores.Keys == ctx.keys.Keys && x in certs && y in certs
    && x.node == 0 && y.node == 1 && x.qc.height == y.qc.height == 1 && x.validators == y.validators
  }

  function PairStores(ctx: Context): map<NodeId, Store>
    requires 0 in ctx.keys && 1 in ctx.keys
  {
    map[0 := PairStore(ctx), 1 := PairStore(ctx)]
  }

  lemma FormsFrom(ctx: Context, events: seq<Event>, x: Cert, y: Cert, g: Hash, h: Hash)
    requires IsPair(ctx) && 0 in ctx.keys && 1 in ctx.keys
    requires x in RunNetwork(ctx, PairStart(ctx), events).certs && y in RunNetwork(ctx, PairStart(ctx), events).certs
    requires var validators := ActiveValidators(ctx.codec, PairStore(ctx));
      CertifiedBy(x, 0, g, validators) && CertifiedBy(y, 1, h, validators)
    ensures Genesis(ctx, PairStores(ctx)) == PairStart(ctx) && Forms(ctx, PairStores(ctx), events, x, y)
    ensures x.qc.blockHash == g && y.qc.blockHash == h && x.validators == ActiveValidators(ctx.codec, PairStore(ctx))
  {
    PairStarts(ctx);
    hide RunNetwork, PairStart, Genesis, PairStore, ActiveValidators, Context.WellFormed;
  }

  /** A round for one block, and the precommits delivered. */
  function SameBlockEvents(ctx: Context, now: U64): seq<Event>
    requires 0 in ctx.keys && 1 in ctx.keys
  {
    var h := FirstBlock(now).BlockHash(ctx.crypto.hash);
    RoundEvents(ctx, FirstBlock(now)) + CertifyEvents(ctx, h, h)
  }

  lemma SameBlockRun(ctx: Context, now: U64) returns (x: Cert, y: Cert)
    requires IsPair(ctx) && 0 in ctx.keys && 1 in ctx.keys
    ensures Forms(ctx, PairStores(ctx), SameBlockEvents(ctx, now), x, y)
    ensures AllowedRun(ctx, Genesis(ctx, PairStores(ctx)), SameBlockEvents(ctx, now))
    ensures x.validators == ActiveValidators(ctx.codec, PairStore(ctx))
    ensures x.qc.blockHash == y.qc.blockHash == FirstBlock(now).BlockHash(ctx.crypto.hash)
  {
    hide *;
    var start, block := PairStart(ctx), FirstBlock(now);
    var h := block.BlockHash(ctx.crypto.hash);
    PairStarts(ctx);
    StartFields(ctx);
    PairParts(ctx, start);
    FirstBlockAcceptable(ctx.crypto, start.nodes[0].core, now);
    Round(ctx, start, block, true);
    var net := RunNetwork(ctx, start, RoundEvents(ctx, block));
    PairParts(ctx, net);
    RoundedCounts(ctx, start.nodes[0].core, net.nodes[0].core, 0, block);
    RoundedCounts(ctx, start.nodes[1].core, net.nodes[1].core, 1, block);
    x, y := BothCertify(ctx, net, h, h, true);
    RunConcat(ctx, start, RoundEvents(ctx, block), CertifyEvents(ctx, h, h), true);
    EventsAre(ctx, now, now);
    AllowedIs(ctx, start, SameBlockEvents(ctx, now));
    FormsFrom(ctx, SameBlockEvents(ctx, now), x, y, h, h);
  }

  /** The hypotheses of agreement can be met: in a run within them, two engines of equal stake, neither
      of which can decide alone, both certify the same block. */
  lemma CertificatesForm(ctx: Context, now: U64)
    requires IsPair(ctx)
    ensures 0 in ctx.keys && 1 in ctx.keys
    ensures AllowedRun(ctx, Genesis(ctx, PairStores(ctx)), SameBlockEvents(ctx, now))
    ensures exists x: Cert, y: Cert ::
      && Forms(ctx, PairStores(ctx), SameBlockEvents(ctx, now), x, y)
      && EvenPair(ctx, x.validators) && WithinBounds(ctx, x.validators)
      && x.qc.blockHash == y.qc.blockHash == FirstBlock(now).BlockHash(ctx.crypto.hash)
  {
    AddressesDiffer(ctx);
    hide *;
    var x, y := SameBlockRun(ctx, now);
    PairIsEven(ctx);
    assert Forms(ctx, PairStores(ctx), SameBlockEvents(ctx, now), x, y);
  }

  /** A round for one block, a round for another, and then the precommits delivered: the first
      engine is told of the precommit for the one, the second of that for the other. */
  function TwoBlocksEvents(ctx: Context, now: U64, later: U64): seq<Event>
    requires 0 in ctx.keys && 1 in ctx.keys
  {
    var g, h := FirstBlock(now).BlockHash(ctx.crypto.hash), FirstBlock(later).BlockHash(ctx.crypto.hash);
    RoundEvents(ctx, FirstBlock(now)) + (RoundEvents(ctx, FirstBlock(later)) + CertifyEvents(ctx, g, h))
  }

  lemma EventsAre(ctx: Context, now: U64, later: U64)
    requires 0 in ctx.keys && 1 in ctx.keys
    ensures var g, h := FirstBlock(now).BlockHash(ctx.crypto.hash), FirstBlock(later).BlockHash(ctx.crypto.hash);
      && SameBlockEvents(ctx, now) == RoundEvents(ctx, FirstBlock(now)) + CertifyEvents(ctx, g, g)
      && TwoBlocksEvents(ctx, now, later)
           == RoundEvents(ctx, FirstBlock(now)) + (RoundEvents(ctx, FirstBlock(later)) + CertifyEvents(ctx, g, h))
  {
    hide RoundEvents, CertifyEvents, FirstBlock, Block.BlockHash;
  }

  /** After a round for one block an engine can be handed another. */
  lemma AfterOther(ctx: Context, before: Core, after: Core, n: NodeId, block: Block, later: U64)
    requires n in ctx.keys && Rounded(ctx, before, after, n, block) && AtFirstHeight(after)
    requires forall g :: PreVoters(before, g) == {} && PreCommitters(before, g) == {}
    requires FirstBlock(later).BlockHash(ctx.crypto.hash) != block.BlockHash(ctx.crypto.hash)
    ensures var h := FirstBlock(later).BlockHash(ctx.crypto.hash);
      && Acceptable(ctx.crypto, after, FirstBlock(later)) && PreVoters(after, h) == {} && PreCommitters(after, h) == {}
      && PreCommitters(after, block.BlockHash(ctx.crypto.hash)) == {ctx.AddressAt(n)}
  {
    hide *;
    FirstBlockAcceptable(ctx.crypto, after, later);
    RoundedCounts(ctx, before, after, n, block);
    RoundedElsewhere(ctx, before, after, n, block, FirstBlock(later).BlockHash(ctx.crypto.hash));
  }

  lemma TwoBlocksRun(ctx: Context, now: U64, later: U64) returns (x: Cert, y: Cert)
    requires IsPair(ctx) && 0 in ctx.keys && 1 in ctx.keys
    requires FirstBlock(now).BlockHash(ctx.crypto.hash) != FirstBlock(later).BlockHash(ctx.crypto.hash)
    ensures Forms(ctx, PairStores(ctx), TwoBlocksEvents(ctx, now, later), x, y)
    ensures ProperRun(ctx, Genesis(ctx, PairStores(ctx)), TwoBlocksEvents(ctx, now, later), false)
    ensures x.validators == ActiveValidators(ctx.codec, PairStore(ctx))
    ensures x.qc.blockHash == FirstBlock(now).BlockHash(ctx.crypto.hash)
    ensures y.qc.blockHash == FirstBlock(later).BlockHash(ctx.crypto.hash)
  {
    hide *;
    var start, a, b := PairStart(ctx), FirstBlock(now), FirstBlock(later);
    var g, h := a.BlockHash(ctx.crypto.hash), b.BlockHash(ctx.crypto.hash);
    PairStarts(ctx);
    StartFields(ctx);
    PairParts(ctx, start);
    FirstBlockAcceptable(ctx.crypto, start.nodes[0].core, now);
    Round(ctx, start, a, false);
    var net := RunNetwork(ctx, start, RoundEvents(ctx, a));
    PairParts(ctx, net);
    AfterOther(ctx, start.nodes[0].core, net.nodes[0].core, 0, a, later);
    AfterOther(ctx, start.nodes[1].core, net.nodes[1].core, 1, a, later);
    Round(ctx, net, b, false);
    var last := RunNetwork(ctx, net, RoundEvents(ctx, b));
    PairParts(ctx, last);
    RoundedElsewhere(ctx, net.nodes[0].core, last.nodes[0].core, 0, b, g);
    RoundedCounts(ctx, net.nodes[1].core, last.nodes[1].core, 1, b);
    x, y := BothCertify(ctx, last, g, h, false);
    RunConcat(ctx, net, RoundEvents(ctx, b), CertifyEvents(ctx, g, h), false);
    RunConcat(ctx, start, RoundEvents(ctx, a), RoundEvents(ctx, b) + CertifyEvents(ctx, g, h), false);
    EventsAre(ctx, now, later);
    FormsFrom(ctx, TwoBlocksEvents(ctx, now, later), x, y, g, h);
  }

  /** One proposal per height is needed for agreement: two honest engines of equal stake, with nobody
      faulty and every delivered precommit authentic, are each handed two proposals at the first
      height and certify different blocks. */
  lemma TwoProposalsDiverge(ctx: Context, now: U64, later: U64)
    requires IsPair(ctx) && FirstBlock(now).BlockHash(ctx.crypto.hash) != FirstBlock(later).BlockHash(ctx.crypto.hash)
    ensures 0 in ctx.keys && 1 in ctx.keys
    ensures ProperRun(ctx, Genesis(ctx, PairStores(ctx)), TwoBlocksEvents(ctx, now, later), false)
    ensures exists x: Cert, y: Cert ::
      && Forms(ctx, PairStores(ctx), TwoBlocksEvents(ctx, now, later), x, y)
      && EvenPair(ctx, x.validators) && WithinBounds(ctx, x.validators)
      && x.qc.blockHash != y.qc.blockHash
  {
    AddressesDiffer(ctx);
    hide *;
    var x, y := TwoBlocksRun(ctx, now, later);
    PairIsEven(ctx);
    assert Forms(ctx, PairStores(ctx), TwoBlocksEvents(ctx, now, later), x, y);
  }
}
