/** The voting engine as a state machine: its own fields, and what each handler does to them. */
module EngineSpec {
  import opened Bytes
  import opened Crypto
  import opened Kv
  import opened Votes
  import opened Blocks
  import opened ChainStore
  import opened State
  import opened StateTheorems
  import opened Execution
  import opened Proposer
  import opened Quorums

  datatype ConsensusStep = NewRound | Propose | PreVoting | PreCommitting | Committing

  /** Votes by the block hash they are for. */
  type Ballots = map<Hash, seq<Vote>>

  datatype Core = Core(
    height: U64,
    round: U32,
    step: ConsensusStep,
    proposed: Option<Block>,
    prevotes: Ballots,
    precommits: Ballots,
    lastQc: Option<QuorumCertificate>)

  /** What a handler did: the new state, what it cast and certified, and the block it had committed. */
  datatype Handled = Handled(
    core: Core,
    precommit: Option<Vote>,
    qc: Option<QuorumCertificate>,
    commit: Option<Block>)

  datatype ConsensusError =
    | NotProposer(height: U64, round: U32)
    | InvalidProposal
    | PreviousBlockMissing

  // ---------------------------------------------------------------------------------------------
  // The validator set.

  function InfosOf(entries: seq<ValidatorEntry>): seq<ValidatorInfo> {
    if entries == [] then [] else
      var last := entries[|entries| - 1];
      InfosOf(entries[..|entries| - 1])
        + match last.account.validatorPubkey
          case Some(pubkey) => [ValidatorInfo(last.address, pubkey, last.account.stakedAmount)]
          case None => []
  }

  ghost function ActiveValidators(codec: Codec, data: Store): seq<ValidatorInfo> {
    InfosOf(ValidatorsIn(codec, Scan(data, CF_ACCOUNTS)))
  }

  lemma {:induction false} InfosDistinct(entries: seq<ValidatorEntry>)
    requires DistinctAddresses(entries)
    ensures DistinctValidators(InfosOf(entries))
    ensures forall v :: v in InfosOf(entries) ==> exists i :: 0 <= i < |entries| && entries[i].address == v.address
  {
    if entries != [] {
      InfosDistinct(entries[..|entries| - 1]);
      var before := InfosOf(entries[..|entries| - 1]);
      forall k | 0 <= k < |before| ensures before[k].address != entries[|entries| - 1].address {
        assert before[k] in before;
      }
    }
  }

  lemma ActiveDistinct(codec: Codec, data: Store)
    ensures DistinctValidators(ActiveValidators(codec, data))
  {
    ValidatorsExactly(codec, data);
    InfosDistinct(ValidatorsIn(codec, Scan(data, CF_ACCOUNTS)));
  }

  /** Voting power is stake: the infos of a list are those of its entries that have a key, each under
      its own address and key with its stake. */
  lemma {:induction false} InfosIff(entries: seq<ValidatorEntry>, v: ValidatorInfo)
    ensures v in InfosOf(entries) <==> exists i :: 0 <= i < |entries| && InfoFrom(entries[i], v)
  {
    if entries != [] {
      var before, last := entries[..|entries| - 1], entries[|entries| - 1];
      InfosIff(before, v);
      InfosStep(entries, v);
      hide InfosOf, InfoFrom;
      if i :| 0 <= i < |before| && InfoFrom(before[i], v) {
        assert entries[i] == before[i];
      }
    }
  }

  predicate InfoFrom(entry: ValidatorEntry, v: ValidatorInfo) {
    v.address == entry.address && entry.account.validatorPubkey == Some(v.pubkey)
      && v.votingPower == entry.account.stakedAmount
  }

  lemma InfosStep(entries: seq<ValidatorEntry>, v: ValidatorInfo)
    requires entries != []
    ensures v in InfosOf(entries) <==> v in InfosOf(entries[..|entries| - 1]) || InfoFrom(entries[|entries| - 1], v)
  {
  }

  /** Who may vote and with what power, read off the store: exactly the addresses whose account is a
      validator with a key and a positive stake, each with that key and that stake. */
  lemma ActiveValidatorsIff(codec: Codec, data: Store, v: ValidatorInfo)
    ensures v in ActiveValidators(codec, data) <==>
      && AccountKey(v.address) in data
      && var account := codec.decodeAccount(data[AccountKey(v.address)]);
      && account.Some? && account.value.isValidator && account.value.stakedAmount == v.votingPower > 0
      && account.value.validatorPubkey == Some(v.pubkey)
  {
    var entries := ValidatorsIn(codec, Scan(data, CF_ACCOUNTS));
    ValidatorsExactly(codec, data);
    InfosIff(entries, v);
    hide InfosOf, ValidatorsIn, Scan, AccountKey, DistinctAddresses;
    if AccountKey(v.address) in data && codec.decodeAccount(data[AccountKey(v.address)]).Some? {
      var entry := ValidatorEntry(v.address, codec.decodeAccount(data[AccountKey(v.address)]).value);
      if IsActive(codec, data, entry) {
        assert entry in entries;
      }
    }
    if i :| 0 <= i < |entries| && InfoFrom(entries[i], v) {
      assert entries[i] in entries;
    }
  }

  lemma ActiveByAccount(codec: Codec, data: Store, v: ValidatorInfo)
    ensures var account := ChainStore.GetAccount(codec, data, v.address);
      v in ActiveValidators(codec, data) <==>
        account.isValidator && account.stakedAmount == v.votingPower > 0 && account.validatorPubkey == Some(v.pubkey)
  {
    ActiveValidatorsIff(codec, data, v);
    hide ActiveValidators, AccountKey;
  }

  /** Who may vote after a genesis on an empty store: exactly the genesis validators with a positive
      stake, each with the key and the stake of the last entry for its address. */
  lemma GenesisValidatorsExactly(codec: Codec, hash: Hasher, genesis: GenesisConfig, v: ValidatorInfo)
    requires codec.RoundTrips()
    ensures v in ActiveValidators(codec, GenesisStore(codec, hash, map[], genesis)) <==>
      v.votingPower > 0 && IsLastEntry(genesis.validators, GenesisValidator(v.address, v.pubkey, v.votingPower))
  {
    hide *;
    var after := GenesisStore(codec, hash, map[], genesis);
    ActiveByAccount(codec, after, v);
    GenesisAccountAfter(codec, hash, map[], genesis, v.address);
    EmptyStoreReads(codec, v.address);
    LastEntryIs(genesis.validators, GenesisValidator(v.address, v.pubkey, v.votingPower));
    LastHasAddress(genesis.validators, v.address);
  }

  lemma EmptyStoreReads(codec: Codec, a: Address)
    ensures !ChainStore.GetAccount(codec, map[], a).isValidator
  {
  }

  lemma {:induction false} LastHasAddress(validators: seq<GenesisValidator>, a: Address)
    ensures LastGenesisValidator(validators, a).Some? ==> LastGenesisValidator(validators, a).value.address == a
  {
    if validators != [] {
      LastHasAddress(validators[..|validators| - 1], a);
    }
  }

  // ---------------------------------------------------------------------------------------------
  // Handlers.

  function NextHeight(height: U64): U64 {
    WrapAdd(height, 1)
  }

  function PreviousHeight(height: U64): U64 {
    WrapSub(height, 1)
  }

  predicate HasVoted(votes: seq<Vote>, a: Address) {
    exists i :: 0 <= i < |votes| && votes[i].validator == a
  }

  function VotesFor(ballots: Ballots, h: Hash): seq<Vote> {
    if h in ballots then ballots[h] else []
  }

  /** A validator's first vote for a hash counts, later ones do not. */
  function AddVote(ballots: Ballots, vote: Vote): Ballots {
    var votes := VotesFor(ballots, vote.blockHash);
    ballots[vote.blockHash := if HasVoted(votes, vote.validator) then votes else votes + [vote]]
  }

  predicate Passes(ballots: Ballots, h: Hash, validators: seq<ValidatorInfo>) {
    IsQuorum(PowerSum(validators), VotePower(VotesFor(ballots, h), validators))
  }

  function OnPreCommit(hash: Hasher, core: Core, validators: seq<ValidatorInfo>, vote: Vote): Handled {
    var precommits := AddVote(core.precommits, vote);
    if Passes(precommits, vote.blockHash, validators) && !core.step.Committing? then
      var votes := VotesFor(precommits, vote.blockHash);
      var qc := QuorumCertificate(vote.blockHash, core.height, core.round, votes, PowerSum(validators),
        VotePower(votes, validators));
      var commit :=
        if core.proposed.Some? && core.proposed.value.BlockHash(hash) == vote.blockHash then core.proposed else None;
      Handled(Core(NextHeight(core.height), 0, NewRound, None, map[], map[], Some(qc)), None, Some(qc), commit)
    else
      Handled(core.(precommits := precommits), None, None, None)
  }

  function OnPreVote(crypto: Crypto, key: SecretKey, core: Core, validators: seq<ValidatorInfo>, vote: Vote): Handled {
    var prevotes := AddVote(core.prevotes, vote);
    var counted := core.(prevotes := prevotes);
    if Passes(prevotes, vote.blockHash, validators) && core.step.PreVoting? then
      var precommit := NewSigned(crypto, key, vote.blockHash, core.height, core.round, PreCommit);
      OnPreCommit(crypto.hash, counted.(step := PreCommitting), validators, precommit).(precommit := Some(precommit))
    else
      Handled(counted, None, None, None)
  }

  predicate Acceptable(crypto: Crypto, core: Core, block: Block) {
    block.header.height == core.height && block.header.round == core.round && block.ValidateBasic(crypto).Pass?
  }

  function PreVoteFor(crypto: Crypto, key: SecretKey, core: Core, block: Block): Vote {
    NewSigned(crypto, key, block.BlockHash(crypto.hash), core.height, core.round, PreVote)
  }

  function OnProposal(crypto: Crypto, key: SecretKey, core: Core, validators: seq<ValidatorInfo>, block: Block): Handled
    requires Acceptable(crypto, core, block)
  {
    OnPreVote(crypto, key, core.(proposed := Some(block), step := PreVoting), validators,
      PreVoteFor(crypto, key, core, block))
  }

  /** The store after a handler. */
  function Settled(crypto: Crypto, codec: Codec, data: Store, commit: Option<Block>): Store {
    match commit
    case Some(block) => CommitNext(crypto, codec, data, block)
    case None => data
  }

  // ---------------------------------------------------------------------------------------------
  // Proposals.

  function InfoBytes(validators: seq<ValidatorInfo>): Bytes {
    if validators == [] then [] else
      var last := validators[|validators| - 1];
      InfoBytes(validators[..|validators| - 1]) + last.address + last.pubkey + BigEndian(last.votingPower, 8)
  }

  lemma {:induction false} InfoBytesLength(validators: seq<ValidatorInfo>)
    ensures |InfoBytes(validators)| == 60 * |validators|
  {
    if validators != [] {
      InfoBytesLength(validators[..|validators| - 1]);
    }
  }

  /** The bytes hashed into a header for the validator set determine it, order included. */
  lemma {:induction false} InfoBytesInjective(a: seq<ValidatorInfo>, b: seq<ValidatorInfo>)
    requires InfoBytes(a) == InfoBytes(b)
    ensures a == b
  {
    hide *;
    InfoBytesLength(a);
    InfoBytesLength(b);
    if a != [] {
      var p, q, x, y := a[..|a| - 1], b[..|b| - 1], a[|a| - 1], b[|b| - 1];
      InfoBytesStep(a);
      InfoBytesStep(b);
      InfoBytesLength(p);
      InfoBytesLength(q);
      InfoSplits(InfoBytes(p), x, InfoBytes(q), y);
      InfoBytesInjective(p, q);
      assert a == p + [x] && b == q + [y];
    }
  }

  lemma InfoBytesStep(validators: seq<ValidatorInfo>)
    requires validators != []
    ensures var last := validators[|validators| - 1];
      InfoBytes(validators)
        == InfoBytes(validators[..|validators| - 1]) + last.address + last.pubkey + BigEndian(last.votingPower, 8)
  {
  }

  lemma InfoSplits(p: Bytes, x: ValidatorInfo, q: Bytes, y: ValidatorInfo)
    requires |p| == |q|
    requires p + x.address + x.pubkey + BigEndian(x.votingPower, 8)
          == q + y.address + y.pubkey + BigEndian(y.votingPower, 8)
    ensures p == q && x == y
  {
    hide BigEndian;
    ConcatInjective(p + x.address + x.pubkey, BigEndian(x.votingPower, 8),
      q + y.address + y.pubkey, BigEndian(y.votingPower, 8));
    ConcatInjective(p + x.address, x.pubkey, q + y.address, y.pubkey);
    ConcatInjective(p, x.address, q, y.address);
    U64Injective(x.votingPower, y.votingPower);
  }

  /** The header before its Merkle root and signature are filled in. */
  function DraftHeader(crypto: Crypto, key: SecretKey, chainId: Bytes, core: Core, previous: Block, stateRoot: Hash,
                       validators: seq<ValidatorInfo>, now: U64): BlockHeader
  {
    BlockHeader(HEADER_VERSION, chainId, core.height, core.round, previous.BlockHash(crypto.hash), ZERO, stateRoot,
      crypto.hash(RawDomain, InfoBytes(validators)), now, crypto.AddressOf(crypto.publicKey(key)), ZERO_SIGNATURE)
  }

  function Completed(crypto: Crypto, key: SecretKey, draft: Block): Block {
    var header := draft.header.(merkleRoot := draft.ComputeMerkleRoot(crypto.hash));
    draft.(header := header.(signature := crypto.sign(key, header.SigningBytes())))
  }
}
