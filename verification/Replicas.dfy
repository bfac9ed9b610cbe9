/** Engines started on one store: they commit the same headers, and hold the same accounts while the
    bodies of a block hash are equally long. */
module Replicas {
  import opened Bytes
  import opened Crypto
  import opened Sums
  import opened Orders
  import opened Kv
  import Merkle
  import opened MerkleBinding
  import opened Votes
  import opened Blocks
  import opened Ledger
  import opened ChainStore
  import opened State
  import opened Execution
  import opened Proposer
  import opened Quorums
  import opened EngineSpec
  import opened Engine
  import opened EngineRuns
  import opened Agreement

  // ---------------------------------------------------------------------------------------------
  // Stores with the same accounts.

  /** The two stores agree on every key under the accounts prefix. */
  ghost predicate SameAccounts(x: Store, y: Store) {
    forall key: Bytes :: CF_ACCOUNTS <= key ==> (key in x <==> key in y) && (key in x && key in y ==> x[key] == y[key])
  }

  lemma SameKeys(x: Store, y: Store)
    requires SameAccounts(x, y)
    ensures ScannedKeys(x, CF_ACCOUNTS) == ScannedKeys(y, CF_ACCOUNTS)
    ensures forall i :: 0 <= i < |ScannedKeys(x, CF_ACCOUNTS)| ==>
      ScannedKeys(x, CF_ACCOUNTS)[i] in x && ScannedKeys(y, CF_ACCOUNTS)[i] in y
  {
    ScanIsExact(x, CF_ACCOUNTS);
    ScanIsExact(y, CF_ACCOUNTS);
    LexIsTotalOrder();
    hide ScannedKeys, LexLeq, TotalOrder, Sorted;
    SortedUnique(LexLeq, ScannedKeys(x, CF_ACCOUNTS), ScannedKeys(y, CF_ACCOUNTS));
    forall i | 0 <= i < |ScannedKeys(x, CF_ACCOUNTS)|
      ensures ScannedKeys(x, CF_ACCOUNTS)[i] in x && ScannedKeys(y, CF_ACCOUNTS)[i] in y
    {
      assert ScannedKeys(x, CF_ACCOUNTS)[i] in ScannedKeys(x, CF_ACCOUNTS);
    }
  }

  /** They have one validator set and one ledger. */
  lemma SameAccountsRead(codec: Codec, x: Store, y: Store)
    requires SameAccounts(x, y)
    ensures ActiveValidators(codec, x) == ActiveValidators(codec, y) && AccountsOf(codec, x) == AccountsOf(codec, y)
  {
    SameScan(x, y);
    SameLedger(codec, x, y);
    hide SameAccounts, Scan, AccountsOf;
  }

  lemma SameScan(x: Store, y: Store)
    requires SameAccounts(x, y)
    ensures Scan(x, CF_ACCOUNTS) == Scan(y, CF_ACCOUNTS)
  {
    hide *;
    var keys := ScannedKeys(x, CF_ACCOUNTS);
    SameKeys(x, y);
    ScanIs(x, CF_ACCOUNTS);
    ScanIs(y, CF_ACCOUNTS);
    EntriesAre(x, keys);
    EntriesAre(y, keys);
    forall i | 0 <= i < |keys| ensures EntriesOf(x, keys)[i] == EntriesOf(y, keys)[i] {
      ScannedPrefix(x, i);
      SameAt(x, y, keys[i]);
    }
  }

  lemma ScannedPrefix(data: Store, i: nat)
    requires i < |ScannedKeys(data, CF_ACCOUNTS)|
    ensures CF_ACCOUNTS <= ScannedKeys(data, CF_ACCOUNTS)[i]
  {
    ScanIsExact(data, CF_ACCOUNTS);
    hide ScannedKeys;
    assert ScannedKeys(data, CF_ACCOUNTS)[i] in ScannedKeys(data, CF_ACCOUNTS);
  }

  lemma SameAt(x: Store, y: Store, key: Bytes)
    requires SameAccounts(x, y) && CF_ACCOUNTS <= key
    ensures key in x <==> key in y
    ensures key in x ==> x[key] == y[key]
  {
  }

  lemma SameLedger(codec: Codec, x: Store, y: Store)
    requires SameAccounts(x, y)
    ensures AccountsOf(codec, x) == AccountsOf(codec, y)
  {
    hide AddressesIn, SameAccounts;
    forall a: Address ensures AccountKey(a) in x <==> AccountKey(a) in y
      ensures GetAccount(codec, x, a) == GetAccount(codec, y, a)
    {
      assert CF_ACCOUNTS <= AccountKey(a);
      SameAt(x, y, AccountKey(a));
    }
    assert AddressesIn(x) == AddressesIn(y);
  }

  /** Committing blocks of one body keeps them the same. */
  lemma SameCommits(crypto: Crypto, codec: Codec, x: Store, y: Store, a: Block, b: Block)
    requires SameAccounts(x, y) && a.transactions == b.transactions
    ensures SameAccounts(CommitNext(crypto, codec, x, a), CommitNext(crypto, codec, y, b))
  {
    SameAccountsRead(codec, x, y);
    var overlay := OverlayAll(AccountsOf(codec, x), map[], a.transactions);
    var m, n := CommitNext(crypto, codec, x, a), CommitNext(crypto, codec, y, b);
    hide AccountsOf, OverlayAll, SameAccounts, Committed;
    forall key: Bytes | CF_ACCOUNTS <= key
      ensures (key in m <==> key in n) && (key in m && key in n ==> m[key] == n[key])
    {
      SameAt(x, y, key);
      AccountEntry(codec, crypto.hash, x, a, overlay, key);
      AccountEntry(codec, crypto.hash, y, b, overlay, key);
    }
    SameFrom(m, n);
  }

  lemma SameFrom(x: Store, y: Store)
    requires forall key: Bytes :: CF_ACCOUNTS <= key ==>
      (key in x <==> key in y) && (key in x && key in y ==> x[key] == y[key])
    ensures SameAccounts(x, y)
  {
  }

  /** What a commit leaves under a key of the accounts. */
  lemma AccountEntry(codec: Codec, hash: Hasher, data: Store, block: Block, overlay: Accounts, key: Bytes)
    requires CF_ACCOUNTS <= key
    ensures var after := Committed(codec, hash, data, block, overlay);
      if IsAccountKey(key) && key[2..] in overlay
      then key in after && after[key] == codec.encodeAccount(overlay[key[2..]])
      else (key in after <==> key in data) && (key in data ==> after[key] == data[key])
  {
    PutAccountsReads(codec, data, overlay);
    hide PutAccounts;
    assert key[0] == 97;
    assert key != BlockKey(block.BlockHash(hash)) && key != HeightKey(block.header.height) && key != LATEST_HEIGHT_KEY;
    if IsAccountKey(key) {
      AccountKeyOfAddress(key);
    }
  }

  // ---------------------------------------------------------------------------------------------
  // One engine of a network.

  /** The store after these blocks are executed and committed one after the other. */
  ghost function StoreAfter(crypto: Crypto, codec: Codec, data: Store, blocks: seq<Block>): Store {
    if blocks == [] then data
    else CommitNext(crypto, codec, StoreAfter(crypto, codec, data, blocks[..|blocks| - 1]), blocks[|blocks| - 1])
  }

  /** What an engine does with an event delivered to it. */
  ghost function RunOf(ctx: Context, net: Network, event: Event): Handled
    requires event.node in net.nodes && event.node in ctx.keys
  {
    Handle(ctx.crypto, ctx.codec, ctx.keys[event.node], net.nodes[event.node], event.input)
  }

  /** The blocks an engine commits during a run, in order. */
  ghost function CommittedBy(ctx: Context, net: Network, events: seq<Event>, n: NodeId): seq<Block>
    decreases |events|
  {
    if events == [] then [] else
      CommittedAt(ctx, net, events[0], n) + CommittedBy(ctx, Deliver(ctx, net, events[0]), events[1..], n)
  }

  ghost function CommittedAt(ctx: Context, net: Network, event: Event, n: NodeId): seq<Block> {
    if event.node == n && n in net.nodes && n in ctx.keys && RunOf(ctx, net, event).commit.Some?
    then [RunOf(ctx, net, event).commit.value] else []
  }

  /** Every certificate an engine forms is for the proposal it holds. */
  ghost predicate HeldRun(ctx: Context, net: Network, events: seq<Event>, n: NodeId)
    decreases |events|
  {
    events != [] ==> HeldAt(ctx, net, events[0], n) && HeldRun(ctx, Deliver(ctx, net, events[0]), events[1..], n)
  }

  ghost predicate HeldAt(ctx: Context, net: Network, event: Event, n: NodeId) {
    event.node == n && n in net.nodes && n in ctx.keys && RunOf(ctx, net, event).qc.Some? ==>
      RunOf(ctx, net, event).commit.Some?
  }

  predicate Rooted(crypto: Crypto, block: Block) {
    block.ComputeMerkleRoot(crypto.hash) == block.header.merkleRoot
  }

  predicate HoldsRooted(crypto: Crypto, core: Core) {
    core.proposed.Some? ==> Rooted(crypto, core.proposed.value)
  }

  /** A certificate for the i-th block the engine committed, under the validators stored before it. */
  ghost predicate Certifies(ctx: Context, first: nat, data: Store, chain: seq<Block>, i: nat, cert: Cert)
    requires i < |chain|
  {
    && cert.qc.height == first + i && cert.qc.blockHash == chain[i].BlockHash(ctx.crypto.hash)
    && cert.validators == ActiveValidators(ctx.codec, StoreAfter(ctx.crypto, ctx.codec, data, chain[..i]))
  }

  ghost predicate CertifiedChain(ctx: Context, certs: set<Cert>, first: nat, data: Store, chain: seq<Block>) {
    forall i :: 0 <= i < |chain| ==> Rooted(ctx.crypto, chain[i]) && CertifiedAt(ctx, certs, first, data, chain, i)
  }

  ghost predicate CertifiedAt(ctx: Context, certs: set<Cert>, first: nat, data: Store, chain: seq<Block>, i: nat)
    requires i < |chain|
  {
    exists cert :: cert in certs && Certifies(ctx, first, data, chain, i, cert)
  }

  /** The chain's blocks are for the heights from `first` on. */
  ghost predicate Numbered(first: nat, chain: seq<Block>) {
    forall i :: 0 <= i < |chain| ==> chain[i].header.height == first + i
  }

  /** An engine that started at height `first` on `data` and has committed this chain. */
  ghost predicate Follows(ctx: Context, net: Network, n: NodeId, first: nat, data: Store, chain: seq<Block>) {
    && n in net.nodes && n in ctx.keys
    && Sound(net.nodes[n].core) && HoldsRooted(ctx.crypto, net.nodes[n].core)
    && net.nodes[n].core.height == first + |chain|
    && net.nodes[n].data == StoreAfter(ctx.crypto, ctx.codec, data, chain)
    && Numbered(first, chain) && CertifiedChain(ctx, net.certs, first, data, chain)
  }

  lemma HandleRooted(crypto: Crypto, codec: Codec, key: SecretKey, node: Node, input: Input)
    requires HoldsRooted(crypto, node.core)
    ensures var run := Handle(crypto, codec, key, node, input);
      HoldsRooted(crypto, run.core) && (run.commit.Some? ==> Rooted(crypto, run.commit.value))
  {
    hide *;
    var core, validators := node.core, ActiveValidators(codec, node.data);
    HandleParts(crypto, codec, key, node, input);
    match input
    case Create(chainId, stateRoot, pool, now) =>
      CreatedRooted(crypto, codec, key, node, input);
    case Proposal(block) =>
      if Acceptable(crypto, core, block) {
        OnProposalUnfolds(crypto, key, core, validators, block);
        PassesIff(crypto, block);
        RootedIs(crypto, block);
        HoldingIs(crypto, core.(proposed := Some(block), step := PreVoting));
        PreVoteRooted(crypto, key, core.(proposed := Some(block), step := PreVoting), validators,
          PreVoteFor(crypto, key, core, block));
      }
    case PreVoteIn(vote) =>
      PreVoteRooted(crypto, key, core, validators, vote);
    case PreCommitIn(vote) =>
      PreCommitRooted(crypto, core, validators, vote);
  }

  lemma RootedIs(crypto: Crypto, block: Block)
    ensures Rooted(crypto, block) <==> block.ComputeMerkleRoot(crypto.hash) == block.header.merkleRoot
  {
    hide Block.ComputeMerkleRoot;
  }

  lemma HoldingIs(crypto: Crypto, core: Core)
    ensures HoldsRooted(crypto, core) <==> (core.proposed.Some? ==> Rooted(crypto, core.proposed.value))
  {
    hide Rooted;
  }

  lemma PreCommitRooted(crypto: Crypto, core: Core, validators: seq<ValidatorInfo>, vote: Vote)
    requires HoldsRooted(crypto, core)
    ensures var run := OnPreCommit(crypto.hash, core, validators, vote);
      HoldsRooted(crypto, run.core) && (run.commit.Some? ==> Rooted(crypto, run.commit.value))
  {
    OnPreCommitUnfolds(crypto.hash, core, validators, vote);
    hide OnPreCommit, Rooted, AddVote, VotesFor, PowerSum, VotePower, IsQuorum, NextHeight, Block.BlockHash;
  }

  lemma PreVoteRooted(crypto: Crypto, key: SecretKey, core: Core, validators: seq<ValidatorInfo>, vote: Vote)
    requires HoldsRooted(crypto, core)
    ensures var run := OnPreVote(crypto, key, core, validators, vote);
      HoldsRooted(crypto, run.core) && (run.commit.Some? ==> Rooted(crypto, run.commit.value))
  {
    OnPreVoteUnfolds(crypto, key, core, validators, vote);
    var counted := core.(prevotes := AddVote(core.prevotes, vote), step := PreCommitting);
    PreCommitRooted(crypto, counted, validators,
      NewSigned(crypto, key, vote.blockHash, core.height, core.round, PreCommit));
    hide OnPreCommit, OnPreVote, Rooted, AddVote, VotesFor, PowerSum, VotePower, IsQuorum, NewSigned;
  }

  lemma CreatedRooted(crypto: Crypto, codec: Codec, key: SecretKey, node: Node, input: Input)
    requires input.Create? && HoldsRooted(crypto, node.core)
    ensures var run := Handle(crypto, codec, key, node, input); HoldsRooted(crypto, run.core) && run.commit.None?
  {
    ProposedUnfolds(crypto, codec, key, input.chainId, node.core, node.data, input.stateRoot, input.pool, input.now);
    hide Proposed, Selected, ActiveValidators, BlockAtHeight, PreviousHeight, InfoBytes, Block.BlockHash;
    hide BlockHeader.SigningBytes;
    hide Crypto.AddressOf, Merkle.Root, TxHashes;
  }

  lemma FollowsParts(ctx: Context, net: Network, n: NodeId, first: nat, data: Store, chain: seq<Block>)
    ensures Follows(ctx, net, n, first, data, chain) <==>
      && n in net.nodes && n in ctx.keys
      && Sound(net.nodes[n].core) && HoldsRooted(ctx.crypto, net.nodes[n].core)
      && net.nodes[n].core.height == first + |chain|
      && net.nodes[n].data == StoreAfter(ctx.crypto, ctx.codec, data, chain)
      && Numbered(first, chain) && CertifiedChain(ctx, net.certs, first, data, chain)
  {
    hide Sound, HoldsRooted, StoreAfter, Numbered, CertifiedChain;
  }

  lemma ProperIs(ctx: Context, net: Network, event: Event, once: bool)
    requires Proper(ctx, net, event, once)
    ensures event.node in net.nodes && event.node in ctx.keys && net.nodes[event.node].core.height + 1 < U64_END
  {
    hide Authentic, Acceptable;
  }

  lemma MoreCerts(ctx: Context, certs: set<Cert>, more: set<Cert>, first: nat, data: Store, chain: seq<Block>)
    requires CertifiedChain(ctx, certs, first, data, chain) && certs <= more
    ensures CertifiedChain(ctx, more, first, data, chain)
  {
    hide Certifies, Rooted;
    forall i | 0 <= i < |chain| ensures CertifiedAt(ctx, more, first, data, chain, i) {
      assert CertifiedAt(ctx, certs, first, data, chain, i);
    }
  }

  lemma ChainGrows(ctx: Context, certs: set<Cert>, first: nat, data: Store, chain: seq<Block>, block: Block, cert: Cert)
    requires CertifiedChain(ctx, certs, first, data, chain) && Rooted(ctx.crypto, block) && cert in certs
    requires cert.qc.height == first + |chain| && cert.qc.blockHash == block.BlockHash(ctx.crypto.hash)
    requires cert.validators == ActiveValidators(ctx.codec, StoreAfter(ctx.crypto, ctx.codec, data, chain))
    ensures CertifiedChain(ctx, certs, first, data, chain + [block])
    ensures StoreAfter(ctx.crypto, ctx.codec, data, chain + [block])
         == CommitNext(ctx.crypto, ctx.codec, StoreAfter(ctx.crypto, ctx.codec, data, chain), block)
  {
    hide Rooted, ActiveValidators, CommitNext, Block.BlockHash;
    var longer := chain + [block];
    assert longer[..|chain|] == chain;
    forall i | 0 <= i < |longer|
      ensures Rooted(ctx.crypto, longer[i]) && CertifiedAt(ctx, certs, first, data, longer, i)
    {
      if i < |chain| {
        assert CertifiedAt(ctx, certs, first, data, chain, i);
        var was :| was in certs && Certifies(ctx, first, data, chain, i, was);
        assert longer[..i] == chain[..i];
        assert Certifies(ctx, first, data, longer, i, was);
      } else {
        assert Certifies(ctx, first, data, longer, i, cert);
      }
    }
  }

  lemma FollowsStep(ctx: Context, net: Network, event: Event, once: bool, n: NodeId, first: nat, data: Store,
                    chain: seq<Block>)
    requires Proper(ctx, net, event, once) && Follows(ctx, net, n, first, data, chain) && HeldAt(ctx, net, event, n)
    ensures Follows(ctx, Deliver(ctx, net, event), n, first, data, chain + CommittedAt(ctx, net, event, n))
  {
    hide *;
    var after := Deliver(ctx, net, event);
    FollowsParts(ctx, net, n, first, data, chain);
    ProperIs(ctx, net, event, once);
    DeliverUnfolds(ctx, net, event);
    MoreCerts(ctx, net.certs, after.certs, first, data, chain);
    AtEvent(ctx, net, event, n);
    if event.node == n {
      OwnStep(ctx, net, event, first, data, chain);
    } else {
      assert chain + [] == chain;
      FollowsParts(ctx, after, n, first, data, chain);
    }
  }

  lemma AtEvent(ctx: Context, net: Network, event: Event, n: NodeId)
    requires event.node in net.nodes && event.node in ctx.keys
    ensures RunOf(ctx, net, event)
         == Handle(ctx.crypto, ctx.codec, ctx.keys[event.node], net.nodes[event.node], event.input)
    ensures event.node != n ==> CommittedAt(ctx, net, event, n) == []
    ensures event.node == n ==>
      var run := RunOf(ctx, net, event);
      && CommittedAt(ctx, net, event, n) == (if run.commit.Some? then [run.commit.value] else [])
      && (HeldAt(ctx, net, event, n) && run.qc.Some? ==> run.commit.Some?)
  {
    hide Handle;
  }

  lemma OwnStep(ctx: Context, net: Network, event: Event, first: nat, data: Store, chain: seq<Block>)
    requires event.node in net.nodes && event.node in ctx.keys && net.nodes[event.node].core.height + 1 < U64_END
    requires Follows(ctx, net, event.node, first, data, chain) && HeldAt(ctx, net, event, event.node)
    requires CertifiedChain(ctx, Deliver(ctx, net, event).certs, first, data, chain)
    ensures Follows(ctx, Deliver(ctx, net, event), event.node, first, data,
      chain + CommittedAt(ctx, net, event, event.node))
  {
    hide *;
    var n, after := event.node, Deliver(ctx, net, event);
    var node, run := net.nodes[n], RunOf(ctx, net, event);
    FollowsParts(ctx, net, n, first, data, chain);
    DeliverUnfolds(ctx, net, event);
    AtEvent(ctx, net, event, n);
    HandleRooted(ctx.crypto, ctx.codec, ctx.keys[n], node, event.input);
    HandleSound(ctx.crypto, ctx.codec, ctx.keys[n], node, event.input);
    SteadyParts(ctx.crypto.hash, node.core, run, ActiveValidators(ctx.codec, node.data));
    SettledIs(ctx.crypto, ctx.codec, node.data, run.commit);
    if run.commit.Some? {
      var cert := Cert(n, ActiveValidators(ctx.codec, node.data), run.qc.value);
      SteadyCommit(ctx.crypto.hash, node.core, run, ActiveValidators(ctx.codec, node.data));
      NextHeightSmall(node.core.height, node.core.height + 1);
      ChainGrows(ctx, after.certs, first, data, chain, run.commit.value, cert);
      NumberedMore(first, chain, run.commit.value);
      FollowsParts(ctx, after, n, first, data, chain + [run.commit.value]);
    } else {
      assert chain + [] == chain;
      FollowsParts(ctx, after, n, first, data, chain);
    }
  }

  lemma NumberedMore(first: nat, chain: seq<Block>, block: Block)
    requires Numbered(first, chain) && block.header.height == first + |chain|
    ensures Numbered(first, chain + [block])
  {
  }

  lemma SettledIs(crypto: Crypto, codec: Codec, data: Store, commit: Option<Block>)
    ensures Settled(crypto, codec, data, commit)
         == if commit.Some? then CommitNext(crypto, codec, data, commit.value) else data
  {
    hide CommitNext;
  }

  lemma SteadyCommit(hash: Hasher, before: Core, run: Handled, validators: seq<ValidatorInfo>)
    requires Steady(hash, before, run, validators) && run.commit.Some?
    ensures run.qc.Some? && run.qc.value.height == before.height
    ensures run.qc.value.blockHash == run.commit.value.BlockHash(hash)
  {
    hide SoundCertificate, NextHeight, Block.BlockHash;
  }

  /** Over a run in which all its certificates are for held proposals, an engine's store is the one it
      started on with the blocks it committed executed over it, and each was certified in turn. */
  lemma {:induction false} RunFollows(ctx: Context, net: Network, events: seq<Event>, once: bool, n: NodeId, first: nat,
      data: Store, chain: seq<Block>)
    requires ProperRun(ctx, net, events, once) && Follows(ctx, net, n, first, data, chain)
    requires HeldRun(ctx, net, events, n)
    ensures Follows(ctx, RunNetwork(ctx, net, events), n, first, data, chain + CommittedBy(ctx, net, events, n))
    decreases |events|
  {
    hide Follows, Proper, Deliver, HeldAt, CommittedAt;
    if events == [] {
      assert chain + [] == chain;
    } else {
      var step := CommittedAt(ctx, net, events[0], n);
      FollowsStep(ctx, net, events[0], once, n, first, data, chain);
      RunFollows(ctx, Deliver(ctx, net, events[0]), events[1..], once, n, first, data, chain + step);
      ConcatAssociative(chain, step, CommittedBy(ctx, Deliver(ctx, net, events[0]), events[1..], n));
    }
  }

  // ---------------------------------------------------------------------------------------------
  // What the stores index.

  /** Committed blocks are indexed under their heights, and stay so. */
  lemma {:induction false} ChainIndexed(crypto: Crypto, codec: Codec, data: Store, first: nat, chain: seq<Block>,
      i: nat)
    requires Numbered(first, chain) && i < |chain|
    ensures var after := StoreAfter(crypto, codec, data, chain);
      HeightKey(first + i) in after && after[HeightKey(first + i)] == chain[i].BlockHash(crypto.hash)
    decreases |chain|
  {
    hide *;
    var before, last := chain[..|chain| - 1], chain[|chain| - 1];
    NumberedParts(first, chain, i);
    assert chain[..|chain|] == chain;
    StoreSnoc(crypto, codec, data, chain, |chain| - 1);
    var data' := StoreAfter(crypto, codec, data, before);
    if i < |before| {
      ChainIndexed(crypto, codec, data, first, before, i);
    }
    IndexAfter(crypto, codec, data', last, first + i);
  }

  lemma NumberedParts(first: nat, chain: seq<Block>, i: nat)
    requires Numbered(first, chain) && i < |chain|
    ensures chain[i].header.height == first + i && chain[|chain| - 1].header.height == first + |chain| - 1
    ensures Numbered(first, chain[..|chain| - 1])
  {
  }

  lemma IndexAfter(crypto: Crypto, codec: Codec, data: Store, block: Block, height: U64)
    ensures var after := CommitNext(crypto, codec, data, block);
      && (height == block.header.height ==>
          HeightKey(height) in after && after[HeightKey(height)] == block.BlockHash(crypto.hash))
      && (height != block.header.height && HeightKey(height) in data ==>
            HeightKey(height) in after && after[HeightKey(height)] == data[HeightKey(height)])
  {
    var overlay := OverlayAll(AccountsOf(codec, data), map[], block.transactions);
    hide OverlayAll, AccountsOf, PutAccounts, Block.BlockHash;
    var key := HeightKey(height);
    assert key[0] == 104 && key != LATEST_HEIGHT_KEY && key != BlockKey(block.BlockHash(crypto.hash));
    if height != block.header.height {
      if key == HeightKey(block.header.height) {
        HeightKeyInjective(height, block.header.height);
      }
      UntouchedKey(codec, crypto.hash, data, block, overlay, key);
    }
  }

  /** Chains of the same blocks are indexed alike. */
  lemma SameIndex(crypto: Crypto, codec: Codec, data: Store, first: nat, a: seq<Block>, b: seq<Block>, i: nat)
    requires Numbered(first, a) && Numbered(first, b) && i < |a| && i < |b| && a[i].header == b[i].header
    ensures var x, y := StoreAfter(crypto, codec, data, a), StoreAfter(crypto, codec, data, b);
      HeightKey(first + i) in x && HeightKey(first + i) in y && x[HeightKey(first + i)] == y[HeightKey(first + i)]
  {
    hide StoreAfter, HeightKey, Numbered;
    ChainIndexed(crypto, codec, data, first, a, i);
    ChainIndexed(crypto, codec, data, first, b, i);
  }

  // ---------------------------------------------------------------------------------------------
  // Two engines.

  /** Everything hashed for these blocks is among the inputs. */
  ghost predicate ChainHashed(hash: Hasher, chain: seq<Block>, inputs: set<Preimage>) {
    forall i :: 0 <= i < |chain| ==> BlockHashed(hash, chain[i], inputs)
  }

  /** Blocks of one hash at one place are equally long. */
  ghost predicate SameLengths(hash: Hasher, a: seq<Block>, b: seq<Block>) {
    forall i :: 0 <= i < |a| && i < |b| && a[i].BlockHash(hash) == b[i].BlockHash(hash) ==>
      |a[i].transactions| == |b[i].transactions|
  }

  /** The bounds of agreement, for the validators stored before each block of the chain. */
  ghost predicate ChainBounded(ctx: Context, data: Store, chain: seq<Block>) {
    forall i :: 0 <= i < |chain| ==>
      WithinBounds(ctx, ActiveValidators(ctx.codec, StoreAfter(ctx.crypto, ctx.codec, data, chain[..i])))
  }

  ghost predicate SameBlocks(a: seq<Block>, b: seq<Block>, k: nat)
    requires k <= |a| && k <= |b|
  {
    forall i :: 0 <= i < k ==> a[i].header == b[i].header && a[i].transactions == b[i].transactions
  }

  /** Certificates of one height whose validator sets the chains so far make equal. */
  lemma NextAgrees(ctx: Context, net: Network, first: nat, data: Store, a: seq<Block>, b: seq<Block>, k: nat,
                   inputs: set<Preimage>)
    requires NetInv(ctx, net) && CertifiedChain(ctx, net.certs, first, data, a)
    requires CertifiedChain(ctx, net.certs, first, data, b)
    requires k < |a| && k < |b| && ChainBounded(ctx, data, a) && SameLengths(ctx.crypto.hash, a, b)
    requires SoundInputs(ctx.crypto.hash, inputs) && ChainHashed(ctx.crypto.hash, a, inputs)
    requires ChainHashed(ctx.crypto.hash, b, inputs)
    requires SameAccounts(StoreAfter(ctx.crypto, ctx.codec, data, a[..k]),
      StoreAfter(ctx.crypto, ctx.codec, data, b[..k]))
    ensures a[k].header == b[k].header && a[k].transactions == b[k].transactions
  {
    hide *;
    var hash := ctx.crypto.hash;
    var x, y := StoreAfter(ctx.crypto, ctx.codec, data, a[..k]), StoreAfter(ctx.crypto, ctx.codec, data, b[..k]);
    SameAccountsRead(ctx.codec, x, y);
    var c := CertifiedParts(ctx, net.certs, first, data, a, k);
    var d := CertifiedParts(ctx, net.certs, first, data, b, k);
    NetParts(ctx, net);
    BoundsAt(ctx, data, a, k);
    GoodCertsAgree(ctx, net.sent, c, d);
    HashedAt(hash, a, inputs, k);
    HashedAt(hash, b, inputs, k);
    LengthsAt(hash, a, b, k);
    SameHashSameBlock(ctx.crypto, a[k], b[k], inputs);
  }

  lemma CertifiedParts(ctx: Context, certs: set<Cert>, first: nat, data: Store, chain: seq<Block>, k: nat)
    returns (cert: Cert)
    requires CertifiedChain(ctx, certs, first, data, chain) && k < |chain|
    ensures cert in certs && cert.qc.height == first + k && cert.qc.blockHash == chain[k].BlockHash(ctx.crypto.hash)
    ensures cert.validators == ActiveValidators(ctx.codec, StoreAfter(ctx.crypto, ctx.codec, data, chain[..k]))
    ensures Rooted(ctx.crypto, chain[k])
  {
    hide ActiveValidators, StoreAfter, Rooted, Block.BlockHash;
    assert CertifiedAt(ctx, certs, first, data, chain, k);
    cert :| cert in certs && Certifies(ctx, first, data, chain, k, cert);
  }

  lemma BoundsAt(ctx: Context, data: Store, chain: seq<Block>, k: nat)
    requires ChainBounded(ctx, data, chain) && k < |chain|
    ensures var validators := ActiveValidators(ctx.codec, StoreAfter(ctx.crypto, ctx.codec, data, chain[..k]));
      TotalPower(validators) < U64_END
        && Sum(Faulty(ctx, validators), PowerIn(validators)) * 3 <= TotalPower(validators)
  {
    hide ActiveValidators, StoreAfter, TotalPower, Faulty, PowerIn;
    assert WithinBounds(ctx, ActiveValidators(ctx.codec, StoreAfter(ctx.crypto, ctx.codec, data, chain[..k])));
  }

  lemma HashedAt(hash: Hasher, chain: seq<Block>, inputs: set<Preimage>, k: nat)
    requires ChainHashed(hash, chain, inputs) && k < |chain|
    ensures BlockHashed(hash, chain[k], inputs)
  {
    hide BlockHashed;
  }

  lemma LengthsAt(hash: Hasher, a: seq<Block>, b: seq<Block>, k: nat)
    requires SameLengths(hash, a, b) && k < |a| && k < |b|
    ensures a[k].BlockHash(hash) == b[k].BlockHash(hash) ==> |a[k].transactions| == |b[k].transactions|
  {
    hide Block.BlockHash;
  }

  lemma SameHashSameBlock(crypto: Crypto, a: Block, b: Block, inputs: set<Preimage>)
    requires SoundInputs(crypto.hash, inputs) && BlockHashed(crypto.hash, a, inputs)
    requires BlockHashed(crypto.hash, b, inputs)
    requires Rooted(crypto, a) && Rooted(crypto, b) && a.BlockHash(crypto.hash) == b.BlockHash(crypto.hash)
    requires |a.transactions| == |b.transactions|
    ensures a.header == b.header && a.transactions == b.transactions
  {
    hide *;
    SoundIsCollisionFree(crypto.hash, inputs);
    HeaderHashed(crypto.hash, a, inputs);
    HeaderHashed(crypto.hash, b, inputs);
    SameHashSameHeader(crypto.hash, a.header, b.header, inputs);
    RootedIs(crypto, a);
    RootedIs(crypto, b);
    RootBindsTransactions(crypto.hash, a, b, inputs);
    SamePaddedIsPrefix(a.transactions, b.transactions);
  }

  lemma {:induction false} SameChains(ctx: Context, net: Network, first: nat, data: Store, a: seq<Block>, b: seq<Block>,
      k: nat, inputs: set<Preimage>)
    requires NetInv(ctx, net) && CertifiedChain(ctx, net.certs, first, data, a)
    requires CertifiedChain(ctx, net.certs, first, data, b)
    requires k <= |a| && k <= |b| && ChainBounded(ctx, data, a) && SameLengths(ctx.crypto.hash, a, b)
    requires SoundInputs(ctx.crypto.hash, inputs) && ChainHashed(ctx.crypto.hash, a, inputs)
    requires ChainHashed(ctx.crypto.hash, b, inputs)
    ensures SameBlocks(a, b, k)
    ensures SameAccounts(StoreAfter(ctx.crypto, ctx.codec, data, a[..k]),
      StoreAfter(ctx.crypto, ctx.codec, data, b[..k]))
    decreases k
  {
    hide *;
    if k == 0 {
      SameStart(ctx, data, a, b);
    } else {
      SameChains(ctx, net, first, data, a, b, k - 1, inputs);
      NextAgrees(ctx, net, first, data, a, b, k - 1, inputs);
      OneMore(a, b, k - 1);
      StoreSnoc(ctx.crypto, ctx.codec, data, a, k - 1);
      StoreSnoc(ctx.crypto, ctx.codec, data, b, k - 1);
      SameCommits(ctx.crypto, ctx.codec, StoreAfter(ctx.crypto, ctx.codec, data, a[..k - 1]),
        StoreAfter(ctx.crypto, ctx.codec, data, b[..k - 1]), a[k - 1], b[k - 1]);
    }
  }

  lemma SameStart(ctx: Context, data: Store, a: seq<Block>, b: seq<Block>)
    ensures SameBlocks(a, b, 0)
    ensures SameAccounts(StoreAfter(ctx.crypto, ctx.codec, data, a[..0]),
      StoreAfter(ctx.crypto, ctx.codec, data, b[..0]))
  {
  }

  lemma OneMore(a: seq<Block>, b: seq<Block>, k: nat)
    requires k < |a| && k < |b| && SameBlocks(a, b, k) && a[k].header == b[k].header
    requires a[k].transactions == b[k].transactions
    ensures SameBlocks(a, b, k + 1)
  {
  }

  lemma StoreSnoc(crypto: Crypto, codec: Codec, data: Store, chain: seq<Block>, k: nat)
    requires k < |chain|
    ensures StoreAfter(crypto, codec, data, chain[..k + 1])
         == CommitNext(crypto, codec, StoreAfter(crypto, codec, data, chain[..k]), chain[k])
  {
    hide CommitNext;
    assert chain[..k + 1][..k] == chain[..k];
  }

  /** Every engine as `new` starts it on one store. */
  ghost function StartOn(ctx: Context, data: Store): Network {
    Genesis(ctx, map n | n in ctx.keys :: data)
  }

  lemma StartFollows(ctx: Context, data: Store, n: NodeId)
    requires n in ctx.keys
    ensures Follows(ctx, StartOn(ctx, data), n, Started(data).core.height, data, [])
  {
    StartedSound(data);
    hide Sound, NextHeight, LatestHeight;
  }

  lemma StartInv(ctx: Context, data: Store)
    ensures NetInv(ctx, StartOn(ctx, data))
  {
    GenesisInv(ctx, map n | n in ctx.keys :: data);
    hide NetInv, Genesis;
  }

  /** Both stores index a block at this height, of one hash. */
  ghost predicate SameHashAt(x: Store, y: Store, h: nat) {
    HeightKey(h) in x && HeightKey(h) in y && x[HeightKey(h)] == y[HeightKey(h)]
  }

  lemma SameHashIs(x: Store, y: Store, h: nat)
    ensures SameHashAt(x, y, h) <==> HeightKey(h) in x && HeightKey(h) in y && x[HeightKey(h)] == y[HeightKey(h)]
  {
  }

  lemma SameBlockAt(a: seq<Block>, b: seq<Block>, k: nat, i: nat)
    requires i < k <= |a| && k <= |b| && SameBlocks(a, b, k)
    ensures a[i].header == b[i].header
  {
  }

  /** At every height both have reached, the engines index one hash, and at equal heights they hold the
      same accounts and validators. */
  ghost predicate Agree(codec: Codec, first: nat, x: Node, y: Node) {
    && (forall h: nat :: first <= h < x.core.height && h < y.core.height ==> SameHashAt(x.data, y.data, h))
    && (x.core.height == y.core.height ==>
         AccountsOf(codec, x.data) == AccountsOf(codec, y.data)
           && ActiveValidators(codec, x.data) == ActiveValidators(codec, y.data))
  }

  lemma ChainsAgree(ctx: Context, net: Network, data: Store, m: NodeId, n: NodeId, first: nat, a: seq<Block>,
                    b: seq<Block>)
    requires Follows(ctx, net, m, first, data, a) && Follows(ctx, net, n, first, data, b)
    requires |a| <= |b| && SameBlocks(a, b, |a|)
    requires SameAccounts(StoreAfter(ctx.crypto, ctx.codec, data, a), StoreAfter(ctx.crypto, ctx.codec, data, b[..|a|]))
    ensures m in net.nodes && n in net.nodes
    ensures Agree(ctx.codec, first, net.nodes[m], net.nodes[n]) && Agree(ctx.codec, first, net.nodes[n], net.nodes[m])
  {
    hide *;
    FollowsParts(ctx, net, m, first, data, a);
    FollowsParts(ctx, net, n, first, data, b);
    var x, y := net.nodes[m], net.nodes[n];
    forall h: nat | first <= h < x.core.height && h < y.core.height
      ensures SameHashAt(x.data, y.data, h) && SameHashAt(y.data, x.data, h)
    {
      SameBlockAt(a, b, |a|, h - first);
      SameIndex(ctx.crypto, ctx.codec, data, first, a, b, h - first);
      SameHashIs(x.data, y.data, h);
      SameHashIs(y.data, x.data, h);
    }
    if |a| == |b| {
      assert b[..|a|] == b;
      SameAccountsRead(ctx.codec, x.data, y.data);
    }
    AgreeFrom(ctx.codec, first, x, y);
    AgreeFrom(ctx.codec, first, y, x);
  }

  lemma AgreeFrom(codec: Codec, first: nat, x: Node, y: Node)
    requires forall h: nat :: first <= h < x.core.height && h < y.core.height ==> SameHashAt(x.data, y.data, h)
    requires x.core.height == y.core.height ==>
      AccountsOf(codec, x.data) == AccountsOf(codec, y.data)
        && ActiveValidators(codec, x.data) == ActiveValidators(codec, y.data)
    ensures Agree(codec, first, x, y)
  {
    hide SameHashAt, AccountsOf, ActiveValidators;
  }

  /** Over a run in which its certificates are all for proposals it holds, an engine's height and store
      are those of the blocks it committed. */
  lemma EngineFollows(ctx: Context, data: Store, events: seq<Event>, once: bool, n: NodeId)
    requires n in ctx.keys && ProperRun(ctx, StartOn(ctx, data), events, once)
    requires HeldRun(ctx, StartOn(ctx, data), events, n)
    ensures Follows(ctx, RunNetwork(ctx, StartOn(ctx, data), events), n, Started(data).core.height, data,
      CommittedBy(ctx, StartOn(ctx, data), events, n))
  {
    hide *;
    var chain := CommittedBy(ctx, StartOn(ctx, data), events, n);
    StartFollows(ctx, data, n);
    RunFollows(ctx, StartOn(ctx, data), events, once, n, Started(data).core.height, data, []);
    assert [] + chain == chain;
  }

  /** The hypotheses on what two engines committed: bounded faults at each height, and under one hash
      bodies equally long. */
  ghost predicate Comparable(ctx: Context, data: Store, a: seq<Block>, b: seq<Block>, inputs: set<Preimage>) {
    && ChainBounded(ctx, data, a) && SameLengths(ctx.crypto.hash, a, b)
    && SoundInputs(ctx.crypto.hash, inputs) && ChainHashed(ctx.crypto.hash, a, inputs)
    && ChainHashed(ctx.crypto.hash, b, inputs)
  }

  lemma ComparableIs(ctx: Context, data: Store, a: seq<Block>, b: seq<Block>, inputs: set<Preimage>)
    ensures Comparable(ctx, data, a, b, inputs) <==>
      && ChainBounded(ctx, data, a) && SameLengths(ctx.crypto.hash, a, b)
      && SoundInputs(ctx.crypto.hash, inputs) && ChainHashed(ctx.crypto.hash, a, inputs)
      && ChainHashed(ctx.crypto.hash, b, inputs)
  {
    hide ChainBounded, SameLengths, SoundInputs, ChainHashed;
  }

  /** Replica agreement. Engines start on one store, in a run within the hypotheses of agreement. Two of
      them whose certificates are all for proposals they hold, where the first has committed no more
      than the second, have committed the same blocks, height by height, and so index one hash at
      every height both reached and hold the same accounts and validators at equal heights. */
  lemma ReplicasAgree(ctx: Context, data: Store, events: seq<Event>, m: NodeId, n: NodeId, inputs: set<Preimage>)
    requires ctx.WellFormed() && m in ctx.keys && n in ctx.keys && AllowedRun(ctx, StartOn(ctx, data), events)
    requires HeldRun(ctx, StartOn(ctx, data), events, m) && HeldRun(ctx, StartOn(ctx, data), events, n)
    requires Comparable(ctx, data, CommittedBy(ctx, StartOn(ctx, data), events, m),
      CommittedBy(ctx, StartOn(ctx, data), events, n), inputs)
    requires |CommittedBy(ctx, StartOn(ctx, data), events, m)| <= |CommittedBy(ctx, StartOn(ctx, data), events, n)|
    ensures var net, a, b := RunNetwork(ctx, StartOn(ctx, data), events),
        CommittedBy(ctx, StartOn(ctx, data), events, m), CommittedBy(ctx, StartOn(ctx, data), events, n);
      && SameBlocks(a, b, |a|) && m in net.nodes && n in net.nodes
      && Agree(ctx.codec, Started(data).core.height, net.nodes[m], net.nodes[n])
      && Agree(ctx.codec, Started(data).core.height, net.nodes[n], net.nodes[m])
  {
    hide *;
    var start, first := StartOn(ctx, data), Started(data).core.height;
    var net, a, b :=
      RunNetwork(ctx, start, events), CommittedBy(ctx, start, events, m), CommittedBy(ctx, start, events, n);
    StartInv(ctx, data);
    RunKeeps(ctx, start, events);
    AllowedIs(ctx, start, events);
    EngineFollows(ctx, data, events, true, m);
    EngineFollows(ctx, data, events, true, n);
    FollowsParts(ctx, net, m, first, data, a);
    FollowsParts(ctx, net, n, first, data, b);
    ComparableIs(ctx, data, a, b, inputs);
    SameChains(ctx, net, first, data, a, b, |a|, inputs);
    assert a[..|a|] == a;
    ChainsAgree(ctx, net, data, m, n, first, a, b);
  }
}
