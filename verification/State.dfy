/** The state database: a key-value store and a sparse Merkle tree that must mirror its accounts. */
module State {
  import opened Bytes
  import opened Crypto
  import opened Kv
  import opened Smt
  import opened Blocks
  import opened Ledger
  import opened ChainStore

  // ---------------------------------------------------------------------------------------------
  // Mirroring.

  /** The tree key of an address. */
  function KeyHash(hash: Hasher, address: Address): Hash {
    hash(SmtLeafDomain, address)
  }

  ghost predicate AddressesApart(hash: Hasher) {
    forall a: Address, b: Address :: KeyHash(hash, a) == KeyHash(hash, b) ==> a == b
  }

  predicate HasValue(data: Store, address: Address) {
    AccountKey(address) in data && data[AccountKey(address)] != []
  }

  /** The tree's leaves are exactly the hashed `a:` entries of the store. */
  ghost predicate Mirrors(hash: Hasher, data: Store, leaves: Leaves) {
    && (forall a: Address :: HasValue(data, a) ==>
      KeyHash(hash, a) in leaves && leaves[KeyHash(hash, a)] == SmtLeaf(hash, KeyHash(hash, a), data[AccountKey(a)]))
    && (forall key :: key in leaves ==> exists a: Address :: HasValue(data, a) && key == KeyHash(hash, a))
  }

  /** There is one mirror of a store: whatever order built it, and whether it was kept up or
      rebuilt, the leaves and so the root are the same. */
  lemma MirrorUnique(hash: Hasher, data: Store, a: Leaves, b: Leaves)
    requires Mirrors(hash, data, a) && Mirrors(hash, data, b)
    ensures a == b
  {
    MirrorIncluded(hash, data, a, b);
    MirrorIncluded(hash, data, b, a);
  }

  lemma MirrorIncluded(hash: Hasher, data: Store, a: Leaves, b: Leaves)
    requires Mirrors(hash, data, a) && Mirrors(hash, data, b)
    ensures forall key :: key in a ==> key in b && a[key] == b[key]
  {
    forall key | key in a ensures key in b && a[key] == b[key] {
      var address: Address :| HasValue(data, address) && key == KeyHash(hash, address);
    }
  }

  /** Writing an account to the store and updating its leaf keeps the mirror. */
  lemma MirrorAfterAccount(hash: Hasher, data: Store, leaves: Leaves, address: Address, value: Bytes)
    requires AddressesApart(hash) && Mirrors(hash, data, leaves)
    ensures Mirrors(hash, data[AccountKey(address) := value], UpdateLeaves(hash, leaves, KeyHash(hash, address), value))
  {
    var after := data[AccountKey(address) := value];
    var updated := UpdateLeaves(hash, leaves, KeyHash(hash, address), value);
    hide AccountKey, SmtLeaf, KeyHash;
    forall a: Address ensures a != address ==> AccountKey(a) != AccountKey(address) {
      assert AccountKey(a)[2..] == a && AccountKey(address)[2..] == address;
    }
    forall a: Address | HasValue(after, a)
      ensures KeyHash(hash, a) in updated
        && updated[KeyHash(hash, a)] == SmtLeaf(hash, KeyHash(hash, a), after[AccountKey(a)])
    {
      assert a != address ==> HasValue(data, a);
    }
    forall key | key in updated ensures exists a: Address :: HasValue(after, a) && key == KeyHash(hash, a) {
      if key == KeyHash(hash, address) && value != [] {
        assert HasValue(after, address);
      } else {
        var a: Address :| HasValue(data, a) && key == KeyHash(hash, a);
        assert a != address;
        assert HasValue(after, a);
      }
    }
  }

  /** Entries outside `a:` leave the mirror alone. */
  lemma MirrorAfterOther(hash: Hasher, data: Store, leaves: Leaves, after: Store)
    requires Mirrors(hash, data, leaves)
    requires forall a: Address :: HasValue(after, a) == HasValue(data, a)
    requires forall a: Address :: HasValue(data, a) ==>
      HasValue(after, a) && after[AccountKey(a)] == data[AccountKey(a)]
    ensures Mirrors(hash, after, leaves)
  {
    hide AccountKey, SmtLeaf, KeyHash;
    forall key | key in leaves ensures exists a: Address :: HasValue(after, a) && key == KeyHash(hash, a) {
      var a: Address :| HasValue(data, a) && key == KeyHash(hash, a);
      assert HasValue(after, a);
    }
  }

  lemma MirrorAfterBlock(codec: Codec, hash: Hasher, data: Store, leaves: Leaves, block: Block)
    requires Mirrors(hash, data, leaves)
    ensures Mirrors(hash, PutBlock(codec, hash, data, block), leaves)
  {
    forall a: Address ensures
      var after := PutBlock(codec, hash, data, block);
      HasValue(after, a) == HasValue(data, a)
      && (HasValue(data, a) ==> HasValue(after, a) && after[AccountKey(a)] == data[AccountKey(a)])
    {
      assert AccountKey(a)[0] == 97;
    }
    MirrorAfterOther(hash, data, leaves, PutBlock(codec, hash, data, block));
  }

  // ---------------------------------------------------------------------------------------------
  // The overlay and the database.

  class StateOverlay {
    var accounts: Accounts

    constructor ()
      ensures accounts == map[]
    {
      accounts := map[];
    }

    function GetAccount(address: Address, baseDb: StateDB): Account
      reads this, baseDb, baseDb.kv
    {
      if address in accounts then accounts[address] else baseDb.GetAccount(address)
    }

    method SetAccount(address: Address, account: Account)
      modifies this
      ensures accounts == old(accounts)[address := account]
    {
      accounts := accounts[address := account];
    }
  }

  datatype GenesisAccount = GenesisAccount(address: Address, balance: U64)
  datatype GenesisValidator = GenesisValidator(address: Address, pubkey: PublicKey, stake: U64)
  function NewAccount(balance: U64, nonce: U64): Account {
    Account(balance, nonce, 0, false, None)
  }

  datatype GenesisConfig = GenesisConfig(
    chainId: Bytes,
    timestamp: U64,
    accounts: seq<GenesisAccount>,
    validators: seq<GenesisValidator>,
    initialStateRoot: Hash)

  function ValidatorBytes(validators: seq<GenesisValidator>): Bytes {
    if validators == [] then []
    else
      validators[0].address + validators[0].pubkey + BigEndian(validators[0].stake, 8)
      + ValidatorBytes(validators[1..])
  }

  function GenesisBlock(hash: Hasher, genesis: GenesisConfig): Block {
    Block(
      BlockHeader(HEADER_VERSION, genesis.chainId, 0, 0, ZERO, ZERO, genesis.initialStateRoot,
        hash(RawDomain, ValidatorBytes(genesis.validators)), genesis.timestamp, ZERO_ADDRESS, ZERO_SIGNATURE),
      [], None)
  }

  /** The genesis accounts, in the order written. */
  function GenesisAccountOps(codec: Codec, accounts: seq<GenesisAccount>): seq<BatchOp> {
    if accounts == [] then [] else
      var last := accounts[|accounts| - 1];
      GenesisAccountOps(codec, accounts[..|accounts| - 1])
        + [Put(AccountKey(last.address), codec.encodeAccount(NewAccount(last.balance, 0)))]
  }

  /** The genesis validators; each starts from what the store held before the batch. */
  function GenesisValidatorOps(codec: Codec, data: Store, validators: seq<GenesisValidator>): seq<BatchOp> {
    if validators == [] then [] else
      var last := validators[|validators| - 1];
      GenesisValidatorOps(codec, data, validators[..|validators| - 1])
        + [Put(AccountKey(last.address),
            codec.encodeAccount(ValidatorAccount(ChainStore.GetAccount(codec, data, last.address), last)))]
  }

  function ValidatorAccount(before: Account, v: GenesisValidator): Account {
    before.(isValidator := true, validatorPubkey := Some(v.pubkey), stakedAmount := v.stake)
  }

  function GenesisOps(codec: Codec, data: Store, genesis: GenesisConfig): seq<BatchOp> {
    GenesisAccountOps(codec, genesis.accounts) + GenesisValidatorOps(codec, data, genesis.validators)
  }

  function BlockOps(codec: Codec, hash: Hasher, block: Block): seq<BatchOp> {
    [ Put(BlockKey(block.BlockHash(hash)), codec.encodeBlock(block)),
      Put(HeightKey(block.header.height), block.BlockHash(hash)),
      Put(LATEST_HEIGHT_KEY, BigEndian(block.header.height, 8)) ]
  }

  /** The store after a genesis. */
  function GenesisStore(codec: Codec, hash: Hasher, data: Store, genesis: GenesisConfig): Store {
    PutBlock(codec, hash, ApplyAll(data, GenesisOps(codec, data, genesis)), GenesisBlock(hash, genesis))
  }

  lemma ApplySnoc(data: Store, ops: seq<BatchOp>, op: BatchOp)
    ensures ApplyAll(data, ops + [op]) == Apply(ApplyAll(data, ops), op)
  {
    assert (ops + [op])[..|ops|] == ops;
  }

  lemma ApplyBlockOps(codec: Codec, hash: Hasher, data: Store, ops: seq<BatchOp>, block: Block)
    ensures ApplyAll(data, ops + BlockOps(codec, hash, block)) == PutBlock(codec, hash, ApplyAll(data, ops), block)
  {
    var three := BlockOps(codec, hash, block);
    ApplySnoc(data, ops, three[0]);
    ApplySnoc(data, ops + [three[0]], three[1]);
    ApplySnoc(data, ops + [three[0]] + [three[1]], three[2]);
    assert ops + three == ops + [three[0]] + [three[1]] + [three[2]];
  }

  lemma PutOneMore(codec: Codec, data: Store, done: Accounts, address: Address, account: Account)
    ensures PutAccounts(codec, data, done[address := account])
         == PutAccounts(codec, data, done)[AccountKey(address) := codec.encodeAccount(account)]
  {
    var left := PutAccounts(codec, data, done[address := account]);
    var right := PutAccounts(codec, data, done)[AccountKey(address) := codec.encodeAccount(account)];
    forall key: Bytes
      ensures (key in left <==> key in right) && (key in left && key in right ==> left[key] == right[key])
    {
      PutReadsKey(codec, data, done[address := account], key);
      PutReadsKey(codec, data, done, key);
      hide PutAccounts, AccountKey;
      if IsAccountKey(key) {
        AccountKeyOfAddress(key);
      }
    }
  }

  lemma RestoreOne<K, V>(m: map<K, V>, without: set<K>, key: K)
    requires key in m && key in without
    ensures m - (without - {key}) == (m - without)[key := m[key]]
  {
  }

  lemma PutReadsKey(codec: Codec, data: Store, accounts: Accounts, key: Bytes)
    ensures IsAccountKey(key) && key[2..] in accounts ==>
      key in PutAccounts(codec, data, accounts)
        && PutAccounts(codec, data, accounts)[key] == codec.encodeAccount(accounts[key[2..]])
    ensures !IsAccountKey(key) || key[2..] !in accounts ==>
      (key in PutAccounts(codec, data, accounts) <==> key in data)
      && (key in data ==> PutAccounts(codec, data, accounts)[key] == data[key])
  {
    PutAccountsReads(codec, data, accounts);
    hide PutAccounts;
    if IsAccountKey(key) {
      AccountKeyOfAddress(key);
    }
  }

  /** The loop of `get_validators` over the scanned entries. */
  method CollectValidators(codec: Codec, entries: seq<Entry>) returns (validators: seq<ValidatorEntry>)
    ensures validators == ValidatorsIn(codec, entries)
  {
    validators := [];
    hide ValidatorOf;
    for i := 0 to |entries|
      invariant validators == ValidatorsIn(codec, entries[..i])
    {
      assert entries[..i + 1][..i] == entries[..i];
      match ValidatorOf(codec, entries[i]) {
        case Some(v) => validators := validators + [v];
        case None =>
      }
    }
    assert entries[..|entries|] == entries;
  }

  datatype ValidatorEntry = ValidatorEntry(address: Address, account: Account)

  /** An `a:` entry that holds an active validator. */
  function ValidatorOf(codec: Codec, entry: Entry): Option<ValidatorEntry> {
    if !IsAccountKey(entry.key) then None else
      match codec.decodeAccount(entry.value)
      case None => None
      case Some(account) =>
        if account.isValidator && account.stakedAmount > 0
        then Some(ValidatorEntry(entry.key[2..], account)) else None
  }

  function ValidatorsIn(codec: Codec, entries: seq<Entry>): seq<ValidatorEntry> {
    if entries == [] then [] else
      ValidatorsIn(codec, entries[..|entries| - 1])
        + match ValidatorOf(codec, entries[|entries| - 1])
          case Some(v) => [v]
          case None => []
  }

  class StateDB {
    const crypto: Crypto
    const codec: Codec
    const kv: KeyValueStore
    const smt: SparseMerkleTree

    ghost predicate Valid()
      reads this, kv, smt, smt.emptyRoots, smt.emptyRoots.roots
    {
      smt.hash == crypto.hash && smt.Valid()
    }

    ghost predicate Mirrored()
      reads this, kv, smt
    {
      Mirrors(crypto.hash, kv.data, smt.leaves)
    }

    /** Opening a store rebuilds the tree from a scan of its accounts. */
    constructor (crypto: Crypto, codec: Codec, kv: KeyValueStore)
      ensures Valid() && this.crypto == crypto && this.codec == codec && this.kv == kv
      ensures fresh(smt) && fresh(smt.emptyRoots) && fresh(smt.emptyRoots.roots)
      ensures AddressesApart(crypto.hash) ==> Mirrored()
    {
      this.crypto := crypto;
      this.codec := codec;
      this.kv := kv;
      var tree := new SparseMerkleTree(crypto.hash);
      var entries := kv.ScanPrefix(CF_ACCOUNTS);
      LoadAccounts(tree, entries, kv.data);
      smt := tree;
    }

    function GetAccount(address: Address): (account: Account)
      reads this, kv
      ensures account == ChainStore.GetAccount(codec, kv.data, address)
    {
      ChainStore.GetAccount(codec, kv.data, address)
    }

    method GetStateRoot() returns (root: Hash)
      requires Valid()
      ensures root == DenseRoot(crypto.hash, smt.leaves)
    {
      root := smt.Root();
    }

    function GetLatestHeight(): U64
      reads this, kv
    {
      LatestHeight(kv.data)
    }

    function GetBlockByHeight(height: nat): Option<Block>
      reads this, kv
    {
      BlockAtHeight(codec, kv.data, height)
    }

    /** The active validators, in address order. */
    method GetValidators() returns (validators: seq<ValidatorEntry>)
      ensures validators == ValidatorsIn(codec, Scan(kv.data, CF_ACCOUNTS))
    {
      hide *;
      var entries := kv.ScanPrefix(CF_ACCOUNTS);
      validators := CollectValidators(codec, entries);
    }

    /** Queue the write of an account and update its leaf. */
    method StageAccount(ops: seq<BatchOp>, address: Address, account: Account) returns (staged: seq<BatchOp>)
      requires Valid()
      modifies smt
      ensures Valid()
      ensures staged == ops + [Put(AccountKey(address), codec.encodeAccount(account))]
      ensures ApplyAll(kv.data, staged) == ApplyAll(kv.data, ops)[AccountKey(address) := codec.encodeAccount(account)]
      ensures AddressesApart(crypto.hash) && Mirrors(crypto.hash, ApplyAll(kv.data, ops), old(smt.leaves))
        ==> Mirrors(crypto.hash, ApplyAll(kv.data, staged), smt.leaves)
    {
      var bytes := codec.encodeAccount(account);
      ApplySnoc(kv.data, ops, Put(AccountKey(address), bytes));
      hide AddressesApart, Mirrors, AccountKey, ApplyAll, UpdateLeaves;
      if AddressesApart(crypto.hash) && Mirrors(crypto.hash, ApplyAll(kv.data, ops), smt.leaves) {
        MirrorAfterAccount(crypto.hash, ApplyAll(kv.data, ops), smt.leaves, address, bytes);
      }
      staged := ops + [Put(AccountKey(address), bytes)];
      smt.Update(KeyHash(crypto.hash, address), bytes);
    }

    /** Queue the three entries of a block and write the whole batch. */
    method WriteBatch(ops: seq<BatchOp>, block: Block) returns (root: Hash)
      requires Valid()
      modifies kv
      ensures Valid()
      ensures kv.data == PutBlock(codec, crypto.hash, ApplyAll(old(kv.data), ops), block)
      ensures Mirrors(crypto.hash, ApplyAll(old(kv.data), ops), smt.leaves) ==> Mirrored()
      ensures root == DenseRoot(crypto.hash, smt.leaves)
    {
      ApplyBlockOps(codec, crypto.hash, kv.data, ops, block);
      hide Mirrors, ApplyAll, PutBlock;
      if Mirrors(crypto.hash, ApplyAll(kv.data, ops), smt.leaves) {
        MirrorAfterBlock(codec, crypto.hash, ApplyAll(kv.data, ops), smt.leaves, block);
      }
      kv.ApplyBatch(ops + BlockOps(codec, crypto.hash, block));
      root := smt.Root();
    }

    /** The overlay's accounts, taken in any order. */
    method StageOverlay(accounts: Accounts) returns (ops: seq<BatchOp>)
      requires Valid()
      modifies smt
      ensures Valid()
      ensures ApplyAll(kv.data, ops) == PutAccounts(codec, kv.data, accounts)
      ensures AddressesApart(crypto.hash) && Mirrors(crypto.hash, kv.data, old(smt.leaves))
        ==> Mirrors(crypto.hash, ApplyAll(kv.data, ops), smt.leaves)
    {
      hide *;
      ops := [];
      var remaining := accounts.Keys;
      assert accounts - remaining == map[];
      PutNothing(codec, kv.data);
      ghost var mirrored := AddressesApart(crypto.hash) && Mirrors(crypto.hash, kv.data, smt.leaves);
      while remaining != {}
        invariant remaining <= accounts.Keys && Valid()
        invariant ApplyAll(kv.data, ops) == PutAccounts(codec, kv.data, accounts - remaining)
        invariant mirrored ==> Mirrors(crypto.hash, ApplyAll(kv.data, ops), smt.leaves)
        decreases |remaining|
      {
        var address :| address in remaining;
        PutOneMore(codec, kv.data, accounts - remaining, address, accounts[address]);
        RestoreOne(accounts, remaining, address);
        ops := StageAccount(ops, address, accounts[address]);
        remaining := remaining - {address};
      }
      assert accounts - {} == accounts;
    }

    /** Apply a committed block: the overlay's accounts and the block's index. */
    method CommitBlock(block: Block, overlay: StateOverlay) returns (root: Hash)
      requires Valid()
      modifies kv, smt
      ensures Valid()
      ensures kv.data == Committed(codec, crypto.hash, old(kv.data), block, overlay.accounts)
      ensures AddressesApart(crypto.hash) && old(Mirrored()) ==> Mirrored()
      ensures root == DenseRoot(crypto.hash, smt.leaves)
    {
      hide AddressesApart, Mirrors, ApplyAll, PutAccounts, PutBlock, DenseRoot, Valid;
      var ops := StageOverlay(overlay.accounts);
      root := WriteBatch(ops, block);
    }

    method StageGenesisAccounts(accounts: seq<GenesisAccount>) returns (ops: seq<BatchOp>)
      requires Valid()
      modifies smt
      ensures Valid() && ops == GenesisAccountOps(codec, accounts)
      ensures AddressesApart(crypto.hash) && Mirrors(crypto.hash, kv.data, old(smt.leaves))
        ==> Mirrors(crypto.hash, ApplyAll(kv.data, ops), smt.leaves)
    {
      ops := [];
      PutNothing(codec, kv.data);
      ghost var mirrored := AddressesApart(crypto.hash) && Mirrors(crypto.hash, kv.data, smt.leaves);
      hide AddressesApart, Mirrors, ApplyAll, Valid, AccountKey;
      for i := 0 to |accounts|
        invariant Valid() && ops == GenesisAccountOps(codec, accounts[..i])
        invariant mirrored ==> Mirrors(crypto.hash, ApplyAll(kv.data, ops), smt.leaves)
      {
        assert accounts[..i + 1][..i] == accounts[..i];
        ops := StageAccount(ops, accounts[i].address, NewAccount(accounts[i].balance, 0));
      }
      assert accounts[..|accounts|] == accounts;
    }

    method StageGenesisValidators(start: seq<BatchOp>, validators: seq<GenesisValidator>) returns (ops: seq<BatchOp>)
      requires Valid()
      modifies smt
      ensures Valid() && ops == start + GenesisValidatorOps(codec, kv.data, validators)
      ensures AddressesApart(crypto.hash) && Mirrors(crypto.hash, ApplyAll(kv.data, start), old(smt.leaves))
        ==> Mirrors(crypto.hash, ApplyAll(kv.data, ops), smt.leaves)
    {
      ops := start;
      ghost var mirrored := AddressesApart(crypto.hash) && Mirrors(crypto.hash, ApplyAll(kv.data, start), smt.leaves);
      hide AddressesApart, Mirrors, ApplyAll, Valid, AccountKey, ValidatorAccount, ChainStore.GetAccount;
      for i := 0 to |validators|
        invariant Valid() && ops == start + GenesisValidatorOps(codec, kv.data, validators[..i])
        invariant mirrored ==> Mirrors(crypto.hash, ApplyAll(kv.data, ops), smt.leaves)
      {
        assert validators[..i + 1][..i] == validators[..i];
        ops := StageAccount(ops, validators[i].address,
          ValidatorAccount(GetAccount(validators[i].address), validators[i]));
      }
      assert validators[..|validators|] == validators;
    }

    method ApplyGenesis(genesis: GenesisConfig) returns (root: Hash)
      requires Valid()
      modifies kv, smt
      ensures Valid()
      ensures kv.data == GenesisStore(codec, crypto.hash, old(kv.data), genesis)
      ensures AddressesApart(crypto.hash) && old(Mirrored()) ==> Mirrored()
      ensures root == DenseRoot(crypto.hash, smt.leaves)
    {
      hide AddressesApart, Mirrors, ApplyAll, Valid, GenesisAccountOps, GenesisValidatorOps, PutBlock, GenesisBlock;
      hide DenseRoot;
      var ops := StageGenesisAccounts(genesis.accounts);
      ops := StageGenesisValidators(ops, genesis.validators);
      root := WriteBatch(ops, GenesisBlock(crypto.hash, genesis));
    }
  }

  lemma PutNothing(codec: Codec, data: Store)
    ensures PutAccounts(codec, data, map[]) == data
    ensures ApplyAll(data, []) == data
  {
  }

  // ---------------------------------------------------------------------------------------------
  // Rebuilding.

  /** The store holding just these entries. */
  ghost function StoreOf(entries: seq<Entry>): Store {
    if entries == [] then map[]
    else StoreOf(entries[..|entries| - 1])[entries[|entries| - 1].key := entries[|entries| - 1].value]
  }

  lemma StoreOfNone(entries: seq<Entry>)
    ensures StoreOf(entries[..0]) == map[]
  {
  }

  lemma StoreOfSnoc(entries: seq<Entry>, i: nat)
    requires i < |entries|
    ensures StoreOf(entries[..i + 1]) == StoreOf(entries[..i])[entries[i].key := entries[i].value]
  {
    assert entries[..i + 1][..i] == entries[..i];
  }

  lemma MirrorAfterForeign(hash: Hasher, data: Store, leaves: Leaves, key: Bytes, value: Bytes)
    requires Mirrors(hash, data, leaves) && |key| != 22
    ensures Mirrors(hash, data[key := value], leaves)
  {
    MirrorAfterOther(hash, data, leaves, data[key := value]);
  }

  lemma {:induction false} StoreOfEntries(data: Store, keys: seq<Bytes>, n: nat)
    requires forall i :: 0 <= i < |keys| ==> keys[i] in data
    requires n <= |EntriesOf(data, keys)|
    ensures |EntriesOf(data, keys)| == |keys|
    ensures forall i :: 0 <= i < |keys| ==> EntriesOf(data, keys)[i] == Entry(keys[i], data[keys[i]])
    ensures forall key :: key in StoreOf(EntriesOf(data, keys)[..n]) <==> key in keys[..n]
    ensures forall key :: key in StoreOf(EntriesOf(data, keys)[..n]) ==>
      key in data && StoreOf(EntriesOf(data, keys)[..n])[key] == data[key]
    decreases n
  {
    hide *;
    EntriesAre(data, keys);
    var entries := EntriesOf(data, keys);
    if n == 0 {
      StoreOfNone(entries);
    } else {
      StoreOfEntries(data, keys, n - 1);
      StoreOfSnoc(entries, n - 1);
      assert keys[..n] == keys[..n - 1] + [keys[n - 1]];
    }
  }

  lemma {:induction false} EntriesAre(data: Store, keys: seq<Bytes>)
    requires forall i :: 0 <= i < |keys| ==> keys[i] in data
    ensures |EntriesOf(data, keys)| == |keys|
    ensures forall i :: 0 <= i < |keys| ==> EntriesOf(data, keys)[i] == Entry(keys[i], data[keys[i]])
  {
    if keys != [] {
      EntriesAre(data, keys[1..]);
    }
  }

  /** Every scanned entry has the prefix, and the scan as a store is the `a:` part of the store. */
  lemma ScanEntries(data: Store)
    ensures var entries := Scan(data, CF_ACCOUNTS);
      && (forall i :: 0 <= i < |entries| ==> CF_ACCOUNTS <= entries[i].key && 2 <= |entries[i].key|)
      && (forall key :: key in StoreOf(entries) <==> key in data && CF_ACCOUNTS <= key)
      && (forall key :: key in StoreOf(entries) ==> StoreOf(entries)[key] == data[key])
  {
    hide *;
    var keys := ScannedKeys(data, CF_ACCOUNTS);
    ScanIs(data, CF_ACCOUNTS);
    ScanIsExact(data, CF_ACCOUNTS);
    forall i | 0 <= i < |keys| ensures keys[i] in data && CF_ACCOUNTS <= keys[i] && 2 <= |keys[i]| {
      assert keys[i] in keys;
      AccountPrefixLength(keys[i]);
    }
    EntriesAre(data, keys);
    StoreOfEntries(data, keys, |keys|);
    assert keys[..|keys|] == keys && EntriesOf(data, keys)[..|keys|] == EntriesOf(data, keys);
  }

  lemma AccountPrefixLength(key: Bytes)
    requires CF_ACCOUNTS <= key
    ensures 2 <= |key|
  {
  }

  lemma ScanIs(data: Store, prefix: Bytes)
    ensures Scan(data, prefix) == EntriesOf(data, ScannedKeys(data, prefix))
  {
    hide ScannedKeys, EntriesOf;
  }

  lemma MirrorOfScan(hash: Hasher, data: Store, leaves: Leaves)
    requires Mirrors(hash, StoreOf(Scan(data, CF_ACCOUNTS)), leaves)
    ensures Mirrors(hash, data, leaves)
  {
    hide *;
    var scanned := StoreOf(Scan(data, CF_ACCOUNTS));
    forall a: Address
      ensures HasValue(data, a) == HasValue(scanned, a)
      ensures HasValue(scanned, a) ==>
        AccountKey(a) in data && AccountKey(a) in scanned && data[AccountKey(a)] == scanned[AccountKey(a)]
    {
      ScannedValue(data, a);
    }
    MirrorAfterOther(hash, scanned, leaves, data);
  }

  lemma ScannedValue(data: Store, a: Address)
    ensures var scanned := StoreOf(Scan(data, CF_ACCOUNTS));
      && HasValue(data, a) == HasValue(scanned, a)
      && (HasValue(scanned, a) ==>
            AccountKey(a) in data && AccountKey(a) in scanned && data[AccountKey(a)] == scanned[AccountKey(a)])
  {
    hide StoreOf, Scan;
    ScanEntries(data);
    assert CF_ACCOUNTS <= AccountKey(a);
  }

  /** The loop of `StateDB::new` over the scanned entries. */
  method LoadAccounts(tree: SparseMerkleTree, entries: seq<Entry>, ghost data: Store)
    requires tree.Valid() && tree.leaves == map[] && entries == Scan(data, CF_ACCOUNTS)
    modifies tree
    ensures tree.Valid() && (AddressesApart(tree.hash) ==> Mirrors(tree.hash, data, tree.leaves))
  {
    hide *;
    ScanEntries(data);
    MirrorOfNothing(tree.hash);
    assert entries[..0] == [];
    for i := 0 to |entries|
      invariant tree.Valid()
      invariant AddressesApart(tree.hash) ==> Mirrors(tree.hash, StoreOf(entries[..i]), tree.leaves)
    {
      var key, value := entries[i].key, entries[i].value;
      LoadStep(tree.hash, entries, i, tree.leaves);
      if |key[2..]| == 20 {
        var address: Address := key[2..];
        tree.Update(KeyHash(tree.hash, address), value);
      }
    }
    assert entries[..|entries|] == entries;
    if AddressesApart(tree.hash) {
      MirrorOfScan(tree.hash, data, tree.leaves);
    }
  }

  lemma MirrorOfNothing(hash: Hasher)
    ensures Mirrors(hash, StoreOf([]), map[])
  {
  }

  lemma LoadStep(hash: Hasher, entries: seq<Entry>, i: nat, leaves: Leaves)
    requires i < |entries| && CF_ACCOUNTS <= entries[i].key
    requires AddressesApart(hash) ==> Mirrors(hash, StoreOf(entries[..i]), leaves)
    ensures AddressesApart(hash) ==> Mirrors(hash, StoreOf(entries[..i + 1]),
      if |entries[i].key[2..]| == 20
        then UpdateLeaves(hash, leaves, KeyHash(hash, entries[i].key[2..]), entries[i].value) else leaves)
  {
    StoreOfSnoc(entries, i);
    hide Mirrors, StoreOf, UpdateLeaves, AddressesApart;
    if AddressesApart(hash) {
      if |entries[i].key[2..]| == 20 {
        AccountKeyOfAddress(entries[i].key);
        MirrorAfterAccount(hash, StoreOf(entries[..i]), leaves, entries[i].key[2..], entries[i].value);
      } else {
        MirrorAfterForeign(hash, StoreOf(entries[..i]), leaves, entries[i].key, entries[i].value);
      }
    }
  }
}
