/** What the state database guarantees over whole runs: one root per account state, the same root
    after a restart, the validator set it reports, and what a genesis really writes. */
module StateTheorems {
  import opened Bytes
  import opened Crypto
  import opened Orders
  import opened Kv
  import opened Smt
  import opened Blocks
  import opened Ledger
  import opened ChainStore
  import opened State

  // ---------------------------------------------------------------------------------------------
  // The root names the accounts.

  /** The stored accounts, as bytes. */
  function AccountBytes(data: Store): map<Address, Bytes> {
    map a: Address | a in AddressesIn(data) && HasValue(data, a) :: data[AccountKey(a)]
  }

  /** The same under hashed addresses: what the tree holds. */
  ghost function HashedAccounts(hash: Hasher, data: Store): (named: map<Hash, Bytes>)
    requires AddressesApart(hash)
    ensures forall a: Address :: HasValue(data, a) ==>
      KeyHash(hash, a) in named && named[KeyHash(hash, a)] == data[AccountKey(a)]
    ensures forall key :: key in named ==> exists a: Address :: HasValue(data, a) && key == KeyHash(hash, a)
  {
    var stored := AccountBytes(data);
    var named := map a | a in stored.Keys :: KeyHash(hash, a) := stored[a];
    named
  }

  lemma MirrorLeaves(hash: Hasher, data: Store, leaves: Leaves)
    requires AddressesApart(hash) && Mirrors(hash, data, leaves)
    ensures leaves == LeavesOf(hash, HashedAccounts(hash, data))
  {
    hide HashedAccounts, KeyHash, HasValue;
    var named := HashedAccounts(hash, data);
    forall key: Hash
      ensures key in leaves <==> key in named
      ensures key in leaves && key in named ==> leaves[key] == SmtLeaf(hash, key, named[key])
    {
      if key in leaves {
        var a: Address :| HasValue(data, a) && key == KeyHash(hash, a);
      }
    }
  }

  /** The state root in full: that of the perfect tree of depth 256 in which the account bytes of each
      address lie at the digest of the address. */
  lemma StateRootIsNumbered(hash: Hasher, data: Store, leaves: Leaves)
    requires AddressesApart(hash) && Mirrors(hash, data, leaves)
    ensures DenseRoot(hash, leaves) == Numbered(hash, HashedAccounts(hash, data), 256, 0)
    ensures forall a: Address :: HasValue(data, a) ==>
      hash(SmtLeafDomain, a) in HashedAccounts(hash, data)
      && HashedAccounts(hash, data)[hash(SmtLeafDomain, a)] == data[AccountKey(a)]
    ensures forall key :: key in HashedAccounts(hash, data) ==>
      exists a: Address :: HasValue(data, a) && key == hash(SmtLeafDomain, a)
  {
    MirrorLeaves(hash, data, leaves);
    RootIsNumbered(hash, HashedAccounts(hash, data));
    KeyHashIs(hash);
    hide HashedAccounts, KeyHash, HasValue, Mirrors, AddressesApart, Numbered, DenseRoot;
    forall key | key in HashedAccounts(hash, data)
      ensures exists a: Address :: HasValue(data, a) && key == hash(SmtLeafDomain, a)
    {
      var a: Address :| HasValue(data, a) && key == KeyHash(hash, a);
      assert key == hash(SmtLeafDomain, a);
    }
  }

  lemma KeyHashIs(hash: Hasher)
    ensures forall a: Address :: KeyHash(hash, a) == hash(SmtLeafDomain, a)
  {
  }

  lemma SameHashedSameAccounts(hash: Hasher, a: Store, b: Store)
    requires AddressesApart(hash) && HashedAccounts(hash, a) == HashedAccounts(hash, b)
    ensures AccountBytes(a) == AccountBytes(b)
  {
    SameHashedIncluded(hash, a, b);
    SameHashedIncluded(hash, b, a);
  }

  lemma SameHashedIncluded(hash: Hasher, a: Store, b: Store)
    requires AddressesApart(hash) && HashedAccounts(hash, a) == HashedAccounts(hash, b)
    ensures forall x :: x in AccountBytes(a) ==> x in AccountBytes(b) && AccountBytes(a)[x] == AccountBytes(b)[x]
  {
    hide AccountBytes, KeyHash;
    forall x | x in AccountBytes(a) ensures x in AccountBytes(b) && AccountBytes(a)[x] == AccountBytes(b)[x] {
      assert KeyHash(hash, x) in HashedAccounts(hash, a);
    }
  }

  /** The state root names the accounts: two mirrored stores have one root if and only if they hold
      the same account bytes. */
  lemma StateRootNamesAccounts(hash: Hasher, a: Store, b: Store, leavesA: Leaves, leavesB: Leaves,
                               inputs: set<Preimage>)
    requires AddressesApart(hash) && CollisionFree(hash, inputs)
    requires Mirrors(hash, a, leavesA) && Mirrors(hash, b, leavesB)
    requires CoversMap(hash, HashedAccounts(hash, a), inputs) && CoversMap(hash, HashedAccounts(hash, b), inputs)
    ensures DenseRoot(hash, leavesA) == DenseRoot(hash, leavesB) <==> AccountBytes(a) == AccountBytes(b)
  {
    MirrorLeaves(hash, a, leavesA);
    MirrorLeaves(hash, b, leavesB);
    hide Mirrors;
    if DenseRoot(hash, leavesA) == DenseRoot(hash, leavesB) {
      DenseBinds(hash, leavesA, leavesB, [], inputs);
      LeavesBind(hash, HashedAccounts(hash, a), HashedAccounts(hash, b), inputs);
      SameHashedSameAccounts(hash, a, b);
    }
  }

  // ---------------------------------------------------------------------------------------------
  // Restarting.

  datatype StoreStep = GenesisStep(genesis: GenesisConfig) | CommitStep(block: Block, accounts: Accounts)

  function StoreAfter(codec: Codec, hash: Hasher, data: Store, steps: seq<StoreStep>): Store {
    if steps == [] then data else
      var before := StoreAfter(codec, hash, data, steps[..|steps| - 1]);
      match steps[|steps| - 1]
      case GenesisStep(genesis) => GenesisStore(codec, hash, before, genesis)
      case CommitStep(block, accounts) => Committed(codec, hash, before, block, accounts)
  }

  method Take(db: StateDB, step: StoreStep)
    requires db.Valid()
    modifies db.kv, db.smt
    ensures db.Valid() && db.kv.data == StoreAfter(db.codec, db.crypto.hash, old(db.kv.data), [step])
    ensures AddressesApart(db.crypto.hash) && old(db.Mirrored()) ==> db.Mirrored()
  {
    hide *;
    StoreAfterOne(db.codec, db.crypto.hash, db.kv.data, step);
    match step {
      case GenesisStep(genesis) =>
        var _ := db.ApplyGenesis(genesis);
      case CommitStep(block, accounts) =>
        var overlay := new StateOverlay();
        overlay.accounts := accounts;
        var _ := db.CommitBlock(block, overlay);
    }
  }

  lemma StoreAfterOne(codec: Codec, hash: Hasher, data: Store, step: StoreStep)
    ensures StoreAfter(codec, hash, data, [step])
         == if step.GenesisStep? then GenesisStore(codec, hash, data, step.genesis)
            else Committed(codec, hash, data, step.block, step.accounts)
  {
    hide GenesisStore, Committed;
    assert [step][..0] == [];
  }

  lemma StoreAfterSnoc(codec: Codec, hash: Hasher, data: Store, steps: seq<StoreStep>, i: nat)
    requires i < |steps|
    ensures StoreAfter(codec, hash, data, steps[..i + 1])
         == StoreAfter(codec, hash, StoreAfter(codec, hash, data, steps[..i]), [steps[i]])
  {
    assert steps[..i + 1][..i] == steps[..i];
    assert [steps[i]][..0] == [];
  }

  /** Along any sequence of genesis and commits, and whatever order each commit takes its overlay
      in, the tree kept up to date and the tree a restart rebuilds have one root. */
  method RunThenReopen(db: StateDB, steps: seq<StoreStep>) returns (kept: Hash, again: StateDB, rebuilt: Hash)
    requires db.Valid() && db.Mirrored() && AddressesApart(db.crypto.hash)
    modifies db.kv, db.smt
    ensures db.Valid() && db.Mirrored()
    ensures db.kv.data == StoreAfter(db.codec, db.crypto.hash, old(db.kv.data), steps)
    ensures kept == DenseRoot(db.crypto.hash, db.smt.leaves)
    ensures fresh(again) && fresh(again.smt) && again.Valid() && again.Mirrored()
    ensures again.kv == db.kv && again.crypto == db.crypto && again.codec == db.codec
    ensures rebuilt == DenseRoot(again.crypto.hash, again.smt.leaves)
    ensures kept == rebuilt
  {
    hide AddressesApart, Mirrors, StateDB.Valid;
    for i := 0 to |steps|
      invariant db.Valid() && db.Mirrored()
      invariant db.kv.data == StoreAfter(db.codec, db.crypto.hash, old(db.kv.data), steps[..i])
    {
      StoreAfterSnoc(db.codec, db.crypto.hash, old(db.kv.data), steps, i);
      Take(db, steps[i]);
    }
    assert steps[..|steps|] == steps;
    kept := db.GetStateRoot();
    again := new StateDB(db.crypto, db.codec, db.kv);
    MirrorUnique(db.crypto.hash, db.kv.data, db.smt.leaves, again.smt.leaves);
    rebuilt := again.GetStateRoot();
  }

  // ---------------------------------------------------------------------------------------------
  // Validators.

  /** An address with an active validator account. */
  predicate IsActive(codec: Codec, data: Store, v: ValidatorEntry) {
    && AccountKey(v.address) in data
    && codec.decodeAccount(data[AccountKey(v.address)]) == Some(v.account)
    && v.account.isValidator && v.account.stakedAmount > 0
  }

  ghost predicate DistinctAddresses(validators: seq<ValidatorEntry>) {
    forall i, j :: 0 <= i < j < |validators| ==> validators[i].address != validators[j].address
  }

  ghost predicate FoundIn(codec: Codec, entries: seq<Entry>, v: ValidatorEntry) {
    exists i :: 0 <= i < |entries| && ValidatorOf(codec, entries[i]) == Some(v)
  }

  lemma ValidatorsStep(codec: Codec, entries: seq<Entry>)
    requires entries != []
    ensures var found := ValidatorOf(codec, entries[|entries| - 1]);
      ValidatorsIn(codec, entries)
        == ValidatorsIn(codec, entries[..|entries| - 1]) + if found.Some? then [found.value] else []
  {
    hide ValidatorOf;
  }

  lemma FoundStep(codec: Codec, entries: seq<Entry>, v: ValidatorEntry)
    requires entries != []
    ensures FoundIn(codec, entries, v)
       <==> FoundIn(codec, entries[..|entries| - 1], v) || ValidatorOf(codec, entries[|entries| - 1]) == Some(v)
  {
    hide ValidatorOf;
    var before := entries[..|entries| - 1];
    if i :| 0 <= i < |before| && ValidatorOf(codec, before[i]) == Some(v) {
      assert entries[i] == before[i];
    }
  }

  lemma {:induction false} ValidatorFound(codec: Codec, entries: seq<Entry>, v: ValidatorEntry)
    ensures v in ValidatorsIn(codec, entries) <==> FoundIn(codec, entries, v)
  {
    hide ValidatorOf;
    if entries != [] {
      hide ValidatorsIn, FoundIn;
      ValidatorFound(codec, entries[..|entries| - 1], v);
      ValidatorsStep(codec, entries);
      FoundStep(codec, entries, v);
    }
  }

  /** Entries of different keys are validators of different addresses. */
  lemma {:induction false} FoundApart(codec: Codec, entries: seq<Entry>)
    requires forall i, j :: 0 <= i < j < |entries| ==> entries[i].key != entries[j].key
    ensures DistinctAddresses(ValidatorsIn(codec, entries))
  {
    hide ValidatorOf;
    if entries != [] {
      hide ValidatorsIn, FoundIn;
      var before, last := entries[..|entries| - 1], ValidatorOf(codec, entries[|entries| - 1]);
      FoundApart(codec, before);
      ValidatorsStep(codec, entries);
      var vs := ValidatorsIn(codec, before);
      forall k | 0 <= k < |vs| && last.Some? ensures vs[k].address != last.value.address {
        ApartFromLast(codec, entries, vs[k]);
      }
    }
  }

  lemma ApartFromLast(codec: Codec, entries: seq<Entry>, v: ValidatorEntry)
    requires entries != [] && v in ValidatorsIn(codec, entries[..|entries| - 1])
    requires forall i :: 0 <= i < |entries| - 1 ==> entries[i].key != entries[|entries| - 1].key
    requires ValidatorOf(codec, entries[|entries| - 1]).Some?
    ensures v.address != ValidatorOf(codec, entries[|entries| - 1]).value.address
  {
    hide ValidatorOf, ValidatorsIn;
    var before, last := entries[..|entries| - 1], entries[|entries| - 1];
    ValidatorFound(codec, before, v);
    var i :| 0 <= i < |before| && ValidatorOf(codec, before[i]) == Some(v);
    DifferentKeysDifferentValidators(codec, before[i], last);
  }

  lemma DifferentKeysDifferentValidators(codec: Codec, a: Entry, b: Entry)
    requires a.key != b.key && ValidatorOf(codec, a).Some? && ValidatorOf(codec, b).Some?
    ensures ValidatorOf(codec, a).value.address != ValidatorOf(codec, b).value.address
  {
    AccountKeyOfAddress(a.key);
    AccountKeyOfAddress(b.key);
  }

  /** The reported validators are exactly the active ones, each once. */
  lemma ValidatorsExactly(codec: Codec, data: Store)
    ensures var validators := ValidatorsIn(codec, Scan(data, CF_ACCOUNTS));
      && (forall v :: v in validators <==> IsActive(codec, data, v))
      && DistinctAddresses(validators)
  {
    hide *;
    var keys := ScannedKeys(data, CF_ACCOUNTS);
    ScanIsExact(data, CF_ACCOUNTS);
    forall i | 0 <= i < |keys| ensures keys[i] in data {
      assert keys[i] in keys;
    }
    EntriesAre(data, keys);
    ScanIs(data, CF_ACCOUNTS);
    var entries := EntriesOf(data, keys);
    ScannedOnce(keys, entries);
    FoundApart(codec, entries);
    forall v ensures v in ValidatorsIn(codec, entries) <==> IsActive(codec, data, v) {
      ValidatorFound(codec, entries, v);
      ActiveIsScanned(codec, data, entries, keys, v);
    }
  }

  lemma ScannedOnce(keys: seq<Bytes>, entries: seq<Entry>)
    requires Sorted(LexLeq, keys) && |entries| == |keys|
    requires forall i :: 0 <= i < |keys| ==> entries[i].key == keys[i]
    ensures forall i, j :: 0 <= i < j < |entries| ==> entries[i].key != entries[j].key
  {
    hide LexLeq;
  }

  lemma ActiveIsScanned(codec: Codec, data: Store, entries: seq<Entry>, keys: seq<Bytes>, v: ValidatorEntry)
    requires forall key :: key in keys <==> key in data && CF_ACCOUNTS <= key
    requires |entries| == |keys|
    requires forall i :: 0 <= i < |keys| ==> keys[i] in data && entries[i] == Entry(keys[i], data[keys[i]])
    ensures IsActive(codec, data, v) <==> FoundIn(codec, entries, v)
  {
    if IsActive(codec, data, v) {
      assert CF_ACCOUNTS <= AccountKey(v.address);
      var i :| 0 <= i < |keys| && keys[i] == AccountKey(v.address);
      assert ValidatorOf(codec, entries[i]) == Some(v);
    }
    if i :| 0 <= i < |entries| && ValidatorOf(codec, entries[i]) == Some(v) {
      AccountKeyOfAddress(keys[i]);
    }
  }

  // ---------------------------------------------------------------------------------------------
  // Genesis.

  function LastGenesisAccount(accounts: seq<GenesisAccount>, a: Address): Option<GenesisAccount> {
    if accounts == [] then None
    else if accounts[|accounts| - 1].address == a then Some(accounts[|accounts| - 1])
    else LastGenesisAccount(accounts[..|accounts| - 1], a)
  }

  function LastGenesisValidator(validators: seq<GenesisValidator>, a: Address): Option<GenesisValidator> {
    if validators == [] then None
    else if validators[|validators| - 1].address == a then Some(validators[|validators| - 1])
    else LastGenesisValidator(validators[..|validators| - 1], a)
  }

  lemma ReadAfterPut(codec: Codec, data: Store, a: Address, b: Address, account: Account)
    requires codec.RoundTrips()
    ensures GetAccount(codec, data[AccountKey(b) := codec.encodeAccount(account)], a)
         == if a == b then account else GetAccount(codec, data, a)
  {
    assert AccountKey(a)[2..] == a && AccountKey(b)[2..] == b;
  }

  lemma {:induction false} ReadAfterGenesisAccounts(codec: Codec, data: Store, accounts: seq<GenesisAccount>,
      a: Address)
    requires codec.RoundTrips()
    ensures GetAccount(codec, ApplyAll(data, GenesisAccountOps(codec, accounts)), a)
         == match LastGenesisAccount(accounts, a)
            case Some(account) => NewAccount(account.balance, 0)
            case None => GetAccount(codec, data, a)
  {
    if accounts != [] {
      var before, last := accounts[..|accounts| - 1], accounts[|accounts| - 1];
      ReadAfterGenesisAccounts(codec, data, before, a);
      ApplySnoc(data, GenesisAccountOps(codec, before),
        Put(AccountKey(last.address), codec.encodeAccount(NewAccount(last.balance, 0))));
      ReadAfterPut(codec, ApplyAll(data, GenesisAccountOps(codec, before)), a, last.address,
        NewAccount(last.balance, 0));
      hide GetAccount, ApplyAll, AccountKey;
    }
  }

  lemma {:induction false} ReadAfterGenesisValidators(codec: Codec, data: Store, start: seq<BatchOp>,
      validators: seq<GenesisValidator>, a: Address)
    requires codec.RoundTrips()
    ensures GetAccount(codec, ApplyAll(data, start + GenesisValidatorOps(codec, data, validators)), a)
         == match LastGenesisValidator(validators, a)
            case Some(v) => ValidatorAccount(GetAccount(codec, data, a), v)
            case None => GetAccount(codec, ApplyAll(data, start), a)
  {
    if validators == [] {
      assert start + [] == start;
    } else {
      var before, last := validators[..|validators| - 1], validators[|validators| - 1];
      ReadAfterGenesisValidators(codec, data, start, before, a);
      var ops, account :=
        start + GenesisValidatorOps(codec, data, before), ValidatorAccount(GetAccount(codec, data, last.address), last);
      var op := Put(AccountKey(last.address), codec.encodeAccount(account));
      ConcatAssociative(start, GenesisValidatorOps(codec, data, before), [op]);
      ApplySnoc(data, ops, op);
      ReadAfterPut(codec, ApplyAll(data, ops), a, last.address, account);
      hide GetAccount, ApplyAll, AccountKey, ValidatorAccount;
    }
  }

  /** What a genesis leaves at an address: a validator keeps what the store held before, not the
      genesis account written earlier in the same batch. */
  lemma GenesisAccountAfter(codec: Codec, hash: Hasher, data: Store, genesis: GenesisConfig, a: Address)
    requires codec.RoundTrips()
    ensures GetAccount(codec, GenesisStore(codec, hash, data, genesis), a)
         == match LastGenesisValidator(genesis.validators, a)
            case Some(v) =>
              var before := GetAccount(codec, data, a);
              Account(before.balance, before.nonce, v.stake, true, Some(v.pubkey))
            case None =>
              match LastGenesisAccount(genesis.accounts, a)
              case Some(account) => Account(account.balance, 0, 0, false, None)
              case None => GetAccount(codec, data, a)
  {
    GenesisRecords(codec, data, a);
    hide *;
    ReadAfterGenesisAccounts(codec, data, genesis.accounts, a);
    ReadAfterGenesisValidators(codec, data, GenesisAccountOps(codec, genesis.accounts), genesis.validators, a);
    GenesisStoreReads(codec, hash, data, genesis, a);
  }

  lemma GenesisRecords(codec: Codec, data: Store, a: Address)
    ensures var before := GetAccount(codec, data, a);
      forall v :: ValidatorAccount(before, v) == Account(before.balance, before.nonce, v.stake, true, Some(v.pubkey))
    ensures forall balance :: NewAccount(balance, 0) == Account(balance, 0, 0, false, None)
  {
    hide GetAccount;
  }

  /** The last entry of this address in the list. */
  ghost predicate LastEntry(validators: seq<GenesisValidator>, i: nat, a: Address) {
    i < |validators| && validators[i].address == a && forall j :: i < j < |validators| ==> validators[j].address != a
  }

  ghost predicate IsLastEntry(validators: seq<GenesisValidator>, v: GenesisValidator) {
    exists i :: 0 <= i < |validators| && LastEntry(validators, i, v.address) && validators[i] == v
  }

  lemma {:induction false} LastEntryIs(validators: seq<GenesisValidator>, v: GenesisValidator)
    ensures LastGenesisValidator(validators, v.address) == Some(v) <==> IsLastEntry(validators, v)
  {
    if validators != [] {
      var before, last := validators[..|validators| - 1], |validators| - 1;
      LastEntryIs(before, v);
      if validators[last].address == v.address {
        assert LastEntry(validators, last, v.address);
      } else {
        forall i | 0 <= i < |before| ensures LastEntry(before, i, v.address) <==> LastEntry(validators, i, v.address) {
          assert before[i] == validators[i];
        }
      }
    }
  }

  lemma GenesisStoreReads(codec: Codec, hash: Hasher, data: Store, genesis: GenesisConfig, a: Address)
    ensures GetAccount(codec, GenesisStore(codec, hash, data, genesis), a)
         == GetAccount(codec, ApplyAll(data, GenesisAccountOps(codec, genesis.accounts)
             + GenesisValidatorOps(codec, data, genesis.validators)), a)
  {
    hide ApplyAll, GenesisAccountOps, GenesisValidatorOps, GenesisBlock;
    assert AccountKey(a)[0] == 97;
  }

  /** A funded genesis account keeps its balance on a fresh store exactly when it is not also a
      genesis validator. */
  lemma GenesisBalanceKept(codec: Codec, hash: Hasher, data: Store, genesis: GenesisConfig, a: Address)
    requires codec.RoundTrips() && AccountKey(a) !in data
    requires LastGenesisAccount(genesis.accounts, a).Some? && LastGenesisAccount(genesis.accounts, a).value.balance > 0
    ensures GetAccount(codec, GenesisStore(codec, hash, data, genesis), a).balance
         == LastGenesisAccount(genesis.accounts, a).value.balance
       <==> LastGenesisValidator(genesis.validators, a).None?
  {
    GenesisAccountAfter(codec, hash, data, genesis, a);
    hide GenesisStore;
  }
}
