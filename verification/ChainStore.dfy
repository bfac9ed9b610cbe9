/** The chain as it lies in the key-value store: keys, what is read back, and what a commit and a
    genesis write. */
module ChainStore {
  import opened Bytes
  import opened Crypto
  import opened Kv
  import opened Blocks
  import opened Ledger

  /** bincode, of which only a round trip is asked. */
  datatype Codec = Codec(
    encodeAccount: Account -> Bytes,
    decodeAccount: Bytes -> Option<Account>,
    encodeBlock: Block -> Bytes,
    decodeBlock: Bytes -> Option<Block>)
  {
    ghost predicate RoundTrips() {
      && (forall account :: decodeAccount(encodeAccount(account)) == Some(account))
      && (forall block :: decodeBlock(encodeBlock(block)) == Some(block))
    }
  }

  // "a:", "b:", "h:" and "m:latest_height"
  const CF_ACCOUNTS: Bytes := [97, 58]
  const CF_BLOCKS: Bytes := [98, 58]
  const CF_HEIGHTS: Bytes := [104, 58]
  const LATEST_HEIGHT_KEY: Bytes := [109, 58, 108, 97, 116, 101, 115, 116, 95, 104, 101, 105, 103, 104, 116]

  function AccountKey(address: Address): (key: Bytes)
    ensures |key| == 22 && key[..2] == CF_ACCOUNTS && key[2..] == address
  {
    CF_ACCOUNTS + address
  }

  function BlockKey(blockHash: Bytes): (key: Bytes)
    ensures |key| >= 2 && key[0] == 98 && key[2..] == blockHash
  {
    CF_BLOCKS + blockHash
  }

  function HeightKey(height: nat): (key: Bytes)
    ensures |key| >= 2 && key[0] == 104 && key[2..] == BigEndian(height, 8)
  {
    CF_HEIGHTS + BigEndian(height, 8)
  }

  predicate IsAccountKey(key: Bytes) {
    |key| == 22 && CF_ACCOUNTS <= key
  }

  lemma AccountKeyOfAddress(key: Bytes)
    requires IsAccountKey(key)
    ensures key == AccountKey(key[2..])
  {
  }

  lemma HeightKeyInjective(g: U64, h: U64)
    requires HeightKey(g) == HeightKey(h)
    ensures g == h
  {
    U64Injective(g, h);
  }

  // ---------------------------------------------------------------------------------------------
  // What is read back.

  function GetAccount(codec: Codec, data: Store, address: Address): Account {
    if AccountKey(address) in data then
      match codec.decodeAccount(data[AccountKey(address)])
      case Some(account) => account
      case None => DEFAULT_ACCOUNT
    else DEFAULT_ACCOUNT
  }

  /** All stored accounts. */
  function AccountsOf(codec: Codec, data: Store): Accounts {
    map address: Address | address in AddressesIn(data) :: GetAccount(codec, data, address)
  }

  function AddressesIn(data: Store): (addresses: set<Address>)
    ensures forall a: Address :: a in addresses <==> AccountKey(a) in data
  {
    var addresses := set key | key in data && IsAccountKey(key) :: AddressPart(key);
    assert forall a: Address :: AccountKey(a) in data ==> AddressPart(AccountKey(a)) in addresses;
    assert forall key :: key in data && IsAccountKey(key) ==> AccountKey(AddressPart(key)) == key;
    addresses
  }

  function AddressPart(key: Bytes): Address
    requires IsAccountKey(key)
  {
    key[2..]
  }

  function LatestHeight(data: Store): U64 {
    if LATEST_HEIGHT_KEY in data && |data[LATEST_HEIGHT_KEY]| == 8
    then FromU64Bytes(data[LATEST_HEIGHT_KEY]) else 0
  }

  function BlockAtHeight(codec: Codec, data: Store, height: nat): Option<Block> {
    if HeightKey(height) in data && BlockKey(data[HeightKey(height)]) in data
    then codec.decodeBlock(data[BlockKey(data[HeightKey(height)])]) else None
  }

  // ---------------------------------------------------------------------------------------------
  // What a commit writes.

  /** The store with these accounts written over it. */
  function PutAccounts(codec: Codec, data: Store, accounts: Accounts): Store {
    data + map key | key in (set a | a in accounts :: AccountKey(a)) :: codec.encodeAccount(accounts[key[2..]])
  }

  /** The three entries that index a block. */
  function PutBlock(codec: Codec, hash: Hasher, data: Store, block: Block): Store {
    data[BlockKey(block.BlockHash(hash)) := codec.encodeBlock(block)]
        [HeightKey(block.header.height) := block.BlockHash(hash)]
        [LATEST_HEIGHT_KEY := BigEndian(block.header.height, 8)]
  }

  function Committed(codec: Codec, hash: Hasher, data: Store, block: Block, overlay: Accounts): Store {
    PutBlock(codec, hash, PutAccounts(codec, data, overlay), block)
  }

  lemma PutAccountsReads(codec: Codec, data: Store, accounts: Accounts)
    ensures forall a: Address :: a in accounts ==>
      AccountKey(a) in PutAccounts(codec, data, accounts)
      && PutAccounts(codec, data, accounts)[AccountKey(a)] == codec.encodeAccount(accounts[a])
    ensures forall key :: (!IsAccountKey(key) || key[2..] !in accounts) ==>
      (key in PutAccounts(codec, data, accounts) <==> key in data)
      && (key in data ==> PutAccounts(codec, data, accounts)[key] == data[key])
  {
    forall a: Address | a in accounts ensures AccountKey(a)[2..] == a {
    }
  }

  /** A commit shows in the accounts as the overlay on top of them. */
  lemma CommittedAccounts(codec: Codec, hash: Hasher, data: Store, block: Block, overlay: Accounts)
    requires codec.RoundTrips()
    ensures AccountsOf(codec, Committed(codec, hash, data, block, overlay)) == AccountsOf(codec, data) + overlay
  {
    hide GetAccount, Committed, AddressesIn, AccountKey;
    var after := Committed(codec, hash, data, block, overlay);
    forall a: Address
      ensures AccountKey(a) in after <==> AccountKey(a) in data || a in overlay
      ensures AccountKey(a) in after ==>
        GetAccount(codec, after, a) == if a in overlay then overlay[a] else GetAccount(codec, data, a)
    {
      CommittedAccount(codec, hash, data, block, overlay, a);
    }
    var accounts := AccountsOf(codec, data) + overlay;
    forall a: Address ensures a in AccountsOf(codec, after) <==> a in accounts {
      assert a in AddressesIn(after) <==> a in AddressesIn(data) || a in overlay;
    }
  }

  lemma CommittedAccount(codec: Codec, hash: Hasher, data: Store, block: Block, overlay: Accounts, a: Address)
    requires codec.RoundTrips()
    ensures var after := Committed(codec, hash, data, block, overlay);
      && (AccountKey(a) in after <==> AccountKey(a) in data || a in overlay)
      && GetAccount(codec, after, a) == if a in overlay then overlay[a] else GetAccount(codec, data, a)
  {
    PutAccountsReads(codec, data, overlay);
    hide PutAccounts;
    var key := AccountKey(a);
    assert key[0] == 97 && IsAccountKey(key);
    assert key != BlockKey(block.BlockHash(hash)) && key != HeightKey(block.header.height) && key != LATEST_HEIGHT_KEY;
  }

  /** A block put in the store shows at its own height. */
  lemma PutBlockReads(codec: Codec, hash: Hasher, data: Store, block: Block)
    requires codec.RoundTrips()
    ensures var after := PutBlock(codec, hash, data, block);
      && LatestHeight(after) == block.header.height
      && BlockAtHeight(codec, after, block.header.height) == Some(block)
      && HeightKey(block.header.height) in after
      && after[HeightKey(block.header.height)] == block.BlockHash(hash)
  {
    U64RoundTrip(block.header.height);
    var atHash, atHeight := BlockKey(block.BlockHash(hash)), HeightKey(block.header.height);
    assert atHash != atHeight && atHeight != LATEST_HEIGHT_KEY && atHash != LATEST_HEIGHT_KEY;
  }

  /** Every other height keeps its block, unless that block has the new block's hash. */
  lemma OtherHeightKept(codec: Codec, hash: Hasher, data: Store, block: Block, overlay: Accounts, height: U64)
    requires height != block.header.height && HeightKey(height) in data
    requires data[HeightKey(height)] != block.BlockHash(hash)
    ensures var after := Committed(codec, hash, data, block, overlay);
      && HeightKey(height) in after && after[HeightKey(height)] == data[HeightKey(height)]
      && BlockAtHeight(codec, after, height) == BlockAtHeight(codec, data, height)
  {
    var entry, key := HeightKey(height), BlockKey(data[HeightKey(height)]);
    assert entry != HeightKey(block.header.height) by {
      if entry == HeightKey(block.header.height) {
        HeightKeyInjective(height, block.header.height);
      }
    }
    assert key != BlockKey(block.BlockHash(hash)) by {
      assert key[2..] == data[entry] && BlockKey(block.BlockHash(hash))[2..] == block.BlockHash(hash);
    }
    assert !IsAccountKey(entry) && !IsAccountKey(key) by {
      assert entry[0] == 104 && key[0] == 98;
    }
    UntouchedKey(codec, hash, data, block, overlay, entry);
    UntouchedKey(codec, hash, data, block, overlay, key);
  }

  lemma UntouchedKey(codec: Codec, hash: Hasher, data: Store, block: Block, overlay: Accounts, key: Bytes)
    requires !IsAccountKey(key) && key != LATEST_HEIGHT_KEY
    requires key != HeightKey(block.header.height) && key != BlockKey(block.BlockHash(hash))
    ensures var after := Committed(codec, hash, data, block, overlay);
      (key in after <==> key in data) && (key in data ==> after[key] == data[key])
  {
    PutAccountsReads(codec, data, overlay);
    hide PutAccounts, IsAccountKey, HeightKey, BlockKey;
  }
}
