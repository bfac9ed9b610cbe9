/** The transaction pool as a value: what is in it, in what order it is given up, and what adding a
    transaction does to it. */
module Pool {
  import opened Bytes
  import opened Crypto
  import opened Orders
  import opened Sums
  import opened Transactions
  import opened Ledger
  import opened Validation

  type TxPool = map<Hash, Transaction>

  datatype MempoolConfig = MempoolConfig(maxTransactions: nat, maxBytes: nat, minRbfBumpPercent: U32)

  const DEFAULT_RBF_PERCENT: U32 := 10

  // ---------------------------------------------------------------------------------------------
  // The priority order.

  datatype PriorityKey = PriorityKey(feePerByte: nat, nonce: U64, txHash: Hash)

  /** The derived order of the fields: fee density, then nonce, then hash. */
  predicate KeyLeq(a: PriorityKey, b: PriorityKey) {
    if a.feePerByte != b.feePerByte then a.feePerByte < b.feePerByte
    else if a.nonce != b.nonce then a.nonce < b.nonce
    else LexLeq(a.txHash, b.txHash)
  }

  lemma KeyLeqIsTotalOrder()
    ensures TotalOrder(KeyLeq)
  {
    LexIsTotalOrder();
    hide LexLeq;
  }

  function KeyOf(h: Hash, tx: Transaction): PriorityKey {
    PriorityKey(tx.FeePerByte(), tx.nonce, h)
  }

  function KeysOf(pool: TxPool): set<PriorityKey> {
    set h | h in pool :: KeyOf(h, pool[h])
  }

  lemma KeysWithout(pool: TxPool, h: Hash)
    requires h in pool
    ensures KeysOf(pool - {h}) == KeysOf(pool) - {KeyOf(h, pool[h])}
  {
    hide *;
    KeysMember(pool);
    KeysMember(pool - {h});
    forall key ensures key in KeysOf(pool - {h}) <==> key in KeysOf(pool) - {KeyOf(h, pool[h])} {
      KeyOfHash(pool, h);
      if key.txHash in pool {
        KeyOfHash(pool, key.txHash);
      }
    }
  }

  lemma KeyOfHash(pool: TxPool, h: Hash)
    requires h in pool
    ensures KeyOf(h, pool[h]).txHash == h
  {
  }

  lemma KeysMember(pool: TxPool)
    ensures forall key :: key in KeysOf(pool) <==> key.txHash in pool && key == KeyOf(key.txHash, pool[key.txHash])
  {
  }

  lemma KeysWith(pool: TxPool, h: Hash, tx: Transaction)
    requires h !in pool
    ensures KeysOf(pool[h := tx]) == KeysOf(pool) + {KeyOf(h, tx)}
  {
    var after := pool[h := tx];
    KeysWithout(after, h);
    assert after - {h} == pool;
    KeysMember(after);
    hide KeysOf;
    assert KeyOf(h, tx) in KeysOf(after);
  }

  /** One priority key per transaction. */
  lemma {:induction false} KeysCount(pool: TxPool)
    ensures |KeysOf(pool)| == |pool|
    decreases |pool|
  {
    if pool != map[] {
      var h :| h in pool;
      KeysCount(pool - {h});
      KeysWithout(pool, h);
      KeysMember(pool);
      assert |pool - {h}| == |pool| - 1 by {
        assert (pool - {h}).Keys == pool.Keys - {h};
      }
    }
  }

  // ---------------------------------------------------------------------------------------------
  // Sizes.

  function SizeIn(pool: TxPool): Hash -> int {
    (h: Hash) => if h in pool then pool[h].SizeBytes() else 0
  }

  ghost function BytesOf(pool: TxPool): (bytes: nat) {
    SumNonNegative(pool.Keys, SizeIn(pool));
    Sum(pool.Keys, SizeIn(pool))
  }

  lemma BytesWithout(pool: TxPool, h: Hash)
    requires h in pool
    ensures BytesOf(pool) == BytesOf(pool - {h}) + pool[h].SizeBytes()
  {
    var rest := pool - {h};
    SumRemove(pool.Keys, SizeIn(pool), h);
    assert rest.Keys == pool.Keys - {h};
    SumCongruent(rest.Keys, SizeIn(pool), SizeIn(rest));
  }

  lemma BytesWith(pool: TxPool, h: Hash, tx: Transaction)
    requires h !in pool
    ensures BytesOf(pool[h := tx]) == BytesOf(pool) + tx.SizeBytes()
    ensures |pool[h := tx]| == |pool| + 1
  {
    assert pool[h := tx] - {h} == pool;
    BytesWithout(pool[h := tx], h);
  }

  lemma CountWithout(pool: TxPool, h: Hash)
    requires h in pool
    ensures |pool - {h}| == |pool| - 1
  {
    assert (pool - {h}).Keys == pool.Keys - {h};
  }

  // ---------------------------------------------------------------------------------------------
  // Adding.

  datatype MempoolError =
    | Invalid(error: ValidationError)
    | Duplicate(txHash: Hash)
    | PoolFull
    | InsufficientRbfBump(minPercent: U32)

  datatype AddRun = AddRun(pool: TxPool, result: Result<Hash, MempoolError>)

  /** Each transaction is filed under its own hash. */
  ghost predicate Keyed(hash: Hasher, pool: TxPool) {
    forall h :: h in pool ==> pool[h].TxHash(hash) == h
  }

  ghost predicate OnePerSlot(pool: TxPool) {
    forall g, h :: g in pool && h in pool && pool[g].sender == pool[h].sender && pool[g].nonce == pool[h].nonce ==>
      g == h
  }

  /** The transactions with this sender and nonce. */
  function InSlot(pool: TxPool, sender: Address, nonce: U64): set<Hash> {
    set h | h in pool && pool[h].sender == sender && pool[h].nonce == nonce
  }

  /** `fee + (fee * percent) / 100`, on u64. */
  function MinReplacementFee(fee: U64, percent: U32): U64 {
    WrapAdd(fee, WrapMul(fee, percent) / 100)
  }

  /** The slot is held by a transaction this one does not outbid. */
  ghost predicate Underpaid(pool: TxPool, tx: Transaction, percent: U32) {
    exists g :: g in InSlot(pool, tx.sender, tx.nonce) && tx.fee < MinReplacementFee(pool[g].fee, percent)
  }

  ghost predicate HasRoom(config: MempoolConfig, pool: TxPool, size: nat) {
    |pool| < config.maxTransactions && BytesOf(pool) + size <= config.maxBytes
  }

  ghost function LowestKey(pool: TxPool): (key: PriorityKey)
    requires pool != map[]
    ensures IsLeast(KeyLeq, key, KeysOf(pool))
    ensures key.txHash in pool && key == KeyOf(key.txHash, pool[key.txHash])
  {
    KeyLeqIsTotalOrder();
    KeysMember(pool);
    KeysCount(pool);
    assert KeysOf(pool) != {};
    Least(KeyLeq, KeysOf(pool))
  }

  /** The capacity loop: give up the lowest key until there is room, or until it pays as much. */
  ghost function MakeRoom(config: MempoolConfig, pool: TxPool, tx: Transaction): TxPool
    decreases |pool|
  {
    if HasRoom(config, pool, tx.SizeBytes()) || pool == map[] then pool
    else
      var key := LowestKey(pool);
      CountWithout(pool, key.txHash);
      if key.feePerByte >= tx.FeePerByte() then pool else MakeRoom(config, pool - {key.txHash}, tx)
  }

  /** `add_transaction`. */
  ghost function Add(crypto: Crypto, config: MempoolConfig, pool: TxPool, tx: Transaction, account: Account): AddRun {
    var h := tx.TxHash(crypto.hash);
    match ValidateStateless(crypto, tx)
    case Fail(error) => AddRun(pool, Err(Invalid(error)))
    case Pass =>
      if h in pool then AddRun(pool, Err(Duplicate(h)))
      else match ValidateStateful(tx, account)
        case Fail(error) => AddRun(pool, Err(Invalid(error)))
        case Pass =>
          if Underpaid(pool, tx, config.minRbfBumpPercent)
            then AddRun(pool, Err(InsufficientRbfBump(config.minRbfBumpPercent)))
          else Placed(config, MakeRoom(config, pool - InSlot(pool, tx.sender, tx.nonce), tx), h, tx)
  }

  ghost function Placed(config: MempoolConfig, pool: TxPool, h: Hash, tx: Transaction): AddRun {
    if HasRoom(config, pool, tx.SizeBytes()) then AddRun(pool[h := tx], Ok(h)) else AddRun(pool, Err(PoolFull))
  }
}
