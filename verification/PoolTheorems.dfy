/** What the pool guarantees of evictions and of replacements. */
module PoolTheorems {
  import opened Bytes
  import opened Crypto
  import opened Orders
  import opened Sums
  import opened Transactions
  import opened Ledger
  import opened Validation
  import opened Pool

  // ---------------------------------------------------------------------------------------------
  // Eviction.

  /** The pool without its k lowest keys. */
  ghost function DropLowest(pool: TxPool, k: nat): TxPool
    requires k <= |pool|
  {
    if k == 0 then pool else
      CountWithout(pool, LowestKey(pool).txHash);
      DropLowest(pool - {LowestKey(pool).txHash}, k - 1)
  }

  lemma DropUnfolds(pool: TxPool, k: nat)
    requires 0 < k <= |pool|
    ensures var h := LowestKey(pool).txHash;
      h in pool && |pool - {h}| == |pool| - 1 && DropLowest(pool, k) == DropLowest(pool - {h}, k - 1)
  {
    CountWithout(pool, LowestKey(pool).txHash);
  }

  ghost predicate PartOf(part: TxPool, pool: TxPool) {
    forall h :: h in part ==> h in pool && part[h] == pool[h]
  }

  ghost predicate Outranked(pool: TxPool, kept: TxPool) {
    forall g, h :: g in pool && g !in kept && h in kept && h in pool ==> KeyLeq(KeyOf(g, pool[g]), KeyOf(h, pool[h]))
  }

  /** Dropping the k lowest leaves the others as they were, all of higher priority. */
  lemma {:induction false} DroppedAreLowest(pool: TxPool, k: nat)
    requires k <= |pool|
    ensures |DropLowest(pool, k)| == |pool| - k
    ensures PartOf(DropLowest(pool, k), pool) && Outranked(pool, DropLowest(pool, k))
    decreases k
  {
    hide *;
    if k == 0 {
      DropNone(pool);
    } else {
      var h := LowestKey(pool).txHash;
      LowestIsLeast(pool);
      DropUnfolds(pool, k);
      DroppedAreLowest(pool - {h}, k - 1);
      OutrankedStep(pool, h, DropLowest(pool - {h}, k - 1));
    }
  }

  lemma DropNone(pool: TxPool)
    ensures DropLowest(pool, 0) == pool && PartOf(pool, pool) && Outranked(pool, pool)
    ensures forall tx :: AllCheaper(pool, pool, tx)
    ensures forall config, size :: TooFullBefore(config, pool, 0, size)
  {
    hide KeyLeq, KeyOf;
  }

  lemma LowestIsLeast(pool: TxPool)
    requires pool != map[]
    ensures var h := LowestKey(pool).txHash;
      && h in pool && LowestKey(pool) == KeyOf(h, pool[h])
      && forall g :: g in pool ==> KeyLeq(KeyOf(h, pool[h]), KeyOf(g, pool[g]))
  {
    KeysMember(pool);
    hide KeysOf, KeyLeq;
    forall g | g in pool ensures KeyLeq(LowestKey(pool), KeyOf(g, pool[g])) {
      assert KeyOf(g, pool[g]) in KeysOf(pool);
    }
  }

  lemma OutrankedStep(pool: TxPool, h: Hash, kept: TxPool)
    requires h in pool && forall g :: g in pool ==> KeyLeq(KeyOf(h, pool[h]), KeyOf(g, pool[g]))
    requires PartOf(kept, pool - {h}) && Outranked(pool - {h}, kept)
    ensures PartOf(kept, pool) && Outranked(pool, kept)
  {
    hide KeyLeq, KeyOf;
  }

  /** One turn of the capacity loop. */
  lemma MakeRoomUnfolds(config: MempoolConfig, pool: TxPool, tx: Transaction)
    ensures HasRoom(config, pool, tx.SizeBytes()) || pool == map[] ==> MakeRoom(config, pool, tx) == pool
    ensures !HasRoom(config, pool, tx.SizeBytes()) && pool != map[] ==>
      var h := LowestKey(pool).txHash;
      && h in pool && |pool - {h}| == |pool| - 1 && pool[h].FeePerByte() == LowestKey(pool).feePerByte
      && MakeRoom(config, pool, tx)
           == if pool[h].FeePerByte() >= tx.FeePerByte() then pool else MakeRoom(config, pool - {h}, tx)
  {
    hide HasRoom;
    if pool != map[] {
      CountWithout(pool, LowestKey(pool).txHash);
    }
  }

  /** The transactions that pay strictly less per byte than the newcomer. */
  ghost function Cheaper(pool: TxPool, tx: Transaction): set<Hash> {
    set h | h in pool && pool[h].FeePerByte() < tx.FeePerByte()
  }

  ghost predicate AllCheaper(pool: TxPool, kept: TxPool, tx: Transaction) {
    forall h :: h in pool && h !in kept ==> pool[h].FeePerByte() < tx.FeePerByte()
  }

  ghost predicate NoneCheaper(kept: TxPool, tx: Transaction) {
    forall h :: h in kept ==> kept[h].FeePerByte() >= tx.FeePerByte()
  }

  /** The pool is too full with any fewer than k transactions dropped. */
  ghost predicate TooFullBefore(config: MempoolConfig, pool: TxPool, k: nat, size: nat)
    requires k <= |pool|
  {
    forall j :: 0 <= j < k ==> !HasRoom(config, DropLowest(pool, j), size)
  }

  /** The loop's result is the k lowest dropped, for the least k that makes room, or as far as the
      transactions strictly cheaper than the newcomer reach. */
  lemma {:induction false} MakeRoomDrops(config: MempoolConfig, pool: TxPool, tx: Transaction)
    ensures var after := MakeRoom(config, pool, tx);
      && |after| <= |pool| && after == DropLowest(pool, |pool| - |after|)
      && TooFullBefore(config, pool, |pool| - |after|, tx.SizeBytes())
      && AllCheaper(pool, after, tx)
      && (HasRoom(config, after, tx.SizeBytes()) || NoneCheaper(after, tx))
    decreases |pool|
  {
    hide *;
    MakeRoomUnfolds(config, pool, tx);
    DropNone(pool);
    if pool == map[] {
      EmptyIsDear(tx);
    } else if !HasRoom(config, pool, tx.SizeBytes()) {
      var h := LowestKey(pool).txHash;
      LowestIsLeast(pool);
      if pool[h].FeePerByte() >= tx.FeePerByte() {
        DensestLast(pool, h, tx);
      } else {
        MakeRoomDrops(config, pool - {h}, tx);
        var after := MakeRoom(config, pool - {h}, tx);
        DropOneMore(config, pool, h, |pool| - |after|, tx.SizeBytes());
        CheaperStep(pool, h, after, tx);
      }
    }
  }

  lemma EmptyIsDear(tx: Transaction)
    ensures NoneCheaper(map[], tx)
  {
  }

  lemma DensestLast(pool: TxPool, h: Hash, tx: Transaction)
    requires h in pool && forall g :: g in pool ==> KeyLeq(KeyOf(h, pool[h]), KeyOf(g, pool[g]))
    requires pool[h].FeePerByte() >= tx.FeePerByte()
    ensures NoneCheaper(pool, tx)
  {
    hide Transaction.FeePerByte, LexLeq;
  }

  lemma DropOneMore(config: MempoolConfig, pool: TxPool, h: Hash, k: nat, size: nat)
    requires 0 < k <= |pool| && h == LowestKey(pool).txHash && !HasRoom(config, pool, size)
    requires |pool - {h}| == |pool| - 1 && TooFullBefore(config, pool - {h}, k - 1, size)
    ensures DropLowest(pool, k) == DropLowest(pool - {h}, k - 1) && TooFullBefore(config, pool, k, size)
  {
    hide HasRoom;
    forall j | 0 <= j < k ensures !HasRoom(config, DropLowest(pool, j), size) {
      if j > 0 {
        DropUnfolds(pool, j);
      }
    }
    DropUnfolds(pool, k);
  }

  lemma CheaperStep(pool: TxPool, h: Hash, after: TxPool, tx: Transaction)
    requires h in pool && pool[h].FeePerByte() < tx.FeePerByte() && AllCheaper(pool - {h}, after, tx)
    ensures AllCheaper(pool, after, tx)
  {
    hide Transaction.FeePerByte;
  }

  lemma RoomGrows(config: MempoolConfig, pool: TxPool, smaller: TxPool, size: nat)
    requires HasRoom(config, pool, size) && PartOf(smaller, pool)
    ensures HasRoom(config, smaller, size)
  {
    PartIsSmaller(pool, smaller);
    hide BytesOf;
  }

  lemma CountSubset<T>(a: set<T>, b: set<T>)
    requires a <= b
    ensures |a| <= |b|
  {
    assert b == a + (b - a);
  }

  lemma LeastPool(pool: TxPool, after: TxPool, tx: Transaction)
    requires PartOf(after, pool) && AllCheaper(pool, after, tx)
    ensures PartOf(pool - Cheaper(pool, tx), after)
    ensures NoneCheaper(after, tx) ==> after == pool - Cheaper(pool, tx)
  {
    hide Transaction.FeePerByte;
  }

  /** Room is found exactly when giving up every cheaper transaction would make room. */
  lemma RoomIffCheaperSuffice(config: MempoolConfig, pool: TxPool, tx: Transaction)
    ensures HasRoom(config, MakeRoom(config, pool, tx), tx.SizeBytes())
       <==> HasRoom(config, pool - Cheaper(pool, tx), tx.SizeBytes())
  {
    hide *;
    var after := MakeRoom(config, pool, tx);
    MakeRoomDrops(config, pool, tx);
    DroppedAreLowest(pool, |pool| - |after|);
    LeastPool(pool, after, tx);
    if HasRoom(config, after, tx.SizeBytes()) {
      RoomGrows(config, after, pool - Cheaper(pool, tx), tx.SizeBytes());
    }
  }

  /** Capacity eviction is minimal and ordered. What `add_transaction` evicts is the shortest
      lowest-priority prefix that makes room, every piece of it strictly cheaper than the newcomer;
      it succeeds exactly when the cheaper ones suffice, and on PoolFull everything left pays at
      least the newcomer's fee per byte. */
  lemma EvictionIsMinimal(crypto: Crypto, config: MempoolConfig, pool: TxPool, tx: Transaction, account: Account)
    ensures var run := Add(crypto, config, pool, tx, account);
      var free := pool - InSlot(pool, tx.sender, tx.nonce);
      var kept := if run.result.Ok? then run.pool - {tx.TxHash(crypto.hash)} else run.pool;
      run.result.Ok? || run.result == Err(PoolFull) ==>
        && |kept| <= |free| && kept == DropLowest(free, |free| - |kept|)
        && TooFullBefore(config, free, |free| - |kept|, tx.SizeBytes())
        && AllCheaper(free, kept, tx)
        && (run.result.Ok? <==> HasRoom(config, free - Cheaper(free, tx), tx.SizeBytes()))
        && (run.result.Err? ==> NoneCheaper(kept, tx))
  {
    hide *;
    var h, free := tx.TxHash(crypto.hash), pool - InSlot(pool, tx.sender, tx.nonce);
    var after := MakeRoom(config, free, tx);
    MakeRoomDrops(config, free, tx);
    RoomIffCheaperSuffice(config, free, tx);
    DroppedAreLowest(free, |free| - |after|);
    AddUnfolds(crypto, config, pool, tx, account);
    NotInPart(after, free, pool, InSlot(pool, tx.sender, tx.nonce), h, tx);
  }

  lemma NotInPart(after: TxPool, free: TxPool, pool: TxPool, gone: set<Hash>, h: Hash, tx: Transaction)
    requires PartOf(after, free) && free == pool - gone
    ensures h !in pool ==> after[h := tx] - {h} == after
  {
    if h !in pool {
      assert h !in after;
    }
  }

  /** A run that gets past the checks places the transaction, or not, in what the loop left. */
  lemma AddUnfolds(crypto: Crypto, config: MempoolConfig, pool: TxPool, tx: Transaction, account: Account)
    ensures var run := Add(crypto, config, pool, tx, account);
      var h := tx.TxHash(crypto.hash);
      var after := MakeRoom(config, pool - InSlot(pool, tx.sender, tx.nonce), tx);
      && (run.result.Ok? ==>
            && run == AddRun(after[h := tx], Ok(h)) && h !in pool && HasRoom(config, after, tx.SizeBytes())
            && !Underpaid(pool, tx, config.minRbfBumpPercent) && ValidateStateless(crypto, tx).Pass?)
      && (run.result == Err(PoolFull) ==>
          run == AddRun(after, Err(PoolFull)) && !HasRoom(config, after, tx.SizeBytes()))
      && (run.result.Err? && run.result != Err(PoolFull) ==> run.pool == pool)
  {
    hide MakeRoom, HasRoom, InSlot, Underpaid, ValidateStateless, ValidateStateful, Transaction.TxHash;
  }

  /** PoolFull is not always a no-op: it leaves the pool alone exactly when the slot was free and
      the lowest transaction already pays as much as the newcomer. */
  lemma PoolFullKeepsPool(crypto: Crypto, config: MempoolConfig, pool: TxPool, tx: Transaction, account: Account)
    requires Add(crypto, config, pool, tx, account).result == Err(PoolFull)
    ensures Add(crypto, config, pool, tx, account).pool == pool
       <==> InSlot(pool, tx.sender, tx.nonce) == {} && (pool == map[] || LowestKey(pool).feePerByte >= tx.FeePerByte())
  {
    hide *;
    var holders := InSlot(pool, tx.sender, tx.nonce);
    var free := pool - holders;
    var after := MakeRoom(config, free, tx);
    AddUnfolds(crypto, config, pool, tx, account);
    MakeRoomDrops(config, free, tx);
    DroppedAreLowest(free, |free| - |after|);
    HoldersArePooled(pool, tx.sender, tx.nonce);
    MakeRoomUnfolds(config, pool, tx);
    if holders == {} {
      assert free == pool;
      if pool != map[] {
        SmallerWithout(config, pool, tx);
      }
    } else {
      var g :| g in holders;
      PartMisses(after, free, g);
    }
  }

  /** A refused newcomer has pushed out exactly the transactions strictly cheaper than itself, and
      the holder of its slot. */
  lemma PoolFullLeaves(crypto: Crypto, config: MempoolConfig, pool: TxPool, tx: Transaction, account: Account)
    requires Add(crypto, config, pool, tx, account).result == Err(PoolFull)
    ensures var free := pool - InSlot(pool, tx.sender, tx.nonce);
      Add(crypto, config, pool, tx, account).pool == free - Cheaper(free, tx)
  {
    hide *;
    var free := pool - InSlot(pool, tx.sender, tx.nonce);
    var after := MakeRoom(config, free, tx);
    AddUnfolds(crypto, config, pool, tx, account);
    MakeRoomDrops(config, free, tx);
    DroppedAreLowest(free, |free| - |after|);
    LeastPool(free, after, tx);
  }

  const PAYER: Account := Account(2000, 0, 0, false, None)

  function SignedTransfer(crypto: Crypto, key: SecretKey, recipient: Address, fee: U64, nonce: U64,
                          payload: Bytes): Transaction {
    var pubkey := crypto.publicKey(key);
    var unsigned :=
      Transaction(crypto.AddressOf(pubkey), recipient, 1, fee, nonce, Transfer, payload, pubkey, ZERO_SIGNATURE);
    unsigned.(signature := crypto.sign(key, unsigned.SigningBytes()))
  }

  function CheapTransfer(crypto: Crypto, key: SecretKey, recipient: Address): Transaction {
    SignedTransfer(crypto, key, recipient, 100, 1, [])
  }

  /** Ten times the fee, and one byte more. */
  function DearTransfer(crypto: Crypto, key: SecretKey, recipient: Address): Transaction {
    SignedTransfer(crypto, key, recipient, 1000, 2, [0])
  }

  lemma SignedTransferVerifies(crypto: Crypto, key: SecretKey, recipient: Address, fee: U64, nonce: U64, payload: Bytes)
    requires crypto.SignaturesVerify()
    ensures SignedTransfer(crypto, key, recipient, fee, nonce, payload).Verify(crypto).Pass?
  {
    var pubkey := crypto.publicKey(key);
    var unsigned :=
      Transaction(crypto.AddressOf(pubkey), recipient, 1, fee, nonce, Transfer, payload, pubkey, ZERO_SIGNATURE);
    SigningIgnoresSignature(unsigned, crypto.sign(key, unsigned.SigningBytes()));
    hide Transaction.SigningBytes, Crypto.AddressOf;
  }

  lemma TransferAdmitted(crypto: Crypto, key: SecretKey, recipient: Address, fee: U64, nonce: U64, payload: Bytes)
    requires crypto.SignaturesVerify() && MIN_TRANSACTION_FEE <= fee <= 1000 && 1 <= nonce <= MAX_NONCE_GAP
    requires |payload| <= 1000
    ensures var tx := SignedTransfer(crypto, key, recipient, fee, nonce, payload);
      && ValidateStateless(crypto, tx).Pass? && ValidateStateful(tx, PAYER).Pass?
      && tx.nonce == nonce && tx.SizeBytes() == 165 + |payload| && tx.FeePerByte() == fee / (165 + |payload|)
  {
    SignedTransferVerifies(crypto, key, recipient, fee, nonce, payload);
    hide Transaction.Verify, Transaction.SigningBytes, Crypto.AddressOf;
  }

  lemma AddAdmitted(crypto: Crypto, config: MempoolConfig, pool: TxPool, tx: Transaction, account: Account)
    requires ValidateStateless(crypto, tx).Pass? && ValidateStateful(tx, account).Pass?
    requires tx.TxHash(crypto.hash) !in pool && InSlot(pool, tx.sender, tx.nonce) == {}
    ensures Add(crypto, config, pool, tx, account)
         == Placed(config, MakeRoom(config, pool, tx), tx.TxHash(crypto.hash), tx)
  {
    hide ValidateStateless, ValidateStateful, MakeRoom, Placed, Transaction.TxHash;
    assert pool - {} == pool;
  }

  lemma RoomFor(config: MempoolConfig, pool: TxPool, size: nat)
    ensures HasRoom(config, pool, size) <==> |pool| < config.maxTransactions && BytesOf(pool) + size <= config.maxBytes
  {
    hide BytesOf;
  }

  lemma BytesOfNone()
    ensures BytesOf(map[]) == 0
  {
  }

  /** Such a case: into a pool that just holds one transaction, a better one a byte too large. The
      first is given up, the second refused, and the pool is empty. */
  lemma PoolFullEmptiesPool(crypto: Crypto, key: SecretKey, recipient: Address)
    requires crypto.SignaturesVerify()
    requires CheapTransfer(crypto, key, recipient).TxHash(crypto.hash)
      != DearTransfer(crypto, key, recipient).TxHash(crypto.hash)
    ensures var config, account := MempoolConfig(10, 165, DEFAULT_RBF_PERCENT), PAYER;
      var first, second := CheapTransfer(crypto, key, recipient), DearTransfer(crypto, key, recipient);
      var h := first.TxHash(crypto.hash);
      && Add(crypto, config, map[], first, account) == AddRun(map[h := first], Ok(h))
      && Add(crypto, config, map[h := first], second, account) == AddRun(map[], Err(PoolFull))
  {
    hide *;
    var config, account := MempoolConfig(10, 165, DEFAULT_RBF_PERCENT), PAYER;
    var first, second := CheapTransfer(crypto, key, recipient), DearTransfer(crypto, key, recipient);
    var h := first.TxHash(crypto.hash);
    var empty: TxPool, pool: TxPool := map[], map[h := first];
    BothAdmitted(crypto, key, recipient);
    RoomFor(config, empty, 165);
    BytesOfNone();
    HoldersArePooled(empty, first.sender, first.nonce);
    AddAdmitted(crypto, config, empty, first, account);
    MakeRoomUnfolds(config, empty, first);
    PlacedIs(config, empty, h, first);
    assert empty[h := first] == pool;
    NoRoomLeaves(config, pool, second);
    OtherSlotFree(pool, h, second.sender, second.nonce);
    AddAdmitted(crypto, config, pool, second, account);
    PlacedIs(config, MakeRoom(config, pool, second), second.TxHash(crypto.hash), second);
    PoolFullLeaves(crypto, config, pool, second, account);
    assert pool - {} == pool;
    AllPushedOut(pool, h, second);
  }

  lemma BothAdmitted(crypto: Crypto, key: SecretKey, recipient: Address)
    requires crypto.SignaturesVerify()
    ensures var first, second := CheapTransfer(crypto, key, recipient), DearTransfer(crypto, key, recipient);
      var account := PAYER;
      && ValidateStateless(crypto, first).Pass? && ValidateStateful(first, account).Pass?
      && ValidateStateless(crypto, second).Pass? && ValidateStateful(second, account).Pass?
      && first.nonce == 1 && second.nonce == 2 && first.SizeBytes() == 165 && second.SizeBytes() == 166
      && first.FeePerByte() == 0 && second.FeePerByte() == 6
  {
    TransferAdmitted(crypto, key, recipient, 100, 1, []);
    TransferAdmitted(crypto, key, recipient, 1000, 2, [0]);
    hide SignedTransfer, ValidateStateless, ValidateStateful, Transaction.SizeBytes, Transaction.FeePerByte;
  }

  lemma PlacedIs(config: MempoolConfig, pool: TxPool, h: Hash, tx: Transaction)
    ensures Placed(config, pool, h, tx)
         == if HasRoom(config, pool, tx.SizeBytes()) then AddRun(pool[h := tx], Ok(h)) else AddRun(pool, Err(PoolFull))
  {
    hide HasRoom;
  }

  lemma OtherSlotFree(pool: TxPool, h: Hash, sender: Address, nonce: U64)
    requires pool.Keys == {h} && pool[h].nonce != nonce
    ensures InSlot(pool, sender, nonce) == {}
  {
  }

  lemma AllPushedOut(pool: TxPool, h: Hash, tx: Transaction)
    requires pool.Keys == {h} && pool[h].FeePerByte() < tx.FeePerByte()
    ensures pool - Cheaper(pool, tx) == map[]
  {
    hide Transaction.FeePerByte;
    assert Cheaper(pool, tx) == {h};
  }

  lemma NoRoomLeaves(config: MempoolConfig, pool: TxPool, tx: Transaction)
    requires tx.SizeBytes() > config.maxBytes
    ensures !HasRoom(config, MakeRoom(config, pool, tx), tx.SizeBytes())
  {
    hide MakeRoom, BytesOf, Transaction.SizeBytes;
  }

  lemma PartMisses(part: TxPool, pool: TxPool, g: Hash)
    requires PartOf(part, pool) && g !in pool
    ensures g !in part
  {
  }

  lemma SmallerWithout(config: MempoolConfig, pool: TxPool, tx: Transaction)
    requires pool != map[]
    ensures LowestKey(pool).txHash in pool
    ensures |MakeRoom(config, pool - {LowestKey(pool).txHash}, tx)| < |pool|
  {
    hide *;
    var h := LowestKey(pool).txHash;
    CountWithout(pool, h);
    MakeRoomDrops(config, pool - {h}, tx);
  }

  lemma HoldersArePooled(pool: TxPool, sender: Address, nonce: U64)
    ensures forall h :: h in InSlot(pool, sender, nonce) ==> h in pool
  {
  }

  // ---------------------------------------------------------------------------------------------
  // Replacement.

  /** At the default 10%, every accepted replacement pays at least 12/11 of the old fee exactly when
      ten times the old fee fits in 64 bits; above that the threshold wraps and falls short. */
  lemma ReplacementRaises(fee: U64)
    requires fee >= MIN_TRANSACTION_FEE
    ensures (forall bid: U64 :: bid >= MinReplacementFee(fee, DEFAULT_RBF_PERCENT) ==> 11 * bid >= 12 * fee)
       <==> fee * 10 < U64_END
  {
    var least := MinReplacementFee(fee, DEFAULT_RBF_PERCENT);
    if fee * 10 < U64_END {
      assert least == fee + fee * 10 / 100;
    } else {
      WrappedThreshold(fee);
    }
  }

  lemma WrappedThreshold(fee: U64)
    requires fee * 10 >= U64_END
    ensures 11 * MinReplacementFee(fee, DEFAULT_RBF_PERCENT) < 12 * fee
  {
    var wrapped := WrapMul(fee, DEFAULT_RBF_PERCENT);
    assert wrapped <= fee * 10 - U64_END;
    assert WrapAdd(fee, wrapped / 100) <= fee + wrapped / 100;
  }

  function Power(base: nat, k: nat): nat {
    if k == 0 then 1 else base * Power(base, k - 1)
  }

  datatype PoolStep =
    | AddStep(tx: Transaction, account: Account)
    | RemoveStep(txHash: Hash)

  ghost function StepPool(crypto: Crypto, config: MempoolConfig, pool: TxPool, step: PoolStep): TxPool {
    match step
    case AddStep(tx, account) => Add(crypto, config, pool, tx, account).pool
    case RemoveStep(h) => pool - {h}
  }

  ghost function RunPool(crypto: Crypto, config: MempoolConfig, steps: seq<PoolStep>): TxPool {
    if steps == [] then map[]
    else StepPool(crypto, config, RunPool(crypto, config, steps[..|steps| - 1]), steps[|steps| - 1])
  }

  ghost predicate Admitted(crypto: Crypto, pool: TxPool) {
    forall h :: h in pool ==> ValidateStateless(crypto, pool[h]).Pass?
  }

  /** What holds of every pool reached from the empty one. */
  ghost predicate PoolInv(crypto: Crypto, config: MempoolConfig, pool: TxPool) {
    && Keyed(crypto.hash, pool) && OnePerSlot(pool) && Admitted(crypto, pool)
    && |pool| <= config.maxTransactions && BytesOf(pool) <= config.maxBytes
  }

  lemma PartInv(crypto: Crypto, config: MempoolConfig, pool: TxPool, part: TxPool)
    requires PoolInv(crypto, config, pool) && PartOf(part, pool)
    ensures PoolInv(crypto, config, part)
  {
    PartIsSmaller(pool, part);
    hide Transaction.TxHash, ValidateStateless, BytesOf;
  }

  lemma PartIsSmaller(pool: TxPool, part: TxPool)
    requires PartOf(part, pool)
    ensures |part| <= |pool| && BytesOf(part) <= BytesOf(pool)
  {
    hide Transaction.SizeBytes;
    assert part.Keys <= pool.Keys;
    CountSubset(part.Keys, pool.Keys);
    SumMonotone(pool.Keys, part.Keys, SizeIn(pool));
    SumCongruent(part.Keys, SizeIn(pool), SizeIn(part));
  }

  lemma InsertInv(crypto: Crypto, config: MempoolConfig, pool: TxPool, tx: Transaction)
    requires PoolInv(crypto, config, pool) && HasRoom(config, pool, tx.SizeBytes())
    requires ValidateStateless(crypto, tx).Pass? && tx.TxHash(crypto.hash) !in pool
    requires InSlot(pool, tx.sender, tx.nonce) == {}
    ensures PoolInv(crypto, config, pool[tx.TxHash(crypto.hash) := tx])
  {
    hide Transaction.TxHash, ValidateStateless, BytesOf, Transaction.SizeBytes;
    BytesWith(pool, tx.TxHash(crypto.hash), tx);
    forall g | g in pool ensures pool[g].sender != tx.sender || pool[g].nonce != tx.nonce {
      assert g !in InSlot(pool, tx.sender, tx.nonce);
    }
  }

  lemma FreedSlotIsFree(pool: TxPool, part: TxPool, sender: Address, nonce: U64)
    requires PartOf(part, pool - InSlot(pool, sender, nonce))
    ensures PartOf(part, pool) && InSlot(part, sender, nonce) == {}
  {
    forall h | h in part ensures h !in InSlot(part, sender, nonce) {
      assert h !in InSlot(pool, sender, nonce);
    }
  }

  lemma StepKeepsInv(crypto: Crypto, config: MempoolConfig, pool: TxPool, step: PoolStep)
    requires PoolInv(crypto, config, pool)
    ensures PoolInv(crypto, config, StepPool(crypto, config, pool, step))
  {
    hide *;
    StepIs(crypto, config, pool, step);
    match step {
      case RemoveStep(h) =>
        PartWithout(pool, h);
        PartInv(crypto, config, pool, pool - {h});
      case AddStep(tx, account) =>
        var after := MakeRoom(config, pool - InSlot(pool, tx.sender, tx.nonce), tx);
        AddUnfolds(crypto, config, pool, tx, account);
        MakeRoomKeeps(config, pool, tx);
        FreedSlotIsFree(pool, after, tx.sender, tx.nonce);
        PartInv(crypto, config, pool, after);
        if Add(crypto, config, pool, tx, account).result.Ok? {
          PartMisses(after, pool, tx.TxHash(crypto.hash));
          InsertInv(crypto, config, after, tx);
        }
    }
  }

  lemma StepIs(crypto: Crypto, config: MempoolConfig, pool: TxPool, step: PoolStep)
    ensures StepPool(crypto, config, pool, step)
         == match step
            case AddStep(tx, account) => Add(crypto, config, pool, tx, account).pool
            case RemoveStep(h) => pool - {h}
  {
    hide Add;
  }

  lemma PartWithout(pool: TxPool, h: Hash)
    ensures PartOf(pool - {h}, pool)
  {
  }

  /** Every reachable pool holds admitted transactions under their own hashes, one per sender and
      nonce, within both limits, whatever mix of accepted, refused and removed transactions led to
      it. */
  lemma {:induction false} ReachablePools(crypto: Crypto, config: MempoolConfig, steps: seq<PoolStep>)
    ensures PoolInv(crypto, config, RunPool(crypto, config, steps))
  {
    if steps == [] {
      assert BytesOf(map[]) == 0;
    } else {
      hide PoolInv, StepPool;
      ReachablePools(crypto, config, steps[..|steps| - 1]);
      StepKeepsInv(crypto, config, RunPool(crypto, config, steps[..|steps| - 1]), steps[|steps| - 1]);
    }
  }

  /** The slot is held by just this transaction. */
  ghost predicate HeldAt(pool: TxPool, sender: Address, nonce: U64, h: Hash) {
    InSlot(pool, sender, nonce) == {h}
  }

  ghost predicate IsHeld(pool: TxPool, sender: Address, nonce: U64) {
    exists h :: HeldAt(pool, sender, nonce, h)
  }

  /** The slot is held before and after every step of the run. */
  ghost predicate Occupied(crypto: Crypto, config: MempoolConfig, pool: TxPool, steps: seq<PoolStep>, sender: Address,
                           nonce: U64)
    decreases |steps|
  {
    && IsHeld(pool, sender, nonce)
    && (steps != [] ==> Occupied(crypto, config, StepPool(crypto, config, pool, steps[0]), steps[1..], sender, nonce))
  }

  ghost function Holder(pool: TxPool, sender: Address, nonce: U64): (tx: Transaction)
    requires IsHeld(pool, sender, nonce)
    ensures tx.sender == sender && tx.nonce == nonce
  {
    var h :| HeldAt(pool, sender, nonce, h);
    assert h in InSlot(pool, sender, nonce);
    pool[h]
  }

  /** How often the slot changes hands along a run. */
  ghost function Replacements(crypto: Crypto, config: MempoolConfig, pool: TxPool, steps: seq<PoolStep>,
                              sender: Address, nonce: U64): nat
    requires Occupied(crypto, config, pool, steps, sender, nonce)
    decreases |steps|
  {
    if steps == [] then 0 else
      var next := StepPool(crypto, config, pool, steps[0]);
      assert Occupied(crypto, config, next, steps[1..], sender, nonce);
      (if Holder(next, sender, nonce) == Holder(pool, sender, nonce) then 0 else 1)
        + Replacements(crypto, config, next, steps[1..], sender, nonce)
  }

  ghost function LastHolder(crypto: Crypto, config: MempoolConfig, pool: TxPool, steps: seq<PoolStep>, sender: Address,
                            nonce: U64): (tx: Transaction)
    requires Occupied(crypto, config, pool, steps, sender, nonce)
    decreases |steps|
  {
    if steps == [] then Holder(pool, sender, nonce)
    else LastHolder(crypto, config, StepPool(crypto, config, pool, steps[0]), steps[1..], sender, nonce)
  }

  /** No holder along the run pays so much that ten times its fee overflows. */
  ghost predicate Modest(crypto: Crypto, config: MempoolConfig, pool: TxPool, steps: seq<PoolStep>, sender: Address,
                         nonce: U64)
    requires Occupied(crypto, config, pool, steps, sender, nonce)
    decreases |steps|
  {
    && Holder(pool, sender, nonce).fee * 10 < U64_END
    && (steps != [] ==> Modest(crypto, config, StepPool(crypto, config, pool, steps[0]), steps[1..], sender, nonce))
  }

  /** One step either keeps the holder or replaces it by one that outbid it. */
  lemma HolderStep(crypto: Crypto, config: MempoolConfig, pool: TxPool, step: PoolStep, sender: Address, nonce: U64,
                   g: Hash, h: Hash)
    requires HeldAt(pool, sender, nonce, g) && HeldAt(StepPool(crypto, config, pool, step), sender, nonce, h)
    ensures g in pool && h in StepPool(crypto, config, pool, step)
    ensures var next := StepPool(crypto, config, pool, step);
      next[h] == pool[g] || (next[h].fee >= MinReplacementFee(pool[g].fee, config.minRbfBumpPercent)
        && next[h].fee >= MIN_TRANSACTION_FEE)
  {
    var next := StepPool(crypto, config, pool, step);
    assert g in InSlot(pool, sender, nonce) && h in InSlot(next, sender, nonce);
    match step
    case RemoveStep(_) =>
      assert h in InSlot(pool, sender, nonce);
    case AddStep(tx, account) =>
      var after := MakeRoom(config, pool - InSlot(pool, tx.sender, tx.nonce), tx);
      AddUnfolds(crypto, config, pool, tx, account);
      MakeRoomKeeps(config, pool, tx);
      hide MakeRoom, Add, HasRoom, MinReplacementFee;
      if h in pool && next[h] == pool[h] {
        assert h in InSlot(pool, sender, nonce);
      } else {
        assert next[h] == tx && tx.sender == sender && tx.nonce == nonce;
      }
  }

  lemma MakeRoomKeeps(config: MempoolConfig, pool: TxPool, tx: Transaction)
    ensures PartOf(MakeRoom(config, pool - InSlot(pool, tx.sender, tx.nonce), tx),
      pool - InSlot(pool, tx.sender, tx.nonce))
  {
    hide *;
    var free := pool - InSlot(pool, tx.sender, tx.nonce);
    MakeRoomDrops(config, free, tx);
    DroppedAreLowest(free, |free| - |MakeRoom(config, free, tx)|);
  }

  /** Replace-by-fee grows geometrically: whatever else happens in the pool, after k changes of
      hands of a slot that is never empty, 11^k times the last fee is at least 12^k times the
      first. */
  lemma {:induction false} ReplacementsGrow(crypto: Crypto, config: MempoolConfig, pool: TxPool, steps: seq<PoolStep>,
      sender: Address, nonce: U64)
    requires config.minRbfBumpPercent == DEFAULT_RBF_PERCENT
    requires Occupied(crypto, config, pool, steps, sender, nonce) && Modest(crypto, config, pool, steps, sender, nonce)
    requires Holder(pool, sender, nonce).fee >= MIN_TRANSACTION_FEE
    ensures var k := Replacements(crypto, config, pool, steps, sender, nonce);
      Power(11, k) * LastHolder(crypto, config, pool, steps, sender, nonce).fee
        >= Power(12, k) * Holder(pool, sender, nonce).fee
    decreases |steps|
  {
    if steps != [] {
      var next := StepPool(crypto, config, pool, steps[0]);
      var g :| HeldAt(pool, sender, nonce, g) && Holder(pool, sender, nonce) == pool[g];
      var h :| HeldAt(next, sender, nonce, h) && Holder(next, sender, nonce) == next[h];
      HolderStep(crypto, config, pool, steps[0], sender, nonce, g, h);
      ReplacementRaises(pool[g].fee);
      hide StepPool, MinReplacementFee, HeldAt;
      ReplacementsGrow(crypto, config, next, steps[1..], sender, nonce);
      var k := Replacements(crypto, config, next, steps[1..], sender, nonce);
      if next[h] != pool[g] {
        GrowthStep(k, pool[g].fee, next[h].fee, LastHolder(crypto, config, next, steps[1..], sender, nonce).fee);
      }
    }
  }

  lemma GrowthStep(k: nat, first: nat, second: nat, last: nat)
    requires 11 * second >= 12 * first && Power(11, k) * last >= Power(12, k) * second
    ensures Power(11, k + 1) * last >= Power(12, k + 1) * first
  {
    var p, q := Power(11, k), Power(12, k);
    calc {
      Power(11, k + 1) * last;
      == { Reassociate(11, p, last); }
      11 * (p * last);
      >=
      11 * (q * second);
      == { Reassociate(11, q, second); Commute(q, 11, second); }
      q * (11 * second);
      >= { OrderedProducts(q, 12 * first, 11 * second); }
      q * (12 * first);
      == { Commute(q, 12, first); Reassociate(12, q, first); }
      Power(12, k + 1) * first;
    }
  }

  lemma Reassociate(a: nat, b: nat, c: nat)
    ensures (a * b) * c == a * (b * c)
  {
  }

  lemma Commute(a: nat, b: nat, c: nat)
    ensures a * (b * c) == b * (a * c)
  {
  }

  lemma OrderedProducts(a: nat, b: nat, c: nat)
    requires b <= c
    ensures a * b <= a * c
  {
  }

  // ---------------------------------------------------------------------------------------------
  // Every answer.

  /** What is left when the newcomer's slot is emptied and everything strictly cheaper dropped. */
  ghost function Dearer(pool: TxPool, tx: Transaction): TxPool {
    var free := pool - InSlot(pool, tx.sender, tx.nonce);
    free - Cheaper(free, tx)
  }

  /** The fee to beat, in plain numbers: that of the slot's holder and the configured percentage of it,
      with the product and the sum cut to 64 bits as u64 cuts them. */
  function FeeToBeat(fee: U64, percent: U32): nat {
    Raised(fee, fee * percent)
  }

  function Raised(fee: nat, hundredfold: int): nat {
    (fee + hundredfold % U64_END / 100) % U64_END
  }

  ghost predicate Outbid(pool: TxPool, tx: Transaction, percent: U32) {
    forall g :: g in pool && pool[g].sender == tx.sender && pool[g].nonce == tx.nonce ==>
      tx.fee >= FeeToBeat(pool[g].fee, percent)
  }

  lemma OutbidIff(pool: TxPool, tx: Transaction, percent: U32)
    ensures Outbid(pool, tx, percent) <==> !Underpaid(pool, tx, percent)
  {
    if Underpaid(pool, tx, percent) {
      var g :| g in InSlot(pool, tx.sender, tx.nonce) && tx.fee < MinReplacementFee(pool[g].fee, percent);
      FeeIs(pool[g].fee, percent);
    } else {
      forall g | g in pool && pool[g].sender == tx.sender && pool[g].nonce == tx.nonce
        ensures tx.fee >= FeeToBeat(pool[g].fee, percent)
      {
        assert g in InSlot(pool, tx.sender, tx.nonce);
        FeeIs(pool[g].fee, percent);
      }
    }
  }

  lemma FeeIs(fee: U64, percent: U32)
    ensures MinReplacementFee(fee, percent) == FeeToBeat(fee, percent)
  {
  }

  /** While nothing is cut, the fee to beat is the old fee and the percentage of it. */
  lemma FeeToBeatFits(fee: U64, percent: U32)
    requires fee * percent < U64_END && fee + fee * percent / 100 < U64_END
    ensures FeeToBeat(fee, percent) == fee + fee * percent / 100
  {
    hide Raised;
    ProductIsNat(fee, percent);
    RaisedFits(fee, fee * percent);
  }

  lemma ProductIsNat(a: nat, b: nat)
    ensures a * b >= 0
  {
  }

  lemma RaisedFits(fee: nat, hundredfold: int)
    requires 0 <= hundredfold < U64_END && fee + hundredfold / 100 < U64_END
    ensures Raised(fee, hundredfold) == fee + hundredfold / 100
  {
    Uncut(hundredfold);
    Uncut(fee + hundredfold / 100);
  }

  lemma Uncut(n: nat)
    requires n < U64_END
    ensures n % U64_END == n
  {
  }

  /** There is room beside these, in numbers. */
  ghost predicate Fits(config: MempoolConfig, pool: TxPool, tx: Transaction) {
    |pool| < config.maxTransactions && BytesOf(pool) + tx.SizeBytes() <= config.maxBytes
  }

  /** Everything `add_transaction` can answer, and exactly when: an invalid transaction, one already
      pooled, one that does not beat the holder of its slot, one that finds no room even with every
      strictly cheaper one dropped; and any other is taken. */
  lemma AddCases(crypto: Crypto, config: MempoolConfig, pool: TxPool, tx: Transaction, account: Account)
    ensures var result := Add(crypto, config, pool, tx, account).result;
      var h, first, second := tx.TxHash(crypto.hash), ValidateStateless(crypto, tx), ValidateStateful(tx, account);
      var valid := first.Pass? && h !in pool && second.Pass?;
      var outbid, fits := Outbid(pool, tx, config.minRbfBumpPercent), Fits(config, Dearer(pool, tx), tx);
      && (first.Fail? ==> result == Err(Invalid(first.error)))
      && (first.Pass? && h in pool ==> result == Err(Duplicate(h)))
      && (first.Pass? && h !in pool && second.Fail? ==> result == Err(Invalid(second.error)))
      && (result == Err(InsufficientRbfBump(config.minRbfBumpPercent)) <==> valid && !outbid)
      && (result == Err(PoolFull) <==> valid && outbid && !fits)
      && (result == Ok(h) <==> valid && outbid && fits)
  {
    hide *;
    var free := pool - InSlot(pool, tx.sender, tx.nonce);
    OutbidIff(pool, tx, config.minRbfBumpPercent);
    RoomIffCheaperSuffice(config, free, tx);
    RoomFor(config, Dearer(pool, tx), tx.SizeBytes());
    AnswerIs(crypto, config, pool, tx, account);
    DearerIs(config, pool, tx);
  }

  lemma DearerIs(config: MempoolConfig, pool: TxPool, tx: Transaction)
    ensures var free := pool - InSlot(pool, tx.sender, tx.nonce); Dearer(pool, tx) == free - Cheaper(free, tx)
    ensures Fits(config, Dearer(pool, tx), tx)
       <==> |Dearer(pool, tx)| < config.maxTransactions && BytesOf(Dearer(pool, tx)) + tx.SizeBytes() <= config.maxBytes
  {
    hide InSlot, Cheaper, BytesOf;
  }

  lemma AnswerIs(crypto: Crypto, config: MempoolConfig, pool: TxPool, tx: Transaction, account: Account)
    ensures var result := Add(crypto, config, pool, tx, account).result;
      var h, first, second := tx.TxHash(crypto.hash), ValidateStateless(crypto, tx), ValidateStateful(tx, account);
      var after := MakeRoom(config, pool - InSlot(pool, tx.sender, tx.nonce), tx);
      result
        == if first.Fail? then Err(Invalid(first.error))
           else if h in pool then Err(Duplicate(h))
           else if second.Fail? then Err(Invalid(second.error))
           else if Underpaid(pool, tx, config.minRbfBumpPercent) then Err(InsufficientRbfBump(config.minRbfBumpPercent))
           else if HasRoom(config, after, tx.SizeBytes()) then Ok(h)
           else Err(PoolFull)
  {
    hide MakeRoom, HasRoom, InSlot, Underpaid, ValidateStateless, ValidateStateful, Transaction.TxHash;
  }

  /** Replace-by-fee, in plain numbers: against the holder of its slot, with nothing cut to 64 bits, a
      valid newcomer is refused for its fee if and only if that is below the holder's plus the
      percentage of it; at just that fee or above the holder is gone. */
  lemma ReplacementIff(crypto: Crypto, config: MempoolConfig, pool: TxPool, tx: Transaction, account: Account, g: Hash)
    requires PoolInv(crypto, config, pool) && g in pool && pool[g].sender == tx.sender && pool[g].nonce == tx.nonce
    requires ValidateStateless(crypto, tx).Pass? && tx.TxHash(crypto.hash) !in pool
    requires ValidateStateful(tx, account).Pass?
    requires pool[g].fee * config.minRbfBumpPercent < U64_END
    requires pool[g].fee + pool[g].fee * config.minRbfBumpPercent / 100 < U64_END
    ensures var run, held := Add(crypto, config, pool, tx, account), pool[g].fee;
      && (run.result == Err(InsufficientRbfBump(config.minRbfBumpPercent)) <==>
            tx.fee < held + held * config.minRbfBumpPercent / 100)
      && (tx.fee >= held + held * config.minRbfBumpPercent / 100 ==>
            g !in run.pool && (run.result == Ok(tx.TxHash(crypto.hash)) || run.result == Err(PoolFull)))
  {
    hide *;
    var run := Add(crypto, config, pool, tx, account);
    var free := pool - InSlot(pool, tx.sender, tx.nonce);
    AddCases(crypto, config, pool, tx, account);
    FeeToBeatFits(pool[g].fee, config.minRbfBumpPercent);
    OnlyHolder(crypto, config, pool, tx, g);
    AddUnfolds(crypto, config, pool, tx, account);
    MakeRoomDrops(config, free, tx);
    DroppedAreLowest(free, |free| - |MakeRoom(config, free, tx)|);
    PartMisses(MakeRoom(config, free, tx), free, g);
  }

  lemma OnlyHolder(crypto: Crypto, config: MempoolConfig, pool: TxPool, tx: Transaction, g: Hash)
    requires PoolInv(crypto, config, pool) && g in pool && pool[g].sender == tx.sender && pool[g].nonce == tx.nonce
    ensures Outbid(pool, tx, config.minRbfBumpPercent) <==> tx.fee >= FeeToBeat(pool[g].fee, config.minRbfBumpPercent)
    ensures g in InSlot(pool, tx.sender, tx.nonce)
  {
    hide FeeToBeat, Keyed, Admitted, BytesOf;
  }
}
