/** The mempool object: three indexes and a byte counter over one set of transactions. */
module Mempool {
  import opened Bytes
  import opened Crypto
  import opened Orders
  import opened Sums
  import opened Transactions
  import opened Validation
  import opened Pool
  import opened Harvest
  import opened PoolTheorems
  import opened State

  type NonceIndex = map<U64, Transaction>
  type SenderIndex = map<Address, NonceIndex>

  /** The per-sender index files exactly the pool's transactions, under sender and nonce. */
  ghost predicate IndexedBySender(hash: Hasher, pool: TxPool, bySender: SenderIndex) {
    && (forall s, n :: s in bySender && n in bySender[s] ==> FiledFrom(hash, pool, s, n, bySender[s][n]))
    && (forall h :: h in pool ==> FiledUnder(bySender, pool[h]))
  }

  ghost predicate FiledFrom(hash: Hasher, pool: TxPool, s: Address, n: U64, tx: Transaction) {
    tx.sender == s && tx.nonce == n && tx.TxHash(hash) in pool && pool[tx.TxHash(hash)] == tx
  }

  ghost predicate FiledUnder(bySender: SenderIndex, tx: Transaction) {
    tx.sender in bySender && tx.nonce in bySender[tx.sender] && bySender[tx.sender][tx.nonce] == tx
  }

  function Unfiled(bySender: SenderIndex, tx: Transaction): SenderIndex {
    if tx.sender in bySender then bySender[tx.sender := bySender[tx.sender] - {tx.nonce}] else bySender
  }

  function Entered(bySender: SenderIndex, sender: Address): SenderIndex {
    if sender in bySender then bySender else bySender[sender := map[]]
  }

  function Filed(bySender: SenderIndex, tx: Transaction): SenderIndex {
    var nonces: NonceIndex := Entered(bySender, tx.sender)[tx.sender];
    Entered(bySender, tx.sender)[tx.sender := nonces[tx.nonce := tx]]
  }

  /** The index holds at most one transaction per sender and nonce, so the pool does too. */
  lemma IndexedOnePerSlot(hash: Hasher, pool: TxPool, bySender: SenderIndex)
    requires Keyed(hash, pool) && IndexedBySender(hash, pool, bySender)
    ensures OnePerSlot(pool)
  {
    forall g, h | g in pool && h in pool && pool[g].sender == pool[h].sender && pool[g].nonce == pool[h].nonce
      ensures g == h
    {
      assert FiledUnder(bySender, pool[g]) && FiledUnder(bySender, pool[h]);
    }
  }

  lemma UnfiledKeepsIndex(hash: Hasher, pool: TxPool, bySender: SenderIndex, h: Hash)
    requires Keyed(hash, pool) && IndexedBySender(hash, pool, bySender) && h in pool
    ensures IndexedBySender(hash, pool - {h}, Unfiled(bySender, pool[h]))
  {
    hide Transaction.TxHash, Keyed, OnePerSlot, Unfiled;
    IndexedOnePerSlot(hash, pool, bySender);
    var tx, after, rest := pool[h], Unfiled(bySender, pool[h]), pool - {h};
    KeyedHash(hash, pool, h);
    UnfiledReads(bySender, tx);
    forall s, n | s in after && n in after[s] ensures FiledFrom(hash, rest, s, n, after[s][n]) {
      assert FiledFrom(hash, pool, s, n, bySender[s][n]);
    }
    forall g | g in rest ensures FiledUnder(after, rest[g]) {
      assert FiledUnder(bySender, pool[g]);
      SlotsApart(pool, g, h);
    }
  }

  lemma KeyedHash(hash: Hasher, pool: TxPool, h: Hash)
    requires Keyed(hash, pool) && h in pool
    ensures pool[h].TxHash(hash) == h
  {
    hide Transaction.TxHash;
  }

  lemma UnfiledReads(bySender: SenderIndex, tx: Transaction)
    requires FiledUnder(bySender, tx)
    ensures var after := Unfiled(bySender, tx);
      && (forall s, n :: s in after && n in after[s] ==>
           s in bySender && n in bySender[s] && after[s][n] == bySender[s][n] && (s != tx.sender || n != tx.nonce))
      && (forall s, n :: s in bySender && n in bySender[s] && (s != tx.sender || n != tx.nonce) ==>
           s in after && n in after[s] && after[s][n] == bySender[s][n])
  {
  }

  lemma SlotsApart(pool: TxPool, g: Hash, h: Hash)
    requires OnePerSlot(pool) && g in pool && h in pool && g != h
    ensures pool[g].sender != pool[h].sender || pool[g].nonce != pool[h].nonce
  {
  }

  lemma EnteredKeepsIndex(hash: Hasher, pool: TxPool, bySender: SenderIndex, sender: Address)
    requires IndexedBySender(hash, pool, bySender)
    ensures IndexedBySender(hash, pool, Entered(bySender, sender))
  {
    var after := Entered(bySender, sender);
    forall s, n | s in after && n in after[s] ensures FiledFrom(hash, pool, s, n, after[s][n]) {
      assert s in bySender && n in bySender[s];
    }
    forall g | g in pool ensures FiledUnder(after, pool[g]) {
      assert FiledUnder(bySender, pool[g]);
    }
  }

  lemma FiledKeepsIndex(hash: Hasher, pool: TxPool, bySender: SenderIndex, tx: Transaction)
    requires IndexedBySender(hash, pool, bySender) && tx.TxHash(hash) !in pool
    requires InSlot(pool, tx.sender, tx.nonce) == {}
    ensures IndexedBySender(hash, pool[tx.TxHash(hash) := tx], Filed(bySender, tx))
  {
    hide Transaction.TxHash, Filed;
    var after, more := Filed(bySender, tx), pool[tx.TxHash(hash) := tx];
    FiledReads(bySender, tx);
    hide FiledFrom, FiledUnder, InSlot;
    forall s, n | s in after && n in after[s] ensures FiledFrom(hash, more, s, n, after[s][n]) {
      FiledFromPool(hash, pool, bySender, tx, s, n);
    }
    forall g | g in more ensures FiledUnder(after, more[g]) {
      if g != tx.TxHash(hash) {
        StaysFiled(hash, pool, bySender, tx, g);
      }
    }
  }

  lemma FiledFromPool(hash: Hasher, pool: TxPool, bySender: SenderIndex, tx: Transaction, s: Address, n: U64)
    requires IndexedBySender(hash, pool, bySender) && tx.TxHash(hash) !in pool
    requires s in Filed(bySender, tx) && n in Filed(bySender, tx)[s]
    ensures FiledFrom(hash, pool[tx.TxHash(hash) := tx], s, n, Filed(bySender, tx)[s][n])
  {
    hide Transaction.TxHash, Filed, InSlot;
    FiledReads(bySender, tx);
    assert (s == tx.sender && n == tx.nonce) || FiledFrom(hash, pool, s, n, bySender[s][n]);
  }

  lemma StaysFiled(hash: Hasher, pool: TxPool, bySender: SenderIndex, tx: Transaction, g: Hash)
    requires IndexedBySender(hash, pool, bySender) && g in pool && InSlot(pool, tx.sender, tx.nonce) == {}
    ensures FiledUnder(Filed(bySender, tx), pool[g])
  {
    hide Transaction.TxHash, Filed, FiledFrom;
    FiledReads(bySender, tx);
    assert FiledUnder(bySender, pool[g]);
    assert g !in InSlot(pool, tx.sender, tx.nonce);
  }

  lemma FiledReads(bySender: SenderIndex, tx: Transaction)
    ensures var after := Filed(bySender, tx);
      && FiledUnder(after, tx)
      && (forall s, n :: s in after && n in after[s] && (s != tx.sender || n != tx.nonce) ==>
           s in bySender && n in bySender[s] && after[s][n] == bySender[s][n])
      && (forall s, n :: s in bySender && n in bySender[s] && (s != tx.sender || n != tx.nonce) ==>
           s in after && n in after[s] && after[s][n] == bySender[s][n])
  {
  }

  /** What the slot lookup finds. */
  lemma SlotHolder(hash: Hasher, pool: TxPool, bySender: SenderIndex, sender: Address, nonce: U64)
    requires Keyed(hash, pool) && IndexedBySender(hash, pool, bySender)
    ensures InSlot(pool, sender, nonce)
         == if sender in bySender && nonce in bySender[sender] then {bySender[sender][nonce].TxHash(hash)} else {}
  {
    IndexedOnePerSlot(hash, pool, bySender);
    forall h | h in InSlot(pool, sender, nonce)
      ensures sender in bySender && nonce in bySender[sender] && h == bySender[sender][nonce].TxHash(hash)
    {
      assert FiledUnder(bySender, pool[h]);
    }
    if sender in bySender && nonce in bySender[sender] {
      assert FiledFrom(hash, pool, sender, nonce, bySender[sender][nonce]);
    }
  }

  /** The three indexes describe the same transactions, and the counter is their exact size. */
  ghost predicate Agree(hash: Hasher, pool: TxPool, bySender: SenderIndex, priorityIndex: set<PriorityKey>,
                        totalBytes: nat) {
    && Keyed(hash, pool)
    && IndexedBySender(hash, pool, bySender)
    && priorityIndex == KeysOf(pool)
    && totalBytes == BytesOf(pool)
  }

  /** Taking a transaction out of all four; the subtraction does not saturate. */
  lemma AgreeWithout(hash: Hasher, pool: TxPool, bySender: SenderIndex, priorityIndex: set<PriorityKey>,
                     totalBytes: nat, h: Hash)
    requires Agree(hash, pool, bySender, priorityIndex, totalBytes) && h in pool
    ensures pool[h].SizeBytes() <= totalBytes
    ensures var tx := pool[h];
      Agree(hash, pool - {h},
        if tx.sender in bySender then bySender[tx.sender := bySender[tx.sender] - {tx.nonce}] else bySender,
        priorityIndex - {PriorityKey(tx.FeePerByte(), tx.nonce, h)},
        SaturatingSub(totalBytes, tx.SizeBytes()))
  {
    UnfiledKeepsIndex(hash, pool, bySender, h);
    KeysWithout(pool, h);
    BytesWithout(pool, h);
    hide IndexedBySender, KeysOf, BytesOf, Transaction.FeePerByte, Transaction.SizeBytes, Transaction.TxHash;
  }

  lemma AgreeEntered(hash: Hasher, pool: TxPool, bySender: SenderIndex, priorityIndex: set<PriorityKey>,
                     totalBytes: nat, sender: Address)
    requires Agree(hash, pool, bySender, priorityIndex, totalBytes)
    ensures Agree(hash, pool,
      if sender in bySender then bySender else bySender[sender := map[]], priorityIndex, totalBytes)
  {
    EnteredKeepsIndex(hash, pool, bySender, sender);
    hide IndexedBySender, KeysOf, BytesOf, Transaction.TxHash;
  }

  lemma AgreeWith(hash: Hasher, pool: TxPool, bySender: SenderIndex, priorityIndex: set<PriorityKey>, totalBytes: nat,
                  tx: Transaction)
    requires Agree(hash, pool, bySender, priorityIndex, totalBytes)
    requires tx.TxHash(hash) !in pool && InSlot(pool, tx.sender, tx.nonce) == {}
    ensures var entered: SenderIndex := if tx.sender in bySender then bySender else bySender[tx.sender := map[]];
      var nonces: NonceIndex := entered[tx.sender];
      Agree(hash, pool[tx.TxHash(hash) := tx], entered[tx.sender := nonces[tx.nonce := tx]],
        priorityIndex + {PriorityKey(tx.FeePerByte(), tx.nonce, tx.TxHash(hash))},
        totalBytes + tx.SizeBytes())
  {
    hide *;
    var h := tx.TxHash(hash);
    AgreeParts(hash, pool, bySender, priorityIndex, totalBytes);
    FiledKeepsIndex(hash, pool, bySender, tx);
    KeysWith(pool, h, tx);
    BytesWith(pool, h, tx);
    InsertShapes(hash, pool, bySender, tx);
    AgreeParts(hash, pool[h := tx], Filed(bySender, tx), priorityIndex + {KeyOf(h, tx)}, totalBytes + tx.SizeBytes());
  }

  lemma AgreeParts(hash: Hasher, pool: TxPool, bySender: SenderIndex, priorityIndex: set<PriorityKey>, totalBytes: nat)
    ensures Agree(hash, pool, bySender, priorityIndex, totalBytes)
       <==> (&& Keyed(hash, pool) && IndexedBySender(hash, pool, bySender)
             && priorityIndex == KeysOf(pool) && totalBytes == BytesOf(pool))
  {
    hide Keyed, IndexedBySender, KeysOf, BytesOf;
  }

  lemma InsertShapes(hash: Hasher, pool: TxPool, bySender: SenderIndex, tx: Transaction)
    ensures Keyed(hash, pool) ==> Keyed(hash, pool[tx.TxHash(hash) := tx])
    ensures KeyOf(tx.TxHash(hash), tx) == PriorityKey(tx.FeePerByte(), tx.nonce, tx.TxHash(hash))
    ensures var entered: SenderIndex := if tx.sender in bySender then bySender else bySender[tx.sender := map[]];
      var nonces: NonceIndex := entered[tx.sender];
      Filed(bySender, tx) == entered[tx.sender := nonces[tx.nonce := tx]]
  {
    hide Transaction.FeePerByte, Transaction.TxHash;
  }

  lemma AgreeSlot(hash: Hasher, pool: TxPool, bySender: SenderIndex, priorityIndex: set<PriorityKey>, totalBytes: nat,
                  sender: Address, nonce: U64)
    requires Agree(hash, pool, bySender, priorityIndex, totalBytes)
    ensures InSlot(pool, sender, nonce)
         == if sender in bySender && nonce in bySender[sender] then {bySender[sender][nonce].TxHash(hash)} else {}
    ensures sender in bySender && nonce in bySender[sender] ==>
      FiledFrom(hash, pool, sender, nonce, bySender[sender][nonce])
  {
    SlotHolder(hash, pool, bySender, sender, nonce);
    hide KeysOf, BytesOf, InSlot, FiledFrom;
  }

  lemma AgreeCounts(hash: Hasher, pool: TxPool, bySender: SenderIndex, priorityIndex: set<PriorityKey>, totalBytes: nat)
    requires Agree(hash, pool, bySender, priorityIndex, totalBytes)
    ensures priorityIndex == KeysOf(pool) && |priorityIndex| == |pool| && totalBytes == BytesOf(pool)
  {
    hide IndexedBySender, KeysOf, BytesOf;
    KeysCount(pool);
  }

  lemma HarvestStarts(hash: Hasher, pool: TxPool, bySender: SenderIndex, priorityIndex: set<PriorityKey>,
                      totalBytes: nat, maxBytes: nat)
    requires Agree(hash, pool, bySender, priorityIndex, totalBytes)
    ensures Harvested(pool, maxBytes) == [] + Greedy(pool, HashesOf(Descending(priorityIndex)), maxBytes)
  {
    hide IndexedBySender, KeysOf, BytesOf, Greedy, HashesOf, Descending;
  }

  /** The next key of a walk backwards through the index. */
  method Highest(keys: set<PriorityKey>) returns (key: PriorityKey)
    requires keys != {}
    ensures key in keys && IsLeast(KeyGeq, key, keys)
  {
    hide KeyGeq;
    HighestExists(keys);
    key :| key in keys && forall other :: other in keys ==> KeyGeq(key, other);
  }

  class Mempool {
    const crypto: Crypto
    const config: MempoolConfig
    var byHash: TxPool
    var bySender: SenderIndex
    var priorityIndex: set<PriorityKey>
    var totalBytes: nat

    ghost predicate Indexed()
      reads this
    {
      Agree(crypto.hash, byHash, bySender, priorityIndex, totalBytes)
    }

    lemma IndexedAgrees()
      ensures Indexed() <==> Agree(crypto.hash, byHash, bySender, priorityIndex, totalBytes)
    {
      hide Agree;
    }

    ghost predicate Valid()
      reads this
    {
      Indexed() && |byHash| <= config.maxTransactions && totalBytes <= config.maxBytes
    }

    constructor (crypto: Crypto, config: MempoolConfig)
      ensures Valid() && byHash == map[] && this.crypto == crypto && this.config == config
    {
      this.crypto := crypto;
      this.config := config;
      byHash, bySender, priorityIndex, totalBytes := map[], map[], {}, 0;
    }

    /** Evict a transaction by hash. */
    method EvictTransaction(txHash: Hash) returns (evicted: Option<Transaction>)
      requires Indexed()
      modifies this
      ensures Indexed() && byHash == old(byHash) - {txHash}
      ensures evicted == if txHash in old(byHash) then Some(old(byHash)[txHash]) else None
    {
      hide *;
      if txHash !in byHash {
        return None;
      }
      var tx := byHash[txHash];
      IndexedAgrees();
      AgreeWithout(crypto.hash, byHash, bySender, priorityIndex, totalBytes, txHash);
      byHash := byHash - {txHash};
      priorityIndex := priorityIndex - {PriorityKey(tx.FeePerByte(), tx.nonce, txHash)};
      if tx.sender in bySender {
        bySender := bySender[tx.sender := bySender[tx.sender] - {tx.nonce}];
      }
      totalBytes := SaturatingSub(totalBytes, tx.SizeBytes());
      IndexedAgrees();
      evicted := Some(tx);
    }

    /** The replace-by-fee block: false if the fee is too low, else the slot is emptied. */
    method FreeSlot(tx: Transaction) returns (ok: bool)
      requires Indexed()
      modifies this
      ensures Indexed()
      ensures ok == !Underpaid(old(byHash), tx, config.minRbfBumpPercent)
      ensures byHash == if ok then old(byHash) - InSlot(old(byHash), tx.sender, tx.nonce) else old(byHash)
    {
      hide Agree, Transaction.FeePerByte, Transaction.SizeBytes, Transaction.TxHash, SaturatingSub, InSlot, WrapAdd;
      hide WrapMul;
      AgreeEntered(crypto.hash, byHash, bySender, priorityIndex, totalBytes, tx.sender);
      if tx.sender !in bySender {
        bySender := bySender[tx.sender := map[]];
      }
      AgreeSlot(crypto.hash, byHash, bySender, priorityIndex, totalBytes, tx.sender, tx.nonce);
      if tx.nonce !in bySender[tx.sender] {
        return true;
      }
      var existing := bySender[tx.sender][tx.nonce];
      var minRequiredFee := WrapAdd(existing.fee, WrapMul(existing.fee, config.minRbfBumpPercent) / 100);
      if tx.fee < minRequiredFee {
        return false;
      }
      var oldHash := existing.TxHash(crypto.hash);
      AgreeWithout(crypto.hash, byHash, bySender, priorityIndex, totalBytes, oldHash);
      byHash := byHash - {oldHash};
      priorityIndex := priorityIndex - {PriorityKey(existing.FeePerByte(), existing.nonce, oldHash)};
      totalBytes := SaturatingSub(totalBytes, existing.SizeBytes());
      bySender := bySender[tx.sender := bySender[tx.sender] - {tx.nonce}];
      ok := true;
    }

    /** The capacity loop. */
    method MakeRoomFor(tx: Transaction) returns (ok: bool)
      requires Indexed()
      modifies this
      ensures Indexed() && byHash == MakeRoom(config, old(byHash), tx)
      ensures ok == HasRoom(config, byHash, tx.SizeBytes())
    {
      KeyLeqIsTotalOrder();
      hide Agree, KeyLeq, KeysOf, BytesOf, Transaction.FeePerByte, Transaction.SizeBytes, TotalOrder;
      AgreeCounts(crypto.hash, byHash, bySender, priorityIndex, totalBytes);
      while |byHash| >= config.maxTransactions || totalBytes + tx.SizeBytes() > config.maxBytes
        invariant Indexed() && totalBytes == BytesOf(byHash)
        invariant MakeRoom(config, byHash, tx) == MakeRoom(config, old(byHash), tx)
        decreases |byHash|
      {
        AgreeCounts(crypto.hash, byHash, bySender, priorityIndex, totalBytes);
        if priorityIndex == {} {
          return false;
        }
        LeastExists(KeyLeq, priorityIndex);
        var key :| key in priorityIndex && forall other :: other in priorityIndex ==> KeyLeq(key, other);
        MakeRoomStep(config, byHash, tx, key);
        if key.feePerByte >= tx.FeePerByte() {
          return false;
        }
        var _ := EvictTransaction(key.txHash);
        AgreeCounts(crypto.hash, byHash, bySender, priorityIndex, totalBytes);
      }
      ok := true;
    }

    method Insert(txHash: Hash, tx: Transaction)
      requires Indexed() && txHash == tx.TxHash(crypto.hash) && txHash !in byHash
      requires InSlot(byHash, tx.sender, tx.nonce) == {}
      modifies this
      ensures Indexed() && byHash == old(byHash)[txHash := tx]
    {
      hide *;
      IndexedAgrees();
      AgreeWith(crypto.hash, byHash, bySender, priorityIndex, totalBytes, tx);
      byHash := byHash[txHash := tx];
      if tx.sender !in bySender {
        bySender := bySender[tx.sender := map[]];
      }
      var nonces: NonceIndex := bySender[tx.sender];
      bySender := bySender[tx.sender := nonces[tx.nonce := tx]];
      priorityIndex := priorityIndex + {PriorityKey(tx.FeePerByte(), tx.nonce, txHash)};
      totalBytes := totalBytes + tx.SizeBytes();
      IndexedAgrees();
    }

    /** Every return, good or bad, leaves the indexes in agreement and within both limits. */
    method AddTransaction(tx: Transaction, stateDb: StateDB) returns (result: Result<Hash, MempoolError>)
      requires Valid()
      modifies this
      ensures Valid()
      ensures AddRun(byHash, result) == Add(crypto, config, old(byHash), tx, stateDb.GetAccount(tx.sender))
    {
      hide Agree, Transaction.FeePerByte, Transaction.SizeBytes, Transaction.TxHash, MakeRoom, InSlot, BytesOf;
      hide ValidateStateless, ValidateStateful;
      AgreeCounts(crypto.hash, byHash, bySender, priorityIndex, totalBytes);
      var stateless := ValidateStateless(crypto, tx);
      if stateless.Fail? {
        return Err(Invalid(stateless.error));
      }
      var txHash := tx.TxHash(crypto.hash);
      if txHash in byHash {
        return Err(Duplicate(txHash));
      }
      var account := stateDb.GetAccount(tx.sender);
      var stateful := ValidateStateful(tx, account);
      if stateful.Fail? {
        return Err(Invalid(stateful.error));
      }
      var free := FreeSlot(tx);
      AgreeCounts(crypto.hash, byHash, bySender, priorityIndex, totalBytes);
      if !free {
        return Err(InsufficientRbfBump(config.minRbfBumpPercent));
      }
      ghost var freed := byHash;
      FreedShrinks(old(byHash), InSlot(old(byHash), tx.sender, tx.nonce));
      MakeRoomShrinks(config, freed, tx);
      FreedSlot(old(byHash), tx.sender, tx.nonce);
      var room := MakeRoomFor(tx);
      AgreeCounts(crypto.hash, byHash, bySender, priorityIndex, totalBytes);
      if !room {
        return Err(PoolFull);
      }
      SlotStaysFree(freed, byHash, tx.sender, tx.nonce);
      BytesWith(byHash, txHash, tx);
      Insert(txHash, tx);
      AgreeCounts(crypto.hash, byHash, bySender, priorityIndex, totalBytes);
      result := Ok(txHash);
    }

    /** Walk the index from the highest key down, taking what still fits. */
    method Harvest(maxBytes: nat) returns (harvested: seq<Transaction>)
      requires Indexed()
      ensures harvested == Harvested(byHash, maxBytes)
    {
      hide *;
      IndexedAgrees();
      HarvestStarts(crypto.hash, byHash, bySender, priorityIndex, totalBytes, maxBytes);
      harvested := [];
      var currentBytes := 0;
      var remaining := priorityIndex;
      while remaining != {}
        invariant currentBytes <= maxBytes
        invariant Harvested(byHash, maxBytes)
             == harvested + Greedy(byHash, HashesOf(Descending(remaining)), maxBytes - currentBytes)
        decreases |remaining|
      {
        var key := Highest(remaining);
        GreedyStep(byHash, remaining, key, maxBytes - currentBytes);
        if key.txHash in byHash {
          var tx := byHash[key.txHash];
          if currentBytes + tx.SizeBytes() <= maxBytes {
            ConcatAssociative(harvested, [tx],
              Greedy(byHash, HashesOf(Descending(remaining - {key})), maxBytes - currentBytes - tx.SizeBytes()));
            harvested := harvested + [tx];
            currentBytes := currentBytes + tx.SizeBytes();
          }
        }
        remaining := remaining - {key};
      }
      GreedyEnds(byHash, maxBytes - currentBytes);
    }

    /** Drop what a block committed. */
    method RemoveCommitted(txs: seq<Transaction>)
      requires Valid()
      modifies this
      ensures Valid() && byHash == Remaining(crypto.hash, old(byHash), txs)
    {
      hide Agree, BytesOf, Transaction.TxHash;
      for i := 0 to |txs|
        invariant Valid() && byHash == Remaining(crypto.hash, old(byHash), txs[..i])
      {
        assert txs[..i + 1][..i] == txs[..i];
        AgreeCounts(crypto.hash, byHash, bySender, priorityIndex, totalBytes);
        FreedShrinks(byHash, {txs[i].TxHash(crypto.hash)});
        var _ := EvictTransaction(txs[i].TxHash(crypto.hash));
        AgreeCounts(crypto.hash, byHash, bySender, priorityIndex, totalBytes);
      }
      assert txs[..|txs|] == txs;
    }
  }

  // ---------------------------------------------------------------------------------------------
  // Shrinking.

  lemma FreedShrinks(pool: TxPool, gone: set<Hash>)
    ensures |pool - gone| <= |pool| && BytesOf(pool - gone) <= BytesOf(pool)
  {
    var after := pool - gone;
    assert after.Keys == pool.Keys - gone;
    SumMonotone(pool.Keys, after.Keys, SizeIn(pool));
    SumCongruent(after.Keys, SizeIn(pool), SizeIn(after));
  }

  lemma {:induction false} MakeRoomShrinks(config: MempoolConfig, pool: TxPool, tx: Transaction)
    ensures var after := MakeRoom(config, pool, tx);
      && |after| <= |pool| && BytesOf(after) <= BytesOf(pool)
      && forall h :: h in after ==> h in pool && after[h] == pool[h]
    decreases |pool|
  {
    hide *;
    MakeRoomUnfolds(config, pool, tx);
    if !HasRoom(config, pool, tx.SizeBytes()) && pool != map[] {
      var h := LowestKey(pool).txHash;
      BytesWithout(pool, h);
      if pool[h].FeePerByte() < tx.FeePerByte() {
        MakeRoomShrinks(config, pool - {h}, tx);
      }
    }
  }

  lemma FreedSlot(pool: TxPool, sender: Address, nonce: U64)
    ensures InSlot(pool - InSlot(pool, sender, nonce), sender, nonce) == {}
  {
  }

  lemma SlotStaysFree(pool: TxPool, after: TxPool, sender: Address, nonce: U64)
    requires InSlot(pool, sender, nonce) == {} && forall h :: h in after ==> h in pool && after[h] == pool[h]
    ensures InSlot(after, sender, nonce) == {}
  {
    forall h | h in after ensures h !in InSlot(after, sender, nonce) {
      assert h !in InSlot(pool, sender, nonce);
    }
  }

  /** The pool without the transactions that have the hashes of these. */
  function Remaining(hash: Hasher, pool: TxPool, txs: seq<Transaction>): TxPool {
    if txs == [] then pool else Remaining(hash, pool, txs[..|txs| - 1]) - {txs[|txs| - 1].TxHash(hash)}
  }

  /** What stays after a block: exactly the transactions under whose hash none was committed, each as it was. */
  lemma {:induction false} RemainingIff(hash: Hasher, pool: TxPool, txs: seq<Transaction>, h: Hash)
    ensures var after := Remaining(hash, pool, txs);
      && (h in after <==> h in pool && forall i :: 0 <= i < |txs| ==> txs[i].TxHash(hash) != h)
      && (h in after ==> after[h] == pool[h])
  {
    hide Transaction.TxHash;
    if txs != [] {
      RemainingIff(hash, pool, txs[..|txs| - 1], h);
    }
  }

  lemma MakeRoomStep(config: MempoolConfig, pool: TxPool, tx: Transaction, key: PriorityKey)
    requires !HasRoom(config, pool, tx.SizeBytes()) && IsLeast(KeyLeq, key, KeysOf(pool))
    ensures key.txHash in pool && |pool - {key.txHash}| < |pool|
    ensures MakeRoom(config, pool, tx)
         == if key.feePerByte >= tx.FeePerByte() then pool else MakeRoom(config, pool - {key.txHash}, tx)
  {
    KeyLeqIsTotalOrder();
    KeysMember(pool);
    hide KeyLeq, HasRoom, KeysOf;
    assert key == LowestKey(pool);
    CountWithout(pool, key.txHash);
  }
}
