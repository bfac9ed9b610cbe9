/** The greedy harvest: what it takes, and how far it can be from the best choice. */
module Harvest {
  import opened Bytes
  import opened Orders
  import opened Sums
  import opened Transactions
  import opened Pool

  predicate KeyGeq(a: PriorityKey, b: PriorityKey) {
    KeyLeq(b, a)
  }

  lemma KeyGeqIsTotalOrder()
    ensures TotalOrder(KeyGeq)
  {
    KeyLeqIsTotalOrder();
    hide KeyLeq;
  }

  /** The keys from the highest priority down, as the index is walked backwards. */
  ghost function Descending(keys: set<PriorityKey>): seq<PriorityKey> {
    KeyGeqIsTotalOrder();
    Ascending(KeyGeq, keys)
  }

  function HashesOf(keys: seq<PriorityKey>): (hashes: seq<Hash>)
    ensures |hashes| == |keys|
    ensures forall i :: 0 <= i < |keys| ==> hashes[i] == keys[i].txHash
  {
    if keys == [] then [] else [keys[0].txHash] + HashesOf(keys[1..])
  }

  ghost function Ranked(pool: TxPool): seq<Hash> {
    HashesOf(Descending(KeysOf(pool)))
  }

  /** Take each transaction that still fits. */
  function Greedy(pool: TxPool, hashes: seq<Hash>, space: nat): seq<Transaction> {
    if hashes == [] then []
    else if hashes[0] !in pool then Greedy(pool, hashes[1..], space)
    else
      var tx := pool[hashes[0]];
      if tx.SizeBytes() <= space then [tx] + Greedy(pool, hashes[1..], space - tx.SizeBytes())
      else Greedy(pool, hashes[1..], space)
  }

  /** `harvest`. */
  ghost function Harvested(pool: TxPool, maxBytes: nat): seq<Transaction> {
    Greedy(pool, Ranked(pool), maxBytes)
  }

  function FirstSkipped(pool: TxPool, hashes: seq<Hash>, space: nat): Option<Transaction> {
    if hashes == [] then None
    else if hashes[0] !in pool then FirstSkipped(pool, hashes[1..], space)
    else
      var tx := pool[hashes[0]];
      if tx.SizeBytes() <= space then FirstSkipped(pool, hashes[1..], space - tx.SizeBytes()) else Some(tx)
  }

  /** The walk meets the highest key next. */
  lemma GreedyStep(pool: TxPool, keys: set<PriorityKey>, key: PriorityKey, space: nat)
    requires IsLeast(KeyGeq, key, keys)
    ensures Greedy(pool, HashesOf(Descending(keys)), space)
         == var rest := HashesOf(Descending(keys - {key}));
            if key.txHash !in pool then Greedy(pool, rest, space)
            else if pool[key.txHash].SizeBytes() <= space
            then [pool[key.txHash]] + Greedy(pool, rest, space - pool[key.txHash].SizeBytes())
            else Greedy(pool, rest, space)
  {
    hide *;
    var rest := Descending(keys - {key});
    DescendingStep(keys, key);
    HashesStep(key, rest);
    GreedyHead(pool, key.txHash, HashesOf(rest), space);
  }

  lemma DescendingStep(keys: set<PriorityKey>, key: PriorityKey)
    requires IsLeast(KeyGeq, key, keys)
    ensures Descending(keys) == [key] + Descending(keys - {key})
  {
    KeyGeqIsTotalOrder();
    hide TotalOrder, KeyGeq, Ascending, IsLeast;
    AscendingStep(KeyGeq, keys, key);
  }

  lemma HashesStep(key: PriorityKey, rest: seq<PriorityKey>)
    ensures HashesOf([key] + rest) == [key.txHash] + HashesOf(rest)
  {
    assert ([key] + rest)[1..] == rest;
  }

  lemma GreedyHead(pool: TxPool, h: Hash, rest: seq<Hash>, space: nat)
    ensures Greedy(pool, [h] + rest, space)
         == if h !in pool then Greedy(pool, rest, space)
            else if pool[h].SizeBytes() <= space then [pool[h]] + Greedy(pool, rest, space - pool[h].SizeBytes())
            else Greedy(pool, rest, space)
  {
    hide Transaction.SizeBytes;
    assert ([h] + rest)[1..] == rest;
  }

  lemma HighestExists(keys: set<PriorityKey>)
    requires keys != {}
    ensures exists key :: key in keys && forall other :: other in keys ==> KeyGeq(key, other)
  {
    KeyGeqIsTotalOrder();
    hide TotalOrder, KeyGeq;
    LeastExists(KeyGeq, keys);
    var key :| IsLeast(KeyGeq, key, keys);
  }

  lemma GreedyEnds(pool: TxPool, space: nat)
    ensures Greedy(pool, HashesOf(Descending({})), space) == []
  {
    KeyGeqIsTotalOrder();
  }

  // ---------------------------------------------------------------------------------------------
  // Values.

  /** The fee a transaction pays for by density: its fee rounded down to whole units per byte. */
  function Value(tx: Transaction): nat {
    tx.FeePerByte() * tx.SizeBytes()
  }

  function TotalValue(txs: seq<Transaction>): nat {
    if txs == [] then 0 else Value(txs[0]) + TotalValue(txs[1..])
  }

  function TotalFees(txs: seq<Transaction>): nat {
    if txs == [] then 0 else txs[0].fee + TotalFees(txs[1..])
  }

  function TotalSize(txs: seq<Transaction>): nat {
    if txs == [] then 0 else txs[0].SizeBytes() + TotalSize(txs[1..])
  }

  function ValueIn(pool: TxPool): Hash -> int {
    (h: Hash) => if h in pool then Value(pool[h]) else 0
  }

  function FeeIn(pool: TxPool): Hash -> int {
    (h: Hash) => if h in pool then pool[h].fee else 0
  }

  lemma DivisionBounds(a: nat, b: nat)
    requires b > 0
    ensures a / b * b <= a < a / b * b + b
  {
    assert a == a / b * b + a % b;
  }

  lemma ValueNearFee(tx: Transaction)
    ensures Value(tx) <= tx.fee < Value(tx) + tx.SizeBytes()
  {
    DivisionBounds(tx.fee, tx.SizeBytes());
  }

  lemma {:induction false} ValuesBelowFees(txs: seq<Transaction>)
    ensures TotalValue(txs) <= TotalFees(txs)
  {
    if txs != [] {
      ValuesBelowFees(txs[1..]);
      ValueNearFee(txs[0]);
    }
  }

  lemma {:induction false} FeesNearValues(pool: TxPool, s: set<Hash>)
    ensures Sum(s, FeeIn(pool)) <= Sum(s, ValueIn(pool)) + Sum(s, SizeIn(pool))
  {
    if s != {} {
      var h :| h in s;
      FeesNearValues(pool, s - {h});
      SumRemove(s, FeeIn(pool), h);
      SumRemove(s, ValueIn(pool), h);
      SumRemove(s, SizeIn(pool), h);
      if h in pool {
        ValueNearFee(pool[h]);
      }
    }
  }

  // ---------------------------------------------------------------------------------------------
  // The exchange argument.

  /** The list goes down in density, holds each hash once, and only hashes of the pool. */
  ghost predicate Downhill(pool: TxPool, hashes: seq<Hash>) {
    && (forall i :: 0 <= i < |hashes| ==> hashes[i] in pool)
    && (forall i, j :: 0 <= i < j < |hashes| ==>
         hashes[i] != hashes[j] && pool[hashes[j]].FeePerByte() <= pool[hashes[i]].FeePerByte())
  }

  ghost predicate Within(s: set<Hash>, hashes: seq<Hash>) {
    forall h :: h in s ==> h in hashes
  }

  lemma {:induction false} BoundedByDensity(pool: TxPool, s: set<Hash>, density: nat)
    requires forall h :: h in s ==> h in pool && pool[h].FeePerByte() <= density
    ensures Sum(s, ValueIn(pool)) <= density * Sum(s, SizeIn(pool))
  {
    if s != {} {
      var h :| h in s;
      BoundedByDensity(pool, s - {h}, density);
      SumRemove(s, ValueIn(pool), h);
      SumRemove(s, SizeIn(pool), h);
      ValueAtMost(pool[h], density);
      Distribute(density, pool[h].SizeBytes(), Sum(s - {h}, SizeIn(pool)));
    }
  }

  lemma ValueAtMost(tx: Transaction, density: nat)
    requires tx.FeePerByte() <= density
    ensures Value(tx) <= density * tx.SizeBytes()
  {
    hide Transaction.FeePerByte, Transaction.SizeBytes;
    Monotone(tx.FeePerByte(), density, tx.SizeBytes());
  }

  lemma Distribute(a: int, b: int, c: int)
    ensures a * (b + c) == a * b + a * c
  {
  }

  lemma Monotone(a: int, b: int, c: nat)
    requires a <= b
    ensures a * c <= b * c
  {
  }

  /** How far a set overruns the space. */
  function Excess(size: int, space: int): nat {
    if size <= space then 0 else size - space
  }

  /** The first item does not fit: whatever it is compared with has no higher density. */
  lemma SkipStep(density: nat, value: int, size: int, space: nat, skippedSize: nat)
    requires value <= density * size && space < skippedSize && size >= 0
    ensures value <= density * skippedSize + density * Excess(size, space)
  {
    Distribute(density, skippedSize, Excess(size, space));
    assert size <= skippedSize + Excess(size, space);
    Monotone(size, skippedSize + Excess(size, space), density);
  }

  /** The first item fits but is not in the set: taking it pays for the space it uses up. */
  lemma TakeStep(density: nat, bound: nat, size: int, space: nat, taken: nat)
    requires density <= bound && taken <= space
    ensures density * Excess(size, space - taken) <= density * taken + bound * Excess(size, space)
  {
    assert Excess(size, space - taken) <= taken + Excess(size, space);
    Monotone(Excess(size, space - taken), taken + Excess(size, space), density);
    Distribute(density, taken, Excess(size, space));
    Monotone(density, bound, Excess(size, space));
  }

  lemma DownhillTail(pool: TxPool, hashes: seq<Hash>)
    requires Downhill(pool, hashes) && hashes != []
    ensures Downhill(pool, hashes[1..]) && hashes[0] in pool && hashes[0] !in hashes[1..]
    ensures forall h :: h in hashes[1..] ==> h in pool && pool[h].FeePerByte() <= pool[hashes[0]].FeePerByte()
  {
    hide Transaction.FeePerByte;
  }

  lemma GreedySteps(pool: TxPool, hashes: seq<Hash>, space: nat)
    requires hashes != [] && hashes[0] in pool
    ensures var tx := pool[hashes[0]];
      if tx.SizeBytes() <= space then
        && TotalValue(Greedy(pool, hashes, space))
            == Value(tx) + TotalValue(Greedy(pool, hashes[1..], space - tx.SizeBytes()))
        && FirstSkipped(pool, hashes, space) == FirstSkipped(pool, hashes[1..], space - tx.SizeBytes())
      else
        FirstSkipped(pool, hashes, space) == Some(tx)
  {
  }

  /** Against any set, the greedy choice is behind by at most the first skipped item, plus the best
      density over whatever the set overruns. */
  lemma {:induction false} Exchange(pool: TxPool, hashes: seq<Hash>, space: nat, s: set<Hash>, bound: nat)
    requires Downhill(pool, hashes) && Within(s, hashes) && FirstSkipped(pool, hashes, space).Some?
    requires forall h :: h in hashes ==> h in pool && pool[h].FeePerByte() <= bound
    ensures Sum(s, ValueIn(pool))
         <= TotalValue(Greedy(pool, hashes, space)) + Value(FirstSkipped(pool, hashes, space).value)
            + bound * Excess(Sum(s, SizeIn(pool)), space)
    decreases |hashes|
  {
    if hashes != [] {
      var h, rest, tx := hashes[0], hashes[1..], pool[hashes[0]];
      DownhillTail(pool, hashes);
      GreedySteps(pool, hashes, space);
      assert hashes == [h] + rest;
      assert h in hashes;
      hide *;
      var size, density := Sum(s, SizeIn(pool)), tx.FeePerByte();
      if tx.SizeBytes() > space {
        SkippedFirst(pool, hashes, space, s, bound);
      } else if h in s {
        WithinTail(s, s - {h}, hashes);
        Exchange(pool, rest, space - tx.SizeBytes(), s - {h}, density);
        TakenHead(pool, s, h, space, density, bound);
      } else {
        WithinTail(s, s, hashes);
        Exchange(pool, rest, space - tx.SizeBytes(), s, density);
        TakeStep(density, bound, size, space, tx.SizeBytes());
        ValueIs(tx);
      }
    }
  }

  lemma ValueIs(tx: Transaction)
    ensures Value(tx) == tx.FeePerByte() * tx.SizeBytes()
  {
  }

  lemma WithinTail(s: set<Hash>, t: set<Hash>, hashes: seq<Hash>)
    requires hashes != [] && Within(s, hashes) && t <= s && hashes[0] !in t
    ensures Within(t, hashes[1..])
  {
    assert hashes == [hashes[0]] + hashes[1..];
  }

  lemma TakenHead(pool: TxPool, s: set<Hash>, h: Hash, space: nat, density: nat, bound: nat)
    requires h in s && h in pool && pool[h].SizeBytes() <= space && density <= bound
    ensures Sum(s, ValueIn(pool)) == Value(pool[h]) + Sum(s - {h}, ValueIn(pool))
    ensures density * Excess(Sum(s - {h}, SizeIn(pool)), space - pool[h].SizeBytes())
         <= bound * Excess(Sum(s, SizeIn(pool)), space)
  {
    SumRemove(s, ValueIn(pool), h);
    SumRemove(s, SizeIn(pool), h);
    Monotone(density, bound, Excess(Sum(s, SizeIn(pool)), space));
  }

  lemma SkippedFirst(pool: TxPool, hashes: seq<Hash>, space: nat, s: set<Hash>, bound: nat)
    requires Downhill(pool, hashes) && hashes != [] && Within(s, hashes)
    requires pool[hashes[0]].SizeBytes() > space && pool[hashes[0]].FeePerByte() <= bound
    ensures Sum(s, ValueIn(pool)) <= Value(pool[hashes[0]]) + bound * Excess(Sum(s, SizeIn(pool)), space)
  {
    var tx, size := pool[hashes[0]], Sum(s, SizeIn(pool));
    DownhillTail(pool, hashes);
    hide Transaction.FeePerByte, Transaction.SizeBytes, Downhill;
    forall h | h in s ensures h in pool && pool[h].FeePerByte() <= tx.FeePerByte() {
      assert h in hashes;
    }
    BoundedByDensity(pool, s, tx.FeePerByte());
    SumNonNegative(s, SizeIn(pool));
    SkipStep(tx.FeePerByte(), Sum(s, ValueIn(pool)), size, space, tx.SizeBytes());
    Monotone(tx.FeePerByte(), bound, Excess(size, space));
  }

  // ---------------------------------------------------------------------------------------------
  // The harvest.

  lemma RankedIsDownhill(pool: TxPool)
    ensures Downhill(pool, Ranked(pool)) && |Ranked(pool)| == |pool|
    ensures forall h :: h in Ranked(pool) <==> h in pool
  {
    KeyGeqIsTotalOrder();
    var keys := Descending(KeysOf(pool));
    KeysMember(pool);
    KeysCount(pool);
    hide *;
    RankedIs(pool);
    ListedKeys(keys, pool);
    forall i, j | 0 <= i < j < |keys|
      ensures keys[i].txHash != keys[j].txHash && pool[keys[j].txHash].FeePerByte() <= pool[keys[i].txHash].FeePerByte()
    {
      KeysApart(keys, pool, i, j);
    }
    DownhillKeys(pool, keys);
    forall h | h in pool ensures h in HashesOf(keys) {
      KeyOfHash(pool, h);
      assert KeyOf(h, pool[h]) in keys;
      var i :| 0 <= i < |keys| && keys[i] == KeyOf(h, pool[h]);
      assert HashesOf(keys)[i] == h;
    }
  }

  /** The order of a harvest: denser first; at one density the higher nonce first; at one nonce the
      greater hash first. */
  lemma RankedInOrder(pool: TxPool, i: nat, j: nat)
    requires i < j < |Ranked(pool)|
    ensures Ranked(pool)[i] in pool && Ranked(pool)[j] in pool
    ensures var x, y := pool[Ranked(pool)[i]], pool[Ranked(pool)[j]];
      || x.fee / x.SizeBytes() > y.fee / y.SizeBytes()
      || (x.fee / x.SizeBytes() == y.fee / y.SizeBytes() && x.nonce > y.nonce)
      || (x.fee / x.SizeBytes() == y.fee / y.SizeBytes() && x.nonce == y.nonce
          && LexLeq(Ranked(pool)[j], Ranked(pool)[i]))
  {
    KeyGeqIsTotalOrder();
    KeysMember(pool);
    var keys := Descending(KeysOf(pool));
    RankedIs(pool);
    hide KeysOf, Descending, LexLeq, Transaction.SizeBytes, Ranked;
    HashAt(keys, i);
    HashAt(keys, j);
    assert keys[i] in keys && keys[j] in keys;
    assert KeyGeq(keys[i], keys[j]);
  }

  lemma HashAt(keys: seq<PriorityKey>, i: nat)
    requires i < |keys|
    ensures |HashesOf(keys)| == |keys| && HashesOf(keys)[i] == keys[i].txHash
  {
  }

  lemma RankedIs(pool: TxPool)
    ensures Ranked(pool) == HashesOf(Descending(KeysOf(pool)))
    ensures Sorted(KeyGeq, Descending(KeysOf(pool))) && |Descending(KeysOf(pool))| == |KeysOf(pool)|
    ensures forall key :: key in Descending(KeysOf(pool)) <==> key in KeysOf(pool)
  {
    hide KeysOf, KeyLeq;
  }

  lemma ListedKeys(keys: seq<PriorityKey>, pool: TxPool)
    requires forall key :: key in keys ==> key.txHash in pool && key == KeyOf(key.txHash, pool[key.txHash])
    ensures forall i :: 0 <= i < |keys| ==>
      keys[i].txHash in pool && keys[i] == KeyOf(keys[i].txHash, pool[keys[i].txHash])
  {
    forall i | 0 <= i < |keys|
      ensures keys[i].txHash in pool && keys[i] == KeyOf(keys[i].txHash, pool[keys[i].txHash])
    {
      assert keys[i] in keys;
    }
  }

  lemma KeysApart(keys: seq<PriorityKey>, pool: TxPool, i: nat, j: nat)
    requires Sorted(KeyGeq, keys) && i < j < |keys|
    requires forall k :: 0 <= k < |keys| ==>
      keys[k].txHash in pool && keys[k] == KeyOf(keys[k].txHash, pool[keys[k].txHash])
    ensures keys[i].txHash != keys[j].txHash && pool[keys[j].txHash].FeePerByte() <= pool[keys[i].txHash].FeePerByte()
  {
    hide LexLeq, Transaction.FeePerByte;
    assert KeyGeq(keys[i], keys[j]);
  }

  lemma DownhillKeys(pool: TxPool, keys: seq<PriorityKey>)
    requires forall i :: 0 <= i < |keys| ==> keys[i].txHash in pool
    requires forall i, j :: 0 <= i < j < |keys| ==>
      keys[i].txHash != keys[j].txHash && pool[keys[j].txHash].FeePerByte() <= pool[keys[i].txHash].FeePerByte()
    ensures Downhill(pool, HashesOf(keys)) && forall h :: h in HashesOf(keys) ==> h in pool
  {
    hide HashesOf, Transaction.FeePerByte;
  }

  lemma {:induction false} NothingSkipped(pool: TxPool, hashes: seq<Hash>, space: nat)
    requires FirstSkipped(pool, hashes, space).None?
    requires forall i :: 0 <= i < |hashes| ==> hashes[i] in pool
    ensures |Greedy(pool, hashes, space)| == |hashes|
    ensures forall i :: 0 <= i < |hashes| ==> Greedy(pool, hashes, space)[i] == pool[hashes[i]]
  {
    if hashes != [] {
      NothingSkipped(pool, hashes[1..], space - pool[hashes[0]].SizeBytes());
    }
  }

  /** No listed transaction left out would fit beside those taken. */
  ghost predicate NothingFits(pool: TxPool, hashes: seq<Hash>, taken: seq<Transaction>, space: int) {
    forall h :: h in hashes && h in pool && pool[h] !in taken ==> TotalSize(taken) + pool[h].SizeBytes() > space
  }

  lemma {:induction false} GreedyFits(pool: TxPool, hashes: seq<Hash>, space: nat)
    ensures TotalSize(Greedy(pool, hashes, space)) <= space
    ensures NothingFits(pool, hashes, Greedy(pool, hashes, space), space)
    decreases |hashes|
  {
    hide *;
    GreedyUnfolds(pool, hashes, space);
    if hashes == [] {
      NoneListed(pool, space);
    } else {
      var takes := hashes[0] in pool && pool[hashes[0]].SizeBytes() <= space;
      var left := if takes then space - pool[hashes[0]].SizeBytes() else space;
      GreedyFits(pool, hashes[1..], left);
      if takes {
        FirstTaken(pool, hashes, Greedy(pool, hashes[1..], left), space);
      } else {
        FirstLeft(pool, hashes, Greedy(pool, hashes[1..], left), space);
      }
    }
  }

  lemma GreedyUnfolds(pool: TxPool, hashes: seq<Hash>, space: nat)
    ensures hashes == [] ==> Greedy(pool, hashes, space) == []
    ensures hashes != [] ==>
      Greedy(pool, hashes, space)
        == if hashes[0] in pool && pool[hashes[0]].SizeBytes() <= space
           then [pool[hashes[0]]] + Greedy(pool, hashes[1..], space - pool[hashes[0]].SizeBytes())
           else Greedy(pool, hashes[1..], space)
  {
    hide Transaction.SizeBytes;
  }

  lemma NoneListed(pool: TxPool, space: nat)
    ensures TotalSize([]) == 0 && NothingFits(pool, [], [], space)
  {
  }

  lemma FirstTaken(pool: TxPool, hashes: seq<Hash>, taken: seq<Transaction>, space: nat)
    requires hashes != [] && hashes[0] in pool
    requires NothingFits(pool, hashes[1..], taken, space - pool[hashes[0]].SizeBytes())
    ensures TotalSize([pool[hashes[0]]] + taken) == pool[hashes[0]].SizeBytes() + TotalSize(taken)
    ensures NothingFits(pool, hashes, [pool[hashes[0]]] + taken, space)
  {
    hide Transaction.SizeBytes;
    var more := [pool[hashes[0]]] + taken;
    assert more[1..] == taken;
    forall h | h in hashes && h in pool && pool[h] !in more ensures TotalSize(more) + pool[h].SizeBytes() > space {
      assert h in hashes[1..];
    }
  }

  lemma FirstLeft(pool: TxPool, hashes: seq<Hash>, taken: seq<Transaction>, space: nat)
    requires hashes != [] && !(hashes[0] in pool && pool[hashes[0]].SizeBytes() <= space)
    requires NothingFits(pool, hashes[1..], taken, space)
    ensures NothingFits(pool, hashes, taken, space)
  {
    hide Transaction.SizeBytes;
    forall h | h in hashes && h in pool && pool[h] !in taken ensures TotalSize(taken) + pool[h].SizeBytes() > space {
      assert h == hashes[0] || h in hashes[1..];
    }
  }

  /** A harvest fits, and nothing left out would still fit beside it. */
  lemma HarvestIsFull(pool: TxPool, maxBytes: nat)
    ensures TotalSize(Harvested(pool, maxBytes)) <= maxBytes
    ensures forall h :: h in pool && pool[h] !in Harvested(pool, maxBytes) ==>
      TotalSize(Harvested(pool, maxBytes)) + pool[h].SizeBytes() > maxBytes
  {
    RankedIsDownhill(pool);
    GreedyFits(pool, Ranked(pool), maxBytes);
  }

  /** With nothing skipped, the harvest is the whole pool, each transaction once. */
  lemma HarvestOfAll(pool: TxPool, maxBytes: nat)
    requires FirstSkipped(pool, Ranked(pool), maxBytes).None?
    ensures |Harvested(pool, maxBytes)| == |pool|
    ensures forall h :: h in pool ==> pool[h] in Harvested(pool, maxBytes)
  {
    hide *;
    RankedIsDownhill(pool);
    NothingSkipped(pool, Ranked(pool), maxBytes);
    HarvestedIs(pool, maxBytes);
    forall h | h in pool ensures pool[h] in Harvested(pool, maxBytes) {
      var i :| 0 <= i < |Ranked(pool)| && Ranked(pool)[i] == h;
      assert Harvested(pool, maxBytes)[i] == pool[h];
    }
  }

  /** The knapsack bound: no choice of pool transactions that fits is worth more than the harvest
      and the first skipped transaction together, whether by density or by fees up to rounding. */
  lemma HarvestIsNearOptimal(pool: TxPool, maxBytes: nat, chosen: set<Hash>)
    requires chosen <= pool.Keys && Sum(chosen, SizeIn(pool)) <= maxBytes
    requires FirstSkipped(pool, Ranked(pool), maxBytes).Some?
    ensures var skipped := FirstSkipped(pool, Ranked(pool), maxBytes).value;
      && Sum(chosen, ValueIn(pool)) <= TotalValue(Harvested(pool, maxBytes)) + Value(skipped)
      && Sum(chosen, FeeIn(pool)) <= TotalFees(Harvested(pool, maxBytes)) + skipped.fee + maxBytes
  {
    hide *;
    RankedIsDownhill(pool);
    var hashes := Ranked(pool);
    var skipped := FirstSkipped(pool, hashes, maxBytes).value;
    FeesNearValues(pool, chosen);
    ValuesBelowFees(Harvested(pool, maxBytes));
    ValueNearFee(skipped);
    var bound := HighestDensity(pool, hashes);
    WithinPool(pool, hashes, chosen);
    Exchange(pool, hashes, maxBytes, chosen, bound);
    NoExcess(bound, Sum(chosen, SizeIn(pool)), maxBytes);
    HarvestedIs(pool, maxBytes);
  }

  lemma HarvestedIs(pool: TxPool, maxBytes: nat)
    ensures Harvested(pool, maxBytes) == Greedy(pool, Ranked(pool), maxBytes)
  {
  }

  lemma WithinPool(pool: TxPool, hashes: seq<Hash>, chosen: set<Hash>)
    requires chosen <= pool.Keys && forall h :: h in hashes <==> h in pool
    ensures Within(chosen, hashes)
  {
  }

  lemma NoExcess(bound: nat, size: int, space: int)
    requires size <= space
    ensures bound * Excess(size, space) == 0
  {
  }

  ghost function HighestDensity(pool: TxPool, hashes: seq<Hash>): (bound: nat)
    requires Downhill(pool, hashes)
    ensures forall h :: h in hashes ==> h in pool && pool[h].FeePerByte() <= bound
  {
    if hashes == [] then 0 else pool[hashes[0]].FeePerByte()
  }
}
