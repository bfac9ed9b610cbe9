/** The key-value store: a map kept in key order, batches applied in order, and prefix scans. */
module Kv {
  import opened Bytes
  import opened Orders

  type Store = map<Bytes, Bytes>

  datatype BatchOp = Put(key: Bytes, value: Bytes) | Delete(key: Bytes)

  function Apply(data: Store, op: BatchOp): Store {
    match op
    case Put(key, value) => data[key := value]
    case Delete(key) => data - {key}
  }

  function ApplyAll(data: Store, ops: seq<BatchOp>): Store {
    if ops == [] then data else Apply(ApplyAll(data, ops[..|ops| - 1]), ops[|ops| - 1])
  }

  function TakeWhile<T>(keep: T -> bool, xs: seq<T>): seq<T> {
    if xs == [] || !keep(xs[0]) then [] else [xs[0]] + TakeWhile(keep, xs[1..])
  }

  function StartsWith(prefix: Bytes): Bytes -> bool {
    (key: Bytes) => prefix <= key
  }

  function AtLeast(prefix: Bytes): Bytes -> bool {
    (key: Bytes) => LexLeq(prefix, key)
  }

  /** The store's keys, as the tree map iterates them. */
  ghost function KeysInOrder(data: Store): seq<Bytes> {
    LexIsTotalOrder();
    Ascending(LexLeq, data.Keys)
  }

  /** The keys `scan_prefix` visits: a range from the prefix, cut at the first key without it. */
  ghost function ScannedKeys(data: Store, prefix: Bytes): seq<Bytes> {
    TakeWhile(StartsWith(prefix), Filter(AtLeast(prefix), KeysInOrder(data)))
  }

  /** Cutting the range short loses nothing: over sorted keys it is plain filtering by prefix. */
  lemma {:induction false} RangeIsFilter(prefix: Bytes, keys: seq<Bytes>)
    requires Sorted(LexLeq, keys)
    ensures TakeWhile(StartsWith(prefix), Filter(AtLeast(prefix), keys)) == Filter(StartsWith(prefix), keys)
  {
    if keys != [] {
      var key, rest := keys[0], keys[1..];
      RangeIsFilter(prefix, rest);
      PrefixRange(prefix, key, key);
      if !(prefix <= key) && LexLeq(prefix, key) {
        NoneAfter(prefix, key, rest);
      }
    }
  }

  lemma {:induction false} NoneAfter(prefix: Bytes, key: Bytes, later: seq<Bytes>)
    requires LexLeq(prefix, key) && !(prefix <= key)
    requires forall i :: 0 <= i < |later| ==> LexLeq(key, later[i])
    ensures Filter(StartsWith(prefix), later) == []
  {
    if later != [] {
      PrefixRange(prefix, key, later[0]);
      NoneAfter(prefix, key, later[1..]);
    }
  }

  /** A scan returns every key with the prefix, once, in order, and no other. */
  lemma ScanIsExact(data: Store, prefix: Bytes)
    ensures var keys := ScannedKeys(data, prefix);
      && Sorted(LexLeq, keys)
      && forall key :: key in keys <==> key in data && prefix <= key
  {
    LexIsTotalOrder();
    var all := KeysInOrder(data);
    RangeIsFilter(prefix, all);
    FilterSorted(LexLeq, StartsWith(prefix), all);
    forall key: Bytes ensures key in Filter(StartsWith(prefix), all) <==> key in data && prefix <= key {
      FilterMember(StartsWith(prefix), all, key);
    }
  }

  datatype Entry = Entry(key: Bytes, value: Bytes)

  function EntriesOf(data: Store, keys: seq<Bytes>): seq<Entry> {
    if keys == [] then []
    else (if keys[0] in data then [Entry(keys[0], data[keys[0]])] else []) + EntriesOf(data, keys[1..])
  }

  /** The entries met walking these keys until one lacks the prefix. */
  function Walk(data: Store, prefix: Bytes, keys: seq<Bytes>): seq<Entry> {
    EntriesOf(data, TakeWhile(StartsWith(prefix), keys))
  }

  lemma WalkStep(data: Store, prefix: Bytes, key: Bytes, keys: seq<Bytes>)
    requires key in data
    ensures Walk(data, prefix, [key] + keys)
         == if prefix <= key then [Entry(key, data[key])] + Walk(data, prefix, keys) else []
  {
    assert ([key] + keys)[1..] == keys;
    var found := TakeWhile(StartsWith(prefix), keys);
    assert ([key] + found)[1..] == found;
  }

  lemma WalkEnds(data: Store, prefix: Bytes)
    ensures Walk(data, prefix, []) == []
    ensures TotalOrder(LexLeq) ==> Ascending(LexLeq, {}) == []
  {
  }

  /** What `scan_prefix` returns. */
  ghost function Scan(data: Store, prefix: Bytes): seq<Entry> {
    EntriesOf(data, ScannedKeys(data, prefix))
  }

  class KeyValueStore {
    var data: Store

    constructor OpenInMemory()
      ensures data == map[]
    {
      data := map[];
    }

    function Get(key: Bytes): Option<Bytes>
      reads this
    {
      if key in data then Some(data[key]) else None
    }

    method Put(key: Bytes, value: Bytes)
      modifies this
      ensures data == old(data)[key := value]
    {
      data := data[key := value];
    }

    method Delete(key: Bytes)
      modifies this
      ensures data == old(data) - {key}
    {
      data := data - {key};
    }

    method ApplyBatch(ops: seq<BatchOp>)
      modifies this
      ensures data == ApplyAll(old(data), ops)
    {
      for i := 0 to |ops|
        invariant data == ApplyAll(old(data), ops[..i])
      {
        assert ops[..i + 1][..i] == ops[..i];
        match ops[i] {
          case Put(key, value) => data := data[key := value];
          case Delete(key) => data := data - {key};
        }
      }
      assert ops[..|ops|] == ops;
    }

    /** The range walk: from the least key at or above the prefix, upwards, until one lacks it. */
    method ScanPrefix(prefix: Bytes) returns (entries: seq<Entry>)
      ensures entries == Scan(data, prefix)
    {
      LexIsTotalOrder();
      entries := [];
      var remaining := set key | key in data && LexLeq(prefix, key);
      RangeInOrder(data, prefix, remaining);
      hide TotalOrder, LexLeq, Ascending, Scan, Walk;
      while remaining != {}
        invariant remaining <= data.Keys
        invariant Scan(data, prefix) == entries + Walk(data, prefix, Ascending(LexLeq, remaining))
        decreases |remaining|
      {
        LeastExists(LexLeq, remaining);
        var key :| key in remaining && forall other :: other in remaining ==> LexLeq(key, other);
        AscendingStep(LexLeq, remaining, key);
        WalkStep(data, prefix, key, Ascending(LexLeq, remaining - {key}));
        if !(prefix <= key) {
          return;
        }
        ConcatAssociative(entries, [Entry(key, data[key])], Walk(data, prefix, Ascending(LexLeq, remaining - {key})));
        entries := entries + [Entry(key, data[key])];
        remaining := remaining - {key};
      }
      WalkEnds(data, prefix);
    }
  }

  lemma RangeInOrder(data: Store, prefix: Bytes, range: set<Bytes>)
    requires TotalOrder(LexLeq)
    requires forall key :: key in range <==> key in data && LexLeq(prefix, key)
    ensures Filter(AtLeast(prefix), KeysInOrder(data)) == Ascending(LexLeq, range)
    ensures Scan(data, prefix) == Walk(data, prefix, Ascending(LexLeq, range))
  {
    var all := KeysInOrder(data);
    FilterSorted(LexLeq, AtLeast(prefix), all);
    forall key: Bytes ensures key in Filter(AtLeast(prefix), all) <==> key in Ascending(LexLeq, range) {
      FilterMember(AtLeast(prefix), all, key);
    }
    SortedUnique(LexLeq, Filter(AtLeast(prefix), all), Ascending(LexLeq, range));
  }
}
