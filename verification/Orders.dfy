/** Finite sets listed in order, as `BTreeMap` and `BTreeSet` iterate them. */
module Orders {
  import opened Bytes

  ghost predicate TotalOrder<T(!new)>(leq: (T, T) -> bool) {
    && (forall x :: leq(x, x))
    && (forall x, y :: leq(x, y) || leq(y, x))
    && (forall x, y :: leq(x, y) && leq(y, x) ==> x == y)
    && (forall x, y, z :: leq(x, y) && leq(y, z) ==> leq(x, z))
  }

  ghost predicate Sorted<T>(leq: (T, T) -> bool, xs: seq<T>) {
    forall i, j :: 0 <= i < j < |xs| ==> leq(xs[i], xs[j]) && xs[i] != xs[j]
  }

  ghost predicate IsLeast<T>(leq: (T, T) -> bool, x: T, s: set<T>) {
    x in s && forall y :: y in s ==> leq(x, y)
  }

  lemma {:induction false} LeastExists<T(!new)>(leq: (T, T) -> bool, s: set<T>)
    requires TotalOrder(leq) && s != {}
    ensures exists x :: IsLeast(leq, x, s)
  {
    var x :| x in s;
    if s == {x} {
      assert IsLeast(leq, x, s);
    } else {
      LeastExists(leq, s - {x});
      var y :| IsLeast(leq, y, s - {x});
      assert IsLeast(leq, if leq(x, y) then x else y, s);
    }
  }

  ghost function Least<T(!new)>(leq: (T, T) -> bool, s: set<T>): (x: T)
    requires TotalOrder(leq) && s != {}
    ensures IsLeast(leq, x, s)
  {
    LeastExists(leq, s);
    var x :| IsLeast(leq, x, s);
    x
  }

  /** The elements of a set from the least up. */
  ghost function Ascending<T(!new)>(leq: (T, T) -> bool, s: set<T>): (xs: seq<T>)
    requires TotalOrder(leq)
    ensures Sorted(leq, xs)
    ensures forall x :: x in xs <==> x in s
    ensures |xs| == |s|
    decreases |s|
  {
    if s == {} then [] else
      var x := Least(leq, s);
      [x] + Ascending(leq, s - {x})
  }

  /** Iteration yields the least element next. */
  lemma AscendingStep<T(!new)>(leq: (T, T) -> bool, s: set<T>, x: T)
    requires TotalOrder(leq) && IsLeast(leq, x, s)
    ensures Ascending(leq, s) == [x] + Ascending(leq, s - {x})
  {
    assert Least(leq, s) == x;
  }

  /** There is one sorted list of a set. */
  lemma {:induction false} SortedUnique<T(!new)>(leq: (T, T) -> bool, xs: seq<T>, ys: seq<T>)
    requires TotalOrder(leq) && Sorted(leq, xs) && Sorted(leq, ys)
    requires forall x :: x in xs <==> x in ys
    ensures xs == ys
    decreases |xs|
  {
    if xs == [] {
      assert forall i :: 0 <= i < |ys| ==> ys[i] in ys;
    } else {
      assert xs[0] in ys;
      assert ys[0] in xs;
      assert xs[0] == ys[0];
      forall x ensures x in xs[1..] <==> x in ys[1..] {
        assert x in xs[1..] <==> x in xs && x != xs[0];
        assert x in ys[1..] <==> x in ys && x != ys[0];
      }
      SortedUnique(leq, xs[1..], ys[1..]);
      assert xs == [xs[0]] + xs[1..] && ys == [ys[0]] + ys[1..];
    }
  }

  function Filter<T>(keep: T -> bool, xs: seq<T>): seq<T> {
    if xs == [] then []
    else if keep(xs[0]) then [xs[0]] + Filter(keep, xs[1..]) else Filter(keep, xs[1..])
  }

  lemma {:induction false} FilterMember<T>(keep: T -> bool, xs: seq<T>, x: T)
    ensures x in Filter(keep, xs) <==> x in xs && keep(x)
  {
    if xs != [] {
      FilterMember(keep, xs[1..], x);
      assert xs == [xs[0]] + xs[1..];
    }
  }

  lemma {:induction false} FilterSorted<T>(leq: (T, T) -> bool, keep: T -> bool, xs: seq<T>)
    requires Sorted(leq, xs)
    ensures Sorted(leq, Filter(keep, xs))
  {
    if xs != [] {
      FilterSorted(leq, keep, xs[1..]);
      var rest := Filter(keep, xs[1..]);
      forall i {:trigger rest[i]} | 0 <= i < |rest| ensures leq(xs[0], rest[i]) && xs[0] != rest[i] {
        FilterMember(keep, xs[1..], rest[i]);
        var j :| 0 <= j < |xs[1..]| && xs[1..][j] == rest[i];
        assert xs[j + 1] == rest[i];
      }
    }
  }

  // ---------------------------------------------------------------------------------------------
  // Byte strings, compared as `Vec<u8>` is.

  predicate LexLeq(a: Bytes, b: Bytes) {
    if a == [] then true
    else if b == [] then false
    else a[0] < b[0] || (a[0] == b[0] && LexLeq(a[1..], b[1..]))
  }

  lemma {:induction false} LexTotal(a: Bytes, b: Bytes)
    ensures LexLeq(a, a)
    ensures LexLeq(a, b) || LexLeq(b, a)
    ensures LexLeq(a, b) && LexLeq(b, a) ==> a == b
    decreases |a|
  {
    if a != [] {
      LexTotal(a[1..], if b == [] then [] else b[1..]);
      if b != [] && a[0] == b[0] {
        assert a == [a[0]] + a[1..] && b == [b[0]] + b[1..];
      }
    }
  }

  lemma {:induction false} LexTransitive(a: Bytes, b: Bytes, c: Bytes)
    requires LexLeq(a, b) && LexLeq(b, c)
    ensures LexLeq(a, c)
    decreases |a|
  {
    if a != [] && a[0] == b[0] == c[0] {
      LexTransitive(a[1..], b[1..], c[1..]);
    }
  }

  lemma LexIsTotalOrder()
    ensures TotalOrder(LexLeq)
  {
    forall x, y ensures LexLeq(x, x) && (LexLeq(x, y) || LexLeq(y, x)) && (LexLeq(x, y) && LexLeq(y, x) ==> x == y) {
      LexTotal(x, y);
    }
    forall x, y, z | LexLeq(x, y) && LexLeq(y, z) ensures LexLeq(x, z) {
      LexTransitive(x, y, z);
    }
  }

  /** A string that starts with the prefix is at least the prefix; and past the last such string
      none follows. */
  lemma {:induction false} PrefixRange(prefix: Bytes, a: Bytes, b: Bytes)
    ensures prefix <= a ==> LexLeq(prefix, a)
    ensures LexLeq(prefix, a) && !(prefix <= a) && LexLeq(a, b) ==> !(prefix <= b)
    decreases |prefix|
  {
    if prefix != [] && a != [] {
      PrefixRange(prefix[1..], a[1..], if b == [] then [] else b[1..]);
      PrefixStep(prefix, a);
      if b != [] {
        PrefixStep(prefix, b);
      }
    }
  }

  lemma PrefixStep(prefix: Bytes, a: Bytes)
    requires prefix != [] && a != []
    ensures prefix <= a <==> prefix[0] == a[0] && prefix[1..] <= a[1..]
  {
    assert prefix == [prefix[0]] + prefix[1..];
    assert a == [a[0]] + a[1..];
  }
}
