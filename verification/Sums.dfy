/** Sums over finite sets, for sizes, stake and supply. */
module Sums {
  ghost function Sum<T>(s: set<T>, w: T -> int): int {
    if s == {} then 0 else
      var x :| x in s;
      w(x) + Sum(s - {x}, w)
  }

  /** The sum does not depend on the order elements are taken in. */
  lemma {:induction false} SumRemove<T>(s: set<T>, w: T -> int, x: T)
    requires x in s
    ensures Sum(s, w) == w(x) + Sum(s - {x}, w)
  {
    var y :| y in s && Sum(s, w) == w(y) + Sum(s - {y}, w);
    if y != x {
      SumRemove(s - {y}, w, x);
      SumRemove(s - {x}, w, y);
      assert s - {y} - {x} == s - {x} - {y};
    }
  }

  lemma SumAdd<T>(s: set<T>, w: T -> int, x: T)
    requires x !in s
    ensures Sum(s + {x}, w) == w(x) + Sum(s, w)
  {
    SumRemove(s + {x}, w, x);
    assert s + {x} - {x} == s;
  }

  lemma {:induction false} SumCongruent<T>(s: set<T>, v: T -> int, w: T -> int)
    requires forall x :: x in s ==> v(x) == w(x)
    ensures Sum(s, v) == Sum(s, w)
  {
    if s != {} {
      var x :| x in s;
      SumCongruent(s - {x}, v, w);
      SumRemove(s, v, x);
      SumRemove(s, w, x);
    }
  }

  lemma {:induction false} SumUnion<T>(s: set<T>, t: set<T>, w: T -> int)
    requires s !! t
    ensures Sum(s + t, w) == Sum(s, w) + Sum(t, w)
  {
    if t == {} {
      assert s + t == s;
    } else {
      var x :| x in t;
      SumUnion(s, t - {x}, w);
      SumRemove(t, w, x);
      SumRemove(s + t, w, x);
      assert s + t - {x} == s + (t - {x});
    }
  }

  lemma SumDifference<T>(s: set<T>, t: set<T>, w: T -> int)
    requires t <= s
    ensures Sum(s, w) == Sum(t, w) + Sum(s - t, w)
  {
    SumUnion(t, s - t, w);
    assert t + (s - t) == s;
  }

  lemma {:induction false} SumNonNegative<T>(s: set<T>, w: T -> int)
    requires forall x :: x in s ==> w(x) >= 0
    ensures Sum(s, w) >= 0
  {
    if s != {} {
      var x :| x in s;
      SumRemove(s, w, x);
      SumNonNegative(s - {x}, w);
    }
  }

  lemma SumMonotone<T>(s: set<T>, t: set<T>, w: T -> int)
    requires t <= s && forall x :: x in s ==> w(x) >= 0
    ensures 0 <= Sum(t, w) <= Sum(s, w)
  {
    SumDifference(s, t, w);
    SumNonNegative(t, w);
    SumNonNegative(s - t, w);
  }
}
