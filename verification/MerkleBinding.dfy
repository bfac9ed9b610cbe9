/** What a Merkle root says about the list under it, and where the tree departs from the one of
    section 2.1 of RFC 6962. Everything about hashing is settled on trees, by `RootBindsTree`;
    the rest compares trees. */
module MerkleBinding {
  import opened Bytes
  import opened Crypto
  import opened Merkle

  // ---------------------------------------------------------------------------------------------
  // A root determines its tree.

  datatype Pair<H> = Pair(left: H, right: H) {
    function Parent(node: Noder<H>): H {
      node(left, right)
    }
  }

  /** The leaves of a tree, left to right. */
  function Fringe<H>(tree: Tree<H>): (fringe: seq<H>)
    ensures fringe != []
  {
    match tree
    case Leaf(digest) => [digest]
    case Node(l, r) => Fringe(l) + Fringe(r)
  }

  /** The hypothesis on the hash function, kept to what was really hashed: no two of these pairs
      have one parent, and no parent of one of them is among these leaves. */
  ghost predicate Separates<H>(node: Noder<H>, pairs: set<Pair<H>>, digests: set<H>) {
    && (forall p, q :: p in pairs && q in pairs && p.Parent(node) == q.Parent(node) ==> p == q)
    && (forall p :: p in pairs ==> p.Parent(node) !in digests)
  }

  /** The pairs hashed for a tree, and its leaves, are among these. */
  ghost predicate Covers<H>(node: Noder<H>, tree: Tree<H>, pairs: set<Pair<H>>, digests: set<H>) {
    match tree
    case Leaf(digest) => digest in digests
    case Node(l, r) =>
      && Pair(RootOf(node, l), RootOf(node, r)) in pairs
      && Covers(node, l, pairs, digests) && Covers(node, r, pairs, digests)
  }

  lemma {:induction false} RootBindsTree<H>(node: Noder<H>, s: Tree<H>, t: Tree<H>, pairs: set<Pair<H>>,
      digests: set<H>)
    requires Separates(node, pairs, digests)
    requires Covers(node, s, pairs, digests) && Covers(node, t, pairs, digests)
    ensures RootOf(node, s) == RootOf(node, t) <==> s == t
  {
    match (s, t)
    case (Leaf(_), Leaf(_)) =>
    case (Node(a, b), Leaf(_)) => assert Pair(RootOf(node, a), RootOf(node, b)).Parent(node) == RootOf(node, s);
    case (Leaf(_), Node(c, d)) => assert Pair(RootOf(node, c), RootOf(node, d)).Parent(node) == RootOf(node, t);
    case (Node(a, b), Node(c, d)) =>
      assert Pair(RootOf(node, a), RootOf(node, b)).Parent(node) == RootOf(node, s);
      assert Pair(RootOf(node, c), RootOf(node, d)).Parent(node) == RootOf(node, t);
      RootBindsTree(node, a, c, pairs, digests);
      RootBindsTree(node, b, d, pairs, digests);
  }

  // ---------------------------------------------------------------------------------------------
  // What a tree keeps of its list.

  /** The 2^k leaves a height-k tree commits to, once each missing right half has repeated its
      left one. */
  function Pad<T>(k: nat, leaves: seq<T>): (padded: seq<T>)
    requires 0 < |leaves| <= Pow2(k)
    ensures |padded| == Pow2(k)
    decreases k
  {
    if k == 0 then leaves
    else
      var half := Pow2(k - 1);
      if |leaves| <= half then Pad(k - 1, leaves) + Pad(k - 1, leaves)
      else Pad(k - 1, leaves[..half]) + Pad(k - 1, leaves[half..])
  }

  lemma PadStep<T>(k: nat, leaves: seq<T>)
    requires 0 < |leaves| <= Pow2(k)
    ensures k == 0 ==> Pad(k, leaves) == leaves
    ensures k > 0 ==>
      var half := Pow2(k - 1);
      if |leaves| <= half then Pad(k, leaves) == Pad(k - 1, leaves) + Pad(k - 1, leaves)
      else |leaves| - half <= half && Pad(k, leaves) == Pad(k - 1, leaves[..half]) + Pad(k - 1, leaves[half..])
  {
  }

  function Padded<T>(leaves: seq<T>): seq<T>
    requires leaves != []
  {
    HeightBounds(|leaves|);
    Pad(Height(|leaves|), leaves)
  }

  lemma {:induction false} FringeIsPad<H>(k: nat, leaves: seq<H>)
    requires 0 < |leaves| <= Pow2(k)
    ensures Fringe(TreeOver(k, leaves)) == Pad(k, leaves)
    decreases k
  {
    if k > 0 {
      var half := Pow2(k - 1);
      if |leaves| <= half {
        FringeIsPad(k - 1, leaves);
      } else {
        FringeIsPad(k - 1, leaves[..half]);
        FringeIsPad(k - 1, leaves[half..]);
      }
    }
  }

  ghost predicate IsPerfect<H>(k: nat, tree: Tree<H>)
    decreases k
  {
    if k == 0 then tree.Leaf?
    else tree.Node? && IsPerfect(k - 1, tree.left) && IsPerfect(k - 1, tree.right)
  }

  lemma {:induction false} TreeOverIsPerfect<H>(k: nat, leaves: seq<H>)
    requires 0 < |leaves| <= Pow2(k)
    ensures IsPerfect(k, TreeOver(k, leaves))
    decreases k
  {
    if k > 0 {
      var half := Pow2(k - 1);
      if |leaves| <= half {
        TreeOverIsPerfect(k - 1, leaves);
      } else {
        TreeOverIsPerfect(k - 1, leaves[..half]);
        TreeOverIsPerfect(k - 1, leaves[half..]);
      }
    }
  }

  lemma {:induction false} FringeOfPerfect<H>(k: nat, tree: Tree<H>)
    requires IsPerfect(k, tree)
    ensures |Fringe(tree)| == Pow2(k)
    decreases k
  {
    if k > 0 {
      FringeOfPerfect(k - 1, tree.left);
      FringeOfPerfect(k - 1, tree.right);
    }
  }

  /** A perfect tree is known from its fringe. */
  lemma {:induction false} FringeBindsPerfect<H>(j: nat, s: Tree<H>, k: nat, t: Tree<H>)
    requires IsPerfect(j, s) && IsPerfect(k, t) && Fringe(s) == Fringe(t)
    ensures s == t
    decreases j
  {
    FringeOfPerfect(j, s);
    FringeOfPerfect(k, t);
    Pow2Injective(j, k);
    if j > 0 {
      FringeOfPerfect(j - 1, s.left);
      FringeOfPerfect(k - 1, t.left);
      ConcatInjective(Fringe(s.left), Fringe(s.right), Fringe(t.left), Fringe(t.right));
      FringeBindsPerfect(j - 1, s.left, k - 1, t.left);
      FringeBindsPerfect(j - 1, s.right, k - 1, t.right);
    }
  }

  /** Trees are the same exactly when their padded lists are. */
  lemma TreesMatchPadded<H>(xs: seq<H>, ys: seq<H>)
    requires xs != [] && ys != []
    ensures TreeOf(xs) == TreeOf(ys) <==> Padded(xs) == Padded(ys)
  {
    HeightBounds(|xs|);
    HeightBounds(|ys|);
    FringeIsPad(Height(|xs|), xs);
    FringeIsPad(Height(|ys|), ys);
    TreeOverIsPerfect(Height(|xs|), xs);
    TreeOverIsPerfect(Height(|ys|), ys);
    if Padded(xs) == Padded(ys) {
      FringeBindsPerfect(Height(|xs|), TreeOf(xs), Height(|ys|), TreeOf(ys));
    }
  }

  /** What a root commits to, exactly: two non-empty lists have one root if and only if their
      padded lists are the same. */
  lemma RootBindsPadded<H>(node: Noder<H>, xs: seq<H>, ys: seq<H>, pairs: set<Pair<H>>, digests: set<H>)
    requires xs != [] && ys != [] && Separates(node, pairs, digests)
    requires Covers(node, TreeOf(xs), pairs, digests) && Covers(node, TreeOf(ys), pairs, digests)
    ensures RootOf(node, TreeOf(xs)) == RootOf(node, TreeOf(ys)) <==> Padded(xs) == Padded(ys)
  {
    RootBindsTree(node, TreeOf(xs), TreeOf(ys), pairs, digests);
    TreesMatchPadded(xs, ys);
  }

  predicate Distinct<T(==)>(xs: seq<T>) {
    forall i, j :: 0 <= i < j < |xs| ==> xs[i] != xs[j]
  }

  lemma {:induction false} PadKeepsElements<T>(k: nat, leaves: seq<T>)
    requires 0 < |leaves| <= Pow2(k)
    ensures forall i :: 0 <= i < Pow2(k) ==> Pad(k, leaves)[i] in leaves
    ensures forall i :: 0 <= i < |leaves| ==> Pad(k, leaves)[i] == leaves[i]
    decreases k
  {
    if k > 0 {
      var half := Pow2(k - 1);
      if |leaves| <= half {
        PadKeepsElements(k - 1, leaves);
      } else {
        PadKeepsElements(k - 1, leaves[..half]);
        PadKeepsElements(k - 1, leaves[half..]);
      }
    }
  }

  /** The first padded position of the shorter list repeats an earlier leaf. */
  lemma NotLonger<T>(k: nat, xs: seq<T>, ys: seq<T>)
    requires 0 < |xs| < |ys| <= Pow2(k) && Pad(k, xs) == Pad(k, ys)
    ensures !Distinct(ys)
  {
    PadKeepsElements(k, xs);
    PadKeepsElements(k, ys);
    var i :| 0 <= i < |xs| && Pad(k, xs)[|xs|] == xs[i];
    assert ys[|xs|] == ys[i];
  }

  /** Padding loses nothing of a list without repeats, nor of a list of known length. */
  lemma PaddedInjective<T>(xs: seq<T>, ys: seq<T>)
    requires xs != [] && ys != [] && Padded(xs) == Padded(ys)
    requires |xs| == |ys| || (Distinct(xs) && Distinct(ys))
    ensures xs == ys
  {
    var j, k := Height(|xs|), Height(|ys|);
    HeightBounds(|xs|);
    HeightBounds(|ys|);
    Pow2Injective(j, k);
    PadKeepsElements(j, xs);
    PadKeepsElements(j, ys);
    if |xs| < |ys| {
      NotLonger(j, xs, ys);
    } else if |ys| < |xs| {
      NotLonger(j, ys, xs);
    }
  }

  lemma {:induction false} Pow2Injective(j: nat, k: nat)
    requires Pow2(j) == Pow2(k)
    ensures j == k
  {
    if j > 0 && k > 0 {
      Pow2Injective(j - 1, k - 1);
    }
  }

  /** A list is how its padded list begins. */
  lemma PaddedExtends<T>(xs: seq<T>)
    requires xs != []
    ensures |xs| <= |Padded(xs)| == Pow2(Height(|xs|)) && Padded(xs)[..|xs|] == xs
    ensures forall x :: x in Padded(xs) <==> x in xs
  {
    var k := Height(|xs|);
    HeightBounds(|xs|);
    PadKeepsElements(k, xs);
    assert forall i :: 0 <= i < |xs| ==> xs[i] == Padded(xs)[i];
  }

  /** Nothing is added exactly to a full list: one whose length is a power of two. */
  lemma PaddedSelfIff<T>(xs: seq<T>)
    requires xs != []
    ensures Padded(xs) == xs <==> |xs| == Pow2(Height(|xs|))
  {
    PaddedExtends(xs);
    hide Padded;
  }

  lemma {:induction false} HeightOfFull(k: nat)
    ensures Height(Pow2(k)) == k
  {
    if k > 0 {
      HeightOfFull(k - 1);
      assert (Pow2(k) + 1) / 2 == Pow2(k - 1);
    }
  }

  /** Padding a padded list changes nothing. */
  lemma PaddedTwice<T>(xs: seq<T>)
    requires xs != []
    ensures Padded(xs) != [] && Padded(Padded(xs)) == Padded(xs)
  {
    PaddedExtends(xs);
    HeightOfFull(Height(|xs|));
    hide Padded;
    PaddedSelfIff(Padded(xs));
  }

  /** Lists that one tree stands for. */
  predicate SamePadded<T(==)>(xs: seq<T>, ys: seq<T>) {
    if xs == [] || ys == [] then xs == ys else Padded(xs) == Padded(ys)
  }

  /** Of two such lists, one begins with the other; they are one list if they are equally long, or
      if neither repeats an item. */
  lemma SamePaddedIsPrefix<T>(xs: seq<T>, ys: seq<T>)
    requires SamePadded(xs, ys)
    ensures if |xs| <= |ys| then ys[..|xs|] == xs else xs[..|ys|] == ys
    ensures |xs| == |ys| || (Distinct(xs) && Distinct(ys)) ==> xs == ys
    ensures (xs == [] <==> ys == []) && forall x :: x in xs <==> x in ys
  {
    if xs != [] && ys != [] {
      PaddedExtends(xs);
      PaddedExtends(ys);
      if |xs| <= |ys| {
        assert ys[..|xs|] == Padded(ys)[..|xs|];
      } else {
        assert xs[..|ys|] == Padded(xs)[..|ys|];
      }
      if |xs| == |ys| || (Distinct(xs) && Distinct(ys)) {
        PaddedInjective(xs, ys);
      }
    }
  }

  /** A list no other one shares its tree with: full, and not the padding of its own beginning. */
  predicate Unshared<T(==)>(xs: seq<T>) {
    xs == [] || (|xs| == Pow2(Height(|xs|)) && forall m :: 0 < m < |xs| ==> Padded(xs[..m]) != xs)
  }

  lemma UnsharedIff<T(!new)>(xs: seq<T>)
    ensures Unshared(xs) <==> forall ys: seq<T> :: SamePadded(xs, ys) ==> ys == xs
  {
    if xs != [] {
      PaddedSelfIff(xs);
      PaddedTwice(xs);
      hide Padded, Distinct, Pow2, Height;
      if Unshared(xs) {
        forall ys: seq<T> | SamePadded(xs, ys) ensures ys == xs {
          PaddedExtends(ys);
          assert ys == xs[..|ys|];
        }
      } else if |xs| != Pow2(Height(|xs|)) {
        assert SamePadded(xs, Padded(xs));
      } else {
        var m :| 0 < m < |xs| && Padded(xs[..m]) == xs;
        assert SamePadded(xs, xs[..m]);
      }
    }
  }

  /** A list with repeats can share its tree, and so its root, with a shorter one: with three
      leaves the builder repeats the third, so spelling that repeat out changes nothing. */
  lemma RepeatedTailSameTree<H>(a: H, b: H, c: H)
    ensures TreeOf([a, b, c]) == TreeOf([a, b, c, c]) && [a, b, c] != [a, b, c, c]
  {
    HeightBounds(3);
    HeightBounds(4);
    assert Pow2(2) == 2 * Pow2(1) == 4;
    assert [a, b, c][..2] == [a, b] == [a, b, c, c][..2];
    assert [a, b, c][2..] == [c] && [a, b, c, c][2..] == [c, c];
    assert TreeOver(1, [c]) == TreeOver(1, [c, c]) by {
      assert [c, c][..1] == [c] == [c, c][1..];
    }
  }

  // ---------------------------------------------------------------------------------------------
  // Section 2.1 of RFC 6962.

  /** The largest power of two smaller than n. */
  function SplitPoint(n: nat): (k: nat)
    requires n > 1
    ensures 0 < k < n <= 2 * k
  {
    if n == 2 then 1 else 2 * SplitPoint((n + 1) / 2)
  }

  /** The tree under MTH(D[n]): split at the largest power of two smaller than n. */
  function RfcTree<H>(leaves: seq<H>): Tree<H>
    requires leaves != []
    decreases |leaves|
  {
    if |leaves| == 1 then Leaf(leaves[0])
    else Node(RfcTree(leaves[..SplitPoint(|leaves|)]), RfcTree(leaves[SplitPoint(|leaves|)..]))
  }

  lemma {:induction false} SplitPointOfPow2(k: nat)
    requires k > 0
    ensures SplitPoint(Pow2(k)) == Pow2(k - 1)
  {
    if k > 1 {
      SplitPointOfPow2(k - 1);
      assert (Pow2(k) + 1) / 2 == Pow2(k - 1);
    }
  }

  lemma {:induction false} FullTreeIsRfc<H>(k: nat, leaves: seq<H>)
    requires |leaves| == Pow2(k)
    ensures TreeOver(k, leaves) == RfcTree(leaves)
    decreases k
  {
    if k > 0 {
      SplitPointOfPow2(k);
      FullTreeIsRfc(k - 1, leaves[..Pow2(k - 1)]);
      FullTreeIsRfc(k - 1, leaves[Pow2(k - 1)..]);
    }
  }

  lemma {:induction false} RfcFringe<H>(leaves: seq<H>)
    requires leaves != []
    ensures Fringe(RfcTree(leaves)) == leaves
    decreases |leaves|
  {
    if |leaves| > 1 {
      RfcFringe(leaves[..SplitPoint(|leaves|)]);
      RfcFringe(leaves[SplitPoint(|leaves|)..]);
    }
  }

  /** The tree is the one of RFC 6962 exactly when the list is full: its length is a power of two.
      Otherwise the roots differ as well. */
  lemma RootIsRfc6962<H>(node: Noder<H>, leaves: seq<H>, pairs: set<Pair<H>>, digests: set<H>)
    requires leaves != [] && Separates(node, pairs, digests)
    requires Covers(node, TreeOf(leaves), pairs, digests) && Covers(node, RfcTree(leaves), pairs, digests)
    ensures RootOf(node, TreeOf(leaves)) == RootOf(node, RfcTree(leaves))
       <==> |leaves| == Pow2(Height(|leaves|))
  {
    var k := Height(|leaves|);
    HeightBounds(|leaves|);
    FringeIsPad(k, leaves);
    RfcFringe(leaves);
    RootBindsTree(node, TreeOf(leaves), RfcTree(leaves), pairs, digests);
    if |leaves| == Pow2(k) {
      FullTreeIsRfc(k, leaves);
    }
  }

  /** MTH of section 2.1 over the leaf inputs themselves: a leaf hashes a zero byte and its input, a node
      a one byte and both sides. */
  function Mth(hash: Hasher, payloads: seq<Bytes>): Hash
    requires payloads != []
    decreases |payloads|
  {
    if |payloads| == 1 then hash(MerkleLeafDomain, [0x00] + payloads[0])
    else
      var k := SplitPoint(|payloads|);
      hash(MerkleNodeDomain, [0x01] + Mth(hash, payloads[..k]) + Mth(hash, payloads[k..]))
  }

  lemma {:induction false} RfcTreeIsMth(hash: Hasher, payloads: seq<Bytes>)
    requires payloads != []
    ensures RootOf(NodeHash(hash), RfcTree(HashLeaves(hash, payloads))) == Mth(hash, payloads)
    decreases |payloads|
  {
    if |payloads| > 1 {
      var k := SplitPoint(|payloads|);
      var leaves := HashLeaves(hash, payloads);
      assert leaves[..k] == HashLeaves(hash, payloads[..k]) && leaves[k..] == HashLeaves(hash, payloads[k..]);
      hide HashLeaves, SplitPoint;
      RfcTreeIsMth(hash, payloads[..k]);
      RfcTreeIsMth(hash, payloads[k..]);
    }
  }

  /** Over a full list the root is MTH of its payloads. */
  lemma FullRootIsMth(hash: Hasher, payloads: seq<Bytes>, k: nat)
    requires |payloads| == Pow2(k)
    ensures Root(hash, HashLeaves(hash, payloads)) == Mth(hash, payloads)
  {
    HeightOfFull(k);
    FullTreeIsRfc(k, HashLeaves(hash, payloads));
    RfcTreeIsMth(hash, payloads);
    hide HashLeaves, TreeOver, RootOf, RfcTree, Mth;
  }
}
