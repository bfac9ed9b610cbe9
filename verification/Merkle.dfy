/** The transaction Merkle tree: the level-by-level builder, its proofs, and what its root says
    about the list under it. */
module Merkle {
  import opened Bytes
  import opened Crypto

  function HashLeaf(hash: Hasher, data: Bytes): Hash {
    hash(MerkleLeafDomain, [0x00] + data)
  }

  /** How two digests make their parent: `hash_internal_node`. */
  type Noder<!H> = (H, H) -> H

  function NodeHash(hash: Hasher): Noder<Hash> {
    (left: Hash, right: Hash) => hash(MerkleNodeDomain, [0x01] + left + right)
  }

  function HashLeaves(hash: Hasher, payloads: seq<Bytes>): (leaves: seq<Hash>)
    ensures |leaves| == |payloads|
    ensures forall i :: 0 <= i < |payloads| ==> leaves[i] == HashLeaf(hash, payloads[i])
  {
    if payloads == [] then [] else [HashLeaf(hash, payloads[0])] + HashLeaves(hash, payloads[1..])
  }

  // ---------------------------------------------------------------------------------------------
  // What the builder's loops compute, one level at a time.

  /** One pass of `chunks(2)`: pair neighbours, and an odd last item with itself. */
  function Up<H>(node: Noder<H>, level: seq<H>): (next: seq<H>)
    ensures |next| == (|level| + 1) / 2
    decreases |level|
  {
    if level == [] then []
    else if |level| == 1 then [node(level[0], level[0])]
    else [node(level[0], level[1])] + Up(node, level[2..])
  }

  function Levels<H>(node: Noder<H>, level: seq<H>): (levels: seq<seq<H>>)
    ensures levels != []
    decreases |level|
  {
    if |level| <= 1 then [level] else [level] + Levels(node, Up(node, level))
  }

  /** The number of levels above a list of n leaves. */
  function Height(n: nat): nat
    decreases n
  {
    if n <= 1 then 0 else 1 + Height((n + 1) / 2)
  }

  /** Level k of the tree. */
  function LevelAt<H>(node: Noder<H>, level: seq<H>, k: nat): seq<H>
    decreases k
  {
    if k == 0 then level else LevelAt(node, Up(node, level), k - 1)
  }

  function Pow2(k: nat): (p: nat)
    ensures p >= 1
  {
    if k == 0 then 1 else 2 * Pow2(k - 1)
  }

  // ---------------------------------------------------------------------------------------------
  // The reference: a recursive tree over a list.

  datatype Tree<+H> = Leaf(digest: H) | Node(left: Tree<H>, right: Tree<H>)

  function RootOf<H>(node: Noder<H>, tree: Tree<H>): H {
    match tree
    case Leaf(digest) => digest
    case Node(left, right) => node(RootOf(node, left), RootOf(node, right))
  }

  /** The height-k tree over at most 2^k leaves; a missing right half repeats the left one. */
  function TreeOver<H>(k: nat, leaves: seq<H>): Tree<H>
    requires 0 < |leaves| <= Pow2(k)
    decreases k
  {
    if k == 0 then Leaf(leaves[0])
    else
      var half := Pow2(k - 1);
      if |leaves| <= half then Node(TreeOver(k - 1, leaves), TreeOver(k - 1, leaves))
      else Node(TreeOver(k - 1, leaves[..half]), TreeOver(k - 1, leaves[half..]))
  }

  /** The tree of a non-empty list: the lowest one that fits. */
  function TreeOf<H>(leaves: seq<H>): Tree<H>
    requires leaves != []
  {
    HeightBounds(|leaves|);
    TreeOver(Height(|leaves|), leaves)
  }

  /** The root the builder leaves at the top; ZERO for an empty list. */
  function Root(hash: Hasher, leaves: seq<Hash>): Hash {
    if leaves == [] then ZERO else RootOf(NodeHash(hash), TreeOf(leaves))
  }

  /** The height is the smallest that fits. */
  lemma {:induction false} HeightBounds(n: nat)
    ensures n <= Pow2(Height(n))
    ensures n > 1 ==> Height(n) > 0 && Pow2(Height(n) - 1) < n
    decreases n
  {
    if n > 1 {
      HeightBounds((n + 1) / 2);
    }
  }

  lemma {:induction false} UpOfConcat<H>(node: Noder<H>, a: seq<H>, b: seq<H>)
    requires |a| % 2 == 0
    ensures Up(node, a + b) == Up(node, a) + Up(node, b)
    decreases |a|
  {
    if a == [] {
      assert a + b == b;
    } else {
      assert (a + b)[2..] == a[2..] + b;
      UpOfConcat(node, a[2..], b);
    }
  }

  /** Whole blocks of 2^k leaves go up k levels on their own. */
  lemma {:induction false} LevelAtOfConcat<H>(node: Noder<H>, a: seq<H>, b: seq<H>, k: nat, j: nat)
    requires |a| == Span(j, k)
    ensures LevelAt(node, a + b, k) == LevelAt(node, a, k) + LevelAt(node, b, k)
    ensures |LevelAt(node, a, k)| == j
    decreases k
  {
    hide *;
    LevelAtStep(node, a, k);
    LevelAtStep(node, b, k);
    LevelAtStep(node, a + b, k);
    SpanStep(j, k);
    if k > 0 {
      UpOfConcat(node, a, b);
      LevelAtOfConcat(node, Up(node, a), Up(node, b), k - 1, j);
    }
  }

  /** The leaves under j items of level k. */
  function Span(j: nat, k: nat): nat {
    j * Pow2(k)
  }

  lemma SpanStep(j: nat, k: nat)
    ensures Span(j, k) == if k == 0 then j else 2 * Span(j, k - 1)
  {
    if k > 0 {
      Doubled(j, Pow2(k - 1));
    }
  }

  lemma LevelAtStep<H>(node: Noder<H>, level: seq<H>, k: nat)
    ensures LevelAt(node, level, k) == if k == 0 then level else LevelAt(node, Up(node, level), k - 1)
  {
    hide Up;
  }

  lemma Doubled(j: nat, p: nat)
    ensures j * (2 * p) == 2 * (j * p)
  {
  }

  /** A list that fits under a height-k tree has, at level k, exactly that tree. */
  lemma {:induction false} LevelAtIsTree<H>(node: Noder<H>, leaves: seq<H>, k: nat)
    requires 0 < |leaves| <= Pow2(k)
    ensures LevelAt(node, leaves, k) == [RootOf(node, TreeOver(k, leaves))]
    decreases k
  {
    hide *;
    RootOfTree(node, k, leaves);
    if k == 0 {
      LevelAtStep(node, leaves, k);
    } else {
      LevelAtSplits(node, leaves, k - 1);
      var half := Pow2(k - 1);
      if |leaves| <= half {
        LevelAtIsTree(node, leaves, k - 1);
        UpOfOne(node, RootOf(node, TreeOver(k - 1, leaves)));
      } else {
        var a, b := leaves[..half], leaves[half..];
        assert leaves == a + b;
        SpanOfOne(k - 1);
        LevelAtOfConcat(node, a, b, k - 1, 1);
        LevelAtIsTree(node, a, k - 1);
        LevelAtIsTree(node, b, k - 1);
        UpOfTwo(node, RootOf(node, TreeOver(k - 1, a)), RootOf(node, TreeOver(k - 1, b)));
      }
    }
  }

  lemma RootOfTree<H>(node: Noder<H>, k: nat, leaves: seq<H>)
    requires 0 < |leaves| <= Pow2(k)
    ensures k == 0 ==> leaves == [RootOf(node, TreeOver(k, leaves))]
    ensures k > 0 && |leaves| <= Pow2(k - 1) ==>
      (var root := RootOf(node, TreeOver(k - 1, leaves)); RootOf(node, TreeOver(k, leaves)) == node(root, root))
    ensures k > 0 && |leaves| > Pow2(k - 1) ==>
      var half := Pow2(k - 1);
      && |leaves| - half <= half
      && RootOf(node, TreeOver(k, leaves))
          == node(RootOf(node, TreeOver(k - 1, leaves[..half])), RootOf(node, TreeOver(k - 1, leaves[half..])))
  {
  }

  lemma SpanOfOne(k: nat)
    ensures Span(1, k) == Pow2(k)
  {
  }

  lemma UpOfOne<H>(node: Noder<H>, x: H)
    ensures Up(node, [x]) == [node(x, x)]
  {
  }

  lemma UpOfTwo<H>(node: Noder<H>, x: H, y: H)
    ensures Up(node, [x] + [y]) == [node(x, y)]
  {
    assert ([x] + [y])[2..] == [];
  }

  /** Going up k + 1 levels is going up k and then one more. */
  lemma {:induction false} LevelAtSplits<H>(node: Noder<H>, level: seq<H>, k: nat)
    ensures LevelAt(node, level, k + 1) == Up(node, LevelAt(node, level, k))
    decreases k
  {
    if k > 0 {
      LevelAtSplits(node, Up(node, level), k - 1);
    }
  }

  lemma {:induction false} LevelsAreLevelAt<H>(node: Noder<H>, level: seq<H>)
    ensures |Levels(node, level)| == Height(|level|) + 1
    ensures forall k :: 0 <= k <= Height(|level|) ==> Levels(node, level)[k] == LevelAt(node, level, k)
    decreases |level|
  {
    if |level| > 1 {
      LevelsAreLevelAt(node, Up(node, level));
    }
  }

  /** The leaves under item j of level k. */
  function Block<H>(leaves: seq<H>, k: nat, j: nat): (block: seq<H>)
    requires j * Pow2(k) < |leaves|
    ensures 0 < |block| <= Pow2(k)
  {
    var start := j * Pow2(k);
    leaves[start..if start + Pow2(k) <= |leaves| then start + Pow2(k) else |leaves|]
  }

  /** The level-by-level builder refines the recursive tree: level k has ceil(n / 2^k) items, and
      item j is the height-k tree of the leaves [j * 2^k, min((j + 1) * 2^k, n)). */
  lemma LevelItemIsTree<H>(node: Noder<H>, leaves: seq<H>, k: nat, j: nat)
    ensures j < |LevelAt(node, leaves, k)| <==> j * Pow2(k) < |leaves|
    ensures j * Pow2(k) < |leaves| ==> LevelAt(node, leaves, k)[j] == RootOf(node, TreeOver(k, Block(leaves, k, j)))
  {
    hide *;
    SpanIs(j, k);
    if j * Pow2(k) < |leaves| {
      var block := Block(leaves, k, j);
      var before, after := AroundBlock(leaves, k, j);
      LevelAtOfConcat(node, before, block + after, k, j);
      LevelAtIsTree(node, block, k);
      if after == [] {
        assert block + after == block;
      } else {
        SpanOfOne(k);
        LevelAtOfConcat(node, block, after, k, 1);
      }
    } else {
      LevelBounded(node, leaves, k, j);
    }
  }

  lemma SpanIs(j: nat, k: nat)
    ensures Span(j, k) == j * Pow2(k)
  {
  }

  /** The leaves before and after a block; none come after one that is not whole. */
  lemma AroundBlock<H>(leaves: seq<H>, k: nat, j: nat) returns (before: seq<H>, after: seq<H>)
    requires j * Pow2(k) < |leaves|
    ensures leaves == before + (Block(leaves, k, j) + after) && |before| == Span(j, k)
    ensures after == [] || |Block(leaves, k, j)| == Pow2(k)
  {
    hide Pow2;
    var block := Block(leaves, k, j);
    before, after := leaves[..Span(j, k)], leaves[Span(j, k) + |block|..];
    assert leaves[Span(j, k)..] == block + after;
  }

  lemma {:induction false} LevelBounded<H>(node: Noder<H>, leaves: seq<H>, k: nat, j: nat)
    requires |leaves| <= Span(j, k)
    ensures |LevelAt(node, leaves, k)| <= j
    decreases k
  {
    hide *;
    LevelAtStep(node, leaves, k);
    SpanStep(j, k);
    if k > 0 {
      LevelBounded(node, Up(node, leaves), k - 1, j);
    }
  }

  lemma CeilingOf(n: nat, p: nat, m: nat)
    requires p > 0 && n <= m * p && (m > 0 ==> (m - 1) * p < n)
    ensures m == (n + p - 1) / p
  {
    var q, r := (n + p - 1) / p, (n + p - 1) % p;
    assert n + p - 1 == q * p + r;
    Ordered(m + 1, q, p);
    Ordered(q, m - 1, p);
  }

  lemma Ordered(a: int, b: int, p: nat)
    ensures a <= b ==> a * p <= b * p
  {
  }

  /** Level k has ceil(n / 2^k) items. */
  lemma LevelSize<H>(node: Noder<H>, leaves: seq<H>, k: nat)
    ensures |LevelAt(node, leaves, k)| == (|leaves| + Pow2(k) - 1) / Pow2(k)
  {
    hide *;
    var m := |LevelAt(node, leaves, k)|;
    LevelItemIsTree(node, leaves, k, m);
    if m > 0 {
      LevelItemIsTree(node, leaves, k, m - 1);
    }
    CeilingOf(|leaves|, Pow2(k), m);
  }

  /** The single item the builder leaves at the top is the recursive tree's root. */
  lemma TopIsRoot<H>(node: Noder<H>, leaves: seq<H>)
    requires leaves != []
    ensures var levels := Levels(node, leaves); levels[|levels| - 1] == [RootOf(node, TreeOf(leaves))]
  {
    HeightBounds(|leaves|);
    LevelsAreLevelAt(node, leaves);
    LevelAtIsTree(node, leaves, Height(|leaves|));
  }
}
