/** The sparse Merkle tree over 256-bit keys. The node stores only the leaves that are present and
    recurses over non-empty groups; the reference is the full tree of depth 256 with ZERO at every
    absent leaf. */
module Smt {
  import opened Bytes
  import opened Crypto

  const DEPTH: nat := 256

  function SmtLeaf(hash: Hasher, key: Hash, value: Bytes): Hash {
    hash(SmtLeafDomain, key + value)
  }

  function NodeInput(left: Hash, right: Hash): Preimage {
    Preimage(SmtNodeDomain, left + right)
  }

  function SmtNode(hash: Hasher, left: Hash, right: Hash): Hash {
    Digest(hash, NodeInput(left, right))
  }

  // ---------------------------------------------------------------------------------------------
  // Keys as bit paths.

  /** Bit i of a byte, most significant first: `(byte >> (7 - i)) & 1`. */
  function ByteBit(b: Byte, i: nat): bool
    requires i < 8
  {
    match i
    case 0 => b / 128 % 2 == 1
    case 1 => b / 64 % 2 == 1
    case 2 => b / 32 % 2 == 1
    case 3 => b / 16 % 2 == 1
    case 4 => b / 8 % 2 == 1
    case 5 => b / 4 % 2 == 1
    case 6 => b / 2 % 2 == 1
    case _ => b % 2 == 1
  }

  function KeyBit(key: Hash, depth: nat): bool
    requires depth < DEPTH
  {
    ByteBit(key[depth / 8], depth % 8)
  }

  type Path = p: seq<bool> | |p| <= DEPTH witness []

  ghost predicate HasPrefix(key: Hash, prefix: Path) {
    forall i :: 0 <= i < |prefix| ==> KeyBit(key, i) == prefix[i]
  }

  /** Equal bits below equal halves: one step of reading a byte from the top. */
  lemma HalfStep(a: Byte, b: Byte, p: nat)
    requires p in {1, 2, 4, 8, 16, 32, 64}
    requires a / (2 * p) == b / (2 * p) && (a / p % 2 == 1) == (b / p % 2 == 1)
    ensures a / p == b / p
  {
    assert a / p == 2 * (a / (2 * p)) + a / p % 2 by {
      HalfOf(a, p);
    }
    assert b / p == 2 * (b / (2 * p)) + b / p % 2 by {
      HalfOf(b, p);
    }
  }

  lemma HalfOf(x: Byte, p: nat)
    requires p in {1, 2, 4, 8, 16, 32, 64}
    ensures x / p / 2 == x / (2 * p)
  {
  }

  lemma BitsOf(b: Byte)
    ensures ByteBit(b, 0) == (b / 128 % 2 == 1) && ByteBit(b, 1) == (b / 64 % 2 == 1)
    ensures ByteBit(b, 2) == (b / 32 % 2 == 1) && ByteBit(b, 3) == (b / 16 % 2 == 1)
    ensures ByteBit(b, 4) == (b / 8 % 2 == 1) && ByteBit(b, 5) == (b / 4 % 2 == 1)
    ensures ByteBit(b, 6) == (b / 2 % 2 == 1) && ByteBit(b, 7) == (b % 2 == 1)
  {
  }

  lemma TopHalf(a: Byte, b: Byte)
    requires (a / 128 % 2 == 1) == (b / 128 % 2 == 1)
    ensures a / 128 == b / 128
  {
  }

  lemma ByteFromBits(a: Byte, b: Byte)
    requires forall i :: 0 <= i < 8 ==> ByteBit(a, i) == ByteBit(b, i)
    ensures a == b
  {
    BitsOf(a);
    BitsOf(b);
    hide ByteBit;
    assert ByteBit(a, 0) == ByteBit(b, 0) && ByteBit(a, 1) == ByteBit(b, 1);
    assert ByteBit(a, 2) == ByteBit(b, 2) && ByteBit(a, 3) == ByteBit(b, 3);
    assert ByteBit(a, 4) == ByteBit(b, 4) && ByteBit(a, 5) == ByteBit(b, 5);
    assert ByteBit(a, 6) == ByteBit(b, 6) && ByteBit(a, 7) == ByteBit(b, 7);
    TopHalf(a, b);
    HalfStep(a, b, 64);
    HalfStep(a, b, 32);
    HalfStep(a, b, 16);
    HalfStep(a, b, 8);
    HalfStep(a, b, 4);
    HalfStep(a, b, 2);
    HalfStep(a, b, 1);
  }

  /** 256 equal bits are equal keys. */
  lemma KeyFromBits(a: Hash, b: Hash)
    requires forall i :: 0 <= i < DEPTH ==> KeyBit(a, i) == KeyBit(b, i)
    ensures a == b
  {
    forall j | 0 <= j < 32 ensures a[j] == b[j] {
      forall i | 0 <= i < 8 ensures ByteBit(a[j], i) == ByteBit(b[j], i) {
        assert KeyBit(a, 8 * j + i) == KeyBit(b, 8 * j + i);
      }
      ByteFromBits(a[j], b[j]);
    }
  }

  lemma LeafKeyUnique(a: Hash, b: Hash, path: Path)
    requires |path| == DEPTH && HasPrefix(a, path) && HasPrefix(b, path)
    ensures a == b
  {
    KeyFromBits(a, b);
  }

  lemma PrefixExtends(key: Hash, prefix: Path, bit: bool)
    requires |prefix| < DEPTH
    ensures HasPrefix(key, prefix + [bit]) <==> HasPrefix(key, prefix) && KeyBit(key, |prefix|) == bit
  {
    var longer := prefix + [bit];
    if HasPrefix(key, longer) {
      assert KeyBit(key, |prefix|) == longer[|prefix|];
      forall i | 0 <= i < |prefix| ensures KeyBit(key, i) == prefix[i] {
        assert longer[i] == prefix[i];
      }
    }
  }

  // ---------------------------------------------------------------------------------------------
  // The dense reference tree.

  type Leaves = map<Hash, Hash>

  /** The leaf at a full path: that of the key with these bits, or ZERO. */
  ghost function LeafAt(leaves: Leaves, path: Path): Hash
    requires |path| == DEPTH
  {
    if key :| key in leaves && HasPrefix(key, path) then leaves[key] else ZERO
  }

  /** The subtree of the full depth-256 tree under a prefix. */
  ghost function Dense(hash: Hasher, leaves: Leaves, prefix: Path): Hash
    decreases DEPTH - |prefix|
  {
    if |prefix| == DEPTH then LeafAt(leaves, prefix)
    else SmtNode(hash, Dense(hash, leaves, prefix + [false]), Dense(hash, leaves, prefix + [true]))
  }

  ghost function DenseRoot(hash: Hasher, leaves: Leaves): Hash {
    Dense(hash, leaves, [])
  }

  /** The root of an empty subtree with this many levels below it. */
  function EmptyRoot(hash: Hasher, level: nat): Hash {
    if level == 0 then ZERO else SmtNode(hash, EmptyRoot(hash, level - 1), EmptyRoot(hash, level - 1))
  }

  ghost predicate AgreeUnder(a: Leaves, b: Leaves, prefix: Path) {
    forall key :: HasPrefix(key, prefix) ==>
      (key in a <==> key in b) && (key in a && key in b ==> a[key] == b[key])
  }

  lemma AgreeDeeper(a: Leaves, b: Leaves, prefix: Path, bit: bool)
    requires |prefix| < DEPTH && AgreeUnder(a, b, prefix)
    ensures AgreeUnder(a, b, prefix + [bit])
  {
    forall key | HasPrefix(key, prefix + [bit])
      ensures (key in a <==> key in b) && (key in a && key in b ==> a[key] == b[key])
    {
      PrefixExtends(key, prefix, bit);
    }
  }

  /** A leaf lookup finds the only key with the path. */
  lemma LeafAtKey(leaves: Leaves, key: Hash, path: Path)
    requires |path| == DEPTH && HasPrefix(key, path)
    ensures LeafAt(leaves, path) == if key in leaves then leaves[key] else ZERO
  {
    forall other | other in leaves && HasPrefix(other, path) ensures other == key {
      LeafKeyUnique(other, key, path);
    }
  }

  /** A subtree depends only on the leaves under its prefix. */
  lemma {:induction false} DenseDependsOnPrefix(hash: Hasher, a: Leaves, b: Leaves, prefix: Path)
    requires AgreeUnder(a, b, prefix)
    ensures Dense(hash, a, prefix) == Dense(hash, b, prefix)
    decreases DEPTH - |prefix|
  {
    if |prefix| < DEPTH {
      AgreeDeeper(a, b, prefix, false);
      AgreeDeeper(a, b, prefix, true);
      DenseDependsOnPrefix(hash, a, b, prefix + [false]);
      DenseDependsOnPrefix(hash, a, b, prefix + [true]);
    } else if key :| key in a && HasPrefix(key, prefix) {
      LeafAtKey(a, key, prefix);
      LeafAtKey(b, key, prefix);
    }
  }

  lemma {:induction false} DenseOfEmpty(hash: Hasher, prefix: Path)
    ensures Dense(hash, map[], prefix) == EmptyRoot(hash, DEPTH - |prefix|)
    decreases DEPTH - |prefix|
  {
    if |prefix| < DEPTH {
      DenseOfEmpty(hash, prefix + [false]);
      DenseOfEmpty(hash, prefix + [true]);
    }
  }

  // ---------------------------------------------------------------------------------------------
  // The tree the node keeps.

  /** The table of empty roots, filled level by level. */
  lemma EmptyRootIs(hash: Hasher, level: nat)
    ensures EmptyRoot(hash, level)
         == if level == 0 then ZERO else SmtNode(hash, EmptyRoot(hash, level - 1), EmptyRoot(hash, level - 1))
  {
    hide SmtNode;
  }

  class SmtEmptyRoots {
    const roots: array<Hash>

    ghost predicate Valid(hash: Hasher)
      reads roots
    {
      roots.Length == DEPTH + 1 && forall i :: 0 <= i <= DEPTH ==> roots[i] == EmptyRoot(hash, i)
    }

    constructor (hash: Hasher)
      ensures Valid(hash) && fresh(roots)
    {
      var table := new Hash[DEPTH + 1];
      table[0] := ZERO;
      hide EmptyRoot, SmtNode;
      EmptyRootIs(hash, 0);
      for i := 1 to DEPTH + 1
        invariant forall j :: 0 <= j < i ==> table[j] == EmptyRoot(hash, j)
      {
        EmptyRootIs(hash, i);
        table[i] := SmtNode(hash, table[i - 1], table[i - 1]);
      }
      roots := table;
    }

    function Get(level: nat): Hash
      requires roots.Length == DEPTH + 1
      reads roots
    {
      if level <= DEPTH then roots[level] else ZERO
    }
  }

  class SparseMerkleTree {
    const hash: Hasher
    const emptyRoots: SmtEmptyRoots
    var leaves: Leaves

    ghost predicate Valid()
      reads this, emptyRoots, emptyRoots.roots
    {
      emptyRoots.Valid(hash)
    }

    constructor (hash: Hasher)
      ensures Valid() && leaves == map[] && this.hash == hash && fresh(emptyRoots) && fresh(emptyRoots.roots)
    {
      this.hash := hash;
      var table := new SmtEmptyRoots(hash);
      emptyRoots := table;
      leaves := map[];
    }

    method Update(key: Hash, value: Bytes)
      modifies this`leaves
      ensures leaves == UpdateLeaves(hash, old(leaves), key, value)
      ensures old(Valid()) ==> Valid()
    {
      if value == [] {
        leaves := leaves - {key};
      } else {
        leaves := leaves[key := SmtLeaf(hash, key, value)];
      }
    }

    method Delete(key: Hash)
      modifies this`leaves
      ensures leaves == old(leaves) - {key}
      ensures old(Valid()) ==> Valid()
    {
      leaves := leaves - {key};
    }

    /** The sparse root is the dense root, for every set of leaves. */
    method Root() returns (root: Hash)
      requires Valid()
      ensures root == DenseRoot(hash, leaves)
    {
      if leaves == map[] {
        DenseOfEmpty(hash, []);
        return emptyRoots.Get(DEPTH);
      }
      root := ComputeSubtreeRoot(leaves, 0, []);
    }

    method ComputeSubtreeRoot(nodes: Leaves, depth: nat, ghost prefix: Path) returns (root: Hash)
      requires Valid() && depth == |prefix|
      requires forall key :: key in nodes ==> HasPrefix(key, prefix)
      ensures root == Dense(hash, nodes, prefix)
      decreases DEPTH - depth
    {
      if nodes == map[] {
        DenseOfEmpty(hash, prefix);
        return emptyRoots.Get(DEPTH - depth);
      }
      if depth == DEPTH {
        var key :| key in nodes;
        LeafAtKey(nodes, key, prefix);
        return nodes[key];
      }
      hide HasPrefix, Dense, DenseRoot, Group, KeyBit, SmtNode, EmptyRoot;
      var leftGroup, rightGroup := SplitByBit(nodes, depth);
      GroupsUnder(nodes, prefix);
      var leftHash := ComputeSubtreeRoot(leftGroup, depth + 1, prefix + [false]);
      var rightHash := ComputeSubtreeRoot(rightGroup, depth + 1, prefix + [true]);
      DenseOfGroups(hash, nodes, prefix);
      EmptyRootIs(hash, DEPTH - depth);
      if leftHash == emptyRoots.Get(DEPTH - depth - 1) && rightHash == emptyRoots.Get(DEPTH - depth - 1) {
        root := emptyRoots.Get(DEPTH - depth);
      } else {
        root := SmtNode(hash, leftHash, rightHash);
      }
    }
  }

  lemma GroupsUnder(nodes: Leaves, prefix: Path)
    requires |prefix| < DEPTH && forall key :: key in nodes ==> HasPrefix(key, prefix)
    ensures forall key :: key in Group(nodes, |prefix|, false) ==> HasPrefix(key, prefix + [false])
    ensures forall key :: key in Group(nodes, |prefix|, true) ==> HasPrefix(key, prefix + [true])
  {
    hide HasPrefix, KeyBit;
    forall key | key in nodes ensures HasPrefix(key, prefix + [KeyBit(key, |prefix|)]) {
      PrefixExtends(key, prefix, KeyBit(key, |prefix|));
    }
  }

  /** The dense subtree hashes those over the two groups. */
  lemma DenseOfGroups(hash: Hasher, nodes: Leaves, prefix: Path)
    requires |prefix| < DEPTH && forall key :: key in nodes ==> HasPrefix(key, prefix)
    ensures Dense(hash, nodes, prefix)
         == SmtNode(hash, Dense(hash, Group(nodes, |prefix|, false), prefix + [false]),
             Dense(hash, Group(nodes, |prefix|, true), prefix + [true]))
  {
    hide HasPrefix, KeyBit, Group, SmtNode;
    GroupAgrees(nodes, Group(nodes, |prefix|, false), prefix, false);
    GroupAgrees(nodes, Group(nodes, |prefix|, true), prefix, true);
    DenseDependsOnPrefix(hash, nodes, Group(nodes, |prefix|, false), prefix + [false]);
    DenseDependsOnPrefix(hash, nodes, Group(nodes, |prefix|, true), prefix + [true]);
  }

  /** The grouping loop, over the keys in any order. */
  method SplitByBit(nodes: Leaves, depth: nat) returns (leftGroup: Leaves, rightGroup: Leaves)
    requires depth < DEPTH
    ensures leftGroup == Group(nodes, depth, false) && rightGroup == Group(nodes, depth, true)
  {
    leftGroup, rightGroup := map[], map[];
    var remaining := nodes.Keys;
    while remaining != {}
      invariant remaining <= nodes.Keys
      invariant leftGroup == Group(nodes - remaining, depth, false)
      invariant rightGroup == Group(nodes - remaining, depth, true)
      decreases |remaining|
    {
      var key :| key in remaining;
      if KeyBit(key, depth) {
        rightGroup := rightGroup[key := nodes[key]];
      } else {
        leftGroup := leftGroup[key := nodes[key]];
      }
      remaining := remaining - {key};
    }
    assert nodes - remaining == nodes;
  }

  function Group(nodes: Leaves, depth: nat, bit: bool): Leaves
    requires depth < DEPTH
  {
    map key | key in nodes && KeyBit(key, depth) == bit :: nodes[key]
  }

  lemma GroupAgrees(nodes: Leaves, group: Leaves, prefix: Path, bit: bool)
    requires |prefix| < DEPTH && group == Group(nodes, |prefix|, bit)
    ensures AgreeUnder(nodes, group, prefix + [bit])
  {
    forall key | HasPrefix(key, prefix + [bit])
      ensures (key in nodes <==> key in group) && (key in nodes && key in group ==> nodes[key] == group[key])
    {
      PrefixExtends(key, prefix, bit);
    }
  }

  // ---------------------------------------------------------------------------------------------
  // Histories and binding.

  function UpdateLeaves(hash: Hasher, leaves: Leaves, key: Hash, value: Bytes): Leaves {
    if value == [] then leaves - {key} else leaves[key := SmtLeaf(hash, key, value)]
  }

  datatype Op = Update(key: Hash, value: Bytes) | Delete(key: Hash)

  /** The leaves after a history of operations on an empty tree. */
  function RunLeaves(hash: Hasher, ops: seq<Op>): Leaves {
    if ops == [] then map[]
    else
      var before := RunLeaves(hash, ops[..|ops| - 1]);
      match ops[|ops| - 1]
      case Update(key, value) => UpdateLeaves(hash, before, key, value)
      case Delete(key) => before - {key}
  }

  /** The plain key-value map the same history describes: an empty value is no value. */
  function RunMap(ops: seq<Op>): (m: map<Hash, Bytes>)
    ensures forall key :: key in m ==> m[key] != []
  {
    if ops == [] then map[]
    else
      var before := RunMap(ops[..|ops| - 1]);
      match ops[|ops| - 1]
      case Update(key, value) => if value == [] then before - {key} else before[key := value]
      case Delete(key) => before - {key}
  }

  function LeavesOf(hash: Hasher, m: map<Hash, Bytes>): Leaves {
    map key | key in m :: SmtLeaf(hash, key, m[key])
  }

  lemma {:induction false} RunLeavesIsMap(hash: Hasher, ops: seq<Op>)
    ensures RunLeaves(hash, ops) == LeavesOf(hash, RunMap(ops))
  {
    if ops != [] {
      RunLeavesIsMap(hash, ops[..|ops| - 1]);
    }
  }

  /** Whatever the hash function: histories that end in one map have one root. */
  lemma RootForgetsHistory(hash: Hasher, s: seq<Op>, t: seq<Op>)
    requires RunMap(s) == RunMap(t)
    ensures DenseRoot(hash, RunLeaves(hash, s)) == DenseRoot(hash, RunLeaves(hash, t))
  {
    RunLeavesIsMap(hash, s);
    RunLeavesIsMap(hash, t);
  }

  /** The inputs hashed for the nodes of the dense tree under a prefix are among these. */
  ghost predicate CoversDense(hash: Hasher, leaves: Leaves, prefix: Path, inputs: set<Preimage>)
    decreases DEPTH - |prefix|
  {
    |prefix| < DEPTH ==>
      && NodeInput(Dense(hash, leaves, prefix + [false]), Dense(hash, leaves, prefix + [true])) in inputs
      && CoversDense(hash, leaves, prefix + [false], inputs)
      && CoversDense(hash, leaves, prefix + [true], inputs)
  }

  /** Equal dense subtrees hold the same leaves. */
  lemma {:induction false} DenseBinds(hash: Hasher, a: Leaves, b: Leaves, prefix: Path, inputs: set<Preimage>)
    requires CollisionFree(hash, inputs)
    requires CoversDense(hash, a, prefix, inputs) && CoversDense(hash, b, prefix, inputs)
    requires ZERO !in a.Values && ZERO !in b.Values
    requires Dense(hash, a, prefix) == Dense(hash, b, prefix)
    ensures AgreeUnder(a, b, prefix)
    decreases DEPTH - |prefix|
  {
    if |prefix| < DEPTH {
      var al, ar := Dense(hash, a, prefix + [false]), Dense(hash, a, prefix + [true]);
      var bl, br := Dense(hash, b, prefix + [false]), Dense(hash, b, prefix + [true]);
      assert NodeInput(al, ar) == NodeInput(bl, br);
      ConcatInjective(al, ar, bl, br);
      DenseBinds(hash, a, b, prefix + [false], inputs);
      DenseBinds(hash, a, b, prefix + [true], inputs);
      forall key | HasPrefix(key, prefix)
        ensures (key in a <==> key in b) && (key in a && key in b ==> a[key] == b[key])
      {
        PrefixExtends(key, prefix, KeyBit(key, |prefix|));
      }
    } else {
      forall key | HasPrefix(key, prefix)
        ensures (key in a <==> key in b) && (key in a && key in b ==> a[key] == b[key])
      {
        LeafAtKey(a, key, prefix);
        LeafAtKey(b, key, prefix);
      }
    }
  }

  /** The inputs hashed for the leaves of a map, and for the dense tree over them, are among these,
      and no leaf hashes to ZERO. */
  ghost predicate CoversMap(hash: Hasher, m: map<Hash, Bytes>, inputs: set<Preimage>) {
    && CoversDense(hash, LeavesOf(hash, m), [], inputs)
    && (forall key :: key in m ==> Preimage(SmtLeafDomain, key + m[key]) in inputs)
    && ZERO !in LeavesOf(hash, m).Values
  }

  /** The root is a name for the key-value map: two histories give the same root if and only if
      they end in the same map, whatever order and detours they took. */
  lemma RootNamesMap(hash: Hasher, s: seq<Op>, t: seq<Op>, inputs: set<Preimage>)
    requires CollisionFree(hash, inputs)
    requires CoversMap(hash, RunMap(s), inputs) && CoversMap(hash, RunMap(t), inputs)
    ensures DenseRoot(hash, RunLeaves(hash, s)) == DenseRoot(hash, RunLeaves(hash, t)) <==> RunMap(s) == RunMap(t)
  {
    RunLeavesIsMap(hash, s);
    RunLeavesIsMap(hash, t);
    if DenseRoot(hash, RunLeaves(hash, s)) == DenseRoot(hash, RunLeaves(hash, t)) {
      DenseBinds(hash, RunLeaves(hash, s), RunLeaves(hash, t), [], inputs);
      LeavesBind(hash, RunMap(s), RunMap(t), inputs);
    }
  }

  lemma LeavesBind(hash: Hasher, m: map<Hash, Bytes>, n: map<Hash, Bytes>, inputs: set<Preimage>)
    requires CollisionFree(hash, inputs) && CoversMap(hash, m, inputs) && CoversMap(hash, n, inputs)
    requires AgreeUnder(LeavesOf(hash, m), LeavesOf(hash, n), [])
    ensures m == n
  {
    forall key: Hash ensures (key in m <==> key in n) && (key in m && key in n ==> m[key] == n[key]) {
      assert HasPrefix(key, []);
      assert key in m <==> key in LeavesOf(hash, m);
      assert key in n <==> key in LeavesOf(hash, n);
      if key in m && key in n {
        assert Digest(hash, Preimage(SmtLeafDomain, key + m[key]))
          == Digest(hash, Preimage(SmtLeafDomain, key + n[key]));
        ConcatInjective(key, m[key], key, n[key]);
      }
    }
  }

  // ---------------------------------------------------------------------------------------------
  // Where a key lies.

  /** What the tree holds for a key: the digest of key and value, or ZERO. */
  function LeafDigest(hash: Hasher, m: map<Hash, Bytes>, key: Hash): Hash {
    if key in m then hash(SmtLeafDomain, key + m[key]) else ZERO
  }

  /** The perfect binary tree over 2^256 leaves, numbered from the left: leaf i belongs to the key that is
      the big-endian form of i, and a node hashes its left child before its right. */
  ghost function Numbered(hash: Hasher, m: map<Hash, Bytes>, level: nat, i: nat): Hash {
    if level == 0 then LeafDigest(hash, m, BigEndian(i, 32))
    else hash(SmtNodeDomain, Numbered(hash, m, level - 1, 2 * i) + Numbered(hash, m, level - 1, 2 * i + 1))
  }

  /** The number a path spells, first bit highest. */
  function Spelled(path: seq<bool>): nat {
    if path == [] then 0 else 2 * Spelled(path[..|path| - 1]) + if path[|path| - 1] then 1 else 0
  }

  lemma SpelledSnoc(path: seq<bool>, bit: bool)
    ensures Spelled(path + [bit]) == 2 * Spelled(path) + if bit then 1 else 0
  {
    assert (path + [bit])[..|path|] == path;
  }

  lemma {:induction false} SpelledInjective(p: seq<bool>, q: seq<bool>)
    requires |p| == |q| && Spelled(p) == Spelled(q)
    ensures p == q
  {
    if p != [] {
      SpelledInjective(p[..|p| - 1], q[..|q| - 1]);
      assert p == p[..|p| - 1] + [p[|p| - 1]] && q == q[..|q| - 1] + [q[|q| - 1]];
    }
  }

  /** The path of a key, as far as some depth. */
  function PathOf(key: Hash, depth: nat): (path: seq<bool>)
    requires depth <= DEPTH
    ensures |path| == depth && forall i :: 0 <= i < depth ==> path[i] == KeyBit(key, i)
  {
    if depth == 0 then [] else PathOf(key, depth - 1) + [KeyBit(key, depth - 1)]
  }

  lemma PathStep(key: Hash, depth: nat)
    requires depth < DEPTH
    ensures Spelled(PathOf(key, depth + 1)) == 2 * Spelled(PathOf(key, depth)) + if KeyBit(key, depth) then 1 else 0
  {
    SpelledSnoc(PathOf(key, depth), KeyBit(key, depth));
  }

  function Bit(b: Byte, i: nat): nat
    requires i < 8
  {
    if ByteBit(b, i) then 1 else 0
  }

  lemma BitsAre(b: Byte)
    ensures Bit(b, 0) == b / 128 % 2 && Bit(b, 1) == b / 64 % 2 && Bit(b, 2) == b / 32 % 2 && Bit(b, 3) == b / 16 % 2
    ensures Bit(b, 4) == b / 8 % 2 && Bit(b, 5) == b / 4 % 2 && Bit(b, 6) == b / 2 % 2 && Bit(b, 7) == b % 2
  {
  }

  lemma OneBit(b: Byte, p: nat)
    requires p in {1, 2, 4, 8, 16, 32, 64}
    ensures b / p == 2 * (b / (2 * p)) + b / p % 2
  {
    HalfOf(b, p);
  }

  /** Four steps of doubling and adding a bit. */
  lemma FourBits(a: nat, b: nat, c: nat, d: nat, v0: int, v1: int, v2: int, v3: int, v4: int)
    requires v1 == 2 * v0 + a && v2 == 2 * v1 + b && v3 == 2 * v2 + c && v4 == 2 * v3 + d
    ensures v4 == 16 * v0 + (8 * a + 4 * b + 2 * c + d)
  {
  }

  lemma HighBits(b: Byte)
    ensures 8 * Bit(b, 0) + 4 * Bit(b, 1) + 2 * Bit(b, 2) + Bit(b, 3) == b / 16
  {
    BitsAre(b);
    hide *;
    OneBit(b, 64);
    OneBit(b, 32);
    OneBit(b, 16);
  }

  lemma LowBits(b: Byte)
    ensures 16 * (b / 16) + (8 * Bit(b, 4) + 4 * Bit(b, 5) + 2 * Bit(b, 6) + Bit(b, 7)) == b
  {
    BitsAre(b);
    hide *;
    OneBit(b, 8);
    OneBit(b, 4);
    OneBit(b, 2);
    OneBit(b, 1);
  }

  lemma BitStep(key: Hash, n: nat, i: nat)
    requires n < 32 && i < 8
    ensures 8 * n + i + 1 <= DEPTH
    ensures Spelled(PathOf(key, 8 * n + i + 1)) == 2 * Spelled(PathOf(key, 8 * n + i)) + Bit(key[n], i)
  {
    hide Spelled, PathOf, ByteBit;
    assert (8 * n + i) / 8 == n && (8 * n + i) % 8 == i;
    PathStep(key, 8 * n + i);
  }

  lemma EightBits(key: Hash, n: nat)
    requires n < 32
    ensures 8 * n + 8 <= DEPTH
    ensures Spelled(PathOf(key, 8 * n + 8)) == 256 * Spelled(PathOf(key, 8 * n)) + key[n]
  {
    hide *;
    FourMore(key, n, 0);
    FourMore(key, n, 4);
    HighBits(key[n]);
    LowBits(key[n]);
  }

  lemma FourMore(key: Hash, n: nat, i: nat)
    requires n < 32 && i <= 4
    ensures 8 * n + i + 4 <= DEPTH
    ensures Spelled(PathOf(key, 8 * n + i + 4)) == 16 * Spelled(PathOf(key, 8 * n + i))
      + (8 * Bit(key[n], i) + 4 * Bit(key[n], i + 1) + 2 * Bit(key[n], i + 2) + Bit(key[n], i + 3))
  {
    hide *;
    BitStep(key, n, i);
    BitStep(key, n, i + 1);
    BitStep(key, n, i + 2);
    BitStep(key, n, i + 3);
    var d := 8 * n + i;
    FourBits(Bit(key[n], i), Bit(key[n], i + 1), Bit(key[n], i + 2), Bit(key[n], i + 3), Spelled(PathOf(key, d)),
      Spelled(PathOf(key, d + 1)), Spelled(PathOf(key, d + 2)), Spelled(PathOf(key, d + 3)),
        Spelled(PathOf(key, d + 4)));
  }

  /** The bits of the first n bytes spell the number those bytes are. */
  lemma {:induction false} BytesSpelled(key: Hash, n: nat)
    requires n <= 32
    ensures Spelled(PathOf(key, 8 * n)) == FromBigEndian(key[..n])
    decreases n
  {
    hide *;
    LastByte(key, n);
    if n == 0 {
      NothingSpelled(key);
    } else {
      BytesSpelled(key, n - 1);
      EightBits(key, n - 1);
      assert 8 * (n - 1) + 8 == 8 * n;
    }
  }

  lemma LastByte(key: Hash, n: nat)
    requires n <= 32
    ensures n == 0 ==> FromBigEndian(key[..n]) == 0
    ensures n > 0 ==> FromBigEndian(key[..n]) == 256 * FromBigEndian(key[..n - 1]) + key[n - 1]
    ensures 8 * n <= DEPTH
  {
    if n > 0 {
      assert key[..n][..n - 1] == key[..n - 1];
    }
  }

  lemma NothingSpelled(key: Hash)
    ensures Spelled(PathOf(key, 0)) == 0
  {
  }

  /** A full path is that of the key its number is the big-endian form of. */
  lemma SpelledKey(path: Path)
    requires |path| == DEPTH
    ensures HasPrefix(BigEndian(Spelled(path), 32), path)
  {
    var key := BigEndian(Spelled(path), 32);
    SpelledBound(path);
    BigEndianRoundTrip(Spelled(path), 32);
    BytesSpelled(key, 32);
    assert key[..32] == key;
    hide KeyBit, Spelled, BigEndian, FromBigEndian, Pow256;
    SpelledInjective(PathOf(key, DEPTH), path);
  }

  function Pow2(n: nat): nat {
    if n == 0 then 1 else 2 * Pow2(n - 1)
  }

  lemma {:induction false} SpelledBelow(path: seq<bool>)
    ensures Spelled(path) < Pow2(|path|)
  {
    if path != [] {
      SpelledBelow(path[..|path| - 1]);
    }
  }

  lemma {:induction false} BytesOfBits(n: nat)
    ensures Pow2(8 * n) == Pow256(n)
  {
    if n > 0 {
      BytesOfBits(n - 1);
      var k := 8 * (n - 1);
      assert Pow2(k + 8) == 2 * Pow2(k + 7) == 4 * Pow2(k + 6) == 8 * Pow2(k + 5) == 16 * Pow2(k + 4);
      assert Pow2(k + 4) == 2 * Pow2(k + 3) == 4 * Pow2(k + 2) == 8 * Pow2(k + 1) == 16 * Pow2(k);
    }
  }

  lemma SpelledBound(path: Path)
    requires |path| == DEPTH
    ensures Spelled(path) < Pow256(32)
  {
    SpelledBelow(path);
    BytesOfBits(32);
  }

  /** The dense tree, and so the root the node computes, is that perfect tree: each key's leaf lies at the
      place its 256 bits number. */
  lemma {:induction false} DenseIsNumbered(hash: Hasher, m: map<Hash, Bytes>, prefix: Path)
    ensures Dense(hash, LeavesOf(hash, m), prefix) == Numbered(hash, m, DEPTH - |prefix|, Spelled(prefix))
    decreases DEPTH - |prefix|
  {
    hide KeyBit, HasPrefix, BigEndian, Spelled, LeafAt;
    if |prefix| == DEPTH {
      var key: Hash := BigEndian(Spelled(prefix), 32);
      SpelledKey(prefix);
      LeafAtKey(LeavesOf(hash, m), key, prefix);
    } else {
      SpelledSnoc(prefix, false);
      SpelledSnoc(prefix, true);
      DenseIsNumbered(hash, m, prefix + [false]);
      DenseIsNumbered(hash, m, prefix + [true]);
    }
  }

  /** The root over a key-value map, and the place of each key. */
  lemma RootIsNumbered(hash: Hasher, m: map<Hash, Bytes>)
    ensures DenseRoot(hash, LeavesOf(hash, m)) == Numbered(hash, m, 256, 0)
  {
    DenseIsNumbered(hash, m, []);
    hide Dense, Numbered;
  }
}
