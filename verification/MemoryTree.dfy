/** ts/tree/memoryTree.ts: the client's sparse Merkle tree, whose levels are overwritten in place. */
module MemoryTrees {
  import opened Words
  import opened Merkle
  import opened MerkleTree

  datatype TreeError =
    EmptyArray | ExceedTreeSize | NegativeIndex | MismatchLength | MismatchHash | BadMergeAlignment | MissingNode
  datatype Result<+T> = Success(value: T) | Failure(error: TreeError)

  /** Nodes of one level that were ever written. */
  type Level = map<nat, Hash>

  /** `path[i]` says that the node at step `i` is a left child; `dataHash` is the hash of the raw data, if it comes with
      any. */
  datatype WitnessData =
    WitnessData(path: seq<bool>, nodes: seq<Hash>, leaf: Hash, index: nat, depth: nat, dataHash: Option<Hash>)

  // -------------------------------------------------------------------------------------------- JavaScript's operators

  /** `x >> 1`. */
  function Half(x: int): int {
    ToInt32(x) / 2
  }

  /** `x & 1`. */
  function LowBit(x: int): int {
    ToInt32(x) % 2
  }

  /** `x ^ 1`. */
  function Flip(x: int): int {
    if ToInt32(x) % 2 == 0 then ToInt32(x) + 1 else ToInt32(x) - 1
  }

  // ------------------------------------------------------------------------------------------------ levels as values

  function NodeAt(tree: seq<Level>, zeros: seq<Hash>, level: nat, index: nat): Hash
    requires level < |tree| == |zeros|
  {
    if index in tree[level] then tree[level][index] else zeros[level]
  }

  function Write(tree: seq<Level>, level: nat, index: nat, node: Hash): seq<Level>
    requires level < |tree|
  {
    var nodes: Level := tree[level][index := node];
    tree[level := nodes]
  }

  /** A node is the hash of its two children. */
  ghost predicate Hashed(tree: seq<Level>, zeros: seq<Hash>, level: nat, index: nat)
    requires level + 1 < |tree| == |zeros|
  {
    NodeAt(tree, zeros, level, index)
      == Pair(NodeAt(tree, zeros, level + 1, 2 * index), NodeAt(tree, zeros, level + 1, 2 * index + 1))
  }

  ghost predicate AreZeros(zeros: seq<Hash>) {
    forall l :: 0 <= l < |zeros| ==> zeros[l] == Zero(|zeros| - 1 - l)
  }

  /** Every node is hashed, except possibly those above `level` whose children lie in [from, to). */
  ghost predicate HashedBut(tree: seq<Level>, zeros: seq<Hash>, level: nat, from: int, to: int)
    requires |tree| == |zeros|
  {
    && (forall l: nat, i: nat :: l + 1 < |tree| && l + 1 != level ==> Hashed(tree, zeros, l, i))
    && (forall l: nat, i: nat :: l + 1 < |tree| && l + 1 == level && (2 * i + 1 < from || to <= 2 * i) ==>
          Hashed(tree, zeros, l, i))
  }

  lemma {:induction false} HashedIsNode(tree: seq<Level>, zeros: seq<Hash>, level: nat, i: nat)
    requires level < |tree| == |zeros| && AreZeros(zeros)
    requires forall l: nat, i: nat :: l + 1 < |tree| ==> Hashed(tree, zeros, l, i)
    ensures NodeAt(tree, zeros, level, i) == Node(tree[|tree| - 1], |tree| - 1 - level, i)
    decreases |tree| - level
  {
    if level + 1 < |tree| {
      HashedIsNode(tree, zeros, level + 1, 2 * i);
      HashedIsNode(tree, zeros, level + 1, 2 * i + 1);
      assert Hashed(tree, zeros, level, i);
    }
  }

  /** Writing one node matters only to that node and its parent. */
  lemma WriteKeeps(tree: seq<Level>, zeros: seq<Hash>, level: nat, index: nat, node: Hash)
    requires level < |tree| == |zeros|
    ensures forall l: nat, i: nat ::
              l + 1 < |tree| && !(l == level && i == index) && !(l + 1 == level && i == index / 2) ==>
                Hashed(tree, zeros, l, i) == Hashed(Write(tree, level, index, node), zeros, l, i)
  {
  }

  /** `leaves` written one after the other from `offset` on. */
  function Overlay(m: Leaves, offset: nat, leaves: seq<Hash>): Leaves {
    if leaves == [] then m else
      var n := |leaves| - 1;
      Overlay(m, offset, leaves[..n])[offset + n := leaves[n]]
  }

  lemma {:induction false} OverlayAt(m: Leaves, offset: nat, leaves: seq<Hash>, p: nat)
    ensures At(Overlay(m, offset, leaves), p)
         == if offset <= p < offset + |leaves| then leaves[p - offset] else At(m, p)
  {
    if leaves != [] {
      OverlayAt(m, offset, leaves[..|leaves| - 1], p);
    }
  }

  // ------------------------------------------------------------------------------------------------ the tree

  /** Hasher.zeros: the empty subtree roots, from the root level down to the leaves. */
  method Zeros(depth: nat) returns (zeros: seq<Hash>)
    ensures |zeros| == depth + 1 && AreZeros(zeros)
  {
    var n := depth + 1;
    zeros := seq(n, _ => Empty);
    for i := 1 to n
      invariant |zeros| == n
      invariant forall l :: n - i <= l < n ==> zeros[l] == Zero(n - 1 - l)
    {
      zeros := zeros[n - 1 - i := Pair(zeros[n - i], zeros[n - i])];
    }
  }

  class MemoryTree {
    const depth: nat
    const setSize: nat
    const zeros: seq<Hash>
    var tree: seq<Level>

    ghost predicate Shaped()
      reads this
    {
      |tree| == depth + 1 == |zeros| && AreZeros(zeros) && setSize == Pow2(depth)
    }

    ghost predicate Valid()
      reads this
    {
      Shaped() && forall l: nat, i: nat :: l + 1 < |tree| ==> Hashed(tree, zeros, l, i)
    }

    /** The leaves written so far. */
    ghost function Leaves(): Leaves
      requires Shaped()
      reads this
    {
      tree[depth]
    }

    constructor (depth: nat)
      ensures Valid() && this.depth == depth && Leaves() == map[]
    {
      this.depth := depth;
      this.setSize := Pow2(depth);
      this.tree := seq(depth + 1, _ => map[]);
      var zeros := Zeros(depth);
      this.zeros := zeros;
    }

    function GetNode(level: nat, index: nat): (node: Hash)
      requires Shaped() && level <= depth
      reads this
    {
      NodeAt(tree, zeros, level, index)
    }

    function RootNode(): Hash
      requires Shaped()
      reads this
    {
      GetNode(0, 0)
    }

    /** Every node, at every level and index, is the node of the recursive tree over the leaves. */
    lemma Meaning(level: nat, index: nat)
      requires Valid() && level <= depth
      ensures GetNode(level, index) == Node(Leaves(), depth - level, index)
    {
      HashedIsNode(tree, zeros, level, index);
    }

    method UpdateCouple(level: nat, leafIndex: nat)
      requires Shaped() && 0 < level <= depth && leafIndex % 2 == 0
      modifies `tree
      ensures tree == Write(old(tree), level - 1, leafIndex / 2,
                            Pair(old(GetNode(level, leafIndex)), old(GetNode(level, leafIndex + 1))))
    {
      var n := Pair(GetNode(level, leafIndex), GetNode(level, leafIndex + 1));
      tree := Write(tree, level - 1, leafIndex / 2, n);
    }

    /** The inner loop of `ascend`: rehash the parents of an aligned range. */
    method RehashLevel(level: nat, offset: nat, len: nat)
      requires Shaped() && 0 < level <= depth && offset % 2 == 0 && len % 2 == 0
      requires HashedBut(tree, zeros, level, offset, offset + len)
      modifies `tree
      ensures Shaped() && Leaves() == old(Leaves())
      ensures HashedBut(tree, zeros, level - 1, offset / 2, (offset + len) / 2)
    {
      var node := offset;
      while node < offset + len
        invariant offset <= node <= offset + len && node % 2 == 0
        invariant Shaped() && Leaves() == old(Leaves())
        invariant forall l: nat, i: nat :: l + 1 < |tree| && l + 1 != level && l + 2 != level ==>
                    Hashed(tree, zeros, l, i)
        invariant forall l: nat, i: nat :: l + 1 == level && (i < node / 2 || (offset + len) / 2 <= i) ==>
                    Hashed(tree, zeros, l, i)
        invariant forall l: nat, i: nat :: l + 2 == level && (2 * i + 1 < offset / 2 || (offset + len) / 2 <= 2 * i) ==>
                    Hashed(tree, zeros, l, i)
      {
        WriteKeeps(tree, zeros, level - 1, node / 2, Pair(GetNode(level, node), GetNode(level, node + 1)));
        UpdateCouple(level, node);
        assert Hashed(tree, zeros, level - 1, node / 2);
        node := node + 2;
      }
    }

    /** Rehash everything above the range [offset, offset + len) of leaves.  Past 2^31 the shifts would go wrong. */
    method Ascend(offset0: nat, len0: nat)
      requires Shaped() && len0 > 0 && offset0 + len0 <= TWO_31 && len0 + 2 < TWO_31
      requires HashedBut(tree, zeros, depth, offset0, offset0 + len0)
      modifies `tree
      ensures Valid() && Leaves() == old(Leaves())
    {
      hide Half, LowBit, Hashed;
      var offset: nat, len: nat := offset0, len0;
      var level: nat := depth;
      while level > 0
        invariant Shaped() && level <= depth && Leaves() == old(Leaves())
        invariant 0 < len && offset + len <= TWO_31 && len + 2 < TWO_31
        invariant HashedBut(tree, zeros, level, offset, offset + len)
      {
        SmallInt32(offset);
        SmallInt32(len);
        SmallInt32(len + 1);
        if LowBit(offset) == 1 {
          offset := offset - 1;
          len := len + 1;
        }
        if LowBit(len) == 1 {
          len := len + 1;
        }
        RehashLevel(level, offset, len);
        SmallInt32(offset);
        SmallInt32(len);
        offset := Half(offset);
        len := Half(len);
        level := level - 1;
      }
    }

    method UpdateSingle(leafIndex: int, leaf: Hash) returns (r: Result<()>)
      requires Valid() && leafIndex < TWO_31
      modifies `tree
      ensures Valid()
      ensures r.Success? <==> 0 <= leafIndex < setSize
      ensures Leaves() == if r.Success? then old(Leaves())[leafIndex := leaf] else old(Leaves())
    {
      if leafIndex >= setSize {
        return Failure(ExceedTreeSize);
      }
      if leafIndex < 0 {
        return Failure(NegativeIndex);
      }
      WriteKeeps(tree, zeros, depth, leafIndex, leaf);
      tree := Write(tree, depth, leafIndex, leaf);
      Ascend(leafIndex, 1);
      return Success(());
    }

    method UpdateBatch(offset: nat, leaves: seq<Hash>) returns (r: Result<()>)
      requires Valid() && offset + |leaves| <= TWO_31 && |leaves| + 2 < TWO_31
      modifies `tree
      ensures Valid()
      ensures r.Success? <==> 0 < |leaves| && offset + |leaves| <= setSize
      ensures Leaves() == if r.Success? then Overlay(old(Leaves()), offset, leaves) else old(Leaves())
    {
      if |leaves| == 0 {
        return Failure(EmptyArray);
      }
      if offset + |leaves| - 1 >= setSize {
        return Failure(ExceedTreeSize);
      }
      for i := 0 to |leaves|
        invariant Shaped()
        invariant HashedBut(tree, zeros, depth, offset, offset + |leaves|)
        invariant Leaves() == Overlay(old(Leaves()), offset, leaves[..i])
      {
        WriteKeeps(tree, zeros, depth, offset + i, leaves[i]);
        tree := Write(tree, depth, offset + i, leaves[i]);
        assert leaves[..i + 1][..i] == leaves[..i];
      }
      assert leaves[..|leaves|] == leaves;
      Ascend(offset, |leaves|);
      return Success(());
    }

    /** The siblings on the way up from node `index` at level `k`, and which way each step goes. */
    method Witness(index: nat, k: nat) returns (w: WitnessData)
      requires Valid() && k <= depth && index < TWO_31
      ensures w.index == index && w.depth == k && w.leaf == Node(Leaves(), depth - k, index)
      ensures w.nodes == Merkle.Witness(Leaves(), depth - k, index, k)
      ensures w.path == Flags(index, k)
      ensures index < Pow2(k) ==> ClimbFlags(w.leaf, w.path, w.nodes) == RootNode()
    {
      hide Merkle.Witness, Node, Hashed, Flip, Half, LowBit, Sibling, ClimbFlags, Flags, Leaves;
      ghost var m, h := Leaves(), depth - k;
      var path, nodes := [], [];
      var nodeIndex: nat := index;
      Meaning(k, index);
      var leaf := GetNode(k, nodeIndex);
      NothingYet(m, h, index);
      for i := 0 to k
        invariant nodeIndex == Shr(index, i) < TWO_31
        invariant nodes == Merkle.Witness(m, h, index, i)
        invariant path == Flags(index, i)
      {
        WitnessSnoc(m, h, index, i);
        FlagsSnoc(index, i);
        FlipIsSibling(nodeIndex);
        nodeIndex := Flip(nodeIndex);
        Meaning(k - i, nodeIndex);
        nodes := nodes + [GetNode(k - i, nodeIndex)];
        path := path + [LowBit(nodeIndex) == 1];
        nodeIndex := Half(nodeIndex);
      }
      WitnessChecks(m, depth, k, index);
      Meaning(0, 0);
      return WitnessData(path, nodes, leaf, index, k, None);
    }

    method WitnessForBatch(mergeOffsetLower: nat, subtreeDepth: nat) returns (r: Result<WitnessData>)
      requires Valid() && subtreeDepth <= depth && mergeOffsetLower + Pow2(subtreeDepth) <= TWO_31
      ensures r.Success? <==> Low(mergeOffsetLower, subtreeDepth) == 0
      ensures r.Success? ==>
                && r.value.index == Shr(mergeOffsetLower, subtreeDepth)
                && r.value.leaf == Node(Leaves(), subtreeDepth, r.value.index)
                && r.value.nodes == Merkle.Witness(Leaves(), subtreeDepth, r.value.index, depth - subtreeDepth)
    {
      var mergeSize := Pow2(subtreeDepth);
      var mergeOffsetUpper := mergeOffsetLower + mergeSize;
      var pathFollower := Shr(mergeOffsetLower, subtreeDepth);
      var subtreeRootIndexUpper := Shr(mergeOffsetUpper - 1, subtreeDepth);
      Aligned(mergeOffsetLower, subtreeDepth);
      if pathFollower != subtreeRootIndexUpper {
        return Failure(BadMergeAlignment);
      }
      ShrAtMost(mergeOffsetLower, subtreeDepth);
      var w := Witness(pathFollower, depth - subtreeDepth);
      return Success(w);
    }

    /** Recomputes the root from the form of the witness.  As many nodes are used as the witness names levels, or the
        tree has; hashing one that is not there throws.  Raw data must be that of the leaf, with a whole witness. */
    method CheckInclusion(w: WitnessData) returns (r: Result<bool>)
      requires Shaped()
      ensures var depth := if w.depth != 0 then w.depth else depth;
              r == if |w.nodes| == 0 then Failure(EmptyArray)
                   else if |w.nodes| != |w.path| then Failure(MismatchLength)
                   else if w.dataHash.Some? && |w.nodes| != this.depth then Failure(MismatchLength)
                   else if w.dataHash.Some? && w.dataHash.value != w.leaf then Failure(MismatchHash)
                   else if depth > |w.nodes| then Failure(MissingNode)
                   else Success(ClimbFlags(w.leaf, w.path[..depth], w.nodes[..depth]) == RootNode())
    {
      if |w.nodes| == 0 {
        return Failure(EmptyArray);
      }
      if |w.nodes| != |w.path| {
        return Failure(MismatchLength);
      }
      if w.dataHash.Some? {
        if |w.nodes| != this.depth {
          return Failure(MismatchLength);
        }
        if w.dataHash.value != w.leaf {
          return Failure(MismatchHash);
        }
      }
      var depth := if w.depth != 0 then w.depth else this.depth;
      var leaf := w.leaf;
      for i := 0 to depth
        invariant i <= |w.nodes| && leaf == ClimbFlags(w.leaf, w.path[..i], w.nodes[..i])
      {
        if i >= |w.nodes| {
          return Failure(MissingNode);
        }
        ClimbFlagsSnoc(w.leaf, w.path[..i + 1], w.nodes[..i + 1]);
        assert w.path[..i + 1][..i] == w.path[..i] && w.nodes[..i + 1][..i] == w.nodes[..i];
        var node := w.nodes[i];
        if w.path[i] {
          leaf := Pair(leaf, node);
        } else {
          leaf := Pair(node, leaf);
        }
      }
      return Success(leaf == RootNode());
    }
  }

  lemma NothingYet(m: Leaves, h: nat, index: nat)
    ensures Merkle.Witness(m, h, index, 0) == [] && Flags(index, 0) == [] && Shr(index, 0) == index
  {
  }

  lemma SmallInt32(x: nat)
    requires x < TWO_31
    ensures Half(x) == x / 2 && LowBit(x) == x % 2
  {
  }

  /** Halving by a shift is right exactly below 2^31; from there on the parent's index comes out negative. */
  lemma HalfIsExact(x: nat)
    requires x < 0x1_0000_0000
    ensures Half(x) == x / 2 <==> x < TWO_31
    ensures x >= TWO_31 ==> Half(x) < 0
  {
    if x >= TWO_31 {
      assert ToInt32(x) == x - 0x1_0000_0000;
    }
  }

  lemma FlipIsSibling(i: nat)
    requires i < TWO_31
    ensures Flip(i) == Sibling(i) < TWO_31 && Half(Flip(i)) == i / 2 && LowBit(Flip(i)) == 1 - i % 2
  {
  }

  lemma WitnessChecks(m: Leaves, depth: nat, k: nat, index: nat)
    requires k <= depth
    ensures index < Pow2(k) ==>
              var w := Merkle.Witness(m, depth - k, index, k);
              ClimbFlags(Node(m, depth - k, index), Flags(index, k), w) == Root(m, depth)
  {
    ClimbFlagsIsClimb(Node(m, depth - k, index), Merkle.Witness(m, depth - k, index, k), index);
    ClimbWitness(m, depth - k, index, index, k);
    ShrZero(index, k);
  }

  lemma {:induction false} OverlayOfNothing(leaves: seq<Hash>)
    ensures Overlay(map[], 0, leaves) == Padded(leaves)
  {
    if leaves != [] {
      OverlayOfNothing(leaves[..|leaves| - 1]);
    }
  }

  /** A range of 2^k positions lies under one node at height k only if it starts at a multiple of 2^k. */
  lemma {:induction false} Aligned(x: nat, k: nat)
    ensures Shr(x + Pow2(k) - 1, k) == Shr(x, k) <==> Low(x, k) == 0
  {
    if k > 0 {
      ShrHalf(x, k - 1);
      ShrHalf(x + Pow2(k) - 1, k - 1);
      if x % 2 == 0 {
        assert (x + Pow2(k) - 1) / 2 == x / 2 + Pow2(k - 1) - 1;
        Aligned(x / 2, k - 1);
      } else {
        assert (x + Pow2(k) - 1) / 2 == x / 2 + Pow2(k - 1);
        ShrPlus(x / 2, k - 1);
      }
    }
  }

  lemma {:induction false} ShrPlus(x: nat, k: nat)
    ensures Shr(x + Pow2(k), k) == Shr(x, k) + 1
  {
    if k > 0 {
      ShrHalf(x, k - 1);
      ShrHalf(x + Pow2(k), k - 1);
      ShrPlus(x / 2, k - 1);
    }
  }

  /** The tree of a list of leaves is the same one that the contract's `merklize` hashes. */
  method Merklize(leaves: seq<Hash>) returns (r: Result<MemoryTree>)
    requires |leaves| + 2 < TWO_31
    ensures r.Success? <==> leaves != []
    ensures r.Success? ==>
              && fresh(r.value) && r.value.Valid() && r.value.depth == MinTreeDepth(|leaves|)
              && r.value.Leaves() == Padded(leaves) && r.value.RootNode() == Merklized(leaves)
  {
    if leaves == [] {
      return Failure(EmptyArray);
    }
    var tree := new MemoryTree(MinTreeDepth(|leaves|));
    CeilLog2IsLeast(|leaves|);
    var _ := tree.UpdateBatch(0, leaves);
    OverlayOfNothing(leaves);
    tree.Meaning(0, 0);
    return Success(tree);
  }
}
