/** contracts/AccountTree.sol: an append-only Merkle tree of public keys that stores one filled subtree per level.  The
    left half takes single keys, the right half batches of 16. */
module AccountTrees {
  import opened Words
  import opened Merkle
  import opened MerkleTree

  const DEPTH: nat := 31
  const SET_SIZE: nat := 0x8000_0000
  const BATCH_DEPTH: nat := 4
  const BATCH_SIZE: nat := 16

  /** A half of 2^31 leaves is a tree of depth 31, a batch of 16 one of depth 4. */
  lemma Sizes()
    ensures SET_SIZE == Pow2(DEPTH) == Pow2(31) && BATCH_SIZE == Pow2(BATCH_DEPTH) == Pow2(4)
  {
    Pow2Constants();
  }

  // ------------------------------------------------------------------------------------------------ the frontier

  /** `n` subtrees of height `base` are in place, and nothing after them. */
  ghost predicate Appended(m: Leaves, base: nat, n: nat) {
    forall p: nat :: Shr(p, base) >= n ==> At(m, p) == Empty
  }

  /** The two trees differ at most below the `n`-th subtree of height `base`. */
  ghost predicate SameBut(m: Leaves, m': Leaves, base: nat, n: nat) {
    forall p: nat :: Shr(p, base) != n ==> At(m, p) == At(m', p)
  }

  /** Empty roots by height. */
  ghost predicate AreZeros(zeros: seq<Hash>) {
    forall i :: 0 <= i < |zeros| ==> zeros[i] == Zero(i)
  }

  /** What the frontier has to hold: where the count has a 1 bit, the left sibling on the path of the next subtree. */
  ghost predicate Frontier(filled: seq<Hash>, m: Leaves, base: nat, n: nat) {
    forall i :: 0 <= i < |filled| && Shr(n, i) % 2 == 1 ==> filled[i] == Node(m, base + i, Shr(n, i) - 1)
  }

  /** `m'` is `m` with one more subtree after the first `n`. */
  ghost predicate NextSubtree(m: Leaves, m': Leaves, base: nat, n: nat) {
    Appended(m', base, n + 1) && SameBut(m, m', base, n)
  }

  /** One half of the account tree: its root and frontier are those of its leaves, `n` subtrees of height `base`. */
  ghost predicate Half(root: Hash, filled: seq<Hash>, m: Leaves, base: nat, n: nat) {
    base + |filled| == DEPTH && Frontier(filled, m, base, n) && root == Root(m, DEPTH)
  }

  /** Level `i` of the climb of a new subtree. */
  ghost predicate Climbed(leaf: Hash, m: Leaves, base: nat, n: nat, i: nat) {
    leaf == Node(m, base + i, Shr(n, i))
  }

  lemma {:induction false} ShrMono(x: nat, y: nat, k: nat)
    requires x <= y
    ensures Shr(x, k) <= Shr(y, k)
  {
    if k > 0 {
      ShrMono(x, y, k - 1);
    }
  }

  /** To the right of the newest subtree everything is empty. */
  lemma RightIsZero(m: Leaves, base: nat, n: nat, i: nat, k: nat)
    requires Appended(m, base, n + 1) && k > Shr(n, i)
    ensures Node(m, base + i, k) == Zero(base + i)
  {
    forall p: nat | Shr(p, base + i) == k
      ensures At(m, p) == Empty
    {
      ShrShr(p, base, i);
      if Shr(p, base) <= n {
        ShrMono(Shr(p, base), n, i);
      }
    }
    NodeOfEmpty(m, base + i, k);
  }

  /** To the left of the newest subtree nothing has changed. */
  lemma LeftIsOld(m: Leaves, m': Leaves, base: nat, n: nat, i: nat, k: nat)
    requires SameBut(m, m', base, n)
    requires k != Shr(n, i)
    ensures Node(m, base + i, k) == Node(m', base + i, k)
  {
    forall p: nat | Shr(p, base + i) == k
      ensures At(m, p) == At(m', p)
    {
      ShrShr(p, base, i);
    }
    NodeAgree(m, m', base + i, k);
  }

  /** Adding one clears the trailing 1 bits and sets the first 0 bit. */
  lemma {:induction false} Increment(n: nat, next: nat, z: nat)
    requires next == n + 1
    requires Shr(n, z) % 2 == 0 && forall i :: 0 <= i < z ==> Shr(n, i) % 2 == 1
    ensures forall i: nat :: i < z ==> Shr(next, i) % 2 == 0
    ensures Shr(next, z) == Shr(n, z) + 1
    ensures forall i: nat :: i > z ==> Shr(next, i) == Shr(n, i)
  {
    TrailingOnes(n, next, z);
    forall i: nat | i > z
      ensures Shr(next, i) == Shr(n, i)
    {
      ShrShr(next, z, i - z);
      ShrShr(n, z, i - z);
      ShrHalf(Shr(n, z), i - z - 1);
      ShrHalf(Shr(n, z) + 1, i - z - 1);
    }
  }

  lemma {:induction false} TrailingOnes(n: nat, next: nat, z: nat)
    requires next == n + 1 && forall i :: 0 <= i < z ==> Shr(n, i) % 2 == 1
    ensures forall i: nat :: i < z ==> Shr(next, i) % 2 == 0
    ensures Shr(next, z) == Shr(n, z) + 1
  {
    if z > 0 {
      TrailingOnes(n, next, z - 1);
    }
  }

  /** The frontier after a climb that stored level `z`, the first 0 bit of the old count. */
  lemma FrontierAfter(filled: seq<Hash>, filled': seq<Hash>, m: Leaves, m': Leaves, base: nat, n: nat, z: nat)
    requires Frontier(filled, m, base, n) && z < |filled|
    requires SameBut(m, m', base, n)
    requires Shr(n, z) % 2 == 0 && forall i :: 0 <= i < z ==> Shr(n, i) % 2 == 1
    requires filled' == filled[z := Node(m', base + z, Shr(n, z))]
    ensures Frontier(filled', m', base, n + 1)
  {
    Increment(n, n + 1, z);
    forall i | 0 <= i < |filled'| && Shr(n + 1, i) % 2 == 1
      ensures filled'[i] == Node(m', base + i, Shr(n + 1, i) - 1)
    {
      if i > z {
        LeftIsOld(m, m', base, n, i, Shr(n, i) - 1);
      }
    }
  }

  /** Below a count of 2^d - 1 the path of the next subtree has a 0 bit. */
  lemma {:induction false} HasZeroBit(n: nat, d: nat)
    requires n + 1 < Pow2(d)
    ensures exists i :: 0 <= i < d && Shr(n, i) % 2 == 0
  {
    if forall i :: 0 <= i < d ==> Shr(n, i) % 2 == 1 {
      TrailingOnes(n, n + 1, d);
      ShrZero(n + 1, d);
    }
  }

  /** The climb shared by both halves: hash the new subtree up to the root, storing it where the first left turn is.
      `zeros` are the empty roots by height. */
  method Ascend(leafInput: Hash, path0: nat, zeros: seq<Hash>, filled0: seq<Hash>, base: nat,
                ghost root0: Hash, ghost m: Leaves, ghost m': Leaves)
    returns (leaf: Hash, filled: seq<Hash>)
    requires |zeros| == DEPTH && AreZeros(zeros)
    requires Half(root0, filled0, m, base, path0) && base <= DEPTH && path0 + 1 < Pow2(DEPTH - base)
    requires leafInput == Node(m', base, path0) && NextSubtree(m, m', base, path0)
    ensures Half(leaf, filled, m', base, path0 + 1)
  {
    hide Node, Frontier, Appended, SameBut, Pow2;
    leaf, filled := leafInput, filled0;
    var path: nat := path0;
    var subtreeSet := false;
    ghost var z: nat := 0;
    assert Shr(path0, 0) == path0;
    for i := 0 to |filled0|
      invariant path == Shr(path0, i) && |filled| == |filled0|
      invariant Climbed(leaf, m', base, path0, i)
      invariant !subtreeSet ==> filled == filled0 && forall k :: 0 <= k < i ==> Shr(path0, k) % 2 == 1
      invariant subtreeSet ==>
                  && z < i && Shr(path0, z) % 2 == 0 && (forall k :: 0 <= k < z ==> Shr(path0, k) % 2 == 1)
                  && filled == filled0[z := Node(m', base + z, Shr(path0, z))]
    {
      ClimbStep(filled0, m, m', base, path0, i);
      if path % 2 == 1 {
        leaf := Pair(filled[i], leaf);
      } else {
        if !subtreeSet {
          filled := filled[i := leaf];
          subtreeSet := true;
          z := i;
        }
        leaf := Pair(leaf, zeros[base + i]);
      }
      path := path / 2;
    }
    HasZeroBit(path0, |filled0|);
    ShrZero(path0, |filled0|);
    FrontierAfter(filled0, filled, m, m', base, path0, z);
  }

  lemma ClimbStep(filled: seq<Hash>, m: Leaves, m': Leaves, base: nat, n: nat, i: nat)
    requires Frontier(filled, m, base, n) && i < |filled| && Appended(m', base, n + 1)
    requires SameBut(m, m', base, n)
    ensures Node(m', base + i + 1, Shr(n, i + 1))
         == if Shr(n, i) % 2 == 1 then Pair(filled[i], Node(m', base + i, Shr(n, i)))
            else Pair(Node(m', base + i, Shr(n, i)), Zero(base + i))
  {
    if Shr(n, i) % 2 == 1 {
      LeftIsOld(m, m', base, n, i, Shr(n, i) - 1);
    } else {
      RightIsZero(m', base, n, i, Shr(n, i) + 1);
    }
  }

  // ------------------------------------------------------------------------------------------------ batches

  function Shl(b: nat, k: nat): nat {
    if k == 0 then b else 2 * Shl(b, k - 1)
  }

  /** Sixteen leaves hashed in a buffer of eight that is overwritten in place. */
  method HashBatch(leafs: seq<Hash>, ghost m: Leaves, ghost b: nat) returns (leaf: Hash)
    requires |leafs| == BATCH_SIZE && forall k :: 0 <= k < BATCH_SIZE ==> At(m, Shl(b, 4) + k) == leafs[k]
    ensures leaf == Node(m, BATCH_DEPTH, b)
  {
    var buf := new Hash[BATCH_SIZE / 2];
    for j := 0 to 8
      invariant forall k :: 0 <= k < j ==> buf[k] == Node(m, 1, Shl(b, 3) + k)
    {
      buf[j] := Pair(leafs[2 * j], leafs[2 * j + 1]);
      assert Node(m, 0, Shl(b, 4) + 2 * j) == leafs[2 * j] && Node(m, 0, Shl(b, 4) + (2 * j + 1)) == leafs[2 * j + 1];
    }
    assert Pow2(3) == 8;
    for i := 1 to BATCH_DEPTH
      invariant forall k :: 0 <= k < Pow2(BATCH_DEPTH - i) ==> buf[k] == Node(m, i, Shl(b, BATCH_DEPTH - i) + k)
      invariant Pow2(BATCH_DEPTH - i) <= 8
    {
      HashBufLevel(buf, Pow2(BATCH_DEPTH - i - 1), m, i, Shl(b, BATCH_DEPTH - i - 1));
    }
    assert Pow2(0) == 1 && Shl(b, 0) == b;
    return buf[0];
  }

  method HashBufLevel(buf: array<Hash>, n: nat, ghost m: Leaves, ghost i: nat, ghost first: nat)
    requires 2 * n <= buf.Length
    requires forall k :: 0 <= k < 2 * n ==> buf[k] == Node(m, i, 2 * first + k)
    modifies buf
    ensures forall k :: 0 <= k < n ==> buf[k] == Node(m, i + 1, first + k)
  {
    for j := 0 to n
      invariant forall k :: 0 <= k < j ==> buf[k] == Node(m, i + 1, first + k)
      invariant forall k :: 2 * j <= k < 2 * n ==> buf[k] == Node(m, i, 2 * first + k)
    {
      buf[j] := Pair(buf[2 * j], buf[2 * j + 1]);
    }
  }

  // ------------------------------------------------------------------------------------------------ the contract

  class AccountTree {
    var rootLeft: Hash
    var rootRight: Hash
    var root: Hash
    var leafIndexLeft: nat
    var leafIndexRight: nat
    var zeros: seq<Hash>
    var filledSubtreesLeft: seq<Hash>
    var filledSubtreesRight: seq<Hash>

    /** All the leaves ever inserted in each half, in order. */
    ghost var left: seq<Hash>
    ghost var right: seq<Hash>

    ghost predicate Valid()
      reads this
    {
      && |zeros| == DEPTH && AreZeros(zeros)
      && leafIndexLeft == |left| < SET_SIZE && leafIndexRight == |right| < SET_SIZE && |right| % BATCH_SIZE == 0
      && Half(rootLeft, filledSubtreesLeft, Padded(left), 0, |left|)
      && Half(rootRight, filledSubtreesRight, Padded(right), BATCH_DEPTH, |right| / BATCH_SIZE)
      && root == Pair(rootLeft, rootRight)
    }

    constructor ()
      ensures Valid() && left == [] && right == []
    {
      hide Frontier, Root;
      var zeros := [Empty];
      var filledLeft, filledRight := [Empty], [];
      for i := 1 to DEPTH
        invariant |zeros| == i == |filledLeft| && |filledRight| == if i < BATCH_DEPTH then 0 else i - BATCH_DEPTH
        invariant forall k :: 0 <= k < i ==> zeros[k] == Zero(k)
      {
        zeros := zeros + [Pair(zeros[i - 1], zeros[i - 1])];
        filledLeft := filledLeft + [zeros[i]];
        if BATCH_DEPTH <= i {
          filledRight := filledRight + [zeros[i]];
        }
      }
      this.zeros, this.filledSubtreesLeft, this.filledSubtreesRight := zeros, filledLeft, filledRight;
      rootLeft := Pair(zeros[DEPTH - 1], zeros[DEPTH - 1]);
      rootRight := Pair(zeros[DEPTH - 1], zeros[DEPTH - 1]);
      root := Pair(Pair(zeros[DEPTH - 1], zeros[DEPTH - 1]), Pair(zeros[DEPTH - 1], zeros[DEPTH - 1]));
      leafIndexLeft, leafIndexRight := 0, 0;
      left, right := [], [];
      NothingInserted(filledLeft, filledRight);
    }

    /** None is a revert: the last place of the left half is never used. */
    method UpdateSingle(leafInput: Hash) returns (r: Option<nat>)
      requires Valid()
      modifies this
      ensures Valid() && right == old(right)
      ensures r == if |old(left)| < SET_SIZE - 1 then Some(|old(left)|) else None
      ensures left == if r.Some? then old(left) + [leafInput] else old(left)
    {
      hide Half, Node, AreZeros, NextSubtree, Padded, Pow2;
      if leafIndexLeft >= SET_SIZE - 1 {
        return None;
      }
      SinglesFit(leafIndexLeft);
      NextSingle(left, leafInput);
      rootLeft, filledSubtreesLeft :=
        Ascend(leafInput, leafIndexLeft, zeros, filledSubtreesLeft, 0, rootLeft, Padded(left),
               Padded(left + [leafInput]));
      root := Pair(rootLeft, rootRight);
      left := left + [leafInput];
      leafIndexLeft := leafIndexLeft + 1;
      return Some(leafIndexLeft - 1);
    }

    method UpdateBatch(leafs: seq<Hash>) returns (r: Option<nat>)
      requires Valid() && |leafs| == BATCH_SIZE
      modifies this
      ensures Valid() && left == old(left)
      ensures r == if |old(right)| < SET_SIZE - 1 - BATCH_SIZE then Some(|old(right)|) else None
      ensures right == if r.Some? then old(right) + leafs else old(right)
    {
      hide Half, Node, AreZeros, NextSubtree, Padded, Pow2;
      if leafIndexRight >= SET_SIZE - 1 - BATCH_SIZE {
        return None;
      }
      var path := leafIndexRight / BATCH_SIZE;
      BatchesFit(path);
      NextBatch(right, leafs, path);
      var leaf := HashBatch(leafs, Padded(right + leafs), path);
      rootRight, filledSubtreesRight :=
        Ascend(leaf, path, zeros, filledSubtreesRight, BATCH_DEPTH, rootRight, Padded(right), Padded(right + leafs));
      root := Pair(rootLeft, rootRight);
      right := right + leafs;
      leafIndexRight := leafIndexRight + BATCH_SIZE;
      return Some(leafIndexRight - BATCH_SIZE);
    }

    /** With a full-length witness, exactly the leaf at the index is included: indices from 2^31 on are in the right
        half. */
    method CheckInclusion(leafInput: Hash, leafIndex: nat, siblings: seq<Hash>) returns (included: bool)
      requires Valid() && |siblings| == DEPTH
      ensures var m := if leafIndex < SET_SIZE then Padded(left) else Padded(right);
              var p := leafIndex % SET_SIZE;
              && (included ==> leafInput == At(m, p))
              && (leafInput == At(m, p) && siblings == Witness(m, 0, p, DEPTH) ==> included)
    {
      var path: nat := leafIndex % SET_SIZE;
      var leaf := leafInput;
      ghost var p := path;
      assert Shr(p, 0) == p;
      for i := 0 to DEPTH
        invariant path == Shr(p, i) && leaf == Climb(leafInput, p, siblings[..i])
      {
        ClimbSnoc(leafInput, p, siblings[..i], siblings[i]);
        assert siblings[..i + 1] == siblings[..i] + [siblings[i]];
        if path % 2 == 1 {
          leaf := Pair(siblings[i], leaf);
        } else {
          leaf := Pair(leaf, siblings[i]);
        }
        path := path / 2;
      }
      assert siblings[..DEPTH] == siblings;
      InclusionIsExact(if leafIndex < SET_SIZE then Padded(left) else Padded(right), leafInput, p, siblings);
      if leafIndex < SET_SIZE {
        return leaf == rootLeft;
      } else {
        return leaf == rootRight;
      }
    }
  }

  lemma NothingInserted(filledLeft: seq<Hash>, filledRight: seq<Hash>)
    ensures Root(Padded([]), DEPTH) == Zero(DEPTH)
    ensures Frontier(filledLeft, Padded([]), 0, 0) && Frontier(filledRight, Padded([]), BATCH_DEPTH, 0)
  {
    hide Zero, Node;
    NodeOfEmpty(Padded([]), DEPTH, 0);
    forall i: nat
      ensures Shr(0, i) == 0
    {
      ShrZero(0, i);
    }
  }

  lemma NextSingle(left: seq<Hash>, leaf: Hash)
    ensures var m, m', n := Padded(left), Padded(left + [leaf]), |left|;
            Node(m', 0, n) == leaf && NextSubtree(m, m', 0, n)
  {
  }

  lemma SinglesFit(path: nat)
    requires path < SET_SIZE - 1
    ensures path + 1 < Pow2(DEPTH)
  {
    Pow2Constants();
  }

  lemma BatchesFit(path: nat)
    requires BATCH_SIZE * path < SET_SIZE - 1 - BATCH_SIZE
    ensures path + 1 < Pow2(DEPTH - BATCH_DEPTH)
  {
    Pow2Constants();
    Pow2Sum(4, 27);
    assert Pow2(4) == 16;
  }

  lemma NextBatch(right: seq<Hash>, leafs: seq<Hash>, path: nat)
    requires |leafs| == BATCH_SIZE && |right| == BATCH_SIZE * path
    ensures var m, m' := Padded(right), Padded(right + leafs);
            && NextSubtree(m, m', BATCH_DEPTH, path)
            && forall k :: 0 <= k < BATCH_SIZE ==> At(m', Shl(path, 4) + k) == leafs[k]
  {
    assert Shl(path, 1) == 2 * path;
    assert Shl(path, 2) == 4 * path;
    assert Shl(path, 3) == 8 * path;
    assert Shl(path, 4) == 16 * path;
    forall p: nat
      ensures Shr(p, BATCH_DEPTH) == p / 16
    {
      ShrIsDivision(p, 4);
      assert Pow2(4) == 16;
    }
  }

  lemma InclusionIsExact(m: Leaves, leaf: Hash, p: nat, siblings: seq<Hash>)
    requires p < SET_SIZE && |siblings| == DEPTH
    ensures Climb(leaf, p, siblings) == Root(m, DEPTH) ==> leaf == At(m, p)
    ensures leaf == At(m, p) && siblings == Witness(m, 0, p, DEPTH) ==> Climb(leaf, p, siblings) == Root(m, DEPTH)
  {
    Pow2Constants();
    ShrZero(p, DEPTH);
    BelowRoot(p, DEPTH);
    if Climb(leaf, p, siblings) == Root(m, DEPTH) {
      ClimbOfLength(leaf, p, siblings, m, DEPTH, 0);
    }
    LeafWitness(m, p, DEPTH, leaf);
  }
}
