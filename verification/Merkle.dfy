/** Reference semantics of a sparse Merkle tree.  A word is a free term: the empty leaf, the hash of a user state and
    the hash of two words have preimages of 32, 128 and 64 bytes, so the three kinds of hash never meet.  `Word` is any
    32-byte value that is none of these. */
module Merkle {
  import opened Words

  datatype UserState = UserState(pubkeyID: nat, tokenID: nat, balance: nat, nonce: nat)

  datatype Hash = Empty | Leaf(state: UserState) | Pair(left: Hash, right: Hash) | Word(value: nat)

  /** Leaves by position; a position not in the map holds the empty leaf. */
  type Leaves = map<nat, Hash>

  function At(m: Leaves, i: nat): Hash {
    if i in m then m[i] else Empty
  }

  /** Root of an empty tree of height `h`. */
  function Zero(h: nat): Hash {
    if h == 0 then Empty else Pair(Zero(h - 1), Zero(h - 1))
  }

  /** Hash of the node with index `i` at height `h` above the leaves: the single specification of every tree here. */
  function Node(m: Leaves, h: nat, i: nat): Hash {
    if h == 0 then At(m, i) else Pair(Node(m, h - 1, 2 * i), Node(m, h - 1, 2 * i + 1))
  }

  function Root(m: Leaves, depth: nat): Hash {
    Node(m, depth, 0)
  }

  function Padded(s: seq<Hash>): Leaves {
    map i | 0 <= i < |s| :: s[i]
  }

  /** No leaf is itself the hash of two words. */
  ghost predicate Atomic(m: Leaves) {
    forall p :: p in m ==> !m[p].Pair?
  }

  /** Length of the leftmost spine; it tells the height of a genuine node. */
  function Spine(x: Hash): nat {
    match x
    case Pair(l, _) => Spine(l) + 1
    case _ => 0
  }

  function Sibling(i: nat): nat {
    if i % 2 == 0 then i + 1 else i - 1
  }

  /** The siblings met when climbing `n` levels from node `i` at height `h`. */
  function Witness(m: Leaves, h: nat, i: nat, n: nat): (w: seq<Hash>)
    ensures |w| == n
    decreases n
  {
    if n == 0 then [] else [Node(m, h, Sibling(i))] + Witness(m, h + 1, i / 2, n - 1)
  }

  function Join(bit: nat, x: Hash, sibling: Hash): Hash {
    if bit == 0 then Pair(x, sibling) else Pair(sibling, x)
  }

  /** Climb from `leaf` along the bits of `path`, hashing with one witness word a level. */
  function Climb(leaf: Hash, path: nat, siblings: seq<Hash>): Hash
    decreases |siblings|
  {
    if siblings == [] then leaf else Climb(Join(path % 2, leaf, siblings[0]), path / 2, siblings[1..])
  }

  // ------------------------------------------------------------------------------------------------ nodes

  lemma {:induction false} NodeAgree(m: Leaves, m': Leaves, h: nat, i: nat)
    requires forall p: nat :: Shr(p, h) == i ==> At(m, p) == At(m', p)
    ensures Node(m, h, i) == Node(m', h, i)
  {
    if h == 0 {
      assert Shr(i, 0) == i;
    } else {
      NodeAgree(m, m', h - 1, 2 * i);
      NodeAgree(m, m', h - 1, 2 * i + 1);
    }
  }

  lemma {:induction false} NodeOfEmpty(m: Leaves, h: nat, i: nat)
    requires forall p: nat :: Shr(p, h) == i ==> At(m, p) == Empty
    ensures Node(m, h, i) == Zero(h)
  {
    if h == 0 {
      assert Shr(i, 0) == i;
    } else {
      NodeOfEmpty(m, h - 1, 2 * i);
      NodeOfEmpty(m, h - 1, 2 * i + 1);
    }
  }

  lemma {:induction false} ZeroNodeIsEmpty(m: Leaves, h: nat, i: nat, p: nat)
    requires Node(m, h, i) == Zero(h) && Shr(p, h) == i
    ensures At(m, p) == Empty
  {
    if h > 0 {
      ZeroNodeIsEmpty(m, h - 1, Shr(p, h - 1), p);
    }
  }

  lemma {:induction false} SpineOfNode(m: Leaves, h: nat, i: nat)
    requires Atomic(m)
    ensures Spine(Node(m, h, i)) == h
  {
    if h > 0 {
      SpineOfNode(m, h - 1, 2 * i);
    }
  }

  lemma {:induction false} SpineOfZero(h: nat)
    ensures Spine(Zero(h)) == h
  {
    if h > 0 {
      SpineOfZero(h - 1);
    }
  }

  // ------------------------------------------------------------------------------------------------ paths

  /** The node reached from node `i` by descending `n` levels along the low `n` bits of `path`. */
  function Below(i: nat, path: nat, n: nat): nat
    decreases n
  {
    if n == 0 then i else Below(2 * i + Shr(path, n - 1) % 2, path, n - 1)
  }

  lemma {:induction false} BelowIsUnder(i: nat, path: nat, n: nat)
    ensures Shr(Below(i, path, n), n) == i
    decreases n
  {
    if n > 0 {
      BelowIsUnder(2 * i + Shr(path, n - 1) % 2, path, n - 1);
    }
  }

  lemma {:induction false} BelowHalf(i: nat, path: nat, n: nat)
    ensures Below(i, path, n + 1) == 2 * Below(i, path / 2, n) + path % 2
    decreases n
  {
    ShrHalf(path, n);
    if n > 0 {
      BelowHalf(2 * i + Shr(path, n) % 2, path, n - 1);
      ShrHalf(path, n - 1);
    }
  }

  /** From the root, the low bits of a path name the position reached. */
  lemma {:induction false} BelowRoot(path: nat, n: nat)
    ensures Below(0, path, n) == Low(path, n)
  {
    if n > 0 {
      BelowHalf(0, path, n - 1);
      BelowRoot(path / 2, n - 1);
    }
  }

  lemma {:induction false} BelowLow(i: nat, path: nat, n: nat)
    ensures Low(Below(i, path, n), n) == Low(path, n)
  {
    if n > 0 {
      BelowHalf(i, path, n - 1);
      BelowLow(i, path / 2, n - 1);
    }
  }

  lemma {:induction false} ClimbSnoc(x: Hash, path: nat, w: seq<Hash>, s: Hash)
    ensures Climb(x, path, w + [s]) == Join(Shr(path, |w|) % 2, Climb(x, path, w), s)
    decreases |w|
  {
    if w == [] {
      assert Climb(Join(path % 2, x, s), path / 2, []) == Join(path % 2, x, s);
    } else {
      assert (w + [s])[1..] == w[1..] + [s];
      ClimbSnoc(Join(path % 2, x, w[0]), path / 2, w[1..], s);
      ShrHalf(path, |w| - 1);
    }
  }

  lemma {:induction false} WitnessSnoc(m: Leaves, h: nat, i: nat, n: nat)
    ensures Witness(m, h, i, n + 1) == Witness(m, h, i, n) + [Node(m, h + n, Sibling(Shr(i, n)))]
    decreases n
  {
    if n > 0 {
      WitnessSnoc(m, h + 1, i / 2, n - 1);
      ShrHalf(i, n - 1);
    }
  }

  // ------------------------------------------------------------------------------------------------ the two main facts

  /** Whatever witness of whatever length climbs to a node of the tree, it is the genuine one: the start is the node at
      the position named by the path, and every witness word is the sibling there. */
  lemma {:induction false} ClimbIsUnique(x: Hash, path: nat, w: seq<Hash>, m: Leaves, h: nat, i: nat)
    requires Atomic(m)
    requires Climb(x, path, w) == Node(m, h, i)
    ensures Spine(x) + |w| == h
    ensures var j := Below(i, path, |w|); x == Node(m, Spine(x), j) && w == Witness(m, Spine(x), j, |w|)
    decreases |w|
  {
    hide Join, Spine, Sibling, Shr;
    if w == [] {
      SpineOfNode(m, h, i);
    } else {
      var n := |w| - 1;
      var v, s, b := w[..n], w[n], Shr(path, n) % 2;
      assert w == v + [s];
      ClimbSnoc(x, path, v, s);
      TopOfClimb(Climb(x, path, v), s, b, m, h, i);
      ClimbIsUnique(x, path, v, m, h - 1, 2 * i + b);
      var j := Below(i, path, |w|);
      assert j == Below(2 * i + b, path, n);
      BelowIsUnder(2 * i + b, path, n);
      WitnessSnoc(m, Spine(x), j, n);
    }
  }

  /** With a witness of a given length, no assumption on the leaves is needed. */
  lemma {:induction false} ClimbOfLength(x: Hash, path: nat, w: seq<Hash>, m: Leaves, h: nat, i: nat)
    requires |w| <= h && Climb(x, path, w) == Node(m, h, i)
    ensures x == Node(m, h - |w|, Below(i, path, |w|))
    decreases |w|
  {
    if w != [] {
      var n := |w| - 1;
      assert w == w[..n] + [w[n]];
      ClimbSnoc(x, path, w[..n], w[n]);
      ClimbOfLength(x, path, w[..n], m, h - 1, 2 * i + Shr(path, n) % 2);
    }
  }

  lemma TopOfClimb(x: Hash, s: Hash, b: nat, m: Leaves, h: nat, i: nat)
    requires Atomic(m) && b < 2 && Join(b, x, s) == Node(m, h, i)
    ensures h > 0 && x == Node(m, h - 1, 2 * i + b) && s == Node(m, h - 1, Sibling(2 * i + b))
  {
  }

  /** The genuine witness climbs to the node above; only the low bits of the path are looked at. */
  lemma {:induction false} ClimbWitness(m: Leaves, h: nat, j: nat, path: nat, n: nat)
    requires Low(path, n) == Low(j, n)
    ensures Climb(Node(m, h, j), path, Witness(m, h, j, n)) == Node(m, h + n, Shr(j, n))
    decreases n
  {
    if n > 0 {
      assert Low(path, n) == 2 * Low(path / 2, n - 1) + path % 2;
      assert Low(j, n) == 2 * Low(j / 2, n - 1) + j % 2;
      ClimbWitness(m, h + 1, j / 2, path / 2, n - 1);
      ShrHalf(j, n - 1);
      assert Witness(m, h, j, n)[1..] == Witness(m, h + 1, j / 2, n - 1);
      assert Join(path % 2, Node(m, h, j), Node(m, h, Sibling(j))) == Node(m, h + 1, j / 2);
    }
  }

  lemma {:induction false} ClimbConcat(x: Hash, path: nat, w: seq<Hash>, more: seq<Hash>)
    ensures Climb(x, path, w + more) == Climb(Climb(x, path, w), Shr(path, |w|), more)
    decreases |w|
  {
    if w == [] {
      assert w + more == more;
    } else {
      assert (w + more)[1..] == w[1..] + more;
      ClimbConcat(Join(path % 2, x, w[0]), path / 2, w[1..], more);
      ShrHalf(path, |w| - 1);
    }
  }

  lemma {:induction false} ClimbIsPair(x: Hash, path: nat, w: seq<Hash>)
    requires x.Pair?
    ensures Climb(x, path, w).Pair?
    decreases |w|
  {
    if w != [] {
      ClimbIsPair(Join(path % 2, x, w[0]), path / 2, w[1..]);
    }
  }

  /** A witness of a node does not depend on the leaves below that node. */
  lemma {:induction false} WitnessAgree(m: Leaves, m': Leaves, h: nat, j: nat, n: nat)
    requires forall p: nat :: Shr(p, h) != j ==> At(m, p) == At(m', p)
    ensures Witness(m, h, j, n) == Witness(m', h, j, n)
    decreases n
  {
    if n > 0 {
      NodeAgree(m, m', h, Sibling(j));
      forall p: nat | Shr(p, h + 1) != j / 2
        ensures At(m, p) == At(m', p)
      {
        assert Shr(p, h) != j;
      }
      WitnessAgree(m, m', h + 1, j / 2, n - 1);
    }
  }

  /** Witness-carried update: if `x` climbs to the root, then climbing from the subtree root `y` with the same witness
      gives the root of the tree whose leaves below that node are replaced by those of `y`. */
  lemma ClimbReplaces(x: Hash, path: nat, w: seq<Hash>, m: Leaves, m': Leaves, depth: nat)
    requires Atomic(m) && Climb(x, path, w) == Root(m, depth)
    requires forall p: nat :: Shr(p, Spine(x)) != Low(path, |w|) ==> At(m, p) == At(m', p)
    ensures Climb(Node(m', Spine(x), Low(path, |w|)), path, w) == Root(m', depth)
  {
    var n, k := |w|, Spine(x);
    ClimbIsUnique(x, path, w, m, depth, 0);
    BelowRoot(path, n);
    BelowIsUnder(0, path, n);
    BelowLow(0, path, n);
    var j := Low(path, n);
    WitnessAgree(m, m', k, j, n);
    ClimbWitness(m', k, j, path, n);
  }

  /** Inclusion of a single leaf, for witnesses of any length. */
  lemma LeafProof(x: Hash, path: nat, w: seq<Hash>, m: Leaves, depth: nat, y: Hash)
    requires Atomic(m) && !x.Pair? && Climb(x, path, w) == Root(m, depth)
    ensures |w| == depth && x == At(m, Low(path, depth)) && w == Witness(m, 0, Low(path, depth), depth)
    ensures Climb(y, path, w) == Root(m[Low(path, depth) := y], depth)
  {
    ClimbIsUnique(x, path, w, m, depth, 0);
    BelowRoot(path, depth);
    var j := Low(path, depth);
    forall p: nat | Shr(p, 0) != j
      ensures At(m, p) == At(m[j := y], p)
    {
    }
    ClimbReplaces(x, path, w, m, m[j := y], depth);
  }

  /** The witness read off the tree proves the leaf, and re-proves it after the leaf is overwritten. */
  lemma LeafWitness(m: Leaves, path: nat, depth: nat, y: Hash)
    ensures Climb(At(m, Low(path, depth)), path, Witness(m, 0, Low(path, depth), depth)) == Root(m, depth)
    ensures Climb(y, path, Witness(m, 0, Low(path, depth), depth)) == Root(m[Low(path, depth) := y], depth)
  {
    var j := Low(path, depth);
    BelowRoot(path, depth);
    BelowIsUnder(0, path, depth);
    BelowLow(0, path, depth);
    ClimbWitness(m, 0, j, path, depth);
    forall p: nat | Shr(p, 0) != j
      ensures At(m, p) == At(m[j := y], p)
    {
    }
    WitnessAgree(m, m[j := y], 0, j, depth);
    ClimbWitness(m[j := y], 0, j, path, depth);
  }

  /** A root determines every leaf of the tree. */
  lemma {:induction false} NodeInjective(m: Leaves, m': Leaves, h: nat, i: nat, p: nat)
    requires Node(m, h, i) == Node(m', h, i) && Shr(p, h) == i
    ensures At(m, p) == At(m', p)
  {
    if h > 0 {
      NodeInjective(m, m', h - 1, Shr(p, h - 1), p);
    }
  }

  // ---------------------------------------------------------------------------------------------- climbing by booleans

  function ClimbFlags(leaf: Hash, path: seq<bool>, nodes: seq<Hash>): Hash
    requires |path| == |nodes|
    decreases |nodes|
  {
    if nodes == [] then leaf
    else ClimbFlags(Join(if path[0] then 0 else 1, leaf, nodes[0]), path[1..], nodes[1..])
  }

  lemma {:induction false} ClimbFlagsSnoc(leaf: Hash, path: seq<bool>, nodes: seq<Hash>)
    requires |path| == |nodes| > 0
    ensures var n := |nodes| - 1;
            ClimbFlags(leaf, path, nodes)
              == Join(if path[n] then 0 else 1, ClimbFlags(leaf, path[..n], nodes[..n]), nodes[n])
    decreases |nodes|
  {
    var n := |nodes| - 1;
    if n > 0 {
      ClimbFlagsSnoc(Join(if path[0] then 0 else 1, leaf, nodes[0]), path[1..], nodes[1..]);
      assert path[1..][..n - 1] == path[..n][1..] && nodes[1..][..n - 1] == nodes[..n][1..];
    }
  }

  /** Whether node `index` and its first ancestors are left children. */
  function Flags(index: nat, n: nat): (path: seq<bool>)
    ensures |path| == n
    decreases n, index
  {
    if n == 0 then [] else [index % 2 == 0] + Flags(index / 2, n - 1)
  }

  lemma {:induction false} FlagsSnoc(index: nat, n: nat)
    ensures Flags(index, n + 1) == Flags(index, n) + [Shr(index, n) % 2 == 0]
    decreases n
  {
    if n > 0 {
      FlagsSnoc(index / 2, n - 1);
      ShrHalf(index, n - 1);
    }
  }

  lemma {:induction false} ClimbFlagsIsClimb(leaf: Hash, nodes: seq<Hash>, index: nat)
    ensures ClimbFlags(leaf, Flags(index, |nodes|), nodes) == Climb(leaf, index, nodes)
    decreases |nodes|
  {
    if nodes != [] {
      ClimbFlagsIsClimb(Join(index % 2, leaf, nodes[0]), nodes[1..], index / 2);
    }
  }

  /** The leaves of a list of user states. */
  function LeavesOf(states: seq<UserState>): seq<Hash> {
    seq(|states|, i requires 0 <= i < |states| => Leaf(states[i]))
  }
}
