/** contracts/libs/MerkleTree.sol: root computation from a witness, verification, and the in-place `merklize`. */
module MerkleTree {
  import opened Words
  import opened Merkle

  datatype Option<+T> = None | Some(value: T)

  function CeilLog2(n: nat): nat {
    if n <= 1 then 0 else 1 + CeilLog2((n + 1) / 2)
  }

  /** Depth of the shallowest tree that `merklize` builds; a single leaf still gets depth 1. */
  function MinTreeDepth(n: nat): nat {
    if n == 1 then 1 else CeilLog2(n)
  }

  lemma {:induction false} CeilLog2IsLeast(n: nat)
    requires n > 0
    ensures n <= Pow2(CeilLog2(n))
    ensures forall k: nat :: n <= Pow2(k) ==> CeilLog2(n) <= k
  {
    if n > 1 {
      CeilLog2IsLeast((n + 1) / 2);
      forall k: nat | n <= Pow2(k)
        ensures CeilLog2(n) <= k
      {
        assert k > 0 && (n + 1) / 2 <= Pow2(k - 1);
      }
    }
  }

  lemma {:induction false} CeilLog2OfPow2(k: nat)
    ensures CeilLog2(Pow2(k)) == k
  {
    if k > 0 {
      CeilLog2OfPow2(k - 1);
    }
  }

  /** Root of the leaves padded with empty leaves up to the least depth. */
  function Merklized(leaves: seq<Hash>): Hash {
    Root(Padded(leaves), MinTreeDepth(|leaves|))
  }

  method ComputeRoot(leafInput: Hash, path: nat, siblings: seq<Hash>) returns (leaf: Hash)
    ensures leaf == Climb(leafInput, path, siblings)
  {
    leaf := leafInput;
    for i := 0 to |siblings|
      invariant leaf == Climb(leafInput, path, siblings[..i])
    {
      ClimbSnoc(leafInput, path, siblings[..i], siblings[i]);
      assert siblings[..i + 1] == siblings[..i] + [siblings[i]];
      if Shr(path, i) % 2 == 0 {
        leaf := Pair(leaf, siblings[i]);
      } else {
        leaf := Pair(siblings[i], leaf);
      }
    }
    assert siblings[..|siblings|] == siblings;
  }

  // ------------------------------------------------------------------------------------------------ the client's form

  /** `x >> count`: only the low five bits of the count are looked at. */
  function SignedShift(x: int, count: nat): int {
    x / Pow2(count % 32)
  }

  lemma {:induction false} ShrOfLow(x: nat, k: nat, i: nat)
    requires i < k
    ensures Shr(Low(x, k), i) % 2 == Shr(x, i) % 2
  {
    if i > 0 {
      ShrOfLow(x / 2, k - 1, i - 1);
      ShrHalf(x, i - 1);
      ShrHalf(Low(x, k), i - 1);
    }
  }

  /** Taking away an even multiple of the divisor does not change the quotient's last bit. */
  lemma EvenDrop(x: nat, p: nat, t: nat)
    requires p > 0
    ensures (x - p * (2 * t)) / p % 2 == x / p % 2
  {
    var q, r := x / p, x % p;
    assert x - p * (2 * t) == p * (q - 2 * t) + r by {
      assert p * (q - 2 * t) == p * q - p * (2 * t);
    }
    QuotientUnique(x - p * (2 * t), p, q - 2 * t, r);
  }

  lemma QuotientUnique(x: int, p: nat, q: int, r: nat)
    requires r < p && x == p * q + r
    ensures x / p == q
  {
    var d := x / p - q;
    assert p * d == r - x % p by {
      assert x == p * (x / p) + x % p;
      assert p * d == p * (x / p) - p * q;
    }
  }

  lemma ClientBit(path: nat, i: nat)
    requires i < 32
    ensures forall count: nat :: count % 32 == i ==> SignedShift(ToInt32(path), count) % 2 == Shr(path, i) % 2
  {
    hide Pow2, Shr, Low, ToInt32;
    var low := Low(path, 32);
    ToInt32Wraps(path);
    ShrOfLow(path, 32, i);
    ShrIsDivision(low, i);
    Pow2Sum(i, 32 - i);
    Pow2Doubles(31 - i);
    EvenDrop(low, Pow2(i), Pow2(31 - i));
  }

  lemma Pow2Doubles(k: nat)
    ensures Pow2(k + 1) == 2 * Pow2(k)
  {
  }

  /** Which way the client turns at each step: past 32 steps it reads the low bits of the path over again. */
  function ClientFlags(path: nat, n: nat): seq<bool> {
    seq(n, i requires 0 <= i < n => Shr(path, i % 32) % 2 == 0)
  }

  lemma {:induction false} ClientFlagsAreBits(path: nat, n: nat)
    requires n <= 32
    ensures ClientFlags(path, n) == Flags(path, n)
  {
    if n > 0 {
      ClientFlagsAreBits(path, n - 1);
      FlagsSnoc(path, n - 1);
    }
  }

  /** `computeRoot` of the client, which agrees with the contract's on every path for witnesses of up to 32 words. */
  method ClientComputeRoot(leafInput: Hash, path: nat, siblings: seq<Hash>) returns (leaf: Hash)
    ensures leaf == ClimbFlags(leafInput, ClientFlags(path, |siblings|), siblings)
    ensures |siblings| <= 32 ==> leaf == Climb(leafInput, path, siblings)
  {
    hide SignedShift, ToInt32, Shr, Climb;
    leaf := leafInput;
    var n := |siblings|;
    for i := 0 to n
      invariant leaf == ClimbFlags(leafInput, ClientFlags(path, n)[..i], siblings[..i])
    {
      var flags := ClientFlags(path, n);
      ClimbFlagsSnoc(leafInput, flags[..i + 1], siblings[..i + 1]);
      assert flags[..i + 1][..i] == flags[..i] && siblings[..i + 1][..i] == siblings[..i];
      ClientBit(path, i % 32);
      if SignedShift(ToInt32(path), i) % 2 == 0 {
        leaf := Pair(leaf, siblings[i]);
      } else {
        leaf := Pair(siblings[i], leaf);
      }
    }
    assert siblings[..n] == siblings && ClientFlags(path, n)[..n] == ClientFlags(path, n);
    if n <= 32 {
      ClientFlagsAreBits(path, n);
      ClimbFlagsIsClimb(leafInput, siblings, path);
    }
  }

  // ------------------------------------------------------------------------------------------------ merklize

  /** One level of `merklize`: the inner loop, reading `pNodes` while overwriting `nodes`, which may be the same
      array. */
  method HashLevel(pNodes: array<Hash>, nodes: array<Hash>, n: nat, odd: nat, zero: Hash,
                   ghost m: Leaves, ghost level: nat, ghost count: nat)
    requires 1 <= n <= nodes.Length && count <= pNodes.Length
    requires n == (count + 1) / 2 && odd == count % 2 && zero == Zero(level)
    requires forall k :: 0 <= k < count ==> pNodes[k] == Node(m, level, k)
    requires Node(m, level, count) == Zero(level)
    modifies nodes
    ensures forall k :: 0 <= k < n ==> nodes[k] == Node(m, level + 1, k)
  {
    var i := 0;
    while i < n - odd
      invariant 0 <= i <= n - odd
      invariant forall k :: 0 <= k < i ==> nodes[k] == Node(m, level + 1, k)
      invariant forall k :: 2 * i <= k < count ==> pNodes[k] == Node(m, level, k)
    {
      var j := 2 * i;
      nodes[i] := Pair(pNodes[j], pNodes[j + 1]);
      i := i + 1;
    }
    if odd == 1 {
      nodes[i] := Pair(pNodes[2 * i], zero);
    }
  }

  /** Reverts (None) above 32 leaves.  `pNodes` aliases `nodes` from the second level on.  On no leaves at all the
      contract spins until it is out of gas. */
  method Merklize(leaves: array<Hash>) returns (root: Option<Hash>)
    requires leaves.Length > 0
    ensures root == if leaves.Length <= 32 then Some(Merklized(leaves[..])) else None
  {
    if leaves.Length > 32 {
      return None;
    }
    var hashes := [Zero(0), Zero(1), Zero(2), Zero(3), Zero(4), Zero(5)];
    var odd := leaves.Length % 2;
    var n := (leaves.Length + 1) / 2;
    var nodes := new Hash[n](_ => Word(0));
    var pNodes := leaves;
    var level: nat := 0;
    ghost var m := Padded(leaves[..]);
    ghost var count := leaves.Length;
    assert Pow2(4) == 16;
    while true
      invariant fresh(nodes) && (pNodes == leaves || pNodes == nodes)
      invariant level <= 4 && 1 <= n <= Pow2(4 - level) && n <= nodes.Length
      invariant n == (count + 1) / 2 && odd == count % 2 && count <= pNodes.Length
      invariant forall k :: 0 <= k < count ==> pNodes[k] == Node(m, level, k)
      invariant forall k: nat :: count <= k ==> Node(m, level, k) == Zero(level)
      invariant MinTreeDepth(leaves.Length) == level + 1 + CeilLog2(n)
      decreases n
    {
      HashLevel(pNodes, nodes, n, odd, hashes[level], m, level, count);
      if n == 1 {
        break;
      }
      PaddingClimbs(m, level, level + 1, count);
      count := n;
      odd := n % 2;
      n := (n + 1) / 2;
      level := level + 1;
      pNodes := nodes;
    }
    return Some(nodes[0]);
  }

  lemma PaddingClimbs(m: Leaves, level: nat, above: nat, count: nat)
    requires above == level + 1
    requires forall k: nat :: count <= k ==> Node(m, level, k) == Zero(level)
    ensures forall k: nat :: (count + 1) / 2 <= k ==> Node(m, above, k) == Zero(above)
  {
    forall k: nat | (count + 1) / 2 <= k
      ensures Node(m, above, k) == Zero(above)
    {
      assert Node(m, level, 2 * k) == Zero(level) && Node(m, level, 2 * k + 1) == Zero(level);
    }
  }
}
