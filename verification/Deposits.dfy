/** contracts/DepositManager.sol and the client's DepositPool: deposits merged into Merkle subtrees by a binary counter,
    and the queue of finished subtree roots. */
module Deposits {
  import opened Words
  import opened Merkle
  import opened MerkleTree
  import MT = MemoryTrees

  // ------------------------------------------------------------------------------------------------ the binary counter

  /** The subtree roots in place once `n` nodes of height `h` are complete: one for each set bit of `n`, the tallest
      first. */
  function Stack(m: Leaves, n: nat, h: nat): seq<Hash> {
    if n == 0 then [] else Stack(m, n / 2, h + 1) + if n % 2 == 1 then [Node(m, h, n - 1)] else []
  }

  function SetBits(n: nat): nat {
    if n == 0 then 0 else SetBits(n / 2) + n % 2
  }

  lemma {:induction false} StackLength(m: Leaves, n: nat, h: nat)
    ensures |Stack(m, n, h)| == SetBits(n)
    decreases n
  {
    if n > 0 {
      StackLength(m, n / 2, h + 1);
    }
  }

  /** Writing a leaf after the first `n` subtrees leaves the stack alone. */
  lemma {:induction false} StackAgrees(m: Leaves, m': Leaves, n: nat, h: nat)
    requires forall p: nat :: Shr(p, h) < n ==> At(m, p) == At(m', p)
    ensures Stack(m, n, h) == Stack(m', n, h)
    decreases n
  {
    if n > 0 {
      forall p: nat | Shr(p, h + 1) < n / 2
        ensures At(m, p) == At(m', p)
      {
        assert Shr(p, h) < n;
      }
      StackAgrees(m, m', n / 2, h + 1);
      if n % 2 == 1 {
        NodeAgree(m, m', h, n - 1);
      }
    }
  }

  /** A full counter holds the single root of the whole subtree. */
  lemma {:induction false} StackWhenFull(m: Leaves, d: nat, h: nat)
    ensures Stack(m, Pow2(d), h) == [Node(m, h + d, 0)]
    decreases d
  {
    if d == 0 {
      assert Stack(m, 0, h + 1) == [];
    } else {
      StackWhenFull(m, d - 1, h + 1);
    }
  }

  // ------------------------------------------------------------------------------------------------ runs of deposits

  /** What a run of deposits leaves: the roots queued, in order, and the leaves of the unfinished group. */
  datatype Progress = Progress(queued: seq<Hash>, pending: seq<Hash>)

  function Deposited(s: Progress, leaf: Hash, depth: nat): Progress {
    var group := s.pending + [leaf];
    if |group| >= Pow2(depth) then Progress(s.queued + [Root(Padded(group), depth)], [])
    else Progress(s.queued, group)
  }

  function AfterDeposits(leaves: seq<Hash>, depth: nat): Progress {
    if leaves == [] then Progress([], []) else
      var n := |leaves| - 1;
      Deposited(AfterDeposits(leaves[..n], depth), leaves[n], depth)
  }

  /** `k * size`. */
  function Times(k: nat, size: nat): nat {
    if k == 0 then 0 else Times(k - 1, size) + size
  }

  lemma {:induction false} TimesIsProduct(k: nat, size: nat)
    ensures Times(k, size) == k * size
  {
    if k > 0 {
      TimesIsProduct(k - 1, size);
    }
  }

  lemma {:induction false} TimesMono(j: nat, k: nat, size: nat)
    requires j <= k
    ensures Times(j, size) <= Times(k, size)
  {
    if j < k {
      TimesMono(j, k - 1, size);
    }
  }

  /** The k-th group of `size` leaves. */
  function Group(leaves: seq<Hash>, k: nat, size: nat): seq<Hash>
    requires Times(k + 1, size) <= |leaves|
  {
    leaves[Times(k, size)..Times(k + 1, size)]
  }

  ghost predicate IsRootOfGroup(root: Hash, leaves: seq<Hash>, k: nat, depth: nat) {
    var size := Pow2(depth);
    Times(k + 1, size) <= |leaves| && root == Root(Padded(Group(leaves, k, size)), depth)
  }

  lemma GroupStays(init: seq<Hash>, leaf: Hash, k: nat, size: nat)
    requires Times(k, size) <= Times(k + 1, size) <= |init|
    ensures Group(init + [leaf], k, size) == Group(init, k, size)
  {
  }

  /** The queue holds the roots of the whole groups, the rest is pending. */
  ghost predicate Grouped(s: Progress, leaves: seq<Hash>, depth: nat) {
    var size := Pow2(depth);
    && |leaves| == Times(|s.queued|, size) + |s.pending| && |s.pending| < size
    && s.pending == leaves[Times(|s.queued|, size)..]
    && forall k :: 0 <= k < |s.queued| ==> IsRootOfGroup(s.queued[k], leaves, k, depth)
  }

  lemma EarlierGroups(s: Progress, init: seq<Hash>, leaf: Hash, depth: nat)
    requires Grouped(s, init, depth)
    ensures forall k :: 0 <= k < |s.queued| ==> IsRootOfGroup(s.queued[k], init + [leaf], k, depth)
  {
    hide Root, Padded, Pow2, Group;
    var size := Pow2(depth);
    forall k | 0 <= k < |s.queued|
      ensures IsRootOfGroup(s.queued[k], init + [leaf], k, depth)
    {
      assert IsRootOfGroup(s.queued[k], init, k, depth);
      TimesMono(k, k + 1, size);
      GroupStays(init, leaf, k, size);
    }
  }

  lemma LastGroup(s: Progress, init: seq<Hash>, leaf: Hash, depth: nat)
    requires Grouped(s, init, depth) && |s.pending| + 1 == Pow2(depth)
    ensures IsRootOfGroup(Root(Padded(s.pending + [leaf]), depth), init + [leaf], |s.queued|, depth)
  {
    hide Root, Padded, Pow2;
    var from, leaves := Times(|s.queued|, Pow2(depth)), init + [leaf];
    assert Times(|s.queued| + 1, Pow2(depth)) == |leaves|;
    assert leaves[from..|leaves|] == init[from..] + [leaf];
  }

  lemma GroupedStep(s: Progress, init: seq<Hash>, leaf: Hash, depth: nat)
    requires Grouped(s, init, depth)
    ensures Grouped(Deposited(s, leaf, depth), init + [leaf], depth)
  {
    hide Root, Padded, Pow2, IsRootOfGroup;
    var from, leaves := Times(|s.queued|, Pow2(depth)), init + [leaf];
    EarlierGroups(s, init, leaf, depth);
    if |s.pending| + 1 >= Pow2(depth) {
      LastGroup(s, init, leaf, depth);
      assert Times(|s.queued| + 1, Pow2(depth)) == |leaves|;
    } else {
      assert leaves[from..] == init[from..] + [leaf];
    }
  }

  /** Over every run of deposits, the k-th queued root is the Merkle root of the k-th group of 2^depth leaves. */
  lemma {:induction false} GroupsAreRoots(leaves: seq<Hash>, depth: nat)
    ensures var s, size := AfterDeposits(leaves, depth), Pow2(depth);
            && |leaves| == Times(|s.queued|, size) + |s.pending| && |s.pending| < size
            && s.pending == leaves[Times(|s.queued|, size)..]
            && forall k :: 0 <= k < |s.queued| ==> IsRootOfGroup(s.queued[k], leaves, k, depth)
  {
    hide Deposited, IsRootOfGroup, Pow2;
    if leaves != [] {
      var n := |leaves| - 1;
      GroupsAreRoots(leaves[..n], depth);
      GroupedStep(AfterDeposits(leaves[..n], depth), leaves[..n], leaves[n], depth);
      assert leaves == leaves[..n] + [leaves[n]];
    }
  }

  // ------------------------------------------------------------------------------------------------ the contract

  /** SubtreeQueue and DepositCore. */
  class DepositCore {
    var queue: map<nat, Hash>
    var front: nat
    var back: nat
    var babyTrees: map<nat, Hash>
    var babyTreesLength: nat
    var depositCount: nat
    const paramMaxSubtreeSize: nat
    ghost const depth: nat

    /** Every root ever enqueued: the subtree with ID k is enqueued[k - 1]. */
    ghost var enqueued: seq<Hash>

    /** Leaves of the unfinished group. */
    ghost var pending: seq<Hash>

    ghost predicate QueueValid()
      reads this
    {
      && back == |enqueued| && 1 <= front <= back + 1
      && (forall id :: id in queue <==> front <= id <= back)
      && (forall id :: front <= id <= back ==> queue[id] == enqueued[id - 1])
    }

    ghost predicate Valid()
      reads this
    {
      && QueueValid()
      && paramMaxSubtreeSize == Pow2(depth)
      && depositCount == |pending| < paramMaxSubtreeSize
      && Slots(babyTrees, babyTreesLength) == Stack(Padded(pending), |pending|, 0)
    }

    constructor (maxSubtreeDepth: nat)
      ensures Valid() && depth == maxSubtreeDepth && enqueued == [] && pending == [] && front == 1
    {
      queue, front, back := map[], 1, 0;
      babyTrees, babyTreesLength, depositCount := map[], 0, 0;
      paramMaxSubtreeSize := Pow2(maxSubtreeDepth);
      depth := maxSubtreeDepth;
      enqueued, pending := [], [];
    }

    /** `enqueue`, and so also `reenqueue`. */
    method Enqueue(subtreeRoot: Hash) returns (subtreeID: nat)
      requires QueueValid()
      modifies `queue, `back, `enqueued
      ensures QueueValid() && enqueued == old(enqueued) + [subtreeRoot] && subtreeID == |enqueued|
    {
      subtreeID := back + 1;
      back := subtreeID;
      queue := queue[subtreeID := subtreeRoot];
      enqueued := enqueued + [subtreeRoot];
    }

    /** Roots leave the queue in the order of their IDs; on an empty queue the call reverts. */
    method Dequeue() returns (r: Option<(nat, Hash)>)
      requires QueueValid()
      modifies `queue, `front
      ensures QueueValid()
      ensures r == if old(front) <= |enqueued| then Some((old(front), enqueued[old(front) - 1])) else None
      ensures front == old(front) + if r.Some? then 1 else 0
    {
      var subtreeID := front;
      if back < subtreeID {
        return None;
      }
      var subtreeRoot := queue[subtreeID];
      queue := queue - {subtreeID};
      front := subtreeID + 1;
      return Some((subtreeID, subtreeRoot));
    }

    method InsertAndMerge(depositLeaf: Hash)
      requires Valid()
      modifies this
      ensures Valid() && front == old(front)
      ensures Progress(enqueued, pending) == Deposited(Progress(old(enqueued), old(pending)), depositLeaf, depth)
    {
      hide Padded, Node, Stack, Slots;
      ghost var group, n := pending + [depositLeaf], |pending|;
      ghost var m := Padded(group);
      OneMoreLeaf(pending, depositLeaf);
      depositCount := depositCount + 1;
      Merge(depositLeaf, m, n);
      if depositCount == paramMaxSubtreeSize {
        StackWhenFull(m, depth, 0);
        assert babyTreesLength == |Slots(babyTrees, babyTreesLength)| == 1;
        FirstSlot(babyTrees, babyTreesLength);
        var _ := Enqueue(Slot(babyTrees, 0));
        babyTreesLength := 0;
        depositCount := 0;
        pending := [];
        NothingPending(babyTrees, Padded(pending));
      } else {
        pending := group;
      }
    }

    /** The merging loop: as long as the counter is even, the last two trees become one. */
    method Merge(depositLeaf: Hash, ghost m: Leaves, ghost n: nat)
      requires depositCount == n + 1 && At(m, n) == depositLeaf
      requires Slots(babyTrees, babyTreesLength) == Stack(m, n, 0)
      modifies `babyTrees, `babyTreesLength
      ensures Slots(babyTrees, babyTreesLength) == Stack(m, n + 1, 0)
    {
      hide Stack, Slots;
      ghost var h: nat := 0;
      var i := depositCount;
      var len := babyTreesLength;
      SlotsKeep(babyTrees, len, len, depositLeaf);
      babyTrees := babyTrees[len := depositLeaf];
      len := len + 1;
      while i % 2 == 0
        invariant i > 0 && len > 0
        invariant Slots(babyTrees, len - 1) == Stack(m, i - 1, h) && Slot(babyTrees, len - 1) == Node(m, h, i - 1)
        invariant Stack(m, n + 1, 0) == Stack(m, i, h)
        decreases i
      {
        EvenStack(m, i, h);
        assert |Slots(babyTrees, len - 1)| > 0;
        var merged := Pair(Slot(babyTrees, len - 2), Slot(babyTrees, len - 1));
        MergeSlots(babyTrees, len - 1, merged, Stack(m, i / 2 - 1, h + 1), Node(m, h, i - 2));
        babyTrees := babyTrees[len - 2 := merged];
        len := len - 1;
        i := i / 2;
        h := h + 1;
      }
      babyTreesLength := len;
      SlotsSnoc(babyTrees, len);
      OddStack(m, i, h);
    }
  }

  /** A mapping reads as zero where it was never written. */
  function Slot(t: map<nat, Hash>, i: nat): Hash {
    if i in t then t[i] else Word(0)
  }

  function Slots(t: map<nat, Hash>, n: nat): (s: seq<Hash>)
    ensures |s| == n
  {
    if n == 0 then [] else Slots(t, n - 1) + [Slot(t, n - 1)]
  }

  lemma {:induction false} SlotsKeep(t: map<nat, Hash>, n: nat, i: nat, x: Hash)
    requires n <= i
    ensures Slots(t[i := x], n) == Slots(t, n)
  {
    if n > 0 {
      SlotsKeep(t, n - 1, i, x);
    }
  }

  lemma NothingPending(t: map<nat, Hash>, m: Leaves)
    ensures Slots(t, 0) == Stack(m, 0, 0)
  {
  }

  lemma SlotsSnoc(t: map<nat, Hash>, n: nat)
    requires n > 0
    ensures Slots(t, n) == Slots(t, n - 1) + [Slot(t, n - 1)]
  {
  }

  lemma SameLast<T>(a: seq<T>, x: T, b: seq<T>, y: T)
    requires a + [x] == b + [y]
    ensures a == b && x == y
  {
    assert (a + [x])[..|a|] == a && (b + [y])[..|b|] == b;
    assert (a + [x])[|a|] == x;
  }

  lemma FirstSlot(t: map<nat, Hash>, n: nat)
    requires n == 1
    ensures Slots(t, n) == [Slot(t, 0)]
  {
    assert Slots(t, 0) == [];
  }

  lemma OneMoreLeaf(pending: seq<Hash>, leaf: Hash)
    ensures var m, n := Padded(pending + [leaf]), |pending|;
            At(m, n) == leaf && Stack(Padded(pending), n, 0) == Stack(m, n, 0)
  {
    StackAgrees(Padded(pending), Padded(pending + [leaf]), |pending|, 0);
  }

  lemma EvenStack(m: Leaves, i: nat, h: nat)
    requires i > 0 && i % 2 == 0
    ensures Stack(m, i, h) == Stack(m, i / 2, h + 1)
    ensures Stack(m, i - 1, h) == Stack(m, i / 2 - 1, h + 1) + [Node(m, h, i - 2)]
    ensures Pair(Node(m, h, i - 2), Node(m, h, i - 1)) == Node(m, h + 1, i / 2 - 1)
  {
    assert (i - 1) / 2 == i / 2 - 1;
    assert Stack(m, i, h) == Stack(m, i / 2, h + 1) + [];
  }

  /** Overwriting the last slot but one shortens the stack. */
  lemma MergeSlots(t: map<nat, Hash>, n: nat, merged: Hash, below: seq<Hash>, top: Hash)
    requires Slots(t, n) == below + [top]
    ensures n > 0 && Slot(t, n - 1) == top && Slots(t[n - 1 := merged], n - 1) == below
    ensures Slot(t[n - 1 := merged], n - 1) == merged
  {
    SameLast(Slots(t, n - 1), Slot(t, n - 1), below, top);
    SlotsKeep(t, n - 1, n - 1, merged);
  }

  lemma OddStack(m: Leaves, i: nat, h: nat)
    requires i % 2 == 1
    ensures Stack(m, i, h) == Stack(m, i - 1, h) + [Node(m, h, i - 1)]
  {
    if i == 1 {
      assert Stack(m, 0, h + 1) == [];
    } else {
      assert (i - 1) / 2 == i / 2;
      assert Stack(m, i - 1, h) == Stack(m, i / 2, h + 1) + [];
    }
  }

  // ------------------------------------------------------------------------------------------------ the client

  datatype Subtree = Subtree(id: nat, root: Hash, states: seq<UserState>)

  function RootsOf(subtrees: seq<Subtree>): seq<Hash> {
    seq(|subtrees|, k requires 0 <= k < |subtrees| => subtrees[k].root)
  }

  /** One deposit in the client's pool: the root of a finished group is the one `merklize` gives. */
  function PoolDeposited(s: Progress, leaf: Hash, depth: nat): Progress {
    var group := s.pending + [leaf];
    if |group| >= Pow2(depth) then Progress(s.queued + [Merklized(group)], []) else Progress(s.queued, group)
  }

  /** `merklize` of a full group is the root of the contract's subtree exactly for depths of at least 1: it pads a
      single leaf to depth 1. */
  lemma SubtreeDepthMatters(leaves: seq<Hash>, d: nat)
    requires |leaves| == Pow2(d)
    ensures Merklized(leaves) == Root(Padded(leaves), d) <==> d > 0
  {
    CeilLog2OfPow2(d);
    if d == 0 {
      var m := Padded(leaves);
      assert Node(m, 1, 0) == Pair(Node(m, 0, 0), Node(m, 0, 1));
      assert Spine(Node(m, 1, 0)) == Spine(Node(m, 0, 0)) + 1;
    } else {
      assert Pow2(d) == 2 * Pow2(d - 1);
    }
  }

  lemma PoolFollows(s: Progress, leaf: Hash, depth: nat)
    requires depth > 0 && |s.pending| < Pow2(depth)
    ensures PoolDeposited(s, leaf, depth) == Deposited(s, leaf, depth)
  {
    var group := s.pending + [leaf];
    if |group| >= Pow2(depth) {
      SubtreeDepthMatters(group, depth);
    }
  }

  class DepositPool {
    const maxSubtreeSize: nat
    var depositLeaves: seq<UserState>
    var subtreeQueue: seq<Subtree>
    var currentSubtreeID: nat
    ghost const depth: nat

    /** Every subtree ever pushed. */
    ghost var pushed: seq<Subtree>

    ghost predicate Valid()
      reads this
    {
      && maxSubtreeSize == Pow2(depth) && maxSubtreeSize + 2 < TWO_31
      && |depositLeaves| < maxSubtreeSize
      && currentSubtreeID == |pushed| && |subtreeQueue| <= |pushed|
      && subtreeQueue == pushed[|pushed| - |subtreeQueue|..]
      && (forall k :: 0 <= k < |pushed| ==>
            && pushed[k].id == k + 1 && |pushed[k].states| == maxSubtreeSize
            && pushed[k].root == Merklized(LeavesOf(pushed[k].states)))
    }

    /** The pool as the contract's progress. */
    ghost function Seen(): Progress
      reads this
    {
      Progress(RootsOf(pushed), LeavesOf(depositLeaves))
    }

    constructor (maxSubtreeDepth: nat)
      requires Pow2(maxSubtreeDepth) + 2 < TWO_31
      ensures Valid() && depth == maxSubtreeDepth && pushed == [] && Seen() == Progress([], [])
    {
      maxSubtreeSize := Pow2(maxSubtreeDepth);
      depth := maxSubtreeDepth;
      depositLeaves, subtreeQueue, pushed := [], [], [];
      currentSubtreeID := 0;
    }

    method PushDeposit(state: UserState)
      requires Valid()
      modifies this
      ensures Valid() && |subtreeQueue| - old(|subtreeQueue|) == |pushed| - old(|pushed|)
      ensures Seen() == PoolDeposited(old(Seen()), Leaf(state), depth)
    {
      depositLeaves := depositLeaves + [state];
      assert LeavesOf(depositLeaves) == old(Seen()).pending + [Leaf(state)];
      if |depositLeaves| >= maxSubtreeSize {
        var states := depositLeaves;
        depositLeaves := [];
        var leaves := LeavesOf(states);
        var tree := MT.Merklize(leaves);
        currentSubtreeID := currentSubtreeID + 1;
        var subtree := Subtree(currentSubtreeID, tree.value.RootNode(), states);
        subtreeQueue := subtreeQueue + [subtree];
        pushed := pushed + [subtree];
        assert RootsOf(pushed) == RootsOf(old(pushed)) + [subtree.root];
        assert LeavesOf([]) == [];
      }
    }

    method PopDepositSubtree() returns (r: Option<Subtree>)
      requires Valid()
      modifies `subtreeQueue
      ensures Valid()
      ensures r == if old(subtreeQueue) == [] then None else Some(old(subtreeQueue)[0])
      ensures subtreeQueue == if r.Some? then old(subtreeQueue)[1..] else []
    {
      if |subtreeQueue| == 0 {
        return None;
      }
      r := Some(subtreeQueue[0]);
      subtreeQueue := subtreeQueue[1..];
    }
  }

  /** Contract and client, given the same deposits, stay in step: same number of subtrees, same IDs, same roots, same
      unfinished group. */
  method BothFollow(core: DepositCore, pool: DepositPool, state: UserState)
    requires core.Valid() && pool.Valid() && core.depth == pool.depth > 0
    requires Progress(core.enqueued, core.pending) == pool.Seen()
    modifies core, pool
    ensures core.Valid() && pool.Valid() && Progress(core.enqueued, core.pending) == pool.Seen()
    ensures forall k :: 0 <= k < |core.enqueued| ==>
              pool.pushed[k].id == k + 1 && pool.pushed[k].root == core.enqueued[k]
  {
    PoolFollows(pool.Seen(), Leaf(state), pool.depth);
    core.InsertAndMerge(Leaf(state));
    pool.PushDeposit(state);
    assert forall k :: 0 <= k < |core.enqueued| ==> core.enqueued[k] == pool.Seen().queued[k];
  }
}
