/** Putting a finished deposit subtree into the state tree: the vacancy proof and new root of Rollup.submitDeposits, and
    the client's applyBatch. */
module DepositInsertion {
  import opened Words
  import opened Merkle
  import opened Ledger
  import opened StorageEngines
  import Deposits
  import ST = StateTrees

  /** The ledger with `states` at the leaves of node `j` at height `k`. */
  function Inserted(s: Ledger, j: nat, k: nat, states: seq<UserState>): Ledger {
    Replay(s, Entries(Position(j, k, 0), states))
  }

  lemma {:induction false} InsertedAt(s: Ledger, first: nat, states: seq<UserState>, p: nat)
    ensures var s' := Replay(s, Entries(first, states));
            if first <= p < first + |states| then p in s' && s'[p] == states[p - first]
            else (p in s' <==> p in s) && (p in s ==> s'[p] == s[p])
  {
    if states != [] {
      InsertedAt(s, first, states[..|states| - 1], p);
    }
  }

  lemma PositionDoubles(j: nat, e: nat, i: nat)
    ensures Position(j, e + 1, 2 * i) == 2 * Position(j, e, i)
    ensures Position(j, e + 1, 2 * i + 1) == 2 * Position(j, e, i) + 1
    ensures i < Pow2(e) ==> 2 * i + 1 < Pow2(e + 1)
  {
    var p := Pow2(e);
    assert 2 * p * j == 2 * (p * j);
  }

  /** A full subtree looks the same wherever it stands. */
  lemma {:induction false} NodeShift(m: Leaves, m': Leaves, k: nat, j: nat, h: nat, i: nat)
    requires h <= k && i < Pow2(k - h)
    requires forall q: nat :: q < Pow2(k) ==> At(m', Position(j, k, q)) == At(m, q)
    ensures Node(m', h, Position(j, k - h, i)) == Node(m, h, i)
  {
    hide Position, Pow2, At;
    if h > 0 {
      PositionDoubles(j, k - h, i);
      NodeShift(m, m', k, j, h - 1, 2 * i);
      NodeShift(m, m', k, j, h - 1, 2 * i + 1);
    }
  }

  /** The inserted subtree is exactly below its node, and its root there is the root of the deposits. */
  lemma InsertedSubtree(s: Ledger, j: nat, k: nat, states: seq<UserState>)
    requires |states| == Pow2(k)
    ensures var m, m' := StateLeaves(s), StateLeaves(Inserted(s, j, k, states));
            && Node(m', k, j) == Root(Padded(LeavesOf(states)), k)
            && forall p: nat :: Shr(p, k) != j ==> At(m, p) == At(m', p)
  {
    var m, m', sub := StateLeaves(s), StateLeaves(Inserted(s, j, k, states)), Padded(LeavesOf(states));
    var first := Position(j, k, 0);
    forall q: nat | q < Pow2(k)
      ensures At(m', Position(j, k, q)) == At(sub, q)
    {
      InsertedAt(s, first, states, Position(j, k, q));
    }
    NodeShift(sub, m', k, j, k, 0);
    assert Position(j, 0, 0) == j;
    forall p: nat | Shr(p, k) != j
      ensures At(m, p) == At(m', p)
    {
      InsertedAt(s, first, states, p);
      if first <= p < first + Pow2(k) {
        PositionIsBelow(j, k, p - first);
      }
    }
  }

  /** Soundness of a deposit: a vacancy proof of any length against a ledger's root shows a wholly empty subtree of the
      deposit depth, and the root computed from the deposit root is the root after inserting exactly those states. */
  lemma DepositSound(s: Ledger, depth: nat, k: nat, path: nat, w: seq<Hash>, states: seq<UserState>)
    requires Climb(Zero(k), path, w) == StateRoot(s, depth) && |states| == Pow2(k)
    ensures k <= depth && |w| == depth - k
    ensures forall p: nat :: Shr(p, k) == Low(path, |w|) ==> p !in s
    ensures Climb(Root(Padded(LeavesOf(states)), k), path, w)
         == StateRoot(Inserted(s, Low(path, |w|), k, states), depth)
  {
    var m, j := StateLeaves(s), Low(path, |w|);
    LeavesAfterPut(s, 0, ZERO_STATE);
    SpineOfZero(k);
    ClimbIsUnique(Zero(k), path, w, m, depth, 0);
    BelowRoot(path, |w|);
    forall p: nat | Shr(p, k) == j
      ensures p !in s
    {
      ZeroNodeIsEmpty(m, k, j, p);
    }
    InsertedSubtree(s, j, k, states);
    ClimbReplaces(Zero(k), path, w, m, StateLeaves(Inserted(s, j, k, states)), depth);
  }

  /** The vacancy proof that the client finds is accepted, and leads to the root of the client's own ledger
      afterwards. */
  lemma FoundVacancyWorks(s: Ledger, depth: nat, k: nat, v: Vacant, states: seq<UserState>)
    requires k <= depth && v.pathAtDepth < Pow2(depth - k) && |states| == Pow2(k)
    requires Climb(Zero(k), v.pathAtDepth, v.siblings) == StateRoot(s, depth)
    ensures Climb(Root(Padded(LeavesOf(states)), k), v.pathAtDepth, v.siblings)
         == StateRoot(Inserted(s, v.pathAtDepth, k, states), depth)
  {
    DepositSound(s, depth, k, v.pathAtDepth, v.siblings, states);
    ShrZero(v.pathAtDepth, depth - k);
  }

  datatype Context = Context(subtreeID: nat, depositSubtreeRoot: Hash, pathToSubTree: nat)

  /** `applyBatch`: None is an exception.  It commits whatever else is in the journal as well. */
  method ApplyBatch(context: Context, pool: Deposits.DepositPool, subtreeDepth: nat, engine: MemoryEngine)
    returns (ok: bool)
    requires subtreeDepth == pool.depth
    requires pool.Valid() && engine.Valid() && engine.Clean()
    requires Position(context.pathToSubTree, pool.depth, Pow2(pool.depth)) <= TWO_31
    modifies pool`subtreeQueue, engine, engine.tree
    ensures ok <==>
              && old(pool.subtreeQueue) != []
              && old(pool.subtreeQueue)[0].root == context.depositSubtreeRoot
              && old(pool.subtreeQueue)[0].id == context.subtreeID
              && Position(context.pathToSubTree, pool.depth, Pow2(pool.depth)) <= engine.tree.setSize
              && AllFit(old(engine.journal)) && StatesFit(old(pool.subtreeQueue)[0].states)
    ensures ok ==>
              && engine.Valid() && engine.Clean() && engine.journal == []
              && engine.items == Inserted(old(engine.View()), context.pathToSubTree, pool.depth,
                                          old(pool.subtreeQueue)[0].states)
  {
    hide Entries, AllFit, StatesFit, Position, ST.Fits;
    var subtree := pool.PopDepositSubtree();
    if subtree.None? || subtree.value.root != context.depositSubtreeRoot || subtree.value.id != context.subtreeID {
      return false;
    }
    var states := subtree.value.states;
    assert subtree.value == pool.pushed[|pool.pushed| - |old(pool.subtreeQueue)|];
    ghost var entries := Entries(Position(context.pathToSubTree, pool.depth, 0), states);
    var u := engine.UpdateBatch(context.pathToSubTree, subtreeDepth, states);
    if u.Failure? {
      return false;
    }
    EntriesFit(Position(context.pathToSubTree, pool.depth, 0), states);
    BothFit(old(engine.journal), entries);
    var c := engine.Commit();
    ReplayTwice(old(engine.items), old(engine.journal), entries);
    ReplayIsOverlay(old(engine.items), old(engine.journal));
    return c.Success?;
  }

  lemma BothFit(a: seq<Entry>, b: seq<Entry>)
    ensures AllFit(a + b) <==> AllFit(a) && AllFit(b)
  {
    assert forall i :: 0 <= i < |a| ==> (a + b)[i] == a[i];
    assert forall i :: 0 <= i < |b| ==> (a + b)[|a| + i] == b[i];
  }

  predicate StatesFit(states: seq<UserState>) {
    forall i :: 0 <= i < |states| ==> ST.Fits(states[i])
  }

  lemma {:induction false} EntriesFit(first: nat, states: seq<UserState>)
    ensures AllFit(Entries(first, states)) <==> StatesFit(states)
    ensures |Entries(first, states)| == |states|
  {
    if states != [] {
      EntriesFit(first, states[..|states| - 1]);
    }
  }

  lemma {:induction false} ReplayTwice(items: Ledger, a: seq<Entry>, b: seq<Entry>)
    ensures Replay(items, a + b) == Replay(Replay(items, a), b)
    decreases |b|
  {
    if b == [] {
      assert a + b == a;
    } else {
      assert (a + b)[..|a + b| - 1] == a + b[..|b| - 1];
      ReplayTwice(items, a, b[..|b| - 1]);
    }
  }

  /** Chain and client agree on a deposit: when the client's pool holds the subtree that the chain dequeued and its
      engine has nothing pending, applying the batch gives the root that the chain computed from the vacancy witness. */
  method ClientFollowsChain(context: Context, w: seq<Hash>, pool: Deposits.DepositPool, subtreeDepth: nat,
                            engine: MemoryEngine)
    returns (ok: bool)
    requires subtreeDepth == pool.depth > 0
    requires pool.Valid() && engine.Valid() && engine.Clean() && engine.journal == []
    requires Position(context.pathToSubTree, pool.depth, Pow2(pool.depth)) <= TWO_31
    requires pool.depth <= engine.tree.depth && context.pathToSubTree < Pow2(engine.tree.depth - pool.depth)
    requires Climb(Zero(pool.depth), context.pathToSubTree, w) == StateRoot(engine.items, engine.tree.depth)
    requires pool.subtreeQueue != [] && pool.subtreeQueue[0].root == context.depositSubtreeRoot
    requires pool.subtreeQueue[0].id == context.subtreeID && StatesFit(pool.subtreeQueue[0].states)
    modifies pool`subtreeQueue, engine, engine.tree
    ensures ok && engine.Valid()
    ensures StateRoot(engine.items, engine.tree.depth) == Climb(context.depositSubtreeRoot, context.pathToSubTree, w)
  {
    ghost var s, depth, states := engine.items, engine.tree.depth, pool.subtreeQueue[0].states;
    assert pool.subtreeQueue[0] == pool.pushed[|pool.pushed| - |pool.subtreeQueue|];
    assert engine.View() == s;
    Deposits.SubtreeDepthMatters(LeavesOf(states), pool.depth);
    FoundVacancyWorks(s, depth, pool.depth, Vacant(context.pathToSubTree, w), states);
    RangeFits(context.pathToSubTree, pool.depth, depth);
    ok := ApplyBatch(context, pool, subtreeDepth, engine);
  }

  lemma RangeFits(j: nat, k: nat, depth: nat)
    requires k <= depth && j < Pow2(depth - k)
    ensures Position(j, k, Pow2(k)) <= Pow2(depth)
  {
    hide Pow2;
    Pow2Sum(k, depth - k);
    OneMore(Pow2(k), j, Pow2(depth - k));
  }

  lemma OneMore(p: nat, j: nat, q: nat)
    requires j < q
    ensures p * j + p <= p * q
  {
    var more := q - j - 1;
    assert p * q == p * (j + 1 + more);
    Distributes(p, j + 1, more);
    Distributes(p, j, 1);
  }

  lemma Distributes(p: nat, a: nat, b: nat)
    ensures p * (a + b) == p * a + p * b
  {
  }
}
