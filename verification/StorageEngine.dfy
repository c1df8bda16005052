/** ts/client/storageEngine/memoryEngine.ts: a journalled store of states over a Merkle tree.  Updates go to a cache and
    a journal; `commit` replays the journal onto the items and the tree. */
module StorageEngines {
  import opened Words
  import opened Merkle
  import MT = MemoryTrees
  import opened Ledger
  import ST = StateTrees

  datatype Entry = Entry(itemID: nat, item: UserState)

  datatype EngineError = BadItemID | NotExists | AlreadyExists | HashOverflow | TreeAtLevelIsFull
  datatype Result<+T> = Success(value: T) | Failure(error: EngineError)

  datatype Vacant = Vacant(pathAtDepth: nat, siblings: seq<Hash>)

  /** The journal written onto `items`, oldest entry first. */
  function Replay(items: Ledger, journal: seq<Entry>): Ledger {
    if journal == [] then items else
      var n := |journal| - 1;
      Replay(items, journal[..n])[journal[n].itemID := journal[n].item]
  }

  predicate AllFit(journal: seq<Entry>) {
    forall i :: 0 <= i < |journal| ==> ST.Fits(journal[i].item)
  }

  lemma {:induction false} ReplayIsOverlay(items: Ledger, journal: seq<Entry>)
    ensures Replay(items, journal) == items + Replay(map[], journal)
  {
    if journal != [] {
      ReplayIsOverlay(items, journal[..|journal| - 1]);
    }
  }

  class MemoryEngine {
    const tree: MT.MemoryTree
    var items: Ledger
    var cache: Ledger
    var journal: seq<Entry>

    ghost predicate Valid()
      reads this, tree
    {
      && tree.Valid() && tree.Leaves() == StateLeaves(items)
      && (forall p :: p in items ==> p < tree.setSize && p < TWO_31 && ST.Fits(items[p]))
      && (forall i :: 0 <= i < |journal| ==> journal[i].itemID < tree.setSize && journal[i].itemID < TWO_31)
    }

    /** The cache is what the journal says: nothing was reverted since the last commit. */
    ghost predicate Clean()
      reads this
    {
      cache == Replay(map[], journal)
    }

    /** The ledger as `get` shows it. */
    function View(): Ledger
      reads this
    {
      items + cache
    }

    constructor (depth: nat)
      ensures Valid() && Clean() && fresh(tree) && tree.depth == depth && items == map[] && journal == []
    {
      tree := new MT.MemoryTree(depth);
      items, cache, journal := map[], map[], [];
    }

    function RootNode(): (root: Hash)
      requires Valid()
      reads this, tree
      ensures root == StateRoot(items, tree.depth)
    {
      tree.Meaning(0, 0);
      tree.RootNode()
    }

    function Get(itemID: nat): Result<UserState>
      reads this, tree
    {
      if itemID >= tree.setSize then Failure(BadItemID)
      else if itemID in cache then Success(cache[itemID])
      else if itemID in items then Success(items[itemID])
      else Failure(NotExists)
    }

    method Update(itemID: nat, item: UserState) returns (r: Result<()>)
      requires Valid() && itemID < TWO_31
      modifies `cache, `journal
      ensures r.Success? <==> itemID < tree.setSize
      ensures Valid() && (old(Clean()) ==> Clean())
      ensures journal == if r.Success? then old(journal) + [Entry(itemID, item)] else old(journal)
      ensures cache == if r.Success? then old(cache)[itemID := item] else old(cache)
    {
      if itemID >= tree.setSize {
        return Failure(BadItemID);
      }
      cache := cache[itemID := item];
      journal := journal + [Entry(itemID, item)];
      return Success(());
    }

    /** Looks at the committed items only. */
    method Create(itemID: nat, item: UserState) returns (r: Result<()>)
      requires Valid() && itemID < TWO_31
      modifies `cache, `journal
      ensures r.Success? <==> itemID !in items && itemID < tree.setSize
      ensures Valid() && (old(Clean()) ==> Clean())
      ensures journal == if r.Success? then old(journal) + [Entry(itemID, item)] else old(journal)
      ensures cache == if r.Success? then old(cache)[itemID := item] else old(cache)
    {
      if itemID in items {
        return Failure(AlreadyExists);
      }
      r := Update(itemID, item);
    }

    /** Drops journal entries; the cache keeps showing them. */
    method Revert(checkpoint: nat)
      requires Valid()
      modifies `journal
      ensures Valid()
      ensures journal == if checkpoint <= |old(journal)| then old(journal)[..checkpoint] else old(journal)
    {
      journal := if checkpoint <= |journal| then journal[..checkpoint] else journal;
    }

    /** Whatever the cache shows, exactly the journal is stored.  A state that cannot be hashed throws, with the items
        and the tree left apart. */
    method Commit() returns (r: Result<()>)
      requires Valid()
      modifies this, tree
      ensures r == if AllFit(old(journal)) then Success(()) else Failure(HashOverflow)
      ensures r.Success? ==>
                Valid() && items == Replay(old(items), old(journal)) && journal == [] && cache == map[]
    {
      for i := 0 to |journal|
        invariant Valid() && journal == old(journal) && AllFit(journal[..i])
        invariant items == Replay(old(items), journal[..i])
      {
        assert journal[..i + 1][..i] == journal[..i];
        items := items[journal[i].itemID := journal[i].item];
        if !ST.Fits(journal[i].item) {
          return Failure(HashOverflow);
        }
        var _ := tree.UpdateSingle(journal[i].itemID, Leaf(journal[i].item));
      }
      assert journal[..|journal|] == journal;
      journal := [];
      cache := map[];
      return Success(());
    }

    /** Does the cache hold an item below node `i` at height `k`? */
    predicate CachedBelow(i: nat, k: nat)
      reads this
    {
      exists p :: p in cache && Shr(p, k) == i
    }

    /** The first node at the level that is empty in the tree and has nothing cached below it; its witness proves to the
        state root that the whole subtree is vacant. */
    method FindVacantSubtree(subtreeDepth: nat) returns (r: Result<Vacant>)
      requires Valid() && subtreeDepth <= tree.depth && Pow2(tree.depth - subtreeDepth) <= TWO_31
      ensures r.Success? ==>
                && r.value.pathAtDepth < Pow2(tree.depth - subtreeDepth)
                && |r.value.siblings| == tree.depth - subtreeDepth
                && Climb(Zero(subtreeDepth), r.value.pathAtDepth, r.value.siblings) == StateRoot(items, tree.depth)
                && forall p :: Shr(p, subtreeDepth) == r.value.pathAtDepth ==> p !in View()
      ensures r.Failure? ==>
                forall i: nat :: i < Pow2(tree.depth - subtreeDepth) ==>
                  Node(StateLeaves(items), subtreeDepth, i) != Zero(subtreeDepth) || CachedBelow(i, subtreeDepth)
    {
      var level := tree.depth - subtreeDepth;
      var zero := tree.zeros[level];
      for i := 0 to Pow2(level)
        invariant forall j: nat :: j < i ==>
                    Node(StateLeaves(items), subtreeDepth, j) != Zero(subtreeDepth) || CachedBelow(j, subtreeDepth)
      {
        tree.Meaning(level, i);
        if tree.GetNode(level, i) == zero {
          var itemCachedForSubtree := AnyCached(i, subtreeDepth);
          if !itemCachedForSubtree {
            var w := tree.Witness(i, level);
            VacancyIsProved(items, tree.depth, subtreeDepth, i);
            return Success(Vacant(i, w.nodes));
          }
        }
      }
      return Failure(TreeAtLevelIsFull);
    }

    /** The inner loop of `findVacantSubtree`. */
    method AnyCached(i: nat, subtreeDepth: nat) returns (cached: bool)
      ensures cached <==> CachedBelow(i, subtreeDepth)
    {
      for k := 0 to Pow2(subtreeDepth)
        invariant forall j :: 0 <= j < k ==> Position(i, subtreeDepth, j) !in cache
      {
        PositionIsBelow(i, subtreeDepth, k);
        if Position(i, subtreeDepth, k) in cache {
          return true;
        }
      }
      forall p: nat | Shr(p, subtreeDepth) == i
        ensures p !in cache
      {
        LowBound(p, subtreeDepth);
        LowSplit(p, subtreeDepth);
        assert p == Position(i, subtreeDepth, Low(p, subtreeDepth));
      }
      return false;
    }

    method UpdateBatch(path: nat, depth: nat, states: seq<UserState>) returns (r: Result<()>)
      requires Valid() && Position(path, depth, |states|) <= TWO_31
      modifies `cache, `journal
      ensures Valid() && (old(Clean()) ==> Clean())
      ensures r.Success? <==> states == [] || Position(path, depth, |states|) <= tree.setSize
      ensures r.Success? ==> journal == old(journal) + Entries(Position(path, depth, 0), states)
    {
      for i := 0 to |states|
        invariant Valid() && (old(Clean()) ==> Clean())
        invariant i > 0 ==> Position(path, depth, i) <= tree.setSize
        invariant journal == old(journal) + Entries(Position(path, depth, 0), states[..i])
      {
        assert states[..i + 1][..i] == states[..i];
        r := Update(Position(path, depth, i), states[i]);
        if r.Failure? {
          return;
        }
      }
      assert states[..|states|] == states;
      return Success(());
    }
  }

  /** `path * 2 ** depth + i`. */
  function Position(path: nat, depth: nat, i: nat): nat {
    Pow2(depth) * path + i
  }

  function Entries(first: nat, states: seq<UserState>): seq<Entry> {
    if states == [] then [] else
      var n := |states| - 1;
      Entries(first, states[..n]) + [Entry(first + n, states[n])]
  }

  lemma PositionIsBelow(i: nat, k: nat, j: nat)
    requires j < Pow2(k)
    ensures Shr(Position(i, k, j), k) == i && Low(Position(i, k, j), k) == j
  {
    var p := Position(i, k, j);
    ShrIsDivision(p, k);
    LowIsModulo(p, k);
    DivUnique(p, Pow2(k), i, j);
  }

  lemma VacancyIsProved(items: Ledger, depth: nat, k: nat, i: nat)
    requires k <= depth && i < Pow2(depth - k) && Node(StateLeaves(items), k, i) == Zero(k)
    ensures Climb(Zero(k), i, Witness(StateLeaves(items), k, i, depth - k)) == StateRoot(items, depth)
    ensures forall p: nat :: Shr(p, k) == i ==> p !in items
  {
    ClimbWitness(StateLeaves(items), k, i, i, depth - k);
    ShrZero(i, depth - k);
    forall p: nat | Shr(p, k) == i
      ensures p !in items
    {
      ZeroNodeIsEmpty(StateLeaves(items), k, i, p);
    }
  }
}
