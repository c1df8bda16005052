/** Which state a deposit batch continues from.  Like a dispute, `submitDeposits` does not check how long the witness of
    the previous commitment is: a wrong length shows a part of the last ledger, or another ledger in a deeper tree, and
    the deposits are inserted there. */
module DepositStarts {
  import opened Words
  import opened Merkle
  import opened MerkleTree
  import opened Ledger
  import opened DepositInsertion
  import opened InclusionReadings
  import opened BodyReadings
  import opened MisreadTargets
  import B = Batches
  import DT = DeeperTrees
  import R = Rollups
  import SE = StorageEngines
  import T = TxCodec
  import W = WitnessLengths

  /** What is handed in with a deposit batch: the previous commitment, and a witness that a subtree is vacant. */
  datatype DepositEvidence = DepositEvidence(previous: R.Inclusion, path: nat, vacancy: seq<Hash>)

  /** The checks on it, for subtrees of depth `k`. */
  ghost predicate Passes(s: B.State, id: nat, k: nat, e: DepositEvidence)
    requires id > 0
  {
    && e.previous.path == R.LastPath(B.BatchAt(s, id - 1).size)
    && R.Included(B.BatchAt(s, id - 1).commitmentRoot, e.previous)
    && Climb(Zero(k), e.path, e.vacancy) == e.previous.stateRoot
  }

  /** The state root of the deposit batch. */
  function NewRoot(depositRoot: Hash, e: DepositEvidence): Hash {
    Climb(depositRoot, e.path, e.vacancy)
  }

  /** The state that a previous witness of this length shows. */
  function LastShown(c: Posted, depth: nat, length: nat): Option<Shown>
    requires c.Paired() && Places(c) > 0
  {
    ShownAt(c, depth, Places(c) - 1, length)
  }

  function LastStart(c: Posted, depth: nat, length: nat): Option<W.Start>
    requires c.Paired() && Places(c) > 0
  {
    W.StartAt(c, depth, Places(c) - 1, length)
  }

  /** Whatever passes with a previous witness of a given length is about what that length shows. */
  lemma PassesOnShown(s: B.State, id: nat, before: Posted, depth: nat, k: nat, e: DepositEvidence)
    requires id > 0 && Posts(s, id - 1, before, depth) && Passes(s, id, k, e)
    ensures var shown := LastShown(before, depth, |e.previous.siblings|);
            shown == Some(Shown(e.previous.stateRoot, e.previous.bodyRoot))
  {
    hide R.Included, ShownAt, ShownBy, MinTreeDepth;
    RootIsFiled(s, id - 1, before, depth);
    var i := e.previous;
    assert i == R.Inclusion(i.stateRoot, i.bodyRoot, i.path, i.siblings);
    InclusionIsExact(BatchRoot(before), Shown(i.stateRoot, i.bodyRoot), i.path, |i.siblings|);
    ShownIs(before, depth, i.path, |i.siblings|);
  }

  /** Some subtree of the deposit depth is vacant below a root. */
  ghost predicate Vacancy(root: Hash, k: nat) {
    exists path: nat, n: nat :: Inner(root, path, n) == Some(Zero(k))
  }

  /** For every length, something passes if and only if the length shows a state with a vacant subtree. */
  lemma SomethingPasses(s: B.State, id: nat, before: Posted, depth: nat, k: nat, length: nat)
    requires id > 0 && Posts(s, id - 1, before, depth)
    ensures (exists e: DepositEvidence :: |e.previous.siblings| == length && Passes(s, id, k, e)) <==>
              var shown := LastShown(before, depth, length);
              shown.Some? && Vacancy(shown.value.stateRoot, k)
  {
    hide R.Included, ShownAt, ShownBy, MinTreeDepth, Inner, Climb;
    if e: DepositEvidence :| |e.previous.siblings| == length && Passes(s, id, k, e) {
      PassesOnShown(s, id, before, depth, k, e);
      ClimbIsInner(Zero(k), e.path, e.vacancy);
      assert Inner(e.previous.stateRoot, e.path, |e.vacancy|) == Some(Zero(k));
    }
    var shown := LastShown(before, depth, length);
    if shown.Some? && Vacancy(shown.value.stateRoot, k) {
      var path: nat, n: nat :| Inner(shown.value.stateRoot, path, n) == Some(Zero(k));
      var vacancy := InnerClimbs(shown.value.stateRoot, path, n);
      RootIsFiled(s, id - 1, before, depth);
      var p := Places(before) - 1;
      ShownIs(before, depth, p, length);
      InclusionIsExact(BatchRoot(before), shown.value, p, length);
      var siblings :| |siblings| == length
                      && R.Included(BatchRoot(before),
                                    R.Inclusion(shown.value.stateRoot, shown.value.bodyRoot, p, siblings));
      var i := R.Inclusion(shown.value.stateRoot, shown.value.bodyRoot, p, siblings);
      assert Passes(s, id, k, DepositEvidence(i, path, vacancy));
    }
  }

  /** For every length that shows a ledger or a part of one, the deposits are inserted into that ledger, at a place
      vacant there. */
  lemma DepositContinues(s: B.State, id: nat, before: Posted, depth: nat, k: nat, e: DepositEvidence, start: W.Start,
                         states: seq<UserState>)
    requires id > 0 && Posts(s, id - 1, before, depth) && Passes(s, id, k, e) && |states| == Pow2(k)
    requires LastStart(before, depth, |e.previous.siblings|) == Some(start) && start.above == []
    ensures k <= start.depth && |e.vacancy| == start.depth - k
    ensures forall p: nat :: Shr(p, k) == Low(e.path, |e.vacancy|) ==> p !in start.ledger
    ensures NewRoot(Root(Padded(LeavesOf(states)), k), e)
         == StateRoot(Inserted(start.ledger, Low(e.path, |e.vacancy|), k, states), start.depth)
  {
    hide R.Included, ShownAt, W.StartAt, StateRoot, Climb, Inserted, Root;
    PassesOnShown(s, id, before, depth, k, e);
    W.StartIsShown(before, depth, Places(before) - 1, |e.previous.siblings|);
    W.NoWordsAbove(StateRoot(start.ledger, start.depth));
    DepositSound(start.ledger, start.depth, k, e.path, e.vacancy, states);
  }

  /** With the right length that is the last ledger of the batch before; with one word more, after a batch of one
      commitment, the left half of it. */
  lemma RightStart(c: Posted, depth: nat)
    requires c.Paired() && Places(c) > 0 && W.AllKnown(c)
    ensures LastStart(c, depth, BatchDepth(c)) == Some(W.Start(c.ledgers[Places(c) - 1], depth, []))
  {
    hide MinTreeDepth, Low;
    PlaceFits(c, Places(c) - 1);
  }

  lemma HalfStart(c: Posted, depth: nat)
    requires c.Paired() && Places(c) == 1 && W.AllKnown(c) && depth > 0
    ensures LastStart(c, depth, BatchDepth(c) + 1) == Some(W.Start(Part(c.ledgers[0], depth - 1, 0), depth - 1, []))
  {
    hide MinTreeDepth, Part;
    PlaceFits(c, 0);
  }

  /** The input: after a batch of one commitment, genesis or a deposit batch, a previous witness one word too long
      passes if the left half of the ledger has a vacant subtree.  The new root is then one of a tree of one level less:
      every account of the other half is gone, and no ledger of the right depth has this root. */
  lemma HalfLedgerContinues(s: B.State, id: nat, before: Posted, depth: nat, k: nat, j: nat, states: seq<UserState>)
    returns (e: DepositEvidence)
    requires id > 0 && Posts(s, id - 1, before, depth) && W.AllKnown(before) && Places(before) == 1
    requires k < depth && j < Pow2(depth - 1 - k) && |states| == Pow2(k)
    requires forall p: nat :: Shr(p, k) == j ==> p !in Part(before.ledgers[0], depth - 1, 0)
    ensures Passes(s, id, k, e) && |e.previous.siblings| == BatchDepth(before) + 1
    ensures NewRoot(Root(Padded(LeavesOf(states)), k), e)
         == StateRoot(Inserted(Part(before.ledgers[0], depth - 1, 0), j, k, states), depth - 1)
    ensures forall t: Ledger :: NewRoot(Root(Padded(LeavesOf(states)), k), e) != StateRoot(t, depth)
  {
    hide R.Included, ShownAt, ShownBy, W.StartAt, StateRoot, Climb, Inserted, Root, MinTreeDepth, Part, Node;
    var half, length := Part(before.ledgers[0], depth - 1, 0), BatchDepth(before) + 1;
    HalfStart(before, depth);
    W.StartIsShown(before, depth, 0, length);
    W.NoWordsAbove(StateRoot(half, depth - 1));
    var shown := LastShown(before, depth, length).value;
    var vacancy := VacantHere(half, depth - 1, k, j);
    RootIsFiled(s, id - 1, before, depth);
    ShownIs(before, depth, 0, length);
    InclusionIsExact(BatchRoot(before), shown, 0, length);
    var siblings :| |siblings| == length
                    && R.Included(BatchRoot(before), R.Inclusion(shown.stateRoot, shown.bodyRoot, 0, siblings));
    e := DepositEvidence(R.Inclusion(shown.stateRoot, shown.bodyRoot, 0, siblings), j, vacancy);
    DepositContinues(s, id, before, depth, k, e, W.Start(half, depth - 1, []), states);
    ShrZero(j, depth - 1 - k);
    forall t: Ledger
      ensures NewRoot(Root(Padded(LeavesOf(states)), k), e) != StateRoot(t, depth)
    {
      DT.RootSpine(Inserted(half, j, k, states), depth - 1);
      DT.RootSpine(t, depth);
    }
  }

  lemma VacantHere(s: Ledger, depth: nat, k: nat, j: nat) returns (w: seq<Hash>)
    requires k <= depth && j < Pow2(depth - k) && forall p: nat :: Shr(p, k) == j ==> p !in s
    ensures |w| == depth - k && Climb(Zero(k), j, w) == StateRoot(s, depth)
  {
    forall p: nat | Shr(p, k) == j
      ensures At(StateLeaves(s), p) == Empty
    {
    }
    NodeOfEmpty(StateLeaves(s), k, j);
    SE.VacancyIsProved(s, depth, k, j);
    w := Witness(StateLeaves(s), k, j, depth - k);
  }

  /** No body is behind the commitment of a deposit batch: nothing can be executed against it, from whatever state. */
  lemma NoBodyBehindDeposits(kind: T.Kind, root: Hash, claimed: Hash, maxTxSize: nat, keccak: T.Bytes -> Hash,
                             word: Hash -> T.Bytes)
    requires Shapes(keccak, word)
    ensures !FraudFrom(kind, root, Shown(claimed, Empty), maxTxSize, HashOf(keccak, word))
  {
    hide R.Fraud, Shapes, HashOf;
    if body, proofs :| IsFraud(kind, root, Shown(claimed, Empty), maxTxSize, HashOf(keccak, word), body, proofs) {
      BodyShape(keccak, word, body);
    }
  }
}
