/** The contract does not check how long the witness of the previous commitment is, and reads the low bits of its path
    only. A shorter witness shows an inner node of the batch's tree as the previous commitment, a longer one an inner
    node of a state tree.  This module says which ledger a dispute starts from, at every path and for every length, and
    so exactly which lengths convict an honest commitment. */
module WitnessLengths {
  import opened Words
  import opened Merkle
  import opened MerkleTree
  import opened TxCodec
  import opened Ledger
  import opened Commits
  import opened FraudProofs
  import opened InclusionReadings
  import opened DeeperTrees
  import B = Batches
  import R = Rollups
  import SE = StorageEngines

  // ---------------------------------------------------------------------------------------------- where disputes start

  /** A ledger in a tree of some depth, which may hang at the far left below a deeper root. */
  datatype Start = Start(ledger: Ledger, depth: nat, above: seq<Hash>)
  {
    function Root(): Hash { Lifted(StateRoot(ledger, depth), above) }
  }

  /** The leftmost commitment below the node that a too short witness shows. */
  function FirstBelow(path: nat, length: nat, h: nat): nat {
    SE.Position(2 * Low(path, length), h, 0)
  }

  /** What a witness of this length shows as the previous state, where the ledger is known.  Too short a witness shows
      the state of the leftmost commitment below its node, in a deeper tree, or only padding; too long a witness shows a
      part of a ledger, in a shallower tree. */
  function StartAt(c: Posted, depth: nat, path: nat, length: nat): Option<Start>
    requires c.Paired()
  {
    var d := BatchDepth(c);
    if length < d then
      var h := d - length - 1;
      var q := FirstBelow(path, length, h);
      if q >= Places(c) then Some(Start(map[], h, []))
      else if q !in c.ledgers then None
      else Some(Start(c.ledgers[q], depth, [c.bodyRoots[q]] + Witness(BatchTree(c), 0, q, h)))
    else if length == d then
      var q := Place(c, path);
      if q >= Places(c) || q !in c.ledgers then None else Some(Start(c.ledgers[q], depth, []))
    else
      var k := length - d;
      var at := Place(c, Shr(path, k));
      if at >= Places(c) || at !in c.ledgers || k > depth || Shr(path, k - 1) % 2 == 1 then None
      else Some(Start(Part(c.ledgers[at], depth - k, 2 * Low(path, k - 1)), depth - k, []))
  }

  /** Every state root of the batch is that of a ledger. */
  ghost predicate AllKnown(c: Posted) {
    forall i :: 0 <= i < Places(c) ==> i in c.ledgers
  }

  lemma FirstIsBelow(path: nat, length: nat, h: nat)
    ensures var q := FirstBelow(path, length, h); Shr(q, h) == 2 * Low(path, length) && Low(q, h) == Low(0, h) == 0
  {
    SE.PositionIsBelow(2 * Low(path, length), h, 0);
    ShrZero(0, h);
  }

  lemma NoWordsAbove(root: Hash)
    ensures Lifted(root, []) == root
  {
  }

  lemma ShortStart(c: Posted, path: nat, length: nat, q: nat, h: nat)
    requires c.Paired() && q == FirstBelow(path, length, h) && q < Places(c)
    ensures Node(BatchTree(c), h, 2 * Low(path, length))
         == Lifted(c.stateRoots[q], [c.bodyRoots[q]] + Witness(BatchTree(c), 0, q, h))
  {
    hide Node, Witness, FirstBelow;
    var m := BatchTree(c);
    var w := Witness(m, 0, q, h);
    FirstIsBelow(path, length, h);
    ClimbWitness(m, 0, q, 0, h);
    CommitmentAt(c, q);
    assert ([c.bodyRoots[q]] + w)[1..] == w;
  }

  lemma PaddingStart(c: Posted, path: nat, length: nat, h: nat)
    requires c.Paired() && FirstBelow(path, length, h) >= Places(c)
    ensures Node(BatchTree(c), h, 2 * Low(path, length)) == StateRoot(map[], h)
  {
    hide Node, Low;
    PaddingIsRoot(c, h, 2 * Low(path, length));
  }

  /** Where there is a start, its root is shown; and wherever something is shown there is one, if all ledgers are
      known. */
  lemma StartIsShown(c: Posted, depth: nat, path: nat, length: nat)
    requires OnLedgers(c, depth)
    ensures var shown, start := ShownAt(c, depth, path, length), StartAt(c, depth, path, length);
            && (start.Some? ==> shown.Some? && shown.value.stateRoot == start.value.Root())
            && (AllKnown(c) && shown.Some? ==> start.Some?)
  {
    hide Climb, CeilLog2, MinTreeDepth, Witness, Node, StateRoot, FirstBelow, Part, StateLeaves, Lifted, Place;
    var d := BatchDepth(c);
    if length < d {
      var h := d - length - 1;
      var q := FirstBelow(path, length, h);
      if q < Places(c) {
        ShortStart(c, path, length, q, h);
      } else {
        PaddingStart(c, path, length, h);
        NoWordsAbove(StateRoot(map[], h));
      }
    } else if length == d {
      var q := Place(c, path);
      if q < Places(c) {
        NoWordsAbove(c.stateRoots[q]);
      }
    } else {
      var k := length - d;
      var at := Place(c, Shr(path, k));
      if k <= depth && at < Places(c) && at in c.ledgers {
        var s, i := c.ledgers[at], 2 * Low(path, k - 1);
        NodeIsRoot(s, depth - k, i);
        NoWordsAbove(StateRoot(Part(s, depth - k, i), depth - k));
      }
    }
  }

  // ------------------------------------------------------------------------------------------------ no leaf above

  /** No body root passes for a leaf, nor does a state root of no ledger, nor for create2transfers padding. */
  ghost predicate NothingPasses(kind: Kind, c: Posted) {
    && (forall i :: 0 <= i < |c.bodyRoots| ==> !PassesForLeaf(kind, c.bodyRoots[i]))
    && (forall i :: 0 <= i < |c.stateRoots| && i !in c.ledgers ==> !PassesForLeaf(kind, c.stateRoots[i]))
    && (kind.Create2Transfers? ==> Places(c) == Pow2(BatchDepth(c)))
  }

  /** Every leaf below the node is among the first `n`. */
  ghost predicate AllBelow(h: nat, i: nat, n: nat) {
    forall p: nat :: Shr(p, h) == i ==> p < n
  }

  lemma {:induction false} DeepBatch(kind: Kind, c: Posted, depth: nat, h: nat, i: nat)
    requires OnLedgers(c, depth) && NothingPasses(kind, c)
    requires kind.Create2Transfers? ==> AllBelow(h, i, Places(c))
    ensures Deep(kind, Node(BatchTree(c), h, i), depth + 1 + h)
  {
    hide MinTreeDepth;
    if h > 0 {
      if kind.Create2Transfers? {
        HalvesBelow(h - 1, i, 2 * i, Places(c));
        HalvesBelow(h - 1, i, 2 * i + 1, Places(c));
      }
      DeepBatch(kind, c, depth, h - 1, 2 * i);
      DeepBatch(kind, c, depth, h - 1, 2 * i + 1);
    } else if i < Places(c) {
      CommitmentAt(c, i);
      if i in c.ledgers {
        DeepNode(kind, StateLeaves(c.ledgers[i]), depth, 0);
      }
    } else {
      assert Shr(i, 0) == i;
    }
  }

  lemma HalvesBelow(h: nat, i: nat, half: nat, n: nat)
    requires AllBelow(h + 1, i, n) && half / 2 == i
    ensures AllBelow(h, half, n)
  {
    forall p: nat | Shr(p, h) == half
      ensures p < n
    {
      assert Shr(p, h + 1) == i;
    }
  }

  lemma {:induction false} WitnessAt(m: Leaves, i: nat, n: nat, j: nat)
    requires j < n
    ensures Witness(m, 0, i, n)[j] == Node(m, j, Sibling(Shr(i, j)))
  {
    hide Node, Shr;
    WitnessSnoc(m, 0, i, n - 1);
    if j < n - 1 {
      WitnessAt(m, i, n - 1, j);
    }
  }

  lemma {:induction false} SameAbove(a: nat, b: nat, j: nat, d: nat)
    requires j <= d && Shr(a, j) == Shr(b, j)
    ensures Shr(a, d) == Shr(b, d)
  {
    if j < d {
      SameAbove(a, b, j, d - 1);
    }
  }

  lemma AboveIsDeep(kind: Kind, c: Posted, depth: nat, q: nat, h: nat)
    requires OnLedgers(c, depth) && NothingPasses(kind, c) && q < Places(c) && h < BatchDepth(c)
    ensures DeepAbove(kind, [c.bodyRoots[q]] + Witness(BatchTree(c), 0, q, h), depth)
  {
    hide Node, Witness, MinTreeDepth, Shr, Deep, BatchTree, Pow2;
    var m := BatchTree(c);
    var w := Witness(m, 0, q, h);
    forall j | 0 <= j < h
      ensures Deep(kind, w[j], depth + 1 + j)
    {
      WitnessAt(m, q, h, j);
      if kind.Create2Transfers? {
        SiblingInside(c, q, j);
      }
      DeepBatch(kind, c, depth, j, Sibling(Shr(q, j)));
    }
    NotALeaf(kind, c.bodyRoots[q], depth);
    forall j | 0 <= j < h + 1
      ensures Deep(kind, ([c.bodyRoots[q]] + w)[j], depth + j)
    {
      if j > 0 {
        assert ([c.bodyRoots[q]] + w)[j] == w[j - 1];
        assert Deep(kind, w[j - 1], depth + 1 + (j - 1));
      }
    }
  }

  lemma NotALeaf(kind: Kind, x: Hash, n: nat)
    requires !x.Pair? && !PassesForLeaf(kind, x)
    ensures Deep(kind, x, n + 0)
  {
  }

  lemma SiblingInside(c: Posted, q: nat, j: nat)
    requires q < Places(c) == Pow2(BatchDepth(c)) && j < BatchDepth(c)
    ensures AllBelow(j, Sibling(Shr(q, j)), Places(c))
  {
    hide MinTreeDepth, Pow2;
    var d := BatchDepth(c);
    forall p: nat | Shr(p, j) == Sibling(Shr(q, j))
      ensures p < Places(c)
    {
      assert Shr(p, j + 1) == Shr(q, j + 1);
      SameAbove(p, q, j + 1, d);
      ShrZero(q, d);
      ShrZero(p, d);
    }
  }

  // ------------------------------------------------------------------------------------------------ conviction

  /** Evidence with a previous witness of this length, and a witness of the right length for the disputed commitment. */
  ghost predicate ConvictedFrom(s: B.State, id: nat, path: nat, kind: Kind, maxTxSize: nat, hashBody: R.Body -> Hash,
                                length: nat)
  {
    exists e :: ConvictsWith(s, id, path, kind, maxTxSize, hashBody, length, MinTreeDepth(B.BatchAt(s, id).size), e)
  }

  /** The commitment that a path names, if there is one. */
  function Named(c: Posted, path: nat): Option<Shown>
    requires c.Paired()
  {
    var q := Place(c, path);
    if q < Places(c) then Some(Shown(c.stateRoots[q], c.bodyRoots[q])) else None
  }

  /** Such evidence exists if and only if the path names a commitment, and it is fraudulent from what is shown. */
  lemma ConvictedFromShown(s: B.State, id: nat, before: Posted, here: Posted, depth: nat, path: nat, kind: Kind,
                           maxTxSize: nat, hashBody: R.Body -> Hash, length: nat)
    requires PostsBoth(s, id, before, here, depth, path)
    ensures var previous, x := PreviousShown(s, id, path, length), Named(here, path);
            ConvictedFrom(s, id, path, kind, maxTxSize, hashBody, length) <==>
              previous.Some? && x.Some? && FraudFrom(kind, previous.value.stateRoot, x.value, maxTxSize, hashBody)
  {
    hide ConvictsWith, FraudFrom, MinTreeDepth, PreviousShown, ShownBy, Place;
    RootIsFiled(s, id, here, depth);
    ShownIs(here, depth, path, BatchDepth(here));
    ConvictionIsShown(s, id, path, kind, maxTxSize, hashBody, length, BatchDepth(here));
  }

  lemma ConvictedFromStart(s: B.State, id: nat, before: Posted, here: Posted, depth: nat, path: nat, kind: Kind,
                           maxTxSize: nat, hashBody: R.Body -> Hash, length: nat, start: Start)
    requires PostsBoth(s, id, before, here, depth, path)
    requires var home := HomeOf(before, here, path);
             StartAt(home, depth, PathBefore(home, path), length) == Some(start)
    ensures var x := Named(here, path);
            ConvictedFrom(s, id, path, kind, maxTxSize, hashBody, length) <==>
              x.Some? && FraudFrom(kind, start.Root(), x.value, maxTxSize, hashBody)
  {
    hide ConvictedFrom, FraudFrom, StartAt, ShownAt, PreviousShown, Start.Root, Named;
    var home := HomeOf(before, here, path);
    ConvictedFromShown(s, id, before, here, depth, path, kind, maxTxSize, hashBody, length);
    PreviousIs(s, id, before, here, depth, path, length);
    StartIsShown(home, depth, PathBefore(home, path), length);
  }

  lemma FraudFromLedger(kind: Kind, s: Ledger, depth: nat, x: Shown, maxTxSize: nat, hashBody: R.Body -> Hash)
    ensures FraudFrom(kind, StateRoot(s, depth), x, maxTxSize, hashBody)
        <==> WrongReading(kind, s, depth, maxTxSize, hashBody, x.bodyRoot, x.stateRoot)
  {
    hide R.Fraud, Contradicts, StateRoot;
    var root := StateRoot(s, depth);
    if body, proofs :| IsFraud(kind, root, x, maxTxSize, hashBody, body, proofs) {
      FraudIsExact(kind, s, depth, x.stateRoot, maxTxSize, body);
      assert WrongAs(kind, s, depth, maxTxSize, hashBody, x.bodyRoot, x.stateRoot, body);
    }
    if body :| WrongAs(kind, s, depth, maxTxSize, hashBody, x.bodyRoot, x.stateRoot, body) {
      FraudIsExact(kind, s, depth, x.stateRoot, maxTxSize, body);
      var proofs :| R.Fraud(kind, root, x.stateRoot, maxTxSize, body, proofs);
      assert IsFraud(kind, root, x, maxTxSize, hashBody, body, proofs);
    }
  }

  /** From a whole ledger, or a part of one, or padding, the commitment that the path names is convicted exactly if the
      ledger contradicts one of its bodies. */
  lemma WholeStart(s: B.State, id: nat, before: Posted, here: Posted, depth: nat, path: nat, kind: Kind,
                   maxTxSize: nat, hashBody: R.Body -> Hash, length: nat, start: Start)
    requires PostsBoth(s, id, before, here, depth, path) && start.above == []
    requires var home := HomeOf(before, here, path);
             StartAt(home, depth, PathBefore(home, path), length) == Some(start)
    ensures var x := Named(here, path);
            ConvictedFrom(s, id, path, kind, maxTxSize, hashBody, length) <==>
              && x.Some?
              && WrongReading(kind, start.ledger, start.depth, maxTxSize, hashBody, x.value.bodyRoot, x.value.stateRoot)
  {
    hide ConvictedFrom, StartAt, WrongReading, FraudFrom, StateRoot, MinTreeDepth, Merklized, Named;
    NoWordsAbove(StateRoot(start.ledger, start.depth));
    ConvictedFromStart(s, id, before, here, depth, path, kind, maxTxSize, hashBody, length, start);
    if Named(here, path).Some? {
      FraudFromLedger(kind, start.ledger, start.depth, Named(here, path).value, maxTxSize, hashBody);
    }
  }

  // ------------------------------------------------------------------------------------------------ the right lengths

  /** Evidence with witnesses of the right length. */
  ghost predicate ConvictedRightly(s: B.State, id: nat, path: nat, kind: Kind, maxTxSize: nat,
                                   hashBody: R.Body -> Hash)
  {
    exists e :: Measured(s, id, path, e) && Convicts(s, id, path, kind, maxTxSize, hashBody, e)
  }

  lemma RightIsFrom(s: B.State, id: nat, path: nat, kind: Kind, maxTxSize: nat, hashBody: R.Body -> Hash)
    ensures ConvictedRightly(s, id, path, kind, maxTxSize, hashBody) <==>
              ConvictedFrom(s, id, path, kind, maxTxSize, hashBody, MinTreeDepth(B.BatchAt(s, Home(id, path)).size))
  {
    hide Convicts, MinTreeDepth;
    var length, own := MinTreeDepth(B.BatchAt(s, Home(id, path)).size), MinTreeDepth(B.BatchAt(s, id).size);
    if e :| Measured(s, id, path, e) && Convicts(s, id, path, kind, maxTxSize, hashBody, e) {
      assert ConvictsWith(s, id, path, kind, maxTxSize, hashBody, length, own, e);
    }
    if e :| ConvictsWith(s, id, path, kind, maxTxSize, hashBody, length, own, e) {
      assert Measured(s, id, path, e) && Convicts(s, id, path, kind, maxTxSize, hashBody, e);
    }
  }

  /** The ledger at the place before the one that a path names, if there is one: in the same batch the place that the
      path less one names, for path 0 the last of the batch before. */
  function LedgerBefore(before: Posted, here: Posted, path: nat): Option<Ledger>
    requires path == 0 ==> Places(before) > 0
  {
    var home := HomeOf(before, here, path);
    var p := Place(home, PathBefore(home, path));
    if p < Places(home) && p in home.ledgers then Some(home.ledgers[p]) else None
  }

  /** With witnesses of the right length, at whatever path: evidence convicts through an entry point exactly when both
      places are there, and the commitment's body root has, read as a body of that kind, a body on which the ledger
      before does not revert and contradicts the claimed root. */
  lemma ConvictionIsExact(s: B.State, id: nat, before: Posted, here: Posted, depth: nat, path: nat, kind: Kind,
                          maxTxSize: nat, hashBody: R.Body -> Hash)
    requires PostsBoth(s, id, before, here, depth, path) && AllKnown(HomeOf(before, here, path))
    ensures var s0, x := LedgerBefore(before, here, path), Named(here, path);
            ConvictedRightly(s, id, path, kind, maxTxSize, hashBody) <==>
              && s0.Some? && x.Some?
              && WrongReading(kind, s0.value, depth, maxTxSize, hashBody, x.value.bodyRoot, x.value.stateRoot)
  {
    hide ConvictedRightly, ConvictedFrom, WrongReading, MinTreeDepth, Merklized, Named, PreviousShown, Place, StateRoot,
      FraudFrom;
    var home := HomeOf(before, here, path);
    var p, d := PathBefore(home, path), BatchDepth(home);
    RightIsFrom(s, id, path, kind, maxTxSize, hashBody);
    RootIsFiled(s, Home(id, path), home, depth);
    if LedgerBefore(before, here, path).Some? {
      WholeStart(s, id, before, here, depth, path, kind, maxTxSize, hashBody, d,
                 Start(LedgerBefore(before, here, path).value, depth, []));
    } else {
      ConvictedFromShown(s, id, before, here, depth, path, kind, maxTxSize, hashBody, d);
      PreviousIs(s, id, before, here, depth, path, d);
    }
  }

  // ------------------------------------------------------------------------------------------------ honest commitments

  /** The commitment is what the ledger makes of the body, and its indices are positions. */
  ghost predicate Honest(kind: Kind, ledger: Ledger, depth: nat, maxTxSize: nat, body: R.Body, claimed: Hash) {
    && body.Fits(kind) && body.Sized() && IndicesBelow(kind, body, depth)
    && LedgerVerdict(kind, ledger, depth, maxTxSize, body).Accepts?
    && claimed == StateRoot(LedgerVerdict(kind, ledger, depth, maxTxSize, body).ledger, depth)
  }

  /** Only this body of the kind is behind the hash. */
  ghost predicate OnlyReading(kind: Kind, hashBody: R.Body -> Hash, bodyRoot: Hash, body: R.Body) {
    && hashBody(body) == bodyRoot
    && forall b: R.Body :: b.Fits(kind) && b.Sized() && hashBody(b) == bodyRoot ==> b == body
  }

  /** Trees of different depths have different roots, so in another depth whatever does not revert contradicts. */
  lemma OtherDepthContradicts(kind: Kind, s: Ledger, depth: nat, maxTxSize: nat, body: R.Body, claimed: Hash)
    requires body.Fits(kind) && Spine(claimed) != depth
    ensures Contradicts(kind, s, depth, maxTxSize, body, claimed)
        <==> !LedgerVerdict(kind, s, depth, maxTxSize, body).Reverts?
  {
    hide LedgerVerdict, StateRoot;
    var v := LedgerVerdict(kind, s, depth, maxTxSize, body);
    VerdictFailsWithCode(kind, s, depth, maxTxSize, body);
    if v.Accepts? {
      RootSpine(v.ledger, depth);
    }
  }

  lemma {:induction false} NobodyRuns(kind: Kind, depth: nat, txs: seq<Tx>, n: nat, tokenID: nat)
    requires 0 < n <= |txs|
    ensures LedgerRun(kind, map[], depth, txs, n, tokenID) == LReverted
  {
    if n > 1 {
      NobodyRuns(kind, depth, txs, n - 1, tokenID);
    } else {
      assert LedgerRun(kind, map[], depth, txs, 0, tokenID) == LRunning(map[], NO_TOTALS);
    }
  }

  /** On nobody's ledger, every commitment that some ledger accepts reverts. */
  lemma PaddingReverts(kind: Kind, s: Ledger, depth: nat, maxTxSize: nat, body: R.Body, h: nat)
    requires body.Fits(kind) && LedgerVerdict(kind, s, depth, maxTxSize, body).Accepts?
    ensures LedgerVerdict(kind, map[], h, maxTxSize, body).Reverts?
  {
    hide LedgerRun, Receive, DecodeAll, Merklized;
    if body.MigrationBody? {
      var txs := DecodeAll(kind, body.Txs());
      if txs == [] {
        MigratesNothing(h, txs, body.migration.tokenID, Low(body.migration.feeReceiver, h));
      } else {
        NobodyRuns(kind, h, txs, |txs|, body.migration.tokenID);
      }
    }
  }

  lemma MigratesNothing(depth: nat, txs: seq<Tx>, tokenID: nat, feeReceiver: nat)
    requires txs == []
    ensures LedgerRun(MassMigrations, map[], depth, txs, |txs|, tokenID) == LRunning(map[], NO_TOTALS)
    ensures Receive(map[], feeReceiver, tokenID, NO_TOTALS.fees) == Reverts
  {
  }

  /** The ledger that the length shows runs the body, if the length is not the right one; if it is, it contradicts the
      claim. */
  ghost predicate FallsFrom(kind: Kind, c: Posted, depth: nat, path: nat, length: nat, maxTxSize: nat, body: R.Body,
                            claimed: Hash)
    requires c.Paired()
  {
    var start := StartAt(c, depth, path, length);
    && start.Some?
    && if length == BatchDepth(c) then Contradicts(kind, start.value.ledger, depth, maxTxSize, body, claimed)
       else !LedgerVerdict(kind, start.value.ledger, start.value.depth, maxTxSize, body).Reverts?
  }

  /** Exactly which lengths of the previous witness convict the commitment that a path names, through its own entry
      point, if some ledger accepts it: the right one if the ledger it shows contradicts it, and any other if the ledger
      it shows does not revert.  If the witness is too short, a state or, for create2transfers, an empty leaf among the
      words above that ledger could convict it otherwise. */
  lemma LengthDecides(s: B.State, id: nat, before: Posted, here: Posted, depth: nat, path: nat, kind: Kind,
                      maxTxSize: nat, hashBody: R.Body -> Hash, body: R.Body, length: nat, accepting: Ledger)
    requires PostsBoth(s, id, before, here, depth, path) && AllKnown(HomeOf(before, here, path))
    requires Named(here, path).Some?
    requires OnlyReading(kind, hashBody, Named(here, path).value.bodyRoot, body)
    requires Honest(kind, accepting, depth, maxTxSize, body, Named(here, path).value.stateRoot)
    ensures var home := HomeOf(before, here, path);
            var falls := FallsFrom(kind, home, depth, PathBefore(home, path), length, maxTxSize, body,
                                   Named(here, path).value.stateRoot);
            && (falls ==> ConvictedFrom(s, id, path, kind, maxTxSize, hashBody, length))
            && (length >= BatchDepth(home) || NothingPasses(kind, home) ==>
                  (ConvictedFrom(s, id, path, kind, maxTxSize, hashBody, length) <==> falls))
  {
    hide ConvictedFrom, StartAt, LedgerVerdict, Contradicts, StateRoot, MinTreeDepth, Merklized, IndicesBelow,
      NothingPasses, Named, PreviousShown, ShownAt, AllKnown;
    var home, x := HomeOf(before, here, path), Named(here, path).value;
    var p, claimed := PathBefore(home, path), x.stateRoot;
    var start := StartAt(home, depth, p, length);
    RootSpine(LedgerVerdict(kind, accepting, depth, maxTxSize, body).ledger, depth);
    if start.None? {
      ConvictedFromShown(s, id, before, here, depth, path, kind, maxTxSize, hashBody, length);
      PreviousIs(s, id, before, here, depth, path, length);
      StartIsShown(home, depth, p, length);
    } else if start.value.above == [] {
      WholeStart(s, id, before, here, depth, path, kind, maxTxSize, hashBody, length, start.value);
      WholeLength(kind, home, depth, p, length, maxTxSize, body, claimed, accepting);
      OneReading(kind, start.value.ledger, start.value.depth, maxTxSize, hashBody, x.bodyRoot, claimed, body);
    } else {
      ConvictedFromStart(s, id, before, here, depth, path, kind, maxTxSize, hashBody, length, start.value);
      ShortLength(kind, home, depth, p, length, maxTxSize, body, claimed);
      OneFraud(kind, start.value.Root(), x, maxTxSize, hashBody, body);
    }
  }

  lemma OneReading(kind: Kind, s: Ledger, depth: nat, maxTxSize: nat, hashBody: R.Body -> Hash, bodyRoot: Hash,
                   claimed: Hash, body: R.Body)
    requires OnlyReading(kind, hashBody, bodyRoot, body) && body.Fits(kind) && body.Sized()
    ensures WrongReading(kind, s, depth, maxTxSize, hashBody, bodyRoot, claimed)
        <==> Contradicts(kind, s, depth, maxTxSize, body, claimed)
  {
    hide Contradicts;
    if Contradicts(kind, s, depth, maxTxSize, body, claimed) {
      assert WrongAs(kind, s, depth, maxTxSize, hashBody, bodyRoot, claimed, body);
    }
  }

  lemma OneFraud(kind: Kind, root: Hash, x: Shown, maxTxSize: nat, hashBody: R.Body -> Hash, body: R.Body)
    requires OnlyReading(kind, hashBody, x.bodyRoot, body) && body.Fits(kind) && body.Sized()
    ensures FraudFrom(kind, root, x, maxTxSize, hashBody)
        <==> exists proofs :: R.Fraud(kind, root, x.stateRoot, maxTxSize, body, proofs)
  {
    hide R.Fraud;
    if proofs :| R.Fraud(kind, root, x.stateRoot, maxTxSize, body, proofs) {
      assert IsFraud(kind, root, x, maxTxSize, hashBody, body, proofs);
    }
  }

  lemma WholeLength(kind: Kind, c: Posted, depth: nat, path: nat, length: nat, maxTxSize: nat, body: R.Body,
                    claimed: Hash, accepting: Ledger)
    requires c.Paired() && Spine(claimed) == depth && Honest(kind, accepting, depth, maxTxSize, body, claimed)
    requires StartAt(c, depth, path, length).Some? && StartAt(c, depth, path, length).value.above == []
    ensures var start := StartAt(c, depth, path, length).value;
            FallsFrom(kind, c, depth, path, length, maxTxSize, body, claimed) <==>
              Contradicts(kind, start.ledger, start.depth, maxTxSize, body, claimed)
  {
    hide LedgerVerdict, StateRoot, MinTreeDepth, IndicesBelow, FirstBelow, Witness, Part, Place;
    var start := StartAt(c, depth, path, length).value;
    if length < BatchDepth(c) {
      PaddingReverts(kind, accepting, depth, maxTxSize, body, start.depth);
    } else if length > BatchDepth(c) {
      OtherDepthContradicts(kind, start.ledger, start.depth, maxTxSize, body, claimed);
    }
  }

  lemma ShortLength(kind: Kind, c: Posted, depth: nat, path: nat, length: nat, maxTxSize: nat, body: R.Body,
                    claimed: Hash)
    requires OnLedgers(c, depth) && Spine(claimed) == depth && body.Fits(kind) && IndicesBelow(kind, body, depth)
    requires StartAt(c, depth, path, length).Some? && StartAt(c, depth, path, length).value.above != []
    ensures var start := StartAt(c, depth, path, length).value;
            var falls := FallsFrom(kind, c, depth, path, length, maxTxSize, body, claimed);
            && length < BatchDepth(c)
            && (falls ==> exists proofs :: R.Fraud(kind, start.Root(), claimed, maxTxSize, body, proofs))
            && (NothingPasses(kind, c) ==>
                  ((exists proofs :: R.Fraud(kind, start.Root(), claimed, maxTxSize, body, proofs)) <==> falls))
  {
    hide LedgerVerdict, StateRoot, MinTreeDepth, IndicesBelow, FirstBelow, Witness, Part, R.Fraud, DeepAbove, Lifted,
      NothingPasses, Place;
    var start := StartAt(c, depth, path, length).value;
    var h := BatchDepth(c) - length - 1;
    assert start.Root() == Lifted(StateRoot(start.ledger, depth), start.above) && start.depth == depth;
    FraudBelowIsExact(kind, start.ledger, depth, start.above, claimed, maxTxSize, body);
    if NothingPasses(kind, c) {
      AboveIsDeep(kind, c, depth, FirstBelow(path, length, h), h);
    }
  }

  // ------------------------------------------------------------------------------------------------ the shortest case

  /** After a batch with a single commitment, such as the genesis batch and every deposit batch, the honest commitment
      of no transactions is convicted by showing the root of that batch as its own commitment. */
  lemma SingleCommitmentMisread(s: B.State, id: nat, root: Hash, bodyRoot: Hash, here: Posted, maxTxSize: nat,
                                hashBody: R.Body -> Hash, body: R.Body, ledger: Ledger, depth: nat)
    requires PostsBoth(s, id, Posted([root], [bodyRoot], map[0 := ledger]), here, depth, 0)
    requires here.stateRoots[0] == root && OnlyReading(Transfers, hashBody, here.bodyRoots[0], body)
    requires body.TransferBody? && body.Sized() && body.data == []
    requires body.feeReceiver < Pow2(depth) && body.feeReceiver in ledger
    requires ledger[body.feeReceiver].balance < TWO_256
    ensures Honest(Transfers, ledger, depth, maxTxSize, body, here.stateRoots[0])
    ensures R.PreviousOk(s, id, R.Inclusion(Pair(root, bodyRoot), Empty, 0, []), 0)
    ensures ConvictedFrom(s, id, 0, Transfers, maxTxSize, hashBody, 0)
  {
    hide ConvictedFrom, StateRoot;
    var before := Posted([root], [bodyRoot], map[0 := ledger]);
    assert before.stateRoots[0] == root == StateRoot(ledger, depth);
    NothingToDo(Transfers, ledger, depth, maxTxSize, body);
    R.SingleCommitment(Pair(root, bodyRoot));
    assert R.Commitments([root], [bodyRoot]) == [Pair(root, bodyRoot)];
    assert Climb(Pair(Pair(root, bodyRoot), Empty), 0, []) == Pair(Pair(root, bodyRoot), Empty);
    ZeroIsFirst(here);
    LengthDecides(s, id, before, here, depth, 0, Transfers, maxTxSize, hashBody, body, 0, ledger);
  }

  lemma ZeroIsFirst(c: Posted)
    requires c.Paired() && Places(c) > 0
    ensures Named(c, 0) == Some(Shown(c.stateRoots[0], c.bodyRoots[0]))
  {
    ShrZero(0, BatchDepth(c));
  }

  lemma NothingToDo(kind: Kind, s: Ledger, depth: nat, maxTxSize: nat, body: R.Body)
    requires body.TransferBody? && body.data == [] && body.feeReceiver < Pow2(depth) && body.feeReceiver in s
    requires s[body.feeReceiver].balance < TWO_256 && !kind.MassMigrations?
    ensures LedgerVerdict(kind, s, depth, maxTxSize, body) == Accepts(s) && IndicesBelow(kind, body, depth)
  {
    ShrZero(body.feeReceiver, depth);
    var fr := body.feeReceiver;
    assert DecodeAll(kind, []) == [];
    assert s[fr := s[fr]] == s;
  }
}
