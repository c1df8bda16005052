/** What an inclusion proof can show.  The contract looks at the low bits of a path only, and does not check how long a
    witness is; and the hash of a commitment has 64 bytes of preimage, like an inner node of any tree.  So a path names
    a place from every number on, a witness shorter than the batch is deep shows an inner node of the batch's tree, and
    a longer one an inner node of a state tree, as if it were a commitment. */
module InclusionReadings {
  import opened Words
  import opened Merkle
  import opened MerkleTree
  import opened Ledger
  import B = Batches
  import DI = DepositInsertion
  import FP = FraudProofs
  import R = Rollups
  import SE = StorageEngines
  import T = TxCodec
  import Tr = Transition

  // ------------------------------------------------------------------------------------------------ inside a hash

  /** The word that the low `n` bits of a path lead to inside a hash, if it is made of words so far down. */
  function Inner(x: Hash, path: nat, n: nat): Option<Hash>
    decreases n
  {
    if n == 0 then Some(x)
    else if !x.Pair? then None
    else Inner(if Shr(path, n - 1) % 2 == 0 then x.left else x.right, path, n - 1)
  }

  lemma {:induction false} ClimbIsInner(x: Hash, path: nat, w: seq<Hash>)
    ensures Inner(Climb(x, path, w), path, |w|) == Some(x)
    decreases |w|
  {
    if w != [] {
      var n := |w| - 1;
      assert w == w[..n] + [w[n]];
      ClimbSnoc(x, path, w[..n], w[n]);
      ClimbIsInner(x, path, w[..n]);
    }
  }

  lemma {:induction false} InnerClimbs(root: Hash, path: nat, n: nat) returns (w: seq<Hash>)
    requires Inner(root, path, n).Some?
    ensures |w| == n && Climb(Inner(root, path, n).value, path, w) == root
    decreases n
  {
    if n == 0 {
      w := [];
    } else {
      var left := Shr(path, n - 1) % 2 == 0;
      var v := InnerClimbs(if left then root.left else root.right, path, n - 1);
      w := v + [if left then root.right else root.left];
      ClimbSnoc(Inner(root, path, n).value, path, v, if left then root.right else root.left);
    }
  }

  lemma {:induction false} InnerSplit(x: Hash, path: nat, a: nat, b: nat)
    ensures var y := Inner(x, Shr(path, b), a);
            Inner(x, path, a + b) == if y.Some? then Inner(y.value, path, b) else None
    decreases a
  {
    if a > 0 && x.Pair? {
      ShrShr(path, b, a - 1);
      InnerSplit(if Shr(path, a + b - 1) % 2 == 0 then x.left else x.right, path, a - 1, b);
    }
  }

  lemma {:induction false} InnerOfNode(m: Leaves, h: nat, i: nat, path: nat, n: nat)
    requires n <= h
    ensures Inner(Node(m, h, i), path, n) == Some(Node(m, h - n, Below(i, path, n)))
    decreases n
  {
    if n > 0 {
      InnerOfNode(m, h - 1, 2 * i + Shr(path, n - 1) % 2, path, n - 1);
    }
  }

  // ------------------------------------------------------------------------------------------------ what is shown

  /** The two words shown as state root and body root. */
  datatype Shown = Shown(stateRoot: Hash, bodyRoot: Hash)

  function ShownBy(root: Hash, path: nat, length: nat): Option<Shown> {
    match Inner(root, path, length)
    case Some(Pair(left, right)) => Some(Shown(left, right))
    case _ => None
  }

  /** Whatever was submitted as a batch: an inclusion proof of a given length holds for two words if and only if they
      are what that length shows. */
  lemma InclusionIsExact(root: Hash, x: Shown, path: nat, length: nat)
    ensures (exists siblings ::
               |siblings| == length && R.Included(root, R.Inclusion(x.stateRoot, x.bodyRoot, path, siblings)))
            <==> ShownBy(root, path, length) == Some(x)
  {
    hide Climb, Inner;
    if siblings :| |siblings| == length && R.Included(root, R.Inclusion(x.stateRoot, x.bodyRoot, path, siblings)) {
      ClimbIsInner(Pair(x.stateRoot, x.bodyRoot), path, siblings);
    }
    if ShownBy(root, path, length) == Some(x) {
      var siblings := InnerClimbs(root, path, length);
      assert R.Included(root, R.Inclusion(x.stateRoot, x.bodyRoot, path, siblings));
    }
  }

  // ------------------------------------------------------------------------------------------------ conviction

  /** The path at which the contract looks for the previous commitment. */
  function PreviousPath(s: B.State, id: nat, path: nat): nat {
    if path == 0 then R.LastPath(B.BatchAt(s, FP.Home(id, path)).size) else path - 1
  }

  /** What a witness of this length shows as the previous commitment; the first batch has nothing before it. */
  function PreviousShown(s: B.State, id: nat, path: nat, length: nat): Option<Shown> {
    if id == 0 && path == 0 then None
    else ShownBy(B.BatchAt(s, FP.Home(id, path)).commitmentRoot, PreviousPath(s, id, path), length)
  }

  /** Evidence whose witnesses of the previous and of the disputed commitment have these lengths. */
  ghost predicate ConvictsWith(s: B.State, id: nat, path: nat, kind: T.Kind, maxTxSize: nat, hashBody: R.Body -> Hash,
                               length: nat, own: nat, e: FP.Evidence)
  {
    && FP.Convicts(s, id, path, kind, maxTxSize, hashBody, e)
    && |e.previous.siblings| == length && |e.siblings| == own
  }

  ghost predicate IsFraud(kind: T.Kind, root: Hash, x: Shown, maxTxSize: nat, hashBody: R.Body -> Hash, body: R.Body,
                          proofs: seq<Tr.StateProof>)
  {
    && body.Fits(kind) && body.Sized() && hashBody(body) == x.bodyRoot
    && R.Fraud(kind, root, x.stateRoot, maxTxSize, body, proofs)
  }

  /** Some body of the kind is behind the hash, and executed from the root it fails or ends elsewhere than claimed. */
  ghost predicate FraudFrom(kind: T.Kind, root: Hash, x: Shown, maxTxSize: nat, hashBody: R.Body -> Hash) {
    exists body, proofs :: IsFraud(kind, root, x, maxTxSize, hashBody, body, proofs)
  }

  /** Whatever was submitted, and whatever the path and the lengths of the two witnesses are: evidence with them exists
      if and only if they show two commitments of which the second is wrong after the first. */
  lemma ConvictionIsShown(s: B.State, id: nat, path: nat, kind: T.Kind, maxTxSize: nat, hashBody: R.Body -> Hash,
                          length: nat, own: nat)
    ensures var previous := PreviousShown(s, id, path, length);
            var target := ShownBy(B.BatchAt(s, id).commitmentRoot, path, own);
            (exists e :: ConvictsWith(s, id, path, kind, maxTxSize, hashBody, length, own, e)) <==>
              && previous.Some? && target.Some?
              && FraudFrom(kind, previous.value.stateRoot, target.value, maxTxSize, hashBody)
  {
    hide R.Included, R.Fraud, ShownBy;
    var home, p := B.BatchAt(s, FP.Home(id, path)).commitmentRoot, PreviousPath(s, id, path);
    var root := B.BatchAt(s, id).commitmentRoot;
    if e :| ConvictsWith(s, id, path, kind, maxTxSize, hashBody, length, own, e) {
      var a, x := Shown(e.previous.stateRoot, e.previous.bodyRoot), Shown(e.stateRoot, hashBody(e.body));
      assert R.Included(home, R.Inclusion(a.stateRoot, a.bodyRoot, p, e.previous.siblings));
      InclusionIsExact(home, a, p, length);
      assert R.Included(root, R.Inclusion(x.stateRoot, x.bodyRoot, path, e.siblings));
      InclusionIsExact(root, x, path, own);
      assert IsFraud(kind, a.stateRoot, x, maxTxSize, hashBody, e.body, e.proofs);
    }
    var previous, target := PreviousShown(s, id, path, length), ShownBy(root, path, own);
    if previous.Some? && target.Some? && FraudFrom(kind, previous.value.stateRoot, target.value, maxTxSize, hashBody) {
      var a, x := previous.value, target.value;
      var body, proofs :| IsFraud(kind, a.stateRoot, x, maxTxSize, hashBody, body, proofs);
      InclusionIsExact(home, a, p, length);
      InclusionIsExact(root, x, path, own);
      var w :| |w| == length && R.Included(home, R.Inclusion(a.stateRoot, a.bodyRoot, p, w));
      var v :| |v| == own && R.Included(root, R.Inclusion(x.stateRoot, x.bodyRoot, path, v));
      var e := FP.Evidence(R.Inclusion(a.stateRoot, a.bodyRoot, p, w), x.stateRoot, body, v, proofs);
      assert ConvictsWith(s, id, path, kind, maxTxSize, hashBody, length, own, e);
    }
  }

  // ------------------------------------------------------------------------------------------------ batches on ledgers

  /** The commitments of a batch, with the ledgers that their state roots stand for, where they are known. */
  datatype Posted = Posted(stateRoots: seq<Hash>, bodyRoots: seq<Hash>, ledgers: map<nat, Ledger>)
  {
    predicate Paired() { |bodyRoots| == |stateRoots| }
  }

  function Places(c: Posted): nat {
    |c.stateRoots|
  }

  function BatchDepth(c: Posted): nat {
    MinTreeDepth(Places(c))
  }

  function BatchTree(c: Posted): Leaves
    requires c.Paired()
  {
    Padded(R.Commitments(c.stateRoots, c.bodyRoots))
  }

  function BatchRoot(c: Posted): Hash
    requires c.Paired()
  {
    Root(BatchTree(c), BatchDepth(c))
  }

  /** The place of a batch that the low bits of a path name. */
  function Place(c: Posted, path: nat): nat {
    Low(path, BatchDepth(c))
  }

  /** A state root is that of its ledger, or that of none and then no hash of two words; nor is a body's. */
  ghost predicate OnLedgers(c: Posted, depth: nat) {
    && 0 < Places(c) <= 32 && c.Paired()
    && (forall i :: 0 <= i < |c.stateRoots| ==>
          if i in c.ledgers then c.stateRoots[i] == StateRoot(c.ledgers[i], depth) else !c.stateRoots[i].Pair?)
    && (forall i :: 0 <= i < |c.bodyRoots| ==> !c.bodyRoots[i].Pair?)
  }

  /** Batch `id` was submitted with these commitments. */
  ghost predicate Posts(s: B.State, id: nat, c: Posted, depth: nat) {
    OnLedgers(c, depth) && FP.Filed(s, id, c.stateRoots, c.bodyRoots)
  }

  lemma RootIsFiled(s: B.State, id: nat, c: Posted, depth: nat)
    requires Posts(s, id, c, depth)
    ensures B.BatchAt(s, id).commitmentRoot == BatchRoot(c) && B.BatchAt(s, id).size == Places(c)
  {
    hide Node, MinTreeDepth;
  }

  /** The children of a node. */
  function ChildrenOf(m: Leaves, h: nat, i: nat): Shown
    requires h > 0
  {
    Shown(Node(m, h - 1, 2 * i), Node(m, h - 1, 2 * i + 1))
  }

  /** What a witness of this length shows at a path: the commitment at the place that the path names, an inner node of
      the batch, or an inner node of a state tree.  The low bits of the path go down the state tree, and the last of
      them before the commitment chooses the state root or the body root. */
  function ShownAt(c: Posted, depth: nat, path: nat, length: nat): Option<Shown>
    requires c.Paired()
  {
    var d := BatchDepth(c);
    if length < d then Some(ChildrenOf(BatchTree(c), d - length, Low(path, length)))
    else if length == d then
      var q := Place(c, path);
      if q < Places(c) then Some(Shown(c.stateRoots[q], c.bodyRoots[q])) else None
    else
      var k := length - d;
      var at := Place(c, Shr(path, k));
      if at >= Places(c) || at !in c.ledgers || k > depth || Shr(path, k - 1) % 2 == 1 then None
      else Some(ChildrenOf(StateLeaves(c.ledgers[at]), depth - k + 1, Low(path, k - 1)))
  }

  lemma CommitmentAt(c: Posted, i: nat)
    requires c.Paired()
    ensures Node(BatchTree(c), 0, i) == At(BatchTree(c), i)
    ensures At(BatchTree(c), i) == if i < Places(c) then Pair(c.stateRoots[i], c.bodyRoots[i]) else Empty
  {
  }

  lemma NodeIsShown(m: Leaves, h: nat, i: nat, path: nat, n: nat)
    requires n < h
    ensures ShownBy(Node(m, h, i), path, n) == Some(ChildrenOf(m, h - n, Below(i, path, n)))
  {
    InnerOfNode(m, h, i, path, n);
  }

  lemma NotPairShowsNothing(x: Hash, path: nat, n: nat)
    requires !x.Pair?
    ensures ShownBy(x, path, n) == None
  {
  }

  lemma StateIsShown(s: Ledger, depth: nat, path: nat, n: nat)
    ensures ShownBy(StateRoot(s, depth), path, n)
         == if n < depth then Some(ChildrenOf(StateLeaves(s), depth - n, Low(path, n))) else None
  {
    hide Node, StateLeaves, Below, Inner;
    var m := StateLeaves(s);
    if n < depth {
      NodeIsShown(m, depth, 0, path, n);
      BelowRoot(path, n);
    } else {
      InnerSplit(Node(m, depth, 0), path, depth, n - depth);
      InnerOfNode(m, depth, 0, Shr(path, n - depth), depth);
      LeafIsNoPair(s, Below(0, Shr(path, n - depth), depth));
      NotPairShowsNothing(Node(m, 0, Below(0, Shr(path, n - depth), depth)), path, n - depth);
    }
  }

  lemma LeafIsNoPair(s: Ledger, i: nat)
    ensures !Node(StateLeaves(s), 0, i).Pair?
  {
  }

  /** Below a place of the batch. */
  lemma CommitmentShows(c: Posted, depth: nat, at: nat, path: nat, k: nat)
    requires OnLedgers(c, depth) && k > 0
    ensures ShownBy(At(BatchTree(c), at), path, k)
         == if at >= Places(c) || at !in c.ledgers || k > depth || Shr(path, k - 1) % 2 == 1 then None
            else Some(ChildrenOf(StateLeaves(c.ledgers[at]), depth - k + 1, Low(path, k - 1)))
  {
    hide StateRoot, StateLeaves, BatchTree;
    CommitmentAt(c, at);
    if at < Places(c) {
      var sr, br := c.stateRoots[at], c.bodyRoots[at];
      assert ShownBy(Pair(sr, br), path, k) == ShownBy(if Shr(path, k - 1) % 2 == 0 then sr else br, path, k - 1);
      NotPairShowsNothing(br, path, k - 1);
      if at in c.ledgers {
        StateIsShown(c.ledgers[at], depth, path, k - 1);
      } else {
        NotPairShowsNothing(sr, path, k - 1);
      }
    }
  }

  /** For batches on ledgers, that is what is shown, at every path and for every length. */
  lemma ShownIs(c: Posted, depth: nat, path: nat, length: nat)
    requires OnLedgers(c, depth)
    ensures ShownBy(BatchRoot(c), path, length) == ShownAt(c, depth, path, length)
  {
    hide Node, Inner, StateLeaves, MinTreeDepth, BatchTree;
    var m, d := BatchTree(c), BatchDepth(c);
    if length < d {
      NodeIsShown(m, d, 0, path, length);
      BelowRoot(path, length);
    } else {
      var k := length - d;
      InnerSplit(Node(m, d, 0), path, d, k);
      InnerOfNode(m, d, 0, Shr(path, k), d);
      BelowRoot(Shr(path, k), d);
      var at := Place(c, Shr(path, k));
      AtPlace(c, depth, at, path);
      if k > 0 {
        CommitmentShows(c, depth, at, path, k);
      }
    }
  }

  lemma AtPlace(c: Posted, depth: nat, at: nat, path: nat)
    requires OnLedgers(c, depth)
    ensures Node(BatchTree(c), 0, at) == At(BatchTree(c), at) && c.Paired()
    ensures ShownBy(At(BatchTree(c), at), path, 0)
         == if at < Places(c) then Some(Shown(c.stateRoots[at], c.bodyRoots[at])) else None
  {
    CommitmentAt(c, at);
  }

  // ------------------------------------------------------------------------------------------------ the batch before

  /** The batch that holds the previous commitment: the one before is looked at for path 0 only. */
  function HomeOf(before: Posted, here: Posted, path: nat): Posted {
    if path == 0 then before else here
  }

  /** The path of the previous commitment in it. */
  function PathBefore(home: Posted, path: nat): nat
    requires path == 0 ==> Places(home) > 0
  {
    if path == 0 then Places(home) - 1 else path - 1
  }

  /** Batch `id` was submitted with these commitments, and if path 0 is asked about, the batch before it with those. */
  ghost predicate PostsBoth(s: B.State, id: nat, before: Posted, here: Posted, depth: nat, path: nat) {
    && Posts(s, id, here, depth)
    && (path == 0 ==> id > 0 && Posts(s, id - 1, before, depth))
  }

  lemma PreviousIs(s: B.State, id: nat, before: Posted, here: Posted, depth: nat, path: nat, length: nat)
    requires PostsBoth(s, id, before, here, depth, path)
    ensures var home := HomeOf(before, here, path);
            && OnLedgers(home, depth) && Places(home) > 0
            && PreviousShown(s, id, path, length) == ShownAt(home, depth, PathBefore(home, path), length)
  {
    hide ShownAt, ShownBy, MinTreeDepth;
    var home := HomeOf(before, here, path);
    RootIsFiled(s, FP.Home(id, path), home, depth);
    ShownIs(home, depth, PathBefore(home, path), length);
  }

  // ------------------------------------------------------------------------------------------------ parts of a ledger

  /** The accounts below node `i` at height `h`, numbered from there. */
  function Part(s: Ledger, h: nat, i: nat): Ledger {
    map q: nat | q < Pow2(h) && SE.Position(i, h, q) in s :: s[SE.Position(i, h, q)]
  }

  /** A node of a state tree is the root of a ledger of its own. */
  lemma NodeIsRoot(s: Ledger, h: nat, i: nat)
    ensures Node(StateLeaves(s), h, i) == StateRoot(Part(s, h, i), h)
  {
    hide Node;
    assert SE.Position(i, 0, 0) == i;
    DI.NodeShift(StateLeaves(Part(s, h, i)), StateLeaves(s), h, i, h, 0);
  }

  /** The empty part of a batch's tree is the root of the empty ledger. */
  lemma PaddingIsRoot(c: Posted, h: nat, i: nat)
    requires c.Paired() && SE.Position(i, h, 0) >= Places(c)
    ensures Node(BatchTree(c), h, i) == StateRoot(map[], h)
  {
    hide Node;
    forall p: nat | Shr(p, h) == i
      ensures At(BatchTree(c), p) == Empty
    {
      LowSplit(p, h);
    }
    NodeOfEmpty(BatchTree(c), h, i);
    NodeOfEmpty(StateLeaves(map[]), h, 0);
  }
}
