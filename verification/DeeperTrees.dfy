/** Execution on a state tree that hangs at the far left below a deeper root, as it does when an inner node of a batch's
    tree is taken for a state root: proofs made longer by the words above run as they did on their own, and if nothing
    above can pass for an account, no other proofs run. */
module DeeperTrees {
  import opened Words
  import opened Merkle
  import opened MerkleTree
  import opened TxCodec
  import opened Transition
  import opened Ledger
  import opened Commits
  import opened StatelessExecution
  import opened Conservation
  import opened FraudProofs
  import R = Rollups

  /** The root of a tree at the far left below a deeper root. */
  function Lifted(root: Hash, above: seq<Hash>): Hash {
    Climb(root, 0, above)
  }

  function LiftedProof(p: StateProof, above: seq<Hash>): StateProof {
    StateProof(p.state, p.siblings + above)
  }

  function LiftedProofs(proofs: seq<StateProof>, above: seq<Hash>): (r: seq<StateProof>)
    ensures |r| == |proofs|
  {
    seq(|proofs|, i requires 0 <= i < |proofs| => LiftedProof(proofs[i], above))
  }

  /** A failing step returns no root of a tree. */
  function LiftedOutcome(o: Outcome<Hash>, above: seq<Hash>): Outcome<Hash> {
    match o
    case Return(root, Ok) => Return(Lifted(root, above), Ok)
    case _ => o
  }

  function LiftedProgress(p: Progress, above: seq<Hash>): Progress {
    match p
    case Running(root, totals) => Running(Lifted(root, above), totals)
    case _ => p
  }

  /** The same code, and if all went well the root below the deeper one. */
  predicate SameBelow(o: Outcome<Hash>, deeper: Outcome<Hash>, above: seq<Hash>) {
    && o.Return? && deeper.Return? && o.result == deeper.result
    && (o.result == Ok ==> deeper.value == Lifted(o.value, above))
  }

  ghost predicate OfDepth(proofs: seq<StateProof>, depth: nat) {
    forall i :: 0 <= i < |proofs| ==> |proofs[i].siblings| == depth
  }

  predicate TxBelow(t: Tx, depth: nat) {
    t.fromIndex < Pow2(depth) && (!t.MassMigration? ==> t.toIndex < Pow2(depth))
  }

  predicate TxsBelow(txs: seq<Tx>, depth: nat) {
    forall i :: 0 <= i < |txs| ==> TxBelow(txs[i], depth)
  }

  /** Every index in the body is a position of a tree of this depth. */
  predicate IndicesBelow(kind: Kind, body: R.Body, depth: nat) {
    TxsBelow(DecodeAll(kind, body.Txs()), depth) && body.FeesTo() < Pow2(depth)
  }

  lemma ClimbLifts(leaf: Hash, index: nat, siblings: seq<Hash>, above: seq<Hash>)
    requires index < Pow2(|siblings|)
    ensures Climb(leaf, index, siblings + above) == Lifted(Climb(leaf, index, siblings), above)
  {
    ClimbConcat(leaf, index, siblings, above);
    ShrZero(index, |siblings|);
  }

  lemma {:induction false} LiftedSpine(root: Hash, above: seq<Hash>)
    ensures Spine(Lifted(root, above)) == Spine(root) + |above|
    decreases |above|
  {
    if above != [] {
      LiftedSpine(Pair(root, above[0]), above[1..]);
    }
  }

  // ------------------------------------------------------------------------------------------------ longer proofs

  lemma SenderLifts(root: Hash, index: nat, tokenID: nat, amount: nat, fee: nat, proof: StateProof, above: seq<Hash>)
    requires index < Pow2(|proof.siblings|)
    ensures var o := ProcessSender(root, index, tokenID, amount, fee, proof);
            o.Return? ==>
              ProcessSender(Lifted(root, above), index, tokenID, amount, fee, LiftedProof(proof, above))
                == LiftedOutcome(o, above)
  {
    hide Climb, Lifted;
    ClimbLifts(Leaf(proof.state), index, proof.siblings, above);
    var after := ValidateAndApplySender(tokenID, amount, fee, proof.state);
    if after.Return? {
      ClimbLifts(Leaf(after.value), index, proof.siblings, above);
    }
  }

  lemma ReceiverLifts(root: Hash, index: nat, tokenID: nat, amount: nat, proof: StateProof, above: seq<Hash>)
    requires index < Pow2(|proof.siblings|)
    ensures var o := ProcessReceiver(root, index, tokenID, amount, proof);
            o.Return? ==>
              ProcessReceiver(Lifted(root, above), index, tokenID, amount, LiftedProof(proof, above))
                == LiftedOutcome(o, above)
  {
    hide Climb, Lifted;
    ClimbLifts(Leaf(proof.state), index, proof.siblings, above);
    var after := ValidateAndApplyReceiver(tokenID, amount, proof.state);
    if after.Return? {
      ClimbLifts(Leaf(after.value), index, proof.siblings, above);
    }
  }

  lemma CreateLifts(root: Hash, index: nat, pubkeyID: nat, tokenID: nat, amount: nat, proof: StateProof,
                    above: seq<Hash>)
    requires index < Pow2(|proof.siblings|)
    ensures var o := ProcessCreate2TransferReceiver(root, index, pubkeyID, tokenID, amount, proof);
            var deeper := LiftedProof(proof, above);
            o.Return? ==>
              ProcessCreate2TransferReceiver(Lifted(root, above), index, pubkeyID, tokenID, amount, deeper)
                == LiftedOutcome(o, above)
  {
    hide Climb, Lifted;
    ClimbLifts(Empty, index, proof.siblings, above);
    ClimbLifts(Leaf(CreateState(pubkeyID, tokenID, amount)), index, proof.siblings, above);
  }

  lemma TxLifts(root: Hash, t: Tx, tokenID: nat, from: StateProof, to: StateProof, above: seq<Hash>)
    requires TxBelow(t, |from.siblings|) && |to.siblings| == |from.siblings|
    ensures var o := ProcessTx(root, t, tokenID, from, to);
            o.Return? ==>
              ProcessTx(Lifted(root, above), t, tokenID, LiftedProof(from, above), LiftedProof(to, above))
                == LiftedOutcome(o, above)
  {
    hide ProcessSender, ProcessReceiver, ProcessCreate2TransferReceiver, Lifted;
    SenderLifts(root, t.fromIndex, tokenID, t.amount, t.fee, from, above);
    var sent := ProcessSender(root, t.fromIndex, tokenID, t.amount, t.fee, from);
    if sent.Return? && sent.result == Ok {
      match t {
        case Transfer(_, toIndex, amount, _) => ReceiverLifts(sent.value, toIndex, tokenID, amount, to, above);
        case Create2Transfer(_, toIndex, toPubkeyID, amount, _) =>
          CreateLifts(sent.value, toIndex, toPubkeyID, tokenID, amount, to, above);
        case MassMigration(_, _, _) =>
      }
    }
  }

  lemma {:induction false} RunLifts(kind: Kind, root: Hash, txs: seq<Tx>, n: nat, tokenID: nat, proofs: seq<StateProof>,
                                    depth: nat, above: seq<Hash>)
    requires n <= |txs| && TxsBelow(txs, depth) && OfDepth(proofs, depth)
    ensures var p := Run(kind, root, txs, n, tokenID, proofs);
            !p.Reverted? ==>
              Run(kind, Lifted(root, above), txs, n, tokenID, LiftedProofs(proofs, above)) == LiftedProgress(p, above)
  {
    hide ProcessTx, Lifted;
    if n > 0 {
      RunLifts(kind, root, txs, n - 1, tokenID, proofs, depth, above);
      var p := Run(kind, root, txs, n - 1, tokenID, proofs);
      if p.Running? && Stride(kind) * n <= |proofs| {
        TxLifts(p.root, txs[n - 1], tokenID, proofs[Stride(kind) * (n - 1)], proofs[Stride(kind) * n - 1], above);
      }
    }
  }

  lemma {:induction false} StoppedWithCode(kind: Kind, root: Hash, txs: seq<Tx>, n: nat, tokenID: nat,
                                           proofs: seq<StateProof>)
    requires n <= |txs|
    ensures var p := Run(kind, root, txs, n, tokenID, proofs); p.Stopped? ==> p.code != Ok
  {
    hide ProcessTx;
    if n > 0 {
      StoppedWithCode(kind, root, txs, n - 1, tokenID, proofs);
    }
  }

  /** Proofs made longer by the words above execute on the deeper root as they did on their own, and end below it. */
  lemma ExecutedLifts(kind: Kind, root: Hash, maxTxSize: nat, body: R.Body, proofs: seq<StateProof>, depth: nat,
                      above: seq<Hash>)
    requires body.Fits(kind) && IndicesBelow(kind, body, depth) && OfDepth(proofs, depth)
    ensures var o := R.Executed(kind, root, maxTxSize, body, proofs);
            o.Return? ==>
              SameBelow(o, R.Executed(kind, Lifted(root, above), maxTxSize, body, LiftedProofs(proofs, above)), above)
  {
    hide Run, ProcessReceiver, Lifted, DecodeAll, TxsBelow, Merklized;
    var txs := DecodeAll(kind, body.Txs());
    if R.Executed(kind, root, maxTxSize, body, proofs).Return? && (body.MigrationBody? || proofs != []) {
      var tokenID := if body.TransferBody? then proofs[0].state.tokenID else body.migration.tokenID;
      StoppedWithCode(kind, root, txs, |txs|, tokenID, proofs);
      RunLifts(kind, root, txs, |txs|, tokenID, proofs, depth, above);
      var p := Run(kind, root, txs, |txs|, tokenID, proofs);
      if p.Running? && Stride(kind) * |txs| < |proofs| {
        ReceiverLifts(p.root, body.FeesTo(), tokenID, p.totals.fees, proofs[Stride(kind) * |txs|], above);
      }
    }
  }

  lemma {:induction false} LedgerProofsDepth(kind: Kind, s: Ledger, depth: nat, txs: seq<Tx>, n: nat, tokenID: nat)
    requires AllOf(kind, txs) && n <= |txs|
    ensures OfDepth(LedgerProofs(kind, s, depth, txs, n, tokenID), depth)
  {
    hide Witness, Apply;
    if n > 0 {
      LedgerProofsDepth(kind, s, depth, txs, n - 1, tokenID);
    }
  }

  lemma CommitProofsDepth(kind: Kind, s: Ledger, depth: nat, txs: seq<Tx>, tokenID: nat, feeReceiver: nat)
    requires AllOf(kind, txs)
    ensures OfDepth(CommitProofs(kind, s, depth, txs, tokenID, feeReceiver), depth)
  {
    hide Witness, Apply, LedgerProofs;
    LedgerProofsDepth(kind, s, depth, txs, |txs|, tokenID);
  }

  /** What a ledger's own proofs show, seen below a deeper root. */
  lemma VerdictLifts(kind: Kind, s: Ledger, depth: nat, maxTxSize: nat, body: R.Body, above: seq<Hash>)
    returns (proofs: seq<StateProof>)
    requires body.Fits(kind) && IndicesBelow(kind, body, depth)
    requires !LedgerVerdict(kind, s, depth, maxTxSize, body).Reverts?
    ensures SameBelow(Seen(LedgerVerdict(kind, s, depth, maxTxSize, body), depth),
                      R.Executed(kind, Lifted(StateRoot(s, depth), above), maxTxSize, body, proofs), above)
  {
    hide LedgerCommit, LedgerMassMigration, ProcessCommit, ProcessMassMigration, StateRoot, LedgerProofs, ProofOf,
      Lifted,
      IndicesBelow, OfDepth;
    var txs := DecodeAll(kind, body.Txs());
    DecodedKind(kind, body.Txs());
    var own;
    if body.TransferBody? {
      CommitComplete(kind, s, depth, maxTxSize, body.feeReceiver, body.data);
      var token := CommitToken(s, depth, body.feeReceiver, txs);
      own := CommitProofs(kind, s, depth, txs, if token.Some? then token.value else 0, body.feeReceiver);
      CommitProofsDepth(kind, s, depth, txs, if token.Some? then token.value else 0, body.feeReceiver);
    } else {
      MassMigrationComplete(s, depth, maxTxSize, body.migration);
      own := CommitProofs(kind, s, depth, txs, body.migration.tokenID, body.migration.feeReceiver);
      CommitProofsDepth(kind, s, depth, txs, body.migration.tokenID, body.migration.feeReceiver);
    }
    ExecutedLifts(kind, StateRoot(s, depth), maxTxSize, body, own, depth, above);
    proofs := LiftedProofs(own, above);
  }

  // ------------------------------------------------------------------------------------------------ no other proofs

  /** A word that execution takes for a leaf: the hash of a state, and for create2transfers the empty leaf. */
  predicate PassesForLeaf(kind: Kind, x: Hash) {
    x.Leaf? || (kind.Create2Transfers? && x.Empty?)
  }

  /** Nothing less than `n` levels below `x` passes for a leaf. */
  predicate Deep(kind: Kind, x: Hash, n: nat)
    decreases n
  {
    n == 0 || if x.Pair? then Deep(kind, x.left, n - 1) && Deep(kind, x.right, n - 1) else !PassesForLeaf(kind, x)
  }

  predicate DeepAbove(kind: Kind, above: seq<Hash>, depth: nat) {
    forall j :: 0 <= j < |above| ==> Deep(kind, above[j], depth + j)
  }

  lemma {:induction false} DeepNode(kind: Kind, m: Leaves, h: nat, i: nat)
    ensures Deep(kind, Node(m, h, i), h)
  {
    if h > 0 {
      DeepNode(kind, m, h - 1, 2 * i);
      DeepNode(kind, m, h - 1, 2 * i + 1);
    }
  }

  lemma {:induction false} DeepLifted(kind: Kind, root: Hash, depth: nat, above: seq<Hash>)
    requires Deep(kind, root, depth) && DeepAbove(kind, above, depth)
    ensures Deep(kind, Lifted(root, above), depth + |above|)
    decreases |above|
  {
    if above != [] {
      assert Deep(kind, above[0], depth + 0);
      forall j | 0 <= j < |above| - 1
        ensures Deep(kind, above[1..][j], depth + 1 + j)
      {
        assert above[1..][j] == above[j + 1];
      }
      DeepLifted(kind, Pair(root, above[0]), depth + 1, above[1..]);
    }
  }

  lemma {:induction false} ClimbFromDeep(kind: Kind, leaf: Hash, path: nat, w: seq<Hash>, n: nat)
    requires PassesForLeaf(kind, leaf) && Deep(kind, Climb(leaf, path, w), n)
    ensures |w| >= n
    decreases |w|
  {
    if w != [] && n > 0 {
      var v, s := w[..|w| - 1], w[|w| - 1];
      assert w == v + [s];
      ClimbSnoc(leaf, path, v, s);
      ClimbFromDeep(kind, leaf, path, v, n - 1);
    }
  }

  /** Climbing to the deeper root along a path without high bits passes through the root at the far left. */
  lemma {:induction false} ClimbPeels(leaf: Hash, index: nat, w: seq<Hash>, root: Hash, depth: nat, above: seq<Hash>)
    requires index < Pow2(depth) && |w| >= depth + |above| && Climb(leaf, index, w) == Lifted(root, above)
    ensures var n := |w| - |above|; Climb(leaf, index, w[..n]) == root && w[n..] == above
    decreases |above|
  {
    if above == [] {
      assert w[..|w|] == w;
    } else {
      var n, m := |w| - 1, |above| - 1;
      assert w == w[..n] + [w[n]] && above == above[..m] + [above[m]];
      ClimbSnoc(leaf, index, w[..n], w[n]);
      ClimbSnoc(root, 0, above[..m], above[m]);
      HighBit(index, depth, n);
      HighBit(0, depth, m + depth);
      ShrZero(0, m);
      ClimbPeels(leaf, index, w[..n], root, depth, above[..m]);
      assert w[..n][..n - m] == w[..n - m] && w[n - m..] == w[..n][n - m..] + [w[n]];
    }
  }

  lemma HighBit(index: nat, depth: nat, n: nat)
    requires index < Pow2(depth) && n >= depth
    ensures Shr(index, n) == 0
  {
    Pow2Grows(depth, n);
    ShrZero(index, n);
  }

  /** A leaf shown below the deeper root is one of the tree at the far left, with the ledger's witness and the words
      above. */
  lemma LeafLowers(kind: Kind, s: Ledger, depth: nat, above: seq<Hash>, leaf: Hash, index: nat, w: seq<Hash>)
    requires PassesForLeaf(kind, leaf) && DeepAbove(kind, above, depth) && index < Pow2(depth)
    requires Climb(leaf, index, w) == Lifted(StateRoot(s, depth), above)
    ensures |w| >= depth && w == w[..depth] + above && Climb(leaf, index, w[..depth]) == StateRoot(s, depth)
  {
    hide Climb, Lifted, Deep, DeepAbove, Atomic, Witness;
    DeepNode(kind, StateLeaves(s), depth, 0);
    DeepLifted(kind, StateRoot(s, depth), depth, above);
    ClimbFromDeep(kind, leaf, index, w, depth + |above|);
    ClimbPeels(leaf, index, w, StateRoot(s, depth), depth, above);
    LeavesAfterPut(s, 0, ZERO_STATE);
    LeafProof(leaf, index, w[..|w| - |above|], StateLeaves(s), depth, Empty);
    assert w == w[..depth] + w[depth..];
  }

  lemma SenderLowers(kind: Kind, s: Ledger, depth: nat, above: seq<Hash>, index: nat, tokenID: nat, amount: nat,
                     fee: nat, proof: StateProof)
    requires DeepAbove(kind, above, depth) && index < Pow2(depth)
    ensures var o := ProcessSender(Lifted(StateRoot(s, depth), above), index, tokenID, amount, fee, proof);
            o.Return? ==>
              && Low(index, depth) in s && proof.state == s[Low(index, depth)]
              && o == LiftedOutcome(Seen(Send(s, Low(index, depth), tokenID, amount, fee), depth), above)
  {
    hide Climb, Lifted, DeepAbove, StateRoot, Send;
    if ProcessSender(Lifted(StateRoot(s, depth), above), index, tokenID, amount, fee, proof).Return? {
      LeafLowers(kind, s, depth, above, Leaf(proof.state), index, proof.siblings);
      var own := StateProof(proof.state, proof.siblings[..depth]);
      assert proof == LiftedProof(own, above);
      SenderLifts(StateRoot(s, depth), index, tokenID, amount, fee, own, above);
      SenderSound(s, depth, index, tokenID, amount, fee, own);
    }
  }

  lemma ReceiverLowers(kind: Kind, s: Ledger, depth: nat, above: seq<Hash>, index: nat, tokenID: nat, amount: nat,
                       proof: StateProof)
    requires DeepAbove(kind, above, depth) && index < Pow2(depth)
    ensures var o := ProcessReceiver(Lifted(StateRoot(s, depth), above), index, tokenID, amount, proof);
            o.Return? ==>
              && Low(index, depth) in s && proof.state == s[Low(index, depth)]
              && o == LiftedOutcome(Seen(Receive(s, Low(index, depth), tokenID, amount), depth), above)
  {
    hide Climb, Lifted, DeepAbove, StateRoot, Receive;
    if ProcessReceiver(Lifted(StateRoot(s, depth), above), index, tokenID, amount, proof).Return? {
      LeafLowers(kind, s, depth, above, Leaf(proof.state), index, proof.siblings);
      var own := StateProof(proof.state, proof.siblings[..depth]);
      assert proof == LiftedProof(own, above);
      ReceiverLifts(StateRoot(s, depth), index, tokenID, amount, own, above);
      ReceiverSound(s, depth, index, tokenID, amount, own);
    }
  }

  lemma CreateLowers(s: Ledger, depth: nat, above: seq<Hash>, index: nat, pubkeyID: nat, tokenID: nat, amount: nat,
                     proof: StateProof)
    requires DeepAbove(Create2Transfers, above, depth) && index < Pow2(depth)
    ensures var root := Lifted(StateRoot(s, depth), above);
            var o := ProcessCreate2TransferReceiver(root, index, pubkeyID, tokenID, amount, proof);
            o.Return? ==> o == LiftedOutcome(Seen(Create(s, Low(index, depth), pubkeyID, tokenID, amount), depth),
                                             above)
  {
    hide Climb, Lifted, DeepAbove, StateRoot, Create;
    var root := Lifted(StateRoot(s, depth), above);
    if ProcessCreate2TransferReceiver(root, index, pubkeyID, tokenID, amount, proof).Return? {
      LeafLowers(Create2Transfers, s, depth, above, Empty, index, proof.siblings);
      var own := StateProof(proof.state, proof.siblings[..depth]);
      assert proof == LiftedProof(own, above);
      CreateLifts(StateRoot(s, depth), index, pubkeyID, tokenID, amount, own, above);
      CreateSound(s, depth, index, pubkeyID, tokenID, amount, own);
    }
  }

  lemma TxLowers(s: Ledger, depth: nat, above: seq<Hash>, t: Tx, tokenID: nat, from: StateProof, to: StateProof)
    requires DeepAbove(t.Kind(), above, depth) && TxBelow(t, depth)
    ensures var o := ProcessTx(Lifted(StateRoot(s, depth), above), t, tokenID, from, to);
            o.Return? ==>
              && Low(t.fromIndex, depth) in s && from.state == s[Low(t.fromIndex, depth)]
              && o == LiftedOutcome(Seen(Apply(s, depth, t, tokenID), depth), above)
  {
    hide ProcessSender, ProcessReceiver, ProcessCreate2TransferReceiver, Lifted, DeepAbove, StateRoot;
    SenderLowers(t.Kind(), s, depth, above, t.fromIndex, tokenID, t.amount, t.fee, from);
    var sent := Send(s, Low(t.fromIndex, depth), tokenID, t.amount, t.fee);
    if sent.Accepts? {
      match t {
        case Transfer(_, toIndex, amount, _) =>
          ReceiverLowers(Transfers, sent.ledger, depth, above, toIndex, tokenID, amount, to);
        case Create2Transfer(_, toIndex, toPubkeyID, amount, _) =>
          CreateLowers(sent.ledger, depth, above, toIndex, toPubkeyID, tokenID, amount, to);
        case MassMigration(_, _, _) =>
      }
    }
  }

  lemma {:induction false} RunLowers(kind: Kind, s: Ledger, depth: nat, above: seq<Hash>, txs: seq<Tx>, n: nat,
                                     tokenID: nat, proofs: seq<StateProof>)
    requires n <= |txs| && AllOf(kind, txs) && TxsBelow(txs, depth) && DeepAbove(kind, above, depth)
    ensures var p := Run(kind, Lifted(StateRoot(s, depth), above), txs, n, tokenID, proofs);
            !p.Reverted? ==>
              p == LiftedProgress(SeenProgress(LedgerRun(kind, s, depth, txs, n, tokenID), depth), above)
  {
    hide ProcessTx, Apply, Lifted, DeepAbove, StateRoot;
    if n > 0 {
      RunLowers(kind, s, depth, above, txs, n - 1, tokenID, proofs);
      var p := LedgerRun(kind, s, depth, txs, n - 1, tokenID);
      if p.LRunning? && Stride(kind) * n <= |proofs| {
        TxLowers(p.ledger, depth, above, txs[n - 1], tokenID, proofs[Stride(kind) * (n - 1)],
                 proofs[Stride(kind) * n - 1]);
      }
    }
  }

  lemma FirstSenderBelow(kind: Kind, s: Ledger, depth: nat, above: seq<Hash>, txs: seq<Tx>, tokenID: nat,
                         proofs: seq<StateProof>)
    requires AllOf(kind, txs) && TxsBelow(txs, depth) && DeepAbove(kind, above, depth)
    requires txs != [] && !Run(kind, Lifted(StateRoot(s, depth), above), txs, |txs|, tokenID, proofs).Reverted?
    ensures proofs != []
    ensures Low(txs[0].fromIndex, depth) in s && proofs[0].state == s[Low(txs[0].fromIndex, depth)]
  {
    hide ProcessTx, DeepAbove, Lifted;
    var root := Lifted(StateRoot(s, depth), above);
    StopsForGood(kind, root, txs, 1, |txs|, tokenID, proofs);
    assert Run(kind, root, txs, 1, tokenID, proofs)
        == Step(kind, Running(root, NO_TOTALS), txs[0], 0, tokenID, proofs);
    TxLowers(s, depth, above, txs[0], tokenID, proofs[0], proofs[Stride(kind) - 1]);
  }

  lemma CommitLowers(kind: Kind, s: Ledger, depth: nat, above: seq<Hash>, maxTxSize: nat, feeReceiver: nat, data: Bytes,
                     proofs: seq<StateProof>)
    requires TxsBelow(DecodeAll(kind, data), depth) && feeReceiver < Pow2(depth) && DeepAbove(kind, above, depth)
    requires ProcessCommit(kind, Lifted(StateRoot(s, depth), above), maxTxSize, feeReceiver, data, proofs).Return?
    ensures !LedgerCommit(kind, s, depth, maxTxSize, feeReceiver, data).Reverts?
  {
    hide Decode, ProcessTx, Apply, ProcessReceiver, Receive, Lifted, DeepAbove, StateRoot, TxsBelow;
    var txs, root := DecodeAll(kind, data), Lifted(StateRoot(s, depth), above);
    DecodedKind(kind, data);
    if proofs != [] {
      var tokenID := proofs[0].state.tokenID;
      RunLowers(kind, s, depth, above, txs, |txs|, tokenID, proofs);
      if txs != [] && !Run(kind, root, txs, |txs|, tokenID, proofs).Reverted? {
        FirstSenderBelow(kind, s, depth, above, txs, tokenID, proofs);
      }
      var p := LedgerRun(kind, s, depth, txs, |txs|, tokenID);
      if p.LRunning? && Stride(kind) * |txs| < |proofs| {
        ReceiverLowers(kind, p.ledger, depth, above, feeReceiver, tokenID, p.totals.fees, proofs[Stride(kind) * |txs|]);
      }
    }
  }

  lemma MigrationLowers(s: Ledger, depth: nat, above: seq<Hash>, maxTxSize: nat, body: MassMigrationBody,
                        proofs: seq<StateProof>)
    requires TxsBelow(DecodeAll(MassMigrations, body.txs), depth) && body.feeReceiver < Pow2(depth)
    requires DeepAbove(MassMigrations, above, depth)
    requires ProcessMassMigration(Lifted(StateRoot(s, depth), above), maxTxSize, body, proofs).Return?
    ensures !LedgerMassMigration(s, depth, maxTxSize, body).Reverts?
  {
    hide Decode, ProcessTx, Apply, ProcessReceiver, Receive, Lifted, DeepAbove, StateRoot, TxsBelow, Merklized;
    var txs := DecodeAll(MassMigrations, body.txs);
    DecodedKind(MassMigrations, body.txs);
    RunLowers(MassMigrations, s, depth, above, txs, |txs|, body.tokenID, proofs);
    var p := LedgerRun(MassMigrations, s, depth, txs, |txs|, body.tokenID);
    if p.LRunning? && |txs| < |proofs| {
      ReceiverLowers(MassMigrations, p.ledger, depth, above, body.feeReceiver, body.tokenID, p.totals.fees,
                     proofs[|txs|]);
    }
  }

  /** Whatever proofs execute below the deeper root, the ledger at the far left has a verdict. */
  lemma ExecutedLowers(kind: Kind, s: Ledger, depth: nat, above: seq<Hash>, maxTxSize: nat, body: R.Body,
                       proofs: seq<StateProof>)
    requires body.Fits(kind) && IndicesBelow(kind, body, depth) && DeepAbove(kind, above, depth)
    requires R.Executed(kind, Lifted(StateRoot(s, depth), above), maxTxSize, body, proofs).Return?
    ensures !LedgerVerdict(kind, s, depth, maxTxSize, body).Reverts?
  {
    hide ProcessCommit, ProcessMassMigration, LedgerCommit, LedgerMassMigration, Lifted, DeepAbove, StateRoot, TxsBelow;
    match body {
      case TransferBody(_, _, feeReceiver, data) =>
        CommitLowers(kind, s, depth, above, maxTxSize, feeReceiver, data, proofs);
      case MigrationBody(_, _, _, migration) => MigrationLowers(s, depth, above, maxTxSize, migration, proofs);
    }
  }

  /** Below a deeper root a commitment of the depth of the tree at the far left is fraudulent as soon as the ledger
      there does not revert; and no sooner, if nothing above passes for a leaf. */
  lemma FraudBelowIsExact(kind: Kind, s: Ledger, depth: nat, above: seq<Hash>, claimed: Hash, maxTxSize: nat,
                          body: R.Body)
    requires body.Fits(kind) && IndicesBelow(kind, body, depth) && above != [] && Spine(claimed) == depth
    ensures var root := Lifted(StateRoot(s, depth), above);
            && (!LedgerVerdict(kind, s, depth, maxTxSize, body).Reverts? ==>
                  exists proofs :: R.Fraud(kind, root, claimed, maxTxSize, body, proofs))
            && (DeepAbove(kind, above, depth) ==>
                  ((exists proofs :: R.Fraud(kind, root, claimed, maxTxSize, body, proofs)) <==>
                     !LedgerVerdict(kind, s, depth, maxTxSize, body).Reverts?))
  {
    hide R.Executed, LedgerVerdict, Lifted, StateRoot, DeepAbove, IndicesBelow;
    var root, v := Lifted(StateRoot(s, depth), above), LedgerVerdict(kind, s, depth, maxTxSize, body);
    if !v.Reverts? {
      var proofs := VerdictLifts(kind, s, depth, maxTxSize, body, above);
      VerdictFailsWithCode(kind, s, depth, maxTxSize, body);
      if v.Accepts? {
        RootSpine(v.ledger, depth);
        LiftedSpine(StateRoot(v.ledger, depth), above);
      }
      assert R.Fraud(kind, root, claimed, maxTxSize, body, proofs);
    }
    if proofs :| DeepAbove(kind, above, depth) && R.Fraud(kind, root, claimed, maxTxSize, body, proofs) {
      ExecutedLowers(kind, s, depth, above, maxTxSize, body, proofs);
    }
  }

  lemma VerdictFailsWithCode(kind: Kind, s: Ledger, depth: nat, maxTxSize: nat, body: R.Body)
    requires body.Fits(kind)
    ensures var v := LedgerVerdict(kind, s, depth, maxTxSize, body); v.Fails? ==> v.code != Ok
  {
    hide LedgerCommit, LedgerMassMigration;
    match body {
      case TransferBody(_, _, feeReceiver, data) => CommitFailsWithCode(kind, s, depth, maxTxSize, feeReceiver, data);
      case MigrationBody(_, _, _, migration) => MigrationFailsWithCode(s, depth, maxTxSize, migration);
    }
  }

  lemma MigrationFailsWithCode(s: Ledger, depth: nat, maxTxSize: nat, body: MassMigrationBody)
    ensures var v := LedgerMassMigration(s, depth, maxTxSize, body); v.Fails? ==> v.code != Ok
  {
    hide Apply, Receive, Decode, LedgerRun, Merklized;
    var txs := DecodeAll(MassMigrations, body.txs);
    StopsWithCode(MassMigrations, s, depth, txs, |txs|, body.tokenID);
  }

  lemma RootSpine(s: Ledger, depth: nat)
    ensures Spine(StateRoot(s, depth)) == depth
  {
    LeavesAfterPut(s, 0, ZERO_STATE);
    SpineOfNode(StateLeaves(s), depth, 0);
  }
}
