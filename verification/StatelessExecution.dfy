/** The chain sees only roots and caller-supplied proofs; the coordinator keeps the ledger.  Re-execution on the chain
    is sound and complete for the ledger, so a transition dispute decides exactly whether a commitment is wrong. */
module StatelessExecution {
  import opened Words
  import opened Merkle
  import opened TxCodec
  import opened Transition
  import opened Ledger
  import opened Commits

  // ------------------------------------------------------------------------------------------------ soundness

  lemma {:induction false} RunSound(kind: Kind, s: Ledger, depth: nat, txs: seq<Tx>, n: nat, tokenID: nat,
                                    proofs: seq<StateProof>)
    requires n <= |txs|
    ensures var p := Run(kind, StateRoot(s, depth), txs, n, tokenID, proofs);
            !p.Reverted? ==> p == SeenProgress(LedgerRun(kind, s, depth, txs, n, tokenID), depth)
  {
    hide ProcessTx, Apply;
    if n > 0 {
      RunSound(kind, s, depth, txs, n - 1, tokenID, proofs);
      var p := LedgerRun(kind, s, depth, txs, n - 1, tokenID);
      if p.LRunning? && Stride(kind) * n <= |proofs| {
        TxSound(p.ledger, depth, txs[n - 1], tokenID, proofs[Stride(kind) * (n - 1)], proofs[Stride(kind) * n - 1]);
      }
    }
  }

  lemma FirstSender(kind: Kind, s: Ledger, depth: nat, txs: seq<Tx>, tokenID: nat, proofs: seq<StateProof>)
    requires txs != [] && !Run(kind, StateRoot(s, depth), txs, |txs|, tokenID, proofs).Reverted?
    ensures proofs != []
    ensures Low(txs[0].fromIndex, depth) in s && proofs[0].state == s[Low(txs[0].fromIndex, depth)]
  {
    var root := StateRoot(s, depth);
    StopsForGood(kind, root, txs, 1, |txs|, tokenID, proofs);
    assert Run(kind, root, txs, 1, tokenID, proofs)
        == Step(kind, Running(root, NO_TOTALS), txs[0], 0, tokenID, proofs);
    TxSound(s, depth, txs[0], tokenID, proofs[0], proofs[Stride(kind) - 1]);
  }

  /** Soundness: for proofs of arbitrary content, length and number, a commitment either reverts or has the one outcome
      that the ledger and the transactions fix. */
  lemma CommitSound(kind: Kind, s: Ledger, depth: nat, maxTxSize: nat, feeReceiver: nat, data: Bytes,
                    proofs: seq<StateProof>)
    ensures var o := ProcessCommit(kind, StateRoot(s, depth), maxTxSize, feeReceiver, data, proofs);
            o.Return? ==> o == Seen(LedgerCommit(kind, s, depth, maxTxSize, feeReceiver, data), depth)
  {
    hide Decode, ProcessTx, Apply, ProcessReceiver, Receive;
    var txs, root := DecodeAll(kind, data), StateRoot(s, depth);
    if ProcessCommit(kind, root, maxTxSize, feeReceiver, data, proofs).Return? && proofs != [] {
      var tokenID := proofs[0].state.tokenID;
      RunSound(kind, s, depth, txs, |txs|, tokenID, proofs);
      if txs != [] && !Run(kind, root, txs, |txs|, tokenID, proofs).Reverted? {
        FirstSender(kind, s, depth, txs, tokenID, proofs);
      }
      var p := LedgerRun(kind, s, depth, txs, |txs|, tokenID);
      if p.LRunning? && Stride(kind) * |txs| < |proofs| {
        ReceiverSound(p.ledger, depth, feeReceiver, tokenID, p.totals.fees, proofs[Stride(kind) * |txs|]);
      }
    }
  }

  lemma MassMigrationSound(s: Ledger, depth: nat, maxTxSize: nat, body: MassMigrationBody, proofs: seq<StateProof>)
    ensures var o := ProcessMassMigration(StateRoot(s, depth), maxTxSize, body, proofs);
            o.Return? ==> o == Seen(LedgerMassMigration(s, depth, maxTxSize, body), depth)
  {
    hide Decode, ProcessTx, Apply, ProcessReceiver, Receive;
    var txs := DecodeAll(MassMigrations, body.txs);
    RunSound(MassMigrations, s, depth, txs, |txs|, body.tokenID, proofs);
    var p := LedgerRun(MassMigrations, s, depth, txs, |txs|, body.tokenID);
    if p.LRunning? && |txs| < |proofs| {
      ReceiverSound(p.ledger, depth, body.feeReceiver, body.tokenID, p.totals.fees, proofs[|txs|]);
    }
  }

  // ------------------------------------------------------------------------------------------------ completeness

  /** The proofs of one transaction, as a ledger holder emits them. */
  function TxProofs(kind: Kind, s: Ledger, depth: nat, t: Tx, tokenID: nat): (proofs: seq<StateProof>)
    requires t.Kind() == kind
    ensures |proofs| == Stride(kind)
  {
    [ProofOf(s, depth, Low(t.fromIndex, depth))]
      + if t.MassMigration? then [] else [ReceiverProof(s, depth, t, tokenID)]
  }

  /** The proofs of the first `n` transactions.  Once the ledger has stopped no proof is looked at any more. */
  function LedgerProofs(kind: Kind, s: Ledger, depth: nat, txs: seq<Tx>, n: nat, tokenID: nat): (ps: seq<StateProof>)
    requires AllOf(kind, txs) && n <= |txs|
    ensures |ps| == Stride(kind) * n
  {
    if n == 0 then [] else
      var v := ApplyAll(s, depth, txs, n - 1, tokenID);
      LedgerProofs(kind, s, depth, txs, n - 1, tokenID)
        + TxProofs(kind, if v.Accepts? then v.ledger else s, depth, txs[n - 1], tokenID)
  }

  function CommitProofs(kind: Kind, s: Ledger, depth: nat, txs: seq<Tx>, tokenID: nat, feeReceiver: nat)
    : seq<StateProof>
    requires AllOf(kind, txs)
  {
    var v := ApplyAll(s, depth, txs, |txs|, tokenID);
    LedgerProofs(kind, s, depth, txs, |txs|, tokenID)
      + [ProofOf(if v.Accepts? then v.ledger else s, depth, Low(feeReceiver, depth))]
  }

  /** The order of the proofs: sender and receiver of each transfer side by side, the sender alone of each migration,
      then the fee receiver; each refers to the ledger as it then stands. */
  lemma {:induction false} ProofPlaces(kind: Kind, s: Ledger, depth: nat, txs: seq<Tx>, n: nat, tokenID: nat, i: nat)
    requires AllOf(kind, txs) && i < n <= |txs| && ApplyAll(s, depth, txs, i, tokenID).Accepts?
    ensures var proofs, l, t := LedgerProofs(kind, s, depth, txs, n, tokenID),
                                ApplyAll(s, depth, txs, i, tokenID).ledger, txs[i];
            if kind.MassMigrations? then |proofs| == n && proofs[i] == ProofOf(l, depth, Low(t.fromIndex, depth))
            else |proofs| == 2 * n && proofs[2 * i] == ProofOf(l, depth, Low(t.fromIndex, depth))
                 && proofs[2 * i + 1] == ReceiverProof(l, depth, t, tokenID)
  {
    hide ApplyAll, ProofOf, ReceiverProof;
    assert LedgerProofs(kind, s, depth, txs, 0, tokenID) == [];
    if i < n - 1 {
      ProofPlaces(kind, s, depth, txs, n - 1, tokenID, i);
    }
  }

  lemma {:induction false} RunFollowsApply(kind: Kind, s: Ledger, depth: nat, txs: seq<Tx>, n: nat, tokenID: nat)
    requires n <= |txs| && LedgerRun(kind, s, depth, txs, n, tokenID).LRunning?
    ensures ApplyAll(s, depth, txs, n, tokenID) == Accepts(LedgerRun(kind, s, depth, txs, n, tokenID).ledger)
  {
    hide Apply;
    if n > 0 {
      RunFollowsApply(kind, s, depth, txs, n - 1, tokenID);
    }
  }

  lemma StepComplete(kind: Kind, s: Ledger, totals: Totals, depth: nat, t: Tx, i: nat, tokenID: nat,
                     proofs: seq<StateProof>)
    requires t.Kind() == kind && Stride(kind) * (i + 1) <= |proofs|
    requires proofs[Stride(kind) * i..Stride(kind) * (i + 1)] == TxProofs(kind, s, depth, t, tokenID)
    requires !LedgerStep(kind, LRunning(s, totals), depth, t, tokenID).LReverted?
    ensures Step(kind, Running(StateRoot(s, depth), totals), t, i, tokenID, proofs)
         == SeenProgress(LedgerStep(kind, LRunning(s, totals), depth, t, tokenID), depth)
  {
    hide ProcessTx, Apply, StateRoot, ReceiverProof, Witness;
    var k, mine := Stride(kind), TxProofs(kind, s, depth, t, tokenID);
    assert proofs[k * i] == mine[0] && proofs[k * (i + 1) - 1] == mine[k - 1];
    TxComplete(s, depth, t, tokenID, mine[k - 1]);
  }

  lemma {:induction false} RunComplete(kind: Kind, s: Ledger, depth: nat, txs: seq<Tx>, n: nat, tokenID: nat,
                                       proofs: seq<StateProof>)
    requires AllOf(kind, txs) && n <= |txs|
    requires LedgerProofs(kind, s, depth, txs, n, tokenID) <= proofs
    requires !LedgerRun(kind, s, depth, txs, n, tokenID).LReverted?
    ensures Run(kind, StateRoot(s, depth), txs, n, tokenID, proofs)
         == SeenProgress(LedgerRun(kind, s, depth, txs, n, tokenID), depth)
  {
    hide Step, LedgerStep, StateRoot, TxProofs;
    if n > 0 {
      var p := LedgerRun(kind, s, depth, txs, n - 1, tokenID);
      if p.LRunning? {
        RunFollowsApply(kind, s, depth, txs, n - 1, tokenID);
        RunComplete(kind, s, depth, txs, n - 1, tokenID, proofs);
        var before, mine := LedgerProofs(kind, s, depth, txs, n - 1,
                                         tokenID), TxProofs(kind, p.ledger, depth, txs[n - 1], tokenID);
        assert before + mine == LedgerProofs(kind, s, depth, txs, n, tokenID);
        LastPart(before, mine, proofs);
        StepComplete(kind, p.ledger, p.totals, depth, txs[n - 1], n - 1, tokenID, proofs);
      } else {
        NoMoreSteps(kind, p, depth, txs[n - 1], n - 1, tokenID, proofs);
        RunComplete(kind, s, depth, txs, n - 1, tokenID, proofs);
      }
    }
  }

  lemma LastPart<T>(a: seq<T>, b: seq<T>, c: seq<T>)
    requires a + b <= c
    ensures c[|a|..|a| + |b|] == b
  {
    assert (a + b)[|a|..] == b;
  }

  lemma NoMoreSteps(kind: Kind, p: LedgerProgress, depth: nat, t: Tx, i: nat, tokenID: nat,
                    proofs: seq<StateProof>)
    requires !p.LRunning?
    ensures LedgerStep(kind, p, depth, t, tokenID) == p
    ensures Step(kind, SeenProgress(p, depth), t, i, tokenID, proofs) == SeenProgress(p, depth)
  {
  }

  lemma {:induction false} LedgerProofsStart(kind: Kind, s: Ledger, depth: nat, txs: seq<Tx>, n: nat, tokenID: nat)
    requires AllOf(kind, txs) && 0 < n <= |txs|
    ensures LedgerProofs(kind, s, depth, txs, n, tokenID)[0] == ProofOf(s, depth, Low(txs[0].fromIndex, depth))
  {
    if n > 1 {
      LedgerProofsStart(kind, s, depth, txs, n - 1, tokenID);
    } else {
      assert LedgerProofs(kind, s, depth, txs, 0, tokenID) == [];
    }
  }

  lemma DecodedKind(kind: Kind, data: Bytes)
    ensures AllOf(kind, DecodeAll(kind, data))
  {
  }

  /** Completeness: unless the ledger itself reverts, its own proofs show the chain exactly its outcome. */
  lemma CommitComplete(kind: Kind, s: Ledger, depth: nat, maxTxSize: nat, feeReceiver: nat, data: Bytes)
    requires !LedgerCommit(kind, s, depth, maxTxSize, feeReceiver, data).Reverts?
    ensures var txs := DecodeAll(kind, data);
            var token := CommitToken(s, depth, feeReceiver, txs);
            AllOf(kind, txs) &&
            var proofs := CommitProofs(kind, s, depth, txs, if token.Some? then token.value else 0, feeReceiver);
            ProcessCommit(kind, StateRoot(s, depth), maxTxSize, feeReceiver, data, proofs)
              == Seen(LedgerCommit(kind, s, depth, maxTxSize, feeReceiver, data), depth)
  {
    hide Decode, ProcessTx, Apply, ProcessReceiver, Receive;
    DecodedKind(kind, data);
    var txs := DecodeAll(kind, data);
    var token := CommitToken(s, depth, feeReceiver, txs);
    if !HasExcessData(kind, data) && |txs| <= maxTxSize {
      var tokenID := token.value;
      var proofs := CommitProofs(kind, s, depth, txs, tokenID, feeReceiver);
      RunComplete(kind, s, depth, txs, |txs|, tokenID, proofs);
      if txs != [] {
        LedgerProofsStart(kind, s, depth, txs, |txs|, tokenID);
      }
      assert proofs[0].state.tokenID == tokenID;
      var p := LedgerRun(kind, s, depth, txs, |txs|, tokenID);
      if p.LRunning? {
        RunFollowsApply(kind, s, depth, txs, |txs|, tokenID);
        ReceiverComplete(p.ledger, depth, feeReceiver, tokenID, p.totals.fees);
      }
    }
  }

  lemma MassMigrationComplete(s: Ledger, depth: nat, maxTxSize: nat, body: MassMigrationBody)
    requires !LedgerMassMigration(s, depth, maxTxSize, body).Reverts?
    ensures var txs := DecodeAll(MassMigrations, body.txs);
            AllOf(MassMigrations, txs) &&
            var proofs := CommitProofs(MassMigrations, s, depth, txs, body.tokenID, body.feeReceiver);
            ProcessMassMigration(StateRoot(s, depth), maxTxSize, body, proofs)
              == Seen(LedgerMassMigration(s, depth, maxTxSize, body), depth)
  {
    hide Decode, ProcessTx, Apply, ProcessReceiver, Receive, ProofOf;
    DecodedKind(MassMigrations, body.txs);
    var txs := DecodeAll(MassMigrations, body.txs);
    if !HasExcessData(MassMigrations, body.txs) && |txs| <= maxTxSize {
      var proofs := CommitProofs(MassMigrations, s, depth, txs, body.tokenID, body.feeReceiver);
      RunComplete(MassMigrations, s, depth, txs, |txs|, body.tokenID, proofs);
      var p := LedgerRun(MassMigrations, s, depth, txs, |txs|, body.tokenID);
      if p.LRunning? {
        RunFollowsApply(MassMigrations, s, depth, txs, |txs|, body.tokenID);
        ReceiverComplete(p.ledger, depth, body.feeReceiver, body.tokenID, p.totals.fees);
      }
    }
  }

  // ------------------------------------------------------------------------------------------------ disputes

  /** The decision of `disputeTransitionTransfer` and `disputeTransitionCreate2Transfer` once the inclusion proofs
      hold. */
  predicate Disputes(kind: Kind, previousRoot: Hash, claimedRoot: Hash, maxTxSize: nat, feeReceiver: nat, data: Bytes,
                     proofs: seq<StateProof>)
  {
    var o := ProcessCommit(kind, previousRoot, maxTxSize, feeReceiver, data, proofs);
    o.Return? && (o.result != Ok || o.value != claimedRoot)
  }

  predicate DisputesMassMigration(previousRoot: Hash, claimedRoot: Hash, maxTxSize: nat, body: MassMigrationBody,
                                  proofs: seq<StateProof>)
  {
    var o := ProcessMassMigration(previousRoot, maxTxSize, body, proofs);
    o.Return? && (o.result != Ok || o.value != claimedRoot)
  }

  /** Some proofs dispute a commitment if and only if the ledger gives it an outcome other than the claimed root.  In
      particular nothing disputes an honest commitment; and one on which the ledger step reverts (a missing account, an
      occupied create target, an overflow) cannot be disputed at all. */
  lemma DisputeIsExact(kind: Kind, s: Ledger, depth: nat, claimedRoot: Hash, maxTxSize: nat, feeReceiver: nat,
                       data: Bytes)
    ensures var v := LedgerCommit(kind, s, depth, maxTxSize, feeReceiver, data);
            (exists proofs :: Disputes(kind, StateRoot(s, depth), claimedRoot, maxTxSize, feeReceiver, data, proofs))
              <==> !v.Reverts? && Seen(v, depth) != Return(claimedRoot, Ok)
  {
    var v := LedgerCommit(kind, s, depth, maxTxSize, feeReceiver, data);
    forall proofs | Disputes(kind, StateRoot(s, depth), claimedRoot, maxTxSize, feeReceiver, data, proofs)
      ensures !v.Reverts? && Seen(v, depth) != Return(claimedRoot, Ok)
    {
      CommitSound(kind, s, depth, maxTxSize, feeReceiver, data, proofs);
    }
    if !v.Reverts? && Seen(v, depth) != Return(claimedRoot, Ok) {
      CommitComplete(kind, s, depth, maxTxSize, feeReceiver, data);
      var txs := DecodeAll(kind, data);
      var token := CommitToken(s, depth, feeReceiver, txs);
      var proofs := CommitProofs(kind, s, depth, txs, if token.Some? then token.value else 0, feeReceiver);
      assert Disputes(kind, StateRoot(s, depth), claimedRoot, maxTxSize, feeReceiver, data, proofs);
    }
  }

  lemma MassMigrationDisputeIsExact(s: Ledger, depth: nat, claimedRoot: Hash, maxTxSize: nat, body: MassMigrationBody)
    ensures var v := LedgerMassMigration(s, depth, maxTxSize, body);
            (exists proofs :: DisputesMassMigration(StateRoot(s, depth), claimedRoot, maxTxSize, body, proofs))
              <==> !v.Reverts? && Seen(v, depth) != Return(claimedRoot, Ok)
  {
    var v := LedgerMassMigration(s, depth, maxTxSize, body);
    forall proofs | DisputesMassMigration(StateRoot(s, depth), claimedRoot, maxTxSize, body, proofs)
      ensures !v.Reverts? && Seen(v, depth) != Return(claimedRoot, Ok)
    {
      MassMigrationSound(s, depth, maxTxSize, body, proofs);
    }
    if !v.Reverts? && Seen(v, depth) != Return(claimedRoot, Ok) {
      MassMigrationComplete(s, depth, maxTxSize, body);
      var txs := DecodeAll(MassMigrations, body.txs);
      var proofs := CommitProofs(MassMigrations, s, depth, txs, body.tokenID, body.feeReceiver);
      assert DisputesMassMigration(StateRoot(s, depth), claimedRoot, maxTxSize, body, proofs);
    }
  }
}
