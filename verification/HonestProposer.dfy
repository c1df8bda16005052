/** What the client proposes, the chain accepts as what it is.  The chain can also be asked to read it as something
    else: a packed commitment stands exactly when those readings revert or give its root too. */
module HonestProposer {
  import opened Words
  import opened Merkle
  import opened MerkleTree
  import opened TxCodec
  import opened Ledger
  import opened Commits
  import opened StatelessExecution
  import opened ClientTransfers
  import opened FraudProofs
  import opened InclusionReadings
  import opened BodyReadings
  import A = Authenticity
  import B = Batches
  import Decimal
  import R = Rollups
  import SE = StorageEngines
  import ST = StateTrees
  import V = Verdicts
  import W = WitnessLengths

  ghost predicate Storable(v: View, depth: nat) {
    forall p :: p in v.ledger ==> p < Pow2(depth) && (v.fit ==> ST.Fits(v.ledger[p]))
  }

  /** An engine with nothing left to commit shows such a ledger. */
  lemma EngineIsStorable(e: SE.MemoryEngine)
    requires Ready(e) && e.journal == []
    ensures ClientTransfers.Seen(e).ledger == e.items && ClientTransfers.Seen(e).fit
    ensures Storable(ClientTransfers.Seen(e), e.tree.depth)
  {
  }

  /** A client step whose states can all be hashed is the ledger's step. */
  lemma TransferredIsApply(v: View, depth: nat, t: Tx, tokenID: nat)
    requires t.Transfer? && Storable(v, depth) && Transferred(v, t, tokenID).Some?
    ensures var v' := Transferred(v, t, tokenID).value;
            Storable(v', depth) && (v'.fit ==> v.fit && Apply(v.ledger, depth, t, tokenID) == Accepts(v'.ledger))
  {
    ShrZero(t.fromIndex, depth);
    ShrZero(t.toIndex, depth);
  }

  lemma {:induction false} TransferredAllIsApplyAll(v: View, depth: nat, txs: seq<Tx>, n: nat, tokenID: nat)
    requires AllOf(Transfers, txs) && n <= |txs| && Storable(v, depth) && TransferredAll(v, txs, n, tokenID).Some?
    ensures var v' := TransferredAll(v, txs, n, tokenID).value;
            && Storable(v', depth)
            && (v'.fit ==> v.fit && ApplyAll(v.ledger, depth, txs, n, tokenID) == Accepts(v'.ledger))
  {
    hide Transferred, Apply, Storable;
    if n > 0 {
      TransferredAllIsApplyAll(v, depth, txs, n - 1, tokenID);
      TransferredIsApply(TransferredAll(v, txs, n - 1, tokenID).value, depth, txs[n - 1], tokenID);
    }
  }

  /** The positions a transfer names are accounts. */
  ghost predicate Names(s: Ledger, t: Tx)
    requires t.Transfer?
  {
    t.fromIndex in s && t.toIndex in s
  }

  /** And the ledger's step on accounts that are there is the client's. */
  lemma ApplyIsTransferred(v: View, depth: nat, t: Tx, tokenID: nat)
    requires t.Transfer? && Storable(v, depth) && v.fit && Names(v.ledger, t)
    requires Apply(v.ledger, depth, t, tokenID).Accepts?
    ensures Transferred(v, t, tokenID).Some? && Transferred(v, t, tokenID).value.fit
    ensures forall p :: p in v.ledger ==> p in Transferred(v, t, tokenID).value.ledger
  {
    ShrZero(t.fromIndex, depth);
    ShrZero(t.toIndex, depth);
  }

  lemma {:induction false} ApplyAllIsTransferredAll(v: View, depth: nat, txs: seq<Tx>, n: nat, tokenID: nat)
    requires AllOf(Transfers, txs) && n <= |txs| && Storable(v, depth) && v.fit
    requires forall i :: 0 <= i < |txs| ==> Names(v.ledger, txs[i])
    requires ApplyAll(v.ledger, depth, txs, n, tokenID).Accepts?
    ensures var r := TransferredAll(v, txs, n, tokenID);
            && r.Some? && r.value.fit && ApplyAll(v.ledger, depth, txs, n, tokenID) == Accepts(r.value.ledger)
            && Storable(r.value, depth) && (forall p :: p in v.ledger ==> p in r.value.ledger)
  {
    hide Transferred, Apply, Storable;
    if n > 0 {
      ApplyAllIsTransferredAll(v, depth, txs, n - 1, tokenID);
      ApplyIsTransferred(TransferredAll(v, txs, n - 1, tokenID).value, depth, txs[n - 1], tokenID);
      TransferredAllIsApplyAll(v, depth, txs, n, tokenID);
    }
  }

  lemma TransferredNames(v: View, t: Tx, tokenID: nat)
    requires t.Transfer? && Transferred(v, t, tokenID).Some?
    ensures Names(v.ledger, t) && Transferred(v, t, tokenID).value.ledger.Keys == v.ledger.Keys
  {
  }

  lemma {:induction false} TransferredAllNames(v: View, txs: seq<Tx>, n: nat, tokenID: nat)
    requires AllOf(Transfers, txs) && n <= |txs| && TransferredAll(v, txs, n, tokenID).Some?
    ensures forall i :: 0 <= i < n ==> Names(v.ledger, txs[i])
    ensures TransferredAll(v, txs, n, tokenID).value.ledger.Keys == v.ledger.Keys
  {
    hide Transferred;
    if n > 0 {
      TransferredAllNames(v, txs, n - 1, tokenID);
      var before := TransferredAll(v, txs, n - 1, tokenID).value;
      TransferredNames(before, txs[n - 1], tokenID);
      assert txs[n - 1].fromIndex in before.ledger.Keys && txs[n - 1].toIndex in before.ledger.Keys;
    }
  }

  // ------------------------------------------------------------------------------------------------ the syncer

  /** What the reference ledger makes of transfers and their fees: the ledger after them, if all is accepted. */
  ghost predicate LedgerTakes(s: Ledger, depth: nat, txs: seq<Tx>, feeReceiver: nat, after: Ledger) {
    && txs != [] && txs[0].fromIndex in s
    && var tokenID := s[txs[0].fromIndex].tokenID;
       var v := ApplyAll(s, depth, txs, |txs|, tokenID);
       v.Accepts? && Receive(v.ledger, feeReceiver, tokenID, SumFees(txs, |txs|)) == Accepts(after)
  }

  lemma ReceivedIsReceive(v: View, depth: nat, p: nat, tokenID: nat, amount: nat)
    requires Storable(v, depth) && v.fit
    ensures var r := Received(v, p, amount, tokenID);
            Receive(v.ledger, p, tokenID, amount).Accepts? <==> r.Some? && r.value.fit
    ensures var r := Received(v, p, amount, tokenID);
            r.Some? && r.value.fit ==> Receive(v.ledger, p, tokenID, amount) == Accepts(r.value.ledger)
  {
  }

  /** What the loop of `process` commits is what the ledger takes. */
  lemma CommittedIsTaken(v: View, depth: nat, txs: seq<Tx>, tokenID: nat, feeReceiver: nat, after: Ledger)
    requires AllOf(Transfers, txs) && v.fit && Storable(v, depth) && txs != [] && txs[0].fromIndex in v.ledger
    requires tokenID == v.ledger[txs[0].fromIndex].tokenID
    ensures Committed(v, txs, tokenID, feeReceiver) == Some(after) <==>
              && (forall i :: 0 <= i < |txs| ==> Names(v.ledger, txs[i])) && feeReceiver in v.ledger
              && LedgerTakes(v.ledger, depth, txs, feeReceiver, after)
  {
    hide TransferredAll, ApplyAll, Received, Receive, Storable, Names, SumFees;
    var n := |txs|;
    if TransferredAll(v, txs, n, tokenID).Some? {
      TransferredAllIsApplyAll(v, depth, txs, n, tokenID);
      TransferredAllNames(v, txs, n, tokenID);
      FitOnly(TransferredAll(v, txs, n, tokenID).value, feeReceiver, SumFees(txs, n), tokenID);
    }
    if ApplyAll(v.ledger, depth, txs, n, tokenID).Accepts? && forall i :: 0 <= i < n ==> Names(v.ledger, txs[i]) {
      ApplyAllIsTransferredAll(v, depth, txs, n, tokenID);
    }
    if TransferredAll(v, txs, n, tokenID).Some? && TransferredAll(v, txs, n, tokenID).value.fit {
      ReceivedIsReceive(TransferredAll(v, txs, n, tokenID).value, depth, feeReceiver, tokenID, SumFees(txs, n));
    }
  }

  lemma FitOnly(v: View, p: nat, amount: nat, tokenID: nat)
    ensures Received(v, p, amount, tokenID).Some? ==> p in v.ledger.Keys
    ensures Received(v, p, amount, tokenID).Some? && Received(v, p, amount, tokenID).value.fit ==> v.fit
  {
  }

  /** The commitments the syncer accepts: whole transfers, at least one and not too many, between accounts of its
      ledger, which the reference ledger takes one after the other with the fees, ending at the committed root. */
  lemma SyncerAcceptsExactly(v: View, depth: nat, c: Commitment, maxTxs: nat, after: Ledger)
    requires v.fit && Storable(v, depth)
    ensures var txs, r := DecodeAll(Transfers, c.txs), Replayed(v, depth, c, maxTxs);
            AllOf(Transfers, txs) &&
            (r.Some? && r.value.1 == after <==>
              && |c.txs| % 12 == 0 && 1 <= |c.txs| / 12 <= maxTxs
              && (forall i :: 0 <= i < |txs| ==> Names(v.ledger, txs[i])) && c.feeReceiver in v.ledger
              && LedgerTakes(v.ledger, depth, txs, c.feeReceiver, after) && StateRoot(after, depth) == c.stateRoot)
  {
    hide Committed, NoncesOf, Decode, LedgerTakes, StateRoot, Storable;
    ClientTransfers.DecodedKind(c.txs);
    var txs := DecodeAll(Transfers, c.txs);
    if txs != [] && txs[0].fromIndex in v.ledger {
      CommittedIsTaken(v, depth, txs, v.ledger[txs[0].fromIndex].tokenID, c.feeReceiver, after);
    }
  }

  /** The chain takes the same commitments, where they name accounts of the ledger. */
  lemma TakenIsCommit(s: Ledger, depth: nat, maxTxs: nat, feeReceiver: nat, data: Bytes, after: Ledger)
    requires (forall p :: p in s ==> p < Pow2(depth)) && feeReceiver in s
    requires var txs := DecodeAll(Transfers, data); txs != [] ==> txs[0].fromIndex in s
    ensures var txs := DecodeAll(Transfers, data);
            txs != [] && LedgerCommit(Transfers, s, depth, maxTxs, feeReceiver, data) == Accepts(after) <==>
              && |data| % 12 == 0 && |data| / 12 <= maxTxs && LedgerTakes(s, depth, txs, feeReceiver, after)
  {
    hide DecodeAll, LedgerRun, Low, Receive, ApplyAll, V.SmallTxs, Pow2, V.BadAt, V.StuckAt, SumFees;
    var txs := DecodeAll(Transfers, data);
    ShrZero(feeReceiver, depth);
    if txs != [] {
      ShrZero(txs[0].fromIndex, depth);
      var tokenID := s[txs[0].fromIndex].tokenID;
      V.DecodedAreSmall(Transfers, data);
      V.WholeRunIs(Transfers, s, depth, txs, tokenID);
      WordSize();
      var v := ApplyAll(s, depth, txs, |txs|, tokenID);
      if v.Accepts? {
        V.ReceivesIf(v.ledger, feeReceiver, tokenID, SumFees(txs, |txs|));
      }
    }
  }

  /** Whatever the syncer accepts, re-execution accepts as transfers with the same root, and no proofs dispute it as
      such; and what re-execution accepts of transfers between accounts of the ledger, the syncer accepts. */
  lemma SyncedStands(v: View, depth: nat, c: Commitment, maxTxs: nat, after: Ledger)
    requires v.fit && Storable(v, depth)
    ensures var txs, r := DecodeAll(Transfers, c.txs), Replayed(v, depth, c, maxTxs);
            AllOf(Transfers, txs) &&
            (r.Some? && r.value.1 == after <==>
              && txs != [] && (forall i :: 0 <= i < |txs| ==> Names(v.ledger, txs[i])) && c.feeReceiver in v.ledger
              && LedgerCommit(Transfers, v.ledger, depth, maxTxs, c.feeReceiver, c.txs) == Accepts(after)
              && StateRoot(after, depth) == c.stateRoot)
    ensures Replayed(v, depth, c, maxTxs).Some? ==>
              !exists proofs ::
                 Disputes(Transfers, StateRoot(v.ledger, depth), c.stateRoot, maxTxs, c.feeReceiver, c.txs, proofs)
  {
    hide Replayed, Decode, LedgerTakes, StateRoot, LedgerCommit, Disputes;
    ClientTransfers.DecodedKind(c.txs);
    var txs, r := DecodeAll(Transfers, c.txs), Replayed(v, depth, c, maxTxs);
    SyncerAcceptsExactly(v, depth, c, maxTxs, after);
    if c.feeReceiver in v.ledger && (txs != [] ==> txs[0].fromIndex in v.ledger) {
      TakenIsCommit(v.ledger, depth, maxTxs, c.feeReceiver, c.txs, after);
    }
    if r.Some? {
      SyncerAcceptsExactly(v, depth, c, maxTxs, r.value.1);
      TakenIsCommit(v.ledger, depth, maxTxs, c.feeReceiver, c.txs, r.value.1);
      DisputeIsExact(Transfers, v.ledger, depth, c.stateRoot, maxTxs, c.feeReceiver, c.txs);
    }
  }

  /** The nonces handed back are those the accounts had, plus the transfers they sent earlier in the commitment. */
  lemma SyncedNonces(v: View, depth: nat, c: Commitment, maxTxs: nat, i: nat)
    requires v.fit && Storable(v, depth) && Replayed(v, depth, c, maxTxs).Some?
    requires i < |DecodeAll(Transfers, c.txs)|
    ensures var txs, out := DecodeAll(Transfers, c.txs), Replayed(v, depth, c, maxTxs).value.0;
            && |out| == |txs| && out[i].tx == txs[i] && txs[i].fromIndex in v.ledger
            && out[i].nonce == v.ledger[txs[i].fromIndex].nonce
                               + A.SentFrom(txs, depth, txs[i].fromIndex, 0, i)
  {
    hide Decode, TransferredAll, Received, StateRoot, Storable, SumFees, Apply, A.SentFrom;
    ClientTransfers.DecodedKind(c.txs);
    var txs := DecodeAll(Transfers, c.txs);
    var tokenID := v.ledger[txs[0].fromIndex].tokenID;
    NoncesAt(v, txs, |txs|, i, tokenID);
    TransferredAllNames(v, txs, |txs|, tokenID);
    ClientTransfers.NoneStays(v, txs, i, |txs|, tokenID);
    TransferredAllNames(v, txs, i, tokenID);
    FitOnly(TransferredAll(v, txs, |txs|, tokenID).value, c.feeReceiver, SumFees(txs, |txs|), tokenID);
    FitStays(v, txs, i, |txs|, tokenID);
    TransferredAllIsApplyAll(v, depth, txs, i, tokenID);
    assert ApplyAll(v.ledger, depth, txs, 0, tokenID) == Accepts(v.ledger);
    A.ForwardNonce(v.ledger, depth, txs, tokenID, txs[i].fromIndex, 0, i);
  }

  lemma {:induction false} NoncesAt(v: View, txs: seq<Tx>, n: nat, i: nat, tokenID: nat)
    requires AllOf(Transfers, txs) && i < n <= |txs|
    ensures var out, before := NoncesOf(v, txs, n, tokenID), TransferredAll(v, txs, i, tokenID);
            && |out| == n && out[i].tx == txs[i]
            && (before.Some? && txs[i].fromIndex in before.value.ledger ==>
                  out[i].nonce == before.value.ledger[txs[i].fromIndex].nonce)
  {
    hide TransferredAll;
    if n > 1 {
      NoncesAt(v, txs, n - 1, if i < n - 1 then i else 0, tokenID);
    } else {
      assert NoncesOf(v, txs, 0, tokenID) == [];
    }
  }

  lemma {:induction false} FitStays(v: View, txs: seq<Tx>, i: nat, n: nat, tokenID: nat)
    requires AllOf(Transfers, txs) && i <= n <= |txs| && TransferredAll(v, txs, n, tokenID).Some?
    ensures TransferredAll(v, txs, i, tokenID).Some?
    ensures TransferredAll(v, txs, n, tokenID).value.fit ==> TransferredAll(v, txs, i, tokenID).value.fit
  {
    if i < n {
      FitStays(v, txs, i, n - 1, tokenID);
    }
  }

  /** From a ledger whose states can all be hashed, every commitment that packing returns is accepted by re-execution:
      from that ledger's root no proofs whatever make `disputeTransitionTransfer` succeed against it. */
  lemma PackedStandsAsTransfers(v: View, depth: nat, source: seq<SignedTx>, verified: seq<bool>, tokenID: nat,
                                feeReceiver: nat, maxTxs: nat)
    requires AllTransfers(source) && |source| == |verified| && v.fit && Storable(v, depth)
    requires Pack(v, depth, source, verified, tokenID, feeReceiver, maxTxs).Some?
    ensures var packed := Pack(v, depth, source, verified, tokenID, feeReceiver, maxTxs).value;
            var c := packed.commitment;
            && LedgerCommit(Transfers, v.ledger, depth, maxTxs, c.feeReceiver, c.txs) == Accepts(packed.ledger)
            && c.stateRoot == StateRoot(packed.ledger, depth) && |c.txs| == 12 * |packed.accepted|
            && !exists proofs ::
                 Disputes(Transfers, StateRoot(v.ledger, depth), c.stateRoot, maxTxs, c.feeReceiver, c.txs, proofs)
  {
    hide PackRun, Received, CompressedAll, LedgerCommit, Disputes, DecodeAll, StateRoot, Replayed, Storable;
    var packed := Pack(v, depth, source, verified, tokenID, feeReceiver, maxTxs).value;
    PackRunIsReplay(v, source, verified, |source|, tokenID, maxTxs);
    ProposerAndSyncerAgree(v, depth, source, verified, tokenID, feeReceiver, maxTxs);
    SyncedStands(v, depth, packed.commitment, maxTxs, packed.ledger);
    CompressedSize(TxsOf(packed.accepted));
  }

  lemma CompressedSize(txs: seq<Tx>)
    requires AllOf(Transfers, txs) && CompressedAll(txs).Some?
    ensures |CompressedAll(txs).value| == 12 * |txs|
  {
    hide Compressible, CompressedAll;
    EncodersAgree(txs);
    RoundTrip(Transfers, txs);
  }

  // ------------------------------------------------------------------------------------------------ other readings

  /** The body a packed commitment is submitted with. */
  function BodyOf(c: Commitment, accountRoot: Hash, signature: A.Signature): R.Body {
    R.TransferBody(accountRoot, signature, c.feeReceiver, c.txs)
  }

  /** Against evidence with witnesses of the right length, at a path where the ledger before it is the one it was packed
      on, a packed commitment stands if and only if its bytes read as create2transfers, and as any mass migration,
      revert or give its root.  A number of transactions that is no multiple of 4 is enough for anybody to convict
      it. */
  lemma PackedStands(v: View, depth: nat, source: seq<SignedTx>, verified: seq<bool>, tokenID: nat, feeReceiver: nat,
                     maxTxs: nat, s: B.State, id: nat, before: Posted, here: Posted, path: nat,
                     keccak: Bytes -> Hash, word: Hash -> Bytes, b: R.Body)
    requires AllTransfers(source) && |source| == |verified| && v.fit && Storable(v, depth)
    requires Pack(v, depth, source, verified, tokenID, feeReceiver, maxTxs).Some?
    requires PostsBoth(s, id, before, here, depth, path) && W.AllKnown(HomeOf(before, here, path))
    requires W.LedgerBefore(before, here, path) == Some(v.ledger) && W.Named(here, path).Some?
    requires BodyReadings.Sound(keccak, word) && b.Sized()
    requires HashOf(keccak, word)(b) == W.Named(here, path).value.bodyRoot
    requires var c := Pack(v, depth, source, verified, tokenID, feeReceiver, maxTxs).value.commitment;
             b == BodyOf(c, b.accountRoot, b.signature) && W.Named(here, path).value.stateRoot == c.stateRoot
    ensures var x, h := W.Named(here, path).value, HashOf(keccak, word);
            Convicted(s, id, path, maxTxs, h) <==>
              || Contradicts(Create2Transfers, v.ledger, depth, maxTxs, b, x.stateRoot)
              || WrongReading(MassMigrations, v.ledger, depth, maxTxs, h, x.bodyRoot, x.stateRoot)
    ensures |Pack(v, depth, source, verified, tokenID, feeReceiver, maxTxs).value.accepted| % 4 != 0 ==>
              Convicted(s, id, path, maxTxs, HashOf(keccak, word))
  {
    hide Pack, Storable, BodyReadings.Sound, Filed, WrongReading, Convicted, HashOf, StateRoot, LedgerCommit, R.Fraud,
      W.LedgerBefore, W.Named, W.AllKnown;
    var packed := Pack(v, depth, source, verified, tokenID, feeReceiver, maxTxs).value;
    PackedStandsAsTransfers(v, depth, source, verified, tokenID, feeReceiver, maxTxs);
    TransferStands(s, id, before, here, depth, path, maxTxs, keccak, word, b);
    NotFour(|packed.accepted|);
    if |packed.accepted| % 4 != 0 {
      WrongSize(Create2Transfers, v.ledger, depth, Empty, maxTxs, b, packed.commitment.stateRoot);
    }
  }

  lemma NotFour(n: nat)
    ensures 12 * n % 16 == 0 <==> n % 4 == 0
  {
    var q, r := n / 4, n % 4;
    DivUnique(12 * n, 16, 3 * q + 12 * r / 16, 12 * r % 16);
  }

  /** The simplest case: a commitment of a single transfer, packed and accepted, is disputed as create2transfers without
      a single proof. */
  lemma OneTransferDisputed(depth: nat)
    requires depth > 0
    ensures var v := View(map[0 := UserState(0, 0, 1, 0), 1 := UserState(1, 0, 0, 0)], true);
            var source := [SignedTx(Transfer(0, 1, 1, 0), 0)];
            && AllTransfers(source) && Storable(v, depth)
            && var packed := Pack(v, depth, source, [true], 0, 0, 32);
            && packed.Some? && packed.value.accepted == source
            && var c := packed.value.commitment;
            Disputes(Create2Transfers, StateRoot(v.ledger, depth), c.stateRoot, 32, c.feeReceiver, c.txs, [])
  {
    hide StateRoot;
    var a0, a1 := UserState(0, 0, 1, 0), UserState(1, 0, 0, 0);
    var v := View(map[0 := a0, 1 := a1], true);
    var t := Transfer(0, 1, 1, 0);
    var source := [SignedTx(t, 0)];
    assert Pow2(1) == 2;
    Pow2Grows(1, depth);
    assert PackRun(v, source, [true], 0, 0, 32) == Packing([], [], v);
    assert Acceptable(v, source[0], 0, true);
    var p := PackRun(v, source, [true], 1, 0, 32);
    assert p == PackStep(Packing([], [], v), source[0], 0, true, 32);
    assert p.accepted == source;
    var txs := TxsOf(p.accepted);
    assert txs == [t];
    SmallCodes();
    assert Compressible(t);
    EncodersAgree(txs);
    CompressedSize(txs);
    assert SumFees(txs, 1) == SumFees(txs, 0) + 0;
  }

  lemma SmallCodes()
    ensures Decimal.Encodable(0) && Decimal.Encodable(1)
  {
    assert Decimal.Scaled(0, 0) == 0 && Decimal.Scaled(1, 0) == 1;
  }
}
