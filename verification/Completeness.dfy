/** A commitment that the coordinator's StateTree processes is accepted on the chain: its serialized transactions,
    replayed with the emitted proofs, give Ok and the coordinator's root.  Includes the mass-migration body of
    ts/commitments.ts. */
module Completeness {
  import opened Words
  import opened Merkle
  import opened MerkleTree
  import opened Decimal
  import opened TxCodec
  import opened Ledger
  import opened Commits
  import opened StatelessExecution
  import opened Conservation
  import A = Authenticity
  import Chain = Transition
  import R = Rollups
  import ST = StateTrees

  /** While the sums of fees fit in a word, the chain's running totals never revert. */
  lemma {:induction false} ApplyGivesRun(kind: Kind, s: Ledger, depth: nat, txs: seq<Tx>, n: nat, tokenID: nat)
    requires n <= |txs| && ApplyAll(s, depth, txs, n, tokenID).Accepts? && SumFees(txs, n) < TWO_256
    ensures var p := LedgerRun(kind, s, depth, txs, n, tokenID);
            p.LRunning? && Accepts(p.ledger) == ApplyAll(s, depth, txs, n, tokenID) && p.totals.fees == SumFees(txs, n)
  {
    hide Apply;
    if n > 0 {
      ApplyGivesRun(kind, s, depth, txs, n - 1, tokenID);
    }
  }

  lemma ReceiveBounds(s: Ledger, p: nat, tokenID: nat, amount: nat)
    requires Receive(s, p, tokenID, amount).Accepts?
    ensures p in s && amount < TWO_256
  {
  }

  ghost predicate InDepth(s: Ledger, depth: nat) {
    forall p :: p in s ==> p < Pow2(depth)
  }

  lemma {:induction false} ApplyAllInDepth(s: Ledger, depth: nat, txs: seq<Tx>, n: nat, tokenID: nat)
    requires n <= |txs| && InDepth(s, depth) && ApplyAll(s, depth, txs, n, tokenID).Accepts?
    ensures InDepth(ApplyAll(s, depth, txs, n, tokenID).ledger, depth)
  {
    if n > 0 {
      ApplyAllInDepth(s, depth, txs, n - 1, tokenID);
      LowBound(txs[n - 1].fromIndex, depth);
      if !txs[n - 1].MassMigration? {
        LowBound(txs[n - 1].toIndex, depth);
      }
    }
  }

  lemma CommitOnLedger(kind: Kind, s: Ledger, depth: nat, txs: seq<Tx>, feeReceiver: nat)
    requires InDepth(s, depth) && ST.Commit(s, depth, txs, feeReceiver).Accepts?
    ensures var tokenID := s[txs[0].fromIndex].tokenID;
            var p := LedgerRun(kind, s, depth, txs, |txs|, tokenID);
            && Low(feeReceiver, depth) == feeReceiver
            && CommitToken(s, depth, feeReceiver, txs) == Some(tokenID)
            && p.LRunning? && p.totals.fees == SumFees(txs, |txs|)
            && Receive(p.ledger, feeReceiver, tokenID, p.totals.fees) == ST.Commit(s, depth, txs, feeReceiver)
  {
    hide Apply;
    var tokenID := s[txs[0].fromIndex].tokenID;
    var v := ApplyAll(s, depth, txs, |txs|, tokenID);
    ReceiveBounds(v.ledger, feeReceiver, tokenID, SumFees(txs, |txs|));
    ApplyAllInDepth(s, depth, txs, |txs|, tokenID);
    ApplyGivesRun(kind, s, depth, txs, |txs|, tokenID);
    ShrZero(feeReceiver, depth);
    ShrZero(txs[0].fromIndex, depth);
  }

  /** Completeness for transfers and create2transfers: self-transfers and fee receivers that also trade included. */
  lemma TransfersAcceptedOnChain(kind: Kind, s: Ledger, depth: nat, txs: seq<Tx>, feeReceiver: nat, maxTxSize: nat)
    requires !kind.MassMigrations? && AllOf(kind, txs) && |txs| <= maxTxSize
    requires CompressedAll(txs).Some?
    requires InDepth(s, depth) && ST.Commit(s, depth, txs, feeReceiver).Accepts?
    ensures var tokenID := s[txs[0].fromIndex].tokenID;
            ProcessCommit(kind, StateRoot(s, depth), maxTxSize, feeReceiver, CompressedAll(txs).value,
                          CommitProofs(kind, s, depth, txs, tokenID, feeReceiver))
              == Chain.Return(StateRoot(ST.Commit(s, depth, txs, feeReceiver).ledger, depth), Chain.Ok)
  {
    hide LedgerCommit, CommitProofs, ProcessCommit, ST.Commit, DecodeAll, StateRoot, CompressedAll;
    TransfersOnLedger(kind, s, depth, txs, feeReceiver, maxTxSize);
    CommitComplete(kind, s, depth, maxTxSize, feeReceiver, CompressedAll(txs).value);
  }

  lemma TransfersOnLedger(kind: Kind, s: Ledger, depth: nat, txs: seq<Tx>, feeReceiver: nat, maxTxSize: nat)
    requires AllOf(kind, txs) && |txs| <= maxTxSize && CompressedAll(txs).Some?
    requires InDepth(s, depth) && ST.Commit(s, depth, txs, feeReceiver).Accepts?
    ensures var data := CompressedAll(txs).value;
            && DecodeAll(kind, data) == txs
            && txs != [] && txs[0].fromIndex in s
            && CommitToken(s, depth, feeReceiver, txs) == Some(s[txs[0].fromIndex].tokenID)
            && LedgerCommit(kind, s, depth, maxTxSize, feeReceiver, data) == ST.Commit(s, depth, txs, feeReceiver)
  {
    hide LedgerRun, Receive, Compressible, DecodeAll;
    EncodersAgree(txs);
    RoundTrip(kind, txs);
    CommitOnLedger(kind, s, depth, txs, feeReceiver);
  }

  // ------------------------------------------------------------------------------------------------ mass migrations

  /** MigrationTree.fromStates: the shallowest tree over the withdrawn states. */
  method FromStates(states: seq<UserState>) returns (r: ST.Result<ST.StateTree>)
    requires |states| < TWO_31
    ensures r.Success? <==> states != [] && forall i :: 0 <= i < |states| ==> ST.Fits(states[i])
    ensures r.Success? ==>
              && fresh(r.value) && r.value.Valid()
              && r.value.RootNode() == Merklized(LeavesOf(states))
  {
    if |states| == 0 {
      return ST.Failure(ST.ExceedStateTreeSize);
    }
    CeilLog2IsLeast(|states|);
    var tree := new ST.StateTree(MinTreeDepth(|states|));
    for i := 0 to |states|
      invariant fresh(tree) && fresh(tree.stateTree) && tree.Valid()
      invariant forall j :: 0 <= j < i ==> ST.Fits(states[j])
      invariant tree.states == map p: nat | p < i :: states[p]
    {
      var c := tree.CreateState(i, states[i]);
      if c.Failure? {
        return ST.Failure(c.error);
      }
    }
    assert StateLeaves(tree.states) == Padded(LeavesOf(states));
    return ST.Success(tree);
  }

  /** The state a transaction migrates, read off the ledger; a missing account reads as the zero state. */
  function Destination(s: Ledger, t: Tx): UserState {
    var origin := if t.fromIndex in s then s[t.fromIndex] else ZERO_STATE;
    UserState(origin.pubkeyID, origin.tokenID, t.amount, 0)
  }

  function Destinations(s: Ledger, txs: seq<Tx>): seq<UserState> {
    seq(|txs|, i requires 0 <= i < |txs| => Destination(s, txs[i]))
  }

  /** The position is one of the provider's, and the state that migrates can be hashed. */
  predicate CanMigrate(s: Ledger, depth: nat, t: Tx) {
    t.fromIndex < Pow2(depth) && ST.Fits(Destination(s, t))
  }

  /** MassMigrationCommitment.fromStateProvider: the state root and the body of the commitment.  `spokeIDs` are those of
      the transactions. */
  method FromStateProvider(accountRoot: Hash, txs: seq<Tx>, spokeIDs: seq<nat>, signature: A.Signature,
                           feeReceiver: nat, provider: ST.StateTree) returns (r: Option<(Hash, R.Body)>)
    requires provider.Valid() && |txs| < TWO_31 && |spokeIDs| == |txs|
    requires forall i :: 0 <= i < |txs| ==> txs[i].fromIndex < TWO_31
    ensures r.Some? <==>
              && txs != [] && CompressedAll(txs).Some?
              && forall i :: 0 <= i < |txs| ==> CanMigrate(provider.states, provider.stateTree.depth, txs[i])
    ensures r.Some? ==>
              && r.value.0 == StateRoot(provider.states, provider.stateTree.depth)
              && r.value.1 == R.MigrationBody(
                                accountRoot, signature, spokeIDs[0],
                                MassMigrationBody(
                                  Merklized(LeavesOf(Destinations(provider.states, txs))),
                                  Destination(provider.states, txs[0]).tokenID, SumAmounts(txs, |txs|), feeReceiver,
                                  CompressedAll(txs).value))
  {
    hide ST.Fits, CompressedAll, Merklized;
    var states, amount: nat := [], 0;
    for i := 0 to |txs|
      invariant forall j :: 0 <= j < i ==> txs[j].fromIndex < Pow2(provider.stateTree.depth)
      invariant states == Destinations(provider.states, txs[..i]) && amount == SumAmounts(txs, i)
    {
      var proof := provider.GetState(txs[i].fromIndex);
      if proof.Failure? {
        return None;
      }
      var origin := proof.value.state;
      states := states + [UserState(origin.pubkeyID, origin.tokenID, txs[i].amount, 0)];
      amount := amount + txs[i].amount;
    }
    assert txs[..|txs|] == txs;
    assert forall i :: 0 <= i < |txs| ==> states[i] == Destination(provider.states, txs[i]);
    var migrationTree := FromStates(states);
    var data := CompressedAll(txs);
    if migrationTree.Failure? || data.None? {
      return None;
    }
    var body := MassMigrationBody(migrationTree.value.RootNode(), states[0].tokenID, amount, feeReceiver, data.value);
    return Some((provider.RootNode(), R.MigrationBody(accountRoot, signature, spokeIDs[0], body)));
  }

  lemma EncodableFits(x: nat)
    requires Encodable(x)
    ensures x < TWO_256
  {
    hide Encode, Decompress;
    CodeRoundTrip(x);
    DecompressBound(Encode(x).value);
  }

  /** From the ledger before or after an accepted commitment the body is always built. */
  lemma AcceptedCanMigrate(s: Ledger, provider: Ledger, depth: nat, txs: seq<Tx>, feeReceiver: nat)
    requires AllOf(MassMigrations, txs) && ST.AllInTree(txs, depth) && CompressedAll(txs).Some?
    requires InDepth(s, depth) && ST.Commit(s, depth, txs, feeReceiver).Accepts?
    requires provider == s || provider == ST.Commit(s, depth, txs, feeReceiver).ledger
    requires forall p :: p in provider ==> ST.Fits(provider[p])
    ensures txs != [] && forall i :: 0 <= i < |txs| ==> CanMigrate(provider, depth, txs[i])
  {
    hide Receive, Apply, LedgerRun, CompressedAll, Encodable;
    var tokenID := s[txs[0].fromIndex].tokenID;
    CommitOnLedger(MassMigrations, s, depth, txs, feeReceiver);
    var p := LedgerRun(MassMigrations, s, depth, txs, |txs|, tokenID);
    RunFrame(MassMigrations, s, depth, txs, |txs|, tokenID);
    ReceiveFrame(p.ledger, feeReceiver, tokenID, p.totals.fees);
    SendersExist(s, depth, txs, |txs|, tokenID);
    EncodersAgree(txs);
    forall i | 0 <= i < |txs|
      ensures CanMigrate(provider, depth, txs[i])
    {
      assert Compressible(txs[i]) && ST.InTree(txs[i], depth);
      EncodableFits(txs[i].amount);
      assert txs[i].fromIndex in s && txs[i].fromIndex in provider;
    }
  }

  /** Completeness for mass migrations of up to 32 transactions: the body built from the ledger before or after the
      commitment passes the amount and withdraw-root checks. */
  lemma MassMigrationAcceptedOnChain(s: Ledger, provider: Ledger, depth: nat, txs: seq<Tx>, feeReceiver: nat,
                                     maxTxSize: nat, body: MassMigrationBody)
    requires AllOf(MassMigrations, txs) && |txs| <= maxTxSize && |txs| <= 32
    requires ST.AllInTree(txs, depth) && CompressedAll(txs).Some?
    requires InDepth(s, depth) && ST.Commit(s, depth, txs, feeReceiver).Accepts?
    requires provider == s || provider == ST.Commit(s, depth, txs, feeReceiver).ledger
    requires body == MassMigrationBody(Merklized(LeavesOf(Destinations(provider, txs))),
                                       Destination(provider, txs[0]).tokenID, SumAmounts(txs, |txs|), feeReceiver,
                                       CompressedAll(txs).value)
    ensures ProcessMassMigration(StateRoot(s, depth), maxTxSize, body,
                                 CommitProofs(MassMigrations, s, depth, txs, body.tokenID, feeReceiver))
         == Chain.Return(StateRoot(ST.Commit(s, depth, txs, feeReceiver).ledger, depth), Chain.Ok)
  {
    hide *;
    MassMigrationOnLedger(s, provider, depth, txs, feeReceiver, maxTxSize, body);
    MassMigrationComplete(s, depth, maxTxSize, body);
    MassMigrationSeen(s, depth, txs, feeReceiver, maxTxSize, body);
  }

  lemma MassMigrationSeen(s: Ledger, depth: nat, txs: seq<Tx>, feeReceiver: nat, maxTxSize: nat,
                          body: MassMigrationBody)
    requires ST.Commit(s, depth, txs, feeReceiver).Accepts?
    requires LedgerMassMigration(s, depth, maxTxSize, body) == ST.Commit(s, depth, txs, feeReceiver)
    ensures Seen(LedgerMassMigration(s, depth, maxTxSize, body), depth)
         == Chain.Return(StateRoot(ST.Commit(s, depth, txs, feeReceiver).ledger, depth), Chain.Ok)
  {
    hide LedgerMassMigration, ST.Commit;
  }

  lemma MassMigrationOnLedger(s: Ledger, provider: Ledger, depth: nat, txs: seq<Tx>, feeReceiver: nat,
                              maxTxSize: nat, body: MassMigrationBody)
    requires AllOf(MassMigrations, txs) && |txs| <= maxTxSize && |txs| <= 32
    requires ST.AllInTree(txs, depth) && CompressedAll(txs).Some?
    requires InDepth(s, depth) && ST.Commit(s, depth, txs, feeReceiver).Accepts?
    requires provider == s || provider == ST.Commit(s, depth, txs, feeReceiver).ledger
    requires body == MassMigrationBody(Merklized(LeavesOf(Destinations(provider, txs))),
                                       Destination(provider, txs[0]).tokenID, SumAmounts(txs, |txs|), feeReceiver,
                                       CompressedAll(txs).value)
    ensures DecodeAll(MassMigrations, body.txs) == txs
    ensures body.tokenID == s[txs[0].fromIndex].tokenID
    ensures LedgerMassMigration(s, depth, maxTxSize, body) == ST.Commit(s, depth, txs, feeReceiver)
  {
    hide Receive, Compressible, Merklized, Decode, DecodeAll, Apply, ApplyAll, LedgerRun, ST.Commit, ST.AllInTree,
      CompressedAll, Destinations;
    CommitHasFirst(s, depth, txs, feeReceiver);
    EncodersAgree(txs);
    RoundTrip(MassMigrations, txs);
    var tokenID := s[txs[0].fromIndex].tokenID;
    CommitOnLedger(MassMigrations, s, depth, txs, feeReceiver);
    var p := LedgerRun(MassMigrations, s, depth, txs, |txs|, tokenID);
    RunFrame(MassMigrations, s, depth, txs, |txs|, tokenID);
    ReceiveFrame(p.ledger, feeReceiver, tokenID, p.totals.fees);
    SumsBound(body.txs, |txs|);
    RunFees(MassMigrations, s, depth, txs, |txs|, tokenID);
    WithdrawnMatch(s, provider, depth, txs, tokenID);
  }

  lemma CommitHasFirst(s: Ledger, depth: nat, txs: seq<Tx>, feeReceiver: nat)
    requires ST.Commit(s, depth, txs, feeReceiver).Accepts?
    ensures txs != [] && txs[0].fromIndex in s
  {
  }

  /** The leaves the chain collects are those of the client's migration tree. */
  lemma WithdrawnMatch(s: Ledger, provider: Ledger, depth: nat, txs: seq<Tx>, tokenID: nat)
    requires AllOf(MassMigrations, txs) && ST.AllInTree(txs, depth) && SameAccounts(s, provider)
    requires LedgerRun(MassMigrations, s, depth, txs, |txs|, tokenID).LRunning?
    ensures LedgerRun(MassMigrations, s, depth, txs, |txs|, tokenID).totals.withdrawn
         == LeavesOf(Destinations(provider, txs))
  {
    hide LedgerRun;
    RunWithdraws(s, depth, txs, |txs|, tokenID);
    SendersExist(s, depth, txs, |txs|, tokenID);
  }

  lemma ReceiveFrame(s: Ledger, p: nat, tokenID: nat, amount: nat)
    requires Receive(s, p, tokenID, amount).Accepts?
    ensures SameAccounts(s, Receive(s, p, tokenID, amount).ledger)
  {
  }

  lemma {:induction false} SendersExist(s: Ledger, depth: nat, txs: seq<Tx>, n: nat, tokenID: nat)
    requires AllOf(MassMigrations, txs) && ST.AllInTree(txs, depth) && n <= |txs|
    requires LedgerRun(MassMigrations, s, depth, txs, n, tokenID).LRunning?
    ensures forall i :: 0 <= i < n ==>
              && Low(txs[i].fromIndex, depth) == txs[i].fromIndex && txs[i].fromIndex in s
              && s[txs[i].fromIndex].tokenID == tokenID
  {
    if n > 0 {
      SendersExist(s, depth, txs, n - 1, tokenID);
      RunFrame(MassMigrations, s, depth, txs, n - 1, tokenID);
      RunKeepsPositions(s, depth, txs, n - 1, tokenID);
      assert ST.InTree(txs[n - 1], depth);
      ShrZero(txs[n - 1].fromIndex, depth);
    }
  }
}
