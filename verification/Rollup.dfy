/** contracts/rollup/Rollup.sol, with the BatchManager it inherits from: the contract's storage and the calls that
    change it.  A call that returns None reverts, and its effects are discarded with it. */
module Rollups {
  import opened Words
  import opened Merkle
  import opened MerkleTree
  import opened Types
  import opened TxCodec
  import opened Transition
  import C = Commits
  import opened Deposits
  import opened Batches
  import A = Authenticity
  import opened TxMessages

  /** A commitment with its place in a batch. */
  datatype Inclusion = Inclusion(stateRoot: Hash, bodyRoot: Hash, path: nat, siblings: seq<Hash>)

  /** The body of a transfer or create2transfer commitment, or of a mass migration. */
  datatype Body =
    | TransferBody(accountRoot: Hash, signature: A.Signature, feeReceiver: nat, data: Bytes)
    | MigrationBody(accountRoot: Hash, signature: A.Signature, spokeID: nat, migration: C.MassMigrationBody)
  {
    predicate Fits(kind: Kind) { MigrationBody? == kind.MassMigrations? }

    /** Its numbers are 256-bit words. */
    predicate Sized() {
      && signature.0 < TWO_256 && signature.1 < TWO_256
      && match this
         case TransferBody(_, _, feeReceiver, _) => feeReceiver < TWO_256
         case MigrationBody(_, _, spokeID, m) =>
           spokeID < TWO_256 && m.tokenID < TWO_256 && m.amount < TWO_256 && m.feeReceiver < TWO_256
    }

    function Txs(): Bytes { if TransferBody? then data else migration.txs }

    function Spoke(): nat { if TransferBody? then 0 else spokeID }

    function FeesTo(): nat { if TransferBody? then feeReceiver else migration.feeReceiver }
  }

  /** The body executed on the previous state with the given proofs. */
  function Executed(kind: Kind, previousRoot: Hash, maxTxSize: nat, body: Body,
                    proofs: seq<StateProof>): Outcome<Hash> {
    match body
    case TransferBody(_, _, feeReceiver, data) => C.ProcessCommit(kind, previousRoot, maxTxSize, feeReceiver, data,
                                                                  proofs)
    case MigrationBody(_, _, _, migration) => C.ProcessMassMigration(previousRoot, maxTxSize, migration, proofs)
  }

  /** Execution fails, or ends at another root than the claimed. */
  predicate Fraud(kind: Kind, previousRoot: Hash, claimedRoot: Hash, maxTxSize: nat, body: Body,
                  proofs: seq<StateProof>) {
    var o := Executed(kind, previousRoot, maxTxSize, body, proofs);
    o.Return? && (o.result != Ok || o.value != claimedRoot)
  }

  /** The hashes of the first `n` bodies, each built on the registry's account root. */
  function BodyRoots(accountRoot: Hash, bodies: seq<Body>, hashBody: Body -> Hash, n: nat): (r: seq<Hash>)
    requires n <= |bodies|
    ensures |r| == n
  {
    seq(n, i requires 0 <= i < n => hashBody(bodies[i].(accountRoot := accountRoot)))
  }

  predicate Included(root: Hash, i: Inclusion) {
    Verify(root, Pair(i.stateRoot, i.bodyRoot), i.path, i.siblings)
  }

  /** The last commitment of a batch; a batch of size 0 has the path 2^256 - 1. */
  function LastPath(size: nat): nat {
    if size == 0 then TWO_256 - 1 else size - 1
  }

  /** `checkPreviousCommitment`: the commitment just before the target, in its batch or at the end of the one before. */
  predicate PreviousOk(s: State, batchID: nat, previous: Inclusion, targetPath: nat) {
    if targetPath == 0 then
      batchID > 0 && previous.path == LastPath(BatchAt(s, batchID - 1).size)
      && Included(BatchAt(s, batchID - 1).commitmentRoot, previous)
    else
      previous.path == targetPath - 1 && Included(BatchAt(s, batchID).commitmentRoot, previous)
  }

  class Rollup {
    const params: Params
    const subtreeDepth: nat
    const maxTxsPerCommit: nat
    const depositManager: DepositCore
    var batches: map<nat, Batch>
    var nextBatchID: nat
    var deposits: map<nat, Hash>
    var withdrawalBitmap: Bitmap
    var invalidBatchMarker: nat
    var balance: nat

    ghost function Abs(): State
      reads this, depositManager
    {
      State(batches, nextBatchID, deposits, withdrawalBitmap, invalidBatchMarker,
            depositManager.enqueued, depositManager.front, balance)
    }

    ghost predicate Valid()
      reads this, depositManager
    {
      && depositManager.QueueValid() && invalidBatchMarker <= nextBatchID
      && forall id :: id in batches ==> id < nextBatchID
    }

    /** Same effect as `merklize` of the one genesis commitment. */
    constructor (params: Params, subtreeDepth: nat, maxTxsPerCommit: nat, depositManager: DepositCore,
                 genesisStateRoot: Hash, sender: nat, block: nat)
      requires depositManager.QueueValid() && depositManager.enqueued == [] && depositManager.front == 1
      ensures Valid() && this.depositManager == depositManager && this.params == params
      ensures Abs() == Genesis(Merklized([Pair(genesisStateRoot, Empty)]), sender, block)
    {
      this.params, this.subtreeDepth, this.maxTxsPerCommit := params, subtreeDepth, maxTxsPerCommit;
      this.depositManager := depositManager;
      var root := Pair(Pair(genesisStateRoot, Empty), Empty);
      batches := map[0 := Batch(root, GenesisBatch, 1, sender, block % 0x1_0000_0000)];
      nextBatchID := 1;
      deposits, withdrawalBitmap, invalidBatchMarker, balance := map[], map[], 0, 0;
      SingleCommitment(Pair(genesisStateRoot, Empty));
    }

    // ---------------------------------------------------------------------------------------------- rollback

    /** Deletes as many batches as the gas allows; two thirds of their stake go to the caller, the rest is burnt. */
    method Rollback(gas: nat) returns (r: Option<(nat, nat)>)
      requires Valid()
      modifies this, depositManager
      ensures r.Some? == RolledBack(params, old(Abs()), gas).Some?
      ensures r.Some? ==>
                && Valid() && Abs() == RolledBack(params, old(Abs()), gas).value
                && r.value.0 + r.value.1 == old(balance) - balance
                && r.value.0 == (old(nextBatchID) - nextBatchID) * params.stake * 2 / 3
    {
      hide DeleteN;
      var nExpect := nextBatchID - invalidBatchMarker;
      var nActual: nat := 0;
      var startID := nextBatchID - 1;
      ghost var s := Abs();
      DeleteNone(s);
      while nActual < nExpect && nActual < gas
        invariant 0 <= nActual <= nExpect && nActual <= gas && depositManager.QueueValid()
        invariant depositManager.front == old(depositManager.front)
        invariant nextBatchID == s.next && invalidBatchMarker == s.marker
        invariant Abs().(next := s.next - nActual) == DeleteN(s, nActual)
      {
        var batchID := startID - nActual;
        DeleteOneMore(s, nActual);
        batches := batches - {batchID};
        var root := if batchID in deposits then deposits[batchID] else Word(0);
        if root != Word(0) {
          var _ := depositManager.Enqueue(root);
        }
        nActual := nActual + 1;
      }
      nextBatchID := nextBatchID - nActual;
      assert nActual == old(nextBatchID) - nextBatchID;
      DeleteKeepsRest(s, nActual);
      var completed := nActual == nExpect;
      if completed {
        invalidBatchMarker := 0;
      }
      var slashedAmount: nat := nActual * params.stake;
      var reward := slashedAmount * 2 / 3;
      var burn := slashedAmount - reward;
      if balance < slashedAmount {
        return None;
      }
      balance := balance - slashedAmount;
      return Some((reward, burn));
    }

    method StartRollingBack(invalidBatchID: nat, gas: nat) returns (r: Option<(nat, nat)>)
      requires Valid() && invalidBatchID <= nextBatchID
      modifies this, depositManager
      ensures r.Some? == RolledBack(params, old(Abs()).(marker := invalidBatchID), gas).Some?
      ensures r.Some? ==> Valid() && Abs() == RolledBack(params, old(Abs()).(marker := invalidBatchID), gas).value
    {
      invalidBatchMarker := invalidBatchID;
      assert Abs() == old(Abs()).(marker := invalidBatchID);
      r := Rollback(gas);
    }

    method KeepRollingBack(gas: nat) returns (r: Option<(nat, nat)>)
      requires Valid()
      modifies this, depositManager
      ensures r.Some? <==> old(invalidBatchMarker) > 0 && RolledBack(params, old(Abs()), gas).Some?
      ensures r.Some? ==> Valid() && Abs() == Step(params, old(Abs()), Op.KeepRollingBack(gas), 0)
    {
      if invalidBatchMarker == 0 {
        return None;
      }
      r := Rollback(gas);
    }

    // ---------------------------------------------------------------------------------------------- submission

    method SubmitBatch(commitmentRoot: Hash, size: nat, usage: Usage, sender: nat, value: nat, block: nat)
      returns (ok: bool)
      requires Valid() && invalidBatchMarker == 0
      modifies `batches, `nextBatchID, `balance
      ensures Valid()
      ensures ok == Submitted(params, old(Abs()), block, commitmentRoot, usage, size, sender, value).Some?
      ensures Abs() == if ok then Submitted(params, old(Abs()), block, commitmentRoot, usage, size, sender, value).value
                       else old(Abs())
    {
      if value < params.stake {
        return false;
      }
      batches := batches[nextBatchID := NewBatch(params, commitmentRoot, usage, size, sender, block)];
      nextBatchID := nextBatchID + 1;
      balance := balance + value;
      return true;
    }

    /** `submitTransfer`, `submitCreate2Transfer` and `submitMassMigration`: a batch of commitments, each the hash of a
        state root and a body root.  `merklize` reverts above 32 of them and runs out of gas on none; too few bodies for
        the state roots are an index out of bounds. */
    method SubmitCommitments(usage: Usage, batchID: nat, stateRoots: seq<Hash>, accountRoot: Hash, bodies: seq<Body>,
                             hashBody: Body -> Hash, sender: nat, value: nat, block: nat) returns (ok: bool)
      requires Valid()
      modifies `batches, `nextBatchID, `balance
      ensures Valid()
      ensures ok <==> old(invalidBatchMarker) == 0 && batchID == old(nextBatchID) && 0 < |stateRoots| <= 32
                      && |stateRoots| <= |bodies| && value >= params.stake
      ensures ok ==> Some(Abs()) == Submitted(params, old(Abs()), block,
                                              Merklized(Commitments(stateRoots, BodyRoots(accountRoot, bodies, hashBody,
                                                                                          |stateRoots|))),
                                              usage, |stateRoots|, sender, value)
      ensures !ok ==> Abs() == old(Abs())
    {
      var n := |stateRoots|;
      if invalidBatchMarker != 0 || batchID != nextBatchID || n == 0 {
        return false;
      }
      var leaves := new Hash[n](_ => Word(0));
      for i := 0 to n
        modifies leaves
        invariant i <= |bodies|
        invariant leaves[..i] == Commitments(stateRoots[..i], BodyRoots(accountRoot, bodies, hashBody, i))
      {
        if i >= |bodies| {
          return false;
        }
        leaves[i] := Pair(stateRoots[i], hashBody(bodies[i].(accountRoot := accountRoot)));
        assert stateRoots[..i + 1][..i] == stateRoots[..i];
      }
      assert stateRoots[..n] == stateRoots;
      assert leaves[..] == leaves[..n];
      var root := Merklize(leaves);
      if root.None? {
        return false;
      }
      ok := SubmitBatch(root.value, n, usage, sender, value, block);
    }

    /** Inserts the next deposit subtree at a vacant place of the state that is shown as the last committed one; the
        length of its witness is not checked.  On success the new batch holds one commitment, whose state root climbs
        from the deposit root along the vacancy witness. */
    method SubmitDeposits(batchID: nat, previous: Inclusion, pathAtDepth: nat, siblings: seq<Hash>, sender: nat,
                          value: nat, block: nat) returns (newRoot: Option<Hash>)
      requires Valid()
      modifies this, depositManager`queue, depositManager`front
      ensures newRoot.Some? <==>
                && old(invalidBatchMarker) == 0 && batchID == old(nextBatchID) > 0 && value >= params.stake
                && previous.path == LastPath(BatchAt(old(Abs()), batchID - 1).size)
                && Included(BatchAt(old(Abs()), batchID - 1).commitmentRoot, previous)
                && Climb(Zero(subtreeDepth), pathAtDepth, siblings) == previous.stateRoot
                && old(depositManager.front) <= |old(depositManager.enqueued)|
      ensures newRoot.Some? ==>
                && Valid()
                && newRoot.value == Climb(old(Abs()).queued[old(Abs()).front - 1], pathAtDepth, siblings)
                && Some(Abs()) == DepositsSubmitted(params, old(Abs()), block,
                                                    Merklized([Pair(newRoot.value, Empty)]), sender, value)
    {
      if invalidBatchMarker != 0 || batchID != nextBatchID || batchID == 0 {
        return None;
      }
      var pre := if batchID - 1 in batches then batches[batchID - 1] else Batch(Word(0), GenesisBatch, 0, 0, 0);
      if previous.path != LastPath(pre.size) || !Included(pre.commitmentRoot, previous)
         || !Verify(previous.stateRoot, Zero(subtreeDepth), pathAtDepth, siblings) {
        return None;
      }
      var dequeued := depositManager.Dequeue();
      if dequeued.None? {
        return None;
      }
      deposits := deposits[batchID := dequeued.value.1];
      var root := ComputeRoot(dequeued.value.1, pathAtDepth, siblings);
      SingleCommitment(Pair(root, Empty));
      var ok := SubmitBatch(Pair(Pair(root, Empty), Empty), 1, DepositBatch, sender, value, block);
      if !ok {
        return None;
      }
      return Some(root);
    }

    method WithdrawStake(batchID: nat, sender: nat, block: nat) returns (ok: bool)
      requires Valid()
      modifies `withdrawalBitmap, `balance
      ensures Valid()
      ensures ok == StakeWithdrawn(params, old(Abs()), batchID, sender, block).Some?
      ensures Abs() == if ok then StakeWithdrawn(params, old(Abs()), batchID, sender, block).value else old(Abs())
    {
      var batch := if batchID in batches then batches[batchID] else Batch(Word(0), GenesisBatch, 0, 0, 0);
      if sender != batch.committer || block <= batch.finaliseOn || IsClaimed(batchID, withdrawalBitmap) {
        return false;
      }
      if balance < params.stake {
        return false;
      }
      withdrawalBitmap := SetClaimed(batchID, withdrawalBitmap);
      balance := balance - params.stake;
      return true;
    }

    // ---------------------------------------------------------------------------------------------- disputes

    /** `isDisputable`. */
    predicate CanDispute(batchID: nat, block: nat)
      reads this
    {
      && block < (if batchID in batches then batches[batchID].finaliseOn else 0)
      && (batchID < invalidBatchMarker || invalidBatchMarker == 0)
    }

    /** `disputeTransitionTransfer`, `disputeTransitionCreate2Transfer` and `disputeTransitionMassMigration`.  The hash
        of a body is a parameter.  A batch beyond the last cannot be disputed, since it has no finalisation block. */
    method DisputeTransition(kind: Kind, batchID: nat, previous: Inclusion, targetStateRoot: Hash, body: Body,
                             path: nat, siblings: seq<Hash>, hashBody: Body -> Hash, proofs: seq<StateProof>,
                             block: nat, gas: nat)
      returns (rolledBack: Option<bool>)
      requires Valid() && body.Fits(kind)
      modifies this, depositManager
      ensures var o := Executed(kind, previous.stateRoot, maxTxsPerCommit, body, proofs);
              var fraud := Fraud(kind, previous.stateRoot, targetStateRoot, maxTxsPerCommit, body, proofs);
              var sound := Disputable(old(Abs()), batchID, block) && PreviousOk(old(Abs()), batchID, previous, path)
                           && Included(BatchAt(old(Abs()), batchID).commitmentRoot,
                                       Inclusion(targetStateRoot, hashBody(body), path, siblings));
              && (rolledBack.Some? <==>
                    sound && o.Return? && (fraud ==> Disputed(params, old(Abs()), batchID, block, gas).Some?))
              && (rolledBack.Some? ==>
                    && rolledBack.value == fraud && Valid()
                    && Abs() == if fraud then Step(params, old(Abs()), Dispute(batchID, gas), block) else old(Abs()))
    {
      hide C.ProcessCommit, C.ProcessMassMigration, Included, PreviousOk, RolledBack;
      if !CanDispute(batchID, block) || !CheckPrevious(batchID, previous, path) {
        return None;
      }
      if !Included(batches[batchID].commitmentRoot, Inclusion(targetStateRoot, hashBody(body), path, siblings)) {
        return None;
      }
      var o := Execute(kind, previous.stateRoot, body, proofs);
      if o.Revert? {
        return None;
      }
      if o.result != Ok || o.value != targetStateRoot {
        var r := StartRollingBack(batchID, gas);
        return if r.Some? then Some(true) else None;
      }
      return Some(false);
    }

    method Execute(kind: Kind, previousRoot: Hash, body: Body, proofs: seq<StateProof>) returns (o: Outcome<Hash>)
      requires body.Fits(kind)
      ensures o == Executed(kind, previousRoot, maxTxsPerCommit, body, proofs)
    {
      hide C.ProcessCommit, C.ProcessMassMigration;
      match kind {
        case Transfers =>
          o := C.ProcessTransferCommit(previousRoot, maxTxsPerCommit, body.feeReceiver, body.data, proofs);
        case Create2Transfers =>
          o := C.ProcessCreate2TransferCommit(previousRoot, maxTxsPerCommit, body.feeReceiver, body.data, proofs);
        case MassMigrations =>
          o := C.ProcessMassMigrationCommit(previousRoot, maxTxsPerCommit, body.migration, proofs);
      }
    }

    predicate CheckPrevious(batchID: nat, previous: Inclusion, targetPath: nat)
      reads this, depositManager
      ensures CheckPrevious(batchID, previous, targetPath) == PreviousOk(Abs(), batchID, previous, targetPath)
    {
      var expected := if targetPath == 0 && batchID > 0 then batchID - 1 else batchID;
      var batch := if expected in batches then batches[expected] else Batch(Word(0), GenesisBatch, 0, 0, 0);
      && (targetPath == 0 ==> batchID > 0)
      && previous.path == (if targetPath == 0 then LastPath(batch.size) else targetPath - 1)
      && Included(batch.commitmentRoot, previous)
    }

    /** `disputeSignatureTransfer` and its counterparts for the other two kinds: rolls back exactly when the rebuilt
        messages do not carry the signature. */
    method DisputeSignature(kind: Kind, batchID: nat, targetStateRoot: Hash, body: Body, path: nat,
                            siblings: seq<Hash>, hashBody: Body -> Hash, proof: A.SignatureProof, word: Hash -> Bytes,
                            verifyMultiple: (A.Signature, seq<nat>, seq<Bytes>) -> A.Check, block: nat, gas: nat)
      returns (rolledBack: Option<bool>)
      requires Valid() && body.Fits(kind)
      modifies this, depositManager
      ensures var messages := A.Messages(targetStateRoot, body.accountRoot, DecodeAll(kind, body.Txs()), proof,
                                         body.Spoke());
              var sound := Disputable(old(Abs()), batchID, block)
                           && Included(BatchAt(old(Abs()), batchID).commitmentRoot,
                                       Inclusion(targetStateRoot, hashBody(body), path, siblings));
              var checked := messages.Some? && messages.value != [] && |proof.pubkeys| == |messages.value|;
              var bad := checked
                         && verifyMultiple(body.signature, proof.pubkeys, EncodedAll(word, messages.value)) != A.Valid;
              && (rolledBack.Some? <==>
                    sound && checked && (bad ==> Disputed(params, old(Abs()), batchID, block, gas).Some?))
              && (rolledBack.Some? ==>
                    && rolledBack.value == bad && Valid()
                    && Abs() == if bad then Step(params, old(Abs()), Dispute(batchID, gas), block) else old(Abs()))
    {
      hide A.Messages, DecodeAll, EncodedAll, Included, RolledBack;
      if !CanDispute(batchID, block)
         || !Included(batches[batchID].commitmentRoot, Inclusion(targetStateRoot, hashBody(body), path, siblings)) {
        return None;
      }
      var o := A.VerifySignatures(kind, targetStateRoot, body.accountRoot, body.signature, body.Txs(), proof,
                                  body.Spoke(), word, verifyMultiple);
      if o.Revert? {
        return None;
      }
      if o.result != Ok {
        var r := StartRollingBack(batchID, gas);
        return if r.Some? then Some(true) else None;
      }
      return Some(false);
    }
  }

  lemma DeleteNone(s: State)
    ensures DeleteN(s, 0) == s
  {
  }

  lemma DeleteOneMore(s: State, n: nat)
    requires n < s.next
    ensures DeleteN(s, n + 1) == DeleteTop(DeleteN(s, n)) && DeleteN(s, n).deposits == s.deposits
  {
    DeleteKeepsRest(s, n);
  }

  function Commitments(stateRoots: seq<Hash>, bodyRoots: seq<Hash>): seq<Hash>
    requires |stateRoots| == |bodyRoots|
  {
    seq(|stateRoots|, i requires 0 <= i < |stateRoots| => Pair(stateRoots[i], bodyRoots[i]))
  }

  /** The commitment before the very first one is the genesis commitment, at path 0: execution of batch 1 starts from
      the genesis state. */
  lemma StartsFromGenesis(genesisStateRoot: Hash, committer: nat, block: nat)
    ensures PreviousOk(Genesis(Merklized([Pair(genesisStateRoot, Empty)]), committer, block), 1,
                       Inclusion(genesisStateRoot, Empty, 0, [Empty]), 0)
  {
    var leaf := Pair(genesisStateRoot, Empty);
    SingleCommitment(leaf);
    assert Climb(Pair(leaf, Empty), 0, []) == Pair(leaf, Empty);
  }

  /** `merklize` of one leaf pairs it with an empty leaf. */
  lemma SingleCommitment(leaf: Hash)
    ensures Merklized([leaf]) == Pair(leaf, Empty)
  {
    var m := Padded([leaf]);
    assert Node(m, 1, 0) == Pair(Node(m, 0, 0), Node(m, 0, 1));
  }
}
