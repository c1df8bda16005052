/** What disputes are for: some proofs make re-execution from the root of a ledger fail, or end elsewhere than claimed,
    if and only if the ledger says so.  `InclusionReadings` and `WitnessLengths` say which root a dispute starts from,
    `MisreadTargets` what passes for the disputed commitment, `BodyReadings` as what it can be read. */
module FraudProofs {
  import opened Merkle
  import opened MerkleTree
  import opened TxCodec
  import opened Transition
  import opened Ledger
  import opened StatelessExecution
  import opened Rollups
  import opened Batches
  import C = Commits

  /** Batch `id` was submitted with these commitments. */
  ghost predicate Filed(s: State, id: nat, stateRoots: seq<Hash>, bodyRoots: seq<Hash>) {
    && 0 < |stateRoots| <= 32 && |stateRoots| == |bodyRoots|
    && BatchAt(s, id).size == |stateRoots|
    && BatchAt(s, id).commitmentRoot == Merklized(Commitments(stateRoots, bodyRoots))
  }

  /** Every submission of 1 to 32 commitments that is accepted files them under the next ID. */
  lemma SubmittedIsFiled(p: Params, s: State, block: nat, stateRoots: seq<Hash>, bodyRoots: seq<Hash>, usage: Usage,
                         committer: nat, value: nat)
    requires s.marker == 0 && value >= p.stake && 1 <= |stateRoots| <= 32 && |stateRoots| == |bodyRoots|
    ensures var root := Merklized(Commitments(stateRoots, bodyRoots));
            Filed(Step(p, s, Submit(root, usage, |stateRoots|, committer, value), block), s.next, stateRoots, bodyRoots)
  {
    hide Merklized, Commitments;
    SubmitRecords(p, s, block, Merklized(Commitments(stateRoots, bodyRoots)), usage, |stateRoots|, committer, value);
  }

  /** What a disputer hands in against the commitment at a given place. */
  datatype Evidence = Evidence(previous: Inclusion, stateRoot: Hash, body: Body, siblings: seq<Hash>,
                               proofs: seq<StateProof>)

  /** Every check that the contract makes of a dispute passes, and execution contradicts the commitment. */
  ghost predicate Convicts(s: State, id: nat, path: nat, kind: Kind, maxTxSize: nat, hashBody: Body -> Hash,
                           e: Evidence) {
    && e.body.Fits(kind) && e.body.Sized()
    && PreviousOk(s, id, e.previous, path)
    && Included(BatchAt(s, id).commitmentRoot, Inclusion(e.stateRoot, hashBody(e.body), path, e.siblings))
    && Fraud(kind, e.previous.stateRoot, e.stateRoot, maxTxSize, e.body, e.proofs)
  }

  /** The batch that holds the commitment before the one at `path`. */
  function Home(id: nat, path: nat): nat {
    if path == 0 && id > 0 then id - 1 else id
  }

  /** Both witnesses are as long as their batch's tree is deep: the contract does not check it. */
  ghost predicate Measured(s: State, id: nat, path: nat, e: Evidence) {
    && |e.previous.siblings| == MinTreeDepth(BatchAt(s, Home(id, path)).size)
    && |e.siblings| == MinTreeDepth(BatchAt(s, id).size)
  }

  /** What the full ledger makes of a commitment body. */
  function LedgerVerdict(kind: Kind, s: Ledger, depth: nat, maxTxSize: nat, body: Body): Verdict {
    match body
    case TransferBody(_, _, feeReceiver, data) => C.LedgerCommit(kind, s, depth, maxTxSize, feeReceiver, data)
    case MigrationBody(_, _, _, migration) => C.LedgerMassMigration(s, depth, maxTxSize, migration)
  }

  /** The ledger does not revert on the body, and does not reach the claimed root. */
  predicate Contradicts(kind: Kind, s: Ledger, depth: nat, maxTxSize: nat, body: Body, claimed: Hash) {
    var v := LedgerVerdict(kind, s, depth, maxTxSize, body);
    !v.Reverts? && Seen(v, depth) != Return(claimed, Ok)
  }

  lemma FraudIsExact(kind: Kind, s: Ledger, depth: nat, claimed: Hash, maxTxSize: nat, body: Body)
    requires body.Fits(kind)
    ensures (exists proofs :: Fraud(kind, StateRoot(s, depth), claimed, maxTxSize, body, proofs))
              <==> Contradicts(kind, s, depth, maxTxSize, body, claimed)
  {
    hide C.ProcessCommit, C.ProcessMassMigration, C.LedgerCommit, C.LedgerMassMigration, StateRoot, Seen;
    var root := StateRoot(s, depth);
    match body {
      case TransferBody(_, _, feeReceiver, data) =>
        DisputeIsExact(kind, s, depth, claimed, maxTxSize, feeReceiver, data);
        if proofs :| Disputes(kind, root, claimed, maxTxSize, feeReceiver, data, proofs) {
          assert Fraud(kind, root, claimed, maxTxSize, body, proofs);
        }
        if proofs :| Fraud(kind, root, claimed, maxTxSize, body, proofs) {
          assert Disputes(kind, root, claimed, maxTxSize, feeReceiver, data, proofs);
        }
      case MigrationBody(_, _, _, migration) =>
        MassMigrationDisputeIsExact(s, depth, claimed, maxTxSize, migration);
        if proofs :| DisputesMassMigration(root, claimed, maxTxSize, migration, proofs) {
          assert Fraud(kind, root, claimed, maxTxSize, body, proofs);
        }
        if proofs :| Fraud(kind, root, claimed, maxTxSize, body, proofs) {
          assert DisputesMassMigration(root, claimed, maxTxSize, migration, proofs);
        }
    }
  }

  // ------------------------------------------------------------------------------------------------ readings

  /** A body of this kind behind the hash, on which the ledger contradicts the claimed root. */
  ghost predicate WrongAs(kind: Kind, s: Ledger, depth: nat, maxTxSize: nat, hashBody: Body -> Hash, bodyRoot: Hash,
                          claimed: Hash, body: Body)
  {
    && body.Fits(kind) && body.Sized() && hashBody(body) == bodyRoot
    && Contradicts(kind, s, depth, maxTxSize, body, claimed)
  }

  /** Some body of the kind has the hash, and the ledger contradicts the claimed root on it. */
  ghost predicate WrongReading(kind: Kind, s: Ledger, depth: nat, maxTxSize: nat, hashBody: Body -> Hash,
                               bodyRoot: Hash, claimed: Hash)
  {
    exists body :: WrongAs(kind, s, depth, maxTxSize, hashBody, bodyRoot, claimed, body)
  }
}
