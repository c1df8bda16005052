/** contracts/Transfer.sol, Create2Transfer.sol and MassMigrations.sol: a commitment re-executed from its state root and
    a list of proofs, against the same commitment applied to the ledger. */
module Commits {
  import opened Words
  import opened Merkle
  import opened MerkleTree
  import opened TxCodec
  import opened Transition
  import opened Ledger

  datatype MassMigrationBody = MassMigrationBody(withdrawRoot: Hash, tokenID: nat, amount: nat, feeReceiver: nat,
                                                 txs: Bytes)

  /** Where a loop over transactions stands: the root, or the ledger, reached and the totals so far. */
  datatype Totals = Totals(fees: nat, amount: nat, withdrawn: seq<Hash>)
  datatype Progress = Reverted | Stopped(root: Hash, code: Result) | Running(root: Hash, totals: Totals)
  datatype LedgerProgress = LReverted | LStopped(root: Hash, code: Result) | LRunning(ledger: Ledger, totals: Totals)

  const NO_TOTALS := Totals(0, 0, [])

  /** Proofs used up by one transaction. */
  function Stride(kind: Kind): nat {
    if kind.MassMigrations? then 1 else 2
  }

  /** Transfers add fees with SafeMath; mass migrations add amounts and fees unchecked, and collect the leaf of each
      withdrawn state. */
  function AddTotals(kind: Kind, a: Totals, t: Tx, tokenID: nat, pubkeyID: nat): Option<Totals> {
    if kind.MassMigrations? then
      Some(Totals((a.fees + t.fee) % TWO_256, (a.amount + t.amount) % TWO_256,
                  a.withdrawn + [Leaf(CreateState(pubkeyID, tokenID, t.amount))]))
    else if a.fees + t.fee >= TWO_256 then None
    else Some(a.(fees := a.fees + t.fee))
  }

  /** One iteration of the loop on the chain. */
  function Step(kind: Kind, p: Progress, t: Tx, i: nat, tokenID: nat, proofs: seq<StateProof>): Progress {
    if !p.Running? then p
    else if Stride(kind) * (i + 1) > |proofs| then Reverted
    else
      var from, to := proofs[Stride(kind) * i], proofs[Stride(kind) * (i + 1) - 1];
      match ProcessTx(p.root, t, tokenID, from, to)
      case Revert => Reverted
      case Return(root, Ok) =>
        (match AddTotals(kind, p.totals, t, tokenID, from.state.pubkeyID)
         case None => Reverted
         case Some(totals) => Running(root, totals))
      case Return(root, code) => Stopped(root, code)
  }

  function Run(kind: Kind, root: Hash, txs: seq<Tx>, n: nat, tokenID: nat, proofs: seq<StateProof>): Progress
    requires n <= |txs|
  {
    if n == 0 then Running(root, NO_TOTALS)
    else Step(kind, Run(kind, root, txs, n - 1, tokenID, proofs), txs[n - 1], n - 1, tokenID, proofs)
  }

  /** The same iteration on the ledger. */
  function LedgerStep(kind: Kind, p: LedgerProgress, depth: nat, t: Tx, tokenID: nat): LedgerProgress {
    if !p.LRunning? then p else
      match Apply(p.ledger, depth, t, tokenID)
      case Reverts => LReverted
      case Fails(root, code) => LStopped(root, code)
      case Accepts(ledger) =>
        match AddTotals(kind, p.totals, t, tokenID, p.ledger[Low(t.fromIndex, depth)].pubkeyID)
        case None => LReverted
        case Some(totals) => LRunning(ledger, totals)
  }

  function LedgerRun(kind: Kind, s: Ledger, depth: nat, txs: seq<Tx>, n: nat, tokenID: nat): LedgerProgress
    requires n <= |txs|
  {
    if n == 0 then LRunning(s, NO_TOTALS)
    else LedgerStep(kind, LedgerRun(kind, s, depth, txs, n - 1, tokenID), depth, txs[n - 1], tokenID)
  }

  function SeenProgress(p: LedgerProgress, depth: nat): Progress {
    match p
    case LReverted => Reverted
    case LStopped(root, code) => Stopped(root, code)
    case LRunning(ledger, totals) => Running(StateRoot(ledger, depth), totals)
  }

  // ------------------------------------------------------------------------------------------------ whole commitments

  function ProcessCommit(kind: Kind, stateRoot: Hash, maxTxSize: nat, feeReceiver: nat, data: Bytes,
                         proofs: seq<StateProof>): Outcome<Hash>
  {
    var size := Size(kind, data);
    if HasExcessData(kind, data) then Return(stateRoot, BadCompression)
    else if size > maxTxSize then Return(stateRoot, TooManyTx)
    else if proofs == [] then Revert
    else
      var tokenID := proofs[0].state.tokenID;
      match Run(kind, stateRoot, DecodeAll(kind, data), size, tokenID, proofs)
      case Reverted => Revert
      case Stopped(root, code) => Return(root, code)
      case Running(root, totals) =>
        if Stride(kind) * size >= |proofs| then Revert
        else ProcessReceiver(root, feeReceiver, tokenID, totals.fees, proofs[Stride(kind) * size])
  }

  function ProcessMassMigration(stateRoot: Hash, maxTxSize: nat, body: MassMigrationBody, proofs: seq<StateProof>)
    : Outcome<Hash>
  {
    var size := Size(MassMigrations, body.txs);
    if HasExcessData(MassMigrations, body.txs) then Return(stateRoot, BadCompression)
    else if size > maxTxSize then Return(stateRoot, TooManyTx)
    else
      match Run(MassMigrations, stateRoot, DecodeAll(MassMigrations, body.txs), size, body.tokenID, proofs)
      case Reverted => Revert
      case Stopped(root, code) => Return(root, code)
      case Running(root, totals) =>
        if size >= |proofs| then Revert else
          var o := ProcessReceiver(root, body.feeReceiver, body.tokenID, totals.fees, proofs[size]);
          if o.Revert? || o.result != Ok then o
          else if totals.amount != body.amount then Return(o.value, MismatchedAmount)
          else if size == 0 || size > 32 then Revert
          else if Merklized(totals.withdrawn) != body.withdrawRoot then Return(o.value, BadWithdrawRoot)
          else o
  }

  /** The token of a commitment is that of the first sender, or of the fee receiver when there are no transactions. */
  function CommitToken(s: Ledger, depth: nat, feeReceiver: nat, txs: seq<Tx>): Option<nat> {
    var p := Low(if txs == [] then feeReceiver else txs[0].fromIndex, depth);
    if p in s then Some(s[p].tokenID) else None
  }

  function LedgerCommit(kind: Kind, s: Ledger, depth: nat, maxTxSize: nat, feeReceiver: nat, data: Bytes): Verdict {
    var txs := DecodeAll(kind, data);
    if HasExcessData(kind, data) then Fails(StateRoot(s, depth), BadCompression)
    else if |txs| > maxTxSize then Fails(StateRoot(s, depth), TooManyTx)
    else if CommitToken(s, depth, feeReceiver, txs).None? then Reverts
    else
      var tokenID := CommitToken(s, depth, feeReceiver, txs).value;
      match LedgerRun(kind, s, depth, txs, |txs|, tokenID)
      case LReverted => Reverts
      case LStopped(root, code) => Fails(root, code)
      case LRunning(ledger, totals) => Receive(ledger, Low(feeReceiver, depth), tokenID, totals.fees)
  }

  function LedgerMassMigration(s: Ledger, depth: nat, maxTxSize: nat, body: MassMigrationBody): Verdict {
    var txs := DecodeAll(MassMigrations, body.txs);
    if HasExcessData(MassMigrations, body.txs) then Fails(StateRoot(s, depth), BadCompression)
    else if |txs| > maxTxSize then Fails(StateRoot(s, depth), TooManyTx)
    else
      match LedgerRun(MassMigrations, s, depth, txs, |txs|, body.tokenID)
      case LReverted => Reverts
      case LStopped(root, code) => Fails(root, code)
      case LRunning(ledger, totals) =>
        var v := Receive(ledger, Low(body.feeReceiver, depth), body.tokenID, totals.fees);
        if !v.Accepts? then v
        else if totals.amount != body.amount then Fails(StateRoot(v.ledger, depth), MismatchedAmount)
        else if txs == [] || |txs| > 32 then Reverts
        else if Merklized(totals.withdrawn) != body.withdrawRoot then Fails(StateRoot(v.ledger, depth), BadWithdrawRoot)
        else v
  }

  // ---------------------------------------------------------------------------------------------- the contract's loops

  method ProcessTransferCommit(stateRoot0: Hash, maxTxSize: nat, feeReceiver: nat, txs: Bytes, proofs: seq<StateProof>)
    returns (o: Outcome<Hash>)
    ensures o == ProcessCommit(Transfers, stateRoot0, maxTxSize, feeReceiver, txs, proofs)
  {
    hide Decode, ProcessTx, ProcessReceiver;
    var stateRoot := stateRoot0;
    if HasExcessData(Transfers, txs) { return Return(stateRoot, BadCompression); }
    var size := Size(Transfers, txs);
    if size > maxTxSize { return Return(stateRoot, TooManyTx); }
    if |proofs| == 0 { return Revert; }
    var fees: nat, tokenID := 0, proofs[0].state.tokenID;
    for i := 0 to size
      invariant Run(Transfers, stateRoot0, DecodeAll(Transfers, txs), i, tokenID, proofs)
             == Running(stateRoot, Totals(fees, 0, []))
    {
      StopsForGood(Transfers, stateRoot0, DecodeAll(Transfers, txs), i + 1, size, tokenID, proofs);
      if i * 2 + 1 >= |proofs| { return Revert; }
      var t := Decode(Transfers, txs, i);
      var step := ProcessTx(stateRoot, t, tokenID, proofs[i * 2], proofs[i * 2 + 1]);
      if step.Revert? { return Revert; }
      if step.result != Ok { return step; }
      stateRoot := step.value;
      if fees + t.fee >= TWO_256 { return Revert; }
      fees := fees + t.fee;
    }
    if size * 2 >= |proofs| { return Revert; }
    return ProcessReceiver(stateRoot, feeReceiver, tokenID, fees, proofs[size * 2]);
  }

  method ProcessCreate2TransferCommit(stateRoot0: Hash, maxTxSize: nat, feeReceiver: nat, txs: Bytes,
                                      proofs: seq<StateProof>) returns (o: Outcome<Hash>)
    ensures o == ProcessCommit(Create2Transfers, stateRoot0, maxTxSize, feeReceiver, txs, proofs)
  {
    hide Decode, ProcessTx, ProcessReceiver;
    var stateRoot := stateRoot0;
    if HasExcessData(Create2Transfers, txs) { return Return(stateRoot, BadCompression); }
    var size := Size(Create2Transfers, txs);
    if size > maxTxSize { return Return(stateRoot, TooManyTx); }
    if |proofs| == 0 { return Revert; }
    var fees: nat, tokenID := 0, proofs[0].state.tokenID;
    for i := 0 to size
      invariant Run(Create2Transfers, stateRoot0, DecodeAll(Create2Transfers, txs), i, tokenID, proofs)
             == Running(stateRoot, Totals(fees, 0, []))
    {
      StopsForGood(Create2Transfers, stateRoot0, DecodeAll(Create2Transfers, txs), i + 1, size, tokenID, proofs);
      if i * 2 + 1 >= |proofs| { return Revert; }
      var t := Decode(Create2Transfers, txs, i);
      var step := ProcessTx(stateRoot, t, tokenID, proofs[i * 2], proofs[i * 2 + 1]);
      if step.Revert? { return Revert; }
      if step.result != Ok { return step; }
      stateRoot := step.value;
      if fees + t.fee >= TWO_256 { return Revert; }
      fees := fees + t.fee;
    }
    if size * 2 >= |proofs| { return Revert; }
    return ProcessReceiver(stateRoot, feeReceiver, tokenID, fees, proofs[size * 2]);
  }

  /** The loop of `processMassMigrationCommit`. */
  method MigrateAll(stateRoot0: Hash, txs: Bytes, size: nat, tokenID: nat, proofs: seq<StateProof>)
    returns (p: Progress)
    requires size == Size(MassMigrations, txs)
    ensures p == Run(MassMigrations, stateRoot0, DecodeAll(MassMigrations, txs), size, tokenID, proofs)
  {
    hide Decode, ProcessTx;
    ghost var all := DecodeAll(MassMigrations, txs);
    var stateRoot := stateRoot0;
    var totalAmount: nat, fees: nat := 0, 0;
    var withdrawLeaves := new Hash[size](_ => Word(0));
    for i := 0 to size
      invariant Run(MassMigrations, stateRoot0, all, i, tokenID, proofs)
             == Running(stateRoot, Totals(fees, totalAmount, withdrawLeaves[..i]))
    {
      StopsForGood(MassMigrations, stateRoot0, all, i + 1, size, tokenID, proofs);
      if i >= |proofs| { return Reverted; }
      var t := Decode(MassMigrations, txs, i);
      var step := ProcessTx(stateRoot, t, tokenID, proofs[i], proofs[i]);
      if step.Revert? { return Reverted; }
      if step.result != Ok { return Stopped(step.value, step.result); }
      stateRoot := step.value;
      totalAmount := (totalAmount + t.amount) % TWO_256;
      fees := (fees + t.fee) % TWO_256;
      withdrawLeaves[i] := Leaf(CreateState(proofs[i].state.pubkeyID, tokenID, t.amount));
      assert withdrawLeaves[..i + 1] == withdrawLeaves[..i] + [withdrawLeaves[i]];
    }
    return Running(stateRoot, Totals(fees, totalAmount, withdrawLeaves[..size]));
  }

  /** No leaves at all make `merklize` spin until out of gas, which is a revert too. */
  method ProcessMassMigrationCommit(stateRoot: Hash, maxTxSize: nat, committed: MassMigrationBody,
                                    proofs: seq<StateProof>) returns (o: Outcome<Hash>)
    ensures o == ProcessMassMigration(stateRoot, maxTxSize, committed, proofs)
  {
    hide Run, DecodeAll, ProcessReceiver, Merklized;
    if HasExcessData(MassMigrations, committed.txs) { return Return(stateRoot, BadCompression); }
    var size := Size(MassMigrations, committed.txs);
    if size > maxTxSize { return Return(stateRoot, TooManyTx); }
    var p := MigrateAll(stateRoot, committed.txs, size, committed.tokenID, proofs);
    if p.Reverted? { return Revert; }
    if p.Stopped? { return Return(p.root, p.code); }
    if size >= |proofs| { return Revert; }
    o := ProcessReceiver(p.root, committed.feeReceiver, committed.tokenID, p.totals.fees, proofs[size]);
    if o.Revert? || o.result != Ok { return; }
    if p.totals.amount != committed.amount { return Return(o.value, MismatchedAmount); }
    if size == 0 { return Revert; }
    OneLeafEach(MassMigrations, stateRoot, DecodeAll(MassMigrations, committed.txs), size, committed.tokenID, proofs);
    var leaves := new Hash[size](i requires 0 <= i < size => p.totals.withdrawn[i]);
    assert leaves[..] == p.totals.withdrawn;
    var withdrawRoot := Merklize(leaves);
    if withdrawRoot.None? { return Revert; }
    if withdrawRoot.value != committed.withdrawRoot { return Return(o.value, BadWithdrawRoot); }
  }

  lemma {:induction false} OneLeafEach(kind: Kind, root: Hash, txs: seq<Tx>, n: nat, tokenID: nat,
                                       proofs: seq<StateProof>)
    requires n <= |txs| && Run(kind, root, txs, n, tokenID, proofs).Running?
    ensures |Run(kind, root, txs, n, tokenID, proofs).totals.withdrawn| == if kind.MassMigrations? then n else 0
  {
    hide ProcessTx;
    if n > 0 {
      OneLeafEach(kind, root, txs, n - 1, tokenID, proofs);
    }
  }

  lemma {:induction false} StopsForGood(kind: Kind, root: Hash, txs: seq<Tx>, i: nat, n: nat, tokenID: nat,
                                        proofs: seq<StateProof>)
    requires i <= n <= |txs|
    ensures !Run(kind, root, txs, i, tokenID, proofs).Running? ==>
              Run(kind, root, txs, n, tokenID, proofs) == Run(kind, root, txs, i, tokenID, proofs)
  {
    if i < n {
      StopsForGood(kind, root, txs, i, n - 1, tokenID, proofs);
    }
  }
}
