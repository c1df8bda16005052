/** What accepted commitments keep: the total of every token, accounts that are not mentioned, and account
    identities. */
module Conservation {
  import opened Words
  import opened Merkle
  import opened MerkleTree
  import opened Decimal
  import opened TxCodec
  import opened Transition
  import opened Ledger
  import opened Commits
  import opened StatelessExecution

  function Held(s: Ledger, position: nat, token: nat): nat {
    if position in s && s[position].tokenID == token then s[position].balance else 0
  }

  /** Total of a token over the positions below `n`. */
  function Total(s: Ledger, token: nat, n: nat): nat {
    if n == 0 then 0 else Total(s, token, n - 1) + Held(s, n - 1, token)
  }

  /** Balances of a list of state leaves. */
  function LeafBalances(leaves: seq<Hash>): nat {
    if leaves == [] then 0 else
      var n := |leaves| - 1;
      LeafBalances(leaves[..n]) + if leaves[n].Leaf? then leaves[n].state.balance else 0
  }

  lemma {:induction false} TotalAfterPut(s: Ledger, i: nat, state: UserState, token: nat, n: nat)
    ensures Total(s[i := state], token, n) + (if i < n then Held(s, i, token) else 0)
         == Total(s, token, n) + (if i < n && state.tokenID == token then state.balance else 0)
  {
    if n > 0 {
      TotalAfterPut(s, i, state, token, n - 1);
    }
  }

  // ------------------------------------------------------------------------------------------------ one transaction

  lemma SendTakes(s: Ledger, p: nat, tokenID: nat, amount: nat, fee: nat, token: nat, n: nat)
    requires p < n && Send(s, p, tokenID, amount, fee).Accepts?
    ensures Total(Send(s, p, tokenID, amount, fee).ledger, token, n) + (if token == tokenID then amount + fee else 0)
         == Total(s, token, n)
  {
    TotalAfterPut(s, p, Send(s, p, tokenID, amount, fee).ledger[p], token, n);
  }

  lemma ReceiveGives(s: Ledger, p: nat, tokenID: nat, amount: nat, token: nat, n: nat)
    requires p < n && Receive(s, p, tokenID, amount).Accepts?
    ensures Total(Receive(s, p, tokenID, amount).ledger, token, n)
         == Total(s, token, n) + if token == tokenID then amount else 0
  {
    TotalAfterPut(s, p, Receive(s, p, tokenID, amount).ledger[p], token, n);
  }

  /** A transaction only takes its fee out of circulation until the fee receiver gets it; a migration also its
      amount. */
  lemma ApplyMoves(s: Ledger, depth: nat, t: Tx, tokenID: nat, token: nat)
    requires Apply(s, depth, t, tokenID).Accepts?
    ensures var n := Pow2(depth);
            Total(Apply(s, depth, t, tokenID).ledger, token, n)
              + (if token == tokenID then t.fee + if t.MassMigration? then t.amount else 0 else 0)
            == Total(s, token, n)
  {
    var n := Pow2(depth);
    var p := Low(t.fromIndex, depth);
    LowBound(t.fromIndex, depth);
    SendTakes(s, p, tokenID, t.amount, t.fee, token, n);
    var sent := Send(s, p, tokenID, t.amount, t.fee).ledger;
    match t {
      case Transfer(_, toIndex, amount, _) =>
        LowBound(toIndex, depth);
        ReceiveGives(sent, Low(toIndex, depth), tokenID, amount, token, n);
      case Create2Transfer(_, toIndex, pubkeyID, amount, _) =>
        LowBound(toIndex, depth);
        TotalAfterPut(sent, Low(toIndex, depth), CreateState(pubkeyID, tokenID, amount), token, n);
      case MassMigration(_, _, _) =>
    }
  }

  /** Positions a transaction may change. */
  function Mentions(t: Tx, depth: nat): set<nat> {
    {Low(t.fromIndex, depth)} + if t.MassMigration? then {} else {Low(t.toIndex, depth)}
  }

  /** `s'` differs from `s` only in balances and nonces, and in new accounts. */
  ghost predicate SameAccounts(s: Ledger, s': Ledger) {
    forall p :: p in s ==> p in s' && s'[p].pubkeyID == s[p].pubkeyID && s'[p].tokenID == s[p].tokenID
  }

  ghost predicate SameOutside(s: Ledger, s': Ledger, touched: set<nat>) {
    forall p :: p !in touched ==> (p in s <==> p in s') && (p in s ==> s'[p] == s[p])
  }

  // ------------------------------------------------------------------------------------------------ whole runs

  function MentionedBy(txs: seq<Tx>, depth: nat, n: nat): set<nat>
    requires n <= |txs|
  {
    if n == 0 then {} else MentionedBy(txs, depth, n - 1) + Mentions(txs[n - 1], depth)
  }

  lemma {:induction false} RunFrame(kind: Kind, s: Ledger, depth: nat, txs: seq<Tx>, n: nat, tokenID: nat)
    requires n <= |txs| && LedgerRun(kind, s, depth, txs, n, tokenID).LRunning?
    ensures var s' := LedgerRun(kind, s, depth, txs, n, tokenID).ledger;
            SameAccounts(s, s') && SameOutside(s, s', MentionedBy(txs, depth, n))
  {
    if n > 0 {
      RunFrame(kind, s, depth, txs, n - 1, tokenID);
      var s1 := LedgerRun(kind, s, depth, txs, n - 1, tokenID).ledger;
      var s2 := LedgerRun(kind, s, depth, txs, n, tokenID).ledger;
      ApplyFrame(s1, depth, txs[n - 1], tokenID);
      assert s2 == Apply(s1, depth, txs[n - 1], tokenID).ledger;
    }
  }

  lemma ApplyFrame(s: Ledger, depth: nat, t: Tx, tokenID: nat)
    requires Apply(s, depth, t, tokenID).Accepts?
    ensures var s' := Apply(s, depth, t, tokenID).ledger; SameAccounts(s, s') && SameOutside(s, s', Mentions(t, depth))
  {
  }

  lemma {:induction false} RunMoves(kind: Kind, s: Ledger, depth: nat, txs: seq<Tx>, n: nat, tokenID: nat, token: nat)
    requires AllOf(kind, txs) && n <= |txs| && LedgerRun(kind, s, depth, txs, n, tokenID).LRunning?
    ensures Total(LedgerRun(kind, s, depth, txs, n, tokenID).ledger, token, Pow2(depth))
              + (if token != tokenID then 0
                 else SumFees(txs, n) + if kind.MassMigrations? then SumAmounts(txs, n) else 0)
            == Total(s, token, Pow2(depth))
  {
    hide Apply, Total;
    if n > 0 {
      RunMoves(kind, s, depth, txs, n - 1, tokenID, token);
      ApplyMoves(LedgerRun(kind, s, depth, txs, n - 1, tokenID).ledger, depth, txs[n - 1], tokenID, token);
    }
  }

  lemma {:induction false} RunFees(kind: Kind, s: Ledger, depth: nat, txs: seq<Tx>, n: nat, tokenID: nat)
    requires n <= |txs| && LedgerRun(kind, s, depth, txs, n, tokenID).LRunning?
    ensures var totals := LedgerRun(kind, s, depth, txs, n, tokenID).totals;
            if kind.MassMigrations?
            then SumFees(txs, n) < TWO_256 && SumAmounts(txs, n) < TWO_256 ==>
                   totals.fees == SumFees(txs, n) && totals.amount == SumAmounts(txs, n)
            else totals.fees == SumFees(txs, n)
  {
    hide Apply;
    if n > 0 {
      RunFees(kind, s, depth, txs, n - 1, tokenID);
    }
  }

  /** An accepted transfer or create2transfer commitment keeps the total of every token and touches no account that is
      not mentioned. */
  lemma CommitConserves(kind: Kind, s: Ledger, depth: nat, maxTxSize: nat, feeReceiver: nat, data: Bytes, token: nat)
    requires !kind.MassMigrations? && LedgerCommit(kind, s, depth, maxTxSize, feeReceiver, data).Accepts?
    ensures var s' := LedgerCommit(kind, s, depth, maxTxSize, feeReceiver, data).ledger;
            var txs := DecodeAll(kind, data);
            && Total(s', token, Pow2(depth)) == Total(s, token, Pow2(depth))
            && SameAccounts(s, s')
            && SameOutside(s, s', MentionedBy(txs, depth, |txs|) + {Low(feeReceiver, depth)})
  {
    hide Decode, Total;
    DecodedKind(kind, data);
    var txs := DecodeAll(kind, data);
    var tokenID := CommitToken(s, depth, feeReceiver, txs).value;
    RunMoves(kind, s, depth, txs, |txs|, tokenID, token);
    RunFees(kind, s, depth, txs, |txs|, tokenID);
    RunFrame(kind, s, depth, txs, |txs|, tokenID);
    LowBound(feeReceiver, depth);
    var p := LedgerRun(kind, s, depth, txs, |txs|, tokenID);
    ReceiveGives(p.ledger, Low(feeReceiver, depth), tokenID, p.totals.fees, token, Pow2(depth));
  }

  /** The same seen from the chain: whatever proofs made it accept, the new root is that of such a ledger. */
  lemma ChainConserves(kind: Kind, s: Ledger, depth: nat, maxTxSize: nat, feeReceiver: nat, data: Bytes,
                       proofs: seq<StateProof>, newRoot: Hash, token: nat)
    requires !kind.MassMigrations?
    requires ProcessCommit(kind, StateRoot(s, depth), maxTxSize, feeReceiver, data, proofs) == Return(newRoot, Ok)
    ensures exists s' :: newRoot == StateRoot(s', depth) && SameAccounts(s, s')
                      && Total(s', token, Pow2(depth)) == Total(s, token, Pow2(depth))
  {
    hide ProcessCommit;
    CommitSound(kind, s, depth, maxTxSize, feeReceiver, data, proofs);
    CommitFailsWithCode(kind, s, depth, maxTxSize, feeReceiver, data);
    CommitConserves(kind, s, depth, maxTxSize, feeReceiver, data, token);
  }

  lemma CommitFailsWithCode(kind: Kind, s: Ledger, depth: nat, maxTxSize: nat, feeReceiver: nat, data: Bytes)
    ensures var v := LedgerCommit(kind, s, depth, maxTxSize, feeReceiver, data); v.Fails? ==> v.code != Ok
  {
    hide Apply, Receive, Decode;
    var txs := DecodeAll(kind, data);
    var token := CommitToken(s, depth, feeReceiver, txs);
    if token.Some? {
      StopsWithCode(kind, s, depth, txs, |txs|, token.value);
    }
  }

  lemma {:induction false} StopsWithCode(kind: Kind, s: Ledger, depth: nat, txs: seq<Tx>, n: nat, tokenID: nat)
    requires n <= |txs|
    ensures var p := LedgerRun(kind, s, depth, txs, n, tokenID); p.LStopped? ==> p.code != Ok
  {
    hide Apply;
    if n > 0 {
      StopsWithCode(kind, s, depth, txs, n - 1, tokenID);
    }
  }

  // ------------------------------------------------------------------------------------------------ mass migrations

  lemma DecompressBound(w: nat)
    ensures Decompress(w) <= 4095_000_000_000_000_000
  {
    var m, e := w % 4096, (w / 4096) % 16;
    ScaledMonotone(m, 4095, e);
    ScaledInExponent(4095, e, 15);
    assert Scaled(4095, 5) == 409_500_000 && Scaled(409_500_000, 5) == 40_950_000_000_000;
    ScaledTwice(4095, 5, 5);
    ScaledTwice(4095, 10, 5);
    assert Scaled(40_950_000_000_000, 5) == 4095_000_000_000_000_000;
  }

  lemma {:induction false} SumsBound(data: Bytes, n: nat)
    requires n <= Size(MassMigrations, data)
    ensures var txs := DecodeAll(MassMigrations, data);
            SumAmounts(txs, n) <= 4095_000_000_000_000_000 * n && SumFees(txs, n) <= 4095_000_000_000_000_000 * n
  {
    hide Decompress, Mload;
    if n > 0 {
      SumsBound(data, n - 1);
      var p := MassMigrations.Offset(n - 1);
      DecompressBound(Mload(data, p + 6));
      DecompressBound(Mload(data, p + 8));
    }
  }

  /** The withdrawn state of a transaction: the sender's key, the commitment's token, the amount moved, nonce 0. */
  function WithdrawnLeaf(s: Ledger, depth: nat, t: Tx, tokenID: nat): Hash {
    var p := Low(t.fromIndex, depth);
    Leaf(CreateState(if p in s then s[p].pubkeyID else 0, tokenID, t.amount))
  }

  lemma {:induction false} RunWithdraws(s: Ledger, depth: nat, txs: seq<Tx>, n: nat, tokenID: nat)
    requires AllOf(MassMigrations, txs) && n <= |txs|
    requires LedgerRun(MassMigrations, s, depth, txs, n, tokenID).LRunning?
    ensures var w := LedgerRun(MassMigrations, s, depth, txs, n, tokenID).totals.withdrawn;
            && w == seq(n, i requires 0 <= i < n => WithdrawnLeaf(s, depth, txs[i], tokenID))
            && LeafBalances(w) == SumAmounts(txs, n)
  {
    hide LedgerStep, WithdrawnLeaf;
    if n > 0 {
      var before := LedgerRun(MassMigrations, s, depth, txs, n - 1, tokenID);
      RunStopped(MassMigrations, before, depth, txs[n - 1], tokenID);
      RunWithdraws(s, depth, txs, n - 1, tokenID);
      WithdrawsOne(s, depth, txs, n, tokenID);
      LastBalance(before.totals.withdrawn, WithdrawnLeaf(s, depth, txs[n - 1], tokenID));
    }
  }

  lemma RunStopped(kind: Kind, p: LedgerProgress, depth: nat, t: Tx, tokenID: nat)
    requires LedgerStep(kind, p, depth, t, tokenID).LRunning?
    ensures p.LRunning?
  {
  }

  /** Each migration adds one leaf, read off the ledger before all of them. */
  lemma WithdrawsOne(s: Ledger, depth: nat, txs: seq<Tx>, n: nat, tokenID: nat)
    requires AllOf(MassMigrations, txs) && 0 < n <= |txs|
    requires LedgerRun(MassMigrations, s, depth, txs, n, tokenID).LRunning?
    requires LedgerRun(MassMigrations, s, depth, txs, n - 1, tokenID).LRunning?
    ensures LedgerRun(MassMigrations, s, depth, txs, n, tokenID).totals.withdrawn
         == LedgerRun(MassMigrations, s, depth, txs, n - 1, tokenID).totals.withdrawn
            + [WithdrawnLeaf(s, depth, txs[n - 1], tokenID)]
    ensures WithdrawnLeaf(s, depth, txs[n - 1], tokenID).Leaf?
    ensures WithdrawnLeaf(s, depth, txs[n - 1], tokenID).state.balance == txs[n - 1].amount
  {
    RunFrame(MassMigrations, s, depth, txs, n - 1, tokenID);
    RunKeepsPositions(s, depth, txs, n - 1, tokenID);
  }

  lemma LastBalance(leaves: seq<Hash>, leaf: Hash)
    ensures LeafBalances(leaves + [leaf]) == LeafBalances(leaves) + if leaf.Leaf? then leaf.state.balance else 0
  {
    assert (leaves + [leaf])[..|leaves|] == leaves;
  }

  lemma {:induction false} RunKeepsPositions(s: Ledger, depth: nat, txs: seq<Tx>, n: nat, tokenID: nat)
    requires AllOf(MassMigrations, txs) && n <= |txs|
    requires LedgerRun(MassMigrations, s, depth, txs, n, tokenID).LRunning?
    ensures LedgerRun(MassMigrations, s, depth, txs, n, tokenID).ledger.Keys == s.Keys
  {
    if n > 0 {
      RunKeepsPositions(s, depth, txs, n - 1, tokenID);
    }
  }

  /** An accepted mass migration lowers the total of its own token, and of no other, by exactly the committed amount,
      which is the sum of the balances of the states under the withdraw root: one per transaction, under the sender's
      key. */
  lemma MassMigrationConserves(s: Ledger, depth: nat, maxTxSize: nat, body: MassMigrationBody, token: nat)
    ensures var v := LedgerMassMigration(s, depth, maxTxSize, body);
            var txs := DecodeAll(MassMigrations, body.txs);
            var leaves := seq(|txs|, i requires 0 <= i < |txs| => WithdrawnLeaf(s, depth, txs[i], body.tokenID));
            v.Accepts? ==>
            var s' := v.ledger;
            && Total(s', token, Pow2(depth)) + (if token == body.tokenID then body.amount else 0)
               == Total(s, token, Pow2(depth))
            && SameAccounts(s, s') && s'.Keys == s.Keys
            && SameOutside(s, s', MentionedBy(txs, depth, |txs|) + {Low(body.feeReceiver, depth)})
            && body.withdrawRoot == Merklized(leaves)
            && LeafBalances(leaves) == body.amount
  {
    hide Decode, Total, Merklized, LeafBalances;
    if !LedgerMassMigration(s, depth, maxTxSize, body).Accepts? { return; }
    DecodedKind(MassMigrations, body.txs);
    var txs, tokenID := DecodeAll(MassMigrations, body.txs), body.tokenID;
    var p := LedgerRun(MassMigrations, s, depth, txs, |txs|, tokenID);
    RunMoves(MassMigrations, s, depth, txs, |txs|, tokenID, token);
    RunFrame(MassMigrations, s, depth, txs, |txs|, tokenID);
    RunKeepsPositions(s, depth, txs, |txs|, tokenID);
    RunWithdraws(s, depth, txs, |txs|, tokenID);
    SumsBound(body.txs, |txs|);
    RunFees(MassMigrations, s, depth, txs, |txs|, tokenID);
    LowBound(body.feeReceiver, depth);
    ReceiveGives(p.ledger, Low(body.feeReceiver, depth), tokenID, p.totals.fees, token, Pow2(depth));
  }
}
