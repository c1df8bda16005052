/** The ledger's verdicts in terms of accounts and numbers: which transactions and commitments fail with which code and
    can be disputed whatever root they claim, and which leave nothing to dispute. */
module Verdicts {
  import opened Words
  import opened Merkle
  import opened MerkleTree
  import opened TxCodec
  import opened Transition
  import opened Ledger
  import opened Commits
  import opened StatelessExecution
  import Conservation
  import opened Decimal

  // ------------------------------------------------------------------------------------------------ one transaction

  /** A sender that can pay amount and fee in the right token, and send once more. */
  ghost predicate CanPay(s: Ledger, from: nat, tokenID: nat, amount: nat, fee: nat) {
    && from in s && 0 < amount && amount + fee <= s[from].balance && amount + fee < Pow2(256)
    && s[from].tokenID == tokenID && s[from].nonce + 1 < Pow2(256)
  }

  /** What is at a position after `from` has paid. */
  function BalanceAfter(s: Ledger, from: nat, paid: nat, position: nat): int
    requires position in s
  {
    s[position].balance - if position == from then paid else 0
  }

  /** The exact condition for a transaction to revert: the sender is missing, its payment overflows a word, its nonce is
      used up, the receiver is missing or overflows, or the position to create is taken. */
  lemma RevertsIf(s: Ledger, depth: nat, t: Tx, tokenID: nat)
    ensures var from := Low(t.fromIndex, depth);
            var paid := t.amount + t.fee;
            Apply(s, depth, t, tokenID).Reverts? <==>
              || from !in s
              || (t.amount > 0 && paid >= Pow2(256))
              || (0 < t.amount && paid <= s[from].balance && s[from].tokenID == tokenID
                  && s[from].nonce + 1 >= Pow2(256))
              || (CanPay(s, from, tokenID, t.amount, t.fee) && !t.MassMigration?
                  && var to := Low(t.toIndex, depth);
                     if t.Create2Transfer? then to in s else
                       to !in s || (s[to].tokenID == tokenID
                                    && BalanceAfter(s, from, paid, to) + t.amount >= Pow2(256)))
  {
    hide Pow2, Low;
    WordSize();
  }

  /** The code in every other failing case; the root returned with it is 0. */
  lemma FailsIf(s: Ledger, depth: nat, t: Tx, tokenID: nat, code: Result)
    ensures var from := Low(t.fromIndex, depth);
            var paid := t.amount + t.fee;
            Apply(s, depth, t, tokenID) == Fails(Word(0), code) <==>
              && from in s
              && match code
                 case InvalidTokenAmount => t.amount == 0
                 case NotEnoughTokenBalance => t.amount > 0 && s[from].balance < paid < Pow2(256)
                 case BadFromTokenID =>
                   t.amount > 0 && paid <= s[from].balance && paid < Pow2(256) && s[from].tokenID != tokenID
                 case BadToTokenID =>
                   && CanPay(s, from, tokenID, t.amount, t.fee) && t.Transfer?
                   && Low(t.toIndex, depth) in s && s[Low(t.toIndex, depth)].tokenID != tokenID
                 case _ => false
    ensures Apply(s, depth, t, tokenID).Fails? ==> Apply(s, depth, t, tokenID).root == Word(0)
  {
    hide Pow2, Low;
    WordSize();
  }

  /** What an accepted transaction does to every account: the sender pays amount and fee and its nonce goes up, the
      receiver of a transfer gets the amount, a create2transfer opens an account with nonce 0, and nothing else
      moves. */
  lemma AcceptsAs(s: Ledger, depth: nat, t: Tx, tokenID: nat, p: nat)
    requires Apply(s, depth, t, tokenID).Accepts?
    ensures var from := Low(t.fromIndex, depth);
            var s' := Apply(s, depth, t, tokenID).ledger;
            && CanPay(s, from, tokenID, t.amount, t.fee)
            && (p in s' <==> p in s || (t.Create2Transfer? && p == Low(t.toIndex, depth)))
            && (t.Create2Transfer? && p == Low(t.toIndex, depth) ==>
                  p !in s && s'[p] == UserState(t.toPubkeyID, tokenID, t.amount, 0))
            && (t.Transfer? && p == Low(t.toIndex, depth) ==> p in s && s[p].tokenID == tokenID)
            && (p in s ==>
                  && s'[p].pubkeyID == s[p].pubkeyID && s'[p].tokenID == s[p].tokenID
                  && s'[p].balance == BalanceAfter(s, from, t.amount + t.fee, p)
                                      + (if t.Transfer? && p == Low(t.toIndex, depth) then t.amount else 0)
                  && s'[p].nonce == s[p].nonce + if p == from then 1 else 0)
  {
    hide Pow2, Low;
    WordSize();
  }

  /** The same for the fees of a commitment. */
  lemma ReceivesIf(s: Ledger, p: nat, tokenID: nat, amount: nat)
    ensures Receive(s, p, tokenID, amount).Reverts? <==>
              p !in s || (s[p].tokenID == tokenID && s[p].balance + amount >= Pow2(256))
    ensures Receive(s, p, tokenID, amount).Fails? <==> p in s && s[p].tokenID != tokenID
    ensures Receive(s, p, tokenID, amount).Fails? ==> Receive(s, p, tokenID, amount) == Fails(Word(0), BadToTokenID)
    ensures Receive(s, p, tokenID, amount).Accepts? ==>
              Receive(s, p, tokenID, amount).ledger == s[p := s[p].(balance := s[p].balance + amount)]
  {
    hide Pow2;
    WordSize();
  }

  // ------------------------------------------------------------------------------------------------ whole commitments

  /** A transaction that fails with a code: amount 0, a balance below amount and fee, or the wrong token of sender or
      receiver. */
  ghost predicate Bad(s: Ledger, depth: nat, t: Tx, tokenID: nat) {
    var from := Low(t.fromIndex, depth);
    && from in s
    && (|| t.amount == 0 || s[from].balance < t.amount + t.fee || s[from].tokenID != tokenID
        || (&& s[from].nonce + 1 < Pow2(256) && t.Transfer?
            && Low(t.toIndex, depth) in s && s[Low(t.toIndex, depth)].tokenID != tokenID))
  }

  /** A transaction that nobody can show: an account is missing or in the way, or a nonce or a balance overflows. */
  ghost predicate Stuck(s: Ledger, depth: nat, t: Tx, tokenID: nat) {
    var from := Low(t.fromIndex, depth);
    || from !in s
    || (&& t.amount > 0 && s[from].balance >= t.amount + t.fee && s[from].tokenID == tokenID
        && (|| s[from].nonce + 1 >= Pow2(256)
            || (t.Create2Transfer? && Low(t.toIndex, depth) in s)
            || (t.Transfer? && Low(t.toIndex, depth) !in s)
            || (t.Transfer? && s[Low(t.toIndex, depth)].tokenID == tokenID
                && BalanceAfter(s, from, t.amount + t.fee, Low(t.toIndex, depth)) + t.amount >= Pow2(256))))
  }

  lemma BadOrStuck(s: Ledger, depth: nat, t: Tx, tokenID: nat)
    requires t.amount + t.fee < Pow2(256)
    ensures Apply(s, depth, t, tokenID).Fails? <==> Bad(s, depth, t, tokenID)
    ensures Apply(s, depth, t, tokenID).Reverts? <==> Stuck(s, depth, t, tokenID)
  {
    hide Pow2, Low;
    WordSize();
  }

  /** Decoded amounts are far below a word. */
  lemma SmallAmounts(kind: Kind, data: Bytes, i: nat)
    requires i < Size(kind, data)
    ensures DecodeAll(kind, data)[i].amount + DecodeAll(kind, data)[i].fee < Pow2(256)
  {
    hide Decompress, Mload, Pow2;
    WordSize();
    var p := kind.Offset(i);
    match kind {
      case Transfers =>
        Conservation.DecompressBound(Mload(data, p + 10));
        Conservation.DecompressBound(Mload(data, p + 12));
      case Create2Transfers =>
        Conservation.DecompressBound(Mload(data, p + 14));
        Conservation.DecompressBound(Mload(data, p + 16));
      case MassMigrations =>
        Conservation.DecompressBound(Mload(data, p + 6));
        Conservation.DecompressBound(Mload(data, p + 8));
    }
  }

  /** The first `n` transactions are accepted, and their fees, which transfers add up with SafeMath, fit in a word. */
  ghost predicate Through(kind: Kind, s: Ledger, depth: nat, txs: seq<Tx>, n: nat, tokenID: nat)
    requires n <= |txs|
  {
    ApplyAll(s, depth, txs, n, tokenID).Accepts? && (kind.MassMigrations? || SumFees(txs, n) < Pow2(256))
  }

  /** They are, and the next one fails with a code. */
  ghost predicate BadAt(kind: Kind, s: Ledger, depth: nat, txs: seq<Tx>, n: nat, tokenID: nat)
    requires n < |txs|
  {
    && Through(kind, s, depth, txs, n, tokenID)
    && Bad(ApplyAll(s, depth, txs, n, tokenID).ledger, depth, txs[n], tokenID)
  }

  /** They are, and the next one reverts. */
  ghost predicate StuckAt(kind: Kind, s: Ledger, depth: nat, txs: seq<Tx>, n: nat, tokenID: nat)
    requires n < |txs|
  {
    && Through(kind, s, depth, txs, n, tokenID)
    && var l := ApplyAll(s, depth, txs, n, tokenID).ledger;
       || Stuck(l, depth, txs[n], tokenID)
       || (!Bad(l, depth, txs[n], tokenID) && !kind.MassMigrations? && SumFees(txs, n + 1) >= Pow2(256))
  }

  ghost predicate SmallTxs(txs: seq<Tx>) {
    forall i :: 0 <= i < |txs| ==> txs[i].amount + txs[i].fee < Pow2(256)
  }

  /** One iteration more. */
  lemma OneMore(kind: Kind, s: Ledger, depth: nat, txs: seq<Tx>, n: nat, tokenID: nat)
    requires n < |txs| && SmallTxs(txs)
    ensures Through(kind, s, depth, txs, n + 1, tokenID) <==>
              && Through(kind, s, depth, txs, n, tokenID)
              && !BadAt(kind, s, depth, txs, n, tokenID) && !StuckAt(kind, s, depth, txs, n, tokenID)
    ensures !(BadAt(kind, s, depth, txs, n, tokenID) && StuckAt(kind, s, depth, txs, n, tokenID))
  {
    hide Apply, Bad, Stuck, Pow2;
    var v := ApplyAll(s, depth, txs, n, tokenID);
    if v.Accepts? {
      BadOrStuck(v.ledger, depth, txs[n], tokenID);
    }
  }

  /** What the running loop has added up. */
  ghost predicate Totalled(kind: Kind, s: Ledger, depth: nat, txs: seq<Tx>, n: nat, tokenID: nat, p: LedgerProgress)
    requires n <= |txs|
  {
    && p.LRunning? && ApplyAll(s, depth, txs, n, tokenID) == Accepts(p.ledger)
    && p.totals.fees == SumFees(txs, n) % Pow2(256)
    && (kind.MassMigrations? ==> p.totals.amount == SumAmounts(txs, n) % Pow2(256))
  }

  lemma StepIs(kind: Kind, s: Ledger, depth: nat, txs: seq<Tx>, n: nat, tokenID: nat, p: LedgerProgress)
    requires n < |txs| && SmallTxs(txs)
    requires Totalled(kind, s, depth, txs, n, tokenID, p) && Through(kind, s, depth, txs, n, tokenID)
    ensures var p' := LedgerStep(kind, p, depth, txs[n], tokenID);
            && (p'.LRunning? <==> Through(kind, s, depth, txs, n + 1, tokenID))
            && (p'.LRunning? ==> Totalled(kind, s, depth, txs, n + 1, tokenID, p'))
            && (p'.LStopped? <==> BadAt(kind, s, depth, txs, n, tokenID))
            && (p'.LReverted? <==> StuckAt(kind, s, depth, txs, n, tokenID))
  {
    hide Apply, Bad, Stuck, Pow2;
    WordSize();
    BadOrStuck(p.ledger, depth, txs[n], tokenID);
    SumModulo(SumFees(txs, n), txs[n].fee);
    SumModulo(SumAmounts(txs, n), txs[n].amount);
  }

  lemma SumModulo(a: nat, b: nat)
    ensures (a % TWO_256 + b) % TWO_256 == (a + b) % TWO_256
  {
    var q, r := (a % TWO_256 + b) / TWO_256, (a % TWO_256 + b) % TWO_256;
    assert a + b == TWO_256 * (a / TWO_256 + q) + r;
    DivUnique(a + b, TWO_256, a / TWO_256 + q, r);
  }

  /** Where the loop stands after `n` transactions, and why it stopped. */
  lemma {:induction false} RunIs(kind: Kind, s: Ledger, depth: nat, txs: seq<Tx>, n: nat, tokenID: nat)
    requires n <= |txs| && SmallTxs(txs)
    ensures var p := LedgerRun(kind, s, depth, txs, n, tokenID);
            && (p.LRunning? <==> Through(kind, s, depth, txs, n, tokenID))
            && (p.LRunning? ==> Totalled(kind, s, depth, txs, n, tokenID, p))
            && (p.LStopped? <==> exists k :: 0 <= k < n && BadAt(kind, s, depth, txs, k, tokenID))
            && (p.LReverted? <==> exists k :: 0 <= k < n && StuckAt(kind, s, depth, txs, k, tokenID))
  {
    hide LedgerStep, Through, BadAt, StuckAt, Totalled, SmallTxs;
    if n > 0 {
      RunIs(kind, s, depth, txs, n - 1, tokenID);
      OneMore(kind, s, depth, txs, n - 1, tokenID);
      var p := LedgerRun(kind, s, depth, txs, n - 1, tokenID);
      if p.LRunning? {
        StepIs(kind, s, depth, txs, n - 1, tokenID, p);
      } else {
        RunHasStopped(kind, p, depth, txs[n - 1], tokenID);
        OnlyOnce(kind, s, depth, txs, n - 1, tokenID);
      }
    } else {
      NothingRun(kind, s, depth, txs, tokenID);
    }
  }

  lemma NothingRun(kind: Kind, s: Ledger, depth: nat, txs: seq<Tx>, tokenID: nat)
    ensures Through(kind, s, depth, txs, 0, tokenID)
    ensures Totalled(kind, s, depth, txs, 0, tokenID, LRunning(s, NO_TOTALS))
  {
    hide Pow2;
    WordSize();
  }

  lemma RunHasStopped(kind: Kind, p: LedgerProgress, depth: nat, t: Tx, tokenID: nat)
    requires !p.LRunning?
    ensures LedgerStep(kind, p, depth, t, tokenID) == p
  {
  }

  lemma OnlyOnce(kind: Kind, s: Ledger, depth: nat, txs: seq<Tx>, n: nat, tokenID: nat)
    requires n < |txs| && !Through(kind, s, depth, txs, n, tokenID)
    ensures !BadAt(kind, s, depth, txs, n, tokenID) && !StuckAt(kind, s, depth, txs, n, tokenID)
  {
  }

  /** Bytes that are whole transactions, no more than allowed. */
  ghost predicate RightSize(kind: Kind, data: Bytes, maxTxSize: nat) {
    |data| % kind.Len() == 0 && |data| / kind.Len() <= maxTxSize
  }

  /** The account that fixes the token of a transfer commitment. */
  ghost function Payer(depth: nat, feeReceiver: nat, txs: seq<Tx>): nat {
    Low(if txs == [] then feeReceiver else txs[0].fromIndex, depth)
  }

  /** The commitment fails with a code: at some transaction, or because the fee receiver has another token. */
  ghost predicate CommitIsBad(kind: Kind, s: Ledger, depth: nat, feeReceiver: nat, txs: seq<Tx>) {
    Payer(depth, feeReceiver, txs) in s &&
    var tokenID := s[Payer(depth, feeReceiver, txs)].tokenID;
    || (exists k :: 0 <= k < |txs| && BadAt(kind, s, depth, txs, k, tokenID))
    || (&& Through(kind, s, depth, txs, |txs|, tokenID)
        && var l := ApplyAll(s, depth, txs, |txs|, tokenID).ledger;
           Low(feeReceiver, depth) in l && l[Low(feeReceiver, depth)].tokenID != tokenID)
  }

  /** Its execution reverts, whatever proofs are given. */
  ghost predicate CommitIsStuck(kind: Kind, s: Ledger, depth: nat, feeReceiver: nat, txs: seq<Tx>) {
    Payer(depth, feeReceiver, txs) !in s ||
    var tokenID := s[Payer(depth, feeReceiver, txs)].tokenID;
    || (exists k :: 0 <= k < |txs| && StuckAt(kind, s, depth, txs, k, tokenID))
    || (&& Through(kind, s, depth, txs, |txs|, tokenID)
        && var l, to := ApplyAll(s, depth, txs, |txs|, tokenID).ledger, Low(feeReceiver, depth);
           to !in l || (l[to].tokenID == tokenID && l[to].balance + SumFees(txs, |txs|) >= Pow2(256)))
  }

  lemma DecodedAreSmall(kind: Kind, data: Bytes)
    ensures SmallTxs(DecodeAll(kind, data))
  {
    hide DecodeAll, Pow2;
    forall i | 0 <= i < |DecodeAll(kind, data)|
      ensures DecodeAll(kind, data)[i].amount + DecodeAll(kind, data)[i].fee < Pow2(256)
    {
      SmallAmounts(kind, data, i);
    }
  }

  /** The run over all transactions of a transfer commitment, with its fees not reduced. */
  lemma WholeRunIs(kind: Kind, s: Ledger, depth: nat, txs: seq<Tx>, tokenID: nat)
    requires !kind.MassMigrations? && SmallTxs(txs)
    ensures var p := LedgerRun(kind, s, depth, txs, |txs|, tokenID);
            && (p.LRunning? <==> Through(kind, s, depth, txs, |txs|, tokenID))
            && (p.LRunning? ==> ApplyAll(s, depth, txs, |txs|, tokenID) == Accepts(p.ledger)
                                && p.totals.fees == SumFees(txs, |txs|))
            && (p.LStopped? <==> exists k :: 0 <= k < |txs| && BadAt(kind, s, depth, txs, k, tokenID))
            && (p.LReverted? <==> exists k :: 0 <= k < |txs| && StuckAt(kind, s, depth, txs, k, tokenID))
  {
    hide LedgerRun, BadAt, StuckAt, SmallTxs, Pow2, ApplyAll, SumFees;
    WordSize();
    RunIs(kind, s, depth, txs, |txs|, tokenID);
  }

  lemma CommitVerdict(kind: Kind, s: Ledger, depth: nat, maxTxSize: nat, feeReceiver: nat, data: Bytes)
    requires !kind.MassMigrations?
    ensures var v := LedgerCommit(kind, s, depth, maxTxSize, feeReceiver, data);
            var txs := DecodeAll(kind, data);
            && (v.Fails? <==> !RightSize(kind, data, maxTxSize) || CommitIsBad(kind, s, depth, feeReceiver, txs))
            && (v.Reverts? <==> RightSize(kind, data, maxTxSize) && CommitIsStuck(kind, s, depth, feeReceiver, txs))
            && var len := if kind.Transfers? then 12 else 16;
               && (|data| % len != 0 ==> v == Fails(StateRoot(s, depth), BadCompression))
               && (|data| % len == 0 && |data| / len > maxTxSize ==> v == Fails(StateRoot(s, depth), TooManyTx))
  {
    hide Decode, DecodeAll, BadAt, StuckAt, Through, Receive, Pow2, Low, LedgerRun, ApplyAll, SumFees, SmallTxs,
      StateRoot;
    var txs := DecodeAll(kind, data);
    DecodedAreSmall(kind, data);
    if RightSize(kind, data, maxTxSize) && Payer(depth, feeReceiver, txs) in s {
      var tokenID := s[Payer(depth, feeReceiver, txs)].tokenID;
      WholeRunIs(kind, s, depth, txs, tokenID);
      var p := LedgerRun(kind, s, depth, txs, |txs|, tokenID);
      if p.LRunning? {
        ReceivesIf(p.ledger, Low(feeReceiver, depth), tokenID, p.totals.fees);
      }
    }
  }

  /** Some proofs dispute the commitment when it claims this root. */
  ghost predicate CanBeDisputed(kind: Kind, s: Ledger, depth: nat, maxTxSize: nat, feeReceiver: nat, data: Bytes,
                                root: Hash)
  {
    exists proofs :: Disputes(kind, StateRoot(s, depth), root, maxTxSize, feeReceiver, data, proofs)
  }

  lemma DisputedIf(kind: Kind, s: Ledger, depth: nat, maxTxSize: nat, feeReceiver: nat, data: Bytes, root: Hash)
    ensures var v := LedgerCommit(kind, s, depth, maxTxSize, feeReceiver, data);
            CanBeDisputed(kind, s, depth, maxTxSize, feeReceiver, data, root) <==>
              v.Fails? || (v.Accepts? && StateRoot(v.ledger, depth) != root)
  {
    hide Disputes, LedgerCommit, StateRoot;
    DisputeIsExact(kind, s, depth, root, maxTxSize, feeReceiver, data);
    Conservation.CommitFailsWithCode(kind, s, depth, maxTxSize, feeReceiver, data);
  }

  /** The commitments that can be disputed whatever root they claim are those of a wrong size or with too many
      transactions, and those whose first transaction not to be accepted has amount 0, overspends, or has the wrong
      token. */
  lemma DisputedWhateverClaimed(kind: Kind, s: Ledger, depth: nat, maxTxSize: nat, feeReceiver: nat, data: Bytes)
    requires !kind.MassMigrations?
    ensures (forall root: Hash :: CanBeDisputed(kind, s, depth, maxTxSize, feeReceiver, data, root)) <==>
              || !RightSize(kind, data, maxTxSize)
              || CommitIsBad(kind, s, depth, feeReceiver, DecodeAll(kind, data))
  {
    hide CanBeDisputed, LedgerCommit, CommitIsBad, CommitIsStuck, StateRoot, RightSize;
    var v := LedgerCommit(kind, s, depth, maxTxSize, feeReceiver, data);
    CommitVerdict(kind, s, depth, maxTxSize, feeReceiver, data);
    forall root: Hash
      ensures CanBeDisputed(kind, s, depth, maxTxSize, feeReceiver, data, root) <==>
                v.Fails? || (v.Accepts? && StateRoot(v.ledger, depth) != root)
    {
      DisputedIf(kind, s, depth, maxTxSize, feeReceiver, data, root);
    }
    if v.Accepts? {
      assert !CanBeDisputed(kind, s, depth, maxTxSize, feeReceiver, data, StateRoot(v.ledger, depth));
    } else if v.Reverts? {
      assert !CanBeDisputed(kind, s, depth, maxTxSize, feeReceiver, data, Empty);
    }
  }

  /** The commitments that nothing disputes, whatever root they claim, are those on which the chain gets neither to the
      end nor to a code. */
  lemma NeverDisputed(kind: Kind, s: Ledger, depth: nat, maxTxSize: nat, feeReceiver: nat, data: Bytes)
    requires !kind.MassMigrations?
    ensures (forall root: Hash :: !CanBeDisputed(kind, s, depth, maxTxSize, feeReceiver, data, root)) <==>
              RightSize(kind, data, maxTxSize) && CommitIsStuck(kind, s, depth, feeReceiver, DecodeAll(kind, data))
  {
    hide CanBeDisputed, LedgerCommit, CommitIsBad, CommitIsStuck, StateRoot, RightSize;
    var v := LedgerCommit(kind, s, depth, maxTxSize, feeReceiver, data);
    CommitVerdict(kind, s, depth, maxTxSize, feeReceiver, data);
    forall root: Hash
      ensures CanBeDisputed(kind, s, depth, maxTxSize, feeReceiver, data, root) <==>
                v.Fails? || (v.Accepts? && StateRoot(v.ledger, depth) != root)
    {
      DisputedIf(kind, s, depth, maxTxSize, feeReceiver, data, root);
    }
    if !v.Reverts? {
      var other := if v.Accepts? && StateRoot(v.ledger, depth) == Empty then Word(0) else Empty;
      assert CanBeDisputed(kind, s, depth, maxTxSize, feeReceiver, data, other);
    }
  }

  /** The input: bytes of the right size whose first transaction has no sender stand with whatever root they claim. */
  lemma MissingSenderStands(kind: Kind, s: Ledger, depth: nat, maxTxSize: nat, feeReceiver: nat, data: Bytes,
                            root: Hash, proofs: seq<StateProof>)
    requires !kind.MassMigrations? && RightSize(kind, data, maxTxSize) && DecodeAll(kind, data) != []
    requires Low(DecodeAll(kind, data)[0].fromIndex, depth) !in s
    ensures !Disputes(kind, StateRoot(s, depth), root, maxTxSize, feeReceiver, data, proofs)
  {
    hide Disputes, DecodeAll, RightSize, Low, StateRoot;
    NeverDisputed(kind, s, depth, maxTxSize, feeReceiver, data);
    assert !CanBeDisputed(kind, s, depth, maxTxSize, feeReceiver, data, root);
  }

  /** In particular: the first `k` transactions go through, the next one has a sender, and it moves nothing, overspends,
      or has the wrong token.  Whatever root the commitment claims, somebody can have it rolled back. */
  lemma OverspendIsDisputed(kind: Kind, s: Ledger, depth: nat, maxTxSize: nat, feeReceiver: nat, data: Bytes, k: nat,
                            tokenID: nat, root: Hash)
    requires !kind.MassMigrations? && RightSize(kind, data, maxTxSize) && k < |DecodeAll(kind, data)|
    requires var txs := DecodeAll(kind, data);
             && Low(txs[0].fromIndex, depth) in s && tokenID == s[Low(txs[0].fromIndex, depth)].tokenID
             && ApplyAll(s, depth, txs, k, tokenID).Accepts? && SumFees(txs, k) < Pow2(256)
             && var l, t := ApplyAll(s, depth, txs, k, tokenID).ledger, txs[k];
             && var from := Low(t.fromIndex, depth);
             && from in l && (t.amount == 0 || l[from].balance < t.amount + t.fee || l[from].tokenID != tokenID)
    ensures exists proofs :: Disputes(kind, StateRoot(s, depth), root, maxTxSize, feeReceiver, data, proofs)
  {
    hide Disputes, DecodeAll, RightSize, ApplyAll, Pow2, Low, StateRoot, SumFees;
    var txs := DecodeAll(kind, data);
    assert BadAt(kind, s, depth, txs, k, tokenID);
    assert CommitIsBad(kind, s, depth, feeReceiver, txs);
    DisputedWhateverClaimed(kind, s, depth, maxTxSize, feeReceiver, data);
    assert CanBeDisputed(kind, s, depth, maxTxSize, feeReceiver, data, root);
  }

  // ------------------------------------------------------------------------------------------------ mass migrations

  /** The withdrawn states: the sender's key, the committed token, the amount, nonce 0. */
  ghost function StatesOut(s: Ledger, depth: nat, txs: seq<Tx>, tokenID: nat): seq<Hash> {
    seq(|txs|, i requires 0 <= i < |txs| =>
      var p := Low(txs[i].fromIndex, depth);
      Leaf(UserState(if p in s then s[p].pubkeyID else 0, tokenID, txs[i].amount, 0)))
  }

  /** What the fee receiver is to get; nothing guards the sum. */
  ghost function MigrationFees(txs: seq<Tx>): nat {
    SumFees(txs, |txs|) % Pow2(256)
  }

  /** The mass migration fails with a code: at some transaction, at the fee receiver's token, or because total or
      withdraw root are not the committed ones. */
  ghost predicate MigrationIsBad(s: Ledger, depth: nat, body: MassMigrationBody, txs: seq<Tx>) {
    || (exists k :: 0 <= k < |txs| && BadAt(MassMigrations, s, depth, txs, k, body.tokenID))
    || (&& Through(MassMigrations, s, depth, txs, |txs|, body.tokenID)
        && var l, to := ApplyAll(s, depth, txs, |txs|, body.tokenID).ledger, Low(body.feeReceiver, depth);
           to in l &&
             if l[to].tokenID != body.tokenID then true else
               && l[to].balance + MigrationFees(txs) < Pow2(256)
               && if SumAmounts(txs, |txs|) % Pow2(256) != body.amount then true else
                    1 <= |txs| <= 32 && Merklized(StatesOut(s, depth, txs, body.tokenID)) != body.withdrawRoot)
  }

  /** Its execution reverts, whatever proofs are given. */
  ghost predicate MigrationIsStuck(s: Ledger, depth: nat, body: MassMigrationBody, txs: seq<Tx>) {
    || (exists k :: 0 <= k < |txs| && StuckAt(MassMigrations, s, depth, txs, k, body.tokenID))
    || (&& Through(MassMigrations, s, depth, txs, |txs|, body.tokenID)
        && var l, to := ApplyAll(s, depth, txs, |txs|, body.tokenID).ledger, Low(body.feeReceiver, depth);
           to in l ==>
             && l[to].tokenID == body.tokenID
             && (|| l[to].balance + MigrationFees(txs) >= Pow2(256)
                 || (SumAmounts(txs, |txs|) % Pow2(256) == body.amount && (txs == [] || |txs| > 32))))
  }

  lemma MigrationsAreRun(s: Ledger, depth: nat, txs: seq<Tx>, tokenID: nat)
    requires AllOf(MassMigrations, txs) && SmallTxs(txs)
    ensures var p := LedgerRun(MassMigrations, s, depth, txs, |txs|, tokenID);
            && (p.LRunning? <==> Through(MassMigrations, s, depth, txs, |txs|, tokenID))
            && (p.LRunning? ==> ApplyAll(s, depth, txs, |txs|, tokenID) == Accepts(p.ledger)
                                && p.totals == Totals(MigrationFees(txs), SumAmounts(txs, |txs|) % Pow2(256),
                                                      StatesOut(s, depth, txs, tokenID)))
            && (p.LStopped? <==> exists k :: 0 <= k < |txs| && BadAt(MassMigrations, s, depth, txs, k, tokenID))
            && (p.LReverted? <==> exists k :: 0 <= k < |txs| && StuckAt(MassMigrations, s, depth, txs, k, tokenID))
  {
    hide LedgerRun, BadAt, StuckAt, Through, SmallTxs, Pow2, ApplyAll, SumFees, SumAmounts;
    RunIs(MassMigrations, s, depth, txs, |txs|, tokenID);
    if LedgerRun(MassMigrations, s, depth, txs, |txs|, tokenID).LRunning? {
      Conservation.RunWithdraws(s, depth, txs, |txs|, tokenID);
    }
  }

  lemma MigrationVerdict(s: Ledger, depth: nat, maxTxSize: nat, body: MassMigrationBody)
    ensures var v := LedgerMassMigration(s, depth, maxTxSize, body);
            var txs := DecodeAll(MassMigrations, body.txs);
            && (v.Fails? <==> !RightSize(MassMigrations, body.txs, maxTxSize) || MigrationIsBad(s, depth, body, txs))
            && (v.Reverts? <==> RightSize(MassMigrations, body.txs, maxTxSize) && MigrationIsStuck(s, depth, body, txs))
            && (|body.txs| % 8 != 0 ==> v == Fails(StateRoot(s, depth), BadCompression))
            && (|body.txs| % 8 == 0 && |body.txs| / 8 > maxTxSize ==> v == Fails(StateRoot(s, depth), TooManyTx))
  {
    hide Decode, DecodeAll, BadAt, StuckAt, Through, Receive, Pow2, Low, LedgerRun, ApplyAll, SumFees, SumAmounts,
      SmallTxs, MigrationFees, StatesOut, Merklized, StateRoot, AllOf;
    var txs := DecodeAll(MassMigrations, body.txs);
    DecodedAreSmall(MassMigrations, body.txs);
    DecodedKind(MassMigrations, body.txs);
    if RightSize(MassMigrations, body.txs, maxTxSize) {
      MigrationsAreRun(s, depth, txs, body.tokenID);
      var p := LedgerRun(MassMigrations, s, depth, txs, |txs|, body.tokenID);
      if p.LRunning? {
        ReceivesIf(p.ledger, Low(body.feeReceiver, depth), body.tokenID, p.totals.fees);
      }
    }
  }

  /** Some proofs dispute the mass migration when it claims this root. */
  ghost predicate MigrationCanBeDisputed(s: Ledger, depth: nat, maxTxSize: nat, body: MassMigrationBody, root: Hash) {
    exists proofs :: DisputesMassMigration(StateRoot(s, depth), root, maxTxSize, body, proofs)
  }

  lemma MigrationDisputedIf(s: Ledger, depth: nat, maxTxSize: nat, body: MassMigrationBody, root: Hash)
    ensures var v := LedgerMassMigration(s, depth, maxTxSize, body);
            MigrationCanBeDisputed(s, depth, maxTxSize, body, root) <==>
              v.Fails? || (v.Accepts? && StateRoot(v.ledger, depth) != root)
  {
    hide DisputesMassMigration, LedgerMassMigration, StateRoot;
    MassMigrationDisputeIsExact(s, depth, root, maxTxSize, body);
    MigrationFailsWithCode(s, depth, maxTxSize, body);
  }

  lemma MigrationFailsWithCode(s: Ledger, depth: nat, maxTxSize: nat, body: MassMigrationBody)
    ensures var v := LedgerMassMigration(s, depth, maxTxSize, body); v.Fails? ==> v.code != Ok
  {
    hide LedgerRun, Merklized, DecodeAll, StateRoot;
    var txs := DecodeAll(MassMigrations, body.txs);
    Conservation.StopsWithCode(MassMigrations, s, depth, txs, |txs|, body.tokenID);
  }

  /** The same laws for mass migrations: which are disputed whatever root they claim, and which never. */
  lemma MigrationDisputedWhateverClaimed(s: Ledger, depth: nat, maxTxSize: nat, body: MassMigrationBody)
    ensures var txs := DecodeAll(MassMigrations, body.txs);
            (forall root: Hash :: MigrationCanBeDisputed(s, depth, maxTxSize, body, root)) <==>
              !RightSize(MassMigrations, body.txs, maxTxSize) || MigrationIsBad(s, depth, body, txs)
    ensures var txs := DecodeAll(MassMigrations, body.txs);
            (forall root: Hash :: !MigrationCanBeDisputed(s, depth, maxTxSize, body, root)) <==>
              RightSize(MassMigrations, body.txs, maxTxSize) && MigrationIsStuck(s, depth, body, txs)
  {
    hide MigrationCanBeDisputed, LedgerMassMigration, MigrationIsBad, MigrationIsStuck, StateRoot, RightSize, DecodeAll;
    var v := LedgerMassMigration(s, depth, maxTxSize, body);
    MigrationVerdict(s, depth, maxTxSize, body);
    forall root: Hash
      ensures MigrationCanBeDisputed(s, depth, maxTxSize, body, root) <==>
                v.Fails? || (v.Accepts? && StateRoot(v.ledger, depth) != root)
    {
      MigrationDisputedIf(s, depth, maxTxSize, body, root);
    }
    var own := if v.Accepts? then StateRoot(v.ledger, depth) else Empty;
    var other := if own == Empty then Word(0) else Empty;
    assert MigrationCanBeDisputed(s, depth, maxTxSize, body, own) <==> v.Fails?;
    assert MigrationCanBeDisputed(s, depth, maxTxSize, body, other) <==> !v.Reverts?;
  }
}
