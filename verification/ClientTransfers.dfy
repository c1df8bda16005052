/** ts/client/features/transfer.ts and ts/client/stateTransitions.ts: the proposer packs a commitment from a stream of
    transactions, the syncer replays it from its bytes. */
module ClientTransfers {
  import opened Words
  import opened Merkle
  import opened MerkleTree
  import opened Decimal
  import opened TxCodec
  import opened Ledger
  import SE = StorageEngines
  import ST = StateTrees

  datatype SignedTx = SignedTx(tx: Tx, nonce: nat)

  datatype Commitment = Commitment(stateRoot: Hash, feeReceiver: nat, txs: Bytes)

  /** A ledger that is being written, and whether everything written so far can be hashed at the commit. */
  datatype View = View(ledger: Ledger, fit: bool)

  function Write(v: View, id: nat, state: UserState): View {
    View(v.ledger[id := state], v.fit && ST.Fits(state))
  }

  // ------------------------------------------------------------------------------------------------ single steps

  predicate SenderOk(state: UserState, tokenID: nat, amount: nat, fee: nat) {
    amount != 0 && state.balance >= amount + fee && state.tokenID == tokenID
  }

  function Sent(v: View, id: nat, tokenID: nat, amount: nat, fee: nat): Option<View> {
    if id !in v.ledger || !SenderOk(v.ledger[id], tokenID, amount, fee) then None else
      var state := v.ledger[id];
      Some(Write(v, id, state.(balance := state.balance - (amount + fee), nonce := state.nonce + 1)))
  }

  function Received(v: View, id: nat, increment: nat, tokenID: nat): Option<View> {
    if id !in v.ledger || v.ledger[id].tokenID != tokenID then None else
      Some(Write(v, id, v.ledger[id].(balance := v.ledger[id].balance + increment)))
  }

  function Transferred(v: View, t: Tx, tokenID: nat): Option<View>
    requires t.Transfer?
  {
    var sent := Sent(v, t.fromIndex, tokenID, t.amount, t.fee);
    if sent.None? then None else Received(sent.value, t.toIndex, t.amount, tokenID)
  }

  function TransferredAll(v: View, txs: seq<Tx>, n: nat, tokenID: nat): Option<View>
    requires AllOf(Transfers, txs) && n <= |txs|
  {
    if n == 0 then Some(v) else
      var before := TransferredAll(v, txs, n - 1, tokenID);
      if before.None? then None else Transferred(before.value, txs[n - 1], tokenID)
  }

  /** An engine as a view. */
  ghost function Seen(e: SE.MemoryEngine): View
    reads e
  {
    View(e.View(), SE.AllFit(e.journal))
  }

  ghost predicate Ready(e: SE.MemoryEngine)
    reads e, e.tree
  {
    e.Valid() && e.Clean() && forall p :: p in e.View() ==> p < e.tree.setSize && p < TWO_31
  }

  lemma OneMoreEntry(journal: seq<SE.Entry>, e: SE.Entry)
    ensures SE.AllFit(journal + [e]) <==> SE.AllFit(journal) && ST.Fits(e.item)
  {
    var j := journal + [e];
    assert j[|journal|] == e && forall i :: 0 <= i < |journal| ==> j[i] == journal[i];
  }

  /** An update of an account that is there, on the view. */
  method Put(id: nat, state: UserState, engine: SE.MemoryEngine)
    requires Ready(engine) && id in engine.View()
    modifies engine`cache, engine`journal
    ensures Ready(engine) && engine.items == old(engine.items)
    ensures Seen(engine) == Write(old(Seen(engine)), id, state)
  {
    hide SE.AllFit, ST.Fits;
    OneMoreEntry(engine.journal, SE.Entry(id, state));
    var u := engine.Update(id, state);
  }

  method ProcessSender(senderID: nat, tokenID: nat, amount: nat, fee: nat, engine: SE.MemoryEngine) returns (ok: bool)
    requires Ready(engine)
    modifies engine`cache, engine`journal
    ensures Ready(engine) && engine.items == old(engine.items)
    ensures ok == Sent(old(Seen(engine)), senderID, tokenID, amount, fee).Some?
    ensures Seen(engine) == if ok then Sent(old(Seen(engine)), senderID, tokenID, amount, fee).value
                            else old(Seen(engine))
  {
    hide SE.AllFit, ST.Fits;
    SenderIsRead(engine, senderID);
    var state := engine.Get(senderID);
    if state.Failure? || amount == 0 || state.value.balance < amount + fee || state.value.tokenID != tokenID {
      return false;
    }
    var postState := state.value.(balance := state.value.balance - (amount + fee), nonce := state.value.nonce + 1);
    Put(senderID, postState, engine);
    return true;
  }

  method ProcessReceiver(receiverID: nat, increment: nat, tokenID: nat, engine: SE.MemoryEngine) returns (ok: bool)
    requires Ready(engine)
    modifies engine`cache, engine`journal
    ensures Ready(engine) && engine.items == old(engine.items)
    ensures ok == Received(old(Seen(engine)), receiverID, increment, tokenID).Some?
    ensures Seen(engine) == if ok then Received(old(Seen(engine)), receiverID, increment, tokenID).value
                            else old(Seen(engine))
  {
    hide SE.AllFit, ST.Fits;
    SenderIsRead(engine, receiverID);
    var state := engine.Get(receiverID);
    if state.Failure? || state.value.tokenID != tokenID {
      return false;
    }
    var postState := state.value.(balance := state.value.balance + increment);
    Put(receiverID, postState, engine);
    return true;
  }

  method ProcessTransfer(t: Tx, tokenID: nat, engine: SE.MemoryEngine) returns (ok: bool)
    requires Ready(engine) && t.Transfer?
    modifies engine`cache, engine`journal
    ensures Ready(engine) && engine.items == old(engine.items)
    ensures ok == Transferred(old(Seen(engine)), t, tokenID).Some?
    ensures ok ==> Seen(engine) == Transferred(old(Seen(engine)), t, tokenID).value
  {
    hide Sent, Received;
    ok := ProcessSender(t.fromIndex, tokenID, t.amount, t.fee, engine);
    if ok {
      ok := ProcessReceiver(t.toIndex, t.amount, tokenID, engine);
    }
  }

  // ------------------------------------------------------------------------------------------------ decoding

  /** `deserialize` of one 12-byte slice. */
  function Deserialize(b: Bytes): Tx
    requires |b| == 12
  {
    Transfer(BigEndian(b[0..4]), BigEndian(b[4..8]), Decompress(BigEndian(b[8..10])), Decompress(BigEndian(b[10..12])))
  }

  method DecompressTxs(data: Bytes) returns (r: Option<seq<Tx>>)
    ensures r == if HasExcessData(Transfers, data) then None else Some(DecodeAll(Transfers, data))
  {
    if |data| % 12 != 0 {
      return None;
    }
    var txs := [];
    var i := 0;
    while i < |data|
      invariant i == 12 * |txs| <= |data|
      invariant forall k :: 0 <= k < |txs| ==> txs[k] == Decode(Transfers, data, k)
    {
      SliceDecodes(data, |txs|);
      txs := txs + [Deserialize(data[i..i + 12])];
      i := i + 12;
    }
    assert txs == DecodeAll(Transfers, data);
    return Some(txs);
  }

  /** The client's slicing and the contract's overlapping reads decode the same transaction. */
  lemma SliceDecodes(data: Bytes, k: nat)
    requires 12 * k + 12 <= |data|
    ensures Deserialize(data[12 * k..12 * k + 12]) == Decode(Transfers, data, k)
  {
    hide Decompress, Mload, BigEndian;
    var p := 12 * k;
    var b := data[p..p + 12];
    assert Pow256(4) == 0x1_0000_0000;
    SubSlice(data, p, b, 0, 4);
    SubSlice(data, p, b, 4, 4);
    SubSlice(data, p, b, 8, 2);
    SubSlice(data, p, b, 10, 2);
    FieldRead(data, p + 4, 4);
    FieldRead(data, p + 8, 4);
    DecimalRead(data, p + 10);
    DecimalRead(data, p + 12);
  }

  // ------------------------------------------------------------------------------------------------ the syncer

  /** Nonces that the transactions must have been signed with. */
  function NoncesOf(v: View, txs: seq<Tx>, n: nat, tokenID: nat): seq<SignedTx>
    requires AllOf(Transfers, txs) && n <= |txs|
  {
    if n == 0 then [] else
      var before := TransferredAll(v, txs, n - 1, tokenID);
      var from := txs[n - 1].fromIndex;
      NoncesOf(v, txs, n - 1, tokenID)
        + [SignedTx(txs[n - 1],
                    if before.Some? && from in before.value.ledger then before.value.ledger[from].nonce else 0)]
  }

  /** The ledger after a commitment of these transactions: accepted by every step, and every state can be hashed. */
  function Committed(v: View, txs: seq<Tx>, tokenID: nat, feeReceiver: nat): Option<Ledger>
    requires AllOf(Transfers, txs)
  {
    var after := TransferredAll(v, txs, |txs|, tokenID);
    if after.None? then None else
      var paid := Received(after.value, feeReceiver, SumFees(txs, |txs|), tokenID);
      if paid.None? || !paid.value.fit then None else Some(paid.value.ledger)
  }

  function Replayed(v: View, depth: nat, c: Commitment, maxTxs: nat): Option<(seq<SignedTx>, Ledger)> {
    var txs := DecodeAll(Transfers, c.txs);
    if HasExcessData(Transfers, c.txs) || |txs| > maxTxs || txs == [] || txs[0].fromIndex !in v.ledger then None else
      var tokenID := v.ledger[txs[0].fromIndex].tokenID;
      DecodedKind(c.txs);
      match Committed(v, txs, tokenID, c.feeReceiver)
      case None => None
      case Some(ledger) =>
        if StateRoot(ledger, depth) != c.stateRoot then None else Some((NoncesOf(v, txs, |txs|, tokenID), ledger))
  }

  lemma DecodedKind(data: Bytes)
    ensures AllOf(Transfers, DecodeAll(Transfers, data))
  {
  }

  lemma {:induction false} NoneStays(v: View, txs: seq<Tx>, i: nat, n: nat, tokenID: nat)
    requires AllOf(Transfers, txs) && i <= n <= |txs|
    ensures TransferredAll(v, txs, n, tokenID).Some? ==> TransferredAll(v, txs, i, tokenID).Some?
  {
    if i < n {
      NoneStays(v, txs, i, n - 1, tokenID);
    }
  }

  /** The loop of `process`. */
  method ReplayTxs(txs: seq<Tx>, tokenID: nat, engine: SE.MemoryEngine)
    returns (ok: bool, offchainTxs: seq<SignedTx>, fees: nat)
    requires Ready(engine) && AllOf(Transfers, txs)
    modifies engine`cache, engine`journal
    ensures Ready(engine) && engine.items == old(engine.items)
    ensures ok == TransferredAll(old(Seen(engine)), txs, |txs|, tokenID).Some?
    ensures ok ==>
              && TransferredAll(old(Seen(engine)), txs, |txs|, tokenID) == Some(Seen(engine))
              && offchainTxs == NoncesOf(old(Seen(engine)), txs, |txs|, tokenID) && fees == SumFees(txs, |txs|)
  {
    hide Transferred, Ready, Seen;
    ghost var v := Seen(engine);
    offchainTxs, fees := [], 0;
    for i := 0 to |txs|
      invariant Ready(engine) && engine.items == old(engine.items)
      invariant TransferredAll(v, txs, i, tokenID) == Some(Seen(engine))
      invariant offchainTxs == NoncesOf(v, txs, i, tokenID) && fees == SumFees(txs, i)
    {
      NoneStays(v, txs, i + 1, |txs|, tokenID);
      SenderIsThere(Seen(engine), txs[i], tokenID);
      SenderIsRead(engine, txs[i].fromIndex);
      var sender := engine.Get(txs[i].fromIndex);
      if sender.Failure? {
        return false, offchainTxs, fees;
      }
      offchainTxs := offchainTxs + [SignedTx(txs[i], sender.value.nonce)];
      ok := ProcessTransfer(txs[i], tokenID, engine);
      if !ok {
        return;
      }
      fees := fees + txs[i].fee;
    }
    ok := true;
  }

  lemma SenderIsRead(engine: SE.MemoryEngine, id: nat)
    requires Ready(engine)
    ensures engine.Get(id).Success? <==> id in Seen(engine).ledger
    ensures engine.Get(id).Success? ==> engine.Get(id).value == Seen(engine).ledger[id]
  {
    assert id in engine.View() ==> id < engine.tree.setSize;
  }

  method Process(commitment: Commitment, engine: SE.MemoryEngine, maxTxs: nat) returns (r: Option<seq<SignedTx>>)
    requires Ready(engine)
    modifies engine, engine.tree
    ensures var replayed := Replayed(old(Seen(engine)), engine.tree.depth, commitment, maxTxs);
            if replayed.None? then r.None? else
              && r == Some(replayed.value.0)
              && engine.Valid() && engine.Clean() && engine.journal == [] && engine.items == replayed.value.1
              && engine.RootNode() == commitment.stateRoot
  {
    hide TransferredAll, Received, DecodeAll, HasExcessData, NoncesOf, ST.Fits, SumFees, SE.AllFit;
    DecodedKind(commitment.txs);
    var decoded := DecompressTxs(commitment.txs);
    if decoded.None? || |decoded.value| > maxTxs || |decoded.value| == 0 {
      return None;
    }
    var txs := decoded.value;
    SenderIsRead(engine, txs[0].fromIndex);
    var first := engine.Get(txs[0].fromIndex);
    if first.Failure? {
      return None;
    }
    var ok, offchainTxs, fees := ReplayTxs(txs, first.value.tokenID, engine);
    if ok {
      ok := ProcessReceiver(commitment.feeReceiver, fees, first.value.tokenID, engine);
    }
    if !ok {
      return None;
    }
    SE.ReplayIsOverlay(engine.items, engine.journal);
    var c := engine.Commit();
    if c.Failure? || engine.RootNode() != commitment.stateRoot {
      return None;
    }
    return Some(offchainTxs);
  }

  lemma SenderIsThere(v: View, t: Tx, tokenID: nat)
    requires t.Transfer?
    ensures Transferred(v, t, tokenID).Some? ==> t.fromIndex in v.ledger
  {
  }

  // ------------------------------------------------------------------------------------------------ the proposer

  datatype Packing = Packing(accepted: seq<SignedTx>, failed: seq<SignedTx>, view: View)

  /** `validateTransferStateTransition`.  `verified` stands for what is not modelled of it: the public key is found, the
      signature is right, and the two nonce objects compare as equal. */
  predicate Acceptable(v: View, s: SignedTx, tokenID: nat, verified: bool)
    requires s.tx.Transfer?
  {
    && s.tx.fromIndex in v.ledger && s.tx.toIndex in v.ledger
    && SenderOk(v.ledger[s.tx.fromIndex], tokenID, s.tx.amount, s.tx.fee)
    && v.ledger[s.tx.toIndex].tokenID == tokenID
    && s.nonce == v.ledger[s.tx.fromIndex].nonce
    && verified
  }

  lemma AcceptableIsTransferred(v: View, s: SignedTx, tokenID: nat, verified: bool)
    requires s.tx.Transfer? && Acceptable(v, s, tokenID, verified)
    ensures Transferred(v, s.tx, tokenID).Some?
    ensures s.tx.fromIndex in v.ledger && v.ledger[s.tx.fromIndex].nonce == s.nonce
  {
  }

  ghost predicate AllTransfers(txs: seq<SignedTx>) {
    forall i :: 0 <= i < |txs| ==> txs[i].tx.Transfer?
  }

  function TxsOf(txs: seq<SignedTx>): seq<Tx> {
    seq(|txs|, i requires 0 <= i < |txs| => txs[i].tx)
  }

  /** One transaction from the source; a full commitment takes no more. */
  function PackStep(p: Packing, s: SignedTx, tokenID: nat, verified: bool, maxTxs: nat): Packing
    requires s.tx.Transfer?
  {
    if |p.accepted| >= maxTxs then p
    else if !Acceptable(p.view, s, tokenID, verified) then p.(failed := p.failed + [s])
    else
      AcceptableIsTransferred(p.view, s, tokenID, verified);
      Packing(p.accepted + [s], p.failed, Transferred(p.view, s.tx, tokenID).value)
  }

  function PackRun(v: View, source: seq<SignedTx>, verified: seq<bool>, n: nat, tokenID: nat, maxTxs: nat): Packing
    requires AllTransfers(source) && n <= |source| == |verified|
  {
    if n == 0 then Packing([], [], v)
    else PackStep(PackRun(v, source, verified, n - 1, tokenID, maxTxs), source[n - 1], tokenID, verified[n - 1], maxTxs)
  }

  /** What becomes of one transaction: a full commitment leaves it alone; otherwise it is taken if both accounts are
      there in the right token, it moves something, the sender can pay it and the fee, the nonce is the sender's, and
      its signature was found right; if not, it is put with the failed ones. */
  lemma PackStepIs(p: Packing, s: SignedTx, tokenID: nat, verified: bool, maxTxs: nat)
    requires s.tx.Transfer?
    ensures var q, l, t := PackStep(p, s, tokenID, verified, maxTxs), p.view.ledger, s.tx;
            if |p.accepted| >= maxTxs then q == p
            else if && t.fromIndex in l && t.toIndex in l && l[t.fromIndex].tokenID == tokenID == l[t.toIndex].tokenID
                    && t.amount > 0 && l[t.fromIndex].balance >= t.amount + t.fee && l[t.fromIndex].nonce == s.nonce
                    && verified
            then q.accepted == p.accepted + [s] && q.failed == p.failed
            else q == p.(failed := p.failed + [s])
  {
  }

  /** Nothing is packed whose signature was not found right, and every transaction is packed, or has failed, or was
      left because the commitment was full. */
  lemma {:induction false} PackedWereVerified(v: View, source: seq<SignedTx>, verified: seq<bool>, n: nat, tokenID: nat,
                                              maxTxs: nat)
    requires AllTransfers(source) && n <= |source| == |verified|
    ensures var p := PackRun(v, source, verified, n, tokenID, maxTxs);
            && (forall s :: s in p.accepted ==> exists i :: 0 <= i < n && source[i] == s && verified[i])
            && |p.accepted| + |p.failed| <= n
            && (|p.accepted| < maxTxs ==> multiset(p.accepted) + multiset(p.failed) == multiset(source[..n]))
  {
    hide PackStep, SenderOk;
    if n > 0 {
      var before, s := PackRun(v, source, verified, n - 1, tokenID, maxTxs), source[n - 1];
      PackedWereVerified(v, source, verified, n - 1, tokenID, maxTxs);
      PackStepSorts(before, s, tokenID, verified[n - 1], maxTxs);
      assert source[..n] == source[..n - 1] + [s];
    }
  }

  lemma PackStepSorts(p: Packing, s: SignedTx, tokenID: nat, verified: bool, maxTxs: nat)
    requires s.tx.Transfer?
    ensures var q := PackStep(p, s, tokenID, verified, maxTxs);
            || (q == p && |p.accepted| >= maxTxs)
            || (q.accepted == p.accepted + [s] && q.failed == p.failed && verified)
            || (q.accepted == p.accepted && q.failed == p.failed + [s])
  {
    hide Transferred;
  }

  lemma {:induction false} PackRunIsReplay(v: View, source: seq<SignedTx>, verified: seq<bool>, n: nat, tokenID: nat,
                                           maxTxs: nat)
    requires AllTransfers(source) && n <= |source| == |verified|
    ensures var p := PackRun(v, source, verified, n, tokenID, maxTxs);
            var txs := TxsOf(p.accepted);
            && AllTransfers(p.accepted) && AllOf(Transfers, txs) && |p.accepted| <= maxTxs
            && TransferredAll(v, txs, |txs|, tokenID) == Some(p.view)
            && NoncesOf(v, txs, |txs|, tokenID) == p.accepted
  {
    hide TransferredAll, NoncesOf, PackStep;
    if n > 0 {
      PackRunIsReplay(v, source, verified, n - 1, tokenID, maxTxs);
      var before := PackRun(v, source, verified, n - 1, tokenID, maxTxs);
      PackStepIsReplay(v, before, source[n - 1], tokenID, verified[n - 1], maxTxs);
    } else {
      assert TransferredAll(v, TxsOf([]), 0, tokenID) == Some(v) && NoncesOf(v, TxsOf([]), 0, tokenID) == [] by {
        NothingYet(v, TxsOf([]), tokenID);
      }
    }
  }

  lemma NothingYet(v: View, txs: seq<Tx>, tokenID: nat)
    requires AllOf(Transfers, txs)
    ensures TransferredAll(v, txs, 0, tokenID) == Some(v) && NoncesOf(v, txs, 0, tokenID) == []
  {
  }

  lemma PackStepIsReplay(v: View, p: Packing, s: SignedTx, tokenID: nat, verified: bool, maxTxs: nat)
    requires s.tx.Transfer? && AllTransfers(p.accepted) && AllOf(Transfers, TxsOf(p.accepted)) && |p.accepted| <= maxTxs
    requires TransferredAll(v, TxsOf(p.accepted), |p.accepted|, tokenID) == Some(p.view)
    requires NoncesOf(v, TxsOf(p.accepted), |p.accepted|, tokenID) == p.accepted
    ensures var after := PackStep(p, s, tokenID, verified, maxTxs);
            var txs := TxsOf(after.accepted);
            && AllTransfers(after.accepted) && AllOf(Transfers, txs) && |after.accepted| <= maxTxs
            && TransferredAll(v, txs, |txs|, tokenID) == Some(after.view)
            && NoncesOf(v, txs, |txs|, tokenID) == after.accepted
  {
    hide Transferred, Acceptable;
    var after := PackStep(p, s, tokenID, verified, maxTxs);
    if |after.accepted| > |p.accepted| {
      AcceptableIsTransferred(p.view, s, tokenID, verified);
      assert TxsOf(after.accepted) == TxsOf(p.accepted) + [s.tx];
      TransferredPrefix(v, TxsOf(p.accepted), s.tx, |p.accepted|, tokenID);
    }
  }

  lemma {:induction false} TransferredPrefix(v: View, txs: seq<Tx>, t: Tx, n: nat, tokenID: nat)
    requires AllOf(Transfers, txs) && t.Transfer? && n <= |txs|
    ensures AllOf(Transfers, txs + [t])
    ensures TransferredAll(v, txs + [t], n, tokenID) == TransferredAll(v, txs, n, tokenID)
    ensures NoncesOf(v, txs + [t], n, tokenID) == NoncesOf(v, txs, n, tokenID)
  {
    hide Transferred;
    if n > 0 {
      TransferredPrefix(v, txs, t, n - 1, tokenID);
    }
  }

  datatype Packed = Packed(commitment: Commitment, accepted: seq<SignedTx>, failed: seq<SignedTx>, ledger: Ledger)

  function Pack(v: View, depth: nat, source: seq<SignedTx>, verified: seq<bool>, tokenID: nat, feeReceiver: nat,
                maxTxs: nat): Option<Packed>
    requires AllTransfers(source) && |source| == |verified|
  {
    var p := PackRun(v, source, verified, |source|, tokenID, maxTxs);
    var txs := TxsOf(p.accepted);
    var paid := Received(p.view, feeReceiver, SumFees(txs, |txs|), tokenID);
    if txs == [] || paid.None? || !paid.value.fit || CompressedAll(txs).None? then None
    else Some(Packed(Commitment(StateRoot(paid.value.ledger, depth), feeReceiver, CompressedAll(txs).value),
                     p.accepted, p.failed, paid.value.ledger))
  }

  /** The two lists a packed commitment comes with: what was packed had its signature found right, and unless the
      commitment is full, packed and failed are together the whole stream. */
  lemma PackReports(v: View, depth: nat, source: seq<SignedTx>, verified: seq<bool>, tokenID: nat, feeReceiver: nat,
                    maxTxs: nat)
    requires AllTransfers(source) && |source| == |verified|
    requires Pack(v, depth, source, verified, tokenID, feeReceiver, maxTxs).Some?
    ensures var packed := Pack(v, depth, source, verified, tokenID, feeReceiver, maxTxs).value;
            && 1 <= |packed.accepted| <= maxTxs
            && (forall s :: s in packed.accepted ==> exists i :: 0 <= i < |source| && source[i] == s && verified[i])
            && (|packed.accepted| < maxTxs ==>
                  multiset(packed.accepted) + multiset(packed.failed) == multiset(source))
  {
    hide PackRun, Received, CompressedAll, TransferredAll, NoncesOf;
    PackedWereVerified(v, source, verified, |source|, tokenID, maxTxs);
    PackRunIsReplay(v, source, verified, |source|, tokenID, maxTxs);
    assert source[..|source|] == source;
  }

  /** The loop of `pack`: it pops one transaction more before it notices that the commitment is full. */
  method PackTxs(source: seq<SignedTx>, verified: seq<bool>, tokenID: nat, engine: SE.MemoryEngine, maxTxs: nat)
    returns (accepted: seq<SignedTx>, failed: seq<SignedTx>)
    requires Ready(engine) && AllTransfers(source) && |source| == |verified|
    modifies engine`cache, engine`journal
    ensures Ready(engine) && engine.items == old(engine.items)
    ensures PackRun(old(Seen(engine)), source, verified, |source|, tokenID, maxTxs)
         == Packing(accepted, failed, Seen(engine))
  {
    hide Ready, Seen, Transferred;
    ghost var v := Seen(engine);
    accepted, failed := [], [];
    for i := 0 to |source|
      invariant Ready(engine) && engine.items == old(engine.items)
      invariant PackRun(v, source, verified, i, tokenID, maxTxs) == Packing(accepted, failed, Seen(engine))
    {
      if |accepted| >= maxTxs {
        FullStays(v, source, verified, i, tokenID, maxTxs);
        break;
      }
      var s := source[i];
      SenderIsRead(engine, s.tx.fromIndex);
      SenderIsRead(engine, s.tx.toIndex);
      var sender, receiver := engine.Get(s.tx.fromIndex), engine.Get(s.tx.toIndex);
      if sender.Failure? || receiver.Failure? || !SenderOk(sender.value, tokenID, s.tx.amount, s.tx.fee)
         || receiver.value.tokenID != tokenID || s.nonce != sender.value.nonce || !verified[i] {
        failed := failed + [s];
        continue;
      }
      AcceptableIsTransferred(Seen(engine), s, tokenID, verified[i]);
      var ok := ProcessTransfer(s.tx, tokenID, engine);
      accepted := accepted + [s];
    }
  }

  lemma {:induction false} FullStays(v: View, source: seq<SignedTx>, verified: seq<bool>, i: nat, tokenID: nat,
                                     maxTxs: nat)
    requires AllTransfers(source) && i <= |source| == |verified|
    requires |PackRun(v, source, verified, i, tokenID, maxTxs).accepted| >= maxTxs
    ensures PackRun(v, source, verified, |source|, tokenID, maxTxs) == PackRun(v, source, verified, i, tokenID, maxTxs)
    decreases |source| - i
  {
    if i < |source| {
      FullStays(v, source, verified, i + 1, tokenID, maxTxs);
    }
  }

  method PackCommitment(source: seq<SignedTx>, verified: seq<bool>, tokenID: nat, feeReceiver: nat,
                        engine: SE.MemoryEngine, maxTxs: nat) returns (r: Option<Packed>)
    requires Ready(engine) && AllTransfers(source) && |source| == |verified|
    modifies engine, engine.tree
    ensures r == Pack(old(Seen(engine)), engine.tree.depth, source, verified, tokenID, feeReceiver, maxTxs)
    ensures r.Some? ==> engine.Valid() && engine.Clean() && engine.journal == [] && engine.items == r.value.ledger
  {
    hide PackRun, Received, CompressedAll;
    var accepted, failed := PackTxs(source, verified, tokenID, engine, maxTxs);
    if |accepted| == 0 {
      return None;
    }
    var txs := TxsOf(accepted);
    var fees := SumFees(txs, |txs|);
    var paid := ProcessReceiver(feeReceiver, fees, tokenID, engine);
    if !paid {
      return None;
    }
    SE.ReplayIsOverlay(engine.items, engine.journal);
    var c := engine.Commit();
    var bytes := CompressedAll(txs);
    if c.Failure? || bytes.None? {
      return None;
    }
    return Some(Packed(Commitment(engine.RootNode(), feeReceiver, bytes.value), accepted, failed, engine.items));
  }

  // ------------------------------------------------------------------------------------------------ they agree

  /** Every commitment that packing returns, for any stream of valid and invalid transactions, replays on an equal
      ledger without error to the same ledger and root, and gives back exactly the accepted transactions with their
      nonces. */
  lemma ProposerAndSyncerAgree(v: View, depth: nat, source: seq<SignedTx>, verified: seq<bool>, tokenID: nat,
                               feeReceiver: nat, maxTxs: nat)
    requires AllTransfers(source) && |source| == |verified|
    requires Pack(v, depth, source, verified, tokenID, feeReceiver, maxTxs).Some?
    ensures var packed := Pack(v, depth, source, verified, tokenID, feeReceiver, maxTxs).value;
            Replayed(v, depth, packed.commitment, maxTxs) == Some((packed.accepted, packed.ledger))
  {
    hide PackRun, TransferredAll, NoncesOf, Compressible, CompressedAll, HasExcessData, DecodeAll;
    var packed := Pack(v, depth, source, verified, tokenID, feeReceiver, maxTxs).value;
    PackRunIsReplay(v, source, verified, |source|, tokenID, maxTxs);
    var txs := TxsOf(packed.accepted);
    EncodersAgree(txs);
    RoundTrip(Transfers, txs);
    FirstToken(v, txs, tokenID);
  }

  lemma FirstToken(v: View, txs: seq<Tx>, tokenID: nat)
    requires AllOf(Transfers, txs) && txs != [] && TransferredAll(v, txs, |txs|, tokenID).Some?
    ensures txs[0].fromIndex in v.ledger && v.ledger[txs[0].fromIndex].tokenID == tokenID
  {
    NoneStays(v, txs, 1, |txs|, tokenID);
    assert TransferredAll(v, txs, 0, tokenID) == Some(v);
    assert TransferredAll(v, txs, 1, tokenID) == Transferred(v, txs[0], tokenID);
  }
}
