/** Signature disputes against what the client packs.  As transfers, the chain rebuilds exactly the messages, nonces
    included, that the packed transactions were accepted with, under exactly the senders' registered keys.  As something
    else, a commitment of two or more transfers is checked against messages that nobody signed. */
module PackedSignatures {
  import opened Words
  import opened Merkle
  import opened MerkleTree
  import opened TxCodec
  import opened TxMessages
  import opened Ledger
  import opened Commits
  import opened ClientTransfers
  import opened FraudProofs
  import opened InclusionReadings
  import opened BodyReadings
  import opened MisreadTargets
  import opened SignatureDisputes
  import opened SignatureReadings
  import opened HonestProposer
  import A = Authenticity
  import B = Batches
  import R = Rollups
  import W = WitnessLengths

  /** The message a transaction was signed with. */
  function SignedMessage(t: SignedTx): Message {
    Message(t.tx, t.nonce, Empty, 0)
  }

  function SignedMessages(txs: seq<SignedTx>): (r: seq<Message>)
    ensures |r| == |txs|
  {
    seq(|txs|, i requires 0 <= i < |txs| => SignedMessage(txs[i]))
  }

  lemma {:induction false} FitEarlier(v: View, txs: seq<Tx>, i: nat, n: nat, tokenID: nat)
    requires AllOf(Transfers, txs) && i <= n <= |txs| && TransferredAll(v, txs, n, tokenID).Some?
    requires TransferredAll(v, txs, n, tokenID).value.fit
    ensures TransferredAll(v, txs, i, tokenID).Some? && TransferredAll(v, txs, i, tokenID).value.fit
  {
    if i < n {
      FitEarlier(v, txs, i, n - 1, tokenID);
    }
  }

  lemma {:induction false} NonceRecorded(v: View, txs: seq<Tx>, i: nat, n: nat, tokenID: nat)
    requires AllOf(Transfers, txs) && i < n <= |txs| && TransferredAll(v, txs, n, tokenID).Some?
    ensures |NoncesOf(v, txs, n, tokenID)| == n && TransferredAll(v, txs, i, tokenID).Some?
    ensures var before := TransferredAll(v, txs, i, tokenID).value.ledger;
            && txs[i].fromIndex in before
            && NoncesOf(v, txs, n, tokenID)[i] == SignedTx(txs[i], before[txs[i].fromIndex].nonce)
  {
    hide Received;
    NoncesLength(v, txs, n - 1, tokenID);
    if i < n - 1 {
      NonceRecorded(v, txs, i, n - 1, tokenID);
    }
  }

  lemma {:induction false} NoncesLength(v: View, txs: seq<Tx>, n: nat, tokenID: nat)
    requires AllOf(Transfers, txs) && n <= |txs|
    ensures |NoncesOf(v, txs, n, tokenID)| == n
  {
    if n > 0 {
      NoncesLength(v, txs, n - 1, tokenID);
    }
  }

  lemma NoncesAreForward(v: View, depth: nat, accepted: seq<SignedTx>, tokenID: nat, i: nat)
    requires AllTransfers(accepted) && AllOf(Transfers, TxsOf(accepted)) && i < |accepted| && Storable(v, depth)
    requires TransferredAll(v, TxsOf(accepted), |accepted|, tokenID).Some?
    requires TransferredAll(v, TxsOf(accepted), |accepted|, tokenID).value.fit
    requires NoncesOf(v, TxsOf(accepted), |accepted|, tokenID) == accepted
    ensures accepted[i].tx.fromIndex < Pow2(depth)
    ensures accepted[i].nonce == A.NonceBefore(v.ledger, depth, TxsOf(accepted), tokenID, i)
  {
    hide TransferredAll, NoncesOf, ApplyAll;
    var txs := TxsOf(accepted);
    NonceRecorded(v, txs, i, |txs|, tokenID);
    FitEarlier(v, txs, i, |txs|, tokenID);
    TransferredAllIsApplyAll(v, depth, txs, i, tokenID);
    ShrZero(txs[i].fromIndex, depth);
  }

  /** What packing establishes about the accepted transactions. */
  lemma PackedNonces(v: View, depth: nat, source: seq<SignedTx>, verified: seq<bool>, tokenID: nat, feeReceiver: nat,
                     maxTxs: nat)
    requires AllTransfers(source) && |source| == |verified| && v.fit && Storable(v, depth)
    requires Pack(v, depth, source, verified, tokenID, feeReceiver, maxTxs).Some?
    ensures var packed := Pack(v, depth, source, verified, tokenID, feeReceiver, maxTxs).value;
            var txs := TxsOf(packed.accepted);
            && AllOf(Transfers, txs) && txs != [] && DecodeAll(Transfers, packed.commitment.txs) == txs
            && CommitToken(v.ledger, depth, feeReceiver, txs) == Some(tokenID) && Nonces256(packed.ledger)
            && forall i :: 0 <= i < |txs| ==>
                 packed.accepted[i].nonce == ForwardNonce(v.ledger, depth, txs, tokenID, i)
  {
    hide PackRun, TransferredAll, NoncesOf, CompressedAll, ApplyAll, Compressible, DecodeAll, A.NonceBefore, StateRoot,
      ForwardNonce;
    var packed := Pack(v, depth, source, verified, tokenID, feeReceiver, maxTxs).value;
    var txs := TxsOf(packed.accepted);
    PackRunIsReplay(v, source, verified, |source|, tokenID, maxTxs);
    EncodersAgree(txs);
    RoundTrip(Transfers, txs);
    TransferredAllIsApplyAll(v, depth, txs, |txs|, tokenID);
    FirstToken(v, txs, tokenID);
    ShrZero(txs[0].fromIndex, depth);
    forall i | 0 <= i < |txs|
      ensures txs[i].fromIndex < Pow2(depth)
      ensures packed.accepted[i].nonce == A.NonceBefore(v.ledger, depth, txs, tokenID, i)
    {
      NoncesAreForward(v, depth, packed.accepted, tokenID, i);
    }
    forall i | 0 <= i < |txs|
      ensures packed.accepted[i].nonce == ForwardNonce(v.ledger, depth, txs, tokenID, i)
    {
      NonceIsForward(v.ledger, depth, txs, tokenID, i);
    }
  }

  /** The messages of a packed commitment on forward execution are those that were signed. */
  lemma PackedMessages(v: View, depth: nat, source: seq<SignedTx>, verified: seq<bool>, tokenID: nat, feeReceiver: nat,
                       maxTxs: nat, b: R.Body)
    requires AllTransfers(source) && |source| == |verified| && v.fit && Storable(v, depth)
    requires Pack(v, depth, source, verified, tokenID, feeReceiver, maxTxs).Some?
    requires b == BodyOf(Pack(v, depth, source, verified, tokenID, feeReceiver, maxTxs).value.commitment, b.accountRoot,
                         b.signature)
    ensures var packed := Pack(v, depth, source, verified, tokenID, feeReceiver, maxTxs).value;
            && DecodeAll(Transfers, b.data) == TxsOf(packed.accepted) != [] && Nonces256(packed.ledger)
            && LedgerVerdict(Transfers, v.ledger, depth, maxTxs, b) == Accepts(packed.ledger)
            && OwnMessages(Transfers, v.ledger, depth, b) == SignedMessages(packed.accepted)
  {
    hide PackRun, Received, CompressedAll, LedgerCommit, DecodeAll, StateRoot, ForwardNonce, Nonces256, CommitToken;
    var packed := Pack(v, depth, source, verified, tokenID, feeReceiver, maxTxs).value;
    PackedStandsAsTransfers(v, depth, source, verified, tokenID, feeReceiver, maxTxs);
    PackedNonces(v, depth, source, verified, tokenID, feeReceiver, maxTxs);
    assert OwnMessages(Transfers, v.ledger, depth, b) == SignedMessages(packed.accepted);
  }

  /** Every sender has a key, and under these keys the signature is not one of the messages that were packed. */
  ghost predicate NotAsSigned(post: Ledger, depth: nat, keys: Leaves, keyDepth: nat, accepted: seq<SignedTx>,
                              signature: A.Signature, word: Hash -> Bytes, verifyMultiple: Verifier)
  {
    exists k ::
      && Registered(keys, keyDepth, post, depth, TxsOf(accepted), k)
      && verifyMultiple(signature, k, EncodedAll(word, SignedMessages(accepted))) != A.Valid
  }

  /** Through `disputeSignatureTransfer` a packed commitment is convicted if and only if it is not as signed. */
  lemma PackedSignature(v: View, depth: nat, source: seq<SignedTx>, verified: seq<bool>, tokenID: nat, feeReceiver: nat,
                        maxTxs: nat, b: R.Body, keys: Leaves, keyDepth: nat, word: Hash -> Bytes,
                        verifyMultiple: Verifier)
    requires AllTransfers(source) && |source| == |verified| && v.fit && Storable(v, depth)
    requires Pack(v, depth, source, verified, tokenID, feeReceiver, maxTxs).Some?
    requires b == BodyOf(Pack(v, depth, source, verified, tokenID, feeReceiver, maxTxs).value.commitment, b.accountRoot,
                         b.signature)
    ensures var packed := Pack(v, depth, source, verified, tokenID, feeReceiver, maxTxs).value;
            BadlySigned(Transfers, packed.ledger, depth, keys, keyDepth, b, word, verifyMultiple) <==>
              NotAsSigned(packed.ledger, depth, keys, keyDepth, packed.accepted, b.signature, word, verifyMultiple)
  {
    hide Pack, Storable, LedgerVerdict, BadlySigned, OwnMessages, SignedMessages, DecodeAll, Registered, EncodedAll,
      Nonces256;
    var packed := Pack(v, depth, source, verified, tokenID, feeReceiver, maxTxs).value;
    PackedMessages(v, depth, source, verified, tokenID, feeReceiver, maxTxs, b);
    OneChoice(Transfers, v.ledger, depth, maxTxs, b, packed.ledger, keys, keyDepth, word, verifyMultiple);
  }

  /** Whatever evidence there may be, the signature of a packed commitment can be disputed if and only if it is not as
      signed, or not one of the messages that its bytes give as create2transfers, or, behind four words, as mass
      migrations.  A single transfer is too short for both. */
  lemma PackedSignatures(v: View, depth: nat, source: seq<SignedTx>, verified: seq<bool>, tokenID: nat,
                         feeReceiver: nat, maxTxs: nat, s: B.State, id: nat, here: Posted, path: nat, keys: Leaves,
                         keyDepth: nat, keccak: Bytes -> Hash, word: Hash -> Bytes, b: R.Body, verifyMultiple: Verifier)
    requires AllTransfers(source) && |source| == |verified| && v.fit && Storable(v, depth)
    requires Pack(v, depth, source, verified, tokenID, feeReceiver, maxTxs).Some?
    requires Posts(s, id, here, depth) && LedgerAt(here, path).Some? && Shapes(keccak, word)
    requires var packed := Pack(v, depth, source, verified, tokenID, feeReceiver, maxTxs).value;
             b == BodyOf(packed.commitment, b.accountRoot, b.signature) && LedgerAt(here, path).value == packed.ledger
    requires b.Sized() && HashOf(keccak, word)(b) == W.Named(here, path).value.bodyRoot
    requires Registry(keys, keyDepth, b.accountRoot, word)
    ensures var packed := Pack(v, depth, source, verified, tokenID, feeReceiver, maxTxs).value;
            var bad := NotAsSigned(packed.ledger, depth, keys, keyDepth, packed.accepted, b.signature, word,
                                   verifyMultiple);
            var convicted := SignatureConvicted(s, id, path, HashOf(keccak, word), word, verifyMultiple);
            && (convicted <==>
                  || bad
                  || BadlySigned(Create2Transfers, packed.ledger, depth, keys, keyDepth, b, word, verifyMultiple)
                  || (|b.data| >= 128
                      && BadlySigned(MassMigrations, packed.ledger, depth, keys, keyDepth, TailMigration(b), word,
                                     verifyMultiple)))
            && (|packed.accepted| == 1 ==> (convicted <==> bad))
  {
    hide Pack, Storable, BadlySigned, NotAsSigned, SignatureConvicted, HashOf, Shapes, Registry, StateRoot, Filed,
      W.Named;
    var packed := Pack(v, depth, source, verified, tokenID, feeReceiver, maxTxs).value;
    PackedSignature(v, depth, source, verified, tokenID, feeReceiver, maxTxs, b, keys, keyDepth, word, verifyMultiple);
    TransferSignatures(s, id, here, depth, path, keys, keyDepth, keccak, word, b, verifyMultiple);
    PackedStandsAsTransfers(v, depth, source, verified, tokenID, feeReceiver, maxTxs);
    if |packed.accepted| == 1 && BadlySigned(Create2Transfers, packed.ledger, depth, keys, keyDepth, b, word,
                                             verifyMultiple) {
      TooShortToDispute(Create2Transfers, packed.ledger, depth, keys, keyDepth, b, word, verifyMultiple);
    }
  }

  // ------------------------------------------------------------------------------------------------ the input

  /** A verifier that accepts one list of messages under one list of keys. */
  function OnlyThese(k: seq<nat>, messages: seq<Bytes>): Verifier {
    (signature: A.Signature, k': seq<nat>, m: seq<Bytes>) => if k' == k && m == messages then A.Valid else A.Invalid
  }

  lemma SameFirstSender(data: Bytes)
    requires |data| == 24
    ensures |DecodeAll(Create2Transfers, data)| == 1 && |DecodeAll(Transfers, data)| == 2
    ensures DecodeAll(Create2Transfers, data)[0].fromIndex == DecodeAll(Transfers, data)[0].fromIndex
    ensures DecodeAll(Create2Transfers, data)[0].Create2Transfer?
  {
    hide Mload;
  }

  /** A packed commitment of two transfers reads as one create2transfer of the first sender, to the key ID that the
      amount and fee of the first transfer spell.  Its message is not what anybody signed: signed by exactly its
      senders, the commitment stands as transfers and is convicted as create2transfers. */
  lemma TwoTransfersMisread(v: View, depth: nat, source: seq<SignedTx>, verified: seq<bool>, tokenID: nat,
                            feeReceiver: nat, maxTxs: nat, b: R.Body, keys: Leaves, keyDepth: nat, word: Hash -> Bytes,
                            k: seq<nat>)
    requires AllTransfers(source) && |source| == |verified| && v.fit && Storable(v, depth)
    requires Pack(v, depth, source, verified, tokenID, feeReceiver, maxTxs).Some?
    requires var packed := Pack(v, depth, source, verified, tokenID, feeReceiver, maxTxs).value;
             && b == BodyOf(packed.commitment, b.accountRoot, b.signature) && |packed.accepted| == 2
             && Registered(keys, keyDepth, packed.ledger, depth, TxsOf(packed.accepted), k)
    ensures var packed := Pack(v, depth, source, verified, tokenID, feeReceiver, maxTxs).value;
            var verifyMultiple := OnlyThese(k, EncodedAll(word, SignedMessages(packed.accepted)));
            && !BadlySigned(Transfers, packed.ledger, depth, keys, keyDepth, b, word, verifyMultiple)
            && BadlySigned(Create2Transfers, packed.ledger, depth, keys, keyDepth, b, word, verifyMultiple)
  {
    hide Pack, Storable, LedgerVerdict, OwnMessages, SignedMessages, DecodeAll, KeyAt, EncodedAll, Nonces256, OnTheWay,
      RebuiltMessages, TxsOf;
    var packed := Pack(v, depth, source, verified, tokenID, feeReceiver, maxTxs).value;
    var verifyMultiple := OnlyThese(k, EncodedAll(word, SignedMessages(packed.accepted)));
    PackedSignature(v, depth, source, verified, tokenID, feeReceiver, maxTxs, b, keys, keyDepth, word, verifyMultiple);
    PackedMessages(v, depth, source, verified, tokenID, feeReceiver, maxTxs, b);
    PackedStandsAsTransfers(v, depth, source, verified, tokenID, feeReceiver, maxTxs);
    SameFirstSender(b.data);
    RebuiltIsForward(Transfers, v.ledger, depth, maxTxs, b, packed.ledger, NoReceivers(2));
    var txs := DecodeAll(Create2Transfers, b.data);
    var receivers := [Root(keys, keyDepth)];
    RootOnTheWay(keys, keyDepth, txs[0].toPubkeyID);
    assert SenderKey(keys, keyDepth, packed.ledger, depth, txs[0]) == Some(k[0]);
    assert Rejects(Create2Transfers, packed.ledger, depth, keys, keyDepth, b, word, verifyMultiple, [k[0]], receivers);
  }

  function TwoPayments(): seq<SignedTx> {
    [SignedTx(Transfer(0, 1, 1, 0), 0), SignedTx(Transfer(0, 1, 1, 0), 1)]
  }

  lemma Positions(depth: nat)
    requires depth > 0
    ensures 1 < Pow2(depth) && Low(0, depth) == 0
  {
    assert Pow2(1) == 2;
    Pow2Grows(1, depth);
    ShrZero(0, depth);
  }

  lemma FirstKey(keyDepth: nat)
    ensures KeyAt(map[0 := Word(7)], keyDepth, 0) == Some(7)
  {
    ShrZero(0, keyDepth);
  }

  lemma TwoAccepted()
    ensures PackRun(Holding(2, 0), TwoPayments(), [true, true], 2, 0, 32) == Packing(TwoPayments(), [], Holding(0, 2))
    ensures Received(Holding(0, 2), 0, 0, 0) == Some(Holding(0, 2))
  {
    hide Acceptable, Transferred;
    var v, source := Holding(2, 0), TwoPayments();
    OnePayment(2, 0, 0);
    OnePayment(1, 1, 1);
    assert PackRun(v, source, [true, true], 0, 0, 32) == Packing([], [], v);
    assert PackRun(v, source, [true, true], 1, 0, 32) == Packing([source[0]], [], Holding(1, 1));
    assert [source[0]] + [source[1]] == source;
    assert Holding(0, 2).ledger[0 := UserState(0, 0, 0, 2)] == Holding(0, 2).ledger;
  }

  lemma TwoCompressed()
    ensures CompressedAll(TxsOf(TwoPayments())).Some? && SumFees(TxsOf(TwoPayments()), 2) == 0
  {
    var t := Transfer(0, 1, 1, 0);
    var txs := TxsOf(TwoPayments());
    assert txs == [t, t];
    SmallCodes();
    assert Compressible(t);
    EncodersAgree(txs);
    assert SumFees(txs, 0) == 0 && SumFees(txs, 1) == 0;
  }

  /** What is left of one account and has come to the other. */
  function Holding(left: nat, gone: nat): View {
    View(map[0 := UserState(0, 0, left, gone), 1 := UserState(1, 0, gone, 0)], true)
  }

  lemma OnePayment(left: nat, gone: nat, nonce: nat)
    requires 0 < left < 10 && gone == nonce < 10
    ensures Acceptable(Holding(left, gone), SignedTx(Transfer(0, 1, 1, 0), nonce), 0, true)
    ensures Transferred(Holding(left, gone), Transfer(0, 1, 1, 0), 0) == Some(Holding(left - 1, gone + 1))
  {
    var v := Holding(left, gone);
    var paid := v.ledger[0 := UserState(0, 0, left - 1, gone + 1)];
    assert paid[1 := UserState(1, 0, gone + 1, 0)] == Holding(left - 1, gone + 1).ledger;
  }

  /** There is such a commitment: two payments from an account with a registered key. */
  lemma TwoTransfersPacked(depth: nat, keyDepth: nat)
    requires depth > 0
    ensures var v := View(map[0 := UserState(0, 0, 2, 0), 1 := UserState(1, 0, 0, 0)], true);
            var source := [SignedTx(Transfer(0, 1, 1, 0), 0), SignedTx(Transfer(0, 1, 1, 0), 1)];
            && AllTransfers(source) && Storable(v, depth)
            && var packed := Pack(v, depth, source, [true, true], 0, 0, 32);
            && packed.Some? && packed.value.accepted == source
            && Registered(map[0 := Word(7)], keyDepth, packed.value.ledger, depth, TxsOf(source), [7, 7])
  {
    hide StateRoot, PackRun, Received, CompressedAll, KeyAt;
    var source := TwoPayments();
    Positions(depth);
    TwoAccepted();
    TwoCompressed();
    assert Pack(Holding(2, 0), depth, source, [true, true], 0, 0, 32).value.ledger == Holding(0, 2).ledger;
    assert KeyAt(map[0 := Word(7)], keyDepth, 0) == Some(7) by { FirstKey(keyDepth); }
  }
}
