/** Signature disputes, as what a commitment is read as: which messages the chain rebuilds from a ledger, under which
    keys, and so exactly when some proofs make it find a signature bad.  For what a ledger accepted these are the
    messages with the nonces of forward execution; for create2transfers the receiver's key in the message is free. */
module SignatureDisputes {
  import opened Words
  import opened Merkle
  import opened MerkleTree
  import opened TxCodec
  import opened TxMessages
  import opened Ledger
  import opened Commits
  import A = Authenticity
  import FP = FraudProofs
  import R = Rollups
  import opened StatelessExecution

  type Verifier = (A.Signature, seq<nat>, seq<Bytes>) -> A.Check

  /** A signature dispute succeeds, once the commitment is shown to be included. */
  ghost predicate DisputesSignature(kind: Kind, stateRoot: Hash, body: R.Body, proof: A.SignatureProof,
                                    word: Hash -> Bytes, verifyMultiple: Verifier)
  {
    var messages := A.Messages(stateRoot, body.accountRoot, DecodeAll(kind, body.Txs()), proof, body.Spoke());
    && messages.Some? && messages.value != [] && |proof.pubkeys| == |messages.value|
    && verifyMultiple(body.signature, proof.pubkeys, EncodedAll(word, messages.value)) != A.Valid
  }

  // --------------------------------------------------------------------------------------------- signers and receivers

  /** The key registered under an ID. */
  function KeyAt(keys: Leaves, keyDepth: nat, pubkeyID: nat): Option<nat> {
    match At(keys, Low(pubkeyID, keyDepth))
    case Word(k) => Some(k)
    case _ => None
  }

  /** The sender's key, if it has sent something and has a key. */
  function SenderKey(keys: Leaves, keyDepth: nat, post: Ledger, depth: nat, t: Tx): Option<nat> {
    var p := Low(t.fromIndex, depth);
    if p in post && post[p].nonce > 0 then KeyAt(keys, keyDepth, post[p].pubkeyID) else None
  }

  ghost predicate AllKeys(keys: Leaves, keyDepth: nat, post: Ledger, depth: nat, txs: seq<Tx>, k: seq<nat>) {
    |k| == |txs| && forall i :: 0 <= i < |txs| ==> SenderKey(keys, keyDepth, post, depth, txs[i]) == Some(k[i])
  }

  /** The nodes of the account tree on the way that the low bits of the ID lead from its root, the root among them. */
  ghost predicate OnTheWay(keys: Leaves, keyDepth: nat, pubkeyID: nat, x: Hash) {
    exists n: nat :: n <= keyDepth && x == Node(keys, keyDepth - n, Low(pubkeyID, n))
  }

  ghost predicate AllReceivers(keys: Leaves, keyDepth: nat, txs: seq<Tx>, receivers: seq<Hash>) {
    && |receivers| == |txs|
    && forall i :: 0 <= i < |txs| && txs[i].Create2Transfer? ==>
         OnTheWay(keys, keyDepth, txs[i].toPubkeyID, receivers[i])
  }

  function RebuiltMessage(post: Ledger, depth: nat, txs: seq<Tx>, i: nat, receiver: Hash, spokeID: nat): Message
    requires i < |txs|
  {
    Message(txs[i], A.Rewound(txs, i, A.NonceAt(post, Low(txs[i].fromIndex, depth))),
            if txs[i].Create2Transfer? then receiver else Empty, spokeID)
  }

  /** The messages rebuilt from a ledger. */
  function RebuiltMessages(post: Ledger, depth: nat, txs: seq<Tx>, receivers: seq<Hash>, spokeID: nat)
    : (r: seq<Message>)
    requires |receivers| == |txs|
    ensures |r| == |txs|
  {
    seq(|txs|, i requires 0 <= i < |txs| => RebuiltMessage(post, depth, txs, i, receivers[i], spokeID))
  }

  /** The signature is not one of the rebuilt messages under the senders' keys, for some choice of receivers. */
  ghost predicate Rejects(kind: Kind, post: Ledger, depth: nat, keys: Leaves, keyDepth: nat, body: R.Body,
                          word: Hash -> Bytes, verifyMultiple: Verifier, k: seq<nat>, receivers: seq<Hash>)
  {
    var txs := DecodeAll(kind, body.Txs());
    && AllKeys(keys, keyDepth, post, depth, txs, k) && AllReceivers(keys, keyDepth, txs, receivers)
    && verifyMultiple(body.signature, k,
                      EncodedAll(word, RebuiltMessages(post, depth, txs, receivers, body.Spoke()))) != A.Valid
  }

  /** Read as this kind, the commitment has transactions, and its signature is not theirs. */
  ghost predicate BadlySigned(kind: Kind, post: Ledger, depth: nat, keys: Leaves, keyDepth: nat, body: R.Body,
                              word: Hash -> Bytes, verifyMultiple: Verifier)
  {
    && DecodeAll(kind, body.Txs()) != []
    && exists k, receivers :: Rejects(kind, post, depth, keys, keyDepth, body, word, verifyMultiple, k, receivers)
  }

  // --------------------------------------------------------------------------------------------- whatever is handed in

  lemma NodeOnTheWay(keys: Leaves, keyDepth: nat, pubkeyID: nat, x: Hash, w: seq<Hash>)
    requires Atomic(keys) && Climb(x, pubkeyID, w) == Root(keys, keyDepth)
    ensures OnTheWay(keys, keyDepth, pubkeyID, x)
  {
    hide Climb, Atomic, Node, Spine, Witness;
    ClimbIsUnique(x, pubkeyID, w, keys, keyDepth, 0);
    BelowRoot(pubkeyID, |w|);
    assert |w| <= keyDepth && x == Node(keys, keyDepth - |w|, Low(pubkeyID, |w|));
  }

  /** A proof that holds is about the sender's state after the commitment, its registered key, and a node on the way to
      the receiver's. */
  lemma SignerIsSender(post: Ledger, depth: nat, keys: Leaves, keyDepth: nat, t: Tx, i: nat, proof: A.SignatureProof)
    requires Atomic(keys)
    requires A.SignerOk(StateRoot(post, depth), Root(keys, keyDepth), t, i, proof)
    ensures i < |proof.pubkeys| && SenderKey(keys, keyDepth, post, depth, t) == Some(proof.pubkeys[i])
    ensures i < |proof.states| && proof.states[i].nonce == A.NonceAt(post, Low(t.fromIndex, depth))
    ensures t.Create2Transfer? ==> i < |proof.receivers| && OnTheWay(keys, keyDepth, t.toPubkeyID, proof.receivers[i])
  {
    hide Atomic, Climb, StateRoot, Witness, OnTheWay, Root;
    A.SignerState(post, depth, Root(keys, keyDepth), t, i, proof);
    LeafProof(Word(proof.pubkeys[i]), proof.states[i].pubkeyID, proof.pubkeyWitnesses[i], keys, keyDepth, Empty);
    if t.Create2Transfer? {
      NodeOnTheWay(keys, keyDepth, t.toPubkeyID, proof.receivers[i], proof.receiverWitnesses[i]);
    }
  }

  /** The receivers in a proof. */
  function ReceiversOf(txs: seq<Tx>, proof: A.SignatureProof): (r: seq<Hash>)
    ensures |r| == |txs|
  {
    seq(|txs|, i requires 0 <= i < |txs| => if i < |proof.receivers| then proof.receivers[i] else Empty)
  }

  lemma DisputeRejects(kind: Kind, post: Ledger, depth: nat, keys: Leaves, keyDepth: nat, body: R.Body,
                       word: Hash -> Bytes, verifyMultiple: Verifier, proof: A.SignatureProof)
    requires Atomic(keys) && body.accountRoot == Root(keys, keyDepth)
    requires DisputesSignature(kind, StateRoot(post, depth), body, proof, word, verifyMultiple)
    ensures BadlySigned(kind, post, depth, keys, keyDepth, body, word, verifyMultiple)
  {
    hide Atomic, A.SignerOk, StateRoot, Root, SenderKey, OnTheWay, EncodedAll, DecodeAll, A.Rewound, A.NonceAt;
    var txs, receivers := DecodeAll(kind, body.Txs()), ReceiversOf(DecodeAll(kind, body.Txs()), proof);
    var messages := A.Messages(StateRoot(post, depth), body.accountRoot, txs, proof, body.Spoke()).value;
    forall i | 0 <= i < |txs|
      ensures i < |proof.pubkeys| && SenderKey(keys, keyDepth, post, depth, txs[i]) == Some(proof.pubkeys[i])
      ensures txs[i].Create2Transfer? ==> OnTheWay(keys, keyDepth, txs[i].toPubkeyID, receivers[i])
      ensures messages[i] == RebuiltMessage(post, depth, txs, i, receivers[i], body.Spoke())
    {
      SignerIsSender(post, depth, keys, keyDepth, txs[i], i, proof);
    }
    assert messages == RebuiltMessages(post, depth, txs, receivers, body.Spoke());
    assert Rejects(kind, post, depth, keys, keyDepth, body, word, verifyMultiple, proof.pubkeys, receivers);
  }

  // --------------------------------------------------------------------------------------------- what can be handed in

  ghost function WayWitness(keys: Leaves, keyDepth: nat, pubkeyID: nat, x: Hash): seq<Hash> {
    if OnTheWay(keys, keyDepth, pubkeyID, x) then
      var n: nat :| n <= keyDepth && x == Node(keys, keyDepth - n, Low(pubkeyID, n));
      Witness(keys, keyDepth - n, Low(pubkeyID, n), n)
    else []
  }

  lemma WayClimbs(keys: Leaves, keyDepth: nat, pubkeyID: nat, x: Hash)
    requires OnTheWay(keys, keyDepth, pubkeyID, x)
    ensures Climb(x, pubkeyID, WayWitness(keys, keyDepth, pubkeyID, x)) == Root(keys, keyDepth)
  {
    hide Climb, Node, Witness;
    var n: nat :| n <= keyDepth && x == Node(keys, keyDepth - n, Low(pubkeyID, n))
                  && WayWitness(keys, keyDepth, pubkeyID, x) == Witness(keys, keyDepth - n, Low(pubkeyID, n), n);
    LowTwice(pubkeyID, n);
    ClimbWitness(keys, keyDepth - n, Low(pubkeyID, n), pubkeyID, n);
  }

  /** The proofs that a holder of the ledger and of the account tree hands in. */
  ghost function SignerProofs(post: Ledger, depth: nat, keys: Leaves, keyDepth: nat, txs: seq<Tx>, k: seq<nat>,
                              receivers: seq<Hash>): A.SignatureProof
    requires |receivers| == |txs|
  {
    A.SignatureProof(
      seq(|txs|, i requires 0 <= i < |txs| => ProofOf(post, depth, Low(txs[i].fromIndex, depth)).state),
      seq(|txs|, i requires 0 <= i < |txs| => ProofOf(post, depth, Low(txs[i].fromIndex, depth)).siblings),
      k,
      seq(|txs|, i requires 0 <= i < |txs| =>
        Witness(keys, 0, Low(ProofOf(post, depth, Low(txs[i].fromIndex, depth)).state.pubkeyID, keyDepth), keyDepth)),
      receivers,
      seq(|txs|, i requires 0 <= i < |txs| =>
        if txs[i].Create2Transfer? then WayWitness(keys, keyDepth, txs[i].toPubkeyID, receivers[i]) else []))
  }

  lemma SenderProves(post: Ledger, depth: nat, keys: Leaves, keyDepth: nat, txs: seq<Tx>, k: seq<nat>,
                     receivers: seq<Hash>, i: nat)
    requires i < |txs| && AllKeys(keys, keyDepth, post, depth, txs, k) && AllReceivers(keys, keyDepth, txs, receivers)
    ensures var proof := SignerProofs(post, depth, keys, keyDepth, txs, k, receivers);
            && A.SignerOk(StateRoot(post, depth), Root(keys, keyDepth), txs[i], i, proof)
            && proof.states[i].nonce == A.NonceAt(post, Low(txs[i].fromIndex, depth))
  {
    hide Climb, Witness, StateRoot, Root, OnTheWay, WayWitness;
    var t := txs[i];
    assert SenderKey(keys, keyDepth, post, depth, t) == Some(k[i]);
    var state := post[Low(t.fromIndex, depth)];
    ProofClimbs(post, depth, t.fromIndex, state);
    LeafWitness(keys, state.pubkeyID, keyDepth, Empty);
    if t.Create2Transfer? {
      WayClimbs(keys, keyDepth, t.toPubkeyID, receivers[i]);
    }
  }

  /** Some proofs make a signature dispute succeed if and only if, read as that kind, the commitment has transactions,
      every sender has sent something and has a key, and for some receivers on the way the signature is not one of the
      messages that the ledger gives. */
  lemma SignatureDisputeIsExact(kind: Kind, post: Ledger, depth: nat, keys: Leaves, keyDepth: nat, body: R.Body,
                                word: Hash -> Bytes, verifyMultiple: Verifier)
    requires Atomic(keys) && body.accountRoot == Root(keys, keyDepth)
    ensures (exists proof :: DisputesSignature(kind, StateRoot(post, depth), body, proof, word, verifyMultiple))
        <==> BadlySigned(kind, post, depth, keys, keyDepth, body, word, verifyMultiple)
  {
    hide A.SignerOk, StateRoot, Root, AllKeys, AllReceivers, EncodedAll, DecodeAll, A.Rewound, A.NonceAt, SignerProofs,
      Atomic;
    if proof :| DisputesSignature(kind, StateRoot(post, depth), body, proof, word, verifyMultiple) {
      DisputeRejects(kind, post, depth, keys, keyDepth, body, word, verifyMultiple, proof);
    }
    if BadlySigned(kind, post, depth, keys, keyDepth, body, word, verifyMultiple) {
      RejectionIsShown(kind, post, depth, keys, keyDepth, body, word, verifyMultiple);
    }
  }

  lemma RejectionIsShown(kind: Kind, post: Ledger, depth: nat, keys: Leaves, keyDepth: nat, body: R.Body,
                         word: Hash -> Bytes, verifyMultiple: Verifier)
    requires body.accountRoot == Root(keys, keyDepth)
    requires BadlySigned(kind, post, depth, keys, keyDepth, body, word, verifyMultiple)
    ensures exists proof :: DisputesSignature(kind, StateRoot(post, depth), body, proof, word, verifyMultiple)
  {
    hide A.SignerOk, StateRoot, Root, SenderKey, OnTheWay, EncodedAll, DecodeAll, A.Rewound, A.NonceAt, ProofOf,
      Witness,
      WayWitness;
    var txs := DecodeAll(kind, body.Txs());
    var k, receivers :| Rejects(kind, post, depth, keys, keyDepth, body, word, verifyMultiple, k, receivers);
    var proof := SignerProofs(post, depth, keys, keyDepth, txs, k, receivers);
    forall i | 0 <= i < |txs|
      ensures A.SignerOk(StateRoot(post, depth), body.accountRoot, txs[i], i, proof)
      ensures i < |proof.states| && proof.states[i].nonce == A.NonceAt(post, Low(txs[i].fromIndex, depth))
    {
      SenderProves(post, depth, keys, keyDepth, txs, k, receivers, i);
    }
    var messages := A.Messages(StateRoot(post, depth), body.accountRoot, txs, proof, body.Spoke());
    assert messages.Some? && messages.value == RebuiltMessages(post, depth, txs, receivers, body.Spoke());
    assert DisputesSignature(kind, StateRoot(post, depth), body, proof, word, verifyMultiple);
  }

  // ---------------------------------------------------------------------------------------------- accepted commitments

  /** The token that a commitment is in. */
  function TokenOf(kind: Kind, s: Ledger, depth: nat, body: R.Body): nat {
    if body.MigrationBody? then body.migration.tokenID else
      var token := CommitToken(s, depth, body.feeReceiver, DecodeAll(kind, body.Txs()));
      if token.Some? then token.value else 0
  }

  /** The nonce that the sender had when the transaction ran, and one more for each later transaction that names the
      same account by another index. */
  function ForwardNonce(s: Ledger, depth: nat, txs: seq<Tx>, tokenID: nat, i: nat): nat
    requires i < |txs|
  {
    A.NonceBefore(s, depth, txs, tokenID, i) + A.Aliases(txs, depth, i, i + 1)
  }

  function ForwardMessages(s: Ledger, depth: nat, txs: seq<Tx>, tokenID: nat, receivers: seq<Hash>, spokeID: nat)
    : (r: seq<Message>)
    requires |receivers| == |txs|
    ensures |r| == |txs|
  {
    seq(|txs|, i requires 0 <= i < |txs| =>
      Message(txs[i], ForwardNonce(s, depth, txs, tokenID, i), if txs[i].Create2Transfer? then receivers[i] else Empty,
              spokeID))
  }

  /** While indices are positions there are no other indices for an account: so on a ledger of depth 32 or more. */
  lemma NonceIsForward(s: Ledger, depth: nat, txs: seq<Tx>, tokenID: nat, i: nat)
    requires i < |txs| && forall j :: 0 <= j < |txs| ==> txs[j].fromIndex < Pow2(depth)
    ensures ForwardNonce(s, depth, txs, tokenID, i) == A.NonceBefore(s, depth, txs, tokenID, i)
  {
    hide A.NonceBefore;
    forall j | 0 <= j < |txs|
      ensures Low(txs[j].fromIndex, depth) == txs[j].fromIndex
    {
      ShrZero(txs[j].fromIndex, depth);
    }
    A.NoAliases(txs, depth, i, i + 1);
  }

  ghost predicate Nonces256(s: Ledger) {
    forall p :: p in s ==> s[p].nonce < TWO_256
  }

  /** What acceptance says about the transactions alone. */
  lemma AcceptedRun(kind: Kind, s: Ledger, depth: nat, maxTxSize: nat, body: R.Body, post: Ledger) returns (fees: nat)
    requires body.Fits(kind) && FP.LedgerVerdict(kind, s, depth, maxTxSize, body) == Accepts(post)
    ensures var txs, tokenID := DecodeAll(kind, body.Txs()), TokenOf(kind, s, depth, body);
            var v := ApplyAll(s, depth, txs, |txs|, tokenID);
            v.Accepts? && Receive(v.ledger, Low(body.FeesTo(), depth), tokenID, fees) == Accepts(post)
  {
    hide LedgerRun, Receive, DecodeAll, ApplyAll, Merklized;
    var txs, tokenID := DecodeAll(kind, body.Txs()), TokenOf(kind, s, depth, body);
    var p := LedgerRun(kind, s, depth, txs, |txs|, tokenID);
    RunFollowsApply(kind, s, depth, txs, |txs|, tokenID);
    fees := p.totals.fees;
  }

  /** For a commitment that a ledger accepted, the rebuilt messages are those of forward execution, and every sender has
      sent something. */
  lemma RebuiltIsForward(kind: Kind, s: Ledger, depth: nat, maxTxSize: nat, body: R.Body, post: Ledger,
                         receivers: seq<Hash>)
    requires body.Fits(kind) && Nonces256(post)
    requires FP.LedgerVerdict(kind, s, depth, maxTxSize, body) == Accepts(post)
    requires |receivers| == |DecodeAll(kind, body.Txs())|
    ensures var txs := DecodeAll(kind, body.Txs());
            && RebuiltMessages(post, depth, txs, receivers, body.Spoke())
               == ForwardMessages(s, depth, txs, TokenOf(kind, s, depth, body), receivers, body.Spoke())
            && forall i :: 0 <= i < |txs| ==> A.NonceAt(post, Low(txs[i].fromIndex, depth)) > 0
  {
    hide FP.LedgerVerdict, TokenOf, ApplyAll, Receive, DecodeAll, A.Rewound, A.NonceBefore, A.NonceAt, A.SentBy,
      A.Aliases;
    var txs, tokenID := DecodeAll(kind, body.Txs()), TokenOf(kind, s, depth, body);
    var fees := AcceptedRun(kind, s, depth, maxTxSize, body, post);
    forall i | 0 <= i < |txs|
      ensures A.NonceAt(post, Low(txs[i].fromIndex, depth)) > 0
      ensures A.Rewound(txs, i, A.NonceAt(post, Low(txs[i].fromIndex, depth)))
           == ForwardNonce(s, depth, txs, tokenID, i)
    {
      A.RewoundIsForward(s, depth, txs, tokenID, Low(body.FeesTo(), depth), fees, post, i);
    }
    assert RebuiltMessages(post, depth, txs, receivers, body.Spoke())
        == ForwardMessages(s, depth, txs, tokenID, receivers, body.Spoke());
  }

  /** The key registered for the account at an index after the commitment. */
  ghost predicate Registered(keys: Leaves, keyDepth: nat, post: Ledger, depth: nat, txs: seq<Tx>, k: seq<nat>) {
    && |k| == |txs|
    && forall i :: 0 <= i < |txs| ==>
         var p := Low(txs[i].fromIndex, depth); p in post && KeyAt(keys, keyDepth, post[p].pubkeyID) == Some(k[i])
  }

  /** Under these keys and for these receivers, the signature is not one of the messages of forward execution. */
  ghost predicate RejectsForward(kind: Kind, s: Ledger, depth: nat, post: Ledger, keys: Leaves, keyDepth: nat,
                                 body: R.Body, word: Hash -> Bytes, verifyMultiple: Verifier, k: seq<nat>,
                                 receivers: seq<Hash>)
  {
    var txs := DecodeAll(kind, body.Txs());
    && Registered(keys, keyDepth, post, depth, txs, k) && AllReceivers(keys, keyDepth, txs, receivers)
    && verifyMultiple(body.signature, k,
                      EncodedAll(word, ForwardMessages(s, depth, txs, TokenOf(kind, s, depth, body), receivers,
                                                       body.Spoke()))) != A.Valid
  }

  /** A commitment of any kind that its ledger accepted is badly signed as that kind if and only if it has transactions,
      every sender has a key, and for some receivers the signature under these keys is not one of the messages with the
      nonces of forward execution. */
  lemma AcceptedSignatures(kind: Kind, s: Ledger, depth: nat, maxTxSize: nat, body: R.Body, post: Ledger, keys: Leaves,
                           keyDepth: nat, word: Hash -> Bytes, verifyMultiple: Verifier)
    requires body.Fits(kind) && Nonces256(post)
    requires FP.LedgerVerdict(kind, s, depth, maxTxSize, body) == Accepts(post)
    ensures BadlySigned(kind, post, depth, keys, keyDepth, body, word, verifyMultiple) <==>
              && DecodeAll(kind, body.Txs()) != []
              && exists k, receivers ::
                   RejectsForward(kind, s, depth, post, keys, keyDepth, body, word, verifyMultiple, k, receivers)
  {
    hide FP.LedgerVerdict, TokenOf, DecodeAll, AllReceivers, RebuiltMessages, ForwardMessages, EncodedAll, KeyAt,
      Nonces256;
    var txs := DecodeAll(kind, body.Txs());
    if k, receivers :| Rejects(kind, post, depth, keys, keyDepth, body, word, verifyMultiple, k, receivers) {
      assert |receivers| == |txs| by { EachReceiver(keys, keyDepth, txs, receivers); }
      RebuiltIsForward(kind, s, depth, maxTxSize, body, post, receivers);
      assert RejectsForward(kind, s, depth, post, keys, keyDepth, body, word, verifyMultiple, k, receivers);
    }
    if k, receivers :| RejectsForward(kind, s, depth, post, keys, keyDepth, body, word, verifyMultiple, k, receivers) {
      assert |receivers| == |txs| by { EachReceiver(keys, keyDepth, txs, receivers); }
      RebuiltIsForward(kind, s, depth, maxTxSize, body, post, receivers);
      assert Rejects(kind, post, depth, keys, keyDepth, body, word, verifyMultiple, k, receivers);
    }
  }

  lemma EachReceiver(keys: Leaves, keyDepth: nat, txs: seq<Tx>, receivers: seq<Hash>)
    requires AllReceivers(keys, keyDepth, txs, receivers)
    ensures |receivers| == |txs|
  {
  }

  // ------------------------------------------------------------------------------------------ one choice, or free ones

  function NoReceivers(n: nat): (r: seq<Hash>)
    ensures |r| == n
  {
    seq(n, _ => Empty)
  }

  /** The messages of a commitment other than of create2transfers. */
  function OwnMessages(kind: Kind, s: Ledger, depth: nat, body: R.Body): seq<Message> {
    var txs := DecodeAll(kind, body.Txs());
    ForwardMessages(s, depth, txs, TokenOf(kind, s, depth, body), NoReceivers(|txs|), body.Spoke())
  }

  /** Transfers and mass migrations that a ledger accepted are badly signed as what they are if and only if every sender
      has a key and under these keys the signature is not one of the messages of forward execution. */
  lemma OneChoice(kind: Kind, s: Ledger, depth: nat, maxTxSize: nat, body: R.Body, post: Ledger, keys: Leaves,
                  keyDepth: nat, word: Hash -> Bytes, verifyMultiple: Verifier)
    requires body.Fits(kind) && Nonces256(post) && !kind.Create2Transfers?
    requires FP.LedgerVerdict(kind, s, depth, maxTxSize, body) == Accepts(post)
    ensures BadlySigned(kind, post, depth, keys, keyDepth, body, word, verifyMultiple) <==>
              && DecodeAll(kind, body.Txs()) != []
              && exists k ::
                   && Registered(keys, keyDepth, post, depth, DecodeAll(kind, body.Txs()), k)
                   && verifyMultiple(body.signature, k, EncodedAll(word, OwnMessages(kind, s, depth, body))) != A.Valid
  {
    hide FP.LedgerVerdict, TokenOf, EncodedAll, KeyAt, Nonces256, BadlySigned, Registered, ForwardNonce, Decode,
      OnTheWay;
    AcceptedSignatures(kind, s, depth, maxTxSize, body, post, keys, keyDepth, word, verifyMultiple);
    var txs := DecodeAll(kind, body.Txs());
    DecodedKind(kind, body.Txs());
    if k, receivers :| RejectsForward(kind, s, depth, post, keys, keyDepth, body, word, verifyMultiple, k, receivers) {
      assert ForwardMessages(s, depth, txs, TokenOf(kind, s, depth, body), receivers, body.Spoke())
          == OwnMessages(kind, s, depth, body);
    }
    if k :| Registered(keys, keyDepth, post, depth, txs, k)
            && verifyMultiple(body.signature, k, EncodedAll(word, OwnMessages(kind, s, depth, body))) != A.Valid {
      assert RejectsForward(kind, s, depth, post, keys, keyDepth, body, word, verifyMultiple, k, NoReceivers(|txs|));
    }
  }

  /** The signature is one of these messages under these keys, and of no others. */
  ghost predicate SignsOnly(verifyMultiple: Verifier, signature: A.Signature, k: seq<nat>, messages: seq<Bytes>) {
    forall m :: verifyMultiple(signature, k, m) == A.Valid <==> m == messages
  }

  lemma ReceiverShows(word: Hash -> Bytes, m: Message, m': Message)
    requires m.tx.Create2Transfer? && m' == m.(to := m'.to) && |word(m.to)| == |word(m'.to)|
    requires Encoded(word, m) == Encoded(word, m')
    ensures word(m.to) == word(m'.to)
  {
    hide ToBytes;
    var n := 64 + |word(m.to)|;
    assert Encoded(word, m)[64..n] == word(m.to) && Encoded(word, m')[64..n] == word(m'.to);
  }

  /** Honest create2transfers can be disputed, however well they are signed: the account root itself passes as the
      receiver's key, and the message with it is not the one that was signed. */
  lemma ReceiversAreFree(s: Ledger, depth: nat, maxTxSize: nat, body: R.Body, post: Ledger, keys: Leaves, keyDepth: nat,
                         word: Hash -> Bytes, verifyMultiple: Verifier, k: seq<nat>, receivers: seq<Hash>)
    requires body.TransferBody? && Nonces256(post)
    requires FP.LedgerVerdict(Create2Transfers, s, depth, maxTxSize, body) == Accepts(post)
    requires var txs := DecodeAll(Create2Transfers, body.data);
             && txs != [] && Registered(keys, keyDepth, post, depth, txs, k)
             && AllReceivers(keys, keyDepth, txs, receivers)
             && SignsOnly(verifyMultiple, body.signature, k,
                          EncodedAll(word, ForwardMessages(s, depth, txs, TokenOf(Create2Transfers, s, depth, body),
                                                           receivers, 0)))
    requires |word(receivers[0])| == |word(Root(keys, keyDepth))| && word(receivers[0]) != word(Root(keys, keyDepth))
    ensures BadlySigned(Create2Transfers, post, depth, keys, keyDepth, body, word, verifyMultiple)
  {
    hide FP.LedgerVerdict, TokenOf, KeyAt, Nonces256, BadlySigned, Registered, ForwardNonce, Decode, Encoded, Root;
    var txs, tokenID := DecodeAll(Create2Transfers, body.data), TokenOf(Create2Transfers, s, depth, body);
    DecodedKind(Create2Transfers, body.data);
    var free := receivers[0 := Root(keys, keyDepth)];
    RootOnTheWay(keys, keyDepth, txs[0].toPubkeyID);
    assert AllReceivers(keys, keyDepth, txs, free) by { hide OnTheWay; }
    var signed, other := ForwardMessages(s, depth, txs, tokenID, receivers,
                                         0), ForwardMessages(s, depth, txs, tokenID, free, 0);
    if EncodedAll(word, other) == EncodedAll(word, signed) {
      assert EncodedAll(word, other)[0] == Encoded(word, other[0]);
      assert EncodedAll(word, signed)[0] == Encoded(word, signed[0]);
      ReceiverShows(word, signed[0], other[0]);
    }
    assert RejectsForward(Create2Transfers, s, depth, post, keys, keyDepth, body, word, verifyMultiple, k, free);
    AcceptedSignatures(Create2Transfers, s, depth, maxTxSize, body, post, keys, keyDepth, word, verifyMultiple);
  }

  lemma RootOnTheWay(keys: Leaves, keyDepth: nat, pubkeyID: nat)
    ensures OnTheWay(keys, keyDepth, pubkeyID, Root(keys, keyDepth))
  {
    assert Low(pubkeyID, 0) == 0;
  }
}
