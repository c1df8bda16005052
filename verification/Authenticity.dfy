/** contracts/libs/Authenticity.sol: the signed messages of a commitment are rebuilt from its post-state, rewinding each
    sender's nonce by scanning the transactions backwards. */
module Authenticity {
  import opened Words
  import opened Merkle
  import opened MerkleTree
  import opened TxCodec
  import opened Transition
  import opened Ledger
  import opened TxMessages

  /** Proofs of the signers; `receivers` and `receiverWitnesses` are used by create2transfers only.  A public key is a
      number standing for its hash. */
  datatype SignatureProof = SignatureProof(
    states: seq<UserState>, stateWitnesses: seq<seq<Hash>>,
    pubkeys: seq<nat>, pubkeyWitnesses: seq<seq<Hash>>,
    receivers: seq<Hash>, receiverWitnesses: seq<seq<Hash>>)

  type Signature = (nat, nat)

  datatype Check = CallFailed | Invalid | Valid

  /** How many transactions from position `lo` on are sent from exactly this index. */
  function SentBy(txs: seq<Tx>, fromIndex: nat, lo: nat): nat
    requires lo <= |txs|
    decreases |txs| - lo
  {
    if lo == |txs| then 0 else (if txs[lo].fromIndex == fromIndex then 1 else 0) + SentBy(txs, fromIndex, lo + 1)
  }

  /** The proofs for transaction `i` are there and hold. */
  predicate SignerOk(stateRoot: Hash, accountRoot: Hash, t: Tx, i: nat, proof: SignatureProof) {
    && i < |proof.states| && i < |proof.stateWitnesses| && i < |proof.pubkeys| && i < |proof.pubkeyWitnesses|
    && Verify(stateRoot, Leaf(proof.states[i]), t.fromIndex, proof.stateWitnesses[i])
    && proof.states[i].nonce > 0
    && Verify(accountRoot, Word(proof.pubkeys[i]), proof.states[i].pubkeyID, proof.pubkeyWitnesses[i])
    && (t.Create2Transfer? ==>
          && i < |proof.receivers| && i < |proof.receiverWitnesses|
          && Verify(accountRoot, proof.receivers[i], t.toPubkeyID, proof.receiverWitnesses[i]))
  }

  /** The nonce after rewinding, in 256-bit arithmetic that wraps below zero. */
  function Rewound(txs: seq<Tx>, i: nat, postNonce: nat): nat
    requires i < |txs|
  {
    (postNonce - 1 - SentBy(txs, txs[i].fromIndex, i + 1)) % TWO_256
  }

  function MessageOf(txs: seq<Tx>, i: nat, proof: SignatureProof, spokeID: nat): Message
    requires i < |txs| && i < |proof.states| && (txs[i].Create2Transfer? ==> i < |proof.receivers|)
  {
    Message(txs[i], Rewound(txs, i, proof.states[i].nonce),
            if txs[i].Create2Transfer? then proof.receivers[i] else Empty, spokeID)
  }

  ghost predicate Rebuilt(txs: seq<Tx>, i: nat, proof: SignatureProof, spokeID: nat, word: Hash -> Bytes, m: Bytes) {
    && i < |txs| && i < |proof.states| && (txs[i].Create2Transfer? ==> i < |proof.receivers|)
    && m == Encoded(word, MessageOf(txs, i, proof, spokeID))
  }

  /** The messages that the signature is checked against; None is a revert. */
  function Messages(stateRoot: Hash, accountRoot: Hash, txs: seq<Tx>, proof: SignatureProof, spokeID: nat)
    : Option<seq<Message>>
  {
    if forall i :: 0 <= i < |txs| ==> SignerOk(stateRoot, accountRoot, txs[i], i, proof)
    then Some(seq(|txs|, i requires 0 <= i < |txs| && SignerOk(stateRoot, accountRoot, txs[i], i, proof) =>
                MessageOf(txs, i, proof, spokeID)))
    else None
  }

  lemma SignerHasProofs(stateRoot: Hash, accountRoot: Hash, t: Tx, i: nat, proof: SignatureProof)
    requires SignerOk(stateRoot, accountRoot, t, i, proof)
    ensures i < |proof.states| && proof.states[i].nonce > 0 && (t.Create2Transfer? ==> i < |proof.receivers|)
  {
  }

  /** `verifyTransfer`, `verifyMassMigration` and `verifyCreate2Transfer`.  The pairing check is a parameter, as are the
      32 bytes of a hash; it reverts without keys, or with another number of keys than messages. */
  method VerifySignatures(kind: Kind, stateRoot: Hash, accountRoot: Hash, signature: Signature, data: Bytes,
                          proof: SignatureProof, spokeID: nat, word: Hash -> Bytes,
                          verifyMultiple: (Signature, seq<nat>, seq<Bytes>) -> Check) returns (o: Outcome<()>)
    ensures o == match Messages(stateRoot, accountRoot, DecodeAll(kind, data), proof, spokeID)
                 case None => Revert
                 case Some(messages) =>
                   if messages == [] || |proof.pubkeys| != |messages| then Revert else
                     match verifyMultiple(signature, proof.pubkeys, EncodedAll(word, messages))
                     case CallFailed => Return((), BadPrecompileCall)
                     case Invalid => Return((), BadSignature)
                     case Valid => Return((), Ok)
  {
    hide Decode, SignerOk, Rewound, Encoded, SentBy;
    ghost var txs := DecodeAll(kind, data);
    var size := Size(kind, data);
    var messages := new Bytes[size](_ => []);
    var senders := new nat[size](_ => 0);
    for j := 0 to size
      invariant forall k :: 0 <= k < j ==> senders[k] == txs[size - 1 - k].fromIndex + 1000000000000000
      invariant forall i :: size - j <= i < size ==>
                  SignerOk(stateRoot, accountRoot, txs[i], i, proof)
      invariant forall i :: size - j <= i < size ==> Rebuilt(txs, i, proof, spokeID, word, messages[i])
    {
      var i := size - j - 1;
      var t := Decode(kind, data, i);
      assert txs[i] == t;
      if !SignerOk(stateRoot, accountRoot, t, i, proof) {
        return Revert;
      }
      SignerHasProofs(stateRoot, accountRoot, t, i, proof);
      var nonce := RewindNonce(txs, i, proof.states[i].nonce, t.fromIndex + 1000000000000000, senders, j);
      senders[j] := t.fromIndex + 1000000000000000;
      var receiver := if t.Create2Transfer? then proof.receivers[i] else Empty;
      messages[i] := Encoded(word, Message(t, nonce, receiver, spokeID));
    }
    assert EncodedAll(word, Messages(stateRoot, accountRoot, txs, proof, spokeID).value) == messages[..];
    if |proof.pubkeys| == 0 || |proof.pubkeys| != messages.Length {
      return Revert;
    }
    match verifyMultiple(signature, proof.pubkeys, messages[..]) {
      case CallFailed => return Return((), BadPrecompileCall);
      case Invalid => return Return((), BadSignature);
      case Valid => return Return((), Ok);
    }
  }

  /** The inner loop: one step back for every later transaction of the same sender. */
  method RewindNonce(ghost txs: seq<Tx>, ghost i: nat, postNonce: nat, safeIndex: nat, senders: array<nat>, j: nat)
    returns (nonce: nat)
    requires i + j + 1 == |txs| && j <= senders.Length && postNonce > 0
    requires safeIndex == txs[i].fromIndex + 1000000000000000
    requires forall k :: 0 <= k < j ==> senders[k] == txs[|txs| - 1 - k].fromIndex + 1000000000000000
    ensures nonce == Rewound(txs, i, postNonce)
  {
    nonce := (postNonce - 1) % TWO_256;
    for k := 0 to j
      invariant nonce == (postNonce - 1 - SentBy(txs, txs[i].fromIndex, |txs| - k)) % TWO_256
    {
      StepBack(postNonce - 1 - SentBy(txs, txs[i].fromIndex, |txs| - k));
      if senders[k] == safeIndex {
        nonce := (nonce - 1) % TWO_256;
      }
    }
  }

  lemma StepBack(x: int)
    ensures (x % TWO_256 - 1) % TWO_256 == (x - 1) % TWO_256
  {
  }

  // ------------------------------------------------------------------------------------------------ forward nonces

  function NonceAt(s: Ledger, p: nat): nat {
    if p in s then s[p].nonce else 0
  }

  /** Transactions from `lo` up to `n` sent from the account at position `p`. */
  function SentFrom(txs: seq<Tx>, depth: nat, p: nat, lo: nat, n: nat): nat
    requires lo <= n <= |txs|
    decreases n - lo
  {
    if lo == n then 0 else SentFrom(txs, depth, p, lo, n - 1) + if Low(txs[n - 1].fromIndex, depth) == p then 1 else 0
  }

  lemma ApplyNonce(s: Ledger, depth: nat, t: Tx, tokenID: nat, p: nat)
    requires Apply(s, depth, t, tokenID).Accepts?
    ensures NonceAt(Apply(s, depth, t, tokenID).ledger, p)
         == NonceAt(s, p) + if Low(t.fromIndex, depth) == p then 1 else 0
  {
  }

  /** Executing forwards, a nonce counts the transactions sent, also for accounts created on the way. */
  lemma {:induction false} ForwardNonce(s: Ledger, depth: nat, txs: seq<Tx>, tokenID: nat, p: nat, lo: nat, n: nat)
    requires lo <= n <= |txs| && ApplyAll(s, depth, txs, n, tokenID).Accepts?
    ensures ApplyAll(s, depth, txs, lo, tokenID).Accepts?
    ensures NonceAt(ApplyAll(s, depth, txs, n, tokenID).ledger, p)
         == NonceAt(ApplyAll(s, depth, txs, lo, tokenID).ledger, p) + SentFrom(txs, depth, p, lo, n)
    decreases n - lo
  {
    hide Apply;
    if lo < n {
      ForwardNonce(s, depth, txs, tokenID, p, lo, n - 1);
      ApplyNonce(ApplyAll(s, depth, txs, n - 1, tokenID).ledger, depth, txs[n - 1], tokenID, p);
    }
  }

  /** Later transactions that name the sender's account by another index with the same low bits. */
  function Aliases(txs: seq<Tx>, depth: nat, i: nat, lo: nat): nat
    requires i < |txs| && lo <= |txs|
    decreases |txs| - lo
  {
    if lo == |txs| then 0 else
      Aliases(txs, depth, i, lo + 1)
        + if txs[lo].fromIndex != txs[i].fromIndex && Low(txs[lo].fromIndex, depth) == Low(txs[i].fromIndex, depth)
          then 1 else 0
  }

  lemma {:induction false} CountsAgree(txs: seq<Tx>, depth: nat, i: nat, lo: nat)
    requires i < |txs| && lo <= |txs|
    ensures SentFrom(txs, depth, Low(txs[i].fromIndex, depth), lo, |txs|)
         == SentBy(txs, txs[i].fromIndex, lo) + Aliases(txs, depth, i, lo)
    decreases |txs| - lo
  {
    if lo < |txs| {
      CountsAgree(txs, depth, i, lo + 1);
      SentFromFirst(txs, depth, Low(txs[i].fromIndex, depth), lo, |txs|);
    }
  }

  lemma {:induction false} SentFromFirst(txs: seq<Tx>, depth: nat, p: nat, lo: nat, n: nat)
    requires lo < n <= |txs|
    ensures SentFrom(txs, depth, p, lo, n)
         == SentFrom(txs, depth, p, lo + 1, n) + if Low(txs[lo].fromIndex, depth) == p then 1 else 0
    decreases n
  {
    if lo + 1 < n {
      SentFromFirst(txs, depth, p, lo, n - 1);
    } else {
      assert SentFrom(txs, depth, p, lo, lo) == 0 && SentFrom(txs, depth, p, n, n) == 0;
    }
  }

  lemma {:induction false} NoAliases(txs: seq<Tx>, depth: nat, i: nat, lo: nat)
    requires i < |txs| && lo <= |txs|
    ensures Aliases(txs, depth, i, lo) == 0 <==>
              forall j :: lo <= j < |txs| && Low(txs[j].fromIndex, depth) == Low(txs[i].fromIndex, depth) ==>
                txs[j].fromIndex == txs[i].fromIndex
    decreases |txs| - lo
  {
    if lo < |txs| {
      NoAliases(txs, depth, i, lo + 1);
    }
  }

  /** The nonce of the sender of transaction `i` just before it runs. */
  function NonceBefore(s: Ledger, depth: nat, txs: seq<Tx>, tokenID: nat, i: nat): nat
    requires i < |txs|
  {
    var v := ApplyAll(s, depth, txs, i, tokenID);
    if v.Accepts? then NonceAt(v.ledger, Low(txs[i].fromIndex, depth)) else 0
  }

  lemma SignerState(post: Ledger, depth: nat, accountRoot: Hash, t: Tx, i: nat, proof: SignatureProof)
    requires SignerOk(StateRoot(post, depth), accountRoot, t, i, proof)
    ensures i < |proof.states| && proof.states[i].nonce > 0
    ensures Low(t.fromIndex, depth) in post && post[Low(t.fromIndex, depth)] == proof.states[i]
  {
    var p, state := Low(t.fromIndex, depth), proof.states[i];
    LeavesAfterPut(post, p, state);
    LeafProof(Leaf(state), t.fromIndex, proof.stateWitnesses[i], StateLeaves(post), depth, Empty);
  }

  lemma ReceiveKeepsNonce(s: Ledger, q: nat, tokenID: nat, amount: nat, p: nat)
    requires Receive(s, q, tokenID, amount).Accepts?
    ensures NonceAt(Receive(s, q, tokenID, amount).ledger, p) == NonceAt(s, p)
  {
  }

  /** Rewinding from the nonce that a sender has after an accepted commitment. */
  lemma RewoundIsForward(s: Ledger, depth: nat, txs: seq<Tx>, tokenID: nat, feeReceiver: nat, fees: nat, post: Ledger,
                         i: nat)
    requires i < |txs| && ApplyAll(s, depth, txs, |txs|, tokenID).Accepts?
    requires Receive(ApplyAll(s, depth, txs, |txs|, tokenID).ledger, feeReceiver, tokenID, fees) == Accepts(post)
    requires forall p :: p in post ==> post[p].nonce < TWO_256
    ensures var nonce := NonceAt(post, Low(txs[i].fromIndex, depth));
            && SentBy(txs, txs[i].fromIndex, i + 1) < nonce
            && Rewound(txs, i, nonce) == NonceBefore(s, depth, txs, tokenID, i) + Aliases(txs, depth, i, i + 1)
  {
    hide Apply, ApplyAll, SentFrom, SentBy, Aliases, Receive;
    var p := Low(txs[i].fromIndex, depth);
    var before := ApplyAll(s, depth, txs, |txs|, tokenID).ledger;
    ReceiveKeepsNonce(before, feeReceiver, tokenID, fees, p);
    ForwardNonce(s, depth, txs, tokenID, p, i, |txs|);
    SentFromFirst(txs, depth, p, i, |txs|);
    CountsAgree(txs, depth, i, i + 1);
  }

  /** For an accepted commitment checked against its own post-state root, rewinding never passes below zero, and the
      nonce it finds for transaction `i` is the sender's nonce just before transaction `i`, exactly when no later
      transaction names that sender by a different index. */
  lemma RewindingIsRight(s: Ledger, depth: nat, txs: seq<Tx>, tokenID: nat, feeReceiver: nat, fees: nat,
                         post: Ledger, accountRoot: Hash, proof: SignatureProof, i: nat)
    requires i < |txs| && ApplyAll(s, depth, txs, |txs|, tokenID).Accepts?
    requires Receive(ApplyAll(s, depth, txs, |txs|, tokenID).ledger, feeReceiver, tokenID, fees) == Accepts(post)
    requires forall p :: p in post ==> post[p].nonce < TWO_256
    requires SignerOk(StateRoot(post, depth), accountRoot, txs[i], i, proof)
    ensures i < |proof.states| && SentBy(txs, txs[i].fromIndex, i + 1) < proof.states[i].nonce
    ensures Rewound(txs, i, proof.states[i].nonce)
         == NonceBefore(s, depth, txs, tokenID, i) + Aliases(txs, depth, i, i + 1)
    ensures Rewound(txs, i, proof.states[i].nonce) == NonceBefore(s, depth, txs, tokenID, i) <==>
              forall j :: i + 1 <= j < |txs| && Low(txs[j].fromIndex, depth) == Low(txs[i].fromIndex, depth) ==>
                txs[j].fromIndex == txs[i].fromIndex
  {
    hide Apply, ApplyAll, SentBy, Aliases, SignerOk, Receive, Rewound, NonceBefore;
    SignerState(post, depth, accountRoot, txs[i], i, proof);
    RewoundIsForward(s, depth, txs, tokenID, feeReceiver, fees, post, i);
    NoAliases(txs, depth, i, i + 1);
  }

  /** With a ledger of depth 32 or more, four-byte indices have no aliases: every rebuilt message carries the nonce that
      forward execution had. */
  lemma MessagesAreForward(kind: Kind, s: Ledger, depth: nat, data: Bytes, tokenID: nat, feeReceiver: nat, fees: nat,
                           post: Ledger, accountRoot: Hash, proof: SignatureProof, spokeID: nat, i: nat)
    requires depth >= 32 && i < Size(kind, data)
    requires var txs := DecodeAll(kind, data);
             && ApplyAll(s, depth, txs, |txs|, tokenID).Accepts?
             && Receive(ApplyAll(s, depth, txs, |txs|, tokenID).ledger, feeReceiver, tokenID, fees) == Accepts(post)
             && Messages(StateRoot(post, depth), accountRoot, txs, proof, spokeID).Some?
    requires forall p :: p in post ==> post[p].nonce < TWO_256
    ensures var txs := DecodeAll(kind, data);
            Messages(StateRoot(post, depth), accountRoot, txs, proof, spokeID).value[i].nonce
              == NonceBefore(s, depth, txs, tokenID, i)
  {
    hide Apply, ApplyAll, Mload, Receive, SignerOk, Rewound;
    var txs := DecodeAll(kind, data);
    RewindingIsRight(s, depth, txs, tokenID, feeReceiver, fees, post, accountRoot, proof, i);
    FourByteIndices(kind, data, depth);
  }

  lemma FourByteIndices(kind: Kind, data: Bytes, depth: nat)
    requires depth >= 32
    ensures var txs := DecodeAll(kind, data);
            forall j :: 0 <= j < |txs| ==> Low(txs[j].fromIndex, depth) == txs[j].fromIndex
  {
    hide Mload;
    var txs := DecodeAll(kind, data);
    forall j | 0 <= j < |txs|
      ensures Low(txs[j].fromIndex, depth) == txs[j].fromIndex
    {
      assert txs[j] == Decode(kind, data, j);
      Pow2Grows(32, depth);
      Pow2Constants();
      ShrZero(txs[j].fromIndex, depth);
    }
  }

  /** Where it fails: below depth 32 there is an index that names the account at position 0 a second time.  The nonce
      found for the first of two accepted transactions is then one too high. */
  lemma AliasedSenders(depth: nat)
    requires depth < 32
    ensures var s: Ledger := map[0 := UserState(0, 0, 2, 0)];
            var txs := [MassMigration(0, 1, 0), MassMigration(Pow2(depth), 1, 0)];
            var v := ApplyAll(s, depth, txs, 2, 0);
            && txs[1].fromIndex < 0x1_0000_0000
            && v == Accepts(map[0 := UserState(0, 0, 0, 2)]) && Receive(v.ledger, 0, 0, 0) == v
            && Rewound(txs, 0, v.ledger[0].nonce) == 1 && NonceBefore(s, depth, txs, 0, 0) == 0
  {
    hide Apply, Low, Pow2, Shr;
    var s, s1, s2 := Holding(2, 0), Holding(1, 1), Holding(0, 2);
    var txs := [MassMigration(0, 1, 0), MassMigration(Pow2(depth), 1, 0)];
    TwoNames(depth);
    Spends(depth, txs[0], 2, 0);
    Spends(depth, txs[1], 1, 1);
    assert ApplyAll(s, depth, txs, 0, 0) == Accepts(s);
    assert ApplyAll(s, depth, txs, 1, 0) == Accepts(s1);
    assert SentBy(txs, 0, 2) == 0;
    assert s2[0 := UserState(0, 0, 0, 2)] == s2;
  }

  /** One account, at position 0. */
  function Holding(balance: nat, nonce: nat): Ledger {
    map[0 := UserState(0, 0, balance, nonce)]
  }

  lemma Spends(depth: nat, t: Tx, balance: nat, nonce: nat)
    requires t.MassMigration? && t.amount == 1 && t.fee == 0 && Low(t.fromIndex, depth) == 0
    requires 0 < balance < 10 && nonce < 10
    ensures Apply(Holding(balance, nonce), depth, t, 0) == Accepts(Holding(balance - 1, nonce + 1))
  {
    var s := Holding(balance, nonce);
    assert s[0 := UserState(0, 0, balance - 1, nonce + 1)] == Holding(balance - 1, nonce + 1);
  }

  lemma TwoNames(depth: nat)
    requires depth < 32
    ensures Low(0, depth) == 0 && Low(Pow2(depth), depth) == 0 && 0 < Pow2(depth) < 0x1_0000_0000
  {
    ShrZero(0, depth);
    LowOfPow2(depth);
    Pow2Grows(depth, 31);
    Pow2Constants();
  }
}
