/** The full ledger the coordinator keeps, as a map from positions to states, and what each step does to it.  This is
    the reference that stateless execution on the chain is measured against. */
module Ledger {
  import opened Words
  import opened Merkle
  import opened TxCodec
  import opened Transition

  type Ledger = map<nat, UserState>

  const ZERO_STATE := UserState(0, 0, 0, 0)

  /** What happens to a ledger: the call reverts, gives a failure code (with the root it returns), or is accepted. */
  datatype Verdict = Reverts | Fails(root: Hash, code: Result) | Accepts(ledger: Ledger)

  function StateLeaves(s: Ledger): Leaves {
    map i | i in s :: Leaf(s[i])
  }

  function StateRoot(s: Ledger, depth: nat): Hash {
    Root(StateLeaves(s), depth)
  }

  /** What a verdict looks like from outside, where only roots are seen. */
  function Seen(v: Verdict, depth: nat): Outcome<Hash> {
    match v
    case Reverts => Revert
    case Fails(root, code) => Return(root, code)
    case Accepts(s) => Return(StateRoot(s, depth), Ok)
  }

  function Put(s: Ledger, position: nat, o: Outcome<UserState>): (v: Verdict)
    ensures v.Fails? ==> v.code != Ok
  {
    match o
    case Revert => Reverts
    case Return(state, Ok) => Accepts(s[position := state])
    case Return(_, code) => Fails(Word(0), code)
  }

  function Send(s: Ledger, position: nat, tokenID: nat, amount: nat, fee: nat): (v: Verdict)
    ensures v.Fails? ==> v.code != Ok
  {
    if position !in s then Reverts
    else Put(s, position, ValidateAndApplySender(tokenID, amount, fee, s[position]))
  }

  function Receive(s: Ledger, position: nat, tokenID: nat, amount: nat): (v: Verdict)
    ensures v.Fails? ==> v.code != Ok
  {
    if position !in s then Reverts
    else Put(s, position, ValidateAndApplyReceiver(tokenID, amount, s[position]))
  }

  function Create(s: Ledger, position: nat, pubkeyID: nat, tokenID: nat, amount: nat): Verdict {
    if position in s then Reverts else Accepts(s[position := CreateState(pubkeyID, tokenID, amount)])
  }

  /** One transaction on a ledger of the given depth: an index means the position of its low bits. */
  function Apply(s: Ledger, depth: nat, t: Tx, tokenID: nat): (v: Verdict)
    ensures v.Fails? ==> v.code != Ok
    ensures !v.Reverts? ==> Low(t.fromIndex, depth) in s
  {
    var sent := Send(s, Low(t.fromIndex, depth), tokenID, t.amount, t.fee);
    if !sent.Accepts? then sent else
      match t
      case Transfer(_, toIndex, amount, _) => Receive(sent.ledger, Low(toIndex, depth), tokenID, amount)
      case Create2Transfer(_, toIndex, toPubkeyID, amount, _) =>
        Create(sent.ledger, Low(toIndex, depth), toPubkeyID, tokenID, amount)
      case MassMigration(_, _, _) => sent
  }

  /** The first `n` transactions one after the other, until one is not accepted. */
  function ApplyAll(s: Ledger, depth: nat, txs: seq<Tx>, n: nat, tokenID: nat): Verdict
    requires n <= |txs|
  {
    if n == 0 then Accepts(s) else
      var v := ApplyAll(s, depth, txs, n - 1, tokenID);
      if v.Accepts? then Apply(v.ledger, depth, txs[n - 1], tokenID) else v
  }

  function SumAmounts(txs: seq<Tx>, n: nat): nat
    requires n <= |txs|
  {
    if n == 0 then 0 else SumAmounts(txs, n - 1) + txs[n - 1].amount
  }

  function SumFees(txs: seq<Tx>, n: nat): nat
    requires n <= |txs|
  {
    if n == 0 then 0 else SumFees(txs, n - 1) + txs[n - 1].fee
  }

  /** The proof a holder of the ledger gives for a position. */
  function ProofOf(s: Ledger, depth: nat, position: nat): StateProof {
    StateProof(if position in s then s[position] else ZERO_STATE, Witness(StateLeaves(s), 0, position, depth))
  }

  /** The receiver's proof refers to the ledger after the sender has paid. */
  function ReceiverProof(s: Ledger, depth: nat, t: Tx, tokenID: nat): StateProof
    requires !t.MassMigration?
  {
    var sent := Send(s, Low(t.fromIndex, depth), tokenID, t.amount, t.fee);
    ProofOf(if sent.Accepts? then sent.ledger else s, depth, Low(t.toIndex, depth))
  }

  lemma LeavesAfterPut(s: Ledger, i: nat, state: UserState)
    ensures Atomic(StateLeaves(s))
    ensures StateLeaves(s[i := state]) == StateLeaves(s)[i := Leaf(state)]
  {
  }

  // ------------------------------------------------------------------------------------------------ single steps

  /** A sender step with any proof: if it does not revert, the proof was of the ledger's own state, and the step does
      what the ledger does. */
  lemma SenderSound(s: Ledger, depth: nat, index: nat, tokenID: nat, amount: nat, fee: nat, proof: StateProof)
    ensures var o := ProcessSender(StateRoot(s, depth), index, tokenID, amount, fee, proof);
            o.Return? ==>
              && Low(index, depth) in s && proof.state == s[Low(index, depth)]
              && o == Seen(Send(s, Low(index, depth), tokenID, amount, fee), depth)
  {
    if ProcessSender(StateRoot(s, depth), index, tokenID, amount, fee, proof).Return? {
      var sender := ValidateAndApplySender(tokenID, amount, fee, proof.state).value;
      LeavesAfterPut(s, Low(index, depth), sender);
      LeafProof(Leaf(proof.state), index, proof.siblings, StateLeaves(s), depth, Leaf(sender));
    }
  }

  lemma ReceiverSound(s: Ledger, depth: nat, index: nat, tokenID: nat, amount: nat, proof: StateProof)
    ensures var o := ProcessReceiver(StateRoot(s, depth), index, tokenID, amount, proof);
            o.Return? ==>
              && Low(index, depth) in s && proof.state == s[Low(index, depth)]
              && o == Seen(Receive(s, Low(index, depth), tokenID, amount), depth)
  {
    if ProcessReceiver(StateRoot(s, depth), index, tokenID, amount, proof).Return? {
      var receiver := ValidateAndApplyReceiver(tokenID, amount, proof.state).value;
      LeavesAfterPut(s, Low(index, depth), receiver);
      LeafProof(Leaf(proof.state), index, proof.siblings, StateLeaves(s), depth, Leaf(receiver));
    }
  }

  lemma CreateSound(s: Ledger, depth: nat, index: nat, pubkeyID: nat, tokenID: nat, amount: nat, proof: StateProof)
    ensures var o := ProcessCreate2TransferReceiver(StateRoot(s, depth), index, pubkeyID, tokenID, amount, proof);
            o.Return? ==> o == Seen(Create(s, Low(index, depth), pubkeyID, tokenID, amount), depth)
  {
    if ProcessCreate2TransferReceiver(StateRoot(s, depth), index, pubkeyID, tokenID, amount, proof).Return? {
      var created := CreateState(pubkeyID, tokenID, amount);
      LeavesAfterPut(s, Low(index, depth), created);
      LeafProof(Empty, index, proof.siblings, StateLeaves(s), depth, Leaf(created));
    }
  }

  /** Soundness of one transaction: proofs of any content and length either make it revert or leave it no choice. */
  lemma TxSound(s: Ledger, depth: nat, t: Tx, tokenID: nat, from: StateProof, to: StateProof)
    ensures var o := ProcessTx(StateRoot(s, depth), t, tokenID, from, to);
            o.Return? ==>
              && Low(t.fromIndex, depth) in s && from.state == s[Low(t.fromIndex, depth)]
              && o == Seen(Apply(s, depth, t, tokenID), depth)
  {
    SenderSound(s, depth, t.fromIndex, tokenID, t.amount, t.fee, from);
    var sent := Send(s, Low(t.fromIndex, depth), tokenID, t.amount, t.fee);
    if sent.Accepts? {
      match t {
        case Transfer(_, toIndex, amount, _) => ReceiverSound(sent.ledger, depth, toIndex, tokenID, amount, to);
        case Create2Transfer(_, toIndex, toPubkeyID, amount, _) =>
          CreateSound(sent.ledger, depth, toIndex, toPubkeyID, tokenID, amount, to);
        case MassMigration(_, _, _) =>
      }
    }
  }

  lemma ProofClimbs(s: Ledger, depth: nat, index: nat, y: UserState)
    ensures var p := Low(index, depth);
            var w := ProofOf(s, depth, p).siblings;
            && Climb(if p in s then Leaf(s[p]) else Empty, index, w) == StateRoot(s, depth)
            && Climb(Leaf(y), index, w) == StateRoot(s[p := y], depth)
  {
    LeavesAfterPut(s, Low(index, depth), y);
    LeafWitness(StateLeaves(s), index, depth, Leaf(y));
  }

  lemma SenderComplete(s: Ledger, depth: nat, index: nat, tokenID: nat, amount: nat, fee: nat)
    requires !Send(s, Low(index, depth), tokenID, amount, fee).Reverts?
    ensures ProcessSender(StateRoot(s, depth), index, tokenID, amount, fee, ProofOf(s, depth, Low(index, depth)))
         == Seen(Send(s, Low(index, depth), tokenID, amount, fee), depth)
  {
    var o := ValidateAndApplySender(tokenID, amount, fee, s[Low(index, depth)]);
    ProofClimbs(s, depth, index, if o.Return? then o.value else ZERO_STATE);
  }

  lemma ReceiverComplete(s: Ledger, depth: nat, index: nat, tokenID: nat, amount: nat)
    requires !Receive(s, Low(index, depth), tokenID, amount).Reverts?
    ensures ProcessReceiver(StateRoot(s, depth), index, tokenID, amount, ProofOf(s, depth, Low(index, depth)))
         == Seen(Receive(s, Low(index, depth), tokenID, amount), depth)
  {
    var o := ValidateAndApplyReceiver(tokenID, amount, s[Low(index, depth)]);
    ProofClimbs(s, depth, index, if o.Return? then o.value else ZERO_STATE);
  }

  /** Completeness of one transaction: the ledger's own proofs reproduce whatever the ledger does short of a revert. */
  lemma TxComplete(s: Ledger, depth: nat, t: Tx, tokenID: nat, to: StateProof)
    requires !Apply(s, depth, t, tokenID).Reverts?
    requires t.MassMigration? || to == ReceiverProof(s, depth, t, tokenID)
    ensures ProcessTx(StateRoot(s, depth), t, tokenID, ProofOf(s, depth, Low(t.fromIndex, depth)), to)
         == Seen(Apply(s, depth, t, tokenID), depth)
  {
    SenderComplete(s, depth, t.fromIndex, tokenID, t.amount, t.fee);
    var sent := Send(s, Low(t.fromIndex, depth), tokenID, t.amount, t.fee);
    if sent.Accepts? {
      match t {
        case Transfer(_, toIndex, amount, _) => ReceiverComplete(sent.ledger, depth, toIndex, tokenID, amount);
        case Create2Transfer(_, toIndex, toPubkeyID, amount, _) =>
          ProofClimbs(sent.ledger, depth, toIndex, CreateState(toPubkeyID, tokenID, amount));
        case MassMigration(_, _, _) =>
      }
    }
  }

  /** A state root of a given depth determines the ledger. */
  lemma RootDeterminesLedger(s: Ledger, s': Ledger, depth: nat)
    requires forall p :: p in s || p in s' ==> p < Pow2(depth)
    requires StateRoot(s, depth) == StateRoot(s', depth)
    ensures s == s'
  {
    forall p: nat | p in s || p in s'
      ensures p in s && p in s' && s[p] == s'[p]
    {
      ShrZero(p, depth);
      NodeInjective(StateLeaves(s), StateLeaves(s'), depth, 0, p);
    }
  }
}
