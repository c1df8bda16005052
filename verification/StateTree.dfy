/** ts/stateTree.ts: the coordinator's ledger with its Merkle tree, processing commitments and emitting proofs. */
module StateTrees {
  import opened Words
  import opened Merkle
  import MT = MemoryTrees
  import opened TxCodec
  import Chain = Transition
  import opened Ledger
  import opened StatelessExecution

  type StateProof = Chain.StateProof

  datatype StateError =
    | ExceedStateTreeSize | StateAlreadyExist | SenderNotExist | ReceiverNotExist | ZeroAmount | InsufficientFund
    | WrongTokenID | HashOverflow | NoFirstSender

  datatype Result<+T> = Success(value: T) | Failure(error: StateError)

  /** All four fields are 256-bit words; hashing any other state throws. */
  predicate Fits(s: UserState) {
    s.pubkeyID < TWO_256 && s.tokenID < TWO_256 && s.balance < TWO_256 && s.nonce < TWO_256
  }

  /** The positions a transaction names are positions of the tree, and a created state can be hashed. */
  predicate InTree(t: Tx, depth: nat) {
    && t.fromIndex < Pow2(depth)
    && (t.MassMigration? || t.toIndex < Pow2(depth))
    && (t.Create2Transfer? ==> t.toPubkeyID < TWO_256 && t.amount < TWO_256)
  }

  predicate AllInTree(txs: seq<Tx>, depth: nat) {
    forall i :: 0 <= i < |txs| ==> InTree(txs[i], depth)
  }

  /** Positions from 2^31 on are out of reach of the tree's shifts. */
  ghost predicate Reachable(t: Tx) {
    t.Create2Transfer? ==> t.toIndex < TWO_31
  }

  /** A whole commitment on the ledger: every transaction, then the fees. */
  function Commit(s: Ledger, depth: nat, txs: seq<Tx>, feeReceiver: nat): Verdict {
    if txs == [] || txs[0].fromIndex !in s then Reverts else
      var tokenID := s[txs[0].fromIndex].tokenID;
      var v := ApplyAll(s, depth, txs, |txs|, tokenID);
      if v.Accepts? then Receive(v.ledger, feeReceiver, tokenID, SumFees(txs, |txs|)) else v
  }

  class StateTree {
    const stateTree: MT.MemoryTree
    var states: Ledger

    ghost predicate Valid()
      reads this, stateTree
    {
      && stateTree.Valid() && stateTree.Leaves() == StateLeaves(states)
      && forall p :: p in states ==> p < Pow2(stateTree.depth) && p < TWO_31 && Fits(states[p])
    }

    constructor (stateDepth: nat)
      ensures Valid() && fresh(stateTree) && stateTree.depth == stateDepth && states == map[]
    {
      stateTree := new MT.MemoryTree(stateDepth);
      states := map[];
    }

    function RootNode(): (root: Hash)
      requires Valid()
      reads this, stateTree
      ensures root == StateRoot(states, stateTree.depth)
    {
      stateTree.Meaning(0, 0);
      stateTree.RootNode()
    }

    method GetState(stateID: nat) returns (r: Result<StateProof>)
      requires Valid() && stateID < TWO_31
      ensures r == if stateID < Pow2(stateTree.depth) then Success(ProofOf(states, stateTree.depth, stateID))
                   else Failure(ExceedStateTreeSize)
      ensures r.Success? ==>
                r.value.state == if stateID in states then states[stateID] else UserState(0, 0, 0, 0)
    {
      if stateID >= stateTree.setSize {
        return Failure(ExceedStateTreeSize);
      }
      var w := stateTree.Witness(stateID, stateTree.depth);
      return Success(Chain.StateProof(if stateID in states then states[stateID] else ZERO_STATE, w.nodes));
    }

    /** Stores the state first; if it then cannot be hashed the tree is left behind. */
    method UpdateState(stateID: nat, state: UserState) returns (r: Result<()>)
      requires Valid() && stateID < TWO_31
      modifies this, stateTree
      ensures r == if stateID >= Pow2(stateTree.depth) then Failure(ExceedStateTreeSize)
                   else if !Fits(state) then Failure(HashOverflow) else Success(())
      ensures r.Success? ==> Valid() && states == old(states)[stateID := state]
      ensures r == Failure(ExceedStateTreeSize) ==> Valid() && states == old(states)
    {
      if stateID >= stateTree.setSize {
        return Failure(ExceedStateTreeSize);
      }
      states := states[stateID := state];
      if !Fits(state) {
        return Failure(HashOverflow);
      }
      var _ := stateTree.UpdateSingle(stateID, Leaf(state));
      return Success(());
    }

    method CreateState(stateID: nat, state: UserState) returns (r: Result<()>)
      requires Valid() && stateID < TWO_31
      modifies this, stateTree
      ensures r.Success? <==> stateID !in old(states) && stateID < Pow2(stateTree.depth) && Fits(state)
      ensures r.Success? ==> Valid() && states == old(states)[stateID := state]
      ensures r.Failure? && r.error != HashOverflow ==> Valid() && states == old(states)
    {
      if stateID in states {
        return Failure(StateAlreadyExist);
      }
      r := UpdateState(stateID, state);
    }

    method GetProofAndUpdate(stateID: nat, postState: UserState) returns (r: Result<StateProof>)
      requires Valid() && stateID < TWO_31
      modifies this, stateTree
      ensures r == if stateID >= Pow2(stateTree.depth) then Failure(ExceedStateTreeSize)
                   else if !Fits(postState) then Failure(HashOverflow)
                   else Success(ProofOf(old(states), stateTree.depth, stateID))
      ensures r.Success? ==> Valid() && states == old(states)[stateID := postState]
    {
      var proof := GetState(stateID);
      if proof.Failure? {
        return proof;
      }
      var u := UpdateState(stateID, postState);
      return if u.Failure? then Failure(u.error) else proof;
    }

    method ProcessSender(senderIndex: nat, tokenID: nat, amount: nat, fee: nat) returns (r: Result<StateProof>)
      requires Valid()
      modifies this, stateTree
      ensures r.Success? <==> Send(old(states), senderIndex, tokenID, amount, fee).Accepts?
      ensures r.Success? ==>
                && Valid() && Send(old(states), senderIndex, tokenID, amount, fee) == Accepts(states)
                && r.value == ProofOf(old(states), stateTree.depth, senderIndex)
    {
      if senderIndex !in states {
        return Failure(SenderNotExist);
      }
      var state := states[senderIndex];
      if amount == 0 {
        return Failure(ZeroAmount);
      }
      var decrement := amount + fee;
      if state.balance < decrement {
        return Failure(InsufficientFund);
      }
      if state.tokenID != tokenID {
        return Failure(WrongTokenID);
      }
      var postState := state.(balance := state.balance - decrement, nonce := state.nonce + 1);
      r := GetProofAndUpdate(senderIndex, postState);
    }

    method ProcessReceiver(receiverIndex: nat, increment: nat, tokenID: nat) returns (r: Result<StateProof>)
      requires Valid()
      modifies this, stateTree
      ensures r.Success? <==> Receive(old(states), receiverIndex, tokenID, increment).Accepts?
      ensures r.Success? ==>
                && Valid() && Receive(old(states), receiverIndex, tokenID, increment) == Accepts(states)
                && r.value == ProofOf(old(states), stateTree.depth, receiverIndex)
    {
      if receiverIndex !in states {
        return Failure(ReceiverNotExist);
      }
      var state := states[receiverIndex];
      if state.tokenID != tokenID {
        return Failure(WrongTokenID);
      }
      var postState := state.(balance := state.balance + increment);
      r := GetProofAndUpdate(receiverIndex, postState);
    }

    method ProcessCreate(createIndex: nat, pubkeyID: nat, balance: nat, tokenID: nat) returns (r: Result<StateProof>)
      requires Valid() && createIndex < TWO_31
      modifies this, stateTree
      ensures r.Success? <==>
                && Create(old(states), createIndex, pubkeyID, tokenID, balance).Accepts?
                && createIndex < Pow2(stateTree.depth) && Fits(UserState(pubkeyID, tokenID, balance, 0))
      ensures r.Success? ==>
                && Valid() && Create(old(states), createIndex, pubkeyID, tokenID, balance) == Accepts(states)
                && r.value == ProofOf(old(states), stateTree.depth, createIndex)
    {
      if createIndex in states {
        return Failure(StateAlreadyExist);
      }
      r := GetProofAndUpdate(createIndex, UserState(pubkeyID, tokenID, balance, 0));
    }

    /** `processTransfer`, `processCreate2Transfer` and `processMassMigration`. */
    method ProcessTx(t: Tx, tokenID: nat) returns (r: Result<seq<StateProof>>)
      requires Valid() && Reachable(t)
      modifies this, stateTree
      ensures r.Success? <==> InTree(t, stateTree.depth) && Apply(old(states), stateTree.depth, t, tokenID).Accepts?
      ensures r.Success? ==>
                && Valid() && Apply(old(states), stateTree.depth, t, tokenID) == Accepts(states)
                && r.value == TxProofs(t.Kind(), old(states), stateTree.depth, t, tokenID)
    {
      hide ProofOf, Receive, Create;
      PositionsOf(states, t, stateTree.depth, tokenID);
      var sender := ProcessSender(t.fromIndex, tokenID, t.amount, t.fee);
      if sender.Failure? {
        return Failure(sender.error);
      }
      var receiver: Result<StateProof>;
      match t {
        case MassMigration(_, _, _) =>
          return Success([sender.value]);
        case Transfer(_, toIndex, amount, _) =>
          receiver := ProcessReceiver(toIndex, amount, tokenID);
        case Create2Transfer(_, toIndex, toPubkeyID, amount, _) =>
          receiver := ProcessCreate(toIndex, toPubkeyID, amount, tokenID);
      }
      if receiver.Failure? {
        return Failure(receiver.error);
      }
      return Success([sender.value, receiver.value]);
    }

    /** `processTransferCommit`, `processCreate2TransferCommit` and `processMassMigrationCommit`, run to the end of
        their generators: they succeed exactly when the ledger accepts, and emit one proof per step. */
    method ProcessCommit(kind: Kind, txs: seq<Tx>, feeReceiverID: nat) returns (r: Result<seq<StateProof>>)
      requires Valid() && AllOf(kind, txs) && forall i :: 0 <= i < |txs| ==> Reachable(txs[i])
      modifies this, stateTree
      ensures r.Success? <==>
                AllInTree(txs, stateTree.depth) && Commit(old(states), stateTree.depth, txs, feeReceiverID).Accepts?
      ensures r.Success? ==>
                && Valid() && txs[0].fromIndex in old(states) && feeReceiverID < Pow2(stateTree.depth)
                && Commit(old(states), stateTree.depth, txs, feeReceiverID) == Accepts(states)
                && r.value == CommitProofs(kind, old(states), stateTree.depth, txs,
                                           old(states)[txs[0].fromIndex].tokenID, feeReceiverID)
    {
      hide Apply, TxProofs, Receive, ProofOf;
      if |txs| == 0 || txs[0].fromIndex !in states {
        return Failure(NoFirstSender);
      }
      ghost var s, depth := states, stateTree.depth;
      var tokenID := states[txs[0].fromIndex].tokenID;
      var proofs, fees := [], 0;
      for i := 0 to |txs|
        invariant Valid() && ApplyAll(s, depth, txs, i, tokenID) == Accepts(states)
        invariant AllInTree(txs[..i], depth) && fees == SumFees(txs, i)
        invariant proofs == LedgerProofs(kind, s, depth, txs, i, tokenID)
      {
        StopsForGood(s, depth, txs, i + 1, tokenID);
        var step := ProcessTx(txs[i], tokenID);
        if step.Failure? {
          return Failure(step.error);
        }
        proofs := proofs + step.value;
        fees := fees + txs[i].fee;
      }
      assert txs[..|txs|] == txs;
      ShrZero(feeReceiverID, depth);
      ReceiverExists(states, feeReceiverID, tokenID, fees);
      var proof := ProcessReceiver(feeReceiverID, fees, tokenID);
      if proof.Failure? {
        return Failure(proof.error);
      }
      return Success(proofs + [proof.value]);
    }
  }

  lemma ReceiverExists(s: Ledger, p: nat, tokenID: nat, amount: nat)
    ensures Receive(s, p, tokenID, amount).Accepts? ==> p in s
  {
  }

  lemma {:induction false} StopsForGood(s: Ledger, depth: nat, txs: seq<Tx>, i: nat, tokenID: nat)
    requires i <= |txs|
    ensures ApplyAll(s, depth, txs, |txs|, tokenID).Accepts? ==> ApplyAll(s, depth, txs, i, tokenID).Accepts?
    decreases |txs| - i
  {
    hide Apply;
    if i < |txs| {
      StopsForGood(s, depth, txs, i + 1, tokenID);
    }
  }

  lemma PositionsOf(s: Ledger, t: Tx, depth: nat, tokenID: nat)
    requires forall p :: p in s ==> p < Pow2(depth) && Fits(s[p])
    ensures t.fromIndex < Pow2(depth) ==> Low(t.fromIndex, depth) == t.fromIndex
    ensures !t.MassMigration? && t.toIndex < Pow2(depth) ==> Low(t.toIndex, depth) == t.toIndex
    ensures var sent := Send(s, t.fromIndex, tokenID, t.amount, t.fee);
            sent.Accepts? ==> t.fromIndex < Pow2(depth) && tokenID < TWO_256 && sent.ledger.Keys == s.Keys
    ensures forall s': Ledger, p, a :: Receive(s', p, tokenID, a).Accepts? ==> p in s'
  {
    ShrZero(t.fromIndex, depth);
    if !t.MassMigration? {
      ShrZero(t.toIndex, depth);
    }
  }
}
