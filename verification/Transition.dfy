/** contracts/libs/Transition.sol: one transaction on a state root, with states and witnesses supplied by the caller. */
module Transition {
  import opened Words
  import opened Merkle
  import opened TxCodec

  datatype Result =
    | Ok
    | InvalidTokenAmount
    | NotEnoughTokenBalance
    | BadFromTokenID
    | BadToTokenID
    | BadSignature
    | MismatchedAmount
    | BadWithdrawRoot
    | BadCompression
    | TooManyTx
    | BadPrecompileCall

  /** A failing `require`, a SafeMath overflow and an index out of bounds all revert the call. */
  datatype Outcome<+T> = Revert | Return(value: T, result: Result)

  datatype StateProof = StateProof(state: UserState, siblings: seq<Hash>)

  function Verify(root: Hash, leaf: Hash, path: nat, siblings: seq<Hash>): bool {
    Climb(leaf, path, siblings) == root
  }

  function ValidateAndApplySender(tokenID: nat, amount: nat, fee: nat, sender: UserState): Outcome<UserState> {
    if amount == 0 then Return(sender, InvalidTokenAmount)
    else if amount + fee >= TWO_256 then Revert
    else if sender.balance < amount + fee then Return(sender, NotEnoughTokenBalance)
    else if sender.tokenID != tokenID then Return(sender, BadFromTokenID)
    else if sender.nonce + 1 >= TWO_256 then Revert
    else Return(UserState(sender.pubkeyID, sender.tokenID, sender.balance - (amount + fee), sender.nonce + 1), Ok)
  }

  function ValidateAndApplyReceiver(tokenID: nat, amount: nat, receiver: UserState): Outcome<UserState> {
    if receiver.tokenID != tokenID then Return(receiver, BadToTokenID)
    else if receiver.balance + amount >= TWO_256 then Revert
    else Return(UserState(receiver.pubkeyID, receiver.tokenID, receiver.balance + amount, receiver.nonce), Ok)
  }

  function CreateState(pubkeyID: nat, tokenID: nat, amount: nat): UserState {
    UserState(pubkeyID, tokenID, amount, 0)
  }

  function ProcessSender(stateRoot: Hash, index: nat, tokenID: nat, amount: nat, fee: nat, proof: StateProof)
    : Outcome<Hash>
  {
    if !Verify(stateRoot, Leaf(proof.state), index, proof.siblings) then Revert else
      match ValidateAndApplySender(tokenID, amount, fee, proof.state)
      case Revert => Revert
      case Return(sender, Ok) => Return(Climb(Leaf(sender), index, proof.siblings), Ok)
      case Return(_, result) => Return(Word(0), result)
  }

  function ProcessReceiver(stateRoot: Hash, index: nat, tokenID: nat, amount: nat, proof: StateProof): Outcome<Hash> {
    if !Verify(stateRoot, Leaf(proof.state), index, proof.siblings) then Revert else
      match ValidateAndApplyReceiver(tokenID, amount, proof.state)
      case Revert => Revert
      case Return(receiver, Ok) => Return(Climb(Leaf(receiver), index, proof.siblings), Ok)
      case Return(_, result) => Return(Word(0), result)
  }

  function ProcessCreate2TransferReceiver(stateRoot: Hash, index: nat, pubkeyID: nat, tokenID: nat, amount: nat,
                                          proof: StateProof): Outcome<Hash>
  {
    if !Verify(stateRoot, Empty, index, proof.siblings) then Revert else
      Return(Climb(Leaf(CreateState(pubkeyID, tokenID, amount)), index, proof.siblings), Ok)
  }

  /** The three transaction processors; `to` plays no part in a mass migration. */
  function ProcessTx(stateRoot: Hash, t: Tx, tokenID: nat, from: StateProof, to: StateProof): Outcome<Hash> {
    var sent := ProcessSender(stateRoot, t.fromIndex, tokenID, t.amount, t.fee, from);
    if sent.Revert? || sent.result != Ok then sent else
      match t
      case Transfer(_, toIndex, amount, _) => ProcessReceiver(sent.value, toIndex, tokenID, amount, to)
      case Create2Transfer(_, toIndex, toPubkeyID, amount, _) =>
        ProcessCreate2TransferReceiver(sent.value, toIndex, toPubkeyID, tokenID, amount, to)
      case MassMigration(_, _, _) => sent
  }
}
