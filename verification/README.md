# Hubble: a verified model

Hubble is an optimistic rollup. A coordinator keeps a full ledger of user states in a sparse Merkle tree and submits
batches of commitments; the contracts keep only roots, and re-execute a commitment from caller-supplied states and
witnesses when somebody disputes it. Almost everything exists twice, once in Solidity and once in TypeScript, and the
system is right only if the two agree. This project models both sides and proves that they do.

What is shown, module by module:

* **Merkle trees.** One recursive function, `Merkle.Node` over leaves padded with empty leaves, is the meaning of every
  tree in the repository: witness computation (`MerkleTree`), the in-place `merklize` buffer, the client's sparse tree
  with range updates (`MemoryTrees`), the append-only account tree that keeps one filled subtree per level
  (`AccountTrees`) and the binary-counter stack of deposits (`Deposits`).
* **Stateless execution.** Whatever proofs are supplied, of whatever content, number and witness length, a commitment
  re-executed from the root of a ledger either reverts or has the outcome that the ledger fixes (`Ledger`, `Commits`,
  `StatelessExecution`); the ledger's own proofs always reproduce that outcome; and a commitment that the coordinator's
  `StateTree` processes is accepted on chain with the proofs it emitted (`StateTrees`, `Completeness`). Totals of every
  token are conserved (`Conservation`), the verdicts are spelt out in accounts and numbers (`Verdicts`), and the nonces
  that signature checking rebuilds backwards are those of forward execution, for commitments of every kind
  (`Authenticity`, `TxMessages`, `SignatureDisputes`).
* **Disputes.** From the root of a ledger, a dispute of a commitment of a kind succeeds exactly when the ledger says so
  (`FraudProofs`). Which root that is, and which commitment of which kind, is less than the contract checks: it reads
  only the low bits of a path, and checks neither the length of a witness nor the kind of a batch. What an inclusion
  proof shows at each path and for each length (`InclusionReadings`), from which ledger a dispute then starts
  (`WitnessLengths`, with `DeeperTrees` for execution below a root that is too deep), what passes for the disputed
  commitment (`MisreadTargets`), what its bytes read as (`BodyReadings`, and `SignatureReadings` for signatures) and
  what this means over all paths of a batch (`WholeBatches`) are worked out exactly:
  `MisreadTargets.ConvictedExactlyIf` and `SignatureReadings.SignatureConvictedIf` are about all evidence, at every
  path, through every entry point.
* **Batches.** Submission and rollback cut into pieces by gas are a state machine (`Batches`) which the contract's methods
  refine (`Rollups`); the order and finality of batches and the time there is to dispute them (`BatchFinality`), the
  ether behind stakes (`Stakes`) and the deposit subtrees in flight (`DepositsInFlight`) are proved over whole runs.
* **Deposits.** Contract and client build the same subtrees (`Deposits`), and put them at a place proved vacant
  (`StorageEngines`, `DepositInsertion`), in the state that the previous witness shows (`DepositStarts`).
* **The client.** Whatever the proposer packs, the syncer replays to the same root (`ClientTransfers`); the syncer takes
  exactly what the reference ledger takes, and the chain accepts that as transfers; `HonestProposer` and
  `PackedSignatures` say exactly when it can be convicted as something else.
* **Codecs and arithmetic.** The decimal float (`Decimal`), the packed transactions read by overlapping words
  (`TxCodec`), the packed batch record and the bitmap (`Types`), and hashing to field elements as in section 5.3.1 of
  RFC 9380 (`HashToField`).
* **The auction.** Its ether adds up in every run, donations included, and the best bidder of a slot is its proposer
  (`BurnAuctions`).

How to read the model:

* A 32-byte hash is a free term, `Empty | Leaf(state) | Pair(left, right) | Word(value)`: an empty leaf, a state and a
  pair have preimages of 32, 128 and 64 bytes, so hashes of different kinds never meet. Hash collisions are thereby
  excluded. The hash of a commitment, of 64 bytes, is a pair like any other. The hash of a body is an arbitrary function;
  in `BodyReadings` it is an injective function of the packed bytes, and in `MisreadTargets` one that is the hash of a
  state on the 128 bytes of a state. The zero word that a mapping reads by default is `Word(0)`. In `HashToField`, where
  the bytes matter, the hash is an arbitrary function from byte strings to 32 bytes.
* Integers are unbounded; 256-bit overflow, unchecked wrap-around, 32-bit slots and JavaScript's signed 32-bit shifts
  are written out where the code depends on them.
* A `require`, a SafeMath failure or an index out of bounds is the outcome `Revert`, or `None` from a method; it is kept
  apart from a result code other than `Ok`. A method that returns `None` may leave the object's fields changed: the
  effects are discarded with the call. Exceptions of the client are `None` or a `Failure`.
* A path names a position by its low bits, so on chain a ledger position is the index modulo 2^depth, and a place of a
  batch the path modulo 2^d, where d is the depth of its tree. Paths are natural numbers here.
* Block numbers, callers, values sent, gas (as the number of deletions it allows), the hash of a commitment body and
  the pairing check are parameters.

Where the code fails a property it is there for, or differs from its comments or its counterpart, the model follows the
code, gives an input, and proves exactly when the property holds:

* **An honest commitment can be convicted through another entry point.** A dispute does not look at the type of the
  batch, transfers and create2transfers share one body, and a mass-migration body is packed to the same bytes as a
  transfer body. A packed commitment of one transfer is disputed as create2transfers without a proof
  (`HonestProposer.OneTransferDisputed`); mass migrations of n transactions are convicted unless n is 2 modulo 6
  (`BodyReadings.MigrationOfWrongSize`). `BodyReadings.TransferStands` and `BodyReadings.MigrationStands` are the exact
  conditions over all entry points, at every path, for evidence with witnesses of the right length,
  `HonestProposer.PackedStands` the one for what the client packs.
* **The first commitment of an honest batch can be convicted from the last.** Only the low bits of a path are read, and
  the previous commitment is looked for at the path less one. In a batch whose tree is full, of 2, 4, 8, 16 or 32
  commitments, the path behind the last one names the first commitment again, after the last one of the same batch
  (`WholeBatches.FirstOfTwoMisread`). A first commitment with a transaction is then convicted unless re-execution
  reverts (`WholeBatches.FirstFallsAgain`). `WholeBatches.RightlyConvictedIf` is the exact condition over all paths.
* **An honest commitment can be convicted with a previous witness of another length.** The contract does not check the
  length, and the hash of a commitment has 64 bytes of preimage like an inner node. After a batch with a single
  commitment the root of that batch passes as its commitment (`WitnessLengths.SingleCommitmentMisread`).
  `WitnessLengths.LengthDecides` says for every path exactly which lengths convict an honest commitment: the wrong ones
  that show a ledger which does not revert on it. The batch root, for one, shows the ledger of the first commitment.
* **An honest commitment can be convicted with a target witness of another length.** A body without transactions is
  packed to 128 bytes, like a user state, so any two neighbouring leaves of any commitment's state tree pass as a
  commitment: the batch is rolled back, whatever was committed, if the right one's nonce names an account of the ledger
  before their path, as 0 usually does (`MisreadTargets.PairMisread`). `MisreadTargets.MisreadTargetIsExact` says, for
  every path, when, and `WholeBatches.PairsDecide` which batches are safe from it.
* **All evidence together** is the subject of `MisreadTargets.ConvictedExactlyIf` for every path, and of
  `WholeBatches.BatchConvictedIf` for a batch.
* **A properly signed commitment can be convicted for its signature.** Signature disputes look neither at the type of the
  batch nor for bytes left over. A packed commitment of two transfers, signed by exactly its senders, is convicted as one
  create2transfer (`PackedSignatures.TwoTransfersMisread`); only a single transfer is too short to be read as anything
  else. `SignatureReadings.TransferSignatures` and `SignatureReadings.MigrationSignatures` are the exact conditions over
  all entry points, `PackedSignatures.PackedSignatures` the one for what the client packs. Paths do no harm here: there
  is no predecessor, and a path only names a place (`SignatureReadings.OnlyThePlace`).
* **Honest create2transfers can be convicted however well they are signed.** The receiver's key hash comes with the
  dispute, and any node of the account tree on the way to the receiver's place passes for it, the account root itself
  with an empty witness (`SignatureDisputes.ReceiversAreFree`; `SignatureDisputes.AcceptedSignatures` is exact).
* **Some wrong commitments cannot be disputed at all.** A `require` on a state proof reverts the dispute instead of
  upholding it: a commitment whose first transaction has no sender stands with whatever root it claims
  (`Verdicts.MissingSenderStands`). `Verdicts.DisputedWhateverClaimed` and `Verdicts.NeverDisputed` are the exact
  conditions in accounts and numbers, for disputes as what the commitment is: when the first transaction not to be
  accepted overspends, moves nothing or has a wrong token, it is caught; when it names a missing or an occupied account,
  uses up a nonce or overflows, it is not.
* **A deposit batch can continue from half a ledger.** `submitDeposits` does not check the length of the previous witness
  either: `DepositStarts.HalfLedgerContinues` is the input, `DepositStarts.DepositContinues` says for each length which
  ledger the deposits are inserted into. No dispute can re-execute the result (`DepositStarts.NoBodyBehindDeposits`).
* **Stakes can be paid out that are not there.** `withdrawStake` checks neither for the genesis batch nor for a rollback
  under way: `Stakes.GenesisStakeTaken` and `Stakes.CondemnedStakeTaken` are runs in which another batch's stake is
  taken, `Stakes.WithdrawalSurplus` and `Stakes.RollbackSurplus` the exact cost of each call.
* **A deposit subtree can be queued twice.** `rollback` leaves `deposits[batchID]` in place:
  `DepositsInFlight.StaleRootQueuedTwice`, with the exact condition in `DepositsInFlight.ReuseDuplicates`.
* **A rebuilt nonce can be too high.** Sender indices are compared whole, while execution uses their low bits:
  `Authenticity.AliasedSenders` below depth 32, with the exact condition in `Authenticity.RewindingIsRight`.
* **Rounding is not to the greatest encodable number below** on the gaps [4096 * 10^k, 4100 * 10^k)
  (`Decimal.RoundingIsGreatest`), and stops before the last exponent (`Decimal.RoundingSucceeds`).
* **Contract and client disagree on deposit subtrees of depth 0**, and only on those: `merklize` of one leaf has depth 1
  (`Deposits.SubtreeDepthMatters`).
* **The client's trees are wrong from index 2^31 on**: shifts are signed there (`MemoryTrees.HalfIsExact`).
* `MemoryEngine.revert` cuts the journal and leaves the cache: reads keep showing what was reverted, commits do not
  store it.
* `ExpandMsg` truncates its block counter to a byte where the standard aborts (more than 255 blocks).
* `BurnAuction` credits a donation to address 0 to nobody: it then counts as burnt.

## Model

| member | source | states |
|---|---|---|
| `Words.WordSize` | contracts/libs/Transition.sol:174-226 | SafeMath reverts at 2^256 |
| `Merkle.ClimbIsUnique` | contracts/libs/MerkleTree.sol:10-35 | If a word climbs to a node of a genuine tree along any path with any witness of any length, then the witness length is the height difference, the word is the node the path names, and every witness word is the genuine sibling |
| `Merkle.ClimbOfLength` | contracts/libs/MerkleTree.sol:10-35 | For a witness of known length the word that climbs to a node is the one the path names, whatever the leaves are |
| `Merkle.ClimbWitness` | contracts/libs/MerkleTree.sol:10-35 | The genuine witness of a node climbs to its ancestor; only the low bits of the path matter |
| `Merkle.LeafProof` | contracts/libs/MerkleTree.sol:28-35 | A leaf that verifies against a ledger root sits at the low bits of the path, its witness has exactly the depth, and the same witness gives the root after the leaf is overwritten |
| `Merkle.ClimbReplaces` | contracts/libs/MerkleTree.sol:10-26 | The witness that proved a subtree gives the root of the tree in which exactly that subtree is replaced |
| `Merkle.NodeInjective` | contracts/libs/MerkleTree.sol:10-26 | A root determines every leaf below it |
| `Merkle.ClimbFlagsIsClimb` | ts/tree/memoryTree.ts:111-120 | Climbing by left/right flags is climbing by the bits of the index |
| `MerkleTree.ComputeRoot` | contracts/libs/MerkleTree.sol:10-26 | The loop over path bits is the climb of the specification |
| `MerkleTree.ClientComputeRoot` | ts/utils.ts:100-121 | With signed 32-bit shifts the client computes the contract's root on every path for up to 32 witness words; beyond, it turns by the low 32 bits of the path over again |
| `MerkleTree.CeilLog2IsLeast` | ts/utils.ts:79-81 | The depth of a merklized tree is the least that has room for the leaves |
| `MerkleTree.HashLevel` | contracts/libs/MerkleTree.sol:160-180 | One level, read and written in the same array, leaves the parents of the level below, the odd one paired with the empty subtree |
| `MerkleTree.Merklize` | contracts/libs/MerkleTree.sol:138-184 | For 1 to 32 leaves the in-place buffer ends at the root of the padded tree of least depth (depth 1 for one leaf) and the input array is unchanged; above 32 leaves it reverts |
| `MemoryTrees.Zeros` | ts/tree/hasher.ts:26-33 | The table holds the empty subtree root of every height |
| `MemoryTrees.MemoryTree.constructor` | ts/tree/memoryTree.ts:36-45 | A new tree is well formed and empty |
| `MemoryTrees.MemoryTree.Meaning` | ts/tree/memoryTree.ts:47-53 | In a well-formed tree every node at every level and index, root included, is the recursive node over the leaves |
| `MemoryTrees.MemoryTree.UpdateCouple` | ts/tree/memoryTree.ts:191-207 | Writes the hash of a couple to its parent and nothing else |
| `MemoryTrees.MemoryTree.RehashLevel` | ts/tree/memoryTree.ts:183-185 | After the inner loop only the nodes above the halved range can still be stale |
| `MemoryTrees.MemoryTree.Ascend` | ts/tree/memoryTree.ts:174-189 | Whatever range of leaves was overwritten, rehashing the widened range level by level makes every node of the tree the hash of its children again |
| `MemoryTrees.MemoryTree.UpdateSingle` | ts/tree/memoryTree.ts:140-144 | Succeeds exactly on an index of the tree; then that leaf, and no other, has changed and the whole tree is rehashed |
| `MemoryTrees.MemoryTree.UpdateBatch` | ts/tree/memoryTree.ts:159-168 | Succeeds exactly on a non-empty range inside the tree; then the leaves are the old ones overwritten by the batch and the whole tree is rehashed |
| `MemoryTrees.MemoryTree.Witness` | ts/tree/memoryTree.ts:74-86 | For every index and depth the witness holds the siblings up to the root, and climbing along it gives the root |
| `MemoryTrees.MemoryTree.WitnessForBatch` | ts/tree/memoryTree.ts:56-71 | Succeeds exactly when the offset is a multiple of the subtree size; then it is the witness of that subtree |
| `MemoryTrees.Aligned` | ts/tree/memoryTree.ts:60-68 | A range of 2^k leaves lies under one node at height k only if it starts at a multiple of 2^k |
| `MemoryTrees.MemoryTree.CheckInclusion` | ts/tree/memoryTree.ts:90-121 | Errors on an empty or uneven witness, on raw data with a witness that is not whole or that is not the leaf's, and on fewer nodes than levels; otherwise true exactly when climbing as many levels as the witness names gives the root |
| `MemoryTrees.HalfIsExact` | ts/tree/memoryTree.ts:174-194 | The shifts find the parent exactly below index 2^31; above, its index comes out negative |
| `MemoryTrees.Merklize` | ts/tree/memoryTree.ts:27-34 | The client's tree of a list of leaves has the very root that the contract's in-place `merklize` computes |
| `AccountTrees.Sizes` | contracts/AccountTree.sol:11-15 | Each half has 2^31 places and depth 31, a batch 16 leaves and depth 4 |
| `AccountTrees.Increment` | contracts/AccountTree.sol:58-66 | Adding one clears the trailing 1 bits, sets the first 0 bit and keeps the rest: why one stored subtree per level is enough |
| `AccountTrees.FrontierAfter` | contracts/AccountTree.sol:58-66 | Storing one node on the first left turn leaves the frontier of the tree with one more subtree |
| `AccountTrees.Ascend` | contracts/AccountTree.sol:54-67 | From a frontier and a new subtree the climb gives the root of the extended tree, and its frontier |
| `AccountTrees.HashBatch` | contracts/AccountTree.sol:79-94 | Sixteen leaves hashed in place give the node of height 4 above them |
| `AccountTrees.AccountTree.constructor` | contracts/AccountTree.sol:27-47 | Both halves start as empty trees |
| `AccountTrees.AccountTree.UpdateSingle` | contracts/AccountTree.sol:49-70 | After any sequence of insertions both roots are the recursive roots of all leaves inserted so far, though one subtree a level is stored; the new leaf gets the next index; the last place is never used |
| `AccountTrees.AccountTree.UpdateBatch` | contracts/AccountTree.sol:72-118 | The same for a batch of 16 in the right half; a batch that would not fit reverts |
| `AccountTrees.AccountTree.CheckInclusion` | contracts/AccountTree.sol:120-141 | With a full-length witness only the leaf inserted at the index is included, and with its genuine witness it is |
| `AccountTrees.InclusionIsExact` | contracts/AccountTree.sol:120-141 | The two directions of the inclusion check, for every index of a half |
| `Ledger.SenderSound` | contracts/libs/Transition.sol:119-145 | A sender step with arbitrary proof either reverts or proved the ledger's own state and does what the ledger does; what that is in numbers, each failure code with its condition, is `Verdicts.RevertsIf`, `FailsIf` and `AcceptsAs` |
| `Ledger.ReceiverSound` | contracts/libs/Transition.sol:147-172 | The same for a receiver step |
| `Ledger.CreateSound` | contracts/libs/Transition.sol:92-117 | A created account goes to a place that is empty in the ledger, or the call reverts |
| `Ledger.TxSound` | contracts/libs/Transition.sol:17-90 | For any two proofs, a transfer, create2transfer or mass migration that does not revert has the ledger's outcome |
| `Ledger.TxComplete` | contracts/libs/Transition.sol:17-90 | The ledger's own proofs, the receiver's taken after the sender has paid, reproduce that outcome |
| `Ledger.RootDeterminesLedger` | contracts/libs/Types.sol:203-215 | Two ledgers of a given depth with the same state root are the same ledger |
| `Commits.ProcessTransferCommit` | contracts/Transfer.sol:25-65 | The loop, with its early returns, fee total and token from the first proof, is the fold of single steps that the soundness theorems are about |
| `Commits.ProcessCreate2TransferCommit` | contracts/Create2Transfer.sol:24-63 | The same for create2transfers |
| `Commits.MigrateAll` | contracts/MassMigrations.sol:46-61 | The loop keeps root, unchecked totals and one withdraw leaf for each transaction |
| `Commits.ProcessMassMigrationCommit` | contracts/MassMigrations.sol:28-77 | The loop, the fee step, the amount and withdraw-root checks, in that order |
| `Commits.StopsForGood` | contracts/Transfer.sol:43-56 | A failing or reverting step ends the commitment with that outcome |
| `StatelessExecution.RunSound` | contracts/Transfer.sol:43-56 | Along the whole loop, arbitrary proofs either revert or track the ledger, transaction by transaction |
| `StatelessExecution.ProofPlaces` | ts/stateTree.ts:160-300 | The order of the proofs a ledger holder gives: sender and receiver of each transfer side by side, the sender alone of each migration, each of the ledger as it then stands |
| `StatelessExecution.CommitSound` | contracts/Transfer.sol:25-65 | For proofs of any content, number and witness length a transfer or create2transfer commitment either reverts or has the one outcome that ledger and bytes fix; on Ok its root is that of the ledger after all transactions and the fees |
| `StatelessExecution.MassMigrationSound` | contracts/MassMigrations.sol:28-77 | The same for mass migrations |
| `StatelessExecution.CommitComplete` | contracts/Create2Transfer.sol:24-63 | Unless the ledger itself reverts, its own proofs give the chain exactly its outcome, also when that is a failure code |
| `StatelessExecution.MassMigrationComplete` | contracts/MassMigrations.sol:28-77 | The same for mass migrations |
| `StatelessExecution.DisputeIsExact` | contracts/rollup/Rollup.sol:379-393 | Some proofs make a transition dispute succeed if and only if the ledger does not revert on the commitment and gives another outcome than the claimed root |
| `StatelessExecution.MassMigrationDisputeIsExact` | contracts/rollup/Rollup.sol:409-422 | The same for mass migrations |
| `Verdicts.RevertsIf` | contracts/libs/Transition.sol:17-226 | In accounts and numbers: a transaction reverts exactly when its sender is missing, amount plus fee overflow a word, the sender pays but its nonce is used up, or, after a sender that pays, the receiver of a transfer is missing or overflows or the position of a create2transfer is taken |
| `Verdicts.FailsIf` | contracts/libs/Transition.sol:174-210 | It gives InvalidTokenAmount, NotEnoughTokenBalance, BadFromTokenID or BadToTokenID, always with root 0, exactly under the condition of each code, in the order of the source |
| `Verdicts.AcceptsAs` | contracts/libs/Transition.sol:174-226 | What an accepted transaction does to every account: the sender pays amount and fee and its nonce goes up by one, a receiver of the same token gets the amount, a create2transfer opens an account with nonce 0, and nothing else changes |
| `Verdicts.ReceivesIf` | contracts/libs/Transition.sol:147-210 | The fees of a commitment revert, fail or are credited exactly when the receiver is missing or overflows, has another token, or has the token and room |
| `Verdicts.CommitVerdict` | contracts/Transfer.sol:25-65 | A transfer or create2transfer commitment fails with a code exactly when its bytes have a wrong size, it has too many transactions, or the first thing not accepted is a transaction of amount 0, an overspend or a wrong token; it reverts exactly when that is a missing or occupied account or an overflow |
| `Verdicts.DisputedWhateverClaimed` | contracts/rollup/Rollup.sol:379-393 | Every claimed root can be disputed by some proofs if and only if the commitment fails in one of these ways |
| `Verdicts.NeverDisputed` | contracts/rollup/Rollup.sol:379-393 | No claimed root can be disputed by any proofs if and only if the commitment reverts in one of those ways |
| `Verdicts.MissingSenderStands` | contracts/libs/Transition.sol:119-145 | The input: a commitment whose first transaction has no sender stands with whatever root it claims |
| `Verdicts.OverspendIsDisputed` | contracts/rollup/Rollup.sol:379-393 | If the first k transactions go through and the next one, of an existing sender, has amount 0, overspends or has the wrong token, then whatever root is claimed some proofs make the dispute succeed |
| `Verdicts.MigrationVerdict` | contracts/MassMigrations.sol:28-77 | The same two conditions for mass migrations, with the wrapped totals, the number of leaves and the withdraw root over the states taken out |
| `Verdicts.MigrationDisputedWhateverClaimed` | contracts/rollup/Rollup.sol:409-422 | Which mass migrations can be disputed whatever root they claim, and which never |
| `FraudProofs.SubmittedIsFiled` | contracts/rollup/Rollup.sol:199-316 | Every accepted submission of 1 to 32 commitments files them, in order, under the next ID |
| `FraudProofs.FraudIsExact` | contracts/rollup/Rollup.sol:379-393 | From the root of a ledger, some proofs make re-execution of a body of any kind fail or end elsewhere than claimed if and only if the ledger does not revert on it and says so |
| `InclusionReadings.InclusionIsExact` | contracts/rollup/Rollup.sol:126-137 | Whatever was submitted as a batch, at every path and for every length: an inclusion proof holds for two words if and only if the low bits of the path lead, so many levels down inside the root, to their hash |
| `InclusionReadings.ConvictionIsShown` | contracts/rollup/Rollup.sol:366-453 | For every batch, every path and every pair of lengths of the previous witness and of the target's: evidence convicts through an entry point if and only if both show something, and some body behind the second is fraudulent from the state root of the first |
| `InclusionReadings.ShownIs` | contracts/rollup/Rollup.sol:126-137 | For batches on ledgers, what is shown at every path and for every length: the commitment at the place that the low bits name, if there is one, the two children of an inner node of the batch, or those of an inner node of a state tree |
| `InclusionReadings.NodeIsRoot` | contracts/rollup/Rollup.sol:126-164 | A node of a state tree is the root of the accounts below it, numbered from there, in a shallower tree |
| `DeeperTrees.ExecutedLifts` | contracts/libs/MerkleTree.sol:10-35 | Proofs of a ledger made longer by the words above its root execute on the deeper root as they did on their own, failure codes included, and end below it |
| `DeeperTrees.RunLowers` | contracts/Transfer.sol:43-56 | Whatever proofs run below the deeper root run as the ledger at its far left does, if nothing above that ledger passes for a leaf |
| `DeeperTrees.FraudBelowIsExact` | contracts/rollup/Rollup.sol:379-393 | A commitment of the ledger's depth is fraudulent below a deeper root as soon as the ledger there does not revert on it, and only then if nothing above passes for a leaf |
| `WitnessLengths.StartIsShown` | contracts/rollup/Rollup.sol:126-164 | For every path and length, the state a previous witness shows: of the leftmost commitment below the node, in a deeper tree; of nobody, where the batch is padded; of the commitment that the path names; or of part of a ledger, in a shallower tree |
| `WitnessLengths.WholeStart` | contracts/rollup/Rollup.sol:366-453 | From a ledger, a part of one, or padding, evidence with a previous witness of that length convicts at a path if and only if the path names a commitment and the ledger contradicts one of its bodies |
| `WitnessLengths.ConvictionIsExact` | contracts/rollup/Rollup.sol:366-453 | With witnesses of the right length, at every path: some evidence convicts through an entry point if and only if the path and the path before it both name commitments, and the ledger of the one contradicts some body of that kind of the other |
| `WitnessLengths.LengthDecides` | contracts/rollup/Rollup.sol:366-453 | At every path: a commitment that some ledger accepts, with indices that are positions, is convicted through its own entry point with a previous witness of a given length if and only if the length is right and the ledger it shows contradicts it, or the length is wrong and the ledger it shows does not revert on it; for too short witnesses, the only-if needs that no body root before it is a state's hash and, for create2transfers, that the batch has no padding |
| `WitnessLengths.PaddingReverts` | contracts/rollup/Rollup.sol:366-453 | A witness that shows nothing but padding convicts no commitment that some ledger accepts |
| `WitnessLengths.SingleCommitmentMisread` | contracts/rollup/Rollup.sol:366-394 | The input: after a batch of one commitment, such as genesis or a deposit batch, the honest commitment of no transactions is convicted by showing the batch root itself as its commitment |
| `MisreadTargets.BodyShape` | contracts/libs/Types.sol:90-113 | The hash of a body is that of a user state exactly if the body has no transactions, and never that of two words |
| `MisreadTargets.TargetLengthIsForced` | contracts/rollup/Rollup.sol:126-137 | A body hash that is no hash of a state or of two words is shown only with a witness of the right length, at whatever path |
| `MisreadTargets.StateAsBody` | contracts/rollup/Rollup.sol:366-453 | A user state read as a body is fraudulent from a root if and only if its nonce, as an index, names an account there whose balance fits a word, and the root is not the claimed one |
| `MisreadTargets.CreditedOnLedger` | contracts/libs/Transition.sol:147-172 | Below the root of a ledger an index names such an account if and only if the ledger has one at its low bits, with a balance that fits a word |
| `MisreadTargets.MisreadTargetIsExact` | contracts/rollup/Rollup.sol:366-453 | At every path: with a target witness of another length somebody can convict, whatever was committed, if and only if the length is batch depth plus state depth, the entry point is not that of mass migrations, the path names two neighbours of which the right one is there, and the ledger that the path before it names has an account at the low bits of its nonce |
| `MisreadTargets.PairMisread` | contracts/rollup/Rollup.sol:366-453 | The input: any two neighbours of any commitment's ledger, the right one with a nonce that names an account of the ledger before their path, roll the batch back whatever was committed |
| `MisreadTargets.ConvictedExactlyIf` | contracts/rollup/Rollup.sol:366-453 | Over all entry points and all evidence, of whatever lengths, at every path: somebody can convict if and only if the commitment that the path names is wrong in some reading from some state that can be shown before it, or two accounts that the path names are misread as a commitment; where a ledger or a part of one is shown, both are stated about it |
| `MisreadTargets.BodyConvictedIf` | contracts/rollup/Rollup.sol:366-453 | The same for a commitment whose body is known, its readings as transfers, create2transfers and mass migrations, or as itself and its twin, spelt out for every ledger that can be shown |
| `WholeBatches.PlacesBefore` | contracts/rollup/Rollup.sol:139-164 | A path and the path before it name neighbours, or, in a batch whose tree is full, the first and the last commitment |
| `WholeBatches.RightlyConvictedIf` | contracts/rollup/Rollup.sol:366-453 | With witnesses of the right length somebody can convict a batch at some path if and only if some reading of some commitment is wrong from its predecessor, or the batch's tree is full and some reading of the first commitment is wrong from the last |
| `WholeBatches.BatchConvictedIf` | contracts/rollup/Rollup.sol:366-453 | By all evidence at all paths: if and only if that is so, or at some path the previous commitment or the target is misread |
| `WholeBatches.FirstOfTwoMisread` | contracts/rollup/Rollup.sol:366-394 | The input: an honest batch of two whose first commitment has no transactions; it stands at path 0 and is convicted at path 2, with witnesses of the right length |
| `WholeBatches.AcceptedOnce` | contracts/libs/Transition.sol:174-194 | An accepted commitment with a transaction or migration, executed again on a ledger that has gone on from its result, contradicts its root unless it reverts: nonces only grow |
| `WholeBatches.FirstFallsAgain` | contracts/rollup/Rollup.sol:366-453 | So the first commitment of every honest batch whose tree is full, such as a batch of 32, is convicted at the path behind the last one unless executing it on the batch's last ledger reverts |
| `WholeBatches.PairsDecide` | contracts/rollup/Rollup.sol:366-453 | Which batches are safe from misread targets: with previous witnesses of the right length, somebody can convict by two accounts at some path if and only if some right neighbour of some ledger of the batch has a nonce that names an account of the ledger at the place before its number, or, for the first two, of the last ledger of the batch before |
| `BodyReadings.TwinHashesAlike` | contracts/libs/Types.sol:103-160 | A mass-migration body is packed to the same bytes as a transfer body with four more words in front of its transactions |
| `BodyReadings.SameTransfer` | contracts/libs/Types.sol:103-113 | Transfer bodies with the same bytes have the same signature, fee receiver and transactions |
| `BodyReadings.SameMigration` | contracts/libs/Types.sol:142-160 | Mass-migration bodies with the same bytes are the same, up to withdraw roots with the same bytes |
| `BodyReadings.TransferStands` | contracts/rollup/Rollup.sol:366-453 | Over all entry points, by evidence with witnesses of the right length, at every path: a transfer or create2transfer commitment can be convicted if and only if there is a ledger before the path and one of its readings, as transfers, as create2transfers or as any mass migration with its bytes, does not revert there and contradicts the claimed root |
| `BodyReadings.MigrationStands` | contracts/rollup/Rollup.sol:366-453 | Over all entry points, by evidence with witnesses of the right length, at every path: a mass-migration commitment can be convicted if and only if there is a ledger before the path and it, or its twin read as transfers or as create2transfers, does not revert there and contradicts the claimed root |
| `BodyReadings.WrongSize` | contracts/Create2Transfer.sol:24-36 | Bytes that are no whole number of transactions of a kind convict through that kind's entry point without any proof |
| `BodyReadings.MigrationOfWrongSize` | contracts/libs/Types.sol:142-160 | An honest mass migration is convicted, with witnesses of the right length, unless its number of transactions is 2 modulo 6 |
| `BodyReadings.TransferAsMigration` | contracts/libs/Types.sol:103-160 | A transfer body shorter than four words has no reading as a mass migration; a longer one convicts unless whole migrations follow them |
| `Conservation.ApplyMoves` | contracts/libs/Transition.sol:17-90 | One transaction takes only its fee, or its fee and migrated amount, out of the total of its token |
| `Conservation.RunMoves` | contracts/Transfer.sol:43-56 | Over the loop the total of every token falls by exactly the fees (and migrated amounts) of that token |
| `Conservation.CommitConserves` | contracts/Transfer.sol:43-65 | An accepted transfer or create2transfer commitment keeps the total of every token, keys and tokens of accounts, and every account not mentioned |
| `Conservation.ChainConserves` | contracts/Create2Transfer.sol:24-63 | Seen from the chain: whatever proofs made it accept, the new root is that of a ledger with the same totals |
| `Conservation.MassMigrationConserves` | contracts/MassMigrations.sol:46-76 | An accepted mass migration lowers only its token, by exactly the committed amount, which is the sum of the balances under the withdraw root; no unchecked sum wraps |
| `StateTrees.StateTree.constructor` | ts/stateTree.ts:98-103 | A new state tree holds the empty ledger |
| `StateTrees.StateTree.GetState` | ts/stateTree.ts:111-116 | The state and the witness that the specification calls the ledger's proof |
| `StateTrees.StateTree.UpdateState` | ts/stateTree.ts:119-123 | On success ledger and tree change together; a position outside the tree changes nothing |
| `StateTrees.StateTree.CreateState` | ts/stateTree.ts:145-149 | Only a free position can be created |
| `StateTrees.StateTree.GetProofAndUpdate` | ts/stateTree.ts:315-322 | The proof returned is of the state before the update |
| `StateTrees.StateTree.ProcessSender` | ts/stateTree.ts:323-345 | Succeeds exactly when the reference ledger accepts the sender step, and follows it |
| `StateTrees.StateTree.ProcessReceiver` | ts/stateTree.ts:346-360 | The same for the receiver step |
| `StateTrees.StateTree.ProcessCreate` | ts/stateTree.ts:362-373 | The same for the create step |
| `StateTrees.StateTree.ProcessTx` | ts/stateTree.ts:271-313 | One transaction follows the reference ledger and emits the proofs the chain will need |
| `StateTrees.StateTree.ProcessCommit` | ts/stateTree.ts:160-269 | Succeeds exactly when the reference ledger accepts the whole commitment with all positions in the tree; emits exactly the ledger's proofs, in order |
| `Completeness.TransfersAcceptedOnChain` | ts/stateTree.ts:160-236 | A transfer or create2transfer commitment that the coordinator processed is answered Ok on chain, with the coordinator's root, from its serialized bytes and emitted proofs; self-transfers and trading fee receivers included |
| `Completeness.MassMigrationAcceptedOnChain` | ts/stateTree.ts:237-269 | The same for mass migrations of 1 to 32 transactions with the body built from the ledger before or after the commitment |
| `Completeness.FromStates` | ts/stateTree.ts:376-380 | The migration tree has the merklized root of the migrated states |
| `Completeness.FromStateProvider` | ts/commitments.ts:143-174 | Built exactly for a non-empty list of encodable transactions from positions of the tree whose migrated states can be hashed; the commitment then has the provider's root, the account root, signature and first spoke handed in, and withdraw root, token, amount and bytes of the transactions read against the ledger |
| `Completeness.AcceptedCanMigrate` | ts/commitments.ts:143-174 | From the ledger before or after an accepted mass-migration commitment the body is always built |
| `Completeness.WithdrawnMatch` | ts/commitments.ts:150-161 | The states the client migrates are the leaves the chain collects |
| `Authenticity.RewindNonce` | contracts/libs/Authenticity.sol:57-64 | The inner loop takes one off the nonce for each later transaction of the same sender index, wrapping below zero |
| `Authenticity.VerifySignatures` | contracts/libs/Authenticity.sol:18-219 | The backwards loop reverts exactly when a proof is missing or wrong or the keys are not as many as the messages, at least one; else checks the signature against the packed bytes of one message a transaction, in order, each with its rewound nonce |
| `TxMessages.MessagesAgree` | contracts/libs/Tx.sol:223-365 | The client encodes exactly the messages whose numbers fit their fields, to the bytes the contract rebuilds |
| `TxMessages.LeadingTag` | contracts/libs/Tx.sol:17-19 | The bytes of a transfer message begin with the word 1, of a create2transfer with the word 3, of a mass migration with the byte 5 |
| `TxMessages.Layout` | contracts/libs/Tx.sol:223-365 | Where sender, receiver or its key hash, nonce, amount, fee and spoke stand in the bytes, and how wide they are |
| `TxMessages.EncodingIsBinding` | contracts/libs/Tx.sol:223-365 | Two messages with the same bytes are of one kind and agree on sender, nonce, amount, fee and receiver or spoke |
| `Authenticity.ForwardNonce` | contracts/libs/Transition.sol:174-194 | Executing forwards, a nonce is what it was plus the number of transactions sent since, also for accounts created on the way |
| `Authenticity.RewindingIsRight` | contracts/libs/Authenticity.sol:26-64 | For an accepted commitment the rewinding never goes below zero, and finds the nonce just before the transaction exactly when no later transaction names the same account by another index |
| `Authenticity.AliasedSenders` | contracts/libs/Authenticity.sol:57-64 | The input where it fails, at every depth below 32: two accepted transactions of one account under two indices; the first nonce found is one too high |
| `Authenticity.MessagesAreForward` | contracts/libs/Authenticity.sol:149-204 | On a ledger of depth 32 or more every rebuilt message carries the nonce of forward execution |
| `Authenticity.RewoundIsForward` | contracts/libs/Authenticity.sol:57-64 | From the nonce after an accepted commitment, rewinding finds the nonce before the transaction plus the later transactions of the same account under other indices |
| `SignatureDisputes.SignatureDisputeIsExact` | contracts/rollup/Rollup.sol:455-527 | At every entry point, for any ledger and any bytes: some proofs make a signature dispute succeed if and only if, read as that kind, there is a transaction, every sender has sent something and has a key, and for some receivers, for create2transfers any nodes of the account tree on the way of their key IDs, the signature is not one of the messages that the ledger gives |
| `SignatureDisputes.AcceptedSignatures` | contracts/libs/Authenticity.sol:26-204 | For a commitment of any kind that a ledger accepted, those messages have the nonces of forward execution, one higher for each later transaction that names the account by another index, and every sender has sent something |
| `SignatureDisputes.NonceIsForward` | contracts/libs/Authenticity.sol:57-64 | While indices are positions, no account has another index, and the nonces are those of forward execution |
| `SignatureDisputes.OneChoice` | contracts/libs/Authenticity.sol:18-143 | Accepted transfers and mass migrations are badly signed as what they are if and only if every sender has a key and under these keys the signature is not one of the messages of forward execution |
| `SignatureDisputes.ReceiversAreFree` | contracts/libs/Authenticity.sol:176-204 | The failing input: every accepted create2transfer commitment with registered senders, signed for its messages and no others, is convicted by showing the account root itself as the first receiver's key |
| `SignatureReadings.SignatureTarget` | contracts/rollup/Rollup.sol:455-527 | Whatever the path and the length of the witness, a signature dispute is about the commitment that the low bits of the path name |
| `SignatureReadings.OnlyThePlace` | contracts/rollup/Rollup.sol:455-527 | For signatures, which have no predecessor, a path does what the place that it names does |
| `SignatureReadings.SignatureConvictedIf` | contracts/rollup/Rollup.sol:455-527 | Over all entry points and all evidence, at every path: the signature can be disputed if and only if the path names a commitment and some proofs find it bad in one of the readings of its body root |
| `SignatureReadings.TransferSignatures` | contracts/rollup/Rollup.sol:455-527 | For a transfer or create2transfer commitment: if and only if it is bad for the transfers, for the create2transfers (bytes left over are ignored), or, behind four words, for the mass migrations that its bytes read as |
| `SignatureReadings.MigrationSignatures` | contracts/rollup/Rollup.sol:455-527 | For a mass-migration commitment: if and only if it is bad for its migrations, or for the transfers or create2transfers that its twin reads as |
| `SignatureReadings.TooShortToDispute` | contracts/libs/Tx.sol:247-253 | What a proposer can check: a body of fewer bytes than one transaction of a kind takes cannot be disputed as that kind |
| `PackedSignatures.PackedMessages` | ts/client/features/transfer.ts:363-404 | The messages of a packed commitment by forward execution are those its transactions were accepted with |
| `PackedSignatures.PackedSignature` | contracts/rollup/Rollup.sol:455-475 | Through `disputeSignatureTransfer` a packed commitment is convicted if and only if every sender has a key and under these keys the signature is not one of the packed messages |
| `PackedSignatures.PackedSignatures` | contracts/rollup/Rollup.sol:455-527 | Over all entry points and all evidence: if and only if that is so, or the signature is not one of the messages that its bytes give as create2transfers, or behind four words as mass migrations; for a single transfer only the first can be |
| `PackedSignatures.TwoTransfersMisread` | contracts/rollup/Rollup.sol:504-527 | The input: a packed commitment of two transfers, signed by exactly its senders, stands as transfers and is convicted as create2transfers |
| `PackedSignatures.TwoTransfersPacked` | ts/client/features/transfer.ts:363-404 | There is such a commitment: two payments that packing accepts, from an account with a registered key |
| `Batches.EpisodeIsOneRollback` | contracts/rollup/BatchManager.sol:91-127 | An episode cut into any number of calls, and reopened by disputes of lower batches, ends if it completes in the very state of one uninterrupted rollback to the lowest disputed batch, queue order included |
| `Batches.EpisodeWithOthers` | contracts/rollup/BatchManager.sol:91-127 | The same with new subtrees and withdrawals in between: same batches, next ID and marker; the re-enqueued roots keep their descending order among the new ones; one stake for each deletion and withdrawal |
| `Batches.FinishedRollback` | contracts/rollup/BatchManager.sol:96-123 | A finished rollback keeps exactly the batches below the marker, clears it, pays one stake a deleted batch and queues the recorded deposit roots in descending order of ID |
| `Batches.DeleteReenqueues` | contracts/rollup/BatchManager.sol:102-112 | Deleting n batches appends their recorded non-zero roots, highest ID first |
| `Batches.DisputeCondemns` | contracts/rollup/BatchManager.sol:58-123 | Every live batch that is not final, and lies below the marker of any rollback under way, is condemned by an upheld dispute: the marker goes to it, as many batches as the gas allows are deleted from the top, their recorded deposits queued and their stakes paid out |
| `Batches.DisputeRefused` | contracts/rollup/BatchManager.sol:58-94 | Every other dispute changes nothing: of a batch that is not live, final, condemned already, or whose stakes cannot be paid |
| `Batches.SubmitRecords` | contracts/rollup/BatchManager.sol:129-147 | A submission outside a rollback that pays the stake adds one record with root, usage, size, committer and finalisation block, the two numbers modulo the widths of their fields, and the value; any other changes nothing |
| `Batches.SubmitDepositsRecords` | contracts/rollup/Rollup.sol:318-363 | A deposit batch also takes the first waiting subtree root from the queue and records it under its ID |
| `Batches.WithdrawPays` | contracts/rollup/BatchManager.sol:152-169 | A stake is paid exactly when the sender is the committer on record, the block is after the finalisation block, the batch is not claimed and there is ether; exactly that ID is then claimed |
| `Batches.GenesisRecords` | contracts/rollup/Rollup.sol:82-100 | The first state has one batch of one commitment, final in its own block |
| `Batches.MoveIsCall` | contracts/rollup/BatchManager.sol:91-169 | Each move of an episode is the contract's call of that name, an escalation the dispute of a live batch that is not final |
| `Batches.EpisodeIsRun` | contracts/rollup/BatchManager.sol:91-169 | An episode is a run of these calls |
| `Batches.ShuffledKeepsAll` | contracts/rollup/BatchManager.sol:102-112 | Roots queued again and new ones in between: none is lost or doubled |
| `BatchFinality.StepKeepsOrder` | contracts/rollup/BatchManager.sol:52-169 | Every call, whoever withdraws what, keeps: live IDs are 0 up to the next ID, finalisation blocks grow with the ID and are at most the delay away, the marker is 0 or a live ID above 0 |
| `BatchFinality.EveryRunIsOrdered` | contracts/rollup/BatchManager.sol:52-169 | That order holds after every call of every run from genesis with block plus delay below 2^32 |
| `BatchFinality.FinalForever` | contracts/rollup/BatchManager.sol:52-63 | In every such run a batch once final and not under rollback stays for ever, unchanged: no later dispute or rollback reaches it |
| `BatchFinality.DisputableForTheDelay` | contracts/rollup/BatchManager.sol:52-94 | A batch submitted in block b can be disputed in every block before b plus the delay, after whatever other calls, as long as it is live and not condemned: the dispute condemns it |
| `BatchFinality.LowerBatchIsCondemned` | contracts/rollup/BatchManager.sol:58-94 | The input: with a rollback to batch 3 under way, a dispute moves the marker on to batch 2 |
| `Stakes.RollbackKeepsInv` | contracts/rollup/BatchManager.sol:96-123 | Under the invariant a rollback never lacks the ether it pays out |
| `Stakes.StepKeepsInv` | contracts/rollup/BatchManager.sol:91-169 | Every call, withdrawals of live batches above 0 only, keeps the ether covering one stake for each live unwithdrawn batch |
| `Stakes.EveryRunIsCovered` | contracts/rollup/BatchManager.sol:91-169 | The ether covers those stakes after every call of every run with such withdrawals |
| `Stakes.EveryDisputeIsPaid` | contracts/rollup/BatchManager.sol:58-123 | In every such run a dispute of a live batch that is neither final nor condemned never lacks ether: it condemns the batch |
| `Stakes.WithdrawalSurplus` | contracts/rollup/BatchManager.sol:152-169 | A withdrawal keeps the ether beyond what is owed exactly when its batch is live and not the genesis batch; otherwise it costs one stake |
| `Stakes.RollbackSurplus` | contracts/rollup/BatchManager.sol:96-123 | A rollback loses one stake for every deleted batch whose stake had been withdrawn, and nothing else |
| `Stakes.GenesisStakeTaken` | contracts/rollup/BatchManager.sol:152-169 | The input: a run of two calls in which the genesis stake is withdrawn and another batch's stake is no longer covered |
| `Stakes.CondemnedStakeTaken` | contracts/rollup/BatchManager.sol:152-169 | The input: a run of five calls in which a stake is withdrawn during a rollback and paid out again by it |
| `DepositsInFlight.DepositsConserved` | contracts/rollup/Rollup.sol:345-350 | While an ID with a recorded root is reused only by deposits, a call leaves every subtree root either queued or in one live deposit batch; only a new subtree adds one |
| `DepositsInFlight.EveryRunConserves` | contracts/rollup/Rollup.sol:345-350 | In every such run from genesis the subtrees ever queued are exactly those waiting or in a live deposit batch |
| `DepositsInFlight.ReuseDuplicates` | contracts/rollup/BatchManager.sol:106-110 | The hypothesis is exact: a batch of another kind submitted and rolled back leaves the outstanding deposits unchanged if and only if its ID had no root on record |
| `DepositsInFlight.StaleRootQueuedTwice` | contracts/rollup/BatchManager.sol:106-110 | The input: a run of five calls after which one subtree is twice in the queue |
| `Rollups.Rollup.constructor` | contracts/rollup/Rollup.sol:49-100 | The genesis state: one batch holding the merklized genesis commitment, final at once |
| `Rollups.Rollup.Rollback` | contracts/rollup/BatchManager.sol:96-123 | The loop refines the transition for the gas it gets; reward (two thirds, rounded down) plus burn is one stake a deleted batch |
| `Rollups.Rollup.StartRollingBack` | contracts/rollup/BatchManager.sol:91-94 | A rollback down to the given batch |
| `Rollups.Rollup.KeepRollingBack` | contracts/rollup/BatchManager.sol:125-127 | Succeeds exactly with a rollback under way that it can pay for, and goes on with it |
| `Rollups.Rollup.SubmitBatch` | contracts/rollup/BatchManager.sol:129-147 | One more batch under the next ID, refused below the stake |
| `Rollups.Rollup.SubmitCommitments` | contracts/rollup/Rollup.sol:199-316 | Accepted exactly outside rollbacks, under the expected ID, with 1 to 32 commitments, a body for each and the stake; the batch root is the merklized root of the hashes of state roots and bodies built on the registry's account root |
| `Rollups.Rollup.SubmitDeposits` | contracts/rollup/Rollup.sol:318-364 | Accepted exactly when the previous commitment, the vacancy proof, the queue and the stake are in order; the new state root climbs from the dequeued deposit root, which is recorded under the batch |
| `Rollups.Rollup.WithdrawStake` | contracts/rollup/BatchManager.sol:152-169 | Pays exactly the committer of a final batch, once |
| `Rollups.SingleCommitment` | contracts/rollup/Rollup.sol:358-362 | Pairing with the empty leaf is what `merklize` does with one commitment |
| `Rollups.Rollup.CheckPrevious` | contracts/rollup/Rollup.sol:139-164 | The guard holds exactly for a proved previous commitment at the right place |
| `Rollups.Rollup.DisputeTransition` | contracts/rollup/Rollup.sol:366-453 | Answers exactly when the batch is disputable, both inclusions hold, execution returns and, on fraud, the stake can be paid; rolls back exactly on fraud and changes nothing otherwise |
| `Rollups.Rollup.DisputeSignature` | contracts/rollup/Rollup.sol:455-527 | Answers exactly when the batch is disputable, the commitment included, all signer proofs good and the keys as many as the messages, and rolls back exactly when the rebuilt messages do not carry the signature |
| `Rollups.StartsFromGenesis` | contracts/rollup/Rollup.sol:82-100 | The commitment before the very first one is the genesis commitment, at path 0: a dispute of batch 1 starts from the genesis state |
| `Types.MetaRoundTrip` | contracts/libs/Types.sol:42-78 | Packing batch type, size, committer and finalisation block into one word and reading them back gives each field at its width |
| `Types.MetaBytes` | contracts/libs/Types.sol:42-62 | The fields stand side by side: one byte type, one byte size, twenty bytes committer, four bytes finalisation block, six empty bytes |
| `Types.SetBitSets` | contracts/libs/Bitmap.sol:19-26 | Or-ing in a bit sets that bit and no other |
| `Types.ClaimAddsOne` | contracts/libs/Bitmap.sol:8-26 | The bitmap is a set of indices: claiming adds exactly one |
| `Deposits.StackLength` | contracts/DepositManager.sol:68-93 | The stack holds one subtree root for each 1 bit of the count |
| `Deposits.GroupsAreRoots` | contracts/DepositManager.sol:68-93 | Over every run of deposits the k-th queued root is the Merkle root of the k-th group of 2^depth leaves, and the rest is the unfinished group |
| `Deposits.DepositCore.constructor` | contracts/DepositManager.sol:64-66 | An empty queue and no pending deposit |
| `Deposits.DepositCore.Enqueue` | contracts/DepositManager.sol:34-39 | Appends a root under the next ID; re-enqueueing is the same call |
| `Deposits.DepositCore.Dequeue` | contracts/DepositManager.sol:41-50 | Roots leave in the order of their IDs; an empty queue reverts |
| `Deposits.DepositCore.Merge` | contracts/DepositManager.sol:72-82 | The merging loop leaves the stack of complete subtrees for one more leaf |
| `Deposits.DepositCore.InsertAndMerge` | contracts/DepositManager.sol:68-93 | One deposit extends the unfinished group, or queues the Merkle root of the finished one |
| `Deposits.DepositPool.constructor` | ts/client/features/deposit.ts:45-50 | An empty pool |
| `Deposits.SubtreeDepthMatters` | ts/client/features/deposit.ts:79-85 | The client's root of a full group is the contract's exactly for depths of at least 1 |
| `Deposits.DepositPool.PushDeposit` | ts/client/features/deposit.ts:52-58 | Adds the deposit to the unfinished group, or finishes a subtree with the merklized root of its states |
| `Deposits.DepositPool.PopDepositSubtree` | ts/client/features/deposit.ts:64-68 | Subtrees leave in the order they were finished |
| `Deposits.BothFollow` | ts/client/features/deposit.ts:52-85 | Given the same deposits at depth 1 or more, contract and client have the same subtrees with the same IDs and roots |
| `StorageEngines.MemoryEngine.constructor` | ts/client/storageEngine/memoryEngine.ts:17-19 | An empty engine |
| `StorageEngines.MemoryEngine.Update` | ts/client/storageEngine/memoryEngine.ts:44-48 | Goes to cache and journal, not to items or tree |
| `StorageEngines.MemoryEngine.Create` | ts/client/storageEngine/memoryEngine.ts:54-58 | Refuses an ID among the committed items, whatever the cache holds; else writes cache and journal |
| `StorageEngines.MemoryEngine.Revert` | ts/client/storageEngine/memoryEngine.ts:63-65 | Cuts the journal |
| `StorageEngines.MemoryEngine.Commit` | ts/client/storageEngine/memoryEngine.ts:66-72 | Stores exactly what the journal says, in order, whatever the cache shows; the tree follows the items |
| `StorageEngines.MemoryEngine.FindVacantSubtree` | ts/client/storageEngine/memoryEngine.ts:74-105 | Returns a node below which no item is stored or cached, with a witness that proves the empty subtree to the state root; fails only if there is none |
| `StorageEngines.MemoryEngine.AnyCached` | ts/client/storageEngine/memoryEngine.ts:84-91 | True exactly when something is cached below the node |
| `StorageEngines.MemoryEngine.UpdateBatch` | ts/client/storageEngine/memoryEngine.ts:106-115 | Journals the states one after the other from the subtree's first position |
| `StorageEngines.VacancyIsProved` | ts/client/storageEngine/memoryEngine.ts:79-101 | A node equal to the empty root has no item below, and its witness climbs from the empty root to the state root |
| `DepositInsertion.DepositSound` | contracts/rollup/Rollup.sol:332-357 | A vacancy proof of any length against a ledger root has length depth minus subtree depth and shows all leaves below empty; the root computed from the deposit root is the root after inserting exactly those states |
| `DepositStarts.SomethingPasses` | contracts/rollup/Rollup.sol:324-339 | For every length of the previous witness, which is not checked, a deposit batch can be submitted if and only if the length shows a state with a vacant subtree |
| `DepositStarts.DepositContinues` | contracts/rollup/Rollup.sol:328-357 | For every length that shows a ledger or a part of one, the new root is that after inserting the deposits into that ledger, at a place vacant there |
| `DepositStarts.RightStart` | contracts/rollup/Rollup.sol:324-331 | With the right length, that is the last ledger of the batch before |
| `DepositStarts.HalfLedgerContinues` | contracts/rollup/Rollup.sol:328-357 | The input: after a batch of one commitment, a previous witness one word too long passes if the left half of the ledger has a vacant subtree; the new root is that of half a ledger, and of no ledger of the right depth |
| `DepositStarts.NoBodyBehindDeposits` | contracts/rollup/Rollup.sol:358-365 | No body is behind the commitment of a deposit batch, so nothing can be executed against it |
| `DepositInsertion.FoundVacancyWorks` | ts/client/features/deposit.ts:125-131 | The proof the client finds leads to the root of its own ledger after the insertion |
| `DepositInsertion.ApplyBatch` | ts/client/features/deposit.ts:141-166 | Succeeds exactly if the next subtree of the pool has the root and ID, fits the tree and everything pending can be hashed; then applies it at the place named by the batch |
| `DepositInsertion.ClientFollowsChain` | ts/client/features/deposit.ts:110-166 | Applying a deposit batch brings the client to the very root the chain computed |
| `ClientTransfers.ProcessSender` | ts/client/stateTransitions.ts:45-57 | Succeeds exactly when account, amount, balance and token are in order; then debits it and raises the nonce |
| `ClientTransfers.ProcessReceiver` | ts/client/stateTransitions.ts:59-69 | Succeeds exactly for an account of the token; then credits it |
| `ClientTransfers.ProcessTransfer` | ts/client/features/transfer.ts:312-319 | Sender, then receiver, on the journalled view |
| `ClientTransfers.DecompressTxs` | ts/client/features/transfer.ts:271-283 | Slicing the bytes gives the transactions the contract decodes |
| `ClientTransfers.SliceDecodes` | ts/client/features/transfer.ts:70-84 | A 12-byte slice and the contract's overlapping reads give the same transaction |
| `ClientTransfers.ReplayTxs` | ts/client/features/transfer.ts:337-343 | The loop follows the specification and attaches to each transaction the sender's nonce just before it |
| `ClientTransfers.Process` | ts/client/features/transfer.ts:321-352 | Returns exactly when the replay succeeds with the committed root; then the engine holds the new ledger, and its root is the committed one |
| `ClientTransfers.PackTxs` | ts/client/features/transfer.ts:375-390 | A transaction is accepted exactly when it is valid on what was accepted before it, until the commitment is full; a validated one never fails afterwards |
| `ClientTransfers.PackCommitment` | ts/client/features/transfer.ts:363-404 | The commitment, the accepted and failed lists and the new ledger are those of the specification |
| `ClientTransfers.PackStepIs` | ts/client/features/transfer.ts:293-311 | A transaction is packed exactly when there is room, both accounts are there in the right token, it moves something the sender can pay with the fee, the nonce is the sender's and the signature was found right; otherwise it is put with the failed ones |
| `ClientTransfers.PackReports` | ts/client/features/transfer.ts:363-404 | What is packed had its signature found right, and unless the commitment is full, the packed and the failed transactions are together the whole stream, none lost or doubled |
| `ClientTransfers.PackRunIsReplay` | ts/client/features/transfer.ts:375-390 | Replaying the accepted transactions alone gives the same view, with the nonces they were signed with |
| `ClientTransfers.ProposerAndSyncerAgree` | ts/client/features/transfer.ts:321-404 | Every commitment packed from any stream of valid and invalid transactions replays on an equal ledger without error to the same root, recovering exactly the accepted transactions and nonces |
| `HonestProposer.TransferredAllIsApplyAll` | ts/client/stateTransitions.ts:20-69 | The client's step and the reference ledger's agree as long as the states can be hashed |
| `HonestProposer.EngineIsStorable` | ts/client/storageEngine/memoryEngine.ts:31-72 | An engine with an empty journal shows its items, all within the tree and within words: what the syncer starts from |
| `HonestProposer.SyncerAcceptsExactly` | ts/client/features/transfer.ts:321-352 | The syncer accepts a commitment if and only if its bytes are whole transfers, at least one and no more than allowed, between accounts of its ledger, which the reference ledger takes with their fees and ends at the committed root |
| `HonestProposer.SyncedStands` | ts/client/features/transfer.ts:321-352 | The same commitments, between accounts of the ledger, are those that re-execution accepts with that root; no proofs dispute them as transfers |
| `HonestProposer.SyncedNonces` | ts/client/features/transfer.ts:332-343 | The nonces handed back are those of the accounts plus the transfers they sent earlier in the commitment |
| `HonestProposer.PackedStandsAsTransfers` | ts/client/features/transfer.ts:363-404 | From the state root it was packed on, no proofs whatever make `disputeTransitionTransfer` succeed against a packed commitment |
| `HonestProposer.PackedStands` | contracts/rollup/Rollup.sol:366-453 | Over all entry points, by evidence with witnesses of the right length, at a path where the ledger before it is the one it was packed on: a packed commitment can be convicted if and only if its bytes read as create2transfers, or as some mass migration, do not revert and contradict its root; a number of transactions that is no multiple of 4 is enough |
| `HonestProposer.OneTransferDisputed` | contracts/rollup/Rollup.sol:425-453 | The input: a packed commitment of one transfer is disputed as create2transfers without a proof |
| `Decimal.EncodeDecimal` | contracts/libs/Tx.sol:175-189 | The contract's encoder, and the client's, compute one function |
| `Decimal.Compress` | ts/decimal.ts:96-113 | The same function as the contract's encoder |
| `Decimal.CodeRoundTrip` | ts/decimal.ts:96-119 | Exactly the numbers m*10^e with m up to 4095 and e up to 15 have a code; it fits 16 bits and decompresses to the number |
| `Decimal.Round` | ts/decimal.ts:86-94 | The loop is the rounding function of the specification |
| `Decimal.RoundingIsSafe` | ts/decimal.ts:86-94 | A rounded number has a code, is at most the input x, loses at most 10/4096 of x, and rounds to itself |
| `Decimal.RoundingSucceeds` | ts/decimal.ts:88-93 | Rounding fails exactly from 4096*10^14 on, below the greatest encodable number |
| `Decimal.RoundingIsGreatest` | ts/decimal.ts:86-94 | Rounding gives the greatest encodable number at or below its input exactly outside the gaps from 4096*10^k up to 4100*10^k, k up to 13 |
| `Decimal.RoundingIsNotGreatest` | ts/decimal.ts:83-94 | 4096 rounds to 4090 although 4095 has a code |
| `TxCodec.FieldRead` | contracts/libs/Tx.sol:200-214 | The masked low bytes of a 32-byte read that overlaps earlier fields are the field's own bytes |
| `TxCodec.DecimalRead` | contracts/libs/Tx.sol:208-214 | The same for the two bytes of an amount or fee |
| `TxCodec.Serialize` | contracts/libs/Tx.sol:94-173 | The loop over the output buffer packs the transactions one after the other, or reverts where an amount has no code |
| `TxCodec.DecodePacked` | contracts/libs/Tx.sol:191-221 | A transaction packed at position i is decoded from position i |
| `TxCodec.RoundTrip` | contracts/libs/Tx.sol:94-349 | For lists of any length, in all three formats, serialization succeeds on 4-byte indices and encodable amounts, leaves no excess data, and decodes to the same list |
| `TxCodec.CompressedIsPacked` | ts/client/features/transfer.ts:61-68 | The client encodes a transaction exactly when it is compressible, and to the contract's bytes |
| `TxCodec.EncodersAgree` | ts/client/features/transfer.ts:228-230 | Whatever list the client encodes, the contract's encoder gives the same bytes |
| `HashToField.Store` | ts/hashToField.ts:39-56 | Overwrites a stretch of a buffer and nothing else |
| `HashToField.CopyWords` | contracts/libs/BLS.sol:357-363 | Copying by whole words leaves the message in place, whatever lay beyond its end |
| `HashToField.FirstInput` | contracts/libs/BLS.sol:347-377 | The 36 trailing bytes overwrite the overrun: the buffer is exactly the standard's first input |
| `HashToField.NextBlock` | contracts/libs/BLS.sol:390-400 | The reused buffer holds exactly 66 fresh bytes when it is hashed again |
| `HashToField.ExpandMsgTo96` | contracts/libs/BLS.sol:342-439 | The unrolled expansion is expand_message_xmd of RFC 9380, section 5.3.1, at 96 bytes, for every message and every memory beyond it |
| `HashToField.ExpandMsg` | ts/hashToField.ts:25-98 | Fails exactly on a long domain or a length that is not a positive number of blocks; otherwise the blocks of the standard |
| `HashToField.Limbs` | contracts/libs/BLS.sol:327-337 | Two masked overlapping words, reduced limb by limb, are the 48-byte chunk modulo the field order |
| `HashToField.OrderOfBn254` | contracts/libs/BLS.sol:17 | The field order of contract and client is that of the curve BN254, 36u^4 + 36u^3 + 24u^2 + 6u + 1 at u = 4965661367192848881 |
| `HashToField.ContractHashToField` | contracts/libs/BLS.sol:316-340 | The two elements are hash_to_field of the standard, with L = 48 |
| `HashToField.ClientHashToField` | ts/hashToField.ts:8-23 | For any even number of elements the client reduces the chunks of its blocks; up to 170 of them that is hash_to_field of the standard |
| `HashToField.BothHashToField` | ts/hashToField.ts:8-23 | Contract and client agree on every message and every 32-byte domain |
| `BurnAuctions.BurnAuction.Create` | contracts/proposers/BurnAuction.sol:49-60 | Refuses a donation above the whole bid |
| `BurnAuctions.BurnAuction.constructor` | contracts/proposers/BurnAuction.sol:49-60 | Nothing deposited, no bids |
| `BurnAuctions.BurnAuction.UpdateBalance` | contracts/proposers/BurnAuction.sol:155-166 | Adds and takes away, reverting outside 256 bits; address 0 keeps no balance |
| `BurnAuctions.UpdatedIf` | contracts/proposers/BurnAuction.sol:155-166 | A balance update goes through exactly when the balance stays within a word, and changes that balance only |
| `BurnAuctions.BurnAuction.ReceiveDeposit` | contracts/proposers/BurnAuction.sol:62-64 | Refines the deposit step |
| `BurnAuctions.BurnAuction.ReceiveBid` | contracts/proposers/BurnAuction.sol:69-98 | Refines the bid step: refund, donation, payment, new best bid; what it does to each balance is `BurnAuctions.BidPays` |
| `BurnAuctions.BurnAuction.PayDonation` | contracts/proposers/BurnAuction.sol:109-117 | Refines the donation withdrawal |
| `BurnAuctions.BurnAuction.PayOut` | contracts/proposers/BurnAuction.sol:119-127 | Refines the withdrawal |
| `BurnAuctions.BurnAuction.GetProposer` | contracts/proposers/BurnAuction.sol:100-107 | The best bidder of the current slot, or a revert |
| `BurnAuctions.StepKeepsBalance` | contracts/proposers/BurnAuction.sol:62-127 | Every call keeps: ether is all deposits, plus every slot's best bid less its floored donation, plus what was sent to address 0 |
| `BurnAuctions.EveryRunIsBalanced` | contracts/proposers/BurnAuction.sol:62-166 | That equation holds after every call of every run in which the ether fits 128 bits |
| `BurnAuctions.BidNeverReverts` | contracts/proposers/BurnAuction.sol:69-98 | A bid is accepted if and only if it beats the best bid and is covered: the balance updates never revert, whatever was withdrawn before |
| `BurnAuctions.BidPays` | contracts/proposers/BurnAuction.sol:77-95 | What a bid does to every balance: the outbid coordinator gets its amount back, the donation address the increase of the shares, each the numerator's ten-thousandths rounded down, and the bidder pays out of balance and value |
| `BurnAuctions.EveryRunDonates` | contracts/proposers/BurnAuction.sol:62-127 | In every run in which the ether fits 128 bits, what the donation address was credited for bids is the sum over the slots of the rounded shares of their best bids |
| `BurnAuctions.WithdrawalsArePaid` | contracts/proposers/BurnAuction.sol:109-127 | A withdrawal succeeds exactly when the claimer holds the amount: the contract always has it |
| `BurnAuctions.StepRaises` | contracts/proposers/BurnAuction.sol:84-97 | A call changes at most the slot two ahead, to the bid cut to 128 bits; a bid that fits them is higher than the one before |
| `BurnAuctions.SlotIsFrozen` | contracts/proposers/BurnAuction.sol:134-145 | Once the current slot is past s - 2, the best bid of slot s never changes again while slot numbers fit 32 bits |
| `BurnAuctions.SlotOfBlock` | contracts/proposers/BurnAuction.sol:134-145 | Slot k is the k-th hundred of blocks after the genesis block, modulo 2^32, and bids go to the slot two later |
| `BurnAuctions.WinnerProposes` | contracts/proposers/BurnAuction.sol:69-145 | The best bid made by the end of slot k is the proposer's in every block of slot k + 2, whatever is called in between |
| `BurnAuctions.Widths` | contracts/proposers/BurnAuction.sol:16-31 | Best bids are kept in 128 bits, and addresses have 160 |

## Left out

- BLS pairing, curve checks, `mapToPoint` and `ModExp`: signature verification is a parameter on the signature, the keys and the packed messages.
- keccak256 and sha256 themselves, and the hard-coded zero-hash tables: the free hash type and `Merkle.Zero` stand for them.
- `processNoRaise`: the placeholder proofs it emits for a failing commitment; only the raising path is modelled.
- `processTransferCommit` of ts/client/stateTransitions.ts: the live client path is `pack` and `process`.
- `insertSingle` and `insertBatch` of MemoryTree: the same updates after hashing the data.
- LevelDB trees and leaves, RPC, node, event syncers, deployment, scripts and factories: input, output and plumbing.
- Vault, WithdrawManager, TokenRegistry, SpokeRegistry: ERC-20 calls and simple maps around logic covered here.
- Batch and transaction status storage, the transaction pool and its grouping by token: short invariants of maps.
- `depositFor`: the token transfer and the L1-to-L2 amount conversion; the state it hashes is the argument of `InsertAndMerge`.
- The chooser, owner and rollup-only guards, events and gas: gas only stops a rollback early, an exhausted loop is a revert.
- Reentrancy and the 2300-gas stipend of `transfer`: a payment lowers the contract's balance and cannot fail for other reasons.
- `getBatch`, `domainSeparator` and `isZero`: single reads of what is modelled.
- Completeness.MassMigrationAcceptedOnChain: states it for up to 32 transactions, because the contract's `merklize` reverts above 32 leaves.
- MemoryTrees.MemoryTree.UpdateBatch: indices from 2^31 on are outside, because JavaScript's shifts are signed there; the same bound is in every method that walks the tree.
- ClientTransfers.PackCommitment: a signature, the lookup of the public key and JavaScript's identity comparison of the two nonce objects are the `verified` parameter.
- StateTrees.StateTree.ProcessCommit: the object is left unspecified after a failure, since the source throws with its states and tree partly updated.
- WitnessLengths.ConvictionIsExact: takes witnesses of the right length, as do BodyReadings.TransferStands, BodyReadings.MigrationStands and HonestProposer.PackedStands; all other evidence is in MisreadTargets.
- MisreadTargets.ConvictedExactlyIf: speaks of batches whose state roots are roots of ledgers of one depth, or else no hashes of two words, and whose body roots are no hashes of two words; InclusionReadings.ConvictionIsShown speaks of every batch. It takes the hash of a state to be the hash of its 128 bytes, and longer bytes to be hashed to no state and no two words. Below a root that is too deep it speaks of proofs, and not of a ledger.
- WitnessLengths.LengthDecides: for too short witnesses the only-if is stated where nothing above the ledger passes for a leaf; a body root that is a state's hash, or for create2transfers the padding of the batch, could serve as a leaf there.
- WholeBatches.PairsDecide: takes previous witnesses of the right length, and state trees at least as deep as the batch's.
- DepositStarts.DepositContinues: names no ledger where the previous witness is too short and shows a root that is too deep.
- BatchFinality.EveryRunIsOrdered: assumes block plus delay below 2^32, as does BatchFinality.DisputableForTheDelay, because a batch record keeps 32 bits of it.
- Stakes.StepKeepsInv: assumes that stakes are withdrawn only for batches above 0 that no rollback under way will delete, which the contract does not check.
