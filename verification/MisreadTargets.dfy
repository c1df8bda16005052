/** The commitment under dispute can be misread too.  The body of no transactions is packed to 128 bytes, like a user
    state, so the parent of two leaves of a state tree passes as a commitment whose state root is the left leaf and
    whose body is the state on the right.  Together with `WitnessLengths` and `BodyReadings` this says, for all evidence
    whatever its lengths, when somebody can convict a commitment. */
module MisreadTargets {
  import opened Words
  import opened Merkle
  import opened MerkleTree
  import opened TxCodec
  import opened Transition
  import opened Ledger
  import opened TxMessages
  import opened FraudProofs
  import opened InclusionReadings
  import opened BodyReadings
  import B = Batches
  import R = Rollups
  import SE = StorageEngines
  import W = WitnessLengths

  // ------------------------------------------------------------------------------------------------ shapes of hashes

  /** `abi.encodePacked` of a user state. */
  function StateBytes(s: UserState): Bytes {
    Uint256(s.pubkeyID) + Uint256(s.tokenID) + Uint256(s.balance) + Uint256(s.nonce)
  }

  predicate StateSized(s: UserState) {
    s.pubkeyID < TWO_256 && s.tokenID < TWO_256 && s.balance < TWO_256 && s.nonce < TWO_256
  }

  /** Hashing is sound; states are hashed to leaves; longer bytes than those of a state are the preimage of nothing else
      here; and any 32 bytes are a word. */
  ghost predicate Shapes(keccak: Bytes -> Hash, word: Hash -> Bytes) {
    && Sound(keccak, word)
    && (forall s :: StateSized(s) ==> keccak(StateBytes(s)) == Leaf(s))
    && (forall b :: |b| > 128 ==> keccak(b).Word?)
    && forall w: Bytes | |w| == 32 :: exists h :: word(h) == w
  }

  /** The state with the bytes of a body without transactions. */
  function StateOf(word: Hash -> Bytes, b: R.Body): UserState
    requires b.TransferBody?
  {
    UserState(BigEndian(word(b.accountRoot)), b.signature.0, b.signature.1, b.feeReceiver)
  }

  lemma PackedLength(word: Hash -> Bytes, b: R.Body)
    requires forall h :: |word(h)| == 32
    ensures |PackedBody(word, b)| == if b.TransferBody? then 128 + |b.data| else 256 + |b.migration.txs|
  {
    hide ToBytes;
  }

  lemma EmptyBodyBytes(word: Hash -> Bytes, b: R.Body)
    requires b.TransferBody? && b.data == [] && b.Sized() && forall h :: |word(h)| == 32
    ensures StateSized(StateOf(word, b)) && StateBytes(StateOf(word, b)) == PackedBody(word, b)
  {
    hide ToBytes, BigEndian, Pow256;
    Pow256Is();
    WordField(word(b.accountRoot));
    assert PackedBody(word, b) + [] == PackedBody(word, b);
  }

  /** The hash of a body is that of a state exactly if it has no transactions, and never that of two words. */
  lemma BodyShape(keccak: Bytes -> Hash, word: Hash -> Bytes, b: R.Body)
    requires Shapes(keccak, word) && b.Sized()
    ensures var h := HashOf(keccak, word)(b);
            if b.TransferBody? && b.data == [] then h == Leaf(StateOf(word, b)) && StateSized(h.state) else h.Word?
  {
    hide StateBytes, StateOf, PackedBody;
    PackedLength(word, b);
    if b.TransferBody? && b.data == [] {
      EmptyBodyBytes(word, b);
    }
  }

  /** The body with the bytes of a state. */
  lemma BodyOfState(keccak: Bytes -> Hash, word: Hash -> Bytes, s: UserState) returns (b: R.Body)
    requires Shapes(keccak, word) && StateSized(s)
    ensures b == R.TransferBody(b.accountRoot, (s.tokenID, s.balance), s.nonce, []) && b.Sized()
    ensures HashOf(keccak, word)(b) == Leaf(s)
  {
    hide ToBytes, BigEndian, PackedBody, Pow256;
    var root :| word(root) == Uint256(s.pubkeyID);
    b := R.TransferBody(root, (s.tokenID, s.balance), s.nonce, []);
    BodyShape(keccak, word, b);
    Pow256Is();
    BigEndianOfBytes(s.pubkeyID, 32);
  }

  // ------------------------------------------------------------------------------------------------ what is misread

  /** The place of the commitment inside which a path names two neighbours. */
  function PairPlace(c: Posted, depth: nat, path: nat): nat {
    Place(c, Shr(path, depth))
  }

  /** The state that a witness as long as batch and state tree together are deep shows as a body: the right one of the
      two neighbours, if it is there and the path goes to the left at the commitment. */
  function MisreadState(c: Posted, depth: nat, path: nat): Option<UserState> {
    var at := PairPlace(c, depth, path);
    if depth == 0 || Shr(path, depth - 1) % 2 == 1 || at >= Places(c) || at !in c.ledgers then None else
      var s, q := c.ledgers[at], 2 * Low(path, depth - 1) + 1;
      if q in s then Some(s[q]) else None
  }

  /** Of two words shown with another length than the right one, the second is no hash of a body with transactions, and
      of one without only if it is the state above. */
  lemma MisreadBody(c: Posted, depth: nat, path: nat, length: nat, x: Shown, state: UserState)
    requires OnLedgers(c, depth) && length != BatchDepth(c) && ShownAt(c, depth, path, length) == Some(x)
    ensures !x.bodyRoot.Word?
    ensures x.bodyRoot == Leaf(state) <==>
              length == BatchDepth(c) + depth && MisreadState(c, depth, path) == Some(state)
  {
    hide MinTreeDepth, Low, Shr, Place, StateRoot;
    var d := BatchDepth(c);
    if length < d {
      var h, i := d - length - 1, 2 * Low(path, length) + 1;
      if h == 0 {
        CommitmentAt(c, i);
      }
    }
  }

  lemma TargetLengthIsForced(c: Posted, depth: nat, i: R.Inclusion)
    requires OnLedgers(c, depth) && R.Included(BatchRoot(c), i) && i.bodyRoot.Word?
    ensures |i.siblings| == BatchDepth(c)
  {
    hide R.Included, ShownAt, ShownBy, BatchRoot, BatchDepth;
    if |i.siblings| != BatchDepth(c) {
      var x := Shown(i.stateRoot, i.bodyRoot);
      assert i == R.Inclusion(x.stateRoot, x.bodyRoot, i.path, i.siblings);
      InclusionIsExact(BatchRoot(c), x, i.path, |i.siblings|);
      ShownIs(c, depth, i.path, |i.siblings|);
      MisreadBody(c, depth, i.path, |i.siblings|, x, ZERO_STATE);
    }
  }

  /** The left neighbour, shown as the state root. */
  function MisreadRoot(c: Posted, depth: nat, path: nat): Hash
    requires MisreadState(c, depth, path).Some?
  {
    At(StateLeaves(c.ledgers[PairPlace(c, depth, path)]), 2 * Low(path, depth - 1))
  }

  lemma MisreadIsShown(c: Posted, depth: nat, path: nat)
    requires c.Paired() && MisreadState(c, depth, path).Some?
    ensures depth > 0 && !MisreadRoot(c, depth, path).Pair?
    ensures ShownAt(c, depth, path, BatchDepth(c) + depth)
         == Some(Shown(MisreadRoot(c, depth, path), Leaf(MisreadState(c, depth, path).value)))
  {
    hide MinTreeDepth, Low, Shr, Place;
  }

  /** Any two neighbours of any commitment have a path: the `q`-th two below the place that `j` names. */
  lemma PairHasPath(c: Posted, depth: nat, j: nat, q: nat)
    requires depth > 0 && Place(c, j) < Places(c) && Place(c, j) in c.ledgers && q < Pow2(depth - 1)
    ensures Low(SE.Position(j, depth, q), depth) == q
    ensures var s := c.ledgers[Place(c, j)];
            MisreadState(c, depth, SE.Position(j, depth, q)) == if 2 * q + 1 in s then Some(s[2 * q + 1]) else None
  {
    hide SE.Position, Low, MinTreeDepth;
    Pow2Grows(depth - 1, depth);
    SE.PositionIsBelow(j, depth, q);
    LowOfLow(SE.Position(j, depth, q), depth - 1, depth);
    ShrOfLow(SE.Position(j, depth, q), depth, depth - 1);
    ShrZero(q, depth - 1);
  }

  /** A place of a batch is its own path. */
  lemma PlaceFits(c: Posted, i: nat)
    requires i < Places(c)
    ensures Place(c, i) == i
  {
    CeilLog2IsLeast(Places(c));
    ShrZero(i, BatchDepth(c));
  }

  // ------------------------------------------------------------------------------------------------ no transactions

  /** Down this path there is an account, so many levels below, whose balance fits a word. */
  predicate AccountIn(root: Hash, index: nat, n: nat) {
    match Inner(root, index, n)
    case Some(Leaf(x)) => x.balance < TWO_256
    case _ => false
  }

  /** An account at this index below the root can be credited with nothing, and the root is not the one claimed. */
  ghost predicate CreditsNothing(root: Hash, claimed: Hash, index: nat) {
    root != claimed && exists n: nat :: AccountIn(root, index, n)
  }

  lemma ExecutesNothing(kind: Kind, root: Hash, claimed: Hash, maxTxSize: nat, body: R.Body, proofs: seq<StateProof>)
    requires body.TransferBody? && body.data == [] && body.Fits(kind)
    requires R.Fraud(kind, root, claimed, maxTxSize, body, proofs)
    ensures CreditsNothing(root, claimed, body.feeReceiver)
  {
    assert DecodeAll(kind, []) == [];
    var p := proofs[0];
    assert p.state == UserState(p.state.pubkeyID, p.state.tokenID, p.state.balance + 0, p.state.nonce);
    ClimbIsInner(Leaf(p.state), body.feeReceiver, p.siblings);
    assert AccountIn(root, body.feeReceiver, |p.siblings|);
  }

  lemma NothingExecutes(kind: Kind, root: Hash, claimed: Hash, maxTxSize: nat, body: R.Body)
    returns (proofs: seq<StateProof>)
    requires body.TransferBody? && body.data == [] && body.Fits(kind)
    requires CreditsNothing(root, claimed, body.feeReceiver)
    ensures R.Fraud(kind, root, claimed, maxTxSize, body, proofs)
  {
    assert DecodeAll(kind, []) == [];
    var n: nat :| AccountIn(root, body.feeReceiver, n);
    var x := Inner(root, body.feeReceiver, n).value.state;
    var w := InnerClimbs(root, body.feeReceiver, n);
    assert x == UserState(x.pubkeyID, x.tokenID, x.balance + 0, x.nonce);
    proofs := [StateProof(x, w)];
  }

  /** A state read as a body is fraudulent from a root exactly if its nonce, as an index, names an account there. */
  lemma StateAsBody(kind: Kind, root: Hash, claimed: Hash, state: UserState, maxTxSize: nat, keccak: Bytes -> Hash,
                    word: Hash -> Bytes)
    requires Shapes(keccak, word)
    ensures FraudFrom(kind, root, Shown(claimed, Leaf(state)), maxTxSize, HashOf(keccak, word)) <==>
              !kind.MassMigrations? && StateSized(state) && CreditsNothing(root, claimed, state.nonce)
  {
    hide R.Fraud, HashOf, Shapes, CreditsNothing;
    var x, h := Shown(claimed, Leaf(state)), HashOf(keccak, word);
    if body, proofs :| IsFraud(kind, root, x, maxTxSize, h, body, proofs) {
      BodyShape(keccak, word, body);
      ExecutesNothing(kind, root, claimed, maxTxSize, body, proofs);
    }
    if !kind.MassMigrations? && StateSized(state) && CreditsNothing(root, claimed, state.nonce) {
      var body := BodyOfState(keccak, word, state);
      var proofs := NothingExecutes(kind, root, claimed, maxTxSize, body);
      assert IsFraud(kind, root, x, maxTxSize, h, body, proofs);
    }
  }

  /** The ledger has an account where the low bits of the index say, whose balance fits a word. */
  predicate HasAccount(s: Ledger, depth: nat, index: nat) {
    Low(index, depth) in s && s[Low(index, depth)].balance < TWO_256
  }

  lemma CreditedOnLedger(s: Ledger, depth: nat, claimed: Hash, index: nat)
    ensures CreditsNothing(StateRoot(s, depth), claimed, index) <==>
              StateRoot(s, depth) != claimed && HasAccount(s, depth, index)
  {
    hide Climb, Witness, Atomic, Inner;
    var root, q := StateRoot(s, depth), Low(index, depth);
    if n: nat :| AccountIn(root, index, n) {
      var w := InnerClimbs(root, index, n);
      LeavesAfterPut(s, 0, ZERO_STATE);
      LeafProof(Inner(root, index, n).value, index, w, StateLeaves(s), depth, Empty);
    }
    if HasAccount(s, depth, index) {
      ProofClimbs(s, depth, index, ZERO_STATE);
      ClimbIsInner(Leaf(s[q]), index, ProofOf(s, depth, q).siblings);
      assert AccountIn(root, index, |ProofOf(s, depth, q).siblings|);
    }
  }

  lemma PairIsNoLeaf(s: Ledger, depth: nat, claimed: Hash)
    requires depth > 0 && !claimed.Pair?
    ensures StateRoot(s, depth) != claimed
  {
  }

  // ------------------------------------------------------------------------------------------------ misread targets

  /** Evidence whose previous witness has the right length, and the witness of the disputed commitment this one. */
  ghost predicate ConvictedAs(s: B.State, id: nat, path: nat, kind: Kind, maxTxSize: nat, hashBody: R.Body -> Hash,
                              own: nat)
  {
    exists e :: ConvictsWith(s, id, path, kind, maxTxSize, hashBody, MinTreeDepth(B.BatchAt(s, Home(id, path)).size),
                             own, e)
  }

  /** A state is misread at the path, and its nonce names an account of the ledger that the previous path names. */
  predicate Exposed(before: Posted, here: Posted, depth: nat, path: nat)
    requires path == 0 ==> Places(before) > 0
  {
    var s0, misread := W.LedgerBefore(before, here, path), MisreadState(here, depth, path);
    && s0.Some? && misread.Some? && StateSized(misread.value)
    && HasAccount(s0.value, depth, misread.value.nonce)
  }

  /** With another witness for the disputed commitment than one of the right length, whatever was committed and at
      whatever path, somebody can convict it exactly if the witness is as long as batch and state tree are deep, there
      is a state to be misread, and the ledger it starts from has an account where the low bits of that state's nonce
      say. */
  lemma MisreadTargetIsExact(s: B.State, id: nat, before: Posted, here: Posted, depth: nat, path: nat, kind: Kind,
                             maxTxSize: nat, keccak: Bytes -> Hash, word: Hash -> Bytes, own: nat)
    requires PostsBoth(s, id, before, here, depth, path) && W.AllKnown(HomeOf(before, here, path))
    requires Shapes(keccak, word) && own != BatchDepth(here)
    ensures ConvictedAs(s, id, path, kind, maxTxSize, HashOf(keccak, word), own) <==>
              own == BatchDepth(here) + depth && !kind.MassMigrations? && Exposed(before, here, depth, path)
  {
    hide ConvictsWith, ShownAt, ShownBy, FraudFrom, MinTreeDepth, Shapes, HashOf, StateSized, CreditsNothing,
      MisreadState, Filed, StateRoot, PreviousShown, Place, HasAccount;
    var home, h := HomeOf(before, here, path), HashOf(keccak, word);
    var p, d := PathBefore(home, path), BatchDepth(home);
    RootIsFiled(s, Home(id, path), home, depth);
    RootIsFiled(s, id, here, depth);
    ConvictionIsShown(s, id, path, kind, maxTxSize, h, d, own);
    PreviousIs(s, id, before, here, depth, path, d);
    ShownIs(here, depth, path, own);
    var x, s0 := ShownAt(here, depth, path, own), W.LedgerBefore(before, here, path);
    StartsThere(home, depth, p);
    if s0.Some? {
      var root := StateRoot(s0.value, depth);
      if x.Some? && FraudFrom(kind, root, x.value, maxTxSize, h) {
        FraudIsMisread(here, depth, path, own, x.value, kind, root, maxTxSize, keccak, word);
      }
      if own == BatchDepth(here) + depth && MisreadState(here, depth, path).Some? {
        var state := MisreadState(here, depth, path).value;
        MisreadIsShown(here, depth, path);
        StateAsBody(kind, root, MisreadRoot(here, depth, path), state, maxTxSize, keccak, word);
        CreditedOnLedger(s0.value, depth, MisreadRoot(here, depth, path), state.nonce);
        PairIsNoLeaf(s0.value, depth, MisreadRoot(here, depth, path));
      }
    }
  }

  /** With the right length, the previous state is that of the place. */
  lemma StartsThere(c: Posted, depth: nat, path: nat)
    requires OnLedgers(c, depth) && W.AllKnown(c)
    ensures var p, shown := Place(c, path), ShownAt(c, depth, path, BatchDepth(c));
            && shown.Some? == (p < Places(c) && p in c.ledgers)
            && (shown.Some? ==> shown.value.stateRoot == StateRoot(c.ledgers[p], depth))
  {
    hide StateRoot, MinTreeDepth, Low;
  }

  /** A misread target is fraudulent only as a state. */
  lemma FraudIsMisread(c: Posted, depth: nat, path: nat, length: nat, x: Shown, kind: Kind, root: Hash, maxTxSize: nat,
                       keccak: Bytes -> Hash, word: Hash -> Bytes)
    requires OnLedgers(c, depth) && length != BatchDepth(c) && Shapes(keccak, word)
    requires ShownAt(c, depth, path, length) == Some(x) && FraudFrom(kind, root, x, maxTxSize, HashOf(keccak, word))
    ensures length == BatchDepth(c) + depth && MisreadState(c, depth, path).Some?
  {
    hide R.Fraud, HashOf, Shapes, ShownAt, MinTreeDepth, MisreadState, StateOf;
    var body, proofs :| IsFraud(kind, root, x, maxTxSize, HashOf(keccak, word), body, proofs);
    BodyShape(keccak, word, body);
    MisreadBody(c, depth, path, length, x, if x.bodyRoot.Leaf? then x.bodyRoot.state else ZERO_STATE);
  }

  /** The input: any two neighbours of any commitment's ledger, the right one with a nonce that names an account of the
      ledger at the place before their path.  The batch is rolled back, whatever was committed, as everything that is
      not a mass migration: by the two accounts shown as a commitment. */
  lemma PairMisread(s: B.State, id: nat, before: Posted, here: Posted, depth: nat, i: nat, q: nat, kind: Kind,
                    maxTxSize: nat, keccak: Bytes -> Hash, word: Hash -> Bytes)
    requires var path := SE.Position(i, depth, q);
             && PostsBoth(s, id, before, here, depth, path) && W.AllKnown(HomeOf(before, here, path))
             && depth > 0 && i < Places(here) && i in here.ledgers && q < Pow2(depth - 1)
             && 2 * q + 1 in here.ledgers[i] && StateSized(here.ledgers[i][2 * q + 1])
             && W.LedgerBefore(before, here, path).Some?
             && HasAccount(W.LedgerBefore(before, here, path).value, depth, here.ledgers[i][2 * q + 1].nonce)
    requires Shapes(keccak, word) && !kind.MassMigrations?
    ensures ConvictedAs(s, id, SE.Position(i, depth, q), kind, maxTxSize, HashOf(keccak, word),
                        BatchDepth(here) + depth)
  {
    hide ConvictedAs, Shapes, HashOf, MinTreeDepth, StateSized, MisreadState, Filed, StateRoot, SE.Position, HasAccount,
      W.LedgerBefore, W.AllKnown;
    PlaceFits(here, i);
    PairHasPath(here, depth, i, q);
    MisreadTargetIsExact(s, id, before, here, depth, SE.Position(i, depth, q), kind, maxTxSize, keccak, word,
                         BatchDepth(here) + depth);
  }

  // ------------------------------------------------------------------------------------------------ all evidence

  /** Somebody can convict the commitment through some entry point, with witnesses of whatever length. */
  ghost predicate ConvictedSomehow(s: B.State, id: nat, path: nat, maxTxSize: nat, hashBody: R.Body -> Hash) {
    exists kind, e :: Convicts(s, id, path, kind, maxTxSize, hashBody, e)
  }

  /** Some body of the commitment is wrong from what a previous witness of this length shows: where that is a ledger, or
      part of one, this is for the ledger to say. */
  ghost predicate WrongFrom(c: Posted, depth: nat, path: nat, length: nat, kind: Kind, x: Shown, maxTxSize: nat,
                            hashBody: R.Body -> Hash)
    requires c.Paired()
  {
    var start, shown := W.StartAt(c, depth, path, length), ShownAt(c, depth, path, length);
    if start.Some? && start.value.above == [] then
      WrongReading(kind, start.value.ledger, start.value.depth, maxTxSize, hashBody, x.bodyRoot, x.stateRoot)
    else shown.Some? && FraudFrom(kind, shown.value.stateRoot, x, maxTxSize, hashBody)
  }

  /** The nonce names an account below what a previous witness of this length shows, and what is shown is not
      claimed. */
  ghost predicate CreditsFrom(c: Posted, depth: nat, path: nat, length: nat, claimed: Hash, index: nat)
    requires c.Paired()
  {
    var start, shown := W.StartAt(c, depth, path, length), ShownAt(c, depth, path, length);
    if start.Some? && start.value.above == [] then
      StateRoot(start.value.ledger, start.value.depth) != claimed
      && HasAccount(start.value.ledger, start.value.depth, index)
    else shown.Some? && CreditsNothing(shown.value.stateRoot, claimed, index)
  }

  lemma WrongFromIs(c: Posted, depth: nat, path: nat, length: nat, kind: Kind, x: Shown, maxTxSize: nat,
                    hashBody: R.Body -> Hash)
    requires OnLedgers(c, depth)
    ensures var shown := ShownAt(c, depth, path, length);
            WrongFrom(c, depth, path, length, kind, x, maxTxSize, hashBody) <==>
              shown.Some? && FraudFrom(kind, shown.value.stateRoot, x, maxTxSize, hashBody)
  {
    hide WrongReading, FraudFrom, W.StartAt, ShownAt, StateRoot;
    W.StartIsShown(c, depth, path, length);
    var start := W.StartAt(c, depth, path, length);
    if start.Some? && start.value.above == [] {
      W.NoWordsAbove(StateRoot(start.value.ledger, start.value.depth));
      W.FraudFromLedger(kind, start.value.ledger, start.value.depth, x, maxTxSize, hashBody);
    }
  }

  lemma CreditsFromIs(c: Posted, depth: nat, path: nat, length: nat, claimed: Hash, index: nat)
    requires OnLedgers(c, depth)
    ensures var shown := ShownAt(c, depth, path, length);
            CreditsFrom(c, depth, path, length, claimed, index) <==>
              shown.Some? && CreditsNothing(shown.value.stateRoot, claimed, index)
  {
    hide CreditsNothing, HasAccount, W.StartAt, ShownAt, StateRoot;
    W.StartIsShown(c, depth, path, length);
    var start := W.StartAt(c, depth, path, length);
    if start.Some? && start.value.above == [] {
      W.NoWordsAbove(StateRoot(start.value.ledger, start.value.depth));
      CreditedOnLedger(start.value.ledger, start.value.depth, claimed, index);
    }
  }

  /** The commitment that the path names is wrong from what some previous witness shows; with the right length that is
      the commitment at the place before, with another one it is misread. */
  ghost predicate WrongSomewhere(home: Posted, depth: nat, p: nat, x: Option<Shown>, maxTxSize: nat,
                                 hashBody: R.Body -> Hash)
    requires home.Paired()
  {
    x.Some? && exists kind, length: nat :: WrongFrom(home, depth, p, length, kind, x.value, maxTxSize, hashBody)
  }

  /** It is wrong from what a previous witness of another length than the right one shows. */
  ghost predicate MisreadPrevious(home: Posted, depth: nat, p: nat, x: Option<Shown>, maxTxSize: nat,
                                  hashBody: R.Body -> Hash)
    requires home.Paired()
  {
    && x.Some?
    && exists kind, length: nat ::
         length != BatchDepth(home) && WrongFrom(home, depth, p, length, kind, x.value, maxTxSize, hashBody)
  }

  /** Two neighbours are misread as the disputed commitment. */
  ghost predicate MisreadTarget(home: Posted, depth: nat, p: nat, here: Posted, path: nat)
    requires home.Paired()
  {
    var misread := MisreadState(here, depth, path);
    && misread.Some? && StateSized(misread.value)
    && exists length: nat :: CreditsFrom(home, depth, p, length, MisreadRoot(here, depth, path), misread.value.nonce)
  }

  /** All that can convict at a path: the commitment that it names is wrong from some state that can be shown, or two
      accounts that it names are misread as a commitment. */
  ghost predicate Vulnerable(home: Posted, depth: nat, p: nat, here: Posted, path: nat, maxTxSize: nat,
                             hashBody: R.Body -> Hash)
    requires home.Paired() && here.Paired()
  {
    || WrongSomewhere(home, depth, p, W.Named(here, path), maxTxSize, hashBody)
    || MisreadTarget(home, depth, p, here, path)
  }

  lemma EvidenceIsOne(s: B.State, id: nat, before: Posted, here: Posted, depth: nat, path: nat, maxTxSize: nat,
                      keccak: Bytes -> Hash, word: Hash -> Bytes, kind: Kind, e: Evidence)
    requires PostsBoth(s, id, before, here, depth, path) && Shapes(keccak, word)
    requires Convicts(s, id, path, kind, maxTxSize, HashOf(keccak, word), e)
    ensures var home := HomeOf(before, here, path);
            Vulnerable(home, depth, PathBefore(home, path), here, path, maxTxSize, HashOf(keccak, word))
  {
    hide Convicts, ShownAt, ShownBy, FraudFrom, WrongFrom, CreditsFrom, MinTreeDepth, Shapes, HashOf, StateSized,
      CreditsNothing, MisreadState, Filed, StateRoot, PreviousShown;
    var home, h := HomeOf(before, here, path), HashOf(keccak, word);
    var p, length, own := PathBefore(home, path), |e.previous.siblings|, |e.siblings|;
    assert ConvictsWith(s, id, path, kind, maxTxSize, h, length, own, e);
    ConvictionIsShown(s, id, path, kind, maxTxSize, h, length, own);
    PreviousIs(s, id, before, here, depth, path, length);
    RootIsFiled(s, id, here, depth);
    ShownIs(here, depth, path, own);
    var root, x := ShownAt(home, depth, p, length).value.stateRoot, ShownAt(here, depth, path, own).value;
    NamedIsShown(here, depth, path);
    if own == BatchDepth(here) {
      WrongFromIs(home, depth, p, length, kind, x, maxTxSize, h);
      assert WrongFrom(home, depth, p, length, kind, x, maxTxSize, h);
    } else {
      FraudIsMisread(here, depth, path, own, x, kind, root, maxTxSize, keccak, word);
      MisreadIsShown(here, depth, path);
      var nonce := MisreadState(here, depth, path).value.nonce;
      StateAsBody(kind, root, x.stateRoot, MisreadState(here, depth, path).value, maxTxSize, keccak, word);
      CreditsFromIs(home, depth, p, length, x.stateRoot, nonce);
      assert CreditsFrom(home, depth, p, length, MisreadRoot(here, depth, path), nonce);
    }
  }

  lemma NamedIsShown(c: Posted, depth: nat, path: nat)
    requires c.Paired()
    ensures W.Named(c, path) == ShownAt(c, depth, path, BatchDepth(c))
  {
  }

  lemma VulnerableIsConvicted(s: B.State, id: nat, before: Posted, here: Posted, depth: nat, path: nat, maxTxSize: nat,
                              keccak: Bytes -> Hash, word: Hash -> Bytes)
    requires PostsBoth(s, id, before, here, depth, path) && Shapes(keccak, word)
    requires var home := HomeOf(before, here, path);
             Vulnerable(home, depth, PathBefore(home, path), here, path, maxTxSize, HashOf(keccak, word))
    ensures ConvictedSomehow(s, id, path, maxTxSize, HashOf(keccak, word))
  {
    hide ConvictsWith, ShownAt, ShownBy, FraudFrom, WrongFrom, CreditsFrom, MinTreeDepth, Shapes, HashOf, StateSized,
      CreditsNothing, MisreadState, Filed, StateRoot, PreviousShown, W.Named;
    var home, h := HomeOf(before, here, path), HashOf(keccak, word);
    var p := PathBefore(home, path);
    var kind, length, own;
    NamedIsShown(here, depth, path);
    if WrongSomewhere(home, depth, p, W.Named(here, path), maxTxSize, h) {
      var x := W.Named(here, path).value;
      var k, l: nat :| WrongFrom(home, depth, p, l, k, x, maxTxSize, h);
      kind, length, own := k, l, BatchDepth(here);
      WrongFromIs(home, depth, p, l, k, x, maxTxSize, h);
    } else {
      var misread, claimed := MisreadState(here, depth, path).value, MisreadRoot(here, depth, path);
      var l: nat :| CreditsFrom(home, depth, p, l, claimed, misread.nonce);
      kind, length, own := Transfers, l, BatchDepth(here) + depth;
      CreditsFromIs(home, depth, p, l, claimed, misread.nonce);
      MisreadIsShown(here, depth, path);
      StateAsBody(kind, ShownAt(home, depth, p, l).value.stateRoot, claimed, misread, maxTxSize, keccak, word);
    }
    PreviousIs(s, id, before, here, depth, path, length);
    RootIsFiled(s, id, here, depth);
    ShownIs(here, depth, path, own);
    ConvictionIsShown(s, id, path, kind, maxTxSize, h, length, own);
    var e :| ConvictsWith(s, id, path, kind, maxTxSize, h, length, own, e);
    WithIsConviction(s, id, path, kind, maxTxSize, h, length, own, e);
  }

  lemma WithIsConviction(s: B.State, id: nat, path: nat, kind: Kind, maxTxSize: nat, hashBody: R.Body -> Hash,
                         length: nat, own: nat, e: Evidence)
    requires ConvictsWith(s, id, path, kind, maxTxSize, hashBody, length, own, e)
    ensures ConvictedSomehow(s, id, path, maxTxSize, hashBody)
  {
    hide Convicts;
  }

  /** Whatever evidence there may be, at whatever path: somebody can convict there if and only if one of these holds. */
  lemma ConvictedExactlyIf(s: B.State, id: nat, before: Posted, here: Posted, depth: nat, path: nat, maxTxSize: nat,
                           keccak: Bytes -> Hash, word: Hash -> Bytes)
    requires PostsBoth(s, id, before, here, depth, path) && Shapes(keccak, word)
    ensures var home := HomeOf(before, here, path);
            ConvictedSomehow(s, id, path, maxTxSize, HashOf(keccak, word)) <==>
              Vulnerable(home, depth, PathBefore(home, path), here, path, maxTxSize, HashOf(keccak, word))
  {
    hide Convicts, Vulnerable, Filed, HashOf, Shapes, StateRoot;
    var home := HomeOf(before, here, path);
    if kind, e :| Convicts(s, id, path, kind, maxTxSize, HashOf(keccak, word), e) {
      EvidenceIsOne(s, id, before, here, depth, path, maxTxSize, keccak, word, kind, e);
    }
    if Vulnerable(home, depth, PathBefore(home, path), here, path, maxTxSize, HashOf(keccak, word)) {
      VulnerableIsConvicted(s, id, before, here, depth, path, maxTxSize, keccak, word);
    }
  }

  // ------------------------------------------------------------------------------------------------ spelt out

  /** A transfer body falls from a ledger in one of its readings. */
  ghost predicate TransferFalls(s: Ledger, depth: nat, maxTxSize: nat, hashBody: R.Body -> Hash, b: R.Body,
                                claimed: Hash)
    requires b.TransferBody?
  {
    || Contradicts(Transfers, s, depth, maxTxSize, b, claimed)
    || Contradicts(Create2Transfers, s, depth, maxTxSize, b, claimed)
    || WrongReading(MassMigrations, s, depth, maxTxSize, hashBody, hashBody(b), claimed)
  }

  /** A mass-migration body does, as itself or as its twin. */
  ghost predicate MigrationFalls(s: Ledger, depth: nat, maxTxSize: nat, word: Hash -> Bytes, b: R.Body, claimed: Hash)
    requires b.MigrationBody?
  {
    || Contradicts(MassMigrations, s, depth, maxTxSize, b, claimed)
    || Contradicts(Transfers, s, depth, maxTxSize, Twin(word, b), claimed)
    || Contradicts(Create2Transfers, s, depth, maxTxSize, Twin(word, b), claimed)
  }

  /** The body falls from what a previous witness of this length shows. */
  ghost predicate FallsAt(c: Posted, depth: nat, path: nat, length: nat, x: Shown, maxTxSize: nat,
                          keccak: Bytes -> Hash, word: Hash -> Bytes, b: R.Body)
    requires c.Paired()
  {
    var start, shown := W.StartAt(c, depth, path, length), ShownAt(c, depth, path, length);
    if start.Some? && start.value.above == [] then
      if b.TransferBody? then
        TransferFalls(start.value.ledger, start.value.depth, maxTxSize, HashOf(keccak, word), b, x.stateRoot)
      else MigrationFalls(start.value.ledger, start.value.depth, maxTxSize, word, b, x.stateRoot)
    else shown.Some? && exists kind :: FraudFrom(kind, shown.value.stateRoot, x, maxTxSize, HashOf(keccak, word))
  }

  lemma FallsAtIs(c: Posted, depth: nat, path: nat, length: nat, x: Shown, maxTxSize: nat, keccak: Bytes -> Hash,
                  word: Hash -> Bytes, b: R.Body)
    requires c.Paired() && Sound(keccak, word) && b.Sized() && HashOf(keccak, word)(b) == x.bodyRoot
    requires b.MigrationBody? ==> Bound(word, b.migration.withdrawRoot)
    ensures FallsAt(c, depth, path, length, x, maxTxSize, keccak, word, b) <==>
              exists kind :: WrongFrom(c, depth, path, length, kind, x, maxTxSize, HashOf(keccak, word))
  {
    hide WrongReading, FraudFrom, W.StartAt, ShownAt, Contradicts, HashOf, Sound, Bound, Twin;
    var start, h := W.StartAt(c, depth, path, length), HashOf(keccak, word);
    if start.Some? && start.value.above == [] {
      if b.TransferBody? {
        TransferReadings(start.value.ledger, start.value.depth, maxTxSize, keccak, word, b, x.stateRoot);
      } else {
        MigrationReadings(start.value.ledger, start.value.depth, maxTxSize, keccak, word, b, x.stateRoot);
      }
      forall kind: Kind
        ensures WrongFrom(c, depth, path, length, kind, x, maxTxSize, h) <==>
                  WrongReading(kind, start.value.ledger, start.value.depth, maxTxSize, h, x.bodyRoot, x.stateRoot)
      {
      }
    } else {
      var shown := ShownAt(c, depth, path, length);
      forall kind: Kind
        ensures WrongFrom(c, depth, path, length, kind, x, maxTxSize, h) <==>
                  shown.Some? && FraudFrom(kind, shown.value.stateRoot, x, maxTxSize, h)
      {
      }
    }
  }

  /** The commitment with a known body stands at a path, against all evidence, if and only if it falls from nothing that
      can be shown before it, and nothing is misread as it. */
  lemma BodyConvictedIf(s: B.State, id: nat, before: Posted, here: Posted, depth: nat, path: nat, maxTxSize: nat,
                        keccak: Bytes -> Hash, word: Hash -> Bytes, b: R.Body)
    requires PostsBoth(s, id, before, here, depth, path) && Shapes(keccak, word) && b.Sized()
    requires W.Named(here, path).Some? && HashOf(keccak, word)(b) == W.Named(here, path).value.bodyRoot
    requires b.MigrationBody? ==> Bound(word, b.migration.withdrawRoot)
    ensures var home := HomeOf(before, here, path);
            var p, x := PathBefore(home, path), W.Named(here, path).value;
            ConvictedSomehow(s, id, path, maxTxSize, HashOf(keccak, word)) <==>
              || (exists length: nat :: FallsAt(home, depth, p, length, x, maxTxSize, keccak, word, b))
              || MisreadTarget(home, depth, p, here, path)
  {
    hide FallsAt, WrongFrom, ConvictedSomehow, MisreadTarget, Filed, HashOf, StateRoot, W.Named, Bound, Sound;
    var home, h := HomeOf(before, here, path), HashOf(keccak, word);
    var p, x := PathBefore(home, path), W.Named(here, path).value;
    ConvictedExactlyIf(s, id, before, here, depth, path, maxTxSize, keccak, word);
    if length: nat :| FallsAt(home, depth, p, length, x, maxTxSize, keccak, word, b) {
      FallsAtIs(home, depth, p, length, x, maxTxSize, keccak, word, b);
    }
    if kind, length: nat :| WrongFrom(home, depth, p, length, kind, x, maxTxSize, h) {
      FallsAtIs(home, depth, p, length, x, maxTxSize, keccak, word, b);
      assert FallsAt(home, depth, p, length, x, maxTxSize, keccak, word, b);
    }
  }
}
