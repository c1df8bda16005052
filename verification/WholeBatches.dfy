/** Disputes over all paths at once.  The contract asks for the previous commitment at the path less one, and reads the
    low bits of both numbers: in a batch whose tree is full, the path after the last one names the first commitment
    again, and its predecessor is the last commitment of its own batch. */
module WholeBatches {
  import opened Words
  import opened Merkle
  import opened MerkleTree
  import opened TxCodec
  import opened Ledger
  import opened FraudProofs
  import opened InclusionReadings
  import opened BodyReadings
  import opened MisreadTargets
  import A = Authenticity
  import B = Batches
  import DT = DeeperTrees
  import R = Rollups
  import SD = SignatureDisputes
  import SE = StorageEngines
  import W = WitnessLengths

  // ------------------------------------------------------------------------------------------------ places and paths

  /** If a path and the path before it both name commitments, these are neighbours, or the first and the last of a batch
      whose tree is full. */
  lemma PlacesBefore(c: Posted, path: nat)
    requires 0 < Places(c) && path > 0 && Place(c, path) < Places(c) && Place(c, path - 1) < Places(c)
    ensures Place(c, path) > 0 ==> Place(c, path - 1) == Place(c, path) - 1
    ensures Place(c, path) == 0 ==> Places(c) == Pow2(BatchDepth(c)) && Place(c, path - 1) == Places(c) - 1
  {
    hide Low, Pow2, MinTreeDepth;
    StepBack(path, BatchDepth(c));
    RoomFor(Places(c));
  }

  lemma StepBack(path: nat, d: nat)
    requires path > 0
    ensures Low(path - 1, d) == if Low(path, d) > 0 then Low(path, d) - 1 else Pow2(d) - 1
  {
    hide Low, Pow2, Shr;
    var p, t, q := Pow2(d), Shr(path, d), Low(path, d);
    LowSplit(path, d);
    LowBound(path, d);
    LowIsModulo(path - 1, d);
    if q > 0 {
      DivUnique(path - 1, p, t, q - 1);
    } else {
      assert t > 0;
      assert p * t == p * (t - 1) + p;
      DivUnique(path - 1, p, t - 1, p - 1);
    }
  }

  lemma RoomFor(n: nat)
    requires n > 0
    ensures n <= Pow2(MinTreeDepth(n))
  {
    CeilLog2IsLeast(n);
  }

  /** A full tree has a path for its first commitment behind the last one. */
  lemma RoundAgain(c: Posted)
    requires Places(c) == Pow2(BatchDepth(c))
    ensures Place(c, Places(c)) == 0 && Place(c, Places(c) - 1) == Places(c) - 1
  {
    LowOfPow2(BatchDepth(c));
    PlaceFits(c, Places(c) - 1);
  }

  // ------------------------------------------------------------------------------------------------ the right lengths

  /** The ledger that a commitment continues from. */
  function Predecessor(before: Posted, here: Posted, q: nat): Ledger
    requires Places(before) > 0 && q < Places(here) && W.AllKnown(before) && W.AllKnown(here)
  {
    if q == 0 then before.ledgers[Places(before) - 1] else here.ledgers[q - 1]
  }

  /** Some reading of the commitment at a place is wrong from a ledger. */
  ghost predicate SomeReadingWrong(here: Posted, q: nat, s: Ledger, depth: nat, maxTxSize: nat,
                                   hashBody: R.Body -> Hash)
    requires q < Places(here) && here.Paired()
  {
    exists kind :: WrongReading(kind, s, depth, maxTxSize, hashBody, here.bodyRoots[q], here.stateRoots[q])
  }

  /** Some commitment is wrong from its predecessor, or the tree is full and the first is wrong from the last. */
  ghost predicate WrongSomeplace(before: Posted, here: Posted, depth: nat, maxTxSize: nat, hashBody: R.Body -> Hash)
    requires Places(before) > 0 && Places(here) > 0 && here.Paired() && W.AllKnown(before) && W.AllKnown(here)
  {
    || (exists q :: 0 <= q < Places(here)
                    && SomeReadingWrong(here, q, Predecessor(before, here, q), depth, maxTxSize, hashBody))
    || (Places(here) == Pow2(BatchDepth(here))
        && SomeReadingWrong(here, 0, here.ledgers[Places(here) - 1], depth, maxTxSize, hashBody))
  }

  ghost predicate PostsAll(s: B.State, id: nat, before: Posted, here: Posted, depth: nat) {
    && id > 0 && Posts(s, id - 1, before, depth) && Posts(s, id, here, depth)
    && W.AllKnown(before) && W.AllKnown(here)
  }

  /** What a path names, with its predecessor. */
  lemma PathNames(before: Posted, here: Posted, path: nat)
    requires before.Paired() && here.Paired() && Places(before) > 0 && Places(here) > 0
    requires W.AllKnown(before) && W.AllKnown(here)
    ensures var s0, x, q := W.LedgerBefore(before, here, path), W.Named(here, path), Place(here, path);
            s0.Some? && x.Some? ==>
              && q < Places(here) && x.value == Shown(here.stateRoots[q], here.bodyRoots[q])
              && (|| s0.value == Predecessor(before, here, q)
                  || (Places(here) == Pow2(BatchDepth(here)) && q == 0 && s0.value == here.ledgers[Places(here) - 1]))
  {
    hide Low, MinTreeDepth;
    if path == 0 {
      PlaceFits(before, Places(before) - 1);
      PlaceFits(here, 0);
    } else if Place(here, path) < Places(here) && Place(here, path - 1) < Places(here) {
      PlacesBefore(here, path);
    }
  }

  lemma PlaceIsPath(before: Posted, here: Posted, q: nat)
    requires before.Paired() && here.Paired() && Places(before) > 0 && q < Places(here)
    requires W.AllKnown(before) && W.AllKnown(here)
    ensures W.LedgerBefore(before, here, q) == Some(Predecessor(before, here, q))
    ensures W.Named(here, q) == Some(Shown(here.stateRoots[q], here.bodyRoots[q]))
  {
    hide Low, MinTreeDepth;
    PlaceFits(here, q);
    if q == 0 {
      PlaceFits(before, Places(before) - 1);
    } else {
      PlaceFits(here, q - 1);
    }
  }

  lemma LastIsPath(before: Posted, here: Posted)
    requires here.Paired() && W.AllKnown(here) && Places(here) == Pow2(BatchDepth(here))
    ensures W.LedgerBefore(before, here, Places(here)) == Some(here.ledgers[Places(here) - 1])
    ensures W.Named(here, Places(here)) == Some(Shown(here.stateRoots[0], here.bodyRoots[0]))
  {
    hide Low, MinTreeDepth;
    RoundAgain(here);
  }

  /** With witnesses of the right length, somebody can convict the batch at some path if and only if some commitment is
      wrong, in one of its readings, from its predecessor, or the batch's tree is full and the first commitment is wrong
      from the last. */
  lemma RightlyConvictedIf(s: B.State, id: nat, before: Posted, here: Posted, depth: nat, maxTxSize: nat,
                           hashBody: R.Body -> Hash)
    requires PostsAll(s, id, before, here, depth)
    ensures (exists path: nat :: Convicted(s, id, path, maxTxSize, hashBody))
        <==> WrongSomeplace(before, here, depth, maxTxSize, hashBody)
  {
    hide Convicted, WrongReading, Filed, StateRoot, W.LedgerBefore, W.Named, Place, MinTreeDepth;
    if path: nat :| Convicted(s, id, path, maxTxSize, hashBody) {
      ConvictedByReading(s, id, before, here, depth, path, maxTxSize, hashBody);
      PathNames(before, here, path);
      var q := Place(here, path);
      assert SomeReadingWrong(here, q, W.LedgerBefore(before, here, path).value, depth, maxTxSize, hashBody);
    }
    if WrongSomeplace(before, here, depth, maxTxSize, hashBody) {
      WrongIsConvicted(s, id, before, here, depth, maxTxSize, hashBody);
    }
  }

  lemma WrongIsConvicted(s: B.State, id: nat, before: Posted, here: Posted, depth: nat, maxTxSize: nat,
                         hashBody: R.Body -> Hash)
    requires PostsAll(s, id, before, here, depth) && WrongSomeplace(before, here, depth, maxTxSize, hashBody)
    ensures exists path: nat :: Convicted(s, id, path, maxTxSize, hashBody)
  {
    hide Convicted, WrongReading, Filed, StateRoot, W.LedgerBefore, W.Named, MinTreeDepth;
    var path: nat;
    if q :| 0 <= q < Places(here)
            && SomeReadingWrong(here, q, Predecessor(before, here, q), depth, maxTxSize, hashBody) {
      path := q;
      PlaceIsPath(before, here, q);
    } else {
      path := Places(here);
      LastIsPath(before, here);
    }
    ConvictedByReading(s, id, before, here, depth, path, maxTxSize, hashBody);
    assert Convicted(s, id, path, maxTxSize, hashBody);
  }

  /** Whatever evidence there may be, somebody can convict the batch at some path if and only if that is so, or a
      previous commitment or a target is misread at some path. */
  lemma BatchConvictedIf(s: B.State, id: nat, before: Posted, here: Posted, depth: nat, maxTxSize: nat,
                         keccak: Bytes -> Hash, word: Hash -> Bytes)
    requires PostsAll(s, id, before, here, depth) && Shapes(keccak, word)
    ensures (exists path: nat :: ConvictedSomehow(s, id, path, maxTxSize, HashOf(keccak, word))) <==>
              || WrongSomeplace(before, here, depth, maxTxSize, HashOf(keccak, word))
              || (exists path: nat :: MisreadAt(before, here, depth, path, maxTxSize, HashOf(keccak, word)))
  {
    hide ConvictedSomehow, Convicted, MisreadAt, WrongSomeplace, Filed, HashOf, Shapes, StateRoot, W.AllKnown;
    var h := HashOf(keccak, word);
    RightlyConvictedIf(s, id, before, here, depth, maxTxSize, h);
    forall path: nat
      ensures ConvictedSomehow(s, id, path, maxTxSize, h) <==>
                Convicted(s, id, path, maxTxSize, h) || MisreadAt(before, here, depth, path, maxTxSize, h)
    {
      ConvictedAtPath(s, id, before, here, depth, path, maxTxSize, keccak, word);
    }
    if path: nat :| Convicted(s, id, path, maxTxSize, h) {
      assert ConvictedSomehow(s, id, path, maxTxSize, h);
    }
    if path: nat :| MisreadAt(before, here, depth, path, maxTxSize, h) {
      assert ConvictedSomehow(s, id, path, maxTxSize, h);
    }
  }

  ghost predicate MisreadAt(before: Posted, here: Posted, depth: nat, path: nat, maxTxSize: nat,
                            hashBody: R.Body -> Hash)
    requires Places(before) > 0 && before.Paired() && here.Paired()
  {
    var home := HomeOf(before, here, path);
    var p := PathBefore(home, path);
    || MisreadPrevious(home, depth, p, W.Named(here, path), maxTxSize, hashBody)
    || MisreadTarget(home, depth, p, here, path)
  }

  lemma ConvictedAtPath(s: B.State, id: nat, before: Posted, here: Posted, depth: nat, path: nat, maxTxSize: nat,
                        keccak: Bytes -> Hash, word: Hash -> Bytes)
    requires PostsAll(s, id, before, here, depth) && Shapes(keccak, word)
    ensures ConvictedSomehow(s, id, path, maxTxSize, HashOf(keccak, word)) <==>
              || Convicted(s, id, path, maxTxSize, HashOf(keccak, word))
              || MisreadAt(before, here, depth, path, maxTxSize, HashOf(keccak, word))
  {
    hide ConvictedSomehow, Convicted, MisreadTarget, WrongReading, WrongFrom, Filed, HashOf, Shapes, StateRoot, W.Named,
      W.LedgerBefore;
    var home, h := HomeOf(before, here, path), HashOf(keccak, word);
    var p, x := PathBefore(home, path), W.Named(here, path);
    ConvictedExactlyIf(s, id, before, here, depth, path, maxTxSize, keccak, word);
    ConvictedByReading(s, id, before, here, depth, path, maxTxSize, h);
    if x.Some? {
      forall kind: Kind
        ensures WrongFrom(home, depth, p, BatchDepth(home), kind, x.value, maxTxSize, h) <==>
                  var s0 := W.LedgerBefore(before, here, path);
                  && s0.Some?
                  && WrongReading(kind, s0.value, depth, maxTxSize, h, x.value.bodyRoot, x.value.stateRoot)
      {
        RightWrong(before, here, depth, path, kind, x.value, maxTxSize, h);
      }
    }
  }

  /** With the right length, what is shown is the ledger before. */
  lemma RightWrong(before: Posted, here: Posted, depth: nat, path: nat, kind: Kind, x: Shown, maxTxSize: nat,
                   hashBody: R.Body -> Hash)
    requires Places(before) > 0 && before.Paired() && here.Paired() && W.AllKnown(before) && W.AllKnown(here)
    ensures var home, s0 := HomeOf(before, here, path), W.LedgerBefore(before, here, path);
            WrongFrom(home, depth, PathBefore(home, path), BatchDepth(home), kind, x, maxTxSize, hashBody) <==>
              s0.Some? && WrongReading(kind, s0.value, depth, maxTxSize, hashBody, x.bodyRoot, x.stateRoot)
  {
    hide WrongReading, FraudFrom, StateRoot, MinTreeDepth, Low;
  }

  // ---------------------------------------------------------------------------------------------- the first commitment

  /** The input: an honest batch of two, the first commitment of no transactions and the second one of some that change
      the ledger.  The first stands at its own path and is convicted at path 2, with witnesses of the right length
      both. */
  lemma FirstOfTwoMisread(s: B.State, id: nat, before: Posted, here: Posted, depth: nat, maxTxSize: nat,
                          keccak: Bytes -> Hash, word: Hash -> Bytes, b: R.Body)
    requires PostsAll(s, id, before, here, depth) && Shapes(keccak, word) && Places(here) == 2
    requires b.TransferBody? && b.Sized() && b.data == [] && HashOf(keccak, word)(b) == here.bodyRoots[0]
    requires var s0, s1 := Predecessor(before, here, 0), here.ledgers[1];
             && b.feeReceiver < Pow2(depth) && b.feeReceiver in s0 && s0[b.feeReceiver].balance < TWO_256
             && b.feeReceiver in s1 && s1[b.feeReceiver].balance < TWO_256
             && here.ledgers[0] == s0 && s1 != s0 && (forall p :: p in s0 || p in s1 ==> p < Pow2(depth))
    ensures W.Honest(Transfers, Predecessor(before, here, 0), depth, maxTxSize, b, here.stateRoots[0])
    ensures !Convicted(s, id, 0, maxTxSize, HashOf(keccak, word))
    ensures Convicted(s, id, 2, maxTxSize, HashOf(keccak, word))
  {
    hide Convicted, Contradicts, WrongReading, Filed, HashOf, StateRoot, W.LedgerBefore, W.Named, Sound, MinTreeDepth,
      Predecessor, LedgerVerdict;
    var s0, s1 := Predecessor(before, here, 0), here.ledgers[1];
    W.NothingToDo(Transfers, s0, depth, maxTxSize, b);
    assert here.stateRoots[0] == StateRoot(here.ledgers[0], depth);
    PlaceIsPath(before, here, 0);
    TransferStands(s, id, before, here, depth, 0, maxTxSize, keccak, word, b);
    NothingIsRight(s0, depth, maxTxSize, keccak, word, b);
    assert MinTreeDepth(2) == 1 && Pow2(1) == 2 by { TwoPlaces(); }
    LastIsPath(before, here);
    TransferStands(s, id, before, here, depth, 2, maxTxSize, keccak, word, b);
    NothingElsewhere(s0, s1, depth, maxTxSize, b);
  }

  lemma TwoPlaces()
    ensures MinTreeDepth(2) == 1 && Pow2(1) == 2
  {
    assert CeilLog2(1) == 0;
  }

  /** On its own ledger, a body without transactions is right in every reading. */
  lemma NothingIsRight(s: Ledger, depth: nat, maxTxSize: nat, keccak: Bytes -> Hash, word: Hash -> Bytes, b: R.Body)
    requires Shapes(keccak, word) && b.TransferBody? && b.Sized() && b.data == []
    requires b.feeReceiver < Pow2(depth) && b.feeReceiver in s && s[b.feeReceiver].balance < TWO_256
    ensures var h, root := HashOf(keccak, word), StateRoot(s, depth);
            && !Contradicts(Transfers, s, depth, maxTxSize, b, root)
            && !Contradicts(Create2Transfers, s, depth, maxTxSize, b, root)
            && !WrongReading(MassMigrations, s, depth, maxTxSize, h, h(b), root)
  {
    hide LedgerVerdict, StateRoot, WrongReading, HashOf;
    W.NothingToDo(Transfers, s, depth, maxTxSize, b);
    W.NothingToDo(Create2Transfers, s, depth, maxTxSize, b);
    TransferAsMigration(s, depth, maxTxSize, keccak, word, b, StateRoot(s, depth));
  }

  /** On another ledger it is wrong. */
  lemma NothingElsewhere(s: Ledger, t: Ledger, depth: nat, maxTxSize: nat, b: R.Body)
    requires b.TransferBody? && b.data == [] && t != s && forall p :: p in s || p in t ==> p < Pow2(depth)
    requires b.feeReceiver < Pow2(depth) && b.feeReceiver in t && t[b.feeReceiver].balance < TWO_256
    ensures Contradicts(Transfers, t, depth, maxTxSize, b, StateRoot(s, depth))
  {
    hide LedgerVerdict, StateRoot;
    W.NothingToDo(Transfers, t, depth, maxTxSize, b);
    if StateRoot(s, depth) == StateRoot(t, depth) {
      RootDeterminesLedger(s, t, depth);
    }
  }

  // ------------------------------------------------------------------------------------------------ nonces only grow

  lemma NoncesGrow(kind: Kind, s: Ledger, depth: nat, maxTxSize: nat, body: R.Body, post: Ledger, p: nat)
    requires body.Fits(kind) && LedgerVerdict(kind, s, depth, maxTxSize, body) == Accepts(post)
    ensures var txs := DecodeAll(kind, body.Txs());
            A.NonceAt(post, p) == A.NonceAt(s, p) + A.SentFrom(txs, depth, p, 0, |txs|)
  {
    hide LedgerVerdict, ApplyAll, Receive, DecodeAll, A.NonceAt, A.SentFrom, SD.TokenOf;
    var txs, tokenID := DecodeAll(kind, body.Txs()), SD.TokenOf(kind, s, depth, body);
    var fees := SD.AcceptedRun(kind, s, depth, maxTxSize, body, post);
    A.ForwardNonce(s, depth, txs, tokenID, p, 0, |txs|);
    assert ApplyAll(s, depth, txs, 0, tokenID) == Accepts(s) by { NoneApplied(s, depth, txs, tokenID); }
    A.ReceiveKeepsNonce(ApplyAll(s, depth, txs, |txs|, tokenID).ledger, Low(body.FeesTo(), depth), tokenID, fees, p);
  }

  lemma NoneApplied(s: Ledger, depth: nat, txs: seq<Tx>, tokenID: nat)
    ensures ApplyAll(s, depth, txs, 0, tokenID) == Accepts(s)
  {
  }

  ghost predicate NoncesAtLeast(s: Ledger, t: Ledger) {
    forall p: nat :: A.NonceAt(t, p) >= A.NonceAt(s, p)
  }

  /** An accepted commitment with a transaction or migration, executed again on a ledger that has gone on from its own
      result, contradicts its root unless it reverts. */
  lemma AcceptedOnce(kind: Kind, s: Ledger, depth: nat, maxTxSize: nat, body: R.Body, post: Ledger, t: Ledger)
    requires body.Fits(kind) && LedgerVerdict(kind, s, depth, maxTxSize, body) == Accepts(post)
    requires DecodeAll(kind, body.Txs()) != [] && NoncesAtLeast(post, t)
    ensures Contradicts(kind, t, depth, maxTxSize, body, StateRoot(post, depth))
        <==> !LedgerVerdict(kind, t, depth, maxTxSize, body).Reverts?
  {
    hide LedgerVerdict, DecodeAll, StateRoot, A.NonceAt, A.SentFrom;
    var txs, v := DecodeAll(kind, body.Txs()), LedgerVerdict(kind, t, depth, maxTxSize, body);
    DT.VerdictFailsWithCode(kind, t, depth, maxTxSize, body);
    if v.Accepts? {
      var p := Low(txs[0].fromIndex, depth);
      NoncesGrow(kind, t, depth, maxTxSize, body, v.ledger, p);
      A.SentFromFirst(txs, depth, p, 0, |txs|);
      assert A.NonceAt(v.ledger, p) > A.NonceAt(post, p);
      LowBound(txs[0].fromIndex, depth);
      NonceShowsInRoot(v.ledger, post, depth, p);
    }
  }

  lemma NonceShowsInRoot(s: Ledger, t: Ledger, depth: nat, p: nat)
    requires p < Pow2(depth) && A.NonceAt(s, p) != A.NonceAt(t, p)
    ensures StateRoot(s, depth) != StateRoot(t, depth)
  {
    if StateRoot(s, depth) == StateRoot(t, depth) {
      ShrZero(p, depth);
      NodeInjective(StateLeaves(s), StateLeaves(t), depth, 0, p);
    }
  }

  /** Every commitment but the first is accepted by the ledger of the one before. */
  ghost predicate ChainOf(here: Posted, depth: nat, maxTxSize: nat, kinds: seq<Kind>, bodies: seq<R.Body>) {
    && W.AllKnown(here) && |kinds| == |bodies| == Places(here)
    && forall i :: 0 < i < Places(here) ==>
         && bodies[i].Fits(kinds[i])
         && LedgerVerdict(kinds[i], here.ledgers[i - 1], depth, maxTxSize, bodies[i]) == Accepts(here.ledgers[i])
  }

  lemma {:induction false} ChainGrows(here: Posted, depth: nat, maxTxSize: nat, kinds: seq<Kind>, bodies: seq<R.Body>,
                                      i: nat)
    requires ChainOf(here, depth, maxTxSize, kinds, bodies) && i < Places(here)
    ensures NoncesAtLeast(here.ledgers[0], here.ledgers[i])
  {
    hide LedgerVerdict, A.NonceAt, A.SentFrom;
    if i > 0 {
      ChainGrows(here, depth, maxTxSize, kinds, bodies, i - 1);
      forall p: nat
        ensures A.NonceAt(here.ledgers[i], p) >= A.NonceAt(here.ledgers[0], p)
      {
        NoncesGrow(kinds[i], here.ledgers[i - 1], depth, maxTxSize, bodies[i], here.ledgers[i], p);
      }
    }
  }

  /** So the first commitment of an honest batch whose tree is full, if it has a transaction or migration, is convicted
      at the path behind the last one, unless executing it on the batch's last ledger reverts. */
  lemma FirstFallsAgain(s: B.State, id: nat, before: Posted, here: Posted, depth: nat, maxTxSize: nat,
                        hashBody: R.Body -> Hash, kinds: seq<Kind>, bodies: seq<R.Body>)
    requires PostsAll(s, id, before, here, depth) && Places(here) == Pow2(BatchDepth(here))
    requires ChainOf(here, depth, maxTxSize, kinds, bodies)
    requires bodies[0].Fits(kinds[0]) && bodies[0].Sized() && hashBody(bodies[0]) == here.bodyRoots[0]
    requires LedgerVerdict(kinds[0], Predecessor(before, here, 0), depth, maxTxSize, bodies[0])
          == Accepts(here.ledgers[0])
    requires DecodeAll(kinds[0], bodies[0].Txs()) != []
    ensures var last := here.ledgers[Places(here) - 1];
            && (Contradicts(kinds[0], last, depth, maxTxSize, bodies[0], here.stateRoots[0])
                <==> !LedgerVerdict(kinds[0], last, depth, maxTxSize, bodies[0]).Reverts?)
            && (!LedgerVerdict(kinds[0], last, depth, maxTxSize, bodies[0]).Reverts? ==>
                  Convicted(s, id, Places(here), maxTxSize, hashBody))
  {
    hide LedgerVerdict, DecodeAll, StateRoot, Contradicts, Convicted, WrongReading, Filed, Predecessor, MinTreeDepth,
      W.LedgerBefore, W.Named, NoncesAtLeast;
    var n := Places(here);
    var last := here.ledgers[n - 1];
    ChainGrows(here, depth, maxTxSize, kinds, bodies, n - 1);
    AcceptedOnce(kinds[0], Predecessor(before, here, 0), depth, maxTxSize, bodies[0], here.ledgers[0], last);
    assert here.stateRoots[0] == StateRoot(here.ledgers[0], depth);
    if !LedgerVerdict(kinds[0], last, depth, maxTxSize, bodies[0]).Reverts? {
      LastIsPath(before, here);
      ReadingThere(kinds[0], last, depth, maxTxSize, hashBody, here.bodyRoots[0], here.stateRoots[0], bodies[0]);
      ConvictedByReading(s, id, before, here, depth, n, maxTxSize, hashBody);
    }
  }

  lemma ReadingThere(kind: Kind, s: Ledger, depth: nat, maxTxSize: nat, hashBody: R.Body -> Hash, bodyRoot: Hash,
                     claimed: Hash, body: R.Body)
    requires body.Fits(kind) && body.Sized() && hashBody(body) == bodyRoot
    requires Contradicts(kind, s, depth, maxTxSize, body, claimed)
    ensures WrongReading(kind, s, depth, maxTxSize, hashBody, bodyRoot, claimed)
  {
    hide Contradicts;
    assert WrongAs(kind, s, depth, maxTxSize, hashBody, bodyRoot, claimed, body);
  }

  // ------------------------------------------------------------------------------------------------ exposed pairs

  /** The place before the low bits of `q`, round the tree. */
  function PlaceBefore(here: Posted, q: nat): nat {
    Place(here, q + Pow2(BatchDepth(here)) - 1)
  }

  /** The right one of the `q`-th two neighbours in the ledger at place `i` has a nonce that names an account of the
      ledger at the place before the low bits of `q`; for the very first pair, the last ledger of the batch before does
      too. */
  predicate PairExposed(before: Posted, here: Posted, depth: nat, i: nat, q: nat)
    requires depth > 0 && Places(before) > 0 && W.AllKnown(before) && W.AllKnown(here)
  {
    && i < Places(here) && q < Pow2(depth - 1) && 2 * q + 1 in here.ledgers[i] && StateSized(here.ledgers[i][2 * q + 1])
    && var nonce, p := here.ledgers[i][2 * q + 1].nonce, PlaceBefore(here, q);
       || (p < Places(here) && HasAccount(here.ledgers[p], depth, nonce))
       || (i == q == 0 && HasAccount(before.ledgers[Places(before) - 1], depth, nonce))
  }

  /** A path that goes to the left at its top bit has no top bit. */
  lemma NoTopBit(path: nat, k: nat)
    requires Shr(path, k) % 2 == 0
    ensures Low(path, k + 1) == Low(path, k)
  {
    hide Low, Shr, Pow2;
    var p, q := Pow2(k), Low(path, k);
    LowSplit(path, k);
    LowBound(path, k);
    LowIsModulo(path, k + 1);
    assert Pow2(k + 1) == 2 * p by { Twice(k); }
    var t := Shr(path, k) / 2;
    assert p * (2 * t) == (2 * p) * t;
    DivUnique(path, 2 * p, t, q);
  }

  lemma Twice(k: nat)
    ensures Pow2(k + 1) == 2 * Pow2(k)
  {
  }

  lemma OnceRound(q: nat, d: nat)
    ensures Low(q + Pow2(d), d) == Low(q, d)
  {
    hide Low, Shr, Pow2;
    LowSplit(q, d);
    LowBound(q, d);
    LowIsModulo(q + Pow2(d), d);
    assert Pow2(d) * (Shr(q, d) + 1) == Pow2(d) * Shr(q, d) + Pow2(d);
    DivUnique(q + Pow2(d), Pow2(d), Shr(q, d) + 1, Low(q, d));
  }

  lemma BeforePair(here: Posted, depth: nat, path: nat, q: nat)
    requires path > 0 && Low(path, depth) == q && BatchDepth(here) <= depth
    ensures Place(here, path - 1) == PlaceBefore(here, q)
  {
    hide Low, Pow2, MinTreeDepth;
    var d := BatchDepth(here);
    LowOfLow(path, d, depth);
    OnceRound(q, d);
    StepBack(path, d);
    StepBack(q + Pow2(d), d);
  }

  lemma ExposedIsPair(before: Posted, here: Posted, depth: nat, path: nat)
    requires depth > 0 && Places(before) > 0 && Places(here) > 0 && W.AllKnown(before) && W.AllKnown(here)
    requires BatchDepth(here) <= depth && Exposed(before, here, depth, path)
    ensures PairExposed(before, here, depth, PairPlace(here, depth, path), Low(path, depth - 1))
  {
    hide Low, Shr, Pow2, MinTreeDepth, StateSized, HasAccount, PlaceBefore;
    LowBound(path, depth - 1);
    NoTopBit(path, depth - 1);
    if path > 0 {
      BeforePair(here, depth, path, Low(path, depth - 1));
    } else {
      NothingNamed(here, depth);
      PlaceFits(before, Places(before) - 1);
    }
  }

  lemma NothingNamed(c: Posted, depth: nat)
    requires depth > 0 && Places(c) > 0
    ensures PairPlace(c, depth, 0) == 0 && Low(0, depth - 1) == 0
  {
    ShrZero(0, depth);
    ShrZero(0, depth - 1);
    PlaceFits(c, 0);
  }

  lemma PairIsExposed(before: Posted, here: Posted, depth: nat, i: nat, q: nat) returns (path: nat)
    requires depth > 0 && Places(before) > 0 && W.AllKnown(before) && W.AllKnown(here)
    requires BatchDepth(here) <= depth && PairExposed(before, here, depth, i, q)
    ensures Exposed(before, here, depth, path)
  {
    hide Low, Shr, Pow2, MinTreeDepth, StateSized, HasAccount, PlaceBefore, MisreadState, SE.Position;
    var nonce, d := here.ledgers[i][2 * q + 1].nonce, BatchDepth(here);
    PlaceFits(here, i);
    if PlaceBefore(here, q) < Places(here) && HasAccount(here.ledgers[PlaceBefore(here, q)], depth, nonce) {
      var j := if i == 0 then Pow2(d) else i;
      LowOfPow2(d);
      path := SE.Position(j, depth, q);
      PairHasPath(here, depth, j, q);
      BeyondZero(j, depth, q);
      BeforePair(here, depth, path, q);
    } else {
      path := SE.Position(0, depth, 0);
      PairHasPath(here, depth, 0, 0);
      FirstPosition(depth);
      PlaceFits(before, Places(before) - 1);
    }
  }

  lemma BeyondZero(j: nat, depth: nat, q: nat)
    requires j > 0
    ensures SE.Position(j, depth, q) > 0
  {
    AtLeast(Pow2(depth), j);
  }

  lemma FirstPosition(depth: nat)
    ensures SE.Position(0, depth, 0) == 0
  {
  }

  /** Which batches are safe from misread targets: with previous witnesses of the right length, somebody can convict the
      batch by some two accounts, at whatever path, if and only if it has an exposed pair.  State trees are at least as
      deep as batches here. */
  lemma PairsDecide(s: B.State, id: nat, before: Posted, here: Posted, depth: nat, maxTxSize: nat,
                    keccak: Bytes -> Hash, word: Hash -> Bytes)
    requires PostsAll(s, id, before, here, depth) && Shapes(keccak, word) && 0 < BatchDepth(here) <= depth
    ensures (exists path: nat, kind, own: nat ::
               own != BatchDepth(here) && ConvictedAs(s, id, path, kind, maxTxSize, HashOf(keccak, word), own))
        <==> (exists i: nat, q: nat :: PairExposed(before, here, depth, i, q))
  {
    hide ConvictedAs, PairExposed, Exposed, Shapes, HashOf, Filed, StateRoot, MinTreeDepth;
    var h := HashOf(keccak, word);
    if path: nat, kind, own: nat :| own != BatchDepth(here) && ConvictedAs(s, id, path, kind, maxTxSize, h, own) {
      MisreadTargetIsExact(s, id, before, here, depth, path, kind, maxTxSize, keccak, word, own);
      ExposedIsPair(before, here, depth, path);
    }
    if i: nat, q: nat :| PairExposed(before, here, depth, i, q) {
      var path := PairIsExposed(before, here, depth, i, q);
      MisreadTargetIsExact(s, id, before, here, depth, path, Transfers, maxTxSize, keccak, word,
                           BatchDepth(here) + depth);
    }
  }
}
