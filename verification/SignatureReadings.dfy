/** A signature dispute looks at the type of a batch no more than a transition dispute does, and does not mind bytes
    left over: whatever the bytes read as is checked against the signature.  This module says, over every entry point
    and all evidence, when the signature of a commitment can be disputed. */
module SignatureReadings {
  import opened Words
  import opened Merkle
  import opened MerkleTree
  import opened TxCodec
  import opened TxMessages
  import opened Ledger
  import opened Commits
  import opened FraudProofs
  import opened InclusionReadings
  import opened BodyReadings
  import opened MisreadTargets
  import opened SignatureDisputes
  import A = Authenticity
  import B = Batches
  import R = Rollups
  import W = WitnessLengths

  // ------------------------------------------------------------------------------------------------ all entry points

  /** What is handed in with a signature dispute. */
  datatype SignatureEvidence = SignatureEvidence(kind: Kind, stateRoot: Hash, body: R.Body, siblings: seq<Hash>,
                                                 proof: A.SignatureProof)

  /** The commitment is shown to be included, and its signature does not pass. */
  ghost predicate ConvictsSignature(s: B.State, id: nat, path: nat, hashBody: R.Body -> Hash, word: Hash -> Bytes,
                                    verifyMultiple: Verifier, e: SignatureEvidence)
  {
    && e.body.Fits(e.kind) && e.body.Sized()
    && R.Included(B.BatchAt(s, id).commitmentRoot, R.Inclusion(e.stateRoot, hashBody(e.body), path, e.siblings))
    && DisputesSignature(e.kind, e.stateRoot, e.body, e.proof, word, verifyMultiple)
  }

  ghost predicate SignatureConvicted(s: B.State, id: nat, path: nat, hashBody: R.Body -> Hash, word: Hash -> Bytes,
                                     verifyMultiple: Verifier)
  {
    exists e :: ConvictsSignature(s, id, path, hashBody, word, verifyMultiple, e)
  }

  ghost predicate BadBody(kind: Kind, stateRoot: Hash, bodyRoot: Hash, hashBody: R.Body -> Hash, word: Hash -> Bytes,
                          verifyMultiple: Verifier, body: R.Body, proof: A.SignatureProof)
  {
    && body.Fits(kind) && body.Sized() && hashBody(body) == bodyRoot
    && DisputesSignature(kind, stateRoot, body, proof, word, verifyMultiple)
  }

  /** Some body of the kind has the hash, and some proofs find its signature bad. */
  ghost predicate BadReading(kind: Kind, stateRoot: Hash, bodyRoot: Hash, hashBody: R.Body -> Hash, word: Hash -> Bytes,
                             verifyMultiple: Verifier)
  {
    exists body, proof :: BadBody(kind, stateRoot, bodyRoot, hashBody, word, verifyMultiple, body, proof)
  }

  lemma DisputedHasTxs(kind: Kind, stateRoot: Hash, body: R.Body, proof: A.SignatureProof, word: Hash -> Bytes,
                       verifyMultiple: Verifier)
    requires DisputesSignature(kind, stateRoot, body, proof, word, verifyMultiple)
    ensures body.Txs() != []
  {
    hide A.SignerOk;
  }

  /** Whatever path and witness, a signature dispute is about the commitment that the low bits of the path name: a body
      with transactions is not misread. */
  lemma SignatureTarget(s: B.State, id: nat, here: Posted, depth: nat, path: nat, keccak: Bytes -> Hash,
                        word: Hash -> Bytes, verifyMultiple: Verifier, e: SignatureEvidence)
    requires Posts(s, id, here, depth) && Shapes(keccak, word)
    requires ConvictsSignature(s, id, path, HashOf(keccak, word), word, verifyMultiple, e)
    ensures W.Named(here, path) == Some(Shown(e.stateRoot, HashOf(keccak, word)(e.body)))
  {
    hide DisputesSignature, Shapes, HashOf, R.Included, ShownAt, ShownBy, BatchRoot, BatchDepth, Filed, W.Named,
      StateRoot;
    var h := HashOf(keccak, word);
    var x := Shown(e.stateRoot, h(e.body));
    DisputedHasTxs(e.kind, e.stateRoot, e.body, e.proof, word, verifyMultiple);
    BodyShape(keccak, word, e.body);
    RootIsFiled(s, id, here, depth);
    TargetLengthIsForced(here, depth, R.Inclusion(x.stateRoot, x.bodyRoot, path, e.siblings));
    InclusionIsExact(BatchRoot(here), x, path, |e.siblings|);
    ShownIs(here, depth, path, |e.siblings|);
    NamedIsShown(here, depth, path);
  }

  /** Somebody can dispute the signature at a path if and only if the path names a commitment, and the signature is bad
      in one of its readings. */
  lemma SignatureConvictedIf(s: B.State, id: nat, here: Posted, depth: nat, path: nat, keccak: Bytes -> Hash,
                             word: Hash -> Bytes, verifyMultiple: Verifier)
    requires Posts(s, id, here, depth) && Shapes(keccak, word)
    ensures var h, x := HashOf(keccak, word), W.Named(here, path);
            SignatureConvicted(s, id, path, h, word, verifyMultiple) <==>
              x.Some? && exists kind :: BadReading(kind, x.value.stateRoot, x.value.bodyRoot, h, word, verifyMultiple)
  {
    hide DisputesSignature, Shapes, HashOf, R.Included, ShownAt, ShownBy, BatchRoot, BatchDepth, Filed, W.Named,
      StateRoot;
    var h, d := HashOf(keccak, word), BatchDepth(here);
    if e :| ConvictsSignature(s, id, path, h, word, verifyMultiple, e) {
      SignatureTarget(s, id, here, depth, path, keccak, word, verifyMultiple, e);
      var x := W.Named(here, path).value;
      assert BadBody(e.kind, x.stateRoot, x.bodyRoot, h, word, verifyMultiple, e.body, e.proof);
      assert BadReading(e.kind, x.stateRoot, x.bodyRoot, h, word, verifyMultiple);
    }
    if W.Named(here, path).Some? {
      var x := W.Named(here, path).value;
      if kind :| BadReading(kind, x.stateRoot, x.bodyRoot, h, word, verifyMultiple) {
        var body, proof :| BadBody(kind, x.stateRoot, x.bodyRoot, h, word, verifyMultiple, body, proof);
        RootIsFiled(s, id, here, depth);
        NamedIsShown(here, depth, path);
        ShownIs(here, depth, path, d);
        InclusionIsExact(BatchRoot(here), x, path, d);
        var siblings :| |siblings| == d
                        && R.Included(BatchRoot(here), R.Inclusion(x.stateRoot, x.bodyRoot, path, siblings));
        assert ConvictsSignature(s, id, path, h, word, verifyMultiple,
                                 SignatureEvidence(kind, x.stateRoot, body, siblings, proof));
      }
    }
  }

  // ------------------------------------------------------------------------------------------------ readings of a body

  /** What a transfer body reads as in a signature dispute of mass migrations: four words of its bytes are skipped. */
  function TailMigration(b: R.Body): R.Body
    requires b.TransferBody? && |b.data| >= 128
  {
    R.MigrationBody(b.accountRoot, b.signature, b.feeReceiver, MassMigrationBody(Empty, 0, 0, 0, b.data[128..]))
  }

  /** Only account root, signature, transactions and spoke count. */
  lemma SameDispute(kind: Kind, stateRoot: Hash, a: R.Body, b: R.Body, proof: A.SignatureProof, word: Hash -> Bytes,
                    verifyMultiple: Verifier)
    requires a.accountRoot == b.accountRoot && a.signature == b.signature && a.Txs() == b.Txs()
    requires a.Spoke() == b.Spoke()
    ensures DisputesSignature(kind, stateRoot, a, proof, word, verifyMultiple)
        <==> DisputesSignature(kind, stateRoot, b, proof, word, verifyMultiple)
  {
    hide A.Messages, DecodeAll, EncodedAll;
  }

  /** The account root is that of a tree of keys, and no other hash has its bytes. */
  ghost predicate Registry(keys: Leaves, keyDepth: nat, accountRoot: Hash, word: Hash -> Bytes) {
    Atomic(keys) && accountRoot == Root(keys, keyDepth) && Bound(word, accountRoot)
  }

  lemma TransferAsSigned(kind: Kind, post: Ledger, depth: nat, keys: Leaves, keyDepth: nat, keccak: Bytes -> Hash,
                         word: Hash -> Bytes, b: R.Body, verifyMultiple: Verifier)
    requires Sound(keccak, word) && b.TransferBody? && b.Sized() && !kind.MassMigrations?
    requires Registry(keys, keyDepth, b.accountRoot, word)
    ensures var h := HashOf(keccak, word);
            BadReading(kind, StateRoot(post, depth), h(b), h, word, verifyMultiple) <==>
              BadlySigned(kind, post, depth, keys, keyDepth, b, word, verifyMultiple)
  {
    hide PackedBody, DisputesSignature, BadlySigned, StateRoot, Root, Atomic;
    var h, root := HashOf(keccak, word), StateRoot(post, depth);
    SignatureDisputeIsExact(kind, post, depth, keys, keyDepth, b, word, verifyMultiple);
    if body, proof :| BadBody(kind, root, h(b), h, word, verifyMultiple, body, proof) {
      SameTransfer(word, body, b);
      assert body == b;
    }
    if proof :| DisputesSignature(kind, root, b, proof, word, verifyMultiple) {
      assert BadBody(kind, root, h(b), h, word, verifyMultiple, b, proof);
    }
  }

  /** A mass migration with the bytes of a transfer body has all that counts from behind its four words. */
  lemma ReadsAsTail(keccak: Bytes -> Hash, word: Hash -> Bytes, m: R.Body, b: R.Body)
    requires Sound(keccak, word) && m.MigrationBody? && m.Sized() && b.TransferBody? && b.Sized()
    requires Bound(word, b.accountRoot) && HashOf(keccak, word)(m) == HashOf(keccak, word)(b)
    ensures |b.data| >= 128 && m.accountRoot == b.accountRoot && m.signature == b.signature
    ensures m.Txs() == TailMigration(b).Txs() && m.Spoke() == TailMigration(b).Spoke()
  {
    hide PackedBody, ToBytes;
    TwinHashesAlike(keccak, word, m);
    SameTransfer(word, Twin(word, m), b);
    assert b.data[128..] == m.migration.txs;
  }

  lemma TransferAsSignedMigration(post: Ledger, depth: nat, keys: Leaves, keyDepth: nat, keccak: Bytes -> Hash,
                                  word: Hash -> Bytes, b: R.Body, verifyMultiple: Verifier)
    requires Shapes(keccak, word) && b.TransferBody? && b.Sized() && Registry(keys, keyDepth, b.accountRoot, word)
    ensures var h := HashOf(keccak, word);
            BadReading(MassMigrations, StateRoot(post, depth), h(b), h, word, verifyMultiple) <==>
              |b.data| >= 128
              && BadlySigned(MassMigrations, post, depth, keys, keyDepth, TailMigration(b), word, verifyMultiple)
  {
    hide PackedBody, DisputesSignature, BadlySigned, StateRoot, Root, Atomic, ToBytes;
    var h, root := HashOf(keccak, word), StateRoot(post, depth);
    if body, proof :| BadBody(MassMigrations, root, h(b), h, word, verifyMultiple, body, proof) {
      ReadsAsTail(keccak, word, body, b);
      SameDispute(MassMigrations, root, body, TailMigration(b), proof, word, verifyMultiple);
      SignatureDisputeIsExact(MassMigrations, post, depth, keys, keyDepth, TailMigration(b), word, verifyMultiple);
    }
    if |b.data| >= 128 && BadlySigned(MassMigrations, post, depth, keys, keyDepth, TailMigration(b), word,
                                      verifyMultiple) {
      SignatureDisputeIsExact(MassMigrations, post, depth, keys, keyDepth, TailMigration(b), word, verifyMultiple);
      var proof :| DisputesSignature(MassMigrations, root, TailMigration(b), proof, word, verifyMultiple);
      var body := AsMigration(word, b);
      assert h(body) == h(b);
      ReadsAsTail(keccak, word, body, b);
      SameDispute(MassMigrations, root, body, TailMigration(b), proof, word, verifyMultiple);
      assert BadBody(MassMigrations, root, h(b), h, word, verifyMultiple, body, proof);
    }
  }

  lemma MigrationAsSigned(post: Ledger, depth: nat, keys: Leaves, keyDepth: nat, keccak: Bytes -> Hash,
                          word: Hash -> Bytes, b: R.Body, verifyMultiple: Verifier)
    requires Sound(keccak, word) && b.MigrationBody? && b.Sized() && Registry(keys, keyDepth, b.accountRoot, word)
    ensures var h := HashOf(keccak, word);
            BadReading(MassMigrations, StateRoot(post, depth), h(b), h, word, verifyMultiple) <==>
              BadlySigned(MassMigrations, post, depth, keys, keyDepth, b, word, verifyMultiple)
  {
    hide PackedBody, DisputesSignature, BadlySigned, StateRoot, Root, Atomic, ToBytes;
    var h, root := HashOf(keccak, word), StateRoot(post, depth);
    SignatureDisputeIsExact(MassMigrations, post, depth, keys, keyDepth, b, word, verifyMultiple);
    if body, proof :| BadBody(MassMigrations, root, h(b), h, word, verifyMultiple, body, proof) {
      SameMigration(word, body, b);
      TwinHashesAlike(keccak, word, body);
      TwinHashesAlike(keccak, word, b);
      SameTransfer(word, Twin(word, body), Twin(word, b));
      SameDispute(MassMigrations, root, body, b, proof, word, verifyMultiple);
    }
    if proof :| DisputesSignature(MassMigrations, root, b, proof, word, verifyMultiple) {
      assert BadBody(MassMigrations, root, h(b), h, word, verifyMultiple, b, proof);
    }
  }

  // ------------------------------------------------------------------------------------------------ commitments

  /** The ledger after the commitment that a path names, if it is known. */
  function LedgerAt(c: Posted, path: nat): Option<Ledger> {
    var q := Place(c, path);
    if q < Places(c) && q in c.ledgers then Some(c.ledgers[q]) else None
  }

  /** A path does for the signature of a commitment what the place that it names does. */
  lemma OnlyThePlace(s: B.State, id: nat, here: Posted, depth: nat, path: nat, keccak: Bytes -> Hash,
                     word: Hash -> Bytes, verifyMultiple: Verifier)
    requires Posts(s, id, here, depth) && Shapes(keccak, word)
    ensures SignatureConvicted(s, id, path, HashOf(keccak, word), word, verifyMultiple)
        <==> SignatureConvicted(s, id, Place(here, path), HashOf(keccak, word), word, verifyMultiple)
  {
    hide BadReading, SignatureConvicted, HashOf, Shapes, Filed, StateRoot, MinTreeDepth;
    SignatureConvictedIf(s, id, here, depth, path, keccak, word, verifyMultiple);
    SignatureConvictedIf(s, id, here, depth, Place(here, path), keccak, word, verifyMultiple);
    LowTwice(path, BatchDepth(here));
  }

  /** The signature of a transfer or create2transfer commitment can be disputed, by whatever evidence through whatever
      entry point, if and only if it is bad for the transfers, for the create2transfers, or for the mass migrations
      behind four words, that its bytes read as. */
  lemma TransferSignatures(s: B.State, id: nat, here: Posted, depth: nat, path: nat, keys: Leaves, keyDepth: nat,
                           keccak: Bytes -> Hash, word: Hash -> Bytes, b: R.Body, verifyMultiple: Verifier)
    requires Posts(s, id, here, depth) && LedgerAt(here, path).Some? && Shapes(keccak, word)
    requires b.TransferBody? && b.Sized() && HashOf(keccak, word)(b) == W.Named(here, path).value.bodyRoot
    requires Registry(keys, keyDepth, b.accountRoot, word)
    ensures var post := LedgerAt(here, path).value;
            SignatureConvicted(s, id, path, HashOf(keccak, word), word, verifyMultiple) <==>
              || BadlySigned(Transfers, post, depth, keys, keyDepth, b, word, verifyMultiple)
              || BadlySigned(Create2Transfers, post, depth, keys, keyDepth, b, word, verifyMultiple)
              || (|b.data| >= 128
                  && BadlySigned(MassMigrations, post, depth, keys, keyDepth, TailMigration(b), word, verifyMultiple))
  {
    hide BadReading, BadlySigned, SignatureConvicted, HashOf, Registry, StateRoot, Merklized;
    var post, h := LedgerAt(here, path).value, HashOf(keccak, word);
    SignatureConvictedIf(s, id, here, depth, path, keccak, word, verifyMultiple);
    TransferAsSigned(Transfers, post, depth, keys, keyDepth, keccak, word, b, verifyMultiple);
    TransferAsSigned(Create2Transfers, post, depth, keys, keyDepth, keccak, word, b, verifyMultiple);
    TransferAsSignedMigration(post, depth, keys, keyDepth, keccak, word, b, verifyMultiple);
    if kind :| BadReading(kind, W.Named(here, path).value.stateRoot, h(b), h, word, verifyMultiple) {
      assert kind.Transfers? || kind.Create2Transfers? || kind.MassMigrations?;
    }
  }

  /** The signature of a mass-migration commitment can be disputed if and only if it is bad for its migrations, or for
      the transfers or create2transfers that its twin reads as. */
  lemma MigrationSignatures(s: B.State, id: nat, here: Posted, depth: nat, path: nat, keys: Leaves, keyDepth: nat,
                            keccak: Bytes -> Hash, word: Hash -> Bytes, b: R.Body, verifyMultiple: Verifier)
    requires Posts(s, id, here, depth) && LedgerAt(here, path).Some? && Shapes(keccak, word)
    requires b.MigrationBody? && b.Sized() && HashOf(keccak, word)(b) == W.Named(here, path).value.bodyRoot
    requires Registry(keys, keyDepth, b.accountRoot, word)
    ensures var post := LedgerAt(here, path).value;
            SignatureConvicted(s, id, path, HashOf(keccak, word), word, verifyMultiple) <==>
              || BadlySigned(MassMigrations, post, depth, keys, keyDepth, b, word, verifyMultiple)
              || BadlySigned(Transfers, post, depth, keys, keyDepth, Twin(word, b), word, verifyMultiple)
              || BadlySigned(Create2Transfers, post, depth, keys, keyDepth, Twin(word, b), word, verifyMultiple)
  {
    hide BadReading, BadlySigned, SignatureConvicted, HashOf, Registry, StateRoot, Merklized;
    var post, h, twin := LedgerAt(here, path).value, HashOf(keccak, word), Twin(word, b);
    SignatureConvictedIf(s, id, here, depth, path, keccak, word, verifyMultiple);
    TwinHashesAlike(keccak, word, b);
    TransferAsSigned(Transfers, post, depth, keys, keyDepth, keccak, word, twin, verifyMultiple);
    TransferAsSigned(Create2Transfers, post, depth, keys, keyDepth, keccak, word, twin, verifyMultiple);
    MigrationAsSigned(post, depth, keys, keyDepth, keccak, word, b, verifyMultiple);
    if kind :| BadReading(kind, W.Named(here, path).value.stateRoot, h(b), h, word, verifyMultiple) {
      assert kind.Transfers? || kind.Create2Transfers? || kind.MassMigrations?;
    }
  }

  /** What a proposer can check: fewer bytes than one transaction of a kind takes cannot be disputed as that kind. */
  lemma TooShortToDispute(kind: Kind, post: Ledger, depth: nat, keys: Leaves, keyDepth: nat, body: R.Body,
                          word: Hash -> Bytes, verifyMultiple: Verifier)
    requires BadlySigned(kind, post, depth, keys, keyDepth, body, word, verifyMultiple)
    ensures |body.Txs()| >= kind.Len()
  {
  }
}
