/** A dispute does not look at the type of a batch, and the hash of a body does not tell its kind: transfers and
    create2transfers have one body, and a mass-migration body is packed to the same bytes as a transfer body whose
    transactions start with four more words.  This module says what a commitment can be read as, and when one that is
    honest as what it was submitted for is convicted as something else. */
module BodyReadings {
  import opened Words
  import opened Merkle
  import opened TxCodec
  import opened Ledger
  import opened Commits
  import opened TxMessages
  import opened FraudProofs
  import opened InclusionReadings
  import B = Batches
  import R = Rollups
  import W = WitnessLengths

  type Body = R.Body

  // ------------------------------------------------------------------------------------------------ packed bodies

  /** `abi.encodePacked` of a body; `word` gives the 32 bytes of a hash. */
  function PackedBody(word: Hash -> Bytes, b: Body): Bytes {
    match b
    case TransferBody(accountRoot, signature, feeReceiver, data) =>
      word(accountRoot) + Uint256(signature.0) + Uint256(signature.1) + Uint256(feeReceiver) + data
    case MigrationBody(accountRoot, signature, spokeID, m) =>
      word(accountRoot) + Uint256(signature.0) + Uint256(signature.1) + Uint256(spokeID)
        + (word(m.withdrawRoot) + Uint256(m.tokenID) + Uint256(m.amount) + Uint256(m.feeReceiver) + m.txs)
  }

  function HashOf(keccak: Bytes -> Hash, word: Hash -> Bytes): Body -> Hash {
    (b: Body) => keccak(PackedBody(word, b))
  }

  /** Hashing has no collisions, and a hash has 32 bytes. */
  ghost predicate Sound(keccak: Bytes -> Hash, word: Hash -> Bytes) {
    (forall a, b :: keccak(a) == keccak(b) ==> a == b) && forall h :: |word(h)| == 32
  }

  /** The transfer body with the same bytes: spoke for fee receiver, and the rest for transactions. */
  function Twin(word: Hash -> Bytes, b: Body): Body
    requires b.MigrationBody?
  {
    var m := b.migration;
    R.TransferBody(b.accountRoot, b.signature, b.spokeID,
                   word(m.withdrawRoot) + Uint256(m.tokenID) + Uint256(m.amount) + Uint256(m.feeReceiver) + m.txs)
  }

  lemma TwinHashesAlike(keccak: Bytes -> Hash, word: Hash -> Bytes, b: Body)
    requires b.MigrationBody?
    ensures HashOf(keccak, word)(Twin(word, b)) == HashOf(keccak, word)(b)
    ensures Sound(keccak, word) ==> |Twin(word, b).data| == 128 + |b.migration.txs|
    ensures b.Sized() ==> Twin(word, b).Sized()
  {
    hide ToBytes;
    var t := Twin(word, b);
    assert PackedBody(word, t) == PackedBody(word, b);
  }

  lemma FiveParts(a: Bytes, b: Bytes, c: Bytes, d: Bytes, e: Bytes, a': Bytes, b': Bytes, c': Bytes, d': Bytes,
                  e': Bytes)
    requires |a| == |a'| && |b| == |b'| && |c| == |c'| && |d| == |d'|
    requires a + b + c + d + e == a' + b' + c' + d' + e'
    ensures a == a' && b == b' && c == c' && d == d' && e == e'
  {
    TwoParts(a + b + c + d, e, a' + b' + c' + d', e');
    TwoParts(a + b + c, d, a' + b' + c', d');
    TwoParts(a + b, c, a' + b', c');
    TwoParts(a, b, a', b');
  }

  lemma Pow256Is()
    ensures Pow256(32) == TWO_256
  {
    assert Pow256(8) == 0x1_0000_0000_0000_0000;
    assert Pow256(16) == 0x1_0000_0000_0000_0000_0000_0000_0000_0000;
    assert Pow256(24) == 0x1_0000_0000_0000_0000_0000_0000_0000_0000_0000_0000_0000_0000;
  }

  /** Bodies of one shape with the same bytes are the same, up to hashes with the same bytes. */
  lemma SameTransfer(word: Hash -> Bytes, a: Body, b: Body)
    requires a.TransferBody? && b.TransferBody? && a.Sized() && b.Sized() && forall h :: |word(h)| == 32
    requires PackedBody(word, a) == PackedBody(word, b)
    ensures word(a.accountRoot) == word(b.accountRoot)
    ensures a.signature == b.signature && a.feeReceiver == b.feeReceiver && a.data == b.data
  {
    hide ToBytes, Pow256;
    FiveParts(word(a.accountRoot), Uint256(a.signature.0), Uint256(a.signature.1), Uint256(a.feeReceiver), a.data,
              word(b.accountRoot), Uint256(b.signature.0), Uint256(b.signature.1), Uint256(b.feeReceiver), b.data);
    Pow256Is();
    FieldFixes(a.signature.0, b.signature.0, 32);
    FieldFixes(a.signature.1, b.signature.1, 32);
    FieldFixes(a.feeReceiver, b.feeReceiver, 32);
  }

  /** No other hash has these bytes. */
  ghost predicate Bound(word: Hash -> Bytes, h: Hash) {
    forall x :: word(x) == word(h) ==> x == h
  }

  lemma SameMigration(word: Hash -> Bytes, a: Body, b: Body)
    requires a.MigrationBody? && b.MigrationBody? && a.Sized() && b.Sized() && forall h :: |word(h)| == 32
    requires PackedBody(word, a) == PackedBody(word, b)
    ensures word(a.migration.withdrawRoot) == word(b.migration.withdrawRoot)
    ensures a.migration == b.migration.(withdrawRoot := a.migration.withdrawRoot)
  {
    hide ToBytes, Pow256;
    SameTransfer(word, Twin(word, a), Twin(word, b));
    var m, n := a.migration, b.migration;
    FiveParts(word(m.withdrawRoot), Uint256(m.tokenID), Uint256(m.amount), Uint256(m.feeReceiver), m.txs,
              word(n.withdrawRoot), Uint256(n.tokenID), Uint256(n.amount), Uint256(n.feeReceiver), n.txs);
    Pow256Is();
    FieldFixes(m.tokenID, n.tokenID, 32);
    FieldFixes(m.amount, n.amount, 32);
    FieldFixes(m.feeReceiver, n.feeReceiver, 32);
  }

  // ------------------------------------------------------------------------------------------------ readings

  /** Read as transfers or as create2transfers, a transfer body is itself. */
  lemma TransferReading(kind: Kind, s: Ledger, depth: nat, maxTxSize: nat, keccak: Bytes -> Hash, word: Hash -> Bytes,
                        b: Body, claimed: Hash)
    requires Sound(keccak, word) && b.TransferBody? && b.Sized() && !kind.MassMigrations?
    ensures var h := HashOf(keccak, word);
            WrongReading(kind, s, depth, maxTxSize, h, h(b), claimed) <==>
              Contradicts(kind, s, depth, maxTxSize, b, claimed)
  {
    hide PackedBody, LedgerCommit, Seen;
    var h := HashOf(keccak, word);
    if body :| WrongAs(kind, s, depth, maxTxSize, h, h(b), claimed, body) {
      SameTransfer(word, body, b);
    }
    if Contradicts(kind, s, depth, maxTxSize, b, claimed) {
      assert WrongAs(kind, s, depth, maxTxSize, h, h(b), claimed, b);
    }
  }

  /** Read as transfers or as create2transfers, a mass-migration body is its twin. */
  lemma MigrationAsTransfers(kind: Kind, s: Ledger, depth: nat, maxTxSize: nat, keccak: Bytes -> Hash,
                             word: Hash -> Bytes, b: Body, claimed: Hash)
    requires Sound(keccak, word) && b.MigrationBody? && b.Sized() && !kind.MassMigrations?
    ensures var h := HashOf(keccak, word);
            (WrongReading(kind, s, depth, maxTxSize, h, h(b), claimed)
             <==> Contradicts(kind, s, depth, maxTxSize, Twin(word, b), claimed))
  {
    TwinHashesAlike(keccak, word, b);
    TransferReading(kind, s, depth, maxTxSize, keccak, word, Twin(word, b), claimed);
  }

  /** Read as a mass migration, it is itself, if no other withdraw root has the same bytes. */
  lemma MigrationReading(s: Ledger, depth: nat, maxTxSize: nat, keccak: Bytes -> Hash, word: Hash -> Bytes, b: Body,
                         claimed: Hash)
    requires Sound(keccak, word) && b.MigrationBody? && b.Sized()
    requires Bound(word, b.migration.withdrawRoot)
    ensures var h := HashOf(keccak, word);
            (WrongReading(MassMigrations, s, depth, maxTxSize, h, h(b), claimed)
             <==> Contradicts(MassMigrations, s, depth, maxTxSize, b, claimed))
  {
    hide PackedBody, LedgerMassMigration, Seen;
    var h := HashOf(keccak, word);
    if body :| WrongAs(MassMigrations, s, depth, maxTxSize, h, h(b), claimed, body) {
      SameMigration(word, body, b);
      assert body.migration == b.migration;
    }
    if Contradicts(MassMigrations, s, depth, maxTxSize, b, claimed) {
      assert WrongAs(MassMigrations, s, depth, maxTxSize, h, h(b), claimed, b);
    }
  }

  lemma TransferReadings(s: Ledger, depth: nat, maxTxSize: nat, keccak: Bytes -> Hash, word: Hash -> Bytes, b: Body,
                         claimed: Hash)
    requires Sound(keccak, word) && b.TransferBody? && b.Sized()
    ensures var h := HashOf(keccak, word);
            (exists kind :: WrongReading(kind, s, depth, maxTxSize, h, h(b), claimed)) <==>
              || Contradicts(Transfers, s, depth, maxTxSize, b, claimed)
              || Contradicts(Create2Transfers, s, depth, maxTxSize, b, claimed)
              || WrongReading(MassMigrations, s, depth, maxTxSize, h, h(b), claimed)
  {
    hide Contradicts, WrongReading, HashOf, Sound;
    var h := HashOf(keccak, word);
    TransferReading(Transfers, s, depth, maxTxSize, keccak, word, b, claimed);
    TransferReading(Create2Transfers, s, depth, maxTxSize, keccak, word, b, claimed);
    if kind :| WrongReading(kind, s, depth, maxTxSize, h, h(b), claimed) {
      assert kind.Transfers? || kind.Create2Transfers? || kind.MassMigrations?;
    }
  }

  lemma MigrationReadings(s: Ledger, depth: nat, maxTxSize: nat, keccak: Bytes -> Hash, word: Hash -> Bytes, b: Body,
                          claimed: Hash)
    requires Sound(keccak, word) && b.MigrationBody? && b.Sized() && Bound(word, b.migration.withdrawRoot)
    ensures var h := HashOf(keccak, word);
            (exists kind :: WrongReading(kind, s, depth, maxTxSize, h, h(b), claimed)) <==>
              || Contradicts(MassMigrations, s, depth, maxTxSize, b, claimed)
              || Contradicts(Transfers, s, depth, maxTxSize, Twin(word, b), claimed)
              || Contradicts(Create2Transfers, s, depth, maxTxSize, Twin(word, b), claimed)
  {
    hide Contradicts, WrongReading, HashOf, Sound, Twin, Bound;
    var h := HashOf(keccak, word);
    MigrationReading(s, depth, maxTxSize, keccak, word, b, claimed);
    MigrationAsTransfers(Transfers, s, depth, maxTxSize, keccak, word, b, claimed);
    MigrationAsTransfers(Create2Transfers, s, depth, maxTxSize, keccak, word, b, claimed);
    if kind :| WrongReading(kind, s, depth, maxTxSize, h, h(b), claimed) {
      assert kind.Transfers? || kind.Create2Transfers? || kind.MassMigrations?;
    }
  }

  // ------------------------------------------------------------------------------------------------ conviction

  /** Somebody can convict the commitment through some entry point, with witnesses of the right length. */
  ghost predicate Convicted(s: B.State, id: nat, path: nat, maxTxSize: nat, hashBody: Body -> Hash) {
    exists kind :: W.ConvictedRightly(s, id, path, kind, maxTxSize, hashBody)
  }

  lemma ConvictedByReading(s: B.State, id: nat, before: Posted, here: Posted, depth: nat, path: nat, maxTxSize: nat,
                           hashBody: Body -> Hash)
    requires PostsBoth(s, id, before, here, depth, path) && W.AllKnown(HomeOf(before, here, path))
    ensures var s0, x := W.LedgerBefore(before, here, path), W.Named(here, path);
            Convicted(s, id, path, maxTxSize, hashBody) <==>
              && s0.Some? && x.Some?
              && exists kind ::
                   WrongReading(kind, s0.value, depth, maxTxSize, hashBody, x.value.bodyRoot, x.value.stateRoot)
  {
    hide W.ConvictedRightly, WrongReading, W.LedgerBefore, W.Named, W.AllKnown, Filed, StateRoot;
    var s0, x := W.LedgerBefore(before, here, path), W.Named(here, path);
    forall kind: Kind
      ensures W.ConvictedRightly(s, id, path, kind, maxTxSize, hashBody) <==>
                && s0.Some? && x.Some?
                && WrongReading(kind, s0.value, depth, maxTxSize, hashBody, x.value.bodyRoot, x.value.stateRoot)
    {
      W.ConvictionIsExact(s, id, before, here, depth, path, kind, maxTxSize, hashBody);
    }
  }

  /** Against evidence with witnesses of the right length, a transfer or create2transfer commitment stands at a path if
      and only if, on the ledger before it there, each of its readings reverts or gives the claimed root: as transfers,
      as create2transfers, and as any mass migration with its bytes. */
  lemma TransferStands(s: B.State, id: nat, before: Posted, here: Posted, depth: nat, path: nat, maxTxSize: nat,
                       keccak: Bytes -> Hash, word: Hash -> Bytes, b: Body)
    requires PostsBoth(s, id, before, here, depth, path) && W.AllKnown(HomeOf(before, here, path))
    requires W.Named(here, path).Some? && HashOf(keccak, word)(b) == W.Named(here, path).value.bodyRoot
    requires Sound(keccak, word) && b.TransferBody? && b.Sized()
    ensures var s0, x := W.LedgerBefore(before, here, path), W.Named(here, path).value;
            Convicted(s, id, path, maxTxSize, HashOf(keccak, word)) <==>
              && s0.Some?
              && (|| Contradicts(Transfers, s0.value, depth, maxTxSize, b, x.stateRoot)
                  || Contradicts(Create2Transfers, s0.value, depth, maxTxSize, b, x.stateRoot)
                  || WrongReading(MassMigrations, s0.value, depth, maxTxSize, HashOf(keccak, word), x.bodyRoot,
                                  x.stateRoot))
  {
    hide Contradicts, WrongReading, Convicted, HashOf, Sound, W.LedgerBefore, W.Named, W.AllKnown, Filed, StateRoot;
    var s0, x := W.LedgerBefore(before, here, path), W.Named(here, path).value;
    ConvictedByReading(s, id, before, here, depth, path, maxTxSize, HashOf(keccak, word));
    if s0.Some? {
      TransferReadings(s0.value, depth, maxTxSize, keccak, word, b, x.stateRoot);
    }
  }

  /** Against evidence with witnesses of the right length, a mass-migration commitment stands at a path if and only if,
      on the ledger before it there, it reverts or gives the claimed root, and so do the transfers and the
      create2transfers that its twin reads as. */
  lemma MigrationStands(s: B.State, id: nat, before: Posted, here: Posted, depth: nat, path: nat, maxTxSize: nat,
                        keccak: Bytes -> Hash, word: Hash -> Bytes, b: Body)
    requires PostsBoth(s, id, before, here, depth, path) && W.AllKnown(HomeOf(before, here, path))
    requires W.Named(here, path).Some? && HashOf(keccak, word)(b) == W.Named(here, path).value.bodyRoot
    requires Sound(keccak, word) && b.MigrationBody? && b.Sized() && Bound(word, b.migration.withdrawRoot)
    ensures var s0, x := W.LedgerBefore(before, here, path), W.Named(here, path).value;
            Convicted(s, id, path, maxTxSize, HashOf(keccak, word)) <==>
              && s0.Some?
              && (|| Contradicts(MassMigrations, s0.value, depth, maxTxSize, b, x.stateRoot)
                  || Contradicts(Transfers, s0.value, depth, maxTxSize, Twin(word, b), x.stateRoot)
                  || Contradicts(Create2Transfers, s0.value, depth, maxTxSize, Twin(word, b), x.stateRoot))
  {
    hide Contradicts, WrongReading, Convicted, HashOf, Sound, Twin, Bound, W.LedgerBefore, W.Named, W.AllKnown, Filed,
      StateRoot;
    var s0, x := W.LedgerBefore(before, here, path), W.Named(here, path).value;
    ConvictedByReading(s, id, before, here, depth, path, maxTxSize, HashOf(keccak, word));
    if s0.Some? {
      MigrationReadings(s0.value, depth, maxTxSize, keccak, word, b, x.stateRoot);
    }
  }

  // ----------------------------------------------------------------------------------------- what a proposer can check

  /** A body whose bytes are no whole number of transactions of the kind contradicts every claim, without any proof. */
  lemma WrongSize(kind: Kind, s: Ledger, depth: nat, root: Hash, maxTxSize: nat, body: Body, claimed: Hash)
    requires body.Fits(kind) && |body.Txs()| % kind.Len() != 0
    ensures Contradicts(kind, s, depth, maxTxSize, body, claimed) && R.Fraud(kind, root, claimed, maxTxSize, body, [])
  {
  }

  /** Only migrations of 2, 8, 14, ... transactions have a twin of a whole number of transfers and of
      create2transfers. */
  lemma TwinSizes(n: nat)
    ensures (128 + 8 * n) % 12 == 0 && (128 + 8 * n) % 16 == 0 <==> n % 6 == 2
  {
    var q, r := n / 6, n % 6;
    assert 128 + 8 * n == 48 * q + (128 + 8 * r);
    DivUnique(128 + 8 * n, 12, 4 * q + (128 + 8 * r) / 12, (128 + 8 * r) % 12);
    DivUnique(128 + 8 * n, 16, 3 * q + (128 + 8 * r) / 16, (128 + 8 * r) % 16);
  }

  /** An honest mass migration of any other number of transactions, say of one, is convicted by everybody. */
  lemma MigrationOfWrongSize(s: B.State, id: nat, before: Posted, here: Posted, depth: nat, path: nat, maxTxSize: nat,
                             keccak: Bytes -> Hash, word: Hash -> Bytes, b: Body, n: nat)
    requires PostsBoth(s, id, before, here, depth, path) && W.AllKnown(HomeOf(before, here, path))
    requires W.Named(here, path).Some? && HashOf(keccak, word)(b) == W.Named(here, path).value.bodyRoot
    requires W.LedgerBefore(before, here, path).Some?
    requires Sound(keccak, word) && b.MigrationBody? && b.Sized() && |b.migration.txs| == 8 * n && n % 6 != 2
    ensures Convicted(s, id, path, maxTxSize, HashOf(keccak, word))
  {
    hide Contradicts, Convicted, HashOf, PackedBody, R.Fraud, W.LedgerBefore, W.Named, W.AllKnown, Filed, StateRoot;
    var s0, x := W.LedgerBefore(before, here, path).value, W.Named(here, path).value;
    var twin, h := Twin(word, b), HashOf(keccak, word);
    TwinHashesAlike(keccak, word, b);
    TwinSizes(n);
    var kind := if |twin.data| % 12 != 0 then Transfers else Create2Transfers;
    WrongSize(kind, s0, depth, Empty, maxTxSize, twin, x.stateRoot);
    assert WrongAs(kind, s0, depth, maxTxSize, h, x.bodyRoot, x.stateRoot, twin);
    assert WrongReading(kind, s0, depth, maxTxSize, h, x.bodyRoot, x.stateRoot);
    ConvictedByReading(s, id, before, here, depth, path, maxTxSize, h);
  }

  /** A transfer body of at least four words reads as a mass migration, as every word is a hash: it needs a whole number
      of migrations after them.  A shorter one does not. */
  lemma TransferAsMigration(s: Ledger, depth: nat, maxTxSize: nat, keccak: Bytes -> Hash, word: Hash -> Bytes, b: Body,
                            claimed: Hash)
    requires Sound(keccak, word) && b.TransferBody? && b.Sized()
    requires forall w: Bytes | |w| == 32 :: exists h :: word(h) == w
    ensures var h := HashOf(keccak, word);
            && (|b.data| < 128 ==> !WrongReading(MassMigrations, s, depth, maxTxSize, h, h(b), claimed))
            && (|b.data| >= 128 && (|b.data| - 128) % 8 != 0 ==>
                  WrongReading(MassMigrations, s, depth, maxTxSize, h, h(b), claimed))
  {
    hide Contradicts, R.Fraud, ToBytes, BigEndian;
    var h := HashOf(keccak, word);
    if body :| WrongAs(MassMigrations, s, depth, maxTxSize, h, h(b), claimed, body) {
      TwinHashesAlike(keccak, word, body);
      SameTransfer(word, Twin(word, body), b);
    }
    if |b.data| >= 128 && (|b.data| - 128) % 8 != 0 {
      var body := AsMigration(word, b);
      WrongSize(MassMigrations, s, depth, Empty, maxTxSize, body, claimed);
      assert WrongAs(MassMigrations, s, depth, maxTxSize, h, h(b), claimed, body);
    }
  }

  lemma AsMigration(word: Hash -> Bytes, b: Body) returns (body: Body)
    requires b.TransferBody? && b.Sized() && |b.data| >= 128
    requires forall w: Bytes | |w| == 32 :: exists h :: word(h) == w
    ensures body.MigrationBody? && body.Sized() && PackedBody(word, body) == PackedBody(word, b)
    ensures body.migration.txs == b.data[128..]
  {
    hide ToBytes, BigEndian, Pow256;
    var d := b.data;
    var root :| word(root) == d[..32];
    Pow256Is();
    WordField(d[32..64]);
    WordField(d[64..96]);
    WordField(d[96..128]);
    body := R.MigrationBody(b.accountRoot, b.signature, b.feeReceiver,
                            MassMigrationBody(root, BigEndian(d[32..64]), BigEndian(d[64..96]), BigEndian(d[96..128]),
                                              d[128..]));
    assert word(root) + Uint256(body.migration.tokenID) + Uint256(body.migration.amount)
         + Uint256(body.migration.feeReceiver) + d[128..] == d;
  }

  lemma WordField(w: Bytes)
    requires |w| == 32
    ensures BigEndian(w) < Pow256(32) && Uint256(BigEndian(w)) == w
  {
    BigEndianBound(w);
    BytesOfBigEndian(w);
  }

  lemma {:induction false} BytesOfBigEndian(w: Bytes)
    ensures ToBytes(BigEndian(w), |w|) == w
  {
    if w != [] {
      var n := |w| - 1;
      BytesOfBigEndian(w[..n]);
      assert w == w[..n] + [w[n]];
    }
  }
}
