/** The messages that transactions are signed with: contracts/libs/Tx.sol packs them on the chain, ts/tx.ts and the
    transfer feature at the client. */
module TxMessages {
  import opened Words
  import opened Merkle
  import opened MerkleTree
  import opened TxCodec

  /** A transaction with its nonce; `to` is the receiver's key hash of a create2transfer, `spokeID` the spoke of a mass
      migration. */
  datatype Message = Message(tx: Tx, nonce: nat, to: Hash, spokeID: nat)

  const TRANSFER: nat := 1
  const CREATE2TRANSFER: nat := 3
  const MASS_MIGRATION: nat := 5

  /** A 256-bit word. */
  function Uint256(x: nat): (b: Bytes)
    ensures |b| == 32
  {
    ToBytes(x, 32)
  }

  /** `abi.encodePacked` of the message; `word` gives the 32 bytes of a hash.  The nonce and the spoke of a mass
      migration are truncated to 32 bits. */
  function Encoded(word: Hash -> Bytes, m: Message): Bytes {
    match m.tx
    case Transfer(from, to, amount, fee) =>
      Uint256(TRANSFER) + Uint256(from) + Uint256(to) + Uint256(m.nonce) + Uint256(amount) + Uint256(fee)
    case Create2Transfer(from, _, _, amount, fee) =>
      Uint256(CREATE2TRANSFER) + Uint256(from) + word(m.to) + Uint256(m.nonce) + Uint256(amount) + Uint256(fee)
    case MassMigration(from, amount, fee) =>
      ToBytes(MASS_MIGRATION, 1) + ToBytes(from, 4) + Uint256(amount) + Uint256(fee) + ToBytes(m.nonce, 4)
        + ToBytes(m.spokeID, 4)
  }

  /** A number that does not fit its field throws (None) at the client. */
  function Field(x: nat, n: nat): Option<Bytes> {
    if x < Pow256(n) then Some(ToBytes(x, n)) else None
  }

  function Joined(fields: seq<Option<Bytes>>): Option<Bytes> {
    if fields == [] then Some([]) else
      var n := |fields| - 1;
      var init := Joined(fields[..n]);
      if init.None? || fields[n].None? then None else Some(init.value + fields[n].value)
  }

  /** The fields of a message, each with its width. */
  function Fields(word: Hash -> Bytes, m: Message): seq<Option<Bytes>> {
    match m.tx
    case Transfer(from, to, amount, fee) =>
      [Field(TRANSFER, 32), Field(from, 32), Field(to, 32), Field(m.nonce, 32), Field(amount, 32), Field(fee, 32)]
    case Create2Transfer(from, _, _, amount, fee) =>
      [Field(CREATE2TRANSFER, 32), Field(from, 32), Some(word(m.to)), Field(m.nonce, 32), Field(amount, 32),
       Field(fee, 32)]
    case MassMigration(from, amount, fee) =>
      [Field(MASS_MIGRATION, 1), Field(from, 4), Field(amount, 32), Field(fee, 32), Field(m.nonce, 4),
       Field(m.spokeID, 4)]
  }

  /** `message()` of the client. */
  function ClientEncoded(word: Hash -> Bytes, m: Message): Option<Bytes> {
    Joined(Fields(word, m))
  }

  ghost predicate InRange(m: Message) {
    && m.tx.amount < Pow256(32) && m.tx.fee < Pow256(32)
    && (if m.tx.MassMigration? then m.tx.fromIndex < Pow256(4) && m.nonce < Pow256(4) && m.spokeID < Pow256(4)
        else m.tx.fromIndex < Pow256(32) && m.nonce < Pow256(32))
    && (m.tx.Transfer? ==> m.tx.toIndex < Pow256(32))
  }

  lemma JoinedSix(a: Bytes, b: Bytes, c: Bytes, d: Bytes, e: Bytes, f: Bytes)
    ensures Joined([Some(a), Some(b), Some(c), Some(d), Some(e), Some(f)]) == Some(a + b + c + d + e + f)
  {
    hide Joined;
    JoinedOne(a);
    JoinedSnoc([Some(a)], b, [Some(a), Some(b)]);
    JoinedSnoc([Some(a), Some(b)], c, [Some(a), Some(b), Some(c)]);
    JoinedSnoc([Some(a), Some(b), Some(c)], d, [Some(a), Some(b), Some(c), Some(d)]);
    JoinedSnoc([Some(a), Some(b), Some(c), Some(d)], e, [Some(a), Some(b), Some(c), Some(d), Some(e)]);
    JoinedSnoc([Some(a), Some(b), Some(c), Some(d), Some(e)], f,
               [Some(a), Some(b), Some(c), Some(d), Some(e), Some(f)]);
  }

  lemma JoinedOne(a: Bytes)
    ensures Joined([Some(a)]) == Some(a)
  {
    assert Joined([]) == Some([]) && [Some(a)][..0] == [];
    assert [] + a == a;
  }

  lemma JoinedSnoc(s: seq<Option<Bytes>>, x: Bytes, t: seq<Option<Bytes>>)
    requires Joined(s).Some? && t == s + [Some(x)]
    ensures Joined(t) == Some(Joined(s).value + x)
  {
    assert t[..|s|] == s;
  }

  lemma {:induction false} JoinedNeedsAll(fields: seq<Option<Bytes>>)
    ensures Joined(fields).Some? <==> forall i :: 0 <= i < |fields| ==> fields[i].Some?
  {
    if fields != [] {
      JoinedNeedsAll(fields[..|fields| - 1]);
    }
  }

  /** The client encodes exactly the messages whose numbers fit their fields, and to the bytes that the contract
      rebuilds: a client's signature is checked against what it signed. */
  lemma MessagesAgree(word: Hash -> Bytes, m: Message)
    ensures ClientEncoded(word, m).Some? <==> InRange(m)
    ensures InRange(m) ==> ClientEncoded(word, m) == Some(Encoded(word, m))
  {
    hide ToBytes, Joined, Pow256;
    SmallTags();
    var f := Fields(word, m);
    JoinedNeedsAll(f);
    assert f[0].Some?;
    if InRange(m) {
      JoinedSix(f[0].value, f[1].value, f[2].value, f[3].value, f[4].value, f[5].value);
      assert f == [Some(f[0].value), Some(f[1].value), Some(f[2].value), Some(f[3].value), Some(f[4].value),
                   Some(f[5].value)];
    } else {
      assert exists i :: 0 <= i < |f| && f[i].None? by {
        assert f[1].None? || f[2].None? || f[3].None? || f[4].None? || f[5].None?;
      }
    }
  }

  lemma SmallTags()
    ensures 5 < Pow256(1) <= Pow256(32)
  {
    Pow256Grows(1, 32);
  }

  lemma {:induction false} Pow256Grows(a: nat, b: nat)
    requires a <= b
    ensures Pow256(a) <= Pow256(b)
  {
    if a < b {
      Pow256Grows(a, b - 1);
    }
  }

  // ---------------------------------------------------------------------------------------------- what a message fixes

  lemma FieldFixes(x: nat, y: nat, n: nat)
    requires x < Pow256(n) && y < Pow256(n) && ToBytes(x, n) == ToBytes(y, n)
    ensures x == y
  {
    BigEndianOfBytes(x, n);
    BigEndianOfBytes(y, n);
  }

  lemma TwoParts(a: Bytes, b: Bytes, a': Bytes, b': Bytes)
    requires |a| == |a'| && a + b == a' + b'
    ensures a == a' && b == b'
  {
    assert (a + b)[..|a|] == a && (a' + b')[..|a|] == a';
    assert (a + b)[|a|..] == b && (a' + b')[|a|..] == b';
  }

  /** What the bytes of a message begin with: the word 1 for a transfer, the word 3 for a create2transfer, the byte 5
      for a mass migration, which is shorter than the other two. */
  lemma LeadingTag(word: Hash -> Bytes, m: Message)
    requires forall h :: |word(h)| == 32
    ensures var b := Encoded(word, m);
            match m.tx
            case Transfer(_, _, _, _) => |b| == 192 && BigEndian(b[..32]) == 1
            case Create2Transfer(_, _, _, _, _) => |b| == 192 && BigEndian(b[..32]) == 3
            case MassMigration(_, _, _) => |b| == 77 && b[0] == 5
  {
    hide ToBytes, BigEndian, Pow256;
    SmallTags();
    var b := Encoded(word, m);
    if m.tx.MassMigration? {
      assert b[..1] == ToBytes(5, 1);
      OneByte(b[..1], 5);
    } else {
      assert b[..32] == Uint256(if m.tx.Transfer? then 1 else 3);
      BigEndianOfBytes(if m.tx.Transfer? then 1 else 3, 32);
    }
  }

  lemma OneByte(b: Bytes, x: nat)
    requires x < 256 && b == ToBytes(x, 1)
    ensures b[0] == x
  {
    assert ToBytes(x / 256, 0) == [];
  }

  /** Where each number stands: five words after the tag of a transfer or create2transfer, in the order sender,
      receiver, nonce, amount, fee; in a mass migration a four-byte sender, the words amount and fee, and four bytes
      each for nonce and spoke. */
  lemma Layout(word: Hash -> Bytes, m: Message)
    requires InRange(m) && forall h :: |word(h)| == 32
    ensures var b := Encoded(word, m);
            if m.tx.MassMigration? then
              && |b| == 77 && BigEndian(b[1..5]) == m.tx.fromIndex && BigEndian(b[5..37]) == m.tx.amount
              && BigEndian(b[37..69]) == m.tx.fee && BigEndian(b[69..73]) == m.nonce
              && BigEndian(b[73..77]) == m.spokeID
            else
              && |b| == 192 && BigEndian(b[32..64]) == m.tx.fromIndex
              && (m.tx.Transfer? ==> BigEndian(b[64..96]) == m.tx.toIndex)
              && (m.tx.Create2Transfer? ==> b[64..96] == word(m.to))
              && BigEndian(b[96..128]) == m.nonce && BigEndian(b[128..160]) == m.tx.amount
              && BigEndian(b[160..192]) == m.tx.fee
  {
    hide ToBytes, BigEndian, Pow256;
    LeadingTag(word, m);
    var b, t := Encoded(word, m), m.tx;
    if t.MassMigration? {
      assert b[1..5] == ToBytes(t.fromIndex, 4) && b[5..37] == Uint256(t.amount) && b[37..69] == Uint256(t.fee);
      assert b[69..73] == ToBytes(m.nonce, 4) && b[73..77] == ToBytes(m.spokeID, 4);
      BigEndianOfBytes(t.fromIndex, 4);
      BigEndianOfBytes(m.nonce, 4);
      BigEndianOfBytes(m.spokeID, 4);
    } else {
      assert b[32..64] == Uint256(t.fromIndex);
      assert b[64..96] == if t.Transfer? then Uint256(t.toIndex) else word(m.to);
      assert b[96..128] == Uint256(m.nonce) && b[128..160] == Uint256(t.amount) && b[160..192] == Uint256(t.fee);
      BigEndianOfBytes(t.fromIndex, 32);
      if t.Transfer? {
        BigEndianOfBytes(t.toIndex, 32);
      }
      BigEndianOfBytes(m.nonce, 32);
    }
    BigEndianOfBytes(t.amount, 32);
    BigEndianOfBytes(t.fee, 32);
  }

  /** Two messages with the same bytes are of one kind and agree on sender, nonce, amount and fee, and on receiver or
      spoke: a signature for one nonce, or for one kind of transaction, is no signature for another. */
  lemma EncodingIsBinding(word: Hash -> Bytes, m: Message, m': Message)
    requires InRange(m) && InRange(m')
    requires forall h :: |word(h)| == 32
    requires Encoded(word, m) == Encoded(word, m')
    ensures m.tx.Kind() == m'.tx.Kind()
    ensures m.nonce == m'.nonce && m.tx.fromIndex == m'.tx.fromIndex && m.tx.amount == m'.tx.amount
    ensures m.tx.fee == m'.tx.fee
    ensures m.tx.Transfer? ==> m.tx == m'.tx
    ensures m.tx.Create2Transfer? ==> word(m.to) == word(m'.to)
    ensures m.tx.MassMigration? ==> m.spokeID == m'.spokeID
  {
    hide ToBytes, Pow256, BigEndian, Encoded;
    LeadingTag(word, m);
    LeadingTag(word, m');
    Layout(word, m);
    Layout(word, m');
  }

  function EncodedAll(word: Hash -> Bytes, messages: seq<Message>): (r: seq<Bytes>)
    ensures |r| == |messages|
  {
    seq(|messages|, i requires 0 <= i < |messages| => Encoded(word, messages[i]))
  }
}
