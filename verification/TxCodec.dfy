/** contracts/libs/Tx.sol and the client's transfer codec: fixed-width packing of transactions, and their decoding with
    overlapping 32-byte memory reads. */
module TxCodec {
  import opened Words
  import opened Decimal
  import opened MerkleTree

  type Byte = x: nat | x < 256
  type Bytes = seq<Byte>

  datatype Kind = Transfers | Create2Transfers | MassMigrations {
    /** Bytes of one transaction. */
    function Len(): nat {
      match this
      case Transfers => 12
      case Create2Transfers => 16
      case MassMigrations => 8
    }

    /** `i * Len()`. */
    function Offset(i: nat): nat {
      match this
      case Transfers => 12 * i
      case Create2Transfers => 16 * i
      case MassMigrations => 8 * i
    }
  }

  datatype Tx =
    | Transfer(fromIndex: nat, toIndex: nat, amount: nat, fee: nat)
    | Create2Transfer(fromIndex: nat, toIndex: nat, toPubkeyID: nat, amount: nat, fee: nat)
    | MassMigration(fromIndex: nat, amount: nat, fee: nat)
  {
    function Kind(): Kind {
      match this
      case Transfer(_, _, _, _) => Transfers
      case Create2Transfer(_, _, _, _, _) => Create2Transfers
      case MassMigration(_, _, _) => MassMigrations
    }
  }

  // ------------------------------------------------------------------------------------------------ big-endian words

  function BigEndian(b: Bytes): nat {
    if b == [] then 0 else 256 * BigEndian(b[..|b| - 1]) + b[|b| - 1]
  }

  /** The low `n` bytes of `x`, as `uint32(x)` or `uint16(x)` keeps them. */
  function ToBytes(x: nat, n: nat): (b: Bytes)
    ensures |b| == n
    decreases n, x
  {
    if n == 0 then [] else ToBytes(x / 256, n - 1) + [x % 256]
  }

  lemma {:induction false} BigEndianOfBytes(x: nat, n: nat)
    requires x < Pow256(n)
    ensures BigEndian(ToBytes(x, n)) == x
    decreases n
  {
    if n > 0 {
      BigEndianOfBytes(x / 256, n - 1);
    }
  }

  lemma {:induction false} BigEndianBound(b: Bytes)
    ensures BigEndian(b) < Pow256(|b|)
  {
    if b != [] {
      BigEndianBound(b[..|b| - 1]);
    }
  }

  lemma BigEndianSnoc(a: Bytes, b: Bytes)
    requires b != []
    ensures var n := |b| - 1;
            && BigEndian(a + b) == 256 * BigEndian(a + b[..n]) + b[n] && BigEndian(b) == 256 * BigEndian(b[..n]) + b[n]
            && Pow256(|b|) == 256 * Pow256(n)
  {
    assert (a + b)[..|a + b| - 1] == a + b[..|b| - 1];
  }

  lemma NothingSplits(a: Bytes, b: Bytes)
    requires b == []
    ensures BigEndian(a + b) == BigEndian(a) && BigEndian(b) == 0 && Pow256(|b|) == 1
  {
    assert a + b == a;
  }

  lemma {:induction false} BigEndianSplit(a: Bytes, b: Bytes)
    ensures BigEndian(a + b) == Pow256(|b|) * BigEndian(a) + BigEndian(b)
    decreases |b|
  {
    hide *;
    if b == [] {
      NothingSplits(a, b);
    } else {
      BigEndianSplit(a, b[..|b| - 1]);
      BigEndianSnoc(a, b);
      var p, x := Pow256(|b| - 1), BigEndian(a);
      assert 256 * (p * x) == 256 * p * x;
    }
  }

  /** The low bytes of a word are its last bytes. */
  lemma BigEndianTail(a: Bytes, b: Bytes)
    ensures BigEndian(a + b) % Pow256(|b|) == BigEndian(b)
  {
    BigEndianSplit(a, b);
    BigEndianBound(b);
    DivUnique(BigEndian(a + b), Pow256(|b|), BigEndian(a), BigEndian(b));
  }

  // ------------------------------------------------------------------------------------------------ decoding

  /** A `bytes` value in memory: a 32-byte length word, then the data. */
  function Memory(data: Bytes): Bytes {
    ToBytes(|data|, 32) + data
  }

  /** `mload` of the word ending at byte `end` of the data: `end` counts from the data, the pointer from the length. */
  function Mload(data: Bytes, end: nat): nat
    requires end <= |data|
  {
    BigEndian(Memory(data)[end..end + 32])
  }

  function HasExcessData(kind: Kind, data: Bytes): bool {
    |data| % kind.Len() != 0
  }

  function Size(kind: Kind, data: Bytes): nat {
    |data| / kind.Len()
  }

  function Decode(kind: Kind, data: Bytes, index: nat): (t: Tx)
    requires kind.Offset(index + 1) <= |data|
    ensures t.Kind() == kind
  {
    var p := kind.Offset(index);
    match kind
    case Transfers =>
      Transfer(Mload(data, p + 4) % 0x1_0000_0000, Mload(data, p + 8) % 0x1_0000_0000,
               Decompress(Mload(data, p + 10)), Decompress(Mload(data, p + 12)))
    case Create2Transfers =>
      Create2Transfer(Mload(data, p + 4) % 0x1_0000_0000, Mload(data, p + 8) % 0x1_0000_0000,
                      Mload(data, p + 12) % 0x1_0000_0000,
                      Decompress(Mload(data, p + 14)), Decompress(Mload(data, p + 16)))
    case MassMigrations =>
      MassMigration(Mload(data, p + 4) % 0x1_0000_0000,
                    Decompress(Mload(data, p + 6)), Decompress(Mload(data, p + 8)))
  }

  /** All the transactions of a commitment. */
  function DecodeAll(kind: Kind, data: Bytes): (txs: seq<Tx>)
    ensures |txs| == Size(kind, data)
  {
    seq(Size(kind, data), i requires 0 <= i < Size(kind, data) => Decode(kind, data, i))
  }

  /** Despite the overlap, the masked low bytes of a read are the field's own bytes. */
  lemma FieldRead(data: Bytes, end: nat, n: nat)
    requires n <= end <= |data| && n <= 32
    ensures Mload(data, end) % Pow256(n) == BigEndian(data[end - n..end])
  {
    var memory, word, field := Memory(data), Memory(data)[end..end + 32], data[end - n..end];
    assert memory[end + 32 - n..end + 32] == field;
    assert word == word[..32 - n] + field;
    BigEndianTail(word[..32 - n], field);
  }

  lemma DecimalRead(data: Bytes, end: nat)
    requires 2 <= end <= |data|
    ensures Decompress(Mload(data, end)) == Decompress(BigEndian(data[end - 2..end]))
  {
    FieldRead(data, end, 2);
    assert Pow256(2) == 0x1_0000;
    DecompressLow(Mload(data, end));
  }

  lemma DecompressLow(w: nat)
    ensures Decompress(w) == Decompress(w % 0x1_0000)
  {
    var low, high := w % 0x1_0000, w / 0x1_0000;
    var code, mantissa := low / 4096, low % 4096;
    DivUnique(w, 4096, 16 * high + code, mantissa);
    DivUnique(16 * high + code, 16, high, code);
  }

  // ------------------------------------------------------------------------------------------------ encoding

  /** The contract's packing of one transaction: indices are truncated to four bytes, amounts must have a code. */
  function Packed(t: Tx): Option<Bytes> {
    if Encode(t.amount).None? || Encode(t.fee).None? then None else
      var tail := ToBytes(Encode(t.amount).value, 2) + ToBytes(Encode(t.fee).value, 2);
      match t
      case Transfer(from, to, _, _) => Some(ToBytes(from, 4) + ToBytes(to, 4) + tail)
      case Create2Transfer(from, to, pubkey, _, _) =>
        Some(ToBytes(from, 4) + ToBytes(to, 4) + ToBytes(pubkey, 4) + tail)
      case MassMigration(from, _, _) => Some(ToBytes(from, 4) + tail)
  }

  /** All indices fit in four bytes, and both amounts have a 16-bit code. */
  ghost predicate Compressible(t: Tx) {
    && t.fromIndex < 0x1_0000_0000
    && (t.Transfer? ==> t.toIndex < 0x1_0000_0000)
    && (t.Create2Transfer? ==> t.toIndex < 0x1_0000_0000 && t.toPubkeyID < 0x1_0000_0000)
    && Encodable(t.amount) && Encodable(t.fee)
  }

  function PackedAll(txs: seq<Tx>): Option<Bytes> {
    if txs == [] then Some([]) else
      var n := |txs| - 1;
      var init, last := PackedAll(txs[..n]), Packed(txs[n]);
      if init.None? || last.None? then None else Some(init.value + last.value)
  }

  lemma PackedLength(t: Tx)
    ensures Packed(t).Some? <==> Encodable(t.amount) && Encodable(t.fee)
    ensures Packed(t).Some? ==> |Packed(t).value| == t.Kind().Len()
  {
    CodeRoundTrip(t.amount);
    CodeRoundTrip(t.fee);
  }

  ghost predicate AllOf(kind: Kind, txs: seq<Tx>) {
    forall i :: 0 <= i < |txs| ==> txs[i].Kind() == kind
  }

  lemma NonePacked(txs: seq<Tx>)
    requires txs == []
    ensures PackedAll(txs) == Some([])
  {
  }

  /** The contract's `serialize`: one buffer, filled transaction by transaction and byte by byte; None is a revert. */
  method Serialize(kind: Kind, txs: seq<Tx>) returns (r: Option<Bytes>)
    requires AllOf(kind, txs)
    ensures r == PackedAll(txs)
  {
    hide PackedAll, ToBytes, Encode, BigEndian;
    assert PackedAll(txs[..0]) == Some([]) by { NonePacked(txs[..0]); }
    var serialized := new Byte[kind.Offset(|txs|)](_ => 0);
    for i := 0 to |txs|
      invariant PackedAll(txs[..i]) == Some(serialized[..kind.Offset(i)])
    {
      PackedAllStep(kind, txs, i);
      var amount := EncodeDecimal(txs[i].amount);
      var fee := EncodeDecimal(txs[i].fee);
      if amount.None? || fee.None? {
        NoneStays(txs, i + 1);
        return None;
      }
      assert kind.Offset(i) + |Packed(txs[i]).value| == kind.Offset(i + 1) <= serialized.Length;
      CopyBytes(Packed(txs[i]).value, serialized, kind.Offset(i));
    }
    assert txs[..|txs|] == txs && serialized[..kind.Offset(|txs|)] == serialized[..];
    return Some(serialized[..]);
  }

  lemma PackedAllStep(kind: Kind, txs: seq<Tx>, i: nat)
    requires AllOf(kind, txs) && i < |txs|
    ensures Packed(txs[i]).Some? <==> Encode(txs[i].amount).Some? && Encode(txs[i].fee).Some?
    ensures Packed(txs[i]).Some? ==> |Packed(txs[i]).value| == kind.Len()
    ensures PackedAll(txs[..i]).Some? ==>
              PackedAll(txs[..i + 1]) == if Packed(txs[i]).None? then None
                                         else Some(PackedAll(txs[..i]).value + Packed(txs[i]).value)
  {
    PackedLength(txs[i]);
    CodeRoundTrip(txs[i].amount);
    CodeRoundTrip(txs[i].fee);
    assert txs[..i + 1][..i] == txs[..i];
  }

  /** The inner copying loop of `serialize`. */
  method CopyBytes(packed: Bytes, serialized: array<Byte>, off: nat)
    requires off + |packed| <= serialized.Length
    modifies serialized
    ensures serialized[..off + |packed|] == old(serialized[..off]) + packed
  {
    for j := 0 to |packed|
      invariant serialized[..off + j] == old(serialized[..off]) + packed[..j]
    {
      serialized[j + off] := packed[j];
    }
  }

  lemma {:induction false} NoneStays(txs: seq<Tx>, n: nat)
    requires n <= |txs| && PackedAll(txs[..n]).None?
    ensures PackedAll(txs).None?
    decreases |txs|
  {
    if n == |txs| {
      assert txs[..n] == txs;
    } else {
      assert txs[..|txs| - 1][..n] == txs[..n];
      NoneStays(txs[..|txs| - 1], n);
    }
  }

  // ------------------------------------------------------------------------------------------------ round trip

  /** Transaction `i` occupies its own slot of the buffer. */
  ghost predicate InSlot(t: Tx, data: Bytes, i: nat) {
    && t.Kind().Offset(i + 1) <= |data|
    && Packed(t) == Some(data[t.Kind().Offset(i)..t.Kind().Offset(i + 1)])
  }

  lemma {:induction false} PackedAllLayout(kind: Kind, txs: seq<Tx>)
    requires AllOf(kind, txs) && PackedAll(txs).Some?
    ensures |PackedAll(txs).value| == kind.Offset(|txs|)
    ensures forall i :: 0 <= i < |txs| ==> InSlot(txs[i], PackedAll(txs).value, i)
  {
    if txs != [] {
      var n := |txs| - 1;
      PackedAllLayout(kind, txs[..n]);
      PackedLength(txs[n]);
      var init := PackedAll(txs[..n]).value;
      forall i | 0 <= i < n
        ensures InSlot(txs[i], PackedAll(txs).value, i)
      {
        assert txs[i] == txs[..n][i];
        SlotStays(txs[i], init, Packed(txs[n]).value, i);
      }
      assert PackedAll(txs).value[kind.Offset(n)..kind.Offset(n + 1)] == Packed(txs[n]).value;
    }
  }

  lemma SlotStays(t: Tx, init: Bytes, more: Bytes, i: nat)
    requires InSlot(t, init, i)
    ensures InSlot(t, init + more, i)
  {
    var from, to := t.Kind().Offset(i), t.Kind().Offset(i + 1);
    assert (init + more)[from..to] == init[from..to];
  }

  /** One packed transaction, wherever it lies in the buffer, decodes to itself. */
  lemma DecodePacked(t: Tx, data: Bytes, i: nat)
    requires Compressible(t) && InSlot(t, data, i)
    ensures Decode(t.Kind(), data, i) == t
  {
    hide Mload, Encode, Decompress;
    CodeRoundTrip(t.amount);
    CodeRoundTrip(t.fee);
    PackedLength(t);
    PackedFields(t);
    var p, len := t.Kind().Offset(i), t.Kind().Len();
    var b := Packed(t).value;
    IndexField(data, p, b, 0, t.fromIndex);
    if t.Transfer? {
      IndexField(data, p, b, 4, t.toIndex);
    } else if t.Create2Transfer? {
      IndexField(data, p, b, 4, t.toIndex);
      IndexField(data, p, b, 8, t.toPubkeyID);
    }
    AmountField(data, p, b, len - 4, t.amount);
    AmountField(data, p, b, len - 2, t.fee);
  }

  lemma PackedFields(t: Tx)
    requires Packed(t).Some?
    ensures var b, len := Packed(t).value, t.Kind().Len();
            && |b| == len
            && b[0..4] == ToBytes(t.fromIndex, 4)
            && (t.MassMigration? || b[4..8] == ToBytes(t.toIndex, 4))
            && (t.Create2Transfer? ==> b[8..12] == ToBytes(t.toPubkeyID, 4))
            && b[len - 4..len - 2] == ToBytes(Encode(t.amount).value, 2)
            && b[len - 2..len] == ToBytes(Encode(t.fee).value, 2)
  {
  }

  lemma SubSlice(data: Bytes, p: nat, b: Bytes, at: nat, n: nat)
    requires at + n <= |b| && p + |b| <= |data| && b == data[p..p + |b|]
    ensures data[p + at..p + at + n] == b[at..at + n]
  {
    var x, y := data[p + at..p + at + n], b[at..at + n];
    forall k | 0 <= k < n
      ensures x[k] == y[k]
    {
      assert b[at + k] == data[p..p + |b|][at + k];
    }
  }

  lemma IndexField(data: Bytes, p: nat, b: Bytes, at: nat, x: nat)
    requires at + 4 <= |b| && p + |b| <= |data| && b == data[p..p + |b|]
    requires b[at..at + 4] == ToBytes(x, 4) && x < 0x1_0000_0000
    ensures Mload(data, p + at + 4) % 0x1_0000_0000 == x
  {
    assert Pow256(4) == 0x1_0000_0000;
    SubSlice(data, p, b, at, 4);
    FieldRead(data, p + at + 4, 4);
    BigEndianOfBytes(x, 4);
  }

  lemma AmountField(data: Bytes, p: nat, b: Bytes, at: nat, x: nat)
    requires at + 2 <= |b| && p + |b| <= |data| && b == data[p..p + |b|]
    requires Encode(x).Some? && b[at..at + 2] == ToBytes(Encode(x).value, 2)
    ensures Decompress(Mload(data, p + at + 2)) == x
  {
    CodeRoundTrip(x);
    assert Pow256(2) == 0x1_0000;
    SubSlice(data, p, b, at, 2);
    DecimalRead(data, p + at + 2);
    BigEndianOfBytes(Encode(x).value, 2);
  }

  /** Codec round trip: a list of any length decodes, with no excess data, to the list that was serialized. */
  lemma RoundTrip(kind: Kind, txs: seq<Tx>)
    requires AllOf(kind, txs) && forall i :: 0 <= i < |txs| ==> Compressible(txs[i])
    ensures PackedAll(txs).Some?
    ensures var data := PackedAll(txs).value; !HasExcessData(kind, data) && DecodeAll(kind, data) == txs
  {
    PackedAllSucceeds(txs);
    PackedAllLayout(kind, txs);
    var data := PackedAll(txs).value;
    assert Size(kind, data) == |txs|;
    forall i | 0 <= i < |txs|
      ensures DecodeAll(kind, data)[i] == txs[i]
    {
      DecodePacked(txs[i], data, i);
    }
  }

  lemma {:induction false} PackedAllSucceeds(txs: seq<Tx>)
    requires forall i :: 0 <= i < |txs| ==> Compressible(txs[i])
    ensures PackedAll(txs).Some?
  {
    if txs != [] {
      var n := |txs| - 1;
      PackedLength(txs[n]);
      PackedAllSucceeds(txs[..n]);
    }
  }

  // ---------------------------------------------------------------------------------------------- the client's encoder

  /** hexZeroPad of an index to four bytes throws (None) where the contract truncates. */
  function Padded4(x: nat): Option<Bytes> {
    if x < 0x1_0000_0000 then Some(ToBytes(x, 4)) else None
  }

  /** The client's `encode` or `serialize` of one transaction. */
  function Compressed(t: Tx): Option<Bytes> {
    var from := Padded4(t.fromIndex);
    var to := if t.MassMigration? then Some([]) else Padded4(t.toIndex);
    var pubkey := if t.Create2Transfer? then Padded4(t.toPubkeyID) else Some([]);
    if from.None? || to.None? || pubkey.None? || Encode(t.amount).None? || Encode(t.fee).None? then None else
      Some(from.value + to.value + pubkey.value + ToBytes(Encode(t.amount).value, 2) + ToBytes(Encode(t.fee).value, 2))
  }

  function CompressedAll(txs: seq<Tx>): Option<Bytes> {
    if txs == [] then Some([]) else
      var n := |txs| - 1;
      var init, last := CompressedAll(txs[..n]), Compressed(txs[n]);
      if init.None? || last.None? then None else Some(init.value + last.value)
  }

  lemma CompressedIsPacked(t: Tx)
    ensures Compressed(t).Some? <==> Compressible(t)
    ensures Compressible(t) ==> Compressed(t) == Packed(t)
  {
    hide Encode, ToBytes;
    CodeRoundTrip(t.amount);
    CodeRoundTrip(t.fee);
    if Compressible(t) {
      match t {
        case Transfer(_, _, _, _) => assert Compressed(t).value == Packed(t).value;
        case Create2Transfer(_, _, _, _, _) => assert Compressed(t).value == Packed(t).value;
        case MassMigration(_, _, _) => assert Compressed(t).value == Packed(t).value;
      }
    }
  }

  /** The client encodes exactly the lists whose every transaction is compressible, and to the contract's bytes. */
  lemma {:induction false} EncodersAgree(txs: seq<Tx>)
    ensures CompressedAll(txs).Some? <==> forall i :: 0 <= i < |txs| ==> Compressible(txs[i])
    ensures CompressedAll(txs).Some? ==> CompressedAll(txs) == PackedAll(txs)
  {
    hide Compressed, Packed, Compressible;
    if txs != [] {
      var n := |txs| - 1;
      EncodersAgree(txs[..n]);
      CompressedIsPacked(txs[n]);
      assert forall i :: 0 <= i < n ==> txs[..n][i] == txs[i];
    }
  }
}
