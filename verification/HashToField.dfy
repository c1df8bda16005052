/** Hashing a message to field elements, in contracts/libs/BLS.sol and in ts/hashToField.ts, against section 5.3.1 of
    RFC 9380 (expand_message_xmd).  The hash function is a parameter; a memory word is 32 bytes, most significant
    first. */
module HashToField {
  import opened Words
  import opened MerkleTree

  type Octets = seq<bv8>

  type Bytes32 = d: Octets | |d| == 32 witness seq(32, _ => 0)

  const FIELD_ORDER: nat := 0x30644e72e131a029b85045b68181585d97816a916871ca8d3c208c16d87cfd47

  /** The contract's name for it. */
  const N: nat := 21888242871839275222246405745257275088696311157297823662689037894645226208583

  const T24: nat := 0x1000000000000000000000000000000000000000000000000

  /** The field order is that of the curve BN254: 36u^4 + 36u^3 + 24u^2 + 6u + 1 at u = 4965661367192848881. */
  lemma OrderOfBn254()
    ensures var u := 4965661367192848881;
            FIELD_ORDER == N == 36 * u * u * u * u + 36 * u * u * u + 24 * u * u + 6 * u + 1
    ensures T24 == Pow256(24)
  {
    assert Pow256(8) == 0x1_0000_0000_0000_0000;
    assert Pow256(16) == 0x1_0000_0000_0000_0000 * Pow256(8);
    assert Pow256(24) == 0x1_0000_0000_0000_0000 * Pow256(16);
  }

  // ------------------------------------------------------------------------------------------------ RFC 9380

  function Octet(x: nat): bv8 {
    (x % 256) as bv8
  }

  function Zeros(n: nat): Octets {
    seq(n, _ => 0)
  }

  function DstPrime(dst: Octets): Octets {
    dst + [Octet(|dst|)]
  }

  function MsgPrime(msg: Octets, dst: Octets, length: nat): Octets {
    Zeros(64) + msg + [Octet(length / 256), Octet(length)] + [0] + DstPrime(dst)
  }

  function Xor(a: Bytes32, b: Bytes32): Bytes32 {
    seq(32, i requires 0 <= i < 32 => a[i] ^ b[i])
  }

  /** b_1 is hashed from b_0, and b_i from b_0 xor b_(i-1). */
  function Block(hash: Octets -> Bytes32, b0: Bytes32, dst: Octets, i: nat): Bytes32
    requires i > 0
    decreases i, b0
  {
    hash((if i == 1 then b0 else Xor(b0, Block(hash, b0, dst, i - 1))) + [Octet(i)] + DstPrime(dst))
  }

  function Blocks(hash: Octets -> Bytes32, b0: Bytes32, dst: Octets, n: nat): (s: Octets)
    ensures |s| == 32 * n
    decreases n, b0
  {
    if n == 0 then [] else Blocks(hash, b0, dst, n - 1) + Block(hash, b0, dst, n)
  }

  /** expand_message_xmd; None where the standard aborts. */
  function ExpandMessage(hash: Octets -> Bytes32, msg: Octets, dst: Octets, length: nat): Option<Octets> {
    var ell := (length + 31) / 32;
    if ell > 255 || length > 65535 || |dst| > 255 then None
    else Some(Blocks(hash, hash(MsgPrime(msg, dst, length)), dst, ell)[..length])
  }

  /** OS2IP. */
  function Value(s: Octets): nat {
    if s == [] then 0 else 256 * Value(s[..|s| - 1]) + s[|s| - 1] as nat
  }

  /** hash_to_field for a prime field with L = 48. */
  function FieldElements(uniform: Octets, count: nat): (r: seq<nat>)
    requires |uniform| == 48 * count
    ensures |r| == count
  {
    seq(count, i requires 0 <= i < count => Value(uniform[48 * i..48 * i + 48]) % FIELD_ORDER)
  }

  // ------------------------------------------------------------------------------------------------ buffers

  /** Overwrites part of a buffer: `mstore` with one word, `Uint8Array.set` with any number of bytes. */
  method Store(buffer: array<bv8>, at: nat, s: Octets)
    requires at + |s| <= buffer.Length
    modifies buffer
    ensures buffer[..] == old(buffer[..at]) + s + old(buffer[at + |s|..])
  {
    for i := 0 to |s|
      invariant buffer[..] == old(buffer[..at]) + s[..i] + old(buffer[at + i..])
    {
      buffer[at + i] := s[i];
    }
  }

  // ------------------------------------------------------------------------------------------------ the contract

  /** The word read at offset `z` of a message in memory; what lies beyond its end is arbitrary. */
  function Load(message: Octets, beyond: nat -> bv8, z: nat): Bytes32 {
    seq(32, i requires 0 <= i < 32 => if z + i < |message| then message[z + i] else beyond(z + i - |message|))
  }

  /** The message is copied word by word, overrunning its end by up to 31 bytes. */
  method CopyWords(msg0: array<bv8>, message: Octets, beyond: nat -> bv8)
    requires msg0.Length == 100 + |message|
    modifies msg0
    ensures msg0[..64 + |message|] == old(msg0[..64]) + message
  {
    var t0 := |message|;
    var z := 0;
    while z < t0
      invariant 0 <= z < t0 + 32
      invariant var done := if z < t0 then z else t0; msg0[..64 + done] == old(msg0[..64]) + message[..done]
    {
      var word := Load(message, beyond, z);
      ghost var before := msg0[..64 + z];
      Store(msg0, 64 + z, word);
      ghost var more := if z + 32 < t0 then z + 32 else t0;
      assert word[..more - z] == message[z..more];
      assert msg0[..64 + more] == before + word[..more - z];
      assert message[..more] == message[..z] + message[z..more];
      z := z + 32;
    }
    assert message[..t0] == message;
  }

  /** The 36 bytes after the message overwrite whatever the copying left there. */
  method FirstInput(domain: Bytes32, message: Octets, beyond: nat -> bv8) returns (msg0: array<bv8>)
    ensures fresh(msg0) && msg0[..] == MsgPrime(message, domain, 96)
  {
    hide Octet;
    var t0 := |message|;
    msg0 := new bv8[32 + t0 + 64 + 4](_ => 0);
    assert msg0[..64] == Zeros(64);
    CopyWords(msg0, message, beyond);
    var p := 64 + t0;
    ghost var start := msg0[..p];
    Store(msg0, p, [0]);
    Store(msg0, p + 1, [96]);
    Store(msg0, p + 2, [0]);
    assert msg0[..p + 3] == start + [0, 96] + [0];
    Store(msg0, p + 3, domain);
    Store(msg0, p + 35, [32]);
    SmallOctets();
    assert msg0[..] == start + [0, 96] + [0] + (domain + [32]);
  }

  lemma SmallOctets()
    ensures Octet(96 / 256) == 0 && Octet(96) == 96 && Octet(32) == 32 && Octet(1) == 1 && Octet(2) == 2
    ensures Octet(3) == 3
  {
  }

  /** One output block, hashed from the first 66 bytes of the reused buffer. */
  method NextBlock(hash: Octets -> Bytes32, msg0: array<bv8>, first: Bytes32, i: bv8, domain: Bytes32)
    returns (bi: Bytes32)
    requires msg0.Length >= 66
    modifies msg0
    ensures bi == hash(first + [i] + (domain + [32]))
  {
    Store(msg0, 0, first);
    Store(msg0, 32, [i]);
    Store(msg0, 33, domain);
    Store(msg0, 65, [32]);
    assert msg0[..66] == first + [i] + (domain + [32]);
    bi := hash(msg0[..66]);
  }

  method ExpandMsgTo96(hash: Octets -> Bytes32, domain: Bytes32, message: Octets, beyond: nat -> bv8)
    returns (out: Octets)
    ensures ExpandMessage(hash, message, domain, 96) == Some(out) && |out| == 96
  {
    hide Octet, MsgPrime, Xor;
    SmallOctets();
    var msg0 := FirstInput(domain, message, beyond);
    assert msg0.Length >= 66 by {
      assert |msg0[..]| == |MsgPrime(message, domain, 96)|;
      LongEnough(message, domain);
    }
    var b0 := hash(msg0[..]);
    var b1 := NextBlock(hash, msg0, b0, 1, domain);
    var b2 := NextBlock(hash, msg0, Xor(b0, b1), 2, domain);
    var b3 := NextBlock(hash, msg0, Xor(b0, b2), 3, domain);
    out := b1;
    out := out + b2 + b3;
    ThreeBlocks(hash, b0, domain);
    assert Blocks(hash, b0, domain, 3)[..96] == out;
  }

  lemma LongEnough(message: Octets, domain: Bytes32)
    ensures |MsgPrime(message, domain, 96)| == 100 + |message|
  {
  }

  lemma ThreeBlocks(hash: Octets -> Bytes32, b0: Bytes32, domain: Bytes32)
    ensures var b1 := hash(b0 + [1] + (domain + [32]));
            var b2 := hash(Xor(b0, b1) + [2] + (domain + [32]));
            var b3 := hash(Xor(b0, b2) + [3] + (domain + [32]));
            Blocks(hash, b0, domain, 3) == b1 + b2 + b3
  {
    hide Octet, Xor;
    SmallOctets();
    assert Blocks(hash, b0, domain, 0) == [];
    assert Blocks(hash, b0, domain, 1) == Block(hash, b0, domain, 1);
    assert Blocks(hash, b0, domain, 2) == Block(hash, b0, domain, 1) + Block(hash, b0, domain, 2);
  }

  // ------------------------------------------------------------------------------------------------ the client

  method ClientFirstInput(domain: Octets, msg: Octets, outLen: nat) returns (r: Octets)
    ensures r == MsgPrime(msg, domain, outLen)
  {
    hide Octet;
    var in0 := new bv8[64 + |msg| + 2 + 1 + |domain| + 1](_ => 0);
    Store(in0, 64, msg);
    var off := 64 + |msg|;
    assert in0[..off] == Zeros(64) + msg;
    Store(in0, off, [Octet(outLen / 256), Octet(outLen)]);
    Store(in0, off + 2, [0]);
    assert in0[..off + 3] == Zeros(64) + msg + [Octet(outLen / 256), Octet(outLen)] + [0];
    Store(in0, off + 3, domain);
    Store(in0, off + 3 + |domain|, [Octet(|domain|)]);
    return in0[..];
  }

  /** None is an exception: a domain of more than 32 bytes, or an output length that is zero or not a whole number of
      blocks.  The counter is truncated to a byte, so more than 255 blocks are made where the standard aborts. */
  method ExpandMsg(hash: Octets -> Bytes32, domain: Octets, msg: Octets, outLen: nat) returns (r: Option<Octets>)
    ensures r.Some? <==> |domain| <= 32 && outLen > 0 && outLen % 32 == 0
    ensures r.Some? ==> r.value == Blocks(hash, hash(MsgPrime(msg, domain, outLen)), domain, outLen / 32)
  {
    hide Octet, Xor, Block, Blocks;
    if |domain| > 32 { return None; }
    var out := new bv8[outLen](_ => 0);
    var in0 := ClientFirstInput(domain, msg, outLen);
    var b0 := hash(in0);
    var b1 := HashBlock(hash, b0, 1, domain);
    FirstBlock(hash, b0, domain);
    var ell := (outLen + 31) / 32;
    if ell == 0 { return None; }
    var bi := b1;
    for i := 1 to ell
      invariant bi == Block(hash, b0, domain, i)
      invariant out[..32 * (i - 1)] == Blocks(hash, b0, domain, i - 1)
    {
      var tmp := XorBytes(b0, bi);
      ghost var before := out[..];
      Store(out, 32 * (i - 1), bi);
      assert out[..32 * i] == before[..32 * (i - 1)] + bi;
      OneMoreBlock(hash, b0, domain, i);
      bi := HashBlock(hash, tmp, 1 + i, domain);
    }
    if 32 * (ell - 1) + 32 > outLen { return None; }
    ghost var before := out[..];
    Store(out, 32 * (ell - 1), bi);
    assert out[..] == before[..32 * (ell - 1)] + bi;
    OneMoreBlock(hash, b0, domain, ell);
    return Some(out[..]);
  }

  method XorBytes(a: Bytes32, b: Bytes32) returns (r: Bytes32)
    ensures r == Xor(a, b)
  {
    var tmp := new bv8[32](_ => 0);
    for k := 0 to 32
      invariant forall j :: 0 <= j < k ==> tmp[j] == a[j] ^ b[j]
    {
      tmp[k] := a[k] ^ b[k];
    }
    return tmp[..];
  }

  lemma FirstBlock(hash: Octets -> Bytes32, b0: Bytes32, dst: Octets)
    ensures Block(hash, b0, dst, 1) == hash(b0 + [Octet(1)] + DstPrime(dst)) && Blocks(hash, b0, dst, 0) == []
  {
  }

  lemma OneMoreBlock(hash: Octets -> Bytes32, b0: Bytes32, dst: Octets, i: nat)
    requires i > 0
    ensures Blocks(hash, b0, dst, i) == Blocks(hash, b0, dst, i - 1) + Block(hash, b0, dst, i)
    ensures Block(hash, b0, dst, i + 1) == hash(Xor(b0, Block(hash, b0, dst, i)) + [Octet(i + 1)] + DstPrime(dst))
  {
  }

  /** The input buffer of one block, filled piece by piece. */
  method HashBlock(hash: Octets -> Bytes32, first: Bytes32, i: nat, domain: Octets) returns (bi: Bytes32)
    ensures bi == hash(first + [Octet(i)] + DstPrime(domain))
  {
    hide Octet;
    var ini := new bv8[32 + 1 + |domain| + 1](_ => 0);
    Store(ini, 0, first);
    Store(ini, 32, [Octet(i)]);
    Store(ini, 33, domain);
    Store(ini, 33 + |domain|, [Octet(|domain|)]);
    assert ini[..] == first + [Octet(i)] + DstPrime(domain);
    bi := hash(ini[..]);
  }

  /** `hashToField` of the client, for any number of elements. */
  method ClientHashToField(hash: Octets -> Bytes32, domain: Octets, msg: Octets, count: nat)
    returns (r: Option<seq<nat>>)
    ensures r.Some? <==> |domain| <= 32 && count > 0 && count % 2 == 0
    ensures r.Some? ==>
              r.value == FieldElements(Blocks(hash, hash(MsgPrime(msg, domain, 48 * count)), domain, 3 * (count / 2)),
                                       count)
    ensures r.Some? && 48 * count <= 32 * 255 ==>
              && ExpandMessage(hash, msg, domain, 48 * count).Some?
              && r.value == FieldElements(ExpandMessage(hash, msg, domain, 48 * count).value, count)
  {
    hide *;
    WholeBlocks(count);
    var expanded := ExpandMsg(hash, domain, msg, 48 * count);
    if expanded.None? { return None; }
    Expanded(hash, msg, domain, 48 * count);
    var els := Chunks(expanded.value, count);
    return Some(els);
  }

  lemma WholeBlocks(count: nat)
    ensures 48 * count % 32 == 0 <==> count % 2 == 0
    ensures count % 2 == 0 ==> 48 * count / 32 == 3 * (count / 2)
  {
    var k, odd := count / 2, count % 2;
    DivUnique(48 * count, 32, if odd == 1 then 3 * k + 1 else 3 * k, 16 * odd);
  }

  method Chunks(uniform: Octets, count: nat) returns (els: seq<nat>)
    requires |uniform| == 48 * count
    ensures els == FieldElements(uniform, count)
  {
    hide Value;
    els := [];
    for i := 0 to count
      invariant |els| == i
      invariant forall j :: 0 <= j < i ==> els[j] == Value(uniform[48 * j..48 * j + 48]) % FIELD_ORDER
    {
      els := els + [Value(uniform[i * 48..(i + 1) * 48]) % FIELD_ORDER];
    }
  }

  lemma Expanded(hash: Octets -> Bytes32, msg: Octets, dst: Octets, length: nat)
    ensures length % 32 == 0 && length <= 32 * 255 && |dst| <= 255 ==>
              ExpandMessage(hash, msg, dst, length)
                == Some(Blocks(hash, hash(MsgPrime(msg, dst, length)), dst, length / 32))
  {
    hide Block, MsgPrime;
    if length % 32 == 0 {
      assert (length + 31) / 32 == length / 32;
      var all := Blocks(hash, hash(MsgPrime(msg, dst, length)), dst, length / 32);
      assert all[..length] == all;
    }
  }

  // ------------------------------------------------------------------------------------------------ two limbs

  /** A word read at byte `at` of a byte string in memory, whose length word comes first. */
  function WordAt(lengthWord: Bytes32, data: Octets, at: nat): (w: Octets)
    requires at <= |data|
    ensures |w| == 32
  {
    (lengthWord + data)[at..at + 32]
  }

  /** The low 24 bytes of a word. */
  function Masked(w: Octets): nat {
    Value(w) % T24
  }

  /** `hashToField` of the contract: two overlapping reads for each element. */
  method ContractHashToField(hash: Octets -> Bytes32, domain: Bytes32, messages: Octets, beyond: nat -> bv8,
                             lengthWord: Bytes32) returns (r: seq<nat>)
    ensures ExpandMessage(hash, messages, domain, 96).Some?
    ensures r == FieldElements(ExpandMessage(hash, messages, domain, 96).value, 2)
  {
    hide Value, ExpandMessage;
    var msg := ExpandMsgTo96(hash, domain, messages, beyond);
    var u1 := Masked(WordAt(lengthWord, msg, 24));
    var u0 := Masked(WordAt(lengthWord, msg, 48));
    var a0 := ((u1 * T24) % N + u0) % N;
    Limbs(lengthWord, msg, 0);
    u1 := Masked(WordAt(lengthWord, msg, 72));
    u0 := Masked(WordAt(lengthWord, msg, 96));
    var a1 := ((u1 * T24) % N + u0) % N;
    Limbs(lengthWord, msg, 48);
    r := [a0, a1];
  }

  function Last(b: Octets): (digit: nat)
    requires b != []
    ensures digit < 256
  {
    b[|b| - 1] as nat
  }

  lemma ValueSnoc(a: Octets, b: Octets)
    requires b != []
    ensures Value(a + b) == 256 * Value(a + b[..|b| - 1]) + Last(b) && Value(b) == 256 * Value(b[..|b| - 1]) + Last(b)
    ensures Pow256(|b|) == 256 * Pow256(|b| - 1)
  {
    assert (a + b)[..|a + b| - 1] == a + b[..|b| - 1];
  }

  lemma ValueOfNothing(a: Octets, b: Octets)
    requires b == []
    ensures Value(a + b) == Value(a) && Value(b) == 0 && Pow256(|b|) == 1
  {
    assert a + b == a;
  }

  lemma {:induction false} ValueSplit(a: Octets, b: Octets)
    ensures Value(a + b) == Value(a) * Pow256(|b|) + Value(b) && Value(b) < Pow256(|b|)
    decreases |b|
  {
    hide *;
    if b == [] {
      ValueOfNothing(a, b);
    } else {
      var init := b[..|b| - 1];
      ValueSplit(a, init);
      ValueSnoc(a, b);
      Carry(Value(a), Pow256(|init|), Value(init), Last(b));
    }
  }

  lemma Carry(high: nat, p: nat, low: nat, digit: nat)
    requires low < p && digit < 256
    ensures 256 * (high * p + low) + digit == high * (256 * p) + (256 * low + digit)
    ensures 256 * low + digit < 256 * p
  {
  }

  /** Reducing limb by limb is reducing at once, in any modulus. */
  lemma ReduceLimbs(hi: nat, lo: nat, n: nat)
    requires n > 0
    ensures (hi % n + lo) % n == (hi + lo) % n
  {
    hide *;
    var d, m := hi / n, hi % n;
    var q, r := (m + lo) / n, (m + lo) % n;
    assert hi == n * d + m;
    assert m + lo == n * q + r;
    QuotientsAdd(n, d, q);
    DivUnique(hi + lo, n, d + q, r);
  }

  lemma QuotientsAdd(n: nat, a: nat, b: nat)
    ensures n * (a + b) == n * a + n * b
  {
  }

  lemma LowBytes(w: Octets)
    requires |w| == 32
    ensures Masked(w) == Value(w[8..])
  {
    var top := Value(w[..8]);
    assert w == w[..8] + w[8..];
    ValueSplit(w[..8], w[8..]);
    T24IsPower();
    DivUnique(Value(w), T24, top, Value(w[8..]));
  }

  lemma T24IsPower()
    ensures Pow256(24) == T24
  {
    assert Pow256(8) == 0x1_0000_0000_0000_0000;
    assert Pow256(16) == 0x1_0000_0000_0000_0000_0000_0000_0000_0000;
  }

  /** Each 48-byte chunk, read as two masked words and reduced limb by limb. */
  lemma Limbs(lengthWord: Bytes32, msg: Octets, at: nat)
    requires |msg| == 96 && at + 48 <= 96
    ensures var u1, u0 := Masked(WordAt(lengthWord, msg, at + 24)), Masked(WordAt(lengthWord, msg, at + 48));
            ((u1 * T24) % N + u0) % N == Value(msg[at..at + 48]) % FIELD_ORDER
  {
    hide Value;
    var w1, w0 := WordAt(lengthWord, msg, at + 24), WordAt(lengthWord, msg, at + 48);
    LowBytes(w1);
    LowBytes(w0);
    assert w1[8..] == msg[at..at + 24] && w0[8..] == msg[at + 24..at + 48];
    assert msg[at..at + 48] == msg[at..at + 24] + msg[at + 24..at + 48];
    ValueSplit(msg[at..at + 24], msg[at + 24..at + 48]);
    T24IsPower();
    ReduceLimbs(Masked(w1) * T24, Masked(w0), N);
  }

  /** For every message and every 32-byte domain, whatever memory holds beyond the message, contract and client
      agree. */
  method BothHashToField(hash: Octets -> Bytes32, domain: Bytes32, message: Octets, beyond: nat -> bv8,
                         lengthWord: Bytes32) returns (contract: seq<nat>, client: Option<seq<nat>>)
    ensures client == Some(contract) && |contract| == 2 && forall i :: 0 <= i < 2 ==> contract[i] < FIELD_ORDER
  {
    contract := ContractHashToField(hash, domain, message, beyond, lengthWord);
    client := ClientHashToField(hash, domain, message, 2);
  }
}
