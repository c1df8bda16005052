/** contracts/libs/Types.sol: the packed batch record; contracts/libs/Bitmap.sol: claims kept in 256-bit words. */
module Types {
  import opened Words

  // ------------------------------------------------------------------------------------------------ batch meta

  /** [batchType<1>|size<1>|committer<20>|finaliseOn<4>|unused<6>]; wider values lose their high bits. */
  function EncodeMeta(batchType: bv256, size: bv256, committer: bv256, finaliseOn: bv256): bv256 {
    ((batchType & 0xff) << 248) | ((size & 0xff) << 240)
      | ((committer & 0xffff_ffff_ffff_ffff_ffff_ffff_ffff_ffff_ffff_ffff) << 80) | ((finaliseOn & 0xffff_ffff) << 48)
  }

  function BatchType(meta: bv256): bv256 {
    (meta >> 248) & 0xff
  }

  function Size(meta: bv256): bv256 {
    (meta >> 240) & 0xff
  }

  function Committer(meta: bv256): bv256 {
    (meta >> 80) & 0xffff_ffff_ffff_ffff_ffff_ffff_ffff_ffff_ffff_ffff
  }

  function FinaliseOn(meta: bv256): bv256 {
    (meta >> 48) & 0xffff_ffff
  }

  /** Each accessor gives back its own field, cut to its width, and no other. */
  lemma MetaRoundTrip(batchType: bv256, size: bv256, committer: bv256, finaliseOn: bv256)
    ensures var meta := EncodeMeta(batchType, size, committer, finaliseOn);
            && BatchType(meta) == batchType & 0xff
            && Size(meta) == size & 0xff
            && Committer(meta) == committer & 0xffff_ffff_ffff_ffff_ffff_ffff_ffff_ffff_ffff_ffff
            && FinaliseOn(meta) == finaliseOn & 0xffff_ffff
  {
  }

  /** The fields stand side by side from the top: type, size, committer, finalisation block, six empty bytes. */
  lemma MetaBytes()
    ensures EncodeMeta(0x12, 0x34, 0x5678_9abc_def0_1234_5678_9abc_def0_1234_5678_9abc, 0xdef0_1234)
         == 0x1234_5678_9abc_def0_1234_5678_9abc_def0_1234_5678_9abc_def0_1234_0000_0000_0000
  {
  }

  // ------------------------------------------------------------------------------------------------ claims

  type Bitmap = map<nat, nat>

  /** Bit `k` of a word. */
  function Bit(w: nat, k: nat): bool {
    Shr(w, k) % 2 == 1
  }

  /** `w | (1 << k)`. */
  function SetBit(w: nat, k: nat): nat {
    if k == 0 then w - w % 2 + 1 else 2 * SetBit(w / 2, k - 1) + w % 2
  }

  function IsClaimed(index: nat, bitmap: Bitmap): bool {
    index / 256 in bitmap && Bit(bitmap[index / 256], index % 256)
  }

  function SetClaimed(index: nat, bitmap: Bitmap): Bitmap {
    var word := if index / 256 in bitmap then bitmap[index / 256] else 0;
    bitmap[index / 256 := SetBit(word, index % 256)]
  }

  lemma {:induction false} SetBitSets(w: nat, k: nat, j: nat)
    ensures Bit(SetBit(w, k), j) <==> j == k || Bit(w, j)
  {
    if k == 0 {
      if j > 0 {
        ShrHalf(SetBit(w, 0), j - 1);
        ShrHalf(w, j - 1);
        assert SetBit(w, 0) / 2 == w / 2;
      }
    } else if j > 0 {
      ShrHalf(SetBit(w, k), j - 1);
      ShrHalf(w, j - 1);
      SetBitSets(w / 2, k - 1, j - 1);
    }
  }

  /** The bitmap is a set of indices: claiming adds exactly one. */
  lemma ClaimAddsOne(index: nat, bitmap: Bitmap, other: nat)
    ensures IsClaimed(other, SetClaimed(index, bitmap)) <==> other == index || IsClaimed(other, bitmap)
  {
    var word := if index / 256 in bitmap then bitmap[index / 256] else 0;
    SetBitSets(word, index % 256, other % 256);
    ShrZero(0, other % 256);
    assert other == 256 * (other / 256) + other % 256;
    assert index == 256 * (index / 256) + index % 256;
  }
}
