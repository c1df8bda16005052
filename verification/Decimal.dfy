/** ts/decimal.ts and Tx.encodeDecimal: the 16-bit decimal float, 4 bits of exponent above 12 bits of mantissa. */
module Decimal {
  import opened MerkleTree

  const MANTISSA_MAX: nat := 4095
  const EXPONENT_MAX: nat := 15

  /** m * 10^e. */
  function Scaled(m: nat, e: nat): nat {
    if e == 0 then m else 10 * Scaled(m, e - 1)
  }

  /** Mantissa and exponent once trailing zeros of `x` have moved to the exponent, starting at exponent `e`. */
  function Strip(x: nat, e: nat): (nat, nat)
    decreases EXPONENT_MAX - e, x
  {
    if e >= EXPONENT_MAX || x == 0 || x % 10 != 0 then (x, e) else Strip(x / 10, e + 1)
  }

  /** The 16-bit code of `x`, if it has one. */
  function Encode(x: nat): Option<nat> {
    var (m, e) := Strip(x, 0);
    if m > MANTISSA_MAX then None else Some(e * 4096 + m)
  }

  /** Only the low 16 bits of a word are looked at. */
  function Decompress(w: nat): nat {
    Scaled(w % 4096, (w / 4096) % 16)
  }

  ghost predicate Encodable(x: nat) {
    exists m: nat, e: nat :: m <= MANTISSA_MAX && e <= EXPONENT_MAX && x == Scaled(m, e)
  }

  lemma {:induction false} ScaledAdd(a: nat, b: nat, e: nat)
    ensures Scaled(a + b, e) == Scaled(a, e) + Scaled(b, e)
  {
    if e > 0 {
      ScaledAdd(a, b, e - 1);
    }
  }

  lemma {:induction false} ScaledTen(m: nat, e: nat)
    ensures Scaled(10 * m, e) == Scaled(m, e + 1)
  {
    if e > 0 {
      ScaledTen(m, e - 1);
    }
  }

  lemma {:induction false} ScaledTwice(m: nat, k: nat, e: nat)
    ensures Scaled(Scaled(m, k), e) == Scaled(m, k + e)
  {
    if e > 0 {
      ScaledTwice(m, k, e - 1);
    }
  }

  lemma {:induction false} StripIsExact(x: nat, e: nat)
    requires e <= EXPONENT_MAX
    ensures var (m, f) := Strip(x, e); e <= f <= EXPONENT_MAX && Scaled(x, e) == Scaled(m, f)
    decreases EXPONENT_MAX - e
  {
    if !(e >= EXPONENT_MAX || x == 0 || x % 10 != 0) {
      StripIsExact(x / 10, e + 1);
      ScaledTen(x / 10, e);
    }
  }

  lemma StripOfZero(e: nat)
    ensures Strip(0, e) == (0, e)
  {
  }

  lemma StripTen(x: nat, e: nat)
    requires e < EXPONENT_MAX && x > 0
    ensures Strip(10 * x, e) == Strip(x, e + 1)
  {
    assert 10 * x % 10 == 0 && 10 * x / 10 == x;
  }

  lemma {:induction false} StripIsLeast(m: nat, k: nat, e: nat)
    requires k + e <= EXPONENT_MAX
    ensures Strip(Scaled(m, k), e).0 <= m
    decreases k
  {
    hide Strip;
    if k == 0 {
      StripShrinks(m, e);
    } else if Scaled(m, k) == 0 {
      StripOfZero(e);
    } else {
      assert Scaled(m, k) == 10 * Scaled(m, k - 1);
      StripTen(Scaled(m, k - 1), e);
      StripIsLeast(m, k - 1, e + 1);
    }
  }

  lemma {:induction false} StripShrinks(x: nat, e: nat)
    ensures Strip(x, e).0 <= x
    decreases EXPONENT_MAX - e
  {
    if !(e >= EXPONENT_MAX || x == 0 || x % 10 != 0) {
      StripShrinks(x / 10, e + 1);
    }
  }

  lemma CodeOf(m: nat, e: nat)
    requires m <= MANTISSA_MAX && e <= EXPONENT_MAX
    ensures e * 4096 + m < 0x1_0000 && Decompress(e * 4096 + m) == Scaled(m, e)
  {
    hide Scaled;
    CodeParts(m, e, e * 4096 + m);
  }

  lemma CodeParts(m: nat, e: nat, w: nat)
    requires m < 4096 && e < 16 && w == e * 4096 + m
    ensures w % 4096 == m && (w / 4096) % 16 == e
  {
    assert w / 4096 == e;
  }

  /** Decompressing a code gives back the number; exactly the numbers m * 10^e with m <= 4095, e <= 15 have a code. */
  lemma CodeRoundTrip(x: nat)
    ensures Encode(x).Some? <==> Encodable(x)
    ensures Encode(x).Some? ==> Encode(x).value < 0x1_0000 && Decompress(Encode(x).value) == x
  {
    hide Strip, Scaled, Decompress;
    StripIsExact(x, 0);
    var (m, e) := Strip(x, 0);
    if m <= MANTISSA_MAX {
      CodeOf(m, e);
      UnitIsOne(x);
    }
    if Encodable(x) {
      var m': nat, e': nat :| m' <= MANTISSA_MAX && e' <= EXPONENT_MAX && x == Scaled(m', e');
      StripIsLeast(m', e', 0);
    }
  }

  /** The contract's encoder; None is a revert. */
  method EncodeDecimal(input: nat) returns (code: Option<nat>)
    ensures code == Encode(input)
  {
    var x: nat, exponent: nat := input, 0;
    for i := 0 to 15
      invariant exponent == i
      invariant Strip(input, 0) == Strip(x, exponent)
    {
      if x != 0 && x % 10 == 0 {
        x := x / 10;
        exponent := exponent + 1;
      } else {
        break;
      }
    }
    if x > 0x0fff {
      return None;
    }
    return Some(exponent * 4096 + x);
  }

  /** The client's encoder; None is an exception. */
  method Compress(input: nat) returns (code: Option<nat>)
    ensures code == Encode(input)
  {
    var mantissa: nat, exponent: nat := input, 0;
    while exponent < EXPONENT_MAX
      invariant exponent <= EXPONENT_MAX
      invariant Strip(input, 0) == Strip(mantissa, exponent)
    {
      if mantissa == 0 || mantissa % 10 != 0 {
        break;
      }
      mantissa, exponent := mantissa / 10, exponent + 1;
    }
    if mantissa > MANTISSA_MAX {
      return None;
    }
    return Some(exponent * 4096 + mantissa);
  }

  /** The rounding loop from a given mantissa and exponent on; the last exponent, 15, is never tried. */
  function RoundFrom(mantissa: nat, e: nat): Option<nat>
    decreases EXPONENT_MAX - e, mantissa
  {
    if e >= EXPONENT_MAX then None
    else if mantissa <= MANTISSA_MAX then Some(Scaled(mantissa, e))
    else RoundFrom(mantissa / 10, e + 1)
  }

  function Rounded(x: nat): Option<nat> {
    RoundFrom(x, 0)
  }

  method Round(input: nat) returns (r: Option<nat>)
    ensures r == Rounded(input)
  {
    var mantissa: nat := input;
    for exponent := 0 to EXPONENT_MAX
      invariant Rounded(input) == RoundFrom(mantissa, exponent)
    {
      if mantissa <= MANTISSA_MAX {
        return Some(Scaled(mantissa, exponent));
      }
      mantissa := mantissa / 10;
    }
    return None;
  }

  /** The loop drops less than one unit of the current exponent, and a unit is at most 10/4096 of the input. */
  lemma {:induction false} RoundFromBelow(x: nat, m: nat, rest: nat, e: nat)
    requires x == Scaled(m, e) + rest && rest < Scaled(1, e)
    requires e == 0 || 4096 * Scaled(1, e) <= 10 * x
    requires RoundFrom(m, e).Some?
    ensures var r := RoundFrom(m, e).value; r <= x && 4096 * (x - r) <= 10 * x
    ensures exists q: nat, k: nat :: q <= MANTISSA_MAX && k < EXPONENT_MAX && RoundFrom(m, e).value == Scaled(q, k)
    decreases EXPONENT_MAX - e
  {
    if m > MANTISSA_MAX {
      ScaledAdd(10 * (m / 10), m % 10, e);
      ScaledTen(m / 10, e);
      ScaledMonotone(m % 10, 9, e);
      ScaledMonotone(4096, m, e);
      ScaledUnit(9, e);
      ScaledUnit(4096, e);
      RoundFromBelow(x, m / 10, Scaled(m % 10, e) + rest, e + 1);
    }
  }

  lemma ScaledMonotone(a: nat, b: nat, e: nat)
    requires a <= b
    ensures Scaled(a, e) <= Scaled(b, e)
  {
    ScaledAdd(a, b - a, e);
  }

  lemma {:induction false} ScaledUnit(m: nat, e: nat)
    ensures Scaled(m, e) == m * Scaled(1, e)
  {
    if e > 0 {
      ScaledUnit(m, e - 1);
    }
  }

  lemma {:induction false} RoundFromFixes(m: nat, k: nat, e: nat)
    requires m <= MANTISSA_MAX && k + e < EXPONENT_MAX
    ensures RoundFrom(Scaled(m, k), e) == Some(Scaled(m, k + e))
    decreases k
  {
    if Scaled(m, k) <= MANTISSA_MAX {
      ScaledTwice(m, k, e);
    } else {
      RoundFromFixes(m, k - 1, e + 1);
    }
  }

  /** Whenever rounding succeeds, the result has a code, is at most the input, loses less than one part in 409.6, and
      rounding it again changes nothing. */
  lemma RoundingIsSafe(x: nat)
    requires Rounded(x).Some?
    ensures var r := Rounded(x).value;
            Encode(r).Some? && r <= x && 4096 * (x - r) <= 10 * x && Rounded(r) == Some(r)
  {
    hide Encode, Strip;
    RoundFromBelow(x, x, 0, 0);
    var r := Rounded(x).value;
    var q: nat, k: nat :| q <= MANTISSA_MAX && k < EXPONENT_MAX && r == Scaled(q, k);
    CodeRoundTrip(r);
    RoundFromFixes(q, k, 0);
  }

  /** Rounding succeeds exactly below 4096 * 10^14, although codes go up to 4095 * 10^15. */
  lemma {:induction false} RoundingSucceeds(m: nat, e: nat)
    requires e < EXPONENT_MAX
    ensures RoundFrom(m, e).Some? <==> m < Scaled(4096, EXPONENT_MAX - 1 - e)
    decreases EXPONENT_MAX - e
  {
    if m > MANTISSA_MAX {
      if e + 1 < EXPONENT_MAX {
        RoundingSucceeds(m / 10, e + 1);
      }
    } else {
      ScaledGrows(4096, EXPONENT_MAX - 1 - e);
    }
  }

  lemma {:induction false} ScaledGrows(m: nat, e: nat)
    ensures m <= Scaled(m, e)
  {
    if e > 0 {
      ScaledGrows(m, e - 1);
    }
  }

  lemma {:induction false} ScaledInExponent(m: nat, e: nat, e': nat)
    requires e <= e'
    ensures Scaled(m, e) <= Scaled(m, e')
  {
    if e < e' {
      ScaledInExponent(m, e, e' - 1);
    }
  }

  lemma ScaledOrders(a: nat, b: nat, e: nat)
    requires Scaled(a, e) < Scaled(b, e)
    ensures a < b
  {
    if b <= a {
      ScaledMonotone(b, a, e);
    }
  }

  lemma ScaledStrict(a: nat, b: nat, e: nat)
    requires a < b
    ensures Scaled(a, e) < Scaled(b, e)
  {
    ScaledAdd(a, b - a, e);
    ScaledGrows(b - a, e);
  }

  /** `q` units of 10^`e` are the most that fit in `x`, and no lower exponent would have done. */
  ghost predicate RoundsAt(x: nat, q: nat, e: nat) {
    && q <= MANTISSA_MAX && e < EXPONENT_MAX && Scaled(q, e) <= x < Scaled(q + 1, e)
    && (e > 0 ==> Scaled(4096, e - 1) <= x)
  }

  lemma {:induction false} RoundFromAt(x: nat, m: nat, e: nat) returns (q: nat, f: nat)
    requires Scaled(m, e) <= x < Scaled(m + 1, e) && (e > 0 ==> Scaled(4096, e - 1) <= x)
    requires RoundFrom(m, e).Some?
    ensures RoundFrom(m, e) == Some(Scaled(q, f)) && RoundsAt(x, q, f)
    decreases EXPONENT_MAX - e
  {
    if m <= MANTISSA_MAX {
      q, f := m, e;
    } else {
      var d := m / 10;
      ScaledTen(d, e);
      ScaledTen(d + 1, e);
      ScaledMonotone(10 * d, m, e);
      ScaledMonotone(m + 1, 10 * (d + 1), e);
      ScaledMonotone(4096, m, e);
      q, f := RoundFromAt(x, d, e + 1);
    }
  }

  /** Just above a power of ten times 4096 the next unit is too coarse. */
  ghost predicate InGap(x: nat, k: nat) {
    k <= 13 && Scaled(4096, k) <= x < Scaled(4100, k)
  }

  ghost predicate IsGreatestBelow(r: nat, x: nat) {
    Encodable(r) && r <= x && forall y: nat :: Encodable(y) && y <= x ==> y <= r
  }

  /** Rounding gives the greatest number with a code at or below its input exactly outside the gaps
      [4096 * 10^k, 4100 * 10^k), k up to 13. */
  lemma RoundingIsGreatest(x: nat)
    requires Rounded(x).Some?
    ensures IsGreatestBelow(Rounded(x).value, x) <==> !exists k: nat :: InGap(x, k)
  {
    hide Encode, Strip, Scaled;
    UnitIsOne(x);
    var q, e := RoundFromAt(x, x, 0);
    RoundingIsSafe(x);
    CodeRoundTrip(Rounded(x).value);
    if e == 0 {
      UnitIsOne(q);
      forall k: nat | InGap(x, k)
        ensures false
      {
        ScaledGrows(4096, k);
      }
    } else if q <= 409 {
      InsideGap(x, q, e);
    } else {
      OutsideGaps(x, q, e);
    }
  }

  lemma UnitIsOne(x: nat)
    ensures Scaled(x, 0) == x && Scaled(x + 1, 0) == x + 1
  {
  }

  lemma InsideGap(x: nat, q: nat, e: nat)
    requires RoundsAt(x, q, e) && e > 0 && q <= 409
    ensures InGap(x, e - 1) && !IsGreatestBelow(Scaled(q, e), x)
  {
    hide Scaled;
    ScaledTen(q + 1, e - 1);
    ScaledTen(q, e - 1);
    ScaledMonotone(10 * (q + 1), 4100, e - 1);
    ScaledMonotone(4095, 4096, e - 1);
    ScaledStrict(10 * q, 4095, e - 1);
    assert Encodable(Scaled(4095, e - 1));
  }

  lemma OutsideGaps(x: nat, q: nat, e: nat)
    requires RoundsAt(x, q, e) && e > 0 && q >= 410
    ensures !(exists k: nat :: InGap(x, k)) && IsGreatestBelow(Scaled(q, e), x)
  {
    hide Scaled;
    ScaledTen(410, e - 1);
    ScaledMonotone(410, q, e);
    forall k: nat | InGap(x, k)
      ensures false
    {
      if k < e - 1 {
        ScaledTen(4096, k);
        ScaledMonotone(4100, 40960, k);
        ScaledInExponent(4096, k + 1, e - 1);
      } else if k >= e {
        ScaledInExponent(4096, e, k);
        ScaledMonotone(q + 1, 4096, e);
      }
    }
    assert Encodable(Scaled(q, e));
    forall y: nat | Encodable(y) && y <= x
      ensures y <= Scaled(q, e)
    {
      var m: nat, f: nat :| m <= MANTISSA_MAX && f <= EXPONENT_MAX && y == Scaled(m, f);
      if f < e {
        ScaledInExponent(m, f, e - 1);
        ScaledMonotone(m, 4100, e - 1);
      } else {
        ScaledTwice(m, f - e, e);
        ScaledOrders(Scaled(m, f - e), q + 1, e);
        ScaledMonotone(Scaled(m, f - e), q, e);
      }
    }
  }

  /** The first gap: 4096 goes to 4090, although 4095 has a code. */
  lemma RoundingIsNotGreatest()
    ensures Rounded(4096) == Some(4090) && Encode(4095).Some?
  {
    assert RoundFrom(4096, 0) == RoundFrom(409, 1);
    assert Scaled(409, 1) == 4090;
  }
}
