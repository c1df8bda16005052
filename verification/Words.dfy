/** Machine-word arithmetic shared by the contracts and the client: shifts, low bits, powers of two and the
    wrap-around of 256-bit words.  Shifts recurse on halving, so proofs about tree paths stay linear. */
module Words {
  /** 2^256: SafeMath reverts at it, unchecked `+=` wraps at it. */
  const TWO_256: nat := 0x1_0000_0000_0000_0000_0000_0000_0000_0000_0000_0000_0000_0000_0000_0000_0000_0000

  /** 2^31: the first index on which JavaScript's signed 32-bit shifts go wrong. */
  const TWO_31: nat := 0x8000_0000

  function Pow2(k: nat): (p: nat)
    ensures p > 0
  {
    if k == 0 then 1 else 2 * Pow2(k - 1)
  }

  /** `x >> k`. */
  function Shr(x: nat, k: nat): nat {
    if k == 0 then x else Shr(x, k - 1) / 2
  }

  /** The low `k` bits of `x`: what a Merkle path of `k` steps looks at. */
  function Low(x: nat, k: nat): nat {
    if k == 0 then 0 else 2 * Low(x / 2, k - 1) + x % 2
  }

  lemma {:induction false} ShrHalf(x: nat, k: nat)
    ensures Shr(x / 2, k) == Shr(x, k + 1)
  {
    if k > 0 {
      ShrHalf(x, k - 1);
    }
  }

  lemma {:induction false} ShrShr(x: nat, a: nat, b: nat)
    ensures Shr(x, a + b) == Shr(Shr(x, a), b)
  {
    if b > 0 {
      ShrShr(x, a, b - 1);
    }
  }

  lemma {:induction false} ShrIsDivision(x: nat, k: nat)
    ensures Shr(x, k) == x / Pow2(k)
  {
    if k > 0 {
      ShrIsDivision(x, k - 1);
      var p := Pow2(k - 1);
      assert x / p / 2 == x / (2 * p) by { DivDiv(x, p); }
    }
  }

  lemma DivDiv(x: nat, p: nat)
    requires p > 0
    ensures x / p / 2 == x / (2 * p)
  {
    var y, r := x / p, x % p;
    assert x == p * y + r;
    calc {
      p * y;
      p * (2 * (y / 2) + y % 2);
      p * (2 * (y / 2)) + p * (y % 2);
      (2 * p) * (y / 2) + p * (y % 2);
    }
    assert p * (y % 2) <= p by {
      assert y % 2 == 0 || y % 2 == 1;
    }
    DivUnique(x, 2 * p, y / 2, p * (y % 2) + r);
  }

  lemma DivUnique(x: nat, p: nat, q: nat, r: nat)
    requires p > 0 && r < p && x == p * q + r
    ensures x / p == q && x % p == r
  {
    var q' := x / p;
    assert x == p * q' + x % p;
    if q < q' {
      assert p * q' == p * q + p * (q' - q);
      AtLeast(p, q' - q);
    } else if q' < q {
      assert p * q == p * q' + p * (q - q');
      AtLeast(p, q - q');
    }
  }

  lemma AtLeast(p: nat, k: nat)
    requires k > 0
    ensures p * k >= p
  {
    assert p * k == p * (k - 1) + p;
  }

  lemma {:induction false} ShrZero(x: nat, k: nat)
    ensures Shr(x, k) == 0 <==> x < Pow2(k)
    ensures x < Pow2(k) ==> Low(x, k) == x
  {
    if k > 0 {
      ShrHalf(x, k - 1);
      ShrZero(x / 2, k - 1);
    }
  }

  lemma ShrAtMost(x: nat, k: nat)
    ensures Shr(x, k) <= x
  {
  }

  lemma {:induction false} LowBound(x: nat, k: nat)
    ensures Low(x, k) < Pow2(k)
    ensures Shr(Low(x, k), k) == 0
  {
    if k > 0 {
      LowBound(x / 2, k - 1);
    }
    ShrZero(Low(x, k), k);
  }

  lemma LowTwice(x: nat, k: nat)
    ensures Low(Low(x, k), k) == Low(x, k) && Shr(Low(x, k), k) == 0
  {
    LowBound(x, k);
    ShrZero(Low(x, k), k);
  }

  lemma {:induction false} LowOfLow(x: nat, a: nat, b: nat)
    requires a <= b
    ensures Low(Low(x, b), a) == Low(x, a)
  {
    if a > 0 {
      LowOfLow(x / 2, a - 1, b - 1);
      assert Low(x, b) == 2 * Low(x / 2, b - 1) + x % 2;
    }
  }

  lemma {:induction false} LowIsModulo(x: nat, k: nat)
    ensures Low(x, k) == x % Pow2(k)
  {
    LowSplit(x, k);
    LowBound(x, k);
    DivUnique(x, Pow2(k), Shr(x, k), Low(x, k));
  }

  lemma {:induction false} LowSplit(x: nat, k: nat)
    ensures x == Pow2(k) * Shr(x, k) + Low(x, k)
  {
    if k > 0 {
      LowSplit(x / 2, k - 1);
      ShrHalf(x, k - 1);
      Double(x, x / 2, x % 2, Pow2(k - 1), Shr(x, k), Low(x / 2, k - 1));
    }
  }

  lemma Double(x: nat, y: nat, bit: nat, p: nat, q: nat, low: nat)
    requires x == 2 * y + bit && y == p * q + low
    ensures x == 2 * p * q + (2 * low + bit)
  {
  }

  lemma {:induction false} Pow2Grows(a: nat, b: nat)
    requires a <= b
    ensures Pow2(a) <= Pow2(b)
  {
    if a < b {
      Pow2Grows(a, b - 1);
    }
  }

  lemma {:induction false} LowOfPow2(k: nat)
    ensures Low(Pow2(k), k) == 0
  {
    if k > 0 {
      LowOfPow2(k - 1);
      assert Pow2(k) / 2 == Pow2(k - 1) && Pow2(k) % 2 == 0;
    }
  }

  lemma {:induction false} Pow2Sum(a: nat, b: nat)
    ensures Pow2(a + b) == Pow2(a) * Pow2(b)
  {
    if b > 0 {
      Pow2Sum(a, b - 1);
      assert 2 * (Pow2(a) * Pow2(b - 1)) == Pow2(a) * (2 * Pow2(b - 1));
    }
  }

  lemma Pow2Constants()
    ensures Pow2(31) == 0x8000_0000 && Pow2(32) == 0x1_0000_0000
  {
    assert Pow2(8) == 256;
    Pow2Sum(8, 8);
    Pow2Sum(16, 16);
    assert Pow2(32) == 2 * Pow2(31);
  }

  /** The wrap-around of a 256-bit word is 2^256. */
  lemma WordSize()
    ensures Pow2(256) == TWO_256
  {
    hide Pow2;
    Pow2Constants();
    Pow2Sum(32, 32);
    Pow2Sum(64, 64);
    Pow2Sum(128, 128);
  }

  function Pow256(n: nat): (p: nat)
    ensures p > 0
  {
    if n == 0 then 1 else 256 * Pow256(n - 1)
  }

  /** JavaScript's bit operators work on signed 32-bit integers. */
  function ToInt32(x: int): int {
    (x + 0x8000_0000) % 0x1_0000_0000 - 0x8000_0000
  }

  lemma ToInt32Wraps(x: nat)
    ensures ToInt32(x) == if Low(x, 32) < TWO_31 then Low(x, 32) else Low(x, 32) - Pow2(32)
  {
    hide Low, Pow2;
    LowIsModulo(x, 32);
    Pow2Constants();
    var q, r := x / 0x1_0000_0000, x % 0x1_0000_0000;
    assert x + 0x8000_0000 == 0x1_0000_0000 * q + (r + 0x8000_0000);
    if r < TWO_31 {
      DivUnique(x + 0x8000_0000, 0x1_0000_0000, q, r + 0x8000_0000);
    } else {
      DivUnique(x + 0x8000_0000, 0x1_0000_0000, q + 1, r - 0x8000_0000);
    }
  }
}
