/** Shifts, masks and bit reversal on natural numbers.

    A bit stream is a natural number whose least significant bit comes first, which is
    how section 3.1.1 of RFC 1951 packs bits into bytes.  Huffman codes are packed the
    other way round, most significant bit first; the two orders meet in `Msb`. */
module Bits {

  /** x << k */
  function Shl(x: nat, k: nat): nat
  {
    if k == 0 then x else 2 * Shl(x, k - 1)
  }

  /** x >> k */
  function Shr(x: nat, k: nat): nat
  {
    if k == 0 then x else Shr(x / 2, k - 1)
  }

  /** The low k bits of x, x & ((1 << k) - 1) */
  function Low(x: nat, k: nat): nat
  {
    if k == 0 then 0 else x % 2 + 2 * Low(x / 2, k - 1)
  }

  /** 1 << k */
  function Pow2(k: nat): nat
  {
    Shl(1, k)
  }

  /** The number spelled by the first k bits of stream x, most significant bit first. */
  function Msb(x: nat, k: nat): nat
  {
    if k == 0 then 0 else Shl(x % 2, k - 1) + Msb(x / 2, k - 1)
  }

  lemma {:induction false} LowLow(x: nat, n: nat, m: nat)
    ensures Low(Low(x, m), n) == Low(x, if n <= m then n else m)
  {
    if n > 0 && m > 0 {
      LowLow(x / 2, n - 1, m - 1);
      assert Low(x, m) % 2 == x % 2 && Low(x, m) / 2 == Low(x / 2, m - 1);
    } else if m == 0 {
      LowZero(n);
    }
  }

  lemma {:induction false} LowZero(n: nat)
    ensures Low(0, n) == 0
  {
    if n > 0 {
      LowZero(n - 1);
    }
  }

  // ----- shifting left

  lemma {:induction false} ShlSum(x: nat, y: nat, k: nat)
    ensures Shl(x + y, k) == Shl(x, k) + Shl(y, k)
  {
    if k > 0 {
      ShlSum(x, y, k - 1);
    }
  }

  lemma {:induction false} ShlShl(x: nat, a: nat, b: nat)
    ensures Shl(Shl(x, a), b) == Shl(x, a + b)
  {
    if b > 0 {
      ShlShl(x, a, b - 1);
    }
  }

  lemma {:induction false} ShlIn(x: nat, k: nat)
    ensures Shl(2 * x, k) == 2 * Shl(x, k)
    ensures Shl(0, k) == 0
  {
    if k > 0 {
      ShlIn(x, k - 1);
    }
  }

  lemma {:induction false} ShlMono(x: nat, y: nat, k: nat)
    ensures x <= y ==> Shl(x, k) <= Shl(y, k)
    ensures x < y ==> Shl(x, k) + Pow2(k) <= Shl(y, k)
    ensures x <= Shl(x, k) && 0 < Pow2(k)
  {
    if k > 0 {
      ShlMono(x, y, k - 1);
    }
  }

  lemma Pow2Mono(a: nat, b: nat)
    requires a <= b
    ensures 0 < Pow2(a) <= Pow2(b)
    ensures a < b ==> 2 * Pow2(a) <= Pow2(b)
  {
    ShlMono(1, 1, a);
    if a < b {
      ShlShl(1, a + 1, b - a - 1);
      ShlMono(Pow2(a + 1), Pow2(a + 1), b - a - 1);
    }
  }

  lemma Powers()
    ensures Pow2(0) == 1 && Pow2(5) == 32 && Pow2(6) == 64 && Pow2(7) == 128 && Pow2(8) == 256 && Pow2(9) == 512
    ensures Pow2(10) == 1024 && Pow2(11) == 2048 && Pow2(12) == 4096 && Pow2(13) == 8192 && Pow2(14) == 16384
    ensures Pow2(15) == 32768
  {
    assert Pow2(2) == 4 && Pow2(4) == 16;
    assert Pow2(6) == 64;
    assert Pow2(8) == 256;
    assert Pow2(10) == 1024;
    assert Pow2(12) == 4096;
    assert Pow2(14) == 16384;
  }

  // ----- a number is its high part and its low part

  lemma {:induction false} Split(x: nat, k: nat)
    ensures x == Shl(Shr(x, k), k) + Low(x, k)
    ensures Low(x, k) < Pow2(k)
  {
    if k > 0 {
      Split(x / 2, k - 1);
    }
  }

  lemma {:induction false} Unique(x: nat, q: nat, k: nat, r: nat)
    requires x == Shl(q, k) + r && r < Pow2(k)
    ensures Shr(x, k) == q && Low(x, k) == r
  {
    if k > 0 {
      assert x / 2 == Shl(q, k - 1) + r / 2;
      Unique(x / 2, q, k - 1, r / 2);
    }
  }

  lemma Small(x: nat, k: nat)
    requires x < Pow2(k)
    ensures Shr(x, k) == 0 && Low(x, k) == x
  {
    ShlIn(0, k);
    Unique(x, 0, k, x);
  }

  lemma {:induction false} ShrShr(x: nat, a: nat, b: nat)
    ensures Shr(x, a + b) == Shr(Shr(x, a), b)
    ensures Low(x, a + b) == Low(x, a) + Shl(Low(Shr(x, a), b), a)
  {
    if a > 0 {
      ShrShr(x / 2, a - 1, b);
    }
  }

  lemma ShrMono(x: nat, y: nat, k: nat)
    requires x <= y
    ensures Shr(x, k) <= Shr(y, k) <= y
  {
    Split(x, k);
    Split(y, k);
    ShlMono(Shr(y, k), Shr(x, k), k);
    ShlMono(Shr(y, k), Shr(y, k), k);
  }

  lemma ShrShl(x: nat, k: nat)
    ensures Shr(Shl(x, k), k) == x && Low(Shl(x, k), k) == 0
  {
    ShlMono(0, 0, k);
    Unique(Shl(x, k), x, k, 0);
  }

  /** Comparing after a shift to the left is comparing the high parts. */
  lemma ShrLess(x: nat, y: nat, k: nat)
    ensures x < Shl(y, k) <==> Shr(x, k) < y
  {
    Split(x, k);
    ShlMono(Shr(x, k), y, k);
    ShlMono(y, Shr(x, k), k);
  }

  // ----- reading most significant bit first

  lemma {:induction false} MsbBound(x: nat, k: nat)
    ensures Msb(x, k) < Pow2(k)
  {
    if k > 0 {
      MsbBound(x / 2, k - 1);
      ShlMono(x % 2, 1, k - 1);
    } 
  }

  /** Reading w bits and then j bits: the first w stand above the next j. */
  lemma {:induction false} MsbSplit(x: nat, w: nat, j: nat)
    ensures Msb(x, w + j) == Shl(Msb(x, w), j) + Msb(Shr(x, w), j)
  {
    if w == 0 {
      ShlIn(0, j);
    } else {
      MsbSplit(x / 2, w - 1, j);
      ShlShl(x % 2, w - 1, j);
      ShlSum(Shl(x % 2, w - 1), Msb(x / 2, w - 1), j);
    }
  }

  /** Dropping the tail of a bit string shifts its value to the right. */
  lemma MsbPrefix(x: nat, w: nat, k: nat)
    requires w <= k
    ensures Shr(Msb(x, k), k - w) == Msb(x, w)
    ensures Low(Msb(x, k), k - w) == Msb(Shr(x, w), k - w)
  {
    MsbSplit(x, w, k - w);
    MsbBound(Shr(x, w), k - w);
    Unique(Msb(x, k), Msb(x, w), k - w, Msb(Shr(x, w), k - w));
  }

  /** Msb looks at k bits only. */
  lemma {:induction false} MsbLow(x: nat, y: nat, k: nat)
    requires Low(x, k) == Low(y, k)
    ensures Msb(x, k) == Msb(y, k)
  {
    if k > 0 {
      MsbLow(x / 2, y / 2, k - 1);
    }
  }

  lemma MsbSnoc(x: nat, k: nat)
    ensures Msb(x, k + 1) == 2 * Msb(x, k) + Shr(x, k) % 2
  {
    MsbSplit(x, k, 1);
    assert Msb(Shr(x, k), 1) == Shl(Shr(x, k) % 2, 0) + Msb(Shr(x, k) / 2, 0);
    assert Shl(Msb(x, k), 1) == 2 * Shl(Msb(x, k), 0);
  }

  /** Reversing twice gives back the low k bits. */
  lemma {:induction false} MsbMsb(x: nat, k: nat)
    ensures Msb(Msb(x, k), k) == Low(x, k)
  {
    if k > 0 {
      var h, y := x % 2, Msb(x / 2, k - 1);
      MsbMsb(x / 2, k - 1);
      MsbBound(x / 2, k - 1);
      MsbSnoc(Msb(x, k), k - 1);
      Unique(Msb(x, k), h, k - 1, y);
      Small(y, k - 1);
      MsbLow(Msb(x, k), y, k - 1);
    }
  }

  lemma MsbInjective(x: nat, y: nat, k: nat)
    requires x < Pow2(k) && y < Pow2(k) && Msb(x, k) == Msb(y, k)
    ensures x == y
  {
    MsbMsb(x, k);
    MsbMsb(y, k);
    Small(x, k);
    Small(y, k);
  }

  lemma MsbDouble(x: nat, k: nat)
    ensures Msb(2 * x, k + 1) == Msb(x, k)
  {
    ShlIn(0, k);
  }

  /** Of a reversed k-bit string, the low w bits are its reversed top w bits, and what is
      left above them is its reversed low k-w bits. */
  lemma MsbParts(x: nat, k: nat, w: nat)
    requires w <= k
    ensures Low(Msb(x, k), w) == Msb(Shr(x, k - w), w)
    ensures Shr(Msb(x, k), w) == Msb(x, k - w)
  {
    MsbPrefix(x, k - w, k);
  }
}
