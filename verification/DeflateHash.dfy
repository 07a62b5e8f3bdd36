/** The rolling hash of deflate.c (UPDATE_HASH). */
module DeflateHash {
  import opened Bits
  import opened Sequences
  import opened Zlib

  const MIN_MATCH := 3

  /** x ^ y */
  function Xor(x: nat, y: nat): nat
    decreases x + y
  {
    if x == 0 then y
    else if y == 0 then x
    else (if x % 2 == y % 2 then 0 else 1) + 2 * Xor(x / 2, y / 2)
  }

  lemma {:induction false} XorBit(x: nat, y: nat)
    ensures Xor(x, y) % 2 == (if x % 2 == y % 2 then 0 else 1)
    ensures Xor(x, y) / 2 == Xor(x / 2, y / 2)
  {
    if x > 0 && y > 0 {
      Digit(if x % 2 == y % 2 then 0 else 1, Xor(x / 2, y / 2));
    }
  }

  lemma Digit(b: nat, n: nat)
    requires b <= 1
    ensures (b + 2 * n) % 2 == b && (b + 2 * n) / 2 == n
  {
  }

  /** Masking and exclusive or commute. */
  lemma {:induction false} XorLow(x: nat, y: nat, k: nat)
    ensures Low(Xor(x, y), k) == Xor(Low(x, k), Low(y, k))
  {
    if k > 0 {
      hide Xor;
      var u, v := Low(x, k), Low(y, k);
      assert u % 2 == x % 2 && u / 2 == Low(x / 2, k - 1);
      assert v % 2 == y % 2 && v / 2 == Low(y / 2, k - 1);
      XorBit(x, y);
      XorLow(x / 2, y / 2, k - 1);
      XorBit(u, v);
    }
  }

  lemma {:induction false} XorCancel(p: nat, x: nat, y: nat, k: nat)
    requires Low(Xor(p, x), k) == Low(Xor(p, y), k)
    ensures Low(x, k) == Low(y, k)
  {
    if k > 0 {
      XorBit(p, x);
      XorBit(p, y);
      XorCancel(p / 2, x / 2, y / 2, k - 1);
    }
  }

  /** hash_bits and hash_shift: after MIN_MATCH steps a byte has left the hash. */
  predicate HashParams(bits: nat, shift: nat)
  {
    8 <= bits <= 16 && shift == (bits + MIN_MATCH - 1) / MIN_MATCH
  }

  /** UPDATE_HASH */
  function Update(h: nat, c: byte, bits: nat, shift: nat): nat
  {
    Low(Xor(Shl(h, shift), c), bits)
  }

  /** The hash of three bytes, as computed from scratch. */
  function Hash3(a: byte, b: byte, c: byte, bits: nat, shift: nat): nat
  {
    Update(Update(a, b, bits, shift), c, bits, shift)
  }

  lemma {:induction false} LowShl(h: nat, s: nat, k: nat)
    ensures Low(Shl(h, s), s + k) == Shl(Low(h, k), s)
  {
    if s > 0 {
      LowShl(h, s - 1, k);
    }
  }

  /** Hashes that agree in their low m bits agree in `shift` more after an update. */
  lemma Agree(h: nat, h': nat, c: byte, m: nat, bits: nat, shift: nat)
    requires Low(h, m) == Low(h', m)
    ensures Low(Update(h, c, bits, shift), Min(m + shift, bits)) ==
      Low(Update(h', c, bits, shift), Min(m + shift, bits))
  {
    var k := Min(m + shift, bits);
    LowLow(Xor(Shl(h, shift), c), k, bits);
    LowLow(Xor(Shl(h', shift), c), k, bits);
    LowShl(h, shift, m);
    LowShl(h', shift, m);
    LowLow(Shl(h, shift), k, shift + m);
    LowLow(Shl(h', shift), k, shift + m);
    XorLow(Shl(h, shift), c, k);
    XorLow(Shl(h', shift), c, k);
  }

  /** h is a running hash into which a and then b went last. */
  ghost predicate Ready(h: nat, a: byte, b: byte, bits: nat, shift: nat)
  {
    Low(h, Min(2 * shift, bits)) == Low(Update(a, b, bits, shift), Min(2 * shift, bits))
  }

  lemma {:induction false} LowBelow(h: nat, bits: nat)
    ensures Low(h, bits) < Pow2(bits) && Low(Low(h, bits), bits) == Low(h, bits)
  {
    Split(h, bits);
    LowLow(h, bits, bits);
  }

  /** A running hash forgets all but the last three bytes. */
  lemma Rolls(h: nat, a: byte, b: byte, c: byte, bits: nat, shift: nat)
    requires HashParams(bits, shift) && Ready(h, a, b, bits, shift)
    ensures Update(h, c, bits, shift) == Hash3(a, b, c, bits, shift) < Pow2(bits)
    ensures Ready(Update(h, c, bits, shift), b, c, bits, shift)
  {
    var g := Update(a, b, bits, shift);
    var m := Min(2 * shift, bits);
    Agree(h, g, c, m, bits, shift);
    LowBelow(Xor(Shl(h, shift), c), bits);
    LowBelow(Xor(Shl(g, shift), c), bits);
    assert Low(a, 0) == Low(0, 0);
    Agree(a, 0, b, 0, bits, shift);
    FromZero(b, bits, shift);
    Agree(g, b, c, Min(shift, bits), bits, shift);
  }

  lemma FromZero(b: byte, bits: nat, shift: nat)
    requires 8 <= bits
    ensures Update(0, b, bits, shift) == b
  {
    ShlIn(0, shift);
    ByteFits(b, bits);
  }

  lemma ByteFits(b: byte, bits: nat)
    requires 8 <= bits
    ensures Low(b, bits) == b
  {
    assert Pow2(8) == 256 by { assert Pow2(4) == 16; }
    Pow2Mono(8, bits);
    Small(b, bits);
  }

  /** A hash computed from two bytes is ready for the third. */
  lemma FreshIsReady(a: byte, b: byte, bits: nat, shift: nat)
    ensures Ready(Update(a, b, bits, shift), a, b, bits, shift)
  {
  }

  /** Strings with equal hashes that agree in their first two bytes agree in the third. */
  lemma ThirdByte(a: byte, b: byte, c: byte, c': byte, bits: nat, shift: nat)
    requires 8 <= bits && Hash3(a, b, c, bits, shift) == Hash3(a, b, c', bits, shift)
    ensures c == c'
  {
    XorCancel(Shl(Update(a, b, bits, shift), shift), c, c', bits);
    ByteFits(c, bits);
    ByteFits(c', bits);
  }

  /** With fewer than 8 hash bits two third bytes always have the same hash. */
  lemma ShortHash(a: byte, b: byte, bits: nat, shift: nat)
    requires bits < 8
    ensures 0 < Pow2(bits) <= 128 && Hash3(a, b, 0, bits, shift) == Hash3(a, b, Pow2(bits), bits, shift)
  {
    var p := Shl(Update(a, b, bits, shift), shift);
    Pow2Mono(bits, 7);
    assert Pow2(7) == 128 by { assert Pow2(3) == 8; }
    XorLow(p, 0, bits);
    XorLow(p, Pow2(bits), bits);
    ShrShl(1, bits);
    LowZero(bits);
  }

  /** Equal hashes and two equal bytes force the third byte. */
  ghost predicate ThirdForced(bits: nat, shift: nat)
  {
    forall a: byte, b: byte, c: byte, c': byte ::
      Hash3(a, b, c, bits, shift) == Hash3(a, b, c', bits, shift) ==> c == c'
  }

  /** So it need not be compared exactly if hashes have 8 bits at least. */
  lemma ThirdByteExactly(bits: nat, shift: nat)
    ensures ThirdForced(bits, shift) <==> 8 <= bits
  {
    if bits < 8 {
      ShortHash(1, 1, bits, shift);
      var c: byte := Pow2(bits);
      assert Hash3(1, 1, 0, bits, shift) == Hash3(1, 1, c, bits, shift) && c != 0;
    } else {
      forall a: byte, b: byte, c: byte, c': byte | Hash3(a, b, c, bits, shift) == Hash3(a, b, c', bits, shift)
        ensures c == c'
      {
        ThirdByte(a, b, c, c', bits, shift);
      }
    }
  }
}
