/** Bits as the writer produces them, and the same bits as the decoder finds them in a stream. */
module FormatBits {
  import opened Bits
  import opened BitInput
  import opened Zlib
  import opened Format

  lemma {:induction false} PowerIs(k: nat)
    ensures Power(k) == Pow2(k)
  {
    if k > 0 {
      PowerIs(k - 1);
    }
  }

  lemma {:induction false} ValueConcat(a: BitSeq, b: BitSeq)
    ensures Value(a + b) == Value(a) + Shl(Value(b), |a|)
  {
    if a == [] {
      assert a + b == b;
    } else {
      assert (a + b)[1..] == a[1..] + b;
      ValueConcat(a[1..], b);
    }
  }

  lemma ValueSmall(b: BitSeq)
    ensures Value(b) < Pow2(|b|)
  {
    ValueBound(b);
    PowerIs(|b|);
  }

  lemma {:induction false} ValueNumber(x: nat, n: nat)
    ensures Value(Number(x, n)) == Low(x, n)
  {
    if n > 0 {
      ValueNumber(x / 2, n - 1);
      assert Number(x, n)[1..] == Number(x / 2, n - 1);
    }
  }

  lemma {:induction false} ValueCode(c: nat, n: nat)
    ensures Value(Code(c, n)) == Msb(c, n)
  {
    if n > 0 {
      ValueCode(c / 2, n - 1);
      ValueConcat(Code(c / 2, n - 1), [c % 2 == 1]);
      assert Value([c % 2 == 1]) == c % 2;
    }
  }

  // ----- bits in a stream

  /** These bits are in the stream from bit pos on. */
  ghost predicate At(I: seq<byte>, pos: nat, b: BitSeq)
  {
    Low(From(I, pos), |b|) == Value(b)
  }

  lemma AtParts(I: seq<byte>, pos: nat, a: BitSeq, b: BitSeq)
    ensures At(I, pos, a + b) <==> At(I, pos, a) && At(I, pos + |a|, b)
  {
    var X := From(I, pos);
    ShrShr(X, |a|, |b|);
    ValueConcat(a, b);
    FromFrom(I, pos, |a|);
    Split(X, |a|);
    ValueSmall(a);
    var low, high := Low(X, |a|), Low(Shr(X, |a|), |b|);
    if At(I, pos, a + b) {
      Unique(low + Shl(high, |a|), high, |a|, low);
      Unique(low + Shl(high, |a|), Value(b), |a|, Value(a));
    }
  }

  lemma AtNumber(I: seq<byte>, pos: nat, x: nat, n: nat)
    requires At(I, pos, Number(x, n)) && x < Power(n)
    ensures Low(From(I, pos), n) == x
  {
    ValueNumber(x, n);
    PowerIs(n);
    Small(x, n);
  }

  lemma AtCode(I: seq<byte>, pos: nat, c: nat, n: nat)
    requires At(I, pos, Code(c, n)) && c < Pow2(n)
    ensures Msb(From(I, pos), n) == c
  {
    ValueCode(c, n);
    MsbBound(c, n);
    Small(Msb(c, n), n);
    MsbLow(From(I, pos), Msb(c, n), n);
    MsbMsb(c, n);
    Small(c, n);
  }

  // ----- bytes

  lemma StreamCons(I: seq<byte>)
    requires I != []
    ensures StreamOf(I) == I[0] + Shl(StreamOf(I[1..]), 8) && I[0] < Pow2(8)
  {
    Times256(StreamOf(I[1..]));
    Bits.Powers();
  }

  lemma {:induction false} FromBehind(h: seq<byte>, J: seq<byte>, pos: nat)
    ensures From(h + J, 8 * |h| + pos) == From(J, pos)
  {
    if h == [] {
      assert h + J == J;
    } else {
      var I := h + J;
      StreamCons(I);
      assert I[1..] == h[1..] + J;
      Unique(StreamOf(I), StreamOf(I[1..]), 8, I[0]);
      ShrShr(StreamOf(I), 8, 8 * (|h| - 1) + pos);
      FromBehind(h[1..], J, pos);
    }
  }

  lemma AtBehind(h: seq<byte>, J: seq<byte>, pos: nat, b: BitSeq)
    ensures At(h + J, 8 * |h| + pos, b) <==> At(J, pos, b)
  {
    FromBehind(h, J, pos);
  }

  lemma AtByte(x: byte, J: seq<byte>, b: BitSeq)
    requires |b| <= 8 && Value(b) == x
    ensures At([x] + J, 0, b)
  {
    var I := [x] + J;
    StreamCons(I);
    Unique(StreamOf(I), StreamOf(I[1..]), 8, x);
    ValueSmall(b);
    LowLow(StreamOf(I), |b|, 8);
    Small(x, |b|);
  }

  /** The bits packed are in the stream, whatever comes behind. */
  lemma {:induction false} PackedAt(b: BitSeq, more: seq<byte>)
    ensures At(Pack(b) + more, 0, b)
    decreases |b|
  {
    if b == [] {
      assert Low(From(Pack(b) + more, 0), 0) == 0;
    } else if |b| <= 8 {
      ByteSize(b);
      AtByte(Value(b), more, b);
    } else {
      var first, rest := b[..8], b[8..];
      ByteSize(first);
      PackedAt(rest, more);
      var J := Pack(rest) + more;
      assert Pack(b) + more == [Value(first)] + J;
      AtByte(Value(first), J, first);
      AtBehind([Value(first)], J, 0, rest);
      AtParts([Value(first)] + J, 0, first, rest);
      assert b == first + rest;
    }
  }

  /** Whole bytes in a stream. */
  lemma {:induction false} BytesAt(I: seq<byte>, p: nat, s: seq<byte>)
    requires p + |s| <= |I| && I[p..p + |s|] == s
    ensures At(I, 8 * p, BytesBits(s))
    decreases |s|
  {
    if s == [] {
      assert Low(From(I, 8 * p), 0) == 0;
    } else {
      assert s[0] == I[p];
      ByteAt(I, p);
      ValueNumber(s[0], 8);
      Bits.Powers();
      Small(s[0], 8);
      assert I[p + 1..p + 1 + |s[1..]|] == s[1..];
      BytesAt(I, p + 1, s[1..]);
      AtParts(I, 8 * p, Number(s[0], 8), BytesBits(s[1..]));
    }
  }

  lemma {:induction false} ByteFound(I: seq<byte>, pos: nat, s: seq<byte>, k: nat)
    requires At(I, pos, BytesBits(s)) && k < |s|
    ensures Low(From(I, pos + 8 * k), 8) == s[k]
    decreases k
  {
    AtParts(I, pos, Number(s[0], 8), BytesBits(s[1..]));
    if k == 0 {
      Format.Powers();
      AtNumber(I, pos, s[0], 8);
    } else {
      ByteFound(I, pos + 8, s[1..], k - 1);
    }
  }

  lemma {:induction false} NumberParts(x: nat, m: nat, n: nat)
    ensures Number(x, m + n) == Number(x, m) + Number(Shr(x, m), n)
  {
    if m > 0 {
      NumberParts(x / 2, m - 1, n);
    }
  }
}
