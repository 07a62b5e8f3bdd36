/** crc32.c: the checksum with its table and unrolled loop, against the division of polynomials over
    GF(2) that section 8 of RFC 1952 prescribes.

    A register holds the coefficients of x^31 to x^0, the highest in the lowest bit. */
module Crc32 {
  import opened Options
  import opened Sequences

  type Register = bv32

  /** x^32 modulo the polynomial. */
  const POLY: Register := 0xedb88320

  // ----- division

  /** The sum of two polynomials. */
  function Add(x: Register, y: Register): Register
  {
    x ^ y
  }

  /** The coefficient of x^0. */
  function Last(bit: bool): Register
  {
    if bit then 0x8000_0000 else 0
  }

  /** The register times x modulo the polynomial. */
  function Shift(c: Register): Register
  {
    if c & 1 == 1 then Add(POLY, c >> 1) else c >> 1
  }

  /** Long division: the remainder of the polynomial whose coefficients are those in w and then
      those in `rest`.  In each step the leading coefficient goes, by subtracting the divisor if it
      is 1, and the next one is brought down. */
  function Remainder(w: Register, rest: seq<bool>): Register
  {
    if rest == [] then w else Add(Shift(Remainder(w, rest[..|rest| - 1])), Last(rest[|rest| - 1]))
  }

  /** The sum of two polynomials, written with equally many coefficients. */
  function Plus(a: seq<bool>, b: seq<bool>): (s: seq<bool>)
    requires |a| == |b|
    ensures |s| == |a| && forall i :: 0 <= i < |s| ==> s[i] == (a[i] != b[i])
  {
    seq(|a|, i requires 0 <= i < |a| => a[i] != b[i])
  }

  lemma XorLow(x: Register, y: Register)
    ensures ((x ^ y) & 1) == (x & 1) ^ (y & 1) && (x & 1 == 0 || x & 1 == 1) && (y & 1 == 0 || y & 1 == 1)
  {
  }

  lemma XorHalf(x: Register, y: Register)
    ensures (x ^ y) >> 1 == (x >> 1) ^ (y >> 1)
  {
  }

  lemma Xors(a: Register, b: Register, c: Register)
    ensures a ^ (b ^ c) == (a ^ b) ^ c == b ^ (a ^ c)
    ensures (a ^ b) ^ (a ^ c) == b ^ c
    ensures 0 ^ a == a == a ^ 0 && a ^ a == 0 && a ^ b == b ^ a
  {
  }

  lemma AddIs(x: Register, y: Register)
    ensures Add(x, y) == x ^ y
  {
  }

  lemma Low(x: Register, y: Register)
    ensures (Add(x, y) & 1 == 1) <==> ((x & 1 == 1) != (y & 1 == 1))
  {
    hide Add;
    AddIs(x, y);
    XorLow(x, y);
  }

  lemma Half(x: Register, y: Register)
    ensures Add(x, y) >> 1 == Add(x >> 1, y >> 1)
  {
    hide Add;
    AddIs(x, y);
    AddIs(x >> 1, y >> 1);
    XorHalf(x, y);
  }

  lemma Sums(p: Register, x: Register, y: Register)
    ensures Add(p, Add(x, y)) == Add(Add(p, x), y) == Add(x, Add(p, y))
    ensures Add(Add(p, x), Add(p, y)) == Add(x, y)
    ensures Add(0, x) == x == Add(x, 0) && Add(x, x) == 0 && Add(x, y) == Add(y, x)
  {
    Xors(p, x, y);
    Xors(x, y, 0);
  }

  lemma FourSums(a: Register, b: Register, c: Register, d: Register)
    ensures Add(Add(a, b), Add(c, d)) == Add(Add(a, c), Add(b, d))
  {
    hide Add;
    Sums(Add(a, b), c, d);
    Sums(Add(a, c), b, d);
    Sums(a, b, c);
    Sums(a, c, b);
    Sums(c, b, 0);
  }

  lemma ShiftLinear(x: Register, y: Register)
    ensures Shift(Add(x, y)) == Add(Shift(x), Shift(y))
  {
    hide Add;
    Low(x, y);
    Half(x, y);
    Sums(POLY, x >> 1, y >> 1);
  }

  lemma LastLinear(a: bool, b: bool)
    ensures Last(a != b) == Add(Last(a), Last(b))
  {
  }

  lemma RemainderSnoc(w: Register, a: seq<bool>, bit: bool)
    ensures Remainder(w, a + [bit]) == Add(Shift(Remainder(w, a)), Last(bit))
  {
    hide Add, Shift, Last;
    assert (a + [bit])[..|a|] == a;
  }

  /** The remainder of a sum is the sum of the remainders. */
  lemma {:induction false} RemainderLinear(v: Register, w: Register, a: seq<bool>, b: seq<bool>)
    requires |a| == |b|
    ensures Remainder(Add(v, w), Plus(a, b)) == Add(Remainder(v, a), Remainder(w, b))
  {
    hide Add, Shift, Last;
    if a != [] {
      var k := |a| - 1;
      RemainderLinear(v, w, a[..k], b[..k]);
      LinearStep(v, w, a[..k], a[k], b[..k], b[k]);
      assert a == a[..k] + [a[k]] && b == b[..k] + [b[k]];
    }
  }

  lemma LinearStep(v: Register, w: Register, a: seq<bool>, x: bool, b: seq<bool>, y: bool)
    requires |a| == |b| && Remainder(Add(v, w), Plus(a, b)) == Add(Remainder(v, a), Remainder(w, b))
    ensures Remainder(Add(v, w), Plus(a + [x], b + [y])) == Add(Remainder(v, a + [x]), Remainder(w, b + [y]))
  {
    hide Add, Shift, Last, Remainder;
    var p, q := Remainder(v, a), Remainder(w, b);
    RemainderSnoc(v, a, x);
    RemainderSnoc(w, b, y);
    RemainderSnoc(Add(v, w), Plus(a, b), x != y);
    assert Plus(a + [x], b + [y]) == Plus(a, b) + [x != y];
    ShiftLinear(p, q);
    LastLinear(x, y);
    FourSums(Shift(p), Shift(q), Last(x), Last(y));
  }

  // ----- the register bit by bit

  /** Every bit of the message enters at the leading coefficient. */
  function StepBit(c: Register, bit: bool): Register
  {
    Shift(Add(c, if bit then 1 else 0))
  }

  function Serial(c: Register, bits: seq<bool>): Register
  {
    if bits == [] then c else StepBit(Serial(c, bits[..|bits| - 1]), bits[|bits| - 1])
  }

  lemma SerialSnoc(c: Register, bits: seq<bool>, m: bool)
    ensures Serial(c, bits + [m]) == StepBit(Serial(c, bits), m)
  {
    hide StepBit;
    assert (bits + [m])[..|bits|] == bits;
  }

  lemma {:induction false} SerialPlus(c: Register, a: seq<bool>, b: seq<bool>)
    ensures Serial(c, a + b) == Serial(Serial(c, a), b)
  {
    hide StepBit;
    if b == [] {
      assert a + b == a;
    } else {
      SerialPlus(c, a, b[..|b| - 1]);
      assert (a + b)[..|a + b| - 1] == a + b[..|b| - 1];
    }
  }

  /** The remainders of x^0, x^1 and so on. */
  function Power(k: nat): Register
  {
    if k == 0 then Last(true) else Shift(Power(k - 1))
  }

  lemma PowerOf32()
    ensures Power(32) == POLY
  {
    assert Power(8) == 0x80_0000;
    assert Power(16) == 0x8000;
    assert Power(24) == 0x80;
    assert Power(31) == 1;
  }

  lemma OfZero()
    ensures Shift(0) == 0 && Last(false) == 0
  {
  }

  lemma {:induction false} NoRemainder(n: nat)
    ensures Remainder(0, Repeat(false, n)) == 0
  {
    hide Shift, Last, Add;
    OfZero();
    Sums(0, 0, 0);
    if n > 0 {
      NoRemainder(n - 1);
      assert Repeat(false, n) == Repeat(false, n - 1) + [false];
      RemainderSnoc(0, Repeat(false, n - 1), false);
    }
  }

  lemma {:induction false} OneBit(n: nat, bit: bool, k: nat)
    ensures Remainder(0, Repeat(false, n) + [bit] + Repeat(false, k)) == if bit then Power(k) else 0
  {
    hide Shift, Last, Add, Remainder;
    OfZero();
    if k == 0 {
      NoRemainder(n);
      assert Repeat(false, n) + [bit] + Repeat(false, 0) == Repeat(false, n) + [bit];
      RemainderSnoc(0, Repeat(false, n), bit);
      Sums(0, Last(bit), 0);
    } else {
      OneBit(n, bit, k - 1);
      assert Repeat(false, n) + [bit] + Repeat(false, k) == Repeat(false, n) + [bit] + Repeat(false, k - 1) + [false];
      RemainderSnoc(0, Repeat(false, n) + [bit] + Repeat(false, k - 1), false);
      Sums(0, Shift(if bit then Power(k - 1) else 0), 0);
    }
  }

  /** The shift register, started with c, computes the remainder of the message times x^32 plus c
      times x to the number of message bits. */
  lemma {:induction false} SerialIsDivision(c: Register, bits: seq<bool>)
    ensures Serial(c, bits) == Add(Remainder(c, Repeat(false, |bits|)), Remainder(0, bits + Repeat(false, 32)))
  {
    hide Add, StepBit, Shift, Last;
    if bits == [] {
      NoRemainder(32);
      assert bits + Repeat(false, 32) == Repeat(false, 32);
      Sums(0, c, 0);
    } else {
      var k := |bits| - 1;
      SerialIsDivision(c, bits[..k]);
      assert bits == bits[..k] + [bits[k]];
      DivisionStep(c, bits[..k], bits[k]);
    }
  }

  lemma DivisionStep(c: Register, bits: seq<bool>, m: bool)
    requires Serial(c, bits) == Add(Remainder(c, Repeat(false, |bits|)), Remainder(0, bits + Repeat(false, 32)))
    ensures Serial(c, bits + [m]) ==
      Add(Remainder(c, Repeat(false, |bits| + 1)), Remainder(0, bits + [m] + Repeat(false, 32)))
  {
    hide Add, Shift, Last, Remainder, Serial, Power, StepBit;
    var n := |bits|;
    var p, q := Remainder(c, Repeat(false, n)), Remainder(0, bits + Repeat(false, 32));
    var r: Register := if m then POLY else 0;
    SerialSnoc(c, bits, m);
    OfZero();
    Sums(0, 0, 0);
    Sums(0, Shift(p), 0);
    Sums(0, Shift(q), 0);
    assert Repeat(false, n + 1) == Repeat(false, n) + [false];
    RemainderSnoc(c, Repeat(false, n), false);
    // the dividend is the old one times x plus the new bit times x^32
    assert Plus(bits + Repeat(false, 32) + [false], Repeat(false, n) + [m] + Repeat(false, 32)) ==
      bits + [m] + Repeat(false, 32);
    RemainderLinear(0, 0, bits + Repeat(false, 32) + [false], Repeat(false, n) + [m] + Repeat(false, 32));
    RemainderSnoc(0, bits + Repeat(false, 32), false);
    OneBit(n, m, 32);
    PowerOf32();
    assert Remainder(0, bits + [m] + Repeat(false, 32)) == Add(Shift(q), r);
    StepSum(Add(p, q), m);
    ShiftLinear(p, q);
    Sums(Shift(p), Shift(q), r);
  }

  lemma StepSum(x: Register, m: bool)
    ensures StepBit(x, m) == Add(Shift(x), if m then POLY else 0)
  {
    hide Add, Shift;
    ShiftLinear(x, if m then 1 else 0);
    ShiftOne();
    OfZero();
  }

  lemma ShiftOne()
    ensures Shift(1) == POLY
  {
  }

  // ----- bytes and the table

  type Byte = bv8

  /** The bits of a byte as the checksum takes them, the lowest first. */
  function BitsOf(b: Byte): (bits: seq<bool>)
    ensures |bits| == 8
  {
    [b & 1 != 0, b & 2 != 0, b & 4 != 0, b & 8 != 0, b & 16 != 0, b & 32 != 0, b & 64 != 0, b & 128 != 0]
  }

  function Bits(buf: seq<Byte>): seq<bool>
  {
    if buf == [] then [] else Bits(buf[..|buf| - 1]) + BitsOf(buf[|buf| - 1])
  }

  lemma {:induction false} BitsPlus(a: seq<Byte>, b: seq<Byte>)
    ensures Bits(a + b) == Bits(a) + Bits(b)
  {
    hide BitsOf;
    if b == [] {
      assert a + b == a;
    } else {
      BitsPlus(a, b[..|b| - 1]);
      assert (a + b)[..|a + b| - 1] == a + b[..|b| - 1];
    }
  }

  function Shift8(c: Register): Register
  {
    Shift(Shift(Shift(Shift(Shift(Shift(Shift(Shift(c))))))))
  }

  /** The upper three bytes only move; so a table for the lowest one is enough. */
  lemma TableStep(c: Register)
    ensures Shift8(c) == Add(Shift8(c & 0xff), c >> 8)
  {
    hide Add, Shift;
    var high := c & 0xffff_ff00;
    assert (c & 0xff) ^ high == c;
    AddIs(c & 0xff, high);
    HighOnly(c);
    Shift8Linear(c & 0xff, high);
  }

  /** The entries of crc_table for the single bits; by Shift8Linear they settle all others. */
  lemma KnownEntries()
    ensures Shift8(0x01) == 0x77073096 && Shift8(0x02) == 0xee0e612c
    ensures Shift8(0x04) == 0x076dc419 && Shift8(0x08) == 0x0edb8832
    ensures Shift8(0x10) == 0x1db71064 && Shift8(0x20) == 0x3b6e20c8
    ensures Shift8(0x40) == 0x76dc4190 && Shift8(0x80) == 0xedb88320
  {
  }

  lemma ShiftEven(c: Register)
    requires c & 1 == 0
    ensures Shift(c) == c >> 1
  {
  }

  /** A register whose lowest byte is zero is only moved. */
  lemma HighOnly(c: Register)
    ensures Shift8(c & 0xffff_ff00) == c >> 8
  {
    hide Shift;
    var h0 := c & 0xffff_ff00;
    ShiftEven(h0);
    var h1 := Shift(h0);
    ShiftEven(h1);
    var h2 := Shift(h1);
    ShiftEven(h2);
    var h3 := Shift(h2);
    ShiftEven(h3);
    var h4 := Shift(h3);
    ShiftEven(h4);
    var h5 := Shift(h4);
    ShiftEven(h5);
    var h6 := Shift(h5);
    ShiftEven(h6);
    ShiftEven(Shift(h6));
  }

  lemma Shift8Linear(x: Register, y: Register)
    ensures Shift8(Add(x, y)) == Add(Shift8(x), Shift8(y))
  {
    hide Add, Shift;
    ShiftLinear(x, y);
    var x1, y1 := Shift(x), Shift(y);
    ShiftLinear(x1, y1);
    var x2, y2 := Shift(x1), Shift(y1);
    ShiftLinear(x2, y2);
    var x3, y3 := Shift(x2), Shift(y2);
    ShiftLinear(x3, y3);
    var x4, y4 := Shift(x3), Shift(y3);
    ShiftLinear(x4, y4);
    var x5, y5 := Shift(x4), Shift(y4);
    ShiftLinear(x5, y5);
    var x6, y6 := Shift(x5), Shift(y5);
    ShiftLinear(x6, y6);
    ShiftLinear(Shift(x6), Shift(y6));
  }

  function Shifts(c: Register, n: nat): Register
  {
    if n == 0 then c else Shift(Shifts(c, n - 1))
  }

  /** The register's start and the message contribute one by one. */
  lemma {:induction false} SerialLinear(c: Register, bits: seq<bool>)
    ensures Serial(c, bits) == Add(Shifts(c, |bits|), Serial(0, bits))
  {
    hide Add, Shift, StepBit;
    if bits == [] {
      Sums(0, c, 0);
    } else {
      var k := |bits| - 1;
      var m := bits[k];
      var p, q := Shifts(c, k), Serial(0, bits[..k]);
      SerialLinear(c, bits[..k]);
      StepSum(Add(p, q), m);
      StepSum(q, m);
      ShiftLinear(p, q);
      Sums(Shift(p), Shift(q), if m then POLY else 0);
    }
  }

  lemma ByteAlone(b: Byte)
    ensures Serial(0, BitsOf(b)) == Shift8(b as Register)
  {
    var bits := BitsOf(b);
    EightSteps(bits);
    ByteChain(b);
  }

  lemma EightSteps(bits: seq<bool>)
    requires |bits| == 8
    ensures Serial(0, bits) ==
      StepBit(StepBit(StepBit(StepBit(StepBit(StepBit(StepBit(StepBit(
        0, bits[0]), bits[1]), bits[2]), bits[3]), bits[4]), bits[5]), bits[6]), bits[7])
  {
    hide StepBit;
    assert bits == [bits[0]] + [bits[1]] + [bits[2]] + [bits[3]] + [bits[4]] + [bits[5]] + [bits[6]] + [bits[7]];
    SerialSnoc(0, [], bits[0]);
    assert [] + [bits[0]] == [bits[0]];
    SerialSnoc(0, [bits[0]], bits[1]);
    SerialSnoc(0, [bits[0]] + [bits[1]], bits[2]);
    SerialSnoc(0, [bits[0]] + [bits[1]] + [bits[2]], bits[3]);
    SerialSnoc(0, [bits[0]] + [bits[1]] + [bits[2]] + [bits[3]], bits[4]);
    SerialSnoc(0, [bits[0]] + [bits[1]] + [bits[2]] + [bits[3]] + [bits[4]], bits[5]);
    SerialSnoc(0, [bits[0]] + [bits[1]] + [bits[2]] + [bits[3]] + [bits[4]] + [bits[5]], bits[6]);
    SerialSnoc(0, [bits[0]] + [bits[1]] + [bits[2]] + [bits[3]] + [bits[4]] + [bits[5]] + [bits[6]], bits[7]);
  }

  lemma {:induction false} ShiftsLinear(x: Register, y: Register, n: nat)
    ensures Shifts(Add(x, y), n) == Add(Shifts(x, n), Shifts(y, n))
  {
    hide Add, Shift;
    if n > 0 {
      ShiftsLinear(x, y, n - 1);
      ShiftLinear(Shifts(x, n - 1), Shifts(y, n - 1));
    }
  }

  lemma {:induction false} ShiftsInner(x: Register, n: nat)
    ensures Shifts(x, n + 1) == Shifts(Shift(x), n)
  {
    if n > 0 {
      ShiftsInner(x, n - 1);
    }
  }

  /** The value of bit k of a byte. */
  function BitValue(k: nat): Byte
    requires k < 8
  {
    if k == 0 then 1 else if k == 1 then 2 else if k == 2 then 4 else if k == 3 then 8
    else if k == 4 then 16 else if k == 5 then 32 else if k == 6 then 64 else 128
  }

  lemma BitDown(k: nat)
    requires 1 <= k < 8
    ensures Shift(BitValue(k) as Register) == BitValue(k - 1) as Register
  {
  }

  /** It is the coefficient of x^0 after k shifts. */
  lemma {:induction false} LoneBit(k: nat)
    requires k < 8
    ensures Shifts(BitValue(k) as Register, k) == 1 && Shifts(0, k) == 0
  {
    if k > 0 {
      hide Shift;
      LoneBit(k - 1);
      BitDown(k);
      ShiftsInner(BitValue(k) as Register, k - 1);
      OfZero();
    }
  }

  /** The lowest k bits of a byte, bit by bit. */
  function LowBits(b: Byte, k: nat): Register
    requires k <= 8
  {
    if k == 0 then 0 else Add(LowBits(b, k - 1), (b & BitValue(k - 1)) as Register)
  }

  lemma AllBits(b: Byte)
    ensures LowBits(b, 8) == b as Register
  {
    assert LowBits(b, 1) == (b & 1) as Register;
    assert LowBits(b, 2) == (b & 3) as Register;
    assert LowBits(b, 3) == (b & 7) as Register;
    assert LowBits(b, 4) == (b & 15) as Register;
    assert LowBits(b, 5) == (b & 31) as Register;
    assert LowBits(b, 6) == (b & 63) as Register;
    assert LowBits(b, 7) == (b & 127) as Register;
  }

  lemma BitOrNone(b: Byte, k: nat)
    requires k < 8
    ensures b & BitValue(k) == 0 || b & BitValue(k) == BitValue(k)
    ensures (b & BitValue(k)) as Register == if b & BitValue(k) != 0 then BitValue(k) as Register else 0
  {
  }

  /** After k bits of the byte alone the register is what k shifts make of those bits. */
  lemma NextBit(b: Byte, k: nat)
    requires k < 8
    ensures StepBit(Shifts(LowBits(b, k), k), b & BitValue(k) != 0) == Shifts(LowBits(b, k + 1), k + 1)
  {
    hide Add, Shift, BitValue;
    LoneBit(k);
    BitOrNone(b, k);
    ShiftsLinear(LowBits(b, k), (b & BitValue(k)) as Register, k);
  }

  lemma ByteChain(b: Byte)
    ensures StepBit(StepBit(StepBit(StepBit(StepBit(StepBit(StepBit(StepBit(
              0, b & 1 != 0), b & 2 != 0), b & 4 != 0), b & 8 != 0), b & 16 != 0), b & 32 != 0), b & 64 != 0),
                b & 128 != 0)
         == Shift8(b as Register)
  {
    hide StepBit, Shift;
    NextBit(b, 0);
    NextBit(b, 1);
    NextBit(b, 2);
    NextBit(b, 3);
    NextBit(b, 4);
    NextBit(b, 5);
    NextBit(b, 6);
    NextBit(b, 7);
    AllBits(b);
    EightShifts(b as Register);
  }

  /** Eight steps at once: the byte enters at the lowest eight places. */
  lemma ByteStep(c: Register, b: Byte)
    ensures Serial(c, BitsOf(b)) == Shift8(Add(c, b as Register))
  {
    hide Add, Shift, Serial, BitsOf;
    SerialLinear(c, BitsOf(b));
    ByteAlone(b);
    Shift8Linear(c, b as Register);
    EightShifts(c);
  }

  lemma EightShifts(c: Register)
    ensures Shifts(c, 8) == Shift8(c)
  {
    hide Shift;
    assert Shifts(c, 1) == Shift(c);
    assert Shifts(c, 2) == Shift(Shifts(c, 1));
    assert Shifts(c, 3) == Shift(Shifts(c, 2));
    assert Shifts(c, 4) == Shift(Shifts(c, 3));
    assert Shifts(c, 5) == Shift(Shifts(c, 4));
    assert Shifts(c, 6) == Shift(Shifts(c, 5));
    assert Shifts(c, 7) == Shift(Shifts(c, 6));
  }

  // ----- the functions of crc32.c

  /** Where the exponents of the polynomial, but for 32, put their bits. */
  const TERMS: seq<int> := [0, 1, 2, 4, 5, 7, 8, 10, 11, 12, 16, 22, 23, 26]

  /** 1L << k */
  function OneAt(k: nat): Register
  {
    if k == 0 then 1 else OneAt(k - 1) << 1
  }

  function Pattern(n: nat): Register
    requires n <= |TERMS|
  {
    if n == 0 then 0 else Pattern(n - 1) | OneAt(31 - TERMS[n - 1])
  }

  lemma Ones()
    ensures OneAt(5) == 0x20 && OneAt(8) == 0x100 && OneAt(9) == 0x200 && OneAt(15) == 0x8000
    ensures OneAt(19) == 0x8_0000 && OneAt(20) == 0x10_0000 && OneAt(21) == 0x20_0000 && OneAt(23) == 0x80_0000
    ensures OneAt(24) == 0x100_0000 && OneAt(26) == 0x400_0000 && OneAt(27) == 0x800_0000
    ensures OneAt(29) == 0x2000_0000 && OneAt(30) == 0x4000_0000 && OneAt(31) == 0x8000_0000
  {
    assert OneAt(1) == 2 && OneAt(2) == 4 && OneAt(3) == 8 && OneAt(4) == 16;
    assert OneAt(6) == 0x40 && OneAt(7) == 0x80;
    assert OneAt(10) == 0x400 && OneAt(11) == 0x800 && OneAt(12) == 0x1000 && OneAt(13) == 0x2000 &&
      OneAt(14) == 0x4000;
    assert OneAt(16) == 0x1_0000 && OneAt(17) == 0x2_0000 && OneAt(18) == 0x4_0000;
    assert OneAt(22) == 0x40_0000 && OneAt(25) == 0x200_0000 && OneAt(28) == 0x1000_0000;
  }

  /** The terms make up the polynomial. */
  lemma PatternIsPoly()
    ensures Pattern(|TERMS|) == POLY
  {
    hide OneAt;
    Ones();
    assert Pattern(1) == 0x8000_0000;
    assert Pattern(2) == 0xc000_0000;
    assert Pattern(3) == 0xe000_0000;
    assert Pattern(4) == 0xe800_0000;
    assert Pattern(5) == 0xec00_0000;
    assert Pattern(6) == 0xed00_0000;
    assert Pattern(7) == 0xed80_0000;
    assert Pattern(8) == 0xeda0_0000;
    assert Pattern(9) == 0xedb0_0000;
    assert Pattern(10) == 0xedb8_0000;
    assert Pattern(11) == 0xedb8_8000;
    assert Pattern(12) == 0xedb8_8200;
    assert Pattern(13) == 0xedb8_8300;
  }

  /** The first loop of make_crc_table. */
  method MakePoly() returns (poly: Register)
    ensures poly == POLY
  {
    hide OneAt;
    poly := 0;
    for n := 0 to |TERMS|
      invariant poly == Pattern(n)
    {
      poly := poly | OneAt(31 - TERMS[n]);
    }
    PatternIsPoly();
  }

  lemma Index(x: Register)
    ensures x & 0xff < 256 && (x < 256 ==> x as int < 256) && (x as int) as Register == x
  {
  }

  /** Entry n of the table is n shifted out. */
  ghost predicate IsTable(t: seq<Register>, n: Register)
  {
    |t| == 256 && forall j: Register :: j < n && j < 256 ==> t[j as int] == Shift8(j)
  }

  /** The inner loop of make_crc_table. */
  method Entry(n: Register, poly: Register) returns (c: Register)
    requires poly == POLY
    ensures c == Shift8(n)
  {
    c := n;
    for k := 0 to 8
      invariant c == Shifts(n, k)
    {
      c := if c & 1 == 1 then poly ^ (c >> 1) else c >> 1;
    }
    EightShifts(n);
  }

  /** make_crc_table */
  method MakeCrcTable() returns (table: array<Register>)
    ensures fresh(table) && IsTable(table[..], 256)
  {
    hide Shift8;
    var poly := MakePoly();
    table := new Register[256];
    var n: Register := 0;
    while n < 256
      invariant n <= 256 && IsTable(table[..], n)
      decreases 256 - n
    {
      var c := Entry(n, poly);
      SetEntry(table[..], n, c);
      Index(n);
      ghost var t := table[..];
      table[n as int] := c;
      assert table[..] == t[n as int := c];
      n := n + 1;
    }
  }

  lemma SetEntry(t: seq<Register>, n: Register, c: Register)
    requires n < 256 && IsTable(t, n) && c == Shift8(n)
    ensures n as int < 256 && IsTable(t[n as int := c], n + 1)
  {
    hide Shift8, IsTable;
    Index(n);
    TableLength(t, n);
    var t' := t[n as int := c];
    forall j: Register | j < n + 1 && j < 256 ensures j as int < 256 && t'[j as int] == Shift8(j) {
      Index(j);
      Successor(j, n);
      if j != n {
        TableAt(t, n, j);
        assert j as int != n as int;
      }
    }
    TableFrom(t', n + 1);
  }

  lemma Successor(j: Register, n: Register)
    requires n < 256 && j < n + 1
    ensures j <= n && (j != n ==> j < n)
  {
  }

  lemma TableLength(t: seq<Register>, n: Register)
    requires IsTable(t, n)
    ensures |t| == 256
  {
  }

  lemma TableAt(t: seq<Register>, n: Register, j: Register)
    requires IsTable(t, n) && j < n && j < 256
    ensures |t| == 256 && j as int < 256 && t[j as int] == Shift8(j)
  {
    hide Shift8;
    Index(j);
  }

  lemma TableFrom(t: seq<Register>, n: Register)
    requires |t| == 256 && forall j: Register :: j < n && j < 256 ==> j as int < 256 && t[j as int] == Shift8(j)
    ensures IsTable(t, n)
  {
  }

  /** DO1 */
  method Do1(table: array<Register>, crc: Register, b: Byte) returns (next: Register)
    requires IsTable(table[..], 256)
    ensures next == Serial(crc, BitsOf(b))
  {
    hide Shift8, BitsOf, Serial, Add, IsTable;
    var x := Add(crc, b as Register);
    ByteStep(crc, b);
    TableStep(x);
    Index(x);
    TableAt(table[..], 256, x & 0xff);
    HighBits(crc, b);
    next := Add(table[(x & 0xff) as int], crc >> 8);
  }

  lemma HighBits(c: Register, b: Byte)
    ensures Add(c, b as Register) >> 8 == c >> 8
  {
  }

  function Complement(x: Register): Register
  {
    x ^ 0xffff_ffff
  }

  /** What crc32 computes: ones in front, the division, and the complement of the remainder. */
  ghost function Crc(crc: Register, buf: seq<Byte>): Register
  {
    Complement(Serial(Complement(crc), Bits(buf)))
  }

  /** crc32; a null buffer gives 0. */
  method Crc32(table: array<Register>, crc0: Register, buffer: Option<seq<Byte>>) returns (crc: Register)
    requires IsTable(table[..], 256)
    ensures crc == if buffer.None? then 0 else Crc(crc0, buffer.value)
  {
    if buffer.None? {
      return 0;
    }
    var buf, i, len: nat := buffer.value, 0, |buffer.value|;
    crc := Complement(crc0);
    while len >= 8
      invariant i + len == |buf| && crc == Serial(Complement(crc0), Bits(buf[..i]))
    {
      crc := Do8(table, crc, buf, i, Complement(crc0));
      i, len := i + 8, len - 8;
    }
    while len > 0
      invariant i + len == |buf| && crc == Serial(Complement(crc0), Bits(buf[..i]))
    {
      crc := Do1(table, crc, buf[i]);
      OneMore(Complement(crc0), buf, i);
      i, len := i + 1, len - 1;
    }
    assert buf[..i] == buf;
    crc := Complement(crc);
  }

  lemma OneMore(c: Register, buf: seq<Byte>, i: nat)
    requires i < |buf|
    ensures Serial(c, Bits(buf[..i + 1])) == Serial(Serial(c, Bits(buf[..i])), BitsOf(buf[i]))
  {
    assert buf[..i + 1][..i] == buf[..i];
    SerialPlus(c, Bits(buf[..i]), BitsOf(buf[i]));
  }

  /** DO8, eight times DO1. */
  method Do8(table: array<Register>, crc: Register, buf: seq<Byte>, i: nat, ghost c: Register) returns (next: Register)
    requires IsTable(table[..], 256) && i + 8 <= |buf| && crc == Serial(c, Bits(buf[..i]))
    ensures next == Serial(c, Bits(buf[..i + 8]))
  {
    hide Serial, Bits, BitsOf;
    next := Do1(table, crc, buf[i]);
    OneMore(c, buf, i);
    next := Do1(table, next, buf[i + 1]);
    OneMore(c, buf, i + 1);
    next := Do1(table, next, buf[i + 2]);
    OneMore(c, buf, i + 2);
    next := Do1(table, next, buf[i + 3]);
    OneMore(c, buf, i + 3);
    next := Do1(table, next, buf[i + 4]);
    OneMore(c, buf, i + 4);
    next := Do1(table, next, buf[i + 5]);
    OneMore(c, buf, i + 5);
    next := Do1(table, next, buf[i + 6]);
    OneMore(c, buf, i + 6);
    next := Do1(table, next, buf[i + 7]);
    OneMore(c, buf, i + 7);
  }

  /** The checksum of the letter a. */
  lemma KnownChecksum()
    ensures Crc(0, [0x61]) == 0xe8b7be43
  {
    hide Shift8, Serial, BitsOf;
    assert Bits([0x61]) == BitsOf(0x61);
    ByteStep(0xffff_ffff, 0x61);
    KnownTop();
  }

  lemma KnownTop()
    ensures Shift8(0xffff_ffff ^ 0x61) == 0x174841bc
  {
  }

  /** The checksum of a whole can be computed part by part. */
  lemma CrcComposes(c: Register, a: seq<Byte>, b: seq<Byte>)
    ensures Crc(Crc(c, a), b) == Crc(c, a + b)
  {
    hide Serial, Bits, Complement;
    var start := Complement(c);
    BitsPlus(a, b);
    SerialPlus(start, Bits(a), Bits(b));
    var x := Serial(start, Bits(a));
    Twice(x);
  }

  lemma Twice(x: Register)
    ensures Complement(Complement(x)) == x
  {
  }

  /** The checksum of a buffer is the complement of the remainder of the division that RFC 1952
      prescribes. */
  lemma CrcIsDivision(buf: seq<Byte>)
    ensures Complement(Crc(0, buf)) ==
      Add(Remainder(0xffff_ffff, Repeat(false, |Bits(buf)|)), Remainder(0, Bits(buf) + Repeat(false, 32)))
  {
    hide Serial, Remainder, Add, Bits;
    var c: Register := 0xffff_ffff;
    assert Complement(0) == c;
    SerialIsDivision(c, Bits(buf));
    Twice(Serial(c, Bits(buf)));
  }
}
