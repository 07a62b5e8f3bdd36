/** UC_MD5.h: how the input of MD5 is cut into blocks, padded and counted (RFC 1321, sections 3.1 to
    3.4).  The transformation of one block is a parameter. */
module Md5 {
  import opened FileBytes
  import opened Sequences
  import opened Zlib

  type Word = x: int | 0 <= x < 0x1_0000_0000

  datatype State = State(a: Word, b: Word, c: Word, d: Word)

  type Round = (State, Bytes) -> State

  const START := State(0x67452301, 0xefcdab89, 0x98badcfe, 0x10325476)

  const BLOCK := 64

  /** The state after the whole blocks of D. */
  function Fold(round: Round, D: Bytes): State
    requires |D| % BLOCK == 0
  {
    if D == [] then START else round(Fold(round, D[..|D| - BLOCK]), D[|D| - BLOCK..])
  }

  // ----- padding

  /** Encode of the two words of the bit count: 64 bits, the lowest byte first. */
  function Int64(n: nat): (r: Bytes)
    requires n < 0x1_0000_0000_0000_0000
    ensures |r| == 8
  {
    Int32(n % 0x1_0000_0000) + Int32(n / 0x1_0000_0000)
  }

  /** Bits of a message, modulo 2^64. */
  function BitCount(n: nat): (c: nat)
    ensures c < 0x1_0000_0000_0000_0000
  {
    8 * n % 0x1_0000_0000_0000_0000
  }

  lemma Multiple(n: nat, k: nat)
    requires n == BLOCK * k
    ensures n % BLOCK == 0
  {
  }

  lemma PadLength(n: nat)
    ensures (n + 9 + (119 - n % BLOCK) % BLOCK) % BLOCK == 0
  {
    var q, r := n / BLOCK, n % BLOCK;
    assert n == BLOCK * q + r;
    Multiple(n + 9 + (119 - r) % BLOCK, if r <= 55 then q + 1 else q + 2);
  }

  /** Sections 3.1 and 3.2: a 1 bit, 0 bits up to 56 bytes modulo 64, and the length. */
  function Pad(M: Bytes): (D: Bytes)
    ensures |D| % BLOCK == 0 && |M| + 9 <= |D| <= |M| + 72
  {
    PadLength(|M|);
    M + [0x80] + Repeat<byte>(0, (119 - |M| % BLOCK) % BLOCK) + Int64(BitCount(|M|))
  }

  lemma FoldSnoc(round: Round, D: Bytes, B: Bytes)
    requires |D| % BLOCK == 0 && |B| == BLOCK
    ensures Fold(round, D + B) == round(Fold(round, D), B)
  {
    assert (D + B)[..|D + B| - BLOCK] == D && (D + B)[|D + B| - BLOCK..] == B;
  }

  /** What the two sections ask for: the message, a byte 80, as few zeros as make whole blocks with
      eight bytes more, and in these the length in bits modulo 2^64, the lowest byte first. */
  lemma PadIsStandard(M: Bytes)
    ensures var D, n := Pad(M), |Pad(M)|;
            && n % 64 == 0 && n < |M| + 9 + 64 && D[..|M|] == M && D[|M|] == 0x80
            && (forall i :: |M| < i < n - 8 ==> D[i] == 0)
    ensures FromLow(Pad(M)[|Pad(M)| - 8..]) == 8 * |M| % 0x1_0000_0000_0000_0000
  {
    PadEnds(M);
    Int64Back(BitCount(|M|));
    ValueIs(Pad(M)[|Pad(M)| - 8..]);
    PadMiddle(M);
  }

  lemma PadMiddle(M: Bytes)
    ensures var D, n := Pad(M), |Pad(M)|;
            n < |M| + 9 + 64 && D[|M|] == 0x80 && forall i :: |M| < i < n - 8 ==> D[i] == 0
  {
    hide Int64, BitCount;
  }

  /** The number whose digits to the base 256 are these, the lowest first. */
  function FromLow(b: Bytes): nat
  {
    if b == [] then 0 else b[0] + 256 * FromLow(b[1..])
  }

  lemma ValueIs(b: Bytes)
    requires |b| == 8
    ensures FromLow(b) == Value64(b)
  {
    WordIs(b, b[4..]);
    WordIs(b[4..], []);
    assert b[4..][4..] == [];
  }

  lemma WordIs(b: Bytes, rest: Bytes)
    requires |b| >= 4 && b[4..] == rest
    ensures FromLow(b) == Value32(b[..4]) + 0x1_0000_0000 * FromLow(rest)
  {
    assert b[1..][1..] == b[2..] && b[2..][1..] == b[3..] && b[3..][1..] == rest;
    var b2, b3: Bytes := b[2..], b[3..];
    assert FromLow(b3) == b[3] + 256 * FromLow(rest);
    assert FromLow(b2) == b[2] + 256 * FromLow(b3);
    assert FromLow(b[1..]) == b[1] + 256 * FromLow(b2);
    assert FromLow(b) == b[0] + 256 * FromLow(b[1..]);
  }

  lemma PadEnds(M: Bytes)
    ensures Pad(M)[..|M|] == M && Pad(M)[|Pad(M)| - 8..] == Int64(BitCount(|M|))
  {
    hide Int64;
  }

  /** Different messages are padded differently, as long as their lengths in bits fit in 64. */
  lemma PadInjective(M: Bytes, N: Bytes)
    requires 8 * |M| < 0x1_0000_0000_0000_0000 && 8 * |N| < 0x1_0000_0000_0000_0000 && Pad(M) == Pad(N)
    ensures M == N
  {
    hide Pad, Int64, Value64;
    PadEnds(M);
    PadEnds(N);
    Int64Back(BitCount(|M|));
    Int64Back(BitCount(|N|));
  }

  function Value64(b: Bytes): nat
    requires |b| == 8
  {
    Value32(b[..4]) + 0x1_0000_0000 * Value32(b[4..])
  }

  lemma Int64Back(n: nat)
    requires n < 0x1_0000_0000_0000_0000
    ensures Value64(Int64(n)) == n
  {
    Int32Back(n % 0x1_0000_0000);
    Int32Back(n / 0x1_0000_0000);
    assert Int64(n)[..4] == Int32(n % 0x1_0000_0000) && Int64(n)[4..] == Int32(n / 0x1_0000_0000);
  }

  // ----- the context

  /** The two words of the count after `more` bytes: the carry is noticed by the wrap-around. */
  function AddCount(c0: Word, c1: Word, more: Word): (Word, Word)
  {
    var bits := more * 8 % 0x1_0000_0000;
    var d0 := (c0 + bits) % 0x1_0000_0000;
    var d1 := if d0 < bits then (c1 + 1) % 0x1_0000_0000 else c1;
    (d0, (d1 + more / 0x2000_0000) % 0x1_0000_0000)
  }

  lemma Modulo(x: nat, low: nat, q: nat)
    requires x == low + 0x1_0000_0000_0000_0000 * q && low < 0x1_0000_0000_0000_0000
    ensures x % 0x1_0000_0000_0000_0000 == low
  {
  }

  lemma CarryIs(c0: Word, bits: Word)
    ensures var d0 := (c0 + bits) % 0x1_0000_0000; c0 + bits == d0 + if d0 < bits then 0x1_0000_0000 else 0
  {
  }

  /** That is addition modulo 2^64. */
  lemma CountAdds(c0: Word, c1: Word, n: nat, more: Word)
    requires c0 + 0x1_0000_0000 * c1 == BitCount(n)
    ensures AddCount(c0, c1, more).0 + 0x1_0000_0000 * AddCount(c0, c1, more).1 == BitCount(n + more)
  {
    var bits := more * 8 % 0x1_0000_0000;
    var up := more / 0x2000_0000;
    Shifted(more);
    CarryIs(c0, bits);
    var d0 := (c0 + bits) % 0x1_0000_0000;
    var carry := if d0 < bits then 1 else 0;
    Wrap(c1, carry, up);
    var q := 8 * n / 0x1_0000_0000_0000_0000;
    Quotient(8 * n);
    AddedUp(c0, c1, d0, carry, bits, up, 8 * n, 8 * more, q);
  }

  lemma Shifted(more: Word)
    ensures more * 8 == more * 8 % 0x1_0000_0000 + 0x1_0000_0000 * (more / 0x2000_0000)
  {
  }

  lemma Quotient(x: nat)
    ensures x == x % 0x1_0000_0000_0000_0000 + 0x1_0000_0000_0000_0000 * (x / 0x1_0000_0000_0000_0000)
  {
  }

  lemma AddedUp(c0: Word, c1: Word, d0: Word, carry: nat, bits: Word, up: nat, x: nat, y: nat, q: nat)
    requires x == c0 + 0x1_0000_0000 * c1 + 0x1_0000_0000_0000_0000 * q && y == bits + 0x1_0000_0000 * up
    requires c0 + bits == d0 + 0x1_0000_0000 * carry
    ensures (x + y) % 0x1_0000_0000_0000_0000 == d0 + 0x1_0000_0000 * ((c1 + carry + up) % 0x1_0000_0000)
  {
    var t := c1 + carry + up;
    var e1, r := t % 0x1_0000_0000, t / 0x1_0000_0000;
    assert t == e1 + 0x1_0000_0000 * r;
    Modulo(x + y, d0 + 0x1_0000_0000 * e1, q + r);
  }

  lemma Wrap(c: Word, carry: nat, up: nat)
    requires carry <= 1
    ensures ((c + carry) % 0x1_0000_0000 + up) % 0x1_0000_0000 == (c + carry + up) % 0x1_0000_0000
  {
  }

  lemma SameRest(a: nat, n: nat, k: nat)
    requires n == a + BLOCK * k
    ensures a % BLOCK == n % BLOCK
  {
  }

  /** Bytes in the buffer, from the low word of the count. */
  lemma IndexIs(c0: Word, c1: Word, n: nat)
    requires c0 + 0x1_0000_0000 * c1 == BitCount(n)
    ensures c0 / 8 % BLOCK == n % BLOCK
  {
    Quotient(8 * n);
    var k := c1 + 0x1_0000_0000 * (8 * n / 0x1_0000_0000_0000_0000);
    assert 8 * n == c0 + 0x1_0000_0000 * k;
    assert c0 / 8 == n - 0x2000_0000 * k;
    SameRest(c0 / 8, n, 0x80_0000 * k);
  }

  /** The state after the whole blocks of M, when `kept` is what comes after them. */
  ghost predicate Holds(round: Round, state: State, kept: Bytes, M: Bytes)
  {
    && |kept| < BLOCK && |kept| <= |M| && (|M| - |kept|) % BLOCK == 0
    && state == Fold(round, M[..|M| - |kept|]) && kept == M[|M| - |kept|..]
  }

  lemma HoldsRest(round: Round, state: State, kept: Bytes, M: Bytes)
    requires Holds(round, state, kept, M)
    ensures |M| % BLOCK == |kept|
  {
    RestIs(|M|, |kept|);
  }

  lemma HoldsMore(round: Round, state: State, kept: Bytes, M: Bytes, more: Bytes)
    requires Holds(round, state, kept, M) && |kept| + |more| < BLOCK
    ensures Holds(round, state, kept + more, M + more)
  {
    assert (M + more)[..|M| - |kept|] == M[..|M| - |kept|];
    assert (M + more)[|M| - |kept|..] == M[|M| - |kept|..] + more;
  }

  /** Where the loop of MD5Update may stand with `index` bytes in the buffer and an input of n bytes. */
  ghost predicate Stands(index: nat, i: nat, n: nat)
  {
    BLOCK <= index + i && i <= n && (index + i) % BLOCK == 0
  }

  /** Its test `i + 63 < inputLen`, on 32 bits. */
  predicate OneMore(i: nat, n: nat)
  {
    (i + 63) % 0x1_0000_0000 < n
  }

  lemma Aligned(n: nat, i: nat)
    requires (n + i) % BLOCK == 0
    ensures (n % BLOCK + i) % BLOCK == 0 && (n + (i + BLOCK)) % BLOCK == 0
  {
  }

  lemma NoWrap(index: nat, i: nat, n: nat)
    requires index + n < 0x1_0000_0000 && i <= n && (index + i) % BLOCK == 0
    ensures OneMore(i, n) <==> i + BLOCK <= n
  {
  }

  /** The test says whether another block is there, wherever the loop stands, exactly if the bytes kept
      and the input are fewer than 2^32. */
  lemma TestIsRight(index: nat, n: nat)
    requires index < BLOCK && n < 0x1_0000_0000
    ensures (forall i: nat :: Stands(index, i, n) ==> (OneMore(i, n) <==> i + BLOCK <= n))
      <==> index + n < 0x1_0000_0000
  {
    if index + n < 0x1_0000_0000 {
      forall i: nat | Stands(index, i, n)
        ensures OneMore(i, n) <==> i + BLOCK <= n
      {
        NoWrap(index, i, n);
      }
    } else {
      var i: nat := 0x1_0000_0000 - index;
      assert Stands(index, i, n) && OneMore(i, n);
    }
  }

  class Context {
    const round: Round
    var count0: Word
    var count1: Word
    var state: State
    var buffer: array<byte>
    ghost var message: Bytes

    /** All whole blocks are in the state, the rest is in the buffer, and the bits are counted. */
    ghost predicate Valid()
      reads this, buffer
    {
      && buffer.Length == BLOCK && count0 + 0x1_0000_0000 * count1 == BitCount(|message|)
      && Holds(round, state, buffer[..|message| % BLOCK], message)
    }

    /** MD5Init */
    constructor (round: Round)
      ensures Valid() && message == [] && this.round == round && fresh(buffer)
    {
      this.round := round;
      count0, count1, state, message := 0, 0, START, [];
      buffer := new byte[BLOCK];
    }

    /** MD5_memcpy into the buffer. */
    method Copy(at: nat, input: Bytes)
      requires at + |input| <= buffer.Length
      modifies buffer
      ensures buffer[..] == old(buffer[..at]) + input + old(buffer[at + |input|..])
    {
      ghost var was := buffer[..];
      for i := 0 to |input|
        invariant buffer[..] == was[..at] + input[..i] + was[at + i..]
      {
        ghost var now := buffer[..];
        buffer[at + i] := input[i];
        assert buffer[..] == now[at + i := input[i]];
      }
    }

    /** The transformations of MD5Update: i bytes of the input are taken, `index` bytes before them
        stay in the buffer. */
    method Transform(input: Bytes, index0: nat) returns (i: nat, index: nat)
      requires buffer.Length == BLOCK && index0 < BLOCK && index0 + |input| < 0x1_0000_0000
      requires Holds(round, state, buffer[..index0], message)
      modifies this`state, buffer
      ensures i <= |input| && index + |input| - i < BLOCK
      ensures Holds(round, state, buffer[..index], message + input[..i])
    {
      hide Fold;
      i, index := 0, index0;
      var partLen := BLOCK - index;
      assert message + input[..0] == message;
      if |input| >= partLen {
        ghost var whole: nat := |message| - index;
        ghost var total := message + input;
        assert total[..whole] == message[..whole];
        Copy(index, input[..partLen]);
        assert buffer[..] == total[whole..whole + BLOCK];
        NextBlock(round, total, whole);
        state := round(state, buffer[..]);
        i := Blocks(input, partLen);
        index := 0;
        assert total[..|message| + i] == message + input[..i];
        assert (message + input[..i])[..|message| + i] == message + input[..i];
      }
    }

    lemma InputBlock(message: Bytes, input: Bytes, i: nat)
      requires i + BLOCK <= |input|
      ensures (message + input)[|message| + i..|message| + i + BLOCK] == input[i..i + BLOCK]
    {
    }

    /** The loop of MD5Update: transform whole blocks of the input from `start` on. */
    method Blocks(input: Bytes, start: nat) returns (i: nat)
      requires start <= |input| && (|message| + start) % BLOCK == 0 && |message| % BLOCK + |input| < 0x1_0000_0000
      requires state == Fold(round, (message + input)[..|message| + start])
      modifies this`state
      ensures start <= i <= |input| < i + BLOCK && (|message| + i) % BLOCK == 0
      ensures state == Fold(round, (message + input)[..|message| + i])
    {
      hide Fold, OneMore;
      ghost var n, total := |message|, message + input;
      i := start;
      Aligned(n, i);
      NoWrap(n % BLOCK, i, |input|);
      while OneMore(i, |input|)
        invariant start <= i <= |input| && (n + i) % BLOCK == 0
        invariant OneMore(i, |input|) <==> i + BLOCK <= |input|
        invariant state == Fold(round, total[..n + i])
        decreases |input| - i
      {
        NextBlock(round, total, n + i);
        InputBlock(message, input, i);
        state := round(state, input[i..i + BLOCK]);
        Aligned(n, i);
        i := i + BLOCK;
        Aligned(n, i);
        NoWrap(n % BLOCK, i, |input|);
      }
    }

    /** MD5Update: the state is that of the whole message, however it was cut up. */
    method Update(input: Bytes)
      requires Valid() && |message| % BLOCK + |input| < 0x1_0000_0000
      modifies this`count0, this`count1, this`state, this`message, buffer
      ensures Valid() && message == old(message) + input
    {
      hide Fold, AddCount, BitCount, Holds;
      var index := count0 / 8 % BLOCK;
      IndexIs(count0, count1, |message|);
      CountAdds(count0, count1, |message|, |input|);
      var (c0, c1) := AddCount(count0, count1, |input|);
      count0, count1 := c0, c1;
      var i, index' := Transform(input, index);
      ghost var kept := buffer[..index'];
      Copy(index', input[i..]);
      assert buffer[..index' + |input| - i] == kept + input[i..];
      HoldsMore(round, state, kept, message + input[..i], input[i..]);
      message := message + input;
      assert message == old(message) + input[..i] + input[i..];
      HoldsRest(round, state, kept + input[i..], message);
    }

    /** MD5Final: the digest is the state after the padded message, as bytes. */
    method Final() returns (digest: Bytes)
      requires Valid()
      modifies this`count0, this`count1, this`state, this`message, buffer
      ensures digest == Digest(round, old(message))
    {
      hide Fold, Pad, Int64, Int32, BitCount;
      ghost var M := message;
      var bits := Int32(count0) + Int32(count1);
      CountBytes(count0, count1, |M|);
      var index := count0 / 8 % BLOCK;
      IndexIs(count0, count1, |M|);
      var padLen := if index < 56 then 56 - index else 120 - index;
      PadIs(M, padLen);
      Update([0x80] + Repeat<byte>(0, padLen - 1));
      Update(bits);
      assert message[..|message|] == message;
      digest := Int32(state.a) + Int32(state.b) + Int32(state.c) + Int32(state.d);
    }
  }

  lemma CountBytes(c0: Word, c1: Word, n: nat)
    requires c0 + 0x1_0000_0000 * c1 == BitCount(n)
    ensures Int32(c0) + Int32(c1) == Int64(BitCount(n))
  {
    hide Int32, BitCount;
    Halves(c0, c1);
  }

  lemma Halves(c0: Word, c1: Word)
    ensures (c0 + 0x1_0000_0000 * c1) % 0x1_0000_0000 == c0 && (c0 + 0x1_0000_0000 * c1) / 0x1_0000_0000 == c1
  {
  }

  lemma RestIs(n: nat, rest: nat)
    requires rest < BLOCK && rest <= n && (n - rest) % BLOCK == 0
    ensures n % BLOCK == rest
  {
  }

  /** The padding of MD5Final is that of the standard. */
  lemma PadIs(M: Bytes, padLen: nat)
    requires padLen == if |M| % BLOCK < 56 then 56 - |M| % BLOCK else 120 - |M| % BLOCK
    ensures padLen >= 1 && M + ([0x80] + Repeat<byte>(0, padLen - 1)) + Int64(BitCount(|M|)) == Pad(M)
  {
    hide Int64, BitCount;
    assert (119 - |M| % BLOCK) % BLOCK == padLen - 1;
  }

  /** Section 3.4 and 3.5: fold the padded message, and write the four words. */
  function Digest(round: Round, M: Bytes): Bytes
  {
    BytesOf(Fold(round, Pad(M)))
  }

  /** The four words, each with its lowest byte first. */
  function BytesOf(s: State): Bytes
  {
    Int32(s.a) + Int32(s.b) + Int32(s.c) + Int32(s.d)
  }

  /** The start value as section 3.3 gives it, byte by byte. */
  lemma StartIs()
    ensures BytesOf(START) == [0x01, 0x23, 0x45, 0x67, 0x89, 0xab, 0xcd, 0xef,
                               0xfe, 0xdc, 0xba, 0x98, 0x76, 0x54, 0x32, 0x10]
  {
  }

  /** MD5Bits128, which gives zeros for no input at all. */
  method Bits128(round: Round, input: Bytes) returns (output: Bytes)
    requires |input| < 0x1_0000_0000
    ensures output == if input == [] then Repeat<byte>(0, 16) else Digest(round, input)
  {
    if |input| <= 0 {
      return Repeat<byte>(0, 16);
    }
    var context := new Context(round);
    context.Update(input);
    assert [] + input == input;
    output := context.Final();
  }

  lemma NextBlock(round: Round, D: Bytes, k: nat)
    requires k % BLOCK == 0 && k + BLOCK <= |D|
    ensures Fold(round, D[..k + BLOCK]) == round(Fold(round, D[..k]), D[k..k + BLOCK])
  {
    FoldSnoc(round, D[..k], D[k..k + BLOCK]);
    assert D[..k + BLOCK] == D[..k] + D[k..k + BLOCK];
  }
}
