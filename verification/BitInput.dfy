/** The input side of inflate: bytes, the bit buffer and the macros of infutil.h and inffast.c
    that move bits between them. */
module BitInput {
  import opened Bits
  import opened Zlib

  /** The bits of a byte sequence, those after its end being zero. */
  function StreamOf(I: seq<byte>): nat
  {
    if I == [] then 0 else I[0] + 256 * StreamOf(I[1..])
  }

  /** The stream from bit position pos on. */
  function From(I: seq<byte>, pos: nat): nat
  {
    Shr(StreamOf(I), pos)
  }

  lemma {:induction false} ByteAt(I: seq<byte>, p: nat)
    requires p < |I|
    ensures Low(From(I, 8 * p), 8) == I[p]
  {
    assert forall q: nat :: Shl(q, 8) == 256 * q by {
      forall q: nat
        ensures Shl(q, 8) == 256 * q
      {
        Times256(q);
      }
    }
    assert Pow2(8) == 256;
    Unique(StreamOf(I), StreamOf(I[1..]), 8, I[0]);
    if p > 0 {
      ByteAt(I[1..], p - 1);
      ShrShr(StreamOf(I), 8, 8 * (p - 1));
    }
  }

  lemma Times256(q: nat)
    ensures Shl(q, 8) == 256 * q
  {
    assert Shl(q, 1) == 2 * q;
    assert Shl(q, 2) == 4 * q;
    ShlShl(q, 2, 2);
    assert Shl(4 * q, 2) == 16 * q;
    ShlShl(q, 4, 2);
    assert Shl(16 * q, 2) == 64 * q;
    ShlShl(q, 6, 2);
    assert Shl(64 * q, 2) == 256 * q;
  }

  lemma FromFrom(I: seq<byte>, pos: nat, j: nat)
    ensures From(I, pos + j) == Shr(From(I, pos), j)
  {
    ShrShr(StreamOf(I), pos, j);
  }

  /** x | y */
  function Or(x: nat, y: nat): nat
    decreases x
  {
    if x == 0 then y
    else (if x % 2 == 1 || y % 2 == 1 then 1 else 0) + 2 * Or(x / 2, y / 2)
  }

  lemma OrBit(a: nat, x: nat, b: nat, y: nat)
    requires a < 2 && b < 2
    ensures Or(a + 2 * x, b + 2 * y) == (if a == 1 || b == 1 then 1 else 0) + 2 * Or(x, y)
  {
  }

  /** Putting m bits of a stream behind the k bits before them, over bits that agree. */
  lemma {:induction false} OrLow(S: nat, K: nat, k: nat, m: nat)
    requires k <= K
    ensures Or(Low(S, K), Shl(Low(Shr(S, k), m), k)) == Low(S, if K < k + m then k + m else K)
    decreases K, m
  {
    hide Or;
    if k > 0 {
      OrBit(S % 2, Low(S / 2, K - 1), 0, Shl(Low(Shr(S, k), m), k - 1));
      OrLow(S / 2, K - 1, k - 1, m);
    } else if K > 0 && m > 0 {
      OrBit(S % 2, Low(S / 2, K - 1), S % 2, Low(S / 2, m - 1));
      OrLow(S / 2, K - 1, 0, m - 1);
    } else if K > 0 {
      OrZero(Low(S, K));
    } else {
      ZeroOr(Low(Shr(S, k), m));
    }
  }

  lemma ZeroOr(y: nat)
    ensures Or(0, y) == y
  {
  }

  lemma {:induction false} OrZero(x: nat)
    ensures Or(x, 0) == x
  {
    if x > 0 {
      OrZero(x / 2);
    }
  }

  lemma {:induction false} ShrLow(x: nat, j: nat, m: nat)
    requires j <= m
    ensures Shr(Low(x, m), j) == Low(Shr(x, j), m - j)
  {
    if j > 0 {
      ShrLow(x / 2, j - 1, m - 1);
    }
  }

  /** next_in, avail_in and the bit buffer.  The bytes the callers have supplied so far are one
      sequence `input`, read up to p; I is all that they will ever supply. */
  class Input {
    ghost const I: seq<byte>
    var input: seq<byte>
    var p: nat
    var b: nat           // bits read but not used, the next one lowest
    var k: nat           // how many those are
    ghost var stale: nat // bytes whose bits are still in the buffer although they were returned

    constructor (ghost I: seq<byte>)
      ensures Valid() && this.I == I && input == [] && p == 0 && k == 0 && b == 0
    {
      this.I := I;
      input, p, b, k, stale := [], 0, 0, 0, 0;
    }

    /** The bit buffer holds the next k bits of the stream.  Any bits above them are those of
        bytes that were returned to the input and will be read again. */
    ghost predicate Valid()
      reads this
    {
      && input <= I && p + stale <= |input| && k <= 8 * p
      && b == Low(From(I, 8 * p - k), k + 8 * stale)
    }

    /** The position in the stream of the next bit to use. */
    ghost function Pos(): nat
      reads this
    {
      if k <= 8 * p then 8 * p - k else 0
    }

    ghost function Rest(): nat
      reads this
    {
      From(I, Pos())
    }

    /** All input is read, and what is left of it in the bit buffer does not suffice. */
    /** All input is read, and fewer than j bits are held. */
    ghost predicate Lacks(j: nat)
      reads this
    {
      p == |input| && k < j
    }

    ghost predicate Starved()
      reads this
    {
      p == |input| && k < 32
    }

    function AvailIn(): nat
      reads this
      requires p <= |input|
    {
      |input| - p
    }

    /** More input from the caller. */
    method Supply(bytes: seq<byte>)
      requires Valid() && input + bytes <= I
      modifies this`input
      ensures Valid() && input == old(input) + bytes
    {
      input := input + bytes;
    }

    /** b |= NEXTBYTE << k; k += 8 */
    method Grab()
      requires Valid() && p < |input|
      modifies this`p, this`b, this`k, this`stale
      ensures Valid() && Pos() == old(Pos()) && p == old(p) + 1 && k == old(k) + 8
      ensures stale == if old(stale) > 0 then old(stale) - 1 else 0
    {
      FromFrom(I, Pos(), k);
      ByteAt(I, p);
      OrLow(Rest(), k + 8 * stale, k, 8);
      b := Or(b, Shl(input[p], k));
      p := p + 1;
      k := k + 8;
      stale := if stale > 0 then stale - 1 else 0;
    }

    /** NEEDBITS: get at least j bits, or report that input ran out. */
    method NeedBits(j: nat, r: Status) returns (ok: bool, r': Status)
      requires Valid()
      modifies this`p, this`b, this`k, this`stale
      ensures Valid() && Pos() == old(Pos()) && p >= old(p) && k - old(k) == 8 * (p - old(p))
      ensures ok ==> k >= j && (k == old(k) || k < j + 8)
      ensures !ok ==> p == |input| && k < j
      ensures r' == if p > old(p) then OK else r
    {
      r' := r;
      while k < j
        invariant Valid() && Pos() == old(Pos()) && p >= old(p) && k - old(k) == 8 * (p - old(p))
        invariant k == old(k) || k < j + 8
        invariant r' == if p > old(p) then OK else r
      {
        if p == |input| {
          return false, r';
        }
        r' := OK;
        Grab();
      }
      ok := true;
    }

    /** b & mask[j] */
    function Peek(j: nat): (x: nat)
      reads this
      requires Valid() && j <= k
      ensures x == Low(Rest(), j)
    {
      LowLow(Rest(), j, k + 8 * stale);
      Low(b, j)
    }

    /** DUMPBITS */
    method DumpBits(j: nat)
      requires Valid() && j <= k
      modifies this`b, this`k
      ensures Valid() && Pos() == old(Pos()) + j && k == old(k) - j
      ensures Rest() == Shr(old(Rest()), j)
    {
      FromFrom(I, Pos(), j);
      ShrLow(Rest(), j, k + 8 * stale);
      b := Shr(b, j);
      k := k - j;
    }

    /** Return c unused bytes.  Their bits stay in the buffer. */
    method Return(c: nat)
      requires Valid() && c <= p && 8 * c <= k
      modifies this`p, this`k, this`stale
      ensures Valid() && Pos() == old(Pos()) && p == old(p) - c && k == old(k) - 8 * c
    {
      p := p - c;
      k := k - 8 * c;
      stale := stale + c;
    }

    /** Drop all bits in the buffer. */
    method DumpAll()
      requires Valid()
      modifies this`b, this`k, this`stale
      ensures Valid() && k == 0 && stale == 0 && Pos() == old(Pos()) + old(k)
    {
      b, k, stale := 0, 0, 0;
    }

    /** Take t whole bytes past the empty bit buffer. */
    method TakeBytes(t: nat) returns (bytes: seq<byte>)
      requires Valid() && k == 0 && stale == 0 && p + t <= |input|
      modifies this`p
      ensures Valid() && p == old(p) + t && bytes == input[old(p)..p] && Pos() == old(Pos()) + 8 * t
    {
      bytes := input[p..p + t];
      p := p + t;
    }
  }
}
