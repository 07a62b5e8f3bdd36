/** adler32.c: the checksum of sections 2.2 and 8.2 of RFC 1950 with deferred reduction. */
module Adler32 {
  import opened Options
  import opened Zlib

  const BASE := 65521
  const NMAX := 5552

  /** The two sums; the checksum is s2 * 65536 + s1. */
  datatype Sums = Sums(s1: nat, s2: nat)

  /** One byte by the definition: both sums are kept modulo 65521. */
  function Update(a: Sums, x: byte): Sums
  {
    var s1 := (a.s1 + x) % BASE;
    Sums(s1, (a.s2 + s1) % BASE)
  }

  function UpdateAll(a: Sums, buf: seq<byte>): Sums
  {
    if buf == [] then a else Update(UpdateAll(a, buf[..|buf| - 1]), buf[|buf| - 1])
  }

  function Pack(a: Sums): nat
  {
    a.s2 * 65536 + a.s1
  }

  predicate Reduced(a: Sums)
  {
    a.s1 < BASE && a.s2 < BASE
  }

  lemma {:induction false} UpdateAllConcat(a: Sums, x: seq<byte>, y: seq<byte>)
    ensures UpdateAll(a, x + y) == UpdateAll(UpdateAll(a, x), y)
  {
    if y == [] {
      assert x + y == x;
    } else {
      UpdateAllConcat(a, x, y[..|y| - 1]);
      assert (x + y)[..|x + y| - 1] == x + y[..|y| - 1];
    }
  }

  // ----- bounds on the sums before they are reduced

  /** The greatest s2 after i bytes of 255 from the greatest reduced sums. */
  function MaxS2(i: nat): nat
  {
    if i == 0 then BASE - 1 else MaxS2(i - 1) + BASE - 1 + 255 * i
  }

  /** The closed form in the source's comment on NMAX. */
  lemma {:induction false} MaxS2Closed(i: nat)
    ensures 2 * MaxS2(i) == 255 * (i * (i + 1)) + 2 * ((i + 1) * (BASE - 1))
  {
    if i > 0 {
      MaxS2Closed(i - 1);
      assert i * (i + 1) == (i - 1) * i + 2 * i;
    }
  }

  /** NMAX is the greatest number of bytes for which s2 stays below 2^32. */
  lemma NmaxIsLargest(n: nat)
    ensures MaxS2(n) <= 0xffff_ffff <==> n <= NMAX
  {
    MaxS2Closed(NMAX);
    MaxS2Closed(NMAX + 1);
    if n <= NMAX {
      MaxS2Mono(n, NMAX);
    } else {
      MaxS2Mono(NMAX + 1, n);
    }
  }

  lemma {:induction false} MaxS2Mono(i: nat, j: nat)
    requires i <= j
    ensures MaxS2(i) <= MaxS2(j)
    decreases j
  {
    if i < j {
      MaxS2Mono(i, j - 1);
    }
  }

  /** Unreduced sums that stand for those of the definition, i bytes after they were reduced or
      after the start, when either may be any 16-bit number. */
  ghost predicate Stands(s1: nat, s2: nat, a: Sums, i: nat)
  {
    s1 % BASE == a.s1 % BASE && s2 % BASE == a.s2 % BASE && s1 <= 65535 + 255 * i && s2 <= MaxS2(i) + 15 * (i + 1)
  }

  /** Nor does s2 leave 32 bits if the first sums are not reduced. */
  lemma NmaxSuffices(i: nat)
    requires i <= NMAX
    ensures MaxS2(i) + 15 * (i + 1) <= 0xffff_ffff && 65535 + 255 * i <= 0xffff_ffff
  {
    MaxS2Closed(NMAX);
    MaxS2Mono(i, NMAX);
  }

  lemma StandsStep(s1: nat, s2: nat, a: Sums, i: nat, x: byte)
    requires Stands(s1, s2, a, i)
    ensures Stands(s1 + x, s2 + (s1 + x), Update(a, x), i + 1)
  {
    hide MaxS2;
    MaxNext(i);
    SumRemainder(s1, x, a.s1, x);
    SumRemainder(s2, s1 + x, a.s2, (a.s1 + x) % BASE);
  }

  lemma MaxNext(i: nat)
    ensures MaxS2(i + 1) == MaxS2(i) + BASE - 1 + 255 * (i + 1)
  {
  }

  lemma SumRemainder(x: nat, y: nat, x': nat, y': nat)
    requires x % BASE == x' % BASE && y % BASE == y' % BASE
    ensures (x + y) % BASE == (x' + y') % BASE
    ensures (x' + y') % BASE % BASE == (x' + y') % BASE
  {
    Remainder(x + y, x / BASE + y / BASE, x % BASE + y % BASE);
    Remainder(x' + y', x' / BASE + y' / BASE, x' % BASE + y' % BASE);
  }

  lemma Remainder(n: nat, q: nat, r: nat)
    requires n == q * BASE + r
    ensures n % BASE == r % BASE
  {
    var t := r / BASE;
    assert n == (q + t) * BASE + r % BASE;
    SameRemainder(n, q + t, r % BASE);
  }

  lemma SameRemainder(n: nat, q: nat, r: nat)
    requires n == q * BASE + r && r < BASE
    ensures n % BASE == r
  {
    var d: int := n / BASE - q;
    assert d * BASE == r - n % BASE;
  }

  /** Add n bytes from i on to both sums without reducing them; m bytes were added before.
      Neither sum leaves 32 bits. */
  method SumBytes(buf: seq<byte>, i: nat, n: nat, t1: nat, t2: nat, ghost a: Sums, ghost m: nat) returns (s1: nat,
                  s2: nat)
    requires i + n <= |buf| && m + n <= NMAX && Stands(t1, t2, UpdateAll(a, buf[..i]), m)
    ensures Stands(s1, s2, UpdateAll(a, buf[..i + n]), m + n)
    ensures s1 <= 0xffff_ffff && s2 <= 0xffff_ffff
  {
    s1, s2 := t1, t2;
    NmaxSuffices(m);
    for j := 0 to n
      invariant Stands(s1, s2, UpdateAll(a, buf[..i + j]), m + j)
      invariant s1 <= 0xffff_ffff && s2 <= 0xffff_ffff
    {
      assert buf[..i + j + 1][..i + j] == buf[..i + j];
      StandsStep(s1, s2, UpdateAll(a, buf[..i + j]), m + j, buf[i + j]);
      NmaxSuffices(m + j + 1);
      s1 := s1 + buf[i + j];
      s2 := s2 + s1;
    }
  }

  /** The halves of a checksum, as adler32 takes them apart. */
  function Halves(adler: nat): Sums
  {
    Sums(adler % 65536, adler / 65536 % 65536)
  }

  /** Continue checksum adler over a buffer; a null buffer gives the checksum of nothing. */
  method Adler32(adler: nat, buffer: Option<seq<byte>>) returns (r: nat)
    ensures r == if buffer.None? then 1 else Pack(UpdateAll(Halves(adler), buffer.value))
  {
    hide Update, MaxS2;
    if buffer.None? {
      return 1;
    }
    var buf := buffer.value;
    var s1: nat, s2: nat := adler % 65536, adler / 65536 % 65536;
    ghost var a := Sums(s1, s2);
    var i: nat, len: nat := 0, |buf|;
    MaxNothing();
    while len > 0
      invariant i + len == |buf| && s1 <= 65535 && s2 <= 65535 && Sums(s1, s2) == UpdateAll(a, buf[..i])
    {
      var k: nat := if len < NMAX then len else NMAX;
      len := len - k;
      ghost var n := 0;
      while k >= 16
        invariant i + k + len == |buf| && n + k <= NMAX && (n > 0 || k > 0) && n <= i
        invariant Stands(s1, s2, UpdateAll(a, buf[..i]), n)
      {
        s1, s2 := SumBytes(buf, i, 16, s1, s2, a, n);
        i, k, n := i + 16, k - 16, n + 16;
      }
      s1, s2 := SumBytes(buf, i, k, s1, s2, a, n);
      i := i + k;
      s1 := s1 % BASE;
      s2 := s2 % BASE;
      SomeReduced(a, buf[..i]);
    }
    assert buf[..i] == buf;
    r := Pack(Sums(s1, s2));
  }

  lemma MaxNothing()
    ensures MaxS2(0) == BASE - 1
  {
  }

  /** One byte is enough to reduce the sums. */
  lemma SomeReduced(a: Sums, buf: seq<byte>)
    requires buf != []
    ensures Reduced(UpdateAll(a, buf)) && UpdateAll(a, buf).s1 % BASE == UpdateAll(a, buf).s1
    ensures UpdateAll(a, buf).s2 % BASE == UpdateAll(a, buf).s2
  {
  }

  lemma Unpack(a: Sums)
    requires a.s1 < 65536 && a.s2 < 65536
    ensures Halves(Pack(a)) == a
  {
  }

  lemma {:induction false} SmallSums(a: Sums, buf: seq<byte>)
    requires a.s1 < 65536 && a.s2 < 65536
    ensures UpdateAll(a, buf).s1 < 65536 && UpdateAll(a, buf).s2 < 65536
  {
  }

  /** Checksums compose over concatenation. */
  lemma Compose(adler: nat, x: seq<byte>, y: seq<byte>)
    ensures Pack(UpdateAll(Halves(Pack(UpdateAll(Halves(adler), x))), y)) == Pack(UpdateAll(Halves(adler), x + y))
  {
    var a := Halves(adler);
    UpdateAllConcat(a, x, y);
    SmallSums(a, x);
    Unpack(UpdateAll(a, x));
  }

  // ----- the definition in closed form

  predicate Divides(d: nat, n: nat)
    requires d > 0
  {
    n % d == 0
  }

  ghost predicate Prime(n: nat)
  {
    n >= 2 && forall d: nat :: 2 <= d < n ==> !Divides(d, n)
  }

  /** p is the largest prime smaller than n. */
  ghost predicate LargestPrimeBelow(p: nat, n: nat)
  {
    Prime(p) && p < n && forall q: nat :: p < q < n ==> !Prime(q)
  }

  /** No odd number from 3 to k divides n. */
  ghost predicate NoneUpTo(n: nat, k: nat)
  {
    forall d: nat :: 3 <= d <= k && d % 2 == 1 ==> !Divides(d, n)
  }

  /** Nor does the next odd number, between two multiples of which n lies. */
  lemma NorNext(k: nat, q: nat)
    requires 3 <= k && k % 2 == 1 && NoneUpTo(BASE, k - 2) && q * k < BASE < (q + 1) * k
    ensures NoneUpTo(BASE, k)
  {
    hide Divides;
    Between(BASE, q, k);
    forall d: nat | 3 <= d <= k && d % 2 == 1
      ensures !Divides(d, BASE)
    {
      if d != k {
        assert d <= k - 2;
      }
    }
  }

  lemma Between(n: nat, q: nat, d: nat)
    requires q * d < n < (q + 1) * d
    ensures d > 0 && !Divides(d, n)
  {
    var t: int := n / d;
    assert n == t * d + n % d;
    if t < q {
      MulLess(t, q, d);
    } else if t > q {
      MulLess(q, t, d);
    }
  }

  lemma MulLess(a: int, b: int, d: nat)
    requires a < b
    ensures a * d + d <= b * d
  {
    assert (b - a - 1) * d >= 0;
  }

  /** A number below 2^16 with a great divisor has a small one. */
  lemma Quotients(n: nat, d: nat)
    requires 256 <= d < n < 65536 && Divides(d, n)
    ensures 2 <= n / d <= 255 && Divides(n / d, n)
  {
    var q := n / d;
    assert n == q * d;
    if q < 2 {
      MulLess(q, 2, d);
    } else if q > 255 {
      MulLess(255, q, d);
    }
    SameQuotient(n, q, d);
  }

  lemma SameQuotient(n: nat, q: nat, d: nat)
    requires n == q * d && q > 0
    ensures n % q == 0
  {
    var e: int := n / q - d;
    assert e * q == -(n % q);
  }

  lemma SmallOnes()
    ensures NoneUpTo(BASE, 127)
  {
    hide NoneUpTo;
    NoneUpToOne();
    NorNext(3, 21840); NorNext(5, 13104); NorNext(7, 9360); NorNext(9, 7280); NorNext(11, 5956); NorNext(13, 5040);
    NorNext(15, 4368); NorNext(17, 3854); NorNext(19, 3448); NorNext(21, 3120); NorNext(23, 2848);
    NorNext(25, 2620); NorNext(27, 2426); NorNext(29, 2259); NorNext(31, 2113); NorNext(33, 1985);
    NorNext(35, 1872); NorNext(37, 1770); NorNext(39, 1680); NorNext(41, 1598); NorNext(43, 1523);
    NorNext(45, 1456); NorNext(47, 1394); NorNext(49, 1337); NorNext(51, 1284); NorNext(53, 1236);
    NorNext(55, 1191); NorNext(57, 1149); NorNext(59, 1110); NorNext(61, 1074); NorNext(63, 1040);
    NorNext(65, 1008); NorNext(67, 977); NorNext(69, 949); NorNext(71, 922); NorNext(73, 897); NorNext(75, 873);
    NorNext(77, 850); NorNext(79, 829); NorNext(81, 808); NorNext(83, 789); NorNext(85, 770); NorNext(87, 753);
    NorNext(89, 736); NorNext(91, 720); NorNext(93, 704); NorNext(95, 689); NorNext(97, 675); NorNext(99, 661);
    NorNext(101, 648); NorNext(103, 636); NorNext(105, 624); NorNext(107, 612); NorNext(109, 601);
    NorNext(111, 590); NorNext(113, 579); NorNext(115, 569); NorNext(117, 560); NorNext(119, 550);
    NorNext(121, 541); NorNext(123, 532); NorNext(125, 524); NorNext(127, 515);
  }

  lemma OtherOnes()
    ensures NoneUpTo(BASE, 255)
  {
    hide NoneUpTo;
    SmallOnes();
    NorNext(129, 507); NorNext(131, 500); NorNext(133, 492); NorNext(135, 485); NorNext(137, 478);
    NorNext(139, 471); NorNext(141, 464); NorNext(143, 458); NorNext(145, 451); NorNext(147, 445);
    NorNext(149, 439); NorNext(151, 433); NorNext(153, 428); NorNext(155, 422); NorNext(157, 417);
    NorNext(159, 412); NorNext(161, 406); NorNext(163, 401); NorNext(165, 397); NorNext(167, 392);
    NorNext(169, 387); NorNext(171, 383); NorNext(173, 378); NorNext(175, 374); NorNext(177, 370);
    NorNext(179, 366); NorNext(181, 361); NorNext(183, 358); NorNext(185, 354); NorNext(187, 350);
    NorNext(189, 346); NorNext(191, 343); NorNext(193, 339); NorNext(195, 336); NorNext(197, 332);
    NorNext(199, 329); NorNext(201, 325); NorNext(203, 322); NorNext(205, 319); NorNext(207, 316);
    NorNext(209, 313); NorNext(211, 310); NorNext(213, 307); NorNext(215, 304); NorNext(217, 301);
    NorNext(219, 299); NorNext(221, 296); NorNext(223, 293); NorNext(225, 291); NorNext(227, 288);
    NorNext(229, 286); NorNext(231, 283); NorNext(233, 281); NorNext(235, 278); NorNext(237, 276);
    NorNext(239, 274); NorNext(241, 271); NorNext(243, 269); NorNext(245, 267); NorNext(247, 265);
    NorNext(249, 263); NorNext(251, 261); NorNext(253, 258); NorNext(255, 256);
  }

  lemma NoneUpToOne()
    ensures NoneUpTo(BASE, 1)
  {
  }

  lemma Parity(d: nat)
    requires d > 0 && Divides(d, BASE)
    ensures d % 2 == 1
  {
    var q := BASE / d;
    assert q * d == BASE;
    EvenTimes(q, d);
  }

  lemma EvenTimes(q: int, d: nat)
    ensures d % 2 == 0 ==> q * d % 2 == 0
  {
    var e := d / 2;
    assert d % 2 == 0 ==> q * d == 2 * (q * e);
  }

  lemma BaseIsPrime()
    ensures Prime(BASE)
  {
    OtherOnes();
    forall d: nat | 2 <= d < BASE
      ensures !Divides(d, BASE)
    {
      if Divides(d, BASE) {
        Parity(d);
        if d > 255 {
          Quotients(BASE, d);
          Parity(BASE / d);
        }
      }
    }
  }

  /** A factor of each larger number of 16 bits. */
  lemma Composite(n: nat)
    requires 65521 < n < 65536
    ensures !Prime(n)
  {
    var d := if n % 2 == 0 then 2 else if n % 3 == 0 then 3 else if n % 5 == 0 then 5 else if n % 7 == 0 then 7
      else if n == 65531 then 19 else 13;
    assert Divides(d, n);
  }

  lemma BaseIsLargest()
    ensures LargestPrimeBelow(BASE, 65536)
  {
    BaseIsPrime();
    forall q: nat | BASE < q < 65536
      ensures !Prime(q)
    {
      Composite(q);
    }
  }

  function Sum(buf: seq<byte>): nat
  {
    if buf == [] then 0 else buf[0] + Sum(buf[1..])
  }

  /** Every byte times the number of bytes from it on. */
  function Weighted(buf: seq<byte>): nat
  {
    if buf == [] then 0 else |buf| * buf[0] + Weighted(buf[1..])
  }

  lemma {:induction false} SumSnoc(buf: seq<byte>, x: byte)
    ensures Sum(buf + [x]) == Sum(buf) + x
    ensures Weighted(buf + [x]) == Weighted(buf) + Sum(buf) + x
  {
    if buf != [] {
      assert (buf + [x])[1..] == buf[1..] + [x];
      SumSnoc(buf[1..], x);
      assert (|buf| + 1) * buf[0] == |buf| * buf[0] + buf[0];
    }
  }

  /** Section 8.2 of RFC 1950: s1 is the sum of all bytes, s2 the sum of all values of s1, modulo the
      largest prime below 2^16; s1 begins with 1 and s2 with 0. */
  lemma {:induction false} SumsAre(p: nat, a: Sums, buf: seq<byte>)
    requires LargestPrimeBelow(p, 65536) && buf != []
    ensures UpdateAll(a, buf) == Sums((a.s1 + Sum(buf)) % p, (a.s2 + |buf| * a.s1 + Weighted(buf)) % p)
    decreases |buf|
  {
    hide Sum, Weighted, Update;
    BaseIsLargest();
    assert p == BASE;
    var k := |buf| - 1;
    var s, x := buf[..k], buf[k];
    assert s + [x] == buf;
    SumSnoc(s, x);
    var b := UpdateAll(a, s);
    UpdateIs(b, x);
    var n1, n2 := a.s1 + Sum(s), a.s2 + k * a.s1 + Weighted(s);
    SumOfNothing();
    if k > 0 {
      SumsAre(p, a, s);
      SumRemainder(n1, 0, b.s1, 0);
      SumRemainder(n2, 0, b.s2, 0);
    } else {
      assert s == [];
    }
    SumRemainder(b.s1, x, n1, x);
    SumRemainder(b.s2, (b.s1 + x) % BASE, n2, n1 + x);
    assert |buf| * a.s1 == k * a.s1 + a.s1;
  }

  lemma UpdateIs(a: Sums, x: byte)
    ensures Update(a, x) == Sums((a.s1 + x) % BASE, (a.s2 + (a.s1 + x) % BASE) % BASE)
  {
  }

  lemma SumOfNothing()
    ensures Sum([]) == 0 && Weighted([]) == 0
  {
  }

  /** The checksum from the start value, of any bytes. */
  lemma ChecksumIs(p: nat, buf: seq<byte>)
    requires LargestPrimeBelow(p, 65536)
    ensures Pack(UpdateAll(Sums(1, 0), buf)) == (|buf| + Weighted(buf)) % p * 65536 + (1 + Sum(buf)) % p
  {
    if buf == [] {
      BaseIsLargest();
      assert p == BASE;
    } else {
      SumsAre(p, Sums(1, 0), buf);
    }
  }
}
