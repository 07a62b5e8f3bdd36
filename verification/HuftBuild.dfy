/** huft_build of inftrees.c: which lengths it accepts, and when the tables it makes are right. */
module HuftBuild {
  import opened Bits
  import opened Canonical
  import opened HuftTable
  import opened HuftSteps
  import opened HuftWalk
  import opened HuftSize
  import opened HuftSpace
  import opened HuftBuilder
  import opened InfTrees
  import opened Zlib
  import opened HuftLengths

  lemma {:induction false} Locate(c: seq<nat>, g: nat, p: nat) returns (k: nat)
    requires 1 <= g < |c| && p < Off(c, g) + c[g]
    ensures 1 <= k <= g && Off(c, k) <= p < Off(c, k) + c[k]
  {
    if Off(c, g) <= p {
      k := g;
    } else {
      k := Locate(c, g - 1, p);
    }
  }

  /** Every value in the table is a symbol with a code. */
  lemma ValueIsSymbol(c: seq<nat>, g: nat, b: seq<nat>, v: seq<nat>, p: nat)
    requires 1 <= g < |c| && p < Off(c, g) + Count(b, g) && Count(b, g) <= c[g]
    requires forall k :: 1 <= k < g ==> c[k] == Count(b, k)
    requires forall sym :: 0 <= sym < |b| && b[sym] > 0 ==> ValueInPlace(c, v, b, sym)
    ensures p < |v| && v[p] < |b| && b[v[p]] > 0
  {
    hide Off, Count;
    var k := Locate(c, g, p);
    var sym := SymbolOfRank(b, k, p - Off(c, k));
    assert ValueInPlace(c, v, b, sym);
  }

  lemma {:induction false} OffIsCount(c: seq<nat>, b: seq<nat>, g: nat, k: nat)
    requires 1 <= k <= g < |c| && forall j :: 1 <= j < g ==> c[j] == Count(b, j)
    ensures Off(c, k) == CountUpTo(b, k - 1)
  {
    if k > 1 {
      OffIsCount(c, b, g, k - 1);
    }
  }

  /** The counts, filled up with dummy codes, are those of a complete code. */
  ghost predicate Filled(b: seq<nat>, c: seq<nat>, g: nat)
  {
    && |c| == BMAX + 1 && IsLongest(b, g) && 0 <= Left(b, g)
    && (forall k :: 1 <= k < g ==> c[k] == Count(b, k)) && c[g] == Count(b, g) + Left(b, g)
  }

  lemma FilledIsComplete(b: seq<nat>, c: seq<nat>, g: nat, kmin: nat, l: nat)
    requires Filled(b, c, g) && 1 <= kmin <= l <= g && c[kmin] > 0
    ensures Complete(c, g) && 0 < End(c, l)
    ensures Off(c, g) + Count(b, g) <= |b|
  {
    FirstIsNext(c, b, g, g);
    LeftSpace(b, g);
    if kmin < l {
      EndBeforeFirst(c, kmin, l);
      ShlMono(1, End(c, kmin), l - kmin);
    }
    OffIsCount(c, b, g, g);
    CountUpToBound(b, g);
  }

  lemma MakeCode(b: seq<nat>, c: seq<nat>, g: nat, l: nat, v: seq<nat>, s: nat, d: seq<nat>, e: seq<nat>)
    requires Filled(b, c, g) && Complete(c, g) && 1 <= l <= g && 0 < End(c, l) && ListsOk(s, d, e)
    requires |v| == Off(c, g) + Count(b, g)
    requires forall sym :: 0 <= sym < |b| && b[sym] > 0 ==> ValueInPlace(c, v, b, sym)
    requires forall sym :: 0 <= sym < |b| && b[sym] > 0 ==> sym < s + |d|
    ensures Describes(Code(c, g, l, v, s, d, e), b)
  {
    forall p | 0 <= p < |v|
      ensures v[p] < s + |d|
    {
      ValueIsSymbol(c, g, b, v, p);
    }
  }

  /** What the balance at the longest length says of the Kraft sum. */
  lemma BalanceIsKraft(b: seq<nat>, g: nat)
    requires LengthsOk(b) && IsLongest(b, g)
    ensures Left(b, g) < 0 <==> Pow2(BMAX) < KraftSum(b)
    ensures Left(b, g) == 0 <==> KraftSum(b) == Pow2(BMAX)
  {
    LeftIsKraft(b);
    LeftAbove(b, g, BMAX);
    if Left(b, g) >= 0 {
      ShlMono(0, Left(b, g), BMAX - g);
      ShlIn(0, BMAX - g);
    }
  }

  lemma {:induction false} AllZeroKraft(b: seq<nat>)
    requires AllZero(b)
    ensures KraftSum(b) == 0
  {
    if b != [] {
      AllZeroKraft(b[..|b| - 1]);
    }
  }

  /** Some code is longer than one bit. */
  ghost predicate HasLongCode(b: seq<nat>)
  {
    exists sym :: 0 <= sym < |b| && b[sym] > 1
  }

  lemma LongCode(b: seq<nat>, g: nat)
    requires LengthsOk(b) && IsLongest(b, g)
    ensures HasLongCode(b) <==> g > 1
  {
    CountAbsent(b, g);
    forall sym: nat | sym < |b|
      ensures b[sym] <= g
    {
      LongestBounds(b, g, sym);
    }
  }

  /** The entries that the tables of the code take, the first of them having `bits` bits. */
  ghost function Space(b: seq<nat>, bits: nat): nat
  {
    if cd :| Describes(cd, b) && cd.l == bits then Need(cd) else 0
  }

  lemma SpaceIs(cd: Code, b: seq<nat>)
    requires Describes(cd, b)
    ensures Space(b, cd.l) == Need(cd)
  {
    hide Need;
    assert exists cd' :: Describes(cd', b) && cd'.l == cd.l;
    forall cd' | Describes(cd', b) && cd'.l == cd.l
      ensures Need(cd') == Need(cd)
    {
      NeedSame(cd, cd');
    }
  }

  /** A code that fits into one table takes no more than that. */
  lemma ShortSpace(cd: Code, b: seq<nat>)
    requires LengthsOk(b) && Describes(cd, b) && forall sym :: 0 <= sym < |b| ==> b[sym] <= cd.l
    ensures Space(b, cd.l) <= Pow2(cd.l)
  {
    SpaceIs(cd, b);
    WantsSized(cd);
    CountAbsent(b, cd.g);
    OneTable(cd, Wants(cd));
  }

  lemma NoSpace(b: seq<nat>, bits: nat)
    requires forall cd :: Describes(cd, b) ==> cd.l != bits
    ensures Space(b, bits) == 0
  {
  }

  /** Some stream is decoded by an entry between lo and hi that still has its old content. */
  ghost predicate ReadsStale(hp: seq<Huft>, hp0: seq<Huft>, t: nat, bits: nat, lo: nat, hi: nat)
    requires hi <= |hp| && hi <= |hp0|
  {
    exists B, i :: lo <= i < hi && Reads(hp, t, bits, B, i, BMAX) && hp[i] == hp0[i]
  }

  /** The space for the tables held nothing but stale entries before. */
  ghost predicate Blank(hp0: seq<Huft>)
  {
    forall i :: 0 <= i < |hp0| ==> hp0[i] == STALE
  }

  lemma BlankCut(hp0: seq<Huft>, k: nat)
    requires k <= |hp0|
    ensures Blank(hp0) ==> Blank(hp0[..k])
  {
  }

  /** What is promised of the tables made for a code that is not over-subscribed. */
  ghost predicate Built(b: seq<nat>, s: nat, d: seq<nat>, e: seq<nat>, hp: seq<Huft>, hp0: seq<Huft>, t: nat,
                      bits: nat, lo: nat, hi: nat)
  {
    lo <= hi <= |hp| == |hp0| &&
    if NoWideGap(b, bits) then Decodes(hp, t, bits, b, s, d, e) else ReadsStale(hp, hp0, t, bits, lo, hi)
  }

  /** No code is decoded to a stale entry. */
  lemma StaleIsWrong(b: seq<nat>, s: nat, d: seq<nat>, e: seq<nat>, hp: seq<Huft>, hp0: seq<Huft>, t: nat,
                     bits: nat, lo: nat, hi: nat)
    requires hi <= |hp| && hi <= |hp0| && ListsOk(s, d, e) && Blank(hp0) && ReadsStale(hp, hp0, t, bits, lo, hi)
    ensures !Decodes(hp, t, bits, b, s, d, e)
  {
    var B, i :| lo <= i < hi && Reads(hp, t, bits, B, i, BMAX) && hp[i] == hp0[i];
    StaleWalk(hp, t, bits, B, i, BMAX);
    NoStaleLeaf(s, d, e);
    assert !DecodesStream(hp, t, bits, b, s, d, e, B);
  }

  lemma NoStaleLeaf(s: nat, d: seq<nat>, e: seq<nat>)
    requires ListsOk(s, d, e)
    ensures forall sym: nat :: LeafExop(sym, s, e) != STALE.exop
  {
  }

  /** The tables decode the code, whatever their space held before, exactly if there is no wide
      gap: without one they do; with one they do not if the space held stale entries. */
  lemma SoundExactly(b: seq<nat>, s: nat, d: seq<nat>, e: seq<nat>, hp: seq<Huft>, hp0: seq<Huft>, t: nat,
                     bits: nat, lo: nat, hi: nat)
    requires Built(b, s, d, e, hp, hp0, t, bits, lo, hi) && ListsOk(s, d, e)
    ensures NoWideGap(b, bits) ==> Decodes(hp, t, bits, b, s, d, e)
    ensures Blank(hp0) ==> (Decodes(hp, t, bits, b, s, d, e) <==> NoWideGap(b, bits))
  {
    hide Decodes, NoWideGap, ReadsStale, Blank, ListsOk;
    if !NoWideGap(b, bits) && Blank(hp0) {
      StaleIsWrong(b, s, d, e, hp, hp0, t, bits, lo, hi);
    }
  }

  /** No entry of the first table leads on. */
  ghost predicate Flat(hp: seq<Huft>, t: nat, bits: nat)
  {
    forall B: nat :: t + Low(B, bits) < |hp| && !IsLink(hp[t + Low(B, bits)])
  }

  lemma OneLevel(cd: Code, hp: seq<Huft>, hp0: seq<Huft>, tabs: set<Tab>, t: nat, lo: nat, hi: nat)
    requires Finished(cd, hp, hp0, tabs, t, lo, hi) && cd.l == cd.g
    ensures Flat(hp, t, cd.l)
  {
    forall B: nat
      ensures t + Low(B, cd.l) < |hp| && !IsLink(hp[t + Low(B, cd.l)])
    {
      var T := Root(cd, t);
      EntryHere(cd, hp, hp0, tabs, t, lo, hi, T, B);
      CodeLenOwns(cd.c, cd.g, B, 1);
      LeafIsNoLink(cd, hp[IndexOf(T, B)], CodeIndex(cd, B), CodeLen(cd.c, cd.g, B, 1));
    }
  }

  ghost predicate ArgumentsOk(b: seq<nat>, s: nat, d: seq<nat>, e: seq<nat>)
  {
    LengthsOk(b) && ListsOk(s, d, e) && forall sym :: 0 <= sym < |b| && b[sym] > 0 ==> sym < s + |d|
  }

  /** The code described by lengths b, its c[g] patterns left over given to dummy codes. */
  method DescribeCode(b: seq<nat>, c: array<nat>, kmin: nat, g: nat, l: nat, y: nat, s: nat, d: seq<nat>,
                      e: seq<nat>) returns (cd: Code)
    requires ArgumentsOk(b, s, d, e)
    requires c.Length == BMAX + 1 && IsLongest(b, g) && 1 <= kmin <= l <= g && c[kmin] > 0 && y == Left(b, g)
    requires forall k :: 0 <= k <= BMAX ==> c[k] == Count(b, k)
    modifies c
    ensures Describes(cd, b) && CodeOk(cd) && cd.g == g && cd.l == l && cd.s == s && cd.d == d && cd.e == e
    ensures forall k :: 1 <= k < kmin ==> cd.c[k] == Count(b, k)
  {
    c[g] := c[g] + y;
    FilledIsComplete(b, c[..], g, kmin, l);
    var x := Offsets(c, g);
    forall sym: nat | sym < |b|
      ensures b[sym] <= g
    {
      LongestBounds(b, g, sym);
    }
    var v := SortValues(b, c[..], g, x);
    cd := Code(c[..], g, l, v[..x[g]], s, d, e);
    forall sym: nat | sym < |b| && b[sym] > 0
      ensures ValueInPlace(c[..], cd.v, b, sym)
    {
      PlaceIsLow(b, c[..], g, v[..], sym);
    }
    MakeCode(b, c[..], g, l, cd.v, s, d, e);
  }

  /** Tables for the code with lengths b: symbols from s on stand for a base in d and extra bits
      in e, the first table is to have m bits if that suits the code, and the tables take up the
      entries of hp from hn to hn'. */
  method HuftBuild(b: seq<nat>, s: nat, d: seq<nat>, e: seq<nat>, m: nat, hp: array<Huft>, hn: nat)
    returns (r: Status, t: nat, bits: nat, hn': nat)
    requires ArgumentsOk(b, s, d, e) && hn <= MANY <= hp.Length
    modifies hp
    ensures hn <= hn' <= MANY && (r == OK || r == DATA_ERROR || r == BUF_ERROR)
    ensures r == DATA_ERROR <==> Pow2(BMAX) < KraftSum(b) || (bits > 0 && MANY < hn + Space(b, bits))
    ensures r != DATA_ERROR ==> (r == BUF_ERROR <==> KraftSum(b) < Pow2(BMAX) && HasLongCode(b))
    ensures r != DATA_ERROR ==> hn' == hn + if bits > 0 then Space(b, bits) else 0
    ensures (bits == 0 <==> AllZero(b)) && (bits == 0 ==> r == OK)
    ensures bits <= BMAX && (bits < m ==> forall sym :: 0 <= sym < |b| ==> b[sym] <= bits)
    ensures m < bits ==> forall sym :: 0 <= sym < |b| ==> b[sym] == 0 || bits <= b[sym]
    ensures r != DATA_ERROR && bits > 0 ==> Built(b, s, d, e, hp[..hn'], old(hp[..])[..hn'], t, bits, hn, hn')
    ensures r != DATA_ERROR && bits > 0 && Blank(old(hp[..])) ==>
      (Decodes(hp[..hn'], t, bits, b, s, d, e) <==> NoWideGap(b, bits))
    ensures r != DATA_ERROR && bits > 0 && (forall sym :: 0 <= sym < |b| ==> b[sym] <= bits) ==>
      hn' == hn + Pow2(bits) && Flat(hp[..hn'], t, bits)
    ensures forall i :: 0 <= i < hn ==> hp[i] == old(hp[i])
  {
    hide Decodes, NoWideGap, Blank, ReadsStale, Space, Need, Sized, Describes, CodeOk, Finished;
    t, hn' := 0, hn;
    var c := CountLengths(b);
    CountAll(b, 0);
    if c[0] == |b| {
      AllZeroKraft(b);
      Pow2Mono(0, BMAX);
      return OK, 0, 0, hn;
    }
    var kmin, g := Bounds(b, c);
    bits := m;
    bits := if bits < kmin then kmin else bits;
    bits := if bits > g then g else bits;
    LengthFacts(b, g);
    ShortestBounds(b, kmin);
    var y := Balance(b, c, kmin, g);
    if y < 0 {
      r := DATA_ERROR;
      return;
    }
    var cd := DescribeCode(b, c, kmin, g, bits, y, s, d, e);
    var ok;
    ghost var tabs;
    SpaceIs(cd, b);
    ok, t, hn', tabs := Generate(cd, kmin, hp, hn);
    if !ok {
      r := DATA_ERROR;
      return;
    }
    CountAbsent(b, g);
    FinishedCut(cd, hp[..], old(hp[..]), tabs, t, hn, hn');
    TablesResult(cd, b, hp[..hn'], old(hp[..])[..hn'], tabs, t, hn, hn');
    BlankCut(old(hp[..]), hn');
    SoundExactly(b, s, d, e, hp[..hn'], old(hp[..])[..hn'], t, bits, hn, hn');
    if bits == g {
      OneLevel(cd, hp[..hn'], old(hp[..])[..hn'], tabs, t, hn, hn');
    }
    r := if y != 0 && g != 1 then BUF_ERROR else OK;
  }

  lemma ShortestBounds(b: seq<nat>, kmin: nat)
    requires forall j :: 1 <= j < kmin ==> Count(b, j) == 0
    ensures forall sym :: 0 <= sym < |b| ==> b[sym] == 0 || kmin <= b[sym]
  {
    forall sym | 0 <= sym < |b| && 0 < b[sym] < kmin
      ensures false
    {
      CountAbsent(b, b[sym]);
    }
  }

  lemma LengthFacts(b: seq<nat>, g: nat)
    requires LengthsOk(b) && IsLongest(b, g)
    ensures Left(b, g) < 0 <==> Pow2(BMAX) < KraftSum(b)
    ensures Left(b, g) == 0 <==> KraftSum(b) == Pow2(BMAX)
    ensures HasLongCode(b) <==> g > 1
    ensures forall sym :: 0 <= sym < |b| ==> b[sym] <= g
  {
    BalanceIsKraft(b, g);
    LongCode(b, g);
    forall sym: nat | sym < |b|
      ensures b[sym] <= g
    {
      LongestBounds(b, g, sym);
    }
  }

  lemma PlaceIsLow(b: seq<nat>, c: seq<nat>, g: nat, v: seq<nat>, sym: nat)
    requires Filled(b, c, g) && sym < |b| && 0 < b[sym] <= g && ValueInPlace(c, v, b, sym)
    requires Off(c, g) + Count(b, g) <= |v|
    ensures ValueInPlace(c, v[..Off(c, g) + Count(b, g)], b, sym)
  {
    var k := b[sym];
    CountMono(b, sym, k);
    if k < g {
      OffMono(c, k, g);
    }
  }

  /** Finished tables depend on nothing outside their space. */
  lemma FinishedCut(cd: Code, hp: seq<Huft>, hp0: seq<Huft>, tabs: set<Tab>, t: nat, lo: nat, hi: nat)
    requires Finished(cd, hp, hp0, tabs, t, lo, hi)
    ensures Finished(cd, hp[..hi], hp0[..hi], tabs, t, lo, hi)
  {
    var C := Pow2(cd.g);
    forall T | T in tabs
      ensures TabDone(cd, hp[..hi], tabs, T, cd.g, C) && Untouched(cd, hp[..hi], hp0[..hi], T)
    {
      assert TabDone(cd, hp, tabs, T, cd.g, C) && Untouched(cd, hp, hp0, T);
      forall B: nat | Covers(T, B) && Msb(B, cd.g) < C && Fillable(cd, T)
        ensures EntryOk(cd, hp[..hi], tabs, T, B)
      {
        EntryCut(cd, hp, tabs, T, B, hi);
      }
    }
  }

  lemma EntryCut(cd: Code, hp: seq<Huft>, tabs: set<Tab>, T: Tab, B: nat, hi: nat)
    requires CodeOk(cd) && EntryOk(cd, hp, tabs, T, B) && T.off + Pow2(T.jb) <= hi <= |hp|
    ensures EntryOk(cd, hp[..hi], tabs, T, B)
  {
    IndexInside(T, B);
    if CodeLen(cd.c, cd.g, B, 1) > T.w + T.jb {
      var T' :| T' in tabs && Covers(T', B) && Linked(cd, hp, T, T') && LinkAt(cd, T, T') == IndexOf(T, B);
      assert Linked(cd, hp[..hi], T, T');
    }
  }

  lemma TablesResult(cd: Code, b: seq<nat>, hp: seq<Huft>, hp0: seq<Huft>, tabs: set<Tab>, t: nat, lo: nat, hi: nat)
    requires LengthsOk(b) && Describes(cd, b) && Finished(cd, hp, hp0, tabs, t, lo, hi)
    requires lo <= hi
    ensures Built(b, cd.s, cd.d, cd.e, hp, hp0, t, cd.l, lo, hi)
  {
    SameGap(cd, b);
    if NoWideGap(b, cd.l) {
      forall T | T in tabs
        ensures Fillable(cd, T)
      {
        NoGapIsFillable(cd, T);
      }
      TablesDecode(cd, b, hp, hp0, tabs, t, lo, hi);
    } else {
      if AllFillable(cd, tabs) {
        FillableIsNoGap(cd, hp, hp0, tabs, t, lo, hi);
      }
      var B, i := GapIsRead(cd, hp, hp0, tabs, t, lo, hi);
    }
  }
}
