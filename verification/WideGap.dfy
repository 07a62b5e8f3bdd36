/** A code that huft_build accepts as incomplete and tabulates wrongly: one code each of 1 to 6
    bits and one of 15, in 6-bit tables.  The codes of up to 12 bits leave 64 patterns of 12 bits
    over, and the table opened for them after 6 bits is 9 bits wide, of which only the first 64
    entries are ever written. */
module WideGap {
  import opened Bits
  import opened Canonical
  import opened HuftTable
  import opened HuftBuilder
  import opened HuftSize
  import opened HuftSpace
  import opened InfTrees
  import opened Zlib
  import HuftBuild

  const GAPPED: seq<nat> := [1, 2, 3, 4, 5, 6, 15]

  lemma TablesAreWrong(s: nat, d: seq<nat>, e: seq<nat>, hp: seq<Huft>, hp0: seq<Huft>, t: nat, lo: nat, hi: nat)
    requires HuftBuild.Built(GAPPED, s, d, e, hp, hp0, t, 6, lo, hi) && ListsOk(s, d, e)
    requires HuftBuild.Blank(hp0)
    ensures !NoWideGap(GAPPED, 6)
    ensures !Decodes(hp, t, 6, GAPPED, s, d, e)
  {
    hide HuftBuild.Built, HuftBuild.Blank, Decodes;
    Gap();
    HuftBuild.SoundExactly(GAPPED, s, d, e, hp, hp0, t, 6, lo, hi);
  }

  /** huft_build makes such tables for these lengths. */
  method BuildThem() returns (r: Status, t: nat, bits: nat, hp: array<Huft>, hn': nat)
    ensures r == BUF_ERROR && bits == 6 && hn' <= MANY <= hp.Length
    ensures !Decodes(hp[..hn'], t, bits, GAPPED, 7, [], [])
  {
    hide Decodes, NoWideGap, KraftSum, HuftBuild.Built, HuftBuild.Flat, HuftBuild.Space;
    hp := new Huft[MANY](_ => STALE);
    Sum();
    assert GAPPED[0] == 1 && GAPPED[6] == 15;
    Fits();
    r, t, bits, hn' := HuftBuild.HuftBuild(GAPPED, 7, [], [], 6, hp, 0);
    Gap();
  }

  lemma Sum()
    ensures LengthsOk(GAPPED) && KraftSum(GAPPED) < Pow2(BMAX)
    ensures HuftBuild.HasLongCode(GAPPED) && !AllZero(GAPPED)
  {
    hide KraftSum, Shl;
    KraftSnoc([], 1);
    KraftSnoc([1], 2);
    KraftSnoc([1, 2], 3);
    KraftSnoc([1, 2, 3], 4);
    KraftSnoc([1, 2, 3, 4], 5);
    KraftSnoc([1, 2, 3, 4, 5], 6);
    KraftSnoc([1, 2, 3, 4, 5, 6], 15);
    Prefixes();
    KraftNone();
    Powers();
    assert GAPPED[6] > 1;
  }

  lemma KraftNone()
    ensures KraftSum([]) == 0
  {
  }

  lemma Prefixes()
    ensures [] + [1] == [1] && [1] + [2] == [1, 2] && [1, 2] + [3] == [1, 2, 3] && [1, 2, 3] + [4] == [1, 2, 3, 4]
    ensures [1, 2, 3, 4] + [5] == [1, 2, 3, 4, 5] && [1, 2, 3, 4, 5] + [6] == [1, 2, 3, 4, 5, 6]
    ensures [1, 2, 3, 4, 5, 6] + [15] == GAPPED
  {
  }

  lemma Gap()
    ensures !NoWideGap(GAPPED, 6) && IsLongest(GAPPED, 15)
    ensures forall k: nat :: 6 <= k <= 14 ==> Left(GAPPED, k) == Pow2(k - 6)
  {
    forall k: nat
      ensures Count(GAPPED, k) == if k == 15 || 1 <= k <= 6 then 1 else 0
    {
      Counts(k);
    }
    assert Left(GAPPED, 3) == 1 && Left(GAPPED, 6) == 1 by {
      assert Left(GAPPED, 0) == 1 && Left(GAPPED, 1) == 1 && Left(GAPPED, 2) == 1 && Left(GAPPED, 3) == 1;
      assert Left(GAPPED, 4) == 1 && Left(GAPPED, 5) == 1;
    }
    forall k: nat | 6 <= k <= 14
      ensures Left(GAPPED, k) == Pow2(k - 6)
    {
      LeftAbove(GAPPED, 6, k);
    }
    assert IsLongest(GAPPED, 15) && MultipleOf(6, 6) && MultipleOf(6, 12);
    assert 2 * 6 <= 12 < 15 && Left(GAPPED, 12) == Pow2(6);
  }

  lemma Counts(k: nat)
    ensures Count(GAPPED, k) == if k == 15 || 1 <= k <= 6 then 1 else 0
  {
    CountSnoc([1, 2, 3, 4, 5, 6], 15, k);
    CountSnoc([1, 2, 3, 4, 5], 6, k);
    CountSnoc([1, 2, 3, 4], 5, k);
    CountSnoc([1, 2, 3], 4, k);
    CountSnoc([1, 2], 3, k);
    CountSnoc([1], 2, k);
    CountSnoc([], 1, k);
    Prefixes();
  }

  // ----- the tables fit

  lemma Described(cd: Code)
    requires Describes(cd, GAPPED)
    ensures cd.g == 15 && |cd.c| == 16 && (forall k :: 1 <= k <= 6 ==> cd.c[k] == 1)
    ensures (forall k :: 7 <= k <= 14 ==> cd.c[k] == 0) && cd.c[15] == 512
  {
    hide NoWideGap;
    Gap();
    forall k: nat
      ensures Count(GAPPED, k) == if k == 15 || 1 <= k <= 6 then 1 else 0
    {
      Counts(k);
    }
    assert Pow2(8) == 256 by { assert Pow2(2) == 4 && Pow2(5) == 32; }
    assert Left(GAPPED, 15) == 2 * Left(GAPPED, 14) - 1;
  }

  lemma {:induction false} Ends(c: seq<nat>, k: nat)
    requires |c| == 16 && (forall j :: 1 <= j <= 6 ==> c[j] == 1) && (forall j :: 7 <= j <= 14 ==> c[j] == 0)
    requires 6 <= k <= 14
    ensures End(c, k) == Shl(63, k - 6)
  {
    if k > 6 {
      Ends(c, k - 1);
    } else {
      assert End(c, 1) == 1 && End(c, 2) == 3 && End(c, 3) == 7 && End(c, 4) == 15 && End(c, 5) == 31;
    }
  }

  /** Only the last of the 6-bit prefixes leads to another table. */
  lemma LastPrefix(cd: Code, T: Tab)
    requires Describes(cd, GAPPED) && TabShape(cd, T) && Least(cd, T) && T.w == 6
    ensures T.pre == 63 && T.jb <= 9
  {
    Described(cd);
    Ends(cd.c, T.w + T.jb - 1);
    ShlMono(T.pre + 1, 63, T.jb - 1);
    assert Pow2(6) == 64 by { assert Pow2(3) == 8; }
  }

  lemma OneAt(cd: Code, tabs: set<Tab>, w: nat, z: nat)
    requires Sized(cd, tabs, Total(tabs, BMAX))
    requires forall T, T' :: T in tabs && T' in tabs && T.w == w == T'.w ==> T.pre == T'.pre && T.jb <= z
    ensures Level(tabs, w, BMAX) <= Pow2(z)
  {
    if T :| T in tabs && T.w == w {
      assert TabShape(cd, T) && Least(cd, T);
      NoneThere(tabs - {T}, w, BMAX);
      LevelMore(tabs - {T}, T, w, BMAX);
      assert tabs - {T} + {T} == tabs;
      Pow2Mono(T.jb, z);
    } else {
      NoneThere(tabs, w, BMAX);
    }
  }

  lemma Space(cd: Code, tabs: set<Tab>)
    requires Describes(cd, GAPPED) && cd.l == 6 && Sized(cd, tabs, Total(tabs, BMAX))
    ensures Total(tabs, BMAX) <= MANY
  {
    Described(cd);
    hide Describes, Total, Level, MultipleOf, Shl;
    Levels(cd, tabs);
    RootLevel(cd, tabs);
    forall T | T in tabs && T.w == 6
      ensures T.pre == 63 && T.jb <= 9
    {
      LastPrefix(cd, T);
    }
    OneAt(cd, tabs, 6, 9);
    forall T | T in tabs && T.w == 12
      ensures T.jb <= 3
    {
      assert Least(cd, T);
    }
    LevelStops(tabs, 12, 3, BMAX);
    LevelBound(cd, tabs, 12, 3);
    LastCodes(cd.c);
    Powers();
  }

  lemma LastCodes(c: seq<nat>)
    requires |c| == 16 && c[13] == 0 == c[14] && c[15] == 512
    ensures Off(c, 16) == Off(c, 13) + 512
  {
    assert Off(c, 14) == Off(c, 13) && Off(c, 15) == Off(c, 14);
  }

  lemma Fits()
    ensures HuftBuild.Space(GAPPED, 6) <= MANY
  {
    if cd :| Describes(cd, GAPPED) && cd.l == 6 {
      HuftBuild.SpaceIs(cd, GAPPED);
      WantsSized(cd);
      Space(cd, Wants(cd));
    } else {
      HuftBuild.NoSpace(GAPPED, 6);
    }
  }
}
