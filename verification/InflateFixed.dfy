/** inflate_trees_fixed of inftrees.c: the tables of blocks with fixed codes. */
module InflateFixed {
  import opened Bits
  import opened Sequences
  import opened Canonical
  import opened HuftTable
  import opened HuftBuilder
  import opened InfTrees
  import opened InflateTrees
  import opened InflateSpec
  import HuftBuild

  lemma MulStep(n: nat, p: nat)
    requires n > 0
    ensures n * p == (n - 1) * p + p
  {
  }

  lemma {:induction false} KraftFill(a: seq<nat>, n: nat, x: nat)
    requires LengthsOk(a) && 1 <= x <= BMAX
    ensures LengthsOk(a + Repeat<nat>(x, n)) && KraftSum(a + Repeat<nat>(x, n)) == KraftSum(a) + n * Pow2(BMAX - x)
  {
    hide KraftSum, Shl, Pow2;
    if n == 0 {
      assert a + Repeat<nat>(x, 0) == a;
    } else {
      KraftFill(a, n - 1, x);
      KraftSnoc(a + Repeat<nat>(x, n - 1), x);
      assert a + Repeat<nat>(x, n) == a + Repeat<nat>(x, n - 1) + [x];
      MulStep(n, Pow2(BMAX - x));
    }
  }

  lemma FixedLengths()
    ensures |FIXED_LIT| == 288 && |FIXED_DIST| == 30
    ensures forall i :: 0 <= i < 288 ==> 7 <= FIXED_LIT[i] <= 9
    ensures FIXED_LIT[0] == 8 && FIXED_LIT[144] == 9 && FIXED_LIT[256] == 7
    ensures forall i :: 0 <= i < 30 ==> FIXED_DIST[i] == 5
    ensures LengthsOk(FIXED_LIT) && LengthsOk(FIXED_DIST)
  {
  }

  /** The fixed literal/length code is complete; two distance codes are left over. */
  lemma FixedKraft()
    ensures LengthsOk(FIXED_LIT) && LengthsOk(FIXED_DIST)
    ensures KraftSum(FIXED_LIT) == Pow2(BMAX) && KraftSum(FIXED_DIST) + 2 * Pow2(10) == Pow2(BMAX)
  {
    FixedLengths();
    var a, b, c := Repeat<nat>(8, 144), Repeat<nat>(9, 112), Repeat<nat>(7, 24);
    KraftFill([], 144, 8);
    assert [] + a == a;
    KraftFill(a, 112, 9);
    KraftFill(a + b, 24, 7);
    KraftFill(a + b + c, 8, 8);
    assert FIXED_LIT == a + b + c + Repeat<nat>(8, 8);
    KraftFill([], 30, 5);
    assert [] + FIXED_DIST == FIXED_DIST;
    hide KraftSum, LengthsOk;
    Powers();
  }

  /** A code that fits into one table has no gap to go wrong on, and space for it. */
  lemma OneTable(b: seq<nat>, bits: nat)
    requires LengthsOk(b) && 1 <= bits <= 9 && forall i :: 0 <= i < |b| ==> b[i] <= bits
    ensures NoWideGap(b, bits)
    ensures HuftBuild.Space(b, bits) <= 512
  {
    forall g: nat | IsLongest(b, g)
      ensures g <= bits
    {
      CountAbsent(b, g);
    }
    if cd :| Describes(cd, b) && cd.l == bits {
      HuftBuild.ShortSpace(cd, b);
      Pow2Mono(bits, 9);
      Powers();
    } else {
      HuftBuild.NoSpace(b, bits);
    }
  }

  /** Make the one table of a code whose longest codes, that of i for one, have m bits. */
  method BuildOne(b: seq<nat>, s: nat, d: seq<nat>, e: seq<nat>, m: nat, hp: array<Huft>, f: nat, ghost i: nat)
    returns (t: nat, bits: nat, f': nat)
    requires HuftBuild.ArgumentsOk(b, s, d, e) && KraftSum(b) <= Pow2(BMAX) && f <= MANY - 512 && MANY <= hp.Length
    requires 1 <= m <= 9 && i < |b| && b[i] == m && forall sym :: 0 <= sym < |b| ==> b[sym] <= m
    modifies hp
    ensures bits == m && f' == f + Pow2(m) <= MANY && Decodes(hp[..f'], t, bits, b, s, d, e)
    ensures forall j :: 0 <= j < f ==> hp[j] == old(hp[j])
  {
    OneTable(b, m);
    Pow2Mono(m, 9);
    Powers();
    hide KraftSum, NoWideGap, HuftBuild.Space, Decodes, Shl, ListsOk;
    var r;
    r, t, bits, f' := HuftBuild.HuftBuild(b, s, d, e, m, hp, f);
    assert b[i] > 0;
  }

  /** The fixed tables, made in space hp. */
  method InflateTreesFixed(hp: array<Huft>) returns (bl: nat, bd: nat, tl: nat, td: nat)
    requires MANY <= hp.Length
    modifies hp
    ensures bl == 9 && Decodes(hp[..], tl, bl, FIXED_LIT, 257, CPLENS, CPLEXT)
    ensures bd == 5 && Decodes(hp[..], td, bd, FIXED_DIST, 0, CPDIST, CPDEXT)
  {
    var lit, dst := FIXED_LIT, FIXED_DIST;
    FixedLengths();
    FixedKraft();
    ListsAreOk();
    Powers();
    hide KraftSum, Decodes, Shl;
    var f;
    tl, bl, f := BuildOne(lit, 257, CPLENS, CPLEXT, 9, hp, 0, 144);
    ghost var hp1 := hp[..f];
    td, bd, f := BuildOne(dst, 0, CPDIST, CPDEXT, 5, hp, f, 0);
    assert hp1 <= hp[..];
    DecodesExtends(hp1, hp[..], tl, bl, lit, 257, CPLENS, CPLEXT);
    DecodesExtends(hp[..f], hp[..], td, bd, dst, 0, CPDIST, CPDEXT);
  }
}
