/** inflate_trees_bits and inflate_trees_dynamic of inftrees.c: the tables of a block. */
module InflateTrees {
  import opened Bits
  import opened Canonical
  import opened HuftTable
  import opened HuftBuilder
  import opened HuftSize
  import opened HuftSpace
  import opened HuftWalk
  import opened InfTrees
  import opened Zlib
  import HuftBuild
  import HuftLengths

  /** Copy lengths and extra bits for literal codes 257..285; 112 marks the invalid two. */
  const CPLENS: seq<nat> := [3, 4, 5, 6, 7, 8, 9, 10, 11, 13, 15, 17, 19, 23, 27, 31,
                             35, 43, 51, 59, 67, 83, 99, 115, 131, 163, 195, 227, 258, 0, 0]
  const CPLEXT: seq<nat> := [0, 0, 0, 0, 0, 0, 0, 0, 1, 1, 1, 1, 2, 2, 2, 2,
                             3, 3, 3, 3, 4, 4, 4, 4, 5, 5, 5, 5, 0, 112, 112]
  /** Copy offsets and extra bits for distance codes 0..29. */
  const CPDIST: seq<nat> := [1, 2, 3, 4, 5, 7, 9, 13, 17, 25, 33, 49, 65, 97, 129, 193,
                             257, 385, 513, 769, 1025, 1537, 2049, 3073, 4097, 6145, 8193, 12289, 16385, 24577]
  const CPDEXT: seq<nat> := [0, 0, 0, 0, 1, 1, 2, 2, 3, 3, 4, 4, 5, 5, 6, 6,
                             7, 7, 8, 8, 9, 9, 10, 10, 11, 11, 12, 12, 13, 13]

  /** The lengths make a code that huft_build accepts. */
  ghost predicate Acceptable(b: seq<nat>)
    requires LengthsOk(b)
  {
    KraftSum(b) == Pow2(BMAX) || (KraftSum(b) < Pow2(BMAX) && !HuftBuild.HasLongCode(b))
  }

  /** An accepted code of fewer than 2^(m+1) symbols has no gap that m-bit tables mishandle. */
  lemma AcceptedHasNoGap(b: seq<nat>, m: nat, bits: nat)
    requires LengthsOk(b) && !AllZero(b) && Acceptable(b) && |b| < 2 * Pow2(m)
    requires bits > 0 && (bits < m ==> forall sym :: 0 <= sym < |b| ==> b[sym] <= bits)
    ensures NoWideGap(b, bits)
  {
    forall g, K | IsLongest(b, g) && 2 * bits <= K < g && MultipleOf(bits, K)
      ensures Left(b, K) < Pow2(bits)
    {
      CountAbsent(b, g);
      HuftBuild.LengthFacts(b, g);
      Pow2Mono(if bits < m then 0 else m, bits);
      FewSymbolsNoGap(b, g, bits);
    }
  }

  lemma {:induction false} WalkExtends(hp: seq<Huft>, hp': seq<Huft>, t: nat, nb: nat, B: nat, cap: nat, room: nat,
                      fuel: nat)
    requires hp <= hp'
    ensures Walk(hp, t, nb, B, fuel).Some? ==> Walk(hp', t, nb, B, fuel) == Walk(hp, t, nb, B, fuel)
    ensures StepsOk(hp, t, nb, B, cap, room, fuel) ==> StepsOk(hp', t, nb, B, cap, room, fuel)
    decreases fuel
  {
    var i := t + Low(B, nb);
    if i < |hp| && IsLink(hp[i]) && fuel > 0 {
      WalkExtends(hp, hp', i + hp[i].base, hp[i].exop, Shr(B, hp[i].bits), cap, if room < hp[i].bits then 0
        else room - hp[i].bits, fuel - 1);
    }
  }

  /** Tables stay good when entries are added behind them. */
  lemma DecodesExtends(hp: seq<Huft>, hp': seq<Huft>, t: nat, bits: nat, lens: seq<nat>, s: nat, d: seq<nat>,
                      e: seq<nat>)
    requires hp <= hp' && Decodes(hp, t, bits, lens, s, d, e)
    ensures Decodes(hp', t, bits, lens, s, d, e)
  {
    forall B: nat
      ensures DecodesStream(hp', t, bits, lens, s, d, e, B)
    {
      assert DecodesStream(hp, t, bits, lens, s, d, e, B);
      WalkExtends(hp, hp', t, bits, B, bits, BMAX, BMAX);
    }
  }

  /** An accepted code of fewer than 2^(m+1) symbols has a code of at most m bits. */
  lemma AcceptedIsShort(b: seq<nat>, m: nat, bits: nat)
    requires LengthsOk(b) && !AllZero(b) && Acceptable(b) && |b| < 2 * Pow2(m) && m < BMAX && 1 <= m
    requires m < bits ==> forall sym :: 0 <= sym < |b| ==> b[sym] == 0 || bits <= b[sym]
    ensures bits <= m
  {
    if m < bits {
      var sym :| 0 <= sym < |b| && b[sym] != 0;
      assert b[sym] > 1;
      forall j | 1 <= j <= m
        ensures Count(b, j) == 0
      {
        CountAbsent(b, j);
      }
      HuftLengths.LeftBelow(b, m);
      LeftIsKraft(b);
      LeftNeedsCodes(b, BMAX, m);
      CountUpToBound(b, BMAX);
    }
  }

  /** Tables for the 19 code length codes of a dynamic block. */
  method InflateTreesBits(c: seq<nat>, m: nat, hp: array<Huft>) returns (r: Status, bb: nat, tb: nat)
    requires |c| == 19 && (forall i :: 0 <= i < 19 ==> c[i] <= 7) && m == 7 && MANY <= hp.Length
    modifies hp
    ensures r == OK || r == DATA_ERROR
    ensures r == OK <==> !AllZero(c) && Acceptable(c)
    ensures r == OK ==> 1 <= bb <= 7 && Decodes(hp[..], tb, bb, c, 19, [], []) && HuftBuild.Flat(hp[..], tb, bb)
  {
    var hn;
    r, tb, bb, hn := HuftBuild.HuftBuild(c, 19, [], [], m, hp, 0);
    if bb > 0 {
      FirstTableFits(c, bb, m);
    }
    assert Pow2(4) == 16 && |c| < 2 * Pow2(7) by { Pow2Mono(4, 7); }
    if r == OK && bb > 0 {
      AcceptedHasNoGap(c, m, bb);
      AcceptedIsShort(c, m, bb);
      DecodesExtends(hp[..hn], hp[..], tb, bb, c, 19, [], []);
      FlatExtends(hp[..hn], hp[..], tb, bb);
    }
    if r == BUF_ERROR || (r == OK && bb == 0) {
      r := DATA_ERROR;
    }
  }

  lemma FlatExtends(hp: seq<Huft>, hp': seq<Huft>, t: nat, bits: nat)
    requires hp <= hp' && HuftBuild.Flat(hp, t, bits)
    ensures HuftBuild.Flat(hp', t, bits)
  {
    forall B: nat
      ensures t + Low(B, bits) < |hp'| && !IsLink(hp'[t + Low(B, bits)])
    {
      assert t + Low(B, bits) < |hp| && !IsLink(hp[t + Low(B, bits)]);
    }
  }

  /** A first table of at most 7 bits always fits. */
  lemma FirstTableFits(c: seq<nat>, bb: nat, m: nat)
    requires LengthsOk(c) && m == 7 && (forall i :: 0 <= i < |c| ==> c[i] <= bb) && bb <= m
    ensures HuftBuild.Space(c, bb) <= 128
  {
    if cd :| Describes(cd, c) && cd.l == bb {
      Pow2Mono(bb, 7);
      assert Pow2(4) == 16 && Pow2(7) == 128;
      HuftBuild.ShortSpace(cd, c);
    } else {
      HuftBuild.NoSpace(c, bb);
    }
  }

  lemma CodesAtMost(cd: Code, b: seq<nat>)
    requires Describes(cd, b) && Left(b, cd.g) == 0
    ensures cd.g < |cd.c| && Off(cd.c, cd.g + 1) <= |b|
  {
    HuftBuild.OffIsCount(cd.c, b, cd.g, cd.g);
    CountUpToBound(b, cd.g);
  }

  /** The space that tables of a complete code take, with 9 or 6 bits in the first of several. */
  lemma CompleteTakes(cd: Code, tabs: set<Tab>, b: seq<nat>)
    requires Describes(cd, b) && Sized(cd, tabs, Total(tabs, BMAX)) && (cd.l == 9 || cd.l == 6) && cd.l < cd.g <= BMAX
    requires Left(b, cd.g) == 0 && NoWideGap(b, cd.l)
    ensures Total(tabs, BMAX) <= |b| + if cd.l == 9 then 768 else 352
  {
    hide Sized, Describes, Total, Shl;
    var l, g := cd.l, cd.g;
    SizedIs(cd, tabs);
    AllFilled(cd, tabs, b);
    CodesAtMost(cd, b);
    ThreeLevels(cd, tabs);
    Pow2Mono(if g <= 2 * l then g - l + 2 else g - 2 * l + 2, if g <= 2 * l then 8 else 5);
    Powers();
  }

  lemma AllFilled(cd: Code, tabs: set<Tab>, b: seq<nat>)
    requires Describes(cd, b) && Sized(cd, tabs, Total(tabs, BMAX)) && NoWideGap(b, cd.l)
    ensures forall T :: T in tabs ==> Fillable(cd, T)
  {
    SameGap(cd, b);
    forall T | T in tabs
      ensures Fillable(cd, T)
    {
      NoGapIsFillable(cd, T);
    }
  }

  /** The space that tables of an accepted code take. */
  lemma AcceptedSpace(b: seq<nat>, m: nat, bits: nat)
    requires LengthsOk(b) && !AllZero(b) && Acceptable(b) && |b| < 2 * Pow2(m) && (m == 9 || m == 6)
    requires 0 < bits <= m && (bits < m ==> forall sym :: 0 <= sym < |b| ==> b[sym] <= bits)
    ensures HuftBuild.Space(b, bits) <= |b| + if m == 9 then 768 else 352
  {
    hide NoWideGap, Shl, HuftBuild.HasLongCode, HuftBuild.Space, Need;
    if cd :| Describes(cd, b) && cd.l == bits {
      HuftBuild.SpaceIs(cd, b);
      HuftBuild.LengthFacts(b, cd.g);
      CountAbsent(b, cd.g);
      Powers();
      if cd.g <= bits {
        HuftBuild.ShortSpace(cd, b);
        Pow2Mono(bits, m);
      } else {
        AcceptedHasNoGap(b, m, bits);
        WantsSized(cd);
        NeedIs(cd);
        CompleteTakes(cd, Wants(cd), b);
      }
    } else {
      HuftBuild.NoSpace(b, bits);
    }
  }

  lemma NeedIs(cd: Code)
    requires CodeOk(cd)
    ensures Need(cd) == Total(Wants(cd), BMAX)
  {
  }

  /** Tables of an accepted code are right, and fit if enough entries are free. */
  lemma Suits(b: seq<nat>, m: nat, bits: nat)
    requires LengthsOk(b) && !AllZero(b) && Acceptable(b) && |b| < 2 * Pow2(m) && (m == 9 || m == 6)
    requires 0 < bits && (bits < m ==> forall sym :: 0 <= sym < |b| ==> b[sym] <= bits)
    requires m < bits ==> forall sym :: 0 <= sym < |b| ==> b[sym] == 0 || bits <= b[sym]
    ensures bits <= m && NoWideGap(b, bits)
    ensures HuftBuild.Space(b, bits) <= |b| + if m == 9 then 768 else 352
  {
    hide AllZero, Acceptable, NoWideGap, HuftBuild.Space;
    AcceptedHasNoGap(b, m, bits);
    AcceptedIsShort(b, m, bits);
    AcceptedSpace(b, m, bits);
  }

  lemma ListsAreOk()
    ensures ListsOk(257, CPLENS, CPLEXT) && |CPLENS| == 31 && ListsOk(0, CPDIST, CPDEXT) && |CPDIST| == 30
  {
  }

  /** The lengths of a dynamic block make codes that inflate accepts. */
  ghost predicate AcceptDynamic(lit: seq<nat>, dst: seq<nat>)
    requires LengthsOk(lit) && LengthsOk(dst)
  {
    !AllZero(lit) && Acceptable(lit) && Acceptable(dst) && (AllZero(dst) ==> |lit| == 257)
  }

  /** Tables for the nl literal/length and nd distance codes of a dynamic block.  Tables of codes
      that inflate accepts always fit into MANY entries. */
  method InflateTreesDynamic(nl: nat, nd: nat, c: seq<nat>, ml: nat, md: nat, hp: array<Huft>)
    returns (r: Status, bl: nat, bd: nat, tl: nat, td: nat)
    requires 257 <= nl <= 288 && 1 <= nd <= 30 && |c| == nl + nd && LengthsOk(c) && ml == 9 && md == 6
    requires MANY <= hp.Length
    modifies hp
    ensures r == OK || r == DATA_ERROR
    ensures r == OK <==> AcceptDynamic(c[..nl], c[nl..])
    ensures r == OK ==> 1 <= bl <= 9 && Decodes(hp[..], tl, bl, c[..nl], 257, CPLENS, CPLEXT)
    ensures r == OK ==> bd <= 6 && (bd == 0 <==> AllZero(c[nl..]))
    ensures r == OK && bd > 0 ==> Decodes(hp[..], td, bd, c[nl..], 0, CPDIST, CPDEXT)
  {
    hide NoWideGap, HuftBuild.Space, HuftBuild.Flat, Shl;
    var lit, dst := c[..nl], c[nl..];
    ListsAreOk();
    Powers();
    var hn;
    r, tl, bl, hn := HuftBuild.HuftBuild(lit, 257, CPLENS, CPLEXT, ml, hp, 0);
    bd, td := 0, 0;
    if !AllZero(lit) && Acceptable(lit) {
      Suits(lit, ml, bl);
    }
    if r != OK || bl == 0 {
      r := DATA_ERROR;
      return;
    }
    ghost var hp1 := hp[..hn];
    r, td, bd, hn := HuftBuild.HuftBuild(dst, 0, CPDIST, CPDEXT, md, hp, hn);
    if !AllZero(dst) && Acceptable(dst) {
      Suits(dst, md, bd);
    }
    if r != OK || (bd == 0 && nl > 257) {
      r := DATA_ERROR;
      return;
    }
    assert hp1 <= hp[..];
    DecodesExtends(hp1, hp[..], tl, bl, lit, 257, CPLENS, CPLEXT);
    if bd > 0 {
      DecodesExtends(hp[..hn], hp[..], td, bd, dst, 0, CPDIST, CPDEXT);
    }
  }
}
