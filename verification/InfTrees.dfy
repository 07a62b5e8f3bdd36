/** inftrees.c: from code lengths to decoding tables. */
module InfTrees {
  import opened Bits
  import opened Canonical
  import opened HuftTable
  import opened HuftSteps
  import opened HuftWalk
  import opened HuftBuilder

  ghost predicate LengthsOk(lens: seq<nat>)
  {
    forall i :: 0 <= i < |lens| ==> lens[i] <= BMAX
  }

  ghost predicate AllZero(lens: seq<nat>)
  {
    forall i :: 0 <= i < |lens| ==> lens[i] == 0
  }

  ghost predicate IsLongest(lens: seq<nat>, g: nat)
  {
    1 <= g <= BMAX && Count(lens, g) > 0 && forall k :: g < k <= BMAX ==> Count(lens, k) == 0
  }

  // ----- the code description that the lengths give

  /** cd describes the code of lens, filled up with dummy codes of the greatest length. */
  ghost predicate Describes(cd: Code, lens: seq<nat>)
  {
    && CodeOk(cd) && IsLongest(lens, cd.g) && 0 <= Left(lens, cd.g)
    && (forall k :: 1 <= k < cd.g ==> cd.c[k] == Count(lens, k))
    && cd.c[cd.g] == Count(lens, cd.g) + Left(lens, cd.g)
    && |cd.v| == Off(cd.c, cd.g) + Count(lens, cd.g)
    && forall sym :: 0 <= sym < |lens| && lens[sym] > 0 ==> ValueInPlace(cd.c, cd.v, lens, sym)
  }

  ghost predicate ValueInPlace(c: seq<nat>, v: seq<nat>, lens: seq<nat>, sym: nat)
    requires sym < |lens|
  {
    var k := lens[sym];
    1 <= k < |c| && var p := Off(c, k) + Count(lens[..sym], k); p < |v| && v[p] == sym
  }

  lemma {:induction false} CountAbsent(lens: seq<nat>, k: nat)
    ensures Count(lens, k) == 0 <==> forall i :: 0 <= i < |lens| ==> lens[i] != k
  {
    if lens != [] {
      CountAbsent(lens[..|lens| - 1], k);
      assert forall i :: 0 <= i < |lens| - 1 ==> lens[..|lens| - 1][i] == lens[i];
    }
  }

  lemma LongestBounds(lens: seq<nat>, g: nat, sym: nat)
    requires LengthsOk(lens) && IsLongest(lens, g) && sym < |lens|
    ensures lens[sym] <= g
  {
    if lens[sym] > g {
      CountAbsent(lens, lens[sym]);
    }
  }

  lemma {:induction false} FirstIsNext(c: seq<nat>, lens: seq<nat>, g: nat, k: nat)
    requires 1 <= k <= g < |c| && forall j :: 1 <= j < g ==> c[j] == Count(lens, j)
    ensures First(c, k) == NextCode(lens, k)
  {
    if k > 1 {
      FirstIsNext(c, lens, g, k - 1);
    }
  }

  /** The code of symbol sym has sym's place in code order. */
  lemma SymbolIndex(cd: Code, lens: seq<nat>, sym: nat, B: nat)
    requires LengthsOk(lens) && Describes(cd, lens) && StartsWith(lens, sym, B)
    ensures CodeLen(cd.c, cd.g, B, 1) == lens[sym]
    ensures CodeIndex(cd, B) < |cd.v| && cd.v[CodeIndex(cd, B)] == sym
  {
    var k := lens[sym];
    LongestBounds(lens, cd.g, sym);
    FirstIsNext(cd.c, lens, cd.g, k);
    CountMono(lens, sym, k);
    CodeLenOwns(cd.c, cd.g, B, 1);
    OwnsUnique(cd.c, CodeLen(cd.c, cd.g, B, 1), k, B);
    assert ValueInPlace(cd.c, cd.v, lens, sym);
  }

  lemma CodeOfRank(lens: seq<nat>, k: nat, r: nat, B: nat) returns (sym: nat)
    requires 0 < k && r < Count(lens, k) && Msb(B, k) == NextCode(lens, k) + r
    ensures StartsWith(lens, sym, B)
  {
    sym := SymbolOfRank(lens, k, r);
  }

  /** A stream that starts with no symbol's code starts with a dummy code. */
  lemma DummyIndex(cd: Code, lens: seq<nat>, B: nat)
    requires LengthsOk(lens) && Describes(cd, lens) && forall sym: nat :: !StartsWith(lens, sym, B)
    ensures CodeLen(cd.c, cd.g, B, 1) == cd.g && |cd.v| <= CodeIndex(cd, B)
  {
    var k := CodeLen(cd.c, cd.g, B, 1);
    CodeLenOwns(cd.c, cd.g, B, 1);
    FirstIsNext(cd.c, lens, cd.g, k);
    var r := Msb(B, k) - First(cd.c, k);
    if r < Count(lens, k) {
      var sym := CodeOfRank(lens, k, r, B);
    }
  }

  // ----- what the tables decode

  /** On stream B the tables deliver the symbol whose code B starts with, after exactly the bits
      of that code, or the invalid entry when there is none. */
  ghost predicate DecodesStream(hp: seq<Huft>, t: nat, bits: nat, lens: seq<nat>, s: nat, d: seq<nat>, e: seq<nat>,
                      B: nat)
  {
    var r := Walk(hp, t, bits, B, BMAX);
    && r.Some? && r.value.used <= BMAX && StepsOk(hp, t, bits, B, bits, BMAX, BMAX)
    && (forall sym: nat :: StartsWith(lens, sym, B) ==>
         r.value.used == lens[sym] && r.value.entry.exop == LeafExop(sym, s, e) &&
           r.value.entry.base == LeafBase(sym, s, d))
    && ((forall sym: nat :: !StartsWith(lens, sym, B)) ==>
      r.value.entry.exop == INVALID && DummyOk(r.value, lens, s, d))
  }

  /** Beside a single code of one bit the other bit is invalid, but carries the same value. */
  ghost predicate DummyOk(f: Found, lens: seq<nat>, s: nat, d: seq<nat>)
  {
    forall sym: nat :: sym < |lens| && lens[sym] == 1 && IsLongest(lens, 1) ==>
      f.used == 1 && f.entry.base == LeafBase(sym, s, d)
  }

  ghost predicate Decodes(hp: seq<Huft>, t: nat, bits: nat, lens: seq<nat>, s: nat, d: seq<nat>, e: seq<nat>)
  {
    forall B: nat :: DecodesStream(hp, t, bits, lens, s, d, e, B)
  }

  /** Every symbol is reached by its own code only. */
  lemma OneSymbol(hp: seq<Huft>, t: nat, bits: nat, lens: seq<nat>, s: nat, d: seq<nat>, e: seq<nat>, B: nat,
                  x: nat, y: nat)
    requires Decodes(hp, t, bits, lens, s, d, e) && StartsWith(lens, x, B) && StartsWith(lens, y, B)
    ensures x == y
  {
    assert DecodesStream(hp, t, bits, lens, s, d, e, B);
    SymbolUnique(lens, x, y);
  }

  lemma TablesDecode(cd: Code, lens: seq<nat>, hp: seq<Huft>, hp0: seq<Huft>, tabs: set<Tab>, t: nat, lo: nat, hi: nat)
    requires LengthsOk(lens) && Describes(cd, lens)
    requires Finished(cd, hp, hp0, tabs, t, lo, hi) && AllFillable(cd, tabs)
    ensures Decodes(hp, t, cd.l, lens, cd.s, cd.d, cd.e)
  {
    forall B: nat
      ensures DecodesStream(hp, t, cd.l, lens, cd.s, cd.d, cd.e, B)
    {
      WalkFrom(cd, hp, hp0, tabs, t, lo, hi, Root(cd, t), B, BMAX);
      StepsFrom(cd, hp, hp0, tabs, t, lo, hi, Root(cd, t), B, BMAX, BMAX);
      CodesOfStream(cd, lens, hp, t, B);
    }
  }

  lemma CodesOfStream(cd: Code, lens: seq<nat>, hp: seq<Huft>, t: nat, B: nat)
    requires LengthsOk(lens) && Describes(cd, lens)
    requires WalkFinds(cd, hp, Root(cd, t), B, BMAX) && StepsOk(hp, t, cd.l, B, cd.l, BMAX, BMAX)
    ensures DecodesStream(hp, t, cd.l, lens, cd.s, cd.d, cd.e, B)
  {
    forall sym: nat | StartsWith(lens, sym, B)
      ensures CodeLen(cd.c, cd.g, B, 1) == lens[sym] && CodeIndex(cd, B) < |cd.v| && cd.v[CodeIndex(cd, B)] == sym
    {
      SymbolIndex(cd, lens, sym, B);
    }
    if forall sym: nat :: !StartsWith(lens, sym, B) {
      DummyIndex(cd, lens, B);
      DummyValue(cd, lens, Walk(hp, t, cd.l, B, BMAX).value, B);
    }
  }

  lemma DummyValue(cd: Code, lens: seq<nat>, f: Found, B: nat)
    requires LengthsOk(lens) && Describes(cd, lens) && |cd.v| <= CodeIndex(cd, B)
    requires f.used == CodeLen(cd.c, cd.g, B, 1) && IsLeaf(cd, f.entry, CodeIndex(cd, B), f.entry.bits)
    ensures DummyOk(f, lens, cd.s, cd.d)
  {
    forall sym: nat | sym < |lens| && lens[sym] == 1 && IsLongest(lens, 1)
      ensures f.used == 1 && f.entry.base == LeafBase(sym, cd.s, cd.d)
    {
      assert cd.g == 1;
      assert ValueInPlace(cd.c, cd.v, lens, sym);
      CountMono(lens, sym, 1);
      LeftSpace(lens, 1);
      CodeLenOwns(cd.c, cd.g, B, 1);
    }
  }

  // ----- the condition under which no table is too wide

  /** At no table boundary K from the second on do the codes of up to K bits leave 2^bits or
      more patterns of K bits over. */
  ghost predicate NoWideGap(lens: seq<nat>, bits: nat)
  {
    forall g, K :: IsLongest(lens, g) && 2 * bits <= K < g && MultipleOf(bits, K) ==> Left(lens, K) < Pow2(bits)
  }

  lemma SameGap(cd: Code, lens: seq<nat>)
    requires Describes(cd, lens)
    ensures NoGap(cd.c, cd.g, cd.l) <==> NoWideGap(lens, cd.l)
  {
    forall K | 1 <= K < cd.g
      ensures End(cd.c, K) + Left(lens, K) == Pow2(K)
    {
      FirstIsNext(cd.c, lens, cd.g, K);
      LeftSpace(lens, K);
    }
    forall g | IsLongest(lens, g)
      ensures g == cd.g
    {
    }
    if NoGap(cd.c, cd.g, cd.l) {
      assert forall g, K :: IsLongest(lens, g) && 2 * cd.l <= K < g && MultipleOf(cd.l, K) ==>
        Left(lens, K) < Pow2(cd.l);
    }
    if NoWideGap(lens, cd.l) {
      assert forall K :: 2 * cd.l <= K < cd.g && MultipleOf(cd.l, K) ==> Pow2(K) < End(cd.c, K) + Pow2(cd.l);
    }
  }

  /** Every pattern left over at K bits is used by at least two longer codes in a complete set. */
  lemma {:induction false} LeftNeedsCodes(lens: seq<nat>, g: nat, K: nat)
    requires K < g && Left(lens, g) == 0
    ensures 2 * Left(lens, K) <= CountUpTo(lens, g) - CountUpTo(lens, K)
    decreases g - K
  {
    if K + 1 < g {
      LeftNeedsCodes(lens, g, K + 1);
      if Left(lens, K + 1) < 0 {
        LeftStaysNegative(lens, K + 1, g);
      }
    }
  }

  function CountUpTo(lens: seq<nat>, k: nat): nat
  {
    if k == 0 then 0 else CountUpTo(lens, k - 1) + Count(lens, k)
  }

  lemma {:induction false} CountUpToSnoc(lens: seq<nat>, x: nat, k: nat)
    ensures CountUpTo(lens + [x], k) == CountUpTo(lens, k) + if 1 <= x <= k then 1 else 0
  {
    if k > 0 {
      CountUpToSnoc(lens, x, k - 1);
      CountSnoc(lens, x, k);
    }
  }

  lemma {:induction false} CountUpToBound(lens: seq<nat>, k: nat)
    ensures CountUpTo(lens, k) <= |lens|
  {
    if lens == [] {
      CountUpToNil(k);
    } else {
      var m := |lens| - 1;
      CountUpToBound(lens[..m], k);
      CountUpToSnoc(lens[..m], lens[m], k);
      assert lens[..m] + [lens[m]] == lens;
    }
  }

  lemma {:induction false} CountUpToNil(k: nat)
    ensures CountUpTo([], k) == 0
  {
    if k > 0 {
      CountUpToNil(k - 1);
    }
  }

  /** Fewer than 2^(bits+1) symbols cannot leave such a gap in a complete set. */
  lemma FewSymbolsNoGap(lens: seq<nat>, g: nat, bits: nat)
    requires IsLongest(lens, g) && Left(lens, g) == 0 && |lens| < 2 * Pow2(bits)
    ensures NoWideGap(lens, bits)
  {
    forall g', K | IsLongest(lens, g') && 2 * bits <= K < g' && MultipleOf(bits, K)
      ensures Left(lens, K) < Pow2(bits)
    {
      assert g' == g;
      LeftNeedsCodes(lens, g, K);
      CountUpToBound(lens, g);
    }
  }
}
