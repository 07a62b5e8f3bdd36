/** The codes and tables that the decoder takes for granted are those of sections 3.2.2, 3.2.5, 3.2.6 and
    3.2.7 of RFC 1951. */
module FormatCodes {
  import opened Bits
  import opened Canonical
  import opened InfTrees
  import opened InflateFixed
  import opened InflateTrees
  import opened InflateSpec
  import opened Options
  import opened Sequences
  import Format

  // ----- section 3.2.2

  lemma {:induction false} CodesBefore(lens: seq<nat>, j: nat, k: nat)
    requires 1 <= j < k
    ensures Shl(NextCode(lens, j) + Count(lens, j), k - j) <= NextCode(lens, k)
  {
    if j == k - 1 {
      assert Shl(NextCode(lens, j) + Count(lens, j), 1) == 2 * Shl(NextCode(lens, j) + Count(lens, j), 0);
    } else {
      CodesBefore(lens, j, k - 1);
    }
  }

  /** The code of a symbol is among those of its length. */
  lemma CodeInside(lens: seq<nat>, sym: nat)
    requires sym < |lens|
    ensures NextCode(lens, lens[sym]) <= CodeOf(lens, sym) < NextCode(lens, lens[sym]) + Count(lens, lens[sym])
  {
    CountMono(lens, sym, lens[sym]);
  }

  /** First rule: codes of one length have consecutive values, in the order of the symbols. */
  lemma Consecutive(lens: seq<nat>, i: nat, j: nat)
    requires i < j < |lens| && lens[i] == lens[j] && forall k :: i < k < j ==> lens[k] != lens[i]
    ensures CodeOf(lens, j) == CodeOf(lens, i) + 1
  {
    CountBetween(lens, i, j);
  }

  lemma {:induction false} CountBetween(lens: seq<nat>, i: nat, j: nat)
    requires i < j <= |lens| && forall k :: i < k < j ==> lens[k] != lens[i]
    ensures Count(lens[..j], lens[i]) == Count(lens[..i], lens[i]) + 1
    decreases j
  {
    assert lens[..j] == lens[..j - 1] + [lens[j - 1]];
    CountSnoc(lens[..j - 1], lens[j - 1], lens[i]);
    if i < j - 1 {
      CountBetween(lens, i, j - 1);
    }
  }

  /** Second rule: shorter codes come before longer ones, and no code begins with another. */
  lemma ShorterFirst(lens: seq<nat>, i: nat, j: nat)
    requires i < |lens| && j < |lens| && 1 <= lens[i] < lens[j]
    ensures Shl(CodeOf(lens, i) + 1, lens[j] - lens[i]) <= CodeOf(lens, j)
  {
    CodeInside(lens, i);
    CodeInside(lens, j);
    CodesBefore(lens, lens[i], lens[j]);
    ShlMono(CodeOf(lens, i) + 1, NextCode(lens, lens[i]) + Count(lens, lens[i]), lens[j] - lens[i]);
  }

  /** Nothing is left out: the first symbol of the shortest length has code 0, and the first of a length
      follows the last of the length before it, with zeros added. */
  lemma FirstOfLength(lens: seq<nat>, j: nat)
    requires j < |lens| && 1 <= lens[j] && forall k :: 0 <= k < j ==> lens[k] != lens[j]
    ensures (forall k :: 0 <= k < |lens| ==> lens[k] == 0 || lens[j] <= lens[k]) ==> CodeOf(lens, j) == 0
    ensures forall i :: 0 <= i < |lens| && 1 <= lens[i] < lens[j] && LastBelow(lens, i, lens[j]) ==>
      CodeOf(lens, j) == Shl(CodeOf(lens, i) + 1, lens[j] - lens[i])
  {
    NoneYet(lens[..j], lens[j]);
    if forall k :: 0 <= k < |lens| ==> lens[k] == 0 || lens[j] <= lens[k] {
      NoneShorter(lens, lens[j]);
    }
    forall i | 0 <= i < |lens| && 1 <= lens[i] < lens[j] && LastBelow(lens, i, lens[j])
      ensures CodeOf(lens, j) == Shl(CodeOf(lens, i) + 1, lens[j] - lens[i])
    {
      LastCode(lens, i);
      NoneInside(lens, lens[i], lens[j]);
    }
  }

  /** Symbol i is the last of its length, and there is no length between it and k. */
  predicate LastBelow(lens: seq<nat>, i: nat, k: nat)
    requires i < |lens|
  {
    forall m :: 0 <= m < |lens| ==> k <= lens[m] || lens[m] < lens[i] || (lens[m] == lens[i] && m <= i)
  }

  lemma {:induction false} NoneYet(lens: seq<nat>, k: nat)
    requires forall m :: 0 <= m < |lens| ==> lens[m] != k
    ensures Count(lens, k) == 0
  {
    if lens != [] {
      NoneYet(lens[..|lens| - 1], k);
    }
  }

  lemma {:induction false} NoneShorter(lens: seq<nat>, k: nat)
    requires 1 <= k && forall m :: 0 <= m < |lens| ==> lens[m] == 0 || k <= lens[m]
    ensures NextCode(lens, k) == 0
  {
    if k > 1 {
      NoneShorter(lens, k - 1);
      NoneYet(lens, k - 1);
    }
  }

  lemma LastCode(lens: seq<nat>, i: nat)
    requires i < |lens| && forall m :: i < m < |lens| ==> lens[m] != lens[i]
    ensures CodeOf(lens, i) + 1 == NextCode(lens, lens[i]) + Count(lens, lens[i])
  {
    CountBetween(lens, i, |lens|);
    assert lens[..|lens|] == lens;
  }

  lemma {:induction false} NoneInside(lens: seq<nat>, j: nat, k: nat)
    requires 1 <= j < k && forall m :: 0 <= m < |lens| ==> lens[m] <= j || k <= lens[m]
    ensures NextCode(lens, k) == Shl(NextCode(lens, j) + Count(lens, j), k - j)
  {
    if j == k - 1 {
      assert Shl(NextCode(lens, j) + Count(lens, j), 1) == 2 * Shl(NextCode(lens, j) + Count(lens, j), 0);
    } else {
      NoneInside(lens, j, k - 1);
      NoneYet(lens, k - 1);
    }
  }

  const EXAMPLE: seq<nat> := [3, 3, 3, 3, 3, 2, 4, 4]

  lemma ExampleFirst()
    ensures CodeOf(EXAMPLE, 5) == 0
  {
    hide CodeOf, Shl, LastBelow;
    FirstOfLength(EXAMPLE, 5);
  }

  lemma ExampleShort()
    ensures CodeOf(EXAMPLE, 5) == 0 && CodeOf(EXAMPLE, 0) == 2
  {
    hide CodeOf, Shl;
    ExampleFirst();
    assert LastBelow(EXAMPLE, 5, 3);
    FirstOfLength(EXAMPLE, 0);
    Doubled(1);
  }

  lemma ExampleMiddle()
    ensures CodeOf(EXAMPLE, 1) == 3 && CodeOf(EXAMPLE, 2) == 4 && CodeOf(EXAMPLE, 3) == 5 && CodeOf(EXAMPLE, 4) == 6
  {
    hide CodeOf, Shl, LastBelow;
    ExampleShort();
    Consecutive(EXAMPLE, 0, 1);
    Consecutive(EXAMPLE, 1, 2);
    Consecutive(EXAMPLE, 2, 3);
    Consecutive(EXAMPLE, 3, 4);
  }

  /** The codes of the section's example. */
  lemma Example()
    ensures CodeOf(EXAMPLE, 5) == 0 && CodeOf(EXAMPLE, 0) == 2 && CodeOf(EXAMPLE, 1) == 3 && CodeOf(EXAMPLE, 2) == 4
    ensures CodeOf(EXAMPLE, 3) == 5 && CodeOf(EXAMPLE, 4) == 6 && CodeOf(EXAMPLE, 6) == 14 && CodeOf(EXAMPLE, 7) == 15
  {
    hide CodeOf, Shl;
    ExampleShort();
    ExampleMiddle();
    assert LastBelow(EXAMPLE, 4, 4);
    FirstOfLength(EXAMPLE, 6);
    Doubled(7);
    Consecutive(EXAMPLE, 6, 7);
  }

  lemma Doubled(x: nat)
    ensures Shl(x, 1) == 2 * x
  {
    assert Shl(x, 1) == 2 * Shl(x, 0);
  }

  /** A stream starts with one code at most. */
  lemma OneCode(lens: seq<nat>, i: nat, j: nat, B: nat)
    requires StartsWith(lens, i, B) && StartsWith(lens, j, B)
    ensures i == j
  {
    if lens[i] == lens[j] {
      SymbolUnique(lens, i, j);
    } else {
      var a, b := if lens[i] < lens[j] then i else j, if lens[i] < lens[j] then j else i;
      ShorterFirst(lens, a, b);
      MsbPrefix(B, lens[a], lens[b]);
      ShrMono(Shl(CodeOf(lens, a) + 1, lens[b] - lens[a]), CodeOf(lens, b), lens[b] - lens[a]);
      ShrShl(CodeOf(lens, a) + 1, lens[b] - lens[a]);
    }
  }

  /** So a symbol's code is decoded as the symbol. */
  lemma FindsSymbol(lens: seq<nat>, sym: nat, B: nat)
    requires StartsWith(lens, sym, B)
    ensures SymbolAt(lens, B) == Some(sym)
  {
    OneCode(lens, sym, SymbolAt(lens, B).value, B);
  }

  /** Codes have no more bits than their length if the lengths do not ask for too much. */
  lemma CodeFits(lens: seq<nat>, sym: nat)
    requires LengthsOk(lens) && KraftSum(lens) <= Pow2(BMAX) && sym < |lens| && lens[sym] > 0
    ensures CodeOf(lens, sym) < Pow2(lens[sym])
  {
    LeftIsKraft(lens);
    if Left(lens, lens[sym]) < 0 {
      LeftStaysNegative(lens, lens[sym], BMAX);
    }
    LeftSpace(lens, lens[sym]);
    CodeInside(lens, sym);
  }

  // ----- section 3.2.5

  /** The decoder's tables of lengths are those that the rule makes. */
  lemma LengthTables()
    ensures |CPLENS| == |CPLEXT| == 31
    ensures forall i :: 0 <= i < 29 ==> CPLENS[i] == Format.LenBase(257 + i) && CPLEXT[i] == Format.LenExtra(257 + i)
    ensures CPLEXT[29] == CPLEXT[30] == 112
  {
    Format.LenBases();
  }

  lemma DistanceTables()
    ensures |CPDIST| == |CPDEXT| == 30
    ensures forall i :: 0 <= i < 30 ==> CPDIST[i] == Format.DistBase(i) && CPDEXT[i] == Format.DistExtra(i)
  {
    Format.DistBases();
  }

  // ----- section 3.2.6

  lemma {:induction false} CountRepeat(a: seq<nat>, x: nat, n: nat, k: nat)
    ensures Count(a + Repeat<nat>(x, n), k) == Count(a, k) + if x == k then n else 0
  {
    if n == 0 {
      assert a + Repeat<nat>(x, 0) == a;
    } else {
      CountRepeat(a, x, n - 1, k);
      CountSnoc(a + Repeat<nat>(x, n - 1), x, k);
      assert a + Repeat<nat>(x, n) == a + Repeat<nat>(x, n - 1) + [x];
    }
  }

  lemma NoCount(k: nat)
    ensures Count([], k) == 0
  {
  }

  /** How many of the first sym fixed lengths are k. */
  lemma FixedCount(sym: nat, k: nat)
    requires sym <= 288
    ensures Count(FIXED_LIT[..sym], k) ==
      if k == 8 then (if sym < 144 then sym else if sym < 280 then 144 else sym - 136)
      else if k == 9 then (if sym < 144 then 0 else if sym < 256 then sym - 144 else 112)
      else if k == 7 then (if sym < 256 then 0 else if sym < 280 then sym - 256 else 24)
      else 0
  {
    var a, b, c, d := Repeat<nat>(8, 144), Repeat<nat>(9, 112), Repeat<nat>(7, 24), Repeat<nat>(8, 8);
    NoCount(k);
    hide Count;
    Nothing(8, 144);
    CountRepeat([], 8, 144, k);
    CountRepeat(a, 9, 112, k);
    CountRepeat(a + b, 7, 24, k);
    hide Repeat;
    if sym < 144 {
      CutBefore(a + b + c, d, sym);
      CutBefore(a + b, c, sym);
      CutBefore(a, b, sym);
      CountPart([], 8, 144, sym, k);
    } else if sym < 256 {
      CutBefore(a + b + c, d, sym);
      CutBefore(a + b, c, sym);
      CountPart(a, 9, 112, sym, k);
    } else if sym < 280 {
      CutBefore(a + b + c, d, sym);
      CountPart(a + b, 7, 24, sym, k);
    } else {
      CountPart(a + b + c, 8, 8, sym, k);
    }
  }

  lemma Nothing(x: nat, n: nat)
    ensures [] + Repeat<nat>(x, n) == Repeat<nat>(x, n)
  {
  }

  lemma CutBefore(u: seq<nat>, v: seq<nat>, sym: nat)
    requires sym <= |u|
    ensures (u + v)[..sym] == u[..sym]
  {
  }

  lemma CountPart(u: seq<nat>, x: nat, n: nat, sym: nat, k: nat)
    requires |u| <= sym <= |u| + n
    ensures Count((u + Repeat<nat>(x, n))[..sym], k) == Count(u, k) + if x == k then sym - |u| else 0
  {
    CountRepeat(u, x, sym - |u|, k);
    assert (u + Repeat<nat>(x, n))[..sym] == u + Repeat<nat>(x, sym - |u|);
  }

  lemma FixedNext()
    ensures |FIXED_LIT| == 288
    ensures NextCode(FIXED_LIT, 7) == 0 && NextCode(FIXED_LIT, 8) == 0x30 && NextCode(FIXED_LIT, 9) == 0x190
  {
    assert FIXED_LIT[..288] == FIXED_LIT;
    FixedCount(288, 1);
    FixedCount(288, 2);
    FixedCount(288, 3);
    FixedCount(288, 4);
    FixedCount(288, 5);
    FixedCount(288, 6);
    FixedCount(288, 7);
    FixedCount(288, 8);
    NextFrom(FIXED_LIT);
  }

  lemma NextFrom(lens: seq<nat>)
    requires forall k :: 1 <= k <= 6 ==> Count(lens, k) == 0
    ensures NextCode(lens, 7) == 0 && NextCode(lens, 8) == 2 * Count(lens, 7)
    ensures NextCode(lens, 9) == 2 * (2 * Count(lens, 7) + Count(lens, 8))
  {
    hide Count;
    assert NextCode(lens, 1) == 0;
    assert NextCode(lens, 2) == 0 && NextCode(lens, 3) == 0;
    assert NextCode(lens, 4) == 0 && NextCode(lens, 5) == 0;
    assert NextCode(lens, 6) == 0;
  }

  /** The decoder's fixed codes are those of the section's table. */
  lemma FixedTable(sym: nat)
    requires sym < 288
    ensures sym < |FIXED_LIT| && Format.CodeBits(FIXED_LIT, sym) == Format.FixedLit(sym)
  {
    FixedNext();
    FixedCount(sym, FIXED_LIT[sym]);
    hide Count, NextCode;
  }

  lemma FixedDistances(sym: nat)
    requires sym < 30
    ensures sym < |FIXED_DIST| && FIXED_DIST[sym] == 5 && Format.CodeBits(FIXED_DIST, sym) == Format.Code(sym, 5)
  {
    FixedDistanceCode(sym);
    hide Count, NextCode, Repeat;
  }

  lemma FixedDistanceCode(sym: nat)
    requires sym < 30
    ensures |FIXED_DIST| == 30 && FIXED_DIST[sym] == 5 && CodeOf(FIXED_DIST, sym) == sym
  {
    hide Count, NextCode;
    FixedLengths();
    assert FIXED_DIST[..sym] == [] + Repeat<nat>(5, sym);
    CountRepeat([], 5, sym, 5);
    NoCount(5);
    NoneShorter(FIXED_DIST, 5);
  }

  // ----- section 3.2.7

  lemma OrderIs()
    ensures |BORDER| == 19 && forall k :: 0 <= k < 19 ==> BORDER[k] == Format.Order(k)
  {
  }
}
