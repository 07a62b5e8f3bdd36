/** The canonical prefix code of section 3.2.2 of RFC 1951: shorter codes come first, codes
    of one length are consecutive, and within a length they follow the symbol order. */
module Canonical {
  import opened Bits

  const BMAX := 15

  /** How many of the lengths are k. */
  function Count(lens: seq<nat>, k: nat): nat
  {
    if lens == [] then 0
    else Count(lens[..|lens| - 1], k) + if lens[|lens| - 1] == k then 1 else 0
  }

  /** The first code of length k, step 2 of the section's algorithm. */
  function NextCode(lens: seq<nat>, k: nat): nat
  {
    if k <= 1 then 0 else 2 * (NextCode(lens, k - 1) + Count(lens, k - 1))
  }

  /** The code of a symbol, step 3 of the section's algorithm. */
  function CodeOf(lens: seq<nat>, sym: nat): nat
    requires sym < |lens|
  {
    NextCode(lens, lens[sym]) + Count(lens[..sym], lens[sym])
  }

  /** Stream B starts with the code of sym. */
  ghost predicate StartsWith(lens: seq<nat>, sym: nat, B: nat)
  {
    sym < |lens| && lens[sym] > 0 && Msb(B, lens[sym]) == CodeOf(lens, sym)
  }

  /** The Kraft sum of the non-zero lengths, in units of 2^-15. */
  function KraftSum(lens: seq<nat>): nat
    requires forall i :: 0 <= i < |lens| ==> lens[i] <= BMAX
  {
    if lens == [] then 0
    else
      var k := lens[|lens| - 1];
      KraftSum(lens[..|lens| - 1]) + if k == 0 then 0 else Pow2(BMAX - k)
  }

  lemma KraftSnoc(a: seq<nat>, x: nat)
    requires 1 <= x <= BMAX && forall i :: 0 <= i < |a| ==> a[i] <= BMAX
    ensures KraftSum(a + [x]) == KraftSum(a) + Pow2(BMAX - x)
  {
    assert (a + [x])[..|a|] == a;
  }

  /** The k-bit patterns that no code of at most k bits uses up (negative if overused). */
  function Left(lens: seq<nat>, k: nat): int
  {
    if k == 0 then 1 else 2 * Left(lens, k - 1) - Count(lens, k)
  }

  lemma CountSnoc(lens: seq<nat>, x: nat, k: nat)
    ensures Count(lens + [x], k) == Count(lens, k) + if x == k then 1 else 0
  {
    assert (lens + [x])[..|lens|] == lens;
  }

  lemma {:induction false} CountMono(lens: seq<nat>, i: nat, k: nat)
    requires i <= |lens|
    ensures Count(lens[..i], k) <= Count(lens, k)
    ensures i < |lens| && lens[i] == k ==> Count(lens[..i], k) < Count(lens, k)
  {
    if i == |lens| {
      assert lens[..i] == lens;
    } else {
      CountMono(lens[..|lens| - 1], i, k);
      assert lens[..|lens| - 1][..i] == lens[..i];
    }
  }

  /** The symbol that has the given rank among those of length k. */
  lemma {:induction false} SymbolOfRank(lens: seq<nat>, k: nat, r: nat) returns (sym: nat)
    requires r < Count(lens, k)
    ensures sym < |lens| && lens[sym] == k && Count(lens[..sym], k) == r
  {
    var m := |lens| - 1;
    if r == Count(lens[..m], k) {
      sym := m;
    } else {
      sym := SymbolOfRank(lens[..m], k, r);
      assert lens[..m][..sym] == lens[..sym];
    }
  }

  lemma {:induction false} SymbolUnique(lens: seq<nat>, i: nat, j: nat)
    requires i < |lens| && j < |lens| && lens[i] == lens[j]
    requires Count(lens[..i], lens[i]) == Count(lens[..j], lens[j])
    ensures i == j
  {
    var lo, hi := if i < j then i else j, if i < j then j else i;
    if lo < hi {
      CountMono(lens[..hi], lo, lens[i]);
      assert lens[..hi][..lo] == lens[..lo];
    }
  }

  /** Used-up patterns and left-over patterns make up all the k-bit patterns. */
  lemma {:induction false} LeftSpace(lens: seq<nat>, k: nat)
    ensures k > 0 ==> NextCode(lens, k) + Count(lens, k) + Left(lens, k) == Pow2(k)
  {
    if k > 1 {
      LeftSpace(lens, k - 1);
    } else if k == 1 {
      assert Left(lens, 0) == 1;
    }
  }

  lemma {:induction false} LeftSnoc(lens: seq<nat>, x: nat, k: nat)
    requires x <= BMAX
    ensures Left(lens + [x], k) == Left(lens, k) - if 0 < x <= k then Pow2(k - x) else 0
  {
    if k > 0 {
      LeftSnoc(lens, x, k - 1);
      CountSnoc(lens, x, k);
    }
  }

  lemma {:induction false} LeftNil(k: nat)
    ensures Left([], k) == Pow2(k)
  {
    if k > 0 {
      LeftNil(k - 1);
    }
  }

  /** The running balance of the lengths is one minus their Kraft sum. */
  lemma {:induction false} LeftIsKraft(lens: seq<nat>)
    requires forall i :: 0 <= i < |lens| ==> lens[i] <= BMAX
    ensures KraftSum(lens) + Left(lens, BMAX) == Pow2(BMAX)
  {
    if lens == [] {
      LeftNil(BMAX);
    } else {
      var m := |lens| - 1;
      LeftIsKraft(lens[..m]);
      LeftSnoc(lens[..m], lens[m], BMAX);
      assert lens[..m] + [lens[m]] == lens;
    }
  }

  /** Without longer codes the balance only doubles. */
  lemma {:induction false} LeftAbove(lens: seq<nat>, g: nat, k: nat)
    requires g <= k && forall j :: g < j <= k ==> Count(lens, j) == 0
    ensures Left(lens, g) >= 0 ==> Left(lens, k) == Shl(Left(lens, g), k - g)
    ensures Left(lens, g) < 0 ==> Left(lens, k) < 0
    decreases k
  {
    if g < k {
      LeftAbove(lens, g, k - 1);
    }
  }

  lemma {:induction false} LeftStaysNegative(lens: seq<nat>, j: nat, k: nat)
    requires j <= k && Left(lens, j) < 0
    ensures Left(lens, k) < 0
    decreases k
  {
    if j < k {
      LeftStaysNegative(lens, j, k - 1);
    }
  }

  // ----- codes given by the number of codes of each length

  /** First code of length k. */
  function First(c: seq<nat>, k: nat): nat
    requires 1 <= k <= |c|
  {
    if k == 1 then 0 else 2 * (First(c, k - 1) + c[k - 1])
  }

  /** One past the last code of length k. */
  function End(c: seq<nat>, k: nat): nat
    requires 1 <= k < |c|
  {
    First(c, k) + c[k]
  }

  /** Position in code order of the first code of length k. */
  function Off(c: seq<nat>, k: nat): nat
    requires 1 <= k <= |c|
  {
    if k == 1 then 0 else Off(c, k - 1) + c[k - 1]
  }

  lemma {:induction false} OffMono(c: seq<nat>, j: nat, k: nat)
    requires 1 <= j < k <= |c|
    ensures Off(c, j) + c[j] <= Off(c, k)
  {
    if j < k - 1 {
      OffMono(c, j, k - 1);
    }
  }

  /** Codes of at most g bits that leave no pattern over. */
  ghost predicate Complete(c: seq<nat>, g: nat)
  {
    |c| == BMAX + 1 && 1 <= g <= BMAX && c[g] > 0 && End(c, g) == Pow2(g)
  }

  lemma {:induction false} EndBeforeFirst(c: seq<nat>, j: nat, k: nat)
    requires 1 <= j < k < |c|
    ensures Shl(End(c, j), k - j) <= First(c, k) <= End(c, k)
  {
    if j < k - 1 {
      EndBeforeFirst(c, j, k - 1);
    } else {
      assert Shl(End(c, j), 1) == 2 * Shl(End(c, j), 0);
    }
  }

  lemma EndBelow(c: seq<nat>, g: nat, k: nat)
    requires Complete(c, g) && 1 <= k < g
    ensures End(c, k) < Pow2(k)
  {
    EndBeforeFirst(c, k, g);
    ShlShl(1, k, g - k);
    ShlMono(Pow2(k), End(c, k), g - k);
  }

  /** The length of the code that stream B starts with, looking from length k on. */
  function CodeLen(c: seq<nat>, g: nat, B: nat, k: nat): (r: nat)
    requires Complete(c, g) && 1 <= k <= g
    ensures k <= r <= g
    decreases g - k
  {
    if k == g || Msb(B, k) < End(c, k) then k else CodeLen(c, g, B, k + 1)
  }

  ghost predicate Owns(c: seq<nat>, k: nat, B: nat)
    requires 1 <= k < |c|
  {
    First(c, k) <= Msb(B, k) < End(c, k)
  }

  lemma {:induction false} CodeLenOwns(c: seq<nat>, g: nat, B: nat, k: nat)
    requires Complete(c, g) && 1 <= k <= g
    requires k > 1 ==> End(c, k - 1) <= Msb(B, k - 1)
    ensures Owns(c, CodeLen(c, g, B, k), B)
    decreases g - k
  {
    MsbBound(B, g);
    if k > 1 {
      MsbSnoc(B, k - 1);
    }
    if k < g && End(c, k) <= Msb(B, k) {
      CodeLenOwns(c, g, B, k + 1);
    }
  }

  /** A pattern below the end of length k belongs to a code of at most k bits. */
  lemma BelowEnd(c: seq<nat>, j: nat, k: nat, B: nat)
    requires 1 <= j < |c| && 1 <= k < |c| && Owns(c, j, B)
    ensures Msb(B, k) < End(c, k) <==> j <= k
    ensures j < k ==> Msb(B, k) < First(c, k)
  {
    if j < k {
      EndBeforeFirst(c, j, k);
      MsbPrefix(B, j, k);
      ShrLess(Msb(B, k), End(c, j), k - j);
    } else if k < j {
      EndBeforeFirst(c, k, j);
      MsbPrefix(B, k, j);
      ShrLess(Msb(B, j), End(c, k), j - k);
    }
  }

  /** No stream starts with two codes. */
  lemma OwnsUnique(c: seq<nat>, j: nat, k: nat, B: nat)
    requires 1 <= j < |c| && 1 <= k < |c| && Owns(c, j, B) && Owns(c, k, B)
    ensures j == k
  {
    BelowEnd(c, j, k, B);
    BelowEnd(c, k, j, B);
  }
}
