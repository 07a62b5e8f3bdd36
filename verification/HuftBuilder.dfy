/** The table-generating part of huft_build: the loops over code lengths and codes. */
module HuftBuilder {
  import opened Bits
  import opened Canonical
  import opened HuftTable
  import opened HuftSteps
  import opened HuftWalk
  import opened HuftSize
  import opened HuftSpace

  const MANY := 1440

  lemma {:induction false} MsbShl(x: nat, n: nat, r: nat)
    ensures Msb(Shl(x, r), n + r) == Msb(x, n)
  {
    if r > 0 {
      MsbShl(x, n, r - 1);
      MsbDouble(Shl(x, r - 1), n + r - 1);
    }
  }

  /** Count on from code C of k bits to code C + 1, both held bit-reversed.  The variable n
      stands for the source's j, which is 1 << (n - 1) and becomes 0 after the last bit. */
  method BackwardIncrement(i: nat, k: nat, ghost C: nat) returns (i': nat)
    requires k >= 1 && C < Pow2(k) && i == Msb(C, k)
    ensures C + 1 < Pow2(k) ==> i' == Msb(C + 1, k)
    ensures C + 1 == Pow2(k) ==> i' == 0
  {
    var n := k;
    i' := i;
    assert Low(C, 0) == 0 && Shr(C, 0) == C;
    while n > 0 && Shr(i', n - 1) % 2 == 1
      invariant n <= k && i' == Msb(Shr(C, k - n), n)
      invariant Low(C, k - n) + 1 == Pow2(k - n)
    {
      CarryOn(C, k, n);
      i' := i' - Pow2(n - 1);
      n := n - 1;
    }
    CarryEnds(C, k, n);
    if n > 0 {
      i' := i' + Pow2(n - 1);
    }
  }

  /** A one among the last bits of C carries into the bit before it. */
  lemma CarryOn(C: nat, k: nat, n: nat)
    requires 0 < n <= k && Low(C, k - n) + 1 == Pow2(k - n)
    requires Shr(Msb(Shr(C, k - n), n), n - 1) % 2 == 1
    ensures Msb(Shr(C, k - n), n) == Pow2(n - 1) + Msb(Shr(C, k - n + 1), n - 1)
    ensures Low(C, k - n + 1) + 1 == Pow2(k - n + 1)
  {
    TopBit(Shr(C, k - n), n);
    ShrShr(C, k - n, 1);
    LowSnoc(C, k - n);
  }

  lemma CarryEnds(C: nat, k: nat, n: nat)
    requires n <= k && C < Pow2(k) && Low(C, k - n) + 1 == Pow2(k - n)
    requires n > 0 ==> Shr(Msb(Shr(C, k - n), n), n - 1) % 2 == 0
    ensures n == 0 ==> C + 1 == Pow2(k)
    ensures n > 0 ==> C + 1 < Pow2(k) && Msb(C + 1, k) == Pow2(n - 1) + Msb(Shr(C, k - n), n)
  {
    hide Shr, Low, Msb, Shl;
    if n == 0 {
      Small(C, k);
    } else {
      var y := Shr(C, k - n);
      Split(C, k - n);
      ShlSum(y, 1, k - n);
      ShlShl(1, n, k - n);
      ShrLess(C, Pow2(n), k - n);
      TopBit(y, n);
      Parity(y, n);
      ShlMono(y + 1, Pow2(n), k - n);
      MsbShl(y + 1, n, k - n);
    }
  }

  lemma Parity(y: nat, n: nat)
    requires n > 0 && y < Pow2(n) && y % 2 == 0
    ensures y + 1 < Pow2(n) && Msb(y + 1, n) == Pow2(n - 1) + Msb(y, n)
  {
    assert Pow2(n) == 2 * Pow2(n - 1);
    TopBit(y, n);
    TopBit(y + 1, n);
  }

  lemma TopBit(y: nat, n: nat)
    requires n > 0
    ensures Shr(Msb(y, n), n - 1) == y % 2
    ensures Msb(y, n) == Shl(y % 2, n - 1) + Msb(y / 2, n - 1)
    ensures y % 2 == 0 ==> Msb(y, n) == Msb(y / 2, n - 1)
    ensures y % 2 == 1 ==> Msb(y, n) == Pow2(n - 1) + Msb(y / 2, n - 1)
  {
    MsbBound(y / 2, n - 1);
    Unique(Msb(y, n), y % 2, n - 1, Msb(y / 2, n - 1));
    ShlIn(0, n - 1);
  }

  lemma LowSnoc(x: nat, n: nat)
    ensures Low(x, n + 1) == Low(x, n) + if Shr(x, n) % 2 == 1 then Pow2(n) else 0
  {
    ShrShr(x, n, 1);
    assert Low(Shr(x, n), 1) == Shr(x, n) % 2 + 2 * Low(Shr(x, n) / 2, 0);
    ShlIn(0, n);
  }

  ghost predicate Remaining(cd: Code, w: nat, k: nat, a: nat, C: nat)
    requires CodeOk(cd)
  {
    w < k <= cd.g && First(cd.c, k) <= C && C + a + 1 == End(cd.c, k) && C < Pow2(k) && Low(C, k - w) == 0
  }

  /** The size of the table opened for code C of k bits after w bits, a codes of k bits being
      left after it: the least that takes up all codes with its prefix, at most l bits. */
  method TableBits(cd: Code, w: nat, k: nat, a: nat, ghost C: nat, ghost off: nat) returns (j: nat)
    requires CodeOk(cd) && Remaining(cd, w, k, a, C) && MultipleOf(cd.l, w)
    ensures TabShape(cd, Tab(off, w, Shr(C, k - w), j)) && Least(cd, Tab(off, w, Shr(C, k - w), j))
  {
    hide TabShape, Least, MultipleOf, Shl, Shr, Low, ListsOk;
    Aligned(cd, w, k, a, C);
    var z := cd.g - w;
    z := if z > cd.l then cd.l else z;
    j := k - w;
    var f: int := Pow2(j);
    if f > a + 1 {
      f := f - (a + 1);
      if j < z {
        j := MoreBits(cd, w, k, j + 1, z, f, Shr(C, k - w));
      }
    }
    if k > 1 {
      NotBefore(cd, w, k, a, C);
    }
    RegionEnd(cd, w, C, k, j);
    Chosen(cd, w, k, a, C, off, j);
  }

  lemma Chosen(cd: Code, w: nat, k: nat, a: nat, C: nat, off: nat, j: nat)
    requires CodeOk(cd) && Remaining(cd, w, k, a, C) && MultipleOf(cd.l, w) && k - w <= j && w + j <= cd.g
    requires cd.l < j ==> j == k - w
    requires j < cd.l ==> Shl(Shr(C, k - w) + 1, j) <= End(cd.c, w + j)
    requires 1 < w + j ==> End(cd.c, w + j - 1) < Shl(Shr(C, k - w) + 1, j - 1)
    requires cd.l < j ==> End(cd.c, w + j - 1) <= Shl(Shr(C, k - w), j - 1)
    ensures TabShape(cd, Tab(off, w, Shr(C, k - w), j)) && Least(cd, Tab(off, w, Shr(C, k - w), j))
  {
    hide MultipleOf, Shl, Shr, Low, First, ListsOk;
    Aligned(cd, w, k, a, C);
    OpenedByC(cd, w, k, a, C, j);
  }

  /** Grow j towards z while f, the patterns not taken by codes of up to xp bits, lasts. */
  method MoreBits(cd: Code, w: nat, k: nat, j0: nat, z: nat, f0: nat, ghost pre: nat) returns (j: nat)
    requires CodeOk(cd) && w < k && k == w + j0 - 1 && j0 <= z && w + z <= cd.g
    requires f0 > 0 && f0 + End(cd.c, k) == Shl(pre + 1, j0 - 1)
    ensures j0 <= j <= z
    ensures j < z ==> Shl(pre + 1, j) <= End(cd.c, w + j)
    ensures End(cd.c, w + j - 1) < Shl(pre + 1, j - 1)
  {
    j := j0;
    var f: int, xp := f0, k;
    while j < z
      invariant j0 <= j <= z && xp == w + j - 1
      invariant f > 0 && f + End(cd.c, xp) == Shl(pre + 1, j - 1)
    {
      f := 2 * f;
      xp := xp + 1;
      if f <= cd.c[xp] {
        break;
      }
      f := f - cd.c[xp];
      j := j + 1;
    }
  }

  lemma Aligned(cd: Code, w: nat, k: nat, a: nat, C: nat)
    requires CodeOk(cd) && Remaining(cd, w, k, a, C)
    ensures Shr(C, k - w) < Pow2(w) && C + Pow2(k - w) == Shl(Shr(C, k - w) + 1, k - w)
  {
    var n := k - w;
    Split(C, n);
    ShlSum(Shr(C, n), 1, n);
    ShrLess(C, Pow2(w), n);
    ShlShl(1, w, n);
  }

  /** The codes of fewer than k bits lie before code C. */
  lemma NotBefore(cd: Code, w: nat, k: nat, a: nat, C: nat)
    requires CodeOk(cd) && Remaining(cd, w, k, a, C) && 1 < k
    ensures End(cd.c, k - 1) <= Shl(Shr(C, k - w), k - w - 1) < Shl(Shr(C, k - w) + 1, k - w - 1)
  {
    var n := k - w;
    Split(C, n);
    ShlMono(Shr(C, n), Shr(C, n) + 1, n - 1);
  }

  lemma OpenedByC(cd: Code, w: nat, k: nat, a: nat, C: nat, j: nat)
    requires CodeOk(cd) && Remaining(cd, w, k, a, C) && k - w <= j && w + j <= cd.g
    ensures Shl(Shr(C, k - w), j) < End(cd.c, w + j)
    ensures j == k - w && cd.l < j ==> End(cd.c, w + cd.l) <= Shl(Shr(C, k - w), cd.l)
  {
    var n := k - w;
    var pre := Shr(C, n);
    Split(C, n);
    var r := j - n;
    ShlShl(pre, n, r);
    ShlMono(C, End(cd.c, k), r);
    if r > 0 {
      EndBeforeFirst(cd.c, k, w + j);
    }
    ShlMono(0, 0, r);
    if j == n && cd.l < n {
      EndBeforeFirst(cd.c, w + cd.l, k);
      ShlShl(pre, cd.l, n - cd.l);
      ShlMono(Shl(pre, cd.l), End(cd.c, w + cd.l), n - cd.l);
      ShlMono(0, 0, n - cd.l);
    }
  }

  /** No table was opened for the prefix of T before. */
  lemma NewPrefix(cd: Code, hp: seq<Huft>, tabs: set<Tab>, stk: seq<Tab>, T: Tab, k: nat, C: nat)
    requires CodeOk(cd) && StackOk(cd, hp, tabs, stk, k, C)
    requires T.w == LevelBits(cd.l, |stk|) < k && T.pre == Shr(C, k - T.w)
    ensures forall T' :: T' in tabs && T'.w == T.w ==> T'.pre != T.pre
  {
    forall T' | T' in tabs && T'.w == T.w
      ensures T'.pre != T.pre
    {
      assert Behind(T', stk, k, C);
      if T'.pre == T.pre {
        var h: nat :| h < |stk| && stk[h] == T';
        assert OpenAt(cd, tabs, stk, h, k, C);
        WidthsDiffer(cd.l, h, |stk|);
      }
    }
  }

  /** A table that reaches down to the longest code holds every code with its prefix. */
  lemma RegionEnd(cd: Code, w: nat, C: nat, k: nat, j: nat)
    requires CodeOk(cd) && w <= k && Shr(C, k - w) < Pow2(w)
    ensures w + j == cd.g ==> Shl(Shr(C, k - w) + 1, j) <= End(cd.c, w + j)
  {
    ShlMono(Shr(C, k - w) + 1, Pow2(w), j);
    ShlShl(1, w, j);
  }

  /** The first table always has l bits: the walker starts with that many. */
  lemma RootBits(cd: Code, T: Tab)
    requires CodeOk(cd) && TabShape(cd, T) && T.w == 0
    ensures T == Root(cd, T.off) && T.jb == cd.l && Msb(T.pre, T.w) == 0
  {
    RootShape(cd, T);
  }

  /** The stacks hold where the open tables are and the reversed codes that opened them. */
  ghost predicate Recorded(stk: seq<Tab>, u: seq<nat>, x: seq<nat>)
  {
    |stk| <= |u| < |x| && x[0] == 0 &&
    forall j :: 0 <= j < |stk| ==> u[j] == stk[j].off && x[j] == Msb(stk[j].pre, stk[j].w)
  }

  lemma {:induction false} ZeroBits(k: nat)
    ensures Msb(0, k) == 0 && Low(0, k) == 0
  {
    ShlIn(0, k);
    if k > 0 {
      ZeroBits(k - 1);
      ShlIn(0, k - 1);
    }
  }

  lemma {:induction false} NoShorterCodes(c: seq<nat>, k: nat)
    requires 1 <= k < |c| && forall j :: 1 <= j < k ==> c[j] == 0
    ensures First(c, k) == 0 == Off(c, k)
  {
    if k > 1 {
      NoShorterCodes(c, k - 1);
    }
  }

  lemma LastRecord(stk: seq<Tab>, u: seq<nat>, x: seq<nat>)
    requires Recorded(stk, u, x)
    ensures x[0] == 0 && (stk != [] ==> u[|stk| - 1] == stk[|stk| - 1].off)
  {
  }

  lemma Record(stk: seq<Tab>, T: Tab, u: seq<nat>, x: seq<nat>, i: nat)
    requires Recorded(stk, u, x) && |stk| < |u|
    requires i == Msb(T.pre, T.w) && (stk == [] ==> i == 0)
    ensures Recorded(stk + [T], u[|stk| := T.off], x[|stk| := i])
  {
  }

  /** In the table of z entries at q, those below j of class c modulo 2^n are filled with r. */
  ghost predicate FilledTo(hp0: seq<Huft>, hp: seq<Huft>, q: nat, z: nat, j: nat, n: nat, c: nat, r: Huft)
  {
    |hp| == |hp0| && forall m :: 0 <= m < |hp| ==>
      hp[m] == if q <= m < q + z && m - q < j && Low(m - q, n) == c then r else hp0[m]
  }

  lemma FillStart(hp: seq<Huft>, q: nat, z: nat, j: nat, n: nat, r: Huft)
    requires q + z <= |hp| && j < Pow2(n)
    ensures FilledTo(hp, hp, q, z, j, n, j, r)
  {
    FirstOfClass(j, n);
  }

  lemma FillOn(hp0: seq<Huft>, hp: seq<Huft>, q: nat, z: nat, j: nat, n: nat, c: nat, r: Huft)
    requires q + z <= |hp| && j < z && Low(j, n) == c && FilledTo(hp0, hp, q, z, j, n, c, r)
    ensures FilledTo(hp0, hp[q + j := r], q, z, j + Pow2(n), n, c, r)
  {
    hide Low, Shl;
    NextOfClass(j, n);
    var hp' := hp[q + j := r];
    forall m | 0 <= m < |hp|
      ensures hp'[m] == if q <= m < q + z && m - q < j + Pow2(n) && Low(m - q, n) == c then r else hp0[m]
    {
      if q <= m < q + z && Low(m - q, n) == c && m - q < j + Pow2(n) {
        assert m - q <= j;
      }
    }
  }

  lemma FillEnd(hp0: seq<Huft>, hp: seq<Huft>, q: nat, z: nat, j: nat, n: nat, c: nat, r: Huft)
    requires q + z <= |hp| && z <= j && FilledTo(hp0, hp, q, z, j, n, c, r)
    ensures FilledTo(hp0, hp, q, z, z, n, c, r)
  {
    hide Low;
  }

  /** A table filled with the entry of code C has it where C leads. */
  lemma FillWritten(cd: Code, hp: seq<Huft>, hp': seq<Huft>, T: Tab, k: nat, C: nat, r: Huft)
    requires 1 <= k < |cd.c| && T.w < k && First(cd.c, k) <= C && T.off + Pow2(T.jb) <= |hp|
    requires FilledTo(hp, hp', T.off, Pow2(T.jb), Pow2(T.jb), k - T.w, Msb(C, k - T.w), r)
    requires IsLeaf(cd, r, Off(cd.c, k) + (C - First(cd.c, k)), k - T.w)
    ensures Written(cd, hp, hp', T, k, C)
    ensures |hp'| == |hp| && forall i :: 0 <= i < |hp| && !(T.off <= i < T.off + Pow2(T.jb)) ==> hp'[i] == hp[i]
  {
    hide Low, Msb, IsLeaf, Off, First, Pow2, FilledTo;
    var n, c, p := k - T.w, Msb(C, k - T.w), Off(cd.c, k) + (C - First(cd.c, k));
    FilledOutside(hp, hp', T.off, Pow2(T.jb), n, c, r);
    forall j: nat | j < Pow2(T.jb) && T.off + j < |hp|
      ensures if Low(j, n) == c then IsLeaf(cd, hp'[T.off + j], p, n) else hp'[T.off + j] == hp[T.off + j]
    {
      FilledAt(hp, hp', T.off, Pow2(T.jb), j, n, c, r);
    }
  }

  lemma FilledOutside(hp: seq<Huft>, hp': seq<Huft>, q: nat, z: nat, n: nat, c: nat, r: Huft)
    requires FilledTo(hp, hp', q, z, z, n, c, r)
    ensures |hp'| == |hp| && forall i :: 0 <= i < |hp| && !(q <= i < q + z) ==> hp'[i] == hp[i]
  {
    hide Low;
  }

  lemma FilledAt(hp: seq<Huft>, hp': seq<Huft>, q: nat, z: nat, j: nat, n: nat, c: nat, r: Huft)
    requires FilledTo(hp, hp', q, z, z, n, c, r) && j < z && q + j < |hp|
    ensures |hp'| == |hp| && hp'[q + j] == if Low(j, n) == c then r else hp[q + j]
  {
    hide Low;
    assert q + j - q == j;
  }

  /** The working variables of huft_build while it generates tables. */
  class Builder {
    const cd: Code
    const hp: array<Huft>  // all tables, end to end
    const u: array<nat>    // where the open tables begin
    const x: array<nat>    // x[1..]: the codes that opened them
    var hn: nat            // entries of hp in use
    var h: int             // number of open tables less one
    var w: int             // bits read before the innermost one
    var q: nat             // where that one begins
    var z: nat             // how many entries it has
    var i: nat             // the code to enter, bit-reversed
    var p: nat             // index in v of its value
    var t: nat             // where the outermost table begins
    var r: Huft            // the entry made last
    ghost var tabs: set<Tab>
    ghost var stk: seq<Tab>
    ghost const lo: nat
    ghost const hp0: seq<Huft>

    constructor (cd: Code, kmin: nat, hp: array<Huft>, hn: nat)
      requires CodeOk(cd) && 1 <= kmin <= cd.g && hn <= MANY <= hp.Length
      requires First(cd.c, kmin) == 0 == Off(cd.c, kmin)
      ensures this.cd == cd && this.hp == hp && lo == hn && hp0 == hp[..] && fresh(u) && fresh(x)
      ensures Tables(kmin, 0) && Stack(kmin, 0) && ValueAt(kmin, 0)
    {
      hide Sized, Total, Level, Wanted;
      this.cd, this.hp, this.hn := cd, hp, hn;
      h, w := -1, -(cd.l as int);
      q, z, i, p, t := 0, 0, 0, 0, 0;
      r := Huft(0, 0, 0);
      u := new nat[BMAX];
      x := new nat[BMAX + 1];
      tabs, stk, lo, hp0 := {}, [], hn, hp[..];
      new;
      x[0] := 0;
      ZeroBits(kmin);
      SizedNone(cd, BMAX);
    }

    ghost predicate Tables(k: nat, C: nat)
      reads this, hp
    {
      && CodeOk(cd) && lo <= hn <= MANY <= hp.Length == |hp0|
      && TabsOk(cd, tabs, lo, hn) && AllDone(cd, hp[..], hp0, tabs, k, C) && Sized(cd, tabs, hn - lo)
      && Reached(cd, tabs, k, C)
      && (forall j :: 0 <= j < lo || hn <= j < hp.Length ==> hp[j] == hp0[j])
      && (if tabs == {} then hn == lo else Root(cd, t) in tabs && (cd.l == cd.g ==> hn == lo + Pow2(cd.l)))
    }

    ghost predicate Stack(k: nat, C: nat)
      reads this, hp, u, x
    {
      && u.Length == BMAX && x.Length == BMAX + 1 && u != x
      && StackOk(cd, hp[..], tabs, stk, k, C) && (stk == [] <==> tabs == {}) && |stk| <= BMAX
      && h == |stk| - 1 && w + cd.l == LevelBits(cd.l, |stk|)
      && Recorded(stk, u[..], x[..]) && i == Msb(C, k)
      && (k <= w + cd.l ==> stk != [] && q == stk[h].off && z == Pow2(stk[h].jb))
      && (w + cd.l < k ==> Low(C, k - (w + cd.l)) == 0)
    }

    /** With the next table needed the tables take more than MANY entries. */
    ghost predicate Full()
      reads this
    {
      exists tabs, n: nat :: Sized(cd, tabs, n) && MANY < lo + n
    }

    ghost predicate At(k: nat, a: nat, C: nat)
      reads this
    {
      CodeOk(cd) && 1 <= k <= cd.g && First(cd.c, k) <= C && C + a + 1 == End(cd.c, k) && C < Pow2(k)
    }

    /** Take the entries for a table of j bits; the table of the level above, if any, gets a link. */
    method Allocate(j: nat) returns (ok: bool)
      requires u.Length == BMAX && x.Length == BMAX + 1 && u != x && 0 <= h < BMAX && hn <= MANY <= hp.Length
      requires h > 0 ==> cd.l <= w && u[h - 1] + Shr(i, w - cd.l) < hn
      modifies this, hp, u, x
      ensures h == old(h) && w == old(w) && i == old(i) && p == old(p) && tabs == old(tabs) && stk == old(stk)
      ensures (h == 0 ==> r == old(r))
      ensures ok <==> old(hn) + Pow2(j) <= MANY
      ensures !ok ==> hp[..] == old(hp[..]) && hn == old(hn)
      ensures ok ==> hn == old(hn) + Pow2(j) && q == old(hn) && z == Pow2(j) && u[..] == old(u[..])[h := old(hn)]
      ensures ok && h > 0 ==>
        var last := old(u[h - 1]) + Shr(i, w - cd.l);
        x[..] == old(x[..])[h := i] && t == old(t) && hp[..] == old(hp[..])[last := Huft(j, cd.l, old(hn) - last)]
      ensures ok && h == 0 ==> x[..] == old(x[..]) && t == old(hn) && hp[..] == old(hp[..])
    {
      z := Pow2(j);
      if hn + z > MANY {
        return false;
      }
      u[h] := hn;
      q := hn;
      hn := hn + z;
      if h > 0 {
        x[h] := i;
        var last := u[h - 1] + Shr(i, w - cd.l);
        r := Huft(j, cd.l, q - last);
        hp[last] := r;
      } else {
        t := q;
      }
      return true;
    }

    /** One more level: choose its size, take its entries, link to it. */
    method OpenTable(k: nat, a: nat, ghost C: nat) returns (ok: bool)
      requires Tables(k, C) && Stack(k, C) && At(k, a, C) && w + cd.l < k
      modifies this, hp, u, x
      ensures p == old(p) && (cd.g == 1 ==> r == old(r))
      ensures ok ==> Tables(k, C) && Stack(k, C) && w == old(w) + cd.l
      ensures !ok ==> Full() && lo <= hn <= MANY
      ensures forall j :: 0 <= j < lo ==> hp[j] == hp0[j]
    {
      hide StackOk, AllDone, TabsOk, TabShape, Opening, CodeOk, Linked, Msb, Shr, Low, Shl, First, IsLink, Root,
           Recorded, MultipleOf;
      DeepStack(cd, stk, k);
      h := h + 1;
      w := w + cd.l;
      var j := TableBits(cd, w, k, a, C, hn);
      ok := Connect(j, k, a, C);
    }

    /** Level h is about to get a table of j bits for code C of k bits. */
    ghost predicate Opens(j: nat, k: nat, a: nat, C: nat)
      reads this, hp, u, x
    {
      && Tables(k, C) && u.Length == BMAX && x.Length == BMAX + 1 && u != x
      && StackOk(cd, hp[..], tabs, stk, k, C) && (stk == [] <==> tabs == {}) && |stk| < BMAX
      && h == |stk| && w == LevelBits(cd.l, |stk|) && Recorded(stk, u[..], x[..]) && i == Msb(C, k)
      && Remaining(cd, w, k, a, C) && TabShape(cd, Tab(hn, w, Shr(C, k - w), j))
      && Least(cd, Tab(hn, w, Shr(C, k - w), j))
      && (cd.l == cd.g ==> stk == []) && (cd.g == 1 ==> cd.l == cd.g)
    }

    /** Open that table. */
    method Connect(j: nat, k: nat, a: nat, ghost C: nat) returns (ok: bool)
      requires Opens(j, k, a, C)
      modifies this, hp, u, x
      ensures p == old(p) && (cd.g == 1 ==> r == old(r))
      ensures ok ==> Tables(k, C) && Stack(k, C) && w == old(w)
      ensures !ok ==> Full() && lo <= hn <= MANY
      ensures forall j :: 0 <= j < lo ==> hp[j] == hp0[j]
    {
      hide StackOk, AllDone, TabsOk, TabShape, Opening, CodeOk, Linked, Msb, Shr, Low, Shl, First, IsLink, Root,
           Recorded, MultipleOf, Sized, Least, Reached;
      StillAligned(C, k - w, cd.l);
      ghost var T := Tab(hn, w, Shr(C, k - w), j);
      ghost var hp1, us, xs := hp[..], u[..], x[..];
      if h == 0 {
        RootBits(cd, T);
      } else {
        LinkPlace(cd, hp1, tabs, stk, lo, T, k, C);
      }
      NewPrefix(cd, hp1, tabs, stk, T, k, C);
      SizedMore(cd, tabs, hn - lo, T);
      ReachedMore(cd, tabs, T, k, C);
      Record(stk, T, us, xs, Msb(T.pre, T.w));
      LastRecord(stk, us, xs);
      ok := Allocate(j);
      if ok {
        assert h == 0 ==> xs[h := Msb(T.pre, T.w)] == xs;
        OpenStep(cd, hp0, hp1, hp[..], tabs, stk, lo, T, k, a, C);
        tabs, stk := tabs + {T}, stk + [T];
      }
    }

    /** Open tables until the innermost one sees the last bit of a k-bit code. */
    method OpenTables(k: nat, a: nat, ghost C: nat) returns (ok: bool)
      requires Tables(k, C) && Stack(k, C) && At(k, a, C)
      modifies this, hp, u, x
      ensures p == old(p) && (cd.g == 1 ==> r == old(r))
      ensures ok ==> Tables(k, C) && Stack(k, C) && k <= w + cd.l
      ensures !ok ==> Full() && lo <= hn <= MANY
      ensures forall j :: 0 <= j < lo ==> hp[j] == hp0[j]
    {
      ok := true;
      while k > w + cd.l
        invariant Tables(k, C) && Stack(k, C) && p == old(p) && (cd.g == 1 ==> r == old(r))
        decreases k - w
      {
        ok := OpenTable(k, a, C);
        if !ok {
          return;
        }
      }
    }

    /** Fill the current table with r at every f-th entry from the reversed code on. */
    method Fill(r: Huft, n: nat)
      requires q + z <= hp.Length && w >= 0 && Shr(i, w) < Pow2(n)
      modifies hp
      ensures FilledTo(old(hp[..]), hp[..], q, z, z, n, Shr(i, w), r)
    {
      hide Shr, Low, Shl, FilledTo;
      var f := Pow2(n);
      var j := Shr(i, w);
      Small(j, n);
      ghost var hp1, c := hp[..], j;
      FillStart(hp1, q, z, j, n, r);
      while j < z
        invariant Low(j, n) == c
        invariant FilledTo(hp1, hp[..], q, z, j, n, c, r)
        decreases z - j
      {
        ghost var hp2 := hp[..];
        FillOn(hp1, hp2, q, z, j, n, c, r);
        hp[q + j] := r;
        assert hp[..] == hp2[q + j := r];
        NextOfClass(j, n);
        j := j + f;
      }
      FillEnd(hp1, hp[..], q, z, j, n, c, r);
    }

    /** The next value to give out is that of code C of k bits, or there is none left. */
    ghost predicate ValueAt(k: nat, C: nat)
      requires 1 <= k < |cd.c| && First(cd.c, k) <= C
      reads this`p, this`r
    {
      var c := Off(cd.c, k) + (C - First(cd.c, k));
      && p == (if c < |cd.v| then c else |cd.v|)
      && (cd.g == 1 && p > 0 ==> r.base == LeafBase(cd.v[p - 1], cd.s, cd.d))
    }

    /** Enter the code at every place of the innermost table that it is a prefix of. */
    method PutEntry(k: nat, ghost C: nat)
      requires Tables(k, C) && Stack(k, C) && 1 <= k <= cd.g && k <= w + cd.l
      requires First(cd.c, k) <= C < End(cd.c, k) && C < Pow2(k) && ValueAt(k, C)
      modifies hp, this`p, this`r
      ensures Tables(k, C + 1) && Stack(k, C) && ValueAt(k, C + 1)
    {
      hide AllDone, TabsOk, TabShape, Linked, Recorded, Off, IsLeaf, Msb, Shr, Low, Shl, Sized, FilledTo,
           Written, Reached;
      ghost var hp1 := hp[..];
      OnTop(cd, hp1, tabs, stk, h, k, C);
      CurrentEntry(cd, hp1, tabs, stk, lo, hn, k, C);
      ReachedCode(cd, hp1, tabs, stk, k, C);
      MakeEntry(k, C);
      Fill(r, k - w);
      FillWritten(cd, hp1, hp[..], stk[h], k, C, r);
      PlaceCode(cd, hp0, hp1, hp[..], tabs, stk, lo, hn, k, C);
    }

    /** Set up the entry of the code and step on in the values. */
    method MakeEntry(k: nat, ghost C: nat)
      requires CodeOk(cd) && 1 <= k <= cd.g && 0 <= w <= k && First(cd.c, k) <= C && ValueAt(k, C)
      modifies this`p, this`r
      ensures ValueAt(k, C + 1) && IsLeaf(cd, r, Off(cd.c, k) + (C - First(cd.c, k)), k - w)
    {
      hide CodeOk, Off, LeafExop, LeafBase, First;
      r := r.(bits := k - w);
      if p >= |cd.v| {
        r := r.(exop := INVALID);
      } else {
        r := r.(exop := LeafExop(cd.v[p], cd.s, cd.e), base := LeafBase(cd.v[p], cd.s, cd.d));
        p := p + 1;
      }
    }

    /** Go back to the innermost table that the next code D = C + 1 belongs to. */
    method BackUp(k: nat, ghost C: nat, ghost D: nat)
      requires u.Length == BMAX && x.Length == BMAX + 1 && D == C + 1 && CodeOk(cd)
      requires StackOk(cd, hp[..], tabs, stk, k, C) && stk != [] && Recorded(stk, u[..], x[..])
      requires h == |stk| - 1 && w == LevelBits(cd.l, h) && k <= w + cd.l
      requires if D < Pow2(k) then i == Msb(D, k) else i == 0
      modifies this`h, this`w
      ensures 0 <= h < |stk| && w == LevelBits(cd.l, h)
      ensures D < Pow2(k) ==> StackOk(cd, hp[..], tabs, stk[..h + 1], k, D)
      ensures D < Pow2(k) ==> h == |stk| - 1 || (w + cd.l < k && Low(D, k - (w + cd.l)) == 0)
    {
      hide StackOk, Msb, Shr, Low, Shl, CodeOk, OnPath;
      OnTop(cd, hp[..], tabs, stk, h, k, C);
      while Low(i, w) != x[h]
        invariant 0 <= h < |stk| && w == LevelBits(cd.l, h) == stk[h].w < k
        invariant D < Pow2(k) ==> forall j :: h < j < |stk| ==> !OnPath(stk[j], k, D)
        decreases h
      {
        SamePrefix(cd, hp[..], tabs, stk, h, k, C, D, i);
        h := h - 1;
        w := w - cd.l;
        OnTop(cd, hp[..], tabs, stk, h, k, C);
      }
      if D < Pow2(k) {
        SamePrefix(cd, hp[..], tabs, stk, h, k, C, D, i);
        CloseTables(cd, hp[..], tabs, stk, h + 1, k, C, D);
        if h < |stk| - 1 {
          OnTop(cd, hp[..], tabs, stk, h + 1, k, C);
        }
      }
    }

    /** Go on to the next code. */
    method NextCode(k: nat, ghost C: nat)
      requires CodeOk(cd) && Stack(k, C) && 1 <= k <= cd.g && k <= w + cd.l && C < Pow2(k)
      modifies this`i, this`h, this`w, this`stk
      ensures C + 1 < Pow2(k) ==> Stack(k, C + 1)
    {
      hide StackOk, Recorded, Msb, Shr, Low, Shl, CodeOk;
      i := BackwardIncrement(i, k, C);
      BackUp(k, C, C + 1);
      stk := CutStack(stk, h + 1, u[..], x[..]);
    }

    /** One code: open the tables it needs, enter it, go on to the next code. */
    method Place(k: nat, a: nat, ghost C: nat) returns (ok: bool)
      requires Tables(k, C) && Stack(k, C) && At(k, a, C) && ValueAt(k, C)
      modifies this, hp, u, x
      ensures ok ==> Tables(k, C + 1) && ValueAt(k, C + 1) && (C + 1 < Pow2(k) ==> Stack(k, C + 1)) && tabs != {}
      ensures !ok ==> Full() && lo <= hn <= MANY
      ensures forall j :: 0 <= j < lo ==> hp[j] == hp0[j]
    {
      hide AllDone, TabsOk, StackOk, Recorded, Off, Msb, Shr, Low, Shl;
      ok := OpenTables(k, a, C);
      if !ok {
        return;
      }
      PutEntry(k, C);
      NextCode(k, C);
    }

    /** All codes of k bits. */
    method PlaceAll(k: nat) returns (ok: bool)
      requires CodeOk(cd) && 1 <= k <= cd.g
      requires Tables(k, First(cd.c, k)) && ValueAt(k, First(cd.c, k))
      requires First(cd.c, k) < Pow2(k) ==> Stack(k, First(cd.c, k))
      modifies this, hp, u, x
      ensures ok ==> Tables(k, End(cd.c, k)) && ValueAt(k, End(cd.c, k)) && (End(cd.c, k) < Pow2(k) ==>
        Stack(k, End(cd.c, k)))
      ensures ok && cd.c[k] > 0 ==> tabs != {}
      ensures !ok ==> Full() && lo <= hn <= MANY
      ensures forall j :: 0 <= j < lo ==> hp[j] == hp0[j]
    {
      hide AllDone, TabsOk, StackOk, Recorded, Stack, Off, Msb, Shr, Low, Shl;
      var a := cd.c[k];
      ok := true;
      EndFits(cd, k);
      while a > 0
        invariant a < cd.c[k] ==> tabs != {}
        invariant a <= cd.c[k] && Tables(k, End(cd.c, k) - a) && ValueAt(k, End(cd.c, k) - a)
        invariant End(cd.c, k) - a < Pow2(k) ==> Stack(k, End(cd.c, k) - a)
      {
        a := a - 1;
        ok := Place(k, a, End(cd.c, k) - a - 1);
        if !ok {
          return;
        }
      }
    }

    /** The same position, seen as a code of one more bit. */
    lemma Lengthen(k: nat, C: nat)
      requires Tables(k, C) && Stack(k, C) && 1 <= k < cd.g && C == End(cd.c, k) && ValueAt(k, C)
      ensures 2 * C == First(cd.c, k + 1)
      ensures Tables(k + 1, 2 * C) && Stack(k + 1, 2 * C) && ValueAt(k + 1, 2 * C)
    {
      hide StackOk, AllDone, TabsOk, Recorded, Complete, CodeOk, Shr, Shl, Reached, Sized;
      ReachedLonger(cd, tabs, k);
      NextLength(cd, hp0, hp[..], tabs, stk, k, C, k + 1, 2 * C);
      if w + cd.l <= k {
        Even(C, k - (w + cd.l));
      }
      MsbDouble(C, k);
    }
  }

  lemma Even(C: nat, n: nat)
    ensures Low(2 * C, n + 1) == 2 * Low(C, n)
  {
  }

  lemma EndFits(cd: Code, k: nat)
    requires CodeOk(cd) && 1 <= k <= cd.g
    ensures End(cd.c, k) <= Pow2(k) && (k < cd.g ==> End(cd.c, k) < Pow2(k))
  {
    if k < cd.g {
      EndBelow(cd.c, cd.g, k);
    }
  }

  ghost method CutStack(stk: seq<Tab>, n: nat, u: seq<nat>, x: seq<nat>) returns (stk': seq<Tab>)
    requires n <= |stk| && Recorded(stk, u, x)
    ensures stk' == stk[..n] && Recorded(stk', u, x) && (n == |stk| ==> stk' == stk)
  {
    stk' := stk[..n];
  }

  lemma OnTop(cd: Code, hp: seq<Huft>, tabs: set<Tab>, stk: seq<Tab>, h: int, k: nat, C: nat)
    requires StackOk(cd, hp, tabs, stk, k, C) && 0 <= h < |stk|
    ensures stk[h].w == LevelBits(cd.l, h) < k && stk[h].pre == Shr(C, k - stk[h].w)
  {
    assert OpenAt(cd, tabs, stk, h, k, C);
  }

  /** Comparing the low bits of a reversed code with a recorded one compares prefixes. */
  lemma SamePrefix(cd: Code, hp: seq<Huft>, tabs: set<Tab>, stk: seq<Tab>, h: nat, k: nat, C: nat, D: nat, i: nat)
    requires StackOk(cd, hp, tabs, stk, k, C) && h < |stk| && C < D
    requires if D < Pow2(k) then i == Msb(D, k) else i == 0
    ensures var T := stk[h];
            D < Pow2(k) ==> (Low(i, T.w) == Msb(T.pre, T.w) <==> OnPath(T, k, D))
    ensures h == 0 ==> Low(i, stk[h].w) == Msb(stk[h].pre, stk[h].w)
  {
    OnTop(cd, hp, tabs, stk, h, k, C);
    var T := stk[h];
    if D < Pow2(k) {
      var r := k - T.w;
      MsbParts(D, k, T.w);
      ShlShl(1, T.w, r);
      ShrLess(D, Pow2(T.w), r);
      ShrLess(C, Pow2(T.w), r);
      if Msb(Shr(D, r), T.w) == Msb(T.pre, T.w) {
        MsbInjective(Shr(D, r), T.pre, T.w);
      }
    }
  }

  lemma CurrentEntry(cd: Code, hp: seq<Huft>, tabs: set<Tab>, stk: seq<Tab>, lo: nat, hi: nat, k: nat, C: nat)
    requires CodeOk(cd) && TabsOk(cd, tabs, lo, hi) && StackOk(cd, hp, tabs, stk, k, C) && stk != []
    requires 1 <= k <= cd.g && First(cd.c, k) <= C < End(cd.c, k) && k <= stk[|stk| - 1].w + cd.l
    ensures var top := stk[|stk| - 1];
            top.w == LevelBits(cd.l, |stk| - 1) < k <= top.w + top.jb && lo <= top.off && top.off + Pow2(top.jb) <= hi
            && Shr(Msb(C, k), top.w) == Msb(C, k - top.w) < Pow2(k - top.w)
  {
    var top := stk[|stk| - 1];
    TopOpen(cd, hp, tabs, stk, lo, hi, k, C);
    MsbParts(C, k, top.w);
    MsbBound(C, k - top.w);
  }

  lemma FirstOfClass(j: nat, n: nat)
    requires j < Pow2(n)
    ensures forall m: nat :: m < j ==> Low(m, n) != j
  {
    forall m: nat | m < j
      ensures Low(m, n) != j
    {
      Small(m, n);
    }
  }

  lemma NextOfClass(j: nat, n: nat)
    ensures Low(j + Pow2(n), n) == Low(j, n) && Pow2(n) > 0
    ensures forall m: nat :: m < j + Pow2(n) && Low(m, n) == Low(j, n) ==> m <= j
  {
    Split(j, n);
    ShlSum(Shr(j, n), 1, n);
    Unique(j + Pow2(n), Shr(j, n) + 1, n, Low(j, n));
    forall m: nat | m < j + Pow2(n) && Low(m, n) == Low(j, n)
      ensures m <= j
    {
      Split(m, n);
      ShlMono(Shr(j, n) + 1, Shr(m, n), n);
      ShlMono(Shr(m, n), Shr(j, n), n);
    }
  }

  lemma OpenStep(cd: Code, hp0: seq<Huft>, hp: seq<Huft>, hp': seq<Huft>, tabs: set<Tab>, stk: seq<Tab>, lo: nat,
                 T: Tab, k: nat, a: nat, C: nat)
    requires CodeOk(cd) && lo <= T.off && TabsOk(cd, tabs, lo, T.off) && T.off + Pow2(T.jb) <= |hp| == |hp0|
    requires forall i :: T.off <= i < |hp| ==> hp[i] == hp0[i]
    requires StackOk(cd, hp, tabs, stk, k, C) && AllDone(cd, hp, hp0, tabs, k, C)
    requires 1 <= k && Remaining(cd, T.w, k, a, C)
    requires TabShape(cd, T) && T.w == LevelBits(cd.l, |stk|) && T.pre == Shr(C, k - T.w)
    requires LinkWritten(cd, hp, hp', stk, T)
    ensures TabsOk(cd, tabs + {T}, lo, T.off + Pow2(T.jb))
    ensures AllDone(cd, hp', hp0, tabs + {T}, k, C)
    ensures StackOk(cd, hp', tabs + {T}, stk + [T], k, C)
    ensures forall i :: T.off <= i < |hp| ==> hp'[i] == hp0[i]
    ensures forall i :: 0 <= i < lo ==> hp'[i] == hp[i]
  {
    hide AllDone, TabDone, TabShape, CodeOk, Behind, OpenAt, LeadsAt, Low, Shr, Msb;
    HuftSteps.OpenTable(cd, hp0, hp, hp', tabs, stk, lo, T, k, C);
    if stk != [] {
      LinkPlace(cd, hp, tabs, stk, lo, T, k, C);
    }
  }

  lemma StillAligned(C: nat, n: nat, l: nat)
    requires Low(C, n) == 0
    ensures l <= n ==> Low(C, n - l) == 0
  {
    if l <= n {
      ShrShr(C, n - l, l);
    }
  }

  lemma {:induction false} DeepLevel(l: nat, h: nat)
    requires l > 0
    ensures h <= LevelBits(l, h) && MultipleOf(l, LevelBits(l, h))
  {
    if h > 0 {
      DeepLevel(l, h - 1);
    }
  }

  lemma DeepStack(cd: Code, stk: seq<Tab>, k: nat)
    requires CodeOk(cd) && LevelBits(cd.l, |stk|) < k <= cd.g
    ensures |stk| < BMAX && MultipleOf(cd.l, LevelBits(cd.l, |stk|)) && (cd.l == cd.g ==> stk == [])
    ensures cd.g == 1 ==> cd.l == cd.g
  {
    DeepLevel(cd.l, |stk|);
  }

  /** The place of the link to T, computed from the reversed code. */
  lemma LinkPlace(cd: Code, hp: seq<Huft>, tabs: set<Tab>, stk: seq<Tab>, lo: nat, T: Tab, k: nat, C: nat)
    requires CodeOk(cd) && TabsOk(cd, tabs, lo, T.off) && StackOk(cd, hp, tabs, stk, k, C) && stk != []
    requires T.w == LevelBits(cd.l, |stk|) < k <= cd.g && T.pre == Shr(C, k - T.w) && Low(C, k - T.w) == 0
    requires First(cd.c, k) <= C < End(cd.c, k)
    ensures var top := stk[|stk| - 1];
            top.w + cd.l == T.w && top.off + Shr(Msb(C, k), top.w) == LinkAt(cd, top, T) &&
              lo <= LinkAt(cd, top, T) < T.off
    ensures Msb(C, k) == Msb(T.pre, T.w)
  {
    var top := stk[|stk| - 1];
    TopOpen(cd, hp, tabs, stk, lo, T.off, k, C);
    LinkInside(cd, top, T);
    LinkBits(cd.l, top.w, T.w, T.pre, k, C);
  }

  lemma LinkBits(l: nat, w: nat, w': nat, pre: nat, k: nat, C: nat)
    requires w' == w + l <= k && pre == Shr(C, k - w') && Low(C, k - w') == 0
    ensures Shr(Msb(C, k), w) == Msb(pre, l) && Msb(C, k) == Msb(pre, w')
  {
    var r := k - w';
    Split(C, r);
    MsbShl(pre, w', r);
    MsbParts(C, k, w);
    MsbShl(pre, l, r);
  }

  /** All lengths from the shortest on: every code gets its entries. */
  method Generate(cd: Code, kmin: nat, hp: array<Huft>, hn: nat)
    returns (ok: bool, t: nat, hn': nat, ghost tabs: set<Tab>)
    requires CodeOk(cd) && 1 <= kmin <= cd.g && (forall k :: 1 <= k < kmin ==> cd.c[k] == 0)
    requires hn <= MANY <= hp.Length
    modifies hp
    ensures ok ==> Finished(cd, hp[..], old(hp[..]), tabs, t, hn, hn') && hn' == hn + Need(cd)
    ensures ok <==> hn + Need(cd) <= MANY
    ensures hn <= hn' <= MANY && (ok && cd.l == cd.g ==> hn' == hn + Pow2(cd.l))
    ensures forall j :: 0 <= j < hn ==> hp[j] == old(hp[j])
    ensures ok ==> forall j :: hn' <= j < hp.Length ==> hp[j] == old(hp[j])
  {
    hide AllDone, TabsOk, StackOk, Recorded, Msb, Shr, Low, Shl, Off, Sized, Least, Reached, Need;
    NoShorterCodes(cd.c, kmin);
    Pow2Mono(0, kmin);
    var bd := new Builder(cd, kmin, hp, hn);
    var k := kmin;
    ok, t, hn', tabs := true, 0, hn, {};
    while k <= cd.g
      invariant kmin <= k <= cd.g + 1 && fresh(bd) && fresh(bd.u) && fresh(bd.x) && bd.cd == cd && bd.hp == hp
      invariant bd.lo == hn && bd.hp0 == old(hp[..])
      invariant k <= cd.g ==> bd.Tables(k, First(cd.c, k)) && bd.ValueAt(k, First(cd.c, k)) && bd.Stack(k,
        First(cd.c, k))
      invariant k > cd.g ==> bd.Tables(cd.g, Pow2(cd.g)) && bd.tabs != {}
    {
      ok := bd.PlaceAll(k);
      if !ok {
        TooMany(bd);
        hn' := bd.hn;
        return;
      }
      EndFits(cd, k);
      if k < cd.g {
        bd.Lengthen(k, End(cd.c, k));
      }
      k := k + 1;
    }
    Exactly(cd, bd.tabs, bd.hn - hn);
    t, hn', tabs := bd.t, bd.hn, bd.tabs;
  }

  lemma TooMany(bd: Builder)
    requires CodeOk(bd.cd) && bd.Full()
    ensures MANY < bd.lo + Need(bd.cd)
  {
    hide Sized, Need;
    var tabs, n: nat :| Sized(bd.cd, tabs, n) && MANY < bd.lo + n;
    AtMost(bd.cd, tabs, n);
  }
}
