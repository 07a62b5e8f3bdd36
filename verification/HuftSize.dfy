/** How much space the tables of a code take: a bound by the number of codes, from which it
    follows that MANY entries are enough for the trees that inflate accepts. */
module HuftSize {
  import opened Bits
  import opened Canonical
  import opened HuftTable

  /** The codes shorter than w + jb bits do not take up all of the table; and if it is wider than
      l bits there are none in it. */
  ghost predicate Least(cd: Code, T: Tab)
    requires CodeOk(cd)
  {
    && 1 <= T.jb && T.w + T.jb <= cd.g
    && (1 < T.w + T.jb ==> End(cd.c, T.w + T.jb - 1) < Shl(T.pre + 1, T.jb - 1))
    && (cd.l < T.jb ==> End(cd.c, T.w + T.jb - 1) <= Shl(T.pre, T.jb - 1))
  }

  ghost predicate Distinct(tabs: set<Tab>)
  {
    forall T, T' :: T in tabs && T' in tabs && T.w == T'.w && T.pre == T'.pre ==> T == T'
  }

  /** The tables after w bits that have 2^j entries. */
  ghost function Of(tabs: set<Tab>, w: nat, j: nat): set<Tab>
  {
    set T | T in tabs && T.w == w && T.jb == j
  }

  /** The entries of the tables after w bits that have at most 2^j each. */
  ghost function Level(tabs: set<Tab>, w: nat, j: nat): nat
  {
    if j == 0 then 0 else Level(tabs, w, j - 1) + Shl(|Of(tabs, w, j)|, j)
  }

  /** The entries of all tables after at most w bits. */
  ghost function Total(tabs: set<Tab>, w: nat): nat
  {
    (if w == 0 then 0 else Total(tabs, w - 1)) + Level(tabs, w, BMAX)
  }

  /** The tables are shaped for the code, each for a prefix of its own, and have n entries. */
  ghost predicate Sized(cd: Code, tabs: set<Tab>, n: nat)
  {
    && CodeOk(cd) && (forall T :: T in tabs ==> TabShape(cd, T) && Least(cd, T))
    && Distinct(tabs) && n == Total(tabs, BMAX)
  }

  // ----- one table more

  lemma {:induction false} LevelMore(tabs: set<Tab>, T: Tab, w: nat, j: nat)
    requires T !in tabs && 1 <= T.jb
    ensures Level(tabs + {T}, w, j) == Level(tabs, w, j) + if w == T.w && T.jb <= j then Pow2(T.jb) else 0
  {
    if j > 0 {
      LevelMore(tabs, T, w, j - 1);
      if w == T.w && j == T.jb {
        assert Of(tabs + {T}, w, j) == Of(tabs, w, j) + {T};
        ShlSum(|Of(tabs, w, j)|, 1, j);
      } else {
        assert Of(tabs + {T}, w, j) == Of(tabs, w, j);
      }
    }
  }

  lemma {:induction false} TotalMore(tabs: set<Tab>, T: Tab, w: nat)
    requires T !in tabs && 1 <= T.jb <= BMAX
    ensures Total(tabs + {T}, w) == Total(tabs, w) + if T.w <= w then Pow2(T.jb) else 0
  {
    LevelMore(tabs, T, w, BMAX);
    if w > 0 {
      TotalMore(tabs, T, w - 1);
    }
  }

  lemma LeastBounds(cd: Code, T: Tab)
    requires CodeOk(cd) && Least(cd, T)
    ensures 1 <= T.jb && T.w + T.jb <= cd.g <= BMAX
  {
  }

  lemma SizedMore(cd: Code, tabs: set<Tab>, n: nat, T: Tab)
    requires Sized(cd, tabs, n) && TabShape(cd, T) && Least(cd, T)
    requires forall T' :: T' in tabs && T'.w == T.w ==> T'.pre != T.pre
    ensures Sized(cd, tabs + {T}, n + Pow2(T.jb))
  {
    hide TabShape, Least, CodeOk;
    LeastBounds(cd, T);
    TotalMore(tabs, T, BMAX);
  }

  lemma {:induction false} SizedNone(cd: Code, w: nat)
    requires CodeOk(cd)
    ensures Total({}, w) == 0 && (w == BMAX ==> Sized(cd, {}, 0))
  {
    NoneThere({}, w, BMAX);
    if w > 0 {
      SizedNone(cd, w - 1);
    }
  }

  lemma {:induction false} NoneThere(tabs: set<Tab>, w: nat, j: nat)
    requires forall T :: T in tabs && T.w == w ==> j < T.jb
    ensures Level(tabs, w, j) == 0
  {
    if j > 0 {
      NoneThere(tabs, w, j - 1);
      assert Of(tabs, w, j) == {};
      ShlIn(0, j);
    }
  }

  // ----- the tables of one level

  lemma {:induction false} LastOf(S: set<Tab>) returns (T: Tab)
    requires S != {}
    ensures T in S && forall T' :: T' in S ==> T'.pre <= T.pre
    decreases |S|
  {
    T :| T in S;
    if S != {T} {
      var T' := LastOf(S - {T});
      T := if T'.pre > T.pre then T' else T;
    }
  }

  /** Multiples of 2^j between two bounds. */
  lemma {:induction false} Spread(S: set<Tab>, j: nat, lo: int, hi: int)
    requires S != {} && forall T :: T in S ==> lo <= Shl(T.pre, j) <= hi
    requires forall T, T' :: T in S && T' in S && T.pre == T'.pre ==> T == T'
    ensures Shl(|S|, j) <= hi - lo + Pow2(j)
    decreases |S|
  {
    var T := LastOf(S);
    var S' := S - {T};
    ShlSum(|S'|, 1, j);
    if S' != {} {
      forall T' | T' in S'
        ensures Shl(T'.pre, j) <= hi - Pow2(j)
      {
        assert T'.pre < T.pre;
        ShlMono(T'.pre, T.pre, j);
      }
      Spread(S', j, lo, hi - Pow2(j));
    } else {
      ShlIn(0, j);
    }
  }

  lemma PrefixRange(cd: Code, T: Tab)
    requires CodeOk(cd) && TabShape(cd, T) && Least(cd, T) && 0 < T.w
    ensures var e := End(cd.c, T.w + T.jb - 1);
            2 * e + 2 - Pow2(T.jb) <= Shl(T.pre, T.jb) <= 2 * e + cd.c[T.w + T.jb] - 1
  {
    ShlSum(T.pre, 1, T.jb);
  }

  /** Tables of 2^j entries after w bits: apart from those that only codes of w + j bits fill,
      there are two at most. */
  lemma OfBound(cd: Code, tabs: set<Tab>, w: nat, j: nat)
    requires Sized(cd, tabs, Total(tabs, BMAX)) && 0 < w && 1 <= j && w + j <= cd.g
    ensures Shl(|Of(tabs, w, j)|, j) <= cd.c[w + j] + Pow2(j + 1)
  {
    hide First, TabShape, Least, Total;
    var S, e := Of(tabs, w, j), End(cd.c, w + j - 1);
    ShlIn(0, j);
    forall T | T in S
      ensures 2 * e + 2 - Pow2(j) <= Shl(T.pre, j) <= 2 * e + cd.c[w + j] - 1
    {
      assert TabShape(cd, T) && Least(cd, T);
      PrefixRange(cd, T);
    }
    if S != {} {
      Spread(S, j, 2 * e + 2 - Pow2(j), 2 * e + cd.c[w + j] - 1);
    }
  }

  /** The tables after w bits take one entry for each code that ends in them, and fewer than
      2^(j+2) more. */
  lemma {:induction false} LevelBound(cd: Code, tabs: set<Tab>, w: nat, j: nat)
    requires Sized(cd, tabs, Total(tabs, BMAX)) && 0 < w && w + j <= cd.g
    ensures Level(tabs, w, j) + Off(cd.c, w + 1) + 4 <= Off(cd.c, w + j + 1) + Pow2(j + 2)
  {
    if j > 0 {
      hide Sized, CodeOk;
      SizedIs(cd, tabs);
      LevelBound(cd, tabs, w, j - 1);
      OfBound(cd, tabs, w, j);
    } else {
      assert Pow2(2) == 4;
    }
  }

  lemma SizedIs(cd: Code, tabs: set<Tab>)
    requires Sized(cd, tabs, Total(tabs, BMAX))
    ensures CodeOk(cd) && |cd.c| == BMAX + 1 && cd.g <= BMAX && 1 <= cd.l <= cd.g
  {
  }

  lemma {:induction false} LevelStops(tabs: set<Tab>, w: nat, z: nat, j: nat)
    requires z <= j && forall T :: T in tabs && T.w == w ==> T.jb <= z
    ensures Level(tabs, w, j) == Level(tabs, w, z)
    decreases j
  {
    if z < j {
      LevelStops(tabs, w, z, j - 1);
      assert Of(tabs, w, j) == {};
      ShlIn(0, j);
    }
  }

  // ----- all levels

  /** The first table always has l bits. */
  lemma RootShape(cd: Code, T: Tab)
    requires CodeOk(cd) && TabShape(cd, T) && T.w == 0
    ensures T.jb == cd.l && T.pre == 0
  {
    ShlIn(0, cd.l);
    if T.jb < cd.l {
      EndBelow(cd.c, cd.g, T.jb);
    }
  }

  lemma RootLevel(cd: Code, tabs: set<Tab>)
    requires Sized(cd, tabs, Total(tabs, BMAX))
    ensures Level(tabs, 0, BMAX) <= Pow2(cd.l)
  {
    SizedIs(cd, tabs);
    var S := Of(tabs, 0, cd.l);
    forall T | T in tabs && T.w == 0
      ensures T.jb == cd.l && T.pre == 0
    {
      RootShape(cd, T);
    }
    LevelStops(tabs, 0, cd.l, BMAX);
    NoneThere(tabs, 0, cd.l - 1);
    if S != {} {
      var T :| T in S;
      assert S == {T};
    }
    ShlMono(|S|, 1, cd.l);
  }

  /** No table begins after w bits. */
  lemma NoLevel(cd: Code, tabs: set<Tab>, w: nat)
    requires Sized(cd, tabs, Total(tabs, BMAX)) && (!MultipleOf(cd.l, w) || cd.g <= w)
    ensures Level(tabs, w, BMAX) == 0
  {
    forall T | T in tabs
      ensures T.w != w
    {
      assert TabShape(cd, T);
    }
    NoneThere(tabs, w, BMAX);
  }

  lemma {:induction false} NoLevels(cd: Code, tabs: set<Tab>, w: nat, w': nat)
    requires Sized(cd, tabs, Total(tabs, BMAX)) && w <= w'
    requires forall x :: w < x <= w' ==> !MultipleOf(cd.l, x) || cd.g <= x
    ensures Total(tabs, w') == Total(tabs, w)
    decreases w'
  {
    if w < w' {
      hide Sized;
      NoLevels(cd, tabs, w, w' - 1);
      NoLevel(cd, tabs, w');
    }
  }

  lemma Multiples(l: nat, w: nat)
    requires 0 < l
    ensures 0 < w < l ==> !MultipleOf(l, w)
    ensures l < w < 2 * l ==> !MultipleOf(l, w)
    ensures 2 * l < w < 3 * l ==> !MultipleOf(l, w)
  {
  }

  /** A code with one table. */
  lemma OneTable(cd: Code, tabs: set<Tab>)
    requires Sized(cd, tabs, Total(tabs, BMAX)) && cd.g == cd.l
    ensures Total(tabs, BMAX) <= Pow2(cd.l)
  {
    hide Sized;
    SizedIs(cd, tabs);
    RootLevel(cd, tabs);
    forall x: nat | 0 < x < cd.l
      ensures !MultipleOf(cd.l, x)
    {
      Multiples(cd.l, x);
    }
    NoLevels(cd, tabs, 0, BMAX);
    assert Total(tabs, 0) == Level(tabs, 0, BMAX);
  }

  /** A level of tables of at most z bits. */
  lemma WholeLevel(cd: Code, tabs: set<Tab>, w: nat, z: nat)
    requires Sized(cd, tabs, Total(tabs, BMAX)) && (forall T :: T in tabs ==> Fillable(cd, T))
    requires 0 < w < cd.g && z == if cd.l < cd.g - w then cd.l else cd.g - w
    ensures Level(tabs, w, BMAX) + Off(cd.c, w + 1) + 4 <= Off(cd.c, w + z + 1) + Pow2(z + 2)
  {
    SizedIs(cd, tabs);
    forall T | T in tabs && T.w == w
      ensures T.jb <= z
    {
      assert Fillable(cd, T) && TabShape(cd, T);
    }
    LevelStops(tabs, w, z, BMAX);
    LevelBound(cd, tabs, w, z);
  }

  lemma TotalIs(tabs: set<Tab>, w: nat)
    ensures Total(tabs, w) == (if w == 0 then 0 else Total(tabs, w - 1)) + Level(tabs, w, BMAX)
  {
  }

  /** The levels of a code with at most three. */
  lemma Levels(cd: Code, tabs: set<Tab>)
    requires Sized(cd, tabs, Total(tabs, BMAX)) && 1 <= cd.l < cd.g <= 3 * cd.l && cd.g <= BMAX
    ensures Total(tabs, BMAX) == Level(tabs, 0, BMAX) + Level(tabs, cd.l, BMAX)
      + if 2 * cd.l < cd.g then Level(tabs, 2 * cd.l, BMAX) else 0
  {
    hide Sized, Level, Total, MultipleOf;
    var l := cd.l;
    forall x: nat | 0 < x < 3 * l && x != l && x != 2 * l
      ensures !MultipleOf(l, x)
    {
      Multiples(l, x);
    }
    TotalIs(tabs, 0);
    TotalIs(tabs, l);
    NoLevels(cd, tabs, 0, l - 1);
    if cd.g <= 2 * l {
      NoLevels(cd, tabs, l, BMAX);
    } else {
      TotalIs(tabs, 2 * l);
      NoLevels(cd, tabs, l, 2 * l - 1);
      NoLevels(cd, tabs, 2 * l, BMAX);
    }
  }

  /** The space for such a code: its first table, an entry for each code, and the rest. */
  lemma ThreeLevels(cd: Code, tabs: set<Tab>)
    requires Sized(cd, tabs, Total(tabs, BMAX)) && (forall T :: T in tabs ==> Fillable(cd, T))
    requires cd.l < cd.g <= 3 * cd.l && cd.g < |cd.c|
    ensures cd.g <= 2 * cd.l ==> Total(tabs, BMAX) + 4 <= Pow2(cd.l) + Off(cd.c, cd.g + 1) + Pow2(cd.g - cd.l + 2)
    ensures 2 * cd.l < cd.g ==>
      Total(tabs, BMAX) + 8 <= Pow2(cd.l) + Off(cd.c, cd.g + 1) + Pow2(cd.l + 2) + Pow2(cd.g - 2 * cd.l + 2)
  {
    hide Sized, Fillable, Level, Total, Off, Shl;
    SizedIs(cd, tabs);
    Levels(cd, tabs);
    RootLevel(cd, tabs);
    WholeLevel(cd, tabs, cd.l, if cd.l < cd.g - cd.l then cd.l else cd.g - cd.l);
    if 2 * cd.l < cd.g {
      WholeLevel(cd, tabs, 2 * cd.l, cd.g - 2 * cd.l);
    }
  }
}
