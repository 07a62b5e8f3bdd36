/** Exactly how much space the tables of a code take: which tables there are is fixed by the number
    of codes of each length. */
module HuftSpace {
  import opened Bits
  import opened Canonical
  import opened HuftTable
  import opened HuftSize

  // ----- a prefix fixes its table

  /** The codes of at most w bits come before every prefix that has a table. */
  lemma PrefixFree(cd: Code, T: Tab)
    requires CodeOk(cd) && Least(cd, T) && 0 < T.w
    ensures End(cd.c, T.w) <= T.pre
  {
    if T.jb > 1 {
      EndBeforeFirst(cd.c, T.w, T.w + T.jb - 1);
      ShlMono(T.pre + 1, End(cd.c, T.w), T.jb - 1);
    }
  }

  lemma NotWider(cd: Code, T: Tab, T': Tab)
    requires CodeOk(cd) && TabShape(cd, T) && Least(cd, T') && T.w == T'.w && T.pre == T'.pre
    ensures T'.jb <= T.jb
  {
    if T.jb < T'.jb {
      hide First;
      var k, k', d := T.w + T.jb, T.w + T'.jb - 1, T'.jb - 1 - T.jb;
      if d > 0 {
        EndBeforeFirst(cd.c, k, k');
      }
      if T.jb < cd.l {
        ShlShl(T.pre + 1, T.jb, d);
        ShlMono(Shl(T.pre + 1, T.jb), End(cd.c, k), d);
      } else {
        ShlShl(T.pre, T.jb, d);
        ShlMono(Shl(T.pre, T.jb), End(cd.c, k), d);
      }
    }
  }

  lemma OneShape(cd: Code, T: Tab, T': Tab)
    requires CodeOk(cd) && TabShape(cd, T) && Least(cd, T) && TabShape(cd, T') && Least(cd, T')
    requires T.w == T'.w && T.pre == T'.pre
    ensures T.jb == T'.jb
  {
    hide TabShape, Least;
    NotWider(cd, T, T');
    NotWider(cd, T', T);
  }

  // ----- all tables of a code

  /** Every table of the code, wherever it lies. */
  ghost function Wants(cd: Code): set<Tab>
    requires CodeOk(cd)
  {
    set w: nat, pre: nat, jb: nat | w <= BMAX && pre < Pow2(BMAX) && jb <= BMAX
      && TabShape(cd, Tab(0, w, pre, jb)) && Least(cd, Tab(0, w, pre, jb)) :: Tab(0, w, pre, jb)
  }

  /** The entries of all tables of the code. */
  ghost function Need(cd: Code): nat
    requires CodeOk(cd)
  {
    Total(Wants(cd), BMAX)
  }

  lemma WantsSized(cd: Code)
    requires CodeOk(cd)
    ensures Sized(cd, Wants(cd), Need(cd))
  {
    hide TabShape, Least;
    forall T, T' | T in Wants(cd) && T' in Wants(cd) && T.w == T'.w && T.pre == T'.pre
      ensures T == T'
    {
      OneShape(cd, T, T');
    }
  }

  ghost predicate HasTab(tabs: set<Tab>, w: nat, pre: nat)
  {
    exists T :: T in tabs && T.w == w && T.pre == pre
  }

  /** A set of tables is no larger than one that has all its prefixes. */
  lemma {:induction false} Inject(S: set<Tab>, S': set<Tab>)
    requires Distinct(S) && forall T :: T in S ==> HasTab(S', T.w, T.pre)
    ensures |S| <= |S'|
    decreases |S|
  {
    if T :| T in S {
      assert HasTab(S', T.w, T.pre);
      var T' :| T' in S' && T'.w == T.w && T'.pre == T.pre;
      forall R | R in S - {T}
        ensures HasTab(S' - {T'}, R.w, R.pre)
      {
        var R' :| R' in S' && R'.w == R.w && R'.pre == R.pre;
        assert R' in S' - {T'};
      }
      Inject(S - {T}, S' - {T'});
    }
  }

  lemma {:induction false} LevelMono(a: set<Tab>, b: set<Tab>, w: nat, j: nat)
    requires forall i :: 1 <= i <= j ==> |Of(a, w, i)| <= |Of(b, w, i)|
    ensures Level(a, w, j) <= Level(b, w, j)
  {
    if j > 0 {
      LevelMono(a, b, w, j - 1);
      ShlMono(|Of(a, w, j)|, |Of(b, w, j)|, j);
    }
  }

  lemma {:induction false} TotalMono(a: set<Tab>, b: set<Tab>, w: nat)
    requires forall x: nat, i {:trigger Of(a, x, i)} :: x <= w && 1 <= i <= BMAX ==> |Of(a, x, i)| <= |Of(b, x, i)|
    ensures Total(a, w) <= Total(b, w)
  {
    LevelMono(a, b, w, BMAX);
    if w > 0 {
      TotalMono(a, b, w - 1);
    }
  }

  /** Tables made for the code take no more than all of them. */
  lemma AtMost(cd: Code, tabs: set<Tab>, n: nat)
    requires Sized(cd, tabs, n)
    ensures n <= Need(cd)
  {
    hide TabShape, Least, Total;
    forall x: nat, i | x <= BMAX && 1 <= i <= BMAX
      ensures |Of(tabs, x, i)| <= |Of(Wants(cd), x, i)|
    {
      forall T | T in Of(tabs, x, i)
        ensures HasTab(Of(Wants(cd), x, i), T.w, T.pre)
      {
        Normal(cd, T);
        assert Tab(0, T.w, T.pre, T.jb) in Of(Wants(cd), x, i);
      }
      Inject(Of(tabs, x, i), Of(Wants(cd), x, i));
    }
    TotalMono(tabs, Wants(cd), BMAX);
  }

  lemma Normal(cd: Code, T: Tab)
    requires CodeOk(cd) && TabShape(cd, T) && Least(cd, T)
    ensures Tab(0, T.w, T.pre, T.jb) in Wants(cd)
  {
    Pow2Mono(T.w, BMAX);
  }

  // ----- no table is missing

  /** A prefix that a longer code begins with, of a width at which tables begin. */
  ghost predicate Wanted(cd: Code, w: nat, pre: nat)
    requires CodeOk(cd)
  {
    MultipleOf(cd.l, w) && w < cd.g && pre < Pow2(w) && (0 < w ==> End(cd.c, w) <= pre)
  }

  /** Every wanted prefix before code C of k bits has its table. */
  ghost predicate Reached(cd: Code, tabs: set<Tab>, k: nat, C: nat)
    requires CodeOk(cd)
  {
    forall w: nat, pre: nat {:trigger Wanted(cd, w, pre)} ::
      Wanted(cd, w, pre) && w < k && Shl(pre, k - w) < C ==> HasTab(tabs, w, pre)
  }

  lemma ReachedMore(cd: Code, tabs: set<Tab>, T: Tab, k: nat, C: nat)
    requires CodeOk(cd) && Reached(cd, tabs, k, C)
    ensures Reached(cd, tabs + {T}, k, C)
  {
    hide Wanted;
    forall w: nat, pre: nat | Wanted(cd, w, pre) && w < k && Shl(pre, k - w) < C
      ensures HasTab(tabs + {T}, w, pre)
    {
      var T' :| T' in tabs && T'.w == w && T'.pre == pre;
      assert T' in tabs + {T};
    }
  }

  /** The code's own prefixes have their tables: those open when it is entered. */
  lemma ReachedCode(cd: Code, hp: seq<Huft>, tabs: set<Tab>, stk: seq<Tab>, k: nat, C: nat)
    requires CodeOk(cd) && Reached(cd, tabs, k, C) && StackOk(cd, hp, tabs, stk, k, C) && k <= LevelBits(cd.l, |stk|)
    ensures Reached(cd, tabs, k, C + 1)
  {
    forall w: nat, pre: nat | Wanted(cd, w, pre) && w < k && Shl(pre, k - w) < C + 1
      ensures HasTab(tabs, w, pre)
    {
      if Shl(pre, k - w) == C {
        ShrShl(pre, k - w);
        var h := OpenLevel(cd.l, w, |stk|);
        assert OpenAt(cd, tabs, stk, h, k, C);
      }
    }
  }

  lemma {:induction false} OpenLevel(l: nat, w: nat, n: nat) returns (h: nat)
    requires 0 < l && MultipleOf(l, w) && w < LevelBits(l, n)
    ensures h < n && w == LevelBits(l, h)
    decreases w
  {
    if w == 0 {
      h := 0;
    } else {
      OneLess(l, n);
      var i := OpenLevel(l, w - l, n - 1);
      h := i + 1;
    }
  }

  lemma OneLess(l: nat, n: nat)
    ensures 0 < n ==> LevelBits(l, n - 1) + l == LevelBits(l, n)
    ensures n == 0 ==> LevelBits(l, n) == 0
  {
  }

  lemma ShlOne(n: nat)
    ensures Shl(n, 1) == 2 * n
  {
    assert Shl(n, 1) == 2 * Shl(n, 0);
  }

  lemma ReachedLonger(cd: Code, tabs: set<Tab>, k: nat)
    requires CodeOk(cd) && 1 <= k < cd.g && Reached(cd, tabs, k, End(cd.c, k))
    ensures Reached(cd, tabs, k + 1, 2 * End(cd.c, k))
  {
    hide End, MultipleOf;
    forall w: nat, pre: nat | Wanted(cd, w, pre) && w < k + 1 && Shl(pre, k + 1 - w) < 2 * End(cd.c, k)
      ensures HasTab(tabs, w, pre)
    {
      if w == k {
        ShlOne(pre);
        assert false;
      }
    }
  }

  /** When all codes are entered, all tables are there. */
  lemma Exactly(cd: Code, tabs: set<Tab>, n: nat)
    requires Sized(cd, tabs, n) && Reached(cd, tabs, cd.g, Pow2(cd.g))
    ensures n == Need(cd)
  {
    hide TabShape, Least, Total, Reached;
    AtMost(cd, tabs, n);
    WantsSized(cd);
    forall x: nat, i | x <= BMAX && 1 <= i <= BMAX
      ensures |Of(Wants(cd), x, i)| <= |Of(tabs, x, i)|
    {
      forall T | T in Of(Wants(cd), x, i)
        ensures HasTab(Of(tabs, x, i), T.w, T.pre)
      {
        var T' := IsThere(cd, tabs, T);
        OneShape(cd, T, T');
        assert T' in Of(tabs, x, i);
      }
      Inject(Of(Wants(cd), x, i), Of(tabs, x, i));
    }
    TotalMono(Wants(cd), tabs, BMAX);
  }

  lemma IsThere(cd: Code, tabs: set<Tab>, T: Tab) returns (T': Tab)
    requires CodeOk(cd) && TabShape(cd, T) && Least(cd, T) && Reached(cd, tabs, cd.g, Pow2(cd.g))
    ensures T' in tabs && T'.w == T.w && T'.pre == T.pre
  {
    if T.w > 0 {
      PrefixFree(cd, T);
    }
    ShlShl(1, T.w, cd.g - T.w);
    ShlMono(T.pre, Pow2(T.w), cd.g - T.w);
    assert Wanted(cd, T.w, T.pre);
    T' :| T' in tabs && T'.w == T.w && T'.pre == T.pre;
  }

  // ----- only the lengths matter

  lemma {:induction false} FirstSame(c: seq<nat>, c': seq<nat>, g: nat, k: nat)
    requires 1 <= k <= g < |c| && g < |c'| && forall i :: 1 <= i <= g ==> c[i] == c'[i]
    ensures First(c, k) == First(c', k) && End(c, k) == End(c', k)
  {
    if k > 1 {
      FirstSame(c, c', g, k - 1);
    }
  }

  lemma ShapeSame(cd: Code, cd': Code, T: Tab)
    requires CodeOk(cd) && CodeOk(cd') && cd.g == cd'.g && cd.l == cd'.l
    requires forall i :: 1 <= i <= cd.g ==> cd.c[i] == cd'.c[i]
    ensures TabShape(cd, T) && Least(cd, T) ==> TabShape(cd', T) && Least(cd', T)
  {
    hide First;
    if TabShape(cd, T) && Least(cd, T) {
      FirstSame(cd.c, cd'.c, cd.g, T.w + T.jb);
      if 1 < T.w + T.jb {
        FirstSame(cd.c, cd'.c, cd.g, T.w + T.jb - 1);
      }
      if T.w + cd.l <= cd.g {
        FirstSame(cd.c, cd'.c, cd.g, T.w + cd.l);
      }
    }
  }

  lemma NeedSame(cd: Code, cd': Code)
    requires CodeOk(cd) && CodeOk(cd') && cd.g == cd'.g && cd.l == cd'.l
    requires forall i :: 1 <= i <= cd.g ==> cd.c[i] == cd'.c[i]
    ensures Need(cd) == Need(cd')
  {
    hide TabShape, Least, Total;
    forall T
      ensures T in Wants(cd) <==> T in Wants(cd')
    {
      ShapeSame(cd, cd', T);
      ShapeSame(cd', cd, T);
    }
    assert Wants(cd) == Wants(cd');
  }
}
