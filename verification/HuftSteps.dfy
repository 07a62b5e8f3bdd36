/** The three steps of table construction keep the meaning of all entries: placing a code,
    going back to an outer table, and opening a new one. */
module HuftSteps {
  import opened Bits
  import opened Canonical
  import opened HuftTable

  ghost predicate AllDone(cd: Code, hp: seq<Huft>, hp0: seq<Huft>, tabs: set<Tab>, k: nat, C: nat)
    requires CodeOk(cd)
  {
    forall T :: T in tabs ==> TabDone(cd, hp, tabs, T, k, C) && Untouched(cd, hp, hp0, T)
  }

  lemma IndexInside(T: Tab, B: nat)
    ensures T.off <= IndexOf(T, B) < T.off + Pow2(T.jb)
  {
    Split(Shr(B, T.w), T.jb);
  }

  lemma LinkInside(cd: Code, T: Tab, T': Tab)
    requires cd.l <= T.jb
    ensures T.off <= LinkAt(cd, T, T') < T.off + Pow2(cd.l) <= T.off + Pow2(T.jb)
  {
    MsbBound(T'.pre, cd.l);
    Pow2Mono(cd.l, T.jb);
  }

  /** In a table holding the current code's prefix, a code of at most w + l bits fits. */
  lemma TopFits(cd: Code, T: Tab, k: nat, C: nat)
    requires CodeOk(cd) && TabShape(cd, T)
    requires T.w < k <= cd.g && T.pre == Shr(C, k - T.w) && First(cd.c, k) <= C < End(cd.c, k)
    ensures k <= T.w + cd.l ==> Fillable(cd, T) && k <= T.w + T.jb
    ensures T.w + cd.l < k ==> cd.l <= T.jb
  {
    hide MultipleOf, ListsOk, First, Shl;
    var n := k - T.w;
    Split(C, n);
    ShlSum(T.pre, 1, n);
    if T.jb < cd.l && T.w + T.jb < k {
      NarrowFits(cd, T, k, C);
    }
    if cd.l < T.jb && k <= T.w + cd.l {
      WideFits(cd, T, k, C);
    }
  }

  lemma NarrowFits(cd: Code, T: Tab, k: nat, C: nat)
    requires CodeOk(cd) && T.w < k <= cd.g && C < Shl(T.pre + 1, k - T.w) && First(cd.c, k) <= C
    requires 1 <= T.jb && T.w + T.jb < k
    ensures !(Shl(T.pre + 1, T.jb) <= End(cd.c, T.w + T.jb))
  {
    hide First;
    var n := k - T.w;
    EndBeforeFirst(cd.c, T.w + T.jb, k);
    ShlShl(T.pre + 1, T.jb, n - T.jb);
    ShlMono(Shl(T.pre + 1, T.jb), End(cd.c, T.w + T.jb), n - T.jb);
  }

  lemma WideFits(cd: Code, T: Tab, k: nat, C: nat)
    requires CodeOk(cd) && T.w < k <= cd.g && Shl(T.pre, k - T.w) <= C < End(cd.c, k)
    requires k <= T.w + cd.l <= cd.g
    ensures Shl(T.pre, cd.l) < End(cd.c, T.w + cd.l)
  {
    hide First;
    var n, r := k - T.w, T.w + cd.l - k;
    ShlShl(T.pre, n, r);
    ShlMono(Shl(T.pre, n), C, r);
    ShlMono(C, End(cd.c, k), r);
    if r > 0 {
      EndBeforeFirst(cd.c, k, T.w + cd.l);
    }
  }

  /** What is known of the innermost open table. */
  lemma TopOpen(cd: Code, hp: seq<Huft>, tabs: set<Tab>, stk: seq<Tab>, lo: nat, hi: nat, k: nat, C: nat)
    requires CodeOk(cd) && TabsOk(cd, tabs, lo, hi) && StackOk(cd, hp, tabs, stk, k, C) && stk != []
    requires 1 <= k <= cd.g && First(cd.c, k) <= C < End(cd.c, k)
    ensures var top := stk[|stk| - 1];
            top in tabs && top.w == LevelBits(cd.l, |stk| - 1) && top.w < k && top.pre == Shr(C, k - top.w)
            && (k <= top.w + cd.l ==> Fillable(cd, top) && k <= top.w + top.jb)
            && (top.w + cd.l < k ==> cd.l <= top.jb)
  {
    var top := stk[|stk| - 1];
    assert OpenAt(cd, tabs, stk, |stk| - 1, k, C);
    assert top.w < k && top.pre == Shr(C, k - top.w);
    assert TabShape(cd, top);
    TopFits(cd, top, k, C) by {
      hide TabShape, First, End, Shr, TabsOk, StackOk;
    }
  }

  // ----- placing code C of k bits

  ghost predicate Written(cd: Code, hp: seq<Huft>, hp': seq<Huft>, top: Tab, k: nat, C: nat)
    requires 1 <= k < |cd.c| && top.w < k && First(cd.c, k) <= C
  {
    && |hp'| == |hp|
    && (forall i :: 0 <= i < |hp| && !(top.off <= i < top.off + Pow2(top.jb)) ==> hp'[i] == hp[i])
    && var n := k - top.w;
       forall j: nat :: j < Pow2(top.jb) && top.off + j < |hp| ==>
         if Low(j, n) == Msb(C, n)
         then IsLeaf(cd, hp'[top.off + j], Off(cd.c, k) + (C - First(cd.c, k)), n)
         else hp'[top.off + j] == hp[top.off + j]
  }

  /** Stream B reads an entry written for C exactly when it starts with C. */
  lemma HitsIffStarts(T: Tab, k: nat, C: nat, B: nat)
    requires T.w < k <= T.w + T.jb && T.pre == Shr(C, k - T.w) && Covers(T, B)
    ensures Low(Low(Shr(B, T.w), T.jb), k - T.w) == Msb(C, k - T.w) <==> Msb(B, k) == C
  {
    var n := k - T.w;
    var x := Shr(B, T.w);
    LowLow(x, n, T.jb);
    MsbSplit(B, T.w, n);
    Split(C, n);
    MsbMsb(x, n);
    MsbMsb(C, n);
    if Low(x, n) == Msb(C, n) {
      MsbMod(x, n);
    } else if Msb(B, k) == C {
      MsbBound(x, n);
      Unique(C, T.pre, n, Msb(x, n));
      MsbMod(C, n);
      assert false;
    }
  }

  lemma MsbMod(x: nat, n: nat)
    ensures Msb(x, n) == Msb(Low(x, n), n)
  {
    LowLow(x, n, n);
    MsbLow(x, Low(x, n), n);
  }

  /** The code of a stream that is done ends before C, that of one being placed is C itself. */
  lemma DoneCode(cd: Code, B: nat, k: nat, C: nat)
    requires CodeOk(cd) && 1 <= k <= cd.g && First(cd.c, k) <= C < End(cd.c, k)
    ensures Owns(cd.c, CodeLen(cd.c, cd.g, B, 1), B)
    ensures Msb(B, k) == C ==> CodeLen(cd.c, cd.g, B, 1) == k
  {
    CodeLenOwns(cd.c, cd.g, B, 1);
    if Msb(B, k) == C {
      OwnsUnique(cd.c, CodeLen(cd.c, cd.g, B, 1), k, B);
    }
  }

  lemma PlaceInTop(cd: Code, hp: seq<Huft>, hp': seq<Huft>, tabs: set<Tab>, top: Tab, k: nat, C: nat, B: nat)
    requires CodeOk(cd) && TabShape(cd, top) && top.off + Pow2(top.jb) <= |hp|
    requires 1 <= k <= cd.g && First(cd.c, k) <= C < End(cd.c, k)
    requires top.w < k <= top.w + top.jb && top.pre == Shr(C, k - top.w)
    requires Written(cd, hp, hp', top, k, C)
    requires Covers(top, B) && Msb(B, k) <= C
    requires Msb(B, k) < C ==> EntryOk(cd, hp, tabs, top, B)
    ensures EntryOk(cd, hp', tabs, top, B)
  {
    IndexInside(top, B);
    HitsIffStarts(top, k, C, B);
    DoneCode(cd, B, k, C);
    var j := Low(Shr(B, top.w), top.jb);
    assert IndexOf(top, B) == top.off + j;
    if Msb(B, k) < C {
      EntryKept(cd, hp, hp', tabs, tabs, top, B);
    }
  }

  /** An entry keeps its meaning when it is not written and tables are only added. */
  lemma EntryKept(cd: Code, hp: seq<Huft>, hp': seq<Huft>, tabs: set<Tab>, tabs': set<Tab>, T: Tab, B: nat)
    requires CodeOk(cd) && |hp'| == |hp| && tabs <= tabs'
    requires EntryOk(cd, hp, tabs, T, B) && hp'[IndexOf(T, B)] == hp[IndexOf(T, B)]
    ensures EntryOk(cd, hp', tabs', T, B)
  {
    if CodeLen(cd.c, cd.g, B, 1) > T.w + T.jb {
      var T' :| T' in tabs && Covers(T', B) && Linked(cd, hp, T, T') && LinkAt(cd, T, T') == IndexOf(T, B);
      assert Linked(cd, hp', T, T');
    }
  }

  lemma EntryApart(cd: Code, hp: seq<Huft>, hp': seq<Huft>, tabs: set<Tab>, tabs': set<Tab>, top: Tab, T: Tab, B: nat)
    requires CodeOk(cd) && |hp'| == |hp| && tabs <= tabs' && Apart(T, top)
    requires forall i :: 0 <= i < |hp| && !(top.off <= i < top.off + Pow2(top.jb)) ==> hp'[i] == hp[i]
    requires EntryOk(cd, hp, tabs, T, B)
    ensures EntryOk(cd, hp', tabs', T, B)
  {
    IndexInside(T, B);
    EntryKept(cd, hp, hp', tabs, tabs', T, B);
  }

  /** A stream starting with C is led down the stack. */
  lemma LedDown(cd: Code, hp: seq<Huft>, tabs: set<Tab>, stk: seq<Tab>, h: nat, k: nat, C: nat, B: nat)
    requires CodeOk(cd) && StackOk(cd, hp, tabs, stk, k, C) && h < |stk| - 1 && Fillable(cd, stk[h])
    requires 1 <= k <= cd.g && First(cd.c, k) <= C < End(cd.c, k) && Msb(B, k) == C
    ensures EntryOk(cd, hp, tabs, stk[h], B)
  {
    var T, T' := stk[h], stk[h + 1];
    DoneCode(cd, B, k, C);
    assert OpenAt(cd, tabs, stk, h, k, C) && OpenAt(cd, tabs, stk, h + 1, k, C) && LeadsAt(cd, hp, stk, h);
    MsbPrefix(B, T'.w, k);
    assert Covers(T', B);
    var x := Shr(B, T.w);
    MsbPrefix(B, T.w, T'.w);
    assert Low(T'.pre, cd.l) == Msb(x, cd.l);
    MsbMod(T'.pre, cd.l);
    MsbMsb(x, cd.l);
    assert LinkAt(cd, T, T') == IndexOf(T, B);
  }

  lemma OpenTableLeads(cd: Code, hp: seq<Huft>, tabs: set<Tab>, stk: seq<Tab>, T: Tab, k: nat, C: nat, B: nat)
    requires CodeOk(cd) && StackOk(cd, hp, tabs, stk, k, C) && T in tabs && Fillable(cd, T)
    requires stk != [] && T != stk[|stk| - 1]
    requires 1 <= k <= cd.g && First(cd.c, k) <= C < End(cd.c, k) && Msb(B, k) == C && Covers(T, B)
    ensures EntryOk(cd, hp, tabs, T, B)
  {
    assert Behind(T, stk, k, C);
    MsbPrefix(B, T.w, k);
    var h: nat :| h < |stk| && stk[h] == T;
    LedDown(cd, hp, tabs, stk, h, k, C, B);
  }

  ghost predicate Placing(cd: Code, hp0: seq<Huft>, hp: seq<Huft>, hp': seq<Huft>, tabs: set<Tab>, stk: seq<Tab>,
                      lo: nat, hi: nat, k: nat, C: nat)
  {
    && CodeOk(cd) && TabsOk(cd, tabs, lo, hi) && hi <= |hp|
    && 1 <= k <= cd.g && First(cd.c, k) <= C < End(cd.c, k)
    && StackOk(cd, hp, tabs, stk, k, C) && AllDone(cd, hp, hp0, tabs, k, C)
    && stk != [] && stk[|stk| - 1].w < k <= stk[|stk| - 1].w + cd.l
    && Written(cd, hp, hp', stk[|stk| - 1], k, C)
  }

  lemma PlaceOne(cd: Code, hp0: seq<Huft>, hp: seq<Huft>, hp': seq<Huft>, tabs: set<Tab>, stk: seq<Tab>, lo: nat,
                 hi: nat, k: nat, C: nat, T: Tab, B: nat)
    requires Placing(cd, hp0, hp, hp', tabs, stk, lo, hi, k, C)
    requires T in tabs && Covers(T, B) && Msb(B, k) < C + 1 && Fillable(cd, T)
    ensures EntryOk(cd, hp', tabs, T, B)
  {
    var top := stk[|stk| - 1];
    TopOpen(cd, hp, tabs, stk, lo, hi, k, C);
    assert TabDone(cd, hp, tabs, T, k, C);
    if T == top {
      PlaceInTop(cd, hp, hp', tabs, top, k, C, B);
    } else {
      if Msb(B, k) == C {
        OpenTableLeads(cd, hp, tabs, stk, T, k, C, B);
      }
      EntryApart(cd, hp, hp', tabs, tabs, top, T, B);
    }
  }

  lemma PlaceCode(cd: Code, hp0: seq<Huft>, hp: seq<Huft>, hp': seq<Huft>, tabs: set<Tab>, stk: seq<Tab>, lo: nat,
                  hi: nat, k: nat, C: nat)
    requires Placing(cd, hp0, hp, hp', tabs, stk, lo, hi, k, C)
    ensures AllDone(cd, hp', hp0, tabs, k, C + 1)
    ensures StackOk(cd, hp', tabs, stk, k, C)
  {
    var top := stk[|stk| - 1];
    TopOpen(cd, hp, tabs, stk, lo, hi, k, C);
    forall T | T in tabs
      ensures TabDone(cd, hp', tabs, T, k, C + 1) && Untouched(cd, hp', hp0, T)
    {
      forall B: nat | Covers(T, B) && Msb(B, k) < C + 1 && Fillable(cd, T)
        ensures EntryOk(cd, hp', tabs, T, B)
      {
        PlaceOne(cd, hp0, hp, hp', tabs, stk, lo, hi, k, C, T, B);
      }
      assert Untouched(cd, hp, hp0, T);
      if T != top {
        assert Apart(T, top);
      }
    }
    KeepLinks(cd, hp, hp', tabs, stk, lo, hi, k, C);
  }

  /** Changes inside the innermost open table leave the links between open tables alone. */
  lemma KeepLinks(cd: Code, hp: seq<Huft>, hp': seq<Huft>, tabs: set<Tab>, stk: seq<Tab>, lo: nat, hi: nat, k: nat,
                  C: nat)
    requires CodeOk(cd) && TabsOk(cd, tabs, lo, hi) && hi <= |hp| == |hp'| && StackOk(cd, hp, tabs, stk, k, C)
    requires stk != []
    requires var top := stk[|stk| - 1];
             forall i :: 0 <= i < |hp| && !(top.off <= i < top.off + Pow2(top.jb)) ==> hp'[i] == hp[i]
    ensures StackOk(cd, hp', tabs, stk, k, C)
  {
    var top := stk[|stk| - 1];
    assert OpenAt(cd, tabs, stk, |stk| - 1, k, C);
    forall h: nat | h < |stk| - 1
      ensures LeadsAt(cd, hp', stk, h)
    {
      assert LeadsAt(cd, hp, stk, h) && OpenAt(cd, tabs, stk, h, k, C);
      LinkInside(cd, stk[h], stk[h + 1]);
      WidthsDiffer(cd.l, h, |stk| - 1);
      assert Apart(stk[h], top);
    }
  }

  // ----- on to the next code

  /** Going on to codes of one more bit. */
  lemma NextLength(cd: Code, hp0: seq<Huft>, hp: seq<Huft>, tabs: set<Tab>, stk: seq<Tab>, k: nat, C: nat, k': nat,
                   C': nat)
    requires CodeOk(cd) && AllDone(cd, hp, hp0, tabs, k, C) && k' == k + 1 && C' == 2 * C
    ensures AllDone(cd, hp, hp0, tabs, k', C')
    ensures StackOk(cd, hp, tabs, stk, k, C) ==> StackOk(cd, hp, tabs, stk, k', C')
  {
    forall T | T in tabs
      ensures TabDone(cd, hp, tabs, T, k', C')
    {
      assert TabDone(cd, hp, tabs, T, k, C);
      forall B: nat | Covers(T, B) && Msb(B, k') < C' && Fillable(cd, T)
        ensures EntryOk(cd, hp, tabs, T, B)
      {
        MsbSnoc(B, k);
      }
    }
    if StackOk(cd, hp, tabs, stk, k, C) {
      forall h: nat | h < |stk|
        ensures OpenAt(cd, tabs, stk, h, k', C')
      {
        assert OpenAt(cd, tabs, stk, h, k, C);
      }
      forall T | T in tabs
        ensures Behind(T, stk, k', C')
      {
        assert Behind(T, stk, k, C);
      }
    }
  }

  /** The prefix of an open table is still that of code D of k bits. */
  ghost predicate OnPath(T: Tab, k: nat, D: nat)
  {
    T.w <= k && T.pre == Shr(D, k - T.w)
  }

  /** Tables left behind by the next code D are closed; what remains open is on its path. */
  lemma CloseTables(cd: Code, hp: seq<Huft>, tabs: set<Tab>, stk: seq<Tab>, n: nat, k: nat, C: nat, D: nat)
    requires CodeOk(cd) && StackOk(cd, hp, tabs, stk, k, C) && D == C + 1
    requires 0 < n <= |stk| && OnPath(stk[n - 1], k, D)
    requires forall h :: n <= h < |stk| ==> !OnPath(stk[h], k, D)
    ensures StackOk(cd, hp, tabs, stk[..n], k, D)
    ensures n < |stk| ==> stk[n].w < k && Low(D, k - stk[n].w) == 0
  {
    var stk' := stk[..n];
    forall h: nat | h < n
      ensures OpenAt(cd, tabs, stk', h, k, D)
    {
      assert OpenAt(cd, tabs, stk, h, k, C);
      if h < n - 1 {
        InnerOnPath(cd, hp, tabs, stk, h, n - 1, k, C, D);
      }
    }
    forall h: nat | h < n - 1
      ensures LeadsAt(cd, hp, stk', h)
    {
      assert LeadsAt(cd, hp, stk, h);
    }
    forall T | T in tabs
      ensures Behind(T, stk', k, D)
    {
      assert Behind(T, stk, k, C);
      ShrMono(C, D, k - T.w);
      if T.pre == Shr(D, k - T.w) {
        var h: nat :| h < |stk| && stk[h] == T;
        assert OnPath(stk[h], k, D);
        assert stk'[h] == T;
      }
    }
    if n < |stk| {
      assert OpenAt(cd, tabs, stk, n, k, C) && !OnPath(stk[n], k, D);
      Crossing(C, k - stk[n].w);
    }
  }

  lemma InnerOnPath(cd: Code, hp: seq<Huft>, tabs: set<Tab>, stk: seq<Tab>, h: nat, m: nat, k: nat, C: nat, D: nat)
    requires CodeOk(cd) && StackOk(cd, hp, tabs, stk, k, C)
    requires h < m < |stk| && OnPath(stk[m], k, D)
    ensures OnPath(stk[h], k, D)
  {
    var T, T' := stk[h], stk[m];
    assert OpenAt(cd, tabs, stk, h, k, C) && OpenAt(cd, tabs, stk, m, k, C);
    WidthsDiffer(cd.l, h, m);
    ShrShr(C, k - T'.w, T'.w - T.w);
    ShrShr(D, k - T'.w, T'.w - T.w);
  }

  lemma Crossing(C: nat, m: nat)
    requires Shr(C + 1, m) != Shr(C, m)
    ensures Low(C + 1, m) == 0
  {
    Split(C, m);
    Split(C + 1, m);
    if Low(C + 1, m) > 0 {
      Unique(C, Shr(C + 1, m), m, Low(C + 1, m) - 1);
    }
  }

  // ----- opening a table

  /** hp' differs from hp in the entry of the innermost open table that leads to T. */
  ghost predicate LinkWritten(cd: Code, hp: seq<Huft>, hp': seq<Huft>, stk: seq<Tab>, T: Tab)
  {
    |hp'| == |hp| &&
    if stk == [] then hp' == hp
    else
      var i := LinkAt(cd, stk[|stk| - 1], T);
      i < |hp| && i <= T.off && hp' == hp[i := Huft(T.jb, cd.l, T.off - i)]
  }

  ghost predicate Opening(cd: Code, hp0: seq<Huft>, hp: seq<Huft>, hp': seq<Huft>, tabs: set<Tab>, stk: seq<Tab>,
                      lo: nat, T: Tab, k: nat, C: nat)
  {
    && CodeOk(cd) && TabsOk(cd, tabs, lo, T.off) && T.off + Pow2(T.jb) <= |hp| == |hp0|
    && lo <= T.off
    && 1 <= k <= cd.g && First(cd.c, k) <= C < End(cd.c, k)
    && StackOk(cd, hp, tabs, stk, k, C) && AllDone(cd, hp, hp0, tabs, k, C)
    && (forall i :: T.off <= i < |hp| ==> hp[i] == hp0[i])
    && TabShape(cd, T) && T.w == LevelBits(cd.l, |stk|) < k && T.pre == Shr(C, k - T.w) && Low(C, k - T.w) == 0
    && LinkWritten(cd, hp, hp', stk, T)
  }

  /** A stream that is done does not pass through the new table. */
  lemma NotYet(T: Tab, k: nat, C: nat, B: nat)
    requires T.w <= k && T.pre == Shr(C, k - T.w) && Low(C, k - T.w) == 0 && Msb(B, k) < C
    ensures !Covers(T, B)
  {
    MsbPrefix(B, T.w, k);
    Split(C, k - T.w);
    Split(Msb(B, k), k - T.w);
  }

  /** In a table of l bits, the streams read at the link to T are those T covers. */
  lemma LinkIndex(cd: Code, top: Tab, T: Tab, B: nat)
    requires Covers(top, B) && top.jb == cd.l && T.w == top.w + cd.l && top.pre == Shr(T.pre, cd.l)
    ensures IndexOf(top, B) == LinkAt(cd, top, T) ==> Covers(T, B)
  {
    var x := Shr(B, top.w);
    MsbSplit(B, top.w, cd.l);
    Split(T.pre, cd.l);
    MsbMod(T.pre, cd.l);
    MsbMsb(x, cd.l);
    MsbBound(x, cd.l);
    if Low(x, cd.l) == Msb(T.pre, cd.l) {
      MsbInjective(Low(T.pre, cd.l), Msb(x, cd.l), cd.l);
    }
  }

  lemma OpenIndex(cd: Code, top: Tab, T: Tab, k: nat, C: nat, B: nat)
    requires T.w == top.w + cd.l < k && top.jb == cd.l
    requires top.pre == Shr(C, k - top.w) && T.pre == Shr(C, k - T.w) && Low(C, k - T.w) == 0
    requires Covers(top, B) && Msb(B, k) < C
    ensures IndexOf(top, B) != LinkAt(cd, top, T)
  {
    NotYet(T, k, C, B);
    ShrShr(C, k - T.w, cd.l);
    LinkIndex(cd, top, T, B);
  }

  /** Only the innermost open table gets the link to the new one, in its first 2^l entries. */
  lemma OpeningTop(cd: Code, hp0: seq<Huft>, hp: seq<Huft>, hp': seq<Huft>, tabs: set<Tab>, stk: seq<Tab>, lo: nat,
                   T: Tab, k: nat, C: nat)
    requires Opening(cd, hp0, hp, hp', tabs, stk, lo, T, k, C) && stk != []
    ensures var top := stk[|stk| - 1];
            top in tabs && T.w == top.w + cd.l < k && cd.l <= top.jb && top.pre == Shr(C, k - top.w)
            && top.off <= LinkAt(cd, top, T) < top.off + Pow2(cd.l) <= top.off + Pow2(top.jb)
            && LinkAt(cd, top, T) < |hp| == |hp'|
            && hp' == hp[LinkAt(cd, top, T) := Huft(T.jb, cd.l, T.off - LinkAt(cd, top, T))]
  {
    hide TabShape, CodeOk, AllDone, TabsOk, StackOk, Shr, Low, Shl, First, End, MultipleOf;
    TopOpen(cd, hp, tabs, stk, lo, T.off, k, C);
    LinkInside(cd, stk[|stk| - 1], T);
  }

  lemma OpenOne(cd: Code, hp0: seq<Huft>, hp: seq<Huft>, hp': seq<Huft>, tabs: set<Tab>, stk: seq<Tab>, lo: nat,
                T: Tab, k: nat, C: nat, T2: Tab, B: nat)
    requires Opening(cd, hp0, hp, hp', tabs, stk, lo, T, k, C)
    requires T2 in tabs && Covers(T2, B) && Msb(B, k) < C && Fillable(cd, T2)
    ensures EntryOk(cd, hp', tabs + {T}, T2, B)
  {
    hide TabShape, CodeOk, StackOk, Shr, Low, Shl, Msb, First, End, MultipleOf, LinkAt, IndexOf;
    assert TabDone(cd, hp, tabs, T2, k, C);
    if stk == [] {
      EntryKept(cd, hp, hp', tabs, tabs + {T}, T2, B);
    } else {
      var top := stk[|stk| - 1];
      OpeningTop(cd, hp0, hp, hp', tabs, stk, lo, T, k, C);
      if T2 == top {
        OpenIndex(cd, top, T, k, C, B);
        EntryKept(cd, hp, hp', tabs, tabs + {T}, T2, B);
      } else {
        EntryApart(cd, hp, hp', tabs, tabs + {T}, top, T2, B);
      }
    }
  }

  lemma OpenUntouched(cd: Code, hp0: seq<Huft>, hp: seq<Huft>, hp': seq<Huft>, tabs: set<Tab>, stk: seq<Tab>,
                      lo: nat, T: Tab, k: nat, C: nat, T2: Tab)
    requires Opening(cd, hp0, hp, hp', tabs, stk, lo, T, k, C) && T2 in tabs + {T}
    ensures Untouched(cd, hp', hp0, T2)
  {
    hide TabShape, CodeOk, StackOk, TabDone, Shr, Low, Shl, First, End, MultipleOf, LinkAt;
    if T2 in tabs {
      assert Untouched(cd, hp, hp0, T2);
    }
    if stk != [] {
      var top := stk[|stk| - 1];
      OpeningTop(cd, hp0, hp, hp', tabs, stk, lo, T, k, C);
      if T2 in tabs && T2 != top {
        assert Apart(T2, top);
      }
    }
  }

  lemma OpenTable(cd: Code, hp0: seq<Huft>, hp: seq<Huft>, hp': seq<Huft>, tabs: set<Tab>, stk: seq<Tab>, lo: nat,
                  T: Tab, k: nat, C: nat)
    requires Opening(cd, hp0, hp, hp', tabs, stk, lo, T, k, C)
    ensures TabsOk(cd, tabs + {T}, lo, T.off + Pow2(T.jb))
    ensures AllDone(cd, hp', hp0, tabs + {T}, k, C)
    ensures StackOk(cd, hp', tabs + {T}, stk + [T], k, C)
    ensures forall i :: T.off <= i < |hp| ==> hp'[i] == hp0[i]
  {
    hide TabShape, CodeOk, StackOk, Shr, Low, Shl, First, End, MultipleOf, LinkAt, EntryOk, Untouched;
    OpenStack(cd, hp0, hp, hp', tabs, stk, lo, T, k, C);
    if stk != [] {
      OpeningTop(cd, hp0, hp, hp', tabs, stk, lo, T, k, C);
    }
    forall T2 | T2 in tabs + {T}
      ensures TabDone(cd, hp', tabs + {T}, T2, k, C) && Untouched(cd, hp', hp0, T2)
    {
      OpenUntouched(cd, hp0, hp, hp', tabs, stk, lo, T, k, C, T2);
      forall B: nat | Covers(T2, B) && Msb(B, k) < C && Fillable(cd, T2)
        ensures EntryOk(cd, hp', tabs + {T}, T2, B)
      {
        if T2 in tabs {
          OpenOne(cd, hp0, hp, hp', tabs, stk, lo, T, k, C, T2, B);
        } else {
          NotYet(T, k, C, B);
        }
      }
    }
  }

  lemma OpenStack(cd: Code, hp0: seq<Huft>, hp: seq<Huft>, hp': seq<Huft>, tabs: set<Tab>, stk: seq<Tab>, lo: nat,
                  T: Tab, k: nat, C: nat)
    requires Opening(cd, hp0, hp, hp', tabs, stk, lo, T, k, C)
    ensures StackOk(cd, hp', tabs + {T}, stk + [T], k, C)
  {
    if stk != [] {
      var top := stk[|stk| - 1];
      OpeningTop(cd, hp0, hp, hp', tabs, stk, lo, T, k, C);
      KeepLinks(cd, hp, hp', tabs, stk, lo, T.off, k, C);
    }
    PushStack(cd, hp', tabs, stk, T, k, C);
  }

  lemma PushStack(cd: Code, hp: seq<Huft>, tabs: set<Tab>, stk: seq<Tab>, T: Tab, k: nat, C: nat)
    requires StackOk(cd, hp, tabs, stk, k, C)
    requires T.w == LevelBits(cd.l, |stk|) < k && T.pre == Shr(C, k - T.w)
    requires stk != [] ==> Linked(cd, hp, stk[|stk| - 1], T) && cd.l <= stk[|stk| - 1].jb
    ensures StackOk(cd, hp, tabs + {T}, stk + [T], k, C)
  {
    var stk' := stk + [T];
    forall h: nat | h < |stk'|
      ensures OpenAt(cd, tabs + {T}, stk', h, k, C)
    {
      if h < |stk| {
        assert OpenAt(cd, tabs, stk, h, k, C);
      }
    }
    forall h: nat | h < |stk'| - 1
      ensures LeadsAt(cd, hp, stk', h)
    {
      if h < |stk| - 1 {
        assert LeadsAt(cd, hp, stk, h);
      }
    }
    forall T2 | T2 in tabs + {T}
      ensures Behind(T2, stk', k, C)
    {
      if T2 in tabs {
        assert Behind(T2, stk, k, C);
      }
    }
  }

  lemma {:induction false} WidthsDiffer(l: nat, h: nat, i: nat)
    requires h < i
    ensures LevelBits(l, h) + l <= LevelBits(l, i)
  {
    if h < i - 1 {
      WidthsDiffer(l, h, i - 1);
    }
  }
}
