/** What a finished set of tables decodes, and which tables cannot be finished. */
module HuftWalk {
  import opened Bits
  import opened Canonical
  import opened HuftTable
  import opened HuftSteps

  /** All codes are placed. */
  ghost predicate Finished(cd: Code, hp: seq<Huft>, hp0: seq<Huft>, tabs: set<Tab>, t: nat, lo: nat, hi: nat)
  {
    && CodeOk(cd) && TabsOk(cd, tabs, lo, hi) && hi <= |hp| == |hp0|
    && AllDone(cd, hp, hp0, tabs, cd.g, Pow2(cd.g))
    && Root(cd, t) in tabs
  }

  function Root(cd: Code, t: nat): Tab
  {
    Tab(t, 0, 0, cd.l)
  }

  ghost predicate AllFillable(cd: Code, tabs: set<Tab>)
  {
    forall T :: T in tabs ==> Fillable(cd, T)
  }

  /** Position in code order of the code that stream B starts with. */
  ghost function CodeIndex(cd: Code, B: nat): nat
    requires CodeOk(cd)
  {
    var len := CodeLen(cd.c, cd.g, B, 1);
    CodeLenOwns(cd.c, cd.g, B, 1);
    Off(cd.c, len) + (Msb(B, len) - First(cd.c, len))
  }

  lemma EntryHere(cd: Code, hp: seq<Huft>, hp0: seq<Huft>, tabs: set<Tab>, t: nat, lo: nat, hi: nat, T: Tab, B: nat)
    requires Finished(cd, hp, hp0, tabs, t, lo, hi) && T in tabs && Fillable(cd, T) && Covers(T, B)
    ensures EntryOk(cd, hp, tabs, T, B) && TabShape(cd, T)
  {
    assert TabDone(cd, hp, tabs, T, cd.g, Pow2(cd.g));
    MsbBound(B, cd.g);
  }

  ghost predicate Leads(cd: Code, hp: seq<Huft>, T: Tab, T': Tab, B: nat)
  {
    var i := IndexOf(T, B);
    Covers(T', B) && T'.w == T.w + cd.l && i < |hp| && i <= T'.off && hp[i] == Huft(T'.jb, cd.l, T'.off - i) &&
      IsLink(hp[i])
  }

  /** The table that takes over when the code of B does not end in T. */
  lemma NextTable(cd: Code, hp: seq<Huft>, tabs: set<Tab>, lo: nat, hi: nat, T: Tab, B: nat) returns (T': Tab)
    requires CodeOk(cd) && TabsOk(cd, tabs, lo, hi) && EntryOk(cd, hp, tabs, T, B)
    requires T.w + T.jb < CodeLen(cd.c, cd.g, B, 1)
    ensures T' in tabs && Leads(cd, hp, T, T', B)
  {
    T' :| T' in tabs && Covers(T', B) && Linked(cd, hp, T, T') && LinkAt(cd, T, T') == IndexOf(T, B);
    assert TabShape(cd, T');
    SmallIsLink(hp[IndexOf(T, B)]);
  }

  lemma SmallIsLink(x: Huft)
    requires 1 <= x.exop <= BMAX
    ensures IsLink(x)
  {
  }

  ghost predicate WalkFinds(cd: Code, hp: seq<Huft>, T: Tab, B: nat, fuel: nat)
    requires CodeOk(cd)
  {
    var r := Walk(hp, T.off, T.jb, Shr(B, T.w), fuel);
    var len := CodeLen(cd.c, cd.g, B, 1);
    r.Some? && T.w < len && r.value.used == len - T.w && IsLeaf(cd, r.value.entry, CodeIndex(cd, B), r.value.entry.bits)
  }

  lemma WalkLeaf(cd: Code, hp: seq<Huft>, tabs: set<Tab>, T: Tab, B: nat, fuel: nat)
    requires CodeOk(cd) && EntryOk(cd, hp, tabs, T, B)
    requires CodeLen(cd.c, cd.g, B, 1) <= T.w + T.jb
    ensures WalkFinds(cd, hp, T, B, fuel)
  {
    LeafIsNoLink(cd, hp[IndexOf(T, B)], CodeIndex(cd, B), CodeLen(cd.c, cd.g, B, 1) - T.w);
  }

  lemma WalkLink(cd: Code, hp: seq<Huft>, T: Tab, T': Tab, B: nat, fuel: nat)
    requires CodeOk(cd) && fuel > 0 && Leads(cd, hp, T, T', B) && WalkFinds(cd, hp, T', B, fuel - 1)
    ensures WalkFinds(cd, hp, T, B, fuel)
  {
    ShrShr(B, T.w, cd.l);
  }

  /** Only a table of l bits leads on to another one. */
  lemma LinkWidth(cd: Code, T: Tab, B: nat)
    requires CodeOk(cd) && TabShape(cd, T) && Fillable(cd, T) && Covers(T, B)
    requires T.w + T.jb < CodeLen(cd.c, cd.g, B, 1)
    ensures T.jb == cd.l
  {
    if T.jb < cd.l {
      MsbSplit(B, T.w, T.jb);
      MsbBound(Shr(B, T.w), T.jb);
      ShlSum(T.pre, 1, T.jb);
      CodeLenOwns(cd.c, cd.g, B, 1);
      BelowEnd(cd.c, CodeLen(cd.c, cd.g, B, 1), T.w + T.jb, B);
    }
  }

  /** Every entry on the walk drops bits within its table, and no table has more than l bits. */
  lemma {:induction false} StepsFrom(cd: Code, hp: seq<Huft>, hp0: seq<Huft>, tabs: set<Tab>, t: nat, lo: nat,
                      hi: nat, T: Tab, B: nat, fuel: nat, room: nat)
    requires Finished(cd, hp, hp0, tabs, t, lo, hi) && AllFillable(cd, tabs)
    requires T in tabs && Covers(T, B) && cd.g <= T.w + fuel && cd.g <= T.w + room
    ensures StepsOk(hp, T.off, T.jb, Shr(B, T.w), cd.l, room, fuel)
    decreases fuel
  {
    hide TabDone, Untouched, IsLeaf, IsLink, Apart;
    EntryHere(cd, hp, hp0, tabs, t, lo, hi, T, B);
    if CodeLen(cd.c, cd.g, B, 1) <= T.w + T.jb {
      StepsLeaf(cd, hp, tabs, T, B, fuel, room);
    } else {
      var T' := NextTable(cd, hp, tabs, lo, hi, T, B);
      LinkWidth(cd, T, B);
      StepsFrom(cd, hp, hp0, tabs, t, lo, hi, T', B, fuel - 1, room - cd.l);
      StepsLink(cd, hp, T, T', B, fuel, room);
    }
  }

  lemma StepsLeaf(cd: Code, hp: seq<Huft>, tabs: set<Tab>, T: Tab, B: nat, fuel: nat, room: nat)
    requires CodeOk(cd) && EntryOk(cd, hp, tabs, T, B) && T.jb <= room && Fillable(cd, T)
    requires CodeLen(cd.c, cd.g, B, 1) <= T.w + T.jb
    ensures StepsOk(hp, T.off, T.jb, Shr(B, T.w), cd.l, room, fuel)
  {
    LeafIsNoLink(cd, hp[IndexOf(T, B)], CodeIndex(cd, B), CodeLen(cd.c, cd.g, B, 1) - T.w);
  }

  lemma StepsLink(cd: Code, hp: seq<Huft>, T: Tab, T': Tab, B: nat, fuel: nat, room: nat)
    requires fuel > 0 && Leads(cd, hp, T, T', B) && 1 <= cd.l == T.jb <= room
    requires StepsOk(hp, T'.off, T'.jb, Shr(B, T'.w), cd.l, room - cd.l, fuel - 1)
    ensures StepsOk(hp, T.off, T.jb, Shr(B, T.w), cd.l, room, fuel)
  {
    ShrShr(B, T.w, cd.l);
  }

  /** Walking from table T finds the code of B. */
  lemma {:induction false} WalkFrom(cd: Code, hp: seq<Huft>, hp0: seq<Huft>, tabs: set<Tab>, t: nat, lo: nat,
                      hi: nat, T: Tab, B: nat, fuel: nat)
    requires Finished(cd, hp, hp0, tabs, t, lo, hi) && AllFillable(cd, tabs)
    requires T in tabs && Covers(T, B) && cd.g <= T.w + fuel
    ensures WalkFinds(cd, hp, T, B, fuel)
    decreases fuel
  {
    hide TabDone, Untouched, Apart, AllDone, EntryOk, Leads, WalkFinds, Shr, Low, Msb;
    EntryHere(cd, hp, hp0, tabs, t, lo, hi, T, B);
    if CodeLen(cd.c, cd.g, B, 1) <= T.w + T.jb {
      WalkLeaf(cd, hp, tabs, T, B, fuel);
    } else {
      var T' := NextTable(cd, hp, tabs, lo, hi, T, B);
      WalkFrom(cd, hp, hp0, tabs, t, lo, hi, T', B, fuel - 1);
      WalkLink(cd, hp, T, T', B, fuel);
    }
  }

  // ----- tables that cannot be filled

  /** The walk on stream B reads entry i. */
  ghost predicate Reads(hp: seq<Huft>, t: nat, nb: nat, B: nat, i: nat, fuel: nat)
    decreases fuel
  {
    var j := t + Low(B, nb);
    j == i || (j < |hp| && IsLink(hp[j]) && fuel > 0 &&
      Reads(hp, j + hp[j].base, hp[j].exop, Shr(B, hp[j].bits), i, fuel - 1))
  }

  /** A walk that reads a stale entry ends there. */
  lemma {:induction false} StaleWalk(hp: seq<Huft>, t: nat, nb: nat, B: nat, i: nat, fuel: nat)
    requires Reads(hp, t, nb, B, i, fuel) && i < |hp| && hp[i] == STALE
    ensures var r := Walk(hp, t, nb, B, fuel); r.Some? && r.value.entry == STALE
    decreases fuel
  {
    var j := t + Low(B, nb);
    if j != i {
      StaleWalk(hp, j + hp[j].base, hp[j].exop, Shr(B, hp[j].bits), i, fuel - 1);
    }
  }

  lemma OutermostGap(cd: Code, tabs: set<Tab>, T: Tab) returns (T': Tab)
    requires T in tabs && !Fillable(cd, T)
    ensures T' in tabs && !Fillable(cd, T') && T'.w <= T.w
    ensures forall T2 :: T2 in tabs && T2.w < T'.w ==> Fillable(cd, T2)
    decreases T.w
  {
    if T2 :| T2 in tabs && T2.w < T.w && !Fillable(cd, T2) {
      T' := OutermostGap(cd, tabs, T2);
    } else {
      T' := T;
    }
  }

  /** Widths are multiples of l, so a smaller one is smaller by at least l. */
  lemma {:induction false} WidthStep(l: nat, a: nat, b: nat)
    requires l > 0 && MultipleOf(l, a) && MultipleOf(l, b) && a < b
    ensures a + l <= b
  {
    if a > 0 {
      WidthStep(l, a - l, b - l);
    }
  }

  /** Streams in a table that cannot be filled have codes longer than w + l bits. */
  lemma GapCode(cd: Code, T: Tab, B: nat)
    requires CodeOk(cd) && TabShape(cd, T) && !Fillable(cd, T) && Covers(T, B)
    ensures T.w + cd.l < CodeLen(cd.c, cd.g, B, 1)
  {
    MsbSplit(B, T.w, cd.l);
    CodeLenOwns(cd.c, cd.g, B, 1);
    BelowEnd(cd.c, CodeLen(cd.c, cd.g, B, 1), T.w + cd.l, B);
  }

  /** Two tables for the same prefix are either both fillable or both not. */
  lemma GapAgree(cd: Code, T: Tab, T': Tab)
    requires CodeOk(cd) && TabShape(cd, T) && TabShape(cd, T') && T.w == T'.w && T.pre == T'.pre
    requires Fillable(cd, T)
    ensures Fillable(cd, T')
  {
    if !Fillable(cd, T') {
      var r := cd.l - T.jb;
      ShlShl(T.pre, T.jb, r);
      ShlMono(Shl(T.pre, T.jb), End(cd.c, T.w + T.jb), r);
      if r > 0 {
        EndBeforeFirst(cd.c, T.w + T.jb, T.w + cd.l);
      }
    }
  }

  lemma GapEntry(cd: Code, hp: seq<Huft>, hp0: seq<Huft>, tabs: set<Tab>, t: nat, lo: nat, hi: nat, T: Tab, B: nat,
                 fuel: nat) returns (i: nat)
    requires Finished(cd, hp, hp0, tabs, t, lo, hi) && T in tabs && !Fillable(cd, T)
    requires Covers(T, B) && Shr(B, T.w) == Pow2(cd.l)
    ensures lo <= i < hi && Reads(hp, T.off, T.jb, Shr(B, T.w), i, fuel) && hp[i] == hp0[i]
  {
    Pow2Mono(cd.l, T.jb);
    Small(Pow2(cd.l), T.jb);
    i := IndexOf(T, B);
    assert Untouched(cd, hp, hp0, T);
  }

  lemma {:induction false} ReachGap(cd: Code, hp: seq<Huft>, hp0: seq<Huft>, tabs: set<Tab>, t: nat, lo: nat,
                      hi: nat, gap: Tab, T: Tab, B: nat, fuel: nat) returns (i: nat)
    requires Finished(cd, hp, hp0, tabs, t, lo, hi)
    requires gap in tabs && !Fillable(cd, gap) && (forall T2 :: T2 in tabs && T2.w < gap.w ==> Fillable(cd, T2))
    requires Covers(gap, B) && Shr(B, gap.w) == Pow2(cd.l)
    requires T in tabs && Covers(T, B) && T.w <= gap.w && cd.g <= T.w + fuel
    ensures lo <= i < hi && Reads(hp, T.off, T.jb, Shr(B, T.w), i, fuel) && hp[i] == hp0[i]
    decreases fuel
  {
    hide TabDone, Untouched, IsLeaf, IsLink, Apart, AllDone, Reads, EntryOk, Leads, Complete, Low, Shr, Msb;
    assert TabShape(cd, T) && TabShape(cd, gap);
    if T.w == gap.w {
      if Fillable(cd, T) {
        GapAgree(cd, T, gap);
      }
      i := GapEntry(cd, hp, hp0, tabs, t, lo, hi, T, B, fuel);
    } else {
      WidthStep(cd.l, T.w, gap.w);
      GapCode(cd, gap, B);
      EntryHere(cd, hp, hp0, tabs, t, lo, hi, T, B);
      var T' := NextTable(cd, hp, tabs, lo, hi, T, B);
      i := ReachGap(cd, hp, hp0, tabs, t, lo, hi, gap, T', B, fuel - 1);
      ReadsLink(cd, hp, T, T', B, i, fuel);
    }
  }

  lemma ReadsLink(cd: Code, hp: seq<Huft>, T: Tab, T': Tab, B: nat, i: nat, fuel: nat)
    requires fuel > 0 && Leads(cd, hp, T, T', B) && Reads(hp, T'.off, T'.jb, Shr(B, T'.w), i, fuel - 1)
    ensures Reads(hp, T.off, T.jb, Shr(B, T.w), i, fuel)
  {
    ShrShr(B, T.w, cd.l);
  }

  /** When some table cannot be filled, some stream is decoded by an entry nobody wrote. */
  lemma GapIsRead(cd: Code, hp: seq<Huft>, hp0: seq<Huft>, tabs: set<Tab>, t: nat, lo: nat,
                  hi: nat) returns (B: nat, i: nat)
    requires Finished(cd, hp, hp0, tabs, t, lo, hi) && !AllFillable(cd, tabs)
    ensures lo <= i < hi && Reads(hp, t, cd.l, B, i, BMAX) && hp[i] == hp0[i]
  {
    var T :| T in tabs && !Fillable(cd, T);
    var gap := OutermostGap(cd, tabs, T);
    assert TabShape(cd, gap);
    // the prefix of the table, followed by l zeros and a one
    B := Msb(gap.pre, gap.w) + Shl(Pow2(cd.l), gap.w);
    MsbBound(gap.pre, gap.w);
    Unique(B, Pow2(cd.l), gap.w, Msb(gap.pre, gap.w));
    MsbMod(B, gap.w);
    MsbMsb(gap.pre, gap.w);
    Small(gap.pre, gap.w);
    assert Covers(Root(cd, t), B);
    i := ReachGap(cd, hp, hp0, tabs, t, lo, hi, gap, Root(cd, t), B, BMAX);
  }

  // ----- the condition, on the lengths alone

  /** At no table boundary K from the second on do the codes of up to K bits leave a whole
      table's worth of K-bit patterns unused. */
  ghost predicate NoGap(c: seq<nat>, g: nat, l: nat)
    requires |c| == BMAX + 1 && g <= BMAX && l > 0
  {
    forall K :: 2 * l <= K < g && MultipleOf(l, K) ==> Pow2(K) < End(c, K) + Pow2(l)
  }

  lemma NoGapIsFillable(cd: Code, T: Tab)
    requires CodeOk(cd) && TabShape(cd, T) && NoGap(cd.c, cd.g, cd.l)
    ensures Fillable(cd, T)
  {
    if !Fillable(cd, T) {
      var K := T.w + cd.l;
      if T.w == 0 {
        ShlIn(0, cd.l);
      } else {
        WidthStep(cd.l, 0, T.w);
        ShlShl(1, T.w, cd.l);
        ShlMono(T.pre + 1, Pow2(T.w), cd.l);
        ShlSum(T.pre, 1, cd.l);
      }
    }
  }

  lemma {:induction false} Ones(k: nat)
    ensures Pow2(k) > 0 && Msb(Pow2(k) - 1, k) == Pow2(k) - 1
  {
    if k > 0 {
      Ones(k - 1);
    }
  }

  /** The stream of all ones leads to a table at every width below the longest code. */
  lemma {:induction false} OnesPath(cd: Code, hp: seq<Huft>, hp0: seq<Huft>, tabs: set<Tab>, t: nat, lo: nat,
                      hi: nat, T: Tab, B: nat, w: nat) returns (T': Tab)
    requires Finished(cd, hp, hp0, tabs, t, lo, hi) && AllFillable(cd, tabs)
    requires CodeLen(cd.c, cd.g, B, 1) == cd.g && w < cd.g && MultipleOf(cd.l, w)
    requires T in tabs && Covers(T, B) && T.w <= w
    ensures T' in tabs && Covers(T', B) && T'.w == w
    decreases w - T.w
  {
    assert TabShape(cd, T);
    if T.w == w {
      T' := T;
    } else {
      WidthStep(cd.l, T.w, w);
      EntryHere(cd, hp, hp0, tabs, t, lo, hi, T, B);
      T' := NextTable(cd, hp, tabs, lo, hi, T, B);
      T' := OnesPath(cd, hp, hp0, tabs, t, lo, hi, T', B, w);
    }
  }

  lemma OnesCode(cd: Code) returns (B: nat)
    requires CodeOk(cd)
    ensures B + 1 == Pow2(cd.g) && CodeLen(cd.c, cd.g, B, 1) == cd.g
  {
    Ones(cd.g);
    B := Pow2(cd.g) - 1;
    CodeLenOwns(cd.c, cd.g, B, 1);
    OwnsUnique(cd.c, CodeLen(cd.c, cd.g, B, 1), cd.g, B);
  }

  lemma FillableIsNoGap(cd: Code, hp: seq<Huft>, hp0: seq<Huft>, tabs: set<Tab>, t: nat, lo: nat, hi: nat)
    requires Finished(cd, hp, hp0, tabs, t, lo, hi) && AllFillable(cd, tabs)
    ensures NoGap(cd.c, cd.g, cd.l)
  {
    var B := OnesCode(cd);
    forall K | 2 * cd.l <= K < cd.g && MultipleOf(cd.l, K)
      ensures Pow2(K) < End(cd.c, K) + Pow2(cd.l)
    {
      var w := K - cd.l;
      assert Covers(Root(cd, t), B);
      var T := OnesPath(cd, hp, hp0, tabs, t, lo, hi, Root(cd, t), B, w);
      EntryHere(cd, hp, hp0, tabs, t, lo, hi, T, B);
      OnesPrefix(cd.g, w);
      RoomAtEnd(cd, T, K);
    }
  }

  /** The last table at width w was opened by a code of at most w + l bits. */
  lemma RoomAtEnd(cd: Code, T: Tab, K: nat)
    requires CodeOk(cd) && TabShape(cd, T) && Fillable(cd, T) && K == T.w + cd.l < cd.g
    requires 0 < Pow2(T.w) == T.pre + 1
    ensures Pow2(K) < End(cd.c, K) + Pow2(cd.l)
  {
    var r := cd.l - T.jb;
    ShlShl(T.pre, T.jb, r);
    ShlMono(Shl(T.pre, T.jb), End(cd.c, T.w + T.jb), r);
    if r > 0 {
      EndBeforeFirst(cd.c, T.w + T.jb, K);
    }
    ShlShl(1, T.w, cd.l);
    ShlSum(T.pre, 1, cd.l);
  }

  lemma OnesPrefix(g: nat, w: nat)
    requires w <= g
    ensures Pow2(g) > 0 && Pow2(w) > 0 && Msb(Pow2(g) - 1, w) == Pow2(w) - 1
  {
    Ones(g);
    MsbPrefix(Pow2(g) - 1, w, g);
    Pow2Mono(w, g);
    ShlShl(1, w, g - w);
    ShlSum(Pow2(w) - 1, 1, g - w);
    ShlMono(0, 1, g - w);
    Unique(Pow2(g) - 1, Pow2(w) - 1, g - w, Pow2(g - w) - 1);
  }
}
