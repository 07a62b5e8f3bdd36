/** The steps of the decoding process outside the codes of a block, as infblock.c takes them. */
module BlockSteps {
  import opened Bits
  import opened Sequences
  import opened Canonical
  import opened HuftTable
  import opened InfTrees
  import opened InflateTrees
  import opened Options
  import opened BitInput
  import opened InflateSpec
  import HuftBuild

  /** Every stream starts with a code of a complete set. */
  lemma {:induction false} CompleteCovers(lens: seq<nat>, B: nat, k: nat)
    requires 1 <= k && Msb(B, k) < NextCode(lens, k) + Count(lens, k)
    ensures exists sym: nat :: StartsWith(lens, sym, B)
  {
    if NextCode(lens, k) <= Msb(B, k) {
      var sym := CodeOfRank(lens, k, Msb(B, k) - NextCode(lens, k), B);
    } else {
      MsbSnoc(B, k - 1);
      CompleteCovers(lens, B, k - 1);
    }
  }

  lemma CompleteDecodes(lens: seq<nat>, B: nat)
    requires LengthsOk(lens) && KraftSum(lens) == Pow2(BMAX)
    ensures exists sym: nat :: StartsWith(lens, sym, B)
  {
    LeftIsKraft(lens);
    LeftSpace(lens, BMAX);
    MsbBound(B, BMAX);
    CompleteCovers(lens, B, BMAX);
  }

  /** An accepted code that is not complete has nothing but codes of one bit. */
  lemma SingleCode(lens: seq<nat>, B: nat) returns (sym: nat)
    requires LengthsOk(lens) && !AllZero(lens) && Acceptable(lens) && forall sym: nat :: !StartsWith(lens, sym, B)
    ensures sym < |lens| && lens[sym] == 1 && IsLongest(lens, 1)
  {
    if KraftSum(lens) == Pow2(BMAX) {
      CompleteDecodes(lens, B);
    }
    sym :| sym < |lens| && lens[sym] != 0;
    forall k: nat | 1 <= k <= BMAX
      ensures Count(lens, k) == 0 <==> k != 1
    {
      CountAbsent(lens, k);
    }
  }

  /** The entry looked up for a code length code gives what the decoding process takes. */
  lemma CodeLengthFound(hp: seq<Huft>, tb: nat, bb: nat, clens: seq<nat>, B: nat)
    requires |clens| == 19 && LengthsOk(clens) && !AllZero(clens) && Acceptable(clens)
    requires Decodes(hp, tb, bb, clens, 19, [], []) && HuftBuild.Flat(hp, tb, bb)
    ensures var i := tb + Low(B, bb);
            i < |hp| && hp[i].bits <= bb && hp[i].base < 19 && CodeLengthAt(clens, B) == (hp[i].base, hp[i].bits)
  {
    var i := tb + Low(B, bb);
    assert i < |hp| && !IsLink(hp[i]);
    assert DecodesStream(hp, tb, bb, clens, 19, [], [], B);
    assert Walk(hp, tb, bb, B, BMAX) == Some(Found(hp[i].bits, hp[i]));
    hide Low, Msb, Decodes, HuftBuild.Flat;
    if exists sym: nat :: StartsWith(clens, sym, B) {
      assert StartsWith(clens, SymbolAt(clens, B).value, B);
    } else {
      var sym := SingleCode(clens, B);
    }
  }

  // ----- the steps by mode

  lemma AfterType(job: Job, n: nat, a: State)
    requires After(job, n, a) && a.mode.Type?
    ensures After(job, n + 1, TypeNext(a.pos, Low(From(job.I, a.pos), 3), a.out))
  {
    hide Run, From, Low;
    AfterNext(job, n, a);
  }

  lemma AfterLens(job: Job, n: nat, a: State)
    requires After(job, n, a) && a.mode.Lens?
    ensures After(job, n + 1, LensStep(job.I, a))
  {
    hide LensStep, Run;
    AfterNext(job, n, a);
  }

  /** A byte of a stored block. */
  lemma AfterStored(job: Job, n: nat, a: State, p: nat)
    requires After(job, n, a) && a.mode.Stored? && a.mode.left > 0 && a.pos == 8 * p && p < |job.I|
    ensures After(job, n + 1, State(a.pos + 8, if a.mode.left == 1 then AfterBlock(a.last)
      else Stored(a.mode.left - 1), a.last, a.out + [job.I[p]]))
  {
    hide Run, From, Low;
    AfterNext(job, n, a);
    ByteAt(job.I, p);
  }

  lemma AfterTable(job: Job, n: nat, a: State)
    requires After(job, n, a) && a.mode.Table?
    ensures After(job, n + 1, TableStep(job.I, a))
  {
    hide TableStep, Run;
    AfterNext(job, n, a);
  }

  /** A code length code length. */
  lemma AfterLength(job: Job, n: nat, a: State)
    requires After(job, n, a) && a.mode.BTree? && |a.mode.clens| == 19 && a.mode.index < 4 + Shr(a.mode.table, 10)
    requires a.mode.index < 19
    ensures BORDER[a.mode.index] < 19
    ensures var BTree(table, index, clens) := a.mode;
            After(job, n + 1, a.(pos := a.pos + 3,
              mode := BTree(table, index + 1, clens[BORDER[index] := Low(From(job.I, a.pos), 3)])))
  {
    hide Run, From, Low, Shr;
    AfterNext(job, n, a);
  }

  lemma AfterLengths(job: Job, n: nat, a: State)
    requires After(job, n, a) && a.mode.BTree? && a.mode.index >= 4 + Shr(a.mode.table, 10) && LengthsOk(a.mode.clens)
    ensures After(job, n + 1,
      a.(mode := if !AllZero(a.mode.clens) && Acceptable(a.mode.clens) then DTree(a.mode.table, a.mode.clens, [])
        else Bad))
  {
    hide Run, From, Low, Shr, Acceptable, AllZero, LengthsOk;
    AfterNext(job, n, a);
  }

  /** A code length sent as such. */
  lemma AfterCode(job: Job, n: nat, a: State, c: nat, used: nat)
    requires After(job, n, a) && a.mode.DTree? && |a.mode.lens| < NumLens(a.mode.table)
    requires CodeLengthAt(a.mode.clens, From(job.I, a.pos)) == (c, used) && c < 16
    ensures After(job, n + 1, a.(pos := a.pos + used, mode := DTree(a.mode.table, a.mode.clens, a.mode.lens + [c])))
  {
    hide Run, From, Low, Shr, CodeLengthAt, NumLens;
    AfterNext(job, n, a);
  }

  /** The repeat count's bits and base for code length symbol c. */
  function RepeatBits(c: nat): nat
    requires 16 <= c
  {
    if c == 18 then 7 else c - 14
  }

  function RepeatBase(c: nat): nat
  {
    if c == 18 then 11 else 3
  }

  /** A repeated code length, m times. */
  lemma AfterRepeat(job: Job, n: nat, a: State, c: nat, used: nat, m: nat)
    requires After(job, n, a) && a.mode.DTree? && |a.mode.lens| < NumLens(a.mode.table)
    requires CodeLengthAt(a.mode.clens, From(job.I, a.pos)) == (c, used) && 16 <= c
    requires m == RepeatBase(c) + Low(From(job.I, a.pos + used), RepeatBits(c))
    ensures var lens := a.mode.lens;
            After(job, n + 1,
              if |lens| + m > NumLens(a.mode.table) || (c == 16 && lens == []) then a.(mode := Bad)
              else a.(pos := a.pos + used + RepeatBits(c),
                      mode := a.mode.(lens := lens + Repeat<nat>(if c == 16 then lens[|lens| - 1] else 0, m))))
  {
    hide Run, From, Low, Shr, CodeLengthAt, NumLens, Repeat;
    FromFrom(job.I, a.pos, used);
    AfterNext(job, n, a);
  }

  /** All code lengths are there. */
  lemma AfterTrees(job: Job, n: nat, a: State)
    requires After(job, n, a) && a.mode.DTree? && NumLit(a.mode.table) <= NumLens(a.mode.table) == |a.mode.lens|
    requires LengthsOk(a.mode.lens)
    ensures var lit, dst := a.mode.lens[..NumLit(a.mode.table)], a.mode.lens[NumLit(a.mode.table)..];
            After(job, n + 1, a.(mode := if AcceptDynamic(lit, dst) then Codes(lit, dst, Start) else Bad))
  {
    hide Run, From, Low, Shr, CodeLengthAt, NumLens, NumLit, AcceptDynamic;
    AfterNext(job, n, a);
  }

  lemma AfterEnd(job: Job, n: nat, a: State)
    requires After(job, n, a)
    ensures a.mode.Dry? ==> After(job, n + 1, a.(mode := Done))
    ensures a.mode.Codes? && a.mode.sub.EndOfBlock? ==> After(job, n + 1, a.(mode := AfterBlock(a.last)))
  {
    hide Run, From, Low, TypeStep, LensStep, TableStep, BTreeStep, DTreeStep;
    AfterNext(job, n, a);
  }

  /** The end of the byte that pos lies in, k bits before the end of byte p. */
  lemma ByteBoundary(p: nat, k: nat)
    requires k <= 8 * p
    ensures (8 * p - k + 7) / 8 * 8 == 8 * p - (k - k % 8)
  {
  }

  /** Cutting the two lengths of a stored block out of 32 bits. */
  lemma LensBits(B: nat)
    ensures Low(Low(B, 32), 16) == Low(B, 16) && Shr(Low(B, 32), 16) == Low(Shr(B, 16), 16)
  {
    LowLow(B, 16, 32);
    ShrLow(B, 16, 32);
  }

  lemma TableNumberBits(B: nat)
    ensures Shr(Low(B, 14), 10) <= 15
  {
    ShrLow(B, 10, 14);
    Split(Shr(B, 10), 4);
    assert Pow2(4) == 16;
  }

  // ----- the code length code lengths

  /** Up to index i the lengths read are stored in border order, the others count as zero. */
  ghost predicate ReadSoFar(blens: seq<nat>, clens: seq<nat>, i: nat)
  {
    && |clens| == 19 <= |blens| && i <= 19
    && (forall x :: 0 <= x < 19 ==> clens[x] <= 7)
    && (forall j :: 0 <= j < i ==> blens[BORDER[j]] == clens[BORDER[j]])
    && (forall j :: i <= j < 19 ==> clens[BORDER[j]] == 0)
  }

  lemma BorderDistinct()
    ensures |BORDER| == 19
    ensures forall j :: 0 <= j < 19 ==> BORDER[j] < 19
    ensures forall i, j :: 0 <= i < j < 19 ==> BORDER[i] != BORDER[j]
  {
  }

  /** Every code length symbol has its place in border order. */
  function PlaceOf(x: nat): (j: nat)
    requires x < 19
    ensures j < 19 && BORDER[j] == x
  {
    [3, 17, 15, 13, 11, 9, 7, 5, 4, 6, 8, 10, 12, 14, 16, 18, 0, 1, 2][x]
  }

  lemma ReadNone(blens: seq<nat>)
    requires 19 <= |blens|
    ensures ReadSoFar(blens, Repeat<nat>(0, 19), 0)
  {
    BorderDistinct();
  }

  lemma ReadOne(blens: seq<nat>, clens: seq<nat>, i: nat, c: nat)
    requires ReadSoFar(blens, clens, i) && i < 19 && c <= 7
    ensures BORDER[i] < 19 && ReadSoFar(blens[BORDER[i] := c], clens[BORDER[i] := c], i + 1)
  {
    BorderDistinct();
  }

  lemma ReadAll(blens: seq<nat>, clens: seq<nat>)
    requires ReadSoFar(blens, clens, 19)
    ensures blens[..19] == clens && LengthsOk(clens)
  {
    forall x | 0 <= x < 19
      ensures blens[x] == clens[x]
    {
      assert BORDER[PlaceOf(x)] == x;
    }
  }

  lemma SizesOfRead(blens: seq<nat>, clens: seq<nat>, i: nat)
    requires ReadSoFar(blens, clens, i)
    ensures |clens| == 19 <= |blens| && i <= 19 && forall x :: 0 <= x < 19 ==> clens[x] <= 7
  {
  }

  lemma ThreeBits(B: nat)
    ensures Low(B, 3) <= 7
  {
    Split(B, 3);
    assert Pow2(3) == 8;
  }
}
