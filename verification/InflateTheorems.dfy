/** What follows for whole decodings: neither the splitting of input and output into calls nor
    what the window held before matters. */
module InflateTheorems {
  import opened Bits
  import opened Canonical
  import opened HuftTable
  import opened InfTrees
  import opened InflateTrees
  import opened Zlib
  import opened BitInput
  import opened InflateWindow
  import opened InflateSpec
  import opened CodeSteps
  import opened Inflate
  import Codes = InflateCodes
  import Blocks = InflateBlocks
  import opened BlockSteps
  import opened Sequences

  /** Two decoders of one stream come to the same verdict and deliver the same bytes. */
  lemma SameVerdict(a: Inflater, b: Inflater)
    requires a.Valid() && b.Valid() && a.inp.I == b.inp.I && a.wbits == b.wbits && a.nowrap == b.nowrap
    requires a.win.w0 == b.win.w0 && a.win.window.Length == b.win.window.Length
    requires a.mode == InflateMode.DONE && (b.mode == InflateMode.DONE || b.mode == InflateMode.BAD)
    ensures b.mode == InflateMode.DONE && a.win.out == b.win.out && a.win.check == b.win.check
  {
    hide Accepts, Last, Rotated, Between, CheckOf;
    assert Accepts(a.inp.I, a.wbits, a.win.window.Length, a.win.w0, a.nowrap, a.win.out);
    if b.mode == InflateMode.DONE {
      AcceptsOnce(a.inp.I, a.wbits, a.win.window.Length, a.win.w0, a.nowrap, a.win.out, b.win.out);
    }
  }

  // ----- a decoder with all its input and room for output finishes

  lemma StepForward(I: seq<byte>, W: nat, w0: seq<byte>, a: State)
    requires 0 < W <= |w0|
    ensures a.pos <= Step(I, W, w0, a).pos
  {
    hide CodesStep, BTreeStep, DTreeStep, From, Low, Shr;
    if a.mode.Codes? {
      CodesForward(I, W, w0, a);
    } else if a.mode.BTree? {
      BTreeForward(I, a);
    } else if a.mode.DTree? {
      DTreeForward(I, a);
    }
  }

  lemma BTreeForward(I: seq<byte>, a: State)
    requires a.mode.BTree?
    ensures a.pos <= BTreeStep(I, a).pos
  {
    hide From, Low, Shr, Acceptable, AllZero, LengthsOk;
  }

  lemma DTreeForward(I: seq<byte>, a: State)
    requires a.mode.DTree?
    ensures a.pos <= DTreeStep(I, a).pos
  {
    hide From, Low, Shr, AcceptDynamic, CodeLengthAt, LengthsOk;
    assert CodeLengthAt(a.mode.clens, From(I, a.pos)).1 >= 0;
  }

  lemma CodesForward(I: seq<byte>, W: nat, w0: seq<byte>, a: State)
    requires 0 < W <= |w0| && a.mode.Codes?
    ensures a.pos <= CodesStep(I, W, w0, a).pos
  {
    hide From, Low, Shr, SymbolAt, Back;
  }

  lemma {:induction false} RunForward(I: seq<byte>, W: nat, w0: seq<byte>, start: nat, n: nat, m: nat)
    requires 0 < W <= |w0| && n <= m
    ensures Run(I, W, w0, start, n).pos <= Run(I, W, w0, start, m).pos
    decreases m
  {
    hide Step;
    if n < m {
      RunForward(I, W, w0, start, n, m - 1);
      StepForward(I, W, w0, Run(I, W, w0, start, m - 1));
    }
  }

  /** The entry that ends a walk is still to come, with a bit at least. */
  lemma StillToCome(hp: seq<Huft>, root: nat, bits: nat, tree: nat, need: nat, B: nat, dropped: nat, fuel: nat)
    requires OnTree(hp, root, bits, tree, need, B, dropped, fuel)
    ensures Walk(hp, root, bits, B, BMAX).Some? && dropped < Walk(hp, root, bits, B, BMAX).value.used
  {
    WalkStep(hp, tree, need, Shr(B, dropped), bits, BMAX - dropped, fuel);
  }

  /** The bits dropped in the middle of a code belong to the run's next step. */
  lemma LitAhead(job: Job, n: nat, a: State, hp: seq<Huft>, t: nat, bits: nat, tree: nat, need: nat, dropped: nat,
                 fuel: nat)
    requires After(job, n, a) && a.mode.Codes? && a.mode.sub == Start && |a.mode.lit| <= 288
    requires Decodes(hp, t, bits, a.mode.lit, 257, CPLENS, CPLEXT)
    requires OnTree(hp, t, bits, tree, need, From(job.I, a.pos), dropped, fuel)
    ensures exists next :: After(job, n + 1, next) && (next.mode.Bad? || a.pos + dropped < next.pos)
  {
    hide From, Low, Means, Decodes, After, StepsOk, Shr;
    var f := Walk(hp, t, bits, From(job.I, a.pos), BMAX).value;
    CanStart(hp, t, bits, a.mode.lit, 257, CPLENS, CPLEXT, From(job.I, a.pos));
    LitFound(job, n, a, f);
    StillToCome(hp, t, bits, tree, need, From(job.I, a.pos), dropped, fuel);
  }

  lemma DistAhead(job: Job, n: nat, a: State, hp: seq<Huft>, t: nat, bits: nat, tree: nat, need: nat, dropped: nat,
                  fuel: nat)
    requires After(job, n, a) && a.mode.Codes? && a.mode.sub.Dist? && |a.mode.dst| <= 30
    requires Decodes(hp, t, bits, a.mode.dst, 0, CPDIST, CPDEXT)
    requires OnTree(hp, t, bits, tree, need, From(job.I, a.pos), dropped, fuel)
    ensures exists next :: After(job, n + 1, next) && (next.mode.Bad? || a.pos + dropped < next.pos)
  {
    hide From, Low, Means, Decodes, After, StepsOk, Shr;
    var f := Walk(hp, t, bits, From(job.I, a.pos), BMAX).value;
    CanStart(hp, t, bits, a.mode.dst, 0, CPDIST, CPDEXT, From(job.I, a.pos));
    DistFound(job, n, a, f);
    StillToCome(hp, t, bits, tree, need, From(job.I, a.pos), dropped, fuel);
  }

  /** The run goes into the last byte of the input, or goes bad. */
  ghost predicate GoesToEnd(job: Job, n: nat, size: nat)
  {
    exists m, next :: n <= m && After(job, m, next) && (next.mode.Bad? || 8 * size < next.pos + 8)
  }

  lemma ToEnd(job: Job, n: nat, size: nat, m: nat, next: State)
    requires n <= m && After(job, m, next) && (next.mode.Bad? || 8 * size < next.pos + 8)
    ensures GoesToEnd(job, n, size)
  {
  }

  /** A decoder that waits for input in the middle of a code is not yet past all of it by a byte: the
      next step of the run takes it there. */
  lemma CodesAhead(c: Codes.CodesState)
    requires c.Valid() && c.mode != Codes.BADCODE && c.Needy()
    ensures GoesToEnd(c.Job(), c.n, |c.inp.input|)
  {
    hide Last, Rotated, Between, CheckOf, From, Low, Decodes, After, OnTree, GoesToEnd;
    var job, a := c.Job(), c.Now();
    if c.mode == Codes.LEN {
      LitAhead(job, c.n, a, c.hp, c.ltree, c.lbits, c.tree, c.need, c.dropped, c.fuel);
      var next :| After(job, c.n + 1, next) && (next.mode.Bad? || a.pos + c.dropped < next.pos);
      ToEnd(job, c.n, |c.inp.input|, c.n + 1, next);
    } else if c.mode == Codes.DIST {
      DistAhead(job, c.n, a, c.hp, c.dtree, c.dbits, c.tree, c.need, c.dropped, c.fuel);
      var next :| After(job, c.n + 1, next) && (next.mode.Bad? || a.pos + c.dropped < next.pos);
      ToEnd(job, c.n, |c.inp.input|, c.n + 1, next);
    } else if c.mode == Codes.DISTEXT {
      DistExtStep(job, c.n, a);
      ToEnd(job, c.n, |c.inp.input|, c.n + 1, a.(pos := a.pos + c.get,
        mode := a.mode.(sub := Copy(c.len, c.dist + Low(From(job.I, a.pos), c.get)))));
    } else {
      ToEnd(job, c.n, |c.inp.input|, c.n, a);
    }
  }

  /** The same between codes. */
  lemma BlocksAhead(b: Blocks.BlocksState)
    requires b.Valid() && !b.Failed() && b.Needy()
    ensures GoesToEnd(b.Job(), b.n, |b.inp.input|)
  {
    hide Last, Rotated, Between, CheckOf, From, Low, Shr, Decodes, After, OnTree, GoesToEnd, Blocks.TreesReady,
         Blocks.TableOk, NumLens, CodeLengthAt;
    var job, a, size := b.Job(), b.Now(), |b.inp.input|;
    if b.mode == Blocks.CODES {
      CodesAhead(b.codes);
    } else if b.mode == Blocks.LENS {
      AfterLens(job, b.n, a);
      ToEnd(job, b.n, size, b.n + 1, LensStep(job.I, a));
    } else if b.mode == Blocks.TABLE {
      AfterTable(job, b.n, a);
      ToEnd(job, b.n, size, b.n + 1, TableStep(job.I, a));
    } else if b.mode == Blocks.DTREE && !b.inp.Lacks(8) {
      LengthAhead(b);
    } else {
      ToEnd(job, b.n, size, b.n, a);
    }
  }

  lemma LengthAhead(b: Blocks.BlocksState)
    requires b.Valid() && b.mode == Blocks.DTREE && b.Needy() && !b.inp.Lacks(8)
    ensures GoesToEnd(b.Job(), b.n, |b.inp.input|)
  {
    hide Last, Rotated, Between, CheckOf, From, Low, Shr, Decodes, After, OnTree, GoesToEnd, Blocks.TreesReady,
         Blocks.TableOk, NumLens, CodeLengthAt, Blocks.ShortEnough;
    var (c, used) := CodeLengthAt(b.clens, b.inp.Rest());
    var job, a := b.Job(), b.Now();
    var m := RepeatBase(c) + Low(From(job.I, a.pos + used), RepeatBits(c));
    AfterRepeat(job, b.n, a, c, used, m);
    var lens := a.mode.lens;
    ToEnd(job, b.n, |b.inp.input|, b.n + 1,
      if |lens| + m > NumLens(a.mode.table) || (c == 16 && lens == []) then a.(mode := Bad)
      else a.(pos := a.pos + used + RepeatBits(c),
              mode := a.mode.(lens := lens + Repeat<nat>(if c == 16 then lens[|lens| - 1] else 0, m))));
  }

  /** Where the run of a good stream is at most. */
  lemma Within(job: Job, n: nat, a: State, m: nat, pos: nat, out: seq<byte>)
    requires After(job, n, a) && Decoded(job, m, pos, out)
    ensures !a.mode.Bad? && a.pos <= pos
  {
    if n <= m {
      RunForward(job.I, job.W, job.w0, job.start, n, m);
      if a.mode.Bad? {
        BadStays(job.I, job.W, job.w0, job.start, n, m);
      }
    } else {
      RunGrows(job.I, job.W, job.w0, job.start, m, n);
    }
  }

  /** What was delivered is the beginning of what a good stream stands for. */
  lemma Delivered(z: Inflater, out: seq<byte>)
    requires z.Valid() && Accepts(z.inp.I, z.wbits, z.win.window.Length, z.win.w0, z.nowrap, out)
    ensures z.win.out <= out
  {
    hide Last, Rotated, Between, CheckOf, From, Low, After, Accepts, HeaderOk, Leading, Decoded;
    if z.mode == BLOCKS {
      var b := z.blocks;
      if b.mode == Blocks.CODES {
        OutputIsPrefix(z.inp.I, z.wbits, z.win.window.Length, z.win.w0, z.nowrap, b.codes.n, b.codes.Now(), out);
      } else {
        OutputIsPrefix(z.inp.I, z.wbits, z.win.window.Length, z.win.w0, z.nowrap, b.n, b.Now(), out);
      }
    } else if 1 <= ModeRank(z.mode) <= 4 {
      EndedIsPrefix(z.inp.I, z.wbits, z.win.window.Length, z.win.w0, z.nowrap, z.n, z.pos, z.win.produced, out);
    } else if z.mode == InflateMode.DONE {
      AcceptsOnce(z.inp.I, z.wbits, z.win.window.Length, z.win.w0, z.nowrap, z.win.out, out);
    }
  }

  lemma EndedIsPrefix(I: seq<byte>, wbits: nat, W: nat, w0: seq<byte>, nowrap: bool, n: nat, pos: nat,
                      produced: seq<byte>, out: seq<byte>)
    requires Decoded(JobFor(I, W, w0, nowrap), n, pos, produced) && Accepts(I, wbits, W, w0, nowrap, out)
    ensures produced <= out
  {
    hide After, HeaderOk, TrailerOk;
    var m: nat, p: nat :| Decoded(JobFor(I, W, w0, nowrap), m, p, out);
    DecodedOnce(JobFor(I, W, w0, nowrap), n, pos, produced, m, p, out);
  }

  /** A call that was given the rest of a good stream, and leaves room for output, ends it: a
      decoder never waits for more than a byte that it does not need.  Without the wrapper that takes
      one more byte behind the data, in place of the checksum. */
  lemma Complete(z: Inflater, r: Status, out: seq<byte>)
    requires z.Valid() && z.Tells(r) && z.inp.input == z.inp.I && z.win.availOut > 0
    requires Accepts(z.inp.I, z.wbits, z.win.window.Length, z.win.w0, z.nowrap, out)
    requires z.nowrap ==> exists n: nat, pos: nat :: Decoded(z.Job(), n, pos, out) && ByteEnd(pos) < |z.inp.I|
    ensures r == STREAM_END && z.win.out == out
  {
    hide Last, Rotated, Between, CheckOf, From, Low, After, Run, MethodOk, FlagOk, HasDict;
    if r == STREAM_END {
      AcceptsOnce(z.inp.I, z.wbits, z.win.window.Length, z.win.w0, z.nowrap, z.win.out, out);
    } else {
      var job := z.Job();
      var m: nat, pos: nat :| Decoded(job, m, pos, out) && ByteEnd(pos) < |z.inp.I| &&
        (z.nowrap || HeaderOk(z.inp.I, z.wbits)) && (z.nowrap || TrailerOk(z.inp.I, ByteEnd(pos), out));
      if z.mode == BLOCKS {
        NotStarved(z, m, pos, out);
      } else if 1 <= ModeRank(z.mode) <= 4 {
        DecodedOnce(job, z.n, z.pos, z.win.produced, m, pos, out);
      }
    }
  }

  lemma NotStarved(z: Inflater, m: nat, pos: nat, out: seq<byte>)
    requires z.Valid() && z.mode == BLOCKS && z.inp.input == z.inp.I && z.blocks.Needy() && !z.blocks.Failed()
    requires ByteEnd(pos) < |z.inp.I|
    ensures !Decoded(z.Job(), m, pos, out)
  {
    hide Last, Rotated, Between, CheckOf, From, Low, After;
    BlocksAhead(z.blocks);
    var n, next :| z.blocks.n <= n && After(z.blocks.Job(), n, next) &&
      (next.mode.Bad? || 8 * |z.inp.input| < next.pos + 8);
    if Decoded(z.Job(), m, pos, out) {
      Within(z.Job(), n, next, m, pos, out);
    }
  }

  // ----- what the window held before does not matter

  /** A copy does not reach back before the first byte of output or beyond a window. */
  ghost predicate NearStep(a: State, W: nat, W': nat)
  {
    a.mode.Codes? && a.mode.sub.Copy? && a.mode.sub.len > 0 ==>
      1 <= a.mode.sub.dist <= |a.out| && a.mode.sub.dist <= W && a.mode.sub.dist <= W'
  }

  lemma SameStep(I: seq<byte>, W: nat, w0: seq<byte>, W': nat, w0': seq<byte>, a: State)
    requires 0 < W <= |w0| && 0 < W' <= |w0'| && NearStep(a, W, W')
    ensures Step(I, W, w0, a) == Step(I, W', w0', a)
  {
    hide From, Low, Shr, SymbolAt, TypeStep, LensStep, StoredStep, TableStep, BTreeStep, DTreeStep;
    if a.mode.Codes? && a.mode.sub.Copy? && a.mode.sub.len > 0 {
      var d := a.mode.sub.dist;
      assert Reach(W, d) == d == Reach(W', d);
      assert (w0 + a.out)[|w0 + a.out| - d] == a.out[|a.out| - d] == (w0' + a.out)[|w0' + a.out| - d];
    }
  }

  /** Windows of different sizes and contents decode a stream alike if its copies stay near. */
  lemma {:induction false} SameRun(I: seq<byte>, W: nat, w0: seq<byte>, W': nat, w0': seq<byte>, start: nat, n: nat)
    requires 0 < W <= |w0| && 0 < W' <= |w0'|
    requires forall m: nat :: m < n ==> NearStep(Run(I, W, w0, start, m), W, W')
    ensures Run(I, W, w0, start, n) == Run(I, W', w0', start, n)
  {
    hide Step, NearStep;
    if n > 0 {
      SameRun(I, W, w0, W', w0', start, n - 1);
      SameStep(I, W, w0, W', w0', Run(I, W, w0, start, n - 1));
    }
  }

  /** So a stream that one decoder accepts is accepted by every other, with the same output. */
  lemma AcceptedByAll(I: seq<byte>, wbits: nat, W: nat, w0: seq<byte>, W': nat, w0': seq<byte>, nowrap: bool,
                      out: seq<byte>)
    requires 0 < W' <= |w0'| && Accepts(I, wbits, W, w0, nowrap, out)
    requires 0 < W <= |w0| ==> forall m: nat :: NearStep(Run(I, W, w0, JobFor(I, W, w0, nowrap).start, m), W, W')
    ensures Accepts(I, wbits, W', w0', nowrap, out)
  {
    hide Run, NearStep, CheckOf;
    var job := JobFor(I, W, w0, nowrap);
    var n: nat, pos: nat :| Decoded(job, n, pos, out) && pos <= 8 * |I| &&
      (nowrap || (HeaderOk(I, wbits) && TrailerOk(I, ByteEnd(pos), out)));
    SameRun(I, W, w0, W', w0', job.start, n);
    assert Decoded(JobFor(I, W', w0', nowrap), n, pos, out);
  }
}
