/** What a writer produces by the rules of RFC 1951, the decoding process takes apart again: every list of
    blocks, of all three types, decodes to the data that it stands for. */
module FormatDecodes {
  import opened Bits
  import opened BitInput
  import opened BlockSteps
  import opened Canonical
  import opened CodeSteps
  import opened DeflateTokens
  import opened FormatBits
  import opened FormatCodes
  import opened InflateFixed
  import opened InflateSpec
  import opened InflateTrees
  import opened InfTrees
  import opened Options
  import opened Sequences
  import opened Zlib
  import F = Format
  import HuftBuild

  /** The run comes to this state. */
  ghost predicate Gets(job: Job, a: State)
  {
    exists n: nat :: After(job, n, a)
  }

  lemma GetsAt(job: Job, n: nat, a: State)
    requires After(job, n, a)
    ensures Gets(job, a)
  {
  }

  /** In a block with codes. */
  function InCodes(pos: nat, lit: seq<nat>, dst: seq<nat>, sub: CodesMode, last: bool, out: seq<byte>): State
  {
    State(pos, Codes(lit, dst, sub), last, out)
  }

  // ----- the codes of a block

  /** The decoder's lengths are those of the writer's codes. */
  ghost predicate Coded(c: F.Coding, lit: seq<nat>, dst: seq<nat>)
  {
    && LengthsOk(lit) && LengthsOk(dst) && KraftSum(lit) <= Pow2(BMAX) && KraftSum(dst) <= Pow2(BMAX)
    && |lit| <= 288 && |dst| <= 30
    && if c.Fixed? then lit == FIXED_LIT && dst == FIXED_DIST else lit == c.lit && dst == c.dst
  }

  lemma FixedCoded()
    ensures Coded(F.Fixed, FIXED_LIT, FIXED_DIST)
  {
    FixedKraft();
    FixedLengths();
  }

  lemma LitIs(c: F.Coding, lit: seq<nat>, dst: seq<nat>, sym: nat)
    requires Coded(c, lit, dst) && F.HasLit(c, sym)
    ensures sym < |lit| && lit[sym] > 0 && F.LitBits(c, sym) == F.CodeBits(lit, sym)
  {
    if c.Fixed? {
      FixedTable(sym);
      FixedLengths();
    }
  }

  lemma DistIs(c: F.Coding, lit: seq<nat>, dst: seq<nat>, sym: nat)
    requires Coded(c, lit, dst) && F.HasDist(c, sym)
    ensures sym < |dst| && dst[sym] > 0 && F.DistBits(c, sym) == F.CodeBits(dst, sym)
  {
    if c.Fixed? {
      FixedDistances(sym);
    }
  }

  lemma CodedIs(c: F.Coding, lit: seq<nat>, dst: seq<nat>)
    requires Coded(c, lit, dst)
    ensures LengthsOk(lit) && LengthsOk(dst) && KraftSum(lit) <= Pow2(BMAX) && KraftSum(dst) <= Pow2(BMAX)
  {
  }

  /** A symbol's code in the stream is found as the symbol. */
  lemma SymbolFound(I: seq<byte>, pos: nat, lens: seq<nat>, sym: nat)
    requires LengthsOk(lens) && KraftSum(lens) <= Pow2(BMAX) && sym < |lens| && lens[sym] > 0
    requires At(I, pos, F.CodeBits(lens, sym))
    ensures SymbolAt(lens, From(I, pos)) == Some(sym)
  {
    hide From, CodeOf, KraftSum, Pow2;
    CodeFits(lens, sym);
    AtCode(I, pos, CodeOf(lens, sym), lens[sym]);
    FindsSymbol(lens, sym, From(I, pos));
  }

  /** What a literal/length symbol leads to. */
  function SymbolNext(sym: nat): CodesMode
    requires sym <= 285
  {
    if sym < 256 then Lit(sym) else if sym == 256 then EndOfBlock
    else LenExt(F.LenBase(sym), F.LenExtra(sym))
  }

  lemma LitGets(job: Job, pos: nat, lit: seq<nat>, dst: seq<nat>, last: bool, out: seq<byte>, c: F.Coding, sym: nat)
    requires Gets(job, InCodes(pos, lit, dst, Start, last, out)) && Coded(c, lit, dst)
    requires F.HasLit(c, sym) && sym <= 285 && At(job.I, pos, F.LitBits(c, sym))
    ensures Gets(job, InCodes(pos + |F.LitBits(c, sym)|, lit, dst, SymbolNext(sym), last, out))
  {
    hide From, SymbolAt, SymbolNext, CodesStep, After, At, Coded;
    LitIs(c, lit, dst, sym);
    CodedIs(c, lit, dst);
    SymbolFound(job.I, pos, lit, sym);
    var a := InCodes(pos, lit, dst, Start, last, out);
    JobSize(job, a);
    var n: nat :| After(job, n, a);
    AfterCodes(job, n, a);
    LitStep(job.I, job.W, job.w0, a, sym);
    GetsAt(job, n + 1, a.(pos := a.pos + lit[sym], mode := a.mode.(sub := SymbolNext(sym))));
  }

  lemma LitStep(I: seq<byte>, W: nat, w0: seq<byte>, a: State, sym: nat)
    requires a.mode.Codes? && a.mode.sub == Start && 0 < W <= |w0|
    requires sym < |a.mode.lit| && sym <= 285 && SymbolAt(a.mode.lit, From(I, a.pos)) == Some(sym)
    ensures CodesStep(I, W, w0, a) == a.(pos := a.pos + a.mode.lit[sym], mode := a.mode.(sub := SymbolNext(sym)))
  {
    hide From, SymbolAt, F.LenBase, F.LenExtra;
    LengthTables();
    if sym > 256 {
      assert CPLENS[sym - 257] == F.LenBase(257 + (sym - 257)) && CPLEXT[sym - 257] == F.LenExtra(257 + (sym - 257));
      NoInvalid(sym);
    }
  }

  lemma NoInvalid(sym: nat)
    requires 257 <= sym <= 285
    ensures F.LenExtra(sym) <= 6
  {
  }

  lemma JobSize(job: Job, a: State)
    requires Gets(job, a)
    ensures 0 < job.W <= |job.w0|
  {
  }

  lemma ExtraGets(job: Job, pos: nat, lit: seq<nat>, dst: seq<nat>, last: bool, out: seq<byte>, sym: nat, ext: nat)
    requires 257 <= sym <= 285 && ext < F.Power(F.LenExtra(sym))
    requires Gets(job, InCodes(pos, lit, dst, LenExt(F.LenBase(sym), F.LenExtra(sym)), last, out))
    requires At(job.I, pos, F.Number(ext, F.LenExtra(sym)))
    ensures Gets(job, InCodes(pos + F.LenExtra(sym), lit, dst, Dist(F.LenBase(sym) + ext), last, out))
  {
    hide From, Low, After, At, F.LenBase, F.LenExtra, F.Number, F.Power;
    var a := InCodes(pos, lit, dst, LenExt(F.LenBase(sym), F.LenExtra(sym)), last, out);
    var n: nat :| After(job, n, a);
    LenExtStep(job, n, a);
    AtNumber(job.I, pos, ext, F.LenExtra(sym));
    GetsAt(job, n + 1, InCodes(pos + F.LenExtra(sym), lit, dst, Dist(F.LenBase(sym) + ext), last, out));
  }

  lemma DistGets(job: Job, pos: nat, lit: seq<nat>, dst: seq<nat>, last: bool, out: seq<byte>, c: F.Coding, len: nat,
                 sym: nat)
    requires Gets(job, InCodes(pos, lit, dst, Dist(len), last, out)) && Coded(c, lit, dst)
    requires F.HasDist(c, sym) && sym < 30 && At(job.I, pos, F.DistBits(c, sym))
    ensures Gets(job, InCodes(pos + |F.DistBits(c, sym)|, lit, dst,
      DistExt(len, F.DistBase(sym), F.DistExtra(sym)), last, out))
  {
    hide From, SymbolAt, F.DistBase, F.DistExtra, After, At;
    DistIs(c, lit, dst, sym);
    SymbolFound(job.I, pos, dst, sym);
    DistanceTables();
    var a := InCodes(pos, lit, dst, Dist(len), last, out);
    JobSize(job, a);
    var n: nat :| After(job, n, a);
    AfterCodes(job, n, a);
    GetsAt(job, n + 1, a.(pos := a.pos + dst[sym],
      mode := a.mode.(sub := DistExt(len, F.DistBase(sym), F.DistExtra(sym)))));
  }

  lemma CopyGets(job: Job, pos: nat, lit: seq<nat>, dst: seq<nat>, last: bool, out: seq<byte>, len: nat, d: nat,
                 ext: nat)
    requires d < 30 && ext < F.Power(F.DistExtra(d))
    requires 1 <= F.DistBase(d) + ext <= |out| && F.DistBase(d) + ext <= job.W
    requires Gets(job, InCodes(pos, lit, dst, DistExt(len, F.DistBase(d), F.DistExtra(d)), last, out))
    requires At(job.I, pos, F.Number(ext, F.DistExtra(d)))
    ensures Gets(job, InCodes(pos + F.DistExtra(d), lit, dst, Start, last, CopyBack(out, F.DistBase(d) + ext, len)))
  {
    hide From, Low, After, At, CopyBack, F.DistBase, F.DistExtra, F.Number, F.Power;
    var dist := F.DistBase(d) + ext;
    var a := InCodes(pos, lit, dst, DistExt(len, F.DistBase(d), F.DistExtra(d)), last, out);
    var n: nat :| After(job, n, a);
    DistExtStep(job, n, a);
    AtNumber(job.I, pos, ext, F.DistExtra(d));
    var b := InCodes(pos + F.DistExtra(d), lit, dst, Copy(len, dist), last, out);
    DecoderCopies(job, n + 1, b, len, dist);
    GetsAt(job, n + 1 + len + 1, InCodes(b.pos, lit, dst, Start, last, CopyBack(out, dist, len)));
  }

  /** Distances are positive. */
  lemma {:induction false} DistPositive(sym: nat)
    requires sym < 30
    ensures 1 <= F.DistBase(sym)
  {
    if sym > 0 {
      DistPositive(sym - 1);
    }
  }

  /** A token written, in whatever spelling, is a token decoded. */
  lemma PieceGets(job: Job, pos: nat, lit: seq<nat>, dst: seq<nat>, last: bool, out: seq<byte>, c: F.Coding,
                  p: F.Piece)
    requires Gets(job, InCodes(pos, lit, dst, Start, last, out)) && Coded(c, lit, dst)
    requires F.Writable(c, p) && At(job.I, pos, F.PieceBits(c, p))
    requires p.Reference? ==> F.TokenOf(p).dist <= |out| && F.TokenOf(p).dist <= job.W
    ensures Gets(job, InCodes(pos + |F.PieceBits(c, p)|, lit, dst, Start, last, Apply(out, F.TokenOf(p))))
  {
    hide From, After, At, Gets, Coded, F.LenBase, F.LenExtra, F.DistBase, F.DistExtra, F.LitBits, F.DistBits,
         F.HasLit, F.HasDist, F.Power, CopyBack;
    match p
    case Byte(b) =>
      LitGets(job, pos, lit, dst, last, out, c, b);
      LiteralGets(job, pos + |F.LitBits(c, b)|, lit, dst, last, out, b);
    case Reference(l, lext, d, dext) =>
      var x, y, z, u := F.LitBits(c, l), F.Number(lext, F.LenExtra(l)), F.DistBits(c, d),
        F.Number(dext, F.DistExtra(d));
      AtParts(job.I, pos, x + y + z, u);
      AtParts(job.I, pos, x + y, z);
      AtParts(job.I, pos, x, y);
      LitGets(job, pos, lit, dst, last, out, c, l);
      ExtraGets(job, pos + |x|, lit, dst, last, out, l, lext);
      DistGets(job, pos + |x + y|, lit, dst, last, out, c, F.LenBase(l) + lext, d);
      DistPositive(d);
      CopyGets(job, pos + |x + y + z|, lit, dst, last, out, F.LenBase(l) + lext, d, dext);
  }

  lemma LiteralGets(job: Job, pos: nat, lit: seq<nat>, dst: seq<nat>, last: bool, out: seq<byte>, b: byte)
    requires Gets(job, InCodes(pos, lit, dst, Lit(b), last, out))
    ensures Gets(job, InCodes(pos, lit, dst, Start, last, out + [b]))
  {
    hide After;
    var a := InCodes(pos, lit, dst, Lit(b), last, out);
    var n: nat :| After(job, n, a);
    LiteralStep(job, n, a);
    GetsAt(job, n + 1, InCodes(pos, lit, dst, Start, last, out + [b]));
  }

  lemma EndGets(job: Job, pos: nat, lit: seq<nat>, dst: seq<nat>, last: bool, out: seq<byte>)
    requires Gets(job, InCodes(pos, lit, dst, EndOfBlock, last, out))
    ensures Gets(job, State(pos, AfterBlock(last), last, out))
  {
    hide After;
    var a := InCodes(pos, lit, dst, EndOfBlock, last, out);
    var n: nat :| After(job, n, a);
    AfterEnd(job, n, a);
    GetsAt(job, n + 1, a.(mode := AfterBlock(a.last)));
  }

  /** The tokens of a block, and its end. */
  lemma {:induction false} PiecesGet(job: Job, pos: nat, lit: seq<nat>, dst: seq<nat>, last: bool, out: seq<byte>,
                                     c: F.Coding, ps: seq<F.Piece>)
    requires Gets(job, InCodes(pos, lit, dst, Start, last, out)) && Coded(c, lit, dst)
    requires F.AllWritable(c, ps) && At(job.I, pos, F.PiecesBits(c, ps)) && F.Near(out, F.Tokens(ps), job.W)
    ensures Gets(job, State(pos + |F.PiecesBits(c, ps)|, AfterBlock(last), last, F.ApplyAll(out, F.Tokens(ps))))
    decreases |ps|
  {
    hide From, After, At, Gets, Coded, F.HasLit, F.LitBits, F.Writable, F.PieceBits, Apply, F.LenBase, F.DistBase;
    if ps == [] {
      LitGets(job, pos, lit, dst, last, out, c, 256);
      EndGets(job, pos + |F.LitBits(c, 256)|, lit, dst, last, out);
    } else {
      var x, rest := F.PieceBits(c, ps[0]), F.PiecesBits(c, ps[1..]);
      AtParts(job.I, pos, x, rest);
      assert F.Tokens(ps)[1..] == F.Tokens(ps[1..]);
      PieceGets(job, pos, lit, dst, last, out, c, ps[0]);
      PiecesGet(job, pos + |x|, lit, dst, last, Apply(out, F.TokenOf(ps[0])), c, ps[1..]);
    }
  }

  // ----- the beginning of a block

  lemma TypeGets(job: Job, pos: nat, before: bool, out: seq<byte>, last: bool, t: nat)
    requires Gets(job, State(pos, Type, before, out)) && t < 3 && At(job.I, pos, [last] + F.Number(t, 2))
    ensures Gets(job,
      if t == 0 then State((pos + 3 + 7) / 8 * 8, Lens, last, out)
      else State(pos + 3, if t == 1 then Codes(FIXED_LIT, FIXED_DIST, Start) else Table, last, out))
  {
    hide From, After;
    var a := State(pos, Type, before, out);
    var n: nat :| After(job, n, a);
    AfterType(job, n, a);
    var bits := [last] + F.Number(t, 2);
    assert bits[1..] == F.Number(t, 2);
    ValueNumber(t, 2);
    assert Low(t, 2) == t % 2 + 2 * Low(t / 2, 1);
    assert Low(t / 2, 1) == t / 2 % 2 + 2 * Low(t / 4, 0);
    assert F.Value(bits) == (if last then 1 else 0) + 2 * t;
    GetsAt(job, n + 1, TypeNext(pos, (if last then 1 else 0) + 2 * t, out));
  }

  // ----- stored blocks

  lemma LensGets(job: Job, pos: nat, last: bool, out: seq<byte>, size: nat)
    requires Gets(job, State(pos, Lens, last, out)) && size <= 0xffff
    requires At(job.I, pos, F.Number(size, 16) + F.Number(0xffff - size, 16))
    ensures Gets(job, State(pos + 32, if size > 0 then Stored(size) else AfterBlock(last), last, out))
  {
    hide From, After, At;
    var a := State(pos, Lens, last, out);
    var n: nat :| After(job, n, a);
    AfterLens(job, n, a);
    F.Powers();
    hide Low, F.Number;
    AtParts(job.I, pos, F.Number(size, 16), F.Number(0xffff - size, 16));
    AtNumber(job.I, pos, size, 16);
    AtNumber(job.I, pos + 16, 0xffff - size, 16);
    FromFrom(job.I, pos, 16);
    GetsAt(job, n + 1, State(pos + 32, if size > 0 then Stored(size) else AfterBlock(last), last, out));
  }

  lemma {:induction false} StoredGets(job: Job, pos: nat, last: bool, out: seq<byte>, data: seq<byte>)
    requires data != [] && Gets(job, State(pos, Stored(|data|), last, out)) && At(job.I, pos, F.BytesBits(data))
    ensures Gets(job, State(pos + 8 * |data|, AfterBlock(last), last, out + data))
    decreases |data|
  {
    hide From, Low, After, At;
    var a := State(pos, Stored(|data|), last, out);
    var n: nat :| After(job, n, a);
    ByteFound(job.I, pos, data, 0);
    StoredByte(job, n, a, data[0]);
    if |data| > 1 {
      AtParts(job.I, pos, F.Number(data[0], 8), F.BytesBits(data[1..]));
      GetsAt(job, n + 1, State(pos + 8, Stored(|data| - 1), last, out + [data[0]]));
      StoredGets(job, pos + 8, last, out + [data[0]], data[1..]);
      assert out + [data[0]] + data[1..] == out + data;
    } else {
      assert out + [data[0]] == out + data;
      GetsAt(job, n + 1, State(pos + 8, AfterBlock(last), last, out + data));
    }
  }

  lemma StoredByte(job: Job, n: nat, a: State, b: byte)
    requires After(job, n, a) && a.mode.Stored? && a.mode.left > 0 && Low(From(job.I, a.pos), 8) == b
    ensures After(job, n + 1, State(a.pos + 8,
      if a.mode.left == 1 then AfterBlock(a.last) else Stored(a.mode.left - 1), a.last, a.out + [b]))
  {
    hide Run, From, Low;
    AfterNext(job, n, a);
  }

  lemma RawGets(job: Job, pos: nat, before: bool, out: seq<byte>, data: seq<byte>, fill: nat, last: bool)
    requires Gets(job, State(pos, Type, before, out)) && |data| <= 0xffff
    requires At(job.I, pos, F.BlockBits(pos, F.Raw(data, fill), last))
    ensures Gets(job, State(pos + |F.BlockBits(pos, F.Raw(data, fill), last)|, AfterBlock(last), last, out + data))
  {
    hide From, After, At, Gets, F.Number;
    var gap := F.ToByte(pos + 3);
    var u, v, w, x := [last] + F.Number(0, 2), F.Number(fill, gap),
      F.Number(|data|, 16) + F.Number(0xffff - |data|, 16), F.BytesBits(data);
    assert F.BlockBits(pos, F.Raw(data, fill), last) == u + v + w + x;
    AtParts(job.I, pos, u + v + w, x);
    AtParts(job.I, pos, u + v, w);
    AtParts(job.I, pos, u, v);
    TypeGets(job, pos, before, out, last, 0);
    assert (pos + 3 + 7) / 8 * 8 == pos + |u + v|;
    LensGets(job, pos + |u + v|, last, out, |data|);
    if data == [] {
      assert out + data == out;
    } else {
      StoredGets(job, pos + |u + v + w|, last, out, data);
    }
  }

  // ----- blocks with codes of their own

  /** What inflate accepts besides: the code length code, and the two codes together. */
  ghost predicate Accepted(b: F.Block)
  {
    b.OwnCodes? ==>
      && LengthsOk(b.clens) && !AllZero(b.clens) && Acceptable(b.clens)
      && LengthsOk(b.lit) && LengthsOk(b.dst) && AcceptDynamic(b.lit, b.dst)
  }

  /** The three numbers of a header as one of 14 bits. */
  function TableOf(b: F.Block): nat
    requires b.OwnCodes? && F.HeaderOk(b)
  {
    F.Value(F.Number(|b.lit| - 257, 5) + F.Number(|b.dst| - 1, 5) + F.Number(b.count - 4, 4))
  }

  lemma ThreeNumbers(x: nat, y: nat, z: nat)
    requires x < 32 && y < 32 && z < 16
    ensures var t := F.Value(F.Number(x, 5) + F.Number(y, 5) + F.Number(z, 4));
            Low(t, 5) == x && Low(Shr(t, 5), 5) == y && Shr(t, 10) == z
  {
    var a, b, c := F.Number(x, 5), F.Number(y, 5), F.Number(z, 4);
    Bits.Powers();
    assert Pow2(4) == 16;
    hide F.Number, F.Value, Low, Shr, Shl;
    ValueNumber(x, 5);
    ValueNumber(y, 5);
    ValueNumber(z, 4);
    Small(x, 5);
    Small(y, 5);
    Small(z, 4);
    ValueConcat(a, b + c);
    ValueConcat(b, c);
    assert a + b + c == a + (b + c);
    var t, u := F.Value(a + b + c), F.Value(b + c);
    Unique(t, u, 5, x);
    Unique(u, z, 5, y);
    ShrShr(t, 5, 5);
  }

  lemma TableIs(b: F.Block)
    requires b.OwnCodes? && F.HeaderOk(b)
    ensures var t := TableOf(b); NumLit(t) == |b.lit| && NumLens(t) == |b.lit| + |b.dst| && Shr(t, 10) == b.count - 4
    ensures Low(TableOf(b), 5) <= 29 && Low(Shr(TableOf(b), 5), 5) <= 29
  {
    ThreeNumbers(|b.lit| - 257, |b.dst| - 1, b.count - 4);
  }

  lemma TableGets(job: Job, pos: nat, last: bool, out: seq<byte>, b: F.Block)
    requires b.OwnCodes? && F.HeaderOk(b) && Gets(job, State(pos, Table, last, out))
    requires At(job.I, pos, F.Number(|b.lit| - 257, 5) + F.Number(|b.dst| - 1, 5) + F.Number(b.count - 4, 4))
    ensures Gets(job, State(pos + 14, BTree(TableOf(b), 0, Repeat<nat>(0, 19)), last, out))
  {
    hide From, After, Low, Shr, F.Number, F.Value, F.HeaderOk;
    TableIs(b);
    var a := State(pos, Table, last, out);
    var n: nat :| After(job, n, a);
    AfterTable(job, n, a);
    GetsAt(job, n + 1, State(pos + 14, BTree(TableOf(b), 0, Repeat<nat>(0, 19)), last, out));
  }

  /** Where the length of code length code j is sent. */
  function PlaceOf(j: nat): nat
    requires j < 19
  {
    if j >= 16 then j - 16 else if j == 0 then 3 else if j >= 8 then 4 + 2 * (j - 8) else 5 + 2 * (7 - j)
  }

  /** The lengths known when the first k are read. */
  function Sent(clens: seq<nat>, k: nat): (s: seq<nat>)
    requires |clens| == 19 && k <= 19
    ensures |s| == 19 && forall j :: 0 <= j < 19 ==> s[j] == if PlaceOf(j) < k then clens[j] else 0
  {
    if k == 0 then Repeat<nat>(0, 19) else Sent(clens, k - 1)[F.Order(k - 1) := clens[F.Order(k - 1)]]
  }

  lemma AllSent(clens: seq<nat>, count: nat)
    requires |clens| == 19 && count <= 19 && forall k :: count <= k < 19 ==> clens[F.Order(k)] == 0
    ensures Sent(clens, count) == clens
  {
    forall j | 0 <= j < 19
      ensures Sent(clens, count)[j] == clens[j]
    {
      assert F.Order(PlaceOf(j)) == j;
    }
  }

  lemma {:induction false} OrderGets(job: Job, pos: nat, last: bool, out: seq<byte>, t: nat, clens: seq<nat>, k: nat,
                                     count: nat)
    requires |clens| == 19 && k <= count <= 19 && Shr(t, 10) == count - 4 && forall i :: 0 <= i < 19 ==> clens[i] < 8
    requires Gets(job, State(pos, BTree(t, k, Sent(clens, k)), last, out))
    requires At(job.I, pos, F.OrderBits(clens, k, count))
    ensures Gets(job, State(pos + 3 * (count - k), BTree(t, count, Sent(clens, count)), last, out))
    decreases count - k
  {
    hide From, After, Gets, Low, Shr, At, Sent, F.Number, F.Order;
    if k < count {
      OrderInside(k);
      AtParts(job.I, pos, F.Number(clens[F.Order(k)], 3), F.OrderBits(clens, k + 1, count));
      OrderOne(job, pos, last, out, t, clens, k);
      OrderGets(job, pos + 3, last, out, t, clens, k + 1, count);
    }
  }

  lemma SentNext(clens: seq<nat>, k: nat)
    requires |clens| == 19 && k < 19
    ensures |Sent(clens, k)| == 19 && F.Order(k) < 19 && BORDER[k] == F.Order(k)
    ensures Sent(clens, k + 1) == Sent(clens, k)[F.Order(k) := clens[F.Order(k)]]
  {
    OrderIs();
  }

  lemma OrderOne(job: Job, pos: nat, last: bool, out: seq<byte>, t: nat, clens: seq<nat>, k: nat)
    requires |clens| == 19 && k < 19 && k < 4 + Shr(t, 10) && forall i :: 0 <= i < 19 ==> clens[i] < 8
    requires Gets(job, State(pos, BTree(t, k, Sent(clens, k)), last, out)) && F.Order(k) < 19
    requires At(job.I, pos, F.Number(clens[F.Order(k)], 3))
    ensures Gets(job, State(pos + 3, BTree(t, k + 1, Sent(clens, k + 1)), last, out))
  {
    hide From, After, Low, Shr, At, Sent, PlaceOf, F.Number, F.Order;
    var a := State(pos, BTree(t, k, Sent(clens, k)), last, out);
    var n: nat :| After(job, n, a);
    F.Powers();
    AtNumber(job.I, pos, clens[F.Order(k)], 3);
    SentNext(clens, k);
    AfterLength(job, n, a);
    GetsAt(job, n + 1, State(pos + 3, BTree(t, k + 1, Sent(clens, k + 1)), last, out));
  }

  lemma OrderInside(k: nat)
    requires k < 19
    ensures F.Order(k) < 19
  {
  }

  lemma TreeGets(job: Job, pos: nat, last: bool, out: seq<byte>, t: nat, clens: seq<nat>, count: nat)
    requires Gets(job, State(pos, BTree(t, count, clens), last, out)) && count >= 4 + Shr(t, 10)
    requires LengthsOk(clens) && !AllZero(clens) && Acceptable(clens)
    ensures Gets(job, State(pos, DTree(t, clens, []), last, out))
  {
    hide After, LengthsOk, AllZero, Acceptable, Shr;
    var a := State(pos, BTree(t, count, clens), last, out);
    var n: nat :| After(job, n, a);
    AfterLengths(job, n, a);
    GetsAt(job, n + 1, State(pos, DTree(t, clens, []), last, out));
  }

  // ----- code lengths

  lemma {:induction false} TimesIs(x: nat, n: nat)
    ensures F.Times(x, n) == Repeat<nat>(x, n)
  {
    if n > 0 {
      TimesIs(x, n - 1);
      assert Repeat<nat>(x, n) == [x] + Repeat<nat>(x, n - 1);
    }
  }

  /** Every item adds to the lengths. */
  lemma {:induction false} ItemsAdd(before: seq<nat>, items: seq<F.Item>)
    requires F.ItemsOk(items, before)
    ensures |before| + |items| <= |F.AfterItems(before, items)|
    decreases |items|
  {
    if items != [] {
      TimesIs(0, if items[0].Length? then 0 else items[0].times);
      if items[0].Again? {
        TimesIs(before[|before| - 1], items[0].times);
      }
      ItemsAdd(F.AfterItem(before, items[0]), items[1..]);
    }
  }

  /** The code of an item's symbol in the stream. */
  lemma ItemFound(I: seq<byte>, pos: nat, clens: seq<nat>, sym: nat)
    requires LengthsOk(clens) && Acceptable(clens) && sym < |clens| && clens[sym] > 0
    requires At(I, pos, F.CodeBits(clens, sym))
    ensures CodeLengthAt(clens, From(I, pos)) == (sym, clens[sym])
  {
    hide From, At, KraftSum, HuftBuild.HasLongCode, F.CodeBits, Pow2;
    SymbolFound(I, pos, clens, sym);
  }

  lemma LengthGets(job: Job, pos: nat, last: bool, out: seq<byte>, t: nat, clens: seq<nat>, lens: seq<nat>, c: nat)
    requires Gets(job, State(pos, DTree(t, clens, lens), last, out)) && |lens| < NumLens(t) && c < 16
    requires LengthsOk(clens) && Acceptable(clens) && c < |clens| && clens[c] > 0
    requires At(job.I, pos, F.CodeBits(clens, c))
    ensures Gets(job, State(pos + clens[c], DTree(t, clens, lens + [c]), last, out))
  {
    hide From, After, At, LengthsOk, Acceptable, F.CodeBits, NumLens, CodeLengthAt;
    ItemFound(job.I, pos, clens, c);
    var a := State(pos, DTree(t, clens, lens), last, out);
    var n: nat :| After(job, n, a);
    AfterCode(job, n, a, c, clens[c]);
    GetsAt(job, n + 1, State(pos + clens[c], DTree(t, clens, lens + [c]), last, out));
  }

  /** The extra bits of a repeat symbol, and its least count. */
  lemma RepeatIs()
    ensures RepeatBits(16) == 2 && RepeatBits(17) == 3 && RepeatBits(18) == 7
    ensures RepeatBase(16) == RepeatBase(17) == 3 && RepeatBase(18) == 11
  {
  }

  lemma RepeatGets(job: Job, pos: nat, last: bool, out: seq<byte>, t: nat, clens: seq<nat>, lens: seq<nat>, c: nat,
                   times: nat)
    requires Gets(job, State(pos, DTree(t, clens, lens), last, out)) && |lens| + times <= NumLens(t) && 0 < times
    requires 16 <= c <= 18 && (c == 16 ==> lens != [])
    requires RepeatBase(c) <= times < RepeatBase(c) + F.Power(RepeatBits(c))
    requires LengthsOk(clens) && Acceptable(clens) && c < |clens| && clens[c] > 0
    requires At(job.I, pos, F.CodeBits(clens, c) + F.Number(times - RepeatBase(c), RepeatBits(c)))
    ensures Gets(job, State(pos + clens[c] + RepeatBits(c),
      DTree(t, clens, lens + F.Times(if c == 16 then lens[|lens| - 1] else 0, times)), last, out))
  {
    hide From, After, Low, At, LengthsOk, Acceptable, NumLens, CodeLengthAt, RepeatBits, RepeatBase, F.Number, F.Power;
    AtParts(job.I, pos, F.CodeBits(clens, c), F.Number(times - RepeatBase(c), RepeatBits(c)));
    ItemFound(job.I, pos, clens, c);
    AtNumber(job.I, pos + clens[c], times - RepeatBase(c), RepeatBits(c));
    var a := State(pos, DTree(t, clens, lens), last, out);
    var n: nat :| After(job, n, a);
    AfterRepeat(job, n, a, c, clens[c], times);
    TimesIs(if c == 16 then lens[|lens| - 1] else 0, times);
    GetsAt(job, n + 1, State(pos + clens[c] + RepeatBits(c),
      DTree(t, clens, lens + F.Times(if c == 16 then lens[|lens| - 1] else 0, times)), last, out));
  }

  lemma ItemGets(job: Job, pos: nat, last: bool, out: seq<byte>, t: nat, clens: seq<nat>, lens: seq<nat>, it: F.Item)
    requires Gets(job, State(pos, DTree(t, clens, lens), last, out)) && F.ItemOk(it, lens)
    requires |lens| < |F.AfterItem(lens, it)| <= NumLens(t)
    requires LengthsOk(clens) && Acceptable(clens) && F.Sendable(clens, [it]) && |clens| == 19
    requires At(job.I, pos, F.ItemBits(clens, it))
    ensures Gets(job, State(pos + |F.ItemBits(clens, it)|, DTree(t, clens, F.AfterItem(lens, it)), last, out))
  {
    hide From, At, Gets, LengthsOk, Acceptable, NumLens, F.Number, F.CodeBits, F.Power, F.Times, F.Sendable;
    OneSendable(clens, it);
    CodeSize(clens, F.Symbol(it));
    if it.Length? {
      assert F.CodeBits(clens, it.n) + [] == F.CodeBits(clens, it.n);
      LengthGets(job, pos, last, out, t, clens, lens, it.n);
    } else {
      F.Powers();
      RepeatIs();
      var c := F.Symbol(it);
      TimesIs(if c == 16 then lens[|lens| - 1] else 0, it.times);
      RepeatGets(job, pos, last, out, t, clens, lens, c, it.times);
    }
  }

  lemma OneSendable(clens: seq<nat>, it: F.Item)
    requires F.Sendable(clens, [it])
    ensures F.Symbol(it) < |clens| && clens[F.Symbol(it)] > 0
  {
    assert [it][0] == it;
  }

  lemma CodeSize(lens: seq<nat>, sym: nat)
    requires sym < |lens|
    ensures |F.CodeBits(lens, sym)| == lens[sym]
  {
  }

  lemma {:induction false} ItemsGet(job: Job, pos: nat, last: bool, out: seq<byte>, t: nat, clens: seq<nat>,
                                    lens: seq<nat>, items: seq<F.Item>)
    requires Gets(job, State(pos, DTree(t, clens, lens), last, out)) && F.ItemsOk(items, lens)
    requires |F.AfterItems(lens, items)| == NumLens(t)
    requires LengthsOk(clens) && Acceptable(clens) && F.Sendable(clens, items) && |clens| == 19
    requires At(job.I, pos, F.ItemsBits(clens, items))
    ensures Gets(job, State(pos + |F.ItemsBits(clens, items)|, DTree(t, clens, F.AfterItems(lens, items)), last, out))
    decreases |items|
  {
    hide From, After, At, Gets, LengthsOk, Acceptable, NumLens, F.ItemBits, F.AfterItem, F.ItemOk;
    if items != [] {
      var x := F.ItemBits(clens, items[0]);
      assert F.Sendable(clens, [items[0]]);
      var lens' := F.AfterItem(lens, items[0]);
      ItemAdds(lens, items[0]);
      ItemsAdd(lens', items[1..]);
      AtParts(job.I, pos, x, F.ItemsBits(clens, items[1..]));
      ItemGets(job, pos, last, out, t, clens, lens, items[0]);
      ItemsGet(job, pos + |x|, last, out, t, clens, lens', items[1..]);
    }
  }

  lemma ItemAdds(lens: seq<nat>, it: F.Item)
    requires F.ItemOk(it, lens)
    ensures |lens| < |F.AfterItem(lens, it)|
  {
    if !it.Length? {
      TimesIs(0, it.times);
      TimesIs(if it.Again? then lens[|lens| - 1] else 0, it.times);
    }
  }

  lemma CodesGet(job: Job, pos: nat, last: bool, out: seq<byte>, b: F.Block)
    requires b.OwnCodes? && F.HeaderOk(b) && Accepted(b)
    requires Gets(job, State(pos, DTree(TableOf(b), b.clens, b.lit + b.dst), last, out))
    ensures Gets(job, InCodes(pos, b.lit, b.dst, Start, last, out))
  {
    hide After, F.HeaderOk, AcceptDynamic, LengthsOk, Acceptable, AllZero, NumLens, NumLit;
    TableIs(b);
    HeaderSizes(b);
    BothOk(b.lit, b.dst);
    var a := State(pos, DTree(TableOf(b), b.clens, b.lit + b.dst), last, out);
    var n: nat :| After(job, n, a);
    AfterTrees(job, n, a);
    assert (b.lit + b.dst)[..|b.lit|] == b.lit && (b.lit + b.dst)[|b.lit|..] == b.dst;
    GetsAt(job, n + 1, InCodes(pos, b.lit, b.dst, Start, last, out));
  }

  lemma HeaderSizes(b: F.Block)
    requires b.OwnCodes? && F.HeaderOk(b)
    ensures |b.lit| <= 286 && |b.dst| <= 30 && |b.clens| == 19 && 4 <= b.count <= 19
  {
  }

  lemma BothOk(a: seq<nat>, b: seq<nat>)
    requires LengthsOk(a) && LengthsOk(b)
    ensures LengthsOk(a + b)
  {
  }

  /** A header written is the header decoded. */
  lemma HeaderGets(job: Job, pos: nat, last: bool, out: seq<byte>, b: F.Block)
    requires b.OwnCodes? && F.HeaderOk(b) && Accepted(b) && Gets(job, State(pos, Table, last, out))
    requires At(job.I, pos, F.HeaderBits(b))
    ensures Gets(job, InCodes(pos + |F.HeaderBits(b)|, b.lit, b.dst, Start, last, out))
  {
    hide From, After, At, Gets, LengthsOk, Acceptable, AllZero, AcceptDynamic, F.Number, F.Sendable, F.ItemsOk,
         F.AfterItems, F.Order, F.OrderBits, F.ItemsBits, TableOf, NumLens, NumLit;
    var x, y, z := F.Number(|b.lit| - 257, 5) + F.Number(|b.dst| - 1, 5) + F.Number(b.count - 4, 4),
      F.OrderBits(b.clens, 0, b.count), F.ItemsBits(b.clens, b.items);
    AtParts(job.I, pos, x + y, z);
    AtParts(job.I, pos, x, y);
    TableIs(b);
    TableGets(job, pos, last, out, b);
    NothingSent(b.clens);
    OrderGets(job, pos + 14, last, out, TableOf(b), b.clens, 0, b.count);
    OrderSize(b.clens, 0, b.count);
    AllSent(b.clens, b.count);
    TreeGets(job, pos + |x + y|, last, out, TableOf(b), b.clens, b.count);
    ItemsGet(job, pos + |x + y|, last, out, TableOf(b), b.clens, [], b.items);
    CodesGet(job, pos + |x + y + z|, last, out, b);
  }

  lemma NothingSent(clens: seq<nat>)
    requires |clens| == 19
    ensures Sent(clens, 0) == Repeat<nat>(0, 19)
  {
  }

  lemma {:induction false} OrderSize(clens: seq<nat>, k: nat, count: nat)
    requires |clens| == 19 && k <= count <= 19
    ensures |F.OrderBits(clens, k, count)| == 3 * (count - k)
    decreases count - k
  {
    if k < count {
      OrderSize(clens, k + 1, count);
    }
  }

  // ----- whole streams

  lemma BlockGets(job: Job, pos: nat, before: bool, out: seq<byte>, b: F.Block, last: bool)
    requires Gets(job, State(pos, Type, before, out)) && F.BlockOk(b) && Accepted(b) && F.BlockNear(out, b, job.W)
    requires At(job.I, pos, F.BlockBits(pos, b, last))
    ensures Gets(job, State(pos + |F.BlockBits(pos, b, last)|, AfterBlock(last), last, F.AfterBlock(out, b)))
  {
    hide From, After, At, Gets, LengthsOk, Acceptable, AllZero, AcceptDynamic, F.Number, F.HeaderOk, F.HeaderBits,
         F.PiecesBits, F.AllWritable, F.Near;
    match b
    case Raw(data, fill) =>
      RawGets(job, pos, before, out, data, fill, last);
    case FixedCodes(pieces) =>
      var x, y := [last] + F.Number(1, 2), F.PiecesBits(F.Fixed, pieces);
      assert F.BlockBits(pos, b, last) == x + y;
      AtParts(job.I, pos, x, y);
      TypeGets(job, pos, before, out, last, 1);
      FixedCoded();
      PiecesGet(job, pos + 3, FIXED_LIT, FIXED_DIST, last, out, F.Fixed, pieces);
    case OwnCodes(lit, dst, _, _, _, pieces) =>
      var x, y, z := [last] + F.Number(2, 2), F.HeaderBits(b), F.PiecesBits(F.Given(lit, dst), pieces);
      assert F.BlockBits(pos, b, last) == x + y + z;
      AtParts(job.I, pos, x + y, z);
      AtParts(job.I, pos, x, y);
      TypeGets(job, pos, before, out, last, 2);
      HeaderGets(job, pos + 3, last, out, b);
      GivenCoded(b);
      PiecesGet(job, pos + |x + y|, lit, dst, last, out, F.Given(lit, dst), pieces);
  }

  lemma GivenCoded(b: F.Block)
    requires b.OwnCodes? && F.HeaderOk(b) && Accepted(b)
    ensures Coded(F.Given(b.lit, b.dst), b.lit, b.dst)
  {
    hide KraftSum, F.Sendable, F.ItemsOk, F.AfterItems, F.Order, HuftBuild.HasLongCode, Pow2;
  }

  ghost predicate AllAccepted(blocks: seq<F.Block>)
  {
    forall k :: 0 <= k < |blocks| ==> Accepted(blocks[k])
  }

  /** Every list of blocks decodes to what it stands for, and ends where its bits end. */
  lemma {:induction false} BlocksGet(job: Job, pos: nat, before: bool, out: seq<byte>, blocks: seq<F.Block>)
    requires blocks != [] && Gets(job, State(pos, Type, before, out))
    requires F.BlocksOk(blocks) && AllAccepted(blocks) && F.AllNear(out, blocks, job.W)
    requires At(job.I, pos, F.BlocksBits(pos, blocks))
    ensures Gets(job, State(pos + |F.BlocksBits(pos, blocks)|, Dry, true, F.Decoded(out, blocks)))
    decreases |blocks|
  {
    hide From, After, At, Gets, Accepted, F.BlockOk, F.BlockBits, F.BlockNear, F.AfterBlock;
    var last := |blocks| == 1;
    var x := F.BlockBits(pos, blocks[0], last);
    var rest := F.BlocksBits(pos + |x|, blocks[1..]);
    AtParts(job.I, pos, x, rest);
    BlockGets(job, pos, before, out, blocks[0], last);
    if last {
      assert blocks[1..] == [] && rest == [];
    } else {
      BlocksGet(job, pos + |x|, last, F.AfterBlock(out, blocks[0]), blocks[1..]);
    }
  }
}
