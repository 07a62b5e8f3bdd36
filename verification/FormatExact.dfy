/** The other direction of FormatDecodes: a run that comes to its end has read blocks that are written by the
    rules of RFC 1951, and nothing else. */
module FormatExact {
  import opened Bits
  import opened BitInput
  import opened BlockSteps
  import opened Canonical
  import opened CodeSteps
  import opened DeflateTokens
  import opened FormatBits
  import opened FormatCodes
  import opened FormatDecodes
  import opened InflateFixed
  import opened InflateSpec
  import opened InflateTrees
  import opened InfTrees
  import opened Options
  import opened Sequences
  import opened Zlib
  import F = Format
  import Inflate
  import HuftBuild

  /** The run is in state a after n steps, and has come to its end after m. */
  ghost predicate On(job: Job, n: nat, m: nat, a: State)
  {
    After(job, n, a) && n <= m && Run(job.I, job.W, job.w0, job.start, m).mode.Done?
  }

  /** Such a run does not go bad. */
  lemma Alive(job: Job, n: nat, m: nat, a: State)
    requires On(job, n, m, a)
    ensures !a.mode.Bad? && (!a.mode.Done? ==> n < m) && 0 < job.W <= |job.w0|
  {
    hide Step, From;
    if a.mode.Bad? {
      Inflate.BadStays(job.I, job.W, job.w0, job.start, n, m);
    }
  }

  lemma OnIs(job: Job, n: nat, m: nat, a: State)
    requires On(job, n, m, a)
    ensures After(job, n, a)
  {
  }

  lemma OnNext(job: Job, n: nat, m: nat, a: State, b: State)
    requires On(job, n, m, a) && !a.mode.Done? && After(job, n + 1, b)
    ensures On(job, n + 1, m, b) && n < m && !b.mode.Bad?
  {
    hide Run;
    Alive(job, n, m, a);
    Alive(job, n + 1, m, b);
  }

  // ----- bits that were read

  lemma NumberThere(I: seq<byte>, pos: nat, n: nat)
    ensures At(I, pos, F.Number(Low(From(I, pos), n), n))
  {
    hide From;
    var x := From(I, pos);
    ValueNumber(Low(x, n), n);
    LowLow(x, n, n);
  }

  lemma LowSmall(x: nat, n: nat)
    ensures Low(x, n) < F.Power(n)
  {
    Split(x, n);
    PowerIs(n);
  }

  /** The code of the symbol that was found. */
  lemma CodeThere(I: seq<byte>, pos: nat, lens: seq<nat>, sym: nat)
    requires SymbolAt(lens, From(I, pos)) == Some(sym)
    ensures sym < |lens| && lens[sym] > 0 && At(I, pos, F.CodeBits(lens, sym)) && |F.CodeBits(lens, sym)| == lens[sym]
  {
    hide From, CodeOf, Msb, Low;
    var x, n := From(I, pos), lens[sym];
    assert StartsWith(lens, sym, x);
    ValueCode(CodeOf(lens, sym), n);
    MsbMsb(x, n);
  }

  // ----- the codes of a block

  /** The symbol that is read next. */
  lemma SymbolTaken(job: Job, n: nat, m: nat, a: State, c: F.Coding) returns (sym: nat)
    requires On(job, n, m, a) && a.mode.Codes? && a.mode.sub == Start && Coded(c, a.mode.lit, a.mode.dst)
    ensures sym <= 285 && F.HasLit(c, sym) && At(job.I, a.pos, F.LitBits(c, sym)) && n < m
    ensures On(job, n + 1, m, a.(pos := a.pos + |F.LitBits(c, sym)|, mode := a.mode.(sub := SymbolNext(sym))))
  {
    hide On, After, From, SymbolAt, SymbolNext, CodesStep, At, Coded, F.CodeBits;
    OnIs(job, n, m, a);
    Alive(job, n, m, a);
    AfterCodes(job, n, a);
    var b := CodesStep(job.I, job.W, job.w0, a);
    OnNext(job, n, m, a, b);
    sym := GoodSymbol(job.I, job.W, job.w0, a, c);
    CodeThere(job.I, a.pos, a.mode.lit, sym);
    LitIs(c, a.mode.lit, a.mode.dst, sym);
    LitStep(job.I, job.W, job.w0, a, sym);
  }

  lemma GoodSymbol(I: seq<byte>, W: nat, w0: seq<byte>, a: State, c: F.Coding) returns (sym: nat)
    requires 0 < W <= |w0| && a.mode.Codes? && a.mode.sub == Start && Coded(c, a.mode.lit, a.mode.dst)
    requires !CodesStep(I, W, w0, a).mode.Bad?
    ensures SymbolAt(a.mode.lit, From(I, a.pos)) == Some(sym) && sym <= 285 && F.HasLit(c, sym)
  {
    hide From, KraftSum, Pow2, F.LenBase, F.LenExtra;
    LengthTables();
    var s := SymbolAt(a.mode.lit, From(I, a.pos));
    sym := s.value;
    Found(a.mode.lit, From(I, a.pos));
  }

  lemma Found(lens: seq<nat>, B: nat)
    requires SymbolAt(lens, B).Some?
    ensures SymbolAt(lens, B).value < |lens| && lens[SymbolAt(lens, B).value] > 0
  {
  }

  /** The extra bits of a length. */
  lemma ExtraTaken(job: Job, n: nat, m: nat, a: State) returns (x: nat)
    requires On(job, n, m, a) && a.mode.Codes? && a.mode.sub.LenExt?
    ensures var LenExt(len, get) := a.mode.sub;
            && x < F.Power(get) && At(job.I, a.pos, F.Number(x, get)) && n < m
            && On(job, n + 1, m, a.(pos := a.pos + get, mode := a.mode.(sub := Dist(len + x))))
  {
    hide On, After, From, Low, At;
    OnIs(job, n, m, a);
    LenExtStep(job, n, a);
    x := Low(From(job.I, a.pos), a.mode.sub.get);
    NumberThere(job.I, a.pos, a.mode.sub.get);
    LowSmall(From(job.I, a.pos), a.mode.sub.get);
    OnNext(job, n, m, a, a.(pos := a.pos + a.mode.sub.get, mode := a.mode.(sub := Dist(a.mode.sub.len + x))));
  }

  lemma DistanceTaken(job: Job, n: nat, m: nat, a: State, c: F.Coding) returns (sym: nat)
    requires On(job, n, m, a) && a.mode.Codes? && a.mode.sub.Dist? && Coded(c, a.mode.lit, a.mode.dst)
    ensures sym < 30 && F.HasDist(c, sym) && At(job.I, a.pos, F.DistBits(c, sym)) && n < m
    ensures On(job, n + 1, m, a.(pos := a.pos + |F.DistBits(c, sym)|,
      mode := a.mode.(sub := DistExt(a.mode.sub.len, F.DistBase(sym), F.DistExtra(sym)))))
  {
    hide On, After, From, SymbolAt, CodesStep, At, Coded, F.CodeBits, F.DistBase, F.DistExtra;
    OnIs(job, n, m, a);
    Alive(job, n, m, a);
    AfterCodes(job, n, a);
    OnNext(job, n, m, a, CodesStep(job.I, job.W, job.w0, a));
    sym := GoodDistance(job.I, job.W, job.w0, a, c);
    CodeThere(job.I, a.pos, a.mode.dst, sym);
    DistIs(c, a.mode.lit, a.mode.dst, sym);
  }

  lemma GoodDistance(I: seq<byte>, W: nat, w0: seq<byte>, a: State, c: F.Coding) returns (sym: nat)
    requires 0 < W <= |w0| && a.mode.Codes? && a.mode.sub.Dist? && Coded(c, a.mode.lit, a.mode.dst)
    requires !CodesStep(I, W, w0, a).mode.Bad?
    ensures SymbolAt(a.mode.dst, From(I, a.pos)) == Some(sym) && sym < 30 && F.HasDist(c, sym) && sym < |a.mode.dst|
    ensures CodesStep(I, W, w0, a) == a.(pos := a.pos + a.mode.dst[sym],
      mode := a.mode.(sub := DistExt(a.mode.sub.len, F.DistBase(sym), F.DistExtra(sym))))
  {
    hide From, SymbolAt, KraftSum, Pow2, F.DistBase, F.DistExtra;
    DistanceTables();
    var s := SymbolAt(a.mode.dst, From(I, a.pos));
    sym := s.value;
    Found(a.mode.dst, From(I, a.pos));
  }

  lemma DistExtraTaken(job: Job, n: nat, m: nat, a: State) returns (x: nat)
    requires On(job, n, m, a) && a.mode.Codes? && a.mode.sub.DistExt?
    ensures var DistExt(len, dist, get) := a.mode.sub;
            && x < F.Power(get) && At(job.I, a.pos, F.Number(x, get)) && n < m
            && On(job, n + 1, m, a.(pos := a.pos + get, mode := a.mode.(sub := Copy(len, dist + x))))
  {
    hide On, After, From, Low, At;
    OnIs(job, n, m, a);
    DistExtStep(job, n, a);
    var DistExt(len, dist, get) := a.mode.sub;
    x := Low(From(job.I, a.pos), get);
    NumberThere(job.I, a.pos, get);
    LowSmall(From(job.I, a.pos), get);
    OnNext(job, n, m, a, a.(pos := a.pos + get, mode := a.mode.(sub := Copy(len, dist + x))));
  }

  /** A string is copied, from wherever. */
  lemma {:induction false} CopyTaken(job: Job, n: nat, m: nat, a: State) returns (k: nat, out: seq<byte>)
    requires On(job, n, m, a) && a.mode.Codes? && a.mode.sub.Copy?
    ensures n < k && On(job, k, m, a.(out := out, mode := a.mode.(sub := Start)))
    decreases a.mode.sub.len
  {
    hide On, After, Back;
    var Copy(len, dist) := a.mode.sub;
    OnIs(job, n, m, a);
    Alive(job, n, m, a);
    CopyStep(job, n, a);
    if len == 0 {
      k, out := n + 1, a.out;
      OnNext(job, n, m, a, a.(mode := a.mode.(sub := Start)));
      assert a.(out := out, mode := a.mode.(sub := Start)) == a.(mode := a.mode.(sub := Start));
    } else {
      var b := a.(out := a.out + [Back(job.w0 + a.out, job.W, dist)], mode := a.mode.(sub := Copy(len - 1, dist)));
      OnNext(job, n, m, a, b);
      k, out := CopyTaken(job, n + 1, m, b);
      assert b.(out := out, mode := b.mode.(sub := Start)) == a.(out := out, mode := a.mode.(sub := Start));
    }
  }

  lemma LiteralTaken(job: Job, n: nat, m: nat, a: State, b: byte)
    requires On(job, n, m, a) && a.mode.Codes? && a.mode.sub == Lit(b)
    ensures n < m && On(job, n + 1, m, a.(out := a.out + [b], mode := a.mode.(sub := Start)))
  {
    hide On, After;
    OnIs(job, n, m, a);
    LiteralStep(job, n, a);
    OnNext(job, n, m, a, a.(out := a.out + [b], mode := a.mode.(sub := Start)));
  }

  lemma EndTaken(job: Job, n: nat, m: nat, a: State)
    requires On(job, n, m, a) && a.mode.Codes? && a.mode.sub == EndOfBlock
    ensures n < m && On(job, n + 1, m, a.(mode := AfterBlock(a.last)))
  {
    hide On, After;
    OnIs(job, n, m, a);
    AfterEnd(job, n, a);
    OnNext(job, n, m, a, a.(mode := AfterBlock(a.last)));
  }

  /** What is behind a length symbol. */
  lemma RestTaken(job: Job, n: nat, m: nat, a: State, c: F.Coding, l: nat) returns (k: nat, p: F.Piece, out: seq<byte>)
    requires 257 <= l <= 285 && On(job, n, m, a) && a.mode.Codes? && Coded(c, a.mode.lit, a.mode.dst)
    requires a.mode.sub == LenExt(F.LenBase(l), F.LenExtra(l))
    ensures n < k && p.Reference? && p.lsym == l && F.HasDist(c, p.dsym)
    ensures var bits := F.Number(p.lext, F.LenExtra(l)) + F.DistBits(c, p.dsym) + F.Number(p.dext, F.DistExtra(p.dsym));
            At(job.I, a.pos, bits) &&
            On(job, k, m, a.(pos := a.pos + |bits|, out := out, mode := a.mode.(sub := Start)))
  {
    hide On, After, At, Coded, F.Number, F.LenBase, F.LenExtra, F.DistBase, F.DistExtra, F.HasDist, F.DistBits, F.Power;
    var x := ExtraTaken(job, n, m, a);
    var u := F.Number(x, F.LenExtra(l));
    var b := a.(pos := a.pos + |u|, mode := a.mode.(sub := Dist(F.LenBase(l) + x)));
    var d := DistanceTaken(job, n + 1, m, b, c);
    var v := F.DistBits(c, d);
    var e := b.(pos := b.pos + |v|, mode := b.mode.(sub := DistExt(b.mode.sub.len, F.DistBase(d), F.DistExtra(d))));
    var y := DistExtraTaken(job, n + 2, m, e);
    var w := F.Number(y, F.DistExtra(d));
    var f := e.(pos := e.pos + |w|, mode := e.mode.(sub := Copy(e.mode.sub.len, F.DistBase(d) + y)));
    k, out := CopyTaken(job, n + 3, m, f);
    p := F.Reference(l, x, d, y);
    AtParts(job.I, a.pos, u + v, w);
    AtParts(job.I, a.pos, u, v);
    assert f.(out := out, mode := f.mode.(sub := Start)) ==
      a.(pos := a.pos + |u + v + w|, out := out, mode := a.mode.(sub := Start));
  }

  /** From the first code of a block to its end. */
  lemma {:induction false} PiecesTaken(job: Job, n: nat, m: nat, a: State, c: F.Coding)
    returns (k: nat, ps: seq<F.Piece>, out: seq<byte>)
    requires On(job, n, m, a) && a.mode.Codes? && a.mode.sub == Start && Coded(c, a.mode.lit, a.mode.dst)
    ensures n < k && F.AllWritable(c, ps) && At(job.I, a.pos, F.PiecesBits(c, ps))
    ensures On(job, k, m, State(a.pos + |F.PiecesBits(c, ps)|, AfterBlock(a.last), a.last, out))
    decreases m - n
  {
    hide On, After, At, Coded, F.HasLit, F.HasDist, F.LitBits, F.DistBits, F.Number, F.LenBase, F.LenExtra,
         F.DistExtra, F.Power;
    var sym := SymbolTaken(job, n, m, a, c);
    var x := F.LitBits(c, sym);
    var b := a.(pos := a.pos + |x|, mode := a.mode.(sub := SymbolNext(sym)));
    if sym == 256 {
      EndTaken(job, n + 1, m, b);
      k, ps, out := n + 2, [], a.out;
      assert b.(mode := AfterBlock(b.last)) == State(a.pos + |x|, AfterBlock(a.last), a.last, out);
    } else {
      var p: F.Piece, s: State;
      if sym < 256 {
        p := F.Byte(sym);
        LiteralTaken(job, n + 1, m, b, sym);
        k, s := n + 2, b.(out := b.out + [sym], mode := b.mode.(sub := Start));
      } else {
        var o;
        k, p, o := RestTaken(job, n + 1, m, b, c, sym);
        var bits := F.Number(p.lext, F.LenExtra(sym)) + F.DistBits(c, p.dsym) + F.Number(p.dext, F.DistExtra(p.dsym));
        s := b.(pos := b.pos + |bits|, out := o, mode := b.mode.(sub := Start));
        AtParts(job.I, a.pos, x, bits);
        assert x + bits == F.PieceBits(c, p);
      }
      assert F.Writable(c, p) && At(job.I, a.pos, F.PieceBits(c, p)) && s.pos == a.pos + |F.PieceBits(c, p)|;
      hide F.Writable, F.PieceBits, SymbolNext;
      var k0, rest := k, [];
      Alive(job, k, m, s);
      k, rest, out := PiecesTaken(job, k0, m, s, c);
      ps := [p] + rest;
      assert ps[1..] == rest && ps[0] == p;
      AtParts(job.I, a.pos, F.PieceBits(c, p), F.PiecesBits(c, rest));
    }
  }

  // ----- the beginning of a block

  lemma TypeTaken(job: Job, n: nat, m: nat, pos: nat, before: bool, out: seq<byte>) returns (last: bool, t: nat)
    requires On(job, n, m, State(pos, Type, before, out))
    ensures t < 3 && At(job.I, pos, [last] + F.Number(t, 2)) && n < m
    ensures On(job, n + 1, m,
      if t == 0 then State((pos + 3 + 7) / 8 * 8, Lens, last, out)
      else State(pos + 3, if t == 1 then Codes(FIXED_LIT, FIXED_DIST, Start) else Table, last, out))
  {
    hide On, After, From, At;
    var a := State(pos, Type, before, out);
    OnIs(job, n, m, a);
    AfterType(job, n, a);
    var x := Low(From(job.I, pos), 3);
    OnNext(job, n, m, a, TypeNext(pos, x, out));
    last, t := x % 2 == 1, x / 2;
    LowSmall(From(job.I, pos), 3);
    F.Powers();
    NumberThere(job.I, pos, 3);
    assert F.Number(x, 3) == [x % 2 == 1] + F.Number(x / 2, 2);
  }

  // ----- stored blocks

  lemma {:induction false} StoredTaken(job: Job, n: nat, m: nat, a: State) returns (k: nat, data: seq<byte>)
    requires On(job, n, m, a) && a.mode.Stored? && a.mode.left > 0
    ensures n < k && |data| == a.mode.left && At(job.I, a.pos, F.BytesBits(data))
    ensures On(job, k, m, State(a.pos + |F.BytesBits(data)|, AfterBlock(a.last), a.last, a.out + data))
    decreases a.mode.left
  {
    hide On, After, From, Low, At, F.Number;
    OnIs(job, n, m, a);
    LowSmall(From(job.I, a.pos), 8);
    F.Powers();
    var b: byte := Low(From(job.I, a.pos), 8);
    NumberThere(job.I, a.pos, 8);
    StoredByte(job, n, a, b);
    var s := State(a.pos + 8, if a.mode.left == 1 then AfterBlock(a.last) else Stored(a.mode.left - 1), a.last,
      a.out + [b]);
    OnNext(job, n, m, a, s);
    if a.mode.left == 1 {
      k, data := n + 1, [b];
      assert F.BytesBits(data) == F.Number(b, 8) + F.BytesBits([]) == F.Number(b, 8);
    } else {
      var rest;
      k, rest := StoredTaken(job, n + 1, m, s);
      data := [b] + rest;
      assert data[1..] == rest && a.out + [b] + rest == a.out + data;
      AtParts(job.I, a.pos, F.Number(b, 8), F.BytesBits(rest));
    }
  }

  /** The two lengths. */
  lemma LensTaken(job: Job, n: nat, m: nat, a: State) returns (size: nat)
    requires On(job, n, m, a) && a.mode.Lens?
    ensures size <= 0xffff && At(job.I, a.pos, F.Number(size, 16) + F.Number(0xffff - size, 16)) && n < m
    ensures On(job, n + 1, m, State(a.pos + 32, if size > 0 then Stored(size) else AfterBlock(a.last), a.last, a.out))
  {
    hide On, After, From, Low, Shr, At, F.Number;
    OnIs(job, n, m, a);
    AfterLens(job, n, a);
    OnNext(job, n, m, a, LensStep(job.I, a));
    size := Low(From(job.I, a.pos), 16);
    LowSmall(From(job.I, a.pos), 16);
    F.Powers();
    FromFrom(job.I, a.pos, 16);
    NumberThere(job.I, a.pos, 16);
    NumberThere(job.I, a.pos + 16, 16);
    AtParts(job.I, a.pos, F.Number(size, 16), F.Number(0xffff - size, 16));
  }

  lemma RawTaken(job: Job, n: nat, m: nat, pos: nat, last: bool, out: seq<byte>)
    returns (k: nat, b: F.Block, out': seq<byte>)
    requires On(job, n, m, State((pos + 3 + 7) / 8 * 8, Lens, last, out)) && At(job.I, pos, [last] + F.Number(0, 2))
    ensures n < k && F.BlockOk(b) && Accepted(b) && At(job.I, pos, F.BlockBits(pos, b, last))
    ensures On(job, k, m, State(pos + |F.BlockBits(pos, b, last)|, AfterBlock(last), last, out'))
  {
    hide On, After, From, At, F.Number, F.BytesBits, Low;
    var gap := F.ToByte(pos + 3);
    var p := (pos + 3 + 7) / 8 * 8;
    assert p == pos + 3 + gap;
    var fill := Low(From(job.I, pos + 3), gap);
    NumberThere(job.I, pos + 3, gap);
    var a := State(p, Lens, last, out);
    var size := LensTaken(job, n, m, a);
    var data := [];
    if size > 0 {
      k, data := StoredTaken(job, n + 1, m, State(p + 32, Stored(size), last, out));
      out' := out + data;
    } else {
      k, out' := n + 1, out;
      BytesNone(job.I, p + 32);
    }
    b := F.Raw(data, fill);
    var u, v, w, x := [last] + F.Number(0, 2), F.Number(fill, gap), F.Number(size, 16) + F.Number(0xffff - size, 16),
      F.BytesBits(data);
    AtParts(job.I, pos, u, v);
    AtParts(job.I, pos, u + v, w);
    AtParts(job.I, pos, u + v + w, x);
    assert F.BlockBits(pos, b, last) == u + v + w + x;
  }

  lemma BytesNone(I: seq<byte>, pos: nat)
    ensures At(I, pos, F.BytesBits([])) && F.BytesBits([]) == []
  {
    assert Low(From(I, pos), 0) == 0;
  }

  // ----- blocks with codes of their own

  /** The three numbers of a header; the block's lengths are not known yet. */
  lemma TableTaken(job: Job, n: nat, m: nat, a: State) returns (t: nat)
    requires On(job, n, m, a) && a.mode.Table?
    ensures Low(t, 5) <= 29 && Low(Shr(t, 5), 5) <= 29 && Shr(t, 10) <= 15 && n < m
    ensures At(job.I, a.pos, F.Number(Low(t, 5), 5) + F.Number(Low(Shr(t, 5), 5), 5) + F.Number(Shr(t, 10), 4))
    ensures On(job, n + 1, m, State(a.pos + 14, BTree(t, 0, Repeat<nat>(0, 19)), a.last, a.out))
  {
    hide On, After, From, At, Low, Shr, F.Number;
    OnIs(job, n, m, a);
    AfterTable(job, n, a);
    OnNext(job, n, m, a, TableStep(job.I, a));
    t := Low(From(job.I, a.pos), 14);
    ThreeThere(job.I, a.pos);
  }

  lemma ThreeThere(I: seq<byte>, pos: nat)
    ensures var t := Low(From(I, pos), 14);
            && Shr(t, 10) <= 15
            && At(I, pos, F.Number(Low(t, 5), 5) + F.Number(Low(Shr(t, 5), 5), 5) + F.Number(Shr(t, 10), 4))
  {
    hide From, At, Low, Shr, F.Number;
    var x := From(I, pos);
    var t := Low(x, 14);
    TableNumberBits(x);
    LowLow(x, 5, 14);
    FromFrom(I, pos, 5);
    FromFrom(I, pos, 10);
    ShrLow(x, 5, 14);
    ShrLow(x, 10, 14);
    LowLow(Shr(x, 5), 5, 9);
    NumberThere(I, pos, 5);
    NumberThere(I, pos + 5, 5);
    NumberThere(I, pos + 10, 4);
    var u, v, w := F.Number(Low(t, 5), 5), F.Number(Low(Shr(t, 5), 5), 5), F.Number(Shr(t, 10), 4);
    AtParts(I, pos, u, v);
    AtParts(I, pos, u + v, w);
  }

  /** The first k lengths are read, the others are zero. */
  ghost predicate ReadUpTo(clens: seq<nat>, k: nat)
  {
    |clens| == 19 && (forall i :: 0 <= i < 19 ==> clens[i] < 8) &&
    forall j :: k <= j < 19 ==> clens[F.Order(j)] == 0
  }

  ghost predicate SameUpTo(clens: seq<nat>, read: seq<nat>, k: nat)
  {
    |clens| == |read| == 19 && forall j :: 0 <= j < k && j < 19 ==> clens[F.Order(j)] == read[F.Order(j)]
  }

  lemma OrdersDiffer(i: nat, j: nat)
    requires i < 19 && j < 19 && i != j
    ensures F.Order(i) < 19 && F.Order(j) < 19 && F.Order(i) != F.Order(j)
  {
  }

  lemma ReadMore(clens: seq<nat>, k: nat, x: nat)
    requires ReadUpTo(clens, k) && k < 19 && x < 8
    ensures F.Order(k) < 19 && ReadUpTo(clens[F.Order(k) := x], k + 1)
    ensures SameUpTo(clens[F.Order(k) := x], clens, k)
  {
    hide F.Order;
    OrderInside(k);
    forall j | 0 <= j < 19 && j != k
      ensures F.Order(j) < 19 && F.Order(j) != F.Order(k)
    {
      OrdersDiffer(j, k);
    }
  }

  lemma SameFurther(final: seq<nat>, read: seq<nat>, before: seq<nat>, k: nat)
    requires SameUpTo(final, read, k + 1) && SameUpTo(read, before, k) && k < 19
    ensures SameUpTo(final, before, k) && F.Order(k) < 19 && final[F.Order(k)] == read[F.Order(k)]
  {
  }

  lemma {:induction false} OrderTaken(job: Job, n: nat, m: nat, a: State, count: nat) returns (i: nat, clens: seq<nat>)
    requires On(job, n, m, a) && a.mode.BTree? && ReadUpTo(a.mode.clens, a.mode.index)
    requires a.mode.index <= count == 4 + Shr(a.mode.table, 10) <= 19
    ensures n <= i && ReadUpTo(clens, count) && SameUpTo(clens, a.mode.clens, a.mode.index)
    ensures At(job.I, a.pos, F.OrderBits(clens, a.mode.index, count))
    ensures On(job, i, m, a.(pos := a.pos + |F.OrderBits(clens, a.mode.index, count)|,
      mode := BTree(a.mode.table, count, clens)))
    decreases count - a.mode.index
  {
    hide On, After, From, At, Low, Shr, ReadUpTo, SameUpTo, F.Number, F.Order;
    var BTree(t, k, read) := a.mode;
    if k == count {
      i, clens := n, read;
      NothingRead(job.I, a.pos, clens, count);
    } else {
      var x := Low(From(job.I, a.pos), 3);
      OrderInside(k);
      var read' := OneTaken(job, n, m, a);
      var b := a.(pos := a.pos + 3, mode := BTree(t, k + 1, read'));
      i, clens := OrderTaken(job, n + 1, m, b, count);
      SameFurther(clens, read', read, k);
      NumberThere(job.I, a.pos, 3);
      AtParts(job.I, a.pos, F.Number(x, 3), F.OrderBits(clens, k + 1, count));
    }
  }

  lemma OneTaken(job: Job, n: nat, m: nat, a: State) returns (read: seq<nat>)
    requires On(job, n, m, a) && a.mode.BTree? && ReadUpTo(a.mode.clens, a.mode.index)
    requires a.mode.index < 4 + Shr(a.mode.table, 10) <= 19
    ensures F.Order(a.mode.index) < |a.mode.clens|
    ensures read == a.mode.clens[F.Order(a.mode.index) := Low(From(job.I, a.pos), 3)]
    ensures ReadUpTo(read, a.mode.index + 1) && SameUpTo(read, a.mode.clens, a.mode.index)
    ensures On(job, n + 1, m, a.(pos := a.pos + 3, mode := BTree(a.mode.table, a.mode.index + 1, read)))
  {
    hide On, After, From, At, Low, Shr, SameUpTo, F.Order;
    var BTree(t, k, clens) := a.mode;
    var x := Low(From(job.I, a.pos), 3);
    LowSmall(From(job.I, a.pos), 3);
    F.Powers();
    ReadMore(clens, k, x);
    OrderIs();
    read := clens[F.Order(k) := x];
    OnIs(job, n, m, a);
    AfterLength(job, n, a);
    OnNext(job, n, m, a, a.(pos := a.pos + 3, mode := BTree(t, k + 1, read)));
  }

  lemma NothingRead(I: seq<byte>, pos: nat, clens: seq<nat>, count: nat)
    requires ReadUpTo(clens, count) && count <= 19
    ensures |clens| == 19 && F.OrderBits(clens, count, count) == [] && At(I, pos, []) && SameUpTo(clens, clens, count)
  {
    assert Low(From(I, pos), 0) == 0;
  }

  lemma ReadNothing()
    ensures ReadUpTo(Repeat<nat>(0, 19), 0)
  {
    forall j | 0 <= j < 19
      ensures F.Order(j) < 19
    {
      OrderInside(j);
    }
  }

  /** The code for code lengths is one that inflate accepts. */
  lemma TreeTaken(job: Job, n: nat, m: nat, a: State)
    requires On(job, n, m, a) && a.mode.BTree? && a.mode.index >= 4 + Shr(a.mode.table, 10)
    requires ReadUpTo(a.mode.clens, a.mode.index)
    ensures LengthsOk(a.mode.clens) && !AllZero(a.mode.clens) && Acceptable(a.mode.clens) && n < m
    ensures On(job, n + 1, m, a.(mode := DTree(a.mode.table, a.mode.clens, [])))
  {
    hide On, After, Shr, AllZero, Acceptable;
    OnIs(job, n, m, a);
    AfterLengths(job, n, a);
    OnNext(job, n, m, a, a.(mode := if !AllZero(a.mode.clens) && Acceptable(a.mode.clens)
      then DTree(a.mode.table, a.mode.clens, []) else Bad));
  }

  // ----- code lengths

  /** What is read next, if the code for code lengths is complete. */
  lemma CodeTaken(I: seq<byte>, pos: nat, clens: seq<nat>) returns (c: nat)
    requires LengthsOk(clens) && KraftSum(clens) == Pow2(BMAX) && |clens| == 19
    ensures c < 19 && clens[c] > 0 && CodeLengthAt(clens, From(I, pos)) == (c, clens[c])
    ensures At(I, pos, F.CodeBits(clens, c)) && |F.CodeBits(clens, c)| == clens[c]
  {
    hide From, KraftSum, Pow2, At, F.CodeBits, LengthsOk;
    CompleteDecodes(clens, From(I, pos));
    c := SymbolAt(clens, From(I, pos)).value;
    CodeThere(I, pos, clens, c);
  }

  /** One item. */
  lemma ItemTaken(job: Job, n: nat, m: nat, a: State) returns (it: F.Item)
    requires On(job, n, m, a) && a.mode.DTree? && |a.mode.lens| < NumLens(a.mode.table) && |a.mode.clens| == 19
    requires LengthsOk(a.mode.clens) && KraftSum(a.mode.clens) == Pow2(BMAX)
    ensures F.ItemOk(it, a.mode.lens) && |F.AfterItem(a.mode.lens, it)| <= NumLens(a.mode.table) && n < m
    ensures F.Sendable(a.mode.clens, [it]) && At(job.I, a.pos, F.ItemBits(a.mode.clens, it))
    ensures On(job, n + 1, m, a.(pos := a.pos + |F.ItemBits(a.mode.clens, it)|,
      mode := DTree(a.mode.table, a.mode.clens, F.AfterItem(a.mode.lens, it))))
  {
    hide On, After, From, At, LengthsOk, KraftSum, Pow2, NumLens, F.CodeBits, CodeLengthAt, F.Number, F.Times, Low,
         RepeatBits, RepeatBase;
    var DTree(t, clens, lens) := a.mode;
    var c := CodeTaken(job.I, a.pos, clens);
    OnIs(job, n, m, a);
    if c < 16 {
      it := F.Length(c);
      AfterCode(job, n, a, c, clens[c]);
      OnNext(job, n, m, a, a.(pos := a.pos + clens[c], mode := DTree(t, clens, lens + [c])));
      assert F.CodeBits(clens, c) + [] == F.CodeBits(clens, c);
    } else {
      it := AgainTaken(job, n, m, a, c);
    }
  }

  lemma AgainTaken(job: Job, n: nat, m: nat, a: State, c: nat) returns (it: F.Item)
    requires On(job, n, m, a) && a.mode.DTree? && |a.mode.lens| < NumLens(a.mode.table) && |a.mode.clens| == 19
    requires 16 <= c <= 18 && a.mode.clens[c] > 0
    requires CodeLengthAt(a.mode.clens, From(job.I, a.pos)) == (c, a.mode.clens[c])
    requires At(job.I, a.pos, F.CodeBits(a.mode.clens, c)) && |F.CodeBits(a.mode.clens, c)| == a.mode.clens[c]
    ensures !it.Length? && F.Symbol(it) == c && F.ItemOk(it, a.mode.lens)
    ensures |F.AfterItem(a.mode.lens, it)| <= NumLens(a.mode.table) && n < m
    ensures At(job.I, a.pos, F.ItemBits(a.mode.clens, it))
    ensures On(job, n + 1, m, a.(pos := a.pos + |F.ItemBits(a.mode.clens, it)|,
      mode := DTree(a.mode.table, a.mode.clens, F.AfterItem(a.mode.lens, it))))
  {
    hide On, After, From, At, NumLens, F.CodeBits, CodeLengthAt, F.Number, F.Times, Low, RepeatBits, RepeatBase,
         F.Power;
    var DTree(t, clens, lens) := a.mode;
    var i, p := RepeatBits(c), a.pos + clens[c];
    var x := Low(From(job.I, p), i);
    var times := RepeatBase(c) + x;
    LowSmall(From(job.I, p), i);
    NumberThere(job.I, p, i);
    RepeatIs();
    F.Powers();
    OnIs(job, n, m, a);
    AfterRepeat(job, n, a, c, clens[c], times);
    var more := Repeat<nat>(if c == 16 then if lens == [] then 0 else lens[|lens| - 1] else 0, times);
    OnNext(job, n, m, a, if |lens| + times > NumLens(t) || (c == 16 && lens == []) then a.(mode := Bad)
      else a.(pos := p + i, mode := DTree(t, clens, lens + more)));
    it := if c == 16 then F.Again(times) else if c == 17 then F.Zeros(times) else F.ManyZeros(times);
    TimesIs(if c == 16 then lens[|lens| - 1] else 0, times);
    AtParts(job.I, a.pos, F.CodeBits(clens, c), F.Number(x, i));
    assert F.ItemBits(clens, it) == F.CodeBits(clens, c) + F.Number(x, i);
  }

  lemma {:induction false} ItemsTaken(job: Job, n: nat, m: nat, a: State) returns (k: nat, items: seq<F.Item>)
    requires On(job, n, m, a) && a.mode.DTree? && |a.mode.lens| <= NumLens(a.mode.table) && |a.mode.clens| == 19
    requires LengthsOk(a.mode.clens) && KraftSum(a.mode.clens) == Pow2(BMAX)
    ensures n <= k && F.ItemsOk(items, a.mode.lens) && F.Sendable(a.mode.clens, items)
    ensures |F.AfterItems(a.mode.lens, items)| == NumLens(a.mode.table)
    ensures At(job.I, a.pos, F.ItemsBits(a.mode.clens, items))
    ensures On(job, k, m, a.(pos := a.pos + |F.ItemsBits(a.mode.clens, items)|,
      mode := DTree(a.mode.table, a.mode.clens, F.AfterItems(a.mode.lens, items))))
    decreases m - n
  {
    hide On, After, From, At, LengthsOk, KraftSum, Pow2, NumLens, F.ItemBits, F.AfterItem, F.ItemOk;
    var DTree(t, clens, lens) := a.mode;
    if |lens| == NumLens(t) {
      k, items := n, [];
      AtNothing(job.I, a.pos);
    } else {
      var it := ItemTaken(job, n, m, a);
      assert [it][0] == it;
      var bits := F.ItemBits(clens, it);
      var rest;
      k, rest := ItemsTaken(job, n + 1, m, a.(pos := a.pos + |bits|, mode := DTree(t, clens, F.AfterItem(lens, it))));
      items := [it] + rest;
      assert items[1..] == rest && items[0] == it && [it][0] == it;
      AtParts(job.I, a.pos, bits, F.ItemsBits(clens, rest));
    }
  }

  lemma AtNothing(I: seq<byte>, pos: nat)
    ensures At(I, pos, [])
  {
    assert Low(From(I, pos), 0) == 0;
  }

  /** Both codes are accepted. */
  lemma CodesTaken(job: Job, n: nat, m: nat, a: State)
    requires On(job, n, m, a) && a.mode.DTree? && |a.mode.lens| == NumLens(a.mode.table)
    ensures NumLit(a.mode.table) <= |a.mode.lens| && n < m
    ensures var lit, dst := a.mode.lens[..NumLit(a.mode.table)], a.mode.lens[NumLit(a.mode.table)..];
            && LengthsOk(lit) && LengthsOk(dst) && AcceptDynamic(lit, dst)
            && On(job, n + 1, m, State(a.pos, Codes(lit, dst, Start), a.last, a.out))
  {
    hide On, After, Run, From, Low, Shr, AcceptDynamic;
    OnIs(job, n, m, a);
    Alive(job, n, m, a);
    AfterNext(job, n, a);
    OnNext(job, n, m, a, Step(job.I, job.W, job.w0, a));
  }

  // ----- a code for code lengths with a single symbol

  /** All lengths are x. */
  ghost predicate Constant(lens: seq<nat>, x: nat)
  {
    forall i :: 0 <= i < |lens| ==> lens[i] == x
  }

  lemma ConstantIs(lens: seq<nat>, x: nat)
    requires Constant(lens, x)
    ensures lens == Repeat<nat>(x, |lens|)
  {
  }

  /** There is no code that gives from 257 to 286 symbols one length. */
  lemma ConstantFails(lens: seq<nat>, x: nat)
    requires Constant(lens, x) && 257 <= |lens| <= 286 && LengthsOk(lens) && !AllZero(lens)
    ensures !Acceptable(lens)
  {
    hide KraftSum, Pow2, HuftBuild.HasLongCode;
    ConstantIs(lens, x);
    LongIf(lens, x);
    assert [] + lens == lens;
    KraftFill([], |lens|, x);
    NothingSums();
    TooMany(|lens|, x);
  }

  lemma NothingSums()
    ensures KraftSum([]) == 0
  {
  }

  lemma LongIf(lens: seq<nat>, x: nat)
    requires Constant(lens, x) && lens != [] && LengthsOk(lens) && !AllZero(lens)
    ensures 1 <= x <= BMAX && (x > 1 ==> HuftBuild.HasLongCode(lens))
  {
    assert lens[0] == x;
  }

  lemma TooMany(n: nat, x: nat)
    requires 257 <= n <= 286 && 1 <= x <= BMAX
    ensures n * Pow2(BMAX - x) != Pow2(BMAX) && (x == 1 ==> n * Pow2(BMAX - x) > Pow2(BMAX))
  {
    SomePowers();
    hide Pow2;
    if x <= 8 {
      Pow2Mono(7, BMAX - x);
      Times(n, 257, Pow2(BMAX - x), 128);
    } else {
      Pow2Mono(BMAX - x, 6);
      Times(286, n, 64, Pow2(BMAX - x));
    }
  }

  lemma SomePowers()
    ensures Pow2(15) == 32768 && Pow2(7) == 128 && Pow2(6) == 64
  {
    assert Pow2(12) == 4096;
  }

  lemma Times(a: nat, b: nat, c: nat, d: nat)
    requires b <= a && d <= c
    ensures b * d <= a * c
  {
    assert b * d <= a * d;
    assert a * (c - d) >= 0;
  }

  lemma {:induction false} KraftOne(lens: seq<nat>, i: nat)
    requires LengthsOk(lens) && i < |lens| && lens[i] == 1
    ensures KraftSum(lens) >= Pow2(14)
  {
    hide Pow2;
    if i < |lens| - 1 {
      KraftOne(lens[..|lens| - 1], i);
    }
  }

  lemma {:induction false} KraftTwo(lens: seq<nat>, i: nat, j: nat)
    requires LengthsOk(lens) && i < j < |lens| && lens[i] == lens[j] == 1
    ensures KraftSum(lens) >= 2 * Pow2(14)
  {
    hide Pow2;
    if j < |lens| - 1 {
      KraftTwo(lens[..|lens| - 1], i, j);
    } else {
      KraftOne(lens[..|lens| - 1], i);
    }
  }

  /** Only symbol sym has a code, of one bit. */
  ghost predicate Sole(clens: seq<nat>, sym: nat)
  {
    sym < |clens| == 19 && clens[sym] == 1 && forall i :: 0 <= i < 19 && i != sym ==> clens[i] == 0
  }

  lemma SoleSymbol(clens: seq<nat>) returns (sym: nat)
    requires LengthsOk(clens) && |clens| == 19 && !AllZero(clens) && Acceptable(clens) && KraftSum(clens) != Pow2(BMAX)
    ensures Sole(clens, sym)
  {
    assert Pow2(15) == 2 * Pow2(14);
    hide KraftSum, Pow2;
    sym :| sym < 19 && clens[sym] != 0;
    forall i: nat | i < 19 && i != sym
      ensures clens[i] == 0
    {
      if clens[i] == 1 && clens[sym] == 1 {
        KraftTwo(clens, if i < sym then i else sym, if i < sym then sym else i);
      }
    }
  }

  lemma SoleFound(clens: seq<nat>, sym: nat, B: nat)
    requires Sole(clens, sym)
    ensures CodeLengthAt(clens, B) == (sym, 1)
  {
    hide CodeOf, Msb;
    if SymbolAt(clens, B).Some? {
      Found(clens, B);
    }
  }

  /** The length that such a code sends again and again. */
  function SoleLength(sym: nat): nat
  {
    if sym < 16 then sym else 0
  }

  lemma {:induction false} SoleFails(job: Job, n: nat, m: nat, a: State, sym: nat)
    requires a.mode.DTree? && Sole(a.mode.clens, sym)
    requires |a.mode.lens| <= NumLens(a.mode.table) && Low(a.mode.table, 5) <= 29
    requires Constant(a.mode.lens, SoleLength(sym)) && (sym == 16 ==> a.mode.lens == [])
    ensures !On(job, n, m, a)
    decreases m - n
  {
    hide On, After, From, NumLens, CodeLengthAt, Sole, Low, RepeatBits, RepeatBase, Constant;
    var DTree(t, clens, lens) := a.mode;
    if |lens| == NumLens(t) {
      SoleEnds(job, n, m, a, sym);
    } else if On(job, n, m, a) {
      SoleFound(clens, sym, From(job.I, a.pos));
      var b := SoleGoesOn(job, n, m, a, sym);
      SoleFails(job, n + 1, m, b, sym);
    }
  }

  lemma SoleEnds(job: Job, n: nat, m: nat, a: State, sym: nat)
    requires a.mode.DTree? && |a.mode.lens| == NumLens(a.mode.table)
    requires Low(a.mode.table, 5) <= 29 && Constant(a.mode.lens, SoleLength(sym))
    ensures !On(job, n, m, a)
  {
    hide On, After, From, NumLens, Low, Acceptable;
    if On(job, n, m, a) {
      CodesTaken(job, n, m, a);
      ConstantFails(a.mode.lens[..NumLit(a.mode.table)], SoleLength(sym));
    }
  }

  lemma SoleGoesOn(job: Job, n: nat, m: nat, a: State, sym: nat) returns (b: State)
    requires On(job, n, m, a) && a.mode.DTree? && CodeLengthAt(a.mode.clens, From(job.I, a.pos)) == (sym, 1)
    requires |a.mode.lens| < NumLens(a.mode.table)
    requires Constant(a.mode.lens, SoleLength(sym)) && (sym == 16 ==> a.mode.lens == [])
    ensures n < m && On(job, n + 1, m, b) && b.mode.DTree? && b.mode.clens == a.mode.clens
    ensures b.mode.table == a.mode.table && |b.mode.lens| <= NumLens(b.mode.table)
    ensures Constant(b.mode.lens, SoleLength(sym)) && (sym == 16 ==> b.mode.lens == [])
  {
    hide On, After, From, NumLens, CodeLengthAt, Low, RepeatBits, RepeatBase;
    var DTree(t, clens, lens) := a.mode;
    OnIs(job, n, m, a);
    if sym < 16 {
      b := a.(pos := a.pos + 1, mode := DTree(t, clens, lens + [sym]));
      AfterCode(job, n, a, sym, 1);
    } else {
      var times := RepeatBase(sym) + Low(From(job.I, a.pos + 1), RepeatBits(sym));
      AfterRepeat(job, n, a, sym, 1, times);
      b := if |lens| + times > NumLens(t) || (sym == 16 && lens == []) then a.(mode := Bad)
        else a.(pos := a.pos + 1 + RepeatBits(sym), mode := a.mode.(lens := lens + Repeat<nat>(0, times)));
    }
    OnNext(job, n, m, a, b);
  }

  // ----- blocks

  /** A header; the pieces of the block follow. */
  lemma HeaderTaken(job: Job, n: nat, m: nat, a: State) returns (k: nat, b: F.Block)
    requires On(job, n, m, a) && a.mode.Table?
    ensures n < k && b.OwnCodes? && b.pieces == [] && F.HeaderOk(b) && Accepted(b)
    ensures At(job.I, a.pos, F.HeaderBits(b))
    ensures On(job, k, m, InCodes(a.pos + |F.HeaderBits(b)|, b.lit, b.dst, Start, a.last, a.out))
  {
    hide On, After, From, At, Low, Shr, KraftSum, Pow2, Acceptable, AllZero, AcceptDynamic, Sole, F.Number, F.Sendable,
         F.ItemsOk, F.AfterItems, F.Order, F.OrderBits, F.ItemsBits;
    var t := TableTaken(job, n, m, a);
    var count := 4 + Shr(t, 10);
    ReadNothing();
    var s := State(a.pos + 14, BTree(t, 0, Repeat<nat>(0, 19)), a.last, a.out);
    var i, clens := OrderTaken(job, n + 1, m, s, count);
    var y := F.OrderBits(clens, 0, count);
    var s2 := s.(pos := s.pos + |y|, mode := BTree(t, count, clens));
    TreeTaken(job, i, m, s2);
    var s3 := s2.(mode := DTree(t, clens, []));
    if KraftSum(clens) != Pow2(BMAX) {
      var sym := SoleSymbol(clens);
      SoleFails(job, i + 1, m, s3, sym);
    }
    var j, items := ItemsTaken(job, i + 1, m, s3);
    var z := F.ItemsBits(clens, items);
    var lens := F.AfterItems([], items);
    var s4 := s3.(pos := s3.pos + |z|, mode := DTree(t, clens, lens));
    CodesTaken(job, j, m, s4);
    k, b := j + 1, F.OwnCodes(lens[..NumLit(t)], lens[NumLit(t)..], clens, count, items, []);
    assert b.lit + b.dst == lens;
    assert F.HeaderOk(b);
    var x := F.Number(Low(t, 5), 5) + F.Number(Low(Shr(t, 5), 5), 5) + F.Number(Shr(t, 10), 4);
    assert F.HeaderBits(b) == x + y + z;
    AtParts(job.I, a.pos, x, y);
    AtParts(job.I, a.pos, x + y, z);
  }

  lemma HeaderSame(b: F.Block, ps: seq<F.Piece>)
    requires b.OwnCodes? && F.HeaderOk(b) && Accepted(b)
    ensures var c := b.(pieces := ps); F.HeaderOk(c) && Accepted(c) && F.HeaderBits(c) == F.HeaderBits(b)
  {
    hide F.Sendable, F.ItemsOk, F.AfterItems, F.Order, F.OrderBits, F.ItemsBits, F.Number, Acceptable, AllZero,
         AcceptDynamic;
  }

  lemma BlockTaken(job: Job, n: nat, m: nat, pos: nat, before: bool, out: seq<byte>)
    returns (k: nat, b: F.Block, last: bool, out': seq<byte>)
    requires On(job, n, m, State(pos, Type, before, out))
    ensures n < k && F.BlockOk(b) && Accepted(b) && At(job.I, pos, F.BlockBits(pos, b, last))
    ensures On(job, k, m, State(pos + |F.BlockBits(pos, b, last)|, AfterBlock(last), last, out'))
  {
    hide On, After, From, At, Accepted, F.Number, F.HeaderOk, F.HeaderBits, F.PiecesBits, F.AllWritable;
    var t;
    last, t := TypeTaken(job, n, m, pos, before, out);
    var x := [last] + F.Number(t, 2);
    if t == 0 {
      k, b, out' := RawTaken(job, n + 1, m, pos, last, out);
    } else if t == 1 {
      b, k, out' := FixedTaken(job, n + 1, m, pos + 3, last, out);
      AtParts(job.I, pos, x, F.PiecesBits(F.Fixed, b.pieces));
      assert F.BlockBits(pos, b, last) == x + F.PiecesBits(F.Fixed, b.pieces);
    } else {
      b, k, out' := OwnTaken(job, n + 1, m, pos + 3, last, out);
      var y, z := F.HeaderBits(b), F.PiecesBits(F.Given(b.lit, b.dst), b.pieces);
      AtParts(job.I, pos, x, y + z);
      assert F.BlockBits(pos, b, last) == x + y + z == x + (y + z);
    }
  }

  lemma FixedTaken(job: Job, n: nat, m: nat, pos: nat, last: bool, out: seq<byte>)
    returns (b: F.Block, k: nat, out': seq<byte>)
    requires On(job, n, m, InCodes(pos, FIXED_LIT, FIXED_DIST, Start, last, out))
    ensures n < k && b.FixedCodes? && F.BlockOk(b) && Accepted(b) && At(job.I, pos, F.PiecesBits(F.Fixed, b.pieces))
    ensures On(job, k, m, State(pos + |F.PiecesBits(F.Fixed, b.pieces)|, AfterBlock(last), last, out'))
  {
    hide On, After, From, At, Coded, F.PiecesBits, F.AllWritable;
    FixedCoded();
    var ps;
    k, ps, out' := PiecesTaken(job, n, m, InCodes(pos, FIXED_LIT, FIXED_DIST, Start, last, out), F.Fixed);
    b := F.FixedCodes(ps);
  }

  lemma OwnTaken(job: Job, n: nat, m: nat, pos: nat, last: bool, out: seq<byte>)
    returns (b: F.Block, k: nat, out': seq<byte>)
    requires On(job, n, m, State(pos, Table, last, out))
    ensures n < k && b.OwnCodes? && F.BlockOk(b) && Accepted(b)
    ensures var bits := F.HeaderBits(b) + F.PiecesBits(F.Given(b.lit, b.dst), b.pieces);
            At(job.I, pos, bits) && On(job, k, m, State(pos + |bits|, AfterBlock(last), last, out'))
  {
    hide On, After, From, At, Accepted, Coded, F.HeaderOk, F.HeaderBits, F.PiecesBits, F.AllWritable;
    var k0, h := HeaderTaken(job, n, m, State(pos, Table, last, out));
    var y := F.HeaderBits(h);
    GivenCoded(h);
    var ps;
    k, ps, out' := PiecesTaken(job, k0, m, InCodes(pos + |y|, h.lit, h.dst, Start, last, out), F.Given(h.lit, h.dst));
    HeaderSame(h, ps);
    b := h.(pieces := ps);
    AtParts(job.I, pos, y, F.PiecesBits(F.Given(h.lit, h.dst), ps));
  }

  /** From the beginning of a block to the end of the data. */
  lemma {:induction false} BlocksTaken(job: Job, n: nat, m: nat, pos: nat, before: bool, out: seq<byte>)
    returns (k: nat, blocks: seq<F.Block>, out': seq<byte>)
    requires On(job, n, m, State(pos, Type, before, out))
    ensures n < k && blocks != [] && F.BlocksOk(blocks) && AllAccepted(blocks)
    ensures At(job.I, pos, F.BlocksBits(pos, blocks))
    ensures On(job, k, m, State(pos + |F.BlocksBits(pos, blocks)|, Dry, true, out'))
    decreases m - n
  {
    hide On, After, From, At, Accepted, F.BlockOk, F.BlockBits;
    var k0, b, last, o := BlockTaken(job, n, m, pos, before, out);
    var x := F.BlockBits(pos, b, last);
    if last {
      k, blocks, out' := k0, [b], o;
      assert blocks[1..] == [];
      assert F.BlocksBits(pos, blocks) == x + F.BlocksBits(pos + |x|, []) == x;
    } else {
      Alive(job, k0, m, State(pos + |x|, Type, last, o));
      var rest;
      k, rest, out' := BlocksTaken(job, k0, m, pos + |x|, last, o);
      blocks := [b] + rest;
      assert blocks[1..] == rest && |blocks| != 1;
      AtParts(job.I, pos, x, F.BlocksBits(pos + |x|, rest));
    }
  }
}
