/** inffast.c: the decoding loop without checks for the ends of input and output. */
module InflateFast {
  import opened Bits
  import opened Canonical
  import opened HuftTable
  import opened InfTrees
  import opened InflateTrees
  import opened Zlib
  import opened BitInput
  import opened InflateWindow
  import opened InflateSpec
  import opened CodeSteps

  /** GRABBITS: get at least j bits without checking that there is input. */
  method GrabBits(inp: Input, j: nat)
    requires inp.Valid() && j + 7 <= inp.k + 8 * inp.AvailIn()
    modifies inp`p, inp`b, inp`k, inp`stale
    ensures inp.Valid() && inp.Pos() == old(inp.Pos()) && j <= inp.k
    ensures inp.k == old(inp.k) || inp.k < j + 8
    ensures inp.p >= old(inp.p) && inp.k - old(inp.k) == 8 * (inp.p - old(inp.p))
  {
    while inp.k < j
      invariant inp.Valid() && inp.Pos() == old(inp.Pos())
      invariant inp.k == old(inp.k) || inp.k < j + 8
      invariant inp.p >= old(inp.p) && inp.k - old(inp.k) == 8 * (inp.p - old(inp.p))
    {
      inp.Grab();
    }
  }

  /** The decoder stands at entry i on its walk, `used` bits of stream B being used. */
  ghost predicate AtEntry(inp: Input, hp: seq<Huft>, t: nat, bits: nat, B: nat, tree: nat, need: nat, used: nat,
                      fuel: nat, i: nat)
    reads inp
  {
    && inp.Valid() && OnTree(hp, t, bits, tree, need, B, used, fuel) && inp.Rest() == Shr(B, used) &&
      BMAX <= inp.k + used
    && i == tree + Low(Shr(B, used), need) < |hp| && hp[i].bits <= inp.k
  }

  method FirstEntry(inp: Input, hp: seq<Huft>, t: nat, bits: nat) returns (i: nat)
    requires inp.Valid() && inp.k >= BMAX && OnTree(hp, t, bits, t, bits, inp.Rest(), 0, BMAX)
    ensures AtEntry(inp, hp, t, bits, inp.Rest(), t, bits, 0, BMAX, i)
  {
    Lookup(hp, t, bits, t, bits, inp.Rest(), 0, BMAX);
    assert Shr(inp.Rest(), 0) == inp.Rest();
    hide OnTree, Low, Shr, From;
    i := t + inp.Peek(bits);
  }

  method FollowLink(inp: Input, hp: seq<Huft>, ghost t: nat, ghost bits: nat, ghost B: nat, ghost tree: nat,
                    ghost need: nat, ghost used: nat, ghost fuel: nat, i: nat)
    returns (i': nat)
    requires AtEntry(inp, hp, t, bits, B, tree, need, used, fuel, i) && IsLink(hp[i])
    modifies inp`b, inp`k
    ensures fuel > 0 && AtEntry(inp, hp, t, bits, B, i + hp[i].base, hp[i].exop, used + hp[i].bits, fuel - 1, i')
    ensures inp.k == old(inp.k) - hp[i].bits && inp.Pos() == old(inp.Pos()) + hp[i].bits
  {
    hide OnTree, Low, Shr, From, IsLink;
    Lookup(hp, t, bits, tree, need, B, used, fuel);
    ShrShr(B, used, hp[i].bits);
    inp.DumpBits(hp[i].bits);
    Lookup(hp, t, bits, i + hp[i].base, hp[i].exop, B, used + hp[i].bits, fuel - 1);
    i' := i + hp[i].base + inp.Peek(hp[i].exop);
  }

  /** Walk the table at t for the next code and drop its bits. */
  method Decode(inp: Input, hp: seq<Huft>, t: nat, bits: nat, ghost lens: seq<nat>, ghost s: nat, ghost d: seq<nat>,
                ghost e: seq<nat>)
    returns (x: Huft, ghost used: nat)
    requires inp.Valid() && inp.k >= BMAX && Decodes(hp, t, bits, lens, s, d, e)
    modifies inp`b, inp`k
    ensures inp.Valid() && Means(lens, s, d, e, old(inp.Rest()), Found(used, x))
    ensures 1 <= used <= BMAX && inp.k == old(inp.k) - used && inp.Pos() == old(inp.Pos()) + used
  {
    hide OnTree, Means, IsLink, Low, Shr, Walk, Decodes, From;
    ghost var B := inp.Rest();
    ghost var tree: nat, need: nat, fuel: nat := t, bits, BMAX;
    CanStart(hp, t, bits, lens, s, d, e, B);
    used := 0;
    var i: nat := FirstEntry(inp, hp, t, bits);
    while IsLink(hp[i])
      invariant AtEntry(inp, hp, t, bits, B, tree, need, used, fuel, i)
      invariant inp.k == old(inp.k) - used && inp.Pos() == old(inp.Pos()) + used
      decreases fuel
    {
      var link := hp[i];
      var next := FollowLink(inp, hp, t, bits, B, tree, need, used, fuel, i);
      tree, need, used, fuel, i := i + link.base, link.exop, used + link.bits, fuel - 1, next;
    }
    Lookup(hp, t, bits, tree, need, B, used, fuel);
    x := hp[i];
    inp.DumpBits(x.bits);
    used := used + x.bits;
  }

  /** Copy c bytes from window index f on; neither end of the string crosses the end of the window. */
  method CopyRun(inp: Input, win: Window, f: nat, c: nat, ghost start: nat, ghost n: nat, ghost mode: Mode,
                 ghost last: bool)
    returns (ghost mode': Mode)
    requires win.Valid() && 1 <= c <= win.Avail() && mode.Codes? && mode.sub.Copy? && c <= mode.sub.len
    requires Reached(inp, win, start, n, mode, last, 0) && f == Source(win.window.Length, win.write, mode.sub.dist)
    requires f + c <= win.window.Length
    modifies win`write, win`produced, win.window
    ensures win.Valid() && win.Avail() == old(win.Avail()) - c
    ensures mode' == mode.(sub := Copy(mode.sub.len - c, mode.sub.dist))
    ensures Reached(inp, win, start, n + c, mode', last, 0)
    ensures f + c < win.window.Length ==> f + c == Source(win.window.Length, win.write, mode.sub.dist)
    ensures f + c == win.window.Length ==> Source(win.window.Length, win.write, mode.sub.dist) == 0
  {
    hide Reached, Source, Last, Rotated, Between, CheckOf;
    mode' := mode;
    var r, left := f, c;
    while left > 0
      invariant 0 <= left <= c && r == f + (c - left)
      invariant win.Valid() && win.Avail() == old(win.Avail()) - (c - left)
      invariant mode' == mode.(sub := Copy(mode.sub.len - (c - left), mode.sub.dist))
      invariant Reached(inp, win, start, n + (c - left), mode', last, 0)
      invariant r < win.window.Length ==> r == Source(win.window.Length, win.write, mode.sub.dist)
      invariant r == win.window.Length ==> 0 == Source(win.window.Length, win.write, mode.sub.dist)
    {
      SourceMoves(win.window.Length, win.write, mode.sub.dist);
      mode' := CopyByte(inp, win, r, start, n + (c - left), mode', last);
      r := r + 1;
      left := left - 1;
    }
  }

  /** Copy the string of c bytes at distance d, in two parts if it wraps around the window. */
  method CopyString(inp: Input, win: Window, c: nat, d: nat, ghost start: nat, ghost n: nat, ghost mode: Mode,
                    ghost last: bool)
    returns (ghost mode': Mode)
    requires win.Valid() && 3 <= c <= win.Avail() && 1 <= d && mode.Codes? && mode.sub == Copy(c, d)
    requires Reached(inp, win, start, n, mode, last, 0)
    modifies win`write, win`produced, win.window
    ensures win.Valid() && mode' == mode.(sub := Start) && Reached(inp, win, start, n + c + 1, mode', last, 0)
  {
    hide Source, Last, Rotated, Between, CheckOf, After;
    var r := FindSource(win.window.Length, win.write, d);
    if win.write < d {
      var e := win.window.Length - r;
      if c > e {
        mode' := CopyRun(inp, win, r, e, start, n, mode, last);
        mode' := CopyRun(inp, win, 0, c - e, start, n + e, mode', last);
      } else {
        mode' := CopyRun(inp, win, r, c, start, n, mode, last);
      }
    } else {
      mode' := CopyRun(inp, win, r, c, start, n, mode, last);
    }
    CopyStep(JobOf(inp, win, start), n + c, StateOf(inp, win, mode', last, 0));
    mode' := mode.(sub := Start);
  }

  /** Get the next literal/length code and, if it is a length, its extra bits. */
  method GetSymbol(inp: Input, hp: seq<Huft>, tl: nat, bl: nat, ghost job: Job, ghost n: nat, ghost a: State)
    returns (e: nat, c: nat)
    requires inp.Valid() && inp.AvailIn() >= 10 && inp.k <= 27
    requires After(job, n, a) && job.I == inp.I && a.pos == inp.Pos()
    requires a.mode.Codes? && a.mode.sub == Start && |a.mode.lit| <= 288
    requires Decodes(hp, tl, bl, a.mode.lit, 257, CPLENS, CPLEXT)
    modifies inp`p, inp`b, inp`k, inp`stale
    ensures inp.Valid() && inp.k <= 27 && old(inp.p) <= inp.p <= old(inp.p) + 3 && inp.Pos() > old(inp.Pos())
    ensures e == 0 ==> c < 256 && After(job, n + 1, a.(pos := inp.Pos(), mode := a.mode.(sub := Lit(c))))
    ensures e != 0 && Has16(e) ==>
      3 <= c <= 258 && |a.mode.lit| > 257 && After(job, n + 2, a.(pos := inp.Pos(), mode := a.mode.(sub := Dist(c))))
    ensures e != 0 && !Has16(e) ==>
      Has64(e) && After(job, n + 1, if Has32(e) then a.(pos := inp.Pos(), mode := a.mode.(sub := EndOfBlock))
        else a.(mode := Bad))
  {
    hide After, Means, Decodes, Low, From, Shl;
    GrabBits(inp, 20);  // a length code with its extra bits has no more
    var x, used := Decode(inp, hp, tl, bl, a.mode.lit, 257, CPLENS, CPLEXT);
    LitFound(job, n, a, Found(used, x));
    e, c := x.exop, x.base;
    if e != 0 && Has16(e) {
      var j := e % 16;
      ghost var a1 := a.(pos := inp.Pos(), mode := a.mode.(sub := LenExt(x.base, j)));
      assert After(job, n + 1, a1);
      Split(inp.Rest(), j);
      c := x.base + inp.Peek(j);
      LenExtStep(job, n + 1, a1);
      inp.DumpBits(j);
    }
  }

  /** Get the distance that belongs to length c. */
  method GetDistance(inp: Input, hp: seq<Huft>, td: nat, bd: nat, c: nat, ghost job: Job, ghost n: nat, ghost a: State)
    returns (r: Status, d: nat)
    requires inp.Valid() && inp.AvailIn() >= 5 && inp.k <= 27
    requires After(job, n, a) && job.I == inp.I && a.pos == inp.Pos()
    requires a.mode.Codes? && a.mode.sub == Dist(c) && |a.mode.dst| <= 30
    requires Decodes(hp, td, bd, a.mode.dst, 0, CPDIST, CPDEXT)
    modifies inp`p, inp`b, inp`k, inp`stale
    ensures inp.Valid() && inp.k <= 27 && inp.p >= old(inp.p) && inp.Pos() >= old(inp.Pos())
    ensures r == OK || r == DATA_ERROR
    ensures r == OK ==> 1 <= d && After(job, n + 2, a.(pos := inp.Pos(), mode := a.mode.(sub := Copy(c, d))))
    ensures r == DATA_ERROR ==> After(job, n + 1, a.(mode := Bad))
  {
    hide After, Means, Decodes, Low, From;
    d := 0;
    GrabBits(inp, 15);  // nor has a distance code
    var x, used := Decode(inp, hp, td, bd, a.mode.dst, 0, CPDIST, CPDEXT);
    DistFound(job, n, a, Found(used, x));
    if !Has16(x.exop) {
      return DATA_ERROR, 0;
    }
    var e := x.exop % 16;
    ghost var a1 := a.(pos := inp.Pos(), mode := a.mode.(sub := DistExt(c, x.base, e)));
    assert After(job, n + 1, a1);
    GrabBits(inp, e);
    d := x.base + inp.Peek(e);
    DistExtStep(job, n + 1, a1);
    inp.DumpBits(e);
    r := OK;
  }

  /** UNGRAB: give back the whole bytes in the bit buffer that were read since p0. */
  method Ungrab(inp: Input, p0: nat)
    requires inp.Valid() && p0 <= inp.p
    modifies inp`p, inp`k, inp`stale
    ensures inp.Valid() && inp.Pos() == old(inp.Pos()) && p0 <= inp.p <= old(inp.p)
    ensures inp.k <= 7 || inp.p == p0
  {
    var c := inp.p - p0;
    c := if inp.k / 8 < c then inp.k / 8 else c;
    inp.Return(c);
  }

  /** One round of the loop: a literal, or a length/distance pair and its string, or an end. */
  method Round(bl: nat, bd: nat, tl: nat, td: nat, hp: seq<Huft>, inp: Input, win: Window,
               ghost start: nat, ghost n: nat, ghost mode: Mode, ghost last: bool)
    returns (r: Status, ghost n': nat, ghost mode': Mode, ghost back: nat)
    requires inp.Valid() && win.Valid() && inp.k <= 27 && win.Avail() >= 258 && inp.AvailIn() >= 10
    requires mode.Codes? && mode.sub == Start && TablesOk(hp, tl, bl, td, bd, mode.lit, mode.dst)
    requires Reached(inp, win, start, n, mode, last, 0)
    modifies inp`p, inp`b, inp`k, inp`stale, win`write, win`produced, win.window
    ensures inp.Valid() && win.Valid() && inp.k <= 27 && inp.p >= old(inp.p) && inp.Pos() > old(inp.Pos())
    ensures Reached(inp, win, start, n', mode', last, back) && n' > n
    ensures Verdict(r, mode, mode', back)
  {
    hide After, Decodes, Last, Rotated, Between, CheckOf, From;
    ghost var job, a := JobOf(inp, win, start), StateOf(inp, win, mode, last, 0);
    var e, c := GetSymbol(inp, hp, tl, bl, job, n, a);
    if e == 0 {
      LiteralStep(job, n + 1, a.(pos := inp.Pos(), mode := mode.(sub := Lit(c))));
      win.OutByte(c);
      r, n', mode', back := OK, n + 2, mode, 0;
    } else if Has16(e) {
      var d;
      ghost var pos := inp.Pos();
      r, d := GetDistance(inp, hp, td, bd, c, job, n + 2, a.(pos := pos, mode := mode.(sub := Dist(c))));
      if r == OK {
        mode' := CopyString(inp, win, c, d, start, n + 4, mode.(sub := Copy(c, d)), last);
        n', back := n + 4 + c + 1, 0;
      } else {
        mode', n', back := Bad, n + 3, inp.Pos() - pos;
      }
    } else if Has32(e) {
      r, n', mode', back := STREAM_END, n + 1, mode.(sub := EndOfBlock), 0;
    } else {
      r, n', mode', back := DATA_ERROR, n + 1, Bad, inp.Pos() - a.pos;
    }
  }

  /** Z_OK: ready for the next code.  Z_STREAM_END: at the end of the block. */
  ghost predicate Verdict(r: Status, mode: Mode, mode': Mode, back: nat)
    requires mode.Codes?
  {
    match r
    case OK => mode' == mode && back == 0
    case STREAM_END => mode' == mode.(sub := EndOfBlock) && back == 0
    case DATA_ERROR => mode' == Bad
    case _ => false
  }

  /** Decode literals and strings while there is room for the longest string and input for the
      longest pair.  It takes steps of the very run that inflate_codes follows, reads no byte
      beyond the input and leaves no more bits in the buffer than it found. */
  method InflateFast(bl: nat, bd: nat, tl: nat, td: nat, hp: seq<Huft>, inp: Input, win: Window,
                     ghost start: nat, ghost n: nat, ghost mode: Mode, ghost last: bool)
    returns (r: Status, ghost n': nat, ghost mode': Mode, ghost back: nat)
    requires inp.Valid() && win.Valid() && inp.k <= 15 && win.Avail() >= 258 && inp.AvailIn() >= 10
    requires mode.Codes? && mode.sub == Start && TablesOk(hp, tl, bl, td, bd, mode.lit, mode.dst)
    requires Reached(inp, win, start, n, mode, last, 0)
    modifies inp`p, inp`b, inp`k, inp`stale, win`write, win`produced, win.window
    ensures inp.Valid() && win.Valid() && inp.k <= 15 && inp.p >= old(inp.p) && inp.Pos() > old(inp.Pos())
    ensures Reached(inp, win, start, n', mode', last, back) && n' > n
    ensures Verdict(r, mode, mode', back)
  {
    hide After, TablesOk, Last, Rotated, Between, CheckOf, From;
    var p0 := inp.p;
    ghost var pos0 := inp.Pos();
    r, n', mode', back := Round(bl, bd, tl, td, hp, inp, win, start, n, mode, last);
    while r == OK && win.Avail() >= 258 && inp.AvailIn() >= 10
      invariant inp.Valid() && win.Valid() && inp.k <= 27 && inp.p >= p0 && inp.Pos() > pos0
      invariant Reached(inp, win, start, n', mode', last, back) && n' > n
      invariant Verdict(r, mode, mode', back)
      decreases 8 * |inp.input| - inp.Pos()
    {
      r, n', mode', back := Round(bl, bd, tl, td, hp, inp, win, start, n', mode, last);
    }
    Ungrab(inp, p0);
  }
}
