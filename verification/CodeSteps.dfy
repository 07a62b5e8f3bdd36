/** What infcodes.c and inffast.c have in common: how table entries make the decoder step.

    Both decoders are shown to follow the steps of `InflateSpec`, so they agree with each other. */
module CodeSteps {
  import opened Bits
  import opened Canonical
  import opened HuftTable
  import opened InfTrees
  import opened InflateTrees
  import opened Zlib
  import opened BitInput
  import opened InflateWindow
  import opened InflateSpec

  // ----- what table entries say

  /** e & 16, e & 32 and e & 64 */
  predicate Has16(e: nat) { e / 16 % 2 == 1 }
  predicate Has32(e: nat) { e / 32 % 2 == 1 }
  predicate Has64(e: nat) { e / 64 % 2 == 1 }

  /** The entry found for a stream, told apart as the decoder does. */
  ghost predicate Means(lens: seq<nat>, s: nat, d: seq<nat>, e: seq<nat>, B: nat, f: Found)
  {
    match SymbolAt(lens, B)
    case None => f.entry.exop == INVALID
    case Some(sym) =>
      sym < |lens| && f.used == lens[sym] && f.entry.exop == LeafExop(sym, s, e) && f.entry.base == LeafBase(sym, s, d)
  }

  lemma StreamMeans(hp: seq<Huft>, t: nat, bits: nat, lens: seq<nat>, s: nat, d: seq<nat>, e: seq<nat>, B: nat)
    requires DecodesStream(hp, t, bits, lens, s, d, e, B)
    ensures Walk(hp, t, bits, B, BMAX).Some? && Means(lens, s, d, e, B, Walk(hp, t, bits, B, BMAX).value)
  {
    if exists sym: nat :: StartsWith(lens, sym, B) {
      assert StartsWith(lens, SymbolAt(lens, B).value, B);
    }
  }

  /** A walk that has dropped `dropped` bits and stands at a table of `need` bits. */
  ghost predicate OnTree(hp: seq<Huft>, root: nat, bits: nat, tree: nat, need: nat, B: nat, dropped: nat, fuel: nat)
  {
    var r := Walk(hp, root, bits, B, BMAX);
    var f := Walk(hp, tree, need, Shr(B, dropped), fuel);
    && dropped <= BMAX && r.Some? && f.Some? && r.value == Found(dropped + f.value.used, f.value.entry)
    && StepsOk(hp, tree, need, Shr(B, dropped), bits, BMAX - dropped, fuel)
  }

  lemma AtRoot(hp: seq<Huft>, root: nat, bits: nat, B: nat)
    requires Walk(hp, root, bits, B, BMAX).Some? && StepsOk(hp, root, bits, B, bits, BMAX, BMAX)
    ensures OnTree(hp, root, bits, root, bits, B, 0, BMAX)
  {
    assert Shr(B, 0) == B;
  }

  /** Looking up the next entry either ends the walk or takes it one table further. */
  lemma Lookup(hp: seq<Huft>, root: nat, bits: nat, tree: nat, need: nat, B: nat, dropped: nat, fuel: nat)
    requires OnTree(hp, root, bits, tree, need, B, dropped, fuel)
    ensures var i := tree + Low(Shr(B, dropped), need);
            && i < |hp| && 1 <= hp[i].bits <= need <= bits && dropped + need <= BMAX
            && if IsLink(hp[i]) then fuel > 0 &&
              OnTree(hp, root, bits, i + hp[i].base, hp[i].exop, B, dropped + hp[i].bits, fuel - 1)
               else Walk(hp, root, bits, B, BMAX).value == Found(dropped + hp[i].bits, hp[i])
  {
    hide Walk, StepsOk, Low, IsLink, Shr;
    WalkStep(hp, tree, need, Shr(B, dropped), bits, BMAX - dropped, fuel);
    ShrShr(B, dropped, hp[tree + Low(Shr(B, dropped), need)].bits);
  }

  lemma WalkStep(hp: seq<Huft>, tree: nat, need: nat, S: nat, bits: nat, room: nat, fuel: nat)
    requires Walk(hp, tree, need, S, fuel).Some? && StepsOk(hp, tree, need, S, bits, room, fuel)
    ensures var i, f := tree + Low(S, need), Walk(hp, tree, need, S, fuel).value;
            && i < |hp| && 1 <= hp[i].bits <= need <= bits && need <= room
            && if !IsLink(hp[i]) then f == Found(hp[i].bits, hp[i])
               else
                 && fuel > 0 && StepsOk(hp, i + hp[i].base, hp[i].exop, Shr(S, hp[i].bits), bits, room - hp[i].bits,
                   fuel - 1)
                 && var g := Walk(hp, i + hp[i].base, hp[i].exop, Shr(S, hp[i].bits), fuel - 1);
                 g.Some? && f == Found(g.value.used + hp[i].bits, g.value.entry)
  {
  }

  // ----- single steps of the run

  ghost predicate TablesOk(hp: seq<Huft>, tl: nat, bl: nat, td: nat, bd: nat, lit: seq<nat>, dst: seq<nat>)
  {
    && 1 <= bl <= 9 && bd <= 9 && 257 <= |lit| <= 288 && |dst| <= 30
    && Decodes(hp, tl, bl, lit, 257, CPLENS, CPLEXT)
    && (if bd == 0 then |lit| == 257 else Decodes(hp, td, bd, dst, 0, CPDIST, CPDEXT))
  }

  lemma AfterCodes(job: Job, n: nat, a: State)
    requires After(job, n, a) && a.mode.Codes?
    ensures After(job, n + 1, CodesStep(job.I, job.W, job.w0, a))
  {
    hide TypeStep, LensStep, StoredStep, TableStep, BTreeStep, DTreeStep, CodesStep, Run;
    AfterNext(job, n, a);
  }

  /** What a literal/length symbol looks like to the decoder. */
  ghost predicate LitEntry(sym: nat, e: nat, b: nat)
  {
    if sym < 256 then e == 0 && b == sym
    else if sym == 256 then Has64(e) && Has32(e) && !Has16(e)
    else if 257 + |CPLEXT| <= sym || CPLEXT[sym - 257] == 112 then e == INVALID
    else Has16(e) && e % 16 == CPLEXT[sym - 257] && b == CPLENS[sym - 257] && LengthOk(b, e % 16)
  }

  lemma LitEntries(sym: nat)
    requires sym < 288
    ensures LitEntry(sym, LeafExop(sym, 257, CPLEXT), LeafBase(sym, 257, CPLENS))
  {
    if sym > 256 {
      LengthRange(sym - 257);
    }
  }

  /** What the entry found for a literal/length code makes the decoder do next. */
  ghost predicate LitNext(job: Job, n: nat, a: State, f: Found)
    requires a.mode.Codes?
  {
    var e, b := f.entry.exop, f.entry.base;
    if e == 0 then b < 256 && After(job, n + 1, a.(pos := a.pos + f.used, mode := a.mode.(sub := Lit(b))))
    else if Has16(e) then
      |a.mode.lit| > 257 && LengthOk(b, e % 16) &&
        After(job, n + 1, a.(pos := a.pos + f.used, mode := a.mode.(sub := LenExt(b, e % 16))))
    else if Has32(e) then Has64(e) && After(job, n + 1, a.(pos := a.pos + f.used, mode := a.mode.(sub := EndOfBlock)))
    else Has64(e) && After(job, n + 1, a.(mode := Bad))
  }

  lemma LitFound(job: Job, n: nat, a: State, f: Found)
    requires After(job, n, a) && a.mode.Codes? && a.mode.sub == Start && |a.mode.lit| <= 288
    requires Means(a.mode.lit, 257, CPLENS, CPLEXT, From(job.I, a.pos), f)
    ensures LitNext(job, n, a, f)
  {
    hide LeafExop, LeafBase, LengthOk, Low, Shr, SymbolAt, Step, After;
    AfterCodes(job, n, a);
    match SymbolAt(a.mode.lit, From(job.I, a.pos))
    case None =>
    case Some(sym) => LitEntries(sym);
  }

  /** A length base and its extra bits make a length from 3 to 258. */
  predicate LengthOk(len: nat, get: nat)
  {
    3 <= len && get <= 5 && len + Pow2(get) <= 259
  }

  lemma LengthRange(i: nat)
    requires i < 31
    ensures CPLEXT[i] == 112 || LengthOk(CPLENS[i], CPLEXT[i])
  {
    assert Pow2(0) == 1 && Pow2(1) == 2 && Pow2(2) == 4 && Pow2(3) == 8 && Pow2(4) == 16 && Pow2(5) == 32;
  }

  ghost predicate DistEntry(sym: nat, e: nat, b: nat)
    requires sym < 30
  {
    e != 0 && Has16(e) && e % 16 == CPDEXT[sym] <= 13 && b == CPDIST[sym] && b >= 1
  }

  lemma DistEntries(sym: nat)
    requires sym < 30
    ensures DistEntry(sym, LeafExop(sym, 0, CPDEXT), LeafBase(sym, 0, CPDIST))
  {
  }

  ghost predicate DistNext(job: Job, n: nat, a: State, f: Found)
    requires a.mode.Codes? && a.mode.sub.Dist?
  {
    var e, b := f.entry.exop, f.entry.base;
    e != 0 &&
    if Has16(e) then
      e % 16 <= 13 && b >= 1 && After(job, n + 1,
        a.(pos := a.pos + f.used, mode := a.mode.(sub := DistExt(a.mode.sub.len, b, e % 16))))
    else Has64(e) && After(job, n + 1, a.(mode := Bad))
  }

  lemma DistFound(job: Job, n: nat, a: State, f: Found)
    requires After(job, n, a) && a.mode.Codes? && a.mode.sub.Dist? && |a.mode.dst| <= 30
    requires Means(a.mode.dst, 0, CPDIST, CPDEXT, From(job.I, a.pos), f)
    ensures DistNext(job, n, a, f)
  {
    hide LeafExop, LeafBase, Low, Shr, SymbolAt, Step, After;
    AfterCodes(job, n, a);
    match SymbolAt(a.mode.dst, From(job.I, a.pos))
    case None =>
    case Some(sym) => DistEntries(sym);
  }

  /** Where the byte `dist` before position write of the window lies. */
  function Source(W: nat, write: nat, dist: nat): (f: nat)
    requires 0 < W && write <= W
    ensures f < W
  {
    var r := Reach(W, dist);
    if r <= write then write - r else write + W - r
  }

  /** The window has the byte that the history has at that distance. */
  lemma SourceIsBack(H: seq<byte>, win: seq<byte>, write: nat, dist: nat)
    requires 0 < |win| <= |H| && write <= |win| && Last(H, |win|) == Rotated(win, write)
    ensures win[Source(|win|, write, dist)] == Back(H, |win|, dist)
  {
    var W, r := |win|, Reach(|win|, dist);
    assert Last(H, W)[W - r] == H[|H| - r];
    assert Rotated(win, write)[W - r] == win[Source(W, write, dist)];
  }

  /** After a byte is written the source moves on by one, around the end of the window. */
  lemma SourceMoves(W: nat, write: nat, dist: nat)
    requires 0 < W && write <= W
    ensures write < W ==> Source(W, write + 1, dist) == (var f := Source(W, write, dist) + 1; if f == W then 0 else f)
    ensures write == W ==> Source(W, 0, dist) == Source(W, W, dist)
  {
  }

  /** The entry looked up at a literal/length code leads on to a table or decides what is next. */
  lemma LitLookup(job: Job, n: nat, a: State, hp: seq<Huft>, tl: nat, bl: nat, tree: nat, need: nat, dropped: nat,
                  fuel: nat)
    requires After(job, n, a) && a.mode.Codes? && a.mode.sub == Start && |a.mode.lit| <= 288
    requires Decodes(hp, tl, bl, a.mode.lit, 257, CPLENS, CPLEXT)
    requires OnTree(hp, tl, bl, tree, need, From(job.I, a.pos), dropped, fuel)
    ensures var i := tree + Low(From(job.I, a.pos + dropped), need);
            i < |hp| && 1 <= hp[i].bits <= need <= bl && dropped + need <= BMAX
            && if IsLink(hp[i]) then fuel > 0 &&
              OnTree(hp, tl, bl, i + hp[i].base, hp[i].exop, From(job.I, a.pos), dropped + hp[i].bits, fuel - 1)
               else LitNext(job, n, a, Found(dropped + hp[i].bits, hp[i]))
  {
    hide OnTree, After, Means, LitNext, IsLink, Low, Shr, Decodes;
    var B := From(job.I, a.pos);
    CanStart(hp, tl, bl, a.mode.lit, 257, CPLENS, CPLEXT, B);
    FromFrom(job.I, a.pos, dropped);
    Lookup(hp, tl, bl, tree, need, B, dropped, fuel);
    LitFound(job, n, a, Walk(hp, tl, bl, B, BMAX).value);
  }

  lemma DistLookup(job: Job, n: nat, a: State, hp: seq<Huft>, td: nat, bd: nat, tree: nat, need: nat, dropped: nat,
                   fuel: nat)
    requires After(job, n, a) && a.mode.Codes? && a.mode.sub.Dist? && |a.mode.dst| <= 30
    requires Decodes(hp, td, bd, a.mode.dst, 0, CPDIST, CPDEXT)
    requires OnTree(hp, td, bd, tree, need, From(job.I, a.pos), dropped, fuel)
    ensures var i := tree + Low(From(job.I, a.pos + dropped), need);
            i < |hp| && 1 <= hp[i].bits <= need <= bd && dropped + need <= BMAX
            && if IsLink(hp[i]) then fuel > 0 &&
              OnTree(hp, td, bd, i + hp[i].base, hp[i].exop, From(job.I, a.pos), dropped + hp[i].bits, fuel - 1)
               else DistNext(job, n, a, Found(dropped + hp[i].bits, hp[i]))
  {
    hide OnTree, After, Means, DistNext, IsLink, Low, Shr, Decodes;
    var B := From(job.I, a.pos);
    CanStart(hp, td, bd, a.mode.dst, 0, CPDIST, CPDEXT, B);
    FromFrom(job.I, a.pos, dropped);
    Lookup(hp, td, bd, tree, need, B, dropped, fuel);
    DistFound(job, n, a, Walk(hp, td, bd, B, BMAX).value);
  }

  /** A walk can start at the root of either table. */
  lemma CanStart(hp: seq<Huft>, t: nat, bits: nat, lens: seq<nat>, s: nat, d: seq<nat>, e: seq<nat>, B: nat)
    requires Decodes(hp, t, bits, lens, s, d, e)
    ensures OnTree(hp, t, bits, t, bits, B, 0, BMAX)
    ensures Walk(hp, t, bits, B, BMAX).Some? && Means(lens, s, d, e, B, Walk(hp, t, bits, B, BMAX).value)
  {
    assert DecodesStream(hp, t, bits, lens, s, d, e, B);
    AtRoot(hp, t, bits, B);
    StreamMeans(hp, t, bits, lens, s, d, e, B);
  }

  // ----- steps without a table

  lemma LenExtStep(job: Job, n: nat, a: State)
    requires After(job, n, a) && a.mode.Codes? && a.mode.sub.LenExt?
    ensures var LenExt(len, get) := a.mode.sub;
            After(job, n + 1, a.(pos := a.pos + get, mode := a.mode.(sub := Dist(len + Low(From(job.I, a.pos), get)))))
  {
    hide From, Low, After;
    AfterCodes(job, n, a);
  }

  lemma DistExtStep(job: Job, n: nat, a: State)
    requires After(job, n, a) && a.mode.Codes? && a.mode.sub.DistExt?
    ensures var DistExt(len, dist, get) := a.mode.sub;
            After(job, n + 1, a.(pos := a.pos + get,
              mode := a.mode.(sub := Copy(len, dist + Low(From(job.I, a.pos), get)))))
  {
    hide From, Low, After;
    AfterCodes(job, n, a);
  }

  lemma LiteralStep(job: Job, n: nat, a: State)
    requires After(job, n, a) && a.mode.Codes? && a.mode.sub.Lit?
    ensures After(job, n + 1, a.(out := a.out + [a.mode.sub.lit % 256], mode := a.mode.(sub := Start)))
  {
    hide From, Low, After;
    AfterCodes(job, n, a);
  }

  lemma CopyStep(job: Job, n: nat, a: State)
    requires After(job, n, a) && a.mode.Codes? && a.mode.sub.Copy? && 0 < job.W <= |job.w0|
    ensures var Copy(len, dist) := a.mode.sub;
            After(job, n + 1,
              if len == 0 then a.(mode := a.mode.(sub := Start))
              else a.(out := a.out + [Back(job.w0 + a.out, job.W, dist)], mode := a.mode.(sub := Copy(len - 1, dist))))
  {
    hide From, Low, After, Back;
    AfterCodes(job, n, a);
  }

  // ----- the decoder and the run

  ghost function JobOf(inp: Input, win: Window, start: nat): Job
  {
    Job(inp.I, win.window.Length, win.w0, start)
  }

  /** The decoder's position in the stream, `back` bits before its next bit, and output. */
  ghost function StateOf(inp: Input, win: Window, mode: Mode, last: bool, back: nat): State
    reads inp, win
  {
    State(if back <= inp.Pos() then inp.Pos() - back else 0, mode, last, win.produced)
  }

  /** The decoder, having used `back` bits more, stands where the run stands after n steps. */
  ghost predicate Reached(inp: Input, win: Window, start: nat, n: nat, mode: Mode, last: bool, back: nat)
    reads inp, win
  {
    back <= inp.Pos() && After(JobOf(inp, win, start), n, StateOf(inp, win, mode, last, back))
  }

  /** Write the byte at window index f, a byte of a string that is being copied. */
  method CopyByte(inp: Input, win: Window, f: nat, ghost start: nat, ghost n: nat, ghost mode: Mode,
                  ghost last: bool) returns (ghost mode': Mode)
    requires win.Valid() && win.Avail() > 0 && mode.Codes? && mode.sub.Copy? && mode.sub.len > 0
    requires Reached(inp, win, start, n, mode, last, 0) && f == Source(win.window.Length, win.write, mode.sub.dist)
    modifies win`write, win`produced, win.window
    ensures win.Valid() && win.write == old(win.write) + 1 && win.Avail() == old(win.Avail()) - 1
    ensures mode' == mode.(sub := Copy(mode.sub.len - 1, mode.sub.dist))
    ensures Reached(inp, win, start, n + 1, mode', last, 0)
  {
    hide After, Back, Source, Last, Rotated, CheckOf, Between;
    mode' := mode.(sub := Copy(mode.sub.len - 1, mode.sub.dist));
    SourceIsBack(win.w0 + win.produced, win.window[..], win.write, mode.sub.dist);
    CopyStep(JobOf(inp, win, start), n, StateOf(inp, win, mode, last, 0));
    win.OutByte(win.window[f]);
  }

  /** The window index from which a string at that distance is copied. */
  method FindSource(W: nat, write: nat, dist: nat) returns (f: nat)
    requires write <= W && 0 < W && 1 <= dist
    ensures f == Source(W, write, dist)
    ensures dist <= write ==> f == write - dist
  {
    var g: int := write - dist;
    ghost var d := dist;
    while g < 0
      invariant 1 <= d <= dist && Reach(W, d) == Reach(W, dist)
      invariant g == write - d || (g == write + W - d && write < d <= W)
      decreases -g
    {
      g := g + W;
      if d > W {
        d := d - W;
      }
    }
    f := g;
  }
}
