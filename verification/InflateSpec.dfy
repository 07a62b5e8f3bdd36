/** The decoding process of RFC 1951, one step at a time, on the whole compressed stream.

    There are no buffers here: the stream is given at once, a step reads the bits it needs and
    appends to the output.  `Step` is total, so a stream has exactly one run. */
module InflateSpec {
  import opened Bits
  import opened Sequences
  import opened Canonical
  import opened HuftTable
  import opened InfTrees
  import opened InflateTrees
  import opened Options
  import opened Zlib
  import opened BitInput

  /** Order of the code length code lengths, section 3.2.7. */
  const BORDER: seq<nat> := [16, 17, 18, 0, 8, 7, 9, 6, 10, 5, 11, 4, 12, 3, 13, 2, 14, 1, 15]

  datatype CodesMode =
    | Start                                     // at a literal/length code
    | LenExt(len: nat, get: nat)                // length base known, extra bits next
    | Dist(len: nat)                            // at a distance code
    | DistExt(len: nat, dist: nat, get: nat)    // distance base known, extra bits next
    | Copy(len: nat, dist: nat)                 // len more bytes to repeat
    | Lit(lit: nat)
    | EndOfBlock

  datatype Mode =
    | Type
    | Lens
    | Stored(left: nat)
    | Table
    | BTree(table: nat, index: nat, clens: seq<nat>)
    | DTree(table: nat, clens: seq<nat>, lens: seq<nat>)
    | Codes(lit: seq<nat>, dst: seq<nat>, sub: CodesMode)
    | Dry
    | Done
    | Bad

  /** pos is the next bit to read, last says that this is the last block. */
  datatype State = State(pos: nat, mode: Mode, last: bool, out: seq<byte>)

  /** The lengths of the fixed codes, section 3.2.6. */
  const FIXED_LIT: seq<nat> := Repeat<nat>(8, 144) + Repeat<nat>(9, 112) + Repeat<nat>(7, 24) + Repeat<nat>(8, 8)
  const FIXED_DIST: seq<nat> := Repeat<nat>(5, 30)

  /** The symbol whose code starts stream B. */
  ghost function SymbolAt(lens: seq<nat>, B: nat): Option<nat>
  {
    if exists sym: nat :: StartsWith(lens, sym, B) then
      var sym: nat :| StartsWith(lens, sym, B);
      Some(sym)
    else None
  }

  /** The symbol of the code length code at B and the bits it takes; a code set of a single
      one-bit code stands for its symbol whatever the bit. */
  ghost function CodeLengthAt(clens: seq<nat>, B: nat): (r: (nat, nat))
  {
    match SymbolAt(clens, B)
    case Some(sym) => if sym < |clens| then (sym, clens[sym]) else (0, 0)
    case None =>
      if exists sym: nat :: sym < |clens| && clens[sym] == 1 then
        var sym: nat :| sym < |clens| && clens[sym] == 1;
        (sym, 1)
      else (0, 0)
  }

  /** The number of literal/length and of distance codes in a table header. */
  function NumLit(table: nat): nat
  {
    257 + Low(table, 5)
  }

  function NumDist(table: nat): nat
  {
    1 + Low(Shr(table, 5), 5)
  }

  function NumLens(table: nat): nat
  {
    NumLit(table) + NumDist(table)
  }

  /** How far back a distance reaches in a window of W bytes: it is taken modulo the window. */
  function Reach(W: nat, dist: nat): (r: nat)
    requires 0 < W
    ensures 1 <= r <= W
  {
    if dist == 0 then W else if dist <= W then dist else Reach(W, dist - W)
  }

  /** The byte that lies `dist` back in history H, through a window of W bytes. */
  function Back(H: seq<byte>, W: nat, dist: nat): byte
    requires 0 < W <= |H|
  {
    H[|H| - Reach(W, dist)]
  }

  function AfterBlock(last: bool): Mode
  {
    if last then Dry else Type
  }

  /** What the three header bits t of a block at pos lead to. */
  function TypeNext(pos: nat, t: nat, out: seq<byte>): State
  {
    if t / 2 == 0 then State((pos + 3 + 7) / 8 * 8, Lens, t % 2 == 1, out)
    else State(pos + 3, if t / 2 == 1 then Codes(FIXED_LIT, FIXED_DIST, Start) else if t / 2 == 2 then Table
      else Bad, t % 2 == 1, out)
  }

  function TypeStep(I: seq<byte>, a: State): State
  {
    TypeNext(a.pos, Low(From(I, a.pos), 3), a.out)
  }

  function LensStep(I: seq<byte>, a: State): State
  {
    var B := From(I, a.pos);
    var left := Low(B, 16);
    if Low(Shr(B, 16), 16) != 0xffff - left then a.(mode := Bad)
    else State(a.pos + 32, if left > 0 then Stored(left) else AfterBlock(a.last), a.last, a.out)
  }

  function StoredStep(I: seq<byte>, a: State): State
    requires a.mode.Stored?
  {
    var left := a.mode.left;
    if left == 0 then a.(mode := AfterBlock(a.last))
    else
      State(a.pos + 8, if left == 1 then AfterBlock(a.last)
        else Stored(left - 1), a.last, a.out + [Low(From(I, a.pos), 8) % 256])
  }

  function TableStep(I: seq<byte>, a: State): State
  {
    var t := Low(From(I, a.pos), 14);
    if Low(t, 5) > 29 || Low(Shr(t, 5), 5) > 29 then a.(mode := Bad)
    else a.(pos := a.pos + 14, mode := BTree(t, 0, Repeat<nat>(0, 19)))
  }

  ghost function BTreeStep(I: seq<byte>, a: State): State
    requires a.mode.BTree?
  {
    var BTree(table, index, clens) := a.mode;
    if index < 4 + Shr(table, 10) && index < 19 && |clens| == 19 then
      a.(pos := a.pos + 3, mode := BTree(table, index + 1, clens[BORDER[index] := Low(From(I, a.pos), 3)]))
    else if LengthsOk(clens) && !AllZero(clens) && Acceptable(clens) then a.(mode := DTree(table, clens, []))
    else a.(mode := Bad)
  }

  ghost function DTreeStep(I: seq<byte>, a: State): State
    requires a.mode.DTree?
  {
    var DTree(table, clens, lens) := a.mode;
    var B := From(I, a.pos);
    if |lens| < NumLens(table) then
      var (c, used) := CodeLengthAt(clens, B);
      if c < 16 then a.(pos := a.pos + used, mode := DTree(table, clens, lens + [c]))
      else
        var i, j := if c == 18 then 7 else c - 14, if c == 18 then 11 else 3;
        var n := j + Low(Shr(B, used), i);
        if |lens| + n > NumLens(table) || (c == 16 && lens == []) then a.(mode := Bad)
        else a.(pos := a.pos + used + i,
          mode := DTree(table, clens, lens + Repeat<nat>(if c == 16 then lens[|lens| - 1] else 0, n)))
    else if NumLit(table) <= |lens| && LengthsOk(lens) &&
      AcceptDynamic(lens[..NumLit(table)], lens[NumLit(table)..]) then
      a.(mode := Codes(lens[..NumLit(table)], lens[NumLit(table)..], Start))
    else a.(mode := Bad)
  }

  ghost function CodesStep(I: seq<byte>, W: nat, w0: seq<byte>, a: State): State
    requires a.mode.Codes? && 0 < W <= |w0|
  {
    var Codes(lit, dst, sub) := a.mode;
    var B := From(I, a.pos);
    match sub
    case Start =>
      (match SymbolAt(lit, B)
       case None => a.(mode := Bad)
       case Some(sym) =>
         if |lit| <= sym then a.(mode := Bad)
         else if sym < 256 then a.(pos := a.pos + lit[sym], mode := a.mode.(sub := Lit(sym)))
         else if sym == 256 then a.(pos := a.pos + lit[sym], mode := a.mode.(sub := EndOfBlock))
         else if 257 + |CPLEXT| <= sym || CPLEXT[sym - 257] == 112 then a.(mode := Bad)
         else a.(pos := a.pos + lit[sym], mode := a.mode.(sub := LenExt(CPLENS[sym - 257], CPLEXT[sym - 257]))))
    case LenExt(len, get) => a.(pos := a.pos + get, mode := a.mode.(sub := Dist(len + Low(B, get))))
    case Dist(len) =>
      (match SymbolAt(dst, B)
       case None => a.(mode := Bad)
       case Some(sym) =>
         if |dst| <= sym || |CPDIST| <= sym then a.(mode := Bad)
         else a.(pos := a.pos + dst[sym], mode := a.mode.(sub := DistExt(len, CPDIST[sym], CPDEXT[sym]))))
    case DistExt(len, dist, get) => a.(pos := a.pos + get, mode := a.mode.(sub := Copy(len, dist + Low(B, get))))
    case Copy(len, dist) =>
      if len == 0 then a.(mode := a.mode.(sub := Start))
      else a.(out := a.out + [Back(w0 + a.out, W, dist)], mode := a.mode.(sub := Copy(len - 1, dist)))
    case Lit(c) => a.(out := a.out + [c % 256], mode := a.mode.(sub := Start))
    case EndOfBlock => a.(mode := AfterBlock(a.last))
  }

  /** One step of the decoding process; w0 is the history before the first byte. */
  ghost function Step(I: seq<byte>, W: nat, w0: seq<byte>, a: State): State
    requires 0 < W <= |w0|
  {
    match a.mode
    case Type => TypeStep(I, a)
    case Lens => LensStep(I, a)
    case Stored(_) => StoredStep(I, a)
    case Table => TableStep(I, a)
    case BTree(_, _, _) => BTreeStep(I, a)
    case DTree(_, _, _) => DTreeStep(I, a)
    case Codes(_, _, _) => CodesStep(I, W, w0, a)
    case Dry => a.(mode := Done)
    case Done => a
    case Bad => a
  }

  /** The state after n steps. */
  ghost function Run(I: seq<byte>, W: nat, w0: seq<byte>, start: nat, n: nat): State
    requires 0 < W <= |w0|
  {
    if n == 0 then State(start, Type, false, []) else Step(I, W, w0, Run(I, W, w0, start, n - 1))
  }

  /** A step only appends to the output, and a finished run stays as it is. */
  lemma StepGrows(I: seq<byte>, W: nat, w0: seq<byte>, a: State)
    requires 0 < W <= |w0|
    ensures a.out <= Step(I, W, w0, a).out
    ensures a.mode.Done? ==> Step(I, W, w0, a) == a
  {
  }

  lemma {:induction false} RunGrows(I: seq<byte>, W: nat, w0: seq<byte>, start: nat, n: nat, m: nat)
    requires 0 < W <= |w0| && n <= m
    ensures Run(I, W, w0, start, n).out <= Run(I, W, w0, start, m).out
    ensures Run(I, W, w0, start, n).mode.Done? ==> Run(I, W, w0, start, m) == Run(I, W, w0, start, n)
    decreases m
  {
    if n < m {
      RunGrows(I, W, w0, start, n, m - 1);
      StepGrows(I, W, w0, Run(I, W, w0, start, m - 1));
    }
  }

  /** What is decoded, with which window, from which bit on. */
  datatype Job = Job(I: seq<byte>, W: nat, w0: seq<byte>, start: nat)

  /** After n steps the run is in state a. */
  ghost predicate After(job: Job, n: nat, a: State)
  {
    0 < job.W <= |job.w0| && Run(job.I, job.W, job.w0, job.start, n) == a
  }

  lemma AfterNext(job: Job, n: nat, a: State)
    requires After(job, n, a)
    ensures After(job, n + 1, Step(job.I, job.W, job.w0, a))
  {
  }
}
