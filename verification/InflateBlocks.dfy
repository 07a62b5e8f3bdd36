/** infblock.c: the resumable state machine over the blocks of a deflate stream. */
module InflateBlocks {
  import opened Bits
  import opened Sequences
  import opened Canonical
  import opened HuftTable
  import opened HuftBuilder
  import opened InfTrees
  import opened InflateTrees
  import opened Zlib
  import opened BitInput
  import opened InflateWindow
  import opened InflateSpec
  import opened CodeSteps
  import opened BlockSteps
  import opened InflateCodes
  import opened InflateFixed
  import HuftBuild

  datatype BlocksPhase = TYPE | LENS | STORED | TABLE | BTREE | DTREE | CODES | DRY | DONE | BAD

  /** Up to four whole bytes are in the bit buffer. */
  ghost predicate WholeBytes(k: nat)
  {
    k % 8 == 0 && k <= 32
  }

  /** Both counts in a table header are at most 29. */
  ghost predicate TableOk(table: nat)
  {
    Low(table, 5) <= 29 && Low(Shr(table, 5), 5) <= 29 && Shr(table, 10) <= 15
  }

  lemma TableLimits(table: nat)
    requires TableOk(table)
    ensures Shr(table, 10) <= 15 && 257 <= NumLit(table) <= 286 && 1 <= NumDist(table) <= 30
    ensures NumLens(table) == NumLit(table) + NumDist(table)
  {
  }

  /** The code length codes were accepted, and tb and bb are their table. */
  ghost predicate TreesReady(hp: seq<Huft>, tb: nat, bb: nat, clens: seq<nat>)
  {
    && |clens| == 19 && LengthsOk(clens) && !AllZero(clens) && Acceptable(clens)
    && 1 <= bb <= 7 && Decodes(hp, tb, bb, clens, 19, [], []) && HuftBuild.Flat(hp, tb, bb)
  }

  lemma OneByte(I: seq<byte>, input: seq<byte>, p: nat)
    requires input <= I && p < |input|
    ensures p < |I| && input[p..p + 1] == [I[p]]
  {
  }

  lemma ReadyToRead(hp: seq<Huft>, tb: nat, bb: nat, clens: seq<nat>, blens: seq<nat>)
    requires |clens| == 19 && LengthsOk(clens) && !AllZero(clens) && Acceptable(clens)
    requires 1 <= bb <= 7 && Decodes(hp, tb, bb, clens, 19, [], []) && HuftBuild.Flat(hp, tb, bb)
    ensures TreesReady(hp, tb, bb, clens) && ShortEnough(blens, 0)
  {
    hide Decodes, HuftBuild.Flat, Acceptable, AllZero;
  }

  /** The code lengths read so far. */
  ghost predicate ShortEnough(blens: seq<nat>, index: nat)
  {
    forall i :: 0 <= i < index <= |blens| ==> blens[i] <= BMAX
  }

  /** In which order the phases follow each other while no input is used. */
  function PhaseRank(mode: BlocksPhase): nat
  {
    match mode
    case BTREE => 5
    case DTREE => 4
    case CODES => 3
    case TYPE => 2
    case DRY => 1
    case _ => 0
  }

  function PlainMode(mode: BlocksPhase, left: nat): Mode
  {
    match mode
    case TYPE => Type
    case STORED => Stored(left)
    case DRY => Dry
    case _ => Done
  }

  /** inflate_blocks_state with the input and output it works on. */
  class BlocksState {
    const inp: Input
    const win: Window
    const hufts: array<Huft>   // space for the tables of dynamic blocks
    const fixed: array<Huft>   // space for the fixed tables
    var mode: BlocksPhase
    var left: nat              // bytes of a stored block not copied yet
    var table: nat             // the three counts of a dynamic block
    var index: nat             // how many lengths were read
    var blens: seq<nat>        // those lengths
    var bb: nat                // width and place of the table
    var tb: nat                // that decodes them
    var codes: CodesState?     // in a block with codes
    var last: bool             // no block follows this one
    ghost const start: nat
    ghost var n: nat           // steps of the run taken
    ghost var dropped: nat     // bits used after the failing step began
    ghost var clens: seq<nat>  // code length code lengths read so far

    /** inflate_blocks_new, on a stream that starts at the next bit. */
    constructor (inp: Input, win: Window)
      requires inp.Valid() && win.Valid() && inp.k == 0 && win.produced == []
      ensures Valid() && this.inp == inp && this.win == win && start == inp.Pos() && n == 0 && mode == TYPE
      ensures codes == null
      ensures fresh(hufts) && fresh(fixed)
    {
      this.inp, this.win, start := inp, win, inp.Pos();
      hufts := new Huft[MANY](_ => Huft(0, 0, 0));
      fixed := new Huft[MANY](_ => Huft(0, 0, 0));
      mode, left, table, index, blens, bb, tb, codes, last := TYPE, 0, 0, 0, [], 0, 0, null, false;
      n, dropped, clens := 0, 0, [];
    }

    /** The mode of the decoding process that the state stands for, except in CODES. */
    ghost function Sub(): Mode
      reads this
    {
      match mode
      case TYPE => Type
      case LENS => Lens
      case STORED => Stored(left)
      case TABLE => Table
      case BTREE => BTree(table, index, clens)
      case DTREE => DTree(table, clens, if index <= |blens| then blens[..index] else [])
      case CODES => Bad
      case DRY => Dry
      case DONE => Done
      case BAD => Bad
    }

    ghost function Job(): Job
    {
      JobOf(inp, win, start)
    }

    ghost function Now(): State
      reads this, inp, win
    {
      StateOf(inp, win, Sub(), last, dropped)
    }

    ghost predicate CodesOk()
      reads this, inp, win, win.window, codes
    {
      && codes != null && codes.inp == inp && codes.win == win && codes.last == last && codes.start == start &&
        codes.n == n
      && codes.Valid() && (codes.mode == END ==> win.out == win.produced)
    }

    ghost predicate PhaseOk()
      reads this, inp, hufts
    {
      && (mode != BAD ==> dropped == 0)
      && (if mode == LENS then WholeBytes(inp.k) else mode == BAD || inp.k <= 15 || (mode == TABLE && inp.k <= 29))
      && (mode == DRY || mode == DONE ==> inp.k <= 7)
      && (mode == STORED ==> inp.k == 0 && inp.stale == 0 && left > 0)
      && (mode == BTREE ==>
           && TableOk(table) && |blens| == NumLens(table) && index <= 4 + Shr(table, 10)
           && ReadSoFar(blens, clens, index))
      && (mode == DTREE ==> TableOk(table) && |blens| == NumLens(table) && index <= |blens| && TreesReady(hufts[..],
        tb, bb, clens))
      && (mode == DTREE ==> ShortEnough(blens, index))
    }

    ghost predicate Valid()
      reads this, inp, win, win.window, hufts, codes
    {
      && inp.Valid() && win.Valid() && hufts != fixed && MANY <= hufts.Length && MANY <= fixed.Length &&
        dropped <= inp.Pos()
      && if mode == CODES then CodesOk() && dropped == 0
         else After(Job(), n, Now()) && PhaseOk() && (mode == DONE ==> win.out == win.produced)
    }

    ghost predicate Sound()
      reads inp, win, win.window
    {
      inp.Valid() && win.Valid() && hufts != fixed && MANY <= hufts.Length && MANY <= fixed.Length
    }

    /** Valid, except in CODES, in parts. */
    lemma Open()
      requires Valid() && mode != CODES
      ensures Sound() && PhaseOk() && After(Job(), n, Now()) && dropped <= inp.Pos()
      ensures (mode == DONE ==> win.out == win.produced)
    {
      hide PhaseOk, After, Now, Window.Valid, Input.Valid;
    }

    lemma InStream()
      requires Valid()
      ensures inp.Pos() <= 8 * |inp.input|
    {
      hide CodesOk, PhaseOk, After, Window.Valid;
    }

    lemma Close()
      requires Sound() && PhaseOk() && After(Job(), n, Now()) && dropped <= inp.Pos()
      requires (mode == DONE ==> win.out == win.produced)
      requires mode != CODES
      ensures Valid()
    {
      hide PhaseOk, After, Now, Window.Valid, Input.Valid;
    }

    /** What holds between blocks, in a stored block, and at the end. */
    ghost predicate InPlain()
      reads this, inp, win, win.window
    {
      && Sound() && dropped == 0 && inp.k <= (if mode == TYPE then 15 else 7)
      && (mode == STORED ==> inp.k == 0 && inp.stale == 0 && left > 0) && (mode == DONE ==> win.out == win.produced)
      && After(Job(), n, State(inp.Pos(), PlainMode(mode, left), last, win.produced))
    }

    lemma PlainIs()
      requires mode == TYPE || mode == STORED || mode == DRY || mode == DONE
      ensures Valid() <==> InPlain()
    {
      hide After, Window.Valid, Input.Valid, WholeBytes;
    }

    lemma LensIs()
      requires mode == LENS && Sound() && dropped == 0 && WholeBytes(inp.k)
      requires After(Job(), n, State(inp.Pos(), Lens, last, win.produced))
      ensures Valid()
    {
      hide After, Window.Valid, Input.Valid, WholeBytes;
    }

    /** What holds in CODES. */
    lemma CodesIs()
      requires mode == CODES
      ensures Valid() <==> Sound() && CodesOk() && dropped == 0
    {
      hide After, Window.Valid, CodesOk;
    }

    /** What holds in BTREE. */
    ghost predicate InBTree()
      reads this, inp, win, win.window
    {
      && Sound() && mode == BTREE && dropped == 0 && inp.k <= 15
      && TableOk(table) && |blens| == NumLens(table) && index <= 4 + Shr(table, 10) && ReadSoFar(blens, clens, index)
      && After(Job(), n, State(inp.Pos(), BTree(table, index, clens), last, win.produced))
    }

    lemma BTreeIs()
      requires mode == BTREE
      ensures Valid() <==> InBTree()
    {
      hide After, Window.Valid, Input.Valid, TableOk, ReadSoFar, WholeBytes, NumLens;
    }

    /** What holds in DTREE; the last code lengths read took `used` bits. */
    ghost predicate InDTree(used: nat)
      reads this, inp, win, win.window, hufts
    {
      && Sound() && mode == DTREE && dropped == 0 && inp.k <= 15 && used <= inp.Pos()
      && TableOk(table) && |blens| == NumLens(table) && index <= |blens| && TreesReady(hufts[..], tb, bb, clens)
      && ShortEnough(blens, index)
      && After(Job(), n, State(inp.Pos() - used, DTree(table, clens, blens[..index]), last, win.produced))
    }

    lemma DTreeIs()
      requires mode == DTREE
      ensures Valid() <==> InDTree(0)
    {
      hide After, Window.Valid, Input.Valid, TableOk, TreesReady, ShortEnough, WholeBytes, NumLens;
    }

    /** What holds after a failure. */
    lemma BadIs()
      requires Sound() && mode == BAD && dropped <= inp.Pos()
      requires After(Job(), n, State(inp.Pos() - dropped, Bad, last, win.produced))
      ensures Valid()
    {
      hide After, Window.Valid, Input.Valid, WholeBytes;
    }

    /** Start on the codes of a block with fixed codes. */
    method StartFixed()
      requires Sound() && inp.k <= 15 && dropped == 0
      requires After(Job(), n, StateOf(inp, win, Mode.Codes(FIXED_LIT, FIXED_DIST, Start), last, 0))
      modifies this`mode, this`codes, fixed
      ensures Valid() && mode == CODES && fresh(codes)
    {
      hide After, Last, Rotated, Between, CheckOf, From, Decodes, NumLens;
      FixedLengths();
      var bl, bd, tl, td := InflateTreesFixed(fixed);
      codes := new CodesState(bl, bd, tl, td, fixed[..], inp, win, FIXED_LIT, FIXED_DIST, last, start, n);
      mode := CODES;
    }

    method StartStored()
      requires Sound() && inp.k <= 15 && dropped == 0
      requires After(Job(), n, State((inp.Pos() + 7) / 8 * 8, Lens, last, win.produced))
      modifies this`mode, inp`b, inp`k
      ensures Valid() && mode == LENS && inp.Pos() >= old(inp.Pos())
    {
      hide After, From, Valid, PhaseOk, Window.Valid, CodesOk;
      ghost var boundary := (inp.Pos() + 7) / 8 * 8;
      ByteBoundary(inp.p, inp.k);
      inp.DumpBits(inp.k % 8);  // stored blocks begin at a byte
      assert inp.Pos() == boundary;
      mode := LENS;
      LensIs();
    }

    /** Act on the three header bits t of a block. */
    method EnterType(t: nat) returns (bad: bool)
      requires Sound() && inp.k <= 15 && dropped == 0 && mode == TYPE && 3 <= inp.Pos()
      requires After(Job(), n, TypeNext(inp.Pos() - 3, t, win.produced))
      modifies this, inp`b, inp`k, inp`stale, fixed
      ensures Valid() && n == old(n) && (codes == old(codes) || fresh(codes)) && inp.Pos() >= old(inp.Pos())
      ensures (bad ==> mode == BAD)
    {
      hide After, Last, Rotated, Between, CheckOf, From, Low, CodesOk, TreesReady, TableOk, ReadSoFar,
           NumLens;
      bad := false;
      last := t % 2 == 1;
      if t / 2 == 0 {
        StartStored();
      } else if t / 2 == 1 {
        StartFixed();
      } else if t / 2 == 2 {
        mode := TABLE;
      } else {
        mode, bad := BAD, true;
      }
    }

    /** TYPE: block type. */
    method DoType(r: Status) returns (leave: bool, r': Status)
      requires Valid() && mode == TYPE
      modifies this, inp`p, inp`b, inp`k, inp`stale, fixed
      ensures Valid() && inp.p >= old(inp.p) && n >= old(n) && (codes == old(codes) || fresh(codes))
      ensures leave ==> if mode == BAD then r' == DATA_ERROR else mode == TYPE && inp.Lacks(8) && (r' == r || r' == OK)
      ensures !leave ==> inp.Pos() > old(inp.Pos()) && (r' == r || r' == OK)
      ensures inp.Pos() >= old(inp.Pos())
    {
      hide After, Last, Rotated, Between, CheckOf, From, Low, CodesOk, TypeNext, Valid, PhaseOk, Window.Valid;
      PlainIs();
      var ok;
      ok, r' := inp.NeedBits(3, r);
      if !ok {
        PlainIs();
        return true, r';
      }
      AfterType(Job(), n, State(inp.Pos(), Type, last, win.produced));
      var t := inp.Peek(3);
      inp.DumpBits(3);
      n := n + 1;
      leave := EnterType(t);
      if leave {
        r' := DATA_ERROR;
      }
    }

    /** LENS: get the length of a stored block and its complement. */
    method DoLens(r: Status) returns (leave: bool, r': Status)
      requires Valid() && mode == LENS
      modifies this, inp`p, inp`b, inp`k, inp`stale
      ensures Valid() && inp.p >= old(inp.p) && n >= old(n) && codes == old(codes)
      ensures leave ==> if mode == BAD then r' == DATA_ERROR else mode == LENS && inp.Lacks(32) && (r' == r || r' == OK)
      ensures !leave ==> inp.Pos() > old(inp.Pos()) && (r' == r || r' == OK)
      ensures inp.Pos() >= old(inp.Pos())
    {
      hide After, From, CodesOk, Valid, Window.Valid;
      Open();
      var ok;
      ok, r' := inp.NeedBits(32, r);
      Close();
      if !ok {
        return true, r';
      }
      leave := EnterLens();
      if leave {
        r' := DATA_ERROR;
      }
    }

    method EnterLens() returns (bad: bool)
      requires Valid() && mode == LENS && inp.k == 32
      modifies this, inp`b, inp`k, inp`stale
      ensures Valid() && n >= old(n) && codes == old(codes) && inp.Pos() >= old(inp.Pos())
      ensures if bad then mode == BAD else inp.Pos() == old(inp.Pos()) + 32
    {
      hide After, Last, Rotated, Between, CheckOf, From, Low, Shr, CodesOk, TreesReady, TableOk,
           ReadSoFar, NumLens, Valid;
      Open();
      AfterLens(Job(), n, Now());
      var b := inp.Peek(32);
      LensBits(inp.Rest());
      n := n + 1;
      if Shr(b, 16) != 0xffff - Low(b, 16) {
        mode := BAD;
        Close();
        return true;
      }
      left := Low(b, 16);
      inp.DumpAll();
      mode := if left > 0 then STORED else if last then DRY else TYPE;
      Close();
      bad := false;
    }

    /** STORED: copy what input and output allow. */
    method DoStored(r: Status) returns (leave: bool, r': Status)
      requires Valid() && mode == STORED
      modifies this, inp`p, win`read, win`write, win`availOut, win`out, win`check, win`produced, win.window
      ensures Valid() && n >= old(n) && codes == old(codes) && old(win.out) <= win.out && (r' == r || r' == OK)
      ensures leave ==> mode == STORED && (inp.Lacks(8) || win.availOut == 0)
      ensures !leave ==> inp.Pos() > old(inp.Pos())
      ensures inp.Pos() >= old(inp.Pos())
    {
      hide After, Last, Rotated, Between, CheckOf, From, Low, Shr, CodesOk, TreesReady, TableOk,
           ReadSoFar, NumLens;
      if inp.AvailIn() == 0 {
        return true, r;
      }
      var ok;
      ok, r' := win.NeedOut(r);
      if !ok {
        return true, r';
      }
      var t := left;
      t := if t > inp.AvailIn() then inp.AvailIn() else t;
      t := if t > win.Avail() then win.Avail() else t;
      CopyStored(t);
      leave := false;
    }

    /** Copy a byte of a stored block to the window. */
    method StoreByte()
      requires Valid() && mode == STORED && inp.AvailIn() > 0 && win.Avail() > 0
      modifies this`n, this`left, this`mode, inp`p, win`write, win`produced, win.window
      ensures Valid() && n >= old(n) && inp.Pos() == old(inp.Pos()) + 8 && inp.p == old(inp.p) + 1
      ensures win.Avail() == old(win.Avail()) - 1
      ensures left == old(left) - 1 && mode == if left > 0 then STORED else if last then DRY else TYPE
    {
      hide After, Last, Rotated, Between, CheckOf, From, Low, Shr, CodesOk, Valid, PhaseOk;
      PlainIs();
      ghost var job := Job();
      AfterStored(job, n, State(inp.Pos(), Stored(left), last, win.produced), inp.p);
      OneByte(inp.I, inp.input, inp.p);
      var bytes := inp.TakeBytes(1);
      win.OutByte(bytes[0]);
      left, n := left - 1, n + 1;
      if left == 0 {
        mode := if last then DRY else TYPE;
      }
      assert Job() == job && bytes[0] == job.I[old(inp.p)];
      assert After(job, n, State(inp.Pos(), if left == 0 then AfterBlock(last) else Stored(left), last, win.produced));
      assert InPlain();
      PlainIs();
    }

    /** Copy t bytes of a stored block to the window. */
    method CopyStored(t: nat)
      requires Valid() && mode == STORED && 1 <= t <= left && t <= inp.AvailIn() && t <= win.Avail()
      modifies this`n, this`left, this`mode, inp`p, win`write, win`produced, win.window
      ensures Valid() && n >= old(n) && inp.Pos() == old(inp.Pos()) + 8 * t
      ensures mode == if old(left) > t then STORED else if last then DRY else TYPE
    {
      hide PhaseOk, After, CodesOk, Last, Rotated, Between, CheckOf;
      var u := t;
      while u > 0
        invariant 0 <= u <= t && Valid() && n >= old(n) && inp.Pos() == old(inp.Pos()) + 8 * (t - u)
        invariant win.write <= win.window.Length && u <= inp.AvailIn() && u <= win.Avail()
        invariant left == old(left) - (t - u)
        invariant mode == if left > 0 then STORED else if last then DRY else TYPE
      {
        StoreByte();
        u := u - 1;
      }
    }

    /** TABLE: get the numbers of codes. */
    method DoTable(r: Status) returns (leave: bool, r': Status)
      requires Valid() && mode == TABLE
      modifies this, inp`p, inp`b, inp`k, inp`stale
      ensures Valid() && inp.p >= old(inp.p) && n >= old(n) && codes == old(codes)
      ensures leave ==> if mode == BAD then r' == DATA_ERROR
        else mode == TABLE && inp.Lacks(14) && (r' == r || r' == OK)
      ensures !leave ==> inp.Pos() > old(inp.Pos()) && (r' == r || r' == OK)
      ensures inp.Pos() >= old(inp.Pos())
    {
      hide After, From, CodesOk, Valid, Window.Valid;
      Open();
      var ok;
      ok, r' := inp.NeedBits(14, r);
      Close();
      if !ok {
        return true, r';
      }
      leave := EnterTable();
      if leave {
        r' := DATA_ERROR;
      }
    }

    method EnterTable() returns (bad: bool)
      requires Valid() && mode == TABLE && 14 <= inp.k <= 29
      modifies this, inp`b, inp`k
      ensures Valid() && n >= old(n) && codes == old(codes) && inp.Pos() >= old(inp.Pos())
      ensures if bad then mode == BAD else inp.Pos() == old(inp.Pos()) + 14
    {
      hide After, Last, Rotated, Between, CheckOf, From, Low, Shr, CodesOk, TreesReady, ReadSoFar,
           NumLens, Valid;
      Open();
      AfterTable(Job(), n, Now());
      table := inp.Peek(14);
      TableNumberBits(inp.Rest());
      n := n + 1;
      if Low(table, 5) > 29 || Low(Shr(table, 5), 5) > 29 {
        mode := BAD;
        Close();
        return true;
      }
      inp.DumpBits(14);
      NewLengths();
      bad := false;
    }

    /** Set up for reading code lengths. */
    method NewLengths()
      requires Sound() && inp.k <= 15 && dropped == 0 && TableOk(table)
      requires After(Job(), n, StateOf(inp, win, BTree(table, 0, Repeat<nat>(0, 19)), last, 0))
      modifies this`blens, this`clens, this`index, this`mode
      ensures Valid() && mode == BTREE
    {
      hide After, Last, Rotated, Between, CheckOf, From, Low, Shr, ReadSoFar, Valid;
      blens, clens := Repeat<nat>(0, NumLens(table)), Repeat<nat>(0, 19);
      ReadNone(blens);
      index, mode := 0, BTREE;
      Close();
    }

    /** Store the next code length code length. */
    method ReadLength()
      requires Valid() && mode == BTREE && 3 <= inp.k <= 15 && index < 4 + Shr(table, 10)
      modifies this`blens, this`clens, this`index, this`n, inp`b, inp`k
      ensures Valid() && n >= old(n) && index == old(index) + 1 && inp.Pos() == old(inp.Pos()) + 3
    {
      hide After, From, Low, Shr, NumLens, CodesOk, TableOk, WholeBytes, Window.Valid, Valid, PhaseOk,
           ReadSoFar, TreesReady;
      BTreeIs();
      TableLimits(table);
      var c := inp.Peek(3);
      ThreeBits(inp.Rest());
      SizesOfRead(blens, clens, index);
      AfterLength(Job(), n, State(inp.Pos(), BTree(table, index, clens), last, win.produced));
      ReadOne(blens, clens, index, c);
      var i := BORDER[index];
      inp.DumpBits(3);
      blens, clens := blens[i := c], clens[i := c];
      index, n := index + 1, n + 1;
      BTreeIs();
    }

    /** BTREE: get the code length code lengths and make their table. */
    method DoBTree(r: Status) returns (leave: bool, r': Status)
      requires Valid() && mode == BTREE
      modifies this, inp`p, inp`b, inp`k, inp`stale, hufts
      ensures Valid() && inp.p >= old(inp.p) && n >= old(n) && codes == old(codes)
      ensures leave ==> if mode == BAD then r' == DATA_ERROR
        else mode == BTREE && inp.Lacks(8) && (r' == r || r' == OK)
      ensures !leave ==> mode == DTREE && (r' == r || r' == OK)
      ensures inp.Pos() >= old(inp.Pos())
    {
      hide After, Low, Shr, ReadSoFar, NumLens, CodesOk, TreesReady, TableOk, Valid, PhaseOk, Input.Valid,
           Window.Valid;
      r' := r;
      BTreeIs();
      while index < 4 + Shr(table, 10)
        invariant Valid() && mode == BTREE && inp.p >= old(inp.p) && n >= old(n) && (r' == r || r' == OK)
        invariant inp.Pos() >= old(inp.Pos())
        invariant codes == old(codes) && index <= 4 + Shr(table, 10)
      {
        var ok;
        ok, r' := NextLength(r');
        if !ok {
          return true, r';
        }
      }
      leave := BuildBits();
      if leave {
        r' := DATA_ERROR;
      }
    }

    method NextLength(r: Status) returns (ok: bool, r': Status)
      requires Valid() && mode == BTREE && index < 4 + Shr(table, 10)
      modifies this`blens, this`clens, this`index, this`n, inp`p, inp`b, inp`k, inp`stale
      ensures Valid() && inp.p >= old(inp.p) && n >= old(n) && inp.Pos() >= old(inp.Pos()) && (r' == r || r' == OK)
      ensures if ok then index == old(index) + 1 else inp.Lacks(8)
    {
      hide After, Low, Shr, ReadSoFar, NumLens, CodesOk, TreesReady, TableOk, Valid, PhaseOk, Window.Valid;
      BTreeIs();
      ok, r' := inp.NeedBits(3, r);
      BTreeIs();
      if ok {
        ReadLength();
      }
    }

    method BuildBits() returns (bad: bool)
      requires Valid() && mode == BTREE && index == 4 + Shr(table, 10)
      modifies this`blens, this`index, this`bb, this`tb, this`mode, this`n, hufts
      ensures Valid() && n >= old(n) && mode == if bad then BAD else DTREE
    {
      hide After, From, Low, Shr, NumLens, CodesOk, TableOk, WholeBytes, Window.Valid, Valid, PhaseOk,
           ReadSoFar, Decodes, HuftBuild.Flat, Acceptable, AllZero, Input.Valid, TreesReady, ShortEnough;
      BTreeIs();
      var lens := ClearRest(blens, clens, index);
      ReadAll(lens, clens);
      SizesOfRead(lens, clens, 19);
      AfterLengths(Job(), n, State(inp.Pos(), BTree(table, index, clens), last, win.produced));
      var r, b, t := InflateTreesBits(lens[..19], 7, hufts);
      bad := r != OK;
      bb, tb, blens, n := b, t, lens, n + 1;
      if bad {
        mode := BAD;
        BadIs();
      } else {
        ReadyToRead(hufts[..], tb, bb, clens, blens);
        StartLengths();
      }
    }

    /** The trees for code lengths are there: go on to read the code lengths. */
    method StartLengths()
      requires Sound() && dropped == 0 && inp.k <= 15 && TableOk(table) && |blens| == NumLens(table)
      requires TreesReady(hufts[..], tb, bb, clens)
      requires After(Job(), n, State(inp.Pos(), DTree(table, clens, []), last, win.produced))
      modifies this`index, this`mode
      ensures Valid() && mode == DTREE
    {
      hide After, NumLens, TableOk, Window.Valid, Input.Valid, Valid, TreesReady;
      index, mode := 0, DTREE;
      assert blens[..0] == [];
      DTreeIs();
    }

    /** Look up the next code length code, without dropping it. */
    method LookUp(r: Status) returns (ok: bool, r': Status, h: Huft)
      requires Valid() && mode == DTREE
      modifies inp`p, inp`b, inp`k, inp`stale
      ensures Valid() && inp.p >= old(inp.p) && inp.Pos() == old(inp.Pos()) && (r' == r || r' == OK)
      ensures if ok then h.bits <= inp.k && h.base < 19 && h.bits <= 7 &&
        CodeLengthAt(clens, inp.Rest()) == (h.base, h.bits) else inp.Lacks(8)
    {
      hide WholeBytes, Window.Valid, After, From, Low, Shr, ReadSoFar, NumLens, CodesOk, TableOk,
           CodeLengthAt, Decodes, HuftBuild.Flat, Acceptable, AllZero, LengthsOk;
      h := Huft(0, 0, 0);
      ok, r' := inp.NeedBits(bb, r);
      if ok {
        CodeLengthFound(hufts[..], tb, bb, clens, inp.Rest());
        h := hufts[tb + inp.Peek(bb)];
      }
    }

    /** A code length that stands for itself. */
    method PutCode(h: Huft)
      requires Valid() && mode == DTREE && index < |blens| && h.bits <= inp.k && h.base < 16
      requires CodeLengthAt(clens, inp.Rest()) == (h.base, h.bits)
      modifies this`blens, this`index, this`n, inp`b, inp`k
      ensures Valid() && n >= old(n) && inp.Pos() == old(inp.Pos()) + h.bits && index == old(index) + 1
      ensures |blens| == old(|blens|)
    {
      hide After, From, Low, Shr, NumLens, CodesOk, TableOk, WholeBytes, Window.Valid, Valid, PhaseOk,
           ReadSoFar, TreesReady, CodeLengthAt;
      DTreeIs();
      var c := h.base;
      AfterCode(Job(), n, State(inp.Pos(), DTree(table, clens, blens[..index]), last, win.produced), c, h.bits);
      inp.DumpBits(h.bits);
      assert blens[index := c][..index + 1] == blens[..index] + [c];
      blens, index, n := blens[index := c], index + 1, n + 1;
      DTreeIs();
    }

    /** A code length repeated j times, or an invalid repeat; `used` bits were taken for it. */
    method PutRepeat(c: nat, j: nat, ghost used: nat) returns (bad: bool)
      requires InDTree(used) && index < |blens| && 16 <= c <= 18 && 3 <= j
      requires CodeLengthAt(clens, From(inp.I, inp.Pos() - used)) == (c, used - RepeatBits(c)) && RepeatBits(c) <= used
      requires j == RepeatBase(c) + Low(From(inp.I, inp.Pos() - RepeatBits(c)), RepeatBits(c))
      modifies this`blens, this`index, this`n, this`mode, this`dropped
      ensures Valid() && n >= old(n) && mode == if bad then BAD else DTREE
      ensures !bad ==> index > old(index) && |blens| == old(|blens|)
    {
      hide After, From, Low, Shr, NumLens, CodesOk, TableOk, WholeBytes, Window.Valid, Valid, PhaseOk,
           ReadSoFar, TreesReady, CodeLengthAt, Input.Valid;
      AfterRepeat(Job(), n, State(inp.Pos() - used, DTree(table, clens, blens[..index]), last, win.produced), c,
        used - RepeatBits(c), j);
      if index + j > |blens| || (c == 16 && index < 1) {
        mode, n, dropped := BAD, n + 1, used;
        BadIs();
        return true;
      }
      var x := if c == 16 then blens[index - 1] else 0;
      var lens := FillRun(blens, index, x, j);
      StillShort(blens, lens, index, x, j);
      blens, index, n := lens, index + j, n + 1;
      DTreeIs();
      bad := false;
    }

    /** A repeat code with its count. */
    method RepeatLength(h: Huft, r: Status) returns (leave: bool, r': Status)
      requires Valid() && mode == DTREE && index < |blens| && h.bits <= inp.k && 16 <= h.base < 19 && h.bits <= 7
      requires CodeLengthAt(clens, inp.Rest()) == (h.base, h.bits)
      modifies this`blens, this`index, this`n, this`mode, this`dropped, inp`p, inp`b, inp`k, inp`stale
      ensures Valid() && n >= old(n) && inp.Pos() >= old(inp.Pos()) && inp.p >= old(inp.p)
      ensures leave ==> if mode == BAD then r' == DATA_ERROR
        else mode == DTREE && LacksLength() && (r' == r || r' == OK)
      ensures !leave ==> mode == DTREE && index > old(index) && |blens| == old(|blens|) && (r' == r || r' == OK)
    {
      hide After, From, Low, Shr, NumLens, CodesOk, TableOk, WholeBytes, Window.Valid, Valid, PhaseOk,
           ReadSoFar, TreesReady, CodeLengthAt, ShortEnough;
      DTreeIs();
      var i, j := RepeatBits(h.base), RepeatBase(h.base);
      var ok;
      ok, r' := inp.NeedBits(h.bits + i, r);
      if !ok {
        DTreeIs();
        return true, r';
      }
      inp.DumpBits(h.bits);
      j := j + inp.Peek(i);
      inp.DumpBits(i);
      leave := PutRepeat(h.base, j, h.bits + i);
      if leave {
        r' := DATA_ERROR;
      }
    }

    /** DTREE: get the literal/length and distance code lengths and make the tables. */
    method DoDTree(r: Status) returns (leave: bool, r': Status)
      requires Valid() && mode == DTREE
      modifies this, inp`p, inp`b, inp`k, inp`stale, hufts
      ensures Valid() && inp.p >= old(inp.p) && n >= old(n) && (codes == old(codes) || fresh(codes))
      ensures inp.Pos() >= old(inp.Pos())
      ensures leave ==> if mode == BAD then r' == DATA_ERROR
        else mode == DTREE && LacksLength() && (r' == r || r' == OK)
      ensures !leave ==> mode == CODES && (r' == r || r' == OK)
    {
      hide WholeBytes, Window.Valid, After, From, Low, Shr, ReadSoFar, NumLens, CodesOk, TableOk,
           CodeLengthAt, TreesReady;
      r' := r;
      while index < NumLens(table)
        invariant Valid() && mode == DTREE && inp.p >= old(inp.p) && n >= old(n) && (r' == r || r' == OK)
        invariant inp.Pos() >= old(inp.Pos())
        invariant codes == old(codes)
        decreases |blens| - index
      {
        var ok, h;
        ok, r', h := LookUp(r');
        if !ok {
          return true, r';
        }
        if h.base < 16 {
          PutCode(h);
        } else {
          leave, r' := RepeatLength(h, r');
          if leave {
            return;
          }
        }
      }
      leave := BuildTrees();
      if leave {
        r' := DATA_ERROR;
      }
    }

    /** Make the tables of a dynamic block and start on its codes. */
    method BuildTrees() returns (bad: bool)
      requires Valid() && mode == DTREE && index == |blens|
      modifies this`mode, this`n, this`codes, hufts
      ensures Valid() && n >= old(n) && mode == (if bad then BAD else CODES) && (codes == old(codes) || fresh(codes))
    {
      hide After, From, Low, Shr, CodesOk, WholeBytes, Window.Valid, Valid, PhaseOk, ReadSoFar, TreesReady, Decodes,
           CodeLengthAt, Input.Valid;
      DTreeIs();
      TableLimits(table);
      hide NumLit, NumDist, NumLens, TableOk;
      assert blens[..index] == blens;
      AfterTrees(Job(), n, State(inp.Pos(), DTree(table, clens, blens), last, win.produced));
      ghost var lit, dst := blens[..NumLit(table)], blens[NumLit(table)..];
      var r, bl, bd, tl, td;
      r, bl, bd, tl, td := InflateTreesDynamic(NumLit(table), NumDist(table), blens, 9, 6, hufts);
      bad := r != OK;
      if bad {
        mode, n := BAD, n + 1;
        BadIs();
      } else {
        n := n + 1;
        StartCodes(bl, bd, tl, td, lit, dst);
      }
    }

    method StartCodes(bl: nat, bd: nat, tl: nat, td: nat, ghost lit: seq<nat>, ghost dst: seq<nat>)
      requires Sound() && inp.k <= 15 && dropped == 0 && TablesOk(hufts[..], tl, bl, td, bd, lit, dst)
      requires After(Job(), n, StateOf(inp, win, Mode.Codes(lit, dst, Start), last, 0))
      modifies this`mode, this`codes
      ensures Valid() && mode == CODES && fresh(codes)
    {
      hide After, Last, Rotated, Between, CheckOf, From, TablesOk, NumLens;
      codes := new CodesState(bl, bd, tl, td, hufts[..], inp, win, lit, dst, last, start, n);
      mode := CODES;
    }

    /** CODES: go on with the codes of the block. */
    method DoCodes(r: Status) returns (leave: bool, r': Status)
      requires Valid() && mode == CODES && r != STREAM_END && r != DATA_ERROR
      modifies this, inp`p, inp`b, inp`k, inp`stale, win`read, win`write, win`availOut, win`out, win`check,
               win`produced, win.window, codes
      ensures Valid() && n >= old(n) && old(win.out) <= win.out && inp.Pos() >= old(inp.Pos()) && codes == old(codes)
      ensures leave ==> Reports(r') && mode == CODES && CodeFrom(r, r')
      ensures !leave ==> r' == OK && (mode == TYPE || mode == DRY)
    {
      hide After, From, TablesOk, OnTree, PhaseOk, Valid, Window.Valid, Input.Valid;
      CodesIs();
      r' := codes.Process(r);
      n := codes.n;
      if r' != STREAM_END {
        CodesIs();
        return true, r';
      }
      EndCodes();
      return false, OK;
    }

    /** The end of a block of codes: the next block, or the end. */
    method EndCodes()
      requires mode == CODES && Sound() && CodesOk() && dropped == 0 && codes.mode == END
      modifies this`n, this`mode
      ensures Valid() && n >= old(n) && (mode == TYPE || mode == DRY)
    {
      hide After, From, TablesOk, OnTree, Window.Valid, Input.Valid;
      AfterEnd(Job(), n, codes.Now());
      n := n + 1;
      mode := if last then DRY else TYPE;
      PlainIs();
    }

    /** DRY: deliver all output. */
    method DoDry(r: Status) returns (leave: bool, r': Status)
      requires Valid() && mode == DRY
      modifies this`mode, this`n, win`read, win`write, win`availOut, win`out, win`check
      ensures Valid() && n >= old(n) && old(win.out) <= win.out && (r' == r || r' == OK)
      ensures if leave then mode == DRY && win.availOut == 0 else mode == DONE
    {
      hide After, Last, Rotated, CheckOf, From, CodesOk, PhaseOk, Valid;
      PlainIs();
      r' := win.Flush(r);
      if win.read != win.write {
        PlainIs();
        return true, r';
      }
      AfterEnd(Job(), n, State(inp.Pos(), Dry, last, win.produced));
      mode, n := DONE, n + 1;
      PlainIs();
      leave := false;
    }

    /** In DTREE: what is held is short of one lookup, or of the repeat count of the code looked up. */
    ghost predicate LacksLength()
      reads this`clens, this`index, this`table, inp
    {
      inp.Lacks(8) ||
        (inp.Valid() && index < NumLens(table) &&
          var (c, used) := CodeLengthAt(clens, inp.Rest()); 16 <= c && inp.Lacks(used + RepeatBits(c)))
    }

    /** Input is used up. */
    ghost predicate Needy()
      reads this, inp, codes
    {
      match mode
      case LENS => inp.Lacks(32)
      case TABLE => inp.Lacks(14)
      case DTREE => LacksLength()
      case CODES => codes != null && codes.inp == inp && codes.Needy()
      case _ => inp.Lacks(8)
    }

    ghost predicate Stuck()
      reads this, inp, win, codes
    {
      Needy() || win.availOut == 0
    }

    /** Some code or header was invalid, or the tables did not fit. */
    ghost predicate Failed()
      reads this, codes
    {
      mode == BAD || (mode == CODES && codes != null && codes.mode == BADCODE)
    }

    /** The return code tells how far the stream is decoded. */
    ghost predicate Reports(r: Status)
      reads this, inp, win, codes
    {
      match r
      case STREAM_END => mode == DONE
      case DATA_ERROR => Failed()
      case _ => mode != DONE && !Failed() && Stuck()
    }

    /** One round of the loop of inflate_blocks, up to LEAVE. */
    method Turn(r: Status) returns (leave: bool, r': Status)
      requires Valid() && r != STREAM_END && r != DATA_ERROR
      modifies this, inp`p, inp`b, inp`k, inp`stale, win`read, win`write, win`availOut, win`out, win`check,
               win`produced, win.window, hufts, fixed, codes
      ensures Valid() && n >= old(n) && old(win.out) <= win.out && inp.Pos() >= old(inp.Pos())
      ensures (codes == old(codes) || fresh(codes))
      ensures leave ==> Reports(r') && CodeFrom(r, r')
      ensures !leave ==> (r' == r || r' == OK) && (inp.Pos() > old(inp.Pos()) || PhaseRank(mode) < PhaseRank(old(mode)))
    {
      hide After, Last, Rotated, Between, CheckOf, From, CodesOk, PhaseOk, Valid, Window.Valid, Input.Valid;
      leave, r' := false, r;
      match mode
      case TYPE => leave, r' := DoType(r);
      case LENS => leave, r' := DoLens(r);
      case STORED => leave, r' := DoStored(r);
      case TABLE => leave, r' := DoTable(r);
      case BTREE => leave, r' := DoBTree(r);
      case DTREE => leave, r' := DoDTree(r);
      case CODES => leave, r' := DoCodes(r);
      case DRY => leave, r' := DoDry(r);
      case DONE => leave, r' := true, STREAM_END;
      case BAD => leave, r' := true, DATA_ERROR;
    }

    /** inflate_blocks: go on as far as input and room for output allow. */
    method Process(r: Status) returns (r': Status)
      requires Valid() && r != STREAM_END && r != DATA_ERROR
      modifies this, inp`p, inp`b, inp`k, inp`stale, win`read, win`write, win`availOut, win`out, win`check,
               win`produced, win.window, hufts, fixed, codes
      ensures Valid() && n >= old(n) && old(win.out) <= win.out && inp.Pos() >= old(inp.Pos())
      ensures (codes == old(codes) || fresh(codes))
      ensures Reports(r') && CodeFrom(r, r')
    {
      hide After, Last, Rotated, CheckOf, From, PhaseOk, PhaseRank, Between, Valid, Reports, Failed, Stuck;
      r' := r;
      var leave := false;
      while !leave
        invariant Valid() && n >= old(n) && old(win.out) <= win.out && inp.Pos() >= old(inp.Pos())
        invariant (codes == old(codes) || fresh(codes))
        invariant CodeFrom(r, r')
        invariant if leave then Reports(r') else r' != STREAM_END && r' != DATA_ERROR
        decreases !leave, 8 * |inp.input| - inp.Pos(), PhaseRank(mode)
      {
        leave, r' := Turn(r');
        InStream();
      }
      r' := FlushOut(r');
    }

    /** inflate_flush, as LEAVE does it. */
    method FlushOut(r: Status) returns (r': Status)
      requires Valid() && Reports(r)
      modifies win`read, win`write, win`availOut, win`out, win`check
      ensures Valid() && old(win.out) <= win.out && Reports(r')
      ensures CodeFrom(r, r')
    {
      hide After, Last, Rotated, CheckOf, From, PhaseOk, Between, TablesOk, CodesState.PhaseOk, Input.Valid;
      r' := win.Flush(r);
    }
  }

  lemma StillShort(blens: seq<nat>, lens: seq<nat>, index: nat, x: nat, j: nat)
    requires ShortEnough(blens, index) && index + j <= |blens| == |lens|
    requires lens[..index + j] == blens[..index] + Repeat<nat>(x, j)
    requires x == 0 || (index > 0 && x == blens[index - 1])
    ensures ShortEnough(lens, index + j)
  {
    forall i | 0 <= i < index + j ensures lens[i] <= BMAX {
      assert lens[i] == lens[..index + j][i];
    }
  }

  method FillRun(blens: seq<nat>, index: nat, x: nat, j: nat) returns (lens: seq<nat>)
    requires index + j <= |blens|
    ensures |lens| == |blens| && lens[..index + j] == blens[..index] + Repeat<nat>(x, j)
  {
    lens := blens;
    var i := index;
    while i < index + j
      invariant index <= i <= index + j && |lens| == |blens| && lens[..i] == blens[..index] + Repeat<nat>(x, i - index)
    {
      assert lens[i := x][..i + 1] == lens[..i] + [x];
      assert Repeat<nat>(x, i + 1 - index) == Repeat<nat>(x, i - index) + [x];
      lens := lens[i := x];
      i := i + 1;
    }
  }

  /** The lengths that were not sent are zero. */
  method ClearRest(blens: seq<nat>, ghost clens: seq<nat>, index: nat) returns (lens: seq<nat>)
    requires ReadSoFar(blens, clens, index)
    ensures |lens| == |blens| && ReadSoFar(lens, clens, 19)
  {
    lens := blens;
    var i := index;
    while i < 19
      invariant i <= 19 && |lens| == |blens| && ReadSoFar(lens, clens, i)
    {
      ReadOne(lens, clens, i, 0);
      assert clens[BORDER[i] := 0] == clens;
      lens := lens[BORDER[i] := 0];
      i := i + 1;
    }
  }
}
