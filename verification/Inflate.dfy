/** inflate.c: the zlib format of RFC 1950 around a deflate stream. */
module Inflate {
  import opened Bits
  import opened Zlib
  import opened BitInput
  import opened InflateWindow
  import opened InflateSpec
  import Blocks = InflateBlocks

  datatype InflateMode = METHOD | FLAG | DICT4 | DICT3 | DICT2 | DICT1 | DICT0
    | BLOCKS | CHECK4 | CHECK3 | CHECK2 | CHECK1 | DONE | BAD

  // ----- what a zlib stream is

  /** CMF: the method is deflate, with a window of at most 2^wbits bytes. */
  predicate MethodOk(cmf: byte, wbits: nat)
  {
    cmf % 16 == 8 && cmf / 16 + 8 <= wbits
  }

  predicate FlagOk(cmf: byte, flg: byte)
  {
    (cmf * 256 + flg) % 31 == 0
  }

  predicate HasDict(flg: byte)
  {
    flg / 32 % 2 == 1
  }

  /** A stream with a good header that needs no preset dictionary. */
  ghost predicate HeaderOk(I: seq<byte>, wbits: nat)
  {
    |I| >= 2 && MethodOk(I[0], wbits) && FlagOk(I[0], I[1]) && !HasDict(I[1])
  }

  /** The byte at which a bit position ends. */
  function ByteEnd(pos: nat): nat
  {
    (pos + 7) / 8
  }

  lemma EndInside(pos: nat, size: nat)
    requires ByteEnd(pos) <= size
    ensures pos <= 8 * size
  {
  }

  /** The first j bytes at p, most significant first, of a four-byte number. */
  function Leading(I: seq<byte>, p: nat, j: nat): nat
    requires j <= 4 && p + j <= |I|
  {
    (if j > 0 then 0x100_0000 * I[p] else 0) + (if j > 1 then 0x1_0000 * I[p + 1] else 0)
    + (if j > 2 then 0x100 * I[p + 2] else 0) + (if j > 3 then I[p + 3] as nat else 0)
  }

  lemma LeadingNext(I: seq<byte>, p: nat, j: nat)
    requires j < 4 && p + j < |I|
    ensures Leading(I, p, 0) == 0
    ensures var b: nat := I[p + j];
            Leading(I, p, j + 1) ==
              if j == 0 then 0x100_0000 * b
              else Leading(I, p, j) + if j == 1 then 0x1_0000 * b else if j == 2 then 0x100 * b else b
  {
  }

  /** The job of decoding a stream's deflate data. */
  function JobFor(I: seq<byte>, W: nat, w0: seq<byte>, nowrap: bool): Job
  {
    Job(I, W, w0, if nowrap then 0 else 16)
  }

  /** After n steps the deflate data has ended, with the last bits at pos. */
  ghost predicate Decoded(job: Job, n: nat, pos: nat, out: seq<byte>)
  {
    After(job, n, State(pos, Done, true, out)) || After(job, n, State(pos, Done, false, out))
  }

  /** Stream I as a whole is good, and `out` is what it stands for: the data end within it, and with the
      wrapper so does their checksum. */
  ghost predicate Accepts(I: seq<byte>, wbits: nat, W: nat, w0: seq<byte>, nowrap: bool, out: seq<byte>)
  {
    exists n: nat, pos: nat ::
      Decoded(JobFor(I, W, w0, nowrap), n, pos, out) && pos <= 8 * |I|
      && (nowrap || (HeaderOk(I, wbits) && TrailerOk(I, ByteEnd(pos), out)))
  }

  ghost predicate TrailerOk(I: seq<byte>, p: nat, out: seq<byte>)
  {
    p + 4 <= |I| && Leading(I, p, 4) == CheckOf(out)
  }

  /** However far two runs of one job are taken, they end in the same state. */
  lemma DecodedOnce(job: Job, n: nat, pos: nat, out: seq<byte>, n': nat, pos': nat, out': seq<byte>)
    requires Decoded(job, n, pos, out) && Decoded(job, n', pos', out')
    ensures pos == pos' && out == out'
  {
    RunGrows(job.I, job.W, job.w0, job.start, if n <= n' then n else n', if n <= n' then n' else n);
  }

  /** A stream stands for one output at most. */
  lemma AcceptsOnce(I: seq<byte>, wbits: nat, W: nat, w0: seq<byte>, nowrap: bool, out: seq<byte>, out': seq<byte>)
    requires Accepts(I, wbits, W, w0, nowrap, out) && Accepts(I, wbits, W, w0, nowrap, out')
    ensures out == out'
  {
    var job := JobFor(I, W, w0, nowrap);
    var n: nat, pos: nat :| Decoded(job, n, pos, out);
    var n': nat, pos': nat :| Decoded(job, n', pos', out');
    DecodedOnce(job, n, pos, out, n', pos', out');
  }

  lemma StepBad(I: seq<byte>, W: nat, w0: seq<byte>, a: State)
    requires 0 < W <= |w0| && a.mode.Bad?
    ensures Step(I, W, w0, a) == a
  {
    hide TypeStep, LensStep, StoredStep, TableStep, BTreeStep, DTreeStep, CodesStep;
  }

  lemma {:induction false} BadStays(I: seq<byte>, W: nat, w0: seq<byte>, start: nat, n: nat, m: nat)
    requires 0 < W <= |w0| && n <= m && Run(I, W, w0, start, n).mode.Bad?
    ensures Run(I, W, w0, start, m) == Run(I, W, w0, start, n)
    decreases m
  {
    hide Step;
    if n < m {
      BadStays(I, W, w0, start, n, m - 1);
      StepBad(I, W, w0, Run(I, W, w0, start, m - 1));
    }
  }

  /** A run that went bad never ends well. */
  lemma BadIsFinal(I: seq<byte>, wbits: nat, W: nat, w0: seq<byte>, nowrap: bool, n: nat, a: State, out: seq<byte>)
    requires After(JobFor(I, W, w0, nowrap), n, a) && a.mode.Bad?
    ensures !Accepts(I, wbits, W, w0, nowrap, out)
  {
    if Accepts(I, wbits, W, w0, nowrap, out) {
      var job := JobFor(I, W, w0, nowrap);
      var m: nat, pos: nat :| Decoded(job, m, pos, out);
      if n <= m {
        BadStays(I, W, w0, job.start, n, m);
      } else {
        RunGrows(I, W, w0, job.start, m, n);
      }
    }
  }

  /** Output delivered early is the beginning of what the stream stands for. */
  lemma OutputIsPrefix(I: seq<byte>, wbits: nat, W: nat, w0: seq<byte>, nowrap: bool, n: nat, a: State, out: seq<byte>)
    requires After(JobFor(I, W, w0, nowrap), n, a) && Accepts(I, wbits, W, w0, nowrap, out)
    ensures a.out <= out
  {
    var job := JobFor(I, W, w0, nowrap);
    var m: nat, pos: nat :| Decoded(job, m, pos, out);
    RunGrows(I, W, w0, job.start, if n <= m then n else m, if n <= m then m else n);
  }

  /** A stream without a good header stands for nothing. */
  lemma NoHeader(I: seq<byte>, wbits: nat, W: nat, w0: seq<byte>)
    requires !HeaderOk(I, wbits)
    ensures forall out :: !Accepts(I, wbits, W, w0, false, out)
  {
  }

  /** Nor does one whose trailer is not the checksum of what was decoded. */
  lemma WrongCheck(I: seq<byte>, wbits: nat, W: nat, w0: seq<byte>, n: nat, pos: nat, out: seq<byte>)
    requires Decoded(JobFor(I, W, w0, false), n, pos, out) && !TrailerOk(I, ByteEnd(pos), out)
    ensures forall out' :: !Accepts(I, wbits, W, w0, false, out')
  {
    var job := JobFor(I, W, w0, false);
    forall out' | Accepts(I, wbits, W, w0, false, out')
      ensures false
    {
      var n': nat, pos': nat :| Decoded(job, n', pos', out') && TrailerOk(I, ByteEnd(pos'), out');
      DecodedOnce(job, n, pos, out, n', pos', out');
    }
  }

  function ModeRank(mode: InflateMode): nat
  {
    match mode
    case METHOD => 12
    case FLAG => 11
    case DICT4 => 10
    case DICT3 => 9
    case DICT2 => 8
    case DICT1 => 7
    case DICT0 => 6
    case BLOCKS => 5
    case CHECK4 => 4
    case CHECK3 => 3
    case CHECK2 => 2
    case CHECK1 => 1
    case _ => 0
  }

  /** How many trailer bytes are read. */
  function TrailerRead(mode: InflateMode): nat
  {
    match mode
    case CHECK3 => 1
    case CHECK2 => 2
    case CHECK1 => 3
    case _ => 0
  }

  lemma DecodedHere(job: Job, n: nat, pos: nat, last: bool, out: seq<byte>)
    requires After(job, n, State(pos, Done, last, out))
    ensures Decoded(job, n, pos, out)
  {
    hide After;
  }

  lemma ByteEndIs(p: nat, k: nat)
    requires k <= 7 && k <= 8 * p
    ensures ByteEnd(8 * p - k) == p
  {
  }

  /** z_stream and its internal_state.  The block decoder is made when the header has been read. */
  class Inflater {
    const inp: Input
    const win: Window
    const nowrap: bool    // deflate data only
    const wbits: nat      // window bits
    var mode: InflateMode
    var method_: byte     // first byte of the header
    var was: nat          // checksum of the output
    var need: nat         // that of the trailer as far as read
    var blocks: Blocks.BlocksState?
    ghost var pos: nat    // where the deflate data ended
    ghost var n: nat      // steps of the run it took

    /** inflateInit2 */
    constructor (ghost I: seq<byte>, w: nat, nowrap: bool)
      requires 8 <= w <= 15
      ensures Valid() && inp.I == I && wbits == w && this.nowrap == nowrap && inp.input == [] && win.produced == []
      ensures fresh(inp) && fresh(win) && fresh(win.window) && win.window.Length == Pow2(w)
      ensures fresh(Parts())
      ensures mode == if nowrap then BLOCKS else METHOD
    {
      hide Last, Rotated, Between, CheckOf, After, Shl, Accepts, Blocks.BlocksState.Valid, From, Low;
      var input := new Input(I);
      Pow2Mono(0, w);
      var buffer := new byte[Pow2(w)];
      var window := new Window(buffer);
      inp, win, this.nowrap, wbits := input, window, nowrap, w;
      method_, was, need, pos, n := 0, 0, 0, 0, 0;
      mode := if nowrap then BLOCKS else METHOD;
      if nowrap {
        blocks := new Blocks.BlocksState(input, window);
      } else {
        blocks := null;
      }
    }

    ghost function Job(): Job
    {
      JobFor(inp.I, win.window.Length, win.w0, nowrap)
    }

    /** The objects that the block decoder uses. */
    ghost function Parts(): set<object>
      reads this, blocks
    {
      if blocks == null then {}
      else {blocks, blocks.hufts, blocks.fixed} + if blocks.codes == null then {} else {blocks.codes}
    }

    ghost predicate BlocksOk()
      reads this, inp, win, win.window, blocks, Parts()
    {
      && blocks != null && blocks.inp == inp && blocks.win == win && blocks.Valid()
      && blocks.start == (if nowrap then 0 else 16) && (!nowrap ==> HeaderOk(inp.I, wbits))
    }

    ghost predicate Ended()
      reads this, inp, win
    {
      Decoded(Job(), n, pos, win.produced) && win.out == win.produced && was == CheckOf(win.out) &&
        (!nowrap ==> HeaderOk(inp.I, wbits))
    }

    ghost predicate Good()
      reads inp, win
    {
      Accepts(inp.I, wbits, win.window.Length, win.w0, nowrap, win.out)
    }

    /** No output at all makes the stream a good one. */
    ghost predicate Rejected()
    {
      forall out :: !Accepts(inp.I, wbits, win.window.Length, win.w0, nowrap, out)
    }

    ghost predicate PhaseOk()
      reads this, inp, win
    {
      match mode
      case METHOD => !nowrap && inp.k == 0 == inp.stale && inp.p == 0 && win.produced == []
      case FLAG => !nowrap && inp.k == 0 == inp.stale && inp.p == 1 <= |inp.I| && MethodOk(inp.I[0], wbits) &&
        method_ == inp.I[0] && win.produced == []
      case BLOCKS => true
      case DONE => Good()
      case BAD => Rejected()
      case DICT4 | DICT3 | DICT2 | DICT1 | DICT0 => inp.k == 0 == inp.stale && Rejected()
      case _ => TrailerPart(TrailerRead(mode))
    }

    /** The data has ended and j bytes of the trailer are read. */
    ghost predicate TrailerPart(j: nat)
      requires j <= 3
      reads this, inp, win
    {
      !nowrap && Ended() && inp.k == 0 == inp.stale && inp.p == ByteEnd(pos) + j <= |inp.I| &&
        need == Leading(inp.I, ByteEnd(pos), j)
    }

    ghost predicate Valid()
      reads this, inp, win, win.window, blocks, Parts()
    {
      inp.Valid() && win.Valid() && if mode == BLOCKS then BlocksOk() else PhaseOk()
    }

    lemma ValidIs()
      ensures Valid() <==> inp.Valid() && win.Valid() && if mode == BLOCKS then BlocksOk() else PhaseOk()
    {
      hide BlocksOk, PhaseOk, Window.Valid, Input.Valid;
    }

    /** What holds outside the blocks, in parts. */
    lemma Outside()
      requires Valid() && mode != BLOCKS
      ensures inp.p <= |inp.input|
      ensures mode == InflateMode.DONE ==> Good()
      ensures mode == InflateMode.BAD ==> Rejected()
      ensures mode != InflateMode.DONE && mode != InflateMode.BAD ==> inp.k == 0 == inp.stale
      ensures 6 <= ModeRank(mode) <= 10 ==> Rejected()
    {
      hide After, Good, Rejected, Window.Valid, CheckOf;
    }

    /** When all input is read there is nothing to do outside the blocks. */
    lemma Idle(r: Status)
      requires Valid() && mode != BLOCKS && mode != InflateMode.DONE && mode != InflateMode.BAD
      requires inp.p == |inp.input| && (r == OK || r == BUF_ERROR)
      ensures Tells(r)
    {
      hide Valid;
      Outside();
    }

    /** NEXTBYTE */
    method NextByte() returns (b: byte)
      requires inp.Valid() && inp.k == 0 == inp.stale && inp.AvailIn() > 0
      modifies inp`p
      ensures inp.Valid() && inp.p == old(inp.p) + 1 && old(inp.p) < |inp.I| && b == inp.I[old(inp.p)]
    {
      var bytes := inp.TakeBytes(1);
      b := bytes[0];
    }

    method DoMethod()
      requires Valid() && mode == METHOD && inp.AvailIn() > 0
      modifies this`method_, this`mode, inp`p
      ensures Valid() && (mode == FLAG || mode == BAD)
    {
      hide After, Accepts, CheckOf, Last, Rotated, Between, Input.Valid;
      method_ := NextByte();
      if method_ % 16 != 8 {
        mode := BAD;
      } else if method_ / 16 + 8 > wbits {
        mode := BAD;
      } else {
        mode := FLAG;
      }
      if mode == BAD {
        NoHeader(inp.I, wbits, win.window.Length, win.w0);
      }
    }

    method DoFlag()
      requires Valid() && mode == FLAG && inp.AvailIn() > 0
      modifies this`mode, this`blocks, inp`p
      ensures Valid() && (mode == BLOCKS || mode == DICT4 || mode == BAD) && fresh(Parts() - old(Parts()))
    {
      hide After, Accepts, CheckOf, Window.Valid, Blocks.BlocksState.Valid, MethodOk, Leading, Good, Ended, TrailerPart;
      var b := NextByte();
      if (method_ * 256 + b) % 31 != 0 {
        mode := BAD;
        NoHeader(inp.I, wbits, win.window.Length, win.w0);
      } else if b / 32 % 2 == 0 {
        mode := BLOCKS;
        blocks := new Blocks.BlocksState(inp, win);
      } else {
        mode := DICT4;
        NoHeader(inp.I, wbits, win.window.Length, win.w0);
      }
    }

    /** DICT4 to DICT1: the checksum of the dictionary. */
    method DoDict()
      requires Valid() && (mode == DICT4 || mode == DICT3 || mode == DICT2 || mode == DICT1) && inp.AvailIn() > 0
      modifies this`mode, this`need, inp`p
      ensures Valid() && ModeRank(mode) == ModeRank(old(mode)) - 1
    {
      hide After, Accepts, CheckOf, Last, Rotated, Between;
      var b: nat := NextByte();
      match mode
      case DICT4 => need, mode := 0x100_0000 * b, DICT3;
      case DICT3 => need, mode := need + 0x1_0000 * b, DICT2;
      case DICT2 => need, mode := need + 0x100 * b, DICT1;
      case DICT1 => need, mode := need + b, DICT0;
    }

    /** Nothing more can be done without more input or more room for output. */
    ghost predicate Stuck()
      reads inp, win
    {
      inp.Starved() || win.availOut == 0
    }

    ghost predicate Waiting()
      reads this, inp, win, blocks, Parts()
    {
      if mode == BLOCKS then
        blocks != null && blocks.inp == inp && blocks.win == win && !blocks.Failed() && blocks.Stuck()
      else Stuck()
    }

    /** BLOCKS: decode as far as possible; f is the code for a call that made progress. */
    method DoBlocks(r: Status, f: Status) returns (leave: bool, r': Status)
      requires Valid() && mode == BLOCKS && (r == OK || r == BUF_ERROR) && (f == OK || f == BUF_ERROR)
      modifies this, inp`p, inp`b, inp`k, inp`stale, win`read, win`write, win`availOut, win`out, win`check,
               win`produced, win.window, Parts()
      ensures Valid() && old(win.out) <= win.out && blocks == old(blocks) && fresh(Parts() - old(Parts()))
      ensures if leave then mode == BLOCKS && Waiting()
        else mode == InflateMode.BAD || mode == CHECK4 || mode == InflateMode.DONE
      ensures r' == OK || r' == BUF_ERROR
    {
      hide After, Accepts, CheckOf, Window.Valid, Input.Valid, Blocks.BlocksState.PhaseOk,
           Blocks.BlocksState.CodesOk, Valid, Rejected;
      ValidIs();
      r' := blocks.Process(r);
      ValidIs();
      if r' == DATA_ERROR {
        Fail();
        return false, f;
      }
      if r' == OK {
        r' := f;
      }
      if r' != STREAM_END {
        return true, r';
      }
      Finish();
      return false, f;
    }

    /** The block decoder failed. */
    method Fail()
      requires Valid() && mode == BLOCKS && blocks.Failed()
      modifies this`mode
      ensures Valid() && mode == InflateMode.BAD
    {
      hide After, Valid, Accepts, Rejected, Window.Valid, Input.Valid, CheckOf, Blocks.BlocksState.Valid;
      ValidIs();
      FailedRejects();
      mode := InflateMode.BAD;
      ValidIs();
    }

    /** A run that has gone bad rejects the stream. */
    lemma FailedRejects()
      requires Valid() && mode == BLOCKS && blocks.Failed()
      ensures Rejected()
    {
      hide After, Accepts, Window.Valid, Input.Valid, CheckOf;
      var m, a := if blocks.mode == Blocks.CODES then blocks.codes.n else blocks.n,
                  if blocks.mode == Blocks.CODES then blocks.codes.Now() else blocks.Now();
      forall out
        ensures !Accepts(inp.I, wbits, win.window.Length, win.w0, nowrap, out)
      {
        BadIsFinal(inp.I, wbits, win.window.Length, win.w0, nowrap, m, a, out);
      }
    }

    /** The deflate data has ended: keep its checksum, drop the rest of the last byte. */
    method Finish()
      requires Valid() && mode == BLOCKS && blocks.mode == Blocks.DONE
      modifies this`mode, this`was, this`need, this`pos, this`n, inp`b, inp`k, inp`stale
      ensures Valid() && mode == if nowrap then InflateMode.DONE else CHECK4
    {
      hide After, Accepts, Valid, Window.Valid, Input.Valid, Decoded, CheckOf, Blocks.BlocksState.Valid, ByteEnd,
           HeaderOk;
      EndHere();
      was := win.check;
      pos, n, need := inp.Pos(), blocks.n, 0;
      inp.DumpAll();
      mode := if nowrap then InflateMode.DONE else CHECK4;
      if nowrap {
        NowAccepted();
      }
      ValidIs();
    }

    /** The blocks have ended. */
    lemma EndHere()
      requires Valid() && mode == BLOCKS && blocks.mode == Blocks.DONE
      ensures blocks != null && inp.Valid() && win.Valid() && win.out == win.produced && win.check == CheckOf(win.out)
      ensures !nowrap ==> HeaderOk(inp.I, wbits)
      ensures Decoded(Job(), blocks.n, inp.Pos(), win.produced) && ByteEnd(inp.Pos()) == inp.p <= |inp.I|
      ensures inp.Pos() <= 8 * |inp.I|
    {
      hide After, Accepts, Window.Valid, Decoded, CheckOf, Blocks.BlocksState.Valid, Blocks.BlocksState.PhaseOk;
      blocks.PlainIs();
      CheckIs();
      DecodedHere(Job(), blocks.n, inp.Pos(), blocks.last, win.produced);
      ByteEndIs(inp.p, inp.k);
    }

    lemma CheckIs()
      requires win.Valid()
      ensures win.check == CheckOf(win.out)
    {
      hide CheckOf;
    }

    /** Without a wrapper the end of the data is all there is to it. */
    lemma NowAccepted()
      requires nowrap && Ended() && pos <= 8 * |inp.I|
      ensures Good()
    {
      hide Decoded, CheckOf;
    }

    /** CHECK4 to CHECK1: the next byte of the trailer, and after the last the comparison. */
    method DoCheck()
      requires Valid() && 1 <= ModeRank(mode) <= 4 && inp.AvailIn() > 0
      modifies this`mode, this`need, inp`p
      ensures Valid() && (ModeRank(mode) == ModeRank(old(mode)) - 1 || mode == InflateMode.BAD)
    {
      hide After, Valid, PhaseOk, Decoded, CheckOf, Window.Valid, ByteEnd, Leading, HeaderOk;
      ValidIs();
      TrailerIs();
      WithinInput();
      LeadingNext(inp.I, ByteEnd(pos), TrailerRead(mode));
      var b: nat := NextByte();
      match mode {
        case CHECK4 => need, mode := 0x100_0000 * b, CHECK3;
        case CHECK3 => need, mode := need + 0x1_0000 * b, CHECK2;
        case CHECK2 => need, mode := need + 0x100 * b, CHECK1;
        case CHECK1 =>
          need := need + b;
          Compare();
          return;
      }
      TrailerIs();
      ValidIs();
    }

    lemma WithinInput()
      requires inp.Valid()
      ensures |inp.input| <= |inp.I|
    {
    }

    lemma TrailerIs()
      requires 1 <= ModeRank(mode) <= 4
      ensures PhaseOk() <==> TrailerPart(TrailerRead(mode))
    {
      hide TrailerPart;
    }

    method Compare()
      requires inp.Valid() && win.Valid() && !nowrap && Ended() && ByteEnd(pos) + 4 <= |inp.I|
      requires need == Leading(inp.I, ByteEnd(pos), 4)
      modifies this`mode
      ensures Valid() && mode == if was != need then InflateMode.BAD else InflateMode.DONE
    {
      hide After, CheckOf, Last, Rotated, Between, Decoded, HeaderOk, ByteEnd, Leading;
      if was != need {
        mode := InflateMode.BAD;
        WrongCheck(inp.I, wbits, win.window.Length, win.w0, n, pos, win.produced);
      } else {
        mode := InflateMode.DONE;
        EndInside(pos, |inp.I|);
      }
    }

    /** What the return code of a call says. */
    ghost predicate Tells(r: Status)
      reads this, inp, win, blocks, Parts()
    {
      match r
      case STREAM_END => Good()
      case DATA_ERROR => Rejected()
      case NEED_DICT => Rejected()
      case STREAM_ERROR => Rejected()
      case _ => Waiting() && mode != InflateMode.DONE && mode != InflateMode.BAD
    }

    method ToBad()
      requires Valid() && mode == DICT0
      modifies this`mode
      ensures Valid() && mode == InflateMode.BAD && Rejected()
    {
      hide After, Accepts, Rejected, Window.Valid, Input.Valid;
      mode := InflateMode.BAD;
    }

    /** One mode of inflate. */
    method Turn(r: Status, f: Status) returns (leave: bool, r': Status)
      requires Valid() && (r == OK || r == BUF_ERROR) && (f == OK || f == BUF_ERROR)
      modifies this, inp`p, inp`b, inp`k, inp`stale, win`read, win`write, win`availOut, win`out, win`check,
               win`produced, win.window, Parts()
      ensures Valid() && old(win.out) <= win.out && fresh(Parts() - old(Parts()))
      ensures if leave then Tells(r') else (r' == OK || r' == BUF_ERROR) && ModeRank(mode) < ModeRank(old(mode))
    {
      hide After, Accepts, Rejected, Good, Waiting, BlocksOk, PhaseOk, Valid, Window.Valid, Input.Valid,
           Blocks.BlocksState.Valid;
      r', leave := f, false;
      if mode == BLOCKS {
        leave, r' := DoBlocks(r, f);
        return;
      }
      Outside();
      if mode == InflateMode.DONE {
        return true, STREAM_END;
      } else if mode == InflateMode.BAD {
        return true, DATA_ERROR;
      } else if mode == DICT0 {
        ToBad();
        return true, STREAM_ERROR;
      } else if inp.AvailIn() == 0 {
        Idle(r);
        return true, r;
      } else if mode == METHOD {
        DoMethod();
      } else if mode == FLAG {
        DoFlag();
      } else if 1 <= ModeRank(mode) <= 4 {
        DoCheck();
      } else {
        DoDict();
        Outside();
        if mode == DICT0 {
          return true, NEED_DICT;
        }
      }
    }

    /** inflate: decode as far as input and room for output allow. */
    method Inflate(finish: bool) returns (r: Status)
      requires Valid()
      modifies this, inp`p, inp`b, inp`k, inp`stale, win`read, win`write, win`availOut, win`out, win`check,
               win`produced, win.window, Parts()
      ensures Valid() && old(win.out) <= win.out && fresh(Parts() - old(Parts()))
      ensures Tells(r)
    {
      hide After, Accepts, CheckOf, Last, Rotated, Between, Rejected, Ended, HeaderOk, From, Low, BlocksOk, PhaseOk,
           ModeRank;
      var f := if finish then BUF_ERROR else OK;
      r := BUF_ERROR;
      var leave := false;
      while !leave
        invariant Valid() && old(win.out) <= win.out && fresh(Parts() - old(Parts()))
        invariant if leave then Tells(r) else r == OK || r == BUF_ERROR
        decreases !leave, ModeRank(mode)
      {
        leave, r := Turn(r, f);
      }
    }
  }
}
