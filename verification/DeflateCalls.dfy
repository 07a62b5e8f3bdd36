/** deflate of deflate.c over several calls: header, flushes, the end of the input and the trailer. */
module DeflateCalls {
  import opened Bits
  import opened Options
  import opened Zlib
  import opened DeflateHash
  import opened DeflateTokens
  import opened DeflateDict
  import opened DeflateTally
  import opened DeflateState
  import opened DeflateLevels
  import InflateWindow
  import Inflate
  import Stored = DeflateStored
  import Fast = DeflateFast
  import Slow = DeflateSlow

  datatype Phase = INIT | BUSY | FINISHED

  /** How the output side answers in a call: is there no room at all, is something pending from the
      call before, does writing that use up the room, and is there ample room for everything else? */
  datatype Output = Output(noRoom: bool, pending: bool, stuck: bool, ample: bool)

  /** There is room, and some of it is left for this call. */
  predicate Free(out: Output)
  {
    !out.noRoom && !out.stuck
  }

  /** The value of a flush parameter. */
  function Rank(flush: FlushMode): int
  {
    match flush
    case NO_FLUSH => 0
    case PARTIAL_FLUSH => 1
    case SYNC_FLUSH => 2
    case FULL_FLUSH => 3
    case FINISH => 4
  }

  /** The two bytes of the zlib header. */
  function Header(wBits: nat, level: nat): (h: seq<byte>)
    requires 9 <= wBits <= 15 && level <= 9
    ensures |h| == 2
  {
    var flags := if level == 0 || level > 6 then 3 else (level - 1) / 2;
    var word := (8 + (wBits - 8) * 16) * 256 + flags * 64;
    var checked := word + 31 - word % 31;
    [checked / 256, checked % 256]
  }

  /** inflate accepts the header if its window is large enough. */
  lemma HeaderAccepted(wBits: nat, level: nat, w: nat)
    requires 9 <= wBits <= 15 && level <= 9
    ensures Inflate.HeaderOk(Header(wBits, level), w) <==> wBits <= w
  {
  }

  // ----- what the level's state keeps

  lemma AdlerIs(level: nat, s: DeflateState)
    requires LevelReady(level, s)
    ensures s.adler == InflateWindow.CheckOf(s.data)
  {
    hide InflateWindow.CheckOf, ChainsOk, ChainsFull, KeysOk, Tiles, TokensTile, Expand;
  }

  method ResetAdler(level: nat, s: DeflateState)
    requires LevelReady(level, s) && s.data == []
    modifies s`adler
    ensures LevelReady(level, s)
  {
    hide InflateWindow.CheckOf, ChainsOk, ChainsFull, KeysOk, Tiles, TokensTile, Expand;
    AdlerIs(level, s);
    InflateWindow.CheckNothing();
    s.adler := 1;
  }

  /** CLEAR_HASH after a full flush. */
  method Forget(level: nat, s: DeflateState)
    requires LevelReady(level, s)
    modifies s.dict.head, s.dict`live
    ensures LevelReady(level, s)
  {
    hide InflateWindow.CheckOf, ChainsOk, ChainsFull, KeysOk, Tiles, TokensTile, Expand;
    s.dict.Clear();
  }

  /** z_stream and deflate_state with what deflate itself keeps in them. */
  class Deflater {
    const level: nat
    const wBits: nat
    const raw: bool
    const s: DeflateState
    var status: Phase
    var lastFlush: int
    var noheader: int
    ghost var header: seq<byte>
    ghost var trailer: Option<nat>

    constructor (level: nat, windowBits: nat, memLevel: nat, strategy: Strategy, raw: bool)
      requires level <= 9 && 9 <= windowBits <= 15 && 1 <= memLevel <= 9
      ensures Valid() && this.level == level && wBits == windowBits && this.raw == raw && s.data == s.next == []
      ensures s.tally.blocks == [] && status != FINISHED
      ensures fresh(s) && fresh(s.dict) && fresh(s.dict.head) && fresh(s.dict.prev) && fresh(s.window)
      ensures fresh(s.tally) && fresh(s.tally.lBuf) && fresh(s.tally.dBuf)
    {
      hide LevelReady;
      var t := new DeflateState(level, windowBits, memLevel, strategy);
      NewIsReady(t, level);
      LevelIsReady(level, t);
      this.level, wBits, this.raw, s := level, windowBits, raw, t;
      status := if raw then BUSY else INIT;
      lastFlush := 0;
      noheader := if raw then 1 else 0;
      header, trailer := [], None;
    }

    ghost predicate Valid()
      reads this, s, s.dict, s.dict.head, s.dict.prev, s.window, s.tally, s.tally.lBuf, s.tally.dBuf
    {
      && LevelReady(level, s) && level <= 9 && 9 <= wBits <= 15 && s.wSize == Pow2(wBits) && HeadersOk()
      && (status == INIT ==> s.data == [])
      && Wrote([], s.tally.blocks, status == FINISHED)
      && (status == FINISHED ==> s.Covered() == |s.data|)
      && (trailer.Some? ==> status == FINISHED && trailer.value == InflateWindow.CheckOf(s.data))
    }

    ghost predicate HeadersOk()
      requires level <= 9 && 9 <= wBits <= 15
      reads this`status, this`noheader, this`header, this`trailer
    {
      if raw then noheader == 1 && header == [] && trailer.None? && status != INIT
      else
        && header == (if status == INIT then [] else Header(wBits, level))
        && noheader == if trailer.Some? then -1 else 0
    }

    /** All of the input is in blocks, the last of them is marked, and the checksum was written. */
    ghost predicate Ended()
      reads this, s, s.dict, s.tally
    {
      && status == FINISHED && s.next == [] && Meaning(level, s.tally.blocks) == s.data
      && (!raw ==> trailer == Some(InflateWindow.CheckOf(s.data)))
    }

    /** When the end was reached there is nothing left to do for the level's function. */
    lemma AtEnd()
      requires Valid() && status == FINISHED
      ensures s.lookahead == 0 && Meaning(level, s.tally.blocks) == s.data
    {
      hide LevelReady, Meaning, InflateWindow.CheckOf, Header;
      MeaningIs(level, s);
      assert s.data[..|s.data|] == s.data;
    }

    method WriteHeader()
      requires Valid() && status == INIT
      modifies this`status, this`header, s`adler
      ensures Valid() && status == BUSY
    {
      hide LevelReady, InflateWindow.CheckOf, Header;
      status := BUSY;
      header := Header(wBits, level);
      ResetAdler(level, s);
    }

    method WriteTrailer()
      requires Valid() && status == FINISHED && noheader == 0
      modifies this`noheader, this`trailer
      ensures Valid() && trailer.Some?
    {
      hide LevelReady, InflateWindow.CheckOf, Header;
      AdlerIs(level, s);
      trailer := Some(s.adler);
      noheader := -1;
    }

    /** How many more calls with FINISH may be needed: a measure that every one of them lowers. */
    function Left(): nat
      reads this`status, this`noheader, s`next, s`lookahead
    {
      if status == FINISHED then if noheader == 0 then 1 else 0
      else |s.next| + s.lookahead + 2
    }

    /** No input came in after the end. */
    predicate NothingNew()
      reads this`status, s`next
    {
      status == FINISHED ==> s.next == []
    }

    /** Start a new block or continue the current one. */
    method Work(flush: FlushMode, ample: bool) returns (b: BlockState)
      requires Valid() && status == BUSY
      modifies this`status, s, s.dict, s.dict.head, s.dict.prev, s.window, s.tally, s.tally.lBuf, s.tally.dBuf
      ensures Valid() && s.data + s.next == old(s.data + s.next)
      ensures old(s.tally.blocks) <= s.tally.blocks
      ensures if status == FINISHED then flush == FINISH && s.next == [] && (b == FINISH_STARTED || b == FINISH_DONE)
        else status == BUSY && (b == NEED_MORE || (b == BLOCK_DONE && flush != FINISH))
      ensures ample && flush == FINISH ==> b == FINISH_DONE
      ensures status == BUSY && flush == FINISH ==> Left() < old(Left())
    {
      hide LevelReady, InflateWindow.CheckOf, Header;
      b := Level(level, s, flush, ample);
      if b == FINISH_STARTED || b == FINISH_DONE {
        status := FINISHED;
      }
      if b == BLOCK_DONE && flush == FULL_FLUSH {
        Forget(level, s);
      }
    }

    /** The end of deflate: the trailer, if it is due. */
    method Finish(ample: bool) returns (r: Status)
      requires Valid() && status == FINISHED && s.next == []
      modifies this`noheader, this`trailer
      ensures Valid() && (r == STREAM_END ==> Ended())
      ensures r == STREAM_END || (r == OK && !ample && Left() < old(Left()))
    {
      hide LevelReady, InflateWindow.CheckOf, Header, Meaning, Wrote;
      AtEnd();
      if noheader != 0 {
        return STREAM_END;
      }
      WriteTrailer();
      var full := UsedUp(ample);
      r := if full then OK else STREAM_END;
    }

    /** deflate, when nothing is pending any more. */
    method Compress(flush: FlushMode, ample: bool) returns (r: Status)
      requires Valid() && status != INIT && (status == FINISHED ==> flush == FINISH)
      modifies this`status, this`lastFlush, this`noheader, this`trailer, s, s.dict, s.dict.head, s.dict.prev, s.window,
               s.tally, s.tally.lBuf, s.tally.dBuf
      ensures Valid() && s.data + s.next == old(s.data + s.next) && old(s.tally.blocks) <= s.tally.blocks
      ensures (r == STREAM_END ==> Ended()) && (r == OK || r == STREAM_END || r == BUF_ERROR)
      ensures flush == FINISH && old(NothingNew()) ==>
        NothingNew() && (r == STREAM_END || (r == OK && !ample && Left() < old(Left())))
      ensures flush != FINISH ==> status != FINISHED
    {
      hide LevelReady, InflateWindow.CheckOf, Header, Meaning, Wrote;
      if status == FINISHED && s.next != [] {
        return BUF_ERROR;  // no more input after the first FINISH
      }
      if status == FINISHED {
        AtEnd();
      }
      if s.next != [] || s.lookahead != 0 || (flush != NO_FLUSH && status != FINISHED) {
        var b := Work(flush, ample);
        var full := UsedUp(ample);
        if b == NEED_MORE || b == FINISH_STARTED || (b == BLOCK_DONE && full) {
          lastFlush := if full then -1 else lastFlush;
          return OK;
        }
      }
      if flush != FINISH {
        return OK;
      }
      r := Finish(ample);
    }

    /** deflate. */
    method Deflate(flush: FlushMode, out: Output) returns (r: Status)
      requires Valid()
      modifies this, s, s.dict, s.dict.head, s.dict.prev, s.window, s.tally, s.tally.lBuf, s.tally.dBuf
      ensures Valid() && s.data + s.next == old(s.data + s.next)
      ensures old(s.tally.blocks) <= s.tally.blocks
      ensures r == STREAM_END ==> Ended()
      ensures r == STREAM_ERROR <==> old(status) == FINISHED && flush != FINISH
      ensures r == OK || r == STREAM_END || r == STREAM_ERROR || r == BUF_ERROR
      ensures flush == FINISH && old(NothingNew()) ==> NothingNew() && Left() <= old(Left())
      ensures flush == FINISH && old(NothingNew()) && Free(out) ==>
        r == STREAM_END || (r == OK && !out.ample && Left() < old(Left()))
      ensures flush != FINISH ==> (status == FINISHED <==> old(status) == FINISHED)
    {
      hide LevelReady, InflateWindow.CheckOf, Header, Meaning, Wrote;
      if status == FINISHED && flush != FINISH {
        return STREAM_ERROR;
      }
      if out.noRoom {
        return BUF_ERROR;
      }
      var oldFlush, hasPending := lastFlush, out.pending;
      lastFlush := Rank(flush);
      if status == INIT {
        WriteHeader();
        hasPending := true;
      }
      if hasPending {
        if out.stuck {
          lastFlush := -1;
          return OK;
        }
      } else if s.next == [] && Rank(flush) <= oldFlush && flush != FINISH {
        return BUF_ERROR;
      }
      r := Compress(flush, out.ample);
    }
  }

  lemma LevelIsReady(level: nat, s: DeflateState)
    requires s.tally.litBufsize >= 128 && s.tally.lastLit == 0
    requires Stored.Ready(s) && (level > 0 ==> Fast.Standing(s) && Slow.LazyStanding(s))
    ensures LevelReady(level, s)
  {
  }

  // ----- whole uses

  /** What a caller gives to a call, and how the output side answers. */
  datatype Call = Call(bytes: seq<byte>, flush: FlushMode, out: Output)

  function AllBytes(calls: seq<Call>): seq<byte>
  {
    if calls == [] then [] else AllBytes(calls[..|calls| - 1]) + calls[|calls| - 1].bytes
  }

  method GiveInput(d: Deflater, bytes: seq<byte>)
    requires d.Valid()
    modifies d.s`next
    ensures d.Valid() && d.s.next == old(d.s.next) + bytes
  {
    hide LevelReady, InflateWindow.CheckOf, Header, Wrote;
    Offer(d.level, d.s, bytes);
  }

  lemma InputSplits(d: Deflater, input: seq<byte>)
    requires d.Valid() && d.s.data + d.s.next == input
    ensures Meaning(d.level, d.s.tally.blocks) <= input
  {
    hide LevelReady, InflateWindow.CheckOf, Header, Wrote, Meaning;
    MeaningIs(d.level, d.s);
    InputSplit(d.s.data, d.s.next, d.s.Covered(), input);
  }

  /** Compress by any calls: the blocks stand for a beginning of the input given.  When the end is
      reported they stand for all of it, only the last one is marked as last, and the header and the
      checksum are those of a zlib stream for this input. */
  method CompressAll(level: nat, windowBits: nat, memLevel: nat, strategy: Strategy, raw: bool, calls: seq<Call>)
    returns (r: Status, ghost blocks: seq<Block>, ghost header: seq<byte>, ghost trailer: Option<nat>)
    requires level <= 9 && 9 <= windowBits <= 15 && 1 <= memLevel <= 9
    ensures Meaning(level, blocks) <= AllBytes(calls)
    ensures r == STREAM_END ==> Meaning(level, blocks) == AllBytes(calls) && Wrote([], blocks, true)
    ensures r == STREAM_END && !raw ==>
      header == Header(windowBits, level) && trailer == Some(InflateWindow.CheckOf(AllBytes(calls)))
  {
    hide Deflater.Valid, Meaning, Header, Wrote, InflateWindow.CheckOf;
    var d := new Deflater(level, windowBits, memLevel, strategy, raw);
    r := OK;
    for k := 0 to |calls|
      invariant d.Valid() && d.s.data + d.s.next == AllBytes(calls[..k])
      invariant r == STREAM_END ==> d.Ended()
    {
      assert calls[..k + 1][..k] == calls[..k];
      GiveInput(d, calls[k].bytes);
      r := d.Deflate(calls[k].flush, calls[k].out);
    }
    assert calls[..|calls|] == calls;
    InputSplits(d, AllBytes(calls));
    blocks, header, trailer := d.s.tally.blocks, d.header, d.trailer;
    if r == STREAM_END {
      EndIs(d);
    }
  }

  lemma EndIs(d: Deflater)
    requires d.Valid() && d.status == FINISHED
    ensures Wrote([], d.s.tally.blocks, true) && (!d.raw ==> d.header == Header(d.wBits, d.level))
    ensures Faithful(d.level, d.wBits, d.s.tally.blocks, d.s.data)
  {
    hide LevelReady, InflateWindow.CheckOf, Header, Wrote, Faithful;
    FaithfulIs(d.level, d.wBits, d.s);
  }

  /** The calls that find room. */
  function FreeCalls(outs: seq<Output>): nat
  {
    if outs == [] then 0 else FreeCalls(outs[..|outs| - 1]) + if Free(outs[|outs| - 1]) then 1 else 0
  }

  /** Call deflate with FINISH until it reports the end, as it does if enough of the calls find room,
      however little. */
  method FinishAll(d: Deflater, outs: seq<Output>) returns (r: Status)
    requires d.Valid() && d.NothingNew()
    modifies d, d.s, d.s.dict, d.s.dict.head, d.s.dict.prev, d.s.window, d.s.tally, d.s.tally.lBuf, d.s.tally.dBuf
    ensures d.Valid() && d.s.data + d.s.next == old(d.s.data + d.s.next)
    ensures r == STREAM_END ==> d.Ended()
    ensures FreeCalls(outs) > old(d.Left()) ==> r == STREAM_END
  {
    hide Deflater.Valid, Deflater.Left, Deflater.NothingNew, Deflater.Ended, Free;
    r := OK;
    for k := 0 to |outs|
      invariant d.Valid() && d.NothingNew() && d.s.data + d.s.next == old(d.s.data + d.s.next)
      invariant d.Left() + FreeCalls(outs[..k]) <= old(d.Left()) && r != STREAM_END
    {
      assert outs[..k + 1][..k] == outs[..k];
      r := d.Deflate(FINISH, outs[k]);
      if r == STREAM_END {
        return;
      }
    }
    assert outs[..|outs|] == outs;
  }

  lemma LeftIs(d: Deflater, input: seq<byte>)
    requires d.Valid() && d.s.data + d.s.next == input && d.status != FINISHED
    ensures d.NothingNew() && d.Left() <= |input| + 2
  {
    hide LevelReady, InflateWindow.CheckOf, Header, Wrote, Meaning;
    MeaningIs(d.level, d.s);
  }

  /** A whole use: any input in any calls with any flushes but FINISH, and then FINISH as often as the
      output side needs.  The result is a zlib stream for exactly that input. */
  method CompressWhole(level: nat, windowBits: nat, memLevel: nat, strategy: Strategy, raw: bool, calls: seq<Call>,
      outs: seq<Output>)
    returns (r: Status, ghost blocks: seq<Block>, ghost header: seq<byte>, ghost trailer: Option<nat>)
    requires level <= 9 && 9 <= windowBits <= 15 && 1 <= memLevel <= 9
    requires forall k :: 0 <= k < |calls| ==> calls[k].flush != FINISH
    requires FreeCalls(outs) > |AllBytes(calls)| + 2
    ensures r == STREAM_END && Meaning(level, blocks) == AllBytes(calls) && Wrote([], blocks, true)
    ensures Faithful(level, windowBits, blocks, AllBytes(calls))
    ensures !raw ==>
      header == Header(windowBits, level) && trailer == Some(InflateWindow.CheckOf(AllBytes(calls)))
  {
    hide Deflater.Valid, Deflater.Left, Deflater.NothingNew, Meaning, Header, Wrote, Faithful, InflateWindow.CheckOf;
    var d := new Deflater(level, windowBits, memLevel, strategy, raw);
    for k := 0 to |calls|
      invariant d.Valid() && d.s.data + d.s.next == AllBytes(calls[..k]) && d.status != FINISHED
    {
      assert calls[..k + 1][..k] == calls[..k];
      GiveInput(d, calls[k].bytes);
      r := d.Deflate(calls[k].flush, calls[k].out);
    }
    assert calls[..|calls|] == calls;
    LeftIs(d, AllBytes(calls));
    r := FinishAll(d, outs);
    EndIs(d);
    blocks, header, trailer := d.s.tally.blocks, d.header, d.trailer;
  }
}
