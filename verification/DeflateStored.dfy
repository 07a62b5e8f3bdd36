/** deflate_stored of deflate.c: compression level 0. */
module DeflateStored {
  import opened Zlib
  import opened DeflateTokens
  import opened DeflateDict
  import opened DeflateTally
  import opened DeflateState
  import InflateWindow

  /** Every block is stored, and short enough for the format's 16-bit length. */
  ghost predicate AllStored(blocks: seq<Block>)
  {
    forall i :: 0 <= i < |blocks| ==> blocks[i].buf.Bytes? && |blocks[i].buf.bytes| <= 0xffff
  }

  function StoredBytes(blocks: seq<Block>): seq<byte>
  {
    if blocks == [] then []
    else
      var b := blocks[|blocks| - 1];
      StoredBytes(blocks[..|blocks| - 1]) + if b.buf.Bytes? then b.buf.bytes else []
  }

  /** Stored blocks that lie end to end over the data contain it. */
  lemma {:induction false} StoredIsData(blocks: seq<Block>, data: seq<byte>, upto: nat)
    requires Tiles(blocks, data, upto) && AllStored(blocks)
    ensures StoredBytes(blocks) == data[..upto]
  {
    if blocks != [] {
      var b := blocks[|blocks| - 1];
      StoredIsData(blocks[..|blocks| - 1], data, upto - b.len);
      assert data[..upto] == data[..upto - b.len] + data[upto - b.len..upto];
    }
  }

  /** The limit on block sizes: 16 bits, and room in the pending buffer. */
  function MaxBlockSize(litBufsize: nat): nat
    requires litBufsize >= 128
  {
    if 0xffff > 4 * litBufsize - 5 then 4 * litBufsize - 5 else 0xffff
  }

  /** No block is longer than allowed, and the current one is still in the window. */
  ghost predicate Bounded(s: DeflateState)
    reads s, s.dict, s.dict.head, s.dict.prev, s.window, s.tally, s.tally.lBuf, s.tally.dBuf
  {
    && s.Core() && s.BlocksOk() && s.tally.litBufsize >= 128 && AllStored(s.tally.blocks)
    && 0 <= s.blockStart <= s.strstart < s.blockStart + MaxBlockSize(s.tally.litBufsize)
  }

  /** Between two rounds: the current block is not yet due either. */
  ghost predicate Ready(s: DeflateState)
    reads s, s.dict, s.dict.head, s.dict.prev, s.window, s.tally, s.tally.lBuf, s.tally.dBuf
  {
    Bounded(s) && s.strstart - s.blockStart < s.MaxDist()
  }

  /** Take in what is ahead as far as a block may reach, and hand over the block when it is due. */
  method Round(s: DeflateState, maxBlockSize: nat, ample: bool) returns (full: bool)
    requires Ready(s) && maxBlockSize == MaxBlockSize(s.tally.litBufsize) && s.lookahead > 0
    modifies s`strstart, s`lookahead, s`blockStart, s.tally`lastLit, s.tally`blocks
    ensures Ready(s) && s.N() > old(s.N()) && Wrote(old(s.tally.blocks), s.tally.blocks, false)
    ensures ample ==> !full
  {
    hide Ready, Bounded;
    full := SendLong(s, maxBlockSize, ample);
    if !full {
      full := SendFar(s, ample);
    }
  }

  /** Send a block if the data have reached the greatest size of one. */
  method SendLong(s: DeflateState, maxBlockSize: nat, ample: bool) returns (full: bool)
    requires Ready(s) && maxBlockSize == MaxBlockSize(s.tally.litBufsize) && s.lookahead > 0
    modifies s`strstart, s`lookahead, s`blockStart, s.tally`lastLit, s.tally`blocks
    ensures Bounded(s) && s.N() > old(s.N()) && Wrote(old(s.tally.blocks), s.tally.blocks, false)
    ensures (full ==> Ready(s)) && (ample ==> !full)
  {
    hide ChainsOk, ChainsFull, InflateWindow.CheckOf, KeysOk, Tiles;
    s.strstart := s.strstart + s.lookahead;
    s.lookahead := 0;
    var maxStart := s.blockStart + maxBlockSize;
    full := false;
    if s.strstart == 0 || s.strstart >= maxStart {
      s.lookahead := s.strstart - maxStart;
      s.strstart := maxStart;
      full := s.FlushBlock(false, ample);
    }
  }

  /** Send a block before its beginning may leave the window. */
  method SendFar(s: DeflateState, ample: bool) returns (full: bool)
    requires Bounded(s)
    modifies s`blockStart, s.tally`lastLit, s.tally`blocks
    ensures Ready(s) && s.N() == old(s.N()) && Wrote(old(s.tally.blocks), s.tally.blocks, false)
    ensures ample ==> !full
  {
    hide ChainsOk, ChainsFull, InflateWindow.CheckOf, KeysOk, Tiles;
    full := false;
    if s.strstart - s.blockStart >= s.MaxDist() {
      full := s.FlushBlock(false, ample);
    }
  }

  method DeflateStored(s: DeflateState, flush: FlushMode, ample: bool) returns (r: BlockState)
    requires Ready(s)
    modifies s`next, s`adler, s`strstart, s`lookahead, s`blockStart, s`matchStart, s`data,
             s.dict`base, s.dict`insH, s.dict.head, s.dict.prev, s.window, s.tally`lastLit, s.tally`blocks
    ensures Ready(s) && s.data + s.next == old(s.data + s.next) && old(s.data) <= s.data
    ensures StoredBytes(s.tally.blocks) == s.data[..s.Covered()]
    ensures Wrote(old(s.tally.blocks), s.tally.blocks, r == FINISH_DONE || r == FINISH_STARTED)
    ensures r == BLOCK_DONE || r == FINISH_DONE || r == FINISH_STARTED ==> s.next == [] && s.Covered() == |s.data|
    ensures r == FINISH_DONE || r == FINISH_STARTED ==> flush == FINISH
    ensures r == BLOCK_DONE ==> flush != FINISH && flush != NO_FLUSH
    ensures ample ==> r != FINISH_STARTED && (r == NEED_MORE ==> flush == NO_FLUSH && s.next == [])
    ensures r == NEED_MORE && flush == FINISH ==> s.N() > old(s.N())
  {
    hide Ready, DeflateState.Core, DeflateState.BlocksOk;
    Bounds(s);
    var maxBlockSize := MaxBlockSize(s.tally.litBufsize);
    while true
      invariant Ready(s) && s.data + s.next == old(s.data + s.next) && old(s.data) <= s.data
      invariant Wrote(old(s.tally.blocks), s.tally.blocks, false) && s.N() >= old(s.N())
      decreases |s.data| + |s.next| - s.N()
    {
      Bounds(s);
      if s.lookahead <= 1 {
        Refill(s);
        Bounds(s);
        if s.lookahead == 0 && flush == NO_FLUSH {
          Whole(s);
          return NEED_MORE;
        }
        if s.lookahead == 0 {
          break;
        }
      }
      var full := Round(s, maxBlockSize, ample);
      Bounds(s);
      if full {
        Whole(s);
        return NEED_MORE;
      }
    }
    var full := LastBlock(s, flush == FINISH, ample);
    Whole(s);
    r := if full then if flush == FINISH then FINISH_STARTED else NEED_MORE
         else if flush == FINISH then FINISH_DONE else BLOCK_DONE;
  }

  lemma Bounds(s: DeflateState)
    requires Ready(s)
    ensures 0 <= s.N() <= |s.data| == s.N() + s.lookahead && s.strstart + s.lookahead <= 2 * s.wSize
    ensures s.tally.litBufsize >= 128
  {
    hide DeflateState.Core, DeflateState.BlocksOk, AllStored;
    s.ShapeOf();
  }

  lemma Whole(s: DeflateState)
    requires Ready(s)
    ensures 0 <= s.Covered() <= |s.data| && StoredBytes(s.tally.blocks) == s.data[..s.Covered()]
  {
    hide DeflateState.Core, AllStored, Tiles;
    s.ShapeOf();
    StoredIsData(s.tally.blocks, s.data, s.Covered());
  }

  /** Hand over the last block. */
  method LastBlock(s: DeflateState, eof: bool, ample: bool) returns (full: bool)
    requires Ready(s)
    modifies s`blockStart, s.tally`lastLit, s.tally`blocks
    ensures Ready(s) && Wrote(old(s.tally.blocks), s.tally.blocks, eof)
    ensures s.Covered() == s.N() && (ample ==> !full)
  {
    hide ChainsOk, ChainsFull, InflateWindow.CheckOf, KeysOk, Tiles;
    full := s.FlushBlock(eof, ample);
  }

  /** fill_window moves the window only after the current block has left its lower half. */
  method Refill(s: DeflateState)
    requires Ready(s) && s.lookahead <= 1
    modifies s`next, s`adler, s`strstart, s`lookahead, s`blockStart, s`matchStart, s`data,
             s.dict`base, s.dict`insH, s.dict.head, s.dict.prev, s.window
    ensures Ready(s) && s.data + s.next == old(s.data + s.next) && old(s.data) <= s.data && s.N() == old(s.N())
    ensures s.lookahead == 0 ==> s.next == []
    ensures s.Covered() == old(s.Covered())
  {
    hide ChainsOk, ChainsFull, InflateWindow.CheckOf, KeysOk, Tiles;
    ghost var d := s.data;
    s.FillWindow();
    TilesGrow(s.tally.blocks, d, s.data, s.Covered());
  }
}
