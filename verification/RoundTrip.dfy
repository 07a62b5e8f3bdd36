/** From the input of deflate to the output of inflate: whatever deflate hands over, written in the format
    with any codes that inflate takes, decodes to the input. */
module RoundTrip {
  import opened Bits
  import opened Options
  import opened Zlib
  import opened DeflateCalls
  import opened DeflateHash
  import opened DeflateLevels
  import opened DeflateState
  import opened DeflateTally
  import opened DeflateTokens
  import opened FormatDecodes
  import opened FormatStreams
  import opened Inflate
  import opened InflateWindow
  import F = Format
  import Adler32
  import Fast = DeflateFast
  import Stored = DeflateStored
  import InflateCalls

  /** A block as the writer of blocks may put it down: the bytes that it may store, or its tokens in fixed
      codes or in codes of its own. */
  ghost predicate Renders(level: nat, f: F.Block, b: Block)
  {
    && F.BlockOk(f) && Accepted(f)
    && if f.Raw? then b.buf == Bytes(f.data) else level > 0 && F.Tokens(f.pieces) == b.tokens
  }

  ghost predicate AllRender(level: nat, fs: seq<F.Block>, blocks: seq<Block>)
  {
    |fs| == |blocks| && forall k :: 0 <= k < |fs| ==> Renders(level, fs[k], blocks[k])
  }

  /** The blocks one after the other, each with the mark that it was handed over with. */
  function Written(pos: nat, fs: seq<F.Block>, blocks: seq<Block>): F.BitSeq
    requires |fs| == |blocks| && F.BlocksOk(fs)
    decreases |fs|
  {
    if fs == [] then []
    else
      var b := F.BlockBits(pos, fs[0], blocks[0].eof);
      b + Written(pos + |b|, fs[1..], blocks[1..])
  }

  /** Deflate marks exactly the last block, as the format asks. */
  lemma {:induction false} WrittenIs(pos: nat, fs: seq<F.Block>, blocks: seq<Block>)
    requires |fs| == |blocks| && F.BlocksOk(fs)
    requires forall k :: 0 <= k < |blocks| ==> (blocks[k].eof <==> k == |blocks| - 1)
    ensures Written(pos, fs, blocks) == F.BlocksBits(pos, fs)
    decreases |fs|
  {
    hide F.BlockOk, F.BlockBits;
    if fs != [] {
      assert blocks[0].eof <==> |fs| == 1;
      WrittenIs(pos + |F.BlockBits(pos, fs[0], |fs| == 1)|, fs[1..], blocks[1..]);
    }
  }

  // ----- what rendered blocks stand for

  lemma {:induction false} DecodedSnoc(out: seq<byte>, fs: seq<F.Block>, f: F.Block, W: nat)
    ensures F.Decoded(out, fs + [f]) == F.AfterBlock(F.Decoded(out, fs), f)
    ensures F.AllNear(out, fs + [f], W) <==> F.AllNear(out, fs, W) && F.BlockNear(F.Decoded(out, fs), f, W)
    decreases |fs|
  {
    hide F.AfterBlock, F.BlockNear;
    if fs == [] {
      assert (fs + [f])[1..] == [];
    } else {
      assert (fs + [f])[1..] == fs[1..] + [f];
      DecodedSnoc(F.AfterBlock(out, fs[0]), fs[1..], f, W);
    }
  }

  /** Tokens that follow others. */
  lemma {:induction false} TokensFollow(a: seq<Token>, b: seq<Token>, W: nat)
    requires Fast.AllInFormat(a + b, W)
    ensures F.ApplyAll(Expand(a), b) == Expand(a + b) && F.Near(Expand(a), b, W)
    decreases |b|
  {
    if b == [] {
      assert a + b == a;
    } else {
      assert a + [b[0]] + b[1..] == a + b;
      TokensFollow(a + [b[0]], b[1..], W);
      ExpandSnoc(a, b[0]);
      TokenReaches(a + b, |a|, W);
      assert (a + b)[..|a|] == a;
    }
  }

  lemma {:induction false} TokenReaches(tokens: seq<Token>, k: nat, W: nat)
    requires Fast.AllInFormat(tokens, W) && k < |tokens|
    ensures InFormat(tokens[k], W) && (tokens[k].Pair? ==> tokens[k].dist <= |Expand(tokens[..k])|)
    decreases |tokens|
  {
    if k < |tokens| - 1 {
      TokenReaches(tokens[..|tokens| - 1], k, W);
      assert tokens[..|tokens| - 1][..k] == tokens[..k];
    }
  }

  /** The data before the last k blocks. */
  ghost predicate Holds(level: nat, blocks: seq<Block>, data: seq<byte>, upto: nat, W: nat)
  {
    && Tiles(blocks, data, upto)
    && if level == 0 then Stored.AllStored(blocks)
       else TokensTile(blocks, data, upto) && Fast.AllInFormat(AllTokens(blocks), W)
  }

  lemma HoldsLess(level: nat, blocks: seq<Block>, data: seq<byte>, upto: nat, W: nat)
    requires Holds(level, blocks, data, upto, W) && blocks != []
    ensures var b := blocks[|blocks| - 1];
            b.len <= upto <= |data| && Holds(level, blocks[..|blocks| - 1], data, upto - b.len, W)
  {
    hide Expand;
    if level > 0 {
      var all, k := AllTokens(blocks), |AllTokens(blocks[..|blocks| - 1])|;
      Fewer(all, W, W, k);
      assert all[..k] == AllTokens(blocks[..|blocks| - 1]);
    }
  }

  /** One more block, stored or coded. */
  lemma BlockStands(level: nat, f: F.Block, blocks: seq<Block>, data: seq<byte>, upto: nat, W: nat)
    requires Holds(level, blocks, data, upto, W) && blocks != [] && Renders(level, f, blocks[|blocks| - 1])
    requires blocks[|blocks| - 1].len <= upto <= |data|
    ensures var u := upto - blocks[|blocks| - 1].len;
            F.BlockNear(data[..u], f, W) && F.AfterBlock(data[..u], f) == data[..upto]
  {
    hide Expand, Accepted, F.BlockOk, F.Near, F.ApplyAll, Fast.AllInFormat;
    var b := blocks[|blocks| - 1];
    var u := upto - b.len;
    if f.Raw? {
      assert data[..u] + data[u..upto] == data[..upto];
    } else {
      var before := AllTokens(blocks[..|blocks| - 1]);
      assert AllTokens(blocks) == before + b.tokens && F.Tokens(f.pieces) == b.tokens;
      assert TokensTile(blocks[..|blocks| - 1], data, u);
      TokensFollow(before, b.tokens, W);
    }
  }

  lemma {:induction false} RenderedIs(level: nat, fs: seq<F.Block>, blocks: seq<Block>, data: seq<byte>, upto: nat,
                                      W: nat)
    requires AllRender(level, fs, blocks) && Holds(level, blocks, data, upto, W)
    ensures upto <= |data| && F.Decoded([], fs) == data[..upto] && F.AllNear([], fs, W)
    decreases |fs|
  {
    hide Renders, F.AfterBlock, F.BlockNear;
    if fs == [] {
      NothingHeld(level, data, upto, W);
    } else {
      var k := |fs| - 1;
      HoldsLess(level, blocks, data, upto, W);
      var u := upto - blocks[k].len;
      RenderedIs(level, fs[..k], blocks[..k], data, u, W);
      BlockStands(level, fs[k], blocks, data, upto, W);
      assert fs == fs[..k] + [fs[k]];
      DecodedSnoc([], fs[..k], fs[k], W);
    }
  }

  lemma NothingHeld(level: nat, data: seq<byte>, upto: nat, W: nat)
    requires Holds(level, [], data, upto, W)
    ensures upto == 0
  {
  }

  lemma RenderedProper(level: nat, fs: seq<F.Block>, blocks: seq<Block>)
    requires AllRender(level, fs, blocks)
    ensures F.BlocksOk(fs) && AllAccepted(fs)
  {
    hide F.BlockOk, Accepted;
    forall k | 0 <= k < |fs|
      ensures F.BlockOk(fs[k]) && Accepted(fs[k])
    {
      assert Renders(level, fs[k], blocks[k]);
    }
  }

  // ----- streams

  /** putShortMSB, twice. */
  function BigEndian(n: nat): (t: seq<byte>)
    ensures |t| == 4
  {
    [n / 0x100_0000 % 256, n / 0x1_0000 % 256, n / 0x100 % 256, n % 256]
  }

  /** A whole zlib stream: header, blocks, checksum. */
  function Stream(header: seq<byte>, fs: seq<F.Block>, blocks: seq<Block>, check: nat): seq<byte>
    requires |fs| == |blocks| && F.BlocksOk(fs)
  {
    header + F.Pack(Written(0, fs, blocks)) + BigEndian(check)
  }

  lemma HeaderIsZlib(wBits: nat, level: nat, w: nat)
    requires 9 <= wBits <= 15 && level <= 9 && wBits <= w
    ensures var h := Header(wBits, level); ZlibHeader(h[0], h[1], w)
  {
    hide ZlibHeader;
    var flags := if level == 0 || level > 6 then 3 else (level - 1) / 2;
    var word := (8 + (wBits - 8) * 16) * 256 + flags * 64;
    HeaderWord(wBits, flags);
    WordIsZlib(word + 31 - word % 31, wBits, w);
  }

  lemma WordIsZlib(n: nat, wBits: nat, w: nat)
    requires 9 <= wBits <= 15 && wBits <= w && n / 256 == 8 + (wBits - 8) * 16 && n % 256 % 64 < 32 && n % 31 == 0
    ensures ZlibHeader(n / 256, n % 256, w)
  {
  }

  lemma HeaderWord(wBits: nat, flags: nat)
    requires 9 <= wBits <= 15 && flags < 4
    ensures var word := (8 + (wBits - 8) * 16) * 256 + flags * 64;
            var n := word + 31 - word % 31;
            && n / 256 == 8 + (wBits - 8) * 16 && n % 256 % 64 < 32 && n % 31 == 0
  {
  }

  lemma CheckIsTrailer(data: seq<byte>)
    ensures BigEndian(CheckOf(data)) == Trailer(data)
  {
    hide Adler32.Sum, Adler32.Weighted, Adler32.UpdateAll, Adler32.LargestPrimeBelow;
    Adler32.BaseIsLargest();
    Adler32.ChecksumIs(65521, data);
    TwoHalves((1 + Adler32.Sum(data)) % 65521, (|data| + Adler32.Weighted(data)) % 65521);
  }

  lemma TwoHalves(s1: nat, s2: nat)
    requires s1 < 65536 && s2 < 65536
    ensures BigEndian(s2 * 65536 + s1) == [s2 / 256, s2 % 256, s1 / 256, s1 % 256]
  {
    var n := s2 * 65536 + s1;
    assert n / 0x1_0000 == s2;
    assert n / 0x100 == s2 * 256 + s1 / 256;
    assert n / 0x100_0000 == s2 / 256;
  }

  /** What deflate handed over, rendered in any way, is a good stream for its input. */
  lemma StreamAccepted(level: nat, wBits: nat, fs: seq<F.Block>, blocks: seq<Block>, data: seq<byte>, w: nat,
                       w0: seq<byte>)
    requires level <= 9 && 9 <= wBits <= 15 && wBits <= w && Pow2(w) <= |w0|
    requires Faithful(level, wBits, blocks, data) && Wrote([], blocks, true) && AllRender(level, fs, blocks)
    ensures F.BlocksOk(fs)
    ensures Accepts(Stream(Header(wBits, level), fs, blocks, CheckOf(data)), w, Pow2(w), w0, false, data)
  {
    RenderedProper(level, fs, blocks);
    hide Accepts, Header, CheckOf, Trailer, AllAccepted, F.BlocksOk, F.BlocksBits, F.Decoded, F.AllNear, F.Pack,
         Written, BigEndian, Tiles, TokensTile, Fast.AllInFormat, AllTokens, Expand, Shl, ZlibHeader;
    Pow2Mono(wBits, w);
    RenderedIs(level, fs, blocks, data, |data|, Pow2(wBits));
    assert data[..|data|] == data;
    NearMore([], fs, Pow2(wBits), Pow2(w));
    HeaderIsZlib(wBits, level, w);
    var h := Header(wBits, level);
    HeaderPair(wBits, level);
    ZlibAccepted(h[0], h[1], fs, w, Pow2(w), w0);
    WrittenIs(0, fs, blocks);
    CheckIsTrailer(data);
  }

  lemma HeaderPair(wBits: nat, level: nat)
    requires 9 <= wBits <= 15 && level <= 9
    ensures var h := Header(wBits, level); h == [h[0], h[1]]
  {
  }

  /** A distance that a window reaches, a larger one reaches. */
  lemma {:induction false} NearMore(out: seq<byte>, fs: seq<F.Block>, W: nat, W': nat)
    requires F.AllNear(out, fs, W) && W <= W'
    ensures F.AllNear(out, fs, W')
    decreases |fs|
  {
    hide F.AfterBlock;
    if fs != [] {
      if !fs[0].Raw? {
        TokensNear(out, F.Tokens(fs[0].pieces), W, W');
      }
      NearMore(F.AfterBlock(out, fs[0]), fs[1..], W, W');
    }
  }

  lemma {:induction false} TokensNear(out: seq<byte>, tokens: seq<Token>, W: nat, W': nat)
    requires F.Near(out, tokens, W) && W <= W'
    ensures F.Near(out, tokens, W')
    decreases |tokens|
  {
    hide Apply;
    if tokens != [] {
      TokensNear(Apply(out, tokens[0]), tokens[1..], W, W');
    }
  }

  // ----- a writer that there is

  /** The tokens, if they are of the format, in the spelling that the rules give. */
  function Spelled(tokens: seq<Token>): (ps: seq<F.Piece>)
    ensures |ps| == |tokens|
  {
    if tokens == [] then []
    else [if InFormat(tokens[0], 32768) then F.PieceOf(tokens[0]) else F.Byte(0)] + Spelled(tokens[1..])
  }

  lemma {:induction false} SpelledIs(tokens: seq<Token>)
    requires forall k :: 0 <= k < |tokens| ==> InFormat(tokens[k], 32768)
    ensures F.Tokens(Spelled(tokens)) == tokens && F.AllWritable(F.Fixed, Spelled(tokens))
  {
    hide F.PieceOf, F.TokenOf;
    if tokens != [] {
      var p := F.PieceOf(tokens[0]);
      SpelledIs(tokens[1..]);
      assert Spelled(tokens)[1..] == Spelled(tokens[1..]) && Spelled(tokens)[0] == p;
      assert F.Writable(F.Fixed, p);
    }
  }

  /** Stored blocks on level 0, and fixed codes on the others. */
  function Plain(level: nat, b: Block): F.Block
  {
    if level == 0 && b.buf.Bytes? then F.Raw(b.buf.bytes, 0) else F.FixedCodes(Spelled(b.tokens))
  }

  function AllPlain(level: nat, blocks: seq<Block>): (fs: seq<F.Block>)
    ensures |fs| == |blocks| && forall k :: 0 <= k < |fs| ==> fs[k] == Plain(level, blocks[k])
  {
    seq(|blocks|, k requires 0 <= k < |blocks| => Plain(level, blocks[k]))
  }

  /** Every token of a block is one of all of them. */
  lemma {:induction false} TokenOfBlock(blocks: seq<Block>, k: nat, i: nat) returns (j: nat)
    requires k < |blocks| && i < |blocks[k].tokens|
    ensures j < |AllTokens(blocks)| && AllTokens(blocks)[j] == blocks[k].tokens[i]
    decreases |blocks|
  {
    var last := |blocks| - 1;
    if k == last {
      j := |AllTokens(blocks[..last])| + i;
    } else {
      j := TokenOfBlock(blocks[..last], k, i);
    }
  }

  lemma PlainRenders(level: nat, wBits: nat, blocks: seq<Block>, data: seq<byte>)
    requires Faithful(level, wBits, blocks, data) && wBits <= 15
    ensures AllRender(level, AllPlain(level, blocks), blocks)
  {
    hide Tiles, TokensTile, Expand;
    forall k | 0 <= k < |blocks|
      ensures Renders(level, Plain(level, blocks[k]), blocks[k])
    {
      if level > 0 {
        PlainWritable(wBits, blocks, k);
      }
    }
  }

  lemma PlainWritable(wBits: nat, blocks: seq<Block>, k: nat)
    requires Fast.AllInFormat(AllTokens(blocks), Pow2(wBits)) && wBits <= 15 && k < |blocks|
    ensures F.AllWritable(F.Fixed, Spelled(blocks[k].tokens))
    ensures F.Tokens(Spelled(blocks[k].tokens)) == blocks[k].tokens
  {
    hide Expand, AllTokens, Fast.AllInFormat, Shl;
    Pow2Mono(wBits, 15);
    Bits.Powers();
    forall i | 0 <= i < |blocks[k].tokens|
      ensures InFormat(blocks[k].tokens[i], 32768)
    {
      var j := TokenOfBlock(blocks, k, i);
      TokenReaches(AllTokens(blocks), j, Pow2(wBits));
    }
    SpelledIs(blocks[k].tokens);
  }

  // ----- the whole way

  /** The stream stands for data to every decoder with a window of 2^wBits bytes or more. */
  ghost predicate StandsFor(stream: seq<byte>, wBits: nat, data: seq<byte>)
  {
    forall w: nat, w0: seq<byte> {:trigger Accepts(stream, w, Pow2(w), w0, false, data)} ::
      wBits <= w && Pow2(w) <= |w0| ==> Accepts(stream, w, Pow2(w), w0, false, data)
  }

  /** Compress any input by any calls on any level, and write what deflate hands over. */
  method CompressStream(level: nat, windowBits: nat, memLevel: nat, strategy: Strategy, calls: seq<Call>,
      outs: seq<Output>) returns (r: Status, ghost stream: seq<byte>)
    requires level <= 9 && 9 <= windowBits <= 15 && 1 <= memLevel <= 9
    requires forall k :: 0 <= k < |calls| ==> calls[k].flush != FINISH
    requires FreeCalls(outs) > |AllBytes(calls)| + 2
    ensures r == STREAM_END && StandsFor(stream, windowBits, AllBytes(calls))
  {
    hide Accepts, Header, CheckOf, Faithful, Wrote, AllRender, Stream, AllPlain, Meaning, F.BlocksOk, Shl;
    ghost var blocks, header, trailer;
    r, blocks, header, trailer := CompressWhole(level, windowBits, memLevel, strategy, false, calls, outs);
    ghost var data, fs := AllBytes(calls), AllPlain(level, blocks);
    PlainRenders(level, windowBits, blocks, data);
    PlainSize(level, blocks);
    RenderedProper(level, fs, blocks);
    stream := Stream(header, fs, blocks, trailer.value);
    forall w: nat, w0: seq<byte> | windowBits <= w && Pow2(w) <= |w0|
      ensures Accepts(stream, w, Pow2(w), w0, false, data)
    {
      StreamAccepted(level, windowBits, fs, blocks, data, w, w0);
    }
  }

  lemma PlainSize(level: nat, blocks: seq<Block>)
    ensures |AllPlain(level, blocks)| == |blocks|
  {
  }

  /** Decode such a stream by any calls, the last one with room for more than all of the data: the data
      come back. */
  method DecodeStream(stream: seq<byte>, w: nat, calls: seq<InflateCalls.Call>, ghost wBits: nat, ghost data: seq<byte>)
    returns (r: Status, out: seq<byte>, check: nat)
    requires 9 <= wBits <= w <= 15 && StandsFor(stream, wBits, data)
    requires calls != [] && InflateCalls.AllBytes(calls) == stream && |data| < calls[|calls| - 1].room
    ensures r == STREAM_END && out == data && check == CheckOf(data)
  {
    hide Accepts, CheckOf, InflateCalls.Verdict, InflateCalls.AllBytes, Shl;
    var room;
    ghost var w0;
    r, out, check, room, w0 := InflateCalls.Decode(stream, w, calls);
    assert Accepts(stream, w, Pow2(w), w0, false, data);
    InflateCalls.GoodIsDecoded(stream, w, w0, r, out, check, room, calls[|calls| - 1].room, data);
  }
}
