/** Round trips: streams written by the rules of RFC 1951 and RFC 1950, down to their bytes, are good streams
    that stand for exactly the data written. */
module FormatStreams {
  import opened Zlib
  import opened BitInput
  import opened FormatBits
  import opened FormatDecodes
  import opened FormatExact
  import opened Inflate
  import opened InflateSpec
  import opened InflateWindow
  import opened BlockSteps
  import opened Bits
  import F = Format
  import Adler32
  import InflateSync

  // ----- raw streams

  /** The block data of a stream. */
  function BlockBytes(blocks: seq<F.Block>): seq<byte>
    requires F.BlocksOk(blocks)
  {
    F.Pack(F.BlocksBits(0, blocks))
  }

  /** A writer's conditions: there is a block, and inflate takes its codes and reaches its distances. */
  ghost predicate Proper(blocks: seq<F.Block>, W: nat)
  {
    blocks != [] && F.BlocksOk(blocks) && AllAccepted(blocks) && F.AllNear([], blocks, W)
  }

  /** Only the position within a byte matters to the bits of a block. */
  lemma {:induction false} Moved(pos: nat, k: nat, blocks: seq<F.Block>)
    requires F.BlocksOk(blocks)
    ensures F.BlocksBits(8 * k + pos, blocks) == F.BlocksBits(pos, blocks)
    decreases |blocks|
  {
    hide F.BlockOk, F.BlockBits;
    if blocks != [] {
      MovedOne(pos, k, blocks[0], |blocks| == 1);
      Moved(pos + |F.BlockBits(pos, blocks[0], |blocks| == 1)|, k, blocks[1..]);
    }
  }

  lemma MovedOne(pos: nat, k: nat, b: F.Block, last: bool)
    requires F.BlockOk(b)
    ensures F.BlockBits(8 * k + pos, b, last) == F.BlockBits(pos, b, last)
  {
    hide F.Number, F.BytesBits, F.HeaderBits, F.HeaderOk, F.PiecesBits, F.AllWritable;
    assert (8 * k + pos + 3) % 8 == (pos + 3) % 8;
  }

  /** The run over a stream that has the blocks from byte k on. */
  lemma StreamGets(I: seq<byte>, W: nat, w0: seq<byte>, k: nat, blocks: seq<F.Block>)
    requires 0 < W <= |w0| && Proper(blocks, W) && At(I, 8 * k, F.BlocksBits(0, blocks))
    ensures Gets(Job(I, W, w0, 8 * k), State(8 * k + |F.BlocksBits(0, blocks)|, Done, true, F.Decoded([], blocks)))
  {
    hide From, At, Run, F.BlocksOk, F.BlocksBits, F.AllNear, F.Decoded, AllAccepted;
    var job := Job(I, W, w0, 8 * k);
    Moved(0, k, blocks);
    Starts(job);
    BlocksGet(job, 8 * k, false, [], blocks);
    var a := State(8 * k + |F.BlocksBits(0, blocks)|, Dry, true, F.Decoded([], blocks));
    var n: nat :| After(job, n, a);
    AfterEnd(job, n, a);
    GetsAt(job, n + 1, a.(mode := Done));
  }

  lemma Starts(job: Job)
    requires 0 < job.W <= |job.w0|
    ensures Gets(job, State(job.start, Type, false, []))
  {
    GetsAt(job, 0, State(job.start, Type, false, []));
  }

  /** A raw stream stands for its data, whatever follows it. */
  lemma RawAccepted(blocks: seq<F.Block>, more: seq<byte>, wbits: nat, W: nat, w0: seq<byte>)
    requires 0 < W <= |w0| && Proper(blocks, W)
    ensures Accepts(BlockBytes(blocks) + more, wbits, W, w0, true, F.Decoded([], blocks))
  {
    hide From, At, Gets, After, Proper, F.BlocksBits, F.Pack, F.Decoded;
    ProperIs(blocks, W);
    var I := BlockBytes(blocks) + more;
    PackedAt(F.BlocksBits(0, blocks), more);
    StreamGets(I, W, w0, 0, blocks);
    EndOf(I, W, w0, 0, |F.BlocksBits(0, blocks)|, F.Decoded([], blocks));
    assert JobFor(I, W, w0, true) == Job(I, W, w0, 0);
  }

  lemma ProperIs(blocks: seq<F.Block>, W: nat)
    requires Proper(blocks, W)
    ensures F.BlocksOk(blocks)
  {
  }

  lemma EndOf(I: seq<byte>, W: nat, w0: seq<byte>, start: nat, pos: nat, out: seq<byte>)
    requires Gets(Job(I, W, w0, start), State(pos, Done, true, out))
    ensures exists n: nat :: Decoded(Job(I, W, w0, start), n, pos, out)
  {
    hide After;
    var n: nat :| After(Job(I, W, w0, start), n, State(pos, Done, true, out));
    assert Decoded(Job(I, W, w0, start), n, pos, out);
  }

  // ----- zlib streams

  /** Section 2.2 of RFC 1950: the method is 8, the window has at most 2^w bytes, no dictionary is asked
      for, and the two bytes are a multiple of 31. */
  predicate ZlibHeader(cmf: byte, flg: byte, w: nat)
  {
    cmf % 16 == 8 && cmf / 16 <= w - 8 && (256 * cmf + flg) % 31 == 0 && flg % 64 < 32
  }

  /** The checksum of section 8.2, the most significant byte first. */
  function Trailer(data: seq<byte>): (t: seq<byte>)
    ensures |t| == 4
  {
    var s1, s2 := (1 + Adler32.Sum(data)) % 65521, (|data| + Adler32.Weighted(data)) % 65521;
    [s2 / 256, s2 % 256, s1 / 256, s1 % 256]
  }

  function WholeStream(cmf: byte, flg: byte, blocks: seq<F.Block>): seq<byte>
    requires F.BlocksOk(blocks)
  {
    [cmf, flg] + BlockBytes(blocks) + Trailer(F.Decoded([], blocks))
  }

  lemma TrailerIs(data: seq<byte>)
    ensures Leading(Trailer(data), 0, 4) == CheckOf(data)
  {
    Adler32.BaseIsLargest();
    Adler32.ChecksumIs(65521, data);
    hide Adler32.Sum, Adler32.Weighted, Adler32.UpdateAll, Adler32.LargestPrimeBelow;
    var s1, s2 := (1 + Adler32.Sum(data)) % 65521, (|data| + Adler32.Weighted(data)) % 65521;
    FourBytes(s1, s2);
  }

  lemma FourBytes(s1: nat, s2: nat)
    requires s1 < 65536 && s2 < 65536
    ensures Leading([s2 / 256, s2 % 256, s1 / 256, s1 % 256], 0, 4) == s2 * 65536 + s1
  {
  }

  lemma LeadingBehind(h: seq<byte>, t: seq<byte>)
    requires |t| == 4
    ensures Leading(h + t, |h|, 4) == Leading(t, 0, 4)
  {
  }

  lemma HeaderIs(cmf: byte, flg: byte, rest: seq<byte>, w: nat)
    requires ZlibHeader(cmf, flg, w)
    ensures Inflate.HeaderOk([cmf, flg] + rest, w)
  {
  }

  /** A stream with header and checksum stands for its data. */
  lemma ZlibAccepted(cmf: byte, flg: byte, blocks: seq<F.Block>, wbits: nat, W: nat, w0: seq<byte>)
    requires 0 < W <= |w0| && Proper(blocks, W) && ZlibHeader(cmf, flg, wbits)
    ensures Accepts(WholeStream(cmf, flg, blocks), wbits, W, w0, false, F.Decoded([], blocks))
  {
    hide From, At, Gets, After, Proper, ZlibHeader, F.BlocksBits, F.Pack, F.Decoded, Trailer, Leading, CheckOf;
    ProperIs(blocks, W);
    var data, bits := F.Decoded([], blocks), F.BlocksBits(0, blocks);
    var I := WholeStream(cmf, flg, blocks);
    var h, t := [cmf, flg], Trailer(data);
    assert I == h + (F.Pack(bits) + t) == (h + F.Pack(bits)) + t;
    HeaderIs(cmf, flg, F.Pack(bits) + t, wbits);
    PackedAt(bits, t);
    AtBehind(h, F.Pack(bits) + t, 0, bits);
    StreamGets(I, W, w0, 2, blocks);
    EndOf(I, W, w0, 16, 16 + |bits|, data);
    LeadingBehind(h + F.Pack(bits), t);
    TrailerIs(data);
    assert ByteEnd(16 + |bits|) == |h + F.Pack(bits)|;
    assert TrailerOk(I, ByteEnd(16 + |bits|), data);
    assert JobFor(I, W, w0, false) == Job(I, W, w0, 16);
  }

  // ----- stored blocks, byte by byte

  /** Section 3.2.4: a stored block that begins with a byte. */
  function StoredBytes(data: seq<byte>, last: bool): seq<byte>
    requires |data| <= 65535
  {
    [if last then 1 else 0, |data| % 256, |data| / 256, 255 - |data| % 256, 255 - |data| / 256] + data
  }

  predicate Short(parts: seq<seq<byte>>)
  {
    forall k :: 0 <= k < |parts| ==> |parts[k]| <= 65535
  }

  function StoredStream(parts: seq<seq<byte>>): seq<byte>
    requires Short(parts)
  {
    if parts == [] then [] else StoredBytes(parts[0], |parts| == 1) + StoredStream(parts[1..])
  }

  function Joined(parts: seq<seq<byte>>): seq<byte>
  {
    if parts == [] then [] else parts[0] + Joined(parts[1..])
  }

  function StoredBlocks(parts: seq<seq<byte>>): (blocks: seq<F.Block>)
    ensures |blocks| == |parts|
  {
    if parts == [] then [] else [F.Raw(parts[0], 0)] + StoredBlocks(parts[1..])
  }

  lemma {:induction false} StoredAt(parts: seq<seq<byte>>, k: nat)
    requires k < |parts|
    ensures StoredBlocks(parts)[k] == F.Raw(parts[k], 0)
  {
    if k > 0 {
      StoredAt(parts[1..], k - 1);
    }
  }

  lemma StoredOk(parts: seq<seq<byte>>)
    requires Short(parts)
    ensures F.BlocksOk(StoredBlocks(parts)) && AllAccepted(StoredBlocks(parts))
  {
    forall k | 0 <= k < |parts|
      ensures F.BlockOk(StoredBlocks(parts)[k]) && Accepted(StoredBlocks(parts)[k])
    {
      StoredAt(parts, k);
    }
  }

  lemma {:induction false} StoredDecoded(parts: seq<seq<byte>>, out: seq<byte>, W: nat)
    ensures F.AllNear(out, StoredBlocks(parts), W) && F.Decoded(out, StoredBlocks(parts)) == out + Joined(parts)
    decreases |parts|
  {
    hide F.Tokens, F.ApplyAll, F.Near;
    if parts == [] {
      assert out + Joined(parts) == out;
    } else {
      StoredDecoded(parts[1..], out + parts[0], W);
      var first, rest := F.Raw(parts[0], 0), StoredBlocks(parts[1..]);
      assert StoredBlocks(parts) == [first] + rest && StoredBlocks(parts)[1..] == rest;
      assert F.AfterBlock(out, first) == out + parts[0];
      assert out + parts[0] + Joined(parts[1..]) == out + Joined(parts);
    }
  }

  lemma StoredProper(parts: seq<seq<byte>>, W: nat)
    requires Short(parts)
    ensures F.BlocksOk(StoredBlocks(parts)) && AllAccepted(StoredBlocks(parts))
    ensures F.AllNear([], StoredBlocks(parts), W) && F.Decoded([], StoredBlocks(parts)) == Joined(parts)
  {
    StoredOk(parts);
    StoredDecoded(parts, [], W);
    assert [] + Joined(parts) == Joined(parts);
  }

  lemma {:induction false} BytesJoined(s: seq<byte>, t: seq<byte>)
    ensures F.BytesBits(s + t) == F.BytesBits(s) + F.BytesBits(t)
  {
    hide F.Number;
    if s == [] {
      assert s + t == t;
    } else {
      BytesJoined(s[1..], t);
      assert (s + t)[1..] == s[1..] + t;
    }
  }

  /** A number of 16 bits as two bytes. */
  lemma TwoBytes(x: nat)
    requires x < 65536
    ensures F.Number(x, 16) == F.BytesBits([x % 256, x / 256])
  {
    NumberParts(x, 8, 8);
    Times256(x / 256);
    Bits.Powers();
    Unique(x, x / 256, 8, x % 256);
    LowBits(x, 8);
    Small(x % 256, 8);
    assert [x % 256, x / 256][1..] == [x / 256];
    assert F.BytesBits([x / 256]) == F.Number(x / 256, 8) + F.BytesBits([]);
  }

  lemma {:induction false} LowBits(x: nat, n: nat)
    ensures F.Number(x, n) == F.Number(Low(x, n), n)
  {
    if n > 0 {
      LowBits(x / 2, n - 1);
    }
  }

  lemma StoredBits(data: seq<byte>, last: bool, p: nat)
    requires |data| <= 65535
    ensures F.BlockBits(8 * p, F.Raw(data, 0), last) == F.BytesBits(StoredBytes(data, last))
  {
    hide F.Number, F.BytesBits;
    var n := |data|;
    var first: byte := if last then 1 else 0;
    var x, y, z := [first], [n % 256, n / 256], [(0xffff - n) % 256, (0xffff - n) / 256];
    FirstByte(last);
    TwoBytes(n);
    TwoBytes(0xffff - n);
    BytesJoined(x, y);
    BytesJoined(x + y, z);
    BytesJoined(x + y + z, data);
    Complement(n);
    assert StoredBytes(data, last) == x + y + z + data;
    assert F.ToByte(8 * p + 3) == 5;
  }

  lemma Complement(n: nat)
    requires n <= 0xffff
    ensures (0xffff - n) % 256 == 255 - n % 256 && (0xffff - n) / 256 == 255 - n / 256
  {
  }

  lemma FirstByte(last: bool)
    ensures F.BytesBits([if last then 1 else 0]) == [last] + F.Number(0, 2) + F.Number(0, 5)
  {
  }

  lemma {:induction false} StoredIs(parts: seq<seq<byte>>, p: nat)
    requires Short(parts) && F.BlocksOk(StoredBlocks(parts))
    ensures F.BlocksBits(8 * p, StoredBlocks(parts)) == F.BytesBits(StoredStream(parts))
    decreases |parts|
  {
    hide F.BlockBits, F.BytesBits, StoredBytes;
    if parts == [] {
      NoBytes();
    } else {
      var x := StoredBytes(parts[0], |parts| == 1);
      StoredBits(parts[0], |parts| == 1, p);
      assert StoredBlocks(parts)[1..] == StoredBlocks(parts[1..]);
      StoredIs(parts[1..], p + |x|);
      BytesJoined(x, StoredStream(parts[1..]));
    }
  }

  lemma NoBytes()
    ensures F.BytesBits([]) == []
  {
  }

  /** Stored blocks, written byte by byte, are a good stream for their data. */
  lemma StoredAccepted(parts: seq<seq<byte>>, more: seq<byte>, wbits: nat, W: nat, w0: seq<byte>)
    requires 0 < W <= |w0| && parts != [] && Short(parts)
    ensures Accepts(StoredStream(parts) + more, wbits, W, w0, true, Joined(parts))
  {
    hide From, At, Gets, After, F.BlocksOk, F.BlocksBits, F.AllNear, F.Decoded, F.BytesBits, AllAccepted, Short;
    var s := StoredStream(parts);
    var I := s + more;
    StoredProper(parts, W);
    StoredIs(parts, 0);
    assert I[0..0 + |s|] == s;
    BytesAt(I, 0, s);
    StreamGets(I, W, w0, 0, StoredBlocks(parts));
    EndOf(I, W, w0, 0, |F.BlocksBits(0, StoredBlocks(parts))|, Joined(parts));
    assert JobFor(I, W, w0, true) == Job(I, W, w0, 0);
  }

  /** The same with header and checksum. */
  lemma ZlibStoredAccepted(cmf: byte, flg: byte, parts: seq<seq<byte>>, wbits: nat, W: nat, w0: seq<byte>)
    requires 0 < W <= |w0| && parts != [] && Short(parts) && ZlibHeader(cmf, flg, wbits)
    ensures Accepts([cmf, flg] + StoredStream(parts) + Trailer(Joined(parts)), wbits, W, w0, false, Joined(parts))
  {
    hide From, At, F.BlocksOk, F.BlocksBits, F.AllNear, F.Decoded, F.BytesBits, F.Pack, AllAccepted, Short, ZlibHeader,
         Trailer, Accepts;
    StoredProper(parts, W);
    StoredIs(parts, 0);
    PackBytes(StoredStream(parts));
    ZlibAccepted(cmf, flg, StoredBlocks(parts), wbits, W, w0);
  }

  lemma {:induction false} PackBytes(s: seq<byte>)
    ensures F.Pack(F.BytesBits(s)) == s
  {
    if s != [] {
      var b := F.BytesBits(s);
      ValueNumber(s[0], 8);
      Bits.Powers();
      Small(s[0], 8);
      assert b[..8] == F.Number(s[0], 8) && b[8..] == F.BytesBits(s[1..]);
      PackBytes(s[1..]);
      if |s| == 1 {
        assert b == b[..8] && s == [s[0]];
      } else {
        assert s == [s[0]] + s[1..];
      }
    }
  }

  const EMPTY: seq<F.Block> := [F.FixedCodes([])]

  lemma EndCode()
    ensures F.LitBits(F.Fixed, 256) == [false, false, false, false, false, false, false]
  {
    assert F.Code(0, 3) == [false, false, false];
    assert F.Code(0, 5) == [false, false, false, false, false];
  }

  lemma EmptyBits()
    ensures F.BlocksOk(EMPTY)
    ensures F.BlocksBits(0, EMPTY) == [true, true, false, false, false, false, false, false, false, false]
    ensures F.Decoded([], EMPTY) == []
  {
    EndCode();
    assert F.Number(1, 2) == [true, false];
    assert EMPTY[1..] == [];
  }

  /** The stream of no data in one last block with fixed codes. */
  lemma EmptyStream()
    ensures F.BlocksOk(EMPTY) && WholeStream(0x78, 0x9c, EMPTY) == [0x78, 0x9c, 0x03, 0x00, 0x00, 0x00, 0x00, 0x01]
  {
    hide F.BlocksBits, F.Decoded, F.BlocksOk;
    EmptyBits();
    var bits := F.BlocksBits(0, EMPTY);
    assert bits[8..] == [false, false];
    assert bits[..8] == [true, true, false, false, false, false, false, false];
    ThreeBits();
    assert F.Pack([false, false]) == [0];
    assert F.Pack(bits) == [3] + F.Pack(bits[8..]);
    assert Adler32.Sum([]) == 0 && Adler32.Weighted([]) == 0;
  }

  lemma ThreeBits()
    ensures F.Value([true, true, false, false, false, false, false, false]) == 3 && F.Value([false, false]) == 0
  {
    assert F.Value([false, false, false]) == 0;
    assert [false, false, false, false, false, false][3..] == [false, false, false];
  }

  // ----- the marker of a full flush

  /** The marker that inflateSync looks for is what is left of an empty stored block behind its type. */
  lemma MarkIsEmptyBlock()
    ensures StoredBytes([], false) == [0] + InflateSync.MARK
  {
  }

  // ----- nothing else is accepted

  /** The blocks are in the stream from byte p on. */
  ghost predicate Holds(I: seq<byte>, p: nat, blocks: seq<F.Block>)
  {
    && blocks != [] && F.BlocksOk(blocks) && AllAccepted(blocks)
    && At(I, 8 * p, F.BlocksBits(0, blocks)) && 8 * p + |F.BlocksBits(0, blocks)| <= 8 * |I|
  }

  /** Where the data begin, and the byte behind blocks that begin there. */
  function DataAt(nowrap: bool): nat
  {
    if nowrap then 0 else 2
  }

  function Behind(nowrap: bool, blocks: seq<F.Block>): nat
    requires F.BlocksOk(blocks)
  {
    DataAt(nowrap) + (|F.BlocksBits(0, blocks)| + 7) / 8
  }

  /** The stream is these blocks, with the header and the checksum of `data` around them unless they are raw. */
  ghost predicate IsStream(I: seq<byte>, wbits: nat, nowrap: bool, blocks: seq<F.Block>, data: seq<byte>)
  {
    && Holds(I, DataAt(nowrap), blocks)
    && (nowrap ||
        var q := Behind(nowrap, blocks);
        |I| >= 2 && ZlibHeader(I[0], I[1], wbits) && q + 4 <= |I| && I[q..q + 4] == Trailer(data))
  }

  lemma HeaderExactly(I: seq<byte>, wbits: nat)
    ensures Inflate.HeaderOk(I, wbits) <==> |I| >= 2 && ZlibHeader(I[0], I[1], wbits)
  {
    hide HasDict;
    if |I| >= 2 {
      DictBit(I[1]);
    }
  }

  lemma DictBit(flg: byte)
    ensures HasDict(flg) <==> flg % 64 >= 32
  {
  }

  lemma LeadingUnique(I: seq<byte>, q: nat, t: seq<byte>)
    requires q + 4 <= |I| && |t| == 4
    ensures Leading(I, q, 4) == Leading(t, 0, 4) <==> I[q..q + 4] == t
  {
    assert I[q..q + 4] == [I[q], I[q + 1], I[q + 2], I[q + 3]] && t == [t[0], t[1], t[2], t[3]];
    FourDigits(I[q], I[q + 1], I[q + 2], I[q + 3], t[0], t[1], t[2], t[3]);
  }

  lemma FourDigits(a: byte, b: byte, c: byte, d: byte, x: byte, y: byte, z: byte, u: byte)
    ensures 0x100_0000 * a + 0x1_0000 * b + 0x100 * c + d == 0x100_0000 * x + 0x1_0000 * y + 0x100 * z + u
      <==> a == x && b == y && c == z && d == u
  {
    LastDigit(0x1_0000 * a + 0x100 * b + c, d, 0x1_0000 * x + 0x100 * y + z, u);
    LastDigit(0x100 * a + b, c, 0x100 * x + y, z);
    LastDigit(a, b, x, y);
  }

  lemma LastDigit(m: nat, d: byte, n: nat, e: byte)
    ensures 0x100 * m + d == 0x100 * n + e <==> m == n && d == e
  {
  }

  lemma TrailerExactly(I: seq<byte>, q: nat, data: seq<byte>)
    ensures TrailerOk(I, q, data) <==> q + 4 <= |I| && I[q..q + 4] == Trailer(data)
  {
    hide Trailer, CheckOf, Leading;
    if q + 4 <= |I| {
      TrailerIs(data);
      LeadingUnique(I, q, Trailer(data));
    }
  }

  lemma Ends(nowrap: bool, blocks: seq<F.Block>)
    requires F.BlocksOk(blocks)
    ensures ByteEnd(8 * DataAt(nowrap) + |F.BlocksBits(0, blocks)|) == Behind(nowrap, blocks)
  {
    hide F.BlocksBits, F.BlocksOk;
  }

  /** Every stream of blocks that stay near is accepted, with what they stand for. */
  lemma StreamIsAccepted(I: seq<byte>, wbits: nat, W: nat, w0: seq<byte>, nowrap: bool, blocks: seq<F.Block>)
    requires 0 < W <= |w0| && F.AllNear([], blocks, W) && IsStream(I, wbits, nowrap, blocks, F.Decoded([], blocks))
    ensures Accepts(I, wbits, W, w0, nowrap, F.Decoded([], blocks))
  {
    hide From, At, Gets, After, F.BlocksBits, F.BlocksOk, AllAccepted, F.AllNear, F.Decoded, Trailer, TrailerOk,
         ZlibHeader, Inflate.HeaderOk, ByteEnd, Decoded, Behind;
    var p, data := DataAt(nowrap), F.Decoded([], blocks);
    StreamGets(I, W, w0, p, blocks);
    var pos := 8 * p + |F.BlocksBits(0, blocks)|;
    EndOf(I, W, w0, 8 * p, pos, data);
    var n: nat :| Decoded(JobFor(I, W, w0, nowrap), n, pos, data);
    Ends(nowrap, blocks);
    HeaderExactly(I, wbits);
    TrailerExactly(I, ByteEnd(pos), data);
  }

  lemma Starting(job: Job, m: nat, pos: nat, data: seq<byte>)
    requires Decoded(job, m, pos, data)
    ensures 0 < job.W <= |job.w0|
  {
  }

  lemma BlocksOf(job: Job, m: nat, pos: nat, data: seq<byte>, p: nat) returns (blocks: seq<F.Block>)
    requires Decoded(job, m, pos, data) && job.start == 8 * p
    ensures blocks != [] && F.BlocksOk(blocks) && AllAccepted(blocks)
    ensures At(job.I, 8 * p, F.BlocksBits(0, blocks)) && pos == 8 * p + |F.BlocksBits(0, blocks)|
  {
    hide From, At, Step, F.BlocksBits, F.BlocksOk, AllAccepted;
    assert On(job, 0, m, State(8 * p, Type, false, []));
    var k, out;
    k, blocks, out := BlocksTaken(job, 0, m, 8 * p, false, []);
    var a := State(8 * p + |F.BlocksBits(8 * p, blocks)|, Dry, true, out);
    OnIs(job, k, m, a);
    AfterEnd(job, k, a);
    assert Decoded(job, k + 1, a.pos, out);
    DecodedOnce(job, m, pos, data, k + 1, a.pos, out);
    Moved(0, p, blocks);
  }

  /** Whatever is accepted is such a stream, and stands for what its blocks stand for. */
  lemma AcceptedIsStream(I: seq<byte>, wbits: nat, W: nat, w0: seq<byte>, nowrap: bool, data: seq<byte>)
    returns (blocks: seq<F.Block>)
    requires Accepts(I, wbits, W, w0, nowrap, data)
    ensures IsStream(I, wbits, nowrap, blocks, data) && (F.AllNear([], blocks, W) ==> F.Decoded([], blocks) == data)
  {
    hide From, At, Gets, After, Run, F.BlocksBits, F.BlocksOk, AllAccepted, F.AllNear, F.Decoded, Trailer, TrailerOk,
         ZlibHeader, Inflate.HeaderOk, ByteEnd, Behind;
    var job := JobFor(I, W, w0, nowrap);
    var m: nat, pos: nat :| Decoded(job, m, pos, data) && pos <= 8 * |I| &&
      (nowrap || (Inflate.HeaderOk(I, wbits) && TrailerOk(I, ByteEnd(pos), data)));
    var p := DataAt(nowrap);
    Starting(job, m, pos, data);
    blocks := BlocksOf(job, m, pos, data, p);
    Ends(nowrap, blocks);
    HeaderExactly(I, wbits);
    TrailerExactly(I, ByteEnd(pos), data);
    if F.AllNear([], blocks, W) {
      StreamGets(I, W, w0, p, blocks);
      EndOf(I, W, w0, 8 * p, pos, F.Decoded([], blocks));
      var n: nat :| Decoded(job, n, pos, F.Decoded([], blocks));
      DecodedOnce(job, m, pos, data, n, pos, F.Decoded([], blocks));
    }
  }

  /** No distance reaches behind the beginning, or farther than a window of W bytes. */
  ghost predicate StaysNear(I: seq<byte>, nowrap: bool, W: nat)
  {
    forall blocks :: Holds(I, DataAt(nowrap), blocks) ==> F.AllNear([], blocks, W)
  }

  /** The good streams are exactly those that a writer can write. */
  lemma AcceptsExactly(I: seq<byte>, wbits: nat, W: nat, w0: seq<byte>, nowrap: bool, data: seq<byte>)
    requires 0 < W <= |w0| && StaysNear(I, nowrap, W)
    ensures Accepts(I, wbits, W, w0, nowrap, data) <==>
      exists blocks :: IsStream(I, wbits, nowrap, blocks, data) && F.Decoded([], blocks) == data
  {
    hide Accepts, Holds, F.Decoded, F.AllNear, F.BlocksOk, Behind, F.BlocksBits, Trailer, ZlibHeader;
    if Accepts(I, wbits, W, w0, nowrap, data) {
      var blocks := AcceptedIsStream(I, wbits, W, w0, nowrap, data);
    }
    if blocks :| IsStream(I, wbits, nowrap, blocks, data) && F.Decoded([], blocks) == data {
      StreamIsAccepted(I, wbits, W, w0, nowrap, blocks);
    }
  }
}
