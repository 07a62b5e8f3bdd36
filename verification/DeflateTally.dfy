/** The buffers in which deflate collects literals and pairs, and the blocks made from them. */
module DeflateTally {
  import opened Zlib
  import opened DeflateTokens

  datatype Buffer = Null | Bytes(bytes: seq<byte>)

  /** A block handed to the block writer: its tokens, the bytes it may store instead if they are
      still in the window, how many those are, and whether it is the last. */
  datatype Block = Block(tokens: seq<Token>, buf: Buffer, len: nat, eof: bool)

  function AllTokens(blocks: seq<Block>): seq<Token>
  {
    if blocks == [] then [] else AllTokens(blocks[..|blocks| - 1]) + blocks[|blocks| - 1].tokens
  }

  /** Blocks were added to `was`, of which only the very last, and only if `end`, is marked as last. */
  ghost predicate Wrote(was: seq<Block>, blocks: seq<Block>, end: bool)
  {
    && was <= blocks && (end ==> was != blocks)
    && forall i :: |was| <= i < |blocks| ==> (blocks[i].eof <==> end && i == |blocks| - 1)
  }

  /** The blocks lie end to end over the first upto bytes of data, and a stored form is just the
      part of the data that the block lies over. */
  ghost predicate Tiles(blocks: seq<Block>, data: seq<byte>, upto: nat)
  {
    upto <= |data| &&
    if blocks == [] then upto == 0
    else
      var b := blocks[|blocks| - 1];
      b.len <= upto && Tiles(blocks[..|blocks| - 1], data, upto - b.len) &&
        (b.buf.Bytes? ==> b.buf.bytes == data[upto - b.len..upto])
  }

  /** The tokens of each block stand for the same part of the data as well. */
  ghost predicate TokensTile(blocks: seq<Block>, data: seq<byte>, upto: nat)
  {
    upto <= |data| && Expand(AllTokens(blocks)) == data[..upto] &&
    (blocks != [] ==>
      var b := blocks[|blocks| - 1];
      b.len <= upto && TokensTile(blocks[..|blocks| - 1], data, upto - b.len))
  }

  lemma {:induction false} TilesGrow(blocks: seq<Block>, data: seq<byte>, data': seq<byte>, upto: nat)
    requires data <= data'
    ensures Tiles(blocks, data, upto) ==> Tiles(blocks, data', upto)
    ensures TokensTile(blocks, data, upto) ==> TokensTile(blocks, data', upto)
  {
    if upto <= |data| {
      assert data'[..upto] == data[..upto];
      if blocks != [] && blocks[|blocks| - 1].len <= upto {
        var b := blocks[|blocks| - 1];
        TilesGrow(blocks[..|blocks| - 1], data, data', upto - b.len);
        assert data'[upto - b.len..upto] == data[upto - b.len..upto];
      }
    }
  }

  lemma TilesSnoc(blocks: seq<Block>, b: Block, data: seq<byte>, upto: nat)
    requires Tiles(blocks, data, upto) && upto + b.len <= |data|
    requires b.buf.Bytes? ==> b.buf.bytes == data[upto..upto + b.len]
    ensures Tiles(blocks + [b], data, upto + b.len)
  {
    assert (blocks + [b])[..|blocks|] == blocks;
  }

  lemma TokensSnoc(blocks: seq<Block>, b: Block, data: seq<byte>, upto: nat)
    requires TokensTile(blocks, data, upto) && upto + b.len <= |data|
    requires Expand(AllTokens(blocks) + b.tokens) == data[..upto + b.len]
    ensures TokensTile(blocks + [b], data, upto + b.len)
    ensures AllTokens(blocks + [b]) == AllTokens(blocks) + b.tokens
  {
    assert (blocks + [b])[..|blocks|] == blocks;
  }

  /** What an element of the buffers stands for: d_buf holds 0 for a literal. */
  function TokenOf(d: nat, l: byte): Token
  {
    if d == 0 then Literal(l) else Pair(d, l + 3)
  }

  class Tally {
    const lBuf: array<byte>  // buffer for literals or lengths
    const dBuf: array<nat>   // buffer for distances
    const litBufsize: nat
    var lastLit: nat         // running index in lBuf
    ghost var tokens: seq<Token>   // all tokens so far
    ghost var blocks: seq<Block>   // all blocks so far

    constructor (litBufsize: nat)
      requires litBufsize >= 128
      ensures Valid() && this.litBufsize == litBufsize && tokens == [] && blocks == [] && lastLit == 0
      ensures fresh(lBuf) && fresh(dBuf)
    {
      this.litBufsize := litBufsize;
      lBuf := new byte[litBufsize](_ => 0);
      dBuf := new nat[litBufsize](_ => 0);
      lastLit, tokens, blocks := 0, [], [];
    }

    /** The tokens since the last block are those in the buffers, which have room for one more. */
    ghost predicate Valid()
      reads this, lBuf, dBuf
    {
      && lBuf.Length == dBuf.Length == litBufsize && lastLit < litBufsize
      && |AllTokens(blocks)| + lastLit == |tokens| && AllTokens(blocks) == tokens[..|tokens| - lastLit]
      && forall i :: 0 <= i < lastLit ==> TokenOf(dBuf[i], lBuf[i]) == tokens[|tokens| - lastLit + i]
    }

    /** The tokens in the buffers. */
    ghost function Pending(): seq<Token>
      requires Valid()
      reads this, lBuf, dBuf
    {
      tokens[|tokens| - lastLit..]
    }

    /** _tr_tally_lit: is the buffer full? */
    method Literal(c: byte) returns (full: bool)
      requires Valid() && lastLit < litBufsize - 1
      modifies this`lastLit, this`tokens, lBuf, dBuf
      ensures Valid() && tokens == old(tokens) + [Token.Literal(c)] && lastLit == old(lastLit) + 1
      ensures full <==> lastLit == litBufsize - 1
    {
      dBuf[lastLit] := 0;
      lBuf[lastLit] := c;
      lastLit := lastLit + 1;
      tokens := tokens + [Token.Literal(c)];
      full := lastLit == litBufsize - 1;
    }

    /** _tr_tally_dist for a pair of the given distance and length - MIN_MATCH. */
    method Dist(distance: nat, length: byte) returns (full: bool)
      requires Valid() && lastLit < litBufsize - 1 && distance > 0
      modifies this`lastLit, this`tokens, lBuf, dBuf
      ensures Valid() && tokens == old(tokens) + [Pair(distance, length + 3)] && lastLit == old(lastLit) + 1
      ensures full <==> lastLit == litBufsize - 1
    {
      dBuf[lastLit] := distance;
      lBuf[lastLit] := length;
      lastLit := lastLit + 1;
      tokens := tokens + [Pair(distance, length + 3)];
      full := lastLit == litBufsize - 1;
    }

    /** FLUSH_BLOCK_ONLY without the update of block_start: hand over the block, and start anew. */
    method Flush(buf: Buffer, len: nat, eof: bool)
      requires Valid()
      modifies this`lastLit, this`blocks
      ensures Valid() && lastLit == 0 && blocks == old(blocks) + [Block(old(Pending()), buf, len, eof)]
    {
      ghost var b := Block(Pending(), buf, len, eof);
      assert (blocks + [b])[..|blocks|] == blocks;
      assert tokens == tokens[..|tokens| - lastLit] + Pending();
      blocks := blocks + [b];
      lastLit := 0;
      assert tokens[..|tokens|] == tokens;
    }
  }
}
