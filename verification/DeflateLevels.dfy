/** deflateInit2 and the choice of deflate_stored, deflate_fast or deflate_slow by configuration_table. */
module DeflateLevels {
  import opened Bits
  import opened Zlib
  import opened DeflateHash
  import opened DeflateTokens
  import opened DeflateDict
  import opened DeflateTally
  import opened DeflateState
  import Stored = DeflateStored
  import Fast = DeflateFast
  import Slow = DeflateSlow
  import InflateWindow

  /** What the blocks stand for: their stored bytes on level 0, their tokens otherwise. */
  ghost function Meaning(level: nat, blocks: seq<Block>): seq<byte>
  {
    if level == 0 then Stored.StoredBytes(blocks) else Expand(AllTokens(blocks))
  }

  /** All of the input is handed over, in blocks. */
  predicate Done(r: BlockState)
  {
    r == BLOCK_DONE || r == FINISH_DONE || r == FINISH_STARTED
  }

  /** A new state is ready for the function of its level. */
  lemma NewIsReady(s: DeflateState, level: nat)
    requires s.Core() && s.HashReady() && s.dict.top == 0 && s.tally.Valid() && s.tally.tokens == []
    requires s.tally.blocks == [] && s.tally.lastLit == 0
    requires s.data == [] && s.strstart == s.lookahead == s.blockStart == 0 && s.matchLength == 2 == s.prevLength
    requires !s.matchAvailable
    requires s.tally.litBufsize >= 128 && (level > 0 ==> s.maxChainLength >= 4)
    ensures Stored.Ready(s) && (level > 0 ==> Fast.Standing(s) && Slow.LazyStanding(s))
  {
    hide ChainsOk, ChainsFull, InflateWindow.CheckOf, KeysOk;
    s.ShapeOf();
  }

  /** The state is ready for the function of its level. */
  ghost predicate LevelReady(level: nat, s: DeflateState)
    reads s, s.dict, s.dict.head, s.dict.prev, s.window, s.tally, s.tally.lBuf, s.tally.dBuf
  {
    if level == 0 then Stored.Ready(s)
    else
      && 128 <= s.tally.litBufsize && s.tally.lastLit < s.tally.litBufsize - 1
      && if level <= 3 then Fast.Standing(s) else Slow.LazyStanding(s)
  }

  /** What the blocks handed over stand for. */
  lemma MeaningIs(level: nat, s: DeflateState)
    requires LevelReady(level, s)
    ensures 0 <= s.Covered() <= s.N() <= |s.data| == s.N() + s.lookahead
    ensures Meaning(level, s.tally.blocks) == s.data[..s.Covered()]
  {
    hide Stored.Ready, Fast.Standing, Slow.LazyStanding;
    if level == 0 {
      Stored.Whole(s);
      Stored.Bounds(s);
    } else if level <= 3 {
      Fast.Tokens(s);
      Fast.Bounds(s);
    } else {
      Slow.Tokens(s);
      Slow.LazyBounds(s);
    }
    Order(level, s);
  }

  lemma Order(level: nat, s: DeflateState)
    requires LevelReady(level, s)
    ensures s.Covered() <= s.N()
  {
    hide DeflateState.Core, Tiles, TokensTile, Expand;
  }

  /** The blocks lie end to end over all of the data, stored or as tokens, and what they hold can be written
      in the format for a window of 2^wBits bytes. */
  ghost predicate Faithful(level: nat, wBits: nat, blocks: seq<Block>, data: seq<byte>)
  {
    && Tiles(blocks, data, |data|)
    && if level == 0 then Stored.AllStored(blocks)
       else TokensTile(blocks, data, |data|) && Fast.AllInFormat(AllTokens(blocks), Pow2(wBits))
  }

  lemma FaithfulIs(level: nat, wBits: nat, s: DeflateState)
    requires LevelReady(level, s) && s.Covered() == |s.data| && s.wSize == Pow2(wBits)
    ensures Faithful(level, wBits, s.tally.blocks, s.data)
  {
    hide DeflateState.Core, Tiles, TokensTile, Expand, Fast.AllInFormat, AllTokens;
    if level > 0 {
      var all := s.tally.tokens;
      TallyIs(level, s);
      Fewer(all, s.MaxDist(), Pow2(wBits), |all| - s.tally.lastLit);
    }
  }

  lemma TallyIs(level: nat, s: DeflateState)
    requires LevelReady(level, s) && level > 0
    ensures s.tally.lastLit <= |s.tally.tokens|
    ensures AllTokens(s.tally.blocks) == s.tally.tokens[..|s.tally.tokens| - s.tally.lastLit]
    ensures Fast.AllInFormat(s.tally.tokens, s.MaxDist()) && TokensTile(s.tally.blocks, s.data, s.Covered())
  {
    hide DeflateState.Core, Tiles, TokensTile, Expand, Fast.AllInFormat, AllTokens;
  }

  lemma {:induction false} Fewer(tokens: seq<Token>, W: int, W': int, k: nat)
    requires Fast.AllInFormat(tokens, W) && W <= W' && k <= |tokens|
    ensures Fast.AllInFormat(tokens[..k], W')
    decreases |tokens|
  {
    hide Expand;
    if k == |tokens| {
      assert tokens[..k] == tokens;
      if k > 0 {
        Fewer(tokens[..k - 1], W, W', k - 1);
        assert tokens[..k - 1][..k - 1] == tokens[..k - 1];
      }
    } else {
      Fewer(tokens[..|tokens| - 1], W, W', k);
      assert tokens[..|tokens| - 1][..k] == tokens[..k];
    }
  }

  /** The function of the level. */
  method Level(level: nat, s: DeflateState, flush: FlushMode, ample: bool) returns (b: BlockState)
    requires LevelReady(level, s)
    modifies s, s.dict, s.dict.head, s.dict.prev, s.window, s.tally, s.tally.lBuf, s.tally.dBuf
    ensures LevelReady(level, s) && s.data + s.next == old(s.data + s.next) && old(s.data) <= s.data
    ensures Wrote(old(s.tally.blocks), s.tally.blocks, b == FINISH_DONE || b == FINISH_STARTED)
    ensures Done(b) ==> s.next == [] && s.Covered() == |s.data|
    ensures b == FINISH_DONE || b == FINISH_STARTED ==> flush == FINISH
    ensures b == BLOCK_DONE ==> flush != FINISH && flush != NO_FLUSH
    ensures ample ==> b != FINISH_STARTED && (b == NEED_MORE ==> flush == NO_FLUSH && s.next == [])
    ensures b == NEED_MORE && flush == FINISH ==> |s.next| + s.lookahead < old(|s.next| + s.lookahead)
  {
    hide Stored.Ready, Fast.Standing, Slow.LazyStanding;
    MeaningIs(level, s);
    if level == 0 {
      b := Stored.DeflateStored(s, flush, ample);
    } else if level <= 3 {
      b := Fast.DeflateFast(s, flush, ample);
    } else {
      b := Slow.DeflateSlow(s, flush, ample);
    }
    MeaningIs(level, s);
  }

  /** Compress a whole input on any level: whenever the function reports that it is done, the
      blocks stand for exactly that input; before, they stand for the beginning of it. */
  method Compress(level: nat, windowBits: nat, memLevel: nat, strategy: Strategy, input: seq<byte>, flush: FlushMode,
      ample: bool)
    returns (r: BlockState, s: DeflateState)
    requires level <= 9 && 9 <= windowBits <= 15 && 1 <= memLevel <= 9
    ensures fresh(s) && s.data + s.next == input
    ensures 0 <= s.Covered() <= |s.data| && Meaning(level, s.tally.blocks) == s.data[..s.Covered()] <= input
    ensures Done(r) ==> Meaning(level, s.tally.blocks) == input
    ensures ample && flush == FINISH ==> r == FINISH_DONE
  {
    s := new DeflateState(level, windowBits, memLevel, strategy);
    NewIsReady(s, level);
    Offer(level, s, input);
    r := Level(level, s, flush, ample);
    MeaningIs(level, s);
    InputSplit(s.data, s.next, s.Covered(), input);
  }

  /** More input for the compressor. */
  method Offer(level: nat, s: DeflateState, bytes: seq<byte>)
    requires LevelReady(level, s)
    modifies s`next
    ensures LevelReady(level, s) && s.next == old(s.next) + bytes
  {
    hide DeflateState.Core, Tiles, TokensTile, Expand;
    s.next := s.next + bytes;
  }

  lemma InputSplit(data: seq<byte>, next: seq<byte>, upto: nat, input: seq<byte>)
    requires data + next == input && upto <= |data|
    ensures data[..upto] <= input && (upto == |data| && next == [] ==> data[..upto] == input)
  {
    assert data[..upto] == input[..upto];
  }
}
