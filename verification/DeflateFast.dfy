/** deflate_fast of deflate.c: greedy matching, levels 1 to 3. */
module DeflateFast {
  import opened Zlib
  import opened DeflateHash
  import opened DeflateTokens
  import opened DeflateDict
  import opened DeflateTally
  import opened DeflateState
  import InflateWindow

  /** No pair is shorter or longer than a match can be, or farther away than W or than the beginning. */
  ghost predicate AllInFormat(tokens: seq<Token>, W: int)
  {
    tokens == [] ||
    var t, before := tokens[|tokens| - 1], tokens[..|tokens| - 1];
    AllInFormat(before, W) && InFormat(t, W) && (t.Pair? ==> t.dist <= |Expand(before)|)
  }

  /** Between two rounds the tokens stand for exactly the input before strstart. */
  ghost predicate Standing(s: DeflateState)
    reads s, s.dict, s.dict.head, s.dict.prev, s.window, s.tally, s.tally.lBuf, s.tally.dBuf
  {
    && s.Core() && s.BlocksOk() && s.HashReady() && s.dict.top <= s.N() && s.maxChainLength >= 4
    && s.matchLength < MIN_MATCH && s.prevLength == MIN_MATCH - 1
    && Expand(s.tally.tokens) == s.data[..s.N()] && TokensTile(s.tally.blocks, s.data, s.Covered())
    && AllInFormat(s.tally.tokens, s.MaxDist())
  }

  /** Tally the match found and go on behind it. */
  method TakeMatch(s: DeflateState, hashHead0: nat, ghost a0: nat) returns (bflush: bool, hashHead: nat, ghost a: nat)
    requires s.Core() && s.BlocksOk() && s.ReadyAt(1) && s.dict.top <= s.N() + 1 && s.maxChainLength >= 4
    requires s.WasHead(hashHead0, a0)
    requires s.Found(s.matchLength) && s.prevLength == MIN_MATCH - 1 && s.tally.lastLit < s.tally.litBufsize - 1
    requires s.strstart + MIN_LOOKAHEAD <= 2 * s.wSize
    requires Expand(s.tally.tokens) == s.data[..s.N()] && TokensTile(s.tally.blocks, s.data, s.Covered())
    requires AllInFormat(s.tally.tokens, s.MaxDist())
    modifies s`strstart, s`lookahead, s`matchLength, s.dict, s.dict.head, s.dict.prev, s.tally`lastLit,
             s.tally`tokens, s.tally.lBuf, s.tally.dBuf
    ensures Standing(s) && s.N() == old(s.N()) + old(s.matchLength) && s.WasHead(hashHead, a)
    ensures s.dict.base == old(s.dict.base) && forall b :: b in old(s.dict.ins) ==> b in s.dict.ins
    ensures s.tally.tokens == old(s.tally.tokens) + [Pair(old(s.strstart - s.matchStart), old(s.matchLength))]
    ensures bflush <==> s.tally.lastLit == s.tally.litBufsize - 1
  {
    hide ChainsOk, ChainsFull, InflateWindow.CheckOf, KeysOk, Tiles, TokensTile, Expand, Matches, AllTokens,
         AllInFormat;
    TallyMatch(s.tally.tokens, s.data, s.N(), s.strstart - s.matchStart, s.matchLength, s.MaxDist());
    bflush := s.tally.Dist(s.strstart - s.matchStart, s.matchLength - MIN_MATCH);
    hashHead, a := PassMatch(s, hashHead0, a0);
  }

  /** Insert the strings inside the match, unless it is long, and go on behind it. */
  method PassMatch(s: DeflateState, hashHead0: nat, ghost a0: nat) returns (hashHead: nat, ghost a: nat)
    requires s.Core() && s.BlocksOk() && s.ReadyAt(1) && s.dict.top <= s.N() + 1 && s.maxChainLength >= 4
    requires s.WasHead(hashHead0, a0)
    requires MIN_MATCH <= s.matchLength <= s.lookahead && s.prevLength == MIN_MATCH - 1
    requires s.strstart + MIN_LOOKAHEAD <= 2 * s.wSize
    requires s.matchLength <= MAX_MATCH
    requires Expand(s.tally.tokens) == s.data[..s.N() + s.matchLength]
    requires TokensTile(s.tally.blocks, s.data, s.Covered())
    requires AllInFormat(s.tally.tokens, s.MaxDist())
    modifies s`strstart, s`lookahead, s`matchLength, s.dict, s.dict.head, s.dict.prev
    ensures Standing(s) && s.N() == old(s.N()) + old(s.matchLength) && s.WasHead(hashHead, a)
    ensures s.dict.base == old(s.dict.base) && forall b :: b in old(s.dict.ins) ==> b in s.dict.ins
  {
    hide ChainsOk, ChainsFull, InflateWindow.CheckOf, KeysOk, Tiles, TokensTile, Expand, AllInFormat;
    if s.matchLength <= s.maxLazyMatch && s.lookahead - s.matchLength >= MIN_MATCH {
      hashHead, a := s.InsertRun(s.matchLength - 1, s.strstart + s.matchLength - 1, hashHead0, a0);
      Advance(s);
    } else {
      hashHead, a := hashHead0, a0;
      Advance(s);
      s.dict.Restart(s.window[s.strstart], s.window[s.strstart + 1]);
    }
  }

  /** Move strstart to the end of the match. */
  method Advance(s: DeflateState)
    requires s.Core() && s.matchLength <= s.lookahead
    modifies s`strstart, s`lookahead, s`matchLength
    ensures s.Core() && s.strstart == old(s.strstart + s.matchLength)
    ensures s.lookahead == old(s.lookahead - s.matchLength) && s.matchLength == 0
  {
    hide ChainsOk, ChainsFull, InflateWindow.CheckOf, KeysOk;
    s.lookahead := s.lookahead - s.matchLength;
    s.strstart := s.strstart + s.matchLength;
    s.matchLength := 0;
  }

  lemma TallyMatch(tokens: seq<Token>, data: seq<byte>, n: nat, dist: nat, len: nat, W: int)
    requires n <= |data| && Expand(tokens) == data[..n] && Matches(data, n, dist, len) && 3 <= len <= MAX_MATCH
    requires dist <= W && AllInFormat(tokens, W)
    ensures Expand(tokens + [Pair(dist, len)]) == data[..n + len] && AllInFormat(tokens + [Pair(dist, len)], W)
  {
    ExpandSnoc(tokens, Pair(dist, len));
    assert (tokens + [Pair(dist, len)])[..|tokens|] == tokens;
    MatchExpands(data, n, dist, len);
  }

  lemma TallyLiteral(tokens: seq<Token>, data: seq<byte>, n: nat, W: int)
    requires n < |data| && Expand(tokens) == data[..n] && AllInFormat(tokens, W)
    ensures Expand(tokens + [Token.Literal(data[n])]) == data[..n + 1]
    ensures AllInFormat(tokens + [Token.Literal(data[n])], W)
  {
    ExpandSnoc(tokens, Token.Literal(data[n]));
    assert (tokens + [Token.Literal(data[n])])[..|tokens|] == tokens;
  }

  /** Tally the current byte as a literal. */
  method TakeLiteral(s: DeflateState) returns (bflush: bool)
    requires s.Core() && s.BlocksOk() && s.ReadyAt(1) && s.dict.top <= s.N() + 1 && s.maxChainLength >= 4
    requires s.lookahead > 0
    requires s.matchLength < MIN_MATCH && s.prevLength == MIN_MATCH - 1 && s.tally.lastLit < s.tally.litBufsize - 1
    requires Expand(s.tally.tokens) == s.data[..s.N()] && TokensTile(s.tally.blocks, s.data, s.Covered())
    requires AllInFormat(s.tally.tokens, s.MaxDist())
    modifies s`strstart, s`lookahead, s.tally`lastLit, s.tally`tokens, s.tally.lBuf, s.tally.dBuf
    ensures Standing(s) && s.N() == old(s.N()) + 1
    ensures s.tally.tokens == old(s.tally.tokens) + [Token.Literal(s.data[old(s.N())])]
    ensures bflush <==> s.tally.lastLit == s.tally.litBufsize - 1
  {
    hide ChainsOk, ChainsFull, InflateWindow.CheckOf, KeysOk, Tiles, TokensTile, Expand, Matches, AllTokens,
         AllInFormat;
    TallyLiteral(s.tally.tokens, s.data, s.N(), s.MaxDist());
    assert s.data[s.N()] == s.window[..][s.strstart];
    bflush := s.tally.Literal(s.window[s.strstart]);
    s.lookahead := s.lookahead - 1;
    s.strstart := s.strstart + 1;
  }

  /** Search for the string that was just inserted. */
  method Look(s: DeflateState, hashHead: nat, ghost a: nat) returns (ghost seen: seq<nat>, ghost from: nat)
    requires s.Core() && s.dict.top <= s.N() + 1 && s.WasHead(hashHead, a) && s.FreshHead(hashHead, a)
    requires s.LatestHead(hashHead) && s.strstart + MIN_LOOKAHEAD <= 2 * s.wSize && s.lookahead > 0
    requires s.prevLength == MIN_MATCH - 1 && s.matchLength < MIN_MATCH && s.maxChainLength >= 4
    modifies s`matchLength, s`matchStart
    ensures s.matchLength >= MIN_MATCH ==> s.Found(s.matchLength)
    ensures s.lookahead >= MIN_MATCH && s.strategy != HUFFMAN_ONLY ==>
      s.NoneBetter(if s.matchLength >= MIN_MATCH then s.matchLength else MIN_MATCH - 1, from)
    ensures from == 0 || |seen| == s.Budget() || s.matchLength >= s.lookahead || s.matchLength >= s.niceMatch
  {
    hide ChainsOk, ChainsFull, InflateWindow.CheckOf, KeysOk, Matches, Holds, DeflateState.LatestHead,
         DeflateState.NoneBetter;
    seen, from := [], 0;
    if hashHead != NIL && Sub32(s.strstart, hashHead) <= s.MaxDist() {
      if s.strategy != HUFFMAN_ONLY {
        s.matchLength, seen, from := s.Search(hashHead, a);
      }
    } else if s.lookahead >= MIN_MATCH {
      if hashHead != NIL {
        Sub32Small(s.strstart, hashHead);
      }
      s.NothingNear(hashHead, MIN_MATCH - 1);
    }
  }

  /** Between the search and the tallying. */
  ghost predicate Searched(s: DeflateState)
    reads s, s.dict, s.dict.head, s.dict.prev, s.window, s.tally, s.tally.lBuf, s.tally.dBuf
  {
    && s.Core() && s.BlocksOk() && s.ReadyAt(1) && s.dict.top <= s.N() + 1 && s.maxChainLength >= 4
    && s.prevLength == MIN_MATCH - 1 && (s.matchLength >= MIN_MATCH ==> s.Found(s.matchLength))
    && Expand(s.tally.tokens) == s.data[..s.N()] && TokensTile(s.tally.blocks, s.data, s.Covered())
    && AllInFormat(s.tally.tokens, s.MaxDist())
  }

  /** Insert the current string and search for it. */
  method Begin(s: DeflateState, hashHead0: nat, ghost a0: nat)
    returns (hashHead: nat, ghost a: nat, ghost seen: seq<nat>, ghost from: nat)
    requires Standing(s) && s.WasHead(hashHead0, a0)
    requires s.strstart + MIN_LOOKAHEAD <= 2 * s.wSize && s.lookahead > 0
    modifies s`matchLength, s`matchStart, s.dict, s.dict.head, s.dict.prev
    ensures Searched(s) && s.WasHead(hashHead, a) && s.dict.base == old(s.dict.base)
    ensures s.lookahead >= MIN_MATCH ==> s.N() in s.dict.ins
    ensures s.lookahead >= MIN_MATCH && s.strategy != HUFFMAN_ONLY ==>
      Greedy(s.data, old(s.dict.ins), old(s.dict.base), old(s.dict.live), s.N(), s.Limit(), from,
        if s.matchLength >= MIN_MATCH then s.matchLength else MIN_MATCH - 1)
    ensures from == 0 || |seen| == s.Budget() || s.matchLength >= s.lookahead || s.matchLength >= s.niceMatch
  {
    hide Greedy, DeflateState.NoneBetter, DeflateState.LatestHead, ChainsOk, ChainsFull, InflateWindow.CheckOf, KeysOk,
         Tiles, TokensTile, Expand, Matches, AllTokens, AllInFormat, Holds;
    hashHead, a := s.InsertCurrent(hashHead0, a0);
    seen, from := Look(s, hashHead, a);
    if s.lookahead >= MIN_MATCH && s.strategy != HUFFMAN_ONLY {
      s.IsGreedy(old(s.dict.ins), from, if s.matchLength >= MIN_MATCH then s.matchLength else MIN_MATCH - 1);
    }
  }

  /** Insert, search and tally once; is the block due?  A literal is tallied only if no recent string repeats
      three bytes, and a pair only if none repeats more than it stands for.  `from` says how far back the
      search went: to the end of the window, unless it stopped for a match that is long enough or because
      its budget of strings was used up. */
  method Round(s: DeflateState, hashHead0: nat, ghost a0: nat)
    returns (bflush: bool, hashHead: nat, ghost a: nat, ghost seen: seq<nat>, ghost from: nat)
    requires Standing(s) && s.WasHead(hashHead0, a0) && s.tally.lastLit < s.tally.litBufsize - 1
    requires s.strstart + MIN_LOOKAHEAD <= 2 * s.wSize && s.lookahead > 0
    modifies s`strstart, s`lookahead, s`matchLength, s`matchStart, s.dict, s.dict.head, s.dict.prev,
             s.tally`lastLit, s.tally`tokens, s.tally.lBuf, s.tally.dBuf
    ensures Standing(s) && s.N() > old(s.N()) && s.WasHead(hashHead, a) && s.dict.base == old(s.dict.base)
    ensures bflush <==> s.tally.lastLit == s.tally.litBufsize - 1
    ensures OneToken(old(s.tally.tokens), s.tally.tokens, s.N() - old(s.N()))
    ensures old(s.lookahead) >= MIN_MATCH ==> old(s.N()) in s.dict.ins
    ensures old(s.lookahead) >= MIN_MATCH && s.strategy != HUFFMAN_ONLY ==>
      Greedy(s.data, old(s.dict.ins), old(s.dict.base), old(s.dict.live), old(s.N()), old(s.Limit()), from,
        Taken(s.N() - old(s.N())))
    ensures from == 0 || |seen| == s.Budget() || Taken(s.N() - old(s.N())) >= old(s.lookahead)
      || Taken(s.N() - old(s.N())) >= s.niceMatch
  {
    hide Greedy, DeflateState.NoneBetter, DeflateState.LatestHead, ChainsOk, ChainsFull, InflateWindow.CheckOf,
         KeysOk, Tiles, TokensTile, Expand, Matches, AllTokens, AllInFormat, Holds;
    hashHead, a, seen, from := Begin(s, hashHead0, a0);
    if s.matchLength >= MIN_MATCH {
      bflush, hashHead, a := TakeMatch(s, hashHead, a);
    } else {
      bflush := TakeLiteral(s);
    }
  }

  /** One token more, that stands for len bytes. */
  ghost predicate OneToken(before: seq<Token>, after: seq<Token>, len: nat)
  {
    |after| == |before| + 1 && before <= after &&
    match after[|before|]
    case Literal(_) => len == 1
    case Pair(_, n) => n == len >= MIN_MATCH
  }

  /** The repeated bytes that a token of len bytes makes use of. */
  function Taken(len: nat): nat
  {
    if len >= MIN_MATCH then len else MIN_MATCH - 1
  }

  /** Hand over the block. */
  method Flush(s: DeflateState, eof: bool, ample: bool) returns (full: bool)
    requires Standing(s)
    modifies s`blockStart, s.tally`lastLit, s.tally`blocks
    ensures Standing(s) && s.tally.lastLit == 0 && s.Covered() == s.N()
    ensures Wrote(old(s.tally.blocks), s.tally.blocks, eof) && (ample ==> !full)
  {
    hide ChainsOk, ChainsFull, InflateWindow.CheckOf, KeysOk, Tiles, TokensTile, Expand, Matches, AllTokens,
         AllInFormat, Holds;
    s.FlushTokens(eof);
    full := UsedUp(ample);
  }

  lemma Bounds(s: DeflateState)
    requires Standing(s)
    ensures 0 <= s.N() <= |s.data| == s.N() + s.lookahead && s.strstart + s.lookahead <= 2 * s.wSize && 512 <= s.wSize
    ensures s.tally.lastLit < s.tally.litBufsize
  {
    hide DeflateState.Core, Tiles, Expand, TokensTile, AllInFormat;
    s.ShapeOf();
  }

  /** The tokens of the blocks handed over stand for the input before the current block. */
  lemma Tokens(s: DeflateState)
    requires Standing(s)
    ensures 0 <= s.Covered() <= |s.data| && Expand(AllTokens(s.tally.blocks)) == s.data[..s.Covered()]
  {
    hide DeflateState.Core, Tiles, Expand, AllInFormat;
    s.ShapeOf();
  }

  method Refill(s: DeflateState)
    requires Standing(s) && s.lookahead < MIN_LOOKAHEAD
    modifies s`next, s`adler, s`strstart, s`lookahead, s`blockStart, s`matchStart, s`data,
             s.dict`base, s.dict`insH, s.dict.head, s.dict.prev, s.window
    ensures Standing(s) && s.N() == old(s.N()) && s.data + s.next == old(s.data + s.next) && old(s.data) <= s.data
    ensures s.lookahead >= MIN_LOOKAHEAD || s.next == []
    ensures s.strstart < s.wSize + s.MaxDist()
    ensures s.tally.lastLit == old(s.tally.lastLit) && s.tally.blocks == old(s.tally.blocks)
  {
    hide ChainsOk, ChainsFull, InflateWindow.CheckOf, KeysOk, Tiles, TokensTile, Expand, AllTokens, AllInFormat;
    s.Refill(s.N());
  }

  /** deflate_fast: compress as much as possible from the input. */
  method DeflateFast(s: DeflateState, flush: FlushMode, ample: bool) returns (r: BlockState)
    requires Standing(s) && 128 <= s.tally.litBufsize && s.tally.lastLit < s.tally.litBufsize - 1
    modifies s`next, s`adler, s`strstart, s`lookahead, s`blockStart, s`matchStart, s`matchLength, s`data,
             s.dict, s.dict.head, s.dict.prev, s.window, s.tally`lastLit, s.tally`tokens, s.tally`blocks,
               s.tally.lBuf, s.tally.dBuf
    ensures Standing(s) && s.tally.lastLit < s.tally.litBufsize - 1 && s.data + s.next == old(s.data + s.next)
    ensures old(s.data) <= s.data
    ensures Wrote(old(s.tally.blocks), s.tally.blocks, r == FINISH_DONE || r == FINISH_STARTED)
    ensures r == BLOCK_DONE || r == FINISH_DONE || r == FINISH_STARTED ==> s.next == [] && s.Covered() == |s.data|
    ensures r == FINISH_DONE || r == FINISH_STARTED ==> flush == FINISH
    ensures r == BLOCK_DONE ==> flush != FINISH && flush != NO_FLUSH
    ensures ample ==> r != FINISH_STARTED && (r == NEED_MORE ==> flush == NO_FLUSH && s.next == [])
    ensures r == NEED_MORE && flush == FINISH ==> s.N() > old(s.N())
  {
    hide Standing;
    Bounds(s);
    var hashHead: nat := NIL;
    ghost var a: nat := 0;
    while true
      invariant Standing(s) && s.tally.lastLit < s.tally.litBufsize - 1 && s.data + s.next == old(s.data + s.next)
      invariant old(s.data) <= s.data && s.N() >= old(s.N())
      invariant Wrote(old(s.tally.blocks), s.tally.blocks, false) && s.WasHead(hashHead, a)
      decreases |s.data| + |s.next| - s.N()
    {
      Bounds(s);
      if s.lookahead < MIN_LOOKAHEAD {
        Refill(s);
        Bounds(s);
        if s.lookahead < MIN_LOOKAHEAD && flush == NO_FLUSH {
          return NEED_MORE;
        }
        if s.lookahead == 0 {
          break;
        }
      }
      var bflush;
      ghost var seen, from;
      bflush, hashHead, a, seen, from := Round(s, hashHead, a);
      Bounds(s);
      if bflush {
        var full := Flush(s, false, ample);
        if full {
          return NEED_MORE;
        }
      }
    }
    var full := Flush(s, flush == FINISH, ample);
    r := if full then if flush == FINISH then FINISH_STARTED else NEED_MORE
         else if flush == FINISH then FINISH_DONE else BLOCK_DONE;
  }
}
