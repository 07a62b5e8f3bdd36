/** deflate_slow of deflate.c: lazy matching, levels 4 to 9. */
module DeflateSlow {
  import opened Zlib
  import opened DeflateHash
  import opened DeflateTokens
  import opened DeflateDict
  import opened DeflateTally
  import opened DeflateState
  import opened DeflateFast
  import InflateWindow

  /** Matches of length 3 are discarded if their distance exceeds TOO_FAR. */
  const TOO_FAR := 4096

  /** How much of the input before strstart has its tokens: all but a byte that still waits. */
  ghost function Emitted(s: DeflateState): int
    reads s`strstart, s`matchAvailable, s.dict`base
  {
    if s.matchAvailable then s.N() - 1 else s.N()
  }

  /** A match of len bytes at distance d, at the string before position n, of which `ahead` bytes lie ahead. */
  ghost predicate PrevOk(data: seq<byte>, n: nat, d: int, len: nat, maxDist: int, ahead: nat)
  {
    1 <= n && 1 <= d <= maxDist && len <= ahead + 1 && Matches(data, n - 1, d, len)
  }

  /** The match that waits for the next string to be tried, at the string before strstart.  Its
      distance is right even if matchStart has wrapped around as the window moved. */
  ghost predicate Waiting(s: DeflateState)
    reads s, s.dict
  {
    && 1 <= s.matchLength <= MAX_MATCH && (s.matchAvailable ==> 1 <= s.strstart)
    && (s.matchLength >= MIN_MATCH ==>
         s.matchAvailable && PrevOk(s.data, s.N(), Sub32(s.strstart, s.matchStart) - 1, s.matchLength, s.MaxDist(),
           s.lookahead))
  }

  ghost predicate LazyStanding(s: DeflateState)
    reads s, s.dict, s.dict.head, s.dict.prev, s.window, s.tally, s.tally.lBuf, s.tally.dBuf
  {
    && s.Core() && s.BlocksOk() && s.HashReady() && s.dict.top <= s.N() && s.maxChainLength >= 4 && Waiting(s)
    && TokensOk(s)
  }

  /** The tokens stand for the input emitted, and so do those of the blocks handed over. */
  ghost predicate TokensOk(s: DeflateState)
    reads s`strstart, s`matchAvailable, s`blockStart, s`data, s.dict`base, s.tally`tokens, s.tally`blocks
  {
    && 0 <= Emitted(s) <= |s.data| && 0 <= s.Covered()
    && Expand(s.tally.tokens) == s.data[..Emitted(s)] && TokensTile(s.tally.blocks, s.data, s.Covered())
    && AllInFormat(s.tally.tokens, s.MaxDist())
  }

  /** The state in the middle of a round: the current string is inserted and searched for, and the
      previous match, if there was one, is in prevLength and prevMatch. */
  ghost predicate Compared(s: DeflateState)
    reads s, s.dict, s.dict.head, s.dict.prev, s.window, s.tally, s.tally.lBuf, s.tally.dBuf
  {
    && s.Core() && s.BlocksOk() && s.ReadyAt(1) && s.dict.top <= s.N() + 1 && s.maxChainLength >= 4 && s.lookahead > 0
    && (s.matchAvailable ==> 1 <= s.strstart) && s.tally.lastLit < s.tally.litBufsize - 1
    && TokensOk(s)
    && Searched(s)
  }

  ghost predicate Searched(s: DeflateState)
    reads s, s.dict
  {
    && 1 <= s.prevLength <= MAX_MATCH && 1 <= s.matchLength <= MAX_MATCH
    && (s.prevLength >= MIN_MATCH ==>
         s.matchAvailable && 1 <= s.strstart &&
           PrevOk(s.data, s.N(), Sub32(s.strstart - 1, s.prevMatch), s.prevLength, s.MaxDist(), s.lookahead))
    && (s.matchLength >= MIN_MATCH && s.matchLength > s.prevLength ==> s.Found(s.matchLength))
  }

  /** Output the previous match and go on behind it. */
  method TakePrevious(s: DeflateState, hashHead0: nat, ghost a0: nat) returns (bflush: bool, hashHead: nat,
                      ghost a: nat)
    requires Compared(s) && s.prevLength >= MIN_MATCH && s.WasHead(hashHead0, a0)
    modifies s`strstart, s`lookahead, s`matchLength, s`prevLength, s`matchAvailable, s.dict, s.dict.head, s.dict.prev,
             s.tally`lastLit, s.tally`tokens, s.tally.lBuf, s.tally.dBuf
    ensures LazyStanding(s) && s.N() == old(s.N() + s.prevLength - 1) && !s.matchAvailable && s.WasHead(hashHead, a)
    ensures s.dict.base == old(s.dict.base) && s.matchLength == MIN_MATCH - 1
    ensures OneToken(old(s.tally.tokens), s.tally.tokens, old(s.prevLength))
    ensures bflush <==> s.tally.lastLit == s.tally.litBufsize - 1
  {
    hide ChainsOk, ChainsFull, InflateWindow.CheckOf, KeysOk, Tiles, TokensTile, Expand, Matches, AllTokens,
         AllInFormat, Sub32;
    var maxInsert := s.strstart + s.lookahead - MIN_MATCH;
    var distance := Sub32(s.strstart - 1, s.prevMatch);
    TallyMatch(s.tally.tokens, s.data, s.N() - 1, distance, s.prevLength, s.MaxDist());
    bflush := s.tally.Dist(distance, s.prevLength - MIN_MATCH);
    hashHead, a := PassPrevious(s, maxInsert, hashHead0, a0);
  }

  /** Insert the strings inside the previous match and go on behind it. */
  method PassPrevious(s: DeflateState, maxInsert: int, hashHead0: nat, ghost a0: nat) returns (hashHead: nat,
                      ghost a: nat)
    requires s.Core() && s.BlocksOk() && s.ReadyAt(1) && s.dict.top <= s.N() + 1 && s.maxChainLength >= 4
    requires s.WasHead(hashHead0, a0)
    requires MIN_MATCH <= s.prevLength <= s.lookahead + 1 && maxInsert == s.strstart + s.lookahead - MIN_MATCH
    requires Expand(s.tally.tokens) == s.data[..s.N() + s.prevLength - 1]
    requires TokensTile(s.tally.blocks, s.data, s.Covered())
    requires AllInFormat(s.tally.tokens, s.MaxDist())
    modifies s`strstart, s`lookahead, s`matchLength, s`prevLength, s`matchAvailable, s.dict, s.dict.head, s.dict.prev
    ensures LazyStanding(s) && s.N() == old(s.N() + s.prevLength - 1) && !s.matchAvailable && s.WasHead(hashHead, a)
    ensures s.dict.base == old(s.dict.base) && s.matchLength == MIN_MATCH - 1
  {
    hide DeflateState.Core, DeflateState.BlocksOk, TokensTile, Expand, AllInFormat;
    s.ShapeOf();
    hashHead, a := s.InsertRun(s.prevLength - 2, maxInsert, hashHead0, a0);
    LeaveMatch(s);
  }

  method LeaveMatch(s: DeflateState)
    requires s.Core() && s.BlocksOk() && MIN_MATCH <= s.prevLength <= s.lookahead + 1 && s.maxChainLength >= 4
    requires s.ReadyAt(s.prevLength - 1) && s.dict.top <= s.N() + s.prevLength - 1
    requires Expand(s.tally.tokens) == s.data[..s.N() + s.prevLength - 1]
    requires TokensTile(s.tally.blocks, s.data, s.Covered())
    requires AllInFormat(s.tally.tokens, s.MaxDist())
    modifies s`strstart, s`lookahead, s`matchLength, s`prevLength, s`matchAvailable
    ensures LazyStanding(s) && s.N() == old(s.N() + s.prevLength - 1) && !s.matchAvailable
    ensures s.matchLength == MIN_MATCH - 1
  {
    hide ChainsOk, ChainsFull, InflateWindow.CheckOf, KeysOk, Tiles, TokensTile, Expand, Matches, AllTokens,
         AllInFormat, Sub32;
    s.lookahead := s.lookahead - (s.prevLength - 1);
    s.strstart := s.strstart + s.prevLength - 1;
    s.prevLength := 0;
    s.matchAvailable := false;
    s.matchLength := MIN_MATCH - 1;
  }

  /** A match that is not worth its bits is dropped. */
  function Kept(len: nat, strategy: Strategy, distance: nat): nat
  {
    if len <= 5 && (strategy == FILTERED || (len == MIN_MATCH && distance > TOO_FAR)) then MIN_MATCH - 1 else len
  }

  /** The bytes repeated by the longer of two matches, or as few as make none. */
  function Most(len: nat, prev: nat): nat
  {
    if len > prev && len >= MIN_MATCH then len else Taken(prev)
  }

  /** Search for a match at the current string that beats the previous one. */
  method Improve(s: DeflateState, hashHead: nat, ghost a: nat)
    returns (ghost len: nat, ghost seen: seq<nat>, ghost from: nat)
    requires s.Core() && s.dict.top <= s.N() + 1 && s.WasHead(hashHead, a) && s.FreshHead(hashHead, a)
    requires s.LatestHead(hashHead) && s.lookahead > 0
    requires s.strstart + MIN_LOOKAHEAD <= 2 * s.wSize && 1 <= s.prevLength <= MAX_MATCH && s.maxChainLength >= 4
    modifies s`matchLength, s`matchStart
    ensures 1 <= s.matchLength <= MAX_MATCH
    ensures s.matchLength >= MIN_MATCH && s.matchLength > s.prevLength ==> s.Found(s.matchLength)
    ensures s.matchLength == Kept(len, s.strategy, Sub32(s.strstart, s.matchStart))
    ensures s.prevLength >= s.maxLazyMatch || s.strategy == HUFFMAN_ONLY ==> s.matchLength == MIN_MATCH - 1
    ensures s.lookahead >= MIN_MATCH && s.prevLength < s.maxLazyMatch && s.strategy != HUFFMAN_ONLY ==>
      s.NoneBetter(Most(len, s.prevLength), from)
    ensures from == 0 || |seen| == s.Budget() || len >= s.lookahead || len >= s.niceMatch
  {
    hide ChainsOk, ChainsFull, InflateWindow.CheckOf, KeysOk, Holds, Matches, DeflateState.NoneBetter,
         DeflateState.LatestHead;
    s.matchLength := MIN_MATCH - 1;
    len, seen, from := MIN_MATCH - 1, [], 0;
    if hashHead != NIL && s.prevLength < s.maxLazyMatch && Sub32(s.strstart, hashHead) <= s.MaxDist() {
      if s.strategy != HUFFMAN_ONLY {
        s.matchLength, seen, from := s.Search(hashHead, a);
        len := s.matchLength;
        if s.lookahead >= MIN_MATCH {
          s.NoneBetterYet(if len > s.prevLength then len else s.prevLength, Most(len, s.prevLength), from);
        }
      }
      if s.matchLength <= 5 && (s.strategy == FILTERED ||
          (s.matchLength == MIN_MATCH && Sub32(s.strstart, s.matchStart) > TOO_FAR)) {
        s.matchLength := MIN_MATCH - 1;
      }
    } else if s.lookahead >= MIN_MATCH && s.prevLength < s.maxLazyMatch {
      if hashHead != NIL {
        Sub32Small(s.strstart, hashHead);
      }
      s.NothingNear(hashHead, Most(len, s.prevLength));
    }
  }

  lemma OneBefore(data: seq<byte>, n: nat, a: nat, b: nat, len: nat, maxDist: int, ahead: nat)
    requires 1 <= a && PrevOk(data, n, Sub32(a, b) - 1, len, maxDist, ahead)
    ensures Sub32(a - 1, b) == Sub32(a, b) - 1
  {
  }

  /** Insert and search for the current string. */
  method Look(s: DeflateState, hashHead0: nat, ghost a0: nat)
    returns (hashHead: nat, ghost a: nat, ghost len: nat, ghost seen: seq<nat>, ghost from: nat)
    requires LazyStanding(s) && s.WasHead(hashHead0, a0) && s.tally.lastLit < s.tally.litBufsize - 1
    requires s.strstart + MIN_LOOKAHEAD <= 2 * s.wSize && s.lookahead > 0
    modifies s`matchLength, s`matchStart, s`prevLength, s`prevMatch, s.dict, s.dict.head, s.dict.prev
    ensures Compared(s) && s.WasHead(hashHead, a) && s.dict.base == old(s.dict.base)
    ensures s.prevLength == old(s.matchLength)
    ensures s.matchLength == Kept(len, s.strategy, Sub32(s.strstart, s.matchStart))
    ensures s.prevLength >= s.maxLazyMatch || s.strategy == HUFFMAN_ONLY ==> s.matchLength == MIN_MATCH - 1
    ensures s.lookahead >= MIN_MATCH && s.prevLength < s.maxLazyMatch && s.strategy != HUFFMAN_ONLY ==>
      Greedy(s.data, old(s.dict.ins), old(s.dict.base), old(s.dict.live), s.N(), s.Limit(), from,
        Most(len, s.prevLength))
    ensures from == 0 || |seen| == s.Budget() || len >= s.lookahead || len >= s.niceMatch
  {
    hide ChainsOk, ChainsFull, InflateWindow.CheckOf, KeysOk, TokensOk, PrevOk, DeflateState.BlocksOk,
         DeflateState.Core, Holds, Matches, Greedy, DeflateState.NoneBetter, DeflateState.LatestHead;
    s.ShapeOf();
    hashHead, a := s.InsertCurrent(hashHead0, a0);
    len, seen, from := TryHead(s, hashHead, a);
    if s.lookahead >= MIN_MATCH && s.prevLength < s.maxLazyMatch && s.strategy != HUFFMAN_ONLY {
      s.IsGreedy(old(s.dict.ins), from, Most(len, s.prevLength));
    }
  }

  /** Keep the waiting match as the previous one and look for a better one. */
  method TryHead(s: DeflateState, hashHead: nat, ghost a: nat)
    returns (ghost len: nat, ghost seen: seq<nat>, ghost from: nat)
    requires s.Core() && s.BlocksOk() && s.ReadyAt(1) && s.dict.top <= s.N() + 1 && s.maxChainLength >= 4
    requires s.lookahead > 0
    requires Waiting(s) && TokensOk(s) && s.tally.lastLit < s.tally.litBufsize - 1
    requires s.strstart + MIN_LOOKAHEAD <= 2 * s.wSize
    requires s.WasHead(hashHead, a) && s.FreshHead(hashHead, a) && s.LatestHead(hashHead)
    modifies s`matchLength, s`matchStart, s`prevLength, s`prevMatch
    ensures Compared(s) && s.prevLength == old(s.matchLength)
    ensures s.matchLength == Kept(len, s.strategy, Sub32(s.strstart, s.matchStart))
    ensures s.prevLength >= s.maxLazyMatch || s.strategy == HUFFMAN_ONLY ==> s.matchLength == MIN_MATCH - 1
    ensures s.lookahead >= MIN_MATCH && s.prevLength < s.maxLazyMatch && s.strategy != HUFFMAN_ONLY ==>
      s.NoneBetter(Most(len, s.prevLength), from)
    ensures from == 0 || |seen| == s.Budget() || len >= s.lookahead || len >= s.niceMatch
  {
    hide TokensOk, PrevOk, DeflateState.BlocksOk, DeflateState.Core, Matches, DeflateState.NoneBetter,
         DeflateState.LatestHead;
    if s.matchLength >= MIN_MATCH {
      OneBefore(s.data, s.N(), s.strstart, s.matchStart, s.matchLength, s.MaxDist(), s.lookahead);
    }
    s.prevLength, s.prevMatch := s.matchLength, s.matchStart;
    len, seen, from := Improve(s, hashHead, a);
  }

  /** There was no match worth taking at the previous byte: output it as a literal. */
  method TakeByte(s: DeflateState) returns (bflush: bool)
    requires Compared(s) && s.matchAvailable && (s.prevLength < MIN_MATCH || s.matchLength > s.prevLength)
    modifies s.tally`lastLit, s.tally`tokens, s.tally.lBuf, s.tally.dBuf
    ensures s.BlocksOk() && Expand(s.tally.tokens) == s.data[..s.N()] && AllInFormat(s.tally.tokens, s.MaxDist())
    ensures s.tally.tokens == old(s.tally.tokens) + [Token.Literal(s.data[s.N() - 1])]
    ensures bflush <==> s.tally.lastLit == s.tally.litBufsize - 1
  {
    hide ChainsOk, ChainsFull, InflateWindow.CheckOf, KeysOk, Tiles, TokensTile, Expand, Matches, AllTokens,
         AllInFormat;
    TallyLiteral(s.tally.tokens, s.data, s.N() - 1, s.MaxDist());
    assert s.data[s.N() - 1] == s.window[..][s.strstart - 1];
    bflush := s.tally.Literal(s.window[s.strstart - 1]);
  }

  /** Go on to the next byte, leaving the current one waiting. */
  method StepOn(s: DeflateState)
    requires s.Core() && s.BlocksOk() && s.ReadyAt(1) && s.dict.top <= s.N() + 1 && s.maxChainLength >= 4
    requires s.lookahead > 0
    requires Searched(s) && (s.prevLength < MIN_MATCH || s.matchLength > s.prevLength)
    requires Expand(s.tally.tokens) == s.data[..s.N()] && TokensTile(s.tally.blocks, s.data, s.Covered())
    requires AllInFormat(s.tally.tokens, s.MaxDist())
    modifies s`strstart, s`lookahead, s`matchAvailable
    ensures LazyStanding(s) && s.N() == old(s.N()) + 1 && s.matchAvailable
  {
    hide ChainsOk, ChainsFull, InflateWindow.CheckOf, KeysOk, Tiles, TokensTile, Expand, Matches, AllTokens,
         AllInFormat;
    if s.matchLength >= MIN_MATCH {
      Sub32Small(s.strstart + 1, s.matchStart);
    }
    s.matchAvailable := true;
    s.strstart := s.strstart + 1;
    s.lookahead := s.lookahead - 1;
  }

  method MatchBranch(s: DeflateState, hashHead0: nat, ghost a0: nat, ample: bool)
    returns (full: bool, hashHead: nat, ghost a: nat)
    requires Compared(s) && s.prevLength >= MIN_MATCH && s.WasHead(hashHead0, a0) && 128 <= s.tally.litBufsize
    modifies s`strstart, s`lookahead, s`blockStart, s`matchLength, s`prevLength, s`matchAvailable, s.dict,
             s.dict.head, s.dict.prev,
             s.tally`lastLit, s.tally`tokens, s.tally`blocks, s.tally.lBuf, s.tally.dBuf
    ensures LazyStanding(s) && s.N() > old(s.N()) && s.WasHead(hashHead, a) && s.tally.lastLit < s.tally.litBufsize - 1
    ensures Wrote(old(s.tally.blocks), s.tally.blocks, false) && (ample ==> !full)
    ensures OneToken(old(s.tally.tokens), s.tally.tokens, old(s.prevLength))
    ensures s.N() == old(s.N() + s.prevLength - 1) && !s.matchAvailable && s.matchLength == MIN_MATCH - 1
  {
    hide ChainsOk, ChainsFull, InflateWindow.CheckOf, KeysOk, Tiles, TokensTile, Expand, AllTokens, AllInFormat,
         Holds, PrevOk;
    var bflush;
    bflush, hashHead, a := TakePrevious(s, hashHead0, a0);
    full := false;
    if bflush {
      s.FlushTokens(false);
      full := UsedUp(ample);
    }
  }

  method ByteBranch(s: DeflateState)
    requires Compared(s) && s.matchAvailable && (s.prevLength < MIN_MATCH || s.matchLength > s.prevLength)
    requires 128 <= s.tally.litBufsize
    modifies s`strstart, s`lookahead, s`blockStart, s`matchAvailable, s.tally`lastLit, s.tally`tokens,
             s.tally`blocks, s.tally.lBuf, s.tally.dBuf
    ensures LazyStanding(s) && s.N() == old(s.N()) + 1 && s.tally.lastLit < s.tally.litBufsize - 1
    ensures Wrote(old(s.tally.blocks), s.tally.blocks, false) && s.matchAvailable
    ensures s.tally.tokens == old(s.tally.tokens) + [Token.Literal(s.data[old(s.N()) - 1])]
  {
    hide ChainsOk, ChainsFull, InflateWindow.CheckOf, KeysOk, Tiles, TokensTile, Expand, AllTokens, AllInFormat,
         Holds, PrevOk, Matches;
    var bflush := TakeByte(s);
    if bflush {
      s.FlushTokens(false);
    }
    StepOn(s);
  }

  /** What a round tallies, `prev` being the length of the match at the string before, if there was one,
      and `found` that of the current one: the match before unless the current one is longer, otherwise
      the byte before if it waits. */
  ghost predicate Lazy(prev: nat, found: nat, waits: bool, byteBefore: byte, before: seq<Token>, after: seq<Token>)
  {
    if prev >= MIN_MATCH && found <= prev then OneToken(before, after, prev)
    else after == if waits then before + [Token.Literal(byteBefore)] else before
  }

  /** One round: insert, search, and output the previous match or byte or wait; may the caller
      have to be told that room for output is used up?  `len` bytes is the match that the search found,
      and the one that is kept of it competes with the match at the string before. */
  method Round(s: DeflateState, hashHead0: nat, ghost a0: nat, ample: bool)
    returns (full: bool, hashHead: nat, ghost a: nat, ghost len: nat, ghost seen: seq<nat>, ghost from: nat,
             ghost found: nat)
    requires LazyStanding(s) && s.WasHead(hashHead0, a0) && s.tally.lastLit < s.tally.litBufsize - 1
    requires 128 <= s.tally.litBufsize
    requires s.strstart + MIN_LOOKAHEAD <= 2 * s.wSize && s.lookahead > 0
    modifies s`strstart, s`lookahead, s`blockStart, s`matchLength, s`matchStart, s`prevLength, s`prevMatch,
             s`matchAvailable,
             s.dict, s.dict.head, s.dict.prev, s.tally`lastLit, s.tally`tokens, s.tally`blocks, s.tally.lBuf,
               s.tally.dBuf
    ensures LazyStanding(s) && s.N() > old(s.N()) && s.WasHead(hashHead, a) && s.tally.lastLit < s.tally.litBufsize - 1
    ensures Wrote(old(s.tally.blocks), s.tally.blocks, false) && (ample ==> !full)
    ensures found == Kept(len, s.strategy, Sub32(old(s.strstart), s.matchStart))
    ensures old(s.matchLength) >= s.maxLazyMatch || s.strategy == HUFFMAN_ONLY ==> found == MIN_MATCH - 1
    ensures old(s.lookahead) >= MIN_MATCH && old(s.matchLength) < s.maxLazyMatch && s.strategy != HUFFMAN_ONLY ==>
      Greedy(s.data, old(s.dict.ins), old(s.dict.base), old(s.dict.live), old(s.N()), old(s.Limit()), from,
        Most(len, old(s.matchLength)))
    ensures from == 0 || len >= old(s.lookahead) || len >= s.niceMatch
      || |seen| == if old(s.matchLength) >= s.goodMatch then s.maxChainLength / 4 else s.maxChainLength
    ensures Lazy(old(s.matchLength), found, old(s.matchAvailable),
      if old(s.matchAvailable) then s.data[old(s.N()) - 1] else 0, old(s.tally.tokens), s.tally.tokens)
    ensures if old(s.matchLength) >= MIN_MATCH && found <= old(s.matchLength)
      then s.N() == old(s.N() + s.matchLength - 1) && !s.matchAvailable && s.matchLength == MIN_MATCH - 1
      else s.N() == old(s.N()) + 1 && s.matchAvailable && s.matchLength == found
  {
    hide DeflateState.Core, DeflateState.BlocksOk, TokensTile, Expand, AllInFormat, PrevOk, Greedy, Kept, Most;
    hashHead, a, len, seen, from := Look(s, hashHead0, a0);
    found := s.matchLength;
    full := false;
    if s.prevLength >= MIN_MATCH && s.matchLength <= s.prevLength {
      full, hashHead, a := MatchBranch(s, hashHead, a, ample);
    } else if s.matchAvailable {
      ByteBranch(s);
      full := UsedUp(ample);
    } else {
      StepOn(s);
    }
  }

  /** Output the last byte if it still waits, and hand over the block. */
  method Finish(s: DeflateState, eof: bool, ample: bool) returns (full: bool)
    requires LazyStanding(s) && s.tally.lastLit < s.tally.litBufsize - 1 && s.lookahead == 0
    modifies s`blockStart, s`matchAvailable, s.tally`lastLit, s.tally`tokens, s.tally`blocks, s.tally.lBuf, s.tally.dBuf
    ensures LazyStanding(s) && s.tally.lastLit == 0 && s.Covered() == s.N()
    ensures Wrote(old(s.tally.blocks), s.tally.blocks, eof) && (ample ==> !full)
  {
    hide ChainsOk, ChainsFull, InflateWindow.CheckOf, KeysOk, Tiles, TokensTile, Expand, Matches, AllTokens,
         AllInFormat;
    if s.matchAvailable {
      TallyLiteral(s.tally.tokens, s.data, s.N() - 1, s.MaxDist());
      assert s.data[s.N() - 1] == s.window[..][s.strstart - 1];
      var bflush := s.tally.Literal(s.window[s.strstart - 1]);
      s.matchAvailable := false;
    }
    s.FlushTokens(eof);
    full := UsedUp(ample);
  }

  /** fill_window keeps the waiting match, wherever its index in the window is now. */
  method LazyRefill(s: DeflateState)
    requires LazyStanding(s) && s.lookahead < MIN_LOOKAHEAD
    modifies s`next, s`adler, s`strstart, s`lookahead, s`blockStart, s`matchStart, s`data,
             s.dict`base, s.dict`insH, s.dict.head, s.dict.prev, s.window
    ensures LazyStanding(s) && s.N() == old(s.N()) && s.data + s.next == old(s.data + s.next) && old(s.data) <= s.data
    ensures s.lookahead >= MIN_LOOKAHEAD || s.next == []
    ensures s.strstart < s.wSize + s.MaxDist()
    ensures s.tally.lastLit == old(s.tally.lastLit) && s.tally.blocks == old(s.tally.blocks)
  {
    hide ChainsOk, ChainsFull, InflateWindow.CheckOf, KeysOk, Tiles, TokensTile, Expand, AllTokens, AllInFormat,
         Sub32, PrevOk;
    ghost var d, ahead := s.data, s.lookahead;
    s.Refill(Emitted(s));
    if s.matchLength >= MIN_MATCH {
      PrevGrows(d, s.data, s.N(), Sub32(s.strstart, s.matchStart) - 1, s.matchLength, s.MaxDist(), ahead, s.lookahead);
    }
  }

  lemma PrevGrows(data: seq<byte>, data': seq<byte>, n: nat, d: int, len: nat, maxDist: int, ahead: nat, ahead': nat)
    requires PrevOk(data, n, d, len, maxDist, ahead) && data <= data' && ahead <= ahead'
    ensures PrevOk(data', n, d, len, maxDist, ahead')
  {
  }

  /** The tokens of the blocks handed over stand for the input before the current block. */
  lemma Tokens(s: DeflateState)
    requires LazyStanding(s)
    ensures 0 <= s.Covered() <= |s.data| && Expand(AllTokens(s.tally.blocks)) == s.data[..s.Covered()]
  {
    hide DeflateState.Core, Tiles, Expand, AllInFormat, Waiting;
    s.ShapeOf();
  }

  lemma LazyBounds(s: DeflateState)
    requires LazyStanding(s)
    ensures 0 <= s.N() <= |s.data| == s.N() + s.lookahead && s.strstart + s.lookahead <= 2 * s.wSize && 512 <= s.wSize
  {
    hide DeflateState.Core, DeflateState.BlocksOk, TokensOk, Waiting;
    s.ShapeOf();
  }

  /** deflate_slow: compress as much as possible from the input. */
  method DeflateSlow(s: DeflateState, flush: FlushMode, ample: bool) returns (r: BlockState)
    requires LazyStanding(s) && 128 <= s.tally.litBufsize && s.tally.lastLit < s.tally.litBufsize - 1
    modifies s`next, s`adler, s`strstart, s`lookahead, s`blockStart, s`matchStart, s`matchLength, s`prevLength,
             s`prevMatch, s`matchAvailable, s`data,
             s.dict, s.dict.head, s.dict.prev, s.window, s.tally`lastLit, s.tally`tokens, s.tally`blocks,
               s.tally.lBuf, s.tally.dBuf
    ensures LazyStanding(s) && s.tally.lastLit < s.tally.litBufsize - 1 && s.data + s.next == old(s.data + s.next)
    ensures old(s.data) <= s.data
    ensures Wrote(old(s.tally.blocks), s.tally.blocks, r == FINISH_DONE || r == FINISH_STARTED)
    ensures r == BLOCK_DONE || r == FINISH_DONE || r == FINISH_STARTED ==> s.next == [] && s.Covered() == |s.data|
    ensures r == FINISH_DONE || r == FINISH_STARTED ==> flush == FINISH
    ensures r == BLOCK_DONE ==> flush != FINISH && flush != NO_FLUSH
    ensures ample ==> r != FINISH_STARTED && (r == NEED_MORE ==> flush == NO_FLUSH && s.next == [])
    ensures r == NEED_MORE && flush == FINISH ==> s.N() > old(s.N())
  {
    hide LazyStanding;
    LazyBounds(s);
    var hashHead: nat := NIL;
    ghost var a: nat := 0;
    while true
      invariant LazyStanding(s) && s.tally.lastLit < s.tally.litBufsize - 1
      invariant s.data + s.next == old(s.data + s.next) && old(s.data) <= s.data && s.N() >= old(s.N())
      invariant Wrote(old(s.tally.blocks), s.tally.blocks, false) && s.WasHead(hashHead, a)
      decreases |s.data| + |s.next| - s.N()
    {
      LazyBounds(s);
      if s.lookahead < MIN_LOOKAHEAD {
        LazyRefill(s);
        LazyBounds(s);
        if s.lookahead < MIN_LOOKAHEAD && flush == NO_FLUSH {
          return NEED_MORE;
        }
        if s.lookahead == 0 {
          break;
        }
      }
      var full;
      ghost var len, seen, from, found;
      full, hashHead, a, len, seen, from, found := Round(s, hashHead, a, ample);
      LazyBounds(s);
      if full {
        return NEED_MORE;
      }
    }
    var full := Finish(s, flush == FINISH, ample);
    r := if full then if flush == FINISH then FINISH_STARTED else NEED_MORE
         else if flush == FINISH then FINISH_DONE else BLOCK_DONE;
  }
}
