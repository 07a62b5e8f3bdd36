/** deflate.c: the sliding window and the search for matches in it. */
module DeflateState {
  import opened Bits
  import opened Zlib
  import opened DeflateHash
  import opened DeflateTokens
  import opened DeflateDict
  import opened DeflateTally
  import InflateWindow

  /** One more than the longest match and the string after it need. */
  const MIN_LOOKAHEAD := MAX_MATCH + MIN_MATCH + 1

  datatype Strategy = DEFAULT | FILTERED | HUFFMAN_ONLY

  datatype FlushMode = NO_FLUSH | PARTIAL_FLUSH | SYNC_FLUSH | FULL_FLUSH | FINISH

  /** Whether a block was completed, and whether it was the last. */
  datatype BlockState = NEED_MORE | BLOCK_DONE | FINISH_STARTED | FINISH_DONE

  /** Subtraction of 32-bit unsigned integers. */
  function Sub32(a: nat, b: nat): nat
  {
    (a - b) % 0x1_0000_0000
  }

  /** Differences survive the window's move even if one of the two wraps around. */
  lemma Sub32Moves(a: nat, b: nat, w: nat)
    requires w <= a
    ensures Sub32(a - w, Sub32(b, w)) == Sub32(a, b)
  {
  }

  lemma Sub32Small(a: nat, b: nat)
    requires b <= a < 0x1_0000_0000
    ensures Sub32(a, b) == a - b
  {
  }

  /** The window from index 0 to end holds data from position base on. */
  ghost predicate Holds(window: seq<byte>, end: nat, data: seq<byte>, base: nat)
  {
    end <= |window| && |data| == base + end && forall i :: 0 <= i < end ==> window[i] == data[base + i]
  }

  /** max_chain, max_lazy, good_length and nice_length of configuration_table. */
  datatype Config = Config(good: nat, lazy: nat, nice: nat, chain: nat)

  const CONFIGURATION_TABLE: seq<Config> := [
    Config(0, 0, 0, 0), Config(4, 4, 8, 4), Config(4, 5, 16, 8), Config(4, 6, 32, 32), Config(4, 4, 16, 16),
    Config(8, 16, 32, 32), Config(8, 16, 128, 128), Config(8, 32, 128, 256), Config(32, 128, 258, 1024),
      Config(32, 258, 258, 4096)]

  /** None of the strings inserted that are near enough, from position `from` on, repeats the string at n
      for more than `best` bytes. */
  ghost predicate Greedy(data: seq<byte>, ins: map<nat, nat>, base: nat, live: nat, n: nat, limit: nat, from: nat,
                         best: nat)
  {
    forall b: nat {:trigger b in ins} ::
      b in ins && live <= b && base + limit < b < n && from <= b && best < MAX_MATCH ==>
        !Matches(data, n, n - b, best + 1)
  }

  /** Is the room for output used up?  That depends on the block writer, so either answer is possible
      unless there is ample room. */
  method UsedUp(ample: bool) returns (full: bool)
    ensures ample ==> !full
  {
    full := false;
    if !ample {
      full := *;
    }
  }

  /** deflate_state, as far as deflate.c uses it, and the input side of z_stream. */
  class DeflateState {
    const dict: Dictionary
    const tally: Tally
    const window: array<byte>
    const wSize: nat
    const maxChainLength: nat
    const maxLazyMatch: nat
    const goodMatch: nat
    const niceMatch: nat
    const strategy: Strategy
    var next: seq<byte>      // what the caller still offers
    var adler: nat           // over what was taken from it
    var strstart: nat        // index of the current string
    var lookahead: nat       // how many bytes are valid from there on
    var blockStart: int      // where the open block starts; negative once that has left the window
    var matchLength: nat     // of the match chosen last
    var matchStart: nat      // and where it begins
    var prevLength: nat      // the same two for the string before
    var prevMatch: nat
    var matchAvailable: bool // the byte before has no token yet
    ghost var data: seq<byte>  // the bytes taken so far

    /** deflateInit2 */
    constructor (level: nat, windowBits: nat, memLevel: nat, strategy: Strategy)
      requires level <= 9 && 9 <= windowBits <= 15 && 1 <= memLevel <= 9
      ensures Core() && HashReady() && dict.top == 0 && tally.Valid() && tally.tokens == [] && tally.blocks == []
      ensures tally.lastLit == 0
      ensures wSize == Pow2(windowBits) && next == data == [] && strstart == lookahead == blockStart == 0
      ensures matchLength == 2 == prevLength && !matchAvailable
      ensures tally.litBufsize == Pow2(memLevel + 6) >= 128
      ensures level > 0 ==> maxChainLength >= 4
      ensures fresh(dict) && fresh(dict.head) && fresh(dict.prev) && fresh(tally) && fresh(tally.lBuf)
      ensures fresh(tally.dBuf) && fresh(window)
    {
      hide ChainsOk, ChainsFull, InflateWindow.CheckOf;
      InflateWindow.CheckNothing();
      WindowSizes(windowBits);
      Pow2Mono(7, memLevel + 6);
      var config := CONFIGURATION_TABLE[level];
      var d := new Dictionary(windowBits, memLevel + 7);
      var t := new Tally(Pow2(memLevel + 6));
      dict, tally, this.strategy := d, t, strategy;
      wSize := Pow2(windowBits);
      window := new byte[2 * Pow2(windowBits)];
      maxChainLength, maxLazyMatch, goodMatch, niceMatch := config.chain, config.lazy, config.good, config.nice;
      next, adler, strstart, lookahead, blockStart, data := [], 1, 0, 0, 0, [];
      matchLength, matchStart, prevLength, prevMatch, matchAvailable := MIN_MATCH - 1, 0, MIN_MATCH - 1, 0, false;
    }

    ghost predicate Shape()
    {
      && window.Length == 2 * wSize && wSize == Pow2(dict.wbits) && 512 <= wSize <= 32768
      && window != tally.lBuf && dict.head != tally.dBuf && dict.prev != tally.dBuf
    }

    /** The position in the input of strstart. */
    ghost function N(): nat
      reads this`strstart, dict`base
    {
      dict.base + strstart
    }

    function MaxDist(): int
    {
      wSize - MIN_LOOKAHEAD
    }

    ghost predicate Core()
      reads this`strstart, this`lookahead, this`data, this`adler, dict, dict.head, dict.prev, window
    {
      && Shape() && dict.Valid()
      && Holds(window[..], strstart + lookahead, data, dict.base)
      && KeysOk(dict.ins, data, dict.bits, dict.shift)
      && adler == InflateWindow.CheckOf(data)
    }

    lemma ShapeOf()
      requires Core()
      ensures Shape() && dict.base <= N() <= |data| == N() + lookahead && strstart + lookahead <= 2 * wSize
    {
      hide ChainsOk, ChainsFull, KeysOk, InflateWindow.CheckOf;
    }

    /** The running hash is ready for the string k after strstart, if that is all there. */
    ghost predicate ReadyAt(k: nat)
      reads this`strstart, this`lookahead, this`data, dict
    {
      k + MIN_MATCH <= lookahead ==>
        N() + k + 1 < |data| && Ready(dict.insH, data[N() + k], data[N() + k + 1], dict.bits, dict.shift)
    }

    ghost predicate HashReady()
      reads this`strstart, this`lookahead, this`data, dict
    {
      ReadyAt(0)
    }

    /** Move the upper half of the window to the lower one. */
    method SlideWindow()
      requires Core() && strstart >= wSize + MaxDist()
      modifies this`matchStart, this`strstart, this`blockStart, dict`base, dict.head, dict.prev, window
      ensures Core() && dict.base == old(dict.base) + wSize && strstart == old(strstart) - wSize
      ensures blockStart == old(blockStart) - wSize && Sub32(strstart, matchStart) == old(Sub32(strstart, matchStart))
    {
      hide KeysOk, ChainsOk, InflateWindow.CheckOf;
      Sub32Moves(strstart, matchStart, wSize);
      forall i | 0 <= i < wSize {
        window[i] := window[wSize + i];
      }
      matchStart := Sub32(matchStart, wSize);
      strstart := strstart - wSize;
      blockStart := blockStart - wSize;
      dict.Slide();
    }

    /** read_buf: read up to `more` bytes to the end of the valid part of the window. */
    method ReadBuf(more: nat)
      requires Core() && strstart + lookahead + more <= 2 * wSize
      modifies this`next, this`adler, this`lookahead, this`data, window
      ensures Core() && data + next == old(data + next) && old(data) <= data
      ensures lookahead == old(lookahead) + (if more < old(|next|) then more else old(|next|))
    {
      hide ChainsOk, ChainsFull, InflateWindow.CheckOf, KeysOk, Holds;
      var len := |next|;
      len := if len > more then more else len;
      var buf := next[..len];
      KeysGrow(dict.ins, data, buf, dict.bits, dict.shift);
      adler := InflateWindow.Window.Checked(adler, data, buf);
      ghost var w0 := window[..];
      CopyIn(window, strstart + lookahead, buf);
      HoldsMore(w0, window[..], strstart + lookahead, data, dict.base, buf);
      assert data + next == data + buf + next[len..];
      data, next := data + buf, next[len..];
      lookahead := lookahead + len;
    }

    /** Make room in the window and read once; false if there is nothing to read. */
    method FillOnce() returns (ok: bool)
      requires Core() && lookahead < MIN_LOOKAHEAD && HashReady()
      modifies this`next, this`adler, this`strstart, this`lookahead, this`blockStart, this`matchStart, this`data,
               dict`base, dict`insH, dict.head, dict.prev, window
      ensures Core() && HashReady() && N() == old(N()) && data + next == old(data + next) && old(data) <= data
      ensures ok <==> old(next) != []
      ensures ok ==> |next| < old(|next|)
      ensures strstart < wSize + MaxDist() && lookahead >= old(lookahead)
      ensures dict.base + blockStart == old(dict.base + blockStart)
      ensures Sub32(strstart, matchStart) == old(Sub32(strstart, matchStart))
      ensures dict.base == old(dict.base) + if old(strstart) >= wSize + MaxDist() then wSize else 0
    {
      hide ChainsOk, ChainsFull, InflateWindow.CheckOf, KeysOk, Ready;
      var more := 2 * wSize - lookahead - strstart;
      if strstart >= wSize + MaxDist() {
        SlideWindow();
        more := more + wSize;
      }
      if next == [] {
        return false;
      }
      assert more >= 2;
      ReadBuf(more);
      if lookahead >= MIN_MATCH {
        dict.Restart(window[strstart], window[strstart + 1]);
      }
      return true;
    }

    /** fill_window: take input until a longest match fits ahead, or there is no more. */
    method FillWindow()
      requires Core() && lookahead < MIN_LOOKAHEAD && HashReady()
      modifies this`next, this`adler, this`strstart, this`lookahead, this`blockStart, this`matchStart, this`data,
               dict`base, dict`insH, dict.head, dict.prev, window
      ensures Core() && HashReady() && N() == old(N()) && data + next == old(data + next) && old(data) <= data
      ensures lookahead >= MIN_LOOKAHEAD || next == []
      ensures strstart < wSize + MaxDist() && lookahead >= old(lookahead)
      ensures dict.base + blockStart == old(dict.base + blockStart)
      ensures Sub32(strstart, matchStart) == old(Sub32(strstart, matchStart))
      ensures dict.base == old(dict.base) + if old(strstart) >= wSize + MaxDist() then wSize else 0
    {
      hide ChainsOk, ChainsFull, InflateWindow.CheckOf, KeysOk, Ready, Holds;
      var ok := FillOnce();
      while ok && lookahead < MIN_LOOKAHEAD && next != []
        invariant Core() && HashReady() && N() == old(N()) && data + next == old(data + next) && old(data) <= data
        invariant ok || next == []
        invariant strstart < wSize + MaxDist() && lookahead >= old(lookahead)
        invariant dict.base + blockStart == old(dict.base + blockStart)
        invariant Sub32(strstart, matchStart) == old(Sub32(strstart, matchStart))
        invariant dict.base == old(dict.base) + if old(strstart) >= wSize + MaxDist() then wSize else 0
        decreases |next|
      {
        ok := FillOnce();
      }
    }

    /** Window index m can be followed along its chain: it has the slot of the inserted string a. */
    ghost predicate Follows(m: nat, a: nat)
      reads this`strstart, dict
    {
      a in dict.ins && dict.Mask(m) == dict.Mask(a) && m <= strstart
    }

    /** If there are three bytes ahead, m is an earlier string with the hash of the current one. */
    ghost predicate Candidate(m: nat, a: nat)
      reads this`strstart, this`lookahead, dict
    {
      lookahead >= MIN_MATCH ==>
        && a == dict.base + m && 0 < m < strstart && strstart - m <= MaxDist()
        && a in dict.ins && N() in dict.ins && dict.ins[a] == dict.ins[N()]
    }

    /** The strings at m and at strstart have the same byte i. */
    ghost predicate SameAt(m: nat, i: nat)
      reads this`strstart, window
    {
      m + i < window.Length && strstart + i < window.Length && window[m + i] == window[strstart + i]
    }

    /** The string at m agrees with the current one in its first len bytes that are valid. */
    ghost predicate Agrees(m: nat, len: nat)
      reads this`strstart, this`lookahead, window
    {
      m < strstart && forall i: nat :: i < len && i < lookahead ==> SameAt(m, i)
    }

    /** Compare from the fourth byte on, eight bytes between two checks for the end. */
    method Compare(m: nat) returns (len: nat)
      requires m <= strstart && strstart + MAX_MATCH < window.Length
      ensures 3 <= len <= MAX_MATCH && forall i: nat :: 3 <= i < len ==> SameAt(m, i)
      ensures len < MAX_MATCH ==> window[m + len] != window[strstart + len]
    {
      len := 2;
      var same := true;
      while same && len < MAX_MATCH
        invariant 2 <= len <= MAX_MATCH && (same ==> (MAX_MATCH - len) % 8 == 0)
        invariant !same ==> 3 <= len <= MAX_MATCH && window[m + len] != window[strstart + len]
        invariant forall i: nat :: 3 <= i < len ==> SameAt(m, i)
        invariant same && len > 2 ==> window[m + len] == window[strstart + len]
        decreases MAX_MATCH - len, same
      {
        var k := 0;
        ghost var len0 := len;
        while same && k < 8
          invariant 0 <= k <= 8 && len == len0 + k && len <= MAX_MATCH
          invariant !same ==> 3 <= len && window[m + len] != window[strstart + len]
          invariant forall i: nat :: 3 <= i < len ==> SameAt(m, i)
          invariant same && len > 2 ==> window[m + len] == window[strstart + len]
        {
          len := len + 1;
          k := k + 1;
          same := window[m + len] == window[strstart + len];
        }
      }
    }

    /** Equal hashes and two equal bytes leave no room for a difference in the third. */
    lemma ThirdAgrees(m: nat, a: nat)
      requires Core() && Candidate(m, a) && lookahead >= MIN_MATCH
      requires window[m] == window[strstart] && window[m + 1] == window[strstart + 1]
      ensures window[m + 2] == window[strstart + 2]
    {
      hide ChainsOk, ChainsFull, InflateWindow.CheckOf, Hash3;
      var n := N();
      ThirdByte(data[n], data[n + 1], data[a + 2], data[n + 2], dict.bits, dict.shift);
    }

    /** No more than `best` bytes agree. */
    ghost predicate Differs(m: nat, best: nat)
      reads this`strstart, window
    {
      exists i: nat :: i <= best && !SameAt(m, i)
    }

    /** Look at one string of the chain: is it longer than the best so far? */
    method Try(m: nat, best: nat, ghost a: nat) returns (len: nat)
      requires Core() && Candidate(m, a) && m <= strstart && strstart + MIN_LOOKAHEAD <= 2 * wSize
      requires 1 <= best <= MAX_MATCH
      ensures len == 0 || (3 <= len <= MAX_MATCH && (lookahead >= MIN_MATCH ==> Agrees(m, len)))
      ensures var longer := if len > best then len else best; longer < MAX_MATCH ==> Differs(m, longer)
    {
      hide ChainsOk, ChainsFull, InflateWindow.CheckOf, KeysOk;
      if window[m + best] != window[strstart + best] || window[m + best - 1] != window[strstart + best - 1]
        || window[m] != window[strstart] || window[m + 1] != window[strstart + 1] {
        assert !SameAt(m, best) || !SameAt(m, best - 1) || !SameAt(m, 0) || !SameAt(m, 1);
        return 0;
      }
      len := Compare(m);
      assert len < MAX_MATCH ==> !SameAt(m, len);
      if lookahead >= MIN_MATCH {
        ThirdAgrees(m, a);
        assert SameAt(m, 0) && SameAt(m, 1) && SameAt(m, 2);
      }
    }

    /** The best match so far, if there was one. */
    ghost predicate Best(best: nat)
      reads this, window
    {
      prevLength <= best <= MAX_MATCH &&
      (best > prevLength && lookahead >= MIN_MATCH ==>
        3 <= best && Agrees(matchStart, best) && strstart - matchStart <= MaxDist())
    }

    /** No match with the string at m is longer than `best`. */
    ghost predicate NoLonger(m: nat, best: nat)
      reads this`strstart, this`lookahead, window
    {
      forall len: nat :: best < len <= lookahead && len <= MAX_MATCH ==> !Agrees(m, len)
    }

    /** The links followed at most, and the index below which they are not followed. */
    function Budget(): nat
      reads this`prevLength
    {
      if prevLength >= goodMatch then maxChainLength / 4 else maxChainLength
    }

    function Limit(): nat
      reads this`strstart
    {
      if strstart > MaxDist() then strstart - MaxDist() else NIL
    }

    /** The strings looked at: those of the chain from curMatch on. */
    ghost predicate Visited(seen: seq<nat>, curMatch: nat)
      reads this`strstart, dict, dict.prev
    {
      && seen != [] && seen[0] == curMatch
      && forall k :: 0 < k < |seen| ==> FollowsOn(seen, k)
    }

    ghost predicate FollowsOn(seen: seq<nat>, k: int)
      requires 0 < k < |seen|
      reads this`strstart, dict, dict.prev
    {
      seen[k] == dict.Link(seen[k - 1]) && seen[k] > Limit()
    }

    /** An earlier string of the current one's hash that is near enough and that the chains can name. */
    ghost predicate Recent(b: nat)
      reads this`strstart, dict
    {
      N() in dict.ins && Listed(dict.ins, dict.base, dict.live, dict.ins[N()], b) && dict.base + Limit() < b < N()
    }

    /** All such strings from position `from` on were looked at. */
    ghost predicate Covers(seen: seq<nat>, from: nat)
      reads this`strstart, dict
    {
      forall b: nat {:trigger Recent(b)} :: Recent(b) && from <= b ==> b - dict.base in seen
    }

    /** None of them repeats the current string for more than `best` bytes. */
    ghost predicate NoneBetter(best: nat, from: nat)
      reads this`strstart, this`lookahead, this`data, dict
    {
      forall b: nat {:trigger Recent(b)} :: Recent(b) && from <= b && best < lookahead && best < MAX_MATCH ==>
        !Matches(data, N(), N() - b, best + 1)
    }

    /** The head is the latest string of the current one's hash. */
    ghost predicate LatestHead(m: nat)
      reads this`strstart, this`lookahead, dict
    {
      lookahead >= MIN_MATCH ==>
        N() in dict.ins && Latest(dict.ins, dict.base, dict.live, dict.ins[N()], N(), m)
    }

    lemma FirstCovers(m: nat)
      requires lookahead >= MIN_MATCH && LatestHead(m)
      ensures Covers([m], dict.base + m)
    {
      forall b: nat | Recent(b) && dict.base + m <= b
        ensures b - dict.base in [m]
      {
        assert b == dict.base + m;
      }
    }

    lemma CoversMore(seen: seq<nat>, cur: nat, next: nat)
      requires N() in dict.ins && Covers(seen, dict.base + cur) && cur in seen
      requires Latest(dict.ins, dict.base, dict.live, dict.ins[N()], dict.base + cur, next)
      ensures Covers(seen + [next], dict.base + next) && (next <= Limit() ==> Covers(seen, 0))
    {
      forall b: nat | Recent(b)
        ensures dict.base + next <= b ==> b - dict.base in seen + [next]
        ensures next <= Limit() ==> b - dict.base in seen
      {
        if b < dict.base + cur {
          assert b <= dict.base + next;
        }
      }
    }

    lemma MatchesAgrees(b: nat, len: nat)
      requires Core() && dict.base <= b < N() && Matches(data, N(), N() - b, len) && len <= lookahead
      ensures Agrees(b - dict.base, len)
    {
      hide ChainsOk, ChainsFull, InflateWindow.CheckOf, KeysOk;
      var m := b - dict.base;
      forall i: nat | i < len && i < lookahead
        ensures SameAt(m, i)
      {
        assert data[dict.base + (m + i)] == window[..][m + i] &&
          data[dict.base + (strstart + i)] == window[..][strstart + i];
        assert data[N() + i] == data[N() + i - (N() - b)];
      }
    }

    lemma NothingMissed(seen: seq<nat>, from: nat, best: nat)
      requires Core() && Covers(seen, from) && forall m :: m in seen ==> NoLonger(m, best)
      ensures NoneBetter(best, from)
    {
      hide Core, Matches, Agrees;
      forall b: nat | Recent(b) && from <= b && best < lookahead && best < MAX_MATCH
        ensures !Matches(data, N(), N() - b, best + 1)
      {
        Disagrees(b - dict.base, best);
        if Matches(data, N(), N() - b, best + 1) {
          MatchesAgrees(b, best + 1);
        }
      }
    }

    lemma Disagrees(m: nat, best: nat)
      requires NoLonger(m, best) && best < lookahead && best < MAX_MATCH
      ensures !Agrees(m, best + 1)
    {
      hide Agrees;
    }

    /** A head that is not there or too far away leaves nothing to find. */
    lemma NothingNear(m: nat, best: nat)
      requires Core() && LatestHead(m) && lookahead >= MIN_MATCH
      requires m == NIL || (m < strstart && strstart - m > MaxDist())
      ensures NoneBetter(best, 0)
    {
      hide Core, Matches;
      forall b: nat
        ensures !Recent(b)
      {
        if Recent(b) {
          NotLater(m, b);
        }
      }
    }

    lemma NotLater(m: nat, b: nat)
      requires lookahead >= MIN_MATCH && LatestHead(m) && Recent(b)
      ensures m != NIL && b <= dict.base + m
    {
    }

    lemma NoneBetterYet(best: nat, more: nat, from: nat)
      requires NoneBetter(best, from) && best <= more
      ensures NoneBetter(more, from)
    {
      forall b: nat | Recent(b) && from <= b && more < lookahead && more < MAX_MATCH
        ensures !Matches(data, N(), N() - b, more + 1)
      {
        assert !Matches(data, N(), N() - b, best + 1);
      }
    }

    lemma IsGreedy(ins: map<nat, nat>, from: nat, best: nat)
      requires Core() && NoneBetter(best, from) && N() in dict.ins && 2 <= best
      requires forall b :: b in ins ==> b in dict.ins
      ensures Greedy(data, ins, dict.base, dict.live, N(), Limit(), from, best)
    {
      hide ChainsOk, ChainsFull, InflateWindow.CheckOf, Holds, Hash3;
      forall b: nat | b in ins && dict.live <= b && dict.base + Limit() < b < N() && from <= b && best < MAX_MATCH
        ensures !Matches(data, N(), N() - b, best + 1)
      {
        if Matches(data, N(), N() - b, best + 1) {
          SameKey(b, best + 1);
          IsRecent(b);
        }
      }
    }

    lemma IsRecent(b: nat)
      requires N() in dict.ins && b in dict.ins && dict.ins[b] == dict.ins[N()]
      requires dict.live <= b && dict.base + Limit() < b < N()
      ensures Recent(b)
    {
    }

    /** Strings that agree in three bytes have the same hash. */
    lemma SameKey(b: nat, len: nat)
      requires Core() && N() in dict.ins && b in dict.ins && b < N() && 3 <= len && Matches(data, N(), N() - b, len)
      ensures dict.ins[b] == dict.ins[N()] && len <= lookahead
    {
      hide ChainsOk, ChainsFull, InflateWindow.CheckOf, Holds, Hash3;
      ShapeOf();
      var n := N();
      assert data[n] == data[n - (n - b)] && data[n + 1] == data[n + 1 - (n - b)];
      assert data[n + 2] == data[n + 2 - (n - b)];
    }

    /** The search stopped at a string good enough, at the end of the chain, or after Budget() strings. */
    ghost predicate Stopped(seen: seq<nat>, len: nat)
      requires seen != []
      reads this`strstart, this`lookahead, this`prevLength, dict, dict.prev
    {
      |seen| == Budget() || len >= lookahead || len >= niceMatch || dict.Link(seen[|seen| - 1]) <= Limit()
    }

    /** longest_match: set matchStart to the longest match on the chain from curMatch on, if one is
        longer than prevLength. */
    method LongestMatch(curMatch: nat, ghost a0: nat) returns (len: nat, ghost seen: seq<nat>, ghost from: nat)
      requires Core() && dict.top <= N() + 1 && Follows(curMatch, a0) && Candidate(curMatch, a0) && LatestHead(curMatch)
      requires strstart + MIN_LOOKAHEAD <= 2 * wSize && 1 <= prevLength <= MAX_MATCH && maxChainLength >= 4
      modifies this`matchStart
      ensures len <= lookahead && len <= MAX_MATCH && (lookahead > 0 ==> len > 0)
      ensures len > prevLength && len >= MIN_MATCH ==>
        matchStart < strstart && len <= MAX_MATCH && strstart - matchStart <= MaxDist() &&
          Matches(data, N(), strstart - matchStart, len)
      ensures Visited(seen, curMatch) && |seen| <= Budget() && Stopped(seen, len)
      ensures forall m :: m in seen ==> NoLonger(m, if len > prevLength then len else prevLength)
      ensures len > prevLength ==> matchStart in seen
      ensures lookahead >= MIN_MATCH ==> NoneBetter(if len > prevLength then len else prevLength, from)
      ensures from == 0 || |seen| == Budget() || len >= lookahead || len >= niceMatch
    {
      hide Core, Follows, Candidate, Best, Matches, Agrees, Differs, NoLonger, Visited, Stopped, Covers, LatestHead,
           NoneBetter;
      var chainLength := maxChainLength;
      if prevLength >= goodMatch {
        chainLength := chainLength / 4;
      }
      var nice := if niceMatch > lookahead then lookahead else niceMatch;
      var limit := if strstart > MaxDist() then strstart - MaxDist() else NIL;
      var best;
      best, seen, from := Chase(curMatch, a0, chainLength, nice, limit);
      if best > prevLength && lookahead >= MIN_MATCH {
        BestMatches(best);
      }
      len := if best <= lookahead then best else lookahead;
      NoneLonger(seen, best, if len > prevLength then len else prevLength);
      if lookahead >= MIN_MATCH {
        NothingMissed(seen, from, if len > prevLength then len else prevLength);
      }
    }

    /** The loop of longest_match. */
    method Chase(curMatch: nat, ghost a0: nat, chainLength0: nat, nice: nat, limit: nat)
      returns (best: nat, ghost seen: seq<nat>, ghost from: nat)
      requires Core() && dict.top <= N() + 1 && Follows(curMatch, a0) && Candidate(curMatch, a0) && LatestHead(curMatch)
      requires strstart + MIN_LOOKAHEAD <= 2 * wSize && 1 <= prevLength <= MAX_MATCH
      requires chainLength0 == Budget() >= 1 && limit == Limit()
      requires nice == if niceMatch > lookahead then lookahead else niceMatch
      modifies this`matchStart
      ensures Best(best) && prevLength <= best <= MAX_MATCH && (best > prevLength ==> matchStart in seen)
      ensures Visited(seen, curMatch) && |seen| <= Budget() && seen != []
      ensures Stopped(seen, if best <= lookahead then best else lookahead)
      ensures best < MAX_MATCH ==> forall k :: 0 <= k < |seen| ==> Differs(seen[k], best)
      ensures lookahead >= MIN_MATCH ==> Covers(seen, from)
      ensures from == 0 || |seen| == Budget() || best >= nice
    {
      hide Core, Follows, Candidate, Best, Matches, Agrees, Differs, NoLonger, Visited, Stopped, Budget, Limit, Covers,
           LatestHead, Recent;
      FirstVisited(curMatch);
      if lookahead >= MIN_MATCH {
        FirstCovers(curMatch);
      }
      BestStart();
      var chainLength := chainLength0;
      var cur: nat := curMatch;
      ghost var a: nat := a0;
      best, seen, from := prevLength, [curMatch], dict.base + curMatch;
      while true
        invariant Core() && Follows(cur, a) && Candidate(cur, a) && Best(best) && prevLength <= best <= MAX_MATCH
        invariant chainLength >= 1 && |seen| + chainLength == Budget() + 1
        invariant Visited(seen, curMatch) && seen[|seen| - 1] == cur
        invariant best < MAX_MATCH ==> forall k :: 0 <= k < |seen| - 1 ==> Differs(seen[k], best)
        invariant best > prevLength ==> matchStart in seen
        invariant from == dict.base + cur && (lookahead >= MIN_MATCH ==> Covers(seen, from))
        decreases chainLength
      {
        var l := TryOne(cur, best, a, seen);
        if l > best {
          best := l;
          if l >= nice {
            StopsAt(seen, best);
            break;
          }
        }
        var next := Earlier(cur, a, limit);
        if lookahead >= MIN_MATCH {
          CoversMore(seen, cur, next);
        }
        if next <= limit {
          StopsAt(seen, best);
          from := 0;
          break;
        }
        chainLength := chainLength - 1;
        if chainLength == 0 {
          StopsAt(seen, best);
          break;
        }
        VisitMore(seen, curMatch, next);
        cur, a := next, dict.base + next;
        seen, from := seen + [next], dict.base + next;
      }
    }

    lemma NoneLonger(seen: seq<nat>, best: nat, len: nat)
      requires len >= (if best <= lookahead then best else lookahead) && best <= MAX_MATCH
      requires best < MAX_MATCH ==> forall k :: 0 <= k < |seen| ==> Differs(seen[k], best)
      ensures forall m :: m in seen ==> NoLonger(m, len)
    {
      hide Differs, NoLonger;
      forall m | m in seen
        ensures NoLonger(m, len)
      {
        if best < MAX_MATCH {
          Shorter(m, best, len);
        } else {
          Capped(m, len);
        }
      }
    }

    lemma FirstVisited(curMatch: nat)
      ensures Visited([curMatch], curMatch)
    {
    }

    lemma VisitMore(seen: seq<nat>, curMatch: nat, next: nat)
      requires Visited(seen, curMatch) && next == dict.Link(seen[|seen| - 1]) && next > Limit()
      ensures Visited(seen + [next], curMatch)
    {
      forall k | 0 < k < |seen + [next]|
        ensures FollowsOn(seen + [next], k)
      {
        if k < |seen| {
          assert FollowsOn(seen, k);
        }
      }
    }

    lemma StopsAt(seen: seq<nat>, best: nat)
      requires seen != []
      requires best >= lookahead || best >= niceMatch || |seen| == Budget() || dict.Link(seen[|seen| - 1]) <= Limit()
      ensures Stopped(seen, if best <= lookahead then best else lookahead)
    {
    }

    lemma DifferMore(seen: seq<nat>, best: nat, best': nat)
      requires seen != [] && best <= best'
      requires best < MAX_MATCH ==> forall k :: 0 <= k < |seen| - 1 ==> Differs(seen[k], best)
      ensures best' < MAX_MATCH ==> forall k :: 0 <= k < |seen| - 1 ==> Differs(seen[k], best')
    {
      hide SameAt;
    }

    lemma Shorter(m: nat, best: nat, len: nat)
      requires Differs(m, best) && len >= if best <= lookahead then best else lookahead
      ensures NoLonger(m, len)
    {
      hide SameAt;
      var i: nat :| i <= best && !SameAt(m, i);
      forall l: nat | len < l <= lookahead && l <= MAX_MATCH
        ensures !Agrees(m, l)
      {
        assert i < l && i < lookahead;
      }
    }

    lemma Capped(m: nat, len: nat)
      requires len >= if MAX_MATCH <= lookahead then MAX_MATCH else lookahead
      ensures NoLonger(m, len)
    {
    }

    /** Try the last string of the chain, and keep it if it is longer. */
    method TryOne(m: nat, best: nat, ghost a: nat, ghost seen: seq<nat>) returns (l: nat)
      requires Core() && Follows(m, a) && Candidate(m, a) && Best(best) && strstart + MIN_LOOKAHEAD <= 2 * wSize
      requires 1 <= prevLength <= best <= MAX_MATCH && seen != [] && seen[|seen| - 1] == m
      requires best < MAX_MATCH ==> forall k :: 0 <= k < |seen| - 1 ==> Differs(seen[k], best)
      modifies this`matchStart
      ensures l <= MAX_MATCH && matchStart == if l > best then m else old(matchStart)
      ensures var longer := if l > best then l else best;
              Best(longer) && (longer < MAX_MATCH ==> forall k :: 0 <= k < |seen| ==> Differs(seen[k], longer))
    {
      hide Core, Follows, Candidate, Best, Matches, Agrees, Differs;
      InWindow(m, a);
      l := Try(m, best, a);
      if l > best {
        matchStart := m;
        Better(m, a, l);
        DifferMore(seen, best, l);
      }
    }

    lemma BestStart()
      requires 1 <= prevLength <= MAX_MATCH
      ensures Best(prevLength)
    {
    }

    lemma InWindow(m: nat, a: nat)
      requires Follows(m, a)
      ensures m <= strstart
    {
    }

    lemma Better(m: nat, a: nat, len: nat)
      requires Core() && Candidate(m, a) && matchStart == m && prevLength < len <= MAX_MATCH && 3 <= len
      requires lookahead >= MIN_MATCH ==> Agrees(m, len)
      ensures Best(len)
    {
      hide Core, Agrees;
    }

    lemma BestMatches(best: nat)
      requires Core() && Best(best) && best > prevLength && lookahead >= MIN_MATCH
      ensures 3 <= best && matchStart < strstart && strstart - matchStart <= MaxDist()
      ensures Matches(data, N(), strstart - matchStart, if best <= lookahead then best else lookahead)
    {
      hide Core, Matches, Agrees;
      AgreesMatches(matchStart, best, if best <= lookahead then best else lookahead);
    }

    /** The string before on the chain, which counts only if it is after the limit. */
    method Earlier(cur: nat, ghost a: nat, limit: nat) returns (next: nat)
      requires Core() && dict.top <= N() + 1 && Follows(cur, a) && Candidate(cur, a)
      requires limit == Limit()
      ensures next == dict.Link(cur)
      ensures next > limit ==> Follows(next, dict.base + next) && Candidate(next, dict.base + next)
      ensures lookahead >= MIN_MATCH ==>
        N() in dict.ins && Latest(dict.ins, dict.base, dict.live, dict.ins[N()], dict.base + cur, next)
    {
      hide ChainsOk, ChainsFull, InflateWindow.CheckOf, KeysOk, Holds;
      next := dict.Next(cur, a);
      if lookahead >= MIN_MATCH && a < dict.live {
        assert Latest(dict.ins, dict.base, dict.live, dict.ins[N()], dict.base + cur, next);
      }
    }

    lemma AgreesMatches(m: nat, best: nat, len: nat)
      requires Core() && Agrees(m, best) && len <= best && len <= lookahead
      ensures m < strstart
      ensures Matches(data, N(), strstart - m, len)
    {
      hide ChainsOk, ChainsFull, InflateWindow.CheckOf, KeysOk;
      var d := strstart - m;
      forall i | N() <= i < N() + len
        ensures data[i] == data[i - d]
      {
        var k := i - N();
        assert SameAt(m, k);
        assert data[dict.base + (m + k)] == window[..][m + k] &&
          data[dict.base + (strstart + k)] == window[..][strstart + k];
      }
    }

    /** Position in the input of the beginning of the current block. */
    ghost function Covered(): int
      reads this`blockStart, dict`base
    {
      dict.base + blockStart
    }

    /** The blocks handed over lie end to end over the input up to the current block. */
    ghost predicate BlocksOk()
      reads this`strstart, this`blockStart, this`data, dict`base, tally, tally.lBuf, tally.dBuf
    {
      tally.Valid() && 0 <= Covered() <= N() && Tiles(tally.blocks, data, Covered())
    }

    /** The bytes of the current block if they are all in the window. */
    method BlockBytes() returns (buf: Buffer)
      requires Core() && 0 <= Covered() <= N()
      ensures buf == if blockStart >= 0 then Bytes(data[Covered()..N()]) else Null
    {
      hide ChainsOk, ChainsFull, InflateWindow.CheckOf, KeysOk, Holds;
      ShapeOf();
      if blockStart >= 0 {
        buf := Bytes(window[blockStart..strstart]);
        HoldsSlice(window[..], strstart + lookahead, data, dict.base, blockStart, strstart);
        assert window[blockStart..strstart] == window[..][blockStart..strstart];
      } else {
        buf := Null;
      }
    }

    /** FLUSH_BLOCK_ONLY: hand over the current block. */
    method FlushBlockOnly(eof: bool)
      requires Core() && BlocksOk()
      modifies this`blockStart, tally`lastLit, tally`blocks
      ensures Core() && BlocksOk() && tally.lastLit == 0 && blockStart == strstart
      ensures tally.blocks == old(tally.blocks) + [Block(old(tally.Pending()),
        if old(blockStart) >= 0 then Bytes(data[old(Covered())..N()]) else Null, N() - old(Covered()), eof)]
    {
      hide ChainsOk, ChainsFull, InflateWindow.CheckOf, KeysOk, Tiles;
      var buf := BlockBytes();
      TilesSnoc(tally.blocks, Block(tally.Pending(), buf, strstart - blockStart, eof), data, Covered());
      tally.Flush(buf, strstart - blockStart, eof);
      blockStart := strstart;
    }

    /** FLUSH_BLOCK: hand over the current block; is the room for output used up then? */
    method FlushBlock(eof: bool, ample: bool) returns (full: bool)
      requires Core() && BlocksOk()
      modifies this`blockStart, tally`lastLit, tally`blocks
      ensures Core() && BlocksOk() && tally.lastLit == 0 && blockStart == strstart
      ensures tally.blocks == old(tally.blocks) + [Block(old(tally.Pending()),
        if old(blockStart) >= 0 then Bytes(data[old(Covered())..N()]) else Null, N() - old(Covered()), eof)]
      ensures ample ==> !full
    {
      FlushBlockOnly(eof);
      full := UsedUp(ample);
    }

    /** A chain head that was looked up at some time, with the position a that it named then. */
    ghost predicate WasHead(hashHead: nat, a: nat)
      reads dict
    {
      hashHead == NIL || (hashHead < 2 * wSize && a in dict.ins && dict.Mask(hashHead) == dict.Mask(a))
    }

    /** Insert the string k after strstart in the dictionary. */
    method InsertAt(k: nat) returns (hashHead: nat)
      requires Core() && ReadyAt(k) && k + MIN_MATCH <= lookahead && dict.top <= N() + k
      modifies dict, dict.head, dict.prev
      ensures Core() && ReadyAt(k + 1) && dict.top == N() + k + 1 && dict.base == old(dict.base)
      ensures N() + k in dict.ins && forall a :: a in old(dict.ins) ==> a in dict.ins
      ensures WasHead(hashHead, dict.base + hashHead)
      ensures hashHead != NIL ==>
        && hashHead < strstart + k && dict.base + hashHead in dict.ins
        && dict.ins[dict.base + hashHead] == dict.ins[N() + k]
      ensures Latest(dict.ins, dict.base, dict.live, dict.ins[N() + k], N() + k, hashHead)
      ensures dict.live == old(dict.live)
    {
      hide ChainsOk, ChainsFull, Latest, InflateWindow.CheckOf, KeysOk, Ready;
      hashHead := dict.Insert(strstart + k, window[strstart + k + 2], data);
    }

    /** Insert the `count` strings after strstart as far as they begin at limit or before. */
    method InsertRun(count: nat, limit: int, hashHead0: nat, ghost a0: nat) returns (hashHead: nat, ghost a: nat)
      requires Core() && ReadyAt(1) && dict.top <= N() + 1 && WasHead(hashHead0, a0)
      requires limit + MIN_MATCH <= strstart + lookahead
      requires limit + MIN_MATCH == strstart + lookahead || strstart + count <= limit
      modifies dict, dict.head, dict.prev
      ensures Core() && ReadyAt(count + 1) && dict.top <= N() + count + 1 && dict.base == old(dict.base)
      ensures WasHead(hashHead, a) && forall b :: b in old(dict.ins) ==> b in dict.ins
    {
      hide ChainsOk, ChainsFull, InflateWindow.CheckOf, KeysOk, Ready, Holds;
      var k := 0;
      hashHead, a := hashHead0, a0;
      while k < count
        invariant 0 <= k <= count && Core() && dict.top <= N() + k + 1 && dict.base == old(dict.base)
        invariant ReadyAt(k + 1) && WasHead(hashHead, a) && forall b :: b in old(dict.ins) ==> b in dict.ins
      {
        k := k + 1;
        if strstart + k <= limit {
          hashHead := InsertAt(k);
          a := dict.base + hashHead;
        }
      }
    }

    /** With three bytes ahead, the current string is inserted and hashHead is an earlier one of its chain. */
    ghost predicate FreshHead(hashHead: nat, a: nat)
      reads this, dict
    {
      lookahead >= MIN_MATCH ==>
        N() in dict.ins &&
        (hashHead != NIL ==>
          a == dict.base + hashHead && hashHead < strstart && a in dict.ins && dict.ins[a] == dict.ins[N()])
    }

    /** There is a match of len bytes at matchStart, near enough. */
    ghost predicate Found(len: nat)
      reads this, dict
    {
      && MIN_MATCH <= len <= MAX_MATCH && len <= lookahead && matchStart < strstart &&
        strstart - matchStart <= MaxDist()
      && Matches(data, N(), strstart - matchStart, len)
    }

    /** Search the chain from hashHead on, if that is near enough.  With fewer than three bytes
        ahead hashHead is left over from an earlier string, which does no harm. */
    method Search(hashHead: nat, ghost a: nat) returns (len: nat, ghost seen: seq<nat>, ghost from: nat)
      requires Core() && dict.top <= N() + 1 && WasHead(hashHead, a) && FreshHead(hashHead, a) && LatestHead(hashHead)
      requires hashHead != NIL && Sub32(strstart, hashHead) <= MaxDist()
      requires strstart + MIN_LOOKAHEAD <= 2 * wSize && 1 <= prevLength <= MAX_MATCH && maxChainLength >= 4
      modifies this`matchStart
      ensures len <= lookahead && len <= MAX_MATCH && (lookahead > 0 ==> len > 0)
      ensures (len > prevLength && len >= MIN_MATCH ==> Found(len))
      ensures lookahead >= MIN_MATCH ==> NoneBetter(if len > prevLength then len else prevLength, from)
      ensures from == 0 || |seen| == Budget() || len >= lookahead || len >= niceMatch
    {
      hide ChainsOk, ChainsFull, InflateWindow.CheckOf, KeysOk, Matches, Holds, NoneBetter, LatestHead;
      len, seen, from := LongestMatch(hashHead, a);
    }

    /** INSERT_STRING for the current string, if it is all there. */
    method InsertCurrent(hashHead0: nat, ghost a0: nat) returns (hashHead: nat, ghost a: nat)
      requires Core() && HashReady() && dict.top <= N() && WasHead(hashHead0, a0)
      modifies dict, dict.head, dict.prev
      ensures Core() && ReadyAt(1) && dict.top <= N() + 1 && dict.base == old(dict.base)
      ensures WasHead(hashHead, a) && FreshHead(hashHead, a) && LatestHead(hashHead)
      ensures dict.live == old(dict.live) && (lookahead >= MIN_MATCH ==> N() in dict.ins)
      ensures forall b :: b in old(dict.ins) ==> b in dict.ins
    {
      hide ChainsOk, ChainsFull, Latest, InflateWindow.CheckOf, KeysOk, Holds;
      hashHead, a := hashHead0, a0;
      if lookahead >= MIN_MATCH {
        hashHead := InsertAt(0);
        a := dict.base + hashHead;
      }
    }

    /** fill_window for the matching levels, the tokens being those of `emitted` bytes of input. */
    method Refill(ghost emitted: nat)
      requires Core() && BlocksOk() && HashReady() && lookahead < MIN_LOOKAHEAD && emitted <= N()
      requires Expand(tally.tokens) == data[..emitted] && TokensTile(tally.blocks, data, Covered())
      modifies this`next, this`adler, this`strstart, this`lookahead, this`blockStart, this`matchStart, this`data,
               dict`base, dict`insH, dict.head, dict.prev, window
      ensures Core() && BlocksOk() && HashReady() && N() == old(N()) && data + next == old(data + next)
      ensures old(data) <= data
      ensures lookahead >= MIN_LOOKAHEAD || next == []
      ensures strstart < wSize + MaxDist() && lookahead >= old(lookahead) && (old(strstart) >= 1 ==> strstart >= 1)
      ensures Covered() == old(Covered()) && Sub32(strstart, matchStart) == old(Sub32(strstart, matchStart))
      ensures Expand(tally.tokens) == data[..emitted] && TokensTile(tally.blocks, data, Covered())
    {
      hide ChainsOk, ChainsFull, InflateWindow.CheckOf, KeysOk, Tiles, TokensTile, Expand;
      ghost var d := data;
      FillWindow();
      TilesGrow(tally.blocks, d, data, Covered());
      assert data[..emitted] == d[..emitted];
    }

    /** FLUSH_BLOCK_ONLY after the tokens of all the input before strstart. */
    method FlushTokens(eof: bool)
      requires Core() && BlocksOk() && Expand(tally.tokens) == data[..N()] && TokensTile(tally.blocks, data, Covered())
      modifies this`blockStart, tally`lastLit, tally`blocks
      ensures Core() && BlocksOk() && tally.lastLit == 0 && blockStart == strstart && Covered() == N()
      ensures Expand(tally.tokens) == data[..N()] && TokensTile(tally.blocks, data, Covered())
      ensures Wrote(old(tally.blocks), tally.blocks, eof)
    {
      hide ChainsOk, ChainsFull, InflateWindow.CheckOf, KeysOk, Tiles, TokensTile, Expand;
      ghost var b := Block(tally.Pending(), if blockStart >= 0 then Bytes(data[Covered()..N()])
        else Null, N() - Covered(), eof);
      assert AllTokens(tally.blocks) + tally.Pending() == tally.tokens;
      HoldsBound(window[..], strstart + lookahead, data, dict.base);
      TokensSnoc(tally.blocks, b, data, Covered());
      FlushBlockOnly(eof);
    }
  }

  method CopyIn(window: array<byte>, at: nat, buf: seq<byte>)
    requires at + |buf| <= window.Length
    modifies window
    ensures forall i :: 0 <= i < window.Length ==> window[i] == if at <= i < at + |buf| then buf[i - at]
      else old(window[i])
  {
    forall i | at <= i < at + |buf| {
      window[i] := buf[i - at];
    }
  }

  lemma HoldsBound(window: seq<byte>, end: nat, data: seq<byte>, base: nat)
    requires Holds(window, end, data, base)
    ensures |data| == base + end
  {
  }

  lemma HoldsSlice(window: seq<byte>, end: nat, data: seq<byte>, base: nat, i: nat, j: nat)
    requires Holds(window, end, data, base) && i <= j <= end
    ensures window[i..j] == data[base + i..base + j]
  {
  }

  lemma HoldsMore(window: seq<byte>, window': seq<byte>, end: nat, data: seq<byte>, base: nat, buf: seq<byte>)
    requires Holds(window, end, data, base) && end + |buf| <= |window| == |window'|
    requires forall i :: 0 <= i < |window| ==> window'[i] == if end <= i < end + |buf| then buf[i - end] else window[i]
    ensures Holds(window', end + |buf|, data + buf, base)
  {
  }

  lemma WindowSizes(bits: nat)
    requires 9 <= bits <= 15
    ensures 512 <= Pow2(bits) <= 32768 && Pow2(7) == 128
  {
    assert Pow2(3) == 8 && Pow2(6) == 64;
    assert Pow2(9) == 512 && Pow2(12) == 4096;
    assert Pow2(15) == 32768;
    Pow2Mono(9, bits);
    Pow2Mono(bits, 15);
  }

  lemma KeysGrow(ins: map<nat, nat>, data: seq<byte>, more: seq<byte>, bits: nat, shift: nat)
    requires KeysOk(ins, data, bits, shift)
    ensures KeysOk(ins, data + more, bits, shift)
  {
  }
}
