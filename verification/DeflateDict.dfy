/** The string dictionary of deflate.c: hash chains over the sliding window. */
module DeflateDict {
  import opened Bits
  import opened Zlib
  import opened DeflateHash

  /** Tails of hash chains, and heads of empty ones. */
  const NIL := 0

  /** Every inserted position has the hash of its three bytes as its key. */
  ghost predicate KeysOk(ins: map<nat, nat>, data: seq<byte>, bits: nat, shift: nat)
  {
    forall a :: a in ins ==> a + MIN_MATCH <= |data| && ins[a] == Hash3(data[a], data[a + 1], data[a + 2], bits, shift)
  }

  lemma KeysMore(ins: map<nat, nat>, data: seq<byte>, bits: nat, shift: nat, p: nat, h: nat)
    requires KeysOk(ins, data, bits, shift) && p + MIN_MATCH <= |data|
    requires h == Hash3(data[p], data[p + 1], data[p + 2], bits, shift)
    ensures KeysOk(ins[p := h], data, bits, shift)
  {
  }

  /** Window index v names an inserted string. */
  ghost predicate Names(v: nat, ins: map<nat, nat>, base: nat, top: nat)
  {
    base + v in ins && base + v < top
  }

  /** The head of chain h is NIL or the window index of a string with hash h. */
  ghost predicate HeadOk(head: seq<nat>, h: nat, ins: map<nat, nat>, base: nat, top: nat)
    requires h < |head|
  {
    head[h] == NIL || (Names(head[h], ins, base, top) && ins[base + head[h]] == h)
  }

  /** The link of string a is NIL or the window index of an inserted string.  As long as a is
      among the last W positions that string is an earlier one with the same hash. */
  ghost predicate LinkOk(prev: seq<nat>, a: nat, ins: map<nat, nat>, base: nat, top: nat, wbits: nat)
    requires a in ins && Low(a, wbits) < |prev|
  {
    var v := prev[Low(a, wbits)];
    v == NIL || (Names(v, ins, base, top) && (top <= a + Pow2(wbits) ==> base + v < a && ins[base + v] == ins[a]))
  }

  ghost predicate ChainsOk(head: seq<nat>, prev: seq<nat>, ins: map<nat, nat>, base: nat, top: nat, wbits: nat)
  {
    && |prev| == Pow2(wbits) && Low(base, wbits) == 0
    && (forall a :: a in ins ==> a < top && ins[a] < |head| && Low(a, wbits) < |prev|)
    && (forall h: nat {:trigger HeadOk(head, h, ins, base, top)} :: h < |head| ==> HeadOk(head, h, ins, base, top))
    && (forall a {:trigger LinkOk(prev, a, ins, base, top, wbits)} :: a in ins ==>
      LinkOk(prev, a, ins, base, top, wbits))
  }

  /** Masking does not see whole windows. */
  lemma MaskBase(base: nat, p: nat, wbits: nat)
    requires Low(base, wbits) == 0
    ensures Low(base + p, wbits) == Low(p, wbits) < Pow2(wbits)
  {
    Split(base, wbits);
    Split(p, wbits);
    ShlSum(Shr(base, wbits), Shr(p, wbits), wbits);
    Unique(base + p, Shr(base, wbits) + Shr(p, wbits), wbits, Low(p, wbits));
  }

  lemma MaskWindow(wbits: nat)
    ensures Low(Pow2(wbits), wbits) == 0 && 0 < Pow2(wbits)
  {
    ShrShl(1, wbits);
    ShlMono(1, 1, wbits);
  }

  /** Two positions less than a window apart have different slots. */
  lemma MaskApart(a: nat, b: nat, wbits: nat)
    requires a < b < a + Pow2(wbits)
    ensures Low(a, wbits) != Low(b, wbits)
  {
    Split(a, wbits);
    Split(b, wbits);
    if Low(a, wbits) == Low(b, wbits) {
      ShlMono(Shr(a, wbits), Shr(b, wbits), wbits);
      ShlMono(Shr(b, wbits), Shr(a, wbits), wbits);
    }
  }

  /** INSERT_STRING keeps the chains. */
  lemma InsertKeeps(head: seq<nat>, prev: seq<nat>, ins: map<nat, nat>, base: nat, top: nat, wbits: nat, pos: nat,
                    h: nat)
    requires ChainsOk(head, prev, ins, base, top, wbits) && h < |head| && top <= base + pos
    ensures Low(pos, wbits) < |prev|
    ensures ChainsOk(head[h := pos], prev[Low(pos, wbits) := head[h]], ins[base + pos := h], base, base + pos + 1,
      wbits)
  {
    hide Low, Shl;
    var N := base + pos;
    var top' := N + 1;
    MaskBase(base, pos, wbits);
    var head', prev', ins' := head[h := pos], prev[Low(pos, wbits) := head[h]], ins[N := h];
    forall g: nat | g < |head|
      ensures HeadOk(head', g, ins', base, top')
    {
      assert HeadOk(head, g, ins, base, top);
    }
    forall a | a in ins'
      ensures LinkOk(prev', a, ins', base, top', wbits)
    {
      LinkInserted(head, prev, ins, base, top, wbits, pos, h, a);
    }
  }

  lemma LinkInserted(head: seq<nat>, prev: seq<nat>, ins: map<nat, nat>, base: nat, top: nat, wbits: nat, pos: nat,
                     h: nat, a: nat)
    requires ChainsOk(head, prev, ins, base, top, wbits) && h < |head| && top <= base + pos && Low(pos, wbits) < |prev|
    requires a in ins || a == base + pos
    ensures Low(a, wbits) < |prev|
    ensures LinkOk(prev[Low(pos, wbits) := head[h]], a, ins[base + pos := h], base, base + pos + 1, wbits)
  {
    hide Low, Shl, HeadOk, LinkOk;
    var N := base + pos;
    MaskBase(base, pos, wbits);
    assert HeadOk(head, h, ins, base, top);
    if a == N {
      LinkOfNew(head, prev, ins, base, top, wbits, pos, h);
    } else {
      assert LinkOk(prev, a, ins, base, top, wbits);
      if N < a + Pow2(wbits) {
        MaskApart(a, N, wbits);
      }
      LinkOfOld(head, prev, ins, base, top, wbits, pos, h, a);
    }
  }

  lemma LinkOfNew(head: seq<nat>, prev: seq<nat>, ins: map<nat, nat>, base: nat, top: nat, wbits: nat, pos: nat,
                  h: nat)
    requires h < |head| && HeadOk(head, h, ins, base, top) && top <= base + pos
    requires Low(pos, wbits) < |prev| && Low(base + pos, wbits) == Low(pos, wbits)
    ensures LinkOk(prev[Low(pos, wbits) := head[h]], base + pos, ins[base + pos := h], base, base + pos + 1, wbits)
  {
    hide Low, Shl;
  }

  /** The link of an earlier string is overwritten only when that is too far away. */
  lemma LinkOfOld(head: seq<nat>, prev: seq<nat>, ins: map<nat, nat>, base: nat, top: nat, wbits: nat, pos: nat,
                  h: nat, a: nat)
    requires h < |head| && HeadOk(head, h, ins, base, top) && top <= base + pos && a in ins && a < base + pos
    requires Low(a, wbits) < |prev| && Low(pos, wbits) < |prev| && LinkOk(prev, a, ins, base, top, wbits)
    requires base + pos < a + Pow2(wbits) ==> Low(a, wbits) != Low(pos, wbits)
    ensures LinkOk(prev[Low(pos, wbits) := head[h]], a, ins[base + pos := h], base, base + pos + 1, wbits)
  {
    hide Low, Shl;
  }

  /** The value that replaces m when the window moves by w. */
  function Moved(m: nat, w: nat): nat
  {
    if m >= w then m - w else NIL
  }

  function MovedAll(s: seq<nat>, w: nat): (r: seq<nat>)
    ensures |r| == |s|
  {
    seq(|s|, i requires 0 <= i < |s| => Moved(s[i], w))
  }

  /** When the window slides every surviving entry keeps naming the same string. */
  lemma SlideKeeps(head: seq<nat>, prev: seq<nat>, ins: map<nat, nat>, base: nat, top: nat, wbits: nat)
    requires ChainsOk(head, prev, ins, base, top, wbits)
    ensures ChainsOk(MovedAll(head, Pow2(wbits)), MovedAll(prev, Pow2(wbits)), ins, base + Pow2(wbits), top, wbits)
  {
    var W := Pow2(wbits);
    MaskWindow(wbits);
    MaskBase(base, W, wbits);
    var head', prev', base' := MovedAll(head, W), MovedAll(prev, W), base + W;
    forall h: nat | h < |head|
      ensures HeadOk(head', h, ins, base', top)
    {
      assert HeadOk(head, h, ins, base, top);
    }
    forall a | a in ins
      ensures LinkOk(prev', a, ins, base', top, wbits)
    {
      assert LinkOk(prev, a, ins, base, top, wbits);
    }
  }

  // ----- nothing is missing from the chains

  /** A string of hash h that the chains can name: it is behind the first byte of the window and was
      inserted after the hash was cleared. */
  predicate Listed(ins: map<nat, nat>, base: nat, live: nat, h: nat, a: nat)
  {
    a in ins && ins[a] == h && base < a && live <= a
  }

  /** Of the strings of hash h before position n none is later than window index v. */
  ghost predicate Latest(ins: map<nat, nat>, base: nat, live: nat, h: nat, n: nat, v: nat)
  {
    forall b: nat {:trigger Listed(ins, base, live, h, b)} ::
      Listed(ins, base, live, h, b) && b < n ==> v != NIL && b <= base + v
  }

  /** The head of a chain is its latest string. */
  ghost predicate HeadFull(head: seq<nat>, h: nat, ins: map<nat, nat>, base: nat, live: nat)
    requires h < |head|
  {
    forall a: nat {:trigger Listed(ins, base, live, h, a)} ::
      Listed(ins, base, live, h, a) ==> head[h] != NIL && a <= base + head[h]
  }

  /** The link of a string leads to the latest one before it, as long as it is not overwritten. */
  ghost predicate LinkFull(prev: seq<nat>, a: nat, ins: map<nat, nat>, base: nat, top: nat, live: nat, wbits: nat)
    requires a in ins && Low(a, wbits) < |prev|
  {
    live <= a && top <= a + Pow2(wbits) ==> Latest(ins, base, live, ins[a], a, prev[Low(a, wbits)])
  }

  ghost predicate ChainsFull(head: seq<nat>, prev: seq<nat>, ins: map<nat, nat>, base: nat, top: nat, live: nat,
                             wbits: nat)
  {
    && (forall h: nat {:trigger HeadFull(head, h, ins, base, live)} :: h < |head| ==>
      HeadFull(head, h, ins, base, live))
    && (forall a {:trigger LinkFull(prev, a, ins, base, top, live, wbits)} :: a in ins && Low(a, wbits) < |prev| ==>
      LinkFull(prev, a, ins, base, top, live, wbits))
  }

  lemma InsertFills(head: seq<nat>, prev: seq<nat>, ins: map<nat, nat>, base: nat, top: nat, live: nat, wbits: nat,
                    pos: nat, h: nat)
    requires ChainsOk(head, prev, ins, base, top, wbits) && h < |head| && top <= base + pos
    requires ChainsFull(head, prev, ins, base, top, live, wbits)
    ensures Low(pos, wbits) < |prev|
    ensures ChainsFull(head[h := pos], prev[Low(pos, wbits) := head[h]], ins[base + pos := h], base, base + pos + 1,
      live, wbits)
  {
    hide Low, Shl;
    var N := base + pos;
    MaskBase(base, pos, wbits);
    InsertsBefore(head, prev, ins, base, top, wbits);
    hide ChainsOk;
    var head', prev', ins' := head[h := pos], prev[Low(pos, wbits) := head[h]], ins[N := h];
    forall g: nat | g < |head|
      ensures HeadFull(head', g, ins', base, live)
    {
      assert HeadFull(head, g, ins, base, live);
      forall a: nat | Listed(ins', base, live, g, a)
        ensures head'[g] != NIL && a <= base + head'[g]
      {
        assert a == N || Listed(ins, base, live, g, a);
      }
    }
    forall a | a in ins' && Low(a, wbits) < |prev'|
      ensures LinkFull(prev', a, ins', base, N + 1, live, wbits)
    {
      LinkFills(head, prev, ins, base, top, live, wbits, pos, h, a);
    }
  }

  lemma InsertsBefore(head: seq<nat>, prev: seq<nat>, ins: map<nat, nat>, base: nat, top: nat, wbits: nat)
    requires ChainsOk(head, prev, ins, base, top, wbits)
    ensures |prev| == Pow2(wbits) && Low(base, wbits) == 0
    ensures forall a :: a in ins ==> a < top && ins[a] < |head| && Low(a, wbits) < |prev|
  {
  }

  lemma LinkFills(head: seq<nat>, prev: seq<nat>, ins: map<nat, nat>, base: nat, top: nat, live: nat, wbits: nat,
                  pos: nat, h: nat, a: nat)
    requires ChainsFull(head, prev, ins, base, top, live, wbits) && h < |head| && top <= base + pos
    requires forall b :: b in ins ==> b < top
    requires Low(pos, wbits) < |prev| == Pow2(wbits) && Low(base + pos, wbits) == Low(pos, wbits)
    requires (a in ins || a == base + pos) && Low(a, wbits) < |prev|
    ensures LinkFull(prev[Low(pos, wbits) := head[h]], a, ins[base + pos := h], base, base + pos + 1, live, wbits)
  {
    hide Low, Shl;
    var N := base + pos;
    var prev', ins' := prev[Low(pos, wbits) := head[h]], ins[N := h];
    if live <= a && N + 1 <= a + Pow2(wbits) {
      if a == N {
        assert HeadFull(head, h, ins, base, live);
      } else {
        assert LinkFull(prev, a, ins, base, top, live, wbits);
        MaskApart(a, N, wbits);
      }
      forall b: nat | Listed(ins', base, live, ins'[a], b) && b < a
        ensures prev'[Low(a, wbits)] != NIL && b <= base + prev'[Low(a, wbits)]
      {
        assert Listed(ins, base, live, ins'[a], b);
      }
    }
  }

  lemma SlideFills(head: seq<nat>, prev: seq<nat>, ins: map<nat, nat>, base: nat, top: nat, live: nat, wbits: nat)
    requires ChainsFull(head, prev, ins, base, top, live, wbits)
    ensures ChainsFull(MovedAll(head, Pow2(wbits)), MovedAll(prev, Pow2(wbits)), ins, base + Pow2(wbits), top, live,
      wbits)
  {
    hide Low, Shl;
    var W := Pow2(wbits);
    var head', prev', base' := MovedAll(head, W), MovedAll(prev, W), base + W;
    forall h: nat | h < |head'|
      ensures HeadFull(head', h, ins, base', live)
    {
      assert HeadFull(head, h, ins, base, live);
      forall a: nat | Listed(ins, base', live, h, a)
        ensures head'[h] != NIL && a <= base' + head'[h]
      {
        assert Listed(ins, base, live, h, a);
      }
    }
    forall a | a in ins && Low(a, wbits) < |prev'|
      ensures LinkFull(prev', a, ins, base', top, live, wbits)
    {
      assert LinkFull(prev, a, ins, base, top, live, wbits);
      forall b: nat | live <= a && top <= a + W && Listed(ins, base', live, ins[a], b) && b < a
        ensures prev'[Low(a, wbits)] != NIL && b <= base' + prev'[Low(a, wbits)]
      {
        assert Listed(ins, base, live, ins[a], b);
      }
    }
  }

  /** Nothing is listed after the hash is cleared. */
  lemma ClearFills(head: seq<nat>, prev: seq<nat>, ins: map<nat, nat>, base: nat, top: nat, wbits: nat)
    requires forall a :: a in ins ==> a < top
    ensures ChainsFull(head, prev, ins, base, top, top, wbits)
  {
    forall h: nat | h < |head|
      ensures HeadFull(head, h, ins, base, top)
    {
    }
    forall a | a in ins && Low(a, wbits) < |prev|
      ensures LinkFull(prev, a, ins, base, top, top, wbits)
    {
    }
  }

  class Dictionary {
    const wbits: nat
    const bits: nat        // log2(hash_size)
    const shift: nat
    const head: array<nat> // heads of the hash chains or NIL
    const prev: array<nat> // link to older string with same hash index, by window index modulo W
    var insH: nat          // hash index of string to be inserted
    ghost var ins: map<nat, nat>  // the positions in the input inserted so far, with their hashes
    ghost var base: nat           // position in the input of the first byte of the window
    ghost var top: nat            // behind the last position inserted
    ghost var live: nat           // where the input stood when the hash was cleared

    constructor (wbits: nat, bits: nat)
      requires 9 <= wbits <= 15 && 8 <= bits <= 16
      ensures Valid() && this.wbits == wbits && this.bits == bits && ins == map[] && base == 0 == top == live
      ensures fresh(head) && fresh(prev)
    {
      this.wbits, this.bits, shift := wbits, bits, (bits + MIN_MATCH - 1) / MIN_MATCH;
      Pow2Mono(0, wbits);
      Pow2Mono(0, bits);
      head := new nat[Pow2(bits)](_ => NIL);
      prev := new nat[Pow2(wbits)];
      insH, ins, base, top, live := 0, map[], 0, 0, 0;
      LowZero(wbits);
      new;
      ClearFills(head[..], prev[..], ins, 0, 0, wbits);
    }

    ghost predicate Valid()
      reads this, head, prev
    {
      && head != prev && HashParams(bits, shift) && head.Length == Pow2(bits) && 9 <= wbits <= 15
      && ChainsOk(head[..], prev[..], ins, base, top, wbits)
      && ChainsFull(head[..], prev[..], ins, base, top, live, wbits)
    }

    function Mask(i: nat): nat
    {
      Low(i, wbits)
    }

    /** INSERT_STRING for the string at window index pos, whose third byte is c. */
    method Insert(pos: nat, c: byte, ghost data: seq<byte>) returns (matchHead: nat)
      requires Valid() && top <= base + pos && base + pos + MIN_MATCH <= |data| && c == data[base + pos + 2]
      requires Ready(insH, data[base + pos], data[base + pos + 1], bits, shift) && KeysOk(ins, data, bits, shift)
      modifies this, head, prev
      ensures Valid() && base == old(base) && live == old(live) && top == base + pos + 1
      ensures KeysOk(ins, data, bits, shift)
      ensures Ready(insH, data[base + pos + 1], data[base + pos + 2], bits, shift)
      ensures base + pos in ins && forall a :: a in ins <==> a in old(ins) || a == base + pos
      ensures forall a :: a in old(ins) && a != base + pos ==> ins[a] == old(ins)[a]
      ensures Mask(base + matchHead) == Mask(matchHead)
      ensures matchHead == NIL || (matchHead < pos && base + matchHead in ins &&
        ins[base + matchHead] == ins[base + pos])
      ensures Latest(ins, base, live, ins[base + pos], base + pos, matchHead)
    {
      hide ChainsOk, ChainsFull, Hash3, Low, KeysOk, Ready;
      Rolls(insH, data[base + pos], data[base + pos + 1], c, bits, shift);
      insH := Update(insH, c, bits, shift);
      KeysMore(ins, data, bits, shift, base + pos, insH);
      InsertKeeps(head[..], prev[..], ins, base, top, wbits, pos, insH);
      InsertFills(head[..], prev[..], ins, base, top, live, wbits, pos, insH);
      HeadLatest(head[..], prev[..], ins, base, top, live, wbits, insH, pos);
      HeadNames(head[..], prev[..], ins, base, top, wbits, insH);
      matchHead := head[insH];
      BaseMasked(head[..], prev[..], ins, base, top, wbits, matchHead);
      prev[Mask(pos)] := matchHead;
      head[insH] := pos;
      assert head[..] == old(head[..])[insH := pos];
      assert prev[..] == old(prev[..])[Mask(pos) := matchHead];
      ins := ins[base + pos := insH];
      top := base + pos + 1;
    }

    /** Start the running hash with two bytes. */
    method Restart(a: byte, b: byte)
      requires Valid()
      modifies this`insH
      ensures Valid() && Ready(insH, a, b, bits, shift)
    {
      FreshIsReady(a, b, bits, shift);
      insH := a;
      insH := Update(insH, b, bits, shift);
    }

    /** Slide the hash table when the upper half of the window moves to the lower half. */
    method Slide()
      requires Valid()
      modifies this`base, head, prev
      ensures Valid() && base == old(base) + Pow2(wbits)
    {
      hide ChainsOk, ChainsFull, Low;
      SlideKeeps(head[..], prev[..], ins, base, top, wbits);
      SlideFills(head[..], prev[..], ins, base, top, live, wbits);
      MoveDown(head, Pow2(wbits));
      MoveDown(prev, Pow2(wbits));
      base := base + Pow2(wbits);
    }

    /** CLEAR_HASH: forget history. */
    method Clear()
      requires Valid()
      modifies head, this`live
      ensures Valid() && live == top && forall h :: 0 <= h < head.Length ==> head[h] == NIL
    {
      hide ChainsOk, ChainsFull;
      ghost var h0, p0 := head[..], prev[..];
      forall h | 0 <= h < head.Length {
        head[h] := NIL;
      }
      assert prev[..] == p0;
      ClearKeeps(h0, head[..], p0, ins, base, top, wbits);
      live := top;
      InsertsBefore(head[..], p0, ins, base, top, wbits);
      ClearFills(head[..], p0, ins, base, top, wbits);
    }

    /** The entry after window index m on its chain. */
    function Link(m: nat): nat
      reads this, prev
    {
      if Mask(m) < prev.Length then prev[Mask(m)] else NIL
    }

    /** The next string on the chain of the string at window index cur, whose position is a. */
    method Next(cur: nat, ghost a: nat) returns (next: nat)
      requires Valid() && a in ins && Mask(cur) == Mask(a)
      ensures next == Link(cur)
      ensures next == NIL || (base + next in ins && base + next < top && Mask(next) == Mask(base + next))
      ensures next != NIL && a == base + cur && top <= a + Pow2(wbits) ==> next < cur && ins[base + next] == ins[a]
      ensures live <= a && top <= a + Pow2(wbits) ==> Latest(ins, base, live, ins[a], a, next)
    {
      assert LinkFull(prev[..], a, ins, base, top, live, wbits);
      assert LinkOk(prev[..], a, ins, base, top, wbits);
      next := prev[Mask(cur)];
      MaskBase(base, next, wbits);
    }
  }

  method MoveDown(s: array<nat>, w: nat)
    modifies s
    ensures s[..] == MovedAll(old(s[..]), w)
  {
    var n: nat := s.Length;
    while n > 0
      invariant n <= s.Length
      invariant forall i :: 0 <= i < n ==> s[i] == old(s[i])
      invariant forall i :: n <= i < s.Length ==> s[i] == Moved(old(s[i]), w)
    {
      n := n - 1;
      s[n] := if s[n] >= w then s[n] - w else NIL;
    }
  }

  lemma ClearKeeps(head: seq<nat>, head': seq<nat>, prev: seq<nat>, ins: map<nat, nat>, base: nat, top: nat, wbits: nat)
    requires ChainsOk(head, prev, ins, base, top, wbits) && |head'| == |head|
    requires forall h :: 0 <= h < |head| ==> head'[h] == NIL
    ensures ChainsOk(head', prev, ins, base, top, wbits)
  {
  }

  lemma BaseMasked(head: seq<nat>, prev: seq<nat>, ins: map<nat, nat>, base: nat, top: nat, wbits: nat, m: nat)
    requires ChainsOk(head, prev, ins, base, top, wbits)
    ensures Low(base + m, wbits) == Low(m, wbits)
  {
    MaskBase(base, m, wbits);
  }

  lemma HeadLatest(head: seq<nat>, prev: seq<nat>, ins: map<nat, nat>, base: nat, top: nat, live: nat, wbits: nat,
                   h: nat, pos: nat)
    requires ChainsFull(head, prev, ins, base, top, live, wbits) && h < |head|
    ensures Latest(ins[base + pos := h], base, live, h, base + pos, head[h])
  {
    assert HeadFull(head, h, ins, base, live);
    var ins' := ins[base + pos := h];
    forall b: nat | Listed(ins', base, live, h, b) && b < base + pos
      ensures head[h] != NIL && b <= base + head[h]
    {
      assert Listed(ins, base, live, h, b);
    }
  }

  lemma HeadNames(head: seq<nat>, prev: seq<nat>, ins: map<nat, nat>, base: nat, top: nat, wbits: nat, h: nat)
    requires ChainsOk(head, prev, ins, base, top, wbits) && h < |head|
    ensures head[h] == NIL || (base + head[h] in ins && base + head[h] < top && ins[base + head[h]] == h)
  {
    assert HeadOk(head, h, ins, base, top);
  }
}
