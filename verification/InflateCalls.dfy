/** Whole uses of inflate: several calls, each with some more input and some more room for output. */
module InflateCalls {
  import opened Bits
  import opened Zlib
  import opened BitInput
  import opened InflateWindow
  import opened InflateSpec
  import opened Inflate
  import opened InflateTheorems
  import CodeSteps
  import Codes = InflateCodes
  import Blocks = InflateBlocks

  /** What a caller sets before a call: next_in and avail_in, avail_out, and whether flush is Z_FINISH. */
  datatype Call = Call(bytes: seq<byte>, room: nat, finish: bool)

  function AllBytes(calls: seq<Call>): seq<byte>
  {
    if calls == [] then [] else AllBytes(calls[..|calls| - 1]) + calls[|calls| - 1].bytes
  }

  lemma {:induction false} BytesPrefix(calls: seq<Call>, k: nat)
    requires k <= |calls|
    ensures AllBytes(calls[..k]) <= AllBytes(calls)
    decreases |calls|
  {
    if k == |calls| {
      assert calls[..k] == calls;
    } else {
      BytesPrefix(calls[..|calls| - 1], k);
      assert calls[..|calls| - 1][..k] == calls[..k];
    }
  }

  /** More input for a decoder. */
  method Supply(z: Inflater, bytes: seq<byte>)
    requires z.Valid() && z.inp.input + bytes <= z.inp.I
    modifies z.inp`input
    ensures z.Valid() && z.inp.input == old(z.inp.input) + bytes
  {
    hide After, CodeSteps.TablesOk, CodeSteps.OnTree, Window.Valid, Accepts, HeaderOk, CheckOf, Decoded, Leading,
         From, Low, Shr;
    z.inp.Supply(bytes);
  }

  /** New room for output. */
  method Offer(z: Inflater, room: nat)
    requires z.Valid()
    modifies z.win`availOut, z.win`offered
    ensures z.Valid() && z.win.availOut == room && z.win.offered == |z.win.out| + room
  {
    hide After, CodeSteps.TablesOk, CodeSteps.OnTree, Input.Valid, Accepts, HeaderOk, CheckOf, Decoded, Leading,
         From, Low, Shr, Last, Rotated, Between, Blocks.BlocksState.PhaseOk, Codes.CodesState.PhaseOk;
    z.win.availOut, z.win.offered := room, |z.win.out| + room;
  }

  /** One call of inflate. */
  method Step(z: Inflater, call: Call) returns (r: Status)
    requires z.Valid() && z.inp.input + call.bytes <= z.inp.I
    modifies z, z.inp, z.win, z.win.window, z.Parts()
    ensures z.Valid() && z.Tells(r) && z.inp.input == old(z.inp.input) + call.bytes && old(z.win.out) <= z.win.out
    ensures |z.win.out| + z.win.availOut == |old(z.win.out)| + call.room
    ensures fresh(z.Parts() - old(z.Parts()))
  {
    hide Inflater.Valid, Inflater.Tells;
    Supply(z, call.bytes);
    Offer(z, call.room);
    r := z.Inflate(call.finish);
    AllUsed(z);
  }

  /** Room for output is used for output only. */
  lemma AllUsed(z: Inflater)
    requires z.Valid()
    ensures z.win.offered == |z.win.out| + z.win.availOut
  {
    hide After, Accepts, Last, Rotated, Between, CheckOf;
  }

  /** A whole use of a decoder: one call of inflate after the other. */
  method Feed(z: Inflater, calls: seq<Call>) returns (r: Status)
    requires z.Valid() && calls != [] && z.inp.input == [] && AllBytes(calls) <= z.inp.I
    modifies z, z.inp, z.win, z.win.window, z.Parts()
    ensures z.Valid() && z.Tells(r) && z.inp.input == AllBytes(calls)
    ensures calls[|calls| - 1].room <= |z.win.out| + z.win.availOut
  {
    hide Inflater.Valid, Inflater.Tells;
    r := OK;
    for k := 0 to |calls|
      invariant z.Valid() && z.inp.input == AllBytes(calls[..k])
      invariant fresh(z.Parts() - old(z.Parts()))
      invariant k > 0 ==> z.Tells(r) && calls[k - 1].room <= |z.win.out| + z.win.availOut
    {
      assert calls[..k + 1][..k] == calls[..k];
      BytesPrefix(calls, k + 1);
      r := Step(z, calls[k]);
    }
    assert calls[..|calls|] == calls;
  }

  /** What a decoder said of a stream in the end, if its window held w0 at first. */
  ghost predicate Verdict(I: seq<byte>, w: nat, w0: seq<byte>, r: Status, out: seq<byte>, check: nat, room: nat)
  {
    && check == CheckOf(out) && (r == STREAM_END ==> Accepts(I, w, Pow2(w), w0, false, out))
    && (forall o :: Accepts(I, w, Pow2(w), w0, false, o) ==>
         out <= o && r != DATA_ERROR && (room > 0 ==> r == STREAM_END))
  }

  lemma VerdictOf(z: Inflater, r: Status)
    requires z.Valid() && z.Tells(r) && !z.nowrap && z.inp.input == z.inp.I && z.win.window.Length == Pow2(z.wbits)
    ensures Verdict(z.inp.I, z.wbits, z.win.w0, r, z.win.out, z.win.check, z.win.availOut)
  {
    hide Inflater.Valid, Accepts;
    Checksum(z);
    forall o | Accepts(z.inp.I, z.wbits, z.win.window.Length, z.win.w0, false, o)
      ensures z.win.out <= o && (z.win.availOut > 0 ==> r == STREAM_END)
    {
      Delivered(z, o);
      if z.win.availOut > 0 {
        Complete(z, r, o);
      }
    }
  }

  lemma Checksum(z: Inflater)
    requires z.Valid()
    ensures z.win.check == CheckOf(z.win.out)
  {
    hide CheckOf, Last, Rotated, Between, Accepts, After;
  }

  /** Decode stream I with a new decoder, its input and the room for its output split over calls. */
  method Decode(I: seq<byte>, w: nat, calls: seq<Call>)
    returns (r: Status, out: seq<byte>, check: nat, room: nat, ghost w0: seq<byte>)
    requires 8 <= w <= 15 && calls != [] && AllBytes(calls) == I
    ensures |w0| == Pow2(w) && Verdict(I, w, w0, r, out, check, room)
    ensures calls[|calls| - 1].room <= |out| + room
  {
    hide Inflater.Valid, Inflater.Tells, Verdict;
    var z := new Inflater(I, w, false);
    r := Feed(z, calls);
    VerdictOf(z, r);
    WindowIs(z);
    out, check, room, w0 := z.win.out, z.win.check, z.win.availOut, z.win.w0;
  }

  /** So a good stream is decoded, however it is split over calls, if the last call has room for
      more than all of its output. */
  lemma GoodIsDecoded(I: seq<byte>, w: nat, w0: seq<byte>, r: Status, out: seq<byte>, check: nat, room: nat,
                      last: nat, good: seq<byte>)
    requires Verdict(I, w, w0, r, out, check, room) && last <= |out| + room
    requires Accepts(I, w, Pow2(w), w0, false, good) && |good| < last
    ensures r == STREAM_END && out == good && check == CheckOf(good)
  {
    hide Accepts, CheckOf;
    AcceptsOnce(I, w, Pow2(w), w0, false, good, if r == STREAM_END then out else good);
  }

  lemma WindowIs(z: Inflater)
    requires z.Valid()
    ensures |z.win.w0| == z.win.window.Length
  {
    hide CheckOf, Last, Rotated, Between, Accepts, After;
  }

  /** What the windows held at first makes no difference for the stream: it is the same, or no
      copy of the stream reaches back before its first byte. */
  ghost predicate SameStart(I: seq<byte>, w: nat, w0: seq<byte>, w0': seq<byte>)
  {
    || w0 == w0'
    || (0 < Pow2(w) <= |w0| && forall m: nat :: NearStep(Run(I, Pow2(w), w0, 16, m), Pow2(w), Pow2(w)))
  }

  lemma AcceptedToo(I: seq<byte>, w: nat, w0: seq<byte>, w0': seq<byte>, out: seq<byte>)
    requires Accepts(I, w, Pow2(w), w0, false, out) && SameStart(I, w, w0, w0') && 0 < Pow2(w) == |w0'|
    ensures Accepts(I, w, Pow2(w), w0', false, out)
  {
    hide Accepts, NearStep, Run;
    if w0 != w0' {
      AcceptedByAll(I, w, Pow2(w), w0, Pow2(w), w0', false, out);
    }
  }

  /** However a stream and the room for its output are split over calls: if the calls of one decoder
      accept it, those of another never reject it, they end it if the last one leaves room for
      output, and they deliver the same bytes and checksum. */
  lemma SplitAlike(I: seq<byte>, w: nat, w0: seq<byte>, r: Status, out: seq<byte>, check: nat, room: nat,
                   w0': seq<byte>, r': Status, out': seq<byte>, check': nat, room': nat)
    requires |w0'| == Pow2(w) && Verdict(I, w, w0, r, out, check, room)
    requires Verdict(I, w, w0', r', out', check', room')
    requires SameStart(I, w, w0, w0') && r == STREAM_END
    ensures r' == STREAM_END ==> out' == out && check' == check
    ensures r' != DATA_ERROR && (room' > 0 ==> r' == STREAM_END)
  {
    hide Accepts, SameStart, CheckOf;
    Pow2Mono(0, w);
    AcceptedToo(I, w, w0, w0', out);
    if r' == STREAM_END {
      AcceptsOnce(I, w, Pow2(w), w0', false, out, out');
    }
  }
}
