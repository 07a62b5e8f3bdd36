/** The circular output window of inflate: infutil.c and the output macros of infutil.h. */
module InflateWindow {
  import opened Options
  import opened Sequences
  import opened Zlib
  import Adler32

  /** The last n bytes of s. */
  function Last(s: seq<byte>, n: nat): seq<byte>
    requires n <= |s|
  {
    s[|s| - n..]
  }

  /** The checksum of the bytes delivered. */
  function CheckOf(s: seq<byte>): nat
  {
    Adler32.Pack(Adler32.UpdateAll(Adler32.Sums(1, 0), s))
  }

  // ----- the window as a sequence

  /** Its bytes from the oldest on. */
  function Rotated(win: seq<byte>, write: nat): seq<byte>
    requires write <= |win|
  {
    win[write..] + win[..write]
  }

  /** The bytes between read and write. */
  function Between(win: seq<byte>, read: nat, write: nat): (r: seq<byte>)
    requires read <= |win| && write <= |win|
    ensures |r| == if read <= write then write - read else |win| - read + write
  {
    if read <= write then win[read..write] else win[read..] + win[..write]
  }

  lemma PutByte(win: seq<byte>, read: nat, write: nat, c: byte)
    requires read <= |win| && write < |win| && (write < read ==> write + 1 < read)
    ensures Rotated(win[write := c], write + 1) == (Rotated(win, write) + [c])[1..]
    ensures Between(win[write := c], read, write + 1) == Between(win, read, write) + [c]
  {
    var win' := win[write := c];
    assert win'[write + 1..] == win[write..][1..];
    assert win'[..write + 1] == win[..write] + [c];
    if read <= write {
      assert win'[read..write + 1] == win[read..write] + [c];
    } else {
      assert win'[read..] == win[read..];
    }
  }

  lemma TakeBytes(win: seq<byte>, read: nat, write: nat, n: nat)
    requires read <= |win| && write <= |win| && read + n <= if read <= write then write else |win|
    ensures Between(win, read, write) == win[read..read + n] + Between(win, read + n, write)
  {
    if read <= write {
      Cut(win, read, read + n, write);
    } else {
      CutEnd(win, read, read + n);
      Regroup(win[read..read + n], win[read + n..], win[..write]);
    }
  }

  lemma CutEnd(s: seq<byte>, i: nat, j: nat)
    requires i <= j <= |s|
    ensures s[i..] == s[i..j] + s[j..]
  {
  }

  lemma Regroup(a: seq<byte>, b: seq<byte>, c: seq<byte>)
    ensures a + b + c == a + (b + c)
  {
  }

  /** Bytes move from what is pending to what is delivered. */
  lemma Handed(win: seq<byte>, read: nat, write: nat, n: nat, out: seq<byte>)
    requires read <= |win| && write <= |win| && read + n <= if read <= write then write else |win|
    ensures var pending, rest := Between(win, read, write), Between(win, read + n, write);
            && n <= |pending| && pending[..n] == win[read..read + n] && pending[n..] == rest
            && out + win[read..read + n] + rest == out + pending
  {
    hide Between;
    TakeBytes(win, read, write, n);
  }

  lemma Twice(out: seq<byte>, pending: seq<byte>, n: nat, m: nat)
    requires n + m <= |pending|
    ensures out + pending[..n] + pending[n..][..m] == out + pending[..n + m]
  {
    assert pending[..n] + pending[n..][..m] == pending[..n + m];
  }

  lemma Cut(s: seq<byte>, i: nat, j: nat, k: nat)
    requires i <= j <= k <= |s|
    ensures s[i..k] == s[i..j] + s[j..k]
  {
  }

  lemma CheckNothing()
    ensures CheckOf([]) == 1
  {
  }

  lemma CheckMore(out: seq<byte>, buf: seq<byte>)
    ensures CheckOf(out + buf) == Adler32.Pack(Adler32.UpdateAll(Adler32.Halves(CheckOf(out)), buf))
  {
    hide Adler32.UpdateAll, Adler32.Pack;
    assert Adler32.Halves(1) == Adler32.Sums(1, 0);
    Adler32.Compose(1, out, buf);
  }

  lemma NothingWritten(win: seq<byte>)
    ensures win + [] == win && Last(win, |win|) == win == Rotated(win, 0) && Between(win, 0, 0) == []
  {
  }

  /** At its end the window starts again. */
  lemma TurnWrite(win: seq<byte>, read: nat)
    requires 0 < read <= |win|
    ensures Rotated(win, 0) == Rotated(win, |win|)
    ensures Between(win, read, 0) == Between(win, read, |win|)
  {
    assert win[0..] == win && win[|win|..] == [] && win[..|win|] == win && win[..0] == [];
    assert win[read..] == win[read..|win|];
  }

  lemma TurnRead(win: seq<byte>, write: nat)
    requires write <= |win|
    ensures write < |win| ==> Between(win, 0, write) == Between(win, |win|, write)
    ensures Between(win, |win|, |win|) == [] == Between(win, 0, 0)
    ensures Rotated(win, 0) == Rotated(win, |win|)
  {
    assert win[|win|..] == [] && win[0..write] == win[..write];
    assert win[0..] == win && win[..|win|] == win && win[..0] == [];
  }

  /** window, read, write and check of inflate_blocks_state with the output side of z_stream:
      `out` is all that was written to next_out, availOut the room left there. */
  class Window {
    const window: array<byte>
    var read: nat
    var write: nat
    var out: seq<byte>
    var availOut: nat
    var check: nat
    ghost const w0: seq<byte>       // what the window held at first
    ghost var produced: seq<byte>   // all bytes written to the window
    ghost var offered: nat          // room for output so far, used or not

    constructor (window: array<byte>)
      requires window.Length > 0
      ensures Valid() && this.window == window && produced == [] && out == [] && availOut == 0 && w0 == window[..]
    {
      this.window := window;
      read, write, availOut, check := 0, 0, 0, 1;
      out, produced, w0, offered := [], [], window[..], 0;
      new;
      hide CheckOf, Last, Rotated, Between;
      CheckNothing();
      NothingWritten(window[..]);
    }

    /** What is written but not yet delivered. */
    ghost function Pending(): seq<byte>
      reads this, window
      requires read <= window.Length && write <= window.Length
    {
      Between(window[..], read, write)
    }

    /** The window holds the last bytes produced, oldest first from write on, and what was
        delivered followed by what is pending is what was produced. */
    ghost predicate Valid()
      reads this, window
    {
      && 0 < window.Length == |w0| && read <= window.Length && write <= window.Length
      && Last(w0 + produced, window.Length) == Rotated(window[..], write)
      && out + Pending() == produced
      && check == CheckOf(out) && offered == |out| + availOut
    }

    /** WAVAIL: room for writing up to the end of the window or the read pointer. */
    function Avail(): nat
      reads this
      requires write <= window.Length
    {
      if write < read then read - write - 1 else window.Length - write
    }

    /** Hand over as much as fits of what lies between read and write, or read and the end. */
    method Deliver(r: Status) returns (r': Status)
      requires Valid()
      modifies this`read, this`availOut, this`out, this`check
      ensures Valid()
      ensures var n := Min((if old(read) <= write then write else window.Length) - old(read), old(availOut));
              && out == old(out) + old(Pending())[..n] && Pending() == old(Pending())[n..] && n <= old(|Pending()|)
              && read == old(read) + n && availOut == old(availOut) - n
              && r' == if n > 0 && r == BUF_ERROR then OK else r
    {
      hide CheckOf, Rotated, Between, Last;
      r' := r;
      var n := Min((if read <= write then write else window.Length) - read, availOut);
      if n > 0 && r' == BUF_ERROR {
        r' := OK;
      }
      Handed(window[..], read, write, n, out);
      availOut := availOut - n;
      check := Checked(check, out, window[read..read + n]);
      assert window[..][read..read + n] == window[read..read + n];
      out := out + window[read..read + n];
      read := read + n;
    }

    /** The check function applied to the next bytes delivered. */
    static method Checked(check: nat, ghost out: seq<byte>, buf: seq<byte>) returns (r: nat)
      requires check == CheckOf(out)
      ensures r == CheckOf(out + buf)
    {
      hide CheckOf, Adler32.UpdateAll, Adler32.Pack, Adler32.Halves;
      CheckMore(out, buf);
      r := Adler32.Adler32(check, Some(buf));
    }

    /** inflate_flush: deliver what is pending as far as there is room, around the end of the window. */
    method Flush(r: Status) returns (r': Status)
      requires Valid()
      modifies this`read, this`write, this`availOut, this`out, this`check
      ensures Valid()
      ensures var n := Min(|old(Pending())|, old(availOut));
              && out == old(out) + old(Pending())[..n] && availOut == old(availOut) - n
              && r' == if n > 0 && r == BUF_ERROR then OK else r
      ensures old(|Pending()|) <= old(availOut) ==> read == write < window.Length
      ensures write == old(write) || (old(write) == window.Length && write == 0)
    {
      hide CheckOf, Rotated, Between, Last, Window.Valid;
      InBounds();
      r' := Deliver(r);
      InBounds();
      if read == window.Length {
        ghost var n: nat := |out| - |old(out)|;
        Restart();
        InBounds();
        r' := Deliver(r');
        InBounds();
        Twice(old(out), old(Pending()), n, |out| - |old(out)| - n);
      }
    }

    lemma InBounds()
      requires Valid()
      ensures 0 < window.Length && read <= window.Length && write <= window.Length
      ensures |Pending()| == if read <= write then write - read else window.Length - read + write
    {
      hide CheckOf, Last, Rotated;
    }

    /** The reader starts again at the beginning of the window, and so does a writer at its end. */
    method Restart()
      requires Valid() && read == window.Length
      modifies this`read, this`write
      ensures Valid() && read == 0 && Pending() == old(Pending())
      ensures write == if old(write) == window.Length then 0 else old(write)
    {
      hide CheckOf, Rotated, Between, Last;
      TurnRead(window[..], write);
      read := 0;
      if write == window.Length {
        write := 0;
      }
    }

    /** WRAP: go on at the beginning of the window if reading has left it. */
    method Wrap()
      requires Valid()
      modifies this`write
      ensures Valid() && Pending() == old(Pending())
      ensures write == if old(write) == window.Length && read != 0 then 0 else old(write)
    {
      if write == window.Length && read != 0 {
        TurnWrite(window[..], read);
        write := 0;
      }
    }

    /** NEEDOUT: make room for at least one byte, delivering output if necessary. */
    method NeedOut(r: Status) returns (ok: bool, r': Status)
      requires Valid()
      modifies this`read, this`write, this`availOut, this`out, this`check
      ensures Valid() && old(out) <= out && availOut <= old(availOut)
      ensures ok ==> Avail() > 0 && r' == OK
      ensures !ok ==> availOut == 0 && (r' == r || r' == OK)
      ensures write == old(write) || (old(write) == window.Length && write == 0)
      ensures old(Avail()) > 0 ==> ok && out == old(out) && availOut == old(availOut) && write == old(write)
    {
      hide CheckOf, Rotated, Last;
      r' := r;
      if Avail() == 0 {
        Wrap();
        if Avail() == 0 {
          r' := Flush(r');
          Wrap();
          if Avail() == 0 {
            return false, r';
          }
        }
      }
      return true, OK;
    }

    /** OUTBYTE */
    method OutByte(c: byte)
      requires Valid() && Avail() > 0
      modifies this`write, this`produced, window
      ensures Valid() && produced == old(produced) + [c] && Avail() == old(Avail()) - 1
      ensures write == old(write) + 1 && window[..] == old(window[..])[old(write) := c]
    {
      hide CheckOf, Rotated, Between;
      PutByte(window[..], read, write, c);
      ghost var h := Last(w0 + produced, window.Length);
      window[write] := c;
      assert window[..] == old(window[..])[old(write) := c];
      write := write + 1;
      produced := produced + [c];
      assert Last(w0 + produced, window.Length) == (h + [c])[1..];
    }
  }
}
