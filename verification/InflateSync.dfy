/** inflateSync of inflate.c: searching for the marker 00 00 FF FF of an empty stored block. */
module InflateSync {
  import opened Zlib

  const MARK: seq<byte> := [0, 0, 0xff, 0xff]

  /** The first m bytes of the marker are the last m bytes of s. */
  ghost predicate EndsInMark(s: seq<byte>, m: nat)
  {
    m == 0 || (m <= 4 && s != [] && s[|s| - 1] == MARK[m - 1] && EndsInMark(s[..|s| - 1], m - 1))
  }

  lemma MarkAtEnd(s: seq<byte>, m: nat)
    ensures EndsInMark(s, m) <==> m <= 4 && m <= |s| && s[|s| - m..] == MARK[..m]
  {
    if 0 < m <= 4 && s != [] {
      MarkAtEnd(s[..|s| - 1], m - 1);
      if m <= |s| {
        assert s[|s| - m..] == s[..|s| - 1][|s| - m..] + [s[|s| - 1]];
        assert MARK[..m] == MARK[..m - 1] + [MARK[m - 1]];
      }
    }
  }

  /** m is the length of the longest beginning of the marker that s ends in. */
  ghost predicate Longest(s: seq<byte>, m: nat)
  {
    EndsInMark(s, m) && forall j :: m < j <= 4 ==> !EndsInMark(s, j)
  }

  /** The count after one more byte. */
  function Next(m: nat, c: byte): nat
    requires m < 4
  {
    if c == MARK[m] then m + 1 else if c != 0 then 0 else 4 - m
  }

  /** After a mismatch with a zero byte, 4 - m is how much of the marker still matches. */
  lemma NextIsLongest(s: seq<byte>, m: nat, c: byte)
    requires Longest(s, m) && m < 4
    ensures Longest(s + [c], Next(m, c))
  {
    forall j: nat | 1 <= j <= 4
      ensures EndsInMark(s + [c], j) <==> EndsInMark(s, j - 1) && c == MARK[j - 1]
    {
      assert (s + [c])[..|s|] == s;
    }
    assert EndsInMark(s, 0);
    assert m == 2 ==> EndsInMark(s, 1);
    assert m == 3 ==> !EndsInMark(s, 1) && !EndsInMark(s, 2);
  }

  /** The bytes end in the whole marker. */
  ghost predicate MarkBehind(s: seq<byte>)
  {
    4 <= |s| && s[|s| - 4..] == MARK
  }

  /** The marker search over one call's input, m bytes of the marker having been found at the
      end of what came `before`.  It stops right behind the first marker. */
  method Search(m0: nat, buf: seq<byte>, ghost before: seq<byte>) returns (m: nat, p: nat)
    requires Longest(before, m0)
    ensures p <= |buf| && Longest(before + buf[..p], m)
    ensures if m < 4 then p == |buf| else MarkBehind(before + buf[..p])
    ensures forall i :: 0 <= i < p ==> !MarkBehind(before + buf[..i])
  {
    hide Longest, MarkBehind;
    m, p := m0, 0;
    assert before + buf[..0] == before;
    WholeMark(before, m0);
    while p < |buf| && m < 4
      invariant p <= |buf| && Longest(before + buf[..p], m) && m <= 4
      invariant m == 4 <==> MarkBehind(before + buf[..p])
      invariant forall i :: 0 <= i < p ==> !MarkBehind(before + buf[..i])
    {
      NextIsLongest(before + buf[..p], m, buf[p]);
      assert before + buf[..p] + [buf[p]] == before + buf[..p + 1];
      WholeMark(before + buf[..p + 1], Next(m, buf[p]));
      if buf[p] == MARK[m] {
        m := m + 1;
      } else if buf[p] != 0 {
        m := 0;
      } else {
        m := 4 - m;
      }
      p := p + 1;
    }
  }

  lemma WholeMark(s: seq<byte>, m: nat)
    requires Longest(s, m)
    ensures m <= 4 && (m == 4 <==> MarkBehind(s))
  {
    MarkAtEnd(s, 4);
    MarkAtEnd(s, m);
    assert MARK[..4] == MARK;
  }
}
