/** The record files of UC_Persistent_Storage.h, byte by byte: writing, reading one record after the
    other, and cutting off what a write that did not finish left behind (cp_fix_file). */
module RecordLog {
  import opened FileBytes
  import opened Options

  const END_FLAG: Bytes := [80, 83, 69, 78, 68, 70, 76, 71]  // "PSENDFLG"
  const FLAG_LEN := 8

  /** What `save` writes: the length with that of the flag, the record, the flag. */
  function Encode(r: Bytes): Bytes
    requires |r| + FLAG_LEN < 0x8000_0000
  {
    Int32(|r| + FLAG_LEN) + r + END_FLAG
  }

  /** `save` writes nothing for an empty record and takes lengths of type int. */
  ghost predicate Savable(rs: seq<Bytes>)
  {
    forall r :: r in rs ==> 0 < |r| && |r| + FLAG_LEN < 0x8000_0000
  }

  /** A file of records. */
  function File(rs: seq<Bytes>): Bytes
    requires Savable(rs)
  {
    if rs == [] then [] else File(rs[..|rs| - 1]) + Encode(rs[|rs| - 1])
  }

  // ----- reading

  datatype TravelResult = Record(record: Bytes, next: nat) | AtEnd | Failed

  /** One turn of travel_data on one file; `fread` of a whole object fails if bytes are missing. */
  function ReadRecord(file: Bytes, pos: nat, capacity: nat): TravelResult
  {
    if pos + 4 > |file| then AtEnd
    else
      var len := Value32(file[pos..pos + 4]) - FLAG_LEN;
      var p := pos + 4;
      if capacity < len || len <= 0 || p + len > |file| then TravelResult.Failed
      else if p + len + FLAG_LEN > |file| || file[p + len..p + len + FLAG_LEN] != END_FLAG then TravelResult.Failed
      else Record(file[p..p + len], p + len + FLAG_LEN)
  }

  lemma OneBack(pre: Bytes, r: Bytes, post: Bytes, capacity: nat)
    requires Savable([r]) && |r| <= capacity
    ensures ReadRecord(pre + Encode(r) + post, |pre|, capacity) == Record(r, |pre| + |Encode(r)|)
  {
    assert r in [r];
    var file := pre + Encode(r) + post;
    var len := Int32(|r| + FLAG_LEN);
    Int32Back(|r| + FLAG_LEN);
    assert file == pre + len + (r + END_FLAG + post);
    Middle(pre, len, r + END_FLAG + post);
    assert file == (pre + len) + r + (END_FLAG + post);
    Middle(pre + len, r, END_FLAG + post);
    assert file == (pre + len + r) + END_FLAG + post;
    Middle(pre + len + r, END_FLAG, post);
  }

  lemma Middle(a: Bytes, b: Bytes, c: Bytes)
    ensures (a + b + c)[|a|..|a| + |b|] == b
  {
  }

  /** A record longer than the caller's buffer is an error. */
  lemma TooLong(pre: Bytes, r: Bytes, post: Bytes, capacity: nat)
    requires Savable([r]) && |r| > capacity
    ensures ReadRecord(pre + Encode(r) + post, |pre|, capacity) == TravelResult.Failed
  {
    assert r in [r];
    var file := pre + Encode(r) + post;
    Int32Back(|r| + FLAG_LEN);
    assert file[|pre|..|pre| + 4] == Int32(|r| + FLAG_LEN);
  }

  /** What is read where the records rs[..i] end. */
  lemma ReadAt(rs: seq<Bytes>, i: nat, capacity: nat)
    requires Savable(rs) && i <= |rs|
    ensures Savable(rs[..i])
    ensures var one := ReadRecord(File(rs), |File(rs[..i])|, capacity);
            if i == |rs| then one == AtEnd
            else if |rs[i]| > capacity then one == TravelResult.Failed
            else Savable(rs[..i + 1]) && one == Record(rs[i], |File(rs[..i + 1])|)
  {
    hide ReadRecord, Encode, File;
    if i == |rs| {
      assert rs[..i] == rs;
      NothingLeft(File(rs), capacity);
    } else {
      var post := FileFrom(rs, i);
      assert Savable([rs[i]]);
      if |rs[i]| > capacity {
        TooLong(File(rs[..i]), rs[i], post, capacity);
      } else {
        OneBack(File(rs[..i]), rs[i], post, capacity);
      }
    }
  }

  /** Reading to the end of the file; fails where travel_data fails. */
  function ReadAll(file: Bytes, pos: nat, capacity: nat): Option<seq<Bytes>>
    decreases |file| - pos
  {
    match ReadRecord(file, pos, capacity)
    case AtEnd => Some([])
    case Failed => None
    case Record(r, next) =>
      match ReadAll(file, next, capacity)
      case None => None
      case Some(rs) => Some([r] + rs)
  }

  lemma FileSnoc(rs: seq<Bytes>)
    requires Savable(rs) && rs != []
    ensures Savable(rs[..|rs| - 1]) && File(rs) == File(rs[..|rs| - 1]) + Encode(rs[|rs| - 1])
  {
  }

  lemma {:induction false} FileFrom(rs: seq<Bytes>, i: nat) returns (post: Bytes)
    requires Savable(rs) && i < |rs|
    ensures Savable(rs[..i]) && Savable(rs[..i + 1]) && File(rs[..i + 1]) == File(rs[..i]) + Encode(rs[i])
    ensures File(rs) == File(rs[..i]) + Encode(rs[i]) + post
    decreases |rs|
  {
    hide Encode, File;
    var k := |rs| - 1;
    FileSnoc(rs);
    assert rs[..i + 1][..i] == rs[..i];
    if i == k {
      post := [];
      assert rs[..i + 1] == rs;
    } else {
      assert rs[..k][..i] == rs[..i] && rs[..k][..i + 1] == rs[..i + 1] && rs[..k][i] == rs[i];
      var q := FileFrom(rs[..k], i);
      post := q + Encode(rs[k]);
      assert File(rs[..i]) + Encode(rs[i]) + q + Encode(rs[k]) == File(rs[..i]) + Encode(rs[i]) + post;
    }
  }

  /** What was saved is read back, record by record, from any record on. */
  lemma {:induction false} AllBack(rs: seq<Bytes>, i: nat, capacity: nat)
    requires Savable(rs) && i <= |rs| && forall r :: r in rs ==> |r| <= capacity
    ensures ReadAll(File(rs), |File(rs[..i])|, capacity) == Some(rs[i..])
    decreases |rs| - i
  {
    hide ReadRecord, Encode, File;
    if i == |rs| {
      assert rs[..i] == rs;
      NothingLeft(File(rs), capacity);
    } else {
      var post := FileFrom(rs, i);
      assert Savable([rs[i]]);
      OneBack(File(rs[..i]), rs[i], post, capacity);
      AllBack(rs, i + 1, capacity);
      assert rs[i..] == [rs[i]] + rs[i + 1..];
    }
  }

  lemma NothingLeft(file: Bytes, capacity: nat)
    ensures ReadRecord(file, |file|, capacity) == AtEnd
  {
  }

  // ----- cp_fix_file

  const CHUNK := 0x10_0000

  predicate FlagAt(file: Bytes, p: nat)
  {
    p + FLAG_LEN <= |file| && file[p..p + FLAG_LEN] == END_FLAG
  }

  /** All eight bytes from p on are in one of the blocks of 2^20 bytes counted from the end. */
  predicate InOneChunk(n: nat, p: nat)
  {
    p + FLAG_LEN <= n && (n - p - FLAG_LEN) / CHUNK == (n - p - 1) / CHUNK
  }

  /** A flag that the backward scan can see. */
  predicate Visible(file: Bytes, p: nat)
  {
    FlagAt(file, p) && InOneChunk(|file|, p)
  }

  /** The length that a file is cut to: the end of its last visible flag, or 0. */
  ghost predicate FixedLength(file: Bytes, n: nat)
  {
    && n <= |file| && (n > 0 ==> n >= FLAG_LEN && Visible(file, n - FLAG_LEN))
    && forall p: nat {:trigger Visible(file, p)} :: n < p + FLAG_LEN ==> !Visible(file, p)
  }

  /** The scan: blocks from the end of the file, and in each from its end. */
  method FixFile(file: Bytes) returns (kept: nat)
    ensures FixedLength(file, kept)
  {
    kept := 0;
    var fileLen: nat := |file|;
    while fileLen > 0
      invariant fileLen <= |file| && (fileLen == 0 || (|file| - fileLen) % CHUNK == 0)
      invariant forall p: nat {:trigger Visible(file, p)} :: fileLen < p + FLAG_LEN ==> !Visible(file, p)
    {
      var readLen: nat := if fileLen < CHUNK then fileLen else CHUNK;
      ghost var top: nat := fileLen;
      fileLen := fileLen - readLen;
      var loopNum := readLen - FLAG_LEN + 1;
      if loopNum <= 0 {
        break;
      }
      var i: nat := 0;
      while i < loopNum
        invariant i <= loopNum
        invariant forall p: nat {:trigger Visible(file, p)} :: top < p + FLAG_LEN + i ==> !Visible(file, p)
      {
        var cur: nat := fileLen + readLen - FLAG_LEN - i;
        if file[cur..cur + FLAG_LEN] == END_FLAG {
          break;
        }
        i := i + 1;
      }
      if i != loopNum {
        kept := fileLen + readLen - i;
        SameChunk(|file|, top, kept - FLAG_LEN);
        return;
      }
      if fileLen > 0 {
        Across(file, top, fileLen);
      }
    }
  }

  /** Inside a block nothing is missed. */
  lemma SameChunk(n: nat, top: nat, p: nat)
    requires top <= n && (n - top) % CHUNK == 0 && p + FLAG_LEN <= top <= p + CHUNK
    ensures InOneChunk(n, p)
  {
  }

  /** A flag across the lower end of a block is not visible. */
  lemma Across(file: Bytes, top: nat, low: nat)
    requires top <= |file| && (|file| - top) % CHUNK == 0 && low + CHUNK == top
    ensures forall p: nat {:trigger Visible(file, p)} :: p < low < p + FLAG_LEN ==> !Visible(file, p)
  {
  }

  // ----- what the cut does to a file with an unfinished record

  /** What a write that did not finish may leave for the cut to be right: no flag, and the flag
      before it does not lie across a block's border. */
  ghost predicate Harmless(t: Bytes)
  {
    |t| % CHUNK + FLAG_LEN <= CHUNK && forall p: nat {:trigger FlagAt(t, p)} :: !FlagAt(t, p)
  }

  lemma LastFlag(rs: seq<Bytes>, t: Bytes)
    requires Savable(rs) && rs != []
    ensures var n := |File(rs)|; n >= FLAG_LEN && FlagAt(File(rs) + t, n - FLAG_LEN)
    ensures InOneChunk(|File(rs) + t|, |File(rs)| - FLAG_LEN) <==> |t| % CHUNK + FLAG_LEN <= CHUNK
  {
    EndsInFlag(rs, t);
    LastBorder(|File(rs)|, |t|);
  }

  lemma EndsInFlag(rs: seq<Bytes>, t: Bytes)
    requires Savable(rs) && rs != []
    ensures var n := |File(rs)|; n >= FLAG_LEN && FlagAt(File(rs) + t, n - FLAG_LEN)
  {
    FileSnoc(rs);
    var pre, r := File(rs[..|rs| - 1]), rs[|rs| - 1];
    assert r in rs;
    var file, n := File(rs) + t, |File(rs)|;
    hide File;
    var head := pre + (Int32(|r| + FLAG_LEN) + r);
    assert file == head + END_FLAG + t;
    Middle(head, END_FLAG, t);
  }

  /** Eight bytes before the last k ones are in one block, counted from the end. */
  lemma LastBorder(n: nat, k: nat)
    requires FLAG_LEN <= n
    ensures InOneChunk(n + k, n - FLAG_LEN) <==> k % CHUNK + FLAG_LEN <= CHUNK
  {
    Chunks(k);
  }

  lemma Chunks(k: nat)
    ensures k / CHUNK == (k + FLAG_LEN - 1) / CHUNK <==> k % CHUNK + FLAG_LEN <= CHUNK
  {
  }

  /** Flags do not overlap: the first letter occurs once. */
  lemma NoOverlap(file: Bytes, p: nat, q: nat)
    requires FlagAt(file, p) && FlagAt(file, q) && p < q
    ensures p + FLAG_LEN <= q
  {
    forall j: nat | j < FLAG_LEN ensures file[p + j] == END_FLAG[j] {
      assert file[p + j] == file[p..p + FLAG_LEN][j];
    }
    assert file[q] == file[q..q + FLAG_LEN][0];
  }

  /** A flag behind the records, seen from the whole file. */
  lemma Behind(a: Bytes, t: Bytes, p: nat)
    ensures FlagAt(a + t, |a| + p) <==> FlagAt(t, p)
  {
    if p + FLAG_LEN <= |t| {
      assert (a + t)[|a| + p..|a| + p + FLAG_LEN] == t[p..p + FLAG_LEN];
    }
  }

  ghost predicate NoneBehind(file: Bytes, k: nat)
  {
    forall p: nat {:trigger Visible(file, p)} :: k <= p ==> !Visible(file, p)
  }

  /** The last flag of the records is not across the border of two blocks, and none is visible behind. */
  ghost predicate Cuttable(rs: seq<Bytes>, t: Bytes)
    requires Savable(rs)
  {
    (rs == [] || |t| % CHUNK + FLAG_LEN <= CHUNK) && NoneBehind(File(rs) + t, |File(rs)|)
  }

  /** The same, from the torn bytes alone and whether there are records in front of them. */
  ghost predicate TailOk(first: bool, t: Bytes)
  {
    (first || |t| % CHUNK + FLAG_LEN <= CHUNK) && NoneBehind(t, 0)
  }

  lemma CuttableIs(rs: seq<Bytes>, t: Bytes)
    requires Savable(rs)
    ensures Cuttable(rs, t) <==> TailOk(rs == [], t)
  {
    hide FlagAt, File;
    var a := File(rs);
    forall p: nat
      ensures Visible(a + t, |a| + p) <==> Visible(t, p)
    {
      Behind(a, t, p);
    }
    if NoneBehind(t, 0) {
      forall p: nat | |a| <= p
        ensures !Visible(a + t, p)
      {
        assert Visible(a + t, |a| + (p - |a|)) <==> Visible(t, p - |a|);
      }
    } else {
      var p: nat :| Visible(t, p);
      assert Visible(a + t, |a| + p);
    }
  }

  /** Exactly then the cut leaves exactly the whole records. */
  lemma CutIsRight(rs: seq<Bytes>, t: Bytes, n: nat)
    requires Savable(rs) && FixedLength(File(rs) + t, n)
    ensures n == |File(rs)| <==> Cuttable(rs, t)
  {
    hide FlagAt, InOneChunk, Encode, File;
    var file, k := File(rs) + t, |File(rs)|;
    if rs == [] {
      EmptyFile();
    } else {
      LastFlag(rs, t);
    }
    if n > k {
      var p := n - FLAG_LEN;
      assert Visible(file, p);
      if p < k && rs != [] {
        NoOverlap(file, k - FLAG_LEN, p);
      }
    } else if rs != [] {
      assert Visible(file, k - FLAG_LEN) <==> InOneChunk(|file|, k - FLAG_LEN);
    }
  }

  lemma EmptyFile()
    ensures File([]) == []
  {
  }

  /** A flag in what is behind the records. */
  lemma FreeBehind(a: Bytes, t: Bytes)
    requires forall p: nat {:trigger FlagAt(t, p)} :: !FlagAt(t, p)
    ensures NoneBehind(a + t, |a|)
  {
    forall p: nat | |a| <= p ensures !Visible(a + t, p) {
      Behind(a, t, p - |a|);
    }
  }

  lemma HarmlessCut(rs: seq<Bytes>, t: Bytes, n: nat)
    requires Savable(rs) && FixedLength(File(rs) + t, n) && Harmless(t)
    ensures n == |File(rs)| && (File(rs) + t)[..n] == File(rs) && Cuttable(rs, t)
  {
    FreeBehind(File(rs), t);
    CutIsRight(rs, t, n);
  }

  lemma NothingIsHarmless()
    ensures Harmless([])
  {
  }

  /** A write that stops up to seven bytes short of a multiple of 2^20 hides the flag before it
      from the scan: the cut then takes whole records too. */
  lemma LongTailLosesRecords(rs: seq<Bytes>, t: Bytes, n: nat)
    requires Savable(rs) && rs != [] && FixedLength(File(rs) + t, n)
    requires |t| == CHUNK - 4 && forall p: nat {:trigger FlagAt(t, p)} :: !FlagAt(t, p)
    ensures n < |File(rs)|
  {
    hide InOneChunk, Encode, File;
    var k := |File(rs)|;
    FreeBehind(File(rs), t);
    CutIsRight(rs, t, n);
    LastFlag(rs, t);
    if n > k {
      var p := n - FLAG_LEN;
      assert Visible(File(rs) + t, p);
      if p < k {
        NoOverlap(File(rs) + t, k - FLAG_LEN, p);
      }
    }
  }
}
