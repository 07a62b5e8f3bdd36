/** UC_DiskQuotaManager: how records lie in a file, and how places are packed into keys. */
module StoreRecords {
  import opened Bits
  import opened FileBytes
  import opened Zlib
  import BitInput

  // ----- places

  /** dqm_index2key */
  function IndexToKey(fileNo: nat, offset: nat): nat
  {
    BitInput.Or(Shl(fileNo, 40), offset)
  }

  /** dqm_key2index */
  function KeyToIndex(key: nat): (nat, nat)
  {
    (Shr(key, 40), Low(key, 40))
  }

  lemma {:induction false} OrAdds(f: nat, k: nat, o: nat)
    requires o < Pow2(k)
    ensures BitInput.Or(Shl(f, k), o) == Shl(f, k) + o
  {
    if k == 0 {
      BitInput.OrZero(f);
    } else {
      assert o / 2 < Pow2(k - 1);
      OrAdds(f, k - 1, o / 2);
      BitInput.OrBit(0, Shl(f, k - 1), o % 2, o / 2);
    }
  }

  /** Packing a place into a key loses nothing as long as files stay below 2^40 bytes. */
  lemma PackedBack(fileNo: nat, offset: nat)
    requires offset < Pow2(40)
    ensures KeyToIndex(IndexToKey(fileNo, offset)) == (fileNo, offset)
  {
    OrAdds(fileNo, 40, offset);
    Unique(Shl(fileNo, 40) + offset, fileNo, 40, offset);
  }

  // ----- records

  const DATA_END_FLAG: Bytes := [68, 81, 77, 95, 70, 76, 65, 71]  // "DQM_FLAG"
  const IN_USE: byte := 1
  const DELETED: byte := 0

  /** all_size */
  function AllSize(one: Bytes, two: Bytes): nat
  {
    (if one != [] then |one| + 4 else 0) + if two != [] then |two| + 4 else 0
  }

  /** A second buffer needs a first, and lengths are 32-bit integers. */
  predicate Writable(one: Bytes, two: Bytes)
  {
    (two != [] ==> one != []) && AllSize(one, two) + 13 < 0x8000_0000
  }

  /** What dqm_write_data appends to the file. */
  function Layout(one: Bytes, two: Bytes): Bytes
    requires Writable(one, two)
  {
    [IN_USE]
    + (if one == [] then []
       else Int32(AllSize(one, two)) + Int32(|one|) + one + if two == [] then [] else Int32(|two|) + two)
    + DATA_END_FLAG
  }

  /** write_size: by how much it says the file has grown. */
  function WriteSize(one: Bytes, two: Bytes): nat
  {
    AllSize(one, two) + 13
  }

  /** The size that is counted is the size written exactly if there is a first buffer: a record
      without one is counted as 13 bytes and takes 9. */
  lemma CountedIsWritten(one: Bytes, two: Bytes)
    requires Writable(one, two)
    ensures |Layout(one, two)| == WriteSize(one, two) <==> one != []
  {
  }

  datatype ReadResult = Failed(code: int) | Gone | Both(one: Bytes, two: Bytes) | OnlyOne(one: Bytes)

  /** read() of n bytes at p gets fewer at the end of the file. */
  predicate Has(file: Bytes, p: nat, n: nat)
  {
    p + n <= |file|
  }

  /** dqm_read_data */
  function Read(file: Bytes, p: nat, oneCap: nat, twoCap: nat): ReadResult
  {
    if !Has(file, p, 9) then Failed(-2)
    else if file[p] == DELETED then Gone
    else if file[p] != IN_USE then Failed(-500)
    else
      var total, n := Value32(file[p + 1..p + 5]), Value32(file[p + 5..p + 9]);
      if n >= 0x8000_0000 then Failed(-600)
      else if n > oneCap then Failed(-100)
      else if !Has(file, p + 9, n) then Failed(-3)
      else
        var one, q := file[p + 9..p + 9 + n], p + 9 + n;
        if total - 4 == n then OnlyOne(one)
        else if !Has(file, q, 4) then Failed(-4)
        else
          var m := Value32(file[q..q + 4]);
          if m >= 0x8000_0000 then Failed(-700)
          else if m > twoCap then Failed(-200)
          else if !Has(file, q + 4, m) then Failed(-5)
          else Both(one, file[q + 4..q + 4 + m])
  }

  /** What follows the first buffer of a record. */
  function Rest(two: Bytes): Bytes
    requires |two| < 0x8000_0000
  {
    (if two == [] then [] else Int32(|two|) + two) + DATA_END_FLAG
  }

  /** Where the first parts of a record lie. */
  lemma FirstParts(pre: Bytes, one: Bytes, two: Bytes, post: Bytes)
    requires Writable(one, two) && one != []
    ensures var file, p, n := pre + Layout(one, two) + post, |pre|, |one|;
            p + 9 + n <= |file| && file[p] == IN_USE && file[p + 1..p + 5] == Int32(AllSize(one, two))
            && file[p + 5..p + 9] == Int32(n) && file[p + 9..p + 9 + n] == one
            && p + 9 + n + |Rest(two)| <= |file| && file[p + 9 + n..p + 9 + n + |Rest(two)|] == Rest(two)
  {
    hide Int32;
    var file, p := pre + Layout(one, two) + post, |pre|;
    var head := [IN_USE] + Int32(AllSize(one, two)) + Int32(|one|) + one;
    assert Layout(one, two) == head + Rest(two);
    Inside(pre, head, Rest(two), post);
    assert file == pre + head + Rest(two) + post;
    HeadParts(file, p, Int32(AllSize(one, two)), Int32(|one|), one);
  }

  lemma Inside(a: Bytes, b: Bytes, c: Bytes, d: Bytes)
    ensures a + (b + c) + d == a + b + c + d
    ensures (a + b + c + d)[|a|..|a| + |b|] == b && (a + b + c + d)[|a| + |b|..|a| + |b| + |c|] == c
  {
  }

  /** Where the parts of a record lie. */
  lemma Parts(pre: Bytes, one: Bytes, two: Bytes, post: Bytes)
    requires Writable(one, two) && one != []
    ensures var file, p, n := pre + Layout(one, two) + post, |pre|, |one|;
            && p + 9 + n <= |file| && file[p] == IN_USE && file[p + 1..p + 5] == Int32(AllSize(one, two)) &&
              file[p + 5..p + 9] == Int32(n)
            && file[p + 9..p + 9 + n] == one
            && (two != [] ==>
                 && p + 13 + n + |two| <= |file| && file[p + 9 + n..p + 13 + n] == Int32(|two|)
                 && file[p + 13 + n..p + 13 + n + |two|] == two)
  {
    hide Int32, Layout;
    FirstParts(pre, one, two, post);
    if two != [] {
      var file, q, r := pre + Layout(one, two) + post, |pre| + 9 + |one|, Rest(two);
      Inner(file, q, q + |r|, 0, 4);
      Inner(file, q, q + |r|, 4, 4 + |two|);
      assert r[0..4] == Int32(|two|) && r[4..4 + |two|] == two;
    }
  }

  lemma Inner(s: Bytes, p: nat, q: nat, i: nat, j: nat)
    requires p <= q <= |s| && i <= j <= q - p
    ensures s[p..q][i..j] == s[p + i..p + j]
  {
    var a, b := s[p..q][i..j], s[p + i..p + j];
    forall k | 0 <= k < j - i ensures a[k] == b[k] {
      assert a[k] == s[p..q][i + k];
    }
  }

  lemma HeadParts(file: Bytes, p: nat, a: Bytes, b: Bytes, one: Bytes)
    requires |a| == |b| == 4 && p + 9 + |one| <= |file| && file[p..p + 9 + |one|] == [IN_USE] + a + b + one
    ensures file[p] == IN_USE && file[p + 1..p + 5] == a && file[p + 5..p + 9] == b && file[p + 9..p + 9 + |one|] == one
  {
    var q := p + 9 + |one|;
    var head := file[p..q];
    assert file[p] == head[0];
    Inner(file, p, q, 1, 5);
    Inner(file, p, q, 5, 9);
    Inner(file, p, q, 9, 9 + |one|);
    assert head[1..5] == a && head[5..9] == b && head[9..9 + |one|] == one;
  }

  /** Reading undoes writing, or says which of the caller's buffers is too small. */
  lemma ReadBack(pre: Bytes, one: Bytes, two: Bytes, post: Bytes, oneCap: nat, twoCap: nat)
    requires Writable(one, two) && one != []
    ensures Read(pre + Layout(one, two) + post, |pre|, oneCap, twoCap) ==
      if |one| > oneCap then Failed(-100)
      else if two == [] then OnlyOne(one)
      else if |two| > twoCap then Failed(-200)
      else Both(one, two)
  {
    Parts(pre, one, two, post);
    Int32Back(AllSize(one, two));
    Int32Back(|one|);
    Int32Back(|two|);
    hide Layout, Value32, Int32;
  }

  // ----- a whole file

  datatype Entry = Entry(one: Bytes, two: Bytes)

  predicate AllWritable(entries: seq<Entry>)
  {
    forall i :: 0 <= i < |entries| ==> Writable(entries[i].one, entries[i].two) && entries[i].one != []
  }

  /** The file after the entries were written. */
  function File(entries: seq<Entry>): Bytes
    requires AllWritable(entries)
  {
    if entries == [] then [] else File(entries[..|entries| - 1]) + Layout(entries[|entries| - 1].one,
      entries[|entries| - 1].two)
  }

  /** The offset that dqm_write_data returned for entry i: the size of the file counted so far. */
  function OffsetOf(entries: seq<Entry>, i: nat): nat
    requires i <= |entries|
  {
    if i == 0 then 0 else OffsetOf(entries, i - 1) + WriteSize(entries[i - 1].one, entries[i - 1].two)
  }

  lemma {:induction false} FilePrefix(entries: seq<Entry>, i: nat) returns (rest: Bytes)
    requires AllWritable(entries) && i <= |entries|
    ensures File(entries) == File(entries[..i]) + rest && |File(entries[..i])| == OffsetOf(entries, i)
    ensures i < |entries| ==> Layout(entries[i].one, entries[i].two) <= rest
    ensures i == |entries| ==> rest == []
    decreases |entries| - i
  {
    hide Layout, OffsetOf;
    OffsetIsSize(entries, i);
    if i == |entries| {
      assert entries[..i] == entries;
      rest := [];
    } else {
      var rest' := FilePrefix(entries, i + 1);
      FileSnoc(entries, i);
      rest := Layout(entries[i].one, entries[i].two) + rest';
      Join(File(entries[..i]), Layout(entries[i].one, entries[i].two), rest');
    }
  }

  lemma FileSnoc(entries: seq<Entry>, i: nat)
    requires AllWritable(entries) && i < |entries|
    ensures AllWritable(entries[..i])
    ensures File(entries[..i + 1]) == File(entries[..i]) + Layout(entries[i].one, entries[i].two)
  {
    hide Layout;
    assert entries[..i + 1][..i] == entries[..i];
  }

  lemma Join(a: Bytes, b: Bytes, c: Bytes)
    ensures (a + b) + c == a + (b + c)
  {
  }

  lemma {:induction false} OffsetIsSize(entries: seq<Entry>, i: nat)
    requires AllWritable(entries) && i <= |entries|
    ensures |File(entries[..i])| == OffsetOf(entries, i)
  {
    if i > 0 {
      OffsetIsSize(entries, i - 1);
      assert entries[..i][..i - 1] == entries[..i - 1];
      CountedIsWritten(entries[i - 1].one, entries[i - 1].two);
    }
  }

  /** Different entries have different offsets. */
  lemma {:induction false} OffsetsDiffer(entries: seq<Entry>, i: nat, j: nat)
    requires i < j <= |entries|
    ensures OffsetOf(entries, i) < OffsetOf(entries, j)
    decreases j
  {
    if i < j - 1 {
      OffsetsDiffer(entries, i, j - 1);
    }
  }

  /** The scan of the trimmer: it finds every entry, at the offset that its writer returned. */
  method Scan(file: Bytes, ghost entries: seq<Entry>) returns (found: seq<(nat, Entry)>)
    requires AllWritable(entries) && file == File(entries)
    ensures |found| == |entries|
    ensures forall i: nat :: i < |entries| ==> found[i] == (OffsetOf(entries, i), entries[i])
  {
    hide Layout, File, OffsetOf, WriteSize;
    found := [];
    var offset: nat := 0;
    assert OffsetOf(entries, 0) == 0 by { OffsetStart(entries); }
    while true
      invariant |found| <= |entries| && offset == OffsetOf(entries, |found|)
      invariant forall i: nat :: i < |found| ==> found[i] == (OffsetOf(entries, i), entries[i])
      decreases |entries| - |found|
    {
      ghost var k := |found|;
      ghost var rest := FilePrefix(entries, k);
      if !Has(file, offset, 9) {
        NothingBehind(entries, k, rest);
        break;
      }
      ghost var post := Behind(file, entries, k, rest);
      var one, two, next := ReadEntry(file, offset, entries[k], File(entries[..k]), post);
      OffsetNext(entries, k);
      found := found + [(offset, Entry(one, two))];
      offset := next;
    }
  }

  lemma OffsetStart(entries: seq<Entry>)
    ensures OffsetOf(entries, 0) == 0
  {
  }

  lemma OffsetNext(entries: seq<Entry>, k: nat)
    requires k < |entries|
    ensures OffsetOf(entries, k + 1) == OffsetOf(entries, k) + WriteSize(entries[k].one, entries[k].two)
  {
  }

  /** Fewer than nine bytes are left only when all entries have been read. */
  lemma NothingBehind(entries: seq<Entry>, k: nat, rest: Bytes)
    requires AllWritable(entries) && k <= |entries| && |rest| < 9
    requires k < |entries| ==> Layout(entries[k].one, entries[k].two) <= rest
    ensures k == |entries|
  {
  }

  /** At a place where there is an entry, what lies behind it. */
  lemma Behind(file: Bytes, entries: seq<Entry>, k: nat, rest: Bytes) returns (post: Bytes)
    requires AllWritable(entries) && k <= |entries| && file == File(entries[..k]) + rest
    requires Has(file, |File(entries[..k])|, 9)
    requires k < |entries| ==> Layout(entries[k].one, entries[k].two) <= rest
    requires k == |entries| ==> rest == []
    ensures k < |entries| && file == File(entries[..k]) + Layout(entries[k].one, entries[k].two) + post
  {
    var l := Layout(entries[k].one, entries[k].two);
    post := rest[|l|..];
    assert rest == l + post;
  }

  /** Read head, buffers and end flag of the record at offset. */
  method ReadEntry(file: Bytes, offset: nat, ghost e: Entry, ghost pre: Bytes,
                   ghost post: Bytes) returns (one: Bytes, two: Bytes, next: nat)
    requires Writable(e.one, e.two) && e.one != [] && file == pre + Layout(e.one, e.two) + post && offset == |pre|
    ensures one == e.one && two == e.two && next == offset + WriteSize(e.one, e.two)
  {
    Parts(pre, e.one, e.two, post);
    Int32Back(AllSize(e.one, e.two));
    Int32Back(|e.one|);
    Int32Back(|e.two|);
    hide Layout, Value32, Int32;
    var oneLen := Value32(file[offset + 5..offset + 9]);
    one := file[offset + 9..offset + 9 + oneLen];
    next := offset + 9 + oneLen;
    two := [];
    if Value32(file[offset + 1..offset + 5]) - 4 != oneLen {
      var twoLen := Value32(file[next..next + 4]);
      two := file[next + 4..next + 4 + twoLen];
      next := next + 4 + twoLen;
    }
    next := next + |DATA_END_FLAG|;
  }
}
