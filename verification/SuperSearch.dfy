/** coding_UT_SuperSearch.h: a set of 64-bit numbers, in 2^24 sorted arrays by the upper 24 bits. */
module SuperSearch {
  import opened Zlib

  type Doc = x: int | 0 <= x < 0x1_0000_0000_0000_0000
  type Word = x: int | 0 <= x < 0x1_0000_0000

  /** u40: the lower 40 bits, in two parts. */
  datatype U40 = U40(h: byte, l: Word)

  const BUCKETS := 0x100_0000

  function Val(x: U40): nat
  {
    x.h * 0x1_0000_0000 + x.l
  }

  function BucketOf(d: Doc): (i: nat)
    ensures i < BUCKETS
  {
    d / 0x100_0000_0000
  }

  /** operator=(u64) */
  function Low40(d: Doc): U40
  {
    U40(d / 0x1_0000_0000 % 256, d % 0x1_0000_0000)
  }

  /** Bucket and lower part together are the number. */
  lemma SplitIsOneToOne(d: Doc, e: Doc)
    ensures BucketOf(d) * 0x100_0000_0000 + Val(Low40(d)) == d
    ensures BucketOf(d) == BucketOf(e) && Low40(d) == Low40(e) ==> d == e
  {
    WholeIs(d);
    WholeIs(e);
  }

  lemma WholeIs(d: Doc)
    ensures BucketOf(d) * 0x100_0000_0000 + Val(Low40(d)) == d
  {
    var q := d / 0x1_0000_0000;
    assert d == q * 0x1_0000_0000 + d % 0x1_0000_0000;
    assert q / 256 == d / 0x100_0000_0000;
  }

  /** operator< of u40 is the order of the numbers; operator> is the same the other way round. */
  predicate Less(x: U40, y: U40)
    ensures Less(x, y) <==> Val(x) < Val(y)
  {
    if x.h < y.h then true
    else if x.h > y.h then false
    else x.l < y.l
  }

  // ----- sorting

  ghost predicate SortedIn(s: seq<U40>, lo: nat, hi: nat)
    requires hi <= |s|
  {
    forall i, j :: lo <= i < j < hi ==> Val(s[i]) <= Val(s[j])
  }

  /** The same elements, moved about between lo and hi only. */
  ghost predicate Moved(s: seq<U40>, t: seq<U40>, lo: nat, hi: nat)
    requires lo <= hi <= |s|
  {
    |t| == |s| && s[..lo] == t[..lo] && s[hi..] == t[hi..] && multiset(s[lo..hi]) == multiset(t[lo..hi])
  }

  lemma MovedTrans(s: seq<U40>, t: seq<U40>, u: seq<U40>, lo: nat, hi: nat)
    requires lo <= hi <= |s| && Moved(s, t, lo, hi) && Moved(t, u, lo, hi)
    ensures Moved(s, u, lo, hi)
  {
  }

  function Swapped(s: seq<U40>, i: nat, j: nat): seq<U40>
    requires i < |s| && j < |s|
  {
    s[i := s[j]][j := s[i]]
  }

  lemma SwapMoves(s: seq<U40>, i: nat, j: nat, lo: nat, hi: nat)
    requires lo <= i < hi <= |s| && lo <= j < hi
    ensures Moved(s, Swapped(s, i, j), lo, hi)
  {
    assert Swapped(s, i, j)[lo..hi] == s[lo..hi][i - lo := s[j]][j - lo := s[i]];
  }

  method Swap(a: array<U40>, i: nat, j: nat)
    requires i < a.Length && j < a.Length
    modifies a
    ensures a[..] == Swapped(old(a[..]), i, j)
  {
    a[i], a[j] := a[j], a[i];
  }

  /** Moving elements in a part of a range. */
  lemma MovedWithin(s: seq<U40>, t: seq<U40>, lo: nat, hi: nat, lo': nat, hi': nat)
    requires lo' <= lo <= hi <= hi' <= |s| && Moved(s, t, lo, hi)
    ensures Moved(s, t, lo', hi')
  {
    assert s[lo'..hi'] == s[lo'..lo] + s[lo..hi] + s[hi..hi'];
    assert t[lo'..hi'] == t[lo'..lo] + t[lo..hi] + t[hi..hi'];
    assert s[lo'..lo] == s[..lo][lo'..] == t[..lo][lo'..] == t[lo'..lo];
    assert s[hi..hi'] == s[hi..][..hi' - hi] == t[hi..][..hi' - hi] == t[hi..hi'];
    assert s[..lo'] == s[..lo][..lo'] == t[..lo][..lo'] == t[..lo'];
    assert s[hi'..] == s[hi..][hi' - hi..] == t[hi..][hi' - hi..] == t[hi'..];
  }

  /** A bound on the elements of the range stays one. */
  lemma MovedBound(s: seq<U40>, t: seq<U40>, lo: nat, hi: nat, c: nat)
    requires lo <= hi <= |s| && Moved(s, t, lo, hi)
    ensures (forall i :: lo <= i < hi ==> Val(s[i]) <= c) ==> forall i :: lo <= i < hi ==> Val(t[i]) <= c
    ensures (forall i :: lo <= i < hi ==> c <= Val(s[i])) ==> forall i :: lo <= i < hi ==> c <= Val(t[i])
  {
    forall i | lo <= i < hi ensures t[i] in s[lo..hi] {
      assert t[lo..hi][i - lo] in multiset(t[lo..hi]);
    }
  }

  lemma MovedOutside(s: seq<U40>, t: seq<U40>, lo: nat, hi: nat, i: nat)
    requires lo <= hi <= |s| && Moved(s, t, lo, hi) && i < |s| && (i < lo || hi <= i)
    ensures t[i] == s[i]
  {
    if i < lo {
      assert s[..lo][i] == t[..lo][i];
    } else {
      assert s[hi..][i - hi] == t[hi..][i - hi];
    }
  }

  /** Sort: a quicksort between two positions, both inclusive. */
  method Sort(a: array<U40>, begin: int, end: int)
    requires 0 <= begin && end < a.Length
    modifies a
    ensures begin <= end ==> SortedIn(a[..], begin, end + 1) && Moved(old(a[..]), a[..], begin, end + 1)
    ensures begin > end ==> a[..] == old(a[..])
    decreases end - begin
  {
    hide Moved;
    ghost var s0 := a[..];
    if begin >= end {
      MovedNothing(s0);
      return;
    }
    if begin + 1 == end {
      MovedNothing(s0);
      if Less(a[end], a[begin]) {
        SwapMoves(s0, begin, end, begin, end + 1);
        Swap(a, begin, end);
      }
      return;
    }
    var L, E, c := Partition(a, begin, end);
    if Less(a[L], c) {
      L := L + 1;
    }
    ghost var s := a[..];
    if begin < L {
      Sort(a, begin, L - 1);
    }
    ghost var t := a[..];
    MovedLength(s, t, begin, L);
    if E < end {
      Sort(a, E, end);
      MovedLength(t, a[..], E, end + 1);
    }
    Joined(s0, s, t, a[..], begin, L, E, end, Val(c));
  }

  lemma MovedNothing(s: seq<U40>)
    ensures forall lo, hi {:trigger Moved(s, s, lo, hi)} :: 0 <= lo <= hi <= |s| ==> Moved(s, s, lo, hi)
  {
  }

  lemma MovedLength(s: seq<U40>, t: seq<U40>, lo: nat, hi: nat)
    requires lo <= hi <= |s| && Moved(s, t, lo, hi)
    ensures |t| == |s|
  {
  }

  /** The two sorted parts fit together, though they may share position E. */
  lemma Joined(s0: seq<U40>, s: seq<U40>, t: seq<U40>, u: seq<U40>, b: nat, L: nat, E: nat, e: nat, c: nat)
    requires b < E <= L <= E + 1 && E <= e < |s0| == |s| == |t| == |u| && L <= e && Moved(s0, s, b, e + 1)
    requires Bounded(s, b, L, e, c)
    requires SortedIn(t, b, L) && Moved(s, t, b, L)
    requires if E < e then SortedIn(u, E, e + 1) && Moved(t, u, E, e + 1) else u == t
    ensures SortedIn(u, b, e + 1) && Moved(s0, u, b, e + 1)
  {
    hide Moved, SortedIn, Bounded;
    LeftSorted(s, t, b, L, e, c);
    MovedWithin(s, t, b, L, b, e + 1);
    MovedTrans(s0, s, t, b, e + 1);
    if E < e {
      RightSorted(t, u, b, L, E, e, c);
      MovedWithin(t, u, E, e + 1, b, e + 1);
      MovedTrans(s0, t, u, b, e + 1);
    } else {
      AllSorted(t, b, L, e, c);
    }
  }

  /** No element before L is above c, and none from L to e is below. */
  ghost predicate Bounded(s: seq<U40>, b: nat, L: nat, e: nat, c: nat)
    requires L <= e + 1 <= |s|
  {
    (forall i :: b <= i < L ==> Val(s[i]) <= c) && forall i :: L <= i <= e ==> c <= Val(s[i])
  }

  lemma LeftSorted(s: seq<U40>, t: seq<U40>, b: nat, L: nat, e: nat, c: nat)
    requires b <= L <= e + 1 <= |s| == |t| && Bounded(s, b, L, e, c) && Moved(s, t, b, L)
    ensures Bounded(t, b, L, e, c)
  {
    hide Moved, Val;
    MovedBound(s, t, b, L, c);
    forall i | L <= i <= e ensures t[i] == s[i] {
      MovedOutside(s, t, b, L, i);
    }
  }

  lemma AllSorted(t: seq<U40>, b: nat, L: nat, e: nat, c: nat)
    requires b <= L <= e + 1 <= |t| && e <= L && Bounded(t, b, L, e, c) && SortedIn(t, b, L)
    ensures SortedIn(t, b, e + 1)
  {
  }

  lemma RightSorted(t: seq<U40>, u: seq<U40>, b: nat, L: nat, E: nat, e: nat, c: nat)
    requires b < E <= L <= E + 1 && E < e < |t| == |u|
    requires Bounded(t, b, L, e, c) && SortedIn(t, b, L) && Moved(t, u, E, e + 1) && SortedIn(u, E, e + 1)
    ensures SortedIn(u, b, e + 1)
  {
    hide Moved, Val;
    var c' := if L == E then c else Val(t[E]);
    MovedBound(t, u, E, e + 1, c');
    forall i | b <= i < E ensures u[i] == t[i] && Val(t[i]) <= c' {
      MovedOutside(t, u, E, e + 1, i);
    }
  }

  /** Between b and e: nothing before L is above c, nothing after E is below. */
  ghost predicate Split(s: seq<U40>, b: nat, L: nat, E: nat, e: nat, c: U40)
    requires L <= e < |s|
  {
    (forall i :: b <= i < L ==> Val(s[i]) <= Val(c)) && forall i :: E < i <= e ==> Val(c) <= Val(s[i])
  }

  /** The first inner loop: up to an element that is not below c. */
  method ScanUp(a: array<U40>, ghost b: nat, L0: nat, E: nat, ghost e: nat, c: U40) returns (L: nat)
    requires b <= L0 <= E <= e < a.Length && Split(a[..], b, L0, E, e, c)
    ensures L0 <= L <= E && Split(a[..], b, L, E, e, c) && (L < E ==> Val(c) <= Val(a[L]))
    ensures forall i :: L0 <= i < L ==> Val(a[i]) < Val(c)
  {
    hide Val;
    L := L0;
    while L < E && Less(a[L], c)
      invariant L0 <= L <= E && forall i :: L0 <= i < L ==> Val(a[i]) < Val(c)
    {
      L := L + 1;
    }
  }

  /** The second one: down to an element that is not above c. */
  method ScanDown(a: array<U40>, ghost b: nat, L: nat, E0: nat, ghost e: nat, c: U40) returns (E: nat)
    requires b <= L <= E0 <= e < a.Length && Split(a[..], b, L, E0, e, c)
    ensures L <= E <= E0 && Split(a[..], b, L, E, e, c) && (L < E ==> Val(a[E]) <= Val(c))
    ensures forall i :: E < i <= E0 ==> Val(c) < Val(a[i])
  {
    hide Val;
    E := E0;
    while L < E && Less(c, a[E])
      invariant L <= E <= E0 && forall i :: E < i <= E0 ==> Val(c) < Val(a[i])
    {
      E := E - 1;
    }
  }

  lemma SplitSwap(s: seq<U40>, b: nat, L: nat, E: nat, e: nat, c: U40)
    requires b <= L < E <= e < |s| && Split(s, b, L, E, e, c) && Val(c) <= Val(s[L]) && Val(s[E]) <= Val(c)
    ensures Split(Swapped(s, L, E), b, L + 1, E - 1, e, c)
  {
    hide Val;
  }

  lemma SplitLess(s: seq<U40>, b: nat, L: nat, E: nat, E': nat, e: nat, c: U40)
    requires L <= e < |s| && Split(s, b, L, E, e, c) && E <= E'
    ensures Split(s, b, L, E', e, c) && (E < e ==> Val(c) <= Val(s[e]))
  {
  }

  /** What one exchange keeps. */
  lemma RoundKeeps(s0: seq<U40>, s: seq<U40>, b: nat, L: nat, E: nat, e: nat, c: U40)
    requires b <= L < E <= e < |s0| && Moved(s0, s, b, e + 1) && |s| == |s0|
    requires Split(s, b, L, E, e, c) && Val(c) <= Val(s[L]) && Val(s[E]) <= Val(c)
    ensures Moved(s0, Swapped(s, L, E), b, e + 1) && Val(c) <= Val(Swapped(s, L, E)[e])
    ensures Split(Swapped(s, L, E), b, L + 1, if L + 1 < E then E - 1 else E, e, c)
  {
    hide Moved, Val, Split, Swapped;
    SwapMoves(s, L, E, b, e + 1);
    MovedTrans(s0, s, Swapped(s, L, E), b, e + 1);
    SplitSwap(s, b, L, E, e, c);
    SplitLess(Swapped(s, L, E), b, L + 1, E - 1, E, e, c);
  }

  /** The loop of Sort: both ends move towards each other and meet. */
  method Partition(a: array<U40>, b: nat, e: nat) returns (L: nat, E: nat, c: U40)
    requires b + 2 <= e < a.Length
    modifies a
    ensures b < L == E <= e && Moved(old(a[..]), a[..], b, e + 1) && (E == e ==> Val(c) <= Val(a[e]))
    ensures Split(a[..], b, L, E, e, c)
  {
    hide Moved, Val, Split, Swapped;
    L, E := b, e;
    var mid := (b + e) / 2;
    c := a[mid];
    ghost var swapped := false;
    MovedNothing(a[..]);
    SplitStart(a[..], b, e, c);
    while L < E
      invariant b <= L <= E <= e
      invariant Moved(old(a[..]), a[..], b, e + 1)
      invariant Split(a[..], b, L, E, e, c)
      invariant !swapped ==> L <= mid <= E && a[mid] == c
      invariant swapped ==> b < L && Val(c) <= Val(a[e])
      decreases E - L
    {
      L := ScanUp(a, b, L, E, e, c);
      E := ScanDown(a, b, L, E, e, c);
      if L < E {
        RoundKeeps(old(a[..]), a[..], b, L, E, e, c);
        Swap(a, L, E);
        swapped := true;
        L := L + 1;
        if L < E {
          E := E - 1;
        }
      }
    }
  }

  lemma SplitStart(s: seq<U40>, b: nat, e: nat, c: U40)
    requires b <= e < |s|
    ensures Split(s, b, b, e, e, c)
  {
  }

  // ----- the index

  /** The lower parts of the numbers that belong to bucket i, in order. */
  function Bucket(docs: seq<Doc>, i: nat): seq<U40>
  {
    if docs == [] then []
    else
      var d := docs[|docs| - 1];
      Bucket(docs[..|docs| - 1], i) + if BucketOf(d) == i then [Low40(d)] else []
  }

  lemma BucketSnoc(docs: seq<Doc>, k: nat, i: nat)
    requires k < |docs|
    ensures Bucket(docs[..k + 1], i) == Bucket(docs[..k], i) + if BucketOf(docs[k]) == i then [Low40(docs[k])] else []
  {
    assert docs[..k + 1][..k] == docs[..k];
  }

  lemma {:induction false} BucketGrows(docs: seq<Doc>, k: nat, i: nat)
    requires k <= |docs|
    ensures |Bucket(docs[..k], i)| <= |Bucket(docs, i)|
    decreases |docs| - k
  {
    if k == |docs| {
      assert docs[..k] == docs;
    } else {
      BucketSnoc(docs, k, i);
      BucketGrows(docs, k + 1, i);
    }
  }

  /** A number is in its bucket if and only if it is in the list. */
  lemma {:induction false} BucketHas(docs: seq<Doc>, d: Doc)
    ensures Low40(d) in Bucket(docs, BucketOf(d)) <==> d in docs
  {
    hide Low40, BucketOf;
    if docs != [] {
      var k := |docs| - 1;
      BucketHas(docs[..k], d);
      assert docs == docs[..k] + [docs[k]];
      SplitIsOneToOne(d, docs[k]);
    }
  }

  lemma WholeArray(s: seq<U40>, t: seq<U40>)
    requires |s| == |t| && (s == t || Moved(s, t, 0, |s|))
    ensures multiset(t) == multiset(s)
  {
    assert s[0..|s|] == s && t[0..|s|] == t;
  }

  class SuperSearch {
    var search: seq<array<U40>>
    var blockNum: array<nat>

    /** There is an array for every bucket, and no two are the same. */
    ghost predicate Shaped()
      reads this
    {
      && |search| == BUCKETS && blockNum.Length == BUCKETS
      && forall i, j :: 0 <= i < j < |search| ==> search[i] != search[j]
    }

    ghost predicate BucketSorted(docs: seq<Doc>, i: nat)
      requires i < |search| && i < blockNum.Length
      reads this, blockNum, search[i]
    {
      && search[i].Length == blockNum[i] == |Bucket(docs, i)|
      && SortedIn(search[i][..], 0, search[i].Length)
      && multiset(search[i][..]) == multiset(Bucket(docs, i))
    }

    ghost predicate Loaded(docs: seq<Doc>)
      reads this, blockNum, search
    {
      Shaped() && forall i: nat :: i < BUCKETS ==> BucketSorted(docs, i)
    }

    constructor ()
      ensures blockNum.Length == BUCKETS && forall i :: 0 <= i < BUCKETS ==> blockNum[i] == 0
      ensures fresh(blockNum)
    {
      search := [];
      blockNum := new nat[BUCKETS](_ => 0);
    }

    /** First pass: the size of each bucket. */
    method CountDocs(docs: seq<Doc>)
      requires blockNum.Length == BUCKETS && forall i :: 0 <= i < BUCKETS ==> blockNum[i] == 0
      modifies blockNum
      ensures forall i: nat :: i < BUCKETS ==> blockNum[i] == |Bucket(docs, i)|
    {
      for k := 0 to |docs|
        invariant forall i: nat :: i < BUCKETS ==> blockNum[i] == |Bucket(docs[..k], i)|
      {
        var b := BucketOf(docs[k]);
        forall i: nat | i < BUCKETS ensures |Bucket(docs[..k + 1], i)| == |Bucket(docs[..k], i)| + if i == b
          then 1 else 0 {
          BucketSnoc(docs, k, i);
        }
        blockNum[b] := blockNum[b] + 1;
      }
      assert docs[..|docs|] == docs;
    }

    /** An array of that size for each; the counts start again at 0. */
    method AllocBuckets()
      requires blockNum.Length == BUCKETS
      modifies this`search, blockNum
      ensures Shaped() && fresh(search)
      ensures forall i :: 0 <= i < BUCKETS ==> search[i].Length == old(blockNum[i]) && blockNum[i] == 0
    {
      search := [];
      for i := 0 to BUCKETS
        modifies this`search
        invariant |search| == i && fresh(search)
        invariant forall j, k :: 0 <= j < k < i ==> search[j] != search[k]
        invariant forall j :: 0 <= j < i ==> search[j].Length == blockNum[j]
      {
        var a := new U40[blockNum[i]];
        search := search + [a];
      }
      for i := 0 to BUCKETS
        modifies blockNum
        invariant forall j :: 0 <= j < i ==> blockNum[j] == 0
      {
        blockNum[i] := 0;
      }
    }

    /** Second pass: every number into its bucket. */
    method FillBuckets(docs: seq<Doc>)
      requires Shaped() && forall i: nat :: i < BUCKETS ==> blockNum[i] == 0 && search[i].Length == |Bucket(docs, i)|
      modifies blockNum, search
      ensures forall i: nat :: i < BUCKETS ==> blockNum[i] == search[i].Length && search[i][..] == Bucket(docs, i)
    {
      for k := 0 to |docs|
        invariant forall i: nat :: i < BUCKETS ==> blockNum[i] == |Bucket(docs[..k], i)| <= search[i].Length
        invariant forall i: nat :: i < BUCKETS ==> search[i][..blockNum[i]] == Bucket(docs[..k], i)
      {
        var b, x := BucketOf(docs[k]), Low40(docs[k]);
        BucketSnoc(docs, k, b);
        BucketGrows(docs, k + 1, b);
        forall i: nat | i < BUCKETS && i != b ensures Bucket(docs[..k + 1], i) == Bucket(docs[..k], i) {
          BucketSnoc(docs, k, i);
        }
        search[b][blockNum[b]] := x;
        blockNum[b] := blockNum[b] + 1;
      }
      assert docs[..|docs|] == docs;
    }

    method SortBucket(ghost docs: seq<Doc>, i: nat)
      requires i < |search| && i < blockNum.Length && blockNum[i] == search[i].Length
      requires search[i][..] == Bucket(docs, i)
      modifies search[i]
      ensures BucketSorted(docs, i)
    {
      hide Moved, Bucket;
      var n: int := blockNum[i];
      Sort(search[i], 0, n - 1);
      WholeArray(Bucket(docs, i), search[i][..]);
    }

    /** Load; the numbers are those of the file. */
    method Load(docs: seq<Doc>)
      requires blockNum.Length == BUCKETS && forall i :: 0 <= i < BUCKETS ==> blockNum[i] == 0
      modifies this`search, blockNum
      ensures Loaded(docs)
    {
      hide Bucket, BucketSorted;
      CountDocs(docs);
      AllocBuckets();
      FillBuckets(docs);
      for i := 0 to BUCKETS
        modifies search
        invariant forall j: nat :: j < i ==> BucketSorted(docs, j)
        invariant forall j: nat :: i <= j < BUCKETS ==> search[j][..] == Bucket(docs, j)
      {
        SortBucket(docs, i);
      }
    }

    /** IsExist: binary search in the number's bucket. */
    method IsExist(d: Doc, ghost docs: seq<Doc>) returns (found: bool)
      requires Loaded(docs)
      ensures found <==> d in docs
    {
      var b, key := BucketOf(d), Low40(d);
      BucketHas(docs, d);
      assert BucketSorted(docs, b);
      hide *;
      assert key in search[b][..] <==> key in multiset(search[b][..]);
      found := InSorted(search[b], blockNum[b], key);
    }
  }

  /** The loop of IsExist. */
  method InSorted(s: array<U40>, n: nat, key: U40) returns (found: bool)
    requires n == s.Length && SortedIn(s[..], 0, n)
    ensures found <==> key in s[..]
  {
    var l, r: int := 0, n - 1;
    while l <= r
      invariant 0 <= l <= r + 1 <= n
      invariant forall i :: 0 <= i < l ==> Val(s[i]) < Val(key)
      invariant forall i :: r < i < n ==> Val(key) < Val(s[i])
      decreases r - l
    {
      var m := (l + r) / 2;
      if Less(key, s[m]) {
        assert forall i :: m <= i < n ==> Val(s[..][m]) <= Val(s[..][i]);
        r := m - 1;
      } else if Less(s[m], key) {
        assert forall i :: 0 <= i <= m ==> Val(s[..][i]) <= Val(s[..][m]);
        l := m + 1;
      } else {
        OneValue(s[m], key);
        assert s[m] in s[..];
        return true;
      }
    }
    return false;
  }

  lemma OneValue(x: U40, y: U40)
    requires Val(x) == Val(y)
    ensures x == y
  {
  }
}
