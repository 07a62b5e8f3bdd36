/** UniversalDomain: the three passes over one list of (host, page) pairs, and the search. */
module DomainIndex {
  import opened DomainTree
  import opened DomainPages

  /** Every node was made for an entry. */
  ghost predicate Live(t: Tree)
  {
    t.Node? ==> t.allPageNum > 0 && Live(t.child) && Live(t.left) && Live(t.right)
  }

  /** Only the node of x may be still uncounted. */
  ghost predicate LiveBut(t: Tree, x: Label)
  {
    t.Node? ==> (t.allPageNum > 0 || t.name == x) && Live(t.child) && LiveBut(t.left, x) && LiveBut(t.right, x)
  }

  lemma RotationsLive(t: Tree, x: Label)
    requires t.Node?
    ensures t.right.Node? ==> (LiveBut(LRot(t), x) <==> LiveBut(t, x))
    ensures t.left.Node? ==> (LiveBut(RRot(t), x) <==> LiveBut(t, x))
  {
  }

  lemma RebalanceLive(t: Tree, grown: int, x: Label)
    requires Grown(t, grown) && LiveBut(t, x)
    ensures LiveBut(Rebalance(t, grown).0, x)
  {
    if grown != 0 && t.bf < -1 {
      if t.left.bf > 0 {
        RotationsLive(t.left, x);
      }
      RotationsLive(if t.left.bf > 0 then t.(left := LRot(t.left)) else t, x);
    } else if grown != 0 && t.bf > 1 {
      if t.right.bf < 0 {
        RotationsLive(t.right, x);
      }
      RotationsLive(if t.right.bf < 0 then t.(right := RRot(t.right)) else t, x);
    }
  }

  lemma {:induction false} LiveIsLiveBut(t: Tree, x: Label)
    requires Live(t)
    ensures LiveBut(t, x)
  {
    if t.Node? {
      LiveIsLiveBut(t.left, x);
      LiveIsLiveBut(t.right, x);
    }
  }

  lemma {:induction false} InsertLive(t: Tree, x: Label)
    requires Tidy(t) && Live(t)
    ensures LiveBut(Insert(t, x).0, x)
  {
    LiveIsLiveBut(t, x);
    if t.Node? && x != t.name {
      if x > t.name {
        InsertLive(t.right, x);
      } else {
        InsertLive(t.left, x);
      }
      var (t1, grown) := Half(t, x);
      RebalanceLive(t1, grown, x);
      hide Rebalance, Insert;
    }
  }

  lemma {:induction false} CountLive(t: Tree, h: seq<Label>)
    requires Tidy(t) && Live(t)
    ensures Live(Count(t, h))
    decreases |h|, 1, t
  {
    if h != [] {
      InsertLive(t, h[0]);
      InsertKeeps(t, h[0]);
      TickLive(Insert(t, h[0]).0, h);
    }
  }

  lemma {:induction false} OthersLive(t: Tree, x: Label)
    requires LiveBut(t, x) && !Contains(t, x)
    ensures Live(t)
  {
    if t.Node? {
      OthersLive(t.left, x);
      OthersLive(t.right, x);
    }
  }

  lemma {:induction false} TickLive(t: Tree, h: seq<Label>)
    requires Tidy(t) && h != [] && LiveBut(t, h[0])
    ensures Live(Tick(t, h))
    decreases |h|, 0, t
  {
    if t.Node? {
      OrderedMisses(t, h[0]);
      if h[0] >= t.name {
        OthersLive(t.left, h[0]);
      }
      if h[0] <= t.name {
        OthersLive(t.right, h[0]);
      }
      if h[0] == t.name {
        CountLive(t.child, h[1..]);
      } else if h[0] > t.name {
        TickLive(t.right, h);
      } else {
        TickLive(t.left, h);
      }
    }
  }

  lemma {:induction false} AllotLive(t: Tree, pos: nat)
    requires Live(t)
    ensures Live(Allot(t, pos).0)
  {
    if t.Node? {
      AllotIs(t, pos);
      var (child, pos3) := Allot(t.child, pos + t.pageNum);
      var (left, pos4) := Allot(t.left, pos3);
      AllotLive(t.child, pos + t.pageNum);
      AllotLive(t.left, pos3);
      AllotLive(t.right, pos4);
    }
  }

  lemma {:induction false} BumpLive(t: Tree, h: seq<Label>)
    requires HasPath(t, h) && Live(t)
    ensures Live(Bump(t, h))
    decreases t
  {
    hide HasPath, Bump, Search;
    BumpIs(t, h);
    if h[0] > t.name {
      BumpLive(t.right, h);
    } else if h[0] < t.name {
      BumpLive(t.left, h);
    } else if |h| > 1 {
      BumpLive(t.child, h[1..]);
    }
  }

  lemma {:induction false} SearchLive(t: Tree, x: Label)
    requires Live(t) && Search(t, x).Node?
    ensures Search(t, x).allPageNum > 0 && Live(Search(t, x).child)
  {
    if x > t.name {
      SearchLive(t.right, x);
    } else if x < t.name {
      SearchLive(t.left, x);
    }
  }

  lemma {:induction false} LocateLive(t: Tree, h: seq<Label>)
    requires Live(t) && h != [] && Locate(t, h).Node?
    ensures Locate(t, h).allPageNum > 0
    decreases |h|
  {
    SearchLive(t, h[0]);
    if |h| > 1 {
      LocateLive(Search(t, h[0]).child, h[1..]);
    }
  }

  lemma {:induction false} SlotsOfAll(t: Tree, S: seq<Entry>)
    requires Sorted(t, S)
    ensures Slots(t) == |S|
  {
    TotalIsAll(t, S);
    SlotsAreTotal(t, S);
  }

  lemma CompleteSame(t: Tree, t': Tree, S: seq<Entry>)
    requires Complete(t, S) && forall x :: Contains(t', x) <==> Contains(t, x)
    ensures Complete(t', S)
  {
  }

  lemma SameTimes(a: seq<Page>, b: seq<Page>)
    requires forall v :: Occ(a, v) == Occ(b, v)
    ensures multiset(a) == multiset(b)
  {
    forall v ensures multiset(a)[v] == multiset(b)[v] {
      assert Occ(a, v) == Occ(b, v);
    }
  }

  /** The state between the allotting pass and the end of the filling pass. */
  ghost predicate FillingState(t: Tree, S: seq<Entry>, D: seq<Entry>, buf: seq<Page>)
  {
    Laid(t, 0, S) && Complete(t, S) && Live(t) && |buf| == |S| == Slots(t) && Within(D, S) && Filled(t, D, buf)
  }

  lemma AllotReady(t: Tree, S: seq<Entry>, buf: seq<Page>)
    requires Index(t, S) && Live(t) && |buf| == |S|
    ensures FillingState(Allot(t, 0).0, S, [], buf)
  {
    hide Filled, Allotted, Slots, Counted, Allot, Sub, Own, Rest, Ordered, Balanced, Kids, Contains, Complete,
         KidsOrdered, Empty, Live;
    KidsAreOrdered(t);
    AllotKeeps(t, 0, S);
    AllotShape(t, 0, 0);
    AllotLive(t, 0);
    SlotsOfAll(t, S);
    CompleteSame(t, Allot(t, 0).0, S);
    NothingFilled(Allot(t, 0).0, buf, 0);
  }

  lemma StillWithin(D: seq<Entry>, S: seq<Entry>, e: Entry)
    requires Within(D, S) && HostCount(D, e.host) < HostCount(S, e.host)
    ensures Within(D + [e], S)
  {
    hide HostCount;
    forall h: seq<Label>
      ensures HostCount(D + [e], h) <= HostCount(S, h)
    {
      HostSnoc(D, e, h);
    }
  }

  lemma NotWithin(S: seq<Entry>, D: seq<Entry>, e: Entry)
    requires HostCount(S, e.host) <= HostCount(D, e.host)
    ensures forall t, buf :: !FillingState(t, S, D + [e], buf)
  {
    HostSnoc(D, e, e.host);
    assert HostCount(S, e.host) < HostCount(D + [e], e.host);
  }

  lemma FillReady(t: Tree, S: seq<Entry>, D: seq<Entry>, buf: seq<Page>, e: Entry)
    requires FillingState(t, S, D, buf) && HostCount(D, e.host) < HostCount(S, e.host)
    ensures HasPath(t, e.host) && 0 <= NextSlot(t, e.host) < |buf|
    ensures FillingState(Bump(t, e.host), S, D + [e], buf[NextSlot(t, e.host) := e.page])
  {
    hide Laid, Filled, Slots, Bump, NextSlot, HasPath, Contains, Live, Complete, HostCount;
    StillWithin(D, S, e);
    var i := OneOfHost(S, e.host);
    PathOf(t, 0, S, i);
    FillStep(t, 0, S, D, e, buf);
    BumpKeeps(t, 0, S, e.host);
    BumpShape(t, e.host, 0);
    BumpLive(t, e.host);
    CompleteSame(t, Bump(t, e.host), S);
  }

  lemma {:induction false} OneOfHost(S: seq<Entry>, h: seq<Label>) returns (i: nat)
    requires HostCount(S, h) > 0
    ensures i < |S| && S[i].host == h
  {
    i := |S| - 1;
    if S[i].host != h {
      i := OneOfHost(S[..i], h);
    }
  }

  // ----- an entry of a domain that has all its pages already

  /** Slot i is one of the domain's own. */
  ghost predicate OwnSlot(t: Tree, h: seq<Label>, i: int)
    requires HasPath(t, h)
  {
    LocateIsPath(t, h);
    var n := Locate(t, h);
    n.offset <= i < n.offset + n.pageNum
  }

  lemma {:induction false} NodeAt(t: Tree, S: seq<Entry>, D: seq<Entry>, buf: seq<Page>, x: Label)
    requires Counted(t, S) && Filled(t, D, buf) && Search(t, x).Node?
    ensures var n := Search(t, x);
            && n.pageNum == |Own(Sub(S, x))| && n.bf == |Own(Sub(D, x))|
            && Counted(n.child, Rest(Sub(S, x))) && Filled(n.child, Rest(Sub(D, x)), buf)
  {
    hide Sub, Own, Rest, Complete;
    if x > t.name {
      NodeAt(t.right, S, D, buf, x);
    } else if x < t.name {
      NodeAt(t.left, S, D, buf, x);
    }
  }

  /** What is counted at a domain's node, and how many of its slots are filled. */
  lemma {:induction false} CountsAt(t: Tree, S: seq<Entry>, D: seq<Entry>, buf: seq<Page>, h: seq<Label>)
    requires Counted(t, S) && Filled(t, D, buf) && HasPath(t, h)
    ensures var n := Locate(t, h); n.Node? && n.pageNum == HostCount(S, h) && n.bf == HostCount(D, h)
    decreases |h|
  {
    hide Sub, Own, Rest, Counted, Filled, HostCount, Search;
    var x, rest := h[0], h[1..];
    NodeAt(t, S, D, buf, x);
    HostSub(S, x, rest);
    HostSub(D, x, rest);
    HostRest(Sub(S, x), rest);
    HostRest(Sub(D, x), rest);
    assert [x] + rest == h;
    if |h| > 1 {
      CountsAt(Search(t, x).child, Rest(Sub(S, x)), Rest(Sub(D, x)), buf, rest);
    }
  }

  /** The page goes to a slot of its own domain if and only if fewer entries of the domain are filled
      in than were counted. */
  lemma SlotIsOwn(t: Tree, S: seq<Entry>, D: seq<Entry>, buf: seq<Page>, h: seq<Label>)
    requires FillingState(t, S, D, buf) && HasPath(t, h)
    ensures 0 <= NextSlot(t, h) && (OwnSlot(t, h, NextSlot(t, h)) <==> HostCount(D, h) < HostCount(S, h))
  {
    hide HasPath, NextSlot, HostCount, Locate, Counted, Filled, Allotted;
    PathNotEmpty(t, h);
    LocateIsPath(t, h);
    CountsAt(t, S, D, buf, h);
  }

  /** A domain reached in a subtree is reached in the tree. */
  lemma PathInParts(t: Tree, h: seq<Label>)
    requires t.Node? && Ordered(t) && h != []
    ensures HasPath(t.left, h) ==> HasPath(t, h) && Locate(t, h) == Locate(t.left, h)
    ensures HasPath(t.right, h) ==> HasPath(t, h) && Locate(t, h) == Locate(t.right, h)
    ensures HasPath(t.child, h) ==>
      HasPath(t, [t.name] + h) && Locate(t, [t.name] + h) == Locate(t.child, h)
  {
    if HasPath(t.left, h) {
      SearchFinds(t.left, h[0]);
      if h[0] >= t.name {
        BelowMisses(t.left, t.name, h[0]);
      }
    }
    if HasPath(t.right, h) {
      SearchFinds(t.right, h[0]);
      if h[0] <= t.name {
        BelowMisses(t.right, t.name, h[0]);
      }
    }
    assert ([t.name] + h)[1..] == h;
  }

  /** Every slot is some domain's own. */
  lemma {:induction false} OwnerOf(t: Tree, pos: nat, i: nat) returns (h: seq<Label>)
    requires Ordered(t) && KidsOrdered(t) && Allotted(t, pos) && pos <= i < pos + Slots(t)
    ensures HasPath(t, h) && OwnSlot(t, h, i)
  {
    hide HasPath, Locate;
    if i < pos + t.pageNum {
      h := [t.name];
      AtRoot(t);
    } else if i < pos + t.allPageNum {
      var rest := OwnerOf(t.child, pos + t.pageNum, i);
      PathNotEmpty(t.child, rest);
      PathInParts(t, rest);
      h := [t.name] + rest;
    } else {
      if i < pos + t.allPageNum + Slots(t.left) {
        h := OwnerOf(t.left, pos + t.allPageNum, i);
        PathNotEmpty(t.left, h);
      } else {
        h := OwnerOf(t.right, pos + t.allPageNum + Slots(t.left), i);
        PathNotEmpty(t.right, h);
      }
      PathInParts(t, h);
    }
  }

  lemma AtRoot(t: Tree)
    requires t.Node?
    ensures HasPath(t, [t.name]) && Locate(t, [t.name]) == t
  {
  }

  lemma PathNotEmpty(t: Tree, h: seq<Label>)
    requires HasPath(t, h)
    ensures h != []
  {
  }

  /** One entry too many: if its slot is in the buffer, it is that of another domain, which has pages. */
  lemma OverfillHits(t: Tree, S: seq<Entry>, D: seq<Entry>, buf: seq<Page>, h: seq<Label>) returns (other: seq<Label>)
    requires FillingState(t, S, D, buf) && HasPath(t, h)
    requires HostCount(S, h) <= HostCount(D, h) && NextSlot(t, h) < |buf|
    ensures other != h && HasPath(t, other) && OwnSlot(t, other, NextSlot(t, h)) && HostCount(S, other) > 0
  {
    hide HasPath, NextSlot, HostCount, Locate, Counted, Filled, Allotted, Slots, Ordered, KidsOrdered;
    SlotIsOwn(t, S, D, buf, h);
    other := OwnerOf(t, 0, NextSlot(t, h));
    CountsAt(t, S, D, buf, other);
  }

  // ----- when as many entries are filled in as were counted, they are of the same hosts

  ghost predicate Alike(A: seq<Entry>, B: seq<Entry>)
  {
    forall h: seq<Label> :: HostCount(A, h) == HostCount(B, h)
  }

  lemma {:induction false} HostWithout(S: seq<Entry>, i: nat, h: seq<Label>)
    requires i < |S|
    ensures HostCount(S, h) == HostCount(S[..i] + S[i + 1..], h) + if S[i].host == h then 1 else 0
  {
    var k := |S| - 1;
    assert S[..k] + [S[k]] == S;
    HostSnoc(S[..k], S[k], h);
    hide HostCount;
    if i == k {
      assert S[..i] + S[i + 1..] == S[..k];
    } else {
      HostWithout(S[..k], i, h);
      assert S[..i] + S[i + 1..] == S[..k][..i] + S[..k][i + 1..] + [S[k]];
      HostSnoc(S[..k][..i] + S[..k][i + 1..], S[k], h);
    }
  }

  lemma {:induction false} WithinIsAlike(D: seq<Entry>, S: seq<Entry>)
    requires Within(D, S) && |D| == |S|
    ensures Alike(D, S)
    decreases |D|
  {
    if D != [] {
      hide HostCount;
      var k := |D| - 1;
      assert D[..k] + [D[k]] == D;
      HostSnoc(D[..k], D[k], D[k].host);
      assert HostCount(D, D[k].host) <= HostCount(S, D[k].host);
      var i := OneOfHost(S, D[k].host);
      var S' := S[..i] + S[i + 1..];
      forall h: seq<Label>
        ensures HostCount(D, h) - HostCount(D[..k], h) == HostCount(S, h) - HostCount(S', h)
        ensures HostCount(D[..k], h) <= HostCount(S', h)
      {
        HostSnoc(D[..k], D[k], h);
        HostWithout(S, i, h);
        assert HostCount(D, h) <= HostCount(S, h);
      }
      WithinIsAlike(D[..k], S');
      forall h: seq<Label>
        ensures HostCount(D, h) == HostCount(S, h)
      {
        assert HostCount(D[..k], h) == HostCount(S', h);
      }
    }
  }

  lemma AlikeParts(A: seq<Entry>, B: seq<Entry>, x: Label)
    requires Alike(A, B)
    ensures Alike(Sub(A, x), Sub(B, x)) && |Own(A)| == |Own(B)| && Alike(Rest(A), Rest(B))
  {
    hide HostCount, Sub, Own, Rest;
    forall h: seq<Label>
      ensures HostCount(Sub(A, x), h) == HostCount(Sub(B, x), h) && HostCount(Rest(A), h) == HostCount(Rest(B), h)
    {
      HostParts(A, x, h);
      HostParts(B, x, h);
    }
    HostParts(A, x, []);
    HostParts(B, x, []);
  }

  lemma {:induction false} AlikeSize(A: seq<Entry>, B: seq<Entry>)
    requires Alike(A, B)
    ensures |A| == |B|
    decreases |A| + |B|
  {
    hide HostCount;
    if A != [] {
      var k := |A| - 1;
      assert A[..k] + [A[k]] == A;
      HostSnoc(A[..k], A[k], A[k].host);
      assert HostCount(A, A[k].host) == HostCount(B, A[k].host);
      var i := OneOfHost(B, A[k].host);
      var B' := B[..i] + B[i + 1..];
      forall h: seq<Label>
        ensures HostCount(A[..k], h) == HostCount(B', h)
      {
        HostSnoc(A[..k], A[k], h);
        HostWithout(B, i, h);
        assert HostCount(A, h) == HostCount(B, h);
      }
      AlikeSize(A[..k], B');
    } else if B != [] {
      assert HostCount(A, B[|B| - 1].host) == HostCount(B, B[|B| - 1].host);
      LastCounts(A, B);
    }
  }

  lemma LastCounts(A: seq<Entry>, B: seq<Entry>)
    requires A == [] && B != []
    ensures HostCount(A, B[|B| - 1].host) < HostCount(B, B[|B| - 1].host)
  {
  }

  lemma AlikeComplete(t: Tree, D: seq<Entry>, S: seq<Entry>)
    requires Alike(D, S) && Complete(t, S)
    ensures Complete(t, D)
  {
    hide HostCount;
    forall i | 0 <= i < |D|
      ensures D[i].host != [] && Contains(t, D[i].host[0])
    {
      HostWithout(D, i, D[i].host);
      assert HostCount(D, D[i].host) == HostCount(S, D[i].host);
      var j := OneOfHost(S, D[i].host);
    }
  }

  /** The counters do not depend on the order of the entries, nor on their pages. */
  lemma {:induction false} AlikeCounted(t: Tree, D: seq<Entry>, S: seq<Entry>)
    requires Alike(D, S) && Counted(t, S)
    ensures Counted(t, D)
    decreases t
  {
    hide HostCount, Sub, Own, Rest, Alike, Complete;
    if t.Node? {
      AlikeParts(D, S, t.name);
      AlikeSize(Sub(D, t.name), Sub(S, t.name));
      AlikeParts(Sub(D, t.name), Sub(S, t.name), t.name);
      AlikeComplete(t.child, Rest(Sub(D, t.name)), Rest(Sub(S, t.name)));
      AlikeCounted(t.child, Rest(Sub(D, t.name)), Rest(Sub(S, t.name)));
      AlikeCounted(t.left, D, S);
      AlikeCounted(t.right, D, S);
    }
  }

  /** So the index is as if the entries filled in had been counted. */
  lemma AsFilled(t: Tree, S: seq<Entry>, D: seq<Entry>, buf: seq<Page>)
    requires FillingState(t, S, D, buf) && |D| == |S|
    ensures FillingState(t, D, D, buf)
  {
    hide HostCount, Filled, Counted, Complete, Live, Slots, Alike;
    WithinIsAlike(D, S);
    AlikeCounted(t, D, S);
    AlikeComplete(t, D, S);
  }

  /** The `count` slots from `offset` hold exactly these pages, in whatever order. */
  ghost predicate RangeIs(buf: seq<Page>, offset: nat, count: int, pages: seq<Page>)
  {
    count == |pages| && offset + count <= |buf| && multiset(buf[offset..offset + count]) == multiset(pages)
  }

  /** After all entries are filled in, every domain's range holds its pages and those of its
      subdomains, and a domain has no range exactly if it has no page. */
  lemma SearchIsRight(t: Tree, S: seq<Entry>, buf: seq<Page>, h: seq<Label>)
    requires FillingState(t, S, S, buf) && h != []
    ensures var n := Locate(t, h);
            && (n.Nil? <==> Matching(S, h) == [])
            && (n.Node? ==> RangeIs(buf, n.offset, n.allPageNum, Matching(S, h)))
  {
    hide Laid, Filled, Slots, Live, Complete, Matching, Locate, Occ;
    var n := Locate(t, h);
    LocateHolds(t, 0, S, h, buf, 0);
    if n.Node? {
      LocateLive(t, h);
      var range := buf[n.offset..n.offset + n.allPageNum];
      forall v ensures Occ(range, v) == Occ(Matching(S, h), v) {
        LocateHolds(t, 0, S, h, buf, v);
      }
      SameTimes(range, Matching(S, h));
    }
  }

  /** Every slot is filled, with one page for each entry. */
  lemma AllSlotsFilled(t: Tree, S: seq<Entry>, buf: seq<Page>)
    requires FillingState(t, S, S, buf)
    ensures multiset(buf) == multiset(Pages(S))
  {
    hide Filled, Slots, Live, Complete, Occ, Pages;
    forall v ensures Occ(buf, v) == Occ(Pages(S), v) {
      RangeHolds(t, 0, S, buf, v);
      BagIsAll(t, S, v);
      assert buf[0..0 + Slots(t)] == buf;
    }
    SameTimes(buf, Pages(S));
  }

  class UniversalDomain {
    var root: Tree
    var allPageNum: nat
    var pageBuf: array<Page>
    ghost var counted: seq<Entry>
    ghost var filled: seq<Entry>

    /** During the counting pass. */
    ghost predicate Counting()
      reads this
    {
      Index(root, counted) && Live(root) && allPageNum == |counted|
    }

    /** From the allotting pass on. */
    ghost predicate Filling()
      reads this, pageBuf
    {
      FillingState(root, counted, filled, pageBuf[..]) && allPageNum == |counted|
    }

    constructor ()
      ensures Counting() && counted == []
    {
      root, allPageNum, counted, filled := Nil, 0, [], [];
      pageBuf := new Page[0];
    }

    /** AddDomain_Count */
    method AddDomainCount(host: seq<Label>, page: Page)
      requires Counting() && host != []
      modifies this`root, this`allPageNum, this`counted
      ensures Counting() && counted == old(counted) + [Entry(host, page)]
    {
      CountKeeps(root, counted, Entry(host, page));
      CountLive(root, host);
      root := Count(root, host);
      allPageNum := allPageNum + 1;
      counted := counted + [Entry(host, page)];
    }

    /** AddDomain_Alloc */
    method AddDomainAlloc() returns (ok: bool)
      requires Counting()
      modifies this`root, this`pageBuf, this`filled
      ensures ok <==> counted != []
      ensures ok ==> fresh(pageBuf) && Filling() && filled == []
      ensures !ok ==> Counting()
    {
      hide FillingState, Index, Live, Allot;
      if allPageNum <= 0 {
        return false;
      }
      pageBuf := new Page[allPageNum];
      filled := [];
      AllotReady(root, counted, pageBuf[..]);
      root := Allot(root, 0).0;
      return true;
    }

    /** AddDomain_Add: walk to the node of the domain, and write the page to its next slot. */
    method AddDomainAdd(host: seq<Label>, page: Page) returns (ok: bool)
      requires Filling() && host != []
      requires HasPath(root, host) ==> 0 <= NextSlot(root, host) < pageBuf.Length
      modifies this`root, this`filled, pageBuf
      ensures ok <==> old(HasPath(root, host))
      ensures ok ==> root == old(Bump(root, host))
      ensures ok ==> pageBuf[..] == old(pageBuf[..])[old(NextSlot(root, host)) := page]
      ensures filled == if ok then old(filled) + [Entry(host, page)] else old(filled)
      ensures !ok ==> root == old(root) && pageBuf[..] == old(pageBuf[..])
      ensures Filling() <==> !ok || old(HostCount(filled, host) < HostCount(counted, host))
    {
      hide FillingState, HasPath, Locate, NextSlot, Bump;
      var found := FindNode(host);
      LocateIsPath(root, host);
      if found.Nil? {
        return false;
      }
      ghost var e := Entry(host, page);
      SlotIsOwn(root, counted, filled, pageBuf[..], host);
      if HostCount(filled, host) < HostCount(counted, host) {
        FillReady(root, counted, filled, pageBuf[..], e);
      } else {
        NotWithin(counted, filled, e);
      }
      var i := found.offset + found.bf;
      ghost var buf := pageBuf[..];
      pageBuf[i] := page;
      assert pageBuf[..] == buf[i := page];
      root := Bump(root, host);
      filled := filled + [e];
      return true;
    }

    /** The loop over the labels that AddDomain_Add and SearchDomain share. */
    method FindNode(host: seq<Label>) returns (found: Tree)
      requires host != []
      ensures found == Locate(root, host)
    {
      var at, k := root, 0;
      found := Nil;
      while k < |host|
        invariant k <= |host|
        invariant k < |host| ==> Locate(root, host) == Locate(at, host[k..])
        invariant k == |host| ==> Locate(root, host) == found
      {
        found := Search(at, host[k]);
        assert host[k..][1..] == host[k + 1..];
        if found.Nil? {
          break;
        }
        at := found.child;
        k := k + 1;
      }
    }

    /** SearchDomain: where the domain's pages start and how many there are, or -1. */
    method SearchDomain(host: seq<Label>) returns (offset: nat, count: int)
      requires Filling() && |filled| == |counted| && host != []
      ensures count == -1 <==> Matching(filled, host) == []
      ensures count != -1 ==> RangeIs(pageBuf[..], offset, count, Matching(filled, host))
    {
      hide RangeIs, FillingState, Matching;
      AsFilled(root, counted, filled, pageBuf[..]);
      SearchIsRight(root, filled, pageBuf[..], host);
      var found := FindNode(host);
      if found.Nil? {
        return 0, -1;
      }
      return found.offset, found.allPageNum;
    }
  }

  // ----- whole uses

  /** Before entry k is filled in, fewer entries of its host are than were counted. */
  lemma {:induction false} PrefixCounts(S: seq<Entry>, k: nat)
    requires k < |S|
    ensures HostCount(S[..k], S[k].host) < HostCount(S, S[k].host)
    decreases |S|
  {
    var last := |S| - 1;
    if k < last {
      PrefixCounts(S[..last], k);
      assert S[..last][..k] == S[..k];
    }
  }

  lemma Placed(d: UniversalDomain, e: Entry)
    requires d.Filling() && HostCount(d.filled, e.host) < HostCount(d.counted, e.host)
    ensures HasPath(d.root, e.host) && 0 <= NextSlot(d.root, e.host) < d.pageBuf.Length
  {
    hide FillingState, HostCount;
    FillReady(d.root, d.counted, d.filled, d.pageBuf[..], e);
  }

  /** The three passes over a list of entries: afterwards every domain can be searched for. */
  method Build(entries: seq<Entry>) returns (ok: bool, d: UniversalDomain)
    requires forall k :: 0 <= k < |entries| ==> entries[k].host != []
    ensures fresh(d) && (ok <==> entries != [])
    ensures ok ==> fresh(d.pageBuf) && d.Filling() && d.counted == d.filled == entries
  {
    hide FillingState, HostCount, Index, Live, UniversalDomain.Counting;
    d := new UniversalDomain();
    for k := 0 to |entries|
      invariant d.Counting() && d.counted == entries[..k]
    {
      d.AddDomainCount(entries[k].host, entries[k].page);
    }
    assert entries[..|entries|] == entries;
    ok := d.AddDomainAlloc();
    if !ok {
      return;
    }
    for k := 0 to |entries|
      invariant fresh(d.pageBuf) && d.Filling() && d.counted == entries && d.filled == entries[..k]
    {
      PrefixCounts(entries, k);
      Placed(d, entries[k]);
      var added := d.AddDomainAdd(entries[k].host, entries[k].page);
    }
  }

  /** A page is filled in for domain 1, which was never counted: it is written over that of domain 1.2. */
  method NeverCounted(page: Page, other: Page) returns (ok: bool, d: UniversalDomain)
    requires page != other
    ensures ok && d.counted == [Entry([1, 2], page)] && d.filled == d.counted + [Entry([1], other)]
    ensures d.pageBuf[..] == [other] && !d.Filling()
  {
    hide FillingState, Index, Live, UniversalDomain.Counting, HostCount;
    var e := Entry([1, 2], page);
    ok, d := Build([e]);
    InFirstSlot(d.root, e, d.pageBuf[..]);
    NoneOf(e);
    ok := d.AddDomainAdd([1], other);
  }

  lemma NoneOf(e: Entry)
    requires e.host == [1, 2]
    ensures HostCount([e], [1]) == 0
  {
  }

  lemma InFirstSlot(t: Tree, e: Entry, buf: seq<Page>)
    requires FillingState(t, [e], [e], buf) && e.host == [1, 2]
    ensures |buf| == 1 && HasPath(t, [1]) && NextSlot(t, [1]) == 0
  {
    hide HasPath, NextSlot, Counted, Filled, Allotted, Locate, Matching, HostCount, Slots, Live, Complete, KidsOrdered,
         Ordered, Within;
    PathOf(t, 0, [e], 0);
    UpperPath(t);
    NoneOf(e);
    CountsAt(t, [e], [e], buf, [1]);
    LocateIsPath(t, [1]);
    MatchingOne(e);
    SearchIsRight(t, [e], buf, [1]);
  }

  lemma UpperPath(t: Tree)
    requires HasPath(t, [1, 2])
    ensures HasPath(t, [1])
  {
  }

  lemma MatchingOne(e: Entry)
    requires e.host == [1, 2]
    ensures |Matching([e], [1])| == 1
  {
  }
}
