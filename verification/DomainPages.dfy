/** The domain index built on those trees: counting pages, allotting each domain a range of slots,
    filling the slots, and finding the range of a domain. */
module DomainPages {
  import opened DomainTree

  type Page = int

  /** A page and the labels of its host, from the last to the first. */
  datatype Entry = Entry(host: seq<Label>, page: Page)

  /** The entries whose host begins with x, without that label. */
  function Sub(S: seq<Entry>, x: Label): seq<Entry>
  {
    if S == [] then []
    else
      var e := S[|S| - 1];
      Sub(S[..|S| - 1], x) + if e.host != [] && e.host[0] == x then [Entry(e.host[1..], e.page)] else []
  }

  /** The pages of the domain itself. */
  function Own(S: seq<Entry>): seq<Page>
  {
    if S == [] then []
    else Own(S[..|S| - 1]) + if S[|S| - 1].host == [] then [S[|S| - 1].page] else []
  }

  /** The entries of its subdomains. */
  function Rest(S: seq<Entry>): seq<Entry>
  {
    if S == [] then []
    else Rest(S[..|S| - 1]) + if S[|S| - 1].host != [] then [S[|S| - 1]] else []
  }

  function Pages(S: seq<Entry>): (r: seq<Page>)
    ensures |r| == |S|
  {
    if S == [] then [] else Pages(S[..|S| - 1]) + [S[|S| - 1].page]
  }

  lemma Snoc(S: seq<Entry>, e: Entry, x: Label)
    ensures Sub(S + [e], x) == Sub(S, x) + (if e.host != [] && e.host[0] == x then [Entry(e.host[1..], e.page)] else [])
    ensures Own(S + [e]) == Own(S) + (if e.host == [] then [e.page] else [])
    ensures Rest(S + [e]) == Rest(S) + (if e.host != [] then [e] else [])
    ensures Pages(S + [e]) == Pages(S) + [e.page]
  {
    assert (S + [e])[..|S|] == S;
  }

  lemma {:induction false} OwnAndRest(S: seq<Entry>)
    ensures |Own(S)| + |Rest(S)| == |S|
  {
    if S != [] {
      OwnAndRest(S[..|S| - 1]);
    }
  }

  // ----- what the counters of a tree say

  /** Every entry's first label has a node. */
  ghost predicate Complete(t: Tree, S: seq<Entry>)
  {
    forall i :: 0 <= i < |S| ==> S[i].host != [] && Contains(t, S[i].host[0])
  }

  /** At every node, also of the child trees, the counters are those of the entries S. */
  ghost predicate Counted(t: Tree, S: seq<Entry>)
    decreases t
  {
    t.Node? ==>
      var Sx := Sub(S, t.name);
      && t.pageNum == |Own(Sx)| && t.allPageNum == |Sx|
      && Complete(t.child, Rest(Sx)) && Counted(t.child, Rest(Sx))
      && Counted(t.left, S) && Counted(t.right, S)
  }

  ghost predicate Index(t: Tree, S: seq<Entry>)
  {
    Tidy(t) && Complete(t, S) && Counted(t, S)
  }

  // ----- counting

  /** AddDomain_Count for the labels h: at every level find or make the node, and count. */
  function Count(t: Tree, h: seq<Label>): Tree
    requires Tidy(t)
    decreases |h|, 1, t
  {
    if h == [] then t
    else
      InsertKeeps(t, h[0]);
      Tick(Insert(t, h[0]).0, h)
  }

  /** Count at the node of the first label, and below it for the others. */
  function Tick(t: Tree, h: seq<Label>): Tree
    requires Tidy(t) && h != []
    decreases |h|, 0, t
  {
    if t.Nil? then Nil
    else if h[0] == t.name then
      t.(allPageNum := t.allPageNum + 1, pageNum := t.pageNum + (if |h| == 1 then 1 else 0),
        child := Count(t.child, h[1..]))
    else if h[0] > t.name then t.(right := Tick(t.right, h))
    else t.(left := Tick(t.left, h))
  }

  lemma {:induction false} SubAbsent(t: Tree, S: seq<Entry>, x: Label)
    requires Complete(t, S) && !Contains(t, x)
    ensures Sub(S, x) == []
  {
    if S != [] {
      SubAbsent(t, S[..|S| - 1], x);
    }
  }

  lemma RotationsCounted(t: Tree, S: seq<Entry>)
    requires t.Node?
    ensures t.right.Node? ==> (Counted(LRot(t), S) <==> Counted(t, S))
    ensures t.left.Node? ==> (Counted(RRot(t), S) <==> Counted(t, S))
  {
  }

  lemma RebalanceCounted(t: Tree, grown: int, S: seq<Entry>)
    requires Grown(t, grown) && Counted(t, S)
    ensures Counted(Rebalance(t, grown).0, S)
  {
    hide Sub, Own, Rest, Complete;
    if grown != 0 && t.bf < -1 {
      if t.left.bf > 0 {
        RotationsCounted(t.left, S);
      }
      RotationsCounted(if t.left.bf > 0 then t.(left := LRot(t.left)) else t, S);
    } else if grown != 0 && t.bf > 1 {
      if t.right.bf < 0 {
        RotationsCounted(t.right, S);
      }
      RotationsCounted(if t.right.bf < 0 then t.(right := RRot(t.right)) else t, S);
    }
  }

  /** A node inserted for a label that no entry has starts with counters zero, as it should. */
  lemma {:induction false} InsertCounted(t: Tree, x: Label, S: seq<Entry>)
    requires Tidy(t) && Counted(t, S) && (Contains(t, x) || Sub(S, x) == [])
    ensures Counted(Insert(t, x).0, S)
  {
    if t.Node? && x != t.name {
      if x > t.name {
        BelowMisses(t.left, t.name, x);
        InsertCounted(t.right, x, S);
      } else {
        BelowMisses(t.right, t.name, x);
        InsertCounted(t.left, x, S);
      }
      var (t1, grown) := Half(t, x);
      RebalanceCounted(t1, grown, S);
      hide Rebalance, Insert;
    }
  }

  /** Counting changes no shape. */
  lemma {:induction false} TickShape(t: Tree, h: seq<Label>, y: Label)
    requires Tidy(t) && h != []
    ensures var t' := Tick(t, h);
            && Height(t') == Height(t) && (t.Node? <==> t'.Node?) && (t.Node? ==> t'.bf == t.bf && t'.name == t.name)
            && (Below(t, y) ==> Below(t', y)) && (Above(t, y) ==> Above(t', y)) && Balanced(t') && Ordered(t')
            && forall x :: Contains(t', x) <==> Contains(t, x)
  {
    if t.Node? && h[0] != t.name {
      if h[0] > t.name {
        TickShape(t.right, h, y);
        TickShape(t.right, h, t.name);
      } else {
        TickShape(t.left, h, y);
        TickShape(t.left, h, t.name);
      }
    }
  }

  /** An entry counts only at the node of its first label. */
  lemma {:induction false} CountedElsewhere(t: Tree, S: seq<Entry>, e: Entry)
    requires Counted(t, S) && e.host != [] && !Contains(t, e.host[0])
    ensures Counted(t, S + [e])
  {
    if t.Node? {
      Snoc(S, e, t.name);
      assert Sub(S, t.name) + [] == Sub(S, t.name);
      CountedElsewhere(t.left, S, e);
      CountedElsewhere(t.right, S, e);
    }
  }

  lemma CompleteMore(t: Tree, t': Tree, S: seq<Entry>, e: Entry)
    requires Complete(t, S) && e.host != [] && Contains(t', e.host[0]) && forall x :: Contains(t, x) ==> Contains(t', x)
    ensures Complete(t', S + [e])
  {
  }

  /** Counting an entry keeps the index, with that entry more. */
  lemma {:induction false} CountKeeps(t: Tree, S: seq<Entry>, e: Entry)
    requires Index(t, S) && e.host != []
    ensures Index(Count(t, e.host), S + [e])
    decreases |e.host|, 1, t
  {
    var x := e.host[0];
    var t1 := Insert(t, x).0;
    InsertKeeps(t, x);
    if !Contains(t, x) {
      SubAbsent(t, S, x);
    }
    InsertCounted(t, x, S);
    hide Insert, Tick;
    TickKeeps(t1, S, e);
    TickShape(t1, e.host, x);
    CompleteMore(t, Tick(t1, e.host), S, e);
  }

  lemma {:induction false} TickKeeps(t: Tree, S: seq<Entry>, e: Entry)
    requires Tidy(t) && Counted(t, S) && e.host != [] && Contains(t, e.host[0])
    ensures Kids(Tick(t, e.host)) && Balanced(Tick(t, e.host)) && Ordered(Tick(t, e.host))
    ensures Counted(Tick(t, e.host), S + [e])
    decreases |e.host|, 0, t
  {
    hide Insert, Sub, Own, Rest, Count, Balanced, Ordered, Complete, Counted, Tick, Kids, Contains;
    var h := e.host;
    TickShape(t, h, h[0]);
    Unfold(t, h[0]);
    TickIs(t, h);
    NodeParts(t, S);
    OrderedMisses(t, h[0]);
    Snoc(S, e, t.name);
    if h[0] == t.name {
      CountedElsewhere(t.left, S, e);
      CountedElsewhere(t.right, S, e);
      TickHere(t, S, e);
    } else {
      assert Sub(S, t.name) + [] == Sub(S, t.name);
      if h[0] > t.name {
        CountedElsewhere(t.left, S, e);
        TickKeeps(t.right, S, e);
      } else {
        CountedElsewhere(t.right, S, e);
        TickKeeps(t.left, S, e);
      }
      NodeWhole(Tick(t, h), S + [e]);
    }
  }

  lemma Unfold(t: Tree, x: Label)
    requires Ordered(t) && Contains(t, x)
    ensures t.Node? && (x < t.name ==> Contains(t.left, x)) && (x > t.name ==> Contains(t.right, x))
  {
    OrderedMisses(t, x);
  }

  lemma {:induction false} TickHere(t: Tree, S: seq<Entry>, e: Entry)
    requires Tidy(t) && Counted(t, S) && e.host != [] && t.Node? && e.host[0] == t.name
    requires Counted(t.left, S + [e]) && Counted(t.right, S + [e])
    ensures Kids(Tick(t, e.host)) && Counted(Tick(t, e.host), S + [e])
    decreases |e.host|, 0, t, 0
  {
    var Sx, e1 := Sub(S, t.name), Entry(e.host[1..], e.page);
    TickIs(t, e.host);
    NodeParts(t, S);
    hide Insert, Sub, Own, Rest, Count, Balanced, Ordered, Complete, Counted, Tick, Kids;
    ChildKeeps(t.child, Sx, e1);
    Snoc(S, e, t.name);
    NodeWhole(Tick(t, e.host), S + [e]);
  }

  /** Tick, unfolded once. */
  lemma TickIs(t: Tree, h: seq<Label>)
    requires Tidy(t) && t.Node? && h != []
    ensures Tidy(t.child) && Tidy(t.left) && Tidy(t.right)
    ensures h[0] > t.name ==> Tick(t, h) == t.(right := Tick(t.right, h))
    ensures h[0] < t.name ==> Tick(t, h) == t.(left := Tick(t.left, h))
    ensures h[0] == t.name ==>
      Tick(t, h) == t.(allPageNum := t.allPageNum + 1, pageNum := t.pageNum + (if |h| == 1 then 1 else 0),
        child := Count(t.child, h[1..]))
  {
  }

  lemma NodeParts(t: Tree, S: seq<Entry>)
    requires Tidy(t) && t.Node? && Counted(t, S)
    ensures var Sx := Sub(S, t.name);
            && t.pageNum == |Own(Sx)| && t.allPageNum == |Sx| && Index(t.child, Rest(Sx)) && Kids(t.left) &&
              Kids(t.right)
            && Counted(t.left, S) && Counted(t.right, S)
  {
  }

  lemma NodeWhole(t: Tree, S: seq<Entry>)
    requires t.Node? && Counted(t.left, S) && Counted(t.right, S) && Kids(t.left) && Kids(t.right)
    requires var Sx := Sub(S, t.name);
             t.pageNum == |Own(Sx)| && t.allPageNum == |Sx| && Index(t.child, Rest(Sx))
    ensures Counted(t, S) && Kids(t)
  {
  }

  lemma {:induction false} ChildKeeps(child: Tree, Sx: seq<Entry>, e1: Entry)
    requires Index(child, Rest(Sx))
    ensures Index(Count(child, e1.host), Rest(Sx + [e1]))
    ensures |Own(Sx + [e1])| == |Own(Sx)| + if e1.host == [] then 1 else 0
    decreases |e1.host|, 2, child
  {
    hide Insert, Tidy, Counted, Complete;
    Snoc(Sx, e1, 0);
    if e1.host == [] {
      assert Rest(Sx) + [] == Rest(Sx);
      NoLabels(child);
    } else {
      assert Own(Sx) + [] == Own(Sx);
      CountKeeps(child, Rest(Sx), e1);
    }
  }

  lemma NoLabels(t: Tree)
    requires Tidy(t)
    ensures Count(t, []) == t
  {
  }

  // ----- allotting

  /** The slots that a tree needs. */
  function Slots(t: Tree): nat
  {
    if t.Nil? then 0 else t.allPageNum + Slots(t.left) + Slots(t.right)
  }

  /** _AddDomain_Alloc: own pages first, then the subdomains', then the other domains'.  The
      balance values become fill counts. */
  function Allot(t: Tree, pos: nat): (r: (Tree, nat))
  {
    if t.Nil? then (t, pos)
    else
      var pos1 := if t.pageNum != 0 && t.child != Nil then pos + t.pageNum else pos;
      var pos2 := if t.child == Nil then pos1 + t.pageNum else pos1;
      var (child, pos3) := Allot(t.child, pos2);
      var (left, pos4) := Allot(t.left, pos3);
      var (right, pos5) := Allot(t.right, pos4);
      (t.(bf := 0, offset := pos, child := child, left := left, right := right), pos5)
  }

  /** Every domain has its own slots first and those of its subdomains right behind. */
  predicate Allotted(t: Tree, pos: nat)
  {
    t.Node? ==>
      && t.offset == pos && t.allPageNum == t.pageNum + Slots(t.child)
      && Allotted(t.child, pos + t.pageNum)
      && Allotted(t.left, pos + t.allPageNum)
      && Allotted(t.right, pos + t.allPageNum + Slots(t.left))
  }

  /** The entries at all the nodes of t, node by node. */
  ghost function Total(t: Tree, S: seq<Entry>): nat
  {
    if t.Nil? then 0 else |Sub(S, t.name)| + Total(t.left, S) + Total(t.right, S)
  }

  lemma {:induction false} TotalSnoc(t: Tree, S: seq<Entry>, e: Entry)
    requires Ordered(t) && e.host != []
    ensures Total(t, S + [e]) == Total(t, S) + if Contains(t, e.host[0]) then 1 else 0
  {
    if t.Node? {
      Snoc(S, e, t.name);
      TotalSnoc(t.left, S, e);
      TotalSnoc(t.right, S, e);
      if e.host[0] <= t.name {
        BelowMisses(t.right, t.name, e.host[0]);
      }
      if e.host[0] >= t.name {
        BelowMisses(t.left, t.name, e.host[0]);
      }
    }
  }

  lemma {:induction false} TotalNothing(t: Tree)
    ensures Total(t, []) == 0
  {
    if t.Node? {
      TotalNothing(t.left);
      TotalNothing(t.right);
    }
  }

  /** Labels are different, so every entry is at one node. */
  lemma {:induction false} TotalIsAll(t: Tree, S: seq<Entry>)
    requires Ordered(t) && Complete(t, S)
    ensures Total(t, S) == |S|
  {
    if S == [] {
      TotalNothing(t);
    } else {
      var k := |S| - 1;
      TotalIsAll(t, S[..k]);
      TotalSnoc(t, S[..k], S[k]);
      assert S[..k] + [S[k]] == S;
    }
  }

  lemma {:induction false} SlotsAreTotal(t: Tree, S: seq<Entry>)
    requires Counted(t, S)
    ensures Slots(t) == Total(t, S)
  {
    if t.Node? {
      SlotsAreTotal(t.left, S);
      SlotsAreTotal(t.right, S);
    }
  }

  /** Child trees, and theirs, are ordered. */
  ghost predicate KidsOrdered(t: Tree)
  {
    t.Node? ==> Ordered(t.child) && KidsOrdered(t.child) && KidsOrdered(t.left) && KidsOrdered(t.right)
  }

  lemma {:induction false} KidsAreOrdered(t: Tree)
    requires Kids(t)
    ensures KidsOrdered(t)
  {
    if t.Node? {
      KidsAreOrdered(t.child);
      KidsAreOrdered(t.left);
      KidsAreOrdered(t.right);
    }
  }

  /** An index that need not be balanced any more. */
  ghost predicate Sorted(t: Tree, S: seq<Entry>)
  {
    Ordered(t) && KidsOrdered(t) && Complete(t, S) && Counted(t, S)
  }

  lemma {:induction false} AllotShape(t: Tree, pos: nat, y: Label)
    ensures var t' := Allot(t, pos).0;
            && (t.Node? <==> t'.Node?) && Slots(t') == Slots(t) && (Below(t, y) ==> Below(t', y)) &&
              (Above(t, y) ==> Above(t', y))
            && (Ordered(t) ==> Ordered(t')) && forall x :: Contains(t', x) <==> Contains(t, x)
  {
    if t.Node? {
      var pos2 := pos + t.pageNum;
      var (child, pos3) := Allot(t.child, pos2);
      var (left, pos4) := Allot(t.left, pos3);
      AllotShape(t.left, pos3, y);
      AllotShape(t.left, pos3, t.name);
      AllotShape(t.right, pos4, y);
      AllotShape(t.right, pos4, t.name);
    }
  }

  /** What holds at a node, unfolded once. */
  lemma SortedParts(t: Tree, S: seq<Entry>)
    requires t.Node? && Ordered(t) && KidsOrdered(t) && Counted(t, S)
    ensures var Sx := Sub(S, t.name);
            && t.pageNum == |Own(Sx)| && t.allPageNum == |Sx|
            && Ordered(t.child) && KidsOrdered(t.child) && Complete(t.child, Rest(Sx)) && Counted(t.child, Rest(Sx))
            && Ordered(t.left) && KidsOrdered(t.left) && Counted(t.left, S)
            && Ordered(t.right) && KidsOrdered(t.right) && Counted(t.right, S)
            && Slots(t) == t.allPageNum + Slots(t.left) + Slots(t.right)
  {
  }

  ghost predicate AllotDone(t: Tree, pos: nat, S: seq<Entry>)
  {
    Allotted(t, pos) && KidsOrdered(t) && Counted(t, S) && Empty(t)
  }

  lemma AllotWhole(t: Tree, pos: nat, S: seq<Entry>)
    requires t.Node? && t.offset == pos && t.bf == 0
    requires var Sx := Sub(S, t.name);
             && t.pageNum == |Own(Sx)| && t.allPageNum == |Sx| == t.pageNum + Slots(t.child)
             && Ordered(t.child) && Complete(t.child, Rest(Sx)) && AllotDone(t.child, pos + t.pageNum, Rest(Sx))
             && AllotDone(t.left, pos + t.allPageNum, S) && AllotDone(t.right, pos + t.allPageNum + Slots(t.left), S)
    ensures AllotDone(t, pos, S)
  {
  }

  /** The allotting pass gives every domain its range and uses as many slots as there are entries. */
  lemma {:induction false} AllotKeeps(t: Tree, pos: nat, S: seq<Entry>)
    requires Ordered(t) && KidsOrdered(t) && Counted(t, S)
    ensures AllotDone(Allot(t, pos).0, pos, S) && Allot(t, pos).1 == pos + Slots(t)
    ensures Slots(Allot(t, pos).0) == Slots(t)
    decreases t, 1
  {
    if t.Node? {
      AllotNode(t, pos, S);
    }
  }

  lemma {:induction false} AllotNode(t: Tree, pos: nat, S: seq<Entry>)
    requires t.Node? && Ordered(t) && KidsOrdered(t) && Counted(t, S)
    ensures AllotDone(Allot(t, pos).0, pos, S) && Allot(t, pos).1 == pos + Slots(t)
    ensures Slots(Allot(t, pos).0) == Slots(t)
    decreases t, 0
  {
    hide Below, Above, Balanced, Ordered, Allot, Sub, Own, Rest, Complete, Counted, KidsOrdered, AllotDone, Slots,
         Contains;
    var Sx := Sub(S, t.name);
    SortedParts(t, S);
    var (child, pos3) := Allot(t.child, pos + t.pageNum);
    var (left, pos4) := Allot(t.left, pos3);
    var (right, pos5) := Allot(t.right, pos4);
    AllotKeeps(t.child, pos + t.pageNum, Rest(Sx));
    AllotKeeps(t.left, pos3, S);
    AllotKeeps(t.right, pos4, S);
    AllotShape(t, pos, 0);
    AllotIs(t, pos);
    ChildAllotted(t.child, pos + t.pageNum, Sx);
    AllotWhole(Allot(t, pos).0, pos, S);
  }

  lemma AllotIs(t: Tree, pos: nat)
    requires t.Node?
    ensures var (child, pos3) := Allot(t.child, pos + t.pageNum);
            var (left, pos4) := Allot(t.left, pos3);
            var (right, pos5) := Allot(t.right, pos4);
            Allot(t, pos) == (t.(bf := 0, offset := pos, child := child, left := left, right := right), pos5)
  {
  }

  lemma ChildAllotted(child: Tree, pos: nat, Sx: seq<Entry>)
    requires Ordered(child) && Complete(child, Rest(Sx)) && Counted(child, Rest(Sx))
    ensures Ordered(Allot(child, pos).0) && Complete(Allot(child, pos).0, Rest(Sx)) && |Sx| == |Own(Sx)| + Slots(child)
    ensures Slots(Allot(child, pos).0) == Slots(child)
  {
    AllotShape(child, pos, 0);
    OwnAndRest(Sx);
    TotalIsAll(child, Rest(Sx));
    SlotsAreTotal(child, Rest(Sx));
  }

  /** All fill counts are zero. */
  predicate Empty(t: Tree)
  {
    t.Node? ==> t.bf == 0 && Empty(t.child) && Empty(t.left) && Empty(t.right)
  }

  // ----- filling

  /** The labels lead to a node. */
  ghost predicate HasPath(t: Tree, h: seq<Label>)
    decreases |h|
  {
    h != [] && Search(t, h[0]).Node? && (|h| > 1 ==> HasPath(Search(t, h[0]).child, h[1..]))
  }

  /** The slot for the next page of the domain with labels h. */
  function NextSlot(t: Tree, h: seq<Label>): int
    requires HasPath(t, h)
    decreases |h|
  {
    var n := Search(t, h[0]);
    if |h| == 1 then n.offset + n.bf else NextSlot(n.child, h[1..])
  }

  /** The tree with the fill count of that domain one higher. */
  function Bump(t: Tree, h: seq<Label>): Tree
    requires HasPath(t, h)
    decreases |h|, t
  {
    if h[0] == t.name then
      if |h| == 1 then t.(bf := t.bf + 1) else t.(child := Bump(t.child, h[1..]))
    else if h[0] > t.name then t.(right := Bump(t.right, h))
    else t.(left := Bump(t.left, h))
  }

  /** The first slots of a domain's own range hold its pages. */
  ghost predicate OwnFilled(t: Tree, Dx: seq<Entry>, buf: seq<Page>)
    requires t.Node?
  {
    t.bf == |Own(Dx)| <= t.pageNum && t.offset + t.bf <= |buf| && buf[t.offset..t.offset + t.bf] == Own(Dx)
  }

  /** The fill counts and the slots filled are those of the entries D. */
  ghost predicate Filled(t: Tree, D: seq<Entry>, buf: seq<Page>)
    decreases t
  {
    t.Node? ==>
      var Dx := Sub(D, t.name);
      OwnFilled(t, Dx, buf) && Filled(t.child, Rest(Dx), buf) && Filled(t.left, D, buf) && Filled(t.right, D, buf)
  }

  lemma {:induction false} NothingFilled(t: Tree, buf: seq<Page>, pos: nat)
    requires Empty(t) && Allotted(t, pos) && pos + Slots(t) <= |buf|
    ensures Filled(t, [], buf)
  {
    if t.Node? {
      NothingFilled(t.child, buf, pos + t.pageNum);
      NothingFilled(t.left, buf, pos + t.allPageNum);
      NothingFilled(t.right, buf, pos + t.allPageNum + Slots(t.left));
    }
  }

  lemma OwnFrame(t: Tree, pos: nat, Dx: seq<Entry>, buf: seq<Page>, i: nat, v: Page)
    requires t.Node? && t.offset == pos && OwnFilled(t, Dx, buf) && i < |buf| && !(pos <= i < pos + t.pageNum)
    ensures OwnFilled(t, Dx, buf[i := v])
  {
  }

  /** A slot outside a tree's range does not matter to it. */
  lemma {:induction false} FilledFrame(t: Tree, pos: nat, D: seq<Entry>, buf: seq<Page>, i: nat, v: Page)
    requires Allotted(t, pos) && Filled(t, D, buf) && i < |buf| && !(pos <= i < pos + Slots(t))
    ensures Filled(t, D, buf[i := v])
  {
    hide OwnFilled, Sub, Own, Rest;
    if t.Node? {
      OwnFrame(t, pos, Sub(D, t.name), buf, i, v);
      FilledFrame(t.child, pos + t.pageNum, Rest(Sub(D, t.name)), buf, i, v);
      FilledFrame(t.left, pos + t.allPageNum, D, buf, i, v);
      FilledFrame(t.right, pos + t.allPageNum + Slots(t.left), D, buf, i, v);
    }
  }

  lemma {:induction false} FilledElsewhere(t: Tree, D: seq<Entry>, buf: seq<Page>, e: Entry)
    requires Filled(t, D, buf) && e.host != [] && !Contains(t, e.host[0])
    ensures Filled(t, D + [e], buf)
  {
    if t.Node? {
      Snoc(D, e, t.name);
      assert Sub(D, t.name) + [] == Sub(D, t.name);
      FilledElsewhere(t.left, D, buf, e);
      FilledElsewhere(t.right, D, buf, e);
    }
  }

  /** How many of the entries are of host h. */
  function HostCount(S: seq<Entry>, h: seq<Label>): nat
  {
    if S == [] then 0 else HostCount(S[..|S| - 1], h) + if S[|S| - 1].host == h then 1 else 0
  }

  /** No host has more entries in A than in B. */
  ghost predicate Within(A: seq<Entry>, B: seq<Entry>)
  {
    forall h: seq<Label> :: HostCount(A, h) <= HostCount(B, h)
  }

  lemma HostSnoc(S: seq<Entry>, e: Entry, h: seq<Label>)
    ensures HostCount(S + [e], h) == HostCount(S, h) + if e.host == h then 1 else 0
  {
    assert (S + [e])[..|S|] == S;
  }

  lemma {:induction false} HostSub(S: seq<Entry>, x: Label, h: seq<Label>)
    ensures HostCount(Sub(S, x), h) == HostCount(S, [x] + h)
  {
    if S != [] {
      hide Own, Rest, Sub;
      var k := |S| - 1;
      var e := S[k];
      HostSub(S[..k], x, h);
      assert S[..k] + [e] == S;
      Snoc(S[..k], e, x);
      if e.host != [] {
        assert e.host == [e.host[0]] + e.host[1..];
        assert e.host == [x] + h <==> e.host[0] == x && e.host[1..] == h;
        HostSnoc(Sub(S[..k], x), Entry(e.host[1..], e.page), h);
      }
      assert Sub(S[..k], x) + [] == Sub(S[..k], x);
    } else {
      assert Sub(S, x) == [];
    }
  }

  lemma {:induction false} HostRest(S: seq<Entry>, h: seq<Label>)
    ensures HostCount(Rest(S), h) == if h == [] then 0 else HostCount(S, h)
    ensures |Own(S)| == HostCount(S, [])
  {
    if S != [] {
      hide Own, Rest, Sub;
      var k := |S| - 1;
      var e := S[k];
      HostRest(S[..k], h);
      assert S[..k] + [e] == S;
      Snoc(S[..k], e, 0);
      if e.host != [] {
        HostSnoc(Rest(S[..k]), e, h);
      }
      assert Rest(S[..k]) + [] == Rest(S[..k]) && Own(S[..k]) + [] == Own(S[..k]);
    }
  }

  lemma HostParts(S: seq<Entry>, x: Label, h: seq<Label>)
    ensures HostCount(Sub(S, x), h) == HostCount(S, [x] + h)
    ensures HostCount(Rest(S), h) == if h == [] then 0 else HostCount(S, h)
    ensures |Own(S)| == HostCount(S, [])
  {
    hide HostCount, Sub, Own, Rest;
    HostSub(S, x, h);
    HostRest(S, h);
  }

  lemma WithinParts(A: seq<Entry>, B: seq<Entry>, x: Label)
    requires Within(A, B)
    ensures Within(Sub(A, x), Sub(B, x)) && |Own(A)| <= |Own(B)| && Within(Rest(A), Rest(B))
  {
    hide HostCount, Sub, Own, Rest;
    forall h: seq<Label>
      ensures HostCount(Sub(A, x), h) <= HostCount(Sub(B, x), h) && HostCount(Rest(A), h) <= HostCount(Rest(B), h)
    {
      HostParts(A, x, h);
      HostParts(B, x, h);
    }
    HostParts(A, x, []);
    HostParts(B, x, []);
  }

  /** A page goes to the slot after the domain's pages so far, inside the domain's own range. */
  lemma OwnStep(t: Tree, Dx: seq<Entry>, e1: Entry, buf: seq<Page>)
    requires t.Node? && OwnFilled(t, Dx, buf) && e1.host == [] && t.bf < t.pageNum && t.offset + t.bf < |buf|
    ensures OwnFilled(t.(bf := t.bf + 1), Dx + [e1], buf[t.offset + t.bf := e1.page])
  {
    Snoc(Dx, e1, 0);
    var i := t.offset + t.bf;
    var buf' := buf[i := e1.page];
    assert buf'[t.offset..i + 1] == buf[t.offset..i] + [e1.page];
  }

  /** What the filling pass keeps. */
  ghost predicate Laid(t: Tree, pos: nat, S: seq<Entry>)
  {
    Ordered(t) && KidsOrdered(t) && Counted(t, S) && Allotted(t, pos)
  }

  lemma LaidParts(t: Tree, pos: nat, S: seq<Entry>)
    requires t.Node? && Laid(t, pos, S)
    ensures var Sx := Sub(S, t.name);
            && t.pageNum == |Own(Sx)| && t.offset == pos && t.allPageNum == t.pageNum + Slots(t.child)
            && Slots(t) == t.allPageNum + Slots(t.left) + Slots(t.right) && Ordered(t) && t.allPageNum == |Sx|
            && Laid(t.child, pos + t.pageNum, Rest(Sx)) && Complete(t.child, Rest(Sx))
            && Laid(t.left, pos + t.allPageNum, S) && Laid(t.right, pos + t.allPageNum + Slots(t.left), S)
  {
  }

  lemma {:induction false} BumpShape(t: Tree, h: seq<Label>, y: Label)
    requires HasPath(t, h)
    ensures var t' := Bump(t, h);
            && t'.Node? && Slots(t') == Slots(t) && (Below(t, y) ==> Below(t', y)) && (Above(t, y) ==> Above(t', y))
            && (Ordered(t) ==> Ordered(t')) && forall x :: Contains(t', x) <==> Contains(t, x)
    decreases t
  {
    if h[0] > t.name {
      BumpShape(t.right, h, y);
      BumpShape(t.right, h, t.name);
    } else if h[0] < t.name {
      BumpShape(t.left, h, y);
      BumpShape(t.left, h, t.name);
    }
  }

  lemma LaidWhole(t: Tree, pos: nat, S: seq<Entry>)
    requires t.Node? && Ordered(t) && t.offset == pos && t.allPageNum == t.pageNum + Slots(t.child)
    requires var Sx := Sub(S, t.name);
             && t.pageNum == |Own(Sx)| && t.allPageNum == |Sx| && Laid(t.child, pos + t.pageNum, Rest(Sx)) &&
               Complete(t.child, Rest(Sx))
             && Laid(t.left, pos + t.allPageNum, S) && Laid(t.right, pos + t.allPageNum + Slots(t.left), S)
    ensures Laid(t, pos, S)
  {
  }

  /** Bump and NextSlot, unfolded once. */
  lemma BumpIs(t: Tree, h: seq<Label>)
    requires HasPath(t, h)
    ensures t.Node? && h != []
    ensures h[0] > t.name ==>
      HasPath(t.right, h) && Bump(t, h) == t.(right := Bump(t.right, h)) && NextSlot(t, h) == NextSlot(t.right, h)
    ensures h[0] < t.name ==>
      HasPath(t.left, h) && Bump(t, h) == t.(left := Bump(t.left, h)) && NextSlot(t, h) == NextSlot(t.left, h)
    ensures h[0] == t.name && |h| == 1 ==> Bump(t, h) == t.(bf := t.bf + 1) && NextSlot(t, h) == t.offset + t.bf
    ensures h[0] == t.name && |h| > 1 ==>
      HasPath(t.child, h[1..]) && Bump(t, h) == t.(child := Bump(t.child, h[1..])) &&
        NextSlot(t, h) == NextSlot(t.child, h[1..])
  {
  }

  lemma {:induction false} BumpKeeps(t: Tree, pos: nat, S: seq<Entry>, h: seq<Label>)
    requires HasPath(t, h) && Laid(t, pos, S)
    ensures Laid(Bump(t, h), pos, S) && Slots(Bump(t, h)) == Slots(t)
    decreases t
  {
    hide Laid, Bump, HasPath, Search, Sub, Own, Rest, Below, Above, Contains, Slots;
    BumpIs(t, h);
    BumpShape(t, h, 0);
    LaidParts(t, pos, S);
    if h[0] == t.name {
      if |h| > 1 {
        BumpKeeps(t.child, pos + t.pageNum, Rest(Sub(S, t.name)), h[1..]);
        BumpShape(t.child, h[1..], 0);
      }
    } else if h[0] > t.name {
      BumpKeeps(t.right, pos + t.allPageNum + Slots(t.left), S, h);
    } else {
      BumpKeeps(t.left, pos + t.allPageNum, S, h);
    }
    LaidWhole(Bump(t, h), pos, S);
  }

  /** The state in which one entry is filled after D: its host was counted once more at least. */
  ghost predicate Ready(t: Tree, pos: nat, S: seq<Entry>, D: seq<Entry>, e: Entry, buf: seq<Page>)
  {
    Laid(t, pos, S) && pos + Slots(t) <= |buf| && Filled(t, D, buf) && Within(D + [e], S) && HasPath(t, e.host)
  }

  ghost predicate FilledOne(t: Tree, pos: nat, D: seq<Entry>, e: Entry, buf: seq<Page>)
    requires HasPath(t, e.host)
  {
    var i := NextSlot(t, e.host);
    pos <= i < pos + Slots(t) && i < |buf| && Filled(Bump(t, e.host), D + [e], buf[i := e.page])
  }

  lemma {:induction false} FillStep(t: Tree, pos: nat, S: seq<Entry>, D: seq<Entry>, e: Entry, buf: seq<Page>)
    requires Ready(t, pos, S, D, e, buf)
    ensures FilledOne(t, pos, D, e, buf)
    decreases t, 1
  {
    if e.host[0] == t.name {
      FillHere(t, pos, S, D, e, buf);
    } else if e.host[0] > t.name {
      FillRight(t, pos, S, D, e, buf);
    } else {
      FillLeft(t, pos, S, D, e, buf);
    }
  }

  lemma FilledParts(t: Tree, D: seq<Entry>, buf: seq<Page>)
    requires t.Node? && Filled(t, D, buf)
    ensures var Dx := Sub(D, t.name);
            OwnFilled(t, Dx, buf) && Filled(t.child, Rest(Dx), buf) && Filled(t.left, D, buf) && Filled(t.right, D, buf)
  {
  }

  lemma FilledWhole(t: Tree, D: seq<Entry>, buf: seq<Page>)
    requires t.Node?
    requires var Dx := Sub(D, t.name);
             OwnFilled(t, Dx, buf) && Filled(t.child, Rest(Dx), buf) && Filled(t.left, D, buf) &&
               Filled(t.right, D, buf)
    ensures Filled(t, D, buf)
  {
  }

  lemma {:induction false} FillRight(t: Tree, pos: nat, S: seq<Entry>, D: seq<Entry>, e: Entry, buf: seq<Page>)
    requires Ready(t, pos, S, D, e, buf) && e.host[0] > t.name
    ensures FilledOne(t, pos, D, e, buf)
    decreases t, 0
  {
    hide Laid, Filled, Bump, NextSlot, HasPath, Search, OwnFilled, Sub, Own, Rest, Ordered, Below, Above, Contains,
         Slots, Complete, Within;
    BumpIs(t, e.host);
    LaidParts(t, pos, S);
    FilledParts(t, D, buf);
    OrderedMisses(t, e.host[0]);
    FillStep(t.right, pos + t.allPageNum + Slots(t.left), S, D, e, buf);
    var i := NextSlot(t, e.host);
    Snoc(D, e, t.name);
    assert Sub(D, t.name) + [] == Sub(D, t.name);
    OwnFrame(t, pos, Sub(D, t.name), buf, i, e.page);
    LaidFrame(t.child, pos + t.pageNum, Rest(Sub(S, t.name)), Rest(Sub(D, t.name)), buf, i, e.page);
    LaidFrame(t.left, pos + t.allPageNum, S, D, buf, i, e.page);
    FilledElsewhere(t.left, D, buf[i := e.page], e);
    OwnSame(t, Bump(t, e.host), Sub(D, t.name), buf[i := e.page]);
    FilledWhole(Bump(t, e.host), D + [e], buf[i := e.page]);
  }

  lemma {:induction false} FillLeft(t: Tree, pos: nat, S: seq<Entry>, D: seq<Entry>, e: Entry, buf: seq<Page>)
    requires Ready(t, pos, S, D, e, buf) && e.host[0] < t.name
    ensures FilledOne(t, pos, D, e, buf)
    decreases t, 0
  {
    hide Laid, Filled, Bump, NextSlot, HasPath, Search, OwnFilled, Sub, Own, Rest, Ordered, Below, Above, Contains,
         Slots, Complete, Within;
    BumpIs(t, e.host);
    LaidParts(t, pos, S);
    FilledParts(t, D, buf);
    OrderedMisses(t, e.host[0]);
    FillStep(t.left, pos + t.allPageNum, S, D, e, buf);
    var i := NextSlot(t, e.host);
    Snoc(D, e, t.name);
    assert Sub(D, t.name) + [] == Sub(D, t.name);
    OwnFrame(t, pos, Sub(D, t.name), buf, i, e.page);
    LaidFrame(t.child, pos + t.pageNum, Rest(Sub(S, t.name)), Rest(Sub(D, t.name)), buf, i, e.page);
    LaidFrame(t.right, pos + t.allPageNum + Slots(t.left), S, D, buf, i, e.page);
    FilledElsewhere(t.right, D, buf[i := e.page], e);
    OwnSame(t, Bump(t, e.host), Sub(D, t.name), buf[i := e.page]);
    FilledWhole(Bump(t, e.host), D + [e], buf[i := e.page]);
  }

  lemma LaidFrame(t: Tree, pos: nat, S: seq<Entry>, D: seq<Entry>, buf: seq<Page>, i: nat, v: Page)
    requires Laid(t, pos, S) && Filled(t, D, buf) && i < |buf| && !(pos <= i < pos + Slots(t))
    ensures Filled(t, D, buf[i := v])
  {
    FilledFrame(t, pos, D, buf, i, v);
  }

  lemma OwnSame(t: Tree, t': Tree, Dx: seq<Entry>, buf: seq<Page>)
    requires t.Node? && t'.Node? && OwnFilled(t, Dx, buf) && t'.bf == t.bf && t'.offset == t.offset
    requires t'.pageNum == t.pageNum
    ensures OwnFilled(t', Dx, buf)
  {
  }

  lemma {:induction false} FillHere(t: Tree, pos: nat, S: seq<Entry>, D: seq<Entry>, e: Entry, buf: seq<Page>)
    requires Ready(t, pos, S, D, e, buf) && e.host[0] == t.name
    ensures FilledOne(t, pos, D, e, buf)
    decreases t, 0, 1
  {
    hide Laid, Filled, Bump, NextSlot, HasPath, Search, OwnFilled, Sub, Own, Rest, Ordered, Below, Above, Contains,
         Slots, Complete, Within;
    BumpIs(t, e.host);
    LaidParts(t, pos, S);
    FilledParts(t, D, buf);
    OrderedMisses(t, e.host[0]);
    var e1 := Entry(e.host[1..], e.page);
    Snoc(D, e, t.name);
    WithinParts(D + [e], S, t.name);
    FillDomain(t, pos, S, Sub(S, t.name), Sub(D, t.name), D, e, e1, buf);
    var i := NextSlot(t, e.host);
    LaidFrame(t.left, pos + t.allPageNum, S, D, buf, i, e.page);
    FilledElsewhere(t.left, D, buf[i := e.page], e);
    LaidFrame(t.right, pos + t.allPageNum + Slots(t.left), S, D, buf, i, e.page);
    FilledElsewhere(t.right, D, buf[i := e.page], e);
    FilledWhole(Bump(t, e.host), D + [e], buf[i := e.page]);
  }

  /** The entry goes to the domain of t itself or to one below it. */
  lemma {:induction false} FillDomain(t: Tree, pos: nat, S: seq<Entry>, Sx: seq<Entry>, Dx: seq<Entry>,
                      D: seq<Entry>, e: Entry, e1: Entry, buf: seq<Page>)
    requires t.Node? && Laid(t, pos, S) && Filled(t, D, buf) && pos + Slots(t) <= |buf| && HasPath(t, e.host)
    requires e.host != [] && e.host[0] == t.name
    requires Sx == Sub(S, t.name) && Dx == Sub(D, t.name) && Within(Dx + [e1], Sx) && e1 == Entry(e.host[1..], e.page)
    ensures var i, t' := NextSlot(t, e.host), Bump(t, e.host);
            && pos <= i < pos + t.allPageNum <= |buf|
            && t' == t.(child := t'.child, bf := t'.bf) && OwnFilled(t', Dx + [e1], buf[i := e.page]) &&
              Filled(t'.child, Rest(Dx + [e1]), buf[i := e.page])
    decreases t, 0, 0
  {
    hide Laid, Filled, Bump, NextSlot, HasPath, Search, OwnFilled, Sub, Own, Rest, Ordered, Below, Above, Contains,
         Slots, Complete, Within;
    BumpIs(t, e.host);
    LaidParts(t, pos, S);
    FilledParts(t, D, buf);
    Snoc(Dx, e1, 0);
    WithinParts(Dx + [e1], Sx, 0);
    var i := NextSlot(t, e.host);
    if |e.host| == 1 {
      OwnRoom(t, Sx, Dx, e1, buf);
      OwnStep(t, Dx, e1, buf);
      assert Rest(Dx) + [] == Rest(Dx);
      LaidFrame(t.child, pos + t.pageNum, Rest(Sx), Rest(Dx), buf, i, e.page);
    } else {
      FillStep(t.child, pos + t.pageNum, Rest(Sx), Rest(Dx), e1, buf);
      OwnFrame(t, pos, Dx, buf, i, e.page);
      OwnSame(t, t.(child := Bump(t.child, e1.host)), Dx, buf[i := e.page]);
      assert Own(Dx) + [] == Own(Dx);
      OwnOnly(t.(child := Bump(t.child, e1.host)), Dx, Dx + [e1], buf[i := e.page]);
    }
  }

  lemma OrderedMisses(t: Tree, x: Label)
    requires t.Node? && Ordered(t)
    ensures x >= t.name ==> !Contains(t.left, x)
    ensures x <= t.name ==> !Contains(t.right, x)
  {
    if x >= t.name {
      BelowMisses(t.left, t.name, x);
    }
    if x <= t.name {
      BelowMisses(t.right, t.name, x);
    }
  }

  /** There is room for another page of the domain, for it was counted. */
  lemma OwnRoom(t: Tree, Sx: seq<Entry>, Dx: seq<Entry>, e1: Entry, buf: seq<Page>)
    requires t.Node? && OwnFilled(t, Dx, buf) && e1.host == []
    requires t.pageNum == |Own(Sx)| && |Own(Dx + [e1])| <= |Own(Sx)|
    ensures t.bf < t.pageNum
  {
    Snoc(Dx, e1, 0);
  }

  lemma OwnOnly(t: Tree, Dx: seq<Entry>, Dx': seq<Entry>, buf: seq<Page>)
    requires t.Node? && OwnFilled(t, Dx, buf) && Own(Dx') == Own(Dx)
    ensures OwnFilled(t, Dx', buf)
  {
  }

  // ----- finding

  /** SearchDomain's walk along the labels. */
  function Locate(t: Tree, h: seq<Label>): Tree
    requires h != []
    decreases |h|
  {
    var n := Search(t, h[0]);
    if n.Nil? || |h| == 1 then n else Locate(n.child, h[1..])
  }

  lemma {:induction false} LocateIsPath(t: Tree, h: seq<Label>)
    requires h != []
    ensures Locate(t, h).Node? <==> HasPath(t, h)
    ensures HasPath(t, h) ==> NextSlot(t, h) == Locate(t, h).offset + Locate(t, h).bf
    decreases |h|
  {
    var n := Search(t, h[0]);
    if n.Node? && |h| > 1 {
      LocateIsPath(n.child, h[1..]);
    }
  }

  /** The pages of the entries at or below domain h, in order. */
  function Matching(S: seq<Entry>, h: seq<Label>): seq<Page>
  {
    if S == [] then []
    else Matching(S[..|S| - 1], h) + if h <= S[|S| - 1].host then [S[|S| - 1].page] else []
  }

  lemma {:induction false} MatchingSub(S: seq<Entry>, h: seq<Label>)
    requires h != []
    ensures Matching(S, h) == Matching(Sub(S, h[0]), h[1..])
  {
    if S != [] {
      var k := |S| - 1;
      var e := S[k];
      MatchingSub(S[..k], h);
      if e.host != [] && e.host[0] == h[0] {
        var T, e1 := Sub(S[..k], h[0]), Entry(e.host[1..], e.page);
        assert (T + [e1])[..|T|] == T;
        assert h <= e.host <==> h[1..] <= e1.host by {
          assert h == [h[0]] + h[1..] && e.host == [h[0]] + e1.host;
        }
      } else {
        assert Sub(S, h[0]) == Sub(S[..k], h[0]);
      }
    }
  }

  lemma {:induction false} MatchingRest(S: seq<Entry>, h: seq<Label>)
    ensures h != [] ==> Matching(S, h) == Matching(Rest(S), h)
    ensures h == [] ==> Matching(S, h) == Pages(S)
  {
    if S != [] {
      var k := |S| - 1;
      MatchingRest(S[..k], h);
      var T := Rest(S[..k]);
      assert (T + [S[k]])[..|T|] == T;
      assert T + [] == T;
    }
  }

  /** How often v occurs in s. */
  ghost function Occ(s: seq<Page>, v: Page): nat
  {
    multiset(s)[v]
  }

  lemma OccPlus(a: seq<Page>, b: seq<Page>, v: Page)
    ensures Occ(a + b, v) == Occ(a, v) + Occ(b, v) && Occ([], v) == 0
  {
  }

  /** How often v occurs at the nodes of t. */
  ghost function Bag(t: Tree, S: seq<Entry>, v: Page): nat
  {
    if t.Nil? then 0 else Occ(Pages(Sub(S, t.name)), v) + Bag(t.left, S, v) + Bag(t.right, S, v)
  }

  lemma NodeSnoc(S: seq<Entry>, e: Entry, x: Label, v: Page)
    ensures Occ(Pages(Sub(S + [e], x)), v) == Occ(Pages(Sub(S, x)), v) + if e.host != [] && e.host[0] == x
      then Occ([e.page], v) else 0
  {
    hide Occ, Sub, Pages;
    Snoc(S, e, x);
    if e.host != [] && e.host[0] == x {
      Snoc(Sub(S, x), Entry(e.host[1..], e.page), 0);
      OccPlus(Pages(Sub(S, x)), [e.page], v);
    } else {
      assert Sub(S, x) + [] == Sub(S, x);
    }
  }

  lemma {:induction false} BagSnoc(t: Tree, S: seq<Entry>, e: Entry, v: Page)
    requires Ordered(t) && e.host != []
    ensures Bag(t, S + [e], v) == Bag(t, S, v) + if Contains(t, e.host[0]) then Occ([e.page], v) else 0
  {
    hide Occ, Sub, Pages;
    if t.Node? {
      NodeSnoc(S, e, t.name, v);
      BagSnoc(t.left, S, e, v);
      BagSnoc(t.right, S, e, v);
      OrderedMisses(t, e.host[0]);
    }
  }

  lemma {:induction false} BagNothing(t: Tree, v: Page)
    ensures Bag(t, [], v) == 0
  {
    if t.Node? {
      BagNothing(t.left, v);
      BagNothing(t.right, v);
    }
  }

  lemma {:induction false} BagIsAll(t: Tree, S: seq<Entry>, v: Page)
    requires Ordered(t) && Complete(t, S)
    ensures Bag(t, S, v) == Occ(Pages(S), v)
  {
    hide Occ, Bag, Ordered, Contains, Sub;
    if S == [] {
      BagNothing(t, v);
      OccPlus([], [], v);
    } else {
      var k := |S| - 1;
      BagIsAll(t, S[..k], v);
      BagSnoc(t, S[..k], S[k], v);
      assert S[..k] + [S[k]] == S;
      OccPlus(Pages(S[..k]), [S[k].page], v);
    }
  }

  lemma {:induction false} PagesSplit(S: seq<Entry>, v: Page)
    ensures Occ(Pages(S), v) == Occ(Own(S), v) + Occ(Pages(Rest(S)), v)
  {
    hide Occ;
    if S == [] {
      OccPlus([], [], v);
    } else {
      var k := |S| - 1;
      var e := S[k];
      PagesSplit(S[..k], v);
      OccPlus(Pages(S[..k]), [e.page], v);
      if e.host == [] {
        OccPlus(Own(S[..k]), [e.page], v);
        assert Rest(S[..k]) + [] == Rest(S[..k]);
      } else {
        Snoc(Rest(S[..k]), e, 0);
        OccPlus(Pages(Rest(S[..k])), [e.page], v);
        assert Own(S[..k]) + [] == Own(S[..k]);
      }
    }
  }

  lemma Cut(buf: seq<Page>, i: nat, j: nat, k: nat, v: Page)
    requires i <= j <= k <= |buf|
    ensures Occ(buf[i..k], v) == Occ(buf[i..j], v) + Occ(buf[j..k], v)
  {
    hide Occ;
    assert buf[i..k] == buf[i..j] + buf[j..k];
    OccPlus(buf[i..j], buf[j..k], v);
  }

  /** After the filling pass the slots of a tree hold the pages of its nodes. */
  lemma {:induction false} RangeHolds(t: Tree, pos: nat, S: seq<Entry>, buf: seq<Page>, v: Page)
    requires Laid(t, pos, S) && Filled(t, S, buf) && pos + Slots(t) <= |buf|
    ensures Occ(buf[pos..pos + Slots(t)], v) == Bag(t, S, v)
    decreases t, 1
  {
    hide Laid, Filled, Slots, Sub, Own, Rest, Complete, Occ, Pages;
    if t.Node? {
      LaidParts(t, pos, S);
      FilledParts(t, S, buf);
      NodeHolds(t, pos, S, buf, v);
      var q := pos + t.allPageNum;
      RangeHolds(t.left, q, S, buf, v);
      RangeHolds(t.right, q + Slots(t.left), S, buf, v);
      Cut(buf, pos, q, pos + Slots(t), v);
      Cut(buf, q, q + Slots(t.left), pos + Slots(t), v);
    } else {
      NoSlots(t);
      OccPlus([], [], v);
      assert buf[pos..pos] == [];
    }
  }

  lemma NoSlots(t: Tree)
    requires t.Nil?
    ensures Slots(t) == 0
  {
  }

  /** A node's range holds the pages of its domain and of all its subdomains. */
  lemma {:induction false} NodeHolds(t: Tree, pos: nat, S: seq<Entry>, buf: seq<Page>, v: Page)
    requires t.Node? && Laid(t, pos, S) && Filled(t, S, buf) && pos + Slots(t) <= |buf|
    ensures t.offset == pos && t.allPageNum == |Sub(S, t.name)| && pos + t.allPageNum <= |buf|
    ensures Occ(buf[pos..pos + t.allPageNum], v) == Occ(Pages(Sub(S, t.name)), v)
    decreases t, 0
  {
    hide Laid, Filled, Slots, Sub, Own, Rest, Complete, Occ, Pages, Bag;
    var Sx := Sub(S, t.name);
    LaidParts(t, pos, S);
    FilledParts(t, S, buf);
    var q := pos + t.pageNum;
    RangeHolds(t.child, q, Rest(Sx), buf, v);
    LaidOrdered(t.child, q, Rest(Sx));
    BagIsAll(t.child, Rest(Sx), v);
    PagesSplit(Sx, v);
    Cut(buf, pos, q, pos + t.allPageNum, v);
  }

  lemma LaidOrdered(t: Tree, pos: nat, S: seq<Entry>)
    requires Laid(t, pos, S)
    ensures Ordered(t)
  {
  }

  /** The node of a label is laid out and filled like any tree. */
  lemma {:induction false} AtNode(t: Tree, pos: nat, S: seq<Entry>, x: Label, buf: seq<Page>)
    requires Laid(t, pos, S) && Filled(t, S, buf) && pos + Slots(t) <= |buf| && Search(t, x).Node?
    ensures var n := Search(t, x);
            n.name == x && Laid(n, n.offset, S) && Filled(n, S, buf) && n.offset + Slots(n) <= |buf|
  {
    hide Laid, Filled, Slots, Sub, Own, Rest, Complete;
    LaidParts(t, pos, S);
    FilledParts(t, S, buf);
    if x > t.name {
      AtNode(t.right, pos + t.allPageNum + Slots(t.left), S, x, buf);
    } else if x < t.name {
      AtNode(t.left, pos + t.allPageNum, S, x, buf);
    }
  }

  /** SearchDomain's result for h, with the first label's step taken. */
  lemma LocateIs(t: Tree, pos: nat, S: seq<Entry>, h: seq<Label>, buf: seq<Page>)
    requires Laid(t, pos, S) && Complete(t, S) && Filled(t, S, buf) && pos + Slots(t) <= |buf| && h != []
    ensures var n := Search(t, h[0]);
            && (n.Nil? || |h| == 1 ==> Locate(t, h) == n) && (n.Nil? ==> Matching(S, h) == [])
            && (n.Node? ==>
                  && n.name == h[0] && Laid(n, n.offset, S) && Filled(n, S, buf) && n.offset + Slots(n) <= |buf|
                  && (|h| == 1 ==> Matching(S, h) == Pages(Sub(S, h[0])))
                  && (|h| > 1 ==>
                       && Locate(t, h) == Locate(n.child, h[1..])
                       && Matching(S, h) == Matching(Rest(Sub(S, h[0])), h[1..])))
  {
    hide Laid, Filled, Slots, Sub, Own, Rest, Search;
    LaidOrdered(t, pos, S);
    SearchFinds(t, h[0]);
    MatchingSub(S, h);
    MatchingRest(Sub(S, h[0]), h[1..]);
    if Search(t, h[0]).Nil? {
      SubAbsent(t, S, h[0]);
    } else {
      AtNode(t, pos, S, h[0], buf);
    }
  }

  /** The range that SearchDomain returns for h holds exactly the pages at or below h; if it returns
      none there are no such pages. */
  lemma {:induction false} LocateHolds(t: Tree, pos: nat, S: seq<Entry>, h: seq<Label>, buf: seq<Page>, v: Page)
    requires Laid(t, pos, S) && Complete(t, S) && Filled(t, S, buf) && pos + Slots(t) <= |buf| && h != []
    ensures var n := Locate(t, h);
            && (n.Nil? ==> Matching(S, h) == [])
            && (n.Node? ==>
                  && n.allPageNum == |Matching(S, h)| && n.offset + n.allPageNum <= |buf|
                  && Occ(buf[n.offset..n.offset + n.allPageNum], v) == Occ(Matching(S, h), v))
    decreases |h|
  {
    hide Laid, Filled, Slots, Sub, Own, Rest, Search, Matching, Occ, Pages, Complete, Locate;
    var n := Search(t, h[0]);
    LocateIs(t, pos, S, h, buf);
    if n.Node? {
      if |h| == 1 {
        NodeHolds(n, n.offset, S, buf, v);
        PagesLength(Sub(S, h[0]));
      } else {
        LaidParts(n, n.offset, S);
        FilledParts(n, S, buf);
        LocateHolds(n.child, n.offset + n.pageNum, Rest(Sub(S, h[0])), h[1..], buf, v);
      }
    }
  }

  lemma PagesLength(S: seq<Entry>)
    ensures |Pages(S)| == |S|
  {
  }

  /** The labels of every entry counted lead to a node. */
  lemma {:induction false} PathOf(t: Tree, pos: nat, S: seq<Entry>, i: nat)
    requires Laid(t, pos, S) && Complete(t, S) && i < |S|
    ensures HasPath(t, S[i].host)
  {
    CountedPath(t, S, S[i]);
  }

  lemma {:induction false} SubHas(S: seq<Entry>, e: Entry)
    requires e in S && e.host != []
    ensures Entry(e.host[1..], e.page) in Sub(S, e.host[0])
  {
    if e in S[..|S| - 1] {
      SubHas(S[..|S| - 1], e);
    }
  }

  lemma {:induction false} RestHas(S: seq<Entry>, e: Entry)
    requires e in S && e.host != []
    ensures e in Rest(S)
  {
    if e in S[..|S| - 1] {
      RestHas(S[..|S| - 1], e);
    }
  }

  lemma {:induction false} SearchCounted(t: Tree, S: seq<Entry>, x: Label)
    requires Ordered(t) && KidsOrdered(t) && Counted(t, S) && Search(t, x).Node?
    ensures var n := Search(t, x);
            n.name == x && Ordered(n.child) && KidsOrdered(n.child) && Complete(n.child, Rest(Sub(S, x))) &&
              Counted(n.child, Rest(Sub(S, x)))
  {
    if x > t.name {
      SearchCounted(t.right, S, x);
    } else if x < t.name {
      SearchCounted(t.left, S, x);
    }
  }

  lemma {:induction false} CountedPath(t: Tree, S: seq<Entry>, e: Entry)
    requires Sorted(t, S) && e in S
    ensures HasPath(t, e.host)
    decreases |e.host|
  {
    var x := e.host[0];
    SearchFinds(t, x);
    SearchCounted(t, S, x);
    if |e.host| > 1 {
      SubHas(S, e);
      var e1 := Entry(e.host[1..], e.page);
      RestHas(Sub(S, x), e1);
      CountedPath(Search(t, x).child, Rest(Sub(S, x)), e1);
    }
  }
}
