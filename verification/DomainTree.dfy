/** The balanced trees of coding_UT_AVLTree_3.h.  A node is a domain label; its child tree holds
    the labels below it.  Labels are numbers here: only their order, strcmp's, matters. */
module DomainTree {
  import opened Sequences

  type Label = int

  datatype Tree =
    | Nil
    | Node(left: Tree, right: Tree, child: Tree, name: Label, bf: int, pageNum: nat, allPageNum: nat, offset: nat)

  function Height(t: Tree): nat
  {
    if t.Nil? then 0 else 1 + Max(Height(t.left), Height(t.right))
  }

  /** The stored balance values are exact. */
  predicate Exact(t: Tree)
  {
    t.Node? ==> t.bf == Height(t.right) - Height(t.left) && Exact(t.left) && Exact(t.right)
  }

  predicate Balanced(t: Tree)
  {
    t.Node? ==> -1 <= t.bf <= 1 && t.bf == Height(t.right) - Height(t.left) && Balanced(t.left) && Balanced(t.right)
  }

  predicate Contains(t: Tree, x: Label)
  {
    t.Node? && (t.name == x || Contains(t.left, x) || Contains(t.right, x))
  }

  ghost predicate Below(t: Tree, x: Label)
  {
    t.Node? ==> t.name < x && Below(t.left, x) && Below(t.right, x)
  }

  ghost predicate Above(t: Tree, x: Label)
  {
    t.Node? ==> x < t.name && Above(t.left, x) && Above(t.right, x)
  }

  ghost predicate Ordered(t: Tree)
  {
    t.Node? ==> Below(t.left, t.name) && Above(t.right, t.name) && Ordered(t.left) && Ordered(t.right)
  }

  lemma {:induction false} BelowTrans(t: Tree, x: Label, y: Label)
    requires Below(t, x) && x <= y
    ensures Below(t, y)
  {
    if t.Node? {
      BelowTrans(t.left, x, y);
      BelowTrans(t.right, x, y);
    }
  }

  lemma {:induction false} AboveTrans(t: Tree, x: Label, y: Label)
    requires Above(t, x) && y <= x
    ensures Above(t, y)
  {
    if t.Node? {
      AboveTrans(t.left, x, y);
      AboveTrans(t.right, x, y);
    }
  }

  lemma {:induction false} BelowMisses(t: Tree, x: Label, y: Label)
    requires (Below(t, x) && x <= y) || (Above(t, x) && y <= x)
    ensures !Contains(t, y)
  {
    if t.Node? {
      BelowMisses(t.left, x, y);
      BelowMisses(t.right, x, y);
    }
  }

  // ----- rotations

  /** _LRot */
  function LRot(t: Tree): Tree
    requires t.Node? && t.right.Node?
  {
    var x, y := t.bf, t.right.bf;
    t.right.(left := t.(right := t.right.left, bf := x - 1 - Max(y, 0)), bf := Min(x - 2 + Min(y, 0), y - 1))
  }

  /** _RRot */
  function RRot(t: Tree): Tree
    requires t.Node? && t.left.Node?
  {
    var x, y := t.bf, t.left.bf;
    t.left.(right := t.(left := t.left.right, bf := x + 1 - Min(y, 0)), bf := Max(x + 2 + Max(y, 0), y + 1))
  }

  /** The formulas for the new balance values are exact, however unbalanced the tree. */
  lemma RotationsExact(t: Tree)
    requires Exact(t) && t.Node?
    ensures t.right.Node? ==> Exact(LRot(t))
    ensures t.left.Node? ==> Exact(RRot(t))
  {
  }

  /** A rotation keeps the order and the nodes. */
  lemma RotationsOrdered(t: Tree)
    requires Ordered(t) && t.Node?
    ensures t.right.Node? ==> Ordered(LRot(t)) && forall x :: Contains(LRot(t), x) <==> Contains(t, x)
    ensures t.left.Node? ==> Ordered(RRot(t)) && forall x :: Contains(RRot(t), x) <==> Contains(t, x)
  {
    if t.right.Node? {
      BelowTrans(t.left, t.name, t.right.name);
    }
    if t.left.Node? {
      AboveTrans(t.right, t.name, t.left.name);
    }
  }

  // ----- insertion

  /** Trees between a recursive call and the rebalancing. */
  ghost predicate Grown(t: Tree, grown: int)
  {
    && t.Node? && Balanced(t.left) && Balanced(t.right) && t.bf == Height(t.right) - Height(t.left) && -2 <= t.bf <= 2
    && (grown == 0 ==> -1 <= t.bf <= 1) && 0 <= grown <= 1
    && (t.bf == -2 ==> t.left.bf != 0) && (t.bf == 2 ==> t.right.bf != 0)
  }

  /** What follows the recursive call: rebalance t, whose lower tree grew by `grown`. */
  function Rebalance(t: Tree, grown: int): (Tree, int)
    requires Grown(t, grown)
  {
    if grown == 0 then (t, 0)
    else if t.bf < -1 then
      (RRot(if t.left.bf > 0 then t.(left := LRot(t.left)) else t), 0)
    else if t.bf > 1 then
      (LRot(if t.right.bf < 0 then t.(right := RRot(t.right)) else t), 0)
    else if t.bf == 0 then (t, 0)
    else (t, 1)
  }

  /** Left side two higher, and that because of its own left side: one rotation. */
  lemma SingleRight(t: Tree)
    requires Grown(t, 1) && t.bf == -2 && t.left.bf == -1
    ensures t.left.Node? && Balanced(RRot(t)) && RRot(t).bf == 0 && Height(RRot(t)) == Height(t) - 1
  {
  }

  lemma DoubleRight(t: Tree)
    requires Grown(t, 1) && t.bf == -2 && t.left.bf == 1
    ensures t.left.Node? && t.left.right.Node?
    ensures var t' := RRot(t.(left := LRot(t.left))); Balanced(t') && t'.bf == 0 && Height(t') == Height(t) - 1
  {
    var l, m := t.left, t.left.right;
    assert Balanced(l) && l.Node? && Height(m) == 1 + Height(l.left) && Balanced(l.left) && Balanced(m);
    assert m.Node? && Balanced(m.left) && Balanced(m.right) && m.bf == Height(m.right) - Height(m.left) &&
      -1 <= m.bf <= 1;
    assert Height(m) == 1 + Max(Height(m.left), Height(m.right)) && Height(l) == 1 + Height(m) &&
      Height(t.right) == Height(l) - 2;
    var l' := l.(right := m.left, bf := if m.bf == 1 then -1 else 0);
    var t'' := t.(left := m.right, bf := if m.bf == -1 then 1 else 0);
    assert Balanced(l') && Balanced(t'');
    assert RRot(t.(left := LRot(l))) == m.(left := l', right := t'', bf := 0);
  }

  lemma SingleLeft(t: Tree)
    requires Grown(t, 1) && t.bf == 2 && t.right.bf == 1
    ensures t.right.Node? && Balanced(LRot(t)) && LRot(t).bf == 0 && Height(LRot(t)) == Height(t) - 1
  {
  }

  lemma DoubleLeft(t: Tree)
    requires Grown(t, 1) && t.bf == 2 && t.right.bf == -1
    ensures t.right.Node? && t.right.left.Node?
    ensures var t' := LRot(t.(right := RRot(t.right))); Balanced(t') && t'.bf == 0 && Height(t') == Height(t) - 1
  {
    var r, m := t.right, t.right.left;
    assert Balanced(r) && r.Node? && Height(m) == 1 + Height(r.right) && Balanced(r.right) && Balanced(m);
    assert m.Node? && Balanced(m.left) && Balanced(m.right) && m.bf == Height(m.right) - Height(m.left) &&
      -1 <= m.bf <= 1;
    assert Height(m) == 1 + Max(Height(m.left), Height(m.right)) && Height(r) == 1 + Height(m) &&
      Height(t.left) == Height(r) - 2;
    var r' := r.(left := m.right, bf := if m.bf == -1 then 1 else 0);
    var t'' := t.(right := m.left, bf := if m.bf == 1 then -1 else 0);
    assert Balanced(r') && Balanced(t'');
    assert LRot(t.(right := RRot(r))) == m.(left := t'', right := r', bf := 0);
  }

  lemma RebalanceBalances(t: Tree, grown: int)
    requires Grown(t, grown)
    ensures var (t', g) := Rebalance(t, grown);
            && t'.Node? && Balanced(t') && 0 <= g <= 1
            && (t.bf == 2 || t.bf == -2 ==> Height(t') == Height(t) - 1 && t'.bf == 0 && g == 0)
            && (-1 <= t.bf <= 1 ==> t' == t && g == if grown == 1 && t.bf != 0 then 1 else 0)
  {
    if t.bf == -2 {
      assert t.left.Node?;
      if t.left.bf == -1 {
        SingleRight(t);
      } else {
        DoubleRight(t);
      }
    } else if t.bf == 2 {
      assert t.right.Node?;
      if t.right.bf == 1 {
        SingleLeft(t);
      } else {
        DoubleLeft(t);
      }
    }
  }

  function NewNode(x: Label): Tree
  {
    Node(Nil, Nil, Nil, x, 0, 0, 0, 0)
  }

  /** _AddDomain_Count: find label x or insert a node for it.  The second result is m_lHightFlag. */
  function Insert(t: Tree, x: Label): (r: (Tree, int))
    requires Balanced(t)
    ensures r.0.Node? && Balanced(r.0) && 0 <= r.1 <= 1 && Height(r.0) == Height(t) + r.1
    ensures t.Node? && r.1 == 1 ==> r.0.bf != 0
    decreases t, 1
  {
    if t.Nil? then (NewNode(x), 1)
    else if x == t.name then (t, 0)
    else
      var (t1, grown) := Half(t, x);
      RebalanceBalances(t1, grown);
      Rebalance(t1, grown)
  }

  /** The tree between the recursive call and the rebalancing. */
  function Half(t: Tree, x: Label): (r: (Tree, int))
    requires Balanced(t) && t.Node? && x != t.name
    ensures Grown(r.0, r.1) && Height(r.0) == Height(t) + if r.1 == 1 && r.0.bf != 0 then 1 else 0
    decreases t, 0
  {
    if x > t.name then
      var (right, grown) := Insert(t.right, x);
      var t1 := t.(right := right, bf := t.bf + grown);
      GrownRight(t, t1, grown);
      (t1, grown)
    else
      var (left, grown) := Insert(t.left, x);
      var t1 := t.(left := left, bf := t.bf - grown);
      GrownLeft(t, t1, grown);
      (t1, grown)
  }

  lemma GrownRight(t: Tree, t1: Tree, grown: int)
    requires t.Node? && Balanced(t) && t1.Node? && Balanced(t1.right) && 0 <= grown <= 1
    requires Height(t1.right) == Height(t.right) + grown
    requires t1 == t.(right := t1.right, bf := t.bf + grown)
    requires t.right.Node? && grown == 1 ==> t1.right.bf != 0
    ensures Grown(t1, grown) && Height(t1) == Height(t) + if grown == 1 && t1.bf != 0 then 1 else 0
  {
  }

  lemma GrownLeft(t: Tree, t1: Tree, grown: int)
    requires t.Node? && Balanced(t) && t1.Node? && Balanced(t1.left) && 0 <= grown <= 1
    requires Height(t1.left) == Height(t.left) + grown
    requires t1 == t.(left := t1.left, bf := t.bf - grown)
    requires t.left.Node? && grown == 1 ==> t1.left.bf != 0
    ensures Grown(t1, grown) && Height(t1) == Height(t) + if grown == 1 && t1.bf != 0 then 1 else 0
  {
  }

  // ----- what insertion keeps beside the balance

  /** Every node's child tree, and its child trees in turn, are balanced and ordered. */
  ghost predicate Kids(t: Tree)
  {
    t.Node? ==> Balanced(t.child) && Ordered(t.child) && Kids(t.child) && Kids(t.left) && Kids(t.right)
  }

  ghost predicate Tidy(t: Tree)
  {
    Balanced(t) && Ordered(t) && Kids(t)
  }

  lemma {:induction false} RotationsBound(t: Tree, y: Label)
    requires t.Node?
    ensures t.right.Node? ==>
      (Below(LRot(t), y) <==> Below(t, y)) && (Above(LRot(t), y) <==> Above(t, y)) && (Kids(LRot(t)) <==> Kids(t))
    ensures t.left.Node? ==>
      (Below(RRot(t), y) <==> Below(t, y)) && (Above(RRot(t), y) <==> Above(t, y)) && (Kids(RRot(t)) <==> Kids(t))
  {
  }

  /** Rebalancing is nothing but rotations. */
  lemma RebalanceKeeps(t: Tree, grown: int, y: Label)
    requires Grown(t, grown) && Ordered(t)
    ensures var t' := Rebalance(t, grown).0;
            && Ordered(t') && (Below(t', y) <==> Below(t, y)) && (Above(t', y) <==> Above(t, y)) &&
              (Kids(t') <==> Kids(t))
            && forall x :: Contains(t', x) <==> Contains(t, x)
  {
    if grown != 0 && t.bf < -1 {
      var t1 := if t.left.bf > 0 then t.(left := LRot(t.left)) else t;
      if t.left.bf > 0 {
        RotationsOrdered(t.left);
        RotationsBound(t.left, t.name);
        RotationsBound(t.left, y);
      }
      hide LRot;
      RotationsOrdered(t1);
      RotationsBound(t1, y);
    } else if grown != 0 && t.bf > 1 {
      var t1 := if t.right.bf < 0 then t.(right := RRot(t.right)) else t;
      if t.right.bf < 0 {
        RotationsOrdered(t.right);
        RotationsBound(t.right, t.name);
        RotationsBound(t.right, y);
      }
      hide RRot;
      RotationsOrdered(t1);
      RotationsBound(t1, y);
    }
  }

  lemma {:induction false} InsertBounds(t: Tree, x: Label, y: Label)
    requires Tidy(t)
    ensures var t' := Insert(t, x).0;
            && (Below(t, y) && x < y ==> Below(t', y)) && (Above(t, y) && y < x ==> Above(t', y))
            && Ordered(t') && Kids(t')
  {
    hide Rebalance, Grown, Height, Half, Contains;
    if t.Node? && x != t.name {
      HalfIs(t, x);
      if x > t.name {
        InsertBounds(t.right, x, t.name);
        InsertBounds(t.right, x, y);
      } else {
        InsertBounds(t.left, x, t.name);
        InsertBounds(t.left, x, y);
      }
      RebalanceKeeps(Half(t, x).0, Half(t, x).1, y);
    }
  }

  lemma {:induction false} InsertAdds(t: Tree, x: Label, z: Label)
    requires Tidy(t)
    ensures Contains(Insert(t, x).0, z) <==> Contains(t, z) || z == x
  {
    hide Rebalance, Grown, Height, Half;
    if t.Node? && x != t.name {
      HalfIs(t, x);
      if x > t.name {
        InsertAdds(t.right, x, z);
        InsertBounds(t.right, x, t.name);
      } else {
        InsertAdds(t.left, x, z);
        InsertBounds(t.left, x, t.name);
      }
      RebalanceKeeps(Half(t, x).0, Half(t, x).1, x);
    }
  }

  lemma TidyParts(t: Tree)
    requires Tidy(t) && t.Node?
    ensures Tidy(t.left) && Tidy(t.right)
  {
  }

  lemma HalfIs(t: Tree, x: Label)
    requires Tidy(t) && t.Node? && x != t.name
    ensures Tidy(t.left) && Tidy(t.right)
    ensures x > t.name ==> Half(t, x) == (t.(right := Insert(t.right, x).0, bf := t.bf + Insert(t.right, x).1),
      Insert(t.right, x).1)
    ensures x < t.name ==> Half(t, x) == (t.(left := Insert(t.left, x).0, bf := t.bf - Insert(t.left, x).1),
      Insert(t.left, x).1)
  {
    hide Insert, Height, Grown;
    TidyParts(t);
  }

  /** Insertion keeps the tree ordered and balanced and adds exactly label x; the height flag is 1
      exactly if the tree became higher. */
  lemma InsertKeeps(t: Tree, x: Label)
    requires Tidy(t)
    ensures var (t', grown) := Insert(t, x);
            && Tidy(t') && (forall z :: Contains(t', z) <==> Contains(t, z) || z == x)
            && (grown == 1 <==> Height(t') > Height(t)) && Height(t') - Height(t) <= 1
  {
    InsertBounds(t, x, x);
    forall z ensures Contains(Insert(t, x).0, z) <==> Contains(t, z) || z == x {
      InsertAdds(t, x, z);
    }
  }

  /** _SearchDomain: the node of a label, with what lies below it, or none. */
  function Search(t: Tree, x: Label): Tree
  {
    if t.Nil? then Nil
    else if x == t.name then t
    else if x > t.name then Search(t.right, x)
    else Search(t.left, x)
  }

  /** In an ordered tree the search finds what is there. */
  lemma {:induction false} SearchFinds(t: Tree, x: Label)
    requires Ordered(t)
    ensures Search(t, x).Node? <==> Contains(t, x)
    ensures Search(t, x).Node? ==> Search(t, x).name == x
  {
    if t.Node? && x != t.name {
      SearchFinds(t.left, x);
      SearchFinds(t.right, x);
      if x > t.name {
        BelowMisses(t.left, t.name, x);
      } else {
        BelowMisses(t.right, t.name, x);
      }
    }
  }
}
