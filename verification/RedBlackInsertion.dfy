/** What each step of insertion's repair loop keeps, and what the loop ends in. */
module RedBlackInsertion {
  import opened RedBlack

  /** The loop invariant of insertion: the red node at the focus may have a red parent, all else is right. */
  ghost predicate Fixing(c: Ctx, t: Tree, total: nat, order: seq<Node>) {
    && t.Branch? && t.red && NoRedRed(t) && CNoRedRed(c, false) && !RootRed(c, false)
    && MaxOk(t) && CMaxOk(c, MaxOf(t)) && Whole(c, t) == order
    && exists h :: Balanced(t, h) && CBalanced(c, h, total)
  }

  lemma FixingIsRed(c: Ctx, t: Tree, total: nat, order: seq<Node>)
    requires Fixing(c, t, total, order)
    ensures t.Branch? && t.red && !Red(t.left) && !Red(t.right)
    ensures !c.Top? && c.red ==> !c.up.Top? && !c.up.red
  {
    if !c.Top? && c.red {
      FixingParent(c, t, total, order);
    }
  }

  lemma FixingParent(c: Ctx, t: Tree, total: nat, order: seq<Node>)
    requires Fixing(c, t, total, order) && !c.Top? && c.red
    ensures !c.up.Top? && !c.up.red && CNoRedRed(c.up, true) && CNoRedRed(c.up.up, false) && !RootRed(c.up.up, false)
    ensures CMaxOk(c.up, c.maxHigh) && CMaxOk(c.up.up, c.up.maxHigh)
  {
    assert CNoRedRed(c.up, true) && !RootRed(c.up, true) && CMaxOk(c.up, c.maxHigh);
  }

  /** The uncle is red: three nodes change colour and the grandparent takes over. */
  lemma FixRecoloured(c: Ctx, t: Tree, total: nat, order: seq<Node>)
    requires Fixing(c, t, total, order) && !c.Top? && c.red && !c.up.Top? && Red(Sibling(c.up))
    ensures
      var g, w := c.up, Painted(Fill(c, t), false);
      Fixing(g.up, Fill(Beside(g, true, Painted(Sibling(g), false)), w), total, order)
  {
    FixingParent(c, t, total, order);
    var h: nat :| Balanced(t, h) && CBalanced(c, h, total);
    var g, w := c.up, Painted(Fill(c, t), false);
    var g' := Beside(g, true, Painted(Sibling(g), false));
    assert CBalanced(g, h, total);
    assert CBalanced(g.up, h + 1, total);
    assert Balanced(w, h + 1) && Balanced(Painted(Sibling(g), false), h + 1);
    assert Balanced(Fill(g', w), h + 1);
    WholeUp(c, t);
    WholeUp(g', w);
    assert Whole(g', w) == Whole(g, w);
  }

  /** The red node is an inner grandchild: a rotation at its parent makes the parent an outer one. */
  lemma FixInnerLeft(c: Ctx, t: Tree, total: nat, order: seq<Node>)
    requires Fixing(c, t, total, order) && c.InRight? && c.red
    ensures var w := RotatedLeft(Fill(c, t));
      Fixing(InLeft(w.node, w.maxHigh, w.red, w.right, c.up), w.left, total, order)
  {
    FixingParent(c, t, total, order);
    var h: nat :| Balanced(t, h) && CBalanced(c, h, total);
    var v, w := Fill(c, t), RotatedLeft(Fill(c, t));
    var c' := InLeft(w.node, w.maxHigh, w.red, w.right, c.up);
    RotatedLeftKeeps(v);
    assert Balanced(w.left, h) && CBalanced(c.up, h, total) && CBalanced(c', h, total);
    WholeUp(c, t);
    WholeUp(c', w.left);
    WholeSame(c.up, v, w);
  }

  lemma FixInnerRight(c: Ctx, t: Tree, total: nat, order: seq<Node>)
    requires Fixing(c, t, total, order) && c.InLeft? && c.red
    ensures var w := RotatedRight(Fill(c, t));
      Fixing(InRight(w.left, w.node, w.maxHigh, w.red, c.up), w.right, total, order)
  {
    FixingParent(c, t, total, order);
    var h: nat :| Balanced(t, h) && CBalanced(c, h, total);
    var v, w := Fill(c, t), RotatedRight(Fill(c, t));
    var c' := InRight(w.left, w.node, w.maxHigh, w.red, c.up);
    RotatedRightKeeps(v);
    assert Balanced(w.right, h) && CBalanced(c.up, h, total) && CBalanced(c', h, total);
    WholeUp(c, t);
    WholeUp(c', w.right);
    WholeSame(c.up, v, w);
  }

  /** The grandparent's subtree just before the last rotation of insertion. */
  function Repainted(c: Ctx, t: Tree): Tree
    requires !c.Top? && !c.up.Top?
  {
    Fill(Beside(c.up, true, Sibling(c.up)), Painted(Fill(c, t), false))
  }

  /** The red node is an outer grandchild with a black uncle: a rotation at the grandparent ends the loop. */
  lemma FixOuterLeft(c: Ctx, t: Tree, total: nat, order: seq<Node>)
    requires Fixing(c, t, total, order) && c.InLeft? && c.red && c.up.InLeft? && !Red(Sibling(c.up))
    ensures var w := RotatedRight(Repainted(c, t));
      w.left == t && Fixing(InLeft(w.node, w.maxHigh, false, w.right, c.up.up), t, total, order)
  {
    FixingParent(c, t, total, order);
    var h: nat :| Balanced(t, h) && CBalanced(c, h, total);
    var g, v, w := c.up, Repainted(c, t), RotatedRight(Repainted(c, t));
    var c' := InLeft(w.node, w.maxHigh, false, w.right, g.up);
    RotatedRightKeeps(v);
    assert CBalanced(g, h, total) && CBalanced(g.up, h + 1, total);
    assert Balanced(w.right, h) && CBalanced(c', h, total);
    WholeUp(c, t);
    WholeUp(g, Fill(c, t));
    WholeSame(g.up, Fill(g, Fill(c, t)), v);
    WholeSame(g.up, v, w);
    WholeUp(c', t);
  }

  lemma FixOuterRight(c: Ctx, t: Tree, total: nat, order: seq<Node>)
    requires Fixing(c, t, total, order) && c.InRight? && c.red && c.up.InRight? && !Red(Sibling(c.up))
    ensures var w := RotatedLeft(Repainted(c, t));
      w.right == t && Fixing(InRight(w.left, w.node, w.maxHigh, false, c.up.up), t, total, order)
  {
    FixingParent(c, t, total, order);
    var h: nat :| Balanced(t, h) && CBalanced(c, h, total);
    var g, v, w := c.up, Repainted(c, t), RotatedLeft(Repainted(c, t));
    var c' := InRight(w.left, w.node, w.maxHigh, false, g.up);
    RotatedLeftKeeps(v);
    assert CBalanced(g, h, total) && CBalanced(g.up, h + 1, total);
    assert Balanced(w.left, h) && CBalanced(c', h, total);
    WholeUp(c, t);
    WholeUp(g, Fill(c, t));
    WholeSame(g.up, Fill(g, Fill(c, t)), v);
    WholeSame(g.up, v, w);
    WholeUp(c', t);
  }

  /** What holds once the new leaf's path has been refreshed and the leaf painted red. */
  lemma InsertStart(tree: Tree, c: Ctx, z: Node) returns (order: seq<Node>, total: nat)
    requires Plug(c, Leaf) == tree && RedBlackTree(tree) && MaxOk(tree) && Sorted(Inorder(tree))
    requires forall n :: n in Before(c) ==> n.key <= z.key
    requires forall n :: n in After(c) ==> n.key > z.key
    ensures var t := Branch(Leaf, z, z.high, true, Leaf);
      Fixing(Refreshed(c, MaxOf(t)), t, total, order)
    ensures Inorder(tree) == Before(c) + After(c) && order == Before(c) + [z] + After(c) && Sorted(order)
    ensures Inorder(tree)[..|Before(c)|] == Before(c) && Inorder(tree)[|Before(c)|..] == After(c)
  {
    hide Plug, Inorder, Before, After, Sorted, Refreshed;
    var t := Branch(Leaf, z, z.high, true, Leaf);
    total :| Balanced(tree, total);
    order := Whole(c, t);
    var h := UnplugBalanced(c, Leaf, total);
    RefreshedBalanced(c, MaxOf(t), h, total);
    PlugNoRedRed(c, Leaf);
    RefreshedColours(c, MaxOf(t), false);
    PlugMaxOk(c, Leaf);
    CMaxOkSides(c, MaxOf(Leaf));
    RefreshedMaxOk(c, MaxOf(t));
    RefreshedSame(c, MaxOf(t));
    InsertOrder(tree, c, z);
    InorderLeaf(t);
    assert Balanced(t, h);
  }

  lemma InorderLeaf(t: Tree)
    requires t.Branch? && t.left.Leaf? && t.right.Leaf?
    ensures Inorder(t) == [t.node]
  {
  }

  lemma InsertOrder(tree: Tree, c: Ctx, z: Node)
    requires Plug(c, Leaf) == tree && Sorted(Inorder(tree))
    requires forall n :: n in Before(c) ==> n.key <= z.key
    requires forall n :: n in After(c) ==> n.key > z.key
    ensures Inorder(tree) == Before(c) + After(c) && Sorted(Before(c) + [z] + After(c))
    ensures Inorder(tree)[..|Before(c)|] == Before(c) && Inorder(tree)[|Before(c)|..] == After(c)
  {
    hide Sorted;
    InorderPlug(c, Leaf);
    assert Inorder(tree) == Before(c) + After(c);
    SortedInsert(Before(c), z, After(c));
  }

  lemma SortedInsert(b: seq<Node>, z: Node, a: seq<Node>)
    requires Sorted(b + a)
    requires forall n :: n in b ==> n.key <= z.key
    requires forall n :: n in a ==> n.key > z.key
    ensures Sorted(b + [z] + a)
  {
    var s, s' := b + a, b + [z] + a;
    forall i, j | 0 <= i < j < |s'|
      ensures s'[i].key <= s'[j].key
    {
      assert i < |b| ==> s'[i] == s[i];
      assert i > |b| ==> s'[i] == s[i - 1];
      assert j < |b| ==> s'[j] == s[j];
      assert j > |b| ==> s'[j] == s[j - 1];
    }
  }

  /** What holds of the whole tree when the loop has ended and its root is painted black. */
  lemma InsertEnd(c: Ctx, t: Tree, total: nat, order: seq<Node>)
    requires Fixing(c, t, total, order) && (!c.Top? ==> !c.red)
    ensures var w := Painted(Plug(c, t), false);
      w.Branch? && RedBlackTree(w) && MaxOk(w) && Inorder(w) == order
  {
    var h: nat :| Balanced(t, h) && CBalanced(c, h, total);
    PlugBalanced(c, t, h, total);
    PlugNoRedRed(c, t);
    PlugMaxOk(c, t);
    InorderPlug(c, t);
    var w := Plug(c, t);
    assert w.Branch? ==> Balanced(Painted(w, false), if w.red then total + 1 else total);
  }
}
