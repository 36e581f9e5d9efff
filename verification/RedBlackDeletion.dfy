/** What each step of deletion's repair loop keeps, and where a node that is cut out leaves the order. */
module RedBlackDeletion {
  import opened RedBlack

  /** The loop invariant of deletion: the subtree at the focus lacks one black node; painting a red root black repairs
      it. */
  ghost predicate Short(c: Ctx, t: Tree, total: nat, order: seq<Node>) {
    && NoRedRed(Painted(t, false)) && CNoRedRed(c, false) && !RootRed(c, false)
    && MaxOk(t) && CMaxOk(c, MaxOf(t)) && Whole(c, t) == order
    && exists h: nat :: Balanced(t, h) && CBalanced(c, h + 1, total)
  }

  /** The deficit has been made up. */
  ghost predicate Repaired(c: Ctx, t: Tree, total: nat, order: seq<Node>) {
    && NoRedRed(t) && CNoRedRed(c, Red(t)) && !RootRed(c, Red(t))
    && MaxOk(t) && CMaxOk(c, MaxOf(t)) && Whole(c, t) == order
    && exists h: nat :: Balanced(t, h) && CBalanced(c, h, total)
  }

  /** The node at the root of the whole tree, for a hole that is not the root. */
  function Outer(c: Ctx): Node
    requires !c.Top?
  {
    if c.up.Top? then c.node else Outer(c.up)
  }

  lemma {:induction false} PlugOuter(c: Ctx, t: Tree)
    ensures !c.Top? ==> Plug(c, t).Branch? && Plug(c, t).node == Outer(c)
  {
    if !c.Top? {
      PlugOuter(c.up, Fill(c, t));
    }
  }

  lemma {:induction false} OuterIn(c: Ctx)
    ensures !c.Top? ==> Outer(c) in CNodes(c)
  {
    if !c.Top? {
      OuterIn(c.up);
    }
  }

  /** deleteFixup's captured root is the parent of the focus or still the root above it. */
  ghost predicate Anchored(n: Node, c: Ctx) {
    !c.Top? && (n == c.node || (!c.up.Top? && n == Outer(c.up)))
  }

  lemma BlackHole(c: Ctx, hole: bool)
    ensures CNoRedRed(c, hole) ==> CNoRedRed(c, false)
    ensures !RootRed(c, hole) ==> !RootRed(c, false)
  {
  }

  lemma ShortSibling(c: Ctx, t: Tree, total: nat, order: seq<Node>)
    requires Short(c, t, total, order) && !c.Top?
    ensures Sibling(c).Branch? && !RootRed(c, false)
    ensures Red(Sibling(c)) ==> !c.red && Sibling(c).left.Branch? && Sibling(c).right.Branch?
  {
    var h: nat :| Balanced(t, h) && CBalanced(c, h + 1, total);
    var s := Sibling(c);
    assert Balanced(s, h + 1);
    assert Red(s) ==> Balanced(s.left, h + 1) && Balanced(s.right, h + 1);
  }

  /** Painting the focus black repairs the deficit if the focus is red or is the root of the tree. */
  lemma ShortEnd(c: Ctx, t: Tree, total: nat, order: seq<Node>) returns (total': nat)
    requires Short(c, t, total, order) && (Red(t) || c.Top?)
    ensures Repaired(c, Painted(t, false), total', order)
  {
    var h: nat :| Balanced(t, h) && CBalanced(c, h + 1, total);
    total' := if Red(t) then total else total - 1;
    assert Balanced(Painted(t, false), if Red(t) then h + 1 else h);
    WholeSame(c, t, Painted(t, false));
  }

  lemma RepairedEnd(c: Ctx, t: Tree, total: nat, order: seq<Node>)
    requires Repaired(c, t, total, order)
    ensures var w := Plug(c, t);
      RedBlackTree(w) && MaxOk(w) && Inorder(w) == order
  {
    var h: nat :| Balanced(t, h) && CBalanced(c, h, total);
    PlugBalanced(c, t, h, total);
    PlugNoRedRed(c, t);
    PlugMaxOk(c, t);
    InorderPlug(c, t);
  }

  lemma RepairedRoot(c: Ctx, t: Tree, total: nat, order: seq<Node>)
    requires Repaired(c, t, total, order)
    ensures !RootRed(c, Red(t))
  {
  }

  /** The sibling is red: after a rotation at the parent the sibling is black. */
  lemma DeleteRedSiblingLeft(c: Ctx, t: Tree, total: nat, order: seq<Node>)
    requires Short(c, t, total, order) && !Red(t) && c.InLeft? && Red(c.right)
    ensures
      var w := RotatedLeft(Fill(Beside(c, true, Painted(c.right, false)), t));
      var c' := InLeft(c.node, w.left.maxHigh, true, w.left.right, InLeft(w.node, w.maxHigh, false, w.right, c.up));
      w.left == Fill(c', t) && Short(c', t, total, order) && !Red(Sibling(c'))
  {
    var h: nat :| Balanced(t, h) && CBalanced(c, h + 1, total);
    Inside(Sibling(c));
    Inside(Sibling(c).left);
    Inside(Sibling(c).right);
    Inside(t);
    Inside(Painted(t, false));
    var v := Fill(Beside(c, true, Painted(c.right, false)), t);
    var w := RotatedLeft(v);
    var g := InLeft(w.node, w.maxHigh, false, w.right, c.up);
    var c' := InLeft(c.node, w.left.maxHigh, true, w.left.right, g);
    RotatedLeftKeeps(v);
    assert MaxOk(c.right) && MaxOk(v);
    assert Balanced(c.right.left, h + 1) && Balanced(c.right.right, h + 1);
    assert CBalanced(c.up, h + 2, total) && CBalanced(g, h + 1, total);
    assert CNoRedRed(g, true);
    WholeUp(c, t);
    WholeUp(c', t);
    WholeUp(g, w.left);
    WholeSame(c.up, Fill(c, t), v);
    WholeSame(c.up, v, w);
  }

  /** The sibling is red: after a rotation at the parent the sibling is black. */
  lemma DeleteRedSiblingRight(c: Ctx, t: Tree, total: nat, order: seq<Node>)
    requires Short(c, t, total, order) && !Red(t) && c.InRight? && Red(c.left)
    ensures
      var w := RotatedRight(Fill(Beside(c, true, Painted(c.left, false)), t));
      var c' := InRight(w.right.left, c.node, w.right.maxHigh, true, InRight(w.left, w.node, w.maxHigh, false, c.up));
      w.right == Fill(c', t) && Short(c', t, total, order) && !Red(Sibling(c'))
  {
    var h: nat :| Balanced(t, h) && CBalanced(c, h + 1, total);
    Inside(Sibling(c));
    Inside(Sibling(c).left);
    Inside(Sibling(c).right);
    Inside(t);
    Inside(Painted(t, false));
    var v := Fill(Beside(c, true, Painted(c.left, false)), t);
    var w := RotatedRight(v);
    var g := InRight(w.left, w.node, w.maxHigh, false, c.up);
    var c' := InRight(w.right.left, c.node, w.right.maxHigh, true, g);
    RotatedRightKeeps(v);
    assert MaxOk(c.left) && MaxOk(v);
    assert Balanced(c.left.right, h + 1) && Balanced(c.left.left, h + 1);
    assert CBalanced(c.up, h + 2, total) && CBalanced(g, h + 1, total);
    assert CNoRedRed(g, true);
    WholeUp(c, t);
    WholeUp(c', t);
    WholeUp(g, w.right);
    WholeSame(c.up, Fill(c, t), v);
    WholeSame(c.up, v, w);
  }

  /** The sibling and its children are black: painting the sibling red moves the deficit up. */
  lemma DeleteBlackSibling(c: Ctx, t: Tree, total: nat, order: seq<Node>)
    requires Short(c, t, total, order) && !Red(t) && !c.Top?
    requires Sibling(c).Branch? && !Red(Sibling(c)) && !Red(Sibling(c).left) && !Red(Sibling(c).right)
    ensures Short(c.up, Fill(Beside(c, c.red, Painted(Sibling(c), true)), t), total, order)
  {
    var h: nat :| Balanced(t, h) && CBalanced(c, h + 1, total);
    Inside(Sibling(c));
    Inside(Sibling(c).left);
    Inside(Sibling(c).right);
    Inside(t);
    Inside(Painted(t, false));
    var v := Fill(Beside(c, c.red, Painted(Sibling(c), true)), t);
    assert Balanced(Painted(Sibling(c), true), h);
    assert Balanced(v, if c.red then h else h + 1);
    BlackHole(c.up, c.red);
    assert NoRedRed(Painted(v, false));
    WholeUp(c, t);
    WholeSame(c.up, Fill(c, t), v);
  }

  /** Another sibling with the same nodes, the same maximum and the same black height, whose root is black. */
  lemma ShortBeside(c: Ctx, t: Tree, total: nat, order: seq<Node>, r: Tree, h: nat)
    requires Short(c, t, total, order) && !c.Top? && CBalanced(c, h + 1, total) && Balanced(t, h)
    requires NoRedRed(r) && !Red(r) && MaxOk(r) && MaxOf(r) == MaxOf(Sibling(c)) && Balanced(r, h + 1)
    requires Inorder(r) == Inorder(Sibling(c))
    ensures Short(Beside(c, c.red, r), t, total, order)
  {
    WholeUp(c, t);
    WholeUp(Beside(c, c.red, r), t);
    WholeSame(c.up, Fill(c, t), Fill(Beside(c, c.red, r), t));
  }

  lemma RotatedNearLeft(s: Tree, h: nat)
    requires s.Branch? && !s.red && Red(s.left) && !Red(s.right) && NoRedRed(s) && MaxOk(s) && Balanced(s, h + 1)
    ensures var r := RotatedRight(Branch(Painted(s.left, false), s.node, s.maxHigh, true, s.right));
      && NoRedRed(r) && !Red(r) && Red(r.right) && MaxOk(r) && MaxOf(r) == MaxOf(s) && Balanced(r, h + 1)
      && Inorder(r) == Inorder(s)
  {
    var v := Branch(Painted(s.left, false), s.node, s.maxHigh, true, s.right);
    RotatedRightKeeps(v);
    Inside(s);
    Inside(s.left);
    assert Balanced(s.left, h) && Balanced(s.right, h);
    assert Inorder(v.left) == Inorder(s.left);
  }

  lemma RotatedNearRight(s: Tree, h: nat)
    requires s.Branch? && !s.red && Red(s.right) && !Red(s.left) && NoRedRed(s) && MaxOk(s) && Balanced(s, h + 1)
    ensures var r := RotatedLeft(Branch(s.left, s.node, s.maxHigh, true, Painted(s.right, false)));
      && NoRedRed(r) && !Red(r) && Red(r.left) && MaxOk(r) && MaxOf(r) == MaxOf(s) && Balanced(r, h + 1)
      && Inorder(r) == Inorder(s)
  {
    var v := Branch(s.left, s.node, s.maxHigh, true, Painted(s.right, false));
    RotatedLeftKeeps(v);
    Inside(s);
    Inside(s.right);
    assert Balanced(s.left, h) && Balanced(s.right, h);
    assert Inorder(v.right) == Inorder(s.right);
  }

  /** The sibling's far child is black and its near child red: a rotation at the sibling makes the far child red. */
  lemma DeleteNearRedLeft(c: Ctx, t: Tree, total: nat, order: seq<Node>)
    requires Short(c, t, total, order) && !Red(t) && c.InLeft?
    requires c.right.Branch? && !Red(c.right) && Red(c.right.left) && !Red(c.right.right)
    ensures
      var s := c.right;
      var r := RotatedRight(Branch(Painted(s.left, false), s.node, s.maxHigh, true, s.right));
      Short(Beside(c, c.red, r), t, total, order) && !Red(r) && Red(r.right)
  {
    var h: nat :| Balanced(t, h) && CBalanced(c, h + 1, total);
    var s := c.right;
    RotatedNearLeft(s, h);
    ShortBeside(c, t, total, order, RotatedRight(Branch(Painted(s.left, false), s.node, s.maxHigh, true, s.right)), h);
  }

  /** The sibling's far child is black and its near child red: a rotation at the sibling makes the far child red. */
  lemma DeleteNearRedRight(c: Ctx, t: Tree, total: nat, order: seq<Node>)
    requires Short(c, t, total, order) && !Red(t) && c.InRight?
    requires c.left.Branch? && !Red(c.left) && Red(c.left.right) && !Red(c.left.left)
    ensures
      var s := c.left;
      var r := RotatedLeft(Branch(s.left, s.node, s.maxHigh, true, Painted(s.right, false)));
      Short(Beside(c, c.red, r), t, total, order) && !Red(r) && Red(r.left)
  {
    var h: nat :| Balanced(t, h) && CBalanced(c, h + 1, total);
    var s := c.left;
    RotatedNearRight(s, h);
    ShortBeside(c, t, total, order, RotatedLeft(Branch(s.left, s.node, s.maxHigh, true, Painted(s.right, false))), h);
  }

  /** The tree around the focus just before the last rotation of deletion, when the focus is a left child. */
  function RepairedLeft(c: Ctx, t: Tree): Tree
    requires c.InLeft? && c.right.Branch?
  {
    var s := c.right;
    Branch(t, c.node, c.maxHigh, false, Branch(s.left, s.node, s.maxHigh, c.red, Painted(s.right, false)))
  }

  /** The tree around the focus just before the last rotation of deletion, when the focus is a right child. */
  function RepairedRight(c: Ctx, t: Tree): Tree
    requires c.InRight? && c.left.Branch?
  {
    var s := c.left;
    Branch(Branch(Painted(s.left, false), s.node, s.maxHigh, c.red, s.right), c.node, c.maxHigh, false, t)
  }

  lemma RepairedLeftKeeps(c: Ctx, t: Tree)
    requires MaxOk(t) && CMaxOk(c, MaxOf(t)) && c.InLeft? && c.right.Branch?
    ensures var w := RotatedLeft(RepairedLeft(c, t));
      MaxOk(w) && CMaxOk(c.up, MaxOf(w)) && Whole(c.up, w) == Whole(c, t)
  {
    var s, v := c.right, RepairedLeft(c, t);
    Inside(s);
    RotatedLeftKeeps(v);
    assert MaxOk(v.right) && MaxOk(v);
    assert Inorder(s) == Inorder(v.right);
    WholeUp(c, t);
    WholeSame(c.up, Fill(c, t), v);
    WholeSame(c.up, v, RotatedLeft(v));
  }

  /** The sibling's far child is red: a rotation at the parent makes up the deficit. */
  lemma DeleteFarRedLeft(c: Ctx, t: Tree, total: nat, order: seq<Node>)
    requires Short(c, t, total, order) && !Red(t) && c.InLeft? && c.right.Branch? && !Red(c.right) && Red(c.right.right)
    ensures Repaired(c.up, RotatedLeft(RepairedLeft(c, t)), total, order)
  {
    var h: nat :| Balanced(t, h) && CBalanced(c, h + 1, total);
    var s, w := c.right, RotatedLeft(RepairedLeft(c, t));
    Inside(s);
    Inside(s.right);
    Inside(Painted(t, false));
    assert Balanced(s.left, h) && Balanced(s.right, h) && Balanced(w.left, h + 1) && Balanced(w.right, h + 1);
    assert NoRedRed(w.left) && NoRedRed(w.right);
    assert Balanced(w, if c.red then h + 1 else h + 2);
    RepairedLeftKeeps(c, t);
  }

  lemma RepairedRightKeeps(c: Ctx, t: Tree)
    requires MaxOk(t) && CMaxOk(c, MaxOf(t)) && c.InRight? && c.left.Branch?
    ensures var w := RotatedRight(RepairedRight(c, t));
      MaxOk(w) && CMaxOk(c.up, MaxOf(w)) && Whole(c.up, w) == Whole(c, t)
  {
    var s, v := c.left, RepairedRight(c, t);
    Inside(s);
    RotatedRightKeeps(v);
    assert MaxOk(v.left) && MaxOk(v);
    assert Inorder(s) == Inorder(v.left);
    WholeUp(c, t);
    WholeSame(c.up, Fill(c, t), v);
    WholeSame(c.up, v, RotatedRight(v));
  }

  /** The sibling's far child is red: a rotation at the parent makes up the deficit. */
  lemma DeleteFarRedRight(c: Ctx, t: Tree, total: nat, order: seq<Node>)
    requires Short(c, t, total, order) && !Red(t) && c.InRight? && c.left.Branch? && !Red(c.left) && Red(c.left.left)
    ensures Repaired(c.up, RotatedRight(RepairedRight(c, t)), total, order)
  {
    var h: nat :| Balanced(t, h) && CBalanced(c, h + 1, total);
    var s, w := c.left, RotatedRight(RepairedRight(c, t));
    Inside(s);
    Inside(s.left);
    Inside(Painted(t, false));
    assert Balanced(s.right, h) && Balanced(s.left, h) && Balanced(w.right, h + 1) && Balanced(w.left, h + 1);
    assert NoRedRed(w.right) && NoRedRed(w.left);
    assert Balanced(w, if c.red then h + 1 else h + 2);
    RepairedRightKeeps(c, t);
  }

  // ---------- cutting out a node ----------

  /** The context ci inside the hole of co. */
  function Append(ci: Ctx, co: Ctx): Ctx {
    match ci
    case Top => co
    case InLeft(n, m, red, r, up) => InLeft(n, m, red, r, Append(up, co))
    case InRight(l, n, m, red, up) => InRight(l, n, m, red, Append(up, co))
  }

  lemma AppendTop(ci: Ctx, co: Ctx)
    ensures ci.Top? ==> Append(ci, co) == co
    ensures !ci.Top? ==> !Append(ci, co).Top? && Append(ci, co).node == ci.node
  {
  }

  lemma {:induction false} AppendPlug(ci: Ctx, co: Ctx, t: Tree)
    ensures Plug(Append(ci, co), t) == Plug(co, Plug(ci, t))
  {
    if !ci.Top? {
      assert Append(ci, co).up == Append(ci.up, co) && Fill(Append(ci, co), t) == Fill(ci, t);
      AppendPlug(ci.up, co, Fill(ci, t));
    }
  }

  lemma {:induction false} AppendOrder(ci: Ctx, co: Ctx)
    ensures Before(Append(ci, co)) == Before(co) + Before(ci) && After(Append(ci, co)) == After(ci) + After(co)
  {
    match ci
    case Top =>
    case InLeft(n, _, _, r, up) => AppendOrder(up, co);
    case InRight(l, n, _, _, up) => AppendOrder(up, co);
  }

  lemma {:induction false} RefreshedAppend(ci: Ctx, co: Ctx, t: Tree)
    ensures Refreshed(Append(ci, co), MaxOf(t)) ==
      Append(Refreshed(ci, MaxOf(t)), Refreshed(co, MaxOf(Plug(Refreshed(ci, MaxOf(t)), t))))
  {
    if !ci.Top? {
      var w := Fill(ci, t);
      var w' := Branch(w.left, w.node, Top3(w.node, w.left, w.right), w.red, w.right);
      RefreshedAppend(ci.up, co, w');
      PlugRefreshed(ci, t);
    }
  }

  /** The two contexts differ only in which nodes stand where and in `maxHigh`. */
  ghost predicate Alike(c: Ctx, c': Ctx) {
    match c
    case Top => c'.Top?
    case InLeft(_, _, red, r, up) => c'.InLeft? && c'.red == red && c'.right == r && Alike(up, c'.up)
    case InRight(l, _, _, red, up) => c'.InRight? && c'.red == red && c'.left == l && Alike(up, c'.up)
  }

  lemma {:induction false} AlikeSelf(c: Ctx)
    ensures Alike(c, c)
  {
    if !c.Top? {
      AlikeSelf(c.up);
    }
  }

  lemma AlikeInRight(c: Ctx, c': Ctx)
    requires c.InRight? && c'.InRight? && c.red == c'.red && c.left == c'.left && c.up == c'.up
    ensures Alike(c, c')
  {
    AlikeSelf(c.up);
  }

  lemma {:induction false} AlikeAppend(ci: Ctx, co: Ctx, co': Ctx)
    requires Alike(co, co')
    ensures Alike(Append(ci, co), Append(ci, co'))
  {
    if !ci.Top? {
      AlikeAppend(ci.up, co, co');
    }
  }

  lemma {:induction false} AlikeKeeps(c: Ctx, c': Ctx, hole: bool, h: nat, total: nat)
    requires Alike(c, c')
    ensures CNoRedRed(c, hole) <==> CNoRedRed(c', hole)
    ensures RootRed(c, hole) == RootRed(c', hole)
    ensures CBalanced(c, h, total) <==> CBalanced(c', h, total)
    ensures SidesMaxOk(c) <==> SidesMaxOk(c')
  {
    if !c.Top? {
      AlikeKeeps(c.up, c'.up, c.red, if c.red then h else h + 1, total);
    }
  }

  ghost predicate OnlyChild(t: Tree, child: Tree) {
    t.Branch? && ((t.left.Leaf? && child == t.right) || (t.right.Leaf? && child == t.left))
  }

  /** What holds after cutting out a node with one child and refreshing the path above it. */
  lemma DeleteStart(c0: Ctx, s: Tree, child: Tree, c1: Ctx) returns (total: nat)
    requires RedBlackTree(Plug(c0, s)) && MaxOk(Plug(c0, s)) && OnlyChild(s, child) && Alike(c0, c1)
    ensures var c := Refreshed(c1, MaxOf(child));
      if s.red then Repaired(c, child, total, Whole(c1, child)) else Short(c, child, total, Whole(c1, child))
  {
    total :| Balanced(Plug(c0, s), total);
    var h := UnplugBalanced(c0, s, total);
    var h' := if s.red then h else h - 1;
    var c := Refreshed(c1, MaxOf(child));
    assert Balanced(child, h');
    PlugNoRedRed(c0, s);
    PlugMaxOk(c0, s);
    CMaxOkSides(c0, MaxOf(s));
    BlackHole(c0, Red(s));
    AlikeKeeps(c0, c1, false, h, total);
    RefreshedBalanced(c1, MaxOf(child), h, total);
    RefreshedColours(c1, MaxOf(child), false);
    RefreshedMaxOk(c1, MaxOf(child));
    RefreshedSame(c1, MaxOf(child));
    assert CBalanced(c, h, total);
  }

  function WithoutAt(s: seq<Node>, k: nat): seq<Node>
    requires k < |s|
  {
    s[..k] + s[k + 1..]
  }

  lemma SortedWithout(s: seq<Node>, k: nat)
    requires Sorted(s) && k < |s|
    ensures Sorted(WithoutAt(s, k))
  {
  }

  lemma ChildOrder(t: Tree, child: Tree)
    requires OnlyChild(t, child)
    ensures Inorder(t) == Inorder(t.left) + [t.node] + Inorder(t.right)
    ensures Inorder(child) == Inorder(t.left) + Inorder(t.right)
  {
  }

  lemma DeletedOrderSame(c: Ctx, t: Tree, child: Tree) returns (k: nat)
    requires OnlyChild(t, child)
    ensures var s := Inorder(Plug(c, t));
      k < |s| && s[k] == t.node && Whole(c, child) == WithoutAt(s, k) && (Sorted(s) ==> Sorted(Whole(c, child)))
  {
    hide Plug, Inorder, Before, After, Sorted;
    var b, l, x, r, a := Before(c), Inorder(t.left), t.node, Inorder(t.right), After(c);
    var s := Inorder(Plug(c, t));
    k := |b| + |l|;
    InorderPlug(c, t);
    ChildOrder(t, child);
    SplitAt(b, l, x, r, a);
    CutOut(b, l, r, a);
    if Sorted(s) {
      SortedWithout(s, k);
    }
  }

  lemma CutOut<T>(b: seq<T>, l: seq<T>, r: seq<T>, a: seq<T>)
    ensures b + (l + r) + a == (b + l) + (r + a)
  {
  }

  lemma DeletedOrderOther(c: Ctx, t: Tree, ci: Ctx, s: Tree, mh: Time, red: bool) returns (k: nat)
    requires t.Branch? && Plug(ci, s) == t.right && Before(ci) == [] && s.Branch? && s.left.Leaf?
    ensures var whole, w := Inorder(Plug(c, t)), Whole(Append(ci, InRight(t.left, s.node, mh, red, c)), s.right);
      k < |whole| && whole[k] == t.node && w == WithoutAt(whole, k) && (Sorted(whole) ==> Sorted(w))
  {
    hide Plug, Append, Inorder, Before, After, Sorted;
    var b, l, z, a := Before(c), Inorder(t.left), t.node, After(c);
    var y, r, e := s.node, Inorder(s.right), After(ci);
    var whole := Inorder(Plug(c, t));
    k := |b| + |l|;
    OtherPieces(c, t, ci, s, mh, red);
    SplitAt(b, l, z, [y] + r + e, a);
    TakeOver(b, l, y, r, e, a);
    if Sorted(whole) {
      SortedWithout(whole, k);
    }
  }

  lemma OtherPieces(c: Ctx, t: Tree, ci: Ctx, s: Tree, mh: Time, red: bool)
    requires t.Branch? && Plug(ci, s) == t.right && Before(ci) == [] && s.Branch? && s.left.Leaf?
    ensures var b, l, a, y, r, e := Before(c), Inorder(t.left), After(c), s.node, Inorder(s.right), After(ci);
      && Inorder(Plug(c, t)) == b + (l + [t.node] + ([y] + r + e)) + a
      && Whole(Append(ci, InRight(t.left, y, mh, red, c)), s.right) == (b + l + [y] + []) + r + (e + a)
  {
    hide Append, Plug;
    OtherRight(t, ci, s);
    InorderPlug(c, t);
    AppendOrder(ci, InRight(t.left, s.node, mh, red, c));
  }

  lemma OtherRight(t: Tree, ci: Ctx, s: Tree)
    requires t.Branch? && Plug(ci, s) == t.right && Before(ci) == [] && s.Branch? && s.left.Leaf?
    ensures Inorder(t) == Inorder(t.left) + [t.node] + ([s.node] + Inorder(s.right) + After(ci))
  {
    hide Plug, After;
    InorderPlug(ci, s);
    Front(s.node, Inorder(s.right), After(ci));
    assert Inorder(s.left) == [];
  }

  lemma Front<T>(x: T, r: seq<T>, e: seq<T>)
    ensures [] + ([] + [x] + r) + e == [x] + r + e
  {
  }

  lemma TakeOver<T>(b: seq<T>, l: seq<T>, y: T, r: seq<T>, e: seq<T>, a: seq<T>)
    ensures (b + l + [y] + []) + r + (e + a) == (b + l) + (([y] + r + e) + a)
  {
  }
}
