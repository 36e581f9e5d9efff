/** The interval tree: nodes linked by left, right and parent, a shared `nil`, and a dummy `root`
    whose left child is the tree. */
module IntervalTrees {
  import opened IntervalQueries
  import opened RedBlack
  import opened RedBlackDeletion
  import opened RedBlackInsertion
  import opened Snapshots

  class IntervalTree {
    const nil: Node
    const root: Node
    ghost var repr: set<Node>
    ghost var tree: Tree
    var stack: array<Frame>
    var stackSize: nat
    var stackTop: nat
    var currentParent: nat

    constructor ()
      ensures Valid() && tree == Leaf && fresh(repr) && Contents() == [] && WellFormed(tree)
      ensures Ready() && fresh(stack)
    {
      nil := new Node.Sentinel(-MAX_TIME);
      root := new Node.Sentinel(MAX_TIME);
      stackSize, stackTop, currentParent := 128, 1, 0;
      stack := new Frame[128](_ => Frame(null, 0, false));
      tree := Leaf;
      new;
      root.parent, root.left, root.right := nil, nil, nil;
      repr := {nil, root};
      assert Balanced(Leaf, 0);
    }

    ghost function CellOf(n: Node): Cell
      reads n
    {
      Cell(n.left, n.right, n.parent, n.maxHigh, n.red)
    }

    ghost function Snap(): Mem
      reads this`repr, repr
    {
      Mem(nil, root, map n | n in repr :: CellOf(n))
    }

    /** The heap holds Plug(c, t), seen from t. */
    ghost predicate Holds(c: Ctx, t: Tree)
      reads this`repr, repr
    {
      repr == CNodes(c) + Nodes(t) + {nil, root} && Focus(c, t, Snap())
      && !nil.red && nil.maxHigh == -MAX_TIME && !root.red && root.right == nil
    }

    method LeftRotate(x: Node)
      requires x.right != x && x.parent != x && x.right.left !in {x, x.right, x.parent}
      requires x.right !in {x.parent, x.right.right} && x.right.right != x
      modifies x, x.right, {x.parent}`left, {x.parent}`right
      modifies (if x.right.left != nil then {x.right.left} else {})`parent
      ensures var y := old(x.right); var b := old(y.left); var p := old(x.parent);
        && CellOf(x) == Cell(old(x.left), b, y, Max(old(x.left.maxHigh), Max(old(b.maxHigh), x.high)), old(x.red))
        && CellOf(y) == Cell(x, old(y.right), p, Max(x.maxHigh, Max(old(y.right.maxHigh), y.high)), old(y.red))
        && CellOf(p) == (if old(p.left) == x then old(CellOf(p)).(left := y) else old(CellOf(p)).(right := y))
        && (b != nil ==> CellOf(b) == old(CellOf(b)).(parent := x))
    {
      var y := x.right;
      x.right := y.left;
      if y.left != nil {
        y.left.parent := x;
      }
      y.parent := x.parent;
      if x == x.parent.left {
        x.parent.left := y;
      } else {
        x.parent.right := y;
      }
      y.left := x;
      x.parent := y;
      x.maxHigh := Max(x.left.maxHigh, Max(x.right.maxHigh, x.high));
      y.maxHigh := Max(x.maxHigh, Max(y.right.maxHigh, y.high));
    }

    /** What the fields say at and around the root of t. */
    lemma Look(c: Ctx, t: Tree)
      requires Holds(c, t)
      ensures Snap().nil == nil && Snap().root == root && nil in repr && root in repr && nil != root
      ensures t.Leaf? ==> RootOf(t, Snap()) == nil
      ensures t.Branch? ==> t.node in repr && t.node !in {nil, root}
      ensures t.Branch? ==>
        CellOf(t.node) == Cell(RootOf(t.left, Snap()), RootOf(t.right, Snap()), HoleParent(c, Snap()), t.maxHigh, t.red)
      ensures RootOf(t, Snap()) in repr && RootOf(t, Snap()).maxHigh == MaxOf(t) && RootOf(t, Snap()).red == Red(t)
      ensures HoleParent(c, Snap()) in repr && HoleParent(c, Snap()) != nil && HoleParent(c, Snap()) !in Nodes(t)
      ensures c.Top? ==> root.left == RootOf(t, Snap())
      ensures c.InLeft? ==> c.node.left == RootOf(t, Snap()) && c.node != root
      ensures c.InRight? ==> c.node.right == RootOf(t, Snap()) && c.node != root
      ensures c.InRight? && t.Branch? ==> c.node.left != t.node
      ensures c.InLeft? && t.Branch? ==> c.node.right != t.node
    {
      CParts(c);
      if c.InRight? {
        Parts(c.left);
      } else if c.InLeft? {
        Parts(c.right);
      }
      Parts(t);
      assert Apart(c, t, Snap());
    }

    /** Two levels of the tree at t's root, for a left rotation. */
    lemma LookRight(c: Ctx, t: Tree)
      requires t.Branch? && t.right.Branch? && Holds(c, t)
      ensures var m, p, x, y := Snap(), HoleParent(c, Snap()), t.node, t.right.node;
        var a, b, d := RootOf(t.left, m), RootOf(t.right.left, m), RootOf(t.right.right, m);
        && CellOf(x) == Cell(a, y, p, t.maxHigh, t.red) && CellOf(y) == Cell(b, d, x, t.right.maxHigh, t.right.red)
        && a.maxHigh == MaxOf(t.left) && b.maxHigh == MaxOf(t.right.left) && d.maxHigh == MaxOf(t.right.right)
        && x in repr && y in repr && b in repr && p in repr && p != nil && m.nil == nil && m.root == root
        && x != y && p !in {x, y} && b !in {x, y, p, root} && d !in {x, y} && x !in {nil, root} && y !in {nil, root}
        && (c.InRight? ==> p.left != x && p.right == x && p != root) && (!c.InRight? ==> p.left == x)
            && (c.Top? <==> p == root)
    {
      var m, x, y := Snap(), t.node, t.right.node;
      var inR := InRight(t.left, x, t.maxHigh, t.red, c);
      Look(c, t);
      FocusUp(inR, t.right, m);
      Look(inR, t.right);
      FocusUp(InLeft(x, t.maxHigh, t.red, t.right, c), t.left, m);
      Look(InLeft(x, t.maxHigh, t.red, t.right, c), t.left);
      FocusUp(InLeft(y, t.right.maxHigh, t.right.red, t.right.right, inR), t.right.left, m);
      Look(InLeft(y, t.right.maxHigh, t.right.red, t.right.right, inR), t.right.left);
      FocusUp(InRight(t.right.left, y, t.right.maxHigh, t.right.red, inR), t.right.right, m);
      Look(InRight(t.right.left, y, t.right.maxHigh, t.right.red, inR), t.right.right);
      Parts(t);
      Parts(t.right);
      Parts(t.right.left);
      CParts(c);
      hide Shape, CShape, Sep, CSep, Nodes, CNodes;
    }

    /** A left rotation, as it shows in the snapshot. */
    method LeftRotateSnap(x: Node)
      requires x.right != x && x.parent != x && x.right.left !in {x, x.right, x.parent}
      requires x.right !in {x.parent, x.right.right} && x.right.right != x && nil !in {x, x.right, x.parent}
      requires x in repr && x.right in repr && x.right.left in repr && x.parent in repr
      modifies x, x.right, {x.parent}`left, {x.parent}`right
      modifies (if x.right.left != nil then {x.right.left} else {})`parent
      ensures var y, b, p, m := old(x.right), old(x.right.left), old(x.parent), old(Snap());
        && Only({x, y, b, p}, m, Snap()) && unchanged(nil)
        && At(x, Cell(old(x.left), b, y, Max(old(x.left.maxHigh), Max(old(b.maxHigh), x.high)), old(x.red)), Snap())
        && At(y, Cell(x, old(y.right), p, Max(x.maxHigh, Max(old(y.right.maxHigh), y.high)), old(y.red)), Snap())
        && At(p, if old(p.left) == x then m.cells[p].(left := y) else m.cells[p].(right := y), Snap())
        && (b != nil ==> At(b, m.cells[b].(parent := x), Snap()))
    {
      LeftRotate(x);
    }

    method RotateLeftAt(x: Node, ghost c: Ctx, ghost t: Tree)
      requires t.Branch? && t.right.Branch? && x == t.node && Holds(c, t)
      modifies repr
      ensures Holds(c, RotatedLeft(t)) && unchanged(nil)
    {
      hide Nodes, CNodes, Sep, CSep, Shape, CShape, Focus, Apart;
      ghost var m := Snap();
      LookRight(c, t);
      HoldsParts(c, t);
      RotatedLeftNodes(t);
      LeftRotateSnap(x);
      RotatedLeftFocus(c, t, m, Snap());
    }

    /** Two levels of the tree at t's root, for a right rotation. */
    lemma LookLeft(c: Ctx, t: Tree)
      requires t.Branch? && t.left.Branch? && Holds(c, t)
      ensures var m, p, x, y := Snap(), HoleParent(c, Snap()), t.node, t.left.node;
        var a, b, d := RootOf(t.right, m), RootOf(t.left.right, m), RootOf(t.left.left, m);
        && CellOf(x) == Cell(y, a, p, t.maxHigh, t.red) && CellOf(y) == Cell(d, b, x, t.left.maxHigh, t.left.red)
        && a.maxHigh == MaxOf(t.right) && b.maxHigh == MaxOf(t.left.right) && d.maxHigh == MaxOf(t.left.left)
        && x in repr && y in repr && b in repr && p in repr && p != nil && m.nil == nil && m.root == root
        && x != y && p !in {x, y} && b !in {x, y, p, root} && d !in {x, y} && x !in {nil, root} && y !in {nil, root}
        && (c.InRight? ==> p.left != x && p.right == x && p != root) && (!c.InRight? ==> p.left == x)
            && (c.Top? <==> p == root)
    {
      var m, x, y := Snap(), t.node, t.left.node;
      var inL := InLeft(x, t.maxHigh, t.red, t.right, c);
      Look(c, t);
      FocusUp(inL, t.left, m);
      Look(inL, t.left);
      FocusUp(InRight(t.left, x, t.maxHigh, t.red, c), t.right, m);
      Look(InRight(t.left, x, t.maxHigh, t.red, c), t.right);
      FocusUp(InRight(t.left.left, y, t.left.maxHigh, t.left.red, inL), t.left.right, m);
      Look(InRight(t.left.left, y, t.left.maxHigh, t.left.red, inL), t.left.right);
      FocusUp(InLeft(y, t.left.maxHigh, t.left.red, t.left.right, inL), t.left.left, m);
      Look(InLeft(y, t.left.maxHigh, t.left.red, t.left.right, inL), t.left.left);
      Parts(t);
      Parts(t.left);
      Parts(t.left.right);
      CParts(c);
      hide Shape, CShape, Sep, CSep, Nodes, CNodes;
    }

    method RightRotate(y: Node)
      requires y.left != y && y.parent != y && y.left.right !in {y, y.left, y.parent}
      requires y.left !in {y.parent, y.left.left} && y.left.left != y
      modifies y, y.left, {y.parent}`left, {y.parent}`right
      modifies (if y.left.right != nil then {y.left.right} else {})`parent
      ensures var x := old(y.left); var b := old(x.right); var p := old(y.parent);
        && CellOf(y) == Cell(b, old(y.right), x, Max(old(b.maxHigh), Max(old(y.right.maxHigh), y.high)), old(y.red))
        && CellOf(x) == Cell(old(x.left), y, p, Max(old(x.left.maxHigh), Max(y.maxHigh, x.high)), old(x.red))
        && CellOf(p) == (if old(p.left) == y then old(CellOf(p)).(left := x) else old(CellOf(p)).(right := x))
        && (b != nil ==> CellOf(b) == old(CellOf(b)).(parent := y))
    {
      var x := y.left;
      y.left := x.right;
      if nil != x.right {
        x.right.parent := y;
      }
      x.parent := y.parent;
      if y == y.parent.left {
        y.parent.left := x;
      } else {
        y.parent.right := x;
      }
      x.right := y;
      y.parent := x;
      y.maxHigh := Max(y.left.maxHigh, Max(y.right.maxHigh, y.high));
      x.maxHigh := Max(x.left.maxHigh, Max(y.maxHigh, x.high));
    }

    /** A right rotation, as it shows in the snapshot. */
    method RightRotateSnap(y: Node)
      requires y.left != y && y.parent != y && y.left.right !in {y, y.left, y.parent}
      requires y.left !in {y.parent, y.left.left} && y.left.left != y && nil !in {y, y.left, y.parent}
      requires y in repr && y.left in repr && y.left.right in repr && y.parent in repr
      modifies y, y.left, {y.parent}`left, {y.parent}`right
      modifies (if y.left.right != nil then {y.left.right} else {})`parent
      ensures var x, b, p, m := old(y.left), old(y.left.right), old(y.parent), old(Snap());
        && Only({x, y, b, p}, m, Snap()) && unchanged(nil)
        && At(y, Cell(b, old(y.right), x, Max(old(b.maxHigh), Max(old(y.right.maxHigh), y.high)), old(y.red)), Snap())
        && At(x, Cell(old(x.left), y, p, Max(old(x.left.maxHigh), Max(y.maxHigh, x.high)), old(x.red)), Snap())
        && At(p, if old(p.left) == y then m.cells[p].(left := x) else m.cells[p].(right := x), Snap())
        && (b != nil ==> At(b, m.cells[b].(parent := y), Snap()))
    {
      RightRotate(y);
    }

    method RotateRightAt(x: Node, ghost c: Ctx, ghost t: Tree)
      requires t.Branch? && t.left.Branch? && x == t.node && Holds(c, t)
      modifies repr
      ensures Holds(c, RotatedRight(t)) && unchanged(nil)
    {
      hide Nodes, CNodes, Sep, CSep, Shape, CShape, Focus, Apart;
      ghost var m := Snap();
      LookLeft(c, t);
      HoldsParts(c, t);
      RotatedRightNodes(t);
      RightRotateSnap(x);
      RotatedRightFocus(c, t, m, Snap());
    }

    // ---------- moving the focus ----------

    lemma HoldsParts(c: Ctx, t: Tree)
      requires Holds(c, t)
      ensures Focus(c, t, Snap()) && repr == CNodes(c) + Nodes(t) + {nil, root}
      ensures !nil.red && nil.maxHigh == -MAX_TIME && !root.red && root.right == nil
      ensures nil !in Nodes(t) && nil !in CNodes(c) && root !in Nodes(t) && root !in CNodes(c) && nil != root && Sep(t)
    {
    }

    lemma HoldsIf(c: Ctx, t: Tree)
      requires Focus(c, t, Snap()) && repr == CNodes(c) + Nodes(t) + {nil, root}
      requires !nil.red && nil.maxHigh == -MAX_TIME && !root.red && root.right == nil
      ensures Holds(c, t)
    {
    }

    lemma NodesOf(t: Tree)
      ensures t.Branch? ==> Nodes(t) == Nodes(t.left) + {t.node} + Nodes(t.right)
    {
    }

    lemma Up(c: Ctx, t: Tree)
      ensures !c.Top? ==> (Holds(c, t) <==> Holds(c.up, Fill(c, t)))
    {
      FocusUp(c, t, Snap());
    }

    lemma {:induction false} Zip(c: Ctx, t: Tree)
      ensures Holds(Top, Plug(c, t)) <==> Holds(c, t)
    {
      if !c.Top? {
        Up(c, t);
        Zip(c.up, Fill(c, t));
      }
    }

    /** The children of the root of t. */
    lemma LookDown(c: Ctx, t: Tree)
      requires Holds(c, t) && t.Branch?
      ensures t.node in repr && t.node.left == RootOf(t.left, Snap()) && t.node.right == RootOf(t.right, Snap())
      ensures t.node.left in repr && t.node.left.maxHigh == MaxOf(t.left) && t.node.left.red == Red(t.left)
      ensures t.node.right in repr && t.node.right.maxHigh == MaxOf(t.right) && t.node.right.red == Red(t.right)
    {
      Look(c, t);
      Up(InLeft(t.node, t.maxHigh, t.red, t.right, c), t.left);
      Look(InLeft(t.node, t.maxHigh, t.red, t.right, c), t.left);
      Up(InRight(t.left, t.node, t.maxHigh, t.red, c), t.right);
      Look(InRight(t.left, t.node, t.maxHigh, t.red, c), t.right);
    }

    /** The parent of the focus, and its other child. */
    lemma LookUp(c: Ctx, t: Tree)
      requires Holds(c, t)
      ensures c.Top? ==> HoleParent(c, Snap()) == root && !root.red && root.left == RootOf(t, Snap())
      ensures root.right == nil
      ensures t.Branch? ==> t.node.parent == HoleParent(c, Snap()) && t.node in repr
      ensures !c.Top? ==>
        HoleParent(c, Snap()) == c.node && c.node in repr && c.node.red == c.red && c.node !in {nil, root}
      ensures !c.Top? ==> c.node.parent == HoleParent(c.up, Snap()) && c.node.parent in repr
      ensures c.InLeft? ==> c.node.left == RootOf(t, Snap()) && c.node.right == RootOf(c.right, Snap())
      ensures c.InRight? ==> c.node.right == RootOf(t, Snap()) && c.node.left == RootOf(c.left, Snap())
      ensures c.InRight? && t.Branch? ==> c.node.left != t.node
      ensures c.InLeft? && t.Branch? ==> c.node.right != t.node
      ensures !c.Top? ==> RootOf(Sibling(c), Snap()) in repr && RootOf(Sibling(c), Snap()).red == Red(Sibling(c))
      ensures !c.Top? && Sibling(c).Leaf? ==> RootOf(Sibling(c), Snap()) == nil
      ensures !c.Top? && Sibling(c).Branch? ==> Sibling(c).node !in {nil, RootOf(t, Snap())}
    {
      Look(c, t);
      if !c.Top? {
        Parts(Sibling(c));
        Parts(t);
        CParts(c);
        Up(c, t);
        Look(c.up, Fill(c, t));
        LookDown(c.up, Fill(c, t));
      }
    }

    /** n->red = red, for the node at the focus. */
    method Paint(n: Node, red: bool, ghost c: Ctx, ghost t: Tree)
      requires t.Branch? && n == t.node && Holds(c, t)
      modifies repr
      ensures Holds(c, t.(red := red)) && unchanged(nil)
    {
      ghost var m := Snap();
      Look(c, t);
      hide Shape, CShape, Sep, CSep, CNodes;
      n.red := red;
      RewrittenFocus(c, t, t.maxHigh, red, m, Snap());
    }

    method SetMaxHigh(n: Node, maxHigh: Time, ghost c: Ctx, ghost t: Tree)
      requires t.Branch? && n == t.node && Holds(c, t)
      modifies repr
      ensures Holds(c, t.(maxHigh := maxHigh)) && unchanged(nil) && n.maxHigh == maxHigh
    {
      ghost var m := Snap();
      Look(c, t);
      n.maxHigh := maxHigh;
      RewrittenFocus(c, t, maxHigh, t.red, m, Snap());
    }

    // ---------- insertion ----------

    method FixupMaxHigh(start: Node, ghost c: Ctx, ghost t: Tree)
      requires Holds(c, t) && start == HoleParent(c, Snap())
      modifies repr
      ensures Holds(Refreshed(c, MaxOf(t)), t) && unchanged(nil)
    {
      hide Holds, Focus, Snap, Nodes, CNodes, Plug;
      var x := start;
      ghost var u, s := c, t;
      Look(c, t);
      while x != root
        invariant Holds(u, s) && x == HoleParent(u, Snap()) && unchanged(nil)
        invariant Plug(Refreshed(u, MaxOf(s)), s) == Plug(Refreshed(c, MaxOf(t)), t)
        decreases u
      {
        Look(u, s);
        PlugRefreshed(u, s);
        ghost var v, w := u.up, Fill(u, s);
        Up(u, s);
        LookDown(v, w);
        SetMaxHigh(x, Max(x.high, Max(x.left.maxHigh, x.right.maxHigh)), v, w);
        u, s := v, w.(maxHigh := x.maxHigh);
        Look(u, s);
        x := x.parent;
      }
      Look(u, s);
      PlugRefreshed(u, s);
      Zip(Refreshed(c, MaxOf(t)), t);
    }

    /** The end of the descent: z becomes a child of y, where c has its hole. */
    method Attach(z: Node, y: Node, ghost c: Ctx)
      requires Holds(c, Leaf) && z !in repr && y == HoleParent(c, Snap()) && z.left == z.right == nil
      requires c.InLeft? ==> y.key > z.key
      requires c.InRight? ==> y.key <= z.key
      modifies this`repr, z`parent, y`left, y`right
      ensures repr == old(repr) + {z} && unchanged(nil)
      ensures Holds(c, Branch(Leaf, z, z.maxHigh, z.red, Leaf))
    {
      hide Holds, Nodes, CNodes, Sep, CSep, Shape, CShape, Focus, Apart;
      ghost var m, u := Snap(), Branch(Leaf, z, z.maxHigh, z.red, Leaf);
      HoldsParts(c, Leaf);
      NodesOf(Leaf);
      NodesOf(u);
      Look(c, Leaf);
      z.parent := y;
      if y == root || y.key > z.key {
        y.left := z;
      } else {
        y.right := z;
      }
      repr := repr + {z};
      AttachedFocus(c, z, z.maxHigh, z.red, m, Snap());
      HoldsIf(c, u);
    }

    /** Walks down from the root to the leaf position where a key belongs, after every equal key. */
    method Descend(key: Time) returns (y: Node, ghost c: Ctx)
      requires Holds(Top, tree) && Sorted(Inorder(tree))
      ensures Plug(c, Leaf) == tree && Holds(c, Leaf) && y == HoleParent(c, Snap())
      ensures forall n :: n in Before(c) ==> n.key <= key
      ensures forall n :: n in After(c) ==> n.key > key
      ensures c.InLeft? ==> y.key > key
      ensures c.InRight? ==> y.key <= key
    {
      y := root;
      var x := root.left;
      c := Top;
      ghost var t := tree;
      Look(c, t);
      while x != nil
        invariant Holds(c, t) && Plug(c, t) == tree && x == RootOf(t, Snap()) && y == HoleParent(c, Snap())
        invariant forall n :: n in Before(c) ==> n.key <= key
        invariant forall n :: n in After(c) ==> n.key > key
        decreases t
      {
        y := x;
        SortedParts(c, t);
        Look(c, t);
        if x.key > key {
          x := x.left;
          c, t := InLeft(y, t.maxHigh, t.red, t.right, c), t.left;
        } else {
          x := x.right;
          c, t := InRight(t.left, y, t.maxHigh, t.red, c), t.right;
        }
        Up(c, t);
      }
      Look(c, t);
    }

    /** Links the fresh node z in as a leaf, after every node whose key is not greater. */
    method RecursiveInsert(z: Node) returns (ghost c: Ctx)
      requires Holds(Top, tree) && Sorted(Inorder(tree)) && z !in repr
      modifies this`repr, z`left, z`right, z`parent, repr
      ensures Plug(c, Leaf) == tree && repr == old(repr) + {z} && unchanged(nil)
      ensures z.maxHigh == old(z.maxHigh) && z.red == old(z.red)
      ensures Holds(c, Branch(Leaf, z, z.maxHigh, z.red, Leaf))
      ensures forall n :: n in Before(c) ==> n.key <= z.key
      ensures forall n :: n in After(c) ==> n.key > z.key
    {
      hide Holds, Focus, Snap, Sorted, Inorder, Plug, Nodes;
      Look(Top, tree);
      z.left, z.right := nil, nil;
      var y;
      y, c := Descend(z.key);
      Look(c, Leaf);
      Attach(z, y, c);
    }

    method Recolour(x0: Node, y: Node, ghost c: Ctx, ghost t: Tree, ghost total: nat, ghost order: seq<Node>)
      returns (x: Node, ghost c': Ctx, ghost t': Tree)
      requires Holds(c, t) && Fixing(c, t, total, order) && x0 == RootOf(t, Snap())
      requires !c.Top? && c.red && !c.up.Top? && Red(Sibling(c.up)) && y == Sibling(c.up).node
      modifies repr
      ensures Holds(c', t') && Fixing(c', t', total, order) && x == RootOf(t', Snap()) && unchanged(nil)
      ensures Depth(c') < Depth(c)
    {
      hide Holds, Focus, Nodes, CNodes, Fixing;
      x := x0;
      FixingIsRed(c, t, total, order);
      FixRecoloured(c, t, total, order);
      ghost var g, w, u := c.up, Painted(Fill(c, t), false), Painted(Sibling(c.up), false);
      LookUp(c, t);
      var p, gp := x.parent, x.parent.parent;
      Up(c, t);
      Paint(p, false, g, Fill(c, t));
      Up(g, w);
      Up(Across(g, w), Sibling(g));
      Paint(y, false, Across(g, w), Sibling(g));
      Up(Across(g, w), u);
      Paint(gp, true, g.up, Fill(Across(g, w), u));
      x := gp;
      c', t' := g.up, Fill(Beside(g, true, u), w);
    }

    method OuterLeft(x: Node, ghost c: Ctx, ghost t: Tree, ghost total: nat, ghost order: seq<Node>)
      returns (ghost c': Ctx)
      requires Holds(c, t) && Fixing(c, t, total, order) && x == RootOf(t, Snap())
      requires c.InLeft? && c.red && c.up.InLeft? && !Red(Sibling(c.up))
      modifies repr
      ensures Holds(c', t) && Fixing(c', t, total, order) && x == RootOf(t, Snap()) && unchanged(nil)
      ensures c'.InLeft? && !c'.red
    {
      hide Holds, Focus, Nodes, CNodes, Fixing;
      FixingIsRed(c, t, total, order);
      FixOuterLeft(c, t, total, order);
      ghost var g, w, v := c.up, Painted(Fill(c, t), false), Repainted(c, t);
      LookUp(c, t);
      var p, gp := x.parent, x.parent.parent;
      Up(c, t);
      Paint(p, false, g, Fill(c, t));
      Up(g, w);
      Paint(gp, true, g.up, Fill(g, w));
      RotateRightAt(gp, g.up, v);
      ghost var u := RotatedRight(v);
      c' := InLeft(u.node, u.maxHigh, false, u.right, g.up);
      Up(c', t);
    }

    method OuterRight(x: Node, ghost c: Ctx, ghost t: Tree, ghost total: nat, ghost order: seq<Node>)
      returns (ghost c': Ctx)
      requires Holds(c, t) && Fixing(c, t, total, order) && x == RootOf(t, Snap())
      requires c.InRight? && c.red && c.up.InRight? && !Red(Sibling(c.up))
      modifies repr
      ensures Holds(c', t) && Fixing(c', t, total, order) && x == RootOf(t, Snap()) && unchanged(nil)
      ensures c'.InRight? && !c'.red
    {
      hide Holds, Focus, Nodes, CNodes, Fixing;
      FixingIsRed(c, t, total, order);
      FixOuterRight(c, t, total, order);
      ghost var g, w, v := c.up, Painted(Fill(c, t), false), Repainted(c, t);
      LookUp(c, t);
      var p, gp := x.parent, x.parent.parent;
      Up(c, t);
      Paint(p, false, g, Fill(c, t));
      Up(g, w);
      Paint(gp, true, g.up, Fill(g, w));
      RotateLeftAt(gp, g.up, v);
      ghost var u := RotatedLeft(v);
      c' := InRight(u.left, u.node, u.maxHigh, false, g.up);
      Up(c', t);
    }

    /** The body of insert's loop when the parent is a left child. */
    method InsertStepLeft(x0: Node, ghost c: Ctx, ghost t: Tree, ghost total: nat, ghost order: seq<Node>)
      returns (x: Node, ghost c': Ctx, ghost t': Tree)
      requires Holds(c, t) && Fixing(c, t, total, order) && x0 == RootOf(t, Snap()) && !c.Top? && c.red && c.up.InLeft?
      modifies repr
      ensures Holds(c', t') && Fixing(c', t', total, order) && x == RootOf(t', Snap()) && unchanged(nil)
      ensures !c'.Top? && c'.red ==> Depth(c') < Depth(c)
    {
      hide Holds, Focus, Nodes, CNodes, Fixing;
      FixingIsRed(c, t, total, order);
      x, c', t' := x0, c, t;
      LookUp(c, t);
      Up(c, t);
      LookUp(c.up, Fill(c, t));
      var y := x.parent.parent.right;
      if y.red {
        x, c', t' := Recolour(x, y, c, t, total, order);
      } else {
        if x == x.parent.right {
          x := x.parent;
          FixInnerLeft(c, t, total, order);
          RotateLeftAt(x, c.up, Fill(c, t));
          ghost var w := RotatedLeft(Fill(c, t));
          c', t' := InLeft(w.node, w.maxHigh, w.red, w.right, c.up), w.left;
          Up(c', t');
        }
        c' := OuterLeft(x, c', t', total, order);
      }
    }

    /** The body of insert's loop when the parent is a right child. */
    method InsertStepRight(x0: Node, ghost c: Ctx, ghost t: Tree, ghost total: nat, ghost order: seq<Node>)
      returns (x: Node, ghost c': Ctx, ghost t': Tree)
      requires Holds(c, t) && Fixing(c, t, total, order) && x0 == RootOf(t, Snap()) && !c.Top? && c.red && c.up.InRight?
      modifies repr
      ensures Holds(c', t') && Fixing(c', t', total, order) && x == RootOf(t', Snap()) && unchanged(nil)
      ensures !c'.Top? && c'.red ==> Depth(c') < Depth(c)
    {
      hide Holds, Focus, Nodes, CNodes, Fixing;
      FixingIsRed(c, t, total, order);
      x, c', t' := x0, c, t;
      LookUp(c, t);
      Up(c, t);
      LookUp(c.up, Fill(c, t));
      var y := x.parent.parent.left;
      if y.red {
        x, c', t' := Recolour(x, y, c, t, total, order);
      } else {
        if x == x.parent.left {
          x := x.parent;
          FixInnerRight(c, t, total, order);
          RotateRightAt(x, c.up, Fill(c, t));
          ghost var w := RotatedRight(Fill(c, t));
          c', t' := InRight(w.left, w.node, w.maxHigh, w.red, c.up), w.right;
          Up(c', t');
        }
        c' := OuterRight(x, c', t', total, order);
      }
    }

    /** The fields of a well-formed interval tree. A caller with many calls verifies quicker under `hide *`. */
    ghost predicate Valid()
      reads this`repr, this`tree, repr
    {
      Holds(Top, tree) && RedBlackTree(tree) && MaxOk(tree) && Sorted(Inorder(tree)) && Storing(Inorder(tree))
    }

    /** The stored intervals, in the order of their low ends. */
    ghost function Contents(): seq<Interval?>
      reads this`tree
    {
      Intervals(Inorder(tree))
    }

    /** insert's loop: recolours and rotates until the red node's parent is black. */
    method InsertFixup(start: Node, ghost c0: Ctx, ghost t0: Tree, ghost total: nat, ghost order: seq<Node>)
      returns (ghost c: Ctx, ghost t: Tree)
      requires Holds(c0, t0) && Fixing(c0, t0, total, order) && start == RootOf(t0, Snap())
      modifies repr
      ensures Holds(c, t) && Fixing(c, t, total, order) && (!c.Top? ==> !c.red) && unchanged(nil)
    {
      hide Holds, Focus, Nodes, CNodes, Fixing;
      var x := start;
      c, t := c0, t0;
      LookUp(c, t);
      FixingIsRed(c, t, total, order);
      while x.parent.red
        invariant Holds(c, t) && Fixing(c, t, total, order) && x == RootOf(t, Snap()) && unchanged(nil)
        invariant x.parent.red == (!c.Top? && c.red)
        decreases if !c.Top? && c.red then 1 + Depth(c) else 0
      {
        LookUp(c, t);
        Up(c, t);
        FixingIsRed(c, t, total, order);
        LookUp(c.up, Fill(c, t));
        if x.parent == x.parent.parent.left {
          x, c, t := InsertStepLeft(x, c, t, total, order);
        } else {
          x, c, t := InsertStepRight(x, c, t, total, order);
        }
        LookUp(c, t);
        FixingIsRed(c, t, total, order);
      }
    }

    lemma TiedNew(n: Node, interval: Interval)
      requires n.stored == interval && n.key == interval.low && n.high == interval.high
      ensures Tied(n)
    {
    }

    lemma HoldsNodes(t: Tree)
      requires Holds(Top, t)
      ensures Nodes(t) == repr - {nil, root} && nil in repr && root in repr
    {
    }

    /** What the order says of the intervals when a node is put into it. */
    lemma WellFormedMore(before: Tree, after: Tree, n: Node, i: nat)
      requires i <= |Inorder(before)| && Inorder(after) == Inorder(before)[..i] + [n] + Inorder(before)[i..]
      requires Tied(n) && Storing(Inorder(before))
      ensures Storing(Inorder(after))
      ensures |Intervals(Inorder(before))| == |Inorder(before)|
      ensures Intervals(Inorder(after)) ==
        Intervals(Inorder(before))[..i] + [n.stored] + Intervals(Inorder(before))[i..]
      ensures WellFormed(before) && n.key <= n.high ==> WellFormed(after)
    {
      hide Tied, Inorder, WellFormed;
      WellFormedOrder(before);
      WellFormedOrder(after);
    }

    /** The same when a node is taken out. */
    lemma WellFormedLess(before: Tree, after: Tree, k: nat)
      requires k < |Inorder(before)| && Inorder(after) == WithoutAt(Inorder(before), k) && Storing(Inorder(before))
      ensures Storing(Inorder(after))
      ensures |Intervals(Inorder(before))| == |Inorder(before)|
      ensures Intervals(Inorder(after)) == Intervals(Inorder(before))[..k] + Intervals(Inorder(before))[k + 1..]
      ensures WellFormed(before) ==> WellFormed(after)
    {
      hide Tied, Inorder, WellFormed;
      WellFormedOrder(before);
      WellFormedOrder(after);
    }

    /** Puts a fresh node in its place and repairs the tree. */
    method InsertNode(x: Node) returns (ghost i: nat)
      requires Holds(Top, tree) && RedBlackTree(tree) && MaxOk(tree) && Sorted(Inorder(tree))
      requires x !in repr && x.maxHigh == x.high && !x.red
      modifies this`tree, this`repr, repr, x
      ensures Holds(Top, tree) && RedBlackTree(tree) && MaxOk(tree) && Sorted(Inorder(tree))
      ensures repr == old(repr) + {x}
      ensures i <= |old(Inorder(tree))| && Inorder(tree) == old(Inorder(tree)[..i]) + [x] + old(Inorder(tree)[i..])
      ensures forall n :: n in old(Inorder(tree)[..i]) ==> n.key <= x.key
      ensures forall n :: n in old(Inorder(tree)[i..]) ==> n.key > x.key
    {
      hide Holds, Focus, Nodes, CNodes, Fixing, Plug, Refreshed, RedBlackTree, MaxOk;
      ghost var c := RecursiveInsert(x);
      ghost var t := Branch(Leaf, x, x.maxHigh, x.red, Leaf);
      LookUp(c, t);
      FixupMaxHigh(x.parent, c, t);
      i := |Before(c)|;
      ghost var order, total := InsertStart(tree, c, x);
      c := Refreshed(c, MaxOf(t));
      LookUp(c, t);
      Paint(x, true, c, t);
      LookUp(c, Painted(t, true));
      c, t := InsertFixup(x, c, Painted(t, true), total, order);
      InsertEnd(c, t, total, order);
      Zip(c, t);
      tree := Plug(c, t);
      Look(Top, tree);
      Paint(root.left, false, Top, tree);
      tree := Painted(tree, false);
    }

    method Insert(interval: Interval) returns (newNode: Node, ghost i: nat)
      requires Valid()
      modifies this`tree, this`repr, repr
      ensures Valid() && fresh(newNode) && Tied(newNode) && newNode.stored == interval
      ensures repr == old(repr) + {newNode} && Nodes(tree) == old(Nodes(tree)) + {newNode}
      ensures i <= |old(Contents())| && Contents() == old(Contents()[..i]) + [interval] + old(Contents()[i..])
      ensures old(WellFormed(tree)) && interval.low <= interval.high ==> WellFormed(tree)
      ensures i <= |old(Inorder(tree))|
        && Inorder(tree) == old(Inorder(tree)[..i]) + [newNode] + old(Inorder(tree)[i..])
      ensures forall n :: n in old(Inorder(tree)[..i]) ==> n.key <= interval.low
      ensures forall n :: n in old(Inorder(tree)[i..]) ==> n.key > interval.low
    {
      hide Holds, Nodes, RedBlackTree, MaxOk, WellFormed, Tied, Storing, Intervals, Inorder, Sorted;
      HoldsNodes(tree);
      ghost var before := tree;
      newNode := new Node(interval);
      i := InsertNode(newNode);
      HoldsNodes(tree);
      TiedNew(newNode, interval);
      WellFormedMore(before, tree, newNode, i);
    }

    // ---------- deletion ----------

    /** The whole tree's root. */
    lemma LookRoot(c: Ctx, t: Tree)
      requires Holds(c, t)
      ensures root.left == if c.Top? then RootOf(t, Snap()) else Outer(c)
      ensures root.left in repr && root.left.red == RootRed(c, Red(t))
      ensures !c.Top? ==> Outer(c) != RootOf(t, Snap())
    {
      OuterIn(c);
      Zip(c, t);
      PlugOuter(c, t);
      PlugNoRedRed(c, t);
      Look(Top, Plug(c, t));
    }

    /** deleteFixup, red sibling on the right: recolours and rotates at the parent. */
    method RedSiblingLeft(x: Node, w: Node, ghost c: Ctx, ghost t: Tree, ghost total: nat, ghost order: seq<Node>)
      returns (ghost c': Ctx)
      requires Holds(c, t) && Short(c, t, total, order) && x == RootOf(t, Snap()) && x.parent == HoleParent(c, Snap())
      requires !Red(t) && c.InLeft? && Red(c.right) && w == c.right.node
      modifies repr
      ensures Holds(c', t) && Short(c', t, total, order) && x == RootOf(t, Snap()) && x.parent == HoleParent(c', Snap())
      ensures c'.InLeft? && c'.node == c.node && c'.red && !Red(Sibling(c'))
      ensures !c'.up.Top? && c'.up.up == c.up
    {
      hide Holds, Focus, Nodes, CNodes, Short;
      ShortSibling(c, t, total, order);
      DeleteRedSiblingLeft(c, t, total, order);
      LookUp(c, t);
      var p := x.parent;
      ghost var s := Painted(c.right, false);
      Up(c, t);
      Up(Across(c, t), c.right);
      Paint(w, false, Across(c, t), c.right);
      Up(Across(c, t), s);
      Paint(p, true, c.up, Fill(Beside(c, c.red, s), t));
      RotateLeftAt(p, c.up, Fill(Beside(c, true, s), t));
      ghost var u := RotatedLeft(Fill(Beside(c, true, s), t));
      c' := InLeft(c.node, u.left.maxHigh, true, u.left.right, InLeft(u.node, u.maxHigh, false, u.right, c.up));
      Up(c'.up, u.left);
      Up(c', t);
      LookUp(c', t);
    }

    /** deleteFixup, black far nephew and red near one: rotates at the sibling. */
    method NearRedLeft(x: Node, w: Node, ghost c: Ctx, ghost t: Tree, ghost total: nat, ghost order: seq<Node>)
      returns (ghost c': Ctx)
      requires Holds(c, t) && Short(c, t, total, order) && x == RootOf(t, Snap()) && x.parent == HoleParent(c, Snap())
      requires !Red(t) && c.InLeft? && c.right.Branch? && w == c.right.node
      requires !Red(c.right) && Red(c.right.left) && !Red(c.right.right)
      modifies repr
      ensures Holds(c', t) && Short(c', t, total, order) && x == RootOf(t, Snap()) && x.parent == HoleParent(c', Snap())
      ensures c'.InLeft? && c'.node == c.node && c'.up == c.up && c'.right.Branch? && !Red(c'.right)
        && Red(c'.right.right)
    {
      hide Holds, Focus, Nodes, CNodes, Short;
      DeleteNearRedLeft(c, t, total, order);
      ghost var s, d := c.right, Across(c, t);
      LookUp(c, t);
      Up(c, t);
      Up(d, s);
      LookDown(d, s);
      ghost var e := InLeft(s.node, s.maxHigh, s.red, s.right, d);
      Up(e, s.left);
      Paint(w.left, false, e, s.left);
      Up(e, Painted(s.left, false));
      ghost var v := Fill(e, Painted(s.left, false));
      Paint(w, true, d, v);
      RotateRightAt(w, d, Painted(v, true));
      ghost var u := RotatedRight(Painted(v, true));
      c' := Beside(c, c.red, u);
      Up(d, u);
      Up(c', t);
      LookUp(c', t);
    }

    /** deleteFixup, red far nephew: recolours and rotates at the parent, which ends the loop. */
    method FarRedLeft(x: Node, w: Node, ghost c: Ctx, ghost t: Tree, rootLeftNode: Node, ghost total: nat,
        ghost order: seq<Node>)
      returns (ghost c': Ctx, ghost t': Tree)
      requires Holds(c, t) && Short(c, t, total, order) && x == RootOf(t, Snap()) && x.parent == HoleParent(c, Snap())
      requires !Red(t) && c.InLeft? && c.right.Branch? && w == c.right.node && !Red(c.right) && Red(c.right.right)
      requires Anchored(rootLeftNode, c)
      modifies repr
      ensures Holds(c', t') && Repaired(c', t', total, order) && rootLeftNode in repr && !rootLeftNode.red
    {
      hide Holds, Focus, Nodes, CNodes, Short, Repaired;
      DeleteFarRedLeft(c, t, total, order);
      ghost var s, d := c.right, Across(c, t);
      LookUp(c, t);
      Up(c, t);
      var p := x.parent;
      Up(d, s);
      LookDown(d, s);
      Paint(w, p.red, d, s);
      ghost var s1 := Painted(s, c.red);
      LookDown(d, s1);
      Up(d, s1);
      Up(Beside(c, c.red, s1), t);
      Paint(p, false, c.up, Fill(Beside(c, c.red, s1), t));
      Up(Beside(c, false, s1), t);
      Up(Across(Beside(c, false, s1), t), s1);
      ghost var d1 := Across(Beside(c, false, s1), t);
      LookDown(d1, s1);
      ghost var e := InRight(s1.left, s1.node, s1.maxHigh, s1.red, d1);
      Up(e, s1.right);
      Paint(w.right, false, e, s1.right);
      Up(e, Painted(s1.right, false));
      Up(d1, Fill(e, Painted(s1.right, false)));
      RotateLeftAt(p, c.up, RepairedLeft(c, t));
      c', t' := c.up, RotatedLeft(RepairedLeft(c, t));
      RepairedRoot(c', t', total, order);
      LookDown(c', t');
      LookRoot(c', t');
    }

    /** The body of deleteFixup's loop when x is a left child. */
    method DeleteStepLeft(x0: Node, rootLeftNode: Node, ghost c0: Ctx, ghost t: Tree, ghost total: nat,
        ghost order: seq<Node>)
      returns (x: Node, ghost c: Ctx, ghost t': Tree, ghost done: bool)
      requires Holds(c0, t) && Short(c0, t, total, order) && x0 == RootOf(t, Snap())
        && x0.parent == HoleParent(c0, Snap())
      requires !Red(t) && c0.InLeft? && rootLeftNode == Outer(c0)
      modifies repr
      ensures Holds(c, t')
      ensures done ==> Repaired(c, t', total, order) && x == rootLeftNode && x in repr && !x.red
      ensures !done ==> Short(c, t', total, order) && x == RootOf(t', Snap()) && x.parent == HoleParent(c, Snap())
      ensures !done ==> Red(t') || (Depth(c) < Depth(c0) && rootLeftNode == if c.Top? then x else Outer(c))
    {
      hide Holds, Focus, Nodes, CNodes, Short, Repaired;
      x, c, t', done := x0, c0, t, false;
      ShortSibling(c, t, total, order);
      LookUp(c, t);
      var w := x.parent.right;
      if w.red {
        c := RedSiblingLeft(x, w, c, t, total, order);
        LookUp(c, t);
        ShortSibling(c, t, total, order);
        w := x.parent.right;
      }
      Up(c, t);
      Up(Across(c, t), c.right);
      LookDown(Across(c, t), c.right);
      if !w.right.red && !w.left.red {
        DeleteBlackSibling(c, t, total, order);
        Paint(w, true, Across(c, t), c.right);
        Up(Across(c, t), Painted(c.right, true));
        t' := Fill(Beside(c, c.red, Painted(c.right, true)), t);
        Up(Beside(c, c.red, Painted(c.right, true)), t);
        LookUp(Beside(c, c.red, Painted(c.right, true)), t);
        x := x.parent;
        c := c.up;
        LookUp(c, t');
      } else {
        if !w.right.red {
          c := NearRedLeft(x, w, c, t, total, order);
          LookUp(c, t);
          w := x.parent.right;
        }
        c, t' := FarRedLeft(x, w, c, t, rootLeftNode, total, order);
        x, done := rootLeftNode, true;
      }
    }

    /** deleteFixup, red sibling on the left: recolours and rotates at the parent. */
    method RedSiblingRight(x: Node, w: Node, ghost c: Ctx, ghost t: Tree, ghost total: nat, ghost order: seq<Node>)
      returns (ghost c': Ctx)
      requires Holds(c, t) && Short(c, t, total, order) && x == RootOf(t, Snap()) && x.parent == HoleParent(c, Snap())
      requires !Red(t) && c.InRight? && Red(c.left) && w == c.left.node
      modifies repr
      ensures Holds(c', t) && Short(c', t, total, order) && x == RootOf(t, Snap()) && x.parent == HoleParent(c', Snap())
      ensures c'.InRight? && c'.node == c.node && c'.red && !Red(Sibling(c'))
      ensures !c'.up.Top? && c'.up.up == c.up
    {
      hide Holds, Focus, Nodes, CNodes, Short;
      ShortSibling(c, t, total, order);
      DeleteRedSiblingRight(c, t, total, order);
      LookUp(c, t);
      var p := x.parent;
      ghost var s := Painted(c.left, false);
      Up(c, t);
      Up(Across(c, t), c.left);
      Paint(w, false, Across(c, t), c.left);
      Up(Across(c, t), s);
      Paint(p, true, c.up, Fill(Beside(c, c.red, s), t));
      RotateRightAt(p, c.up, Fill(Beside(c, true, s), t));
      ghost var u := RotatedRight(Fill(Beside(c, true, s), t));
      c' := InRight(u.right.left, c.node, u.right.maxHigh, true, InRight(u.left, u.node, u.maxHigh, false, c.up));
      Up(c'.up, u.right);
      Up(c', t);
      LookUp(c', t);
    }

    /** deleteFixup, black far nephew and red near one: rotates at the sibling. */
    method NearRedRight(x: Node, w: Node, ghost c: Ctx, ghost t: Tree, ghost total: nat, ghost order: seq<Node>)
      returns (ghost c': Ctx)
      requires Holds(c, t) && Short(c, t, total, order) && x == RootOf(t, Snap()) && x.parent == HoleParent(c, Snap())
      requires !Red(t) && c.InRight? && c.left.Branch? && w == c.left.node
      requires !Red(c.left) && Red(c.left.right) && !Red(c.left.left)
      modifies repr
      ensures Holds(c', t) && Short(c', t, total, order) && x == RootOf(t, Snap()) && x.parent == HoleParent(c', Snap())
      ensures c'.InRight? && c'.node == c.node && c'.up == c.up && c'.left.Branch? && !Red(c'.left) && Red(c'.left.left)
    {
      hide Holds, Focus, Nodes, CNodes, Short;
      DeleteNearRedRight(c, t, total, order);
      ghost var s, d := c.left, Across(c, t);
      LookUp(c, t);
      Up(c, t);
      Up(d, s);
      LookDown(d, s);
      ghost var e := InRight(s.left, s.node, s.maxHigh, s.red, d);
      Up(e, s.right);
      Paint(w.right, false, e, s.right);
      Up(e, Painted(s.right, false));
      ghost var v := Fill(e, Painted(s.right, false));
      Paint(w, true, d, v);
      RotateLeftAt(w, d, Painted(v, true));
      ghost var u := RotatedLeft(Painted(v, true));
      c' := Beside(c, c.red, u);
      Up(d, u);
      Up(c', t);
      LookUp(c', t);
    }

    /** deleteFixup, red far nephew: recolours and rotates at the parent, which ends the loop. */
    method FarRedRight(x: Node, w: Node, ghost c: Ctx, ghost t: Tree, rootLeftNode: Node, ghost total: nat,
        ghost order: seq<Node>)
      returns (ghost c': Ctx, ghost t': Tree)
      requires Holds(c, t) && Short(c, t, total, order) && x == RootOf(t, Snap()) && x.parent == HoleParent(c, Snap())
      requires !Red(t) && c.InRight? && c.left.Branch? && w == c.left.node && !Red(c.left) && Red(c.left.left)
      requires Anchored(rootLeftNode, c)
      modifies repr
      ensures Holds(c', t') && Repaired(c', t', total, order) && rootLeftNode in repr && !rootLeftNode.red
    {
      hide Holds, Focus, Nodes, CNodes, Short, Repaired;
      DeleteFarRedRight(c, t, total, order);
      ghost var s, d := c.left, Across(c, t);
      LookUp(c, t);
      Up(c, t);
      var p := x.parent;
      Up(d, s);
      LookDown(d, s);
      Paint(w, p.red, d, s);
      ghost var s1 := Painted(s, c.red);
      LookDown(d, s1);
      Up(d, s1);
      Up(Beside(c, c.red, s1), t);
      Paint(p, false, c.up, Fill(Beside(c, c.red, s1), t));
      Up(Beside(c, false, s1), t);
      Up(Across(Beside(c, false, s1), t), s1);
      ghost var d1 := Across(Beside(c, false, s1), t);
      LookDown(d1, s1);
      ghost var e := InLeft(s1.node, s1.maxHigh, s1.red, s1.right, d1);
      Up(e, s1.left);
      Paint(w.left, false, e, s1.left);
      Up(e, Painted(s1.left, false));
      Up(d1, Fill(e, Painted(s1.left, false)));
      RotateRightAt(p, c.up, RepairedRight(c, t));
      c', t' := c.up, RotatedRight(RepairedRight(c, t));
      RepairedRoot(c', t', total, order);
      LookDown(c', t');
      LookRoot(c', t');
    }

    /** The body of deleteFixup's loop when x is a right child. */
    method DeleteStepRight(x0: Node, rootLeftNode: Node, ghost c0: Ctx, ghost t: Tree, ghost total: nat,
        ghost order: seq<Node>)
      returns (x: Node, ghost c: Ctx, ghost t': Tree, ghost done: bool)
      requires Holds(c0, t) && Short(c0, t, total, order) && x0 == RootOf(t, Snap())
        && x0.parent == HoleParent(c0, Snap())
      requires !Red(t) && c0.InRight? && rootLeftNode == Outer(c0)
      modifies repr
      ensures Holds(c, t')
      ensures done ==> Repaired(c, t', total, order) && x == rootLeftNode && x in repr && !x.red
      ensures !done ==> Short(c, t', total, order) && x == RootOf(t', Snap()) && x.parent == HoleParent(c, Snap())
      ensures !done ==> Red(t') || (Depth(c) < Depth(c0) && rootLeftNode == if c.Top? then x else Outer(c))
    {
      hide Holds, Focus, Nodes, CNodes, Short, Repaired;
      x, c, t', done := x0, c0, t, false;
      ShortSibling(c, t, total, order);
      LookUp(c, t);
      var w := x.parent.left;
      if w.red {
        c := RedSiblingRight(x, w, c, t, total, order);
        LookUp(c, t);
        ShortSibling(c, t, total, order);
        w := x.parent.left;
      }
      Up(c, t);
      Up(Across(c, t), c.left);
      LookDown(Across(c, t), c.left);
      if !w.left.red && !w.right.red {
        DeleteBlackSibling(c, t, total, order);
        Paint(w, true, Across(c, t), c.left);
        Up(Across(c, t), Painted(c.left, true));
        t' := Fill(Beside(c, c.red, Painted(c.left, true)), t);
        Up(Beside(c, c.red, Painted(c.left, true)), t);
        LookUp(Beside(c, c.red, Painted(c.left, true)), t);
        x := x.parent;
        c := c.up;
        LookUp(c, t');
      } else {
        if !w.left.red {
          c := NearRedRight(x, w, c, t, total, order);
          LookUp(c, t);
          w := x.parent.left;
        }
        c, t' := FarRedRight(x, w, c, t, rootLeftNode, total, order);
        x, done := rootLeftNode, true;
      }
    }

    /** x->red = false, where x is the root of the subtree at the focus or already black. */
    method Blacken(x: Node, ghost c: Ctx, ghost t: Tree, ghost atFocus: bool)
      requires Holds(c, t) && x in repr && (if atFocus then x == RootOf(t, Snap()) else !x.red)
      modifies repr
      ensures Holds(c, if atFocus then Painted(t, false) else t)
    {
      ghost var m := Snap();
      Look(c, t);
      x.red := false;
      if atFocus && t.Branch? {
        RewrittenFocus(c, t, t.maxHigh, false, m, Snap());
      } else {
        assert Snap() == m;
      }
    }

    method DeleteFixup(start: Node, ghost c0: Ctx, ghost t0: Tree, ghost total: nat, ghost order: seq<Node>)
      returns (ghost final: Tree)
      requires Holds(c0, t0) && Short(c0, t0, total, order) && start == RootOf(t0, Snap())
        && start.parent == HoleParent(c0, Snap())
      modifies repr
      ensures Holds(Top, final) && RedBlackTree(final) && MaxOk(final) && Inorder(final) == order
    {
      hide Holds, Focus, Nodes, CNodes, Short, Repaired, Plug, RedBlackTree, MaxOk;
      var rootLeftNode := root.left;
      var x := start;
      ghost var c, t, done := c0, t0, false;
      LookUp(c, t);
      Look(c, t);
      LookRoot(c, t);
      while !x.red && rootLeftNode != x
        invariant Holds(c, t) && x in repr
        invariant done ==> Repaired(c, t, total, order) && x == rootLeftNode && !x.red
        invariant !done ==> Short(c, t, total, order) && x == RootOf(t, Snap()) && x.parent == HoleParent(c, Snap())
        invariant !done ==> x.red == Red(t) && (x.red || rootLeftNode == if c.Top? then x else Outer(c))
        decreases if done || x.red then 0 else 1 + Depth(c)
      {
        ShortSibling(c, t, total, order);
        LookUp(c, t);
        if x == x.parent.left {
          x, c, t, done := DeleteStepLeft(x, rootLeftNode, c, t, total, order);
        } else {
          x, c, t, done := DeleteStepRight(x, rootLeftNode, c, t, total, order);
        }
        Look(c, t);
      }
      LookRoot(c, t);
      Blacken(x, c, t, !done);
      ghost var total' := total;
      if !done {
        total' := ShortEnd(c, t, total, order);
        t := Painted(t, false);
      }
      RepairedEnd(c, t, total', order);
      Zip(c, t);
      final := Plug(c, t);
    }

    // ---------- taking a node out ----------

    lemma {:induction false} AppendHolds(ci: Ctx, co: Ctx, t: Tree)
      ensures Holds(Append(ci, co), t) <==> Holds(co, Plug(ci, t))
    {
      if !ci.Top? {
        Up(Append(ci, co), t);
        AppendHolds(ci.up, co, Fill(ci, t));
      }
    }

    /** The leftmost node below x, and where it stands. */
    method GetMinimum(x: Node, ghost c: Ctx, ghost t: Tree) returns (y: Node, ghost ci: Ctx, ghost s: Tree)
      requires Holds(c, t) && t.Branch? && x == t.node
      ensures Plug(ci, s) == t && Before(ci) == [] && s.Branch? && s.left.Leaf? && y == s.node
      ensures y == Inorder(t)[0]
    {
      hide Holds, Focus, Nodes, CNodes;
      y, ci, s := x, Top, t;
      AppendHolds(ci, c, s);
      LookDown(Append(ci, c), s);
      Look(Append(ci, c), s);
      LeafChildren(Append(ci, c), s);
      while y.left != nil
        invariant Plug(ci, s) == t && Before(ci) == [] && s.Branch? && y == s.node
        invariant Holds(Append(ci, c), s)
        invariant y.left == nil <==> s.left.Leaf?
        invariant y.left == RootOf(s.left, Snap())
        decreases s
      {
        y, ci, s := y.left, InLeft(s.node, s.maxHigh, s.red, s.right, ci), s.left;
        Up(Append(ci, c), s);
        LookDown(Append(ci, c), s);
        Look(Append(ci, c), s);
        LeafChildren(Append(ci, c), s);
      }
      InorderPlug(ci, s);
      assert Inorder(s) == [y] + Inorder(s.right);
    }

    lemma LeafChildren(c: Ctx, t: Tree)
      requires Holds(c, t) && t.Branch?
      ensures t.node.left == nil <==> t.left.Leaf?
      ensures t.node.right == nil <==> t.right.Leaf?
    {
      LookDown(c, t);
      Parts(t);
      Parts(t.left);
      Parts(t.right);
    }

    /** The next node in key order, or the dummy root after the last one. */
    method GetSuccessor(x0: Node, ghost c0: Ctx, ghost t0: Tree) returns (y: Node, ghost ci: Ctx, ghost s: Tree)
      requires Holds(c0, t0) && t0.Branch? && x0 == t0.node
      ensures var later := Inorder(t0.right) + After(c0);
        y == if later == [] then root else later[0]
      ensures t0.right.Branch? ==>
        Plug(ci, s) == t0.right && Before(ci) == [] && s.Branch? && s.left.Leaf? && y == s.node
    {
      hide Holds, Focus, Nodes, CNodes;
      LookDown(c0, t0);
      LeafChildren(c0, t0);
      ci, s := Top, Leaf;
      if nil != x0.right {
        Up(InRight(t0.left, x0, t0.maxHigh, t0.red, c0), t0.right);
        y, ci, s := GetMinimum(x0.right, InRight(t0.left, x0, t0.maxHigh, t0.red, c0), t0.right);
      } else {
        var x := x0;
        ghost var c, t := c0, t0;
        LookUp(c, t);
        Look(c, t);
        y := x.parent;
        while y != nil && x == y.right
          invariant Holds(c, t) && t.Branch? && x == t.node && y == HoleParent(c, Snap()) && After(c) == After(c0)
          decreases c
        {
          LookUp(c, t);
          Look(c, t);
          Up(c, t);
          x, c, t := y, c.up, Fill(c, t);
          LookUp(c, t);
          y := y.parent;
        }
        LookUp(c, t);
        Look(c, t);
      }
    }

    method SpliceLinks(y: Node) returns (x: Node)
      requires y.left == nil || y.right == nil
      requires y.parent != y && y !in {y.left, y.right} && y.parent !in {y.left, y.right}
      modifies {if y.left == nil then y.right else y.left}`parent, {y.parent}`left, {y.parent}`right
      ensures x == old(if y.left == nil then y.right else y.left)
      ensures CellOf(x) == old(CellOf(if y.left == nil then y.right else y.left)).(parent := old(y.parent))
      ensures CellOf(y) == old(CellOf(y))
      ensures var p := old(y.parent);
        CellOf(p) == if root == p || old(y.parent.left) == y then old(CellOf(y.parent)).(left := x)
          else old(CellOf(y.parent)).(right := x)
    {
      x := if y.left == nil then y.right else y.left;
      x.parent := y.parent;
      if root == x.parent {
        root.left := x;
      } else if y == y.parent.left {
        y.parent.left := x;
      } else {
        y.parent.right := x;
      }
    }

    /** Splicing y out, as it shows in the snapshot without y. */
    method SpliceSnap(y: Node) returns (x: Node)
      requires y.left == nil || y.right == nil
      requires y.parent != y && y !in {y.left, y.right} && y.parent !in {y.left, y.right}
      requires y in repr && y.left in repr && y.right in repr && y.parent in repr
      modifies this`repr, {if y.left == nil then y.right else y.left}`parent, {y.parent}`left, {y.parent}`right
      ensures x == old(if y.left == nil then y.right else y.left) && repr == old(repr) - {y}
      ensures x.parent == old(y.parent) && x.maxHigh == old(x.maxHigh) && x.red == old(x.red)
      ensures var p, m := old(y.parent), old(Snap());
        && Only({y, p, x}, m, Snap()) && At(x, m.cells[x].(parent := p), Snap())
        && At(p, if root == p || old(y.parent.left) == y then m.cells[p].(left := x)
            else m.cells[p].(right := x), Snap())
    {
      x := SpliceLinks(y);
      repr := repr - {y};
    }

    method SpliceOut(y: Node, ghost c: Ctx, ghost t: Tree, ghost child: Tree) returns (x: Node)
      requires Holds(c, t) && OnlyChild(t, child) && y == t.node
      requires child == if t.left.Leaf? then t.right else t.left
      modifies repr, this`repr
      ensures Holds(c, child) && repr == old(repr) - {y} && y in old(repr) && y !in {nil, root}
      ensures x == RootOf(child, Snap()) && x.parent == HoleParent(c, Snap())
      ensures y.red == old(y.red) == t.red
    {
      hide Holds, Nodes, CNodes, Sep, CSep, Shape, CShape, Focus, Apart;
      ghost var m := Snap();
      HoldsParts(c, t);
      Look(c, t);
      LeafChildren(c, t);
      LookChild(c, t, child);
      x := SpliceSnap(y);
      SplicedFocus(c, t, child, m, Snap());
      HoldsIf(c, child);
      Look(c, child);
    }

    lemma LookChild(c: Ctx, t: Tree, child: Tree)
      requires Holds(c, t) && OnlyChild(t, child)
      ensures RootOf(child, Snap()) !in {t.node, HoleParent(c, Snap()), root} && HoleParent(c, Snap()) !in {t.node, nil}
      ensures child.Branch? ==> child.node != nil
      ensures RootOf(child, Snap()) in repr
      ensures Nodes(t) == Nodes(child) + {t.node} && t.node !in Nodes(child) && t.node !in CNodes(c)
    {
      Parts(t);
      Parts(child);
      CParts(c);
      Look(c, t);
    }

    method SubstituteLinks(z: Node, y: Node)
      requires y !in {z, z.left, z.right, z.parent} && z.left != z.right
      requires z !in {z.left, z.right, z.parent} && z.parent !in {z.left, z.right}
      modifies y, {z.left}`parent, {z.right}`parent, {z.parent}`left, {z.parent}`right
      ensures CellOf(y) == old(Cell(z.left, z.right, z.parent, -MAX_TIME, y.red)) && CellOf(z) == old(CellOf(z))
      ensures CellOf(z.left) == old(CellOf(z.left)).(parent := y)
        && CellOf(z.right) == old(CellOf(z.right)).(parent := y)
      ensures CellOf(z.parent) ==
        if old(z.parent.left) == z then old(CellOf(z.parent)).(left := y) else old(CellOf(z.parent)).(right := y)
    {
      y.maxHigh := -MAX_TIME;
      y.left := z.left;
      y.right := z.right;
      y.parent := z.parent;
      z.left.parent := y;
      z.right.parent := y;
      if z == z.parent.left {
        z.parent.left := y;
      } else {
        z.parent.right := y;
      }
    }

    /** Putting y in the place of z, as it shows in the snapshot with y and without z. */
    method SubstituteSnap(z: Node, y: Node)
      requires y !in {z, z.left, z.right, z.parent} && z.left != z.right
      requires z !in {z.left, z.right, z.parent} && z.parent !in {z.left, z.right}
      requires z in repr && z.left in repr && z.right in repr && z.parent in repr && y !in repr
      modifies this`repr, y, {z.left}`parent, {z.right}`parent, {z.parent}`left, {z.parent}`right
      ensures repr == old(repr) - {z} + {y} && y.red == old(y.red)
      ensures var p, l, r, m := old(z.parent), old(z.left), old(z.right), old(Snap());
        && Only({z, y, p, l, r}, m, Snap()) && At(y, Cell(l, r, p, -MAX_TIME, y.red), Snap())
        && At(l, m.cells[l].(parent := y), Snap()) && At(r, m.cells[r].(parent := y), Snap())
        && At(p, if old(z.parent.left) == z then m.cells[p].(left := y) else m.cells[p].(right := y), Snap())
    {
      SubstituteLinks(z, y);
      repr := repr - {z} + {y};
    }

    /** y, which is in no tree, takes the place of z. */
    method Substitute(z: Node, y: Node, ghost c: Ctx, ghost t: Tree)
      requires Holds(c, t) && t.Branch? && t.left.Branch? && z == t.node && y !in repr
      modifies repr, this`repr, y
      ensures Holds(c, Branch(t.left, y, -MAX_TIME, y.red, t.right))
      ensures repr == old(repr) - {z} + {y} && y.red == old(y.red) && z.red == t.red
      ensures nil.parent == if t.right.Leaf? then y else old(nil.parent)
    {
      hide Holds, Nodes, CNodes, Sep, CSep, Shape, CShape, Focus, Apart;
      ghost var m, u := Snap(), Branch(t.left, y, -MAX_TIME, y.red, t.right);
      HoldsParts(c, t);
      NodesOf(u);
      LookAround(c, t);
      SubstituteSnap(z, y);
      SubstitutedFocus(c, t, y, -MAX_TIME, y.red, m, Snap());
      HoldsIf(c, u);
    }

    lemma LookAround(c: Ctx, t: Tree)
      requires Holds(c, t) && t.Branch? && t.left.Branch?
      ensures var l, r, p := RootOf(t.left, Snap()), RootOf(t.right, Snap()), HoleParent(c, Snap());
        && t.node !in {l, r, p, nil, root} && p !in {l, r, nil} && l !in {r, nil, root} && r != root
            && (r == nil <==> t.right.Leaf?)
      ensures RootOf(t.left, Snap()) in repr && RootOf(t.right, Snap()) in repr && HoleParent(c, Snap()) in repr
        && t.node in repr
      ensures CellOf(t.node) == Cell(RootOf(t.left, Snap()), RootOf(t.right, Snap()), HoleParent(c, Snap()), t.maxHigh,
        t.red)
      ensures Snap().nil == nil && Snap().root == root && (HoleParent(c, Snap()).left == t.node <==> !c.InRight?)
      ensures HoleParent(c, Snap()) == root <==> c.Top?
      ensures t.node !in Nodes(t.left) && t.node !in Nodes(t.right) && t.node !in CNodes(c)
      ensures Nodes(t) == Nodes(t.left) + {t.node} + Nodes(t.right)
    {
      Parts(t);
      Parts(t.left);
      Parts(t.right);
      CParts(c);
      Look(c, t);
    }

    /** The last part of deleteNode when z itself was cut out. */
    method FinishSame(x: Node, red: bool, ghost c: Ctx, ghost child: Tree, ghost c0: Ctx, ghost s: Tree)
        returns (ghost final: Tree)
      requires Holds(c, child) && x == RootOf(child, Snap()) && x.parent == HoleParent(c, Snap())
      requires RedBlackTree(Plug(c0, s)) && MaxOk(Plug(c0, s)) && OnlyChild(s, child) && Alike(c0, c) && red == s.red
      modifies repr
      ensures Holds(Top, final) && RedBlackTree(final) && MaxOk(final) && Inorder(final) == Whole(c, child)
    {
      hide Holds, Focus, Nodes, CNodes, Short, Repaired, Plug, RedBlackTree, MaxOk, Refreshed, OnlyChild, Alike;
      FixupMaxHigh(x.parent, c, child);
      ghost var c' := Refreshed(c, MaxOf(child));
      ghost var total := DeleteStart(c0, s, child, c);
      LookUp(c', child);
      RefreshedTop(c, MaxOf(child));
      if !red {
        final := DeleteFixup(x, c', child, total, Whole(c, child));
      } else {
        RepairedEnd(c', child, total, Whole(c, child));
        Zip(c', child);
        final := Plug(c', child);
      }
    }

    /** The last part of deleteNode when y has taken the place of z. */
    method FinishOther(x: Node, y: Node, zRed: bool, ghost ci: Ctx, ghost zl: Tree, ghost cz: Ctx, ghost child: Tree,
                       ghost c0: Ctx, ghost s: Tree)
      returns (ghost final: Tree)
      requires var c := Append(ci, InRight(zl, y, -MAX_TIME, y.red, cz));
        Holds(c, child) && x == RootOf(child, Snap()) && x.parent == HoleParent(c, Snap())
      requires RedBlackTree(Plug(c0, s)) && MaxOk(Plug(c0, s)) && OnlyChild(s, child) && y.red == s.red
      requires Alike(c0, Append(ci, InRight(zl, y, -MAX_TIME, zRed, cz)))
      modifies repr
      ensures Holds(Top, final) && RedBlackTree(final) && MaxOk(final)
      ensures Inorder(final) == Whole(Append(ci, InRight(zl, y, -MAX_TIME, zRed, cz)), child)
    {
      hide Holds, Focus, Nodes, CNodes, Short, Repaired, Plug, RedBlackTree, MaxOk, OnlyChild, Alike;
      ghost var b := InRight(zl, y, -MAX_TIME, y.red, cz);
      ghost var c1 := Append(ci, InRight(zl, y, -MAX_TIME, zRed, cz));
      FixupMaxHigh(x.parent, Append(ci, b), child);
      ghost var m := MaxOf(child);
      ghost var total := DeleteStart(c0, s, child, c1);
      ghost var order := Whole(c1, child);
      RefreshedAppend(ci, b, child);
      RefreshedAppend(ci, InRight(zl, y, -MAX_TIME, zRed, cz), child);
      ghost var i1, t1 := Refreshed(ci, m), Plug(Refreshed(ci, m), child);
      ghost var b1 := Refreshed(b, MaxOf(t1));
      AppendHolds(i1, b1, child);
      Up(b1, t1);
      LookUp(b1, t1);
      var wasRed := y.red;
      Paint(y, zRed, b1.up, Fill(b1, t1));
      ghost var b2 := InRight(zl, y, b1.maxHigh, zRed, b1.up);
      Up(b2, t1);
      AppendHolds(i1, b2, child);
      ghost var c2 := Refreshed(c1, m);
      assert c2 == Append(i1, b2);
      LookUp(c2, child);
      AppendTop(ci, b);
      AppendTop(i1, b2);
      RefreshedTop(ci, m);
      if !wasRed {
        final := DeleteFixup(x, c2, child, total, order);
      } else {
        RepairedEnd(c2, child, total, order);
        Zip(c2, child);
        final := Plug(c2, child);
      }
    }

    /** deleteNode for a node with two children: its successor y is cut out and takes its place. */
    method DeleteOther(z: Node, y: Node, ghost c: Ctx, ghost t: Tree, ghost ci: Ctx, ghost s: Tree)
        returns (ghost final: Tree)
      requires Holds(c, t) && RedBlackTree(Plug(c, t)) && MaxOk(Plug(c, t)) && t.Branch? && t.left.Branch?
        && z == t.node
      requires Plug(ci, s) == t.right && s.Branch? && s.left.Leaf? && s.node == y
      modifies repr, this`repr
      ensures Holds(Top, final) && RedBlackTree(final) && MaxOk(final) && repr == old(repr) - {z}
      ensures Inorder(final) == Whole(Append(ci, InRight(t.left, y, -MAX_TIME, t.red, c)), s.right)
    {
      hide Holds, Focus, Nodes, CNodes, RedBlackTree, MaxOk, Inorder, Alike, Before, After;
      ghost var z0 := InRight(t.left, z, t.maxHigh, t.red, c);
      ghost var z1 := InRight(t.left, y, -MAX_TIME, t.red, c);
      LookDown(c, t);
      Up(z0, t.right);
      AppendHolds(ci, z0, s);
      AppendPlug(ci, z0, s);
      AlikeSelf(c);
      assert Alike(z0, z1) by { AlikeInRight(z0, z1); }
      AlikeAppend(ci, z0, z1);
      ghost var child := s.right;
      AppendTop(ci, z0);
      var x := SpliceOut(y, Append(ci, z0), s, child);
      AppendHolds(ci, z0, child);
      Up(z0, Plug(ci, child));
      LookDown(c, Fill(z0, Plug(ci, child)));
      Substitute(z, y, c, Fill(z0, Plug(ci, child)));
      ghost var b := InRight(t.left, y, -MAX_TIME, y.red, c);
      Up(b, Plug(ci, child));
      AppendHolds(ci, b, child);
      AppendTop(ci, b);
      LookUp(Append(ci, b), child);
      PlugOuter(ci, child);
      Look(Append(ci, b), child);
      final := FinishOther(x, y, z.red, ci, t.left, c, child, Append(ci, z0), s);
    }

    /** Removes the node z; every other node stays a node of the tree, with its own interval. */
    method DeleteNode(z: Node) returns (r: Interval?, ghost k: nat)
      requires Valid() && z in Nodes(tree)
      modifies repr, this`repr, this`tree
      ensures Valid() && r == z.stored && repr == old(repr) - {z} && Nodes(tree) == old(Nodes(tree)) - {z}
      ensures k < |old(Inorder(tree))| && old(Inorder(tree))[k] == z
        && Inorder(tree) == WithoutAt(old(Inorder(tree)), k)
      ensures k < |old(Contents())| && Contents() == old(Contents()[..k]) + old(Contents()[k + 1..])
      ensures old(WellFormed(tree)) ==> WellFormed(tree)
    {
      hide Holds, Focus, Nodes, CNodes, RedBlackTree, MaxOk, Sorted, Inorder, Alike, Before, After, WithoutAt, Whole,
        WellFormed, Storing;
      HoldsNodes(tree);
      ghost var before := tree;
      r := z.stored;
      ghost var c, t := Locate(Top, tree, z);
      Zip(c, t);
      LookDown(c, t);
      LeafChildren(c, t);
      if z.left == nil || z.right == nil {
        ghost var child := if t.left.Leaf? then t.right else t.left;
        k := DeletedOrderSame(c, t, child);
        AlikeSelf(c);
        var x := SpliceOut(z, c, t, child);
        tree := FinishSame(x, z.red, c, child, c, t);
      } else {
        ghost var ci, s;
        var y;
        y, ci, s := GetSuccessor(z, c, t);
        k := DeletedOrderOther(c, t, ci, s, -MAX_TIME, t.red);
        tree := DeleteOther(z, y, c, t, ci, s);
      }
      HoldsNodes(tree);
      WellFormedLess(before, tree, k);
    }

    // ---------- queries ----------

    /** The query stack is empty but for its bottom slot. */
    ghost predicate Ready()
      reads this`stack, this`stackSize, this`stackTop
    {
      stackTop == 1 && stackSize == stack.Length >= 1
    }

    /** The nodes of t can be read from the heap. */
    ghost predicate Readable(t: Tree)
      reads this`repr, repr
    {
      nil !in Nodes(t) && Nodes(t) <= repr && nil in repr && nil.maxHigh == -MAX_TIME
      && (t.Branch? ==> t.node in repr && Shape(t, t.node.parent, Snap()))
    }

    lemma ReadWhole()
      requires Valid()
      ensures Readable(tree) && root.left == RootOf(tree, Snap()) && Snap().nil == nil
    {
      Look(Top, tree);
    }

    lemma ReadDown(t: Tree)
      requires Readable(t)
      ensures Snap().nil == nil && (t.Branch? <==> RootOf(t, Snap()) != nil)
      ensures t.Branch? ==> t.node in repr && t.node != nil && Readable(t.left) && Readable(t.right)
      ensures t.Branch? ==> t.node.left == RootOf(t.left, Snap()) && t.node.right == RootOf(t.right, Snap())
      ensures t.Branch? ==> t.node.left.maxHigh == MaxOf(t.left)
    {
      if t.Branch? {
        assert Shape(t.left, t.node, Snap()) && Shape(t.right, t.node, Snap());
      }
    }

    /** Doubles the stack when it is full. */
    method Reserve()
      requires stackSize == stack.Length >= 1 && stackTop <= stackSize
      modifies this`stack, this`stackSize
      ensures stackSize == stack.Length >= old(stack.Length) && stackTop < stackSize
      ensures stack[..old(stack.Length)] == old(stack[..]) && (stack == old(stack) || fresh(stack))
    {
      if stackTop == stackSize {
        stackSize := stackSize * 2;
        var old' := stack;
        stack := new Frame[stackSize](i requires 0 <= i reads old' =>
          if i < old'.Length then old'[i] else Frame(null, 0, false));
      }
    }

    /** The search's state: the subtree t is about to be searched and x is its root. */
    ghost predicate AtWork(x: Node, t: Tree, stacked: seq<Tree>, found: seq<Node>, low: Time, high: Time)
      reads this`tree, this`stack, this`stackSize, this`stackTop, this`repr, repr, stack
    {
      && 1 <= stackTop <= stackSize == stack.Length && |stacked| == stackTop
      && Searching(stack[..], stacked, t, found, tree, low, high)
      && Readable(t) && x == RootOf(t, Snap())
      && forall k :: 1 <= k < |stacked| ==> Readable(stacked[k])
    }

    /** Appends x to the result and flags the current parent, if x overlaps. */
    method Report(x: Node, low: Time, high: Time, result0: seq<Interval?>, ghost found: seq<Node>)
        returns (result: seq<Interval?>)
      requires currentParent < stack.Length && result0 == Intervals(found)
      modifies stack
      ensures stack[..] == Marked(old(stack[..]), currentParent, x, low, high)
      ensures result == Intervals(found + HitAt(x, low, high))
    {
      result := result0;
      if Overlap(low, high, x.key, x.high) {
        result := result + [x.stored];
        stack[currentParent] := stack[currentParent].(tryRight := true);
        IntervalsAppend(found, x);
      } else {
        assert found + [] == found;
      }
    }

    /** Pushes a frame for x. */
    method Push(x: Node) returns (ghost rest: seq<Frame>)
      requires 1 <= stackTop <= stackSize == stack.Length && currentParent == stackTop - 1
      modifies this`stack, this`stackSize, this`stackTop, this`currentParent, stack
      ensures stackTop == old(stackTop) + 1 <= stackSize == stack.Length && currentParent == stackTop - 1
      ensures stack == old(stack) || fresh(stack)
      ensures old(stackTop) < old(stack.Length) + |rest|
        && stack[..] == (old(stack[..]) + rest)[old(stackTop) := Frame(x, old(stackTop) - 1, false)]
    {
      ghost var frames := stack[..];
      Reserve();
      rest := stack[|frames|..];
      assert stack[..] == frames + rest;
      stack[stackTop] := Frame(x, currentParent, false);
      currentParent := stackTop;
      stackTop := stackTop + 1;
    }

    /** One visit: reports x if it overlaps, then goes left if that subtree reaches the query, else right. */
    method Advance(x0: Node, low: Time, high: Time, result0: seq<Interval?>, ghost t: Tree, ghost stacked: seq<Tree>,
        ghost found: seq<Node>)
      returns (x: Node, result: seq<Interval?>, ghost t': Tree, ghost stacked': seq<Tree>, ghost found': seq<Node>)
      requires AtWork(x0, t, stacked, found, low, high) && t.Branch? && currentParent == stackTop - 1
        && result0 == Intervals(found)
      modifies this`stack, this`stackSize, this`stackTop, this`currentParent, stack
      ensures AtWork(x, t', stacked', found', low, high) && currentParent == stackTop - 1 && result == Intervals(found')
      ensures stack == old(stack) || fresh(stack)
      ensures Size(t') + PendingSize(stacked') < Size(t) + PendingSize(stacked)
    {
      hide Searching, Shape, Readable, Met, Snap, Nodes, Intervals, PendingSize;
      x, result, t', stacked', found' := x0, result0, t, stacked, found + HitAt(x0, low, high);
      ReadDown(t);
      SearchFrames(stack[..], stacked, t, found, tree, low, high);
      PendingSizes(stacked, t);
      ghost var frames := stack[..];
      result := Report(x, low, high, result, found);
      if x.left.maxHigh >= low {
        ghost var rest := Push(x);
        MarkedGrown(frames, rest, |stacked| - 1, x, low, high);
        SearchGrow(frames, frames + rest, stacked, t, found, tree, low, high);
        StepLeft(frames + rest, stacked, t, found, tree, low, high);
        x := x.left;
        t', stacked' := t.left, stacked + [t];
      } else {
        StepRight(frames, stacked, t, found, tree, low, high);
        x := x.right;
        t' := t.right;
      }
    }

    /** Pops frames until a right subtree is left to search or the stack is empty. */
    method Unwind(x0: Node, low: Time, high: Time, ghost t: Tree, ghost stacked: seq<Tree>, ghost found: seq<Node>)
      returns (x: Node, run: bool, ghost t': Tree, ghost stacked': seq<Tree>)
      requires AtWork(x0, t, stacked, found, low, high) && currentParent == stackTop - 1
      modifies this`stackTop, this`currentParent, stack
      ensures AtWork(x, t', stacked', found, low, high) && run == (x != nil) && run == t'.Branch?
      ensures if run then currentParent == stackTop - 1 else stackTop == 1
      ensures Size(t') + PendingSize(stacked') <= Size(t) + PendingSize(stacked)
    {
      hide Searching, Shape, Readable, Met, Snap, Nodes, Size, PendingSize;
      x, t', stacked' := x0, t, stacked;
      run := x != nil;
      ReadDown(t');
      while !run && stackTop > 1
        invariant AtWork(x, t', stacked', found, low, high) && run == (x != nil) && run == t'.Branch?
        invariant run ==> currentParent == stackTop - 1
        invariant Size(t') + PendingSize(stacked') <= Size(t) + PendingSize(stacked)
        decreases stackTop, !run
      {
        ghost var frames := stack[..];
        SearchFrames(frames, stacked', t', found, tree, low, high);
        PendingSizes(stacked', Leaf);
        stackTop := stackTop - 1;
        if stack[stackTop].tryRight {
          PopFlagged(frames, stacked', found, tree, low, high);
          ReadDown(stacked'[stackTop]);
          x := stack[stackTop].startNode.right;
          currentParent := stack[stackTop].parentIndex;
          stack[currentParent] := stack[currentParent].(tryRight := true);
          assert stack[..] == Flagged(frames, stackTop - 1);
          t' := stacked'[stackTop].right;
          run := x != nil;
          ReadDown(t');
        } else {
          PopUnflagged(frames, stacked', found, tree, low, high);
        }
        stacked' := stacked'[..stackTop];
      }
    }

    /** The stored intervals that share an instant with [low, high], as often as each is stored, in the order the search
        meets them: all of them exactly when the query starts after the value of `nil` or nothing lies beyond a missing
        left child. */
    method Query(low: Time, high: Time) returns (result: seq<Interval?>)
      requires Valid() && Ready()
      modifies this`stack, this`stackSize, this`stackTop, this`currentParent, stack
      ensures Valid() && Ready() && (stack == old(stack) || fresh(stack))
      ensures result == Intervals(Met(tree, low, high))
      ensures WellFormed(tree) && low <= high ==>
        (multiset(result) == multiset(Sharing(Contents(), low, high)) <==> low > -MAX_TIME || NoneBeyondNil(tree, high))
    {
      hide Searching, Shape, Readable, Met, Snap, Nodes, Inorder, MaxOk, WellFormed, Sorted, Holds, Storing, Sharing,
        NoneBeyondNil;
      result := [];
      ReadWhole();
      var x := root.left;
      var run := x != nil;
      currentParent := 0;
      ghost var t: Tree, stacked: seq<Tree>, found: seq<Node> := tree, [Leaf], [];
      SearchStart(stack[..], tree, low, high);
      ReadDown(t);
      while run
        invariant AtWork(x, t, stacked, found, low, high) && run == t.Branch? && result == Intervals(found)
        invariant if run then currentParent == stackTop - 1 else stackTop == 1
        invariant stack == old(stack) || fresh(stack)
        decreases Size(t) + PendingSize(stacked)
      {
        x, result, t, stacked, found := Advance(x, low, high, result, t, stacked, found);
        x, run, t, stacked := Unwind(x, low, high, t, stacked, found);
      }
      SearchEnd(stack[..], stacked, found, tree, low, high);
      if WellFormed(tree) && low <= high {
        MetStored(tree, low, high);
      }
    }

    // ---------- deletion by interval ----------

    /** The first node below x, in preorder, that stores the interval, or nil. */
    method RecursiveSearch(x: Node, interval: Interval, ghost t: Tree) returns (y: Node)
      requires Readable(t) && x == RootOf(t, Snap())
      ensures y == nil ==> forall n :: n in Nodes(t) ==> n.stored != interval
      ensures y != nil ==> y in Nodes(t) && y.stored == interval
      decreases t
    {
      ReadDown(t);
      if x != nil {
        if x.stored == interval {
          return x;
        }
        var l := RecursiveSearch(x.left, interval, t.left);
        if l != nil {
          return l;
        }
        var r := RecursiveSearch(x.right, interval, t.right);
        if r != nil {
          return r;
        }
      }
      return nil;
    }

    /** Removes one node that stores the interval, if there is one. */
    method DeleteInterval(interval: Interval) returns (ghost k: nat)
      requires Valid()
      modifies repr, this`repr, this`tree
      ensures Valid() && (old(WellFormed(tree)) ==> WellFormed(tree))
      ensures var before := old(Inorder(tree));
        if exists n :: n in before && n.stored == interval
        then k < |before| && before[k].stored == interval && Inorder(tree) == WithoutAt(before, k)
        else Inorder(tree) == before
      ensures var before := old(Contents());
        if interval in before
        then k < |before| && before[k] == interval && Contents() == before[..k] + before[k + 1..]
        else Contents() == before
    {
      hide Holds, RedBlackTree, MaxOk, Sorted, Inorder, Nodes, WithoutAt;
      k := 0;
      ReadWhole();
      ghost var before, nodes := Inorder(tree), Nodes(tree);
      // The search starts at the dummy root, which stores no interval and has no right child.
      var node := RecursiveSearch(root.left, interval, tree);
      if node != nil {
        InorderNodes(tree, node);
        var removed;
        removed, k := DeleteNode(node);
      } else {
        forall n | n in before
          ensures n.stored != interval
        {
          InorderNodes(tree, n);
        }
      }
    }
  }
}
