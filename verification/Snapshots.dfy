/** Snapshots of the nodes' fields, and when a snapshot holds a tree. */
module Snapshots {
  import opened RedBlack

  datatype Cell = Cell(left: Node, right: Node, parent: Node, maxHigh: Time, red: bool)

  datatype Mem = Mem(nil: Node, root: Node, cells: map<Node, Cell>)

  ghost function RootOf(t: Tree, m: Mem): Node {
    if t.Leaf? then m.nil else t.node
  }

  ghost function HoleParent(c: Ctx, m: Mem): Node {
    if c.Top? then m.root else c.node
  }

  ghost predicate At(n: Node, cell: Cell, m: Mem) {
    n in m.cells && m.cells[n] == cell
  }

  /** The nodes of t are linked below p. */
  ghost predicate Shape(t: Tree, p: Node, m: Mem) {
    match t
    case Leaf => true
    case Branch(l, n, mh, red, r) =>
      At(n, Cell(RootOf(l, m), RootOf(r, m), p, mh, red), m) && Shape(l, n, m) && Shape(r, n, m)
  }

  /** The nodes of c are linked around a hole that holds x. */
  ghost predicate CShape(c: Ctx, x: Node, m: Mem) {
    match c
    case Top => m.root in m.cells && m.cells[m.root].left == x
    case InLeft(n, mh, red, r, up) =>
      At(n, Cell(x, RootOf(r, m), HoleParent(up, m), mh, red), m) && Shape(r, n, m) && CShape(up, n, m)
    case InRight(l, n, mh, red, up) =>
      At(n, Cell(RootOf(l, m), x, HoleParent(up, m), mh, red), m) && Shape(l, n, m) && CShape(up, n, m)
  }

  ghost predicate Apart(c: Ctx, t: Tree, m: Mem) {
    Sep(t) && CSep(c) && Nodes(t) !! CNodes(c) && m.nil != m.root
    && m.nil !in Nodes(t) && m.nil !in CNodes(c) && m.root !in Nodes(t) && m.root !in CNodes(c)
  }

  /** The snapshot holds Plug(c, t), seen from t. */
  ghost predicate Focus(c: Ctx, t: Tree, m: Mem) {
    Apart(c, t, m) && Shape(t, HoleParent(c, m), m) && CShape(c, RootOf(t, m), m)
  }

  /** Outside s, m' is m. */
  ghost predicate Only(s: set<Node>, m: Mem, m': Mem) {
    m.nil == m'.nil && m.root == m'.root
    && forall n :: n in m.cells && n !in s ==> n in m'.cells && m'.cells[n] == m.cells[n]
  }

  lemma {:induction false} ShapeFrame(t: Tree, p: Node, s: set<Node>, m: Mem, m': Mem)
    requires Shape(t, p, m) && Only(s, m, m') && s !! Nodes(t)
    ensures Shape(t, p, m')
  {
    if t.Branch? {
      ShapeFrame(t.left, t.node, s, m, m');
      ShapeFrame(t.right, t.node, s, m, m');
    }
  }

  lemma {:induction false} CShapeFrame(c: Ctx, x: Node, s: set<Node>, m: Mem, m': Mem)
    requires CShape(c, x, m) && Only(s, m, m') && s !! CNodes(c) && m.root !in s
    ensures CShape(c, x, m')
  {
    match c
    case Top =>
    case InLeft(n, _, _, r, up) => ShapeFrame(r, n, s, m, m'); CShapeFrame(up, n, s, m, m');
    case InRight(l, n, _, _, up) => ShapeFrame(l, n, s, m, m'); CShapeFrame(up, n, s, m, m');
  }

  lemma Rehung(t: Tree, p: Node, q: Node, s: set<Node>, m: Mem, m': Mem)
    requires Sep(t) && Shape(t, p, m) && Only(s, m, m') && s * Nodes(t) <= {RootOf(t, m)}
    requires t.Branch? ==> At(t.node, m.cells[t.node].(parent := q), m')
    ensures Shape(t, q, m')
  {
    if t.Branch? {
      ShapeFrame(t.left, t.node, s, m, m');
      ShapeFrame(t.right, t.node, s, m, m');
    }
  }

  lemma Refilled(c: Ctx, x: Node, y: Node, s: set<Node>, m: Mem, m': Mem)
    requires CSep(c) && m.root !in CNodes(c) && CShape(c, x, m) && Only(s, m, m')
      && s * (CNodes(c) + {m.root}) <= {HoleParent(c, m)}
    requires var p := HoleParent(c, m);
      p in m.cells ==> At(p, if c.InRight? then m.cells[p].(right := y) else m.cells[p].(left := y), m')
    ensures CShape(c, y, m')
  {
    match c
    case Top =>
    case InLeft(n, _, _, r, up) => ShapeFrame(r, n, s, m, m'); CShapeFrame(up, n, s, m, m');
    case InRight(l, n, _, _, up) => ShapeFrame(l, n, s, m, m'); CShapeFrame(up, n, s, m, m');
  }

  lemma FocusUp(c: Ctx, t: Tree, m: Mem)
    ensures c.InLeft? ==> (Focus(c, t, m) <==> Focus(c.up, Branch(t, c.node, c.maxHigh, c.red, c.right), m))
    ensures c.InRight? ==> (Focus(c, t, m) <==> Focus(c.up, Branch(c.left, c.node, c.maxHigh, c.red, t), m))
  {
  }

  /** Replacing the subtree t by u, whose nodes are t's, when only nodes of t and the parent changed. */
  lemma Refocused(c: Ctx, t: Tree, u: Tree, s: set<Node>, m: Mem, m': Mem)
    requires Focus(c, t, m) && Sep(u) && Nodes(u) <= Nodes(t) && Shape(u, HoleParent(c, m), m')
    requires Only(s, m, m') && s <= Nodes(t) + {HoleParent(c, m), m.nil}
    requires var p := HoleParent(c, m);
      p in m.cells ==>
        At(p, if c.InRight? then m.cells[p].(right := RootOf(u, m)) else m.cells[p].(left := RootOf(u, m)), m')
    ensures Focus(c, u, m')
  {
    CParts(c);
    hide Nodes, CNodes, Sep, CSep, Shape;
    Refilled(c, RootOf(t, m), RootOf(u, m), s, m, m');
  }

  lemma RotatedLeftShape(t: Tree, p: Node, m: Mem, m': Mem)
    requires Shape(t, p, m) && Sep(t) && t.Branch? && t.right.Branch? && p !in Nodes(t) && m.nil !in Nodes(t)
    requires var x, y, u := t.node, t.right.node, RotatedLeft(t);
      var a, b, d := RootOf(t.left, m), RootOf(t.right.left, m), RootOf(t.right.right, m);
      && Only({x, y, b, p}, m, m')
      && At(x, Cell(a, b, y, u.left.maxHigh, t.red), m')
      && At(y, Cell(x, d, p, u.maxHigh, t.right.red), m')
      && (b != m.nil && b in m.cells ==> At(b, m.cells[b].(parent := x), m'))
    ensures Shape(RotatedLeft(t), p, m')
  {
    var x, y, a, b, d := t.node, t.right.node, t.left, t.right.left, t.right.right;
    var s := {x, y, RootOf(b, m), p};
    Parts(t);
    Parts(t.right);
    Parts(b);
    assert Shape(t.right, x, m);
    hide Nodes, Sep;
    ShapeFrame(a, x, s, m, m');
    ShapeFrame(d, y, s, m, m');
    Rehung(b, y, x, s, m, m');
    assert Shape(RotatedLeft(t).left, y, m');
  }

  lemma RotatedLeftFocus(c: Ctx, t: Tree, m: Mem, m': Mem)
    requires Focus(c, t, m) && t.Branch? && t.right.Branch?
    requires var x, y, p, u := t.node, t.right.node, HoleParent(c, m), RotatedLeft(t);
      var a, b, d := RootOf(t.left, m), RootOf(t.right.left, m), RootOf(t.right.right, m);
      && Only({x, y, b, p}, m, m')
      && At(x, Cell(a, b, y, u.left.maxHigh, t.red), m')
      && At(y, Cell(x, d, p, u.maxHigh, t.right.red), m')
      && (b != m.nil && b in m.cells ==> At(b, m.cells[b].(parent := x), m'))
      && (p in m.cells ==> At(p, if c.InRight? then m.cells[p].(right := y) else m.cells[p].(left := y), m'))
    ensures Focus(c, RotatedLeft(t), m')
  {
    var x, y, p, b := t.node, t.right.node, HoleParent(c, m), RootOf(t.right.left, m);
    Parts(t);
    Parts(t.right);
    Parts(t.right.left);
    CParts(c);
    RotatedLeftNodes(t);
    assert b in Nodes(t) + {m.nil};
    hide Nodes, CNodes, Sep, CSep, Shape, CShape;
    RotatedLeftShape(t, p, m, m');
    Refocused(c, t, RotatedLeft(t), {x, y, b, p}, m, m');
  }

  lemma RotatedRightShape(t: Tree, p: Node, m: Mem, m': Mem)
    requires Shape(t, p, m) && Sep(t) && t.Branch? && t.left.Branch? && p !in Nodes(t) && m.nil !in Nodes(t)
    requires var x, y, u := t.node, t.left.node, RotatedRight(t);
      var a, b, d := RootOf(t.right, m), RootOf(t.left.right, m), RootOf(t.left.left, m);
      && Only({x, y, b, p}, m, m')
      && At(x, Cell(b, a, y, u.right.maxHigh, t.red), m')
      && At(y, Cell(d, x, p, u.maxHigh, t.left.red), m')
      && (b != m.nil && b in m.cells ==> At(b, m.cells[b].(parent := x), m'))
    ensures Shape(RotatedRight(t), p, m')
  {
    var x, y, a, b, d := t.node, t.left.node, t.right, t.left.right, t.left.left;
    var s := {x, y, RootOf(b, m), p};
    Parts(t);
    Parts(t.left);
    Parts(b);
    assert Shape(t.left, x, m);
    hide Nodes, Sep;
    ShapeFrame(a, x, s, m, m');
    ShapeFrame(d, y, s, m, m');
    Rehung(b, y, x, s, m, m');
    assert Shape(RotatedRight(t).right, y, m');
  }

  lemma RotatedRightFocus(c: Ctx, t: Tree, m: Mem, m': Mem)
    requires Focus(c, t, m) && t.Branch? && t.left.Branch?
    requires var x, y, p, u := t.node, t.left.node, HoleParent(c, m), RotatedRight(t);
      var a, b, d := RootOf(t.right, m), RootOf(t.left.right, m), RootOf(t.left.left, m);
      && Only({x, y, b, p}, m, m')
      && At(x, Cell(b, a, y, u.right.maxHigh, t.red), m')
      && At(y, Cell(d, x, p, u.maxHigh, t.left.red), m')
      && (b != m.nil && b in m.cells ==> At(b, m.cells[b].(parent := x), m'))
      && (p in m.cells ==> At(p, if c.InRight? then m.cells[p].(right := y) else m.cells[p].(left := y), m'))
    ensures Focus(c, RotatedRight(t), m')
  {
    var x, y, p, b := t.node, t.left.node, HoleParent(c, m), RootOf(t.left.right, m);
    Parts(t);
    Parts(t.left);
    Parts(t.left.right);
    CParts(c);
    RotatedRightNodes(t);
    assert b in Nodes(t) + {m.nil};
    hide Nodes, CNodes, Sep, CSep, Shape, CShape;
    RotatedRightShape(t, p, m, m');
    Refocused(c, t, RotatedRight(t), {x, y, b, p}, m, m');
  }

  /** Only the root's `maxHigh` and colour changed. */
  lemma RewrittenFocus(c: Ctx, t: Tree, mh: Time, red: bool, m: Mem, m': Mem)
    requires Focus(c, t, m) && t.Branch? && Only({t.node}, m, m')
    requires t.node in m.cells ==> At(t.node, m.cells[t.node].(maxHigh := mh, red := red), m')
    ensures Focus(c, Branch(t.left, t.node, mh, red, t.right), m')
  {
    var n, p := t.node, HoleParent(c, m);
    Parts(t);
    CParts(c);
    var u := Branch(t.left, n, mh, red, t.right);
    Parts(u);
    ShapeFrame(t.left, n, {n}, m, m');
    ShapeFrame(t.right, n, {n}, m, m');
    assert p != n;
    Refocused(c, t, u, {n}, m, m');
  }

  /** A leaf was replaced by the fresh node z. */
  lemma AttachedFocus(c: Ctx, z: Node, mh: Time, red: bool, m: Mem, m': Mem)
    requires Focus(c, Leaf, m) && z !in CNodes(c) && z != m.root && z != m.nil
    requires var p := HoleParent(c, m);
      && Only({p, z}, m, m') && At(z, Cell(m.nil, m.nil, p, mh, red), m')
      && (p in m.cells ==> At(p, if c.InRight? then m.cells[p].(right := z) else m.cells[p].(left := z), m'))
    ensures Focus(c, Branch(Leaf, z, mh, red, Leaf), m')
  {
    var u := Branch(Leaf, z, mh, red, Leaf);
    assert Nodes(u) == {z};
    CParts(c);
    Refilled(c, m.nil, z, {HoleParent(c, m), z}, m, m');
    assert Shape(u, HoleParent(c, m), m');
  }

  /** A node with at most one child was cut out and its child took its place. */
  lemma SplicedFocus(c: Ctx, t: Tree, child: Tree, m: Mem, m': Mem)
    requires Focus(c, t, m) && t.Branch?
    requires (t.left.Leaf? && child == t.right) || (t.right.Leaf? && child == t.left)
    requires var p, k := HoleParent(c, m), RootOf(child, m);
      && Only({t.node, p, k}, m, m')
      && (child.Branch? && k in m.cells ==> At(k, m.cells[k].(parent := p), m'))
      && (p in m.cells ==> At(p, if c.InRight? then m.cells[p].(right := k) else m.cells[p].(left := k), m'))
    ensures Focus(c, child, m')
  {
    var n, p, k := t.node, HoleParent(c, m), RootOf(child, m);
    Parts(t);
    Parts(child);
    CParts(c);
    Rehung(child, n, p, {n, p, k}, m, m');
    Refocused(c, t, child, {n, p, k}, m, m');
  }

  /** The node at the root of t was replaced by y, which took over its children. */
  lemma SubstitutedShape(t: Tree, p: Node, y: Node, mh: Time, red: bool, m: Mem, m': Mem)
    requires Shape(t, p, m) && t.Branch? && Sep(t) && y !in Nodes(t) && p !in Nodes(t) && m.nil !in Nodes(t)
    requires var l, r := RootOf(t.left, m), RootOf(t.right, m);
      && Only({t.node, y, p, l, r}, m, m') && At(y, Cell(l, r, p, mh, red), m')
      && (t.left.Branch? && l in m.cells ==> At(l, m.cells[l].(parent := y), m'))
      && (t.right.Branch? && r in m.cells ==> At(r, m.cells[r].(parent := y), m'))
    ensures Shape(Branch(t.left, y, mh, red, t.right), p, m')
  {
    var z, l, r := t.node, RootOf(t.left, m), RootOf(t.right, m);
    Parts(t);
    Parts(t.left);
    Parts(t.right);
    Rehung(t.left, z, y, {z, y, p, l, r}, m, m');
    Rehung(t.right, z, y, {z, y, p, l, r}, m, m');
  }

  lemma SubstitutedFocus(c: Ctx, t: Tree, y: Node, mh: Time, red: bool, m: Mem, m': Mem)
    requires Focus(c, t, m) && t.Branch? && y !in Nodes(t) && y !in CNodes(c) && y !in {m.nil, m.root}
    requires var p, l, r := HoleParent(c, m), RootOf(t.left, m), RootOf(t.right, m);
      && Only({t.node, y, p, l, r}, m, m') && At(y, Cell(l, r, p, mh, red), m')
      && (t.left.Branch? && l in m.cells ==> At(l, m.cells[l].(parent := y), m'))
      && (t.right.Branch? && r in m.cells ==> At(r, m.cells[r].(parent := y), m'))
      && (p in m.cells ==> At(p, if c.InRight? then m.cells[p].(right := y) else m.cells[p].(left := y), m'))
    ensures Focus(c, Branch(t.left, y, mh, red, t.right), m')
  {
    hide Shape, CShape;
    var u, p := Branch(t.left, y, mh, red, t.right), HoleParent(c, m);
    Parts(t);
    CParts(c);
    assert Nodes(u) == Nodes(t.left) + {y} + Nodes(t.right) && Sep(u);
    SubstitutedShape(t, p, y, mh, red, m, m');
    Refilled(c, t.node, y, {t.node, y, p, RootOf(t.left, m), RootOf(t.right, m)}, m, m');
  }
}
