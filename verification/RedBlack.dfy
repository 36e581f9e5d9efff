/** The pure side of the interval tree: node objects, the shape of a red-black tree as a value,
    and the facts that rotations, recolourings and splices keep. */
module RedBlack {
  import opened Powers

  const MAX_TIME: int := 0x7fff_ffff_ffff_ffff

  /** A simulation time in raw ticks. */
  type Time = t: int | -MAX_TIME <= t <= MAX_TIME

  class Interval {
    const low: Time
    const high: Time
    const value: int

    constructor (low: Time, high: Time, value: int)
      ensures this.low == low && this.high == high && this.value == value
    {
      this.low, this.high, this.value := low, high, value;
    }
  }

  class Node {
    const stored: Interval?
    const key: Time
    const high: Time
    var maxHigh: Time
    var red: bool
    var left: Node
    var right: Node
    var parent: Node

    constructor (interval: Interval)
      ensures stored == interval && key == interval.low && high == maxHigh == interval.high && !red
    {
      stored, key, high, maxHigh := interval, interval.low, interval.high, interval.high;
      red := false;
      left, right, parent := this, this, this;
    }

    constructor Sentinel(bound: Time)
      ensures stored == null && key == high == maxHigh == bound && !red
    {
      stored, key, high, maxHigh := null, bound, bound, bound;
      red := false;
      left, right, parent := this, this, this;
    }
  }

  function Max(a: Time, b: Time): Time {
    if a < b then b else a
  }

  // ---------- trees and one-hole contexts ----------

  /** The value of a subtree: which node stands where, with the fields that change. */
  datatype Tree = Leaf | Branch(left: Tree, node: Node, maxHigh: Time, red: bool, right: Tree)

  /** A tree with a hole, read from the hole outwards. */
  datatype Ctx =
    | Top
    | InLeft(node: Node, maxHigh: Time, red: bool, right: Tree, up: Ctx)
    | InRight(left: Tree, node: Node, maxHigh: Time, red: bool, up: Ctx)

  function Nodes(t: Tree): set<Node> {
    match t
    case Leaf => {}
    case Branch(l, n, _, _, r) => Nodes(l) + {n} + Nodes(r)
  }

  function CNodes(c: Ctx): set<Node> {
    match c
    case Top => {}
    case InLeft(n, _, _, r, up) => {n} + Nodes(r) + CNodes(up)
    case InRight(l, n, _, _, up) => Nodes(l) + {n} + CNodes(up)
  }

  /** No node occurs twice. */
  ghost predicate Sep(t: Tree) {
    match t
    case Leaf => true
    case Branch(l, n, _, _, r) => Sep(l) && Sep(r) && n !in Nodes(l) && n !in Nodes(r) && Nodes(l) !! Nodes(r)
  }

  ghost predicate CSep(c: Ctx) {
    match c
    case Top => true
    case InLeft(n, _, _, r, up) => Sep(r) && CSep(up) && n !in Nodes(r) && n !in CNodes(up) && Nodes(r) !! CNodes(up)
    case InRight(l, n, _, _, up) => Sep(l) && CSep(up) && n !in Nodes(l) && n !in CNodes(up) && Nodes(l) !! CNodes(up)
  }

  function Painted(t: Tree, red: bool): Tree {
    if t.Leaf? then Leaf else Branch(t.left, t.node, t.maxHigh, red, t.right)
  }

  /** One step out: the tree around the innermost node of c. */
  function Fill(c: Ctx, t: Tree): Tree
    requires !c.Top?
  {
    if c.InLeft? then Branch(t, c.node, c.maxHigh, c.red, c.right) else Branch(c.left, c.node, c.maxHigh, c.red, t)
  }

  function Sibling(c: Ctx): Tree
    requires !c.Top?
  {
    if c.InLeft? then c.right else c.left
  }

  /** The context whose hole is the sibling's place. */
  function Across(c: Ctx, t: Tree): Ctx
    requires !c.Top?
  {
    if c.InLeft? then InRight(t, c.node, c.maxHigh, c.red, c.up) else InLeft(c.node, c.maxHigh, c.red, t, c.up)
  }

  /** The context with another colour at its innermost node and another tree beside the hole. */
  function Beside(c: Ctx, red: bool, sibling: Tree): Ctx
    requires !c.Top?
  {
    if c.InLeft? then InLeft(c.node, c.maxHigh, red, sibling, c.up) else InRight(sibling, c.node, c.maxHigh, red, c.up)
  }

  function Plug(c: Ctx, t: Tree): Tree {
    if c.Top? then t else Plug(c.up, Fill(c, t))
  }

  function Inorder(t: Tree): seq<Node> {
    match t
    case Leaf => []
    case Branch(l, n, _, _, r) => Inorder(l) + [n] + Inorder(r)
  }

  function Before(c: Ctx): seq<Node> {
    match c
    case Top => []
    case InLeft(_, _, _, _, up) => Before(up)
    case InRight(l, n, _, _, up) => Before(up) + Inorder(l) + [n]
  }

  function After(c: Ctx): seq<Node> {
    match c
    case Top => []
    case InLeft(n, _, _, r, up) => [n] + Inorder(r) + After(up)
    case InRight(_, _, _, _, up) => After(up)
  }

  /** All nodes of Plug(c, t) in order. */
  function Whole(c: Ctx, t: Tree): seq<Node> {
    Before(c) + Inorder(t) + After(c)
  }

  lemma WholeUp(c: Ctx, t: Tree)
    ensures !c.Top? ==> Whole(c.up, Fill(c, t)) == Whole(c, t)
  {
  }

  lemma {:induction false} InorderPlug(c: Ctx, t: Tree)
    ensures Inorder(Plug(c, t)) == Whole(c, t)
  {
    if !c.Top? {
      InorderPlug(c.up, Fill(c, t));
      WholeUp(c, t);
    }
  }

  lemma {:induction false} InorderNodes(t: Tree, n: Node)
    ensures n in Inorder(t) <==> n in Nodes(t)
  {
    if t.Branch? {
      InorderNodes(t.left, n);
      InorderNodes(t.right, n);
    }
  }

  lemma {:induction false} PlugNodes(c: Ctx, t: Tree)
    ensures Nodes(Plug(c, t)) == CNodes(c) + Nodes(t)
    ensures Sep(Plug(c, t)) <==> Sep(t) && CSep(c) && Nodes(t) !! CNodes(c)
  {
    match c
    case Top =>
    case InLeft(n, m, red, r, up) => PlugNodes(up, Branch(t, n, m, red, r));
    case InRight(l, n, m, red, up) => PlugNodes(up, Branch(l, n, m, red, t));
  }

  /** Every node of a tree is in the hole of some context. */
  lemma {:induction false} Locate(c: Ctx, t: Tree, z: Node) returns (c': Ctx, s: Tree)
    requires z in Nodes(t)
    ensures Plug(c', s) == Plug(c, t) && s.Branch? && s.node == z
    decreases t
  {
    match t
    case Branch(l, n, m, red, r) =>
      if z == n {
        return c, t;
      } else if z in Nodes(l) {
        c', s := Locate(InLeft(n, m, red, r, c), l, z);
      } else {
        c', s := Locate(InRight(l, n, m, red, c), r, z);
      }
  }

  // ---------- what the tree promises ----------

  ghost predicate Sorted(s: seq<Node>) {
    forall i, j :: 0 <= i < j < |s| ==> s[i].key <= s[j].key
  }

  lemma SplitAt<T>(b: seq<T>, l: seq<T>, x: T, r: seq<T>, a: seq<T>)
    ensures var s, k := b + (l + [x] + r) + a, |b| + |l|;
      s[..k] == b + l && s[k] == x && s[k + 1..] == r + a
  {
    assert b + (l + [x] + r) + a == (b + l) + [x] + (r + a);
  }

  lemma SortedAround(s: seq<Node>, k: nat)
    requires Sorted(s) && k < |s|
    ensures forall n :: n in s[..k] ==> n.key <= s[k].key
    ensures forall n :: n in s[k + 1..] ==> s[k].key <= n.key
  {
  }

  lemma SortedParts(c: Ctx, t: Tree)
    requires Sorted(Inorder(Plug(c, t))) && t.Branch?
    ensures forall n :: n in Inorder(t.left) ==> n.key <= t.node.key
    ensures forall n :: n in Inorder(t.right) ==> t.node.key <= n.key
  {
    InorderPlug(c, t);
    var b, l, r, a := Before(c), Inorder(t.left), Inorder(t.right), After(c);
    SplitAt(b, l, t.node, r, a);
    SortedAround(Whole(c, t), |b| + |l|);
    assert forall n :: n in l ==> n in b + l;
    assert forall n :: n in r ==> n in r + a;
  }

  function MaxOf(t: Tree): Time {
    if t.Leaf? then -MAX_TIME else t.maxHigh
  }

  function Top3(n: Node, l: Tree, r: Tree): Time {
    Max(n.high, Max(MaxOf(l), MaxOf(r)))
  }

  ghost predicate MaxOk(t: Tree) {
    t.Branch? ==> t.maxHigh == Top3(t.node, t.left, t.right) && MaxOk(t.left) && MaxOk(t.right)
  }

  /** The context's `maxHigh` fields are right if the hole holds a tree with maximum m. */
  ghost predicate CMaxOk(c: Ctx, m: Time) {
    match c
    case Top => true
    case InLeft(n, mh, _, r, up) => MaxOk(r) && mh == Max(n.high, Max(m, MaxOf(r))) && CMaxOk(up, mh)
    case InRight(l, n, mh, _, up) => MaxOk(l) && mh == Max(n.high, Max(MaxOf(l), m)) && CMaxOk(up, mh)
  }

  predicate Red(t: Tree) {
    t.Branch? && t.red
  }

  ghost predicate NoRedRed(t: Tree) {
    t.Branch? ==> (t.red ==> !Red(t.left) && !Red(t.right)) && NoRedRed(t.left) && NoRedRed(t.right)
  }

  /** The context has no red node with a red child if the hole's root has the given colour. */
  ghost predicate CNoRedRed(c: Ctx, hole: bool) {
    match c
    case Top => true
    case InLeft(_, _, red, r, up) => (red ==> !hole && !Red(r)) && NoRedRed(r) && CNoRedRed(up, red)
    case InRight(l, _, _, red, up) => (red ==> !hole && !Red(l)) && NoRedRed(l) && CNoRedRed(up, red)
  }

  /** The colour of the outermost node of a context whose hole has the given colour. */
  predicate RootRed(c: Ctx, hole: bool) {
    if c.Top? then hole else RootRed(c.up, c.red)
  }

  /** Every path from t's root to a leaf passes h black nodes. */
  ghost predicate Balanced(t: Tree, h: nat) {
    match t
    case Leaf => h == 0
    case Branch(l, _, _, red, r) =>
      if red then Balanced(l, h) && Balanced(r, h) else h > 0 && Balanced(l, h - 1) && Balanced(r, h - 1)
  }

  /** With a tree of black height h in the hole, the whole has black height total. */
  ghost predicate CBalanced(c: Ctx, h: nat, total: nat) {
    match c
    case Top => h == total
    case InLeft(_, _, red, r, up) => Balanced(r, h) && CBalanced(up, if red then h else h + 1, total)
    case InRight(l, _, _, red, up) => Balanced(l, h) && CBalanced(up, if red then h else h + 1, total)
  }

  ghost predicate RedBlackTree(t: Tree) {
    !Red(t) && NoRedRed(t) && exists h :: Balanced(t, h)
  }

  lemma {:induction false} PlugMaxOk(c: Ctx, t: Tree)
    ensures MaxOk(Plug(c, t)) <==> MaxOk(t) && CMaxOk(c, MaxOf(t))
  {
    match c
    case Top =>
    case InLeft(n, m, red, r, up) => PlugMaxOk(up, Branch(t, n, m, red, r));
    case InRight(l, n, m, red, up) => PlugMaxOk(up, Branch(l, n, m, red, t));
  }

  lemma {:induction false} PlugNoRedRed(c: Ctx, t: Tree)
    ensures NoRedRed(Plug(c, t)) <==> NoRedRed(t) && CNoRedRed(c, Red(t))
    ensures Red(Plug(c, t)) == RootRed(c, Red(t))
  {
    match c
    case Top =>
    case InLeft(n, m, red, r, up) => PlugNoRedRed(up, Branch(t, n, m, red, r));
    case InRight(l, n, m, red, up) => PlugNoRedRed(up, Branch(l, n, m, red, t));
  }

  lemma {:induction false} PlugBalanced(c: Ctx, t: Tree, h: nat, total: nat)
    requires Balanced(t, h) && CBalanced(c, h, total)
    ensures Balanced(Plug(c, t), total)
  {
    match c
    case Top =>
    case InLeft(n, m, red, r, up) => PlugBalanced(up, Branch(t, n, m, red, r), if red then h else h + 1, total);
    case InRight(l, n, m, red, up) => PlugBalanced(up, Branch(l, n, m, red, t), if red then h else h + 1, total);
  }

  lemma {:induction false} UnplugBalanced(c: Ctx, t: Tree, total: nat) returns (h: nat)
    requires Balanced(Plug(c, t), total)
    ensures Balanced(t, h) && CBalanced(c, h, total)
  {
    match c
    case Top => h := total;
    case InLeft(n, m, red, r, up) =>
      h := UnplugBalanced(up, Branch(t, n, m, red, r), total);
      h := if red then h else h - 1;
    case InRight(l, n, m, red, up) =>
      h := UnplugBalanced(up, Branch(l, n, m, red, t), total);
      h := if red then h else h - 1;
  }

  // ---------- what the augmentation and the colours mean ----------

  lemma {:induction false} MaxMeaning(t: Tree)
    requires MaxOk(t)
    ensures forall n :: n in Nodes(t) ==> n.high <= MaxOf(t)
    ensures t.Branch? ==> exists n :: n in Nodes(t) && n.high == MaxOf(t)
  {
    if t.Branch? {
      MaxMeaning(t.left);
      MaxMeaning(t.right);
      if t.maxHigh == t.node.high {
        assert t.node in Nodes(t);
      }
    }
  }

  function Height(t: Tree): nat {
    if t.Leaf? then 0 else 1 + if Height(t.left) < Height(t.right) then Height(t.right) else Height(t.left)
  }

  lemma {:induction false} HeightByBlackHeight(t: Tree, h: nat)
    requires NoRedRed(t) && Balanced(t, h)
    ensures Height(t) <= 2 * h + (if Red(t) then 1 else 0)
    ensures Pow2(h) <= |Inorder(t)| + 1
  {
    if t.Branch? {
      var h' := if t.red then h else h - 1;
      HeightByBlackHeight(t.left, h');
      HeightByBlackHeight(t.right, h');
    }
  }

  lemma PowStep(n: nat)
    ensures Pow2(0) == 1 && Pow2(n + 1) == 2 * Pow2(n)
  {
  }

  lemma Doubled(x: int, y: int)
    requires x <= y * y
    ensures 2 * (2 * x) <= (2 * y) * (2 * y)
  {
    assert (2 * y) * (2 * y) == 4 * (y * y);
  }

  lemma {:induction false} Pow2Double(a: nat, b: nat)
    requires a <= 2 * b
    ensures Pow2(a) <= Pow2(b) * Pow2(b)
    decreases b
  {
    hide Pow2;
    PowStep(0);
    if b > 0 {
      PowStep(b - 1);
      if a >= 2 {
        Pow2Double(a - 2, b - 1);
        PowStep(a - 2);
        PowStep(a - 1);
        Doubled(Pow2(a - 2), Pow2(b - 1));
      } else {
        Pow2Double(0, b - 1);
        Doubled(1, Pow2(b - 1));
      }
    }
  }

  lemma SquareMonotone(a: nat, b: nat)
    requires a <= b
    ensures a * a <= b * b
  {
    assert a * a <= a * b <= b * b;
  }

  /** A tree of n intervals has height at most 2 * log2(n + 1). */
  lemma HeightBound(t: Tree)
    requires RedBlackTree(t)
    ensures Pow2(Height(t)) <= (|Inorder(t)| + 1) * (|Inorder(t)| + 1)
  {
    var h :| Balanced(t, h);
    HeightByBlackHeight(t, h);
    Pow2Double(Height(t), h);
    SquareMonotone(Pow2(h), |Inorder(t)| + 1);
  }

  // ---------- rotations ----------

  function Recomputed(l: Tree, n: Node, red: bool, r: Tree): Tree {
    Branch(l, n, Top3(n, l, r), red, r)
  }

  function RotatedLeft(t: Tree): Tree
    requires t.Branch? && t.right.Branch?
  {
    Recomputed(Recomputed(t.left, t.node, t.red, t.right.left), t.right.node, t.right.red, t.right.right)
  }

  function RotatedRight(t: Tree): Tree
    requires t.Branch? && t.left.Branch?
  {
    Recomputed(t.left.left, t.left.node, t.left.red, Recomputed(t.left.right, t.node, t.red, t.right))
  }

  lemma RotatedLeftNodes(t: Tree)
    requires t.Branch? && t.right.Branch? && Sep(t)
    ensures Sep(RotatedLeft(t)) && Nodes(RotatedLeft(t)) == Nodes(t)
  {
  }

  lemma RotatedRightNodes(t: Tree)
    requires t.Branch? && t.left.Branch? && Sep(t)
    ensures Sep(RotatedRight(t)) && Nodes(RotatedRight(t)) == Nodes(t)
  {
  }

  /** The context after `maxHigh` is recomputed from a hole with maximum m up to the root. */
  function Refreshed(c: Ctx, m: Time): Ctx {
    match c
    case Top => Top
    case InLeft(n, _, red, r, up) =>
      var mh := Max(n.high, Max(m, MaxOf(r)));
      InLeft(n, mh, red, r, Refreshed(up, mh))
    case InRight(l, n, _, red, up) =>
      var mh := Max(n.high, Max(MaxOf(l), m));
      InRight(l, n, mh, red, Refreshed(up, mh))
  }

  lemma {:induction false} RefreshedSame(c: Ctx, m: Time)
    ensures var c' := Refreshed(c, m);
      && Before(c') == Before(c) && After(c') == After(c) && CNodes(c') == CNodes(c)
  {
    match c
    case Top =>
    case InLeft(n, _, _, r, up) => RefreshedSame(up, Max(n.high, Max(m, MaxOf(r))));
    case InRight(l, n, _, _, up) => RefreshedSame(up, Max(n.high, Max(MaxOf(l), m)));
  }

  lemma RefreshedTop(c: Ctx, m: Time)
    ensures Refreshed(c, m).Top? <==> c.Top?
    ensures Refreshed(c, m).InLeft? <==> c.InLeft?
    ensures !c.Top? ==> Refreshed(c, m).node == c.node
  {
  }

  lemma {:induction false} RefreshedColours(c: Ctx, m: Time, hole: bool)
    ensures CNoRedRed(Refreshed(c, m), hole) <==> CNoRedRed(c, hole)
    ensures RootRed(Refreshed(c, m), hole) == RootRed(c, hole)
  {
    match c
    case Top =>
    case InLeft(n, _, red, r, up) => RefreshedColours(up, Max(n.high, Max(m, MaxOf(r))), red);
    case InRight(l, n, _, red, up) => RefreshedColours(up, Max(n.high, Max(MaxOf(l), m)), red);
  }

  lemma {:induction false} RefreshedBalanced(c: Ctx, m: Time, h: nat, total: nat)
    ensures CBalanced(Refreshed(c, m), h, total) <==> CBalanced(c, h, total)
  {
    match c
    case Top =>
    case InLeft(n, _, red, r, up) =>
      RefreshedBalanced(up, Max(n.high, Max(m, MaxOf(r))), if red then h else h + 1, total);
    case InRight(l, n, _, red, up) =>
      RefreshedBalanced(up, Max(n.high, Max(MaxOf(l), m)), if red then h else h + 1, total);
  }

  lemma PlugRefreshed(c: Ctx, t: Tree)
    ensures c.Top? ==> Plug(Refreshed(c, MaxOf(t)), t) == t
    ensures !c.Top? ==>
      var w := Fill(c, t);
      var w' := w.(maxHigh := Top3(w.node, w.left, w.right));
      Plug(Refreshed(c, MaxOf(t)), t) == Plug(Refreshed(c.up, MaxOf(w')), w')
  {
  }

  /** Everything beside the path is right, so the refreshed path is right. */
  ghost predicate SidesMaxOk(c: Ctx) {
    match c
    case Top => true
    case InLeft(_, _, _, r, up) => MaxOk(r) && SidesMaxOk(up)
    case InRight(l, _, _, _, up) => MaxOk(l) && SidesMaxOk(up)
  }

  lemma {:induction false} RefreshedMaxOk(c: Ctx, m: Time)
    requires SidesMaxOk(c)
    ensures CMaxOk(Refreshed(c, m), m)
  {
    match c
    case Top =>
    case InLeft(n, _, _, r, up) => RefreshedMaxOk(up, Max(n.high, Max(m, MaxOf(r))));
    case InRight(l, n, _, _, up) => RefreshedMaxOk(up, Max(n.high, Max(MaxOf(l), m)));
  }

  lemma {:induction false} CMaxOkSides(c: Ctx, m: Time)
    requires CMaxOk(c, m)
    ensures SidesMaxOk(c)
  {
    if !c.Top? {
      CMaxOkSides(c.up, c.maxHigh);
    }
  }

  function Depth(c: Ctx): nat {
    if c.Top? then 0 else 1 + Depth(c.up)
  }

  lemma Reassociated<T>(a: seq<T>, x: T, b: seq<T>, y: T, d: seq<T>)
    ensures a + [x] + (b + [y] + d) == (a + [x] + b) + [y] + d
  {
  }

  lemma RotatedLeftKeeps(t: Tree)
    requires t.Branch? && t.right.Branch?
    ensures Inorder(RotatedLeft(t)) == Inorder(t)
    ensures MaxOk(t) ==> MaxOk(RotatedLeft(t)) && MaxOf(RotatedLeft(t)) == MaxOf(t)
  {
    var a, b, d := t.left, t.right.left, t.right.right;
    Reassociated(Inorder(a), t.node, Inorder(b), t.right.node, Inorder(d));
    assert Inorder(t.right) == Inorder(b) + [t.right.node] + Inorder(d);
    assert MaxOk(t) ==> MaxOk(t.right) && MaxOk(RotatedLeft(t).left);
  }

  lemma RotatedRightKeeps(t: Tree)
    requires t.Branch? && t.left.Branch?
    ensures Inorder(RotatedRight(t)) == Inorder(t)
    ensures MaxOk(t) ==> MaxOk(RotatedRight(t)) && MaxOf(RotatedRight(t)) == MaxOf(t)
  {
    var a, b, d := t.right, t.left.right, t.left.left;
    Reassociated(Inorder(d), t.left.node, Inorder(b), t.node, Inorder(a));
    assert Inorder(t.left) == Inorder(d) + [t.left.node] + Inorder(b);
    assert MaxOk(t) ==> MaxOk(t.left) && MaxOk(RotatedRight(t).right);
  }

  lemma WholeSame(c: Ctx, t: Tree, u: Tree)
    requires Inorder(t) == Inorder(u)
    ensures Whole(c, t) == Whole(c, u)
  {
  }

  /** What is right of a tree is right of its subtrees. */
  lemma Inside(t: Tree)
    ensures t.Branch? && MaxOk(t) ==> MaxOk(t.left) && MaxOk(t.right)
    ensures t.Branch? && NoRedRed(t) ==> NoRedRed(t.left) && NoRedRed(t.right)
    ensures t.Branch? && NoRedRed(t) ==> NoRedRed(Painted(t.left, false)) && NoRedRed(Painted(t.right, false))
    ensures t.Branch? && NoRedRed(t) && t.red ==> !Red(t.left) && !Red(t.right)
  {
  }

  /** Membership facts about separated trees, for proofs that hide the recursive definitions. */
  lemma Parts(t: Tree)
    requires Sep(t)
    ensures t.Branch? ==> t.node in Nodes(t) && t.node !in Nodes(t.left) && t.node !in Nodes(t.right)
    ensures t.Branch? ==> Sep(t.left) && Sep(t.right) && Nodes(t.left) !! Nodes(t.right)
    ensures t.Branch? ==> Nodes(t.left) <= Nodes(t) && Nodes(t.right) <= Nodes(t)
  {
  }

  lemma CParts(c: Ctx)
    requires CSep(c)
    ensures !c.Top? ==> c.node in CNodes(c) && c.node !in CNodes(c.up) && CSep(c.up) && CNodes(c.up) <= CNodes(c)
    ensures c.InLeft? ==>
      c.node !in Nodes(c.right) && Nodes(c.right) <= CNodes(c) && Sep(c.right) && Nodes(c.right) !! CNodes(c.up)
    ensures c.InRight? ==>
      c.node !in Nodes(c.left) && Nodes(c.left) <= CNodes(c) && Sep(c.left) && Nodes(c.left) !! CNodes(c.up)
  {
  }
}
