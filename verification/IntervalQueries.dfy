/** What a query asks for, and why skipping right subtrees loses nothing. */
module IntervalQueries {
  import opened Lists
  import opened RedBlack

  /** 1 if the two closed intervals overlap. */
  function Overlap(a1: Time, a2: Time, b1: Time, b2: Time): bool {
    if a1 <= b1 then b1 <= a2 else a1 <= b2
  }

  /** Two intervals overlap exactly when some instant lies in both. */
  lemma OverlapMeaning(a1: Time, a2: Time, b1: Time, b2: Time)
    requires a1 <= a2 && b1 <= b2
    ensures Overlap(a1, a2, b1, b2) <==> exists t: Time :: Within(t, a1, a2) && Within(t, b1, b2)
  {
    if Overlap(a1, a2, b1, b2) {
      var t := Max(a1, b1);
      assert Within(t, a1, a2) && Within(t, b1, b2);
    }
  }

  predicate Within(t: Time, low: Time, high: Time) {
    low <= t <= high
  }

  /** The nodes of t that overlap [low, high], in the order the query meets them. */
  function Hits(t: Tree, low: Time, high: Time): seq<Node> {
    match t
    case Leaf => []
    case Branch(l, n, _, _, r) =>
      (if Overlap(low, high, n.key, n.high) then [n] else []) + Hits(l, low, high) + Hits(r, low, high)
  }

  /** Every overlapping node is met, and nothing else. */
  lemma {:induction false} HitsComplete(t: Tree, low: Time, high: Time, n: Node)
    ensures n in Hits(t, low, high) <==> n in Nodes(t) && Overlap(low, high, n.key, n.high)
  {
    if t.Branch? {
      HitsComplete(t.left, low, high, n);
      HitsComplete(t.right, low, high, n);
    }
  }

  /** No node is met twice. */
  lemma {:induction false} HitsOnce(t: Tree, low: Time, high: Time)
    requires Sep(t)
    ensures Distinct(Hits(t, low, high))
  {
    if t.Branch? {
      HitsOnce(t.left, low, high);
      HitsOnce(t.right, low, high);
      var h, l, r := HitAt(t.node, low, high), Hits(t.left, low, high), Hits(t.right, low, high);
      forall n | n in l
        ensures n !in r && n !in h
      {
        HitsComplete(t.left, low, high, n);
        HitsComplete(t.right, low, high, n);
      }
      HitsComplete(t.right, low, high, t.node);
      DistinctParts(h, l, r);
    }
  }

  lemma DistinctParts(h: seq<Node>, l: seq<Node>, r: seq<Node>)
    requires |h| <= 1 && Distinct(l) && Distinct(r)
    requires forall n :: n in l ==> n !in r && n !in h
    requires forall n :: n in h ==> n !in r
    ensures Distinct(h + l + r)
  {
    var s := h + l + r;
    forall i, j | 0 <= i < j < |s|
      ensures s[i] != s[j]
    {
      if i < |h| {
        assert s[i] in h && (s[j] in l || s[j] in r);
      } else if i < |h| + |l| {
        assert s[i] == l[i - |h|];
        assert j < |h| + |l| ==> s[j] == l[j - |h|];
        assert j >= |h| + |l| ==> s[j] in r;
      } else {
        assert s[i] == r[i - |h| - |l|] && s[j] == r[j - |h| - |l|];
      }
    }
  }

  /** Intervals are not empty. */
  ghost predicate WellFormed(t: Tree) {
    forall n :: n in Nodes(t) ==> n.key <= n.high
  }

  lemma {:induction false} NoOverlapNoHits(t: Tree, low: Time, high: Time)
    ensures Hits(t, low, high) == [] <==> forall n :: n in Nodes(t) ==> !Overlap(low, high, n.key, n.high)
  {
    if t.Branch? {
      NoOverlapNoHits(t.left, low, high);
      NoOverlapNoHits(t.right, low, high);
      assert t.node in Nodes(t);
    }
  }

  /** If a subtree ends before the query begins, it holds no hit. */
  lemma EarlySubtree(t: Tree, low: Time, high: Time)
    requires MaxOk(t) && MaxOf(t) < low && WellFormed(t)
    ensures Hits(t, low, high) == []
  {
    MaxMeaning(t);
    NoOverlapNoHits(t, low, high);
  }

  /** If the left subtree reaches the query but holds no hit, all keys to its right are too late. */
  lemma SkippedRight(t: Tree, low: Time, high: Time)
    requires t.Branch? && MaxOk(t.left) && Sorted(Inorder(t)) && low <= high
    requires MaxOf(t.left) >= low > -MAX_TIME && Hits(t.left, low, high) == []
    ensures Hits(t.right, low, high) == []
  {
    MaxMeaning(t.left);
    NoOverlapNoHits(t.left, low, high);
    NoOverlapNoHits(t.right, low, high);
    var e :| e in Nodes(t.left) && e.high == MaxOf(t.left);
    assert e.key > high;
    SortedSides(t);
  }

  function HitAt(n: Node, low: Time, high: Time): seq<Node> {
    if Overlap(low, high, n.key, n.high) then [n] else []
  }

  /** The nodes that the search meets, in order. It goes left wherever the left subtree reaches the query, and then
      looks to the right only if something was found on the left. */
  function Met(t: Tree, low: Time, high: Time): seq<Node> {
    match t
    case Leaf => []
    case Branch(l, n, _, _, r) =>
      if MaxOf(l) < low then HitAt(n, low, high) + Met(r, low, high)
      else HitAt(n, low, high) + Met(l, low, high) + if Met(l, low, high) == [] then [] else Met(r, low, high)
  }

  /** A query that starts after the value of `nil` meets every hit. */
  lemma {:induction false} MeetsAll(t: Tree, low: Time, high: Time)
    requires MaxOk(t) && Sorted(Inorder(t)) && WellFormed(t) && -MAX_TIME < low <= high
    ensures Met(t, low, high) == Hits(t, low, high)
  {
    hide Sorted, Inorder, Overlap, WellFormed;
    if t.Branch? {
      SubtreeFacts(t);
      MeetsAll(t.left, low, high);
      MeetsAll(t.right, low, high);
      if MaxOf(t.left) < low {
        EarlySubtree(t.left, low, high);
      } else if Hits(t.left, low, high) == [] {
        SkippedRight(t, low, high);
      }
    }
  }

  /** No node without a left child has a key up to `high` in its right subtree. */
  ghost predicate NoneBeyondNil(t: Tree, high: Time) {
    t.Branch? ==>
      && NoneBeyondNil(t.left, high) && NoneBeyondNil(t.right, high)
      && (t.left.Leaf? ==> forall n :: n in Nodes(t.right) ==> n.key > high)
  }

  /** A query that starts at the value of `nil` goes left even where there is no left child, finds nothing there, and
      never looks to the right of such a node. It meets every hit exactly when none lies there. */
  lemma {:induction false} MeetsAllFromNil(t: Tree, high: Time)
    requires Sorted(Inorder(t)) && WellFormed(t)
    ensures |Met(t, -MAX_TIME, high)| <= |Hits(t, -MAX_TIME, high)|
    ensures if NoneBeyondNil(t, high) then Met(t, -MAX_TIME, high) == Hits(t, -MAX_TIME, high)
            else |Met(t, -MAX_TIME, high)| < |Hits(t, -MAX_TIME, high)|
  {
    hide Sorted, Inorder, Overlap, WellFormed;
    if t.Branch? {
      SubtreeOrder(t);
      MeetsAllFromNil(t.left, high);
      MeetsAllFromNil(t.right, high);
      NilHits(t.left, high);
      NilHits(t.right, high);
      if t.left.Branch? && Hits(t.left, -MAX_TIME, high) == [] {
        SortedSides(t);
        assert t.left.node in Nodes(t.left);
      }
    }
  }

  lemma NilHits(t: Tree, high: Time)
    requires WellFormed(t)
    ensures Hits(t, -MAX_TIME, high) == [] <==> forall n :: n in Nodes(t) ==> n.key > high
  {
    NoOverlapNoHits(t, -MAX_TIME, high);
  }

  lemma SubtreeOrder(t: Tree)
    requires t.Branch? && Sorted(Inorder(t)) && WellFormed(t)
    ensures Sorted(Inorder(t.left)) && WellFormed(t.left) && Sorted(Inorder(t.right)) && WellFormed(t.right)
  {
    SortedPieces(Inorder(t.left), t.node, Inorder(t.right));
  }

  /** A red-black tree with [0, 0] at the root and [1, 1] to its right: a query up to 1 that starts at the value of
      `nil` meets the first only. */
  method NilStartLoses() returns (ghost t: Tree)
    ensures RedBlackTree(t) && MaxOk(t) && Sorted(Inorder(t)) && WellFormed(t) && Storing(Inorder(t))
    ensures |Hits(t, -MAX_TIME, 1)| == 2 && |Met(t, -MAX_TIME, 1)| == 1
  {
    var first := new Interval(0, 0, 0);
    var second := new Interval(1, 1, 0);
    var x := new Node(first);
    var y := new Node(second);
    ghost var right := Branch(Leaf, y, 1, true, Leaf);
    t := Branch(Leaf, x, 1, false, right);
    assert Inorder(right) == [y] && Inorder(t) == [x, y];
    assert Balanced(right, 0) && Balanced(t, 1);
    assert Hits(right, -MAX_TIME, 1) == [y];
  }

  lemma SortedSides(t: Tree)
    requires t.Branch? && Sorted(Inorder(t))
    ensures forall m, n :: m in Nodes(t.left) && n in Nodes(t.right) ==> m.key <= n.key
  {
    hide Sorted, Inorder, Nodes;
    SortedParts(Top, t);
    forall m, n | m in Nodes(t.left) && n in Nodes(t.right)
      ensures m.key <= n.key
    {
      InorderNodes(t.left, m);
      InorderNodes(t.right, n);
    }
  }

  lemma SortedPieces(l: seq<Node>, x: Node, r: seq<Node>)
    requires Sorted(l + [x] + r)
    ensures Sorted(l) && Sorted(r)
  {
    var s := l + [x] + r;
    assert forall i :: 0 <= i < |l| ==> l[i] == s[i];
    assert forall i :: 0 <= i < |r| ==> r[i] == s[|l| + 1 + i];
  }

  /** What the search meets to the right of a node once it has been to its left. */
  function MetRight(t: Tree, low: Time, high: Time): seq<Node> {
    if Met(LeftOf(t), low, high) == [] then [] else Met(RightOf(t), low, high)
  }

  /** What the search will meet to the right of the stacked trees above index k, innermost first. */
  function Pending(stacked: seq<Tree>, k: nat, low: Time, high: Time): seq<Node> {
    if |stacked| <= k + 1 then []
    else MetRight(stacked[|stacked| - 1], low, high) + Pending(stacked[..|stacked| - 1], k, low, high)
  }

  function LeftOf(t: Tree): Tree {
    if t.Leaf? then Leaf else t.left
  }

  function RightOf(t: Tree): Tree {
    if t.Leaf? then Leaf else t.right
  }

  function Size(t: Tree): nat {
    if t.Leaf? then 0 else 1 + Size(t.left) + Size(t.right)
  }

  function PendingSize(stacked: seq<Tree>): nat {
    if |stacked| <= 1 then 0
    else
      Size(RightOf(stacked[|stacked| - 1])) + PendingSize(stacked[..|stacked| - 1])
  }

  datatype Frame = Frame(startNode: Node?, parentIndex: nat, tryRight: bool)

  /** What a frame of the stack records about the tree it stands for. A flag says that something was met on its left. */
  ghost predicate FrameOk(f: Frame, s: Tree, k: nat, low: Time, high: Time) {
    && k >= 1 && s.Branch? && MaxOf(s.left) >= low && f.startNode == s.node && f.parentIndex == k - 1
    && (f.tryRight ==> Met(s.left, low, high) != [])
  }

  ghost predicate Unflagged(frames: seq<Frame>, lo: nat, hi: nat) {
    forall j :: lo <= j < hi && j < |frames| ==> !frames[j].tryRight
  }

  /** What is met in t is met to the left of the tree s it was reached from. */
  ghost predicate Below(s: Tree, t: Tree, low: Time, high: Time) {
    Met(t, low, high) != [] ==> Met(LeftOf(s), low, high) != []
  }

  ghost predicate FramesOk(frames: seq<Frame>, stacked: seq<Tree>, low: Time, high: Time) {
    && 1 <= |stacked| <= |frames|
    && (forall k :: 1 <= k < |stacked| ==> FrameOk(frames[k], stacked[k], k, low, high))
    && (forall k :: 1 < k < |stacked| ==> Below(stacked[k - 1], stacked[k], low, high))
  }

  /** The search's invariant. `stacked[k]` is the tree at frame k, `t` the subtree about to be searched. */
  ghost predicate Searching(frames: seq<Frame>, stacked: seq<Tree>, t: Tree, found: seq<Node>, whole: Tree,
                            low: Time, high: Time)
  {
    && FramesOk(frames, stacked, low, high)
    && (|stacked| > 1 ==> Below(stacked[|stacked| - 1], t, low, high))
    && found + (Met(t, low, high) + Pending(stacked, 0, low, high)) == Met(whole, low, high)
    && (forall k :: 1 <= k < |stacked| && Unflagged(frames, k, |stacked|) ==>
      Met(LeftOf(stacked[k]), low, high) == Met(t, low, high) + Pending(stacked, k, low, high))
  }

  function Flagged(frames: seq<Frame>, k: nat): seq<Frame>
    requires k < |frames|
  {
    frames[k := frames[k].(tryRight := true)]
  }

  function Marked(frames: seq<Frame>, k: nat, n: Node, low: Time, high: Time): seq<Frame>
    requires k < |frames|
  {
    if Overlap(low, high, n.key, n.high) then Flagged(frames, k) else frames
  }

  lemma SubtreeFacts(t: Tree)
    requires t.Branch? && MaxOk(t) && Sorted(Inorder(t)) && WellFormed(t)
    ensures MaxOk(t.left) && Sorted(Inorder(t.left)) && WellFormed(t.left)
    ensures MaxOk(t.right) && Sorted(Inorder(t.right)) && WellFormed(t.right)
  {
    SubtreeOrder(t);
  }

  lemma HitsBranch(t: Tree, low: Time, high: Time)
    requires t.Branch?
    ensures Hits(t, low, high) == HitAt(t.node, low, high) + Hits(t.left, low, high) + Hits(t.right, low, high)
  {
  }

  lemma MetBranch(t: Tree, low: Time, high: Time)
    requires t.Branch?
    ensures Met(t, low, high) == HitAt(t.node, low, high)
      + if MaxOf(t.left) < low then Met(t.right, low, high) else Met(t.left, low, high) + MetRight(t, low, high)
  {
  }

  lemma PendingPush(stacked: seq<Tree>, t: Tree, k: nat, low: Time, high: Time)
    ensures Pending(stacked + [t], k, low, high) ==
      if |stacked| <= k then [] else MetRight(t, low, high) + Pending(stacked, k, low, high)
  {
    assert (stacked + [t])[..|stacked|] == stacked;
  }

  lemma PendingPop(stacked: seq<Tree>, k: nat, low: Time, high: Time)
    requires k + 1 < |stacked|
    ensures var top := |stacked| - 1;
      Pending(stacked, k, low, high) == MetRight(stacked[top], low, high) + Pending(stacked[..top], k, low, high)
  {
  }

  lemma PendingNone(stacked: seq<Tree>, k: nat, low: Time, high: Time)
    requires |stacked| <= k + 1
    ensures Pending(stacked, k, low, high) == [] && Met(Leaf, low, high) == []
  {
  }

  lemma Regroup(f: seq<Node>, h: seq<Node>, l: seq<Node>, r: seq<Node>, p: seq<Node>)
    ensures f + ((h + (l + r)) + p) == (f + h) + (l + (r + p))
    ensures f + ((h + r) + p) == (f + h) + (r + p)
    ensures h == [] ==> (h + (l + r)) + p == l + (r + p) && (h + r) + p == r + p
  {
  }

  /** An unflagged frame below the mark saw no hit at the visited node. */
  lemma MarkedUnflagged(frames: seq<Frame>, top: nat, n: Node, low: Time, high: Time, k: nat)
    requires 1 <= k < top <= |frames| && Unflagged(Marked(frames, top - 1, n, low, high), k, top)
    ensures HitAt(n, low, high) == [] && Unflagged(frames, k, top)
  {
    assert !Marked(frames, top - 1, n, low, high)[top - 1].tryRight;
  }

  /** The last frame may be flagged if something was met on its left. */
  lemma FlaggedFrames(frames: seq<Frame>, stacked: seq<Tree>, low: Time, high: Time)
    requires FramesOk(frames, stacked, low, high)
    requires |stacked| > 1 ==> Met(LeftOf(stacked[|stacked| - 1]), low, high) != []
    ensures var top := |stacked|; var flagged := Flagged(frames, top - 1);
      FramesOk(flagged, stacked, low, high) && forall k :: 1 <= k < top ==> !Unflagged(flagged, k, top)
  {
    hide Met;
    assert Flagged(frames, |stacked| - 1)[|stacked| - 1].tryRight;
  }

  /** Marking keeps what the frames record. */
  lemma MarkedFrames(frames: seq<Frame>, stacked: seq<Tree>, t: Tree, low: Time, high: Time)
    requires FramesOk(frames, stacked, low, high) && t.Branch?
    requires |stacked| > 1 ==> Below(stacked[|stacked| - 1], t, low, high)
    ensures FramesOk(Marked(frames, |stacked| - 1, t.node, low, high), stacked, low, high)
  {
    hide Met, FramesOk, FrameOk, Overlap, Flagged;
    MetBranch(t, low, high);
    if HitAt(t.node, low, high) != [] {
      FlaggedFrames(frames, stacked, low, high);
    }
  }

  /** The frames after x is visited and remembered. */
  function Pushed(frames: seq<Frame>, top: nat, n: Node, low: Time, high: Time): seq<Frame>
    requires 1 <= top < |frames|
  {
    Marked(frames, top - 1, n, low, high)[top := Frame(n, top - 1, false)]
  }

  lemma MarkedGrown(frames: seq<Frame>, rest: seq<Frame>, k: nat, n: Node, low: Time, high: Time)
    requires k < |frames|
    ensures Marked(frames + rest, k, n, low, high) == Marked(frames, k, n, low, high) + rest
  {
  }

  lemma PushedFrames(frames: seq<Frame>, stacked: seq<Tree>, t: Tree, low: Time, high: Time)
    requires FramesOk(frames, stacked, low, high) && |stacked| < |frames| && t.Branch? && MaxOf(t.left) >= low
    requires |stacked| > 1 ==> Below(stacked[|stacked| - 1], t, low, high)
    ensures FramesOk(Pushed(frames, |stacked|, t.node, low, high), stacked + [t], low, high)
    ensures Below(t, t.left, low, high)
  {
    hide Met, Overlap;
    MarkedFrames(frames, stacked, t, low, high);
  }

  lemma PushedUnflagged(frames: seq<Frame>, top: nat, n: Node, low: Time, high: Time, k: nat)
    requires 1 <= k < top < |frames| && Unflagged(Pushed(frames, top, n, low, high), k, top + 1)
    ensures Unflagged(Marked(frames, top - 1, n, low, high), k, top)
  {
    var marked, pushed := Marked(frames, top - 1, n, low, high), Pushed(frames, top, n, low, high);
    assert forall j :: k <= j < top ==> marked[j] == pushed[j];
  }

  /** x is visited and the search goes left, remembering x. */
  lemma StepLeft(frames: seq<Frame>, stacked: seq<Tree>, t: Tree, found: seq<Node>, whole: Tree, low: Time, high: Time)
    requires Searching(frames, stacked, t, found, whole, low, high) && t.Branch? && MaxOf(t.left) >= low
    requires |stacked| < |frames|
    ensures Searching(Pushed(frames, |stacked|, t.node, low, high), stacked + [t], t.left,
                      found + HitAt(t.node, low, high), whole, low, high)
  {
    hide Met, MetRight, Pending, Overlap, HitAt, FrameOk, Below, Marked, Pushed, Unflagged;
    var top, stacked', pushed := |stacked|, stacked + [t], Pushed(frames, |stacked|, t.node, low, high);
    var h, l, r := HitAt(t.node, low, high), Met(t.left, low, high), MetRight(t, low, high);
    PushedFrames(frames, stacked, t, low, high);
    MetBranch(t, low, high);
    PendingPush(stacked, t, 0, low, high);
    Regroup(found, h, l, r, Pending(stacked, 0, low, high));
    forall k | 1 <= k < |stacked'| && Unflagged(pushed, k, |stacked'|)
      ensures Met(LeftOf(stacked'[k]), low, high) == l + Pending(stacked', k, low, high)
    {
      PendingPush(stacked, t, k, low, high);
      if k < top {
        PushedUnflagged(frames, top, t.node, low, high, k);
        MarkedUnflagged(frames, top, t.node, low, high, k);
        Regroup(found, h, l, r, Pending(stacked, k, low, high));
      }
    }
  }

  /** x is visited and, its left subtree ending too early, the search goes right. */
  lemma StepRight(frames: seq<Frame>, stacked: seq<Tree>, t: Tree, found: seq<Node>, whole: Tree, low: Time, high: Time)
    requires Searching(frames, stacked, t, found, whole, low, high) && t.Branch? && MaxOf(t.left) < low
    ensures Searching(Marked(frames, |stacked| - 1, t.node, low, high), stacked, t.right,
                      found + HitAt(t.node, low, high), whole, low, high)
  {
    hide Met, MetRight, Pending, Overlap, HitAt, FrameOk, Marked, Unflagged;
    var top, marked := |stacked|, Marked(frames, |stacked| - 1, t.node, low, high);
    var h, r := HitAt(t.node, low, high), Met(t.right, low, high);
    MarkedFrames(frames, stacked, t, low, high);
    MetBranch(t, low, high);
    Regroup(found, h, [], r, Pending(stacked, 0, low, high));
    forall k | 1 <= k < top && Unflagged(marked, k, top)
      ensures Met(LeftOf(stacked[k]), low, high) == r + Pending(stacked, k, low, high)
    {
      MarkedUnflagged(frames, top, t.node, low, high, k);
      Regroup(found, h, [], r, Pending(stacked, k, low, high));
    }
  }

  /** The frames that remain when the last is popped. If it was flagged, something was met on the left of the one
      below. */
  lemma PoppedFrames(frames: seq<Frame>, stacked: seq<Tree>, low: Time, high: Time)
    requires FramesOk(frames, stacked, low, high) && |stacked| > 1
    ensures var top := |stacked| - 1;
      && stacked[top].Branch? && MaxOf(stacked[top].left) >= low && FramesOk(frames, stacked[..top], low, high)
      && (top > 1 ==> Below(stacked[top - 1], stacked[top], low, high))
      && (frames[top].tryRight ==> Met(stacked[top].left, low, high) != [] && Met(stacked[top], low, high) != [])
  {
    hide Met;
    var top := |stacked| - 1;
    assert FrameOk(frames[top], stacked[top], top, low, high);
    MetBranch(stacked[top], low, high);
  }

  /** A flagged frame is popped: its right subtree is searched and the frame below is flagged. */
  lemma PopFlagged(frames: seq<Frame>, stacked: seq<Tree>, found: seq<Node>, whole: Tree, low: Time, high: Time)
    requires Searching(frames, stacked, Leaf, found, whole, low, high) && |stacked| > 1
      && frames[|stacked| - 1].tryRight
    ensures var top := |stacked| - 1;
      Searching(Flagged(frames, top - 1), stacked[..top], stacked[top].right, found, whole, low, high)
  {
    hide Met, Pending, FramesOk, Unflagged;
    var top := |stacked| - 1;
    PoppedFrames(frames, stacked, low, high);
    PendingPop(stacked, 0, low, high);
    PendingNone(stacked, top, low, high);
    FlaggedFrames(frames, stacked[..top], low, high);
  }

  /** An unflagged frame is popped: nothing was met on its left, and its right subtree is passed over. */
  lemma PopUnflagged(frames: seq<Frame>, stacked: seq<Tree>, found: seq<Node>, whole: Tree, low: Time, high: Time)
    requires Searching(frames, stacked, Leaf, found, whole, low, high) && |stacked| > 1
      && !frames[|stacked| - 1].tryRight
    ensures Searching(frames, stacked[..|stacked| - 1], Leaf, found, whole, low, high)
  {
    hide Met, Pending, FramesOk;
    var top := |stacked| - 1;
    PoppedFrames(frames, stacked, low, high);
    PendingNone(stacked, top, low, high);
    assert Unflagged(frames, top, |stacked|);
    PendingPop(stacked, 0, low, high);
    forall k | 1 <= k < top && Unflagged(frames, k, top)
      ensures Met(LeftOf(stacked[..top][k]), low, high) == Pending(stacked[..top], k, low, high)
    {
      assert Unflagged(frames, k, |stacked|);
      PendingPop(stacked, k, low, high);
    }
  }

  lemma PendingSizes(stacked: seq<Tree>, t: Tree)
    ensures t.Branch? && |stacked| >= 1 ==> PendingSize(stacked + [t]) == Size(t.right) + PendingSize(stacked)
    ensures |stacked| > 1 && stacked[|stacked| - 1].Branch? ==>
      PendingSize(stacked) == Size(stacked[|stacked| - 1].right) + PendingSize(stacked[..|stacked| - 1])
  {
    assert (stacked + [t])[..|stacked|] == stacked;
  }

  /** The intervals that the nodes store. */
  function Intervals(nodes: seq<Node>): (s: seq<Interval?>)
    ensures |s| == |nodes| && forall i :: 0 <= i < |s| ==> s[i] == nodes[i].stored
  {
    seq(|nodes|, i requires 0 <= i < |nodes| => nodes[i].stored)
  }

  lemma IntervalsAppend(nodes: seq<Node>, n: Node)
    ensures Intervals(nodes + [n]) == Intervals(nodes) + [n.stored]
  {
  }

  lemma IntervalsJoin(a: seq<Node>, b: seq<Node>)
    ensures Intervals(a + b) == Intervals(a) + Intervals(b)
  {
  }

  /** A node's key and high end are those of its interval. */
  ghost predicate Tied(n: Node) {
    n.stored != null && n.key == n.stored.low && n.high == n.stored.high
  }

  ghost predicate Storing(order: seq<Node>) {
    forall n :: n in order ==> Tied(n)
  }

  /** No stored interval ends before it begins. */
  lemma WellFormedOrder(t: Tree)
    ensures WellFormed(t) <==> forall n :: n in Inorder(t) ==> n.key <= n.high
  {
    forall n: Node
      ensures n in Inorder(t) <==> n in Nodes(t)
    {
      InorderNodes(t, n);
    }
  }

  /** Some instant lies in the interval and in [low, high]. */
  ghost predicate Shares(interval: Interval?, low: Time, high: Time) {
    interval != null && exists t: Time :: Within(t, interval.low, interval.high) && Within(t, low, high)
  }

  /** The intervals that share an instant with [low, high]. */
  ghost function Sharing(s: seq<Interval?>, low: Time, high: Time): seq<Interval?> {
    if s == [] then [] else (if Shares(s[0], low, high) then [s[0]] else []) + Sharing(s[1..], low, high)
  }

  lemma {:induction false} SharingMember(s: seq<Interval?>, low: Time, high: Time, interval: Interval?)
    ensures interval in Sharing(s, low, high) <==> interval in s && Shares(interval, low, high)
  {
    if s != [] {
      SharingMember(s[1..], low, high, interval);
    }
  }

  lemma SharingFirst(interval: Interval?, s: seq<Interval?>, low: Time, high: Time)
    ensures Sharing([interval] + s, low, high) ==
      (if Shares(interval, low, high) then [interval] else []) + Sharing(s, low, high)
  {
    assert ([interval] + s)[1..] == s;
  }

  lemma {:induction false} SharingJoin(a: seq<Interval?>, b: seq<Interval?>, low: Time, high: Time)
    ensures Sharing(a + b, low, high) == Sharing(a, low, high) + Sharing(b, low, high)
  {
    hide Shares, Sharing;
    if a == [] {
      SharingNone(low, high);
      assert a + b == b;
    } else {
      SharingJoin(a[1..], b, low, high);
      SharingFirst(a[0], a[1..], low, high);
      SharingFirst(a[0], a[1..] + b, low, high);
      assert a == [a[0]] + a[1..] && a + b == [a[0]] + (a[1..] + b);
    }
  }

  lemma SharingOne(n: Node, low: Time, high: Time)
    requires Tied(n) && n.key <= n.high && low <= high
    ensures Intervals([n]) == [n.stored] && Sharing([n.stored], low, high) == Intervals(HitAt(n, low, high))
  {
    OverlapMeaning(low, high, n.key, n.high);
    assert [n.stored][1..] == [];
  }

  /** The hits of a query are the stored intervals that share an instant with it, as often as they are stored. */
  lemma {:induction false} HitsStored(t: Tree, low: Time, high: Time)
    requires Storing(Inorder(t)) && WellFormed(t) && low <= high
    ensures multiset(Intervals(Hits(t, low, high))) == multiset(Sharing(Intervals(Inorder(t)), low, high))
  {
    hide Sharing, Shares, Overlap, Tied;
    if t.Branch? {
      var l, n, r := Inorder(t.left), t.node, Inorder(t.right);
      assert n in Inorder(t) && (forall m :: m in l || m in r ==> m in Inorder(t));
      HitsStored(t.left, low, high);
      HitsStored(t.right, low, high);
      SharingOne(n, low, high);
      HitsBranch(t, low, high);
      IntervalsJoin(l, [n]);
      IntervalsJoin(l + [n], r);
      SharingJoin(Intervals(l), [n.stored], low, high);
      SharingJoin(Intervals(l) + [n.stored], Intervals(r), low, high);
      IntervalsJoin(HitAt(n, low, high), Hits(t.left, low, high));
      IntervalsJoin(HitAt(n, low, high) + Hits(t.left, low, high), Hits(t.right, low, high));
    } else {
      SharingNone(low, high);
    }
  }

  lemma SharingNone(low: Time, high: Time)
    ensures Hits(Leaf, low, high) == [] && Inorder(Leaf) == [] && Intervals([]) == [] && Sharing([], low, high) == []
  {
  }

  lemma SearchStart(frames: seq<Frame>, t: Tree, low: Time, high: Time)
    requires |frames| >= 1
    ensures Searching(frames, [Leaf], t, [], t, low, high)
  {
  }

  lemma SearchEnd(frames: seq<Frame>, stacked: seq<Tree>, found: seq<Node>, whole: Tree, low: Time, high: Time)
    requires Searching(frames, stacked, Leaf, found, whole, low, high) && |stacked| == 1
    ensures found == Met(whole, low, high)
  {
  }

  /** The query's result against what it asks for. */
  lemma MetStored(t: Tree, low: Time, high: Time)
    requires MaxOk(t) && Sorted(Inorder(t)) && WellFormed(t) && Storing(Inorder(t)) && low <= high
    ensures multiset(Intervals(Met(t, low, high))) == multiset(Sharing(Intervals(Inorder(t)), low, high))
      <==> low > -MAX_TIME || NoneBeyondNil(t, high)
  {
    hide MaxOk, Sorted, Inorder, WellFormed, Storing, Met, Hits, Sharing, NoneBeyondNil;
    HitsStored(t, low, high);
    if low > -MAX_TIME {
      MeetsAll(t, low, high);
    } else {
      MeetsAllFromNil(t, high);
      var met, hits := Intervals(Met(t, low, high)), Intervals(Hits(t, low, high));
      assert |multiset(met)| == |met| && |multiset(hits)| == |hits|;
    }
  }

  lemma SearchFrames(frames: seq<Frame>, stacked: seq<Tree>, t: Tree, found: seq<Node>, whole: Tree, low: Time,
      high: Time)
    requires Searching(frames, stacked, t, found, whole, low, high)
    ensures 1 <= |stacked| <= |frames|
    ensures forall k :: 1 <= k < |stacked| ==>
      stacked[k].Branch? && frames[k].startNode == stacked[k].node && frames[k].parentIndex == k - 1
  {
  }

  /** Only the live part of the stack matters. */
  lemma SearchGrow(frames: seq<Frame>, frames': seq<Frame>, stacked: seq<Tree>, t: Tree, found: seq<Node>, whole: Tree,
                   low: Time, high: Time)
    requires Searching(frames, stacked, t, found, whole, low, high) && |frames| <= |frames'|
      && frames'[..|frames|] == frames
    ensures Searching(frames', stacked, t, found, whole, low, high)
  {
    hide Met, Pending, Below;
    assert forall k :: 0 <= k < |frames| ==> frames'[k] == frames[k];
    forall k | 1 <= k < |stacked| && Unflagged(frames', k, |stacked|)
      ensures Met(LeftOf(stacked[k]), low, high) == Met(t, low, high) + Pending(stacked, k, low, high)
    {
      assert Unflagged(frames, k, |stacked|);
    }
  }
}
