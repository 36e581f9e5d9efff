/** The search state that both shortest-path algorithms keep, and why it ends in least distances. */
module ShortestPaths {
  import opened Lists
  import opened Options
  import opened Routes

  /** `order` is the nodes taken from the queue so far; `out` is each node's next link. */
  datatype Search<N, L> = Search(order: seq<N>, queue: seq<N>, dist: map<N, Dist>, out: map<N, Option<L>>)

  ghost predicate Ascending<N>(s: seq<N>, dist: map<N, Dist>)
    requires forall n :: n in s ==> n in dist
  {
    forall i, j :: 0 <= i < j < |s| ==> AtMost(dist[s[i]], dist[s[j]])
  }

  lemma {:induction false} WithoutKeeps<N>(s: seq<N>, n: N, dist: map<N, Dist>)
    requires forall m :: m in s ==> m in dist
    requires Distinct(s) && Ascending(s, dist)
    ensures forall m :: m in Without(s, n) ==> m in s
    ensures Distinct(Without(s, n)) && Ascending(Without(s, n), dist)
  {
    forall m | m in Without(s, n)
      ensures m in s && m != n
    {
      WithoutMember(s, n, m);
    }
    if s != [] {
      WithoutKeeps(s[1..], n, dist);
      forall m | m in Without(s[1..], n)
        ensures m in s[1..]
      {
        WithoutMember(s[1..], n, m);
      }
      forall m | m in s[1..]
        ensures m != s[0] && AtMost(dist[s[0]], dist[m])
      {
      }
    }
  }

  /** The nodes taken and waiting are those with a finite distance, in ascending order of distance. */
  ghost predicate Listed<N, L>(g: Graph<N, L>, s: Search<N, L>) {
    && s.dist.Keys == g.weight.Keys && s.out.Keys == g.weight.Keys
    && (forall n :: n in s.order + s.queue ==> n in s.dist)
    && (forall n :: n in s.dist ==> (s.dist[n].Fin? <==> n in s.order + s.queue))
    && Distinct(s.order + s.queue)
    && Ascending(s.order + s.queue, s.dist)
  }

  /** Node n's next link leads to a node taken earlier, and its distance is what that link costs on top of that
      node's. */
  ghost predicate Linked<N, L>(g: Graph<N, L>, target: N, s: Search<N, L>, n: N, l: L)
    requires Sound(g) && s.dist.Keys == g.weight.Keys
  {
    && Usable(g, l) && g.arcs[l].src == n && g.arcs[l].dest in s.order
    && n in s.dist && s.dist[n] == Plus(s.dist[g.arcs[l].dest], Cost(g, target, l))
  }

  ghost predicate Pointed<N, L>(g: Graph<N, L>, target: N, s: Search<N, L>)
    requires Sound(g) && Listed(g, s)
  {
    && s.order + s.queue != [] && (s.order + s.queue)[0] == target && s.dist[target] == Fin(0.0)
        && s.out[target] == None
    && (forall n :: n in s.dist && s.dist[n].Inf? ==> s.out[n] == None)
    && (forall n :: n in s.dist && s.dist[n].Fin? && n != target ==>
        s.out[n].Some? && Linked(g, target, s, n, s.out[n].value))
    && (forall i :: 0 <= i < |s.order| && s.order[i] != target ==> g.arcs[s.out[s.order[i]].value].dest in s.order[..i])
  }

  /** Taking link l from its source would not be shorter. */
  ghost predicate Relaxed<N, L>(g: Graph<N, L>, target: N, s: Search<N, L>, l: L)
    requires Sound(g) && s.dist.Keys == g.weight.Keys && l in g.arcs
  {
    AtMost(s.dist[g.arcs[l].src], Plus(s.dist[g.arcs[l].dest], Cost(g, target, l)))
  }

  /** Every usable link into a taken node is relaxed, but perhaps the pending ones. */
  ghost predicate RelaxedBut<N, L>(g: Graph<N, L>, target: N, s: Search<N, L>, pending: seq<L>)
    requires Sound(g) && s.dist.Keys == g.weight.Keys
  {
    forall l :: Usable(g, l) && g.arcs[l].dest in s.order && l !in pending ==> Relaxed(g, target, s, l)
  }

  ghost predicate Searching<N, L>(g: Graph<N, L>, target: N, s: Search<N, L>, pending: seq<L>)
    requires Sound(g)
  {
    Listed(g, s) && Pointed(g, target, s) && RelaxedBut(g, target, s, pending)
  }

  /** Node v was taken last, and the pending links are the ones into it that are still to be looked at. */
  ghost predicate Scanning<N, L>(g: Graph<N, L>, target: N, s: Search<N, L>, v: N, pending: seq<L>)
    requires Sound(g)
  {
    Searching(g, target, s, pending) && s.order != [] && s.order[|s.order| - 1] == v
  }

  /** The state after the labels are cleared. */
  ghost function Cleared<N, L>(g: Graph<N, L>, target: N): (s: Search<N, L>)
    requires target in g.weight
  {
    Search([], [target], (map n | n in g.weight :: if n == target then Fin(0.0) else Inf),
      map n | n in g.weight :: None)
  }

  lemma Start<N, L>(g: Graph<N, L>, target: N)
    requires Sound(g) && target in g.weight
    ensures Searching(g, target, Cleared(g, target), []) && Spans(g, Cleared(g, target))
  {
    var s: Search<N, L> := Cleared(g, target);
    assert s.order + s.queue == [target];
  }

  /** The state after the first node of the queue is taken. */
  ghost function Taken<N, L>(s: Search<N, L>): Search<N, L>
    requires s.queue != []
  {
    s.(order := s.order + [s.queue[0]], queue := s.queue[1..])
  }

  lemma TakenSame<N, L>(g: Graph<N, L>, s: Search<N, L>)
    requires Listed(g, s) && s.queue != []
    ensures Taken(s).order + Taken(s).queue == s.order + s.queue && Listed(g, Taken(s))
    ensures s.queue[0] in s.dist && s.queue[0] !in s.order
  {
    var t := Taken(s);
    assert t.order + t.queue == s.order + s.queue;
    assert (s.order + s.queue)[|s.order|] == s.queue[0];
    assert forall i :: 0 <= i < |s.order| ==> (s.order + s.queue)[i] == s.order[i];
  }

  lemma TakenPointed<N, L>(g: Graph<N, L>, target: N, s: Search<N, L>)
    requires Sound(g) && Listed(g, s) && Pointed(g, target, s) && s.queue != []
    requires Listed(g, Taken(s)) && Taken(s).order + Taken(s).queue == s.order + s.queue
    ensures Pointed(g, target, Taken(s))
  {
    hide Distinct, Ascending, Cost, Plus, AtMost;
    var t := Taken(s);
    forall n | n in t.dist && t.dist[n].Fin? && n != target
      ensures Linked(g, target, t, n, t.out[n].value)
    {
      assert Linked(g, target, s, n, s.out[n].value);
    }
    forall i | 0 <= i < |t.order| && t.order[i] != target
      ensures g.arcs[t.out[t.order[i]].value].dest in t.order[..i]
    {
      assert t.order[i] in t.order + t.queue;
      assert t.order[..i] == s.order[..i];
      assert Linked(g, target, s, t.order[i], s.out[t.order[i]].value);
    }
  }

  /** Taking the first node of the queue leaves its incoming links pending. */
  lemma Take<N, L>(g: Graph<N, L>, target: N, s: Search<N, L>, incoming: seq<L>)
    requires Sound(g) && Searching(g, target, s, []) && s.queue != []
    requires forall l :: l in g.arcs && g.arcs[l].dest == s.queue[0] ==> l in incoming
    ensures Scanning(g, target, Taken(s), s.queue[0], incoming)
    ensures s.queue[0] in s.dist && s.queue[0] !in s.order
  {
    TakenSame(g, s);
    TakenPointed(g, target, s);
    forall l | Usable(g, l) && g.arcs[l].dest in Taken(s).order && l !in incoming
      ensures Relaxed(g, target, Taken(s), l)
    {
      assert Relaxed(g, target, s, l);
    }
  }

  /** Links that are passed over: not usable, or no shorter. */
  lemma Skip<N, L>(g: Graph<N, L>, target: N, s: Search<N, L>, v: N, pending: seq<L>)
    requires Sound(g) && pending != [] && Scanning(g, target, s, v, pending)
    requires Usable(g, pending[0]) ==> Relaxed(g, target, s, pending[0])
    ensures Scanning(g, target, s, v, pending[1..])
  {
  }

  /** A link from a node that was taken already cannot be shorter. */
  lemma Closed<N, L>(g: Graph<N, L>, target: N, s: Search<N, L>, l: L, cost: Dist, n: N)
    requires Sound(g) && Listed(g, s)
    requires s.order != [] && l in g.arcs && g.arcs[l].dest == s.order[|s.order| - 1]
    requires Less(Fin(0.0), cost) && n in s.order
    ensures Less(s.dist[n], Plus(s.dist[g.arcs[l].dest], cost))
  {
    var k :| 0 <= k < |s.order| && s.order[k] == n;
    var all := s.order + s.queue;
    assert all[k] == n && all[|s.order| - 1] == g.arcs[l].dest;
  }

  /** The queue after the source of an improving link was taken out of it, if it was in it. */
  ghost predicate Removed<N, L>(s: Search<N, L>, n: N, q: seq<N>)
    requires forall m :: m in q ==> m in s.dist
  {
    && n !in q && Distinct(q) && Ascending(q, s.dist)
    && (forall m :: m in s.queue && m != n ==> m in q)
    && (forall m :: m in q ==> m in s.queue)
  }

  /** Position k separates the nodes that are nearer than d, or as near, from those that are farther. */
  ghost predicate Fits<N>(q: seq<N>, dist: map<N, Dist>, k: nat, d: Dist)
    requires forall m :: m in q ==> m in dist
  {
    k <= |q| && (forall i :: 0 <= i < k ==> AtMost(dist[q[i]], d)) && (k < |q| ==> Less(d, dist[q[k]]))
  }

  /** Node n gets distance d over link l. */
  ghost function Improved<N, L>(s: Search<N, L>, n: N, d: Dist, l: L, q: seq<N>, k: nat): Search<N, L>
    requires k <= |q|
  {
    s.(queue := Inserted(q, k, n), dist := s.dist[n := d], out := s.out[n := Some(l)])
  }

  lemma ImprovedListed<N, L>(g: Graph<N, L>, s: Search<N, L>, n: N, d: Dist, l: L, q: seq<N>, k: nat)
    requires Listed(g, s) && n in s.dist && d.Fin?
    requires forall m :: m in q ==> m in s.dist
    requires Removed(s, n, q) && Fits(q, s.dist, k, d)
    requires n !in s.order && forall m :: m in s.order ==> AtMost(s.dist[m], d)
    ensures Listed(g, Improved(s, n, d, l, q, k))
  {
    var t := Improved(s, n, d, l, q, k);
    var all := s.order + s.queue;
    InsertedMember(q, k, n);
    assert forall m :: m in t.order + t.queue <==> m in s.order || m in t.queue;
    assert forall m :: m in all <==> m in s.order || m in s.queue;
    assert Distinct(s.order) && Ascending(s.order, t.dist) by {
      assert forall i :: 0 <= i < |s.order| ==> s.order[i] == all[i] && s.order[i] in s.order;
    }
    InsertedAscends(q, s.dist, k, n, d);
    forall a, b | a in s.order && b in t.queue
      ensures a != b && AtMost(t.dist[a], t.dist[b])
    {
      if b != n {
        Apart(s.order, s.queue, s.dist, a, b);
      }
    }
    Joined(s.order, t.queue, t.dist);
  }

  lemma InsertedAscends<N>(q: seq<N>, dist: map<N, Dist>, k: nat, n: N, d: Dist)
    requires forall m :: m in q ==> m in dist
    requires n !in q && Distinct(q) && Ascending(q, dist) && Fits(q, dist, k, d)
    ensures forall m :: m in Inserted(q, k, n) ==> m in dist[n := d]
    ensures Distinct(Inserted(q, k, n)) && Ascending(Inserted(q, k, n), dist[n := d])
  {
    var r := Inserted(q, k, n);
    InsertedMember(q, k, n);
    assert forall i :: 0 <= i < k ==> r[i] == q[i];
    assert r[k] == n;
    assert forall i :: k < i < |r| ==> r[i] == q[i - 1];
  }

  /** A node in front of the queue is another than a node in the queue, and no farther. */
  lemma Apart<N>(p: seq<N>, q: seq<N>, dist: map<N, Dist>, a: N, b: N)
    requires forall n :: n in p + q ==> n in dist
    requires Distinct(p + q) && Ascending(p + q, dist) && a in p && b in q
    ensures a in dist && b in dist && a != b && AtMost(dist[a], dist[b])
  {
    var i :| 0 <= i < |p| && p[i] == a;
    var j :| 0 <= j < |q| && q[j] == b;
    assert (p + q)[i] == a && (p + q)[|p| + j] == b;
  }

  lemma Joined<N>(p: seq<N>, q: seq<N>, dist: map<N, Dist>)
    requires forall n :: n in p || n in q ==> n in dist
    requires Distinct(p) && Ascending(p, dist) && Distinct(q) && Ascending(q, dist)
    requires forall a, b :: a in p && b in q ==> a != b && AtMost(dist[a], dist[b])
    ensures forall n :: n in p + q ==> n in dist
    ensures Distinct(p + q) && Ascending(p + q, dist)
  {
    forall i, j | 0 <= i < j < |p + q|
      ensures (p + q)[i] != (p + q)[j] && AtMost(dist[(p + q)[i]], dist[(p + q)[j]])
    {
      if i < |p| <= j {
        assert (p + q)[i] in p && (p + q)[j] in q;
      }
    }
  }

  lemma ImprovedPointed<N, L>(g: Graph<N, L>, target: N, s: Search<N, L>, l: L, q: seq<N>, k: nat)
    requires Sound(g) && Listed(g, s) && Pointed(g, target, s) && Usable(g, l) && g.arcs[l].dest in s.order && k <= |q|
    requires g.arcs[l].src !in s.order && g.arcs[l].src != target
    requires var n := g.arcs[l].src; forall m :: m in s.queue && m != n ==> m in q
    requires var d := Plus(s.dist[g.arcs[l].dest], Cost(g, target, l));
      d.Fin? && Listed(g, Improved(s, g.arcs[l].src, d, l, q, k))
    ensures var d := Plus(s.dist[g.arcs[l].dest], Cost(g, target, l));
      Pointed(g, target, Improved(s, g.arcs[l].src, d, l, q, k))
  {
    var d := Plus(s.dist[g.arcs[l].dest], Cost(g, target, l));
    var n := g.arcs[l].src;
    var t := Improved(s, n, d, l, q, k);
    InsertedMember(q, k, n);
    forall m | m in t.dist && t.dist[m].Fin? && m != target
      ensures t.out[m].Some? && Linked(g, target, t, m, t.out[m].value)
    {
      if m != n {
        assert Linked(g, target, s, m, s.out[m].value);
      }
    }
    forall i | 0 <= i < |t.order| && t.order[i] != target
      ensures g.arcs[t.out[t.order[i]].value].dest in t.order[..i]
    {
      assert t.order[i] in s.order && t.order[i] != n;
      assert t.order[i] in s.order + s.queue;
      assert Linked(g, target, s, t.order[i], s.out[t.order[i]].value);
    }
  }

  lemma ImprovedRelaxed<N, L>(g: Graph<N, L>, target: N, s: Search<N, L>, pending: seq<L>, d: Dist, q: seq<N>, k: nat)
    requires Sound(g) && pending != [] && Listed(g, s) && RelaxedBut(g, target, s, pending) && Usable(g, pending[0])
    requires k <= |q| && g.arcs[pending[0]].src !in s.order
    requires d == Plus(s.dist[g.arcs[pending[0]].dest], Cost(g, target, pending[0]))
      && Less(d, s.dist[g.arcs[pending[0]].src])
    ensures RelaxedBut(g, target, Improved(s, g.arcs[pending[0]].src, d, pending[0], q, k), pending[1..])
  {
    var t := Improved(s, g.arcs[pending[0]].src, d, pending[0], q, k);
    forall l | Usable(g, l) && g.arcs[l].dest in t.order && l !in pending[1..]
      ensures Relaxed(g, target, t, l)
    {
      if l != pending[0] {
        assert Relaxed(g, target, s, l);
      }
    }
  }

  /** A usable pending link that is shorter: its source is labelled anew and put into the queue where it fits. */
  lemma Improve<N, L>(g: Graph<N, L>, target: N, s: Search<N, L>, v: N, pending: seq<L>, q: seq<N>, k: nat)
    requires Sound(g) && pending != [] && Scanning(g, target, s, v, pending)
    requires Usable(g, pending[0]) && g.arcs[pending[0]].dest == v
    requires Less(Fin(0.0), Cost(g, target, pending[0])) && !Relaxed(g, target, s, pending[0])
    requires (forall m :: m in q ==> m in s.dist) && Removed(s, g.arcs[pending[0]].src, q)
    requires Fits(q, s.dist, k, Plus(s.dist[v], Cost(g, target, pending[0])))
    ensures var d := Plus(s.dist[v], Cost(g, target, pending[0]));
      Scanning(g, target, Improved(s, g.arcs[pending[0]].src, d, pending[0], q, k), v, pending[1..])
  {
    var l := pending[0];
    var n := g.arcs[l].src;
    var d := Plus(s.dist[v], Cost(g, target, l));
    forall m | m in s.order
      ensures Less(s.dist[m], d)
    {
      Closed(g, target, s, l, Cost(g, target, l), m);
    }
    assert n !in s.order;
    assert (s.order + s.queue)[0] == s.order[0];
    ImprovedListed(g, s, n, d, l, q, k);
    ImprovedPointed(g, target, s, l, q, k);
    ImprovedRelaxed(g, target, s, pending, d, q, k);
  }

  lemma UsableCost<N, L>(g: Graph<N, L>, target: N, l: L)
    requires Sound(g) && Priced(g, target) && Usable(g, l) && Near(g, target, g.arcs[l].dest)
    ensures Less(Fin(0.0), Cost(g, target, l))
  {
  }

  /** How a node leaves the queue: it is removed, or has no distance and is not there. */
  lemma Remove<N, L>(g: Graph<N, L>, s: Search<N, L>, n: N)
    requires Listed(g, s) && n in s.dist
    ensures (forall m :: m in Without(s.queue, n) ==> m in s.dist && m != n) && Removed(s, n, Without(s.queue, n))
    ensures s.dist[n].Inf? ==> Without(s.queue, n) == s.queue
  {
    SuffixAscends(s.order, s.queue, s.dist);
    WithoutKeeps(s.queue, n, s.dist);
    forall m
      ensures m in Without(s.queue, n) <==> m in s.queue && m != n
    {
      WithoutMember(s.queue, n, m);
    }
    if s.dist[n].Inf? {
      WithoutAbsent(s.queue, n);
    }
  }

  /** When the queue is empty, no route from v is shorter than v's distance. */
  lemma {:induction false} NoShorter<N, L>(g: Graph<N, L>, target: N, s: Search<N, L>, v: N, links: seq<L>)
    requires Sound(g) && Searching(g, target, s, []) && s.queue == []
    requires v in s.dist && Route(g, target, v, links)
    ensures AtMost(s.dist[v], Total(g, target, v, links))
  {
    if links != [] {
      var l := links[0];
      NoShorter(g, target, s, g.arcs[l].dest, links[1..]);
      if s.dist[g.arcs[l].dest].Fin? {
        assert s.order + s.queue == s.order;
        assert Relaxed(g, target, s, l);
      }
    }
  }

  /** Every link of the route is its source's outPath, and takes the distance down. */
  ghost predicate Descends<N, L>(g: Graph<N, L>, dist: map<N, Dist>, out: map<N, Option<L>>, links: seq<L>)
    requires Sound(g) && dist.Keys == g.weight.Keys && out.Keys == g.weight.Keys
    requires forall i :: 0 <= i < |links| ==> links[i] in g.arcs
  {
    forall i :: 0 <= i < |links| ==>
      var arc := g.arcs[links[i]];
      out[arc.src] == Some(links[i]) && Less(dist[arc.dest], dist[arc.src])
  }

  /** The link of a node that was taken leads to a node taken before it. */
  lemma Earlier<N, L>(g: Graph<N, L>, target: N, s: Search<N, L>, i: nat) returns (j: nat)
    requires Sound(g) && Listed(g, s) && Pointed(g, target, s) && i < |s.order| && s.order[i] != target
    ensures s.order[i] in s.out && s.out[s.order[i]].Some? && Linked(g, target, s, s.order[i], s.out[s.order[i]].value)
    ensures j < i && s.order[j] == g.arcs[s.out[s.order[i]].value].dest
    ensures s.dist[s.order[j]].Fin?
  {
    assert s.order[i] in s.order + s.queue;
    var d := g.arcs[s.out[s.order[i]].value].dest;
    j :| 0 <= j < i && s.order[j] == d;
    assert d in s.order + s.queue;
  }

  lemma NearTarget<N, L>(g: Graph<N, L>, target: N)
    requires Sound(g)
    ensures Near(g, target, target)
  {
    assert Route(g, target, target, []) && Total(g, target, target, []).Fin?;
  }

  /** A usable link of finite cost into a node with a finite route. */
  lemma NearMore<N, L>(g: Graph<N, L>, target: N, l: L)
    requires Sound(g) && Usable(g, l) && Cost(g, target, l).Fin? && Near(g, target, g.arcs[l].dest)
    ensures Near(g, target, g.arcs[l].src)
  {
    var rest :| Route(g, target, g.arcs[l].dest, rest) && Total(g, target, g.arcs[l].dest, rest).Fin?;
    var links := [l] + rest;
    assert links[1..] == rest;
    assert Route(g, target, g.arcs[l].src, links) && Total(g, target, g.arcs[l].src, links).Fin?;
  }

  /** Every node that was taken has a finite route. */
  lemma {:induction false} TakenNear<N, L>(g: Graph<N, L>, target: N, s: Search<N, L>, i: nat)
    requires Sound(g) && Listed(g, s) && Pointed(g, target, s) && i < |s.order|
    ensures Near(g, target, s.order[i])
    decreases i
  {
    hide Near, Pointed, Ascending, Distinct;
    if s.order[i] == target {
      NearTarget(g, target);
    } else {
      var j := Earlier(g, target, s, i);
      TakenNear(g, target, s, j);
      assert s.order[i] in s.order + s.queue;
      NearMore(g, target, s.out[s.order[i]].value);
    }
  }

  lemma LastTaken<N, L>(g: Graph<N, L>, target: N, s: Search<N, L>, v: N, pending: seq<L>)
    requires Sound(g) && Scanning(g, target, s, v, pending)
    ensures Near(g, target, v)
  {
    hide Near, Listed, Pointed, RelaxedBut;
    TakenNear(g, target, s, |s.order| - 1);
  }

  /** A link into the node taken last costs something. */
  lemma ScannedCost<N, L>(g: Graph<N, L>, target: N, s: Search<N, L>, v: N, pending: seq<L>, l: L)
    requires Sound(g) && Priced(g, target) && Scanning(g, target, s, v, pending) && Usable(g, l) && g.arcs[l].dest == v
    ensures Less(Fin(0.0), Cost(g, target, l))
  {
    hide Near, Listed, Pointed, RelaxedBut, Priced, Searching;
    LastTaken(g, target, s, v, pending);
    UsableCost(g, target, l);
  }

  /** A link in front of a descending route, when it is its source's outPath and adds its cost to the distance. */
  lemma Extended<N, L>(g: Graph<N, L>, target: N, dist: map<N, Dist>, out: map<N, Option<L>>, l: L, rest: seq<L>)
    requires Sound(g) && Priced(g, target) && dist.Keys == g.weight.Keys && out.Keys == g.weight.Keys
    requires Usable(g, l) && Route(g, target, g.arcs[l].dest, rest) && Descends(g, dist, out, rest)
    requires dist[g.arcs[l].dest].Fin? && Total(g, target, g.arcs[l].dest, rest) == dist[g.arcs[l].dest]
    requires out[g.arcs[l].src] == Some(l) && dist[g.arcs[l].src] == Plus(dist[g.arcs[l].dest], Cost(g, target, l))
    ensures Route(g, target, g.arcs[l].src, [l] + rest)
    ensures Total(g, target, g.arcs[l].src, [l] + rest) == dist[g.arcs[l].src]
    ensures Descends(g, dist, out, [l] + rest)
  {
    var links := [l] + rest;
    assert links[1..] == rest;
    UsableCost(g, target, l);
    assert forall i :: 1 <= i < |links| ==> links[i] == rest[i - 1];
  }

  /** Following outPath from the i-th node taken leads to the target, over a route that costs its distance. */
  lemma {:induction false} Followed<N, L>(g: Graph<N, L>, target: N, s: Search<N, L>, i: nat) returns (links: seq<L>)
    requires Sound(g) && Priced(g, target) && Searching(g, target, s, []) && i < |s.order|
    ensures Route(g, target, s.order[i], links) && Total(g, target, s.order[i], links) == s.dist[s.order[i]]
    ensures Descends(g, s.dist, s.out, links)
    decreases i
  {
    var n := s.order[i];
    if n == target {
      links := [];
    } else {
      var j := Earlier(g, target, s, i);
      links := Followed(g, target, s, j);
      Extended(g, target, s.dist, s.out, s.out[n].value, links);
      links := [s.out[n].value] + links;
    }
  }

  /** The labels a finished search leaves. */
  ghost predicate Labelled<N, L>(g: Graph<N, L>, target: N, dist: map<N, Dist>, out: map<N, Option<L>>)
    requires Sound(g)
  {
    && Least(g, target, dist) && out.Keys == dist.Keys
    && (forall v :: v in dist && dist[v].Inf? ==> out[v] == None)
    && (forall v :: v in dist && dist[v].Fin? ==>
          exists links :: Route(g, target, v, links) && Total(g, target, v, links) == dist[v]
            && Descends(g, dist, out, links))
  }

  /** The nodes in the order in which a search takes them from the queue: just those with a route, each once, the target
      first and the others by distance, each after the node that its next link leads to. */
  ghost predicate Dequeued<N, L>(g: Graph<N, L>, target: N, order: seq<N>, dist: map<N, Dist>, out: map<N, Option<L>>) {
    && Distinct(order) && (forall n :: n in order ==> n in dist)
        && (forall n :: n in dist ==> (dist[n].Fin? <==> n in order))
    && Ascending(order, dist) && order != [] && order[0] == target && out.Keys == dist.Keys
    && (forall i :: 0 < i < |order| ==>
          var link := out[order[i]];
          link.Some? && link.value in g.arcs && g.arcs[link.value].src == order[i]
            && g.arcs[link.value].dest in order[..i])
  }

  lemma DequeuedAll<N, L>(g: Graph<N, L>, target: N, s: Search<N, L>)
    requires Sound(g) && Searching(g, target, s, []) && s.queue == []
    ensures Dequeued(g, target, s.order, s.dist, s.out)
  {
    assert s.order + s.queue == s.order;
    forall i | 0 < i < |s.order|
      ensures s.order[i] in s.order && s.order[i] != target
    {
    }
  }

  /** A search with an empty queue has labelled every node with its least distance. */
  lemma Finish<N, L>(g: Graph<N, L>, target: N, s: Search<N, L>)
    requires Sound(g) && Priced(g, target) && Searching(g, target, s, []) && s.queue == []
    ensures Labelled(g, target, s.dist, s.out)
    ensures Dequeued(g, target, s.order, s.dist, s.out)
  {
    hide Dequeued;
    DequeuedAll(g, target, s);
    assert s.order + s.queue == s.order;
    forall v, links | v in s.dist && Route(g, target, v, links)
      ensures AtMost(s.dist[v], Total(g, target, v, links))
    {
      NoShorter(g, target, s, v, links);
    }
    forall v | v in s.dist && s.dist[v].Fin?
      ensures exists links ::
        Route(g, target, v, links) && Total(g, target, v, links) == s.dist[v] && Descends(g, s.dist, s.out, links)
    {
      assert v in s.order;
      var i :| 0 <= i < |s.order| && s.order[i] == v;
      var links := Followed(g, target, s, i);
    }
  }

  /** The queue spans at most one unit of distance. */
  ghost predicate Spans<N, L>(g: Graph<N, L>, s: Search<N, L>)
    requires Listed(g, s)
  {
    forall a, b :: a in s.queue && b in s.queue ==> AtMost(s.dist[b], Plus(s.dist[a], Fin(1.0)))
  }

  /** No node in the queue is more than one unit farther than the node taken last, and none is nearer. */
  ghost predicate Ahead<N, L>(g: Graph<N, L>, s: Search<N, L>)
    requires Listed(g, s) && s.order != []
  {
    var d := s.dist[s.order[|s.order| - 1]];
    forall n :: n in s.queue ==> AtMost(d, s.dist[n]) && AtMost(s.dist[n], Plus(d, Fin(1.0)))
  }

  lemma TakenAhead<N, L>(g: Graph<N, L>, s: Search<N, L>)
    requires Listed(g, s) && s.queue != [] && Spans(g, s)
    ensures Listed(g, Taken(s)) && Ahead(g, Taken(s))
  {
    TakenSame(g, s);
    var t := Taken(s);
    forall n | n in t.queue
      ensures AtMost(t.dist[s.queue[0]], t.dist[n]) && n in s.queue
    {
      Apart(t.order, t.queue, t.dist, s.queue[0], n);
    }
  }

  /** A breadth-first search that looks at the links into v. */
  ghost predicate UnitScanning<N, L>(g: Graph<N, L>, target: N, s: Search<N, L>, v: N, pending: seq<L>)
    requires Sound(g)
  {
    Scanning(g, target, s, v, pending) && Ahead(g, s)
  }

  /** A breadth-first search passes over links that are not usable, and links from nodes that have a distance. */
  lemma UnitSkip<N, L>(g: Graph<N, L>, target: N, s: Search<N, L>, v: N, pending: seq<L>)
    requires Sound(g) && g == Unit(g) && pending != [] && UnitScanning(g, target, s, v, pending)
    requires pending[0] in g.arcs && g.arcs[pending[0]].dest == v
    requires Usable(g, pending[0]) ==> s.dist[g.arcs[pending[0]].src].Fin?
    ensures UnitScanning(g, target, s, v, pending[1..])
  {
    var l := pending[0];
    UnitCost(g, target, l);
    if Usable(g, l) && g.arcs[l].src in s.order {
      Closed(g, target, s, l, Fin(1.0), g.arcs[l].src);
    }
    Skip(g, target, s, v, pending);
  }

  lemma UnitCost<N, L>(g: Graph<N, L>, target: N, l: L)
    requires Sound(g) && g == Unit(g) && l in g.arcs
    ensures Cost(g, target, l) == Fin(1.0)
  {
    assert Unit(g).arcs[l].weight == Fin(1.0) && Unit(g).weight[g.arcs[l].dest] == Fin(0.0);
  }

  /** In the unit graph the source of a usable link that has no distance yet goes to the end of the queue. */
  lemma Discover<N, L>(g: Graph<N, L>, target: N, s: Search<N, L>, v: N, pending: seq<L>)
    requires Sound(g) && g == Unit(g) && pending != [] && UnitScanning(g, target, s, v, pending)
    requires Usable(g, pending[0]) && g.arcs[pending[0]].dest == v && s.dist[g.arcs[pending[0]].src].Inf?
    ensures var t := Improved(s, g.arcs[pending[0]].src, Plus(s.dist[v], Fin(1.0)), pending[0], s.queue, |s.queue|);
      UnitScanning(g, target, t, v, pending[1..]) && t.queue == s.queue + [g.arcs[pending[0]].src]
  {
    var l := pending[0];
    UnitCost(g, target, l);
    assert v in s.order + s.queue;
    SuffixAscends(s.order, s.queue, s.dist);
    Improve(g, target, s, v, pending, s.queue, |s.queue|);
    DiscoveredAhead(g, s, g.arcs[l].src, l);
  }

  lemma DiscoveredAhead<N, L>(g: Graph<N, L>, s: Search<N, L>, n: N, l: L)
    requires Listed(g, s) && s.order != [] && n in s.dist && s.dist[n].Inf? && Ahead(g, s)
    requires Listed(g, Improved(s, n, Plus(s.dist[s.order[|s.order| - 1]], Fin(1.0)), l, s.queue, |s.queue|))
    ensures var t := Improved(s, n, Plus(s.dist[s.order[|s.order| - 1]], Fin(1.0)), l, s.queue, |s.queue|);
      t.queue == s.queue + [n] && Ahead(g, t)
  {
    assert s.order[|s.order| - 1] in s.order + s.queue;
    assert forall m :: m in s.queue ==> m in s.order + s.queue;
  }

  lemma SuffixAscends<N>(p: seq<N>, q: seq<N>, dist: map<N, Dist>)
    requires forall n :: n in p + q ==> n in dist
    requires Distinct(p + q) && Ascending(p + q, dist)
    ensures forall n :: n in q ==> n in p + q
    ensures Distinct(q) && Ascending(q, dist)
  {
    assert forall i :: 0 <= i < |q| ==> q[i] == (p + q)[|p| + i];
  }

  lemma AheadSpans<N, L>(g: Graph<N, L>, s: Search<N, L>)
    requires Listed(g, s) && s.order != [] && Ahead(g, s)
    ensures Spans(g, s)
  {
    forall a, b | a in s.queue && b in s.queue
      ensures AtMost(s.dist[b], Plus(s.dist[a], Fin(1.0)))
    {
      assert s.order[|s.order| - 1] in s.order + s.queue;
    }
  }

  /** Least distances of the unit graph are at most the number of links of any route. */
  lemma Hops<N, L>(g: Graph<N, L>, target: N, dist: map<N, Dist>, v: N, links: seq<L>)
    requires Sound(g) && Least(Unit(g), target, dist) && v in dist && Route(g, target, v, links)
    ensures dist[v].Fin? && dist[v].v <= |links| as real
  {
    hide Route, Total;
    HopCount(g, target, v, links);
    assert AtMost(dist[v], Total(Unit(g), target, v, links));
  }

  /** Least distances of the unit graph are the fewest links a route of the graph itself can have. */
  lemma FewestHops<N, L>(g: Graph<N, L>, target: N, dist: map<N, Dist>, v: N)
    requires Sound(g) && Least(Unit(g), target, dist) && v in dist
    ensures dist[v].Fin? <==> exists links :: Route(g, target, v, links)
    ensures dist[v].Fin? ==> exists links :: Route(g, target, v, links) && dist[v].v == |links| as real
    ensures forall links :: Route(g, target, v, links) ==> dist[v].Fin? && dist[v].v <= |links| as real
  {
    hide Route, Total;
    forall links | Route(g, target, v, links)
      ensures dist[v].Fin? && dist[v].v <= |links| as real
    {
      Hops(g, target, dist, v, links);
    }
    if dist[v].Fin? {
      var links :| Route(Unit(g), target, v, links) && Total(Unit(g), target, v, links) == dist[v];
      HopCount(g, target, v, links);
    }
  }

  /** With every link weighing 1 and every node 0, both searches find the same distances. */
  lemma SearchesAgree<N, L>(g: Graph<N, L>, target: N, bfs: map<N, Dist>, weighted: map<N, Dist>)
    requires Sound(g) && Least(Unit(g), target, bfs) && Least(g, target, weighted)
    requires forall l :: l in g.arcs ==> g.arcs[l].weight == Fin(1.0)
    requires forall n :: n in g.weight ==> g.weight[n] == Fin(0.0)
    ensures bfs == weighted
  {
    assert Unit(g).arcs == g.arcs && Unit(g).weight == g.weight;
    LeastUnique(g, target, bfs, weighted);
  }

  /** The search state with node u moved to the front of the queue. */
  ghost function Fronted<N, L>(s: Search<N, L>, u: N): Search<N, L> {
    s.(queue := [u] + Without(s.queue, u))
  }

  lemma FrontedListed<N, L>(g: Graph<N, L>, s: Search<N, L>, u: N)
    requires Listed(g, s) && u in s.queue && forall m :: m in s.queue ==> AtMost(s.dist[u], s.dist[m])
    ensures Listed(g, Fronted(s, u)) && forall m :: m in Fronted(s, u).queue <==> m in s.queue
  {
    var q := Fronted(s, u).queue;
    Remove(g, s, u);
    forall m
      ensures m in Without(s.queue, u) <==> m in s.queue && m != u
    {
      WithoutMember(s.queue, u, m);
    }
    assert forall m :: m in q <==> m in s.queue;
    SuffixAscends(s.order, s.queue, s.dist);
    assert Distinct(q) && Ascending(q, s.dist);
    assert Distinct(s.order) && Ascending(s.order, s.dist) by {
      assert forall i :: 0 <= i < |s.order| ==> s.order[i] == (s.order + s.queue)[i] && s.order[i] in s.order;
    }
    forall a, b | a in s.order && b in q
      ensures a != b && AtMost(s.dist[a], s.dist[b])
    {
      Apart(s.order, s.queue, s.dist, a, b);
    }
    Joined(s.order, q, s.dist);
    assert forall m :: m in s.order + q <==> m in s.order || m in q;
    assert forall m :: m in s.order + s.queue <==> m in s.order || m in s.queue;
  }

  /** Any nearest node of the queue may be taken next. */
  lemma Front<N, L>(g: Graph<N, L>, target: N, s: Search<N, L>, u: N)
    requires Sound(g) && Searching(g, target, s, [])
    requires u in s.queue && forall m :: m in s.queue ==> AtMost(s.dist[u], s.dist[m])
    ensures Searching(g, target, Fronted(s, u), []) && Fronted(s, u).queue[0] == u
  {
    var t := Fronted(s, u);
    FrontedListed(g, s, u);
    if s.order == [] {
      assert u in s.order + s.queue;
      assert u != target ==> Linked(g, target, s, u, s.out[u].value);
      assert u == target;
      assert (t.order + t.queue)[0] == u;
    } else {
      assert (s.order + s.queue)[0] == s.order[0] == (t.order + t.queue)[0];
    }
    forall n | n in t.dist && t.dist[n].Fin? && n != target
      ensures t.out[n].Some? && Linked(g, target, t, n, t.out[n].value)
    {
      assert Linked(g, target, s, n, s.out[n].value);
    }
    forall l | Usable(g, l) && g.arcs[l].dest in t.order
      ensures Relaxed(g, target, t, l)
    {
      assert Relaxed(g, target, s, l);
    }
  }

  /** No route from n is shorter than both n's distance and that of v, which was taken last. */
  lemma {:induction false} NoShorterYet<N, L>(g: Graph<N, L>, target: N, s: Search<N, L>, v: N, pending: seq<L>, n: N,
      links: seq<L>)
    requires Sound(g) && Priced(g, target) && Scanning(g, target, s, v, pending) && v in s.dist
    requires forall l :: l in pending ==> l in g.arcs && g.arcs[l].dest == v
    requires n in s.dist && Route(g, target, n, links)
    ensures AtMost(s.dist[n], Total(g, target, n, links)) || AtMost(s.dist[v], Total(g, target, n, links))
  {
    if links != [] {
      var l := links[0];
      var m := g.arcs[l].dest;
      NoShorterYet(g, target, s, v, pending, m, links[1..]);
      if Total(g, target, m, links[1..]).Fin? {
        UsableCost(g, target, l);
      }
      if !AtMost(s.dist[v], Total(g, target, m, links[1..])) {
        assert Less(s.dist[m], s.dist[v]);
        Settled(g, s, v, m);
        assert Relaxed(g, target, s, l);
      }
    }
  }

  /** A node nearer than one that was taken was taken itself. */
  lemma Settled<N, L>(g: Graph<N, L>, s: Search<N, L>, v: N, m: N)
    requires Listed(g, s) && v in s.order && m in s.dist && Less(s.dist[m], s.dist[v])
    ensures m in s.order
  {
    if m in s.queue {
      Apart(s.order, s.queue, s.dist, v, m);
    }
  }
}
