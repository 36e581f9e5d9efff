/** Routes to a target in a graph with link weights and node weights, and what least-cost labels are. */
module Routes {

  /** A distance or weight; `Inf` stands for the floating-point infinity. */
  datatype Dist = Fin(v: real) | Inf

  function Plus(a: Dist, b: Dist): Dist {
    if a.Inf? || b.Inf? then Inf else Fin(a.v + b.v)
  }

  predicate Less(a: Dist, b: Dist) {
    a.Fin? && (b.Inf? || a.v < b.v)
  }

  predicate AtMost(a: Dist, b: Dist) {
    !Less(b, a)
  }

  datatype Arc<N> = Arc(src: N, dest: N, weight: Dist, enabled: bool)

  /** What the searches read of a graph; a node that is not in `off` is enabled. */
  datatype Graph<N, L> = Graph(arcs: map<L, Arc<N>>, weight: map<N, Dist>, off: set<N>)

  /** The arcs join nodes of the graph. */
  ghost predicate Sound<N, L>(g: Graph<N, L>) {
    forall l :: l in g.arcs ==> g.arcs[l].src in g.weight && g.arcs[l].dest in g.weight
  }

  /** The link may be used in a route: it and the node it leaves are enabled. */
  ghost predicate Usable<N, L>(g: Graph<N, L>, older l: L) {
    l in g.arcs && g.arcs[l].enabled && g.arcs[l].src !in g.off
  }

  /** What taking link l costs: its weight, and the weight of the node it enters unless that is the target. */
  ghost function Cost<N, L>(g: Graph<N, L>, target: N, l: L): Dist
    requires Sound(g) && l in g.arcs
  {
    var dest := g.arcs[l].dest;
    if dest == target then g.arcs[l].weight else Plus(g.arcs[l].weight, g.weight[dest])
  }

  /** The usable links lead, one after the other, from v to the target. */
  ghost predicate Route<N, L>(g: Graph<N, L>, target: N, v: N, older links: seq<L>)
    requires Sound(g)
  {
    && (forall i :: 0 <= i < |links| ==> links[i] in g.arcs)
    && (if links == [] then v == target
        else Usable(g, links[0]) && g.arcs[links[0]].src == v && Route(g, target, g.arcs[links[0]].dest, links[1..]))
  }

  /** The sum of the link weights and of the weights of the nodes between. */
  ghost function Total<N, L>(g: Graph<N, L>, target: N, v: N, links: seq<L>): Dist
    requires Sound(g) && Route(g, target, v, links)
  {
    if links == [] then Fin(0.0)
    else Plus(Cost(g, target, links[0]), Total(g, target, g.arcs[links[0]].dest, links[1..]))
  }

  /** A route from n has a finite total. */
  ghost predicate Near<N, L>(g: Graph<N, L>, target: N, n: N)
    requires Sound(g)
  {
    exists links :: Route(g, target, n, links) && Total(g, target, n, links).Fin?
  }

  /** Among the nodes with a finite route, node weights are not negative, and usable links into them weigh more than
      0. */
  ghost predicate Priced<N, L>(g: Graph<N, L>, target: N)
    requires Sound(g)
  {
    && (forall n :: n in g.weight && Near(g, target, n) ==> AtMost(Fin(0.0), g.weight[n]))
    && (forall l :: Usable(g, l) && Near(g, target, g.arcs[l].dest) ==> Less(Fin(0.0), g.arcs[l].weight))
  }

  /** dist gives every node the least total of its routes; it is infinite when no route has a finite total. */
  ghost predicate Least<N, L>(g: Graph<N, L>, target: N, dist: map<N, Dist>)
    requires Sound(g)
  {
    && dist.Keys == g.weight.Keys
    && (forall v, links :: v in dist && Route(g, target, v, links) ==> AtMost(dist[v], Total(g, target, v, links)))
    && (forall v :: v in dist && dist[v].Fin? ==>
        exists links :: Route(g, target, v, links) && Total(g, target, v, links) == dist[v])
  }

  /** Least labels are unique. */
  lemma LeastUnique<N, L>(g: Graph<N, L>, target: N, d: map<N, Dist>, e: map<N, Dist>)
    requires Sound(g) && Least(g, target, d) && Least(g, target, e)
    ensures d == e
  {
    forall v | v in g.weight
      ensures d[v] == e[v]
    {
      if d[v].Fin? {
        var links :| Route(g, target, v, links) && Total(g, target, v, links) == d[v];
        assert AtMost(e[v], d[v]);
      }
      if e[v].Fin? {
        var links :| Route(g, target, v, links) && Total(g, target, v, links) == e[v];
        assert AtMost(d[v], e[v]);
      }
    }
  }

  /** A route, link by link: each leaves where the one before enters, the first leaves v, the last enters the target. */
  lemma {:induction false} RouteLinks<N, L>(g: Graph<N, L>, target: N, v: N, links: seq<L>)
    requires Sound(g)
    ensures Route(g, target, v, links) <==>
      && (forall i :: 0 <= i < |links| ==>
            links[i] in g.arcs && g.arcs[links[i]].enabled && g.arcs[links[i]].src !in g.off)
      && (forall i :: 0 < i < |links| ==> g.arcs[links[i]].src == g.arcs[links[i - 1]].dest)
      && (links == [] ==> v == target)
      && (links != [] ==> g.arcs[links[0]].src == v && g.arcs[links[|links| - 1]].dest == target)
  {
    if links != [] && links[0] in g.arcs {
      var rest := links[1..];
      RouteLinks(g, target, g.arcs[links[0]].dest, rest);
      assert forall i :: 0 < i < |links| ==> links[i] == rest[i - 1];
      assert forall i :: 0 <= i < |rest| ==> rest[i] == links[i + 1];
    }
  }

  /** Infinite as soon as one of the weights is. */
  ghost function Sum(ws: seq<Dist>): Dist {
    if ws == [] then Fin(0.0)
    else
      var rest := Sum(ws[1..]);
      if ws[0].Inf? || rest.Inf? then Inf else Fin(ws[0].v + rest.v)
  }

  ghost function LinkWeights<N, L>(g: Graph<N, L>, links: seq<L>): (ws: seq<Dist>)
    requires forall l :: l in links ==> l in g.arcs
    ensures |ws| == |links| && forall i :: 0 <= i < |ws| ==> ws[i] == g.arcs[links[i]].weight
  {
    seq(|links|, i requires 0 <= i < |links| => g.arcs[links[i]].weight)
  }

  /** The weights of the nodes that the links enter, but for the target. */
  ghost function NodeWeights<N, L>(g: Graph<N, L>, target: N, links: seq<L>): seq<Dist>
    requires Sound(g) && forall l :: l in links ==> l in g.arcs
  {
    if links == [] then []
    else
      assert links[0] in links && forall l :: l in links[1..] ==> l in links;
      var dest := g.arcs[links[0]].dest;
      (if dest == target then [] else [g.weight[dest]]) + NodeWeights(g, target, links[1..])
  }

  lemma SumNext(w: Dist, ws: seq<Dist>)
    ensures Sum([w] + ws) == Plus(w, Sum(ws))
  {
    assert ([w] + ws)[1..] == ws;
  }

  lemma PlusJoin(a: Dist, b: Dist, c: Dist)
    ensures Plus(Plus(a, b), c) == Plus(a, Plus(b, c)) && Plus(Fin(0.0), c) == c && Sum([]) == Fin(0.0)
  {
  }

  lemma {:induction false} SumJoin(a: seq<Dist>, b: seq<Dist>)
    ensures Sum(a + b) == Plus(Sum(a), Sum(b))
  {
    hide Sum, Plus;
    if a == [] {
      assert a + b == b;
      PlusJoin(Fin(0.0), Fin(0.0), Sum(b));
    } else {
      SumJoin(a[1..], b);
      SumNext(a[0], a[1..] + b);
      SumNext(a[0], a[1..]);
      assert a + b == [a[0]] + (a[1..] + b) && a == [a[0]] + a[1..];
      PlusJoin(a[0], Sum(a[1..]), Sum(b));
    }
  }

  /** A route's total is what its links weigh and what the nodes between weigh. */
  lemma {:induction false} TotalSums<N, L>(g: Graph<N, L>, target: N, v: N, links: seq<L>)
    requires Sound(g) && Route(g, target, v, links)
    ensures Total(g, target, v, links) == Sum(LinkWeights(g, links) + NodeWeights(g, target, links))
  {
    hide Sum;
    SumJoin(LinkWeights(g, links), NodeWeights(g, target, links));
    if links != [] {
      var l, rest := links[0], links[1..];
      var dest := g.arcs[l].dest;
      TotalSums(g, target, dest, rest);
      SumJoin(LinkWeights(g, rest), NodeWeights(g, target, rest));
      assert LinkWeights(g, links) == [g.arcs[l].weight] + LinkWeights(g, rest);
      SumNext(g.arcs[l].weight, LinkWeights(g, rest));
      if dest == target {
        assert NodeWeights(g, target, links) == NodeWeights(g, target, rest);
      } else {
        SumNext(g.weight[dest], NodeWeights(g, target, rest));
      }
    } else {
      PlusJoin(Fin(0.0), Fin(0.0), Fin(0.0));
      assert LinkWeights(g, links) + NodeWeights(g, target, links) == [];
    }
  }

  /** No link of the route has an infinite weight, and no node between. */
  ghost predicate Passable<N, L>(g: Graph<N, L>, target: N, links: seq<L>)
    requires Sound(g) && forall i :: 0 <= i < |links| ==> links[i] in g.arcs
  {
    forall i :: 0 <= i < |links| ==>
      g.arcs[links[i]].weight.Fin? && (g.arcs[links[i]].dest == target || g.weight[g.arcs[links[i]].dest].Fin?)
  }

  lemma {:induction false} TotalFinite<N, L>(g: Graph<N, L>, target: N, v: N, links: seq<L>)
    requires Sound(g) && Route(g, target, v, links)
    ensures Total(g, target, v, links).Fin? <==> Passable(g, target, links)
  {
    if links != [] {
      var rest := links[1..];
      TotalFinite(g, target, g.arcs[links[0]].dest, rest);
      assert forall i :: 0 < i < |links| ==> links[i] == rest[i - 1];
      assert forall i :: 0 <= i < |rest| ==> rest[i] == links[i + 1];
    }
  }

  /** Some route from v is passable. */
  ghost predicate Reaches<N, L>(g: Graph<N, L>, target: N, v: N)
    requires Sound(g)
  {
    exists links :: Route(g, target, v, links) && Passable(g, target, links)
  }

  /** The least distance is finite exactly if some route is passable: not if every route enters a node of infinite
      weight that is not the target. */
  lemma LeastFinite<N, L>(g: Graph<N, L>, target: N, dist: map<N, Dist>, v: N)
    requires Sound(g) && Least(g, target, dist) && v in dist
    ensures dist[v].Fin? <==> Reaches(g, target, v)
  {
    if dist[v].Fin? {
      var links :| Route(g, target, v, links) && Total(g, target, v, links) == dist[v];
      TotalFinite(g, target, v, links);
    }
    if links :| Route(g, target, v, links) && Passable(g, target, links) {
      TotalFinite(g, target, v, links);
      assert AtMost(dist[v], Total(g, target, v, links));
    }
  }

  /** In particular, where every route enters such a node. */
  lemma Blocked<N, L>(g: Graph<N, L>, target: N, dist: map<N, Dist>, v: N)
    requires Sound(g) && Least(g, target, dist) && v in dist
    requires forall links :: Route(g, target, v, links) ==>
      exists i :: 0 <= i < |links| && g.arcs[links[i]].dest != target && g.weight[g.arcs[links[i]].dest].Inf?
    ensures dist[v] == Inf
  {
    LeastFinite(g, target, dist, v);
  }

  /** The same graph with every link weighing 1 and every node 0. */
  ghost function Unit<N, L>(g: Graph<N, L>): (u: Graph<N, L>)
    ensures Sound(g) ==> Sound(u)
  {
    Graph(map l | l in g.arcs :: g.arcs[l].(weight := Fin(1.0)), map n | n in g.weight :: Fin(0.0), g.off)
  }

  lemma UnitUnit<N, L>(g: Graph<N, L>, target: N)
    requires Sound(g)
    ensures Sound(Unit(g)) && Priced(Unit(g), target) && Unit(Unit(g)) == Unit(g)
  {
  }

  /** The unit graph has the same routes, and a route's total there is its number of links. */
  lemma {:induction false} HopCount<N, L>(g: Graph<N, L>, target: N, v: N, links: seq<L>)
    requires Sound(g) && Sound(Unit(g))
    ensures Route(Unit(g), target, v, links) <==> Route(g, target, v, links)
    ensures Route(Unit(g), target, v, links) ==> Total(Unit(g), target, v, links) == Fin(|links| as real)
  {
    if links != [] && (forall i :: 0 <= i < |links| ==> links[i] in g.arcs) {
      HopCount(g, target, g.arcs[links[0]].dest, links[1..]);
    }
  }
}
