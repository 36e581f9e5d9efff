/** The server's search keeps outdated entries in its priority queue; here is why that finds the same routes as
    ShortestPaths. */
module LazyQueue {
  import opened Lists
  import opened Options
  import opened RoadRoutes
  import opened Routes
  import opened ShortestPaths

  datatype Entry = Entry(d: real, v: nat)

  /** Entries are ordered by distance, then by edge. */
  predicate Before(a: Entry, b: Entry) {
    a.d < b.d || (a.d == b.d && a.v < b.v)
  }

  /** Takes the least entry out of the queue. */
  method PopLeast(pq: seq<Entry>) returns (top: Entry, rest: seq<Entry>)
    requires pq != []
    ensures top in pq && forall e :: e in pq ==> !Before(e, top)
    ensures multiset(pq) == multiset(rest) + multiset{top}
  {
    var k := 0;
    for i := 1 to |pq|
      invariant k < |pq| && forall j :: 0 <= j < i ==> !Before(pq[j], pq[k])
    {
      if Before(pq[i], pq[k]) {
        k := i;
      }
    }
    top, rest := pq[k], pq[..k] + pq[k + 1..];
    assert pq == pq[..k] + [pq[k]] + pq[k + 1..];
  }

  /** What the arrays and the queue of the search have to do with the search state. */
  ghost predicate Tracks(n: nat, dist: seq<Dist>, prev: seq<int>, visited: seq<bool>, pq: seq<Entry>,
      s: Search<nat, (nat, nat)>) {
    && |dist| == |prev| == |visited| == n && s.dist.Keys == Below(n) && s.out.Keys == Below(n)
    && (forall v: nat :: v < n ==> s.dist[v] == dist[v])
    && (forall v: nat :: v < n ==> (visited[v] <==> v in s.order))
    && (forall v: nat :: v < n ==>
        -1 <= prev[v] < n && s.out[v] == if prev[v] == -1 then None else Some((prev[v] as nat, v)))
    && (forall v :: v in s.queue ==> v < n && dist[v].Fin? && Entry(dist[v].v, v) in pq)
    && (forall e :: e in pq ==> e.v < n && (e.v in s.order || (e.v in s.queue && dist[e.v].Fin? && dist[e.v].v <= e.d)))
  }

  /** The links back to edge u from the edges vs. */
  ghost function Back(u: nat, vs: seq<nat>): (s: seq<(nat, nat)>)
    ensures |s| == |vs| && forall i :: 0 <= i < |s| ==> s[i] == (u, vs[i])
  {
    seq(|vs|, i requires 0 <= i < |vs| => (u, vs[i]))
  }

  lemma TracksStart(adjacency: seq<seq<nat>>, weights: seq<real>, src: nat)
    requires |weights| == |adjacency| && InRange(adjacency) && src < |adjacency|
    ensures var g := Backward(adjacency, weights);
      var n := |adjacency|;
      Tracks(n, seq(n, i => Inf)[src := Fin(0.0)], seq(n, i => -1), seq(n, i => false), [Entry(0.0, src)],
        Cleared(g, src))
      && Searching(g, src, Cleared(g, src), [])
  {
    Start(Backward(adjacency, weights), src);
  }

  /** An entry whose edge was visited is dropped. */
  lemma TracksDrop(n: nat, dist: seq<Dist>, prev: seq<int>, visited: seq<bool>, pq: seq<Entry>,
      s: Search<nat, (nat, nat)>,
    top: Entry, rest: seq<Entry>)
    requires Tracks(n, dist, prev, visited, pq, s) && multiset(pq) == multiset(rest) + multiset{top}
    requires top.v < n && visited[top.v] && forall v :: v in s.order ==> v !in s.queue
    ensures Tracks(n, dist, prev, visited, rest, s)
  {
    Rest(pq, rest, top);
  }

  lemma Rest(pq: seq<Entry>, rest: seq<Entry>, top: Entry)
    requires multiset(pq) == multiset(rest) + multiset{top}
    ensures |rest| + 1 == |pq|
    ensures forall e :: e in pq <==> e in rest || e == top
  {
    assert |multiset(pq)| == |pq| && |multiset(rest)| == |rest|;
    forall e
      ensures e in pq <==> e in rest || e == top
    {
      assert e in pq <==> e in multiset(pq);
      assert e in rest <==> e in multiset(rest);
    }
  }

  /** The least entry whose edge was not visited is that of a nearest edge, which is taken. */
  lemma TracksTake(adjacency: seq<seq<nat>>, weights: seq<real>, src: nat,
    dist: seq<Dist>, prev: seq<int>, visited: seq<bool>, pq: seq<Entry>, s: Search<nat, (nat, nat)>, top: Entry,
      rest: seq<Entry>)
    returns (s': Search<nat, (nat, nat)>)
    requires |weights| == |adjacency| && InRange(adjacency) && Searching(Backward(adjacency, weights), src, s, [])
    requires Tracks(|adjacency|, dist, prev, visited, pq, s)
    requires top in pq && (forall e :: e in pq ==> !Before(e, top)) && multiset(pq) == multiset(rest) + multiset{top}
    requires top.v < |adjacency| && !visited[top.v]
    ensures Scanning(Backward(adjacency, weights), src, s', top.v, Back(top.v, adjacency[top.v]))
    ensures Tracks(|adjacency|, dist, prev, visited[top.v := true], rest, s')
    ensures s'.order == s.order + [top.v] && top.v !in s.order
  {
    hide Tracks, Backward, Searching, Back, Fronted;
    var g := Backward(adjacency, weights);
    NearestTop(|adjacency|, dist, prev, visited, pq, s, top);
    Front(g, src, s, top.v);
    LinksInto(adjacency, weights, top.v);
    Take(g, src, Fronted(s, top.v), Back(top.v, adjacency[top.v]));
    s' := Taken(Fronted(s, top.v));
    TakenTracks(|adjacency|, dist, prev, visited, pq, s, top, rest);
  }

  lemma NearestTop(n: nat, dist: seq<Dist>, prev: seq<int>, visited: seq<bool>, pq: seq<Entry>,
      s: Search<nat, (nat, nat)>, top: Entry)
    requires Tracks(n, dist, prev, visited, pq, s) && top.v < n && !visited[top.v]
    requires top in pq && (forall e :: e in pq ==> !Before(e, top))
    ensures top.v in s.queue && (forall m :: m in s.queue ==> m in s.dist) && top.v !in s.order
    ensures forall m :: m in s.queue ==> AtMost(s.dist[top.v], s.dist[m])
    ensures Fronted(s, top.v).order == s.order && Fronted(s, top.v).queue != []
  {
    forall m | m in s.queue
      ensures AtMost(s.dist[top.v], s.dist[m])
    {
      assert Entry(dist[m].v, m) in pq;
    }
  }

  lemma LinksInto(adjacency: seq<seq<nat>>, weights: seq<real>, u: nat)
    requires |weights| == |adjacency| && InRange(adjacency) && u < |adjacency|
    ensures var g := Backward(adjacency, weights);
      forall l :: l in g.arcs && g.arcs[l].dest == u ==> l in Back(u, adjacency[u])
  {
    forall l | l in Backward(adjacency, weights).arcs && Backward(adjacency, weights).arcs[l].dest == u
      ensures l in Back(u, adjacency[u])
    {
      var i :| 0 <= i < |adjacency[u]| && adjacency[u][i] == l.1;
      assert Back(u, adjacency[u])[i] == l;
    }
  }

  lemma TakenTracks(n: nat, dist: seq<Dist>, prev: seq<int>, visited: seq<bool>, pq: seq<Entry>,
      s: Search<nat, (nat, nat)>,
    top: Entry, rest: seq<Entry>)
    requires Tracks(n, dist, prev, visited, pq, s) && multiset(pq) == multiset(rest) + multiset{top}
    requires top.v < n && !visited[top.v] && top.v in s.queue
    ensures Tracks(n, dist, prev, visited[top.v := true], rest, Taken(Fronted(s, top.v)))
  {
    Rest(pq, rest, top);
    var t := Taken(Fronted(s, top.v));
    assert t.queue == Without(s.queue, top.v);
    forall m
      ensures m in Without(s.queue, top.v) <==> m in s.queue && m != top.v
    {
      WithoutMember(s.queue, top.v, m);
    }
    assert forall v :: v in t.order <==> v in s.order || v == top.v;
  }

  /** Edge v gets distance d from edge u, and a new entry; an older one stays behind. */
  lemma TracksImprove(n: nat, dist: seq<Dist>, prev: seq<int>, visited: seq<bool>, pq: seq<Entry>,
      s: Search<nat, (nat, nat)>,
    u: nat, v: nat, d: real, q: seq<nat>, k: nat)
    requires Tracks(n, dist, prev, visited, pq, s) && u < n && v < n && !visited[v] && Less(Fin(d), dist[v])
    requires (forall m :: m in q <==> m in s.queue && m != v) && k <= |q|
    ensures Tracks(n, dist[v := Fin(d)], prev[v := u], visited, pq + [Entry(d, v)],
      Improved(s, v, Fin(d), (u, v), q, k))
  {
    var t := Improved(s, v, Fin(d), (u, v), q, k);
    InsertedMember(q, k, v);
    var after := pq + [Entry(d, v)];
    assert forall e :: e in after <==> e in pq || e == Entry(d, v);
  }

  lemma FitsBound(q: seq<nat>, dist: map<nat, Dist>, k: nat, d: Dist)
    requires (forall m :: m in q ==> m in dist) && Fits(q, dist, k, d)
    ensures k <= |q|
  {
  }

  /** Where a new distance fits into the queue. */
  lemma {:induction false} Place(q: seq<nat>, dist: map<nat, Dist>, d: Dist) returns (k: nat)
    requires forall m :: m in q ==> m in dist
    ensures Fits(q, dist, k, d)
  {
    if q == [] || Less(d, dist[q[0]]) {
      k := 0;
    } else {
      k := Place(q[1..], dist, d);
      k := k + 1;
    }
  }

  lemma TracksLook(n: nat, dist: seq<Dist>, prev: seq<int>, visited: seq<bool>, pq: seq<Entry>,
      s: Search<nat, (nat, nat)>)
    requires Tracks(n, dist, prev, visited, pq, s)
    ensures |dist| == |prev| == |visited| == n && (pq == [] ==> s.queue == [])
    ensures forall v: nat :: v < n ==> v in s.dist && s.dist[v] == dist[v] && (visited[v] <==> v in s.order)
    ensures forall e :: e in pq ==> e.v < n
  {
    if s.queue != [] {
      assert s.queue[0] in s.queue;
    }
  }

  lemma BackNone(u: nat)
    ensures Back(u, []) == []
  {
  }

  lemma Parted<N, L>(g: Graph<N, L>, s: Search<N, L>)
    requires Listed(g, s)
    ensures forall v :: v in s.order ==> v !in s.queue
  {
    forall v | v in s.order && v in s.queue
      ensures false
    {
      Apart(s.order, s.queue, s.dist, v, v);
    }
  }

  lemma BackRest(u: nat, vs: seq<nat>, i: nat)
    requires i < |vs|
    ensures Back(u, vs[i..]) != [] && Back(u, vs[i..])[0] == (u, vs[i]) && Back(u, vs[i..])[1..] == Back(u, vs[i + 1..])
  {
  }

  /** What the backward graph says of the link from v back to u. */
  lemma LinkBack(adjacency: seq<seq<nat>>, weights: seq<real>, src: nat, u: nat, v: nat)
    requires |weights| == |adjacency| && InRange(adjacency) && u < |adjacency| && v in adjacency[u]
    ensures var g := Backward(adjacency, weights);
      Usable(g, (u, v)) && g.arcs[(u, v)] == Arc(v, u, Fin(weights[v]), true) && Cost(g, src, (u, v)) == Fin(weights[v])
  {
  }

  /** An edge that was visited is passed over, and rightly so. */
  lemma Visited(adjacency: seq<seq<nat>>, weights: seq<real>, src: nat, s: Search<nat, (nat, nat)>, u: nat, v: nat,
      vs: seq<nat>)
    requires |weights| == |adjacency| && InRange(adjacency) && u < |adjacency| && v in adjacency[u] && weights[v] > 0.0
    requires vs != [] && vs[0] == v && Scanning(Backward(adjacency, weights), src, s, u, Back(u, vs)) && v in s.order
    ensures Scanning(Backward(adjacency, weights), src, s, u, Back(u, vs[1..]))
  {
    var g := Backward(adjacency, weights);
    LinkBack(adjacency, weights, src, u, v);
    BackRest(u, vs, 0);
    assert vs[0..] == vs;
    Closed(g, src, s, (u, v), Fin(weights[v]), v);
    Skip(g, src, s, u, Back(u, vs));
  }

  lemma NoBetter(adjacency: seq<seq<nat>>, weights: seq<real>, src: nat, s: Search<nat, (nat, nat)>, u: nat, v: nat,
      vs: seq<nat>)
    requires |weights| == |adjacency| && InRange(adjacency) && u < |adjacency| && v in adjacency[u]
    requires vs != [] && vs[0] == v && Scanning(Backward(adjacency, weights), src, s, u, Back(u, vs))
    requires u in s.dist && v in s.dist && !Less(Plus(s.dist[u], Fin(weights[v])), s.dist[v])
    ensures Scanning(Backward(adjacency, weights), src, s, u, Back(u, vs[1..]))
  {
    LinkBack(adjacency, weights, src, u, v);
    BackRest(u, vs, 0);
    assert vs[0..] == vs;
    Skip(Backward(adjacency, weights), src, s, u, Back(u, vs));
  }

  /** An edge that is reached sooner through u. */
  lemma Better(adjacency: seq<seq<nat>>, weights: seq<real>, src: nat,
    dist: seq<Dist>, prev: seq<int>, visited: seq<bool>, pq: seq<Entry>, s: Search<nat, (nat, nat)>, u: nat, v: nat,
      vs: seq<nat>)
    returns (s': Search<nat, (nat, nat)>)
    requires |weights| == |adjacency| && InRange(adjacency) && u < |adjacency| && v in adjacency[u] && weights[v] > 0.0
    requires vs != [] && vs[0] == v && Scanning(Backward(adjacency, weights), src, s, u, Back(u, vs))
    requires Tracks(|adjacency|, dist, prev, visited, pq, s) && !visited[v]
    requires Less(Plus(dist[u], Fin(weights[v])), dist[v])
    ensures var d := Plus(dist[u], Fin(weights[v]));
      d.Fin? && Tracks(|adjacency|, dist[v := d], prev[v := u], visited, pq + [Entry(d.v, v)], s')
        && s'.order == s.order
    ensures Scanning(Backward(adjacency, weights), src, s', u, Back(u, vs[1..]))
  {
    hide Tracks, Backward, Back, Listed, Pointed, RelaxedBut, Without, Removed, Fits;
    var g := Backward(adjacency, weights);
    TracksLook(|adjacency|, dist, prev, visited, pq, s);
    var d := Plus(dist[u], Fin(weights[v]));
    LinkBack(adjacency, weights, src, u, v);
    BackRest(u, vs, 0);
    assert vs[0..] == vs;
    Remove(g, s, v);
    var q := Without(s.queue, v);
    var k := Place(q, s.dist, d);
    assert k <= |q| by {
      FitsBound(q, s.dist, k, d);
    }
    Improve(g, src, s, u, Back(u, vs), q, k);
    forall m: nat
      ensures m in q <==> m in s.queue && m != v
    {
      WithoutMember(s.queue, v, m);
    }
    TracksImprove(|adjacency|, dist, prev, visited, pq, s, u, v, d.v, q, k);
    s' := Improved(s, v, d, (u, v), q, k);
  }

  /** The search is over: the destination was just visited, or nothing is left in the queue. */
  ghost predicate Over(adjacency: seq<seq<nat>>, weights: seq<real>, src: nat, dst: nat, s: Search<nat, (nat, nat)>)
    requires |weights| == |adjacency| && InRange(adjacency) && dst < |adjacency|
  {
    var g := Backward(adjacency, weights);
    Scanning(g, src, s, dst, Back(dst, adjacency[dst])) || (Searching(g, src, s, []) && s.queue == [])
  }

  /** Then no drive to the destination is quicker than its distance, and without a distance there is no drive. */
  lemma OverBounds(adjacency: seq<seq<nat>>, weights: seq<real>, src: nat, dst: nat, s: Search<nat, (nat, nat)>,
      path: seq<nat>)
    requires |weights| == |adjacency| && InRange(adjacency) && dst < |adjacency|
      && Over(adjacency, weights, src, dst, s)
    requires forall v :: 0 <= v < |weights| ==> weights[v] > 0.0
    requires Drive(adjacency, path) && Joins(path, src, dst)
    ensures dst in s.dist && AtMost(s.dist[dst], Fin(Duration(weights, path)))
  {
    hide Searching;
    var g := Backward(adjacency, weights);
    BackwardPriced(adjacency, weights, src);
    DriveRoute(adjacency, weights, path, src);
    assert dst in g.weight;
    SearchKeys(g, src, s);
    if Scanning(g, src, s, dst, Back(dst, adjacency[dst])) {
      forall l | l in Back(dst, adjacency[dst])
        ensures l in g.arcs && g.arcs[l].dest == dst
      {
      }
      NoShorterYet(g, src, s, dst, Back(dst, adjacency[dst]), dst, Links(path));
    } else {
      NoShorter(g, src, s, dst, Links(path));
    }
  }

  lemma SearchKeys<N, L>(g: Graph<N, L>, target: N, s: Search<N, L>)
    requires Sound(g)
    ensures forall pending :: Searching(g, target, s, pending) ==> s.dist.Keys == g.weight.Keys
  {
  }

  /** When the search is over, a destination with a distance was visited. */
  lemma OverAt(adjacency: seq<seq<nat>>, weights: seq<real>, src: nat, dst: nat,
    dist: seq<Dist>, prev: seq<int>, visited: seq<bool>, pq: seq<Entry>, s: Search<nat, (nat, nat)>)
    returns (i: nat)
    requires |weights| == |adjacency| && InRange(adjacency) && dst < |adjacency|
      && Over(adjacency, weights, src, dst, s)
    requires Tracks(|adjacency|, dist, prev, visited, pq, s) && dist[dst] != Inf
    ensures i < |s.order| && s.order[i] == dst
    ensures Listed(Backward(adjacency, weights), s) && Pointed(Backward(adjacency, weights), src, s)
  {
    assert dst in s.dist;
    assert dst in s.order + s.queue;
    i :| 0 <= i < |s.order| && s.order[i] == dst;
  }

  /** The edge that a visited one was reached from was visited earlier. */
  lemma Previous(adjacency: seq<seq<nat>>, weights: seq<real>, src: nat,
    dist: seq<Dist>, prev: seq<int>, visited: seq<bool>, pq: seq<Entry>, s: Search<nat, (nat, nat)>, i: nat)
    returns (j: int)
    requires |weights| == |adjacency| && InRange(adjacency) && i < |s.order|
    requires Listed(Backward(adjacency, weights), s) && Pointed(Backward(adjacency, weights), src, s)
    requires Tracks(|adjacency|, dist, prev, visited, pq, s)
    ensures s.order[i] < |adjacency| && dist[s.order[i]].Fin?
    ensures prev[s.order[i]] == -1 <==> s.order[i] == src
    ensures s.order[i] == src ==> dist[src] == Fin(0.0)
    ensures s.order[i] != src ==> 0 <= j < i && s.order[j] == prev[s.order[i]] && s.order[i] in adjacency[s.order[j]]
    ensures s.order[i] != src ==>
      dist[s.order[j]].Fin? && dist[s.order[i]].v == dist[s.order[j]].v + weights[s.order[i]]
  {
    var g := Backward(adjacency, weights);
    var v := s.order[i];
    assert v in s.order + s.queue && v in s.dist;
    j := -1;
    if v != src {
      var l := s.out[v].value;
      assert Linked(g, src, s, v, l);
      LinkBack(adjacency, weights, src, l.0, v);
      j :| 0 <= j < i && s.order[j] == g.arcs[l].dest;
      assert s.order[j] in s.order + s.queue;
    }
  }
}
