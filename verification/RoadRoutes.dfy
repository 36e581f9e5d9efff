/** Drives over road edges, and how the server's search for the quickest one rests on ShortestPaths. */
module RoadRoutes {
  import opened Lists
  import opened Routes
  import opened ShortestPaths
  import Sums

  /** Every edge that is listed after an edge is an edge. */
  ghost predicate InRange(adjacency: seq<seq<nat>>) {
    forall u, v :: 0 <= u < |adjacency| && v in adjacency[u] ==> v < |adjacency|
  }

  /** The edges can be driven one after the other. */
  ghost predicate Drive(adjacency: seq<seq<nat>>, path: seq<nat>) {
    && (forall i :: 0 <= i < |path| ==> path[i] < |adjacency|)
    && (forall i :: 0 < i < |path| ==> path[i] in adjacency[path[i - 1]])
  }

  ghost predicate Joins(path: seq<nat>, src: nat, dst: nat) {
    path != [] && path[0] == src && path[|path| - 1] == dst
  }

  /** The sum of the weights of the edges that are entered; the drive starts on its first edge. */
  ghost function Duration(weights: seq<real>, path: seq<nat>): real
    requires forall i :: 0 <= i < |path| ==> path[i] < |weights|
  {
    if |path| <= 1 then 0.0 else Duration(weights, path[..|path| - 1]) + weights[path[|path| - 1]]
  }

  ghost function Entered(weights: seq<real>, path: seq<nat>): seq<real>
    requires path != [] && forall i :: 0 <= i < |path| ==> path[i] < |weights|
  {
    seq(|path| - 1, i requires 0 <= i < |path| - 1 => weights[path[i + 1]])
  }

  /** A drive takes what its edges weigh, one for each place but the first. */
  lemma {:induction false} DurationTotal(weights: seq<real>, path: seq<nat>)
    requires path != [] && forall i :: 0 <= i < |path| ==> path[i] < |weights|
    ensures Duration(weights, path) == Sums.Total(Entered(weights, path))
    decreases |path|
  {
    if |path| > 1 {
      var front, last := path[..|path| - 1], path[|path| - 1];
      DurationTotal(weights, front);
      assert Entered(weights, path) == Entered(weights, front) + [weights[last]];
      Sums.TotalLast(Entered(weights, front), weights[last]);
    }
  }

  /** A drive from src to dst that takes no longer than any other. */
  ghost predicate Quickest(adjacency: seq<seq<nat>>, weights: seq<real>, src: nat, dst: nat, path: seq<nat>)
    requires |weights| == |adjacency|
  {
    && Drive(adjacency, path) && Joins(path, src, dst)
    && (forall other :: Drive(adjacency, other) && Joins(other, src, dst) ==>
        Duration(weights, path) <= Duration(weights, other))
  }

  ghost function Below(n: nat): (s: set<nat>)
    ensures forall i: nat :: i in s <==> i < n
  {
    if n == 0 then {} else Below(n - 1) + {n - 1}
  }

  /** The graph against the driving direction: a link leads from an edge back to one it can be entered from. */
  ghost function Backward(adjacency: seq<seq<nat>>, weights: seq<real>): (g: Graph<nat, (nat, nat)>)
    requires |weights| == |adjacency| && InRange(adjacency)
    ensures Sound(g) && g.weight.Keys == Below(|adjacency|)
  {
    Graph(
      map u, v | 0 <= u < |adjacency| && v in adjacency[u] :: (u, v) := Arc(v, u, Fin(weights[v]), true),
      map n | n in Below(|adjacency|) :: Fin(0.0),
      {})
  }

  lemma BackwardPriced(adjacency: seq<seq<nat>>, weights: seq<real>, src: nat)
    requires |weights| == |adjacency| && InRange(adjacency) && forall v :: 0 <= v < |weights| ==> weights[v] > 0.0
    ensures Priced(Backward(adjacency, weights), src)
  {
  }

  /** The links of a drive, from its end. */
  ghost function Links(path: seq<nat>): seq<(nat, nat)> {
    if |path| <= 1 then [] else [(path[|path| - 2], path[|path| - 1])] + Links(path[..|path| - 1])
  }

  lemma Prepended<N, L>(g: Graph<N, L>, target: N, l: L, rest: seq<L>)
    requires Sound(g) && Usable(g, l) && Route(g, target, g.arcs[l].dest, rest)
    ensures Route(g, target, g.arcs[l].src, [l] + rest)
    ensures Total(g, target, g.arcs[l].src, [l] + rest) ==
      Plus(Cost(g, target, l), Total(g, target, g.arcs[l].dest, rest))
  {
    assert ([l] + rest)[1..] == rest;
  }

  /** A drive is a route of the backward graph with the same total. */
  lemma {:induction false} DriveRoute(adjacency: seq<seq<nat>>, weights: seq<real>, path: seq<nat>, src: nat)
    requires |weights| == |adjacency| && InRange(adjacency)
    requires path != [] && path[0] == src && Drive(adjacency, path)
    ensures var g := Backward(adjacency, weights);
      Route(g, src, path[|path| - 1], Links(path))
        && Total(g, src, path[|path| - 1], Links(path)) == Fin(Duration(weights, path))
  {
    if |path| > 1 {
      var shorter := path[..|path| - 1];
      DriveRoute(adjacency, weights, shorter, src);
      var l := (path[|path| - 2], path[|path| - 1]);
      assert path[|path| - 1] in adjacency[path[|path| - 2]];
      Prepended(Backward(adjacency, weights), src, l, Links(shorter));
    }
  }

  /** A route of the backward graph is a drive. */
  lemma {:induction false} RouteDrive(adjacency: seq<seq<nat>>, weights: seq<real>, src: nat, v: nat,
      links: seq<(nat, nat)>)
    returns (path: seq<nat>)
    requires |weights| == |adjacency| && InRange(adjacency) && v < |adjacency|
    requires Route(Backward(adjacency, weights), src, v, links)
    ensures Drive(adjacency, path) && Joins(path, src, v)
    ensures Fin(Duration(weights, path)) == Total(Backward(adjacency, weights), src, v, links)
    decreases links
  {
    if links == [] {
      path := [v];
    } else {
      var g := Backward(adjacency, weights);
      var u := g.arcs[links[0]].dest;
      path := RouteDrive(adjacency, weights, src, u, links[1..]);
      assert (path + [v])[..|path|] == path;
      path := path + [v];
    }
  }

  ghost function Sum(weights: seq<real>, s: seq<nat>): real
    requires forall i :: 0 <= i < |s| ==> s[i] < |weights|
  {
    if s == [] then 0.0 else weights[s[0]] + Sum(weights, s[1..])
  }

  lemma {:induction false} SumBack(weights: seq<real>, s: seq<nat>)
    requires s != [] && forall i :: 0 <= i < |s| ==> s[i] < |weights|
    ensures Sum(weights, s) == Sum(weights, s[..|s| - 1]) + weights[s[|s| - 1]]
  {
    if |s| > 1 {
      SumBack(weights, s[1..]);
      assert s[1..][..|s| - 2] == s[..|s| - 1][1..];
    }
  }

  /** A drive takes the sum of the weights of all its edges but the first. */
  lemma {:induction false} DurationSum(weights: seq<real>, path: seq<nat>)
    requires path != [] && forall i :: 0 <= i < |path| ==> path[i] < |weights|
    ensures Duration(weights, path) == Sum(weights, path[1..])
  {
    if |path| > 1 {
      DurationSum(weights, path[..|path| - 1]);
      SumBack(weights, path[1..]);
      assert path[1..][..|path| - 2] == path[..|path| - 1][1..];
    }
  }

  function Reversed<T>(s: seq<T>): (r: seq<T>)
    ensures |r| == |s|
  {
    if s == [] then [] else [s[|s| - 1]] + Reversed(s[..|s| - 1])
  }

  /** What following prev has found so far: a drive from `at` over the edges `tail` to dst, which takes what dst's
      distance is more than at's. */
  ghost predicate Trailing(adjacency: seq<seq<nat>>, weights: seq<real>, dist: seq<Dist>, at: nat, tail: seq<nat>,
      dst: nat)
    requires |weights| == |adjacency| == |dist| && at < |adjacency| && dst < |adjacency|
  {
    && Drive(adjacency, [at] + tail) && Joins([at] + tail, at, dst)
    && (forall i :: 0 <= i < |tail| ==> tail[i] < |weights|)
    && dist[at].Fin? && dist[dst].Fin? && dist[at].v + Sum(weights, tail) == dist[dst].v
  }

  /** The same, and what it is once there is no edge left to go back to. */
  ghost predicate Traced(adjacency: seq<seq<nat>>, weights: seq<real>, dist: seq<Dist>, src: nat, dst: nat, at: int,
      tail: seq<nat>)
    requires |weights| == |adjacency| == |dist| && -1 <= at < |adjacency| && dst < |adjacency|
  {
    if at == -1 then
      Drive(adjacency, tail) && Joins(tail, src, dst) && Fin(Duration(weights, tail)) == dist[dst]
    else
      Trailing(adjacency, weights, dist, at, tail, dst)
  }

  lemma TraceStep(adjacency: seq<seq<nat>>, weights: seq<real>, dist: seq<Dist>, src: nat, dst: nat, at: nat,
      tail: seq<nat>, u: int)
    requires |weights| == |adjacency| == |dist| && at < |adjacency| && dst < |adjacency| && -1 <= u < |adjacency|
    requires Traced(adjacency, weights, dist, src, dst, at, tail)
    requires u == -1 ==> at == src && dist[src] == Fin(0.0)
    requires u != -1 ==> at in adjacency[u] && dist[u].Fin? && dist[at].v == dist[u].v + weights[at]
    ensures Traced(adjacency, weights, dist, src, dst, u, [at] + tail)
  {
    assert ([at] + tail)[1..] == tail;
    if u == -1 {
      DurationSum(weights, [at] + tail);
    } else {
      var longer := [u as nat] + ([at] + tail);
      assert forall i :: 0 < i < |longer| ==> longer[i] == ([at] + tail)[i - 1];
    }
  }

  lemma TraceStart(adjacency: seq<seq<nat>>, weights: seq<real>, dist: seq<Dist>, src: nat, dst: nat)
    requires |weights| == |adjacency| == |dist| && dst < |adjacency| && dist[dst].Fin?
    ensures Traced(adjacency, weights, dist, src, dst, dst, Reversed([]))
  {
  }

  lemma ReversedMore<T>(s: seq<T>, x: T)
    ensures Reversed(s + [x]) == [x] + Reversed(s)
  {
    assert (s + [x])[..|s|] == s;
  }
}
