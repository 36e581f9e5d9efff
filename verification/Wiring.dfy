/** The incoming and outgoing link lists of a graph's nodes, and how edits of the graph change them. */
module Wiring {
  import opened Lists
  import opened Routes

  datatype Wires<N, L> = Wires(ins: map<N, seq<L>>, outs: map<N, seq<L>>)

  /** Each link is exactly once in the list of its end, and in no other list. */
  ghost predicate Filed<N, L>(ends: map<L, N>, lists: map<N, seq<L>>) {
    && (forall n :: n in lists ==> Distinct(lists[n]))
    && (forall n, l :: n in lists && l in lists[n] ==> l in ends && ends[l] == n)
    && (forall l :: l in ends ==> ends[l] in lists && l in lists[ends[l]])
  }

  ghost function Sources<N, L>(g: Graph<N, L>): map<L, N> {
    map l | l in g.arcs :: g.arcs[l].src
  }

  ghost function Destinations<N, L>(g: Graph<N, L>): map<L, N> {
    map l | l in g.arcs :: g.arcs[l].dest
  }

  /** Each link is exactly once in its source's out list and exactly once in its destination's in list, and nowhere
      else. */
  ghost predicate Wired<N, L>(g: Graph<N, L>, w: Wires<N, L>) {
    && w.ins.Keys == g.weight.Keys && w.outs.Keys == g.weight.Keys
    && Filed(Destinations(g), w.ins) && Filed(Sources(g), w.outs)
  }

  lemma WiredSound<N, L>(g: Graph<N, L>, w: Wires<N, L>)
    requires Wired(g, w)
    ensures Sound(g)
    ensures forall l :: l in g.arcs ==> l in w.ins[g.arcs[l].dest] && l in w.outs[g.arcs[l].src]
    ensures forall n, l :: n in w.ins && l in w.ins[n] ==> l in g.arcs && g.arcs[l].dest == n
    ensures forall n, l :: n in w.outs && l in w.outs[n] ==> l in g.arcs && g.arcs[l].src == n
  {
    forall l | l in g.arcs
      ensures g.arcs[l].src in g.weight && g.arcs[l].dest in g.weight && l in w.ins[g.arcs[l].dest]
        && l in w.outs[g.arcs[l].src]
    {
      assert l in Destinations(g) && l in Sources(g);
    }
    forall n, l | n in w.ins && l in w.ins[n]
      ensures l in g.arcs && g.arcs[l].dest == n
    {
      assert l in Destinations(g);
    }
    forall n, l | n in w.outs && l in w.outs[n]
      ensures l in g.arcs && g.arcs[l].src == n
    {
      assert l in Sources(g);
    }
  }

  lemma ErasedKept<T>(s: seq<T>, n: T)
    requires Distinct(s) && n in s
    ensures Distinct(Erased(s, n)) && forall m :: m in Erased(s, n) <==> m in s && m != n
  {
    KeptAll(s, {});
    KeptErased(s, {}, n);
    KeptDistinct(s, {} + {n});
  }

  lemma ErasedMember<T>(s: seq<T>, n: T, m: T)
    requires Distinct(s) && n in s
    ensures m in Erased(s, n) <==> m in s && m != n
  {
    ErasedKept(s, n);
  }

  lemma FiledErased<N, L>(ends: map<L, N>, lists: map<N, seq<L>>, l: L)
    requires Filed(ends, lists) && l in ends
    ensures Filed(ends - {l}, lists[ends[l] := Erased(lists[ends[l]], l)])
  {
    var e := Erased(lists[ends[l]], l);
    var after := lists[ends[l] := e];
    ErasedKept(lists[ends[l]], l);
    forall n, m | n in after && m in after[n]
      ensures m in ends && ends[m] == n && m != l
    {
      ErasedMember(lists[ends[l]], l, m);
      assert m in lists[n];
    }
    forall m | m in ends - {l}
      ensures ends[m] in after && m in after[ends[m]]
    {
      assert m in lists[ends[m]];
    }
  }

  lemma FiledAppended<N, L>(ends: map<L, N>, lists: map<N, seq<L>>, l: L, n: N)
    requires Filed(ends, lists) && l !in ends && n in lists
    ensures Filed(ends[l := n], lists[n := lists[n] + [l]])
  {
    var s := lists[n] + [l];
    assert forall m :: m in s <==> m in lists[n] || m == l;
    assert Distinct(s) by {
      assert l !in lists[n];
    }
  }

  lemma FiledSevered<N, L>(ends: map<L, N>, lists: map<N, seq<L>>, gone: set<L>, n: N)
    requires Filed(ends, lists) && forall l :: l in ends && ends[l] == n ==> l in gone
    ensures Filed(ends - gone, Severed(lists, gone, n))
  {
    forall m | m in lists && m != n
      ensures Distinct(Kept(lists[m], gone)) && forall l :: l in Kept(lists[m], gone) <==> l in lists[m] && l !in gone
    {
      KeptDistinct(lists[m], gone);
    }
    forall m, l | m in Severed(lists, gone, n) && l in Severed(lists, gone, n)[m]
      ensures l in ends && ends[l] == m && l !in gone
    {
      KeptMember(lists[m], gone, l);
      assert l in lists[m];
    }
  }

  lemma FiledGrown<N, L>(ends: map<L, N>, lists: map<N, seq<L>>, n: N)
    requires Filed(ends, lists) && n !in lists
    ensures Filed(ends, lists[n := []])
  {
  }

  /** The lists after link l is erased from its two. */
  ghost function Unlinked<N, L>(g: Graph<N, L>, w: Wires<N, L>, l: L): Wires<N, L>
    requires Wired(g, w) && l in g.arcs
  {
    WiredSound(g, w);
    var a := g.arcs[l];
    Wires(w.ins[a.dest := Erased(w.ins[a.dest], l)], w.outs[a.src := Erased(w.outs[a.src], l)])
  }

  lemma UnlinkedWired<N, L>(g: Graph<N, L>, w: Wires<N, L>, l: L)
    requires Wired(g, w) && l in g.arcs
    ensures Wired(g.(arcs := g.arcs - {l}), Unlinked(g, w, l))
  {
    hide Filed;
    var h := g.(arcs := g.arcs - {l});
    assert Destinations(h) == Destinations(g) - {l} && Sources(h) == Sources(g) - {l};
    FiledErased(Destinations(g), w.ins, l);
    FiledErased(Sources(g), w.outs, l);
    WiredSound(g, w);
    assert g.arcs[l].src == Sources(g)[l] && g.arcs[l].dest == Destinations(g)[l];
  }

  /** The lists after link l is appended to two. */
  ghost function Appended<N, L>(w: Wires<N, L>, l: L, src: N, dest: N): Wires<N, L>
    requires src in w.outs && dest in w.ins
  {
    Wires(w.ins[dest := w.ins[dest] + [l]], w.outs[src := w.outs[src] + [l]])
  }

  lemma AppendedWired<N, L>(g: Graph<N, L>, w: Wires<N, L>, l: L, arc: Arc<N>)
    requires Wired(g, w) && l !in g.arcs && arc.src in w.outs && arc.dest in w.ins
    ensures Wired(g.(arcs := g.arcs[l := arc]), Appended(w, l, arc.src, arc.dest))
  {
    hide Filed;
    var h := g.(arcs := g.arcs[l := arc]);
    assert Destinations(h) == Destinations(g)[l := arc.dest] && Sources(h) == Sources(g)[l := arc.src];
    FiledAppended(Destinations(g), w.ins, l, arc.dest);
    FiledAppended(Sources(g), w.outs, l, arc.src);
  }

  /** The graph with a new node that has no links. */
  ghost function Grown<N, L>(g: Graph<N, L>, n: N, weight: Dist, enabled: bool): Graph<N, L> {
    g.(weight := g.weight[n := weight], off := if enabled then g.off else g.off + {n})
  }

  lemma GrownWired<N, L>(g: Graph<N, L>, w: Wires<N, L>, n: N, weight: Dist, enabled: bool)
    requires Wired(g, w) && n !in g.weight
    ensures Wired(Grown(g, n, weight, enabled), Wires(w.ins[n := []], w.outs[n := []]))
  {
    hide Filed;
    var h := Grown(g, n, weight, enabled);
    assert Destinations(h) == Destinations(g) && Sources(h) == Sources(g);
    FiledGrown(Destinations(g), w.ins, n);
    FiledGrown(Sources(g), w.outs, n);
  }

  /** The graph without node n and the links at it. */
  ghost function Cut<N, L>(g: Graph<N, L>, n: N): Graph<N, L> {
    Graph(map l | l in g.arcs && g.arcs[l].src != n && g.arcs[l].dest != n :: g.arcs[l], g.weight - {n}, g.off - {n})
  }

  /** The lists of the nodes other than n, without the links that are gone. */
  ghost function Severed<N, L>(lists: map<N, seq<L>>, gone: set<L>, n: N): map<N, seq<L>> {
    map m | m in lists && m != n :: Kept(lists[m], gone)
  }

  lemma EndOf<N, L>(g: Graph<N, L>, w: Wires<N, L>, l: L, n: N)
    requires Wired(g, w) && n in g.weight
    ensures l in w.ins[n] ==> l in g.arcs && g.arcs[l].dest == n
    ensures l in w.outs[n] ==> l in g.arcs && g.arcs[l].src == n
  {
    WiredSound(g, w);
  }

  /** Links of n that left the in lists and those that left the out lists are gone from the other nodes' lists alike. */
  lemma SeveredAlike<N, L>(g: Graph<N, L>, w: Wires<N, L>, n: N, m: N, gone: set<L>, lost: set<L>)
    requires Wired(g, w) && n in g.weight && m in g.weight && m != n
    requires forall l :: l in gone <==> l in w.outs[n]
    requires forall l :: l in lost <==> l in w.ins[n] && l !in gone
    ensures Kept(w.ins[m], gone) == Kept(w.ins[m], gone + lost) && Kept(w.outs[m], lost) == Kept(w.outs[m], gone + lost)
  {
    forall l | l in w.ins[m]
      ensures l !in lost
    {
      EndOf(g, w, l, m);
      if l in lost {
        EndOf(g, w, l, n);
      }
    }
    forall l | l in w.outs[m]
      ensures l !in gone
    {
      EndOf(g, w, l, m);
      if l in gone {
        EndOf(g, w, l, n);
      }
    }
    KeptAgree(w.ins[m], gone, gone + lost);
    KeptAgree(w.outs[m], lost, gone + lost);
  }

  lemma SeveredWired<N, L>(g: Graph<N, L>, w: Wires<N, L>, gone: set<L>, n: N)
    requires Wired(g, w) && n in g.weight
    requires forall l :: l in gone <==> l in w.ins[n] || l in w.outs[n]
    ensures Wired(Cut(g, n), Wires(Severed(w.ins, gone, n), Severed(w.outs, gone, n)))
  {
    var h := Cut(g, n);
    forall l | l in g.arcs
      ensures l in gone <==> g.arcs[l].src == n || g.arcs[l].dest == n
    {
      assert l in Destinations(g) && l in Sources(g);
    }
    assert Destinations(h) == Destinations(g) - gone && Sources(h) == Sources(g) - gone;
    FiledSevered(Destinations(g), w.ins, gone, n);
    FiledSevered(Sources(g), w.outs, gone, n);
  }
}
