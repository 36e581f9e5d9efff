/** A directed graph of nodes and links that point at each other, with single-target shortest paths. */
module Topologies {
  import opened Lists
  import opened Options
  import opened Routes
  import opened ShortestPaths
  import opened Wiring

  type ModuleId = x: int | -0x8000_0000 <= x < 0x8000_0000

  const NO_MODULE: ModuleId := -1
  const NO_GATE := -1

  class Node {
    const moduleId: ModuleId
    var weight: Dist
    var enabled: bool
    var inLinks: seq<Link>
    var outLinks: seq<Link>
    var dist: Dist
    var outPath: Link?

    constructor (moduleId: ModuleId)
      ensures this.moduleId == moduleId && weight == Fin(0.0) && enabled
      ensures inLinks == [] && outLinks == [] && dist == Inf && outPath == null
    {
      this.moduleId := moduleId;
      weight, enabled := Fin(0.0), true;
      inLinks, outLinks := [], [];
      dist, outPath := Inf, null;
    }
  }

  class Link {
    var srcNode: Node?
    var srcGateId: int
    var destNode: Node?
    var destGateId: int
    var weight: Dist
    var enabled: bool

    constructor (weight: Dist)
      ensures srcNode == null && destNode == null && srcGateId == NO_GATE && destGateId == NO_GATE
      ensures this.weight == weight && enabled
    {
      srcNode, destNode := null, null;
      srcGateId, destGateId := NO_GATE, NO_GATE;
      this.weight, enabled := weight, true;
    }
  }

  /** The id as the unsigned number that nodes are ordered by: -1 comes last. */
  function Unsigned(id: ModuleId): nat {
    if id < 0 then id + 0x1_0000_0000 else id
  }

  ghost predicate Sorted(nodes: seq<Node>) {
    forall i, j :: 0 <= i < j < |nodes| ==> Unsigned(nodes[i].moduleId) <= Unsigned(nodes[j].moduleId)
  }

  class Topology {
    var nodes: seq<Node>
    var target: Node?

    ghost function Incoming(): set<Link>
      reads this`nodes, nodes`inLinks
    {
      set n, l | n in nodes && l in n.inLinks :: l
    }

    /** The graph that the searches read. */
    ghost function View(): (g: Graph<Node, Link>)
      reads this`nodes, nodes`inLinks, nodes`weight, nodes`enabled
      reads Incoming()`srcNode, Incoming()`destNode, Incoming()`weight, Incoming()`enabled
      ensures Sound(g)
    {
      Graph(
        map l | l in Incoming() && l.srcNode in nodes && l.destNode in nodes ::
          Arc(l.srcNode, l.destNode, l.weight, l.enabled),
        map n | n in nodes :: n.weight,
        set n | n in nodes && !n.enabled)
    }

    ghost function Files(): (w: Wires<Node, Link>)
      reads this`nodes, nodes`inLinks, nodes`outLinks
    {
      Wires(map n | n in nodes :: n.inLinks, map n | n in nodes :: n.outLinks)
    }

    /** The nodes have just the weights and flags that g says. */
    ghost predicate NodeFields(g: Graph<Node, Link>)
      reads this`nodes, nodes`weight, nodes`enabled
    {
      && g.weight.Keys == (set n | n in nodes) && g.off <= g.weight.Keys
      && (forall n :: n in nodes ==> g.weight[n] == n.weight && (n in g.off <==> !n.enabled))
    }

    /** The links have just the ends, weights and flags that the arcs say. */
    static ghost predicate LinkFields(arcs: map<Link, Arc<Node>>)
      reads arcs.Keys`srcNode, arcs.Keys`destNode, arcs.Keys`weight, arcs.Keys`enabled
    {
      forall l :: l in arcs ==>
        l.srcNode == arcs[l].src && l.destNode == arcs[l].dest && l.weight == arcs[l].weight
          && l.enabled == arcs[l].enabled
    }

    /** The nodes and links form the graph g, and every link is in just the two lists it belongs to. */
    ghost predicate Mirrors(g: Graph<Node, Link>)
      reads this`nodes, nodes`inLinks, nodes`outLinks, nodes`weight, nodes`enabled
      reads g.arcs.Keys`srcNode, g.arcs.Keys`destNode, g.arcs.Keys`weight, g.arcs.Keys`enabled
    {
      NodeFields(g) && LinkFields(g.arcs) && Wired(g, Files())
    }

    ghost predicate Valid()
      reads this`nodes, nodes`inLinks, nodes`outLinks, nodes`weight, nodes`enabled
      reads Incoming()`srcNode, Incoming()`destNode, Incoming()`weight, Incoming()`enabled
    {
      Distinct(nodes) && Sorted(nodes) && Mirrors(View())
    }

    lemma LookValid()
      requires Valid()
      ensures Distinct(nodes) && Sorted(nodes) && Mirrors(View())
    {
    }

    lemma IncomingArcs(g: Graph<Node, Link>)
      requires Mirrors(g)
      ensures Sound(g) && Incoming() == g.arcs.Keys
    {
      hide Filed, Wired;
      WiredSound(g, Files());
      forall l
        ensures l in Incoming() <==> l in g.arcs
      {
        if l in Incoming() {
          var n :| n in nodes && l in n.inLinks;
          assert l in Files().ins[n];
        }
        if l in g.arcs {
          assert l in g.arcs[l].dest.inLinks;
        }
      }
    }

    /** The graph is determined by the nodes, links and lists. */
    lemma ViewOnly(g: Graph<Node, Link>)
      requires Mirrors(g)
      ensures View() == g && Sound(g)
    {
      hide Incoming, Wired, Filed, Files;
      IncomingArcs(g);
      assert forall l :: l in g.arcs ==> l.srcNode in nodes && l.destNode in nodes;
    }

    /** The nodes with a finite distance are those with a passable route. */
    ghost predicate FiniteWhereReached(g: Graph<Node, Link>, target: Node)
      requires Sound(g)
      reads this`nodes, nodes`dist
    {
      forall n :: n in nodes ==> (n.dist.Fin? <==> Reaches(g, target, n))
    }

    lemma DistsFinite(g: Graph<Node, Link>, target: Node)
      requires Sound(g) && Labelled(g, target, Dists(), OutPaths())
      ensures FiniteWhereReached(g, target)
    {
      forall n | n in nodes
        ensures n.dist.Fin? <==> Reaches(g, target, n)
      {
        assert Dists()[n] == n.dist;
        LeastFinite(g, target, Dists(), n);
      }
    }

    lemma ViewStill(g: Graph<Node, Link>)
      requires Mirrors(g) && Distinct(nodes) && Sorted(nodes)
      ensures Valid() && View() == g
    {
      ViewOnly(g);
    }

    ghost function Dists(): map<Node, Dist>
      reads this`nodes, nodes`dist
    {
      map n | n in nodes :: n.dist
    }

    ghost function OutPaths(): map<Node, Option<Link>>
      reads this`nodes, nodes`outPath
    {
      map n | n in nodes :: if n.outPath == null then None else Some(n.outPath)
    }

    constructor ()
      ensures Valid() && nodes == [] && target == null
    {
      nodes, target := [], null;
    }

    /** Index of the first node whose id, as an unsigned number, is not less. */
    method LowerBound(id: ModuleId) returns (k: nat)
      requires Valid()
      ensures Valid() && View() == old(View()) && k <= |nodes|
      ensures forall i :: 0 <= i < k ==> Unsigned(nodes[i].moduleId) < Unsigned(id)
      ensures forall i :: k <= i < |nodes| ==> Unsigned(id) <= Unsigned(nodes[i].moduleId)
    {
      k := 0;
      var end := |nodes|;
      while k < end
        invariant k <= end <= |nodes|
        invariant forall i :: 0 <= i < k ==> Unsigned(nodes[i].moduleId) < Unsigned(id)
        invariant forall i :: end <= i < |nodes| ==> Unsigned(id) <= Unsigned(nodes[i].moduleId)
      {
        var mid := (k + end) / 2;
        if Unsigned(nodes[mid].moduleId) < Unsigned(id) {
          k := mid + 1;
        } else {
          end := mid;
        }
      }
    }

    /** Finds a node with the id exactly when the graph has one. */
    method GetNodeFor(id: ModuleId) returns (node: Node?)
      requires Valid()
      ensures Valid() && View() == old(View())
      ensures node != null ==> node in nodes && node.moduleId == id
      ensures node == null ==> forall n :: n in nodes ==> n.moduleId != id
    {
      hide View, Incoming, Mirrors, Distinct;
      var k := LowerBound(id);
      if k == |nodes| || nodes[k].moduleId != id {
        node := null;
      } else {
        node := nodes[k];
      }
    }

    lemma InsertedSorted(before: seq<Node>, k: nat, node: Node)
      requires Distinct(before) && Sorted(before) && node !in before && k <= |before|
      requires forall i :: 0 <= i < k ==> Unsigned(before[i].moduleId) <= Unsigned(node.moduleId)
      requires forall i :: k <= i < |before| ==> Unsigned(node.moduleId) <= Unsigned(before[i].moduleId)
      ensures Distinct(Inserted(before, k, node)) && Sorted(Inserted(before, k, node))
    {
      var after := Inserted(before, k, node);
      assert forall i :: 0 <= i < |after| ==>
        after[i] == if i < k then before[i] else if i == k then node else before[i - 1];
    }

    method InsertNode(k: nat, node: Node, ghost g: Graph<Node, Link>)
      requires LinkFields(g.arcs) && k <= |nodes|
      modifies this`nodes
      ensures LinkFields(g.arcs) && nodes == Inserted(old(nodes), k, node)
      ensures node.inLinks == [] ==> Files().ins == old(Files()).ins[node := []]
      ensures node.outLinks == [] ==> Files().outs == old(Files()).outs[node := []]
    {
      hide Inserted;
      InsertedMember(nodes, k, node);
      nodes := Inserted(nodes, k, node);
    }

    lemma NodeFieldsGrown(g: Graph<Node, Link>, before: seq<Node>, k: nat, node: Node)
      requires k <= |before| && nodes == Inserted(before, k, node) && node !in before
      requires g.weight.Keys == (set n | n in before) && g.off <= g.weight.Keys
      requires forall n :: n in before ==> g.weight[n] == n.weight && (n in g.off <==> !n.enabled)
      ensures NodeFields(Grown(g, node, node.weight, node.enabled))
    {
      hide Inserted;
      InsertedMember(before, k, node);
    }

    /** Puts a node in front of the first node whose id is not less; one without a module goes last. The graph is sound
        afterwards if the node is new and comes without links. */
    method AddNode(node: Node) returns (k: nat)
      requires Valid()
      modifies this`nodes
      ensures k <= |old(nodes)| && nodes == Inserted(old(nodes), k, node)
      ensures node.moduleId == NO_MODULE ==> k == |old(nodes)|
      ensures node.moduleId != NO_MODULE ==>
        && (forall i :: 0 <= i < k ==> Unsigned(old(nodes)[i].moduleId) < Unsigned(node.moduleId))
        && (forall i :: k <= i < |old(nodes)| ==> Unsigned(node.moduleId) <= Unsigned(old(nodes)[i].moduleId))
      ensures node !in old(nodes) && node.inLinks == [] && node.outLinks == [] ==>
        Valid() && View() == Grown(old(View()), node, node.weight, node.enabled)
    {
      hide View, Incoming, Wired, Filed, Sorted, Distinct, Files, Inserted, LinkFields;
      k := |nodes|;
      if node.moduleId != NO_MODULE {
        k := LowerBound(node.moduleId);
      }
      LookValid();
      ghost var g := View();
      ghost var w := Files();
      InsertNode(k, node, g);
      if node !in old(nodes) && node.inLinks == [] && node.outLinks == [] {
        GrownWired(g, w, node, node.weight, node.enabled);
        InsertedSorted(old(nodes), k, node);
        NodeFieldsGrown(g, old(nodes), k, node);
        ViewOnly(Grown(g, node, node.weight, node.enabled));
      }
    }

    method UnlinkFromSourceNode(link: Link)
      requires link.srcNode != null && link.srcNode in nodes && link in link.srcNode.outLinks
      modifies link.srcNode`outLinks
      ensures Files() == old(Files()).(outs :=
        old(Files()).outs[link.srcNode := Erased(old(link.srcNode.outLinks), link)])
    {
      link.srcNode.outLinks := Erased(link.srcNode.outLinks, link);
    }

    method UnlinkFromDestNode(link: Link)
      requires link.destNode != null && link.destNode in nodes && link in link.destNode.inLinks
      modifies link.destNode`inLinks
      ensures Files() == old(Files()).(ins :=
        old(Files()).ins[link.destNode := Erased(old(link.destNode.inLinks), link)])
    {
      link.destNode.inLinks := Erased(link.destNode.inLinks, link);
    }

    /** The link's ends and the two lists it is in. */
    lemma LookLink(g: Graph<Node, Link>, link: Link)
      requires Mirrors(g) && link in g.arcs
      ensures NodeFields(g) && LinkFields(g.arcs) && Wired(g, Files())
      ensures link.srcNode == g.arcs[link].src && link.destNode == g.arcs[link].dest
      ensures link.srcNode in nodes && link.destNode in nodes
      ensures link in link.srcNode.outLinks && link in link.destNode.inLinks
      ensures Files().outs[link.srcNode] == link.srcNode.outLinks && Files().ins[link.destNode] == link.destNode.inLinks
    {
      WiredSound(g, Files());
    }

    /** Both lists that link is in lose it. */
    method Unlink(link: Link, ghost g: Graph<Node, Link>)
      requires Mirrors(g) && link in g.arcs
      modifies link.srcNode`outLinks, link.destNode`inLinks
      ensures Mirrors(g.(arcs := g.arcs - {link}))
      ensures Files() == Unlinked(g, old(Files()), link)
    {
      hide Wired, Filed, Files, View, Incoming, Erased;
      LookLink(g, link);
      UnlinkedWired(g, Files(), link);
      UnlinkFromSourceNode(link);
      UnlinkFromDestNode(link);
    }

    /** Takes a link out of the graph. */
    method DeleteLink(link: Link)
      requires Valid() && link in View().arcs
      modifies link.srcNode`outLinks, link.destNode`inLinks
      ensures Valid() && View() == old(View()).(arcs := old(View()).arcs - {link})
    {
      hide View, Mirrors, Incoming;
      ghost var g := View();
      Unlink(link, g);
      ViewOnly(g.(arcs := g.arcs - {link}));
    }

    /** The graph after link joins src to dest, wherever it was before. */
    ghost function Relinked(g: Graph<Node, Link>, link: Link, src: Node, dest: Node): Graph<Node, Link>
      reads link`weight, link`enabled
    {
      g.(arcs := (g.arcs - {link})[link := Arc(src, dest, link.weight, link.enabled)])
    }

    lemma LookAbsent(g: Graph<Node, Link>, link: Link)
      requires Mirrors(g) && link.srcNode == null
      ensures link !in g.arcs
    {
    }

    lemma RelinkedDetached(g: Graph<Node, Link>, link: Link, src: Node, dest: Node)
      ensures Relinked(g.(arcs := g.arcs - {link}), link, src, dest) == Relinked(g, link, src, dest)
    {
      assert (g.arcs - {link}) - {link} == g.arcs - {link};
    }

    /** Link is either in the graph or joined to nothing. */
    ghost predicate Movable(g: Graph<Node, Link>, link: Link)
      reads link`srcNode, link`destNode
    {
      (link.srcNode == null <==> link.destNode == null) && (link.srcNode != null ==> link in g.arcs)
    }

    /** Takes link out of the graph if it is in it. */
    method Detach(link: Link, ghost g: Graph<Node, Link>)
      requires Mirrors(g) && Movable(g, link)
      modifies nodes`inLinks, nodes`outLinks
      ensures Mirrors(g.(arcs := g.arcs - {link}))
    {
      hide View, Incoming, Wired, Filed, Sorted, Distinct, Mirrors;
      if link.srcNode != null {
        LookLink(g, link);
        Unlink(link, g);
      } else {
        LookAbsent(g, link);
        assert g.arcs - {link} == g.arcs;
      }
    }

    /** Lets link join src to dest; a link that is in the graph is moved. */
    method AddLink(link: Link, srcNode: Node, destNode: Node)
      requires Valid() && srcNode in nodes && destNode in nodes && Movable(View(), link)
      modifies link`srcNode, link`destNode, link`srcGateId, link`destGateId, nodes`inLinks, nodes`outLinks
      ensures Valid() && View() == Relinked(old(View()), link, srcNode, destNode)
      ensures link.srcNode == srcNode && link.destNode == destNode
      ensures link.srcGateId == if old(link.srcNode) == srcNode then old(link.srcGateId) else NO_GATE
      ensures link.destGateId == if old(link.destNode) == destNode then old(link.destGateId) else NO_GATE
    {
      hide View, Incoming, Wired, Filed, Sorted, Distinct, Mirrors, Relinked;
      LookValid();
      ghost var g := View();
      Detach(link, g);
      if link.srcNode != srcNode {
        link.srcGateId := NO_GATE;
      }
      if link.destNode != destNode {
        link.destGateId := NO_GATE;
      }
      Enter(link, srcNode, destNode, g.(arcs := g.arcs - {link}));
      RelinkedDetached(g, link, srcNode, destNode);
      ViewOnly(Relinked(g, link, srcNode, destNode));
    }

    /** Lets link join two gates of modules; fails when the graph has no node for one of the modules. */
    method AddLinkBetween(link: Link, srcModule: ModuleId, srcGate: int, destModule: ModuleId, destGate: int)
        returns (ok: bool)
      requires Valid() && Movable(View(), link)
      modifies link`srcNode, link`destNode, link`srcGateId, link`destGateId, nodes`inLinks, nodes`outLinks
      ensures Valid()
      ensures ok <==>
        (exists n :: n in nodes && n.moduleId == srcModule) && (exists n :: n in nodes && n.moduleId == destModule)
      ensures ok ==>
        link.srcNode != null && link.srcNode in nodes && link.srcNode.moduleId == srcModule && link.srcGateId == srcGate
      ensures ok ==>
        link.destNode != null && link.destNode in nodes && link.destNode.moduleId == destModule
        && link.destGateId == destGate
      ensures ok ==> View() == Relinked(old(View()), link, link.srcNode, link.destNode)
      // a link that was in the graph has left it, and still points at its old ends
      ensures !ok ==> View() == old(View()).(arcs := old(View()).arcs - {link})
      ensures !ok ==> link.srcNode == old(link.srcNode) && link.destNode == old(link.destNode)
    {
      hide View, Incoming, Wired, Filed, Sorted, Distinct, Mirrors, Relinked;
      LookValid();
      ghost var g := View();
      Detach(link, g);
      ghost var h := g.(arcs := g.arcs - {link});
      ViewOnly(h);
      var srcNode := GetNodeFor(srcModule);
      var destNode := GetNodeFor(destModule);
      ok := srcNode != null && destNode != null;
      if ok {
        link.srcGateId := srcGate;
        link.destGateId := destGate;
        Enter(link, srcNode, destNode, h);
        RelinkedDetached(g, link, srcNode, destNode);
        ViewOnly(Relinked(g, link, srcNode, destNode));
      }
    }

    method PushOut(node: Node, link: Link)
      requires node in nodes
      modifies node`outLinks
      ensures Files() == old(Files()).(outs := old(Files()).outs[node := old(node.outLinks) + [link]])
    {
      node.outLinks := node.outLinks + [link];
    }

    method PushIn(node: Node, link: Link)
      requires node in nodes
      modifies node`inLinks
      ensures Files() == old(Files()).(ins := old(Files()).ins[node := old(node.inLinks) + [link]])
    {
      node.inLinks := node.inLinks + [link];
    }

    lemma LookNode(node: Node)
      requires node in nodes
      ensures node in Files().ins && node in Files().outs
      ensures Files().ins[node] == node.inLinks && Files().outs[node] == node.outLinks
    {
    }

    lemma EnteredFields(g: Graph<Node, Link>, link: Link, srcNode: Node, destNode: Node)
      requires NodeFields(g) && LinkFields(g.arcs) && link !in g.arcs && link.srcNode == srcNode
        && link.destNode == destNode
      ensures NodeFields(Relinked(g, link, srcNode, destNode)) && LinkFields(Relinked(g, link, srcNode, destNode).arcs)
      ensures Relinked(g, link, srcNode, destNode) ==
        g.(arcs := g.arcs[link := Arc(srcNode, destNode, link.weight, link.enabled)])
    {
      assert g.arcs - {link} == g.arcs;
    }

    /** Appends a link that is in no list to the two lists it belongs to. */
    method Enter(link: Link, srcNode: Node, destNode: Node, ghost g: Graph<Node, Link>)
      requires Mirrors(g) && link !in g.arcs && srcNode in nodes && destNode in nodes
      modifies link`srcNode, link`destNode, srcNode`outLinks, destNode`inLinks
      ensures Mirrors(Relinked(g, link, srcNode, destNode))
      ensures link.srcNode == srcNode && link.destNode == destNode
      ensures Files() == Appended(old(Files()), link, srcNode, destNode)
    {
      hide View, Incoming, Wired, Filed, Files, NodeFields, LinkFields, Relinked;
      LookNode(srcNode);
      LookNode(destNode);
      AppendedWired(g, Files(), link, Arc(srcNode, destNode, link.weight, link.enabled));
      link.srcNode := srcNode;
      link.destNode := destNode;
      EnteredFields(g, link, srcNode, destNode);
      PushOut(srcNode, link);
      PushIn(destNode, link);
    }

    /** Every in list has lost the links in gone, and every out list those in lost. */
    ghost predicate Losing(w: Wires<Node, Link>, gone: set<Link>, lost: set<Link>)
      reads this`nodes, nodes`inLinks, nodes`outLinks
    {
      w.ins.Keys == w.outs.Keys == (set n | n in nodes)
      && forall n :: n in nodes ==> n.inLinks == Kept(w.ins[n], gone) && n.outLinks == Kept(w.outs[n], lost)
    }

    method LoseIn(link: Link, dest: Node, ghost w: Wires<Node, Link>, ghost gone: set<Link>)
      requires Losing(w, gone, {}) && link.destNode == dest && dest in nodes && link !in gone && link in w.ins[dest]
      requires forall n :: n in nodes ==> Distinct(w.ins[n]) && (link in w.ins[n] ==> n == dest)
      modifies dest`inLinks
      ensures Losing(w, gone + {link}, {})
    {
      KeptErased(w.ins[dest], gone, link);
      forall n | n in nodes && n != dest
        ensures Kept(w.ins[n], gone + {link}) == Kept(w.ins[n], gone)
      {
        KeptSame(w.ins[n], gone, link);
      }
      UnlinkFromDestNode(link);
    }

    method LoseOut(link: Link, src: Node, ghost w: Wires<Node, Link>, ghost gone: set<Link>, ghost lost: set<Link>)
      requires Losing(w, gone, lost) && link.srcNode == src && src in nodes && link !in lost && link in w.outs[src]
      requires forall n :: n in nodes ==> Distinct(w.outs[n]) && (link in w.outs[n] ==> n == src)
      modifies src`outLinks
      ensures Losing(w, gone, lost + {link})
    {
      KeptErased(w.outs[src], lost, link);
      forall n | n in nodes && n != src
        ensures Kept(w.outs[n], lost + {link}) == Kept(w.outs[n], lost)
      {
        KeptSame(w.outs[n], lost, link);
      }
      UnlinkFromSourceNode(link);
    }

    lemma ErasedSorted(before: seq<Node>, node: Node)
      requires Distinct(before) && Sorted(before) && node in before
      ensures Distinct(Erased(before, node)) && Sorted(Erased(before, node))
      ensures forall n :: n in Erased(before, node) <==> n in before && n != node
    {
      var k := ErasedAt(before, node);
      var after := Erased(before, node);
      assert forall i :: 0 <= i < |after| ==> after[i] == before[if i < k then i else i + 1];
      ErasedKept(before, node);
    }

    ghost function Elements(s: seq<Link>): set<Link> {
      set l | l in s
    }

    lemma LookSides(g: Graph<Node, Link>)
      requires Mirrors(g)
      ensures forall l :: l in g.arcs ==> g.arcs[l].src in nodes && g.arcs[l].dest in nodes
      ensures forall l :: l in g.arcs ==> l in g.arcs[l].dest.inLinks && l in g.arcs[l].src.outLinks
      ensures forall n :: n in nodes ==> Distinct(n.inLinks) && Distinct(n.outLinks)
      ensures forall n, l :: n in nodes && l in n.inLinks ==> l in g.arcs && g.arcs[l].dest == n
      ensures forall n, l :: n in nodes && l in n.outLinks ==> l in g.arcs && g.arcs[l].src == n
    {
      WiredSound(g, Files());
      assert forall n :: n in nodes ==> Files().ins[n] == n.inLinks && Files().outs[n] == n.outLinks;
    }

    lemma LookFiles()
      ensures Losing(Files(), {}, {})
      ensures forall n :: n in nodes ==>
        n in Files().ins && n in Files().outs && Files().ins[n] == n.inLinks && Files().outs[n] == n.outLinks
    {
      forall n | n in nodes
        ensures Kept(n.inLinks, {}) == n.inLinks && Kept(n.outLinks, {}) == n.outLinks
      {
        KeptAll(n.inLinks, {});
        KeptAll(n.outLinks, {});
      }
    }

    /** Takes the links that leave node out of the in lists. */
    method SeverOut(node: Node, ghost g: Graph<Node, Link>)
      requires Mirrors(g) && node in nodes
      modifies nodes`inLinks
      ensures Losing(old(Files()), Elements(old(node.outLinks)), {})
    {
      hide Wired, Losing, Files;
      LookSides(g);
      LookFiles();
      ghost var w := Files();
      assert Elements(node.outLinks[..0]) == {};
      for i := 0 to |node.outLinks|
        invariant Losing(w, Elements(node.outLinks[..i]), {})
      {
        var link := node.outLinks[i];
        assert Elements(node.outLinks[..i + 1]) == Elements(node.outLinks[..i]) + {link};
        LoseIn(link, link.destNode, w, Elements(node.outLinks[..i]));
      }
      assert node.outLinks[..|node.outLinks|] == node.outLinks;
    }

    /** Takes the links that still enter node out of the out lists. */
    method SeverIn(node: Node, ghost g: Graph<Node, Link>, ghost w: Wires<Node, Link>, ghost gone: set<Link>)
      requires Wired(g, w) && LinkFields(g.arcs) && node in nodes && Losing(w, gone, {})
      modifies nodes`outLinks
      ensures Losing(w, gone, Elements(node.inLinks))
    {
      hide Wired, Losing, Files;
      LookLosing(g, w, gone, node);
      assert Elements(node.inLinks[..0]) == {};
      for i := 0 to |node.inLinks|
        invariant Losing(w, gone, Elements(node.inLinks[..i]))
      {
        var link := node.inLinks[i];
        assert Elements(node.inLinks[..i + 1]) == Elements(node.inLinks[..i]) + {link};
        LoseOut(link, link.srcNode, w, gone, Elements(node.inLinks[..i]));
      }
      assert node.inLinks[..|node.inLinks|] == node.inLinks;
    }

    lemma LookLosing(g: Graph<Node, Link>, w: Wires<Node, Link>, gone: set<Link>, node: Node)
      requires Wired(g, w) && node in nodes && Losing(w, gone, {})
      ensures Distinct(node.inLinks) && forall l :: l in node.inLinks <==> l in w.ins[node] && l !in gone
      ensures forall l :: l in node.inLinks ==> l in g.arcs && g.arcs[l].src in nodes && l in w.outs[g.arcs[l].src]
      ensures forall n :: n in nodes ==> n in w.outs && Distinct(w.outs[n])
      ensures forall n, l :: n in nodes && l in w.outs[n] ==> l in g.arcs && g.arcs[l].src == n
    {
      KeptDistinct(w.ins[node], gone);
      WiredSound(g, w);
    }

    lemma LosingAt(w: Wires<Node, Link>, gone: set<Link>, lost: set<Link>)
      requires Losing(w, gone, lost)
      ensures forall n :: n in nodes ==>
        n in w.ins && n in w.outs && n.inLinks == Kept(w.ins[n], gone) && n.outLinks == Kept(w.outs[n], lost)
    {
    }

    /** Takes the links at node out of the other nodes' lists. */
    method SeverBoth(node: Node, ghost g: Graph<Node, Link>) returns (ghost gone: set<Link>)
      requires Mirrors(g) && node in nodes
      modifies nodes`inLinks, nodes`outLinks
      ensures NodeFields(g) && LinkFields(g.arcs)
      ensures forall l :: l in gone <==> l in old(node.outLinks)
      ensures forall l :: l in node.inLinks <==> l in old(node.inLinks) && l !in gone
      ensures Losing(old(Files()), gone, Elements(node.inLinks))
    {
      hide Wired, Files, Kept, Losing;
      ghost var w := Files();
      LookFiles();
      SeverOut(node, g);
      gone := Elements(old(node.outLinks));
      LookLosing(g, w, gone, node);
      SeverIn(node, g, w, gone);
    }

    /** Takes the links at node out of the other nodes' lists, and empties its own. */
    method Sever(node: Node, ghost g: Graph<Node, Link>) returns (ghost gone: set<Link>, ghost lost: set<Link>)
      requires Mirrors(g) && node in nodes
      modifies nodes`inLinks, nodes`outLinks
      ensures forall l :: l in gone <==> l in old(node.outLinks)
      ensures forall l :: l in lost <==> l in old(node.inLinks) && l !in gone
      ensures node.outLinks == node.inLinks == [] && NodeFields(g) && LinkFields(g.arcs)
      ensures forall n :: n in nodes && n != node ==>
        n.inLinks == Kept(old(n.inLinks), gone) && n.outLinks == Kept(old(n.outLinks), lost)
    {
      hide Wired, Files, Kept, Losing, Mirrors, NodeFields, LinkFields;
      LookFiles();
      ghost var w := Files();
      gone := SeverBoth(node, g);
      lost := Elements(node.inLinks);
      LosingAt(w, gone, lost);
      node.outLinks := [];
      node.inLinks := [];
    }

    method RemoveNode(node: Node, ghost g: Graph<Node, Link>)
      requires NodeFields(g) && LinkFields(g.arcs) && Distinct(nodes) && node in nodes
      modifies this`nodes
      ensures nodes == Erased(old(nodes), node)
      ensures NodeFields(Cut(g, node)) && LinkFields(Cut(g, node).arcs)
    {
      ErasedKept(nodes, node);
      nodes := Erased(nodes, node);
    }

    /** Takes a node and the links at it out of the graph. */
    method DeleteNode(node: Node)
      requires Valid() && node in nodes
      modifies this`nodes, nodes`inLinks, nodes`outLinks
      ensures Valid() && nodes == Erased(old(nodes), node)
      ensures View() == Cut(old(View()), node)
    {
      hide View, Incoming, Wired, Filed, Sorted, Distinct, Files, Erased, Kept, Cut, LinkFields;
      LookValid();
      ghost var g := View();
      ghost var w := Files();
      LookFiles();
      ghost var gone, lost := Sever(node, g);
      RemoveNode(node, g);
      ErasedSorted(old(nodes), node);
      Rewired(g, w, node, gone, lost);
      ViewOnly(Cut(g, node));
    }

    lemma Rewired(g: Graph<Node, Link>, w: Wires<Node, Link>, node: Node, gone: set<Link>, lost: set<Link>)
      requires Wired(g, w) && node in g.weight && g.weight.Keys == (set n | n in nodes) + {node} && node !in nodes
      requires forall l :: l in gone <==> l in w.outs[node]
      requires forall l :: l in lost <==> l in w.ins[node] && l !in gone
      requires forall n :: n in nodes ==> n.inLinks == Kept(w.ins[n], gone) && n.outLinks == Kept(w.outs[n], lost)
      ensures Wired(Cut(g, node), Files())
    {
      hide Filed, Kept;
      var all := gone + lost;
      forall n | n in nodes
        ensures n.inLinks == Kept(w.ins[n], all) && n.outLinks == Kept(w.outs[n], all)
      {
        SeveredAlike(g, w, node, n, gone, lost);
      }
      assert Files() == Wires(Severed(w.ins, all, node), Severed(w.outs, all, node));
      SeveredWired(g, w, all, node);
    }

    /** Both searches begin by clearing the labels. */
    method Clear(node: Node)
      requires Valid() && node in nodes
      modifies this`target, nodes`dist, nodes`outPath
      ensures target == node
      ensures forall n :: n in nodes ==> n.dist == (if n == node then Fin(0.0) else Inf) && n.outPath == null
    {
      hide View, Sorted, Incoming, Dists, OutPaths, Distinct;
      target := node;
      for i := 0 to |nodes|
        modifies nodes`dist, nodes`outPath
        invariant forall k :: 0 <= k < i ==> nodes[k].dist == Inf && nodes[k].outPath == null
      {
        nodes[i].dist := Inf;
        nodes[i].outPath := null;
      }
      node.dist := Fin(0.0);
    }

    /** The nodes not taken yet. */
    ghost function Left(order: seq<Node>): set<Node>
      reads this`nodes
    {
      set n | n in nodes && n !in order
    }

    /** What the i-th incoming link of node v says about the graph. */
    lemma LookIn(g: Graph<Node, Link>, v: Node, i: nat)
      requires Mirrors(g) && v in nodes && i < |v.inLinks|
      ensures v in g.weight && v.weight == g.weight[v]
      ensures var l := v.inLinks[i];
        l in g.arcs && l.srcNode == g.arcs[l].src && g.arcs[l].dest == v && l.srcNode in nodes
        && l.weight == g.arcs[l].weight && l.enabled == g.arcs[l].enabled
            && (l.srcNode in g.off <==> !l.srcNode.enabled)
    {
      hide Filed, Wired;
      WiredSound(g, Files());
      assert v.inLinks[i] in Files().ins[v];
    }

    lemma LookIncoming(g: Graph<Node, Link>, v: Node)
      requires Mirrors(g) && v in nodes
      ensures forall l :: l in g.arcs && g.arcs[l].dest == v ==> l in v.inLinks
    {
      hide Filed, Wired;
      WiredSound(g, Files());
    }

    lemma LookCleared(g: Graph<Node, Link>, node: Node)
      requires node in nodes && Mirrors(g)
      requires forall n :: n in nodes ==> n.dist == (if n == node then Fin(0.0) else Inf) && n.outPath == null
      ensures node in g.weight
      ensures Dists() == Cleared(g, node).dist == Cleared(Unit(g), node).dist
      ensures OutPaths() == Cleared(g, node).out == Cleared(Unit(g), node).out
    {
    }

    /** The nodes' labels are the ones in the search state. */
    ghost predicate Shows(s: Search<Node, Link>)
      reads this`nodes, nodes`dist, nodes`outPath
    {
      Dists() == s.dist && OutPaths() == s.out
    }

    method Relabel(w: Node, d: Dist, link: Link)
      requires w in nodes
      modifies w`dist, w`outPath
      ensures w.dist == d && w.outPath == link
      ensures Dists() == old(Dists())[w := d] && OutPaths() == old(OutPaths())[w := Some(link)]
    {
      w.dist := d;
      w.outPath := link;
    }

    lemma LookTaken(order: seq<Node>, v: Node)
      requires v in Dists() && v !in order
      ensures v in nodes && Left(order + [v]) < Left(order)
    {
      assert v in Left(order) && v !in Left(order + [v]);
    }

    lemma LookDist(s: Search<Node, Link>, v: Node)
      requires Shows(s) && v in nodes
      ensures v in s.dist && s.dist[v] == v.dist
    {
    }

    /** The state both searches start in. */
    method Begin(node: Node) returns (q: seq<Node>)
      requires Valid() && node in nodes
      modifies this`target, nodes`dist, nodes`outPath
      ensures q == [node] && target == node && node in old(View()).weight
      ensures Mirrors(old(View())) && Shows(Cleared(old(View()), node)) && Shows(Cleared(Unit(old(View())), node))
    {
      hide View, Incoming, Sorted, Valid, Mirrors, Dists, OutPaths, Cleared;
      ghost var g := View();
      LookValid();
      assert Mirrors(g);
      Clear(node);
      assert Mirrors(g);
      LookCleared(g, node);
      q := [node];
    }

    lemma LookQueue(s: Search<Node, Link>, q: seq<Node>)
      requires Shows(s) && forall n :: n in q ==> n in s.dist
      ensures forall n :: n in q ==> n in nodes && n.dist == s.dist[n]
    {
    }

    /** The breadth-first search looks at the i-th incoming link of v. */
    method ScanUnweighted(v: Node, i: nat, q: seq<Node>, ghost node: Node, ghost plain: Graph<Node, Link>,
        ghost s: Search<Node, Link>)
      returns (q': seq<Node>, ghost s': Search<Node, Link>)
      requires Sound(plain) && Mirrors(plain) && v in nodes && i < |v.inLinks|
      requires q == s.queue && Shows(s) && Sound(Unit(plain)) && UnitScanning(Unit(plain), node, s, v, v.inLinks[i..])
      modifies nodes`dist, nodes`outPath
      ensures Mirrors(plain)
      ensures q' == s'.queue && Shows(s') && s'.order == s.order
      ensures UnitScanning(Unit(plain), node, s', v, v.inLinks[i + 1..])
    {
      hide Dists, OutPaths, Mirrors, UnitScanning;
      ghost var g := Unit(plain);
      q', s' := q, s;
      LookIn(plain, v, i);
      LookDist(s, v);
      UnitUnit(plain, node);
      assert v.inLinks[i..][1..] == v.inLinks[i + 1..];
      var link := v.inLinks[i];
      LookDist(s, link.srcNode);
      if !link.enabled {
        UnitSkip(g, node, s, v, v.inLinks[i..]);
        return;
      }
      var w := link.srcNode;
      if !w.enabled {
        UnitSkip(g, node, s, v, v.inLinks[i..]);
        return;
      }
      if w.dist == Inf {
        Discover(g, node, s, v, v.inLinks[i..]);
        s' := Improved(s, w, Plus(v.dist, Fin(1.0)), link, s.queue, |s.queue|);
        Relabel(w, Plus(v.dist, Fin(1.0)), link);
        q' := q + [w];
      } else {
        UnitSkip(g, node, s, v, v.inLinks[i..]);
      }
    }

    /** The breadth-first search looks at the incoming links of the node that was at the front of the queue. */
    method VisitUnweighted(v: Node, q: seq<Node>, ghost node: Node, ghost plain: Graph<Node, Link>,
        ghost s: Search<Node, Link>)
      returns (q': seq<Node>, ghost s': Search<Node, Link>)
      requires Sound(plain) && Mirrors(plain) && v in nodes
      requires q == s.queue && Shows(s) && Sound(Unit(plain)) && UnitScanning(Unit(plain), node, s, v, v.inLinks)
      modifies nodes`dist, nodes`outPath
      ensures Mirrors(plain)
      ensures q' == s'.queue && Shows(s') && s'.order == s.order
      ensures Searching(Unit(plain), node, s', []) && Spans(Unit(plain), s')
    {
      hide Dists, OutPaths, Mirrors, Shows, Listed, Pointed, RelaxedBut, Ahead, Spans;
      q', s' := q, s;
      assert v.inLinks[0..] == v.inLinks;
      for i := 0 to |v.inLinks|
        invariant Mirrors(plain)
        invariant q' == s'.queue && Shows(s') && s'.order == s.order
        invariant UnitScanning(Unit(plain), node, s', v, v.inLinks[i..])
      {
        q', s' := ScanUnweighted(v, i, q', node, plain, s');
      }
      assert v.inLinks[|v.inLinks|..] == [];
      AheadSpans(Unit(plain), s');
    }

    /** Breadth first, against the links, over links and nodes that are enabled. */
    method CalculateUnweightedSingleShortestPathsTo(node: Node) returns (ghost order: seq<Node>)
      requires Valid() && node in nodes
      modifies this`target, nodes`dist, nodes`outPath
      ensures target == node && Valid() && View() == old(View())
      ensures Labelled(Unit(old(View())), node, Dists(), OutPaths())
      ensures FiniteWhereReached(Unit(old(View())), node)
      ensures Dequeued(Unit(old(View())), node, order, Dists(), OutPaths())
    {
      hide View, Incoming, Dists, OutPaths, Sorted, Valid, Left, Listed, Pointed, RelaxedBut, Spans, Ahead, Dequeued,
        Labelled, FiniteWhereReached;
      hide Route, Total, Mirrors, Usable;
      ghost var plain := View();
      ghost var g := Unit(plain);
      UnitUnit(plain, node);
      LookValid();
      var q := Begin(node);
      ghost var s: Search<Node, Link> := Cleared(g, node);
      Start(g, node);
      while q != []
        modifies nodes`dist, nodes`outPath
        invariant Mirrors(plain)
        invariant q == s.queue && Shows(s)
        invariant Searching(g, node, s, []) && Spans(g, s)
        decreases Left(s.order)
      {
        var v := q[0];
        q := q[1..];
        TakenSame(g, s);
        LookTaken(s.order, v);
        LookIncoming(plain, v);
        Take(g, node, s, v.inLinks);
        TakenAhead(g, s);
        q, s := VisitUnweighted(v, q, node, plain, Taken(s));
      }
      Finish(g, node, s);
      DistsFinite(g, node);
      ViewStill(plain);
      order := s.order;
    }

    /** The place of the first node that is farther than d. */
    method FindPlace(q: seq<Node>, d: Dist) returns (k: nat)
      ensures k <= |q| && (forall i :: 0 <= i < k ==> AtMost(q[i].dist, d)) && (k < |q| ==> Less(d, q[k].dist))
    {
      k := 0;
      while k < |q| && !Less(d, q[k].dist)
        invariant k <= |q| && forall i :: 0 <= i < k ==> AtMost(q[i].dist, d)
      {
        k := k + 1;
      }
    }

    /** The weighted search looks at the i-th incoming link of dest. */
    method ScanWeighted(dest: Node, i: nat, q: seq<Node>, ghost g: Graph<Node, Link>, ghost s: Search<Node, Link>)
      returns (q': seq<Node>, ghost s': Search<Node, Link>)
      requires target != null && Sound(g) && Priced(g, target) && Mirrors(g) && dest in nodes && i < |dest.inLinks|
      requires q == s.queue && Shows(s) && Scanning(g, target, s, dest, dest.inLinks[i..])
      modifies nodes`dist, nodes`outPath
      ensures Mirrors(g)
      ensures q' == s'.queue && Shows(s') && s'.order == s.order
      ensures Scanning(g, target, s', dest, dest.inLinks[i + 1..])
    {
      hide Dists, OutPaths, Mirrors, Listed, Pointed, RelaxedBut, Priced, Removed, Without, Route;
      q', s' := q, s;
      LookIn(g, dest, i);
      LookDist(s, dest);
      assert dest.inLinks[i..][1..] == dest.inLinks[i + 1..];
      var link := dest.inLinks[i];
      LookDist(s, link.srcNode);
      if !link.enabled {
        Skip(g, target, s, dest, dest.inLinks[i..]);
        return;
      }
      var src: Node := link.srcNode;
      if !src.enabled {
        Skip(g, target, s, dest, dest.inLinks[i..]);
        return;
      }
      ScannedCost(g, target, s, dest, dest.inLinks[i..], link);
      var newdist := Plus(dest.dist, link.weight);
      if dest != target {
        newdist := Plus(newdist, dest.weight);
      }
      assert newdist == Plus(s.dist[dest], Cost(g, target, link));
      if newdist != Inf && Less(newdist, src.dist) {
        Remove(g, s, src);
        if src.dist != Inf {
          q' := Without(q', src);
        }
        LookQueue(s, q');
        Relabel(src, newdist, link);
        var k := FindPlace(q', newdist);
        Improve(g, target, s, dest, dest.inLinks[i..], q', k);
        s' := Improved(s, src, newdist, link, q', k);
        q' := Inserted(q', k, src);
      } else {
        Skip(g, target, s, dest, dest.inLinks[i..]);
      }
    }

    /** The weighted search looks at the incoming links of the node that was at the front of the queue. */
    method VisitWeighted(dest: Node, q: seq<Node>, ghost g: Graph<Node, Link>, ghost s: Search<Node, Link>)
      returns (q': seq<Node>, ghost s': Search<Node, Link>)
      requires target != null && Sound(g) && Priced(g, target) && Mirrors(g) && dest in nodes
      requires q == s.queue && Shows(s) && Scanning(g, target, s, dest, dest.inLinks)
      modifies nodes`dist, nodes`outPath
      ensures Mirrors(g)
      ensures q' == s'.queue && Shows(s') && s'.order == s.order
      ensures Searching(g, target, s', [])
    {
      hide Dists, OutPaths, Mirrors, Shows, Listed, Pointed, RelaxedBut, Priced;
      q', s' := q, s;
      assert dest.inLinks[0..] == dest.inLinks;
      for i := 0 to |dest.inLinks|
        invariant Mirrors(g)
        invariant q' == s'.queue && Shows(s') && s'.order == s.order
        invariant Scanning(g, target, s', dest, dest.inLinks[i..])
      {
        q', s' := ScanWeighted(dest, i, q', g, s');
      }
      assert dest.inLinks[|dest.inLinks|..] == [];
    }

    /** Nearest node first, against the links, over links and nodes that are enabled. */
    method CalculateWeightedSingleShortestPathsTo(node: Node) returns (ghost order: seq<Node>)
      requires Valid() && node in nodes && Priced(View(), node)
      modifies this`target, nodes`dist, nodes`outPath
      ensures target == node && Valid() && View() == old(View())
      ensures Labelled(old(View()), node, Dists(), OutPaths()) && FiniteWhereReached(old(View()), node)
      ensures Dequeued(old(View()), node, order, Dists(), OutPaths())
    {
      hide View, Incoming, Dists, OutPaths, Sorted, Valid, Left, Listed, Pointed, RelaxedBut, Dequeued, Labelled;
      hide FiniteWhereReached;
      hide Route, Total, Mirrors, Priced, Usable;
      ghost var g := View();
      LookValid();
      var q := Begin(node);
      ghost var s: Search<Node, Link> := Cleared(g, node);
      Start(g, node);
      while q != []
        modifies nodes`dist, nodes`outPath
        invariant Mirrors(g)
        invariant q == s.queue && Shows(s)
        invariant Searching(g, node, s, [])
        decreases Left(s.order)
      {
        var dest := q[0];
        q := q[1..];
        TakenSame(g, s);
        LookTaken(s.order, dest);
        LookIncoming(g, dest);
        Take(g, node, s, dest.inLinks);
        q, s := VisitWeighted(dest, q, g, Taken(s));
      }
      Finish(g, node, s);
      DistsFinite(g, node);
      ViewStill(g);
      order := s.order;
    }
  }
}
