/** How dispatchers are connected, and what it means that the connections form no cycle. */
module DispatchNetworks {
  import opened Lists

  /** The number of gates of each dispatcher, and which gates of dispatchers are connected; other gates lead to other
      modules or nowhere. */
  datatype Net<N> = Net(gates: map<N, nat>, peer: map<(N, nat), (N, nat)>)

  /** Connections join gates that exist, and go both ways. */
  ghost predicate Wired<N>(net: Net<N>) {
    forall g :: g in net.peer ==>
      && g.0 in net.gates && g.1 < net.gates[g.0]
      && net.peer[g] in net.peer && net.peer[net.peer[g]] == g
  }

  /** Gates that are gone out through one after the other, never straight back through the gate of arrival. */
  ghost predicate Walk<N>(net: Net<N>, older w: seq<(N, nat)>) {
    && (forall i :: 0 <= i < |w| ==> w[i] in net.peer)
    && (forall i :: 0 < i < |w| ==> net.peer[w[i - 1]].0 == w[i].0 && net.peer[w[i - 1]].1 != w[i].1)
  }

  /** The walk leaves dispatcher d through gate i and ends at dispatcher x. */
  ghost predicate Leads<N>(net: Net<N>, d: N, i: nat, x: N, older w: seq<(N, nat)>) {
    Walk(net, w) && w != [] && w[0] == (d, i) && net.peer[w[|w| - 1]].0 == x
  }

  /** No walk comes back to where it began. */
  ghost predicate Acyclic<N>(net: Net<N>) {
    forall w: seq<(N, nat)> :: Walk(net, w) && w != [] ==> net.peer[w[|w| - 1]].0 != w[0].0
  }

  ghost predicate Behind<N>(net: Net<N>, d: N, i: nat, x: N) {
    exists w: seq<(N, nat)> :: Leads(net, d, i, x, w)
  }

  ghost predicate Beyond<N>(net: Net<N>, d: N, x: N) {
    exists k: nat :: Behind(net, d, k, x)
  }

  /** The dispatcher and those that can be walked to from it, but not through gate j. */
  ghost function Side<N>(net: Net<N>, d: N, j: nat): set<N>
    requires d in net.gates
  {
    set x | x in net.gates && (x == d || exists k: nat :: k < net.gates[d] && k != j && Behind(net, d, k, x))
  }

  /** The walk back. */
  ghost function Back<N>(net: Net<N>, w: seq<(N, nat)>): seq<(N, nat)>
    requires Walk(net, w)
  {
    seq(|w|, i requires 0 <= i < |w| => net.peer[w[|w| - 1 - i]])
  }

  lemma BackWalks<N>(net: Net<N>, w: seq<(N, nat)>)
    requires Wired(net) && Walk(net, w)
    ensures Walk(net, Back(net, w))
    ensures w != [] ==> net.peer[Back(net, w)[|w| - 1]] == w[0] && Back(net, w)[0] == net.peer[w[|w| - 1]]
  {
  }

  lemma Joined<N>(net: Net<N>, v: seq<(N, nat)>, w: seq<(N, nat)>)
    requires Walk(net, v) && Walk(net, w) && v != [] && w != []
    requires net.peer[v[|v| - 1]].0 == w[0].0 && net.peer[v[|v| - 1]].1 != w[0].1
    ensures Walk(net, v + w)
  {
  }

  /** Walks that leave by different gates do not meet. */
  lemma {:induction false} Apart<N>(net: Net<N>, d: N, i: nat, j: nat, x: N, v: seq<(N, nat)>, w: seq<(N, nat)>)
    requires Wired(net) && Acyclic(net) && i != j && Leads(net, d, i, x, v)
    ensures !Leads(net, d, j, x, w)
    decreases |v| + |w|
  {
    if Leads(net, d, j, x, w) {
      var a, b := v[|v| - 1], w[|w| - 1];
      if a != b {
        Round(net, v, w);
      } else if |v| == 1 {
        Shorter(net, w);
      } else if |w| == 1 {
        Shorter(net, v);
      } else {
        Shorter(net, v);
        Shorter(net, w);
        Apart(net, d, i, j, a.0, v[..|v| - 1], w[..|w| - 1]);
      }
    }
  }

  lemma Shorter<N>(net: Net<N>, w: seq<(N, nat)>)
    requires Walk(net, w) && |w| > 1
    ensures Walk(net, w[..|w| - 1]) && net.peer[w[..|w| - 1][|w| - 2]].0 == w[|w| - 1].0
  {
  }

  /** Out by one walk and back by the other: a round, if they arrive by different gates. */
  lemma Round<N>(net: Net<N>, v: seq<(N, nat)>, w: seq<(N, nat)>)
    requires Wired(net) && Walk(net, v) && Walk(net, w) && v != [] && w != [] && v[0].0 == w[0].0
    requires net.peer[v[|v| - 1]].0 == net.peer[w[|w| - 1]].0 && v[|v| - 1] != w[|w| - 1]
    ensures !Acyclic(net)
  {
    assert net.peer[v[|v| - 1]] != net.peer[w[|w| - 1]];
    BackWalks(net, w);
    Joined(net, v, Back(net, w));
    var round := v + Back(net, w);
    assert round[|round| - 1] == Back(net, w)[|w| - 1] && round[0] == v[0];
  }

  /** Behind a gate is the dispatcher it is connected to and what is behind that one's other gates. */
  lemma BehindPeer<N>(net: Net<N>, d: N, i: nat, x: N)
    requires Wired(net)
    ensures Behind(net, d, i, x) <==> (d, i) in net.peer && x in Side(net, net.peer[(d, i)].0, net.peer[(d, i)].1)
  {
    if Behind(net, d, i, x) {
      var w: seq<(N, nat)> :| Leads(net, d, i, x, w);
      var e := net.peer[(d, i)];
      if |w| > 1 {
        assert Leads(net, e.0, w[1].1, x, w[1..]);
        assert w[1] in net.peer;
        assert Behind(net, e.0, w[1].1, x);
      }
      assert w[|w| - 1] in net.peer && net.peer[w[|w| - 1]] in net.peer;
    }
    if (d, i) in net.peer && x in Side(net, net.peer[(d, i)].0, net.peer[(d, i)].1) {
      var e := net.peer[(d, i)];
      var first := [(d, i)];
      if x == e.0 {
        assert Leads(net, d, i, x, first);
      } else {
        var k: nat :| k < net.gates[e.0] && k != e.1 && Behind(net, e.0, k, x);
        var w: seq<(N, nat)> :| Leads(net, e.0, k, x, w);
        Joined(net, first, w);
        assert Leads(net, d, i, x, first + w);
      }
    }
  }

  /** What is behind two gates of a dispatcher is apart, and the dispatcher is behind neither. */
  lemma BehindApart<N>(net: Net<N>, d: N, i: nat, j: nat, x: N)
    requires Wired(net) && Acyclic(net) && Behind(net, d, i, x)
    ensures x != d && (i != j ==> !Behind(net, d, j, x))
  {
    var v: seq<(N, nat)> :| Leads(net, d, i, x, v);
    assert v[0].0 == d;
    if i != j && Behind(net, d, j, x) {
      var w: seq<(N, nat)> :| Leads(net, d, j, x, w);
      Apart(net, d, i, j, x, v, w);
    }
  }

  /** Behind the gates other than j everything is within the side, and less than it. */
  lemma SideSmaller<N>(net: Net<N>, d: N, j: nat, k: nat)
    requires Wired(net) && Acyclic(net) && d in net.gates && k < net.gates[d] && k != j && (d, k) in net.peer
    ensures net.peer[(d, k)].0 in net.gates && net.peer[(d, k)].1 < net.gates[net.peer[(d, k)].0]
    ensures Side(net, net.peer[(d, k)].0, net.peer[(d, k)].1) < Side(net, d, j)
    ensures d !in Side(net, net.peer[(d, k)].0, net.peer[(d, k)].1)
  {
    var e := net.peer[(d, k)];
    assert e in net.peer;
    forall x | x in Side(net, e.0, e.1)
      ensures x in Side(net, d, j) && x != d
    {
      BehindPeer(net, d, k, x);
      BehindApart(net, d, k, k, x);
    }
    assert d in Side(net, d, j);
  }

  /** Links that can be gone over one after the other, straight back if need be. */
  ghost predicate Path<N>(net: Net<N>, older w: seq<(N, nat)>) {
    && (forall i :: 0 <= i < |w| ==> w[i] in net.peer)
    && (forall i :: 0 < i < |w| ==> net.peer[w[i - 1]].0 == w[i].0)
  }

  /** Whatever is connected to d in any way can be walked to from d. */
  lemma {:induction false} ConnectedWalks<N>(net: Net<N>, d: N, w: seq<(N, nat)>)
    requires Wired(net) && Path(net, w) && w != [] && w[0].0 == d
    ensures net.peer[w[|w| - 1]].0 == d || Beyond(net, d, net.peer[w[|w| - 1]].0)
    decreases |w|
  {
    var g := w[|w| - 1];
    var x := net.peer[g].0;
    if |w| == 1 {
      assert Leads(net, d, g.1, x, w);
      assert Behind(net, d, g.1, x);
    } else {
      ConnectedWalks(net, d, w[..|w| - 1]);
      if g.0 == d {
        assert Leads(net, d, g.1, x, [g]);
        assert Behind(net, d, g.1, x);
      } else {
        var k: nat :| Behind(net, d, k, g.0);
        var v: seq<(N, nat)> :| Leads(net, d, k, g.0, v);
        if net.peer[v[|v| - 1]].1 != g.1 {
          Joined(net, v, [g]);
          assert Leads(net, d, k, x, v + [g]);
          assert Behind(net, d, k, x);
        } else {
          assert net.peer[v[|v| - 1]] == g && x == v[|v| - 1].0;
          if |v| > 1 {
            Shorter(net, v);
            assert Leads(net, d, k, x, v[..|v| - 1]);
            assert Behind(net, d, k, x);
          }
        }
      }
    }
  }

  /** If the gate is not connected to a dispatcher, every dispatcher that is connected at all is on the other side. */
  lemma WholeComponent<N>(net: Net<N>, d: N, j: nat, x: N, w: seq<(N, nat)>)
    requires Wired(net) && d in net.gates && (d, j) !in net.peer
    requires Path(net, w) && w != [] && w[0].0 == d && net.peer[w[|w| - 1]].0 == x
    ensures x in Side(net, d, j)
  {
    ConnectedWalks(net, d, w);
    assert net.peer[w[|w| - 1]] in net.peer;
    if x != d {
      var k: nat :| Behind(net, d, k, x);
      BehindPeer(net, d, k, x);
    }
  }

  /** Each dispatcher on the side has chosen the gate by which the walk from d arrives at it; d itself has chosen j. */
  ghost predicate Recorded<N>(net: Net<N>, d: N, j: nat, choice: map<N, nat>)
    requires d in net.gates
  {
    && Side(net, d, j) <= choice.Keys && choice[d] == j
    && (forall k: nat, x, w: seq<(N, nat)> :: x in choice && k != j && Leads(net, d, k, x, w) ==>
        choice[x] == net.peer[w[|w| - 1]].1)
  }

  /** Going from x through the gates chosen, one comes to d in so many hops. */
  ghost predicate Arrives<N>(net: Net<N>, choice: map<N, nat>, x: N, d: N, hops: nat) {
    if hops == 0 then x == d
    else x in choice && (x, choice[x]) in net.peer && Arrives(net, choice, net.peer[(x, choice[x])].0, d, hops - 1)
  }

  /** The chosen gates lead back along the walk. */
  lemma {:induction false} LeadBack<N>(net: Net<N>, d: N, j: nat, choice: map<N, nat>, k: nat, x: N, w: seq<(N, nat)>)
    requires Wired(net) && d in net.gates && Recorded(net, d, j, choice) && k != j && Leads(net, d, k, x, w)
    ensures x in choice && Arrives(net, choice, x, d, |w|)
    decreases |w|
  {
    var last := w[|w| - 1];
    assert w[0] in net.peer && last in net.peer && net.peer[last] in net.peer;
    assert Behind(net, d, k, x);
    assert x in Side(net, d, j);
    assert choice[x] == net.peer[last].1;
    assert net.peer[(x, choice[x])] == last;
    if |w| == 1 {
      assert Arrives(net, choice, d, d, 0);
    } else {
      Shorter(net, w);
      LeadBack(net, d, j, choice, k, last.0, w[..|w| - 1]);
    }
  }

  /** From anywhere on the side the chosen gates lead to d, and so out through j. */
  lemma RecordedArrives<N>(net: Net<N>, d: N, j: nat, choice: map<N, nat>, x: N)
    requires Wired(net) && d in net.gates && Recorded(net, d, j, choice) && x in Side(net, d, j)
    ensures exists hops: nat :: Arrives(net, choice, x, d, hops)
  {
    if x == d {
      assert Arrives(net, choice, d, d, 0);
    } else {
      var k: nat :| k < net.gates[d] && k != j && Behind(net, d, k, x);
      var w: seq<(N, nat)> :| Leads(net, d, k, x, w);
      LeadBack(net, d, j, choice, k, x, w);
    }
  }

  /** The dispatcher and those behind its gates below i, but for j. */
  ghost function Done<N>(net: Net<N>, d: N, j: nat, i: nat): set<N>
    requires d in net.gates
  {
    set x | x in net.gates && (x == d || exists k: nat :: k < i && k != j && Behind(net, d, k, x))
  }

  lemma DoneNext<N>(net: Net<N>, d: N, j: nat, i: nat)
    requires Wired(net) && Acyclic(net) && d in net.gates && i < net.gates[d]
    ensures Done(net, d, j, 0) == {d} && Done(net, d, j, net.gates[d]) == Side(net, d, j)
    ensures i == j || (d, i) !in net.peer ==> Done(net, d, j, i + 1) == Done(net, d, j, i)
    ensures i != j && (d, i) in net.peer ==>
      var e := net.peer[(d, i)];
      e.0 in net.gates && Done(net, d, j, i + 1) == Done(net, d, j, i) + Side(net, e.0, e.1)
        && Done(net, d, j, i) !! Side(net, e.0, e.1)
  {
    forall x | x in net.gates
      ensures x in Done(net, d, j, i + 1) <==> x in Done(net, d, j, i) || (i != j && Behind(net, d, i, x))
    {
    }
    forall x
      ensures Behind(net, d, i, x) <==> (d, i) in net.peer && x in Side(net, net.peer[(d, i)].0, net.peer[(d, i)].1)
    {
      BehindPeer(net, d, i, x);
    }
    if (d, i) in net.peer {
      assert net.peer[(d, i)] in net.peer;
      forall x | x in Done(net, d, j, i)
        ensures !Behind(net, d, i, x)
      {
        if Behind(net, d, i, x) {
          BehindApart(net, d, i, i, x);
          var k: nat :| k < i && k != j && Behind(net, d, k, x);
          BehindApart(net, d, i, k, x);
        }
      }
    }
  }

  /** What the dispatchers behind gate i recorded joins what was recorded before. */
  ghost predicate Arrived<N>(net: Net<N>, d: N, j: nat, i: nat, choice: map<N, nat>) {
    forall k: nat, x, w: seq<(N, nat)> :: x in choice && k < i && k != j && Leads(net, d, k, x, w) ==>
      choice[x] == net.peer[w[|w| - 1]].1
  }

  /** Behind the gate that is being done, what the dispatcher there recorded is the gate of arrival from d as well. */
  lemma ArrivedBehind<N>(net: Net<N>, d: N, i: nat, more: map<N, nat>, x: N, w: seq<(N, nat)>)
    requires Wired(net) && (d, i) in net.peer && net.peer[(d, i)].0 in net.gates && x in more
    requires Recorded(net, net.peer[(d, i)].0, net.peer[(d, i)].1, more) && Leads(net, d, i, x, w)
    ensures more[x] == net.peer[w[|w| - 1]].1
  {
    if |w| > 1 {
      assert Leads(net, net.peer[(d, i)].0, w[1].1, x, w[1..]);
    }
  }

  lemma ArrivedNext<N>(net: Net<N>, d: N, j: nat, i: nat, choice: map<N, nat>, more: map<N, nat>)
    requires Wired(net) && Acyclic(net) && d in net.gates && i < net.gates[d] && i != j && (d, i) in net.peer
    requires choice.Keys == Done(net, d, j, i) && Arrived(net, d, j, i, choice)
    requires net.peer[(d, i)].0 in net.gates && more.Keys == Side(net, net.peer[(d, i)].0, net.peer[(d, i)].1)
    requires Recorded(net, net.peer[(d, i)].0, net.peer[(d, i)].1, more)
    ensures Arrived(net, d, j, i + 1, choice + more)
  {
    hide Done, Side, Recorded, Wired, Acyclic;
    forall k: nat, x, w: seq<(N, nat)> | x in choice + more && k < i + 1 && k != j && Leads(net, d, k, x, w)
      ensures (choice + more)[x] == net.peer[w[|w| - 1]].1
    {
      assert Behind(net, d, k, x);
      BehindPeer(net, d, i, x);
      if k == i {
        ArrivedBehind(net, d, i, more, x, w);
      } else {
        BehindApart(net, d, k, i, x);
      }
    }
  }

  lemma ArrivedNone<N>(net: Net<N>, d: N, j: nat)
    requires Wired(net) && d in net.gates
    ensures d in Side(net, d, j) && Done(net, d, j, 0) == {d} && Arrived(net, d, j, 0, map[d := j])
  {
  }

  lemma ArrivedAll<N>(net: Net<N>, d: N, j: nat, choice: map<N, nat>)
    requires Wired(net) && d in net.gates && choice.Keys == Done(net, d, j, net.gates[d])
    requires Arrived(net, d, j, net.gates[d], choice) && d in choice && choice[d] == j
    ensures Done(net, d, j, net.gates[d]) == Side(net, d, j) && Recorded(net, d, j, choice)
  {
    forall k: nat, x, w: seq<(N, nat)> | x in choice && k != j && Leads(net, d, k, x, w)
      ensures choice[x] == net.peer[w[|w| - 1]].1
    {
      assert w[0] in net.peer;
    }
  }

  lemma DoneWithin<N>(net: Net<N>, d: N, j: nat, i: nat)
    requires d in net.gates && i <= net.gates[d]
    ensures d in Done(net, d, j, i) && Done(net, d, j, i) <= Side(net, d, j) <= net.gates.Keys
  {
  }

  lemma ArrivedSkip<N>(net: Net<N>, d: N, j: nat, i: nat, choice: map<N, nat>)
    requires Arrived(net, d, j, i, choice) && (i == j || (d, i) !in net.peer)
    ensures Arrived(net, d, j, i + 1, choice)
  {
  }

  lemma DistinctJoin<T>(a: seq<T>, b: seq<T>)
    requires Distinct(a) && Distinct(b) && forall x :: x in a ==> x !in b
    ensures Distinct(a + b)
  {
    forall i, j | 0 <= i < j < |a + b|
      ensures (a + b)[i] != (a + b)[j]
    {
      if i < |a| <= j {
        assert (a + b)[i] in a && (a + b)[j] in b;
      }
    }
  }

  /** More choices do not change where the present ones lead. */
  lemma {:induction false} ArrivesMore<N>(net: Net<N>, choice: map<N, nat>, more: map<N, nat>, x: N, d: N, hops: nat)
    requires Arrives(net, choice, x, d, hops)
    requires forall y :: y in choice ==> y in more && more[y] == choice[y]
    ensures Arrives(net, more, x, d, hops)
    decreases hops
  {
    if hops > 0 {
      ArrivesMore(net, choice, more, net.peer[(x, choice[x])].0, d, hops - 1);
    }
  }

  /** From every dispatcher that has chosen a gate, the chosen gates lead to d0, which has chosen g0. */
  ghost predicate Homeward<N>(net: Net<N>, choice: map<N, nat>, d0: N, g0: nat) {
    forall x :: x in choice ==> d0 in choice && choice[d0] == g0 && Homes(net, choice, x, d0)
  }

  ghost predicate Homes<N>(net: Net<N>, choice: map<N, nat>, x: N, d0: N) {
    exists hops: nat :: Arrives(net, choice, x, d0, hops)
  }

  /** A dispatcher may choose a gate that is connected to one that has chosen; the first to choose is d0. */
  lemma HomewardMore<N>(net: Net<N>, choice: map<N, nat>, d0: N, g0: nat, x: N, g: nat)
    requires Homeward(net, choice, d0, g0) && x !in choice
    requires (x, g) == (d0, g0) || ((x, g) in net.peer && net.peer[(x, g)].0 in choice)
    ensures Homeward(net, choice[x := g], d0, g0)
  {
    var more := choice[x := g];
    forall y | y in more
      ensures d0 in more && more[d0] == g0 && Homes(net, more, y, d0)
    {
      if y in choice {
        var hops: nat :| Arrives(net, choice, y, d0, hops);
        ArrivesMore(net, choice, more, y, d0, hops);
      } else if (x, g) == (d0, g0) {
        assert Arrives(net, more, d0, d0, 0);
      } else {
        var next := net.peer[(x, g)].0;
        var hops: nat :| Arrives(net, choice, next, d0, hops);
        ArrivesMore(net, choice, more, next, d0, hops);
        assert Arrives(net, more, x, d0, hops + 1);
      }
    }
  }

  /** Where the chosen gates leave the network, there is only one number of hops. */
  lemma {:induction false} ArrivesOnce<N>(net: Net<N>, choice: map<N, nat>, x: N, d: N, a: nat, b: nat)
    requires Arrives(net, choice, x, d, a) && Arrives(net, choice, x, d, b)
    requires d in choice ==> (d, choice[d]) !in net.peer
    ensures a == b
    decreases a
  {
    if a > 0 && b > 0 {
      ArrivesOnce(net, choice, net.peer[(x, choice[x])].0, d, a - 1, b - 1);
    }
  }

  /** The dispatchers are visited one after the other by going out through the chosen gates. */
  ghost predicate Follows<N>(net: Net<N>, choice: map<N, nat>, path: seq<N>) {
    |path| <= 1
    || (path[0] in choice && (path[0], choice[path[0]]) in net.peer && path[1] == net.peer[(path[0], choice[path[0]])].0
        && Follows(net, choice, path[1..]))
  }

  lemma {:induction false} FollowsMore<N>(net: Net<N>, choice: map<N, nat>, path: seq<N>)
    requires path != [] && Follows(net, choice, path)
    requires var x := path[|path| - 1]; x in choice && (x, choice[x]) in net.peer
    ensures var x := path[|path| - 1]; Follows(net, choice, path + [net.peer[(x, choice[x])].0])
    decreases |path|
  {
    var next := net.peer[(path[|path| - 1], choice[path[|path| - 1]])].0;
    if |path| == 1 {
      assert (path + [next])[1..] == [next];
    } else {
      FollowsMore(net, choice, path[1..]);
      assert (path + [next])[1..] == path[1..] + [next];
    }
  }

  /** Each dispatcher after the first was come to through the gate named, which is connected to the one before. */
  ghost predicate Trail<N>(net: Net<N>, path: seq<(N, nat)>) {
    |path| <= 1
    || (path[|path| - 1] in net.peer && net.peer[path[|path| - 1]].0 == path[|path| - 2].0
        && Trail(net, path[..|path| - 1]))
  }

  /** The gates of a trail, as choices of its dispatchers. */
  ghost function Recordings<N>(path: seq<(N, nat)>): map<N, nat> {
    if path == [] then map[]
    else Recordings(path[..|path| - 1])[path[|path| - 1].0 := path[|path| - 1].1]
  }

  /** The dispatchers of a trail, from its end. */
  ghost function Backward<N>(path: seq<(N, nat)>): seq<N> {
    if path == [] then [] else [path[|path| - 1].0] + Backward(path[..|path| - 1])
  }

  ghost predicate OnceEach<N>(path: seq<(N, nat)>) {
    forall i, j :: 0 <= i < j < |path| ==> path[i].0 != path[j].0
  }

  lemma {:induction false} RecordingsAt<N>(path: seq<(N, nat)>, i: nat)
    requires OnceEach(path) && i < |path|
    ensures path[i].0 in Recordings(path) && Recordings(path)[path[i].0] == path[i].1
    decreases |path|
  {
    if i < |path| - 1 {
      RecordingsAt(path[..|path| - 1], i);
    }
  }

  /** Who follows the recorded gates from the end of a trail goes back over it. */
  lemma {:induction false} Retraced<N>(net: Net<N>, path: seq<(N, nat)>, n: nat, reply: seq<N>)
    requires 0 < n <= |path| && Trail(net, path[..n]) && path[0] !in net.peer
    requires reply != [] && reply[0] == path[n - 1].0 && Follows(net, Recordings(path), reply)
    requires reply[|reply| - 1] == path[0].0 && OnceEach(path)
    ensures reply == Backward(path[..n])
    decreases n
  {
    RecordingsAt(path, n - 1);
    if n == 1 {
      assert path[..1][..0] == [];
      assert |reply| == 1;
    } else {
      assert path[..n][..n - 1] == path[..n - 1];
      assert path[..n][n - 1] == path[n - 1] && path[..n][n - 2] == path[n - 2];
      assert path[n - 1].0 != path[0].0;
      Retraced(net, path, n - 1, reply[1..]);
    }
  }
}
