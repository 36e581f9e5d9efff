/** Dispatchers pass registrations on to each other, and packets and messages along what was registered. */
module MessageDispatchers {
  import opened DispatchNetworks
  import opened Lists
  import opened Options

  /** What can be registered; the original keeps a map for each kind. */
  datatype Key = Service(protocolId: int, servicePrimitive: int) | Protocol(protocolId: int, servicePrimitive: int)
      | Interface(id: int)

  class MessageDispatcher {
    var gateIndex: map<Key, nat>
    var socketIdToGateIndex: map<int, nat>

    constructor ()
      ensures gateIndex == map[] && socketIdToGateIndex == map[]
    {
      gateIndex, socketIdToGateIndex := map[], map[];
    }
  }

  type Network = Net<MessageDispatcher>

  /** Registers the key at gate j of the dispatcher and passes it on through all its other gates. */
  method HandleRegister(net: Network, d: MessageDispatcher, j: nat, key: Key)
    returns (ok: bool, ghost choice: map<MessageDispatcher, nat>, ghost order: seq<MessageDispatcher>)
    requires Wired(net) && Acyclic(net) && d in net.gates && j < net.gates[d]
    modifies Side(net, d, j)`gateIndex
    ensures ok <==> forall x :: x in Side(net, d, j) ==> key !in old(x.gateIndex)
    ensures ok ==> choice.Keys == Side(net, d, j) && Recorded(net, d, j, choice)
    ensures ok ==> forall x :: x in Side(net, d, j) ==> x.gateIndex == old(x.gateIndex)[key := choice[x]]
    ensures ok ==> Distinct(order) && forall x :: x in order <==> x in Side(net, d, j)
    decreases Side(net, d, j)
  {
    hide Side, Recorded, Wired, Acyclic, Arrived, Done, Distinct;
    ArrivedNone(net, d, j);
    choice, order := map[d := j], [d];
    DistinctOne(d);
    if key in d.gateIndex {
      return false, choice, order;
    }
    d.gateIndex := d.gateIndex[key := j];
    ok := true;
    ghost var was: map<MessageDispatcher, map<Key, nat>> := map x | x in Side(net, d, j) :: old(x.gateIndex);
    for i := 0 to net.gates[d]
      invariant choice.Keys == Done(net, d, j, i) <= Side(net, d, j) && Arrived(net, d, j, i, choice)
      invariant d in choice && choice[d] == j
      invariant forall x :: x in Done(net, d, j, i) ==> key !in was[x] && x.gateIndex == was[x][key := choice[x]]
      invariant forall x :: x in Side(net, d, j) - Done(net, d, j, i) ==> x.gateIndex == was[x]
      invariant Distinct(order) && forall x :: x in order <==> x in Done(net, d, j, i)
    {
      DoneNext(net, d, j, i);
      DoneWithin(net, d, j, i);
      DoneWithin(net, d, j, i + 1);
      if i != j && (d, i as nat) in net.peer {
        var e := net.peer[(d, i as nat)];
        SideSmaller(net, d, j, i);
        ghost var beyond, rest := Side(net, e.0, e.1), Side(net, d, j) - Done(net, d, j, i + 1);
        assert beyond !! rest && forall x :: x in rest ==> x in Side(net, d, j) - Done(net, d, j, i);
        var done, more, next := HandleRegister(net, e.0, e.1, key);
        assert forall x :: x in rest ==> x.gateIndex == was[x];
        if !done {
          return false, choice, order;
        }
        ArrivedNext(net, d, j, i, choice, more);
        DistinctJoin(order, next);
        choice, order := choice + more, order + next;
      } else {
        ArrivedSkip(net, d, j, i, choice);
      }
    }
    DoneWithin(net, d, j, net.gates[d]);
    ArrivedAll(net, d, j, choice);
  }

  lemma DistinctOne<T>(x: T)
    ensures Distinct([x])
  {
  }

  const REQUEST := 0
  const INDICATION := 1
  const UNSET := -1

  datatype DispatchReq = DispatchReq(protocolId: int, servicePrimitive: int)

  /** What a dispatcher looks at in a packet or message. */
  datatype Tags = Tags(socketReq: Option<int>, socketInd: Option<int>, dispatch: Option<DispatchReq>,
      packetProtocol: Option<int>, interfaceReq: Option<int>)

  datatype Outcome = Out(gate: nat) | UnknownSocket | UnknownProtocol | UnknownInterface | Unknown

  /** What the answer to the tags is if these sockets and keys are on record. A socket counts before a protocol, and a
      protocol before an interface. */
  ghost predicate Answers(sockets: map<int, nat>, gates: map<Key, nat>, tags: Tags, unset: int, r: Outcome) {
    && (tags.socketInd.Some? ==>
          && (r == UnknownSocket <==> tags.socketInd.value !in sockets)
          && (tags.socketInd.value in sockets ==> r == Out(sockets[tags.socketInd.value])))
    && (tags.socketInd.None? && tags.dispatch.Some? ==>
          var req := tags.dispatch.value;
          var key := Service(req.protocolId, if req.servicePrimitive == UNSET then unset else req.servicePrimitive);
          && (r == UnknownProtocol <==> key !in gates) && (key in gates ==> r == Out(gates[key])))
    && (tags.socketInd.None? && tags.dispatch.None? && tags.interfaceReq.Some? ==>
          var key := Interface(tags.interfaceReq.value);
          && (r == UnknownInterface <==> key !in gates) && (key in gates ==> r == Out(gates[key])))
    && (r == Unknown <==> tags.socketInd.None? && tags.dispatch.None? && tags.interfaceReq.None?)
  }

  /** By which gate the dispatcher lets something out; `unset` is the primitive taken for a request that names none. */
  function Lookup(d: MessageDispatcher, tags: Tags, unset: int): Outcome
    reads d
  {
    if tags.socketInd.Some? then
      if tags.socketInd.value in d.socketIdToGateIndex then Out(d.socketIdToGateIndex[tags.socketInd.value])
        else UnknownSocket
    else if tags.dispatch.Some? then
      var req := tags.dispatch.value;
      var key := Service(req.protocolId, if req.servicePrimitive == UNSET then unset else req.servicePrimitive);
      if key in d.gateIndex then Out(d.gateIndex[key]) else UnknownProtocol
    else if tags.interfaceReq.Some? then
      var key := Interface(tags.interfaceReq.value);
      if key in d.gateIndex then Out(d.gateIndex[key]) else UnknownInterface
    else
      Unknown
  }

  /** A packet that names no primitive is an indication if it is of the protocol it is for. */
  function HandlePacket(d: MessageDispatcher, tags: Tags): (r: Outcome)
    reads d
    ensures var own := tags.dispatch.Some? && tags.packetProtocol == Some(tags.dispatch.value.protocolId);
      Answers(d.socketIdToGateIndex, d.gateIndex, tags, if own then INDICATION else REQUEST, r)
  {
    Lookup(d, tags,
      if tags.dispatch.Some? && tags.packetProtocol == Some(tags.dispatch.value.protocolId) then INDICATION
        else REQUEST)
  }

  /** By which gate a message leaves; it is a request if it names no primitive. */
  function MessageOutcome(d: MessageDispatcher, tags: Tags): (r: Outcome)
    reads d
    ensures Answers(d.socketIdToGateIndex, d.gateIndex, tags, REQUEST, r)
  {
    Lookup(d, tags, REQUEST)
  }

  /** A message that makes a request for a socket lets the dispatcher remember where that socket is, the first time. */
  method HandleMessage(d: MessageDispatcher, tags: Tags, inGate: nat) returns (outcome: Outcome)
    modifies d`socketIdToGateIndex
    ensures outcome == MessageOutcome(d, tags)
    ensures d.socketIdToGateIndex ==
      if tags.socketReq.None? || tags.socketReq.value in old(d.socketIdToGateIndex) then old(d.socketIdToGateIndex)
      else old(d.socketIdToGateIndex)[tags.socketReq.value := inGate]
  {
    if tags.socketReq.Some? && tags.socketReq.value !in d.socketIdToGateIndex {
      d.socketIdToGateIndex := d.socketIdToGateIndex[tags.socketReq.value := inGate];
    }
    outcome := MessageOutcome(d, tags);
  }

  /** The gates at which the dispatchers remember the socket. */
  ghost function SocketGates(net: Network, socket: int): map<MessageDispatcher, nat>
    reads net.gates.Keys`socketIdToGateIndex
  {
    map d | d in net.gates && socket in d.socketIdToGateIndex :: d.socketIdToGateIndex[socket]
  }

  /** The gates at which a key is registered. */
  ghost function KeyGates(net: Network, key: Key): map<MessageDispatcher, nat>
    reads net.gates.Keys`gateIndex
  {
    map d | d in net.gates && key in d.gateIndex :: d.gateIndex[key]
  }

  /** After a registration, the gates registered lead from every dispatcher on the side to the registrant. */
  lemma ServiceFound(net: Network, d: MessageDispatcher, j: nat, key: Key, choice: map<MessageDispatcher, nat>,
      x: MessageDispatcher)
    requires Wired(net) && d in net.gates && x in Side(net, d, j) && choice.Keys == Side(net, d, j)
      && Recorded(net, d, j, choice)
    requires forall y :: y in Side(net, d, j) ==> key in y.gateIndex && y.gateIndex[key] == choice[y]
    ensures d in KeyGates(net, key) && KeyGates(net, key)[d] == j
    ensures exists hops: nat :: Arrives(net, KeyGates(net, key), x, d, hops)
  {
    RecordedArrives(net, d, j, choice, x);
    var hops: nat :| Arrives(net, choice, x, d, hops);
    ArrivesMore(net, choice, KeyGates(net, key), x, d, hops);
  }

  /** The gates by which the dispatchers let the packet out. */
  ghost function PacketGates(net: Network, tags: Tags): map<MessageDispatcher, nat>
    reads net.gates.Keys
  {
    map d | d in net.gates && HandlePacket(d, tags).Out? :: HandlePacket(d, tags).gate
  }

  /** A packet for a registered service gets from every dispatcher on the side to the registrant; when it names no
      primitive, it is for the indications of its own protocol, and for the requests of another. */
  lemma PacketArrives(net: Network, d: MessageDispatcher, j: nat, key: Key, choice: map<MessageDispatcher, nat>,
      x: MessageDispatcher, tags: Tags)
    requires Wired(net) && d in net.gates && x in Side(net, d, j) && choice.Keys == Side(net, d, j)
      && Recorded(net, d, j, choice)
    requires forall y :: y in Side(net, d, j) ==> key in y.gateIndex && y.gateIndex[key] == choice[y]
    requires key.Service? && tags.socketInd == None
    requires
      || tags.dispatch == Some(DispatchReq(key.protocolId, key.servicePrimitive))
      || (tags.dispatch == Some(DispatchReq(key.protocolId, UNSET))
          && key.servicePrimitive == if tags.packetProtocol == Some(key.protocolId) then INDICATION else REQUEST)
    requires key.servicePrimitive != UNSET
    ensures HandlePacket(d, tags) == Out(j)
    ensures exists hops: nat :: Arrives(net, PacketGates(net, tags), x, d, hops)
  {
    ServiceFound(net, d, j, key, choice, x);
    var hops: nat :| Arrives(net, KeyGates(net, key), x, d, hops);
    ArrivesMore(net, KeyGates(net, key), PacketGates(net, tags), x, d, hops);
  }

  /** The gates by which the dispatchers let the message out. */
  ghost function MessageGates(net: Network, tags: Tags): map<MessageDispatcher, nat>
    reads net.gates.Keys
  {
    map d | d in net.gates && MessageOutcome(d, tags).Out? :: MessageOutcome(d, tags).gate
  }

  /** A packet or message for a registered interface, for no socket and no protocol, gets from every dispatcher on the
      side to the registrant, and leaves by the gate of the interface. */
  lemma InterfaceArrives(net: Network, d: MessageDispatcher, j: nat, id: int, choice: map<MessageDispatcher, nat>,
      x: MessageDispatcher, tags: Tags)
    requires Wired(net) && d in net.gates && x in Side(net, d, j) && choice.Keys == Side(net, d, j)
      && Recorded(net, d, j, choice)
    requires forall y :: y in Side(net, d, j) ==>
      Interface(id) in y.gateIndex && y.gateIndex[Interface(id)] == choice[y]
    requires tags.socketInd == None && tags.dispatch == None && tags.interfaceReq == Some(id)
    ensures HandlePacket(d, tags) == MessageOutcome(d, tags) == Out(j)
    ensures exists hops: nat :: Arrives(net, PacketGates(net, tags), x, d, hops)
    ensures exists hops: nat :: Arrives(net, MessageGates(net, tags), x, d, hops)
  {
    var key := Interface(id);
    ServiceFound(net, d, j, key, choice, x);
    var hops: nat :| Arrives(net, KeyGates(net, key), x, d, hops);
    ArrivesMore(net, KeyGates(net, key), PacketGates(net, tags), x, d, hops);
    ArrivesMore(net, KeyGates(net, key), MessageGates(net, tags), x, d, hops);
  }

  /** A message for a registered service gets there too; it is a request if it names no primitive. */
  lemma MessageArrives(net: Network, d: MessageDispatcher, j: nat, key: Key, choice: map<MessageDispatcher, nat>,
      x: MessageDispatcher, tags: Tags)
    requires Wired(net) && d in net.gates && x in Side(net, d, j) && choice.Keys == Side(net, d, j)
      && Recorded(net, d, j, choice)
    requires forall y :: y in Side(net, d, j) ==> key in y.gateIndex && y.gateIndex[key] == choice[y]
    requires key.Service? && key.servicePrimitive != UNSET && tags.socketInd == None
    requires tags.dispatch == Some(DispatchReq(key.protocolId, key.servicePrimitive))
      || (tags.dispatch == Some(DispatchReq(key.protocolId, UNSET)) && key.servicePrimitive == REQUEST)
    ensures MessageOutcome(d, tags) == Out(j)
    ensures exists hops: nat :: Arrives(net, MessageGates(net, tags), x, d, hops)
  {
    ServiceFound(net, d, j, key, choice, x);
    var hops: nat :| Arrives(net, KeyGates(net, key), x, d, hops);
    ArrivesMore(net, KeyGates(net, key), MessageGates(net, tags), x, d, hops);
  }

  /** A packet travels from dispatcher to dispatcher until it leaves the network. */
  method Forward(net: Network, from: MessageDispatcher, tags: Tags, ghost d: MessageDispatcher)
    returns (last: MessageDispatcher, out: nat)
    requires exists hops: nat :: Arrives(net, PacketGates(net, tags), from, d, hops)
    requires d in PacketGates(net, tags) && (d, PacketGates(net, tags)[d]) !in net.peer
    ensures last == d && Out(out) == HandlePacket(d, tags)
  {
    ghost var choice := PacketGates(net, tags);
    ghost var left: nat :| Arrives(net, choice, from, d, left);
    var at := from;
    ArrivesKnown(net, choice, at, d, left);
    while true
      invariant at in choice && choice == PacketGates(net, tags) && Arrives(net, choice, at, d, left)
      decreases left
    {
      var g := HandlePacket(at, tags).gate;
      if (at, g) !in net.peer {
        return at, g;
      }
      at := net.peer[(at, g)].0;
      left := left - 1;
      ArrivesKnown(net, choice, at, d, left);
    }
  }

  /** End to end: when an interface has been registered from outside, a packet for it leaves there, from wherever in the
      network it is sent. */
  method DeliverToInterface(net: Network, d: MessageDispatcher, j: nat, id: int, from: MessageDispatcher, tags: Tags)
    returns (ok: bool, last: MessageDispatcher, out: nat)
    requires Wired(net) && Acyclic(net) && d in net.gates && j < net.gates[d] && (d, j) !in net.peer
    requires from in Side(net, d, j)
    requires tags.socketInd == None && tags.dispatch == None && tags.interfaceReq == Some(id)
    modifies Side(net, d, j)`gateIndex
    ensures ok <==> forall x :: x in Side(net, d, j) ==> Interface(id) !in old(x.gateIndex)
    ensures ok ==> last == d && out == j
  {
    ghost var choice, order;
    last, out := d, j;
    ok, choice, order := HandleRegister(net, d, j, Interface(id));
    if ok {
      InterfaceArrives(net, d, j, id, choice, from, tags);
      last, out := Forward(net, from, tags, d);
    }
  }

  /** What holds of a request that has come so far on its way to `end`, `left` hops before it gets there. */
  ghost predicate Underway(net: Network, d0: MessageDispatcher, g0: nat, choice: map<MessageDispatcher, nat>,
      end: MessageDispatcher, hops: nat,
      sockets: map<MessageDispatcher, nat>, path: seq<(MessageDispatcher, nat)>, at: MessageDispatcher, inGate: nat,
        left: nat)
  {
    && at in net.gates && Arrives(net, choice, at, end, left) && left + |path| == hops
    && Homeward(net, sockets, d0, g0)
    && (if path == [] then (at, inGate) == (d0, g0)
        else (at, inGate) in net.peer && net.peer[(at, inGate)].0 == path[|path| - 1].0 && path[0] == (d0, g0))
    && Trail(net, path) && OnceEach(path)
    && (forall i :: 0 <= i < |path| ==> path[i].0 in sockets && Arrives(net, choice, path[i].0, end, hops - i))
  }

  /** A dispatcher is not come to again on the way. */
  lemma NotAgain(net: Network, choice: map<MessageDispatcher, nat>, end: MessageDispatcher, hops: nat,
      path: seq<(MessageDispatcher, nat)>, at: MessageDispatcher, left: nat)
    requires end in choice && (end, choice[end]) !in net.peer
    requires Arrives(net, choice, at, end, left) && left + |path| == hops
    requires forall i :: 0 <= i < |path| ==> Arrives(net, choice, path[i].0, end, hops - i)
    ensures forall i :: 0 <= i < |path| ==> path[i].0 != at
  {
    forall i | 0 <= i < |path|
      ensures path[i].0 != at
    {
      if path[i].0 == at {
        ArrivesOnce(net, choice, at, end, left, hops - i);
      }
    }
  }

  /** The dispatcher has remembered the socket, and the request goes on. */
  lemma OneHop(net: Network, d0: MessageDispatcher, g0: nat, choice: map<MessageDispatcher, nat>,
      end: MessageDispatcher, hops: nat,
      before: map<MessageDispatcher, nat>, after: map<MessageDispatcher, nat>,
      path: seq<(MessageDispatcher, nat)>, at: MessageDispatcher, inGate: nat, left: nat)
    requires Wired(net) && end in choice && (end, choice[end]) !in net.peer
    requires Underway(net, d0, g0, choice, end, hops, before, path, at, inGate, left)
    requires after == if at in before then before else before[at := inGate]
    ensures Homeward(net, after, d0, g0) && at in after
    ensures Trail(net, path + [(at, inGate)]) && OnceEach(path + [(at, inGate)])
      && (path + [(at, inGate)])[0] == (d0, g0)
    ensures before == Recordings(path) ==> after == Recordings(path + [(at, inGate)])
    ensures left > 0 ==> at in choice && (at, choice[at]) in net.peer && net.peer[(at, choice[at])].0 in net.gates
    ensures left > 0 ==>
      var next := net.peer[(at, choice[at])];
      Underway(net, d0, g0, choice, end, hops, after, path + [(at, inGate)], next.0, next.1, left - 1)
    ensures left == 0 ==> at == end
  {
    hide Homeward, Recordings;
    var longer := path + [(at, inGate)];
    NotAgain(net, choice, end, hops, path, at, left);
    assert longer[..|path|] == path;
    Remembered(net, d0, g0, before, path, at, inGate);
    if left > 0 {
      var next := net.peer[(at, choice[at])];
      assert next in net.peer && net.peer[next] == (at, choice[at]);
    }
  }

  lemma Remembered(net: Network, d0: MessageDispatcher, g0: nat, before: map<MessageDispatcher, nat>,
      path: seq<(MessageDispatcher, nat)>, at: MessageDispatcher, inGate: nat)
    requires Homeward(net, before, d0, g0)
    requires (at, inGate) == (d0, g0) || ((at, inGate) in net.peer && net.peer[(at, inGate)].0 in before)
    requires forall i :: 0 <= i < |path| ==> path[i].0 != at
    ensures var after := if at in before then before else before[at := inGate];
      Homeward(net, after, d0, g0) && (before == Recordings(path) ==> after == Recordings(path + [(at, inGate)]))
  {
    if at !in before {
      HomewardMore(net, before, d0, g0, at, inGate);
    }
    NotRecorded(path, at);
    assert (path + [(at, inGate)])[..|path|] == path;
  }

  lemma {:induction false} NotRecorded(path: seq<(MessageDispatcher, nat)>, at: MessageDispatcher)
    requires forall i :: 0 <= i < |path| ==> path[i].0 != at
    ensures at !in Recordings(path)
    decreases |path|
  {
    if path != [] {
      NotRecorded(path[..|path| - 1], at);
    }
  }

  /** A socket's request travels from its own gate g0 of dispatcher d0 along the registered gates until it leaves the
      network. */
  method Request(net: Network, d0: MessageDispatcher, g0: nat, socket: int, protocolId: int, servicePrimitive: int,
      ghost end: MessageDispatcher, ghost hops: nat)
    returns (last: MessageDispatcher, out: nat, ghost path: seq<(MessageDispatcher, nat)>)
    requires Wired(net) && d0 in net.gates && servicePrimitive != UNSET
    requires Homeward(net, SocketGates(net, socket), d0, g0)
    requires var choice := KeyGates(net, Service(protocolId, servicePrimitive));
      Arrives(net, choice, d0, end, hops) && end in choice && (end, choice[end]) !in net.peer
    modifies net.gates.Keys`socketIdToGateIndex
    ensures last == end && out == KeyGates(net, Service(protocolId, servicePrimitive))[end]
    // the socket can be replied to from wherever it was remembered, which now is where the request went out too
    ensures Homeward(net, SocketGates(net, socket), d0, g0) && last in SocketGates(net, socket)
    // the trail of the request; a first request leaves just that trail
    ensures path != [] && path[0] == (d0, g0) && path[|path| - 1].0 == last && Trail(net, path) && OnceEach(path)
    ensures old(SocketGates(net, socket)) == map[] ==> SocketGates(net, socket) == Recordings(path)
  {
    hide Arrives, Homeward, Underway, Trail, OnceEach, Recordings, Wired;
    var tags := Tags(Some(socket), None, Some(DispatchReq(protocolId, servicePrimitive)), None, None);
    ghost var key := Service(protocolId, servicePrimitive);
    ghost var choice := KeyGates(net, key);
    ghost var left := hops;
    ghost var first := SocketGates(net, socket);
    var at, inGate := d0, g0;
    path := [];
    Departs(net, d0, g0, choice, end, hops, first);
    while true
      invariant at in net.gates && choice == KeyGates(net, key)
      invariant Underway(net, d0, g0, choice, end, hops, SocketGates(net, socket), path, at, inGate, left)
      invariant first == map[] ==> SocketGates(net, socket) == Recordings(path)
      decreases left
    {
      ghost var before := SocketGates(net, socket);
      var outcome := HandleMessage(at, tags, inGate);
      assert SocketGates(net, socket) == if at in before then before else before[at := inGate];
      OneHop(net, d0, g0, choice, end, hops, before, SocketGates(net, socket), path, at, inGate, left);
      path := path + [(at, inGate)];
      var g := outcome.gate;
      if (at, g) !in net.peer {
        return at, g, path;
      }
      var next := net.peer[(at, g)];
      at, inGate, left := next.0, next.1, left - 1;
    }
  }

  lemma Departs(net: Network, d0: MessageDispatcher, g0: nat, choice: map<MessageDispatcher, nat>,
      end: MessageDispatcher, hops: nat, sockets: map<MessageDispatcher, nat>)
    requires d0 in net.gates && Arrives(net, choice, d0, end, hops) && Homeward(net, sockets, d0, g0)
    ensures Underway(net, d0, g0, choice, end, hops, sockets, [], d0, g0, hops)
      && Recordings<MessageDispatcher>([]) == map[]
  {
  }

  /** A reply to a socket travels along the gates that dispatchers remember for it until it leaves the network: at the
      socket's own gate. */
  method Reply(net: Network, from: MessageDispatcher, socket: int, ghost d0: MessageDispatcher, ghost g0: nat)
    returns (last: MessageDispatcher, out: nat, ghost path: seq<MessageDispatcher>)
    requires from in SocketGates(net, socket) && (d0, g0) !in net.peer
    requires Homeward(net, SocketGates(net, socket), d0, g0)
    ensures last == d0 && out == g0
    ensures path != [] && path[0] == from && path[|path| - 1] == d0 && Follows(net, SocketGates(net, socket), path)
  {
    hide Follows;
    var tags := Tags(None, Some(socket), None, None, None);
    ghost var choice := SocketGates(net, socket);
    assert Homes(net, choice, from, d0);
    ghost var left: nat :| Arrives(net, choice, from, d0, left);
    var at := from;
    path := [from];
    FollowsOne(net, choice, from);
    while true
      invariant at in choice && choice == SocketGates(net, socket) && Arrives(net, choice, at, d0, left)
      invariant path != [] && path[0] == from && path[|path| - 1] == at && Follows(net, choice, path)
      decreases left
    {
      var outcome := HandlePacket(at, tags);
      var g := outcome.gate;
      if (at, g) !in net.peer {
        return at, g, path;
      }
      FollowsMore(net, choice, path);
      at := net.peer[(at, g)].0;
      left := left - 1;
      path := path + [at];
      ArrivesKnown(net, choice, at, d0, left);
    }
  }

  lemma FollowsOne(net: Network, choice: map<MessageDispatcher, nat>, x: MessageDispatcher)
    ensures Follows(net, choice, [x])
  {
  }

  lemma ArrivesKnown(net: Network, choice: map<MessageDispatcher, nat>, x: MessageDispatcher, d0: MessageDispatcher,
      hops: nat)
    requires Arrives(net, choice, x, d0, hops) && d0 in choice
    ensures x in choice
  {
  }

  /** The reply to a first request goes back over the request's trail. */
  lemma ReplyRetraces(net: Network, path: seq<(MessageDispatcher, nat)>, reply: seq<MessageDispatcher>)
    requires path != [] && Trail(net, path) && OnceEach(path) && path[0] !in net.peer
    requires reply != [] && reply[0] == path[|path| - 1].0 && reply[|reply| - 1] == path[0].0
    requires Follows(net, Recordings(path), reply)
    ensures reply == Backward(path)
  {
    assert path[..|path|] == path;
    Retraced(net, path, |path|, reply);
  }
}
