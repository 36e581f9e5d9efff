/** The server that learns travel times from vehicles' reports and sends vehicles new routes. */
module TrafficServers {
  import opened LazyQueue
  import opened Learning
  import opened Lists
  import opened RoadRoutes
  import opened RoadTraffic
  import opened Routes
  import opened ShortestPaths
  import opened TrafficMessages
  import Sums

  /** The fading of old reports: a positive share, never more than the whole. */
  ghost predicate Fades(fade: real -> real) {
    forall aoi :: aoi >= 0.0 ==> 0.0 < fade(aoi) <= 1.0
  }

  const HYSTERESIS_RATIO := 1.0
  const MAX_REROUTES_PER_SEC := 8

  datatype VehicleEntry = VehicleEntry(address: string, port: int, currentEdge: nat, destEdge: nat)

  /** A route message that left the server. */
  datatype Sent = Sent(key: string, time: real, address: string, port: int, msg: ServerRoute)

  /** Whether a route is due, as the server decides it from what it noted of the vehicle. */
  predicate Due(first: bool, sinceLast: real, otherEdge: bool, interval: real) {
    first || (!first && sinceLast >= interval) || (!first && otherEdge && sinceLast >= interval * HYSTERESIS_RATIO)
  }

  /** Where the vehicle is has no part in the decision. */
  lemma EdgeNeverDecides(first: bool, sinceLast: real, otherEdge: bool, interval: real)
    ensures Due(first, sinceLast, otherEdge, interval) <==> Due(first, sinceLast, false, interval)
    ensures Due(first, sinceLast, otherEdge, interval) <==> first || sinceLast >= interval
  {
  }

  /** Two routes to the same vehicle are an interval apart, and the last one is no later than the time noted for it. */
  ghost predicate Spaced(sent: seq<Sent>, last: map<string, real>, interval: real) {
    && (forall i, j :: 0 <= i < j < |sent| && sent[i].key == sent[j].key ==> sent[j].time - sent[i].time >= interval)
    && (forall i :: 0 <= i < |sent| ==> sent[i].key in last && sent[i].time <= last[sent[i].key])
  }

  /** A time that is not before the one noted may be noted, with or without a route sent then. */
  lemma SpacedNoted(sent: seq<Sent>, last: map<string, real>, interval: real, key: string, now: real)
    requires Spaced(sent, last, interval) && (key in last ==> last[key] <= now)
    ensures Spaced(sent, last[key := now], interval)
  {
  }

  lemma SpacedMore(sent: seq<Sent>, last: map<string, real>, interval: real, more: Sent)
    requires Spaced(sent, last, interval) && (more.key in last ==>
      last[more.key] <= more.time && more.time - last[more.key] >= interval)
    ensures Spaced(sent + [more], last[more.key := more.time], interval)
  {
  }

  /** `resets` is how many routes had left at each reset, the start included; no more than the limit left between two of
      them. */
  ghost predicate Rationed(sent: nat, resets: seq<nat>, count: int) {
    && resets != [] && resets[0] == 0
    && (forall i :: 0 < i < |resets| ==> 0 <= resets[i] - resets[i - 1] <= MAX_REROUTES_PER_SEC)
    && count == sent - resets[|resets| - 1] && 0 <= count <= MAX_REROUTES_PER_SEC
  }

  /** The length of a route: the lengths of all its edges. */
  function Distance(edges: seq<EdgeData>, route: seq<nat>): real
    requires forall i :: 0 <= i < |route| ==> route[i] < |edges|
  {
    if route == [] then 0.0 else Distance(edges, route[..|route| - 1]) + edges[route[|route| - 1]].length
  }

  ghost function Lengths(edges: seq<EdgeData>, route: seq<nat>): seq<real>
    requires forall i :: 0 <= i < |route| ==> route[i] < |edges|
  {
    seq(|route|, i requires 0 <= i < |route| => edges[route[i]].length)
  }

  /** It is the total of the lengths, one for each place in the route. */
  lemma {:induction false} DistanceTotal(edges: seq<EdgeData>, route: seq<nat>)
    requires forall i :: 0 <= i < |route| ==> route[i] < |edges|
    ensures Distance(edges, route) == Sums.Total(Lengths(edges, route))
    decreases |route|
  {
    if route != [] {
      var front, last := route[..|route| - 1], route[|route| - 1];
      DistanceTotal(edges, front);
      assert Lengths(edges, route) == Lengths(edges, front) + [edges[last].length];
      Sums.TotalLast(Lengths(edges, front), edges[last].length);
    }
  }

  /** The seed of a vehicle: the FNV-1a hash of its key. */
  function HashVehicleKey(key: string): bv32 {
    if key == [] then 2166136261
    else (HashVehicleKey(key[..|key| - 1]) ^ ((key[|key| - 1] as int % 256) as bv32)) * 16777619
  }

  /** Two published values of the hash. */
  lemma HashKnown()
    ensures HashVehicleKey("") == 0x811c9dc5 && HashVehicleKey("a") == 0xe40c292c
  {
    assert "a"[..0] == "";
    var a: bv32 := 97;
    assert (('a' as int % 256) as bv32) == a;
  }

  datatype Happening = Report(key: string, port: int, report: VehicleReport<real>) | Decay | Reset

  datatype Moment = Moment(time: real, what: Happening)

  /** The server takes a report that names two of its n edges. */
  predicate Taken(what: Happening, n: nat) {
    what.Report? && 0 <= what.report.edgeIndex < n && 0 <= what.report.destEdgeIndex < n
  }

  /** What the events say of edge e. */
  function HeardOn(moments: seq<Moment>, n: nat, e: nat): seq<Heard> {
    if moments == [] then []
    else
      HeardOn(moments[..|moments| - 1], n, e) + HeardIn(moments[|moments| - 1], n, e)
  }

  function HeardIn(moment: Moment, n: nat, e: nat): seq<Heard> {
    if Taken(moment.what, n) && moment.what.report.edgeIndex == e
    then [Heard(moment.what.report.speed, moment.what.report.realTravelTime, moment.time)]
    else []
  }

  /** The traffic of one edge after an event. */
  ghost predicate Heeded(before: EdgeTraffic, ed: EdgeData, moment: Moment, n: nat, e: nat, after: EdgeTraffic) {
    && (moment.what.Decay? ==> after == Decayed(before, ed))
    && (!moment.what.Decay? ==>
          var heard := HeardIn(moment, n, e);
          after == if heard == [] then before
                   else Observed(before, ed, heard[0].speed, heard[0].realTT, heard[0].time))
  }

  /** The traffic of all edges before each event and in the end. */
  ghost predicate Recorded(edges: seq<EdgeData>, moments: seq<Moment>, states: seq<seq<EdgeTraffic>>) {
    && |states| == |moments| + 1 && (forall i :: 0 <= i < |states| ==> |states[i]| == |edges|)
    && (forall i, e: nat :: 0 <= i < |moments| && e < |edges| ==>
          Heeded(states[i][e], edges[e], moments[i], |edges|, e, states[i + 1][e]))
  }

  ghost predicate Counting(traffic: seq<EdgeTraffic>) {
    forall e :: 0 <= e < |traffic| ==> traffic[e].vehicleCount >= 0 && traffic[e].realTTCount >= 0
  }

  lemma RecordedNone(edges: seq<EdgeData>, traffic: seq<EdgeTraffic>)
    requires |traffic| == |edges|
    ensures Recorded(edges, [], [traffic])
  {
  }

  lemma RecordedNext(edges: seq<EdgeData>, moments: seq<Moment>, states: seq<seq<EdgeTraffic>>, moment: Moment,
      traffic: seq<EdgeTraffic>)
    requires Recorded(edges, moments, states) && |traffic| == |edges|
    requires forall e: nat :: e < |edges| ==>
      Heeded(states[|moments|][e], edges[e], moment, |edges|, e, traffic[e])
    ensures Recorded(edges, moments + [moment], states + [traffic])
  {
    hide Heeded;
    var more, longer := moments + [moment], states + [traffic];
    forall i, e: nat | 0 <= i < |more| && e < |edges|
      ensures Heeded(longer[i][e], edges[e], more[i], |edges|, e, longer[i + 1][e])
    {
      if i < |moments| {
        assert Heeded(states[i][e], edges[e], moments[i], |edges|, e, states[i + 1][e]);
      }
    }
  }

  /** What a run leaves on record. */
  lemma RecordedAll(edges: seq<EdgeData>, moments: seq<Moment>, states: seq<seq<EdgeTraffic>>)
    requires Recorded(edges, moments, states) && forall i :: 0 <= i < |states| ==> Counting(states[i])
    ensures forall a, b, e: nat ::
      0 <= a <= b <= |moments| && e < |edges| && (forall i :: a <= i < b ==> !moments[i].what.Decay?) ==>
        Learnt(states[a][e], edges[e], HeardOn(moments[a..b], |edges|, e), states[b][e])
    ensures forall i, e: nat :: 0 <= i < |moments| && e < |edges| && moments[i].what.Decay? ==>
      Forgot(states[i][e], edges[e], states[i + 1][e])
  {
    hide Learnt, Forgot, Observed, Decayed, HeardOn;
    forall a, b, e: nat |
      0 <= a <= b <= |moments| && e < |edges| && (forall i :: a <= i < b ==> !moments[i].what.Decay?)
      ensures Learnt(states[a][e], edges[e], HeardOn(moments[a..b], |edges|, e), states[b][e])
    {
      RecordedLearns(edges, moments, states, a, b, e);
    }
    forall i, e: nat | 0 <= i < |moments| && e < |edges| && moments[i].what.Decay?
      ensures Forgot(states[i][e], edges[e], states[i + 1][e])
    {
      assert Heeded(states[i][e], edges[e], moments[i], |edges|, e, states[i + 1][e]);
      assert Counting(states[i]);
      DecayedForgot(states[i][e], edges[e]);
    }
  }

  /** Between decays, each edge's traffic is what was heard of it. */
  lemma {:induction false} RecordedLearns(edges: seq<EdgeData>, moments: seq<Moment>, states: seq<seq<EdgeTraffic>>,
      a: nat, b: nat, e: nat)
    requires Recorded(edges, moments, states) && a <= b <= |moments| && e < |edges| && Counting(states[a])
    requires forall i :: a <= i < b ==> !moments[i].what.Decay?
    ensures Learnt(states[a][e], edges[e], HeardOn(moments[a..b], |edges|, e), states[b][e])
    decreases b
  {
    hide Learnt, Observed;
    if a == b {
      LearntNone(states[a][e], edges[e]);
    } else {
      RecordedLearns(edges, moments, states, a, b - 1, e);
      var part, heard := moments[a..b], HeardIn(moments[b - 1], |edges|, e);
      assert part[..|part| - 1] == moments[a..b - 1] && part[|part| - 1] == moments[b - 1];
      assert Heeded(states[b - 1][e], edges[e], moments[b - 1], |edges|, e, states[b][e]);
      var before := HeardOn(moments[a..b - 1], |edges|, e);
      if heard == [] {
        assert before + [] == before;
      } else {
        LearntNext(states[a][e], edges[e], before, states[b - 1][e], heard[0]);
      }
    }
  }

  /** The server's events in the order of time, none before `start`. */
  ghost predicate Timed(moments: seq<Moment>, start: real) {
    && (forall i :: 0 <= i < |moments| ==> start <= moments[i].time)
    && (forall i, j :: 0 <= i < j < |moments| ==> moments[i].time <= moments[j].time)
  }

  /** How many routes had left, and how many were counted, before each event and in the end. */
  ghost predicate Counted(moments: seq<Moment>, marks: seq<nat>, counts: seq<int>) {
    && |marks| == |counts| == |moments| + 1
    && (forall i :: 0 <= i < |counts| ==> 0 <= counts[i] <= MAX_REROUTES_PER_SEC)
    && (forall i :: 0 <= i < |moments| ==>
        marks[i] <= marks[i + 1] <= marks[i] + if moments[i].what.Report? then 1 else 0)
    && (forall i :: 0 <= i < |moments| && !moments[i].what.Reset? ==>
        marks[i + 1] == marks[i] + (counts[i + 1] - counts[i]))
  }

  lemma CountedNext(moments: seq<Moment>, marks: seq<nat>, counts: seq<int>, moment: Moment, mark: nat, count: int)
    requires Counted(moments, marks, counts) && 0 <= count <= MAX_REROUTES_PER_SEC
    requires marks[|moments|] <= mark <= marks[|moments|] + if moment.what.Report? then 1 else 0
    requires !moment.what.Reset? ==> mark == marks[|moments|] + (count - counts[|moments|])
    ensures Counted(moments + [moment], marks + [mark], counts + [count])
  {
  }

  /** What left for the i-th event: at most one route, for a report of its vehicle and at its time. */
  ghost predicate LeftFor(moments: seq<Moment>, marks: seq<nat>, sent: seq<Sent>, i: nat)
    requires i < |moments| && i + 1 < |marks|
  {
    && marks[i] <= marks[i + 1] <= marks[i] + (if moments[i].what.Report? then 1 else 0) && marks[i + 1] <= |sent|
    && (marks[i] < marks[i + 1] ==> sent[marks[i]].key == moments[i].what.key && sent[marks[i]].time == moments[i].time)
  }

  lemma LeftForMore(moments: seq<Moment>, marks: seq<nat>, mark: nat, sent: seq<Sent>, more: seq<Sent>, i: nat)
    requires i < |moments| && i + 1 < |marks| && LeftFor(moments, marks, sent, i) && sent <= more
    ensures LeftFor(moments, marks + [mark], more, i)
  {
    assert marks[i] < marks[i + 1] ==> more[marks[i]] == sent[marks[i]];
  }

  lemma {:induction false} CountedStretch(moments: seq<Moment>, marks: seq<nat>, counts: seq<int>, a: nat, b: nat)
    requires Counted(moments, marks, counts) && a <= b <= |moments|
    requires forall i :: a <= i < b ==> !moments[i].what.Reset?
    ensures marks[b] == marks[a] + (counts[b] - counts[a])
    decreases b
  {
    if a < b {
      CountedStretch(moments, marks, counts, a, b - 1);
    }
  }

  /** Between two resets no more routes leave than the limit. */
  lemma Stretch(moments: seq<Moment>, marks: seq<nat>, counts: seq<int>, a: nat, b: nat)
    requires Counted(moments, marks, counts) && a <= b <= |moments|
    requires forall i :: a <= i < b ==> !moments[i].what.Reset?
    ensures marks[b] <= marks[a] + MAX_REROUTES_PER_SEC
  {
    CountedStretch(moments, marks, counts, a, b);
  }

  class TrafficServer {
    const edges: seq<EdgeData>
    const adjacency: seq<seq<nat>>
    const k: real
    const fade: real -> real
    const rerouteInterval: real
    const minRouteDistance: real
    var traffic: seq<EdgeTraffic>
    var vehicleMap: map<string, VehicleEntry>
    var lastRouteSent: map<string, real>
    var lastRouteEdge: map<string, nat>
    var rerouteCountThisSecond: int
    /** The messages sent so far. */
    var sent: seq<Sent>
    ghost var resets: seq<nat>
    /** The time of the last event. */
    ghost var clock: real

    constructor (edges: seq<EdgeData>, adjacency: seq<seq<nat>>, k: real, fade: real -> real, rerouteInterval: real,
        minRouteDistance: real)
      requires |adjacency| == |edges| && InRange(adjacency) && k >= 0.0 && Fades(fade)
      requires forall i :: 0 <= i < |edges| ==> edges[i].baseTravelTime > 0.0
      ensures Valid() && sent == [] && clock == 0.0
      ensures this.edges == edges && this.adjacency == adjacency && this.k == k && this.fade == fade
      ensures this.rerouteInterval == rerouteInterval && this.minRouteDistance == minRouteDistance
      ensures traffic == seq(|edges|, i => QUIET) && vehicleMap == map[] && lastRouteSent == map[]
    {
      this.edges, this.adjacency, this.k, this.fade := edges, adjacency, k, fade;
      this.rerouteInterval, this.minRouteDistance := rerouteInterval, minRouteDistance;
      traffic := seq(|edges|, i => QUIET);
      vehicleMap, lastRouteSent, lastRouteEdge := map[], map[], map[];
      rerouteCountThisSecond := 0;
      sent, resets, clock := [], [0], 0.0;
    }

    ghost predicate Valid()
      reads this
    {
      TrafficValid() && Spaced(sent, lastRouteSent, rerouteInterval) && Rationed(|sent|, resets, rerouteCountThisSecond)
      && forall key :: key in lastRouteSent ==> lastRouteSent[key] <= clock
    }

    ghost predicate RoadsValid() {
      && |adjacency| == |edges| && InRange(adjacency) && k >= 0.0 && Fades(fade)
      && (forall i :: 0 <= i < |edges| ==> edges[i].baseTravelTime > 0.0)
    }

    ghost predicate TrafficValid()
      reads this`traffic, this`clock
    {
      && RoadsValid() && |traffic| == |edges|
      && (forall i :: 0 <= i < |edges| ==> Healthy(traffic[i], edges[i], clock))
    }

    ghost function WeightsAt(seed: bv32, now: real): (w: seq<real>)
      requires TrafficValid()
      reads this`traffic, this`clock
      ensures |w| == |edges|
    {
      Weights(edges, traffic, k, fade, seed, now)
    }

    function GetEdgeWeight(edgeIdx: nat, seed: bv32, now: real): (w: real)
      requires TrafficValid() && edgeIdx < |edges| && clock <= now
      reads this`traffic, this`clock
      ensures 0.0 < w == WeightsAt(seed, now)[edgeIdx]
      ensures w <= REAL_TT_MAX_RATIO * edges[edgeIdx].baseTravelTime * (1.0 + k) * (1.0 + NOISE_AMPLITUDE)
    {
      var aoi := now - traffic[edgeIdx].lastUpdate;
      WeightBounds(edges[edgeIdx], traffic[edgeIdx], clock, k, fade(aoi), Draw(edgeIdx, seed));
      EdgeWeight(edges[edgeIdx], traffic[edgeIdx], k, fade(aoi), Draw(edgeIdx, seed))
    }

    lemma PositiveAt(seed: bv32, now: real, v: nat)
      requires TrafficValid() && clock <= now && v < |edges|
      ensures WeightsAt(seed, now)[v] > 0.0
    {
      var _ := GetEdgeWeight(v, seed, now);
    }

    lemma AllPositive(seed: bv32, now: real)
      requires TrafficValid() && clock <= now
      ensures forall v :: 0 <= v < |edges| ==> WeightsAt(seed, now)[v] > 0.0
    {
      forall v | 0 <= v < |edges|
        ensures WeightsAt(seed, now)[v] > 0.0
      {
        PositiveAt(seed, now, v);
      }
    }

    /** Looks at the edges that can be driven after u, which was visited last. */
    method Scan(u: nat, seed: bv32, now: real, dist: seq<Dist>, prev: seq<int>, visited: seq<bool>, pq: seq<Entry>,
        ghost src: nat, ghost s: Search<nat, (nat, nat)>)
      returns (dist': seq<Dist>, prev': seq<int>, pq': seq<Entry>, ghost s': Search<nat, (nat, nat)>)
      requires TrafficValid() && clock <= now && u < |edges|
      requires Tracks(|edges|, dist, prev, visited, pq, s)
      requires Scanning(Backward(adjacency, WeightsAt(seed, now)), src, s, u, Back(u, adjacency[u]))
      ensures Tracks(|edges|, dist', prev', visited, pq', s') && s'.order == s.order
      ensures Searching(Backward(adjacency, WeightsAt(seed, now)), src, s', [])
    {
      hide Tracks, Backward, Back, Listed, Pointed, RelaxedBut, Weights, WeightsAt, Healthy;
      ghost var w := WeightsAt(seed, now);
      dist', prev', pq', s' := dist, prev, pq, s;
      assert adjacency[u][0..] == adjacency[u];
      for i := 0 to |adjacency[u]|
        invariant Tracks(|edges|, dist', prev', visited, pq', s') && s'.order == s.order
        invariant Scanning(Backward(adjacency, w), src, s', u, Back(u, adjacency[u][i..]))
      {
        var v := adjacency[u][i];
        assert v in adjacency[u];
        TracksLook(|edges|, dist', prev', visited, pq', s');
        PositiveAt(seed, now, v);
        if visited[v] {
          Visited(adjacency, w, src, s', u, v, adjacency[u][i..]);
          continue;
        }
        var weight := GetEdgeWeight(v, seed, now);
        var d := Plus(dist'[u], Fin(weight));
        if Less(d, dist'[v]) {
          s' := Better(adjacency, w, src, dist', prev', visited, pq', s', u, v, adjacency[u][i..]);
          dist' := dist'[v := d];
          prev' := prev'[v := u];
          pq' := pq' + [Entry(d.v, v)];
        } else {
          NoBetter(adjacency, w, src, s', u, v, adjacency[u][i..]);
        }
      }
      assert adjacency[u][|adjacency[u]|..] == [];
      BackNone(u);
    }

    ghost function Unvisited(order: seq<nat>): set<nat> {
      Below(|edges|) - (set v | v in order)
    }

    /** Visits edges, nearest first, until the destination is visited or no edge is left. */
    method Explore(srcEdge: nat, dstEdge: nat, seed: bv32, now: real)
      returns (dist: seq<Dist>, prev: seq<int>, ghost visited: seq<bool>, ghost left: seq<Entry>,
        ghost s: Search<nat, (nat, nat)>)
      requires TrafficValid() && clock <= now && srcEdge < |edges| && dstEdge < |edges|
      ensures Tracks(|edges|, dist, prev, visited, left, s)
      ensures Over(adjacency, WeightsAt(seed, now), srcEdge, dstEdge, s)
    {
      hide Tracks, Backward, Back, Listed, Pointed, RelaxedBut, Weights, WeightsAt, Healthy, Cleared;
      ghost var w := WeightsAt(seed, now);
      dist := seq(|edges|, i => Inf)[srcEdge := Fin(0.0)];
      prev := seq(|edges|, i => -1);
      var seen := seq(|edges|, i => false);
      var pq := [Entry(0.0, srcEdge)];
      s := Cleared(Backward(adjacency, w), srcEdge);
      TracksStart(adjacency, w, srcEdge);
      while pq != []
        invariant Tracks(|edges|, dist, prev, seen, pq, s)
        invariant Searching(Backward(adjacency, w), srcEdge, s, [])
        decreases Unvisited(s.order), |pq|
      {
        TracksLook(|edges|, dist, prev, seen, pq, s);
        var top, rest := PopLeast(pq);
        var u := top.v;
        Rest(pq, rest, top);
        if seen[u] {
          Parted(Backward(adjacency, w), s);
          TracksDrop(|edges|, dist, prev, seen, pq, s, top, rest);
          pq := rest;
          continue;
        }
        ghost var before := s.order;
        s := TracksTake(adjacency, w, srcEdge, dist, prev, seen, pq, s, top, rest);
        assert u in Unvisited(before) && Unvisited(s.order) == Unvisited(before) - {u};
        seen := seen[u := true];
        pq := rest;
        if u == dstEdge {
          visited, left := seen, pq;
          return;
        }
        dist, prev, pq, s := Scan(u, seed, now, dist, prev, seen, pq, srcEdge, s);
      }
      TracksLook(|edges|, dist, prev, seen, pq, s);
      visited, left := seen, pq;
    }

    /** Follows prev from the destination back to the source. */
    method Trace(srcEdge: nat, dstEdge: nat, dist: seq<Dist>, prev: seq<int>,
        ghost w: seq<real>, ghost visited: seq<bool>, ghost left: seq<Entry>, ghost s: Search<nat, (nat, nat)>)
      returns (path: seq<nat>)
      requires |adjacency| == |edges| == |w| && InRange(adjacency) && srcEdge < |edges| && dstEdge < |edges|
      requires Tracks(|edges|, dist, prev, visited, left, s) && Over(adjacency, w, srcEdge, dstEdge, s)
        && dist[dstEdge] != Inf
      ensures Drive(adjacency, path) && Joins(path, srcEdge, dstEdge) && Fin(Duration(w, path)) == dist[dstEdge]
    {
      hide Tracks, Backward, Back, Listed, Pointed, Over, Trailing, Drive, Duration, Reversed;
      ghost var i: nat := OverAt(adjacency, w, srcEdge, dstEdge, dist, prev, visited, left, s);
      TracksLook(|edges|, dist, prev, visited, left, s);
      var at: int := dstEdge;
      var back: seq<nat> := [];
      TraceStart(adjacency, w, dist, srcEdge, dstEdge);
      while at != -1
        invariant -1 <= at < |edges| && i < |s.order| && (at != -1 ==> s.order[i] == at)
        invariant Traced(adjacency, w, dist, srcEdge, dstEdge, at, Reversed(back))
        decreases if at == -1 then 0 else i + 1
      {
        ghost var j := Previous(adjacency, w, srcEdge, dist, prev, visited, left, s, i);
        TraceStep(adjacency, w, dist, srcEdge, dstEdge, at, Reversed(back), prev[at]);
        ReversedMore<nat>(back, at);
        back := back + [at];
        at := prev[at];
        i := if at == -1 then i else j;
      }
      path := Reversed(back);
    }

    /** The quickest drive from one edge to another; empty exactly when there is none. */
    method Dijkstra(srcEdge: nat, dstEdge: nat, seed: bv32, now: real) returns (path: seq<nat>)
      requires TrafficValid() && clock <= now && srcEdge < |edges| && dstEdge < |edges|
      ensures path == [] ==> forall drive :: !(Drive(adjacency, drive) && Joins(drive, srcEdge, dstEdge))
      ensures path != [] ==> Quickest(adjacency, WeightsAt(seed, now), srcEdge, dstEdge, path)
    {
      hide Tracks, Backward, Back, Over, Duration, WeightsAt, Weights, Healthy;
      var dist, prev, visited, left, s := Explore(srcEdge, dstEdge, seed, now);
      ghost var w := WeightsAt(seed, now);
      TracksLook(|edges|, dist, prev, visited, left, s);
      AllPositive(seed, now);
      if dist[dstEdge] == Inf {
        forall drive | Drive(adjacency, drive) && Joins(drive, srcEdge, dstEdge)
          ensures false
        {
          OverBounds(adjacency, w, srcEdge, dstEdge, s, drive);
        }
        return [];
      }
      path := Trace(srcEdge, dstEdge, dist, prev, w, visited, left, s);
      forall drive | Drive(adjacency, drive) && Joins(drive, srcEdge, dstEdge)
        ensures Duration(w, path) <= Duration(w, drive)
      {
        OverBounds(adjacency, w, srcEdge, dstEdge, s, drive);
      }
    }

    /** The decay timer fires. */
    method DecayEdgeInfo(now: real)
      requires Valid() && clock <= now
      modifies this`traffic, this`clock
      ensures Valid() && clock == now
      ensures forall i :: 0 <= i < |edges| ==> traffic[i] == Decayed(old(traffic[i]), edges[i])
    {
      for i := 0 to |traffic|
        invariant |traffic| == |edges|
        invariant forall j :: 0 <= j < i ==> traffic[j] == Decayed(old(traffic[j]), edges[j])
        invariant forall j :: i <= j < |traffic| ==> traffic[j] == old(traffic[j])
      {
        traffic := traffic[i := Decayed(traffic[i], edges[i])];
      }
      forall i | 0 <= i < |edges|
        ensures Healthy(traffic[i], edges[i], now)
      {
        DecayedHealthy(old(traffic[i]), edges[i], now);
      }
      clock := now;
    }

    /** The timer that fires every second. */
    method ResetRerouteCounter(now: real)
      requires Valid() && clock <= now
      modifies this`rerouteCountThisSecond, this`resets, this`clock
      ensures Valid() && clock == now && rerouteCountThisSecond == 0 && resets == old(resets) + [|sent|]
    {
      rerouteCountThisSecond := 0;
      resets := resets + [|sent|];
      clock := now;
    }

    method RouteDistance(route: seq<nat>) returns (distance: real)
      requires forall i :: 0 <= i < |route| ==> route[i] < |edges|
      ensures distance == Distance(edges, route)
    {
      distance := 0.0;
      for i := 0 to |route|
        invariant distance == Distance(edges, route[..i])
      {
        assert route[..i + 1][..i] == route[..i];
        if route[i] < |edges| {
          distance := distance + edges[route[i]].length;
        }
      }
      assert route[..|route|] == route;
    }

    method SendRoute(key: string, route: seq<nat>, now: real)
      modifies this`sent
      ensures key in vehicleMap ==>
        sent == old(sent) + [Sent(key, now, vehicleMap[key].address, vehicleMap[key].port, RouteMessage(route))]
      ensures key !in vehicleMap ==> sent == old(sent)
    {
      if key !in vehicleMap {
        return;
      }
      var entry := vehicleMap[key];
      sent := sent + [Sent(key, now, entry.address, entry.port, RouteMessage(route))];
    }

    /** Takes a report's speed and time into the traffic of its edge. */
    method Learn(edgeIdx: nat, speed: real, realTT: real, now: real)
      requires Valid() && clock <= now && edgeIdx < |edges|
      modifies this`traffic, this`clock
      ensures Valid() && clock == now
      ensures traffic == old(traffic)[edgeIdx := Observed(old(traffic[edgeIdx]), edges[edgeIdx], speed, realTT, now)]
    {
      ObservedHealthy(traffic[edgeIdx], edges[edgeIdx], speed, realTT, clock, now);
      var tr := traffic[edgeIdx];
      if tr.vehicleCount == 0 {
        tr := tr.(avgSpeed := speed);
      } else {
        tr := tr.(avgSpeed := (1.0 - EWMA_ALPHA) * tr.avgSpeed + EWMA_ALPHA * speed);
      }
      tr := tr.(vehicleCount := tr.vehicleCount + 1, lastUpdate := now);
      if realTT > REAL_TT_MIN_SEC {
        var maxAllowed := edges[edgeIdx].baseTravelTime * REAL_TT_MAX_RATIO;
        if realTT <= maxAllowed {
          if tr.realTTCount == 0 {
            tr := tr.(realTravelTime := realTT);
          } else {
            tr := tr.(realTravelTime := (1.0 - EWMA_ALPHA) * tr.realTravelTime + EWMA_ALPHA * realTT);
          }
          tr := tr.(realTTCount := tr.realTTCount + 1);
        }
      }
      traffic := traffic[edgeIdx := tr];
      clock := now;
    }

    /** Notes when and where the vehicle was looked at for a route. */
    ghost predicate Noted(lastSent: map<string, real>, lastEdge: map<string, nat>, key: string, edgeIdx: nat, now: real)
      reads this
    {
      lastRouteSent == lastSent[key := now] && lastRouteEdge == lastEdge[key := edgeIdx]
    }

    /** Sends the route if the trip is long enough, and notes the vehicle either way. */
    method Dispatch(key: string, edgeIdx: nat, path: seq<nat>, now: real)
      requires Valid() && clock == now && key in vehicleMap && rerouteCountThisSecond < MAX_REROUTES_PER_SEC
      requires forall i :: 0 <= i < |path| ==> path[i] < |edges|
      requires key in lastRouteSent ==> now - lastRouteSent[key] >= rerouteInterval
      modifies this`lastRouteSent, this`lastRouteEdge, this`rerouteCountThisSecond, this`sent
      ensures Valid() && Noted(old(lastRouteSent), old(lastRouteEdge), key, edgeIdx, now)
      ensures Distance(edges, path) < minRouteDistance ==> sent == old(sent)
      ensures Distance(edges, path) >= minRouteDistance ==>
        sent == old(sent) + [Sent(key, now, vehicleMap[key].address, vehicleMap[key].port, RouteMessage(path))]
      ensures rerouteCountThisSecond - old(rerouteCountThisSecond) == |sent| - |old(sent)|
    {
      hide TrafficValid, RouteMessage, Spaced;
      var distance := RouteDistance(path);
      if distance < minRouteDistance {
        SpacedNoted(sent, lastRouteSent, rerouteInterval, key, now);
        lastRouteSent := lastRouteSent[key := now];
        lastRouteEdge := lastRouteEdge[key := edgeIdx];
      } else {
        ghost var before := sent;
        SendRoute(key, path, now);
        SpacedMore(before, lastRouteSent, rerouteInterval, sent[|before|]);
        lastRouteSent := lastRouteSent[key := now];
        lastRouteEdge := lastRouteEdge[key := edgeIdx];
        rerouteCountThisSecond := rerouteCountThisSecond + 1;
      }
    }

    /** How a report from edgeIdx is answered, given what was noted, counted and sent before; `route` is the drive that
        was found, if any. */
    ghost predicate Answered(key: string, edgeIdx: nat, destIdx: nat, now: real,
        lastSent: map<string, real>, lastEdge: map<string, nat>, count: int, before: seq<Sent>, route: seq<nat>)
      requires TrafficValid() && key in vehicleMap
      reads this
    {
      // nothing happens when the last route is too recent, the ration is used up, or no drive leads to the destination
      && (route == [] <==>
            || (key in lastSent && now - lastSent[key] < rerouteInterval)
            || count >= MAX_REROUTES_PER_SEC
            || (forall drive :: !(Drive(adjacency, drive) && Joins(drive, edgeIdx, destIdx))))
      && (route == [] ==>
          lastRouteSent == lastSent && lastRouteEdge == lastEdge && rerouteCountThisSecond == count && sent == before)
      && (route != [] ==>
            && Quickest(adjacency, WeightsAt(HashVehicleKey(key), now), edgeIdx, destIdx, route)
            && Noted(lastSent, lastEdge, key, edgeIdx, now)
            && rerouteCountThisSecond - count == |sent| - |before|
            // only a trip that is long enough is sent
            && (Distance(edges, route) < minRouteDistance ==> sent == before)
            && (Distance(edges, route) >= minRouteDistance ==>
                  sent == before + [Sent(key, now, vehicleMap[key].address, vehicleMap[key].port,
                    RouteMessage(route))]))
    }

    /** Sends the vehicle a route if one is due, the second's ration is not used up, and the trip is long enough. */
    method Reroute(key: string, edgeIdx: nat, destIdx: nat, now: real) returns (ghost route: seq<nat>)
      requires Valid() && clock == now && edgeIdx < |edges| && destIdx < |edges| && edgeIdx != destIdx
        && key in vehicleMap
      modifies this`lastRouteSent, this`lastRouteEdge, this`rerouteCountThisSecond, this`sent
      ensures Valid()
      ensures Answered(key, edgeIdx, destIdx, now, old(lastRouteSent), old(lastRouteEdge), old(rerouteCountThisSecond),
        old(sent), route)
    {
      hide TrafficValid, RouteMessage, Spaced, Rationed, Distance, Duration, WeightsAt, Noted;
      route := [];
      var isFirstReport := key !in lastRouteSent;
      var sinceLast := if isFirstReport then 0.0 else now - lastRouteSent[key];
      var otherEdge := key in lastRouteEdge && lastRouteEdge[key] != edgeIdx;
      if !Due(isFirstReport, sinceLast, otherEdge, rerouteInterval) {
        return;
      }
      if rerouteCountThisSecond >= MAX_REROUTES_PER_SEC {
        return;
      }
      LookRoads();
      var path := Dijkstra(edgeIdx, destIdx, HashVehicleKey(key), now);
      if |path| >= 2 {
        Dispatch(key, edgeIdx, path, now);
      }
      route := path;
    }

    lemma LookRoads()
      requires TrafficValid()
      ensures |adjacency| == |edges|
    {
    }

    /** A vehicle's report arrives. */
    method SocketDataArrived(key: string, port: int, report: VehicleReport<real>, now: real)
        returns (ghost route: seq<nat>)
      requires Valid() && clock <= now
      modifies this`traffic, this`clock, this`vehicleMap, this`lastRouteSent, this`lastRouteEdge,
        this`rerouteCountThisSecond, this`sent
      ensures Valid() && clock == now
      ensures !(0 <= report.edgeIndex < |edges| && 0 <= report.destEdgeIndex < |edges|) ==>
        unchanged(this`traffic, this`vehicleMap, this`lastRouteSent, this`lastRouteEdge, this`rerouteCountThisSecond,
          this`sent)
      ensures 0 <= report.edgeIndex < |edges| && 0 <= report.destEdgeIndex < |edges| ==>
        && traffic == old(traffic)[report.edgeIndex :=
             Observed(old(traffic)[report.edgeIndex], edges[report.edgeIndex], report.speed, report.realTravelTime,
               now)]
        && vehicleMap == old(vehicleMap)[key := VehicleEntry(key, port, report.edgeIndex, report.destEdgeIndex)]
        && (report.edgeIndex == report.destEdgeIndex ==>
              unchanged(this`lastRouteSent, this`lastRouteEdge, this`rerouteCountThisSecond, this`sent))
        && (report.edgeIndex != report.destEdgeIndex ==>
              Answered(key, report.edgeIndex, report.destEdgeIndex, now,
                old(lastRouteSent), old(lastRouteEdge), old(rerouteCountThisSecond), old(sent), route))
    {
      route := [];
      var edgeIdx, destIdx := report.edgeIndex, report.destEdgeIndex;
      if edgeIdx < 0 || edgeIdx >= |edges| || destIdx < 0 || destIdx >= |edges| {
        clock := now;
        return;
      }
      Learn(edgeIdx, report.speed, report.realTravelTime, now);
      vehicleMap := vehicleMap[key := VehicleEntry(key, port, edgeIdx, destIdx)];
      if edgeIdx == destIdx {
        return;
      }
      route := Reroute(key, edgeIdx, destIdx, now);
    }

    /** One event: a report arrives, or a timer fires. */
    method HandleMessage(moment: Moment)
      requires Valid() && clock <= moment.time
      modifies this
      ensures Valid() && clock == moment.time
      ensures old(sent) <= sent && |sent| <= |old(sent)| + if moment.what.Report? then 1 else 0
      ensures |sent| > |old(sent)| ==> sent[|old(sent)|].key == moment.what.key && sent[|old(sent)|].time == moment.time
      ensures !moment.what.Reset? ==> rerouteCountThisSecond - old(rerouteCountThisSecond) == |sent| - |old(sent)|
      ensures |traffic| == |edges| && forall e: nat :: e < |edges| ==>
        Heeded(old(traffic)[e], edges[e], moment, |edges|, e, traffic[e])
    {
      hide TrafficValid, RouteMessage, Spaced, Quickest, Noted, Drive, Joins, Observed, Decayed;
      LookTraffic();
      match moment.what {
        case Report(key, port, report) =>
          ghost var route := SocketDataArrived(key, port, report, moment.time);
        case Decay => DecayEdgeInfo(moment.time);
        case Reset => ResetRerouteCounter(moment.time);
      }
      LookTraffic();
    }

    lemma LookTraffic()
      requires TrafficValid()
      ensures |traffic| == |edges| && Counting(traffic)
    {
    }

    lemma LookSpaced()
      requires Valid()
      ensures forall i, j :: 0 <= i < j < |sent| && sent[i].key == sent[j].key ==>
        sent[j].time - sent[i].time >= rerouteInterval
      ensures 0 <= rerouteCountThisSecond <= MAX_REROUTES_PER_SEC
    {
    }

    /** Any reports, decays and resets, one after the other. Whatever happened before, two routes to the same vehicle
        are an interval apart, and between resets no more routes leave than the limit, each for a report and at its
        time. Between decays, every edge has learnt just what was reported of it. */
    method Run(moments: seq<Moment>) returns (ghost marks: seq<nat>, ghost states: seq<seq<EdgeTraffic>>)
      requires Valid() && Timed(moments, clock)
      modifies this
      ensures Valid() && old(sent) <= sent
      ensures forall i, j :: 0 <= i < j < |sent| && sent[i].key == sent[j].key ==>
        sent[j].time - sent[i].time >= rerouteInterval
      ensures |marks| == |moments| + 1 && marks[0] == |old(sent)| && marks[|moments|] == |sent|
      ensures forall a, b :: 0 <= a <= b <= |moments| && (forall i :: a <= i < b ==> !moments[i].what.Reset?) ==>
        marks[b] <= marks[a] + MAX_REROUTES_PER_SEC
      ensures forall i :: 0 <= i < |moments| ==> LeftFor(moments, marks, sent, i)
      ensures |states| == |moments| + 1 && states[0] == old(traffic) && states[|moments|] == traffic
      ensures forall i :: 0 <= i < |states| ==> |states[i]| == |edges|
      ensures forall a, b, e: nat ::
        0 <= a <= b <= |moments| && e < |edges| && (forall i :: a <= i < b ==> !moments[i].what.Decay?) ==>
          Learnt(states[a][e], edges[e], HeardOn(moments[a..b], |edges|, e), states[b][e])
      ensures forall i, e: nat :: 0 <= i < |moments| && e < |edges| && moments[i].what.Decay? ==>
        Forgot(states[i][e], edges[e], states[i + 1][e])
    {
      hide TrafficValid, Spaced, Rationed, Counted, Learnt, Recorded, Forgot;
      marks, states := [|sent|], [traffic];
      LookTraffic();
      RecordedNone(edges, traffic);
      ghost var counts := [rerouteCountThisSecond];
      LookSpaced();
      CountedNone(marks, counts);
      for i := 0 to |moments|
        invariant Valid() && old(sent) <= sent && (forall j :: i <= j < |moments| ==> clock <= moments[j].time)
        invariant |marks| == |counts| == i + 1 && Counted(moments[..i], marks, counts)
        invariant marks[0] == |old(sent)| && marks[i] == |sent| && counts[i] == rerouteCountThisSecond
        invariant forall j :: 0 <= j < i ==> LeftFor(moments, marks, sent, j)
        invariant Recorded(edges, moments[..i], states) && |states| == i + 1 && states[0] == old(traffic)
        invariant states[i] == traffic && forall j :: 0 <= j <= i ==> |states[j]| == |edges| && Counting(states[j])
      {
        ghost var before := sent;
        HandleMessage(moments[i]);
        LookSpaced();
        forall j: nat | j < i
          ensures LeftFor(moments, marks + [|sent|], sent, j)
        {
          LeftForMore(moments, marks, |sent|, before, sent, j);
        }
        assert LeftFor(moments, marks + [|sent|], sent, i);
        CountedNext(moments[..i], marks, counts, moments[i], |sent|, rerouteCountThisSecond);
        marks, counts := marks + [|sent|], counts + [rerouteCountThisSecond];
        LookTraffic();
        RecordedNext(edges, moments[..i], states, moments[i], traffic);
        states := states + [traffic];
        assert moments[..i] + [moments[i]] == moments[..i + 1];
      }
      assert moments[..|moments|] == moments;
      RecordedAll(edges, moments, states);
      LookSpaced();
      forall a, b | 0 <= a <= b <= |moments| && forall i :: a <= i < b ==> !moments[i].what.Reset?
        ensures marks[b] <= marks[a] + MAX_REROUTES_PER_SEC
      {
        Stretch(moments, marks, counts, a, b);
      }
    }
  }

  lemma CountedNone(marks: seq<nat>, counts: seq<int>)
    requires |marks| == |counts| == 1 && 0 <= counts[0] <= MAX_REROUTES_PER_SEC
    ensures Counted([], marks, counts)
  {
  }
}
