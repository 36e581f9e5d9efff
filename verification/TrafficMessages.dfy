/** The two messages between vehicles and the server. */
module TrafficMessages {

  const MAX_EDGES := 64

  datatype VehicleReport<D> = VehicleReport(
    edgeIndex: int, destEdgeIndex: int, speed: D, timestamp: D, realTravelTime: D, laneChangeCount: int)

  datatype ServerRoute = ServerRoute(routeLength: int, routeEdges: seq<int>)

  /** The message for a route: its first 64 edges, and -1 where there are fewer. */
  function RouteMessage(route: seq<nat>): ServerRoute {
    var len := if |route| < MAX_EDGES then |route| else MAX_EDGES;
    ServerRoute(len, seq<int>(MAX_EDGES, i requires 0 <= i < MAX_EDGES => if i < len then route[i] as int else -1))
  }

  /** The edges a vehicle takes from the message. */
  function RouteOf(msg: ServerRoute): seq<int>
    requires 0 <= msg.routeLength <= |msg.routeEdges|
  {
    msg.routeEdges[..msg.routeLength]
  }

  /** The message fills 64 slots; a vehicle takes from it the first 64 edges of the route, or all of them. */
  lemma RouteMessageKeeps(route: seq<nat>)
    ensures var msg := RouteMessage(route);
      |msg.routeEdges| == MAX_EDGES && 0 <= msg.routeLength <= MAX_EDGES
      && |RouteOf(msg)| == msg.routeLength && (|route| <= MAX_EDGES ==> msg.routeLength == |route|)
      && (|route| > MAX_EDGES ==> msg.routeLength == MAX_EDGES)
      && (forall i :: 0 <= i < msg.routeLength ==> RouteOf(msg)[i] == route[i])
      && (forall i :: msg.routeLength <= i < MAX_EDGES ==> msg.routeEdges[i] == -1)
  {
  }
}
