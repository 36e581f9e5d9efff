/** How the two messages between vehicles and the server are put into bytes. */
module TrafficMsgSerializers {
  import opened BitStreams
  import opened Fields
  import opened MemoryInputStreams
  import opened MemoryOutputStreams
  import opened TrafficMessages

  type Int32 = x: int | -0x8000_0000 <= x < 0x8000_0000

  /** The 64 bits of a floating-point number, as a number. */
  type Double = x: nat | x < 0x1_0000_0000_0000_0000

  const REPORT_BITS: nat := 8 * 36
  const ROUTE_BITS: nat := 8 * 260

  /** The unsigned number with the same 32 bits. */
  function ToWord(x: Int32): nat {
    if x < 0 then x + 0x1_0000_0000 else x
  }

  function FromWord(w: nat): Int32
    requires w < 0x1_0000_0000
  {
    if w >= 0x8000_0000 then w - 0x1_0000_0000 else w
  }

  function Word(x: Int32): Field {
    Field(Bytes(4, true), ToWord(x))
  }

  function Long(d: Double): Field {
    Field(Bytes(8, true), d)
  }

  /** A report whose numbers are 32-bit integers. */
  ghost predicate Small(r: VehicleReport<Double>) {
    && -0x8000_0000 <= r.edgeIndex < 0x8000_0000 && -0x8000_0000 <= r.destEdgeIndex < 0x8000_0000
    && -0x8000_0000 <= r.laneChangeCount < 0x8000_0000
  }

  ghost function ReportFields(r: VehicleReport<Double>): seq<Field>
    requires Small(r)
  {
    [Word(r.edgeIndex), Word(r.destEdgeIndex), Long(r.speed), Long(r.timestamp), Long(r.realTravelTime),
      Word(r.laneChangeCount)]
  }

  /** A message with 64 slots, all of it 32-bit integers. */
  ghost predicate Full(msg: ServerRoute) {
    && -0x8000_0000 <= msg.routeLength < 0x8000_0000 && |msg.routeEdges| == MAX_EDGES
    && forall i :: 0 <= i < MAX_EDGES ==> -0x8000_0000 <= msg.routeEdges[i] < 0x8000_0000
  }

  ghost function RouteFields(msg: ServerRoute): (s: seq<Field>)
    requires Full(msg)
    ensures |s| == MAX_EDGES + 1
  {
    [Word(msg.routeLength)] + seq(MAX_EDGES, i requires 0 <= i < MAX_EDGES => Word(msg.routeEdges[i]))
  }

  lemma WordFits(x: Int32)
    ensures Fits(Word(x)) && Width(Word(x).shape) == 32 && FromWord(ToWord(x)) == x
  {
  }

  lemma LongFits(d: Double)
    ensures Fits(Long(d)) && Width(Long(d).shape) == 64
  {
  }

  /** Writes one more integer after the fields done. */
  method WriteInt(stream: MemoryOutputStream, x: Int32, ghost start: seq<bool>, ghost done: seq<Field>)
      returns (ghost done': seq<Field>)
    requires stream.Valid() && stream.length % 4 == 0 && forall f :: f in done ==> Fits(f)
    requires stream.Content() == start + AllBits(done)
    modifies stream
    ensures stream.Valid() && stream.length == old(stream.length) + 32
    ensures done' == done + [Word(x)] && (forall f :: f in done' ==> Fits(f))
      && stream.Content() == start + AllBits(done')
  {
    hide BytesBits, ToBe, Bits, Tidy, Fits;
    WordFits(x);
    done' := done + [Word(x)];
    More(start, done, Word(x));
    assert Pow256(4) == 0x1_0000_0000;
    stream.WriteUint32Be(ToWord(x));
  }

  lemma More(start: seq<bool>, done: seq<Field>, f: Field)
    requires (forall g :: g in done ==> Fits(g)) && Fits(f)
    ensures start + AllBits(done + [f]) == start + AllBits(done) + FieldBits(f)
  {
    hide FieldBits, Fits;
    assert (done + [f])[..|done|] == done;
  }

  method WriteDouble(stream: MemoryOutputStream, d: Double, ghost start: seq<bool>, ghost done: seq<Field>)
      returns (ghost done': seq<Field>)
    requires stream.Valid() && stream.length % 4 == 0 && forall f :: f in done ==> Fits(f)
    requires stream.Content() == start + AllBits(done)
    modifies stream
    ensures stream.Valid() && stream.length == old(stream.length) + 64
    ensures done' == done + [Long(d)] && (forall f :: f in done' ==> Fits(f))
      && stream.Content() == start + AllBits(done')
  {
    hide BytesBits, ToBe, Bits, Tidy, Fits;
    LongFits(d);
    done' := done + [Long(d)];
    More(start, done, Long(d));
    assert Pow256(8) == 0x1_0000_0000_0000_0000;
    stream.WriteUint64Be(d);
  }

  method SerializeReport(stream: MemoryOutputStream, msg: VehicleReport<Double>)
    requires stream.Valid() && stream.length % 4 == 0 && Small(msg)
    modifies stream
    ensures stream.Valid() && (forall f :: f in ReportFields(msg) ==> Fits(f))
    ensures stream.Content() == old(stream.Content()) + AllBits(ReportFields(msg))
      && stream.length == old(stream.length) + REPORT_BITS
  {
    hide Bits, Tidy, Fits, AllBits, Word, Long;
    ghost var start := stream.Content();
    NoFields();
    ghost var done := WriteInt(stream, msg.edgeIndex, start, []);
    done := WriteInt(stream, msg.destEdgeIndex, start, done);
    done := WriteDouble(stream, msg.speed, start, done);
    done := WriteDouble(stream, msg.timestamp, start, done);
    done := WriteDouble(stream, msg.realTravelTime, start, done);
    done := WriteInt(stream, msg.laneChangeCount, start, done);
    assert done == ReportFields(msg);
  }

  lemma NoFields()
    ensures AllBits([]) == []
  {
  }

  method SerializeRoute(stream: MemoryOutputStream, msg: ServerRoute)
    requires stream.Valid() && stream.length % 4 == 0 && Full(msg)
    modifies stream
    ensures stream.Valid() && (forall f :: f in RouteFields(msg) ==> Fits(f))
    ensures stream.Content() == old(stream.Content()) + AllBits(RouteFields(msg))
      && stream.length == old(stream.length) + ROUTE_BITS
  {
    hide Bits, Tidy, Fits, AllBits, Word;
    ghost var start := stream.Content();
    NoFields();
    ghost var done := WriteInt(stream, msg.routeLength, start, []);
    for i := 0 to MAX_EDGES
      invariant stream.Valid() && stream.length == old(stream.length) + 32 * (i + 1)
      invariant done == RouteFields(msg)[..i + 1] && forall f :: f in done ==> Fits(f)
      invariant stream.Content() == start + AllBits(done)
    {
      done := WriteInt(stream, msg.routeEdges[i], start, done);
    }
    assert done == RouteFields(msg);
  }

  /** The fields done are the bits from the start to the position, unless the stream was too short for them. */
  ghost predicate Reading(stream: MemoryInputStream, start: nat, bits: nat, done: seq<Field>)
    reads stream
  {
    stream.Valid()
    && (start + bits <= stream.length ==>
          && (forall f :: f in done ==> Fits(f))
          && stream.position == start + bits && AllBits(done) == stream.Content()[start..start + bits])
  }

  method ReadInt(stream: MemoryInputStream, ghost start: nat, ghost bits: nat, ghost done: seq<Field>)
    returns (x: Int32, ghost done': seq<Field>)
    requires Reading(stream, start, bits, done)
    modifies stream
    ensures done' == done + [Word(x)] && Reading(stream, start, bits + 32, done')
  {
    hide BytesBits, ToBe, Bits, Fits, AllBits;
    var at := stream.position;
    var w := stream.ReadUint32Be();
    assert Pow256(4) == 0x1_0000_0000;
    x := if w < 0x1_0000_0000 then FromWord(w) else 0;
    done' := done + [Word(x)];
    if start + bits + 32 <= stream.length {
      WordFits(x);
      MoreRead(stream.Content(), start, at, at + 32, done, Word(x));
    }
  }

  lemma MoreRead(content: seq<bool>, start: nat, at: nat, end: nat, done: seq<Field>, f: Field)
    requires (forall g :: g in done ==> Fits(g)) && Fits(f)
    requires start <= at <= end <= |content| && AllBits(done) == content[start..at] && FieldBits(f) == content[at..end]
    ensures (forall g :: g in done + [f] ==> Fits(g)) && AllBits(done + [f]) == content[start..end]
  {
    hide FieldBits, Fits;
    assert (done + [f])[..|done|] == done;
    assert content[start..end] == content[start..at] + content[at..end];
  }

  method ReadDouble(stream: MemoryInputStream, ghost start: nat, ghost bits: nat, ghost done: seq<Field>)
    returns (d: Double, ghost done': seq<Field>)
    requires Reading(stream, start, bits, done)
    modifies stream
    ensures done' == done + [Long(d)] && Reading(stream, start, bits + 64, done')
  {
    hide BytesBits, ToBe, Bits, Fits, AllBits;
    var at := stream.position;
    var w := stream.ReadUint64Be();
    assert Pow256(8) == 0x1_0000_0000_0000_0000;
    d := if w < 0x1_0000_0000_0000_0000 then w else 0;
    done' := done + [Long(d)];
    if start + bits + 64 <= stream.length {
      LongFits(d);
      MoreRead(stream.Content(), start, at, at + 64, done, Long(d));
    }
  }

  method DeserializeReport(stream: MemoryInputStream) returns (msg: VehicleReport<Double>)
    requires stream.Valid()
    modifies stream
    ensures Small(msg) && Reading(stream, old(stream.position), REPORT_BITS, ReportFields(msg))
  {
    hide Bits, Fits, AllBits, Word, Long, Reading;
    ghost var start := stream.position;
    ReadingNone(stream);
    var edgeIndex, done := ReadInt(stream, start, 0, []);
    var destEdgeIndex, laneChangeCount;
    var speed, timestamp, realTravelTime;
    destEdgeIndex, done := ReadInt(stream, start, 32, done);
    speed, done := ReadDouble(stream, start, 64, done);
    timestamp, done := ReadDouble(stream, start, 128, done);
    realTravelTime, done := ReadDouble(stream, start, 192, done);
    laneChangeCount, done := ReadInt(stream, start, 256, done);
    msg := VehicleReport(edgeIndex, destEdgeIndex, speed, timestamp, realTravelTime, laneChangeCount);
    assert done == ReportFields(msg);
  }

  lemma ReadingNone(stream: MemoryInputStream)
    requires stream.Valid()
    ensures Reading(stream, stream.position, 0, [])
  {
  }

  method DeserializeRoute(stream: MemoryInputStream) returns (msg: ServerRoute)
    requires stream.Valid()
    modifies stream
    ensures Full(msg) && Reading(stream, old(stream.position), ROUTE_BITS, RouteFields(msg))
  {
    hide Bits, Fits, AllBits, Word, Reading;
    ghost var start := stream.position;
    ReadingNone(stream);
    var len, done := ReadInt(stream, start, 0, []);
    var edges: seq<Int32> := [];
    for i := 0 to MAX_EDGES
      invariant |edges| == i && Reading(stream, start, 32 * (i + 1), done)
      invariant |done| == i + 1 && done[0] == Word(len) && forall j :: 0 <= j < i ==> done[j + 1] == Word(edges[j])
    {
      var x;
      x, done := ReadInt(stream, start, 32 * (i + 1), done);
      edges := edges + [x];
    }
    msg := ServerRoute(len, edges);
    assert done == RouteFields(msg);
  }

  /** A message is told by its fields. */
  lemma ReportUnique(a: VehicleReport<Double>, b: VehicleReport<Double>)
    requires Small(a) && Small(b) && ReportFields(a) == ReportFields(b)
    ensures a == b
  {
    var x, y := ReportFields(a), ReportFields(b);
    assert x[0] == y[0] && x[1] == y[1] && x[2] == y[2] && x[3] == y[3] && x[4] == y[4] && x[5] == y[5];
    WordUnique(a.edgeIndex, b.edgeIndex);
    WordUnique(a.destEdgeIndex, b.destEdgeIndex);
    WordUnique(a.laneChangeCount, b.laneChangeCount);
  }

  lemma WordUnique(a: Int32, b: Int32)
    ensures Word(a) == Word(b) ==> a == b
  {
  }

  lemma RouteUnique(a: ServerRoute, b: ServerRoute)
    requires Full(a) && Full(b) && RouteFields(a) == RouteFields(b)
    ensures a == b
  {
    hide Word;
    var x, y := RouteFields(a), RouteFields(b);
    assert x[0] == y[0];
    WordUnique(a.routeLength, b.routeLength);
    forall i | 0 <= i < MAX_EDGES
      ensures a.routeEdges[i] == b.routeEdges[i]
    {
      assert x[i + 1] == y[i + 1];
      WordUnique(a.routeEdges[i], b.routeEdges[i]);
    }
  }

  /** Decoding an encoded report gives it back; it takes 36 bytes. */
  method TransferReport(msg: VehicleReport<Double>) returns (received: VehicleReport<Double>, bytes: seq<bv8>)
    requires Small(msg)
    ensures received == msg && |bytes| == 36
  {
    hide Bits, Fits, AllBits, Word, Long;
    var out := new MemoryOutputStream();
    SerializeReport(out, msg);
    bytes := out.data;
    var input := new MemoryInputStream(out.data, out.length);
    received := DeserializeReport(input);
    ReportShapes(msg, received);
    FieldsUnique(ReportFields(received), ReportFields(msg));
    ReportUnique(received, msg);
  }

  lemma ReportShapes(a: VehicleReport<Double>, b: VehicleReport<Double>)
    requires Small(a) && Small(b)
    ensures Shapes(ReportFields(a)) == Shapes(ReportFields(b))
  {
    SameShapes(ReportFields(a), ReportFields(b));
  }

  lemma SameShapes(a: seq<Field>, b: seq<Field>)
    requires |a| == |b| && forall i :: 0 <= i < |a| ==> a[i].shape == b[i].shape
    ensures Shapes(a) == Shapes(b)
  {
  }

  /** Decoding an encoded route message gives it back; it takes 260 bytes. */
  method TransferRoute(msg: ServerRoute) returns (received: ServerRoute, bytes: seq<bv8>)
    requires Full(msg)
    ensures received == msg && |bytes| == 260
  {
    hide Bits, Fits, AllBits;
    var out := new MemoryOutputStream();
    SerializeRoute(out, msg);
    bytes := out.data;
    var input := new MemoryInputStream(out.data, out.length);
    received := DeserializeRoute(input);
    SameShapes(RouteFields(msg), RouteFields(received));
    FieldsUnique(RouteFields(received), RouteFields(msg));
    RouteUnique(received, msg);
  }

  /** From the server's route through the bytes to the vehicle: it gets the first 64 edges, or all of them. */
  method DeliverRoute(route: seq<nat>) returns (edges: seq<int>)
    requires forall i :: 0 <= i < |route| ==> route[i] < 0x8000_0000
    ensures |edges| == if |route| < MAX_EDGES then |route| else MAX_EDGES
    ensures forall i :: 0 <= i < |edges| ==> edges[i] == route[i]
  {
    RouteMessageKeeps(route);
    var msg := RouteMessage(route);
    var received, _ := TransferRoute(msg);
    edges := RouteOf(received);
  }
}
