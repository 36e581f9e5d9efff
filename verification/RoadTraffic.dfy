/** What the server knows of the traffic on one edge, and how long it expects a drive over it to take. */
module RoadTraffic {

  const EWMA_ALPHA := 0.3
  const DECAY_MULT := 0.92
  const NOISE_AMPLITUDE := 0.18
  const CONGESTION_THR := 0.20
  const REAL_TT_MAX_RATIO := 5.0
  const REAL_TT_MIN_SEC := 0.5
  const DENSITY_REF := 0.10
  const DEFAULT_SPEED := 13.9

  datatype EdgeData = EdgeData(length: real, speedLimit: real, baseTravelTime: real)

  datatype EdgeTraffic = EdgeTraffic(vehicleCount: int, avgSpeed: real, lastUpdate: real, realTravelTime: real,
      realTTCount: int)

  /** Traffic of an edge nobody reported on. */
  const QUIET := EdgeTraffic(0, DEFAULT_SPEED, 0.0, 0.0, 0)

  function Min(a: real, b: real): real {
    if b < a then b else a
  }

  function Max(a: real, b: real): real {
    if a < b then b else a
  }

  /** Conversion of a real number to an integer drops the fraction. */
  function Truncated(x: real): int {
    if x >= 0.0 then x.Floor else -(-x).Floor
  }

  function Blend(old_: real, new_: real): real {
    (1.0 - EWMA_ALPHA) * old_ + EWMA_ALPHA * new_
  }

  /** The traffic after a vehicle reported its speed and the time it took. */
  function Observed(tr: EdgeTraffic, ed: EdgeData, speed: real, realTT: real, now: real): EdgeTraffic {
    var seen := tr.(
      avgSpeed := if tr.vehicleCount == 0 then speed else Blend(tr.avgSpeed, speed),
      vehicleCount := tr.vehicleCount + 1,
      lastUpdate := now);
    if realTT > REAL_TT_MIN_SEC && realTT <= ed.baseTravelTime * REAL_TT_MAX_RATIO then
      seen.(
        realTravelTime := if tr.realTTCount == 0 then realTT else Blend(tr.realTravelTime, realTT),
        realTTCount := tr.realTTCount + 1)
    else
      seen
  }

  /** The traffic after one decay. */
  function Decayed(tr: EdgeTraffic, ed: EdgeData): EdgeTraffic {
    var vehicleCount := Truncated(tr.vehicleCount as real * DECAY_MULT);
    var realTTCount := Truncated(tr.realTTCount as real * DECAY_MULT);
    EdgeTraffic(
      vehicleCount,
      if vehicleCount == 0 then Blend(tr.avgSpeed, if ed.speedLimit > 0.0 then ed.speedLimit else DEFAULT_SPEED)
        else tr.avgSpeed,
      tr.lastUpdate,
      if realTTCount == 0 then 0.0 else tr.realTravelTime,
      realTTCount)
  }

  /** What holds of an edge's traffic in every state the server can reach. */
  ghost predicate Healthy(tr: EdgeTraffic, ed: EdgeData, now: real) {
    && tr.vehicleCount >= 0 && tr.realTTCount >= 0 && tr.lastUpdate <= now
    && (tr.realTTCount == 0 <==> tr.realTravelTime == 0.0)
    && (tr.realTTCount > 0 ==> REAL_TT_MIN_SEC < tr.realTravelTime <= REAL_TT_MAX_RATIO * ed.baseTravelTime)
  }

  lemma ObservedHealthy(tr: EdgeTraffic, ed: EdgeData, speed: real, realTT: real, then_: real, now: real)
    requires Healthy(tr, ed, then_)
    ensures Healthy(Observed(tr, ed, speed, realTT, now), ed, now)
  {
    var limit := REAL_TT_MAX_RATIO * ed.baseTravelTime;
    if REAL_TT_MIN_SEC < realTT <= limit && tr.realTTCount > 0 {
      BlendBetween(tr.realTravelTime, realTT, REAL_TT_MIN_SEC, limit);
    }
  }

  lemma BlendBetween(a: real, b: real, low: real, high: real)
    requires low < a <= high && low < b <= high
    ensures low < Blend(a, b) <= high
  {
  }

  lemma DecayedHealthy(tr: EdgeTraffic, ed: EdgeData, now: real)
    requires Healthy(tr, ed, now)
    ensures Healthy(Decayed(tr, ed), ed, now)
    ensures Decayed(tr, ed).vehicleCount < tr.vehicleCount || Decayed(tr, ed).vehicleCount == tr.vehicleCount == 0
    ensures Decayed(tr, ed).realTTCount < tr.realTTCount || Decayed(tr, ed).realTTCount == tr.realTTCount == 0
  {
  }

  /** The traffic after n decays without a report between. */
  function DecayedTimes(tr: EdgeTraffic, ed: EdgeData, n: nat): EdgeTraffic
    decreases n
  {
    if n == 0 then tr else DecayedTimes(Decayed(tr, ed), ed, n - 1)
  }

  /** Decays alone forget every report: after as many decays as were counted, nothing is. */
  lemma {:induction false} DecaysForget(tr: EdgeTraffic, ed: EdgeData, now: real, n: nat)
    requires Healthy(tr, ed, now) && n >= tr.vehicleCount && n >= tr.realTTCount
    ensures var end := DecayedTimes(tr, ed, n);
      end.vehicleCount == 0 && end.realTTCount == 0 && end.realTravelTime == 0.0
    decreases n
  {
    if n > 0 {
      DecayedHealthy(tr, ed, now);
      DecaysForget(Decayed(tr, ed), ed, now, n - 1);
    }
  }

  /** The travel time a weight starts from: the measured one if there is one. */
  function BaseTime(ed: EdgeData, tr: EdgeTraffic): real {
    if tr.realTTCount > 0 && tr.realTravelTime > 0.0 then tr.realTravelTime else ed.baseTravelTime
  }

  /** How congested the edge is, from 0 to 1: the worse of slow and dense, faded by `fade` as the last report ages. */
  function Congestion(ed: EdgeData, tr: EdgeTraffic, fade: real): real {
    var speedRatio := if ed.speedLimit > 0.0 && tr.avgSpeed > 0.0 then Min(tr.avgSpeed / ed.speedLimit, 1.0) else 1.0;
    var density := if ed.length > 0.0 then tr.vehicleCount as real / ed.length else 0.0;
    var densityRatio := Min(density / DENSITY_REF, 1.0);
    Max(1.0 - speedRatio, densityRatio) * fade
  }

  /** The expected time: r, from 0 up to 1, is the vehicle's own draw for this edge. */
  function EdgeWeight(ed: EdgeData, tr: EdgeTraffic, k: real, fade: real, r: real): real {
    var congestion := Congestion(ed, tr, fade);
    if congestion < CONGESTION_THR then
      BaseTime(ed, tr)
    else
      BaseTime(ed, tr) * (1.0 + congestion * k) * (1.0 + (r - 0.5) * 2.0 * NOISE_AMPLITUDE)
  }

  lemma CongestionBounds(ed: EdgeData, tr: EdgeTraffic, fade: real)
    requires tr.vehicleCount >= 0 && 0.0 < fade <= 1.0
    ensures 0.0 <= Congestion(ed, tr, fade) <= 1.0
  {
    if ed.length > 0.0 {
      assert tr.vehicleCount as real / ed.length >= 0.0;
    }
    if ed.speedLimit > 0.0 && tr.avgSpeed > 0.0 {
      assert tr.avgSpeed / ed.speedLimit > 0.0;
    }
    var speedRatio := if ed.speedLimit > 0.0 && tr.avgSpeed > 0.0 then Min(tr.avgSpeed / ed.speedLimit, 1.0) else 1.0;
    var density := if ed.length > 0.0 then tr.vehicleCount as real / ed.length else 0.0;
    Scaled(Max(1.0 - speedRatio, Min(density / DENSITY_REF, 1.0)), fade, 1.0);
  }

  /** A number from 0 to 1 takes a share of the other. */
  lemma Scaled(share: real, x: real, top: real)
    requires 0.0 <= share <= 1.0 && 0.0 <= x <= top
    ensures 0.0 <= share * x <= top
  {
    assert share * x <= 1.0 * x;
  }

  lemma Grows(a: real, b: real, a': real, b': real)
    requires 0.0 < a <= a' && 0.0 < b <= b'
    ensures 0.0 < a * b <= a' * b'
  {
    assert a * b <= a' * b;
    assert a' * b <= a' * b';
  }

  /** Every weight is positive, and not above the largest accepted time with full congestion and the worst draw. */
  lemma WeightBounds(ed: EdgeData, tr: EdgeTraffic, now: real, k: real, fade: real, r: real)
    requires Healthy(tr, ed, now) && ed.baseTravelTime > 0.0
    requires k >= 0.0 && 0.0 < fade <= 1.0 && 0.0 <= r < 1.0
    ensures 0.0 < EdgeWeight(ed, tr, k, fade, r)
      <= REAL_TT_MAX_RATIO * ed.baseTravelTime * (1.0 + k) * (1.0 + NOISE_AMPLITUDE)
  {
    hide Congestion, BaseTime;
    CongestionBounds(ed, tr, fade);
    BaseBounds(ed, tr, now);
    var base, top := BaseTime(ed, tr), REAL_TT_MAX_RATIO * ed.baseTravelTime;
    var congestion, noise := Congestion(ed, tr, fade), 1.0 + (r - 0.5) * 2.0 * NOISE_AMPLITUDE;
    ProductBounds(base, congestion, noise, top, k, 1.0 + NOISE_AMPLITUDE);
    ProductBounds(base, 0.0, 1.0, top, k, 1.0 + NOISE_AMPLITUDE);
    Alone(base, k);
    assert EdgeWeight(ed, tr, k, fade, r) == if congestion < CONGESTION_THR then base
      else base * (1.0 + congestion * k) * noise;
  }

  lemma BaseBounds(ed: EdgeData, tr: EdgeTraffic, now: real)
    requires Healthy(tr, ed, now) && ed.baseTravelTime > 0.0
    ensures 0.0 < BaseTime(ed, tr) <= REAL_TT_MAX_RATIO * ed.baseTravelTime
  {
  }

  lemma ProductBounds(base: real, share: real, noise: real, top: real, k: real, worst: real)
    requires 0.0 < base <= top && 0.0 <= share <= 1.0 && k >= 0.0 && 0.0 < noise <= worst
    ensures 0.0 < base * (1.0 + share * k) * noise <= top * (1.0 + k) * worst
  {
    Scaled(share, k, k);
    Grows(base, 1.0 + share * k, top, 1.0 + k);
    Grows(base * (1.0 + share * k), noise, top * (1.0 + k), worst);
  }

  lemma Alone(base: real, k: real)
    ensures base * (1.0 + 0.0 * k) * 1.0 == base
  {
  }

  /** The finalizer of MurmurHash3. */
  function Mixed(h0: bv32): bv32 {
    var h1 := (h0 ^ (h0 >> 16)) * 0x85ebca6b;
    var h2 := (h1 ^ (h1 >> 13)) * 0xc2b2ae35;
    h2 ^ (h2 >> 16)
  }

  /** The vehicle's draw for an edge: a fixed hash of the two. */
  function Draw(edgeIdx: nat, seed: bv32): (r: real)
    ensures 0.0 <= r < 1.0
  {
    ((Mixed(seed ^ (edgeIdx * 2654435761 % 0x1_0000_0000) as bv32) as int) % 0x100_0000) as real / 16777216.0
  }

  /** Two published values of the finalizer. */
  lemma MixedKnown()
    ensures Mixed(0) == 0 && Mixed(1) == 0x514e28b7
  {
  }

  /** Another draw of the vehicle with seed 0. */
  lemma SecondDraw()
    ensures Draw(1, 0) == 16581355.0 / 16777216.0
  {
    SecondMixed();
    hide Mixed;
    var zero: bv32, one: bv32 := 0, 2654435761;
    assert 1 * 2654435761 % 0x1_0000_0000 == 2654435761;
    assert (2654435761 as int) as bv32 == one;
    assert zero ^ one == one;
    assert (0x11fd02eb as bv32) as int == 0x11fd02eb;
  }

  lemma SecondMixed()
    ensures Mixed(2654435761) == 0x11fd02eb
  {
  }

  lemma FirstDraw()
    ensures Draw(0, 0) == 0.0
  {
    MixedKnown();
    hide Mixed;
    var zero: bv32 := 0;
    assert 0 * 2654435761 % 0x1_0000_0000 == 0;
    assert (0 as int) as bv32 == zero;
    assert zero ^ zero == zero;
    assert zero as int == 0;
  }

  /** What a vehicle's draw does to the weight of a congested edge. */
  function Jitter(edgeIdx: nat, seed: bv32): (j: real)
    ensures 1.0 - 0.18 <= j < 1.0 + 0.18
  {
    1.0 + (Draw(edgeIdx, seed) - 0.5) * 2.0 * NOISE_AMPLITUDE
  }

  /** The weights that one vehicle's search reads at one time; `fade` is the exponential of the report's age. */
  function Weights(edges: seq<EdgeData>, traffic: seq<EdgeTraffic>, k: real, fade: real -> real, seed: bv32,
      now: real): (w: seq<real>)
    requires |edges| == |traffic|
    ensures |w| == |edges|
  {
    seq(|edges|, i requires 0 <= i < |edges| =>
      EdgeWeight(edges[i], traffic[i], k, fade(now - traffic[i].lastUpdate), Draw(i, seed)))
  }
}
