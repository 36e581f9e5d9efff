/** What the server's weight of an edge means: the expected time, dearer the slower or denser the traffic is. */
module EdgeWeights {
  import opened RoadTraffic
  import opened TrafficServers

  /** The traffic moves: there is a limit to compare its speed with, and a speed. A speed of 0 is no speed. */
  predicate Moving(ed: EdgeData, tr: EdgeTraffic) {
    ed.speedLimit > 0.0 && tr.avgSpeed > 0.0
  }

  /** The edge is congested to this share, from 0 to 1: its traffic misses no more than the share of the limit and takes
      no more than the share of the reference density, and does one of the two. */
  predicate CongestedTo(ed: EdgeData, tr: EdgeTraffic, share: real) {
    && 0.0 <= share <= 1.0
    && (Moving(ed, tr) ==> tr.avgSpeed >= (1.0 - share) * ed.speedLimit)
    && (ed.length > 0.0 && share < 1.0 ==> tr.vehicleCount as real <= share * (DENSITY_REF * ed.length))
    && (share == 0.0
        || (Moving(ed, tr) && tr.avgSpeed == (1.0 - share) * ed.speedLimit)
        || (ed.length > 0.0 && tr.vehicleCount as real >= share * (DENSITY_REF * ed.length)))
  }

  /** The time that was learnt of the edge, or that it takes when it is empty. */
  function Base(ed: EdgeData, tr: EdgeTraffic): real {
    if tr.realTTCount > 0 then tr.realTravelTime else ed.baseTravelTime
  }

  /** A fifth of congestion and more makes the edge dearer in proportion; the draw spreads what vehicles see of it. */
  function Slowed(base: real, share: real, fade: real, k: real, jitter: real): real {
    if share * fade < 0.2 then base else base * (1.0 + share * fade * k) * jitter
  }

  /** The time that is expected of the edge at a share of congestion, which fades as the last report ages. */
  function Expected(s: TrafficServer, e: nat, seed: bv32, now: real, share: real): real
    requires s.TrafficValid() && e < |s.edges|
    reads s`traffic, s`clock
  {
    Slowed(Base(s.edges[e], s.traffic[e]), share, s.fade(now - s.traffic[e].lastUpdate), s.k, Jitter(e, seed))
  }

  lemma Quotient(a: real, b: real, q: real)
    requires b > 0.0
    ensures a >= q * b <==> a / b >= q
    ensures a <= q * b <==> a / b <= q
  {
    var x := a / b;
    assert x * b == a;
    if x >= q {
      assert x * b >= q * b;
    }
    if x <= q {
      assert x * b <= q * b;
    }
    if x < q {
      assert (q - x) * b > 0.0;
    }
    if x > q {
      assert (x - q) * b > 0.0;
    }
  }

  lemma Parts(ed: EdgeData, tr: EdgeTraffic)
    requires tr.vehicleCount >= 0
    ensures Moving(ed, tr) ==> tr.avgSpeed / ed.speedLimit > 0.0
    ensures ed.length > 0.0 ==> tr.vehicleCount as real / ed.length >= 0.0
    ensures ed.length > 0.0 ==>
      tr.vehicleCount as real / ed.length / DENSITY_REF == tr.vehicleCount as real / (DENSITY_REF * ed.length)
  {
    if Moving(ed, tr) {
      Quotient(tr.avgSpeed, ed.speedLimit, 0.0);
    }
    if ed.length > 0.0 {
      var n, l := tr.vehicleCount as real, ed.length;
      Quotient(n, l, 0.0);
      var x := n / l / DENSITY_REF;
      assert x * DENSITY_REF == n / l && n / l * l == n;
      assert x * (DENSITY_REF * l) == (x * DENSITY_REF) * l;
    }
  }

  /** How slow and how dense the traffic is, each from 0 to 1. */
  function Shares(ed: EdgeData, tr: EdgeTraffic): (real, real) {
    (1.0 - (if Moving(ed, tr) then Min(tr.avgSpeed / ed.speedLimit, 1.0) else 1.0),
     Min((if ed.length > 0.0 then tr.vehicleCount as real / ed.length else 0.0) / DENSITY_REF, 1.0))
  }

  lemma SlowShare(ed: EdgeData, tr: EdgeTraffic, share: real)
    requires tr.vehicleCount >= 0
    ensures 0.0 <= Shares(ed, tr).0 <= 1.0
    ensures 0.0 <= share <= 1.0 ==>
      (Shares(ed, tr).0 <= share <==> (Moving(ed, tr) ==> tr.avgSpeed >= (1.0 - share) * ed.speedLimit))
    ensures 0.0 < share <= 1.0 ==>
      (Shares(ed, tr).0 == share <==> Moving(ed, tr) && tr.avgSpeed == (1.0 - share) * ed.speedLimit)
  {
    if Moving(ed, tr) {
      Quotient(tr.avgSpeed, ed.speedLimit, 1.0 - share);
      Quotient(tr.avgSpeed, ed.speedLimit, 0.0);
    }
  }

  lemma DenseShare(ed: EdgeData, tr: EdgeTraffic, share: real)
    requires tr.vehicleCount >= 0
    ensures 0.0 <= Shares(ed, tr).1 <= 1.0
    ensures 0.0 <= share < 1.0 ==>
      (Shares(ed, tr).1 <= share <==>
        (ed.length > 0.0 ==> tr.vehicleCount as real <= share * (DENSITY_REF * ed.length)))
    ensures 0.0 < share <= 1.0 ==>
      (Shares(ed, tr).1 >= share <==>
        ed.length > 0.0 && tr.vehicleCount as real >= share * (DENSITY_REF * ed.length))
  {
    Parts(ed, tr);
    if ed.length > 0.0 {
      Quotient(tr.vehicleCount as real, DENSITY_REF * ed.length, share);
    }
  }

  lemma GreaterShare(ed: EdgeData, tr: EdgeTraffic, share: real)
    requires tr.vehicleCount >= 0
    ensures CongestedTo(ed, tr, share) <==> Max(Shares(ed, tr).0, Shares(ed, tr).1) == share
  {
    hide Shares, Moving;
    SlowShare(ed, tr, share);
    DenseShare(ed, tr, share);
  }

  lemma ShareIs(ed: EdgeData, tr: EdgeTraffic, share: real, fade: real)
    requires tr.vehicleCount >= 0 && CongestedTo(ed, tr, share)
    ensures Congestion(ed, tr, fade) == share * fade
  {
    hide CongestedTo;
    GreaterShare(ed, tr, share);
    assert Congestion(ed, tr, fade) == Max(Shares(ed, tr).0, Shares(ed, tr).1) * fade;
  }

  /** An edge is congested to just one share. */
  lemma ShareExists(ed: EdgeData, tr: EdgeTraffic) returns (share: real)
    requires tr.vehicleCount >= 0
    ensures CongestedTo(ed, tr, share) && forall other :: CongestedTo(ed, tr, other) ==> other == share
  {
    hide CongestedTo, Shares;
    share := Max(Shares(ed, tr).0, Shares(ed, tr).1);
    GreaterShare(ed, tr, share);
    forall other | CongestedTo(ed, tr, other)
      ensures other == share
    {
      GreaterShare(ed, tr, other);
    }
  }

  lemma EdgeWeightIs(ed: EdgeData, tr: EdgeTraffic, k: real, fade: real, e: nat, seed: bv32, share: real, now: real)
    requires Healthy(tr, ed, now) && CongestedTo(ed, tr, share)
    ensures EdgeWeight(ed, tr, k, fade, Draw(e, seed)) == Slowed(Base(ed, tr), share, fade, k, Jitter(e, seed))
  {
    hide Congestion, Draw, CongestedTo;
    ShareIs(ed, tr, share, fade);
  }

  /** The weight is the time expected at the share to which the edge is congested. */
  lemma WeightMeans(s: TrafficServer, e: nat, seed: bv32, now: real, share: real)
    requires s.TrafficValid() && e < |s.edges| && s.clock <= now && CongestedTo(s.edges[e], s.traffic[e], share)
    ensures s.GetEdgeWeight(e, seed, now) == Expected(s, e, seed, now, share)
  {
    hide EdgeWeight, Draw, CongestedTo, Slowed, Base, Congestion;
    var ed, tr := s.edges[e], s.traffic[e];
    assert Healthy(tr, ed, s.clock);
    EdgeWeightIs(ed, tr, s.k, s.fade(now - tr.lastUpdate), e, seed, share, s.clock);
  }

  /** Slow traffic: the share is what it misses of the limit. */
  lemma SlowWeight(s: TrafficServer, e: nat, seed: bv32, now: real, x: real)
    requires s.TrafficValid() && e < |s.edges| && s.clock <= now && s.edges[e].speedLimit > 0.0
    requires 0.0 < x <= 1.0 && s.traffic[e].avgSpeed == x * s.edges[e].speedLimit
    requires s.edges[e].length > 0.0 ==>
      s.traffic[e].vehicleCount as real <= (1.0 - x) * (DENSITY_REF * s.edges[e].length)
    ensures s.GetEdgeWeight(e, seed, now) == Expected(s, e, seed, now, 1.0 - x)
  {
    WeightMeans(s, e, seed, now, 1.0 - x);
  }

  /** Dense traffic: the share is what it takes of the reference density, at most the whole. */
  lemma DenseWeight(s: TrafficServer, e: nat, seed: bv32, now: real, y: real)
    requires s.TrafficValid() && e < |s.edges| && s.clock <= now && s.edges[e].length > 0.0
    requires 0.0 <= y && s.traffic[e].vehicleCount as real == y * (DENSITY_REF * s.edges[e].length)
    requires Moving(s.edges[e], s.traffic[e]) ==> s.traffic[e].avgSpeed >= (1.0 - y) * s.edges[e].speedLimit
    ensures s.GetEdgeWeight(e, seed, now) == Expected(s, e, seed, now, if y <= 1.0 then y else 1.0)
  {
    var full := DENSITY_REF * s.edges[e].length;
    assert y > 1.0 ==> (y - 1.0) * full > 0.0;
    WeightMeans(s, e, seed, now, if y <= 1.0 then y else 1.0);
  }

  /** An edge at its limit, with less than a fifth of the reference density, weighs the time that was learnt or that it
      takes when it is empty; with just a fifth it does too, once the last report has aged. */
  lemma FreeWeight(s: TrafficServer, e: nat, seed: bv32, now: real)
    requires s.TrafficValid() && e < |s.edges| && s.clock <= now && s.edges[e].length > 0.0
    requires Moving(s.edges[e], s.traffic[e]) ==> s.traffic[e].avgSpeed >= s.edges[e].speedLimit
    requires s.traffic[e].vehicleCount as real <= 0.2 * (DENSITY_REF * s.edges[e].length)
    requires s.traffic[e].vehicleCount as real < 0.2 * (DENSITY_REF * s.edges[e].length)
      || s.fade(now - s.traffic[e].lastUpdate) < 1.0
    ensures s.GetEdgeWeight(e, seed, now) ==
      if s.traffic[e].realTTCount > 0 then s.traffic[e].realTravelTime else s.edges[e].baseTravelTime
  {
    var n, full := s.traffic[e].vehicleCount as real, DENSITY_REF * s.edges[e].length;
    assert Healthy(s.traffic[e], s.edges[e], s.clock);
    var y := n / full;
    assert n == y * full;
    Quotient(n, full, 0.2);
    Quotient(n, full, 0.0);
    var fade := s.fade(now - s.traffic[e].lastUpdate);
    assert 0.0 < fade <= 1.0;
    if Moving(s.edges[e], s.traffic[e]) {
      assert (1.0 - y) * s.edges[e].speedLimit <= s.edges[e].speedLimit;
    }
    DenseWeight(s, e, seed, now, y);
    assert y * fade <= y && (fade < 1.0 ==> y * fade < 0.2);
  }

  // ---------- slower and denser traffic ----------

  /** What the weight of a congested edge is multiplied with may not be less than 1 at the share where congestion begins
      to count, or an edge that just became congested gets lighter. */
  predicate Steep(k: real, jitter: real) {
    (1.0 + 0.2 * k) * jitter >= 1.0
  }

  lemma Scale(c: real, x: real, y: real)
    requires c > 0.0
    ensures x <= y <==> c * x <= c * y
    ensures x <= y <==> x * c <= y * c
  {
    if x < y {
      assert c * (y - x) > 0.0;
    }
    if y < x {
      assert c * (x - y) > 0.0;
    }
  }

  lemma Divided(c: real, x: real, y: real)
    requires c > 0.0 && x <= y
    ensures x / c <= y / c
  {
    Scale(c, x / c, y / c);
  }

  lemma SharesGrow(ed: EdgeData, tr: EdgeTraffic, more: EdgeTraffic)
    requires 0 <= tr.vehicleCount <= more.vehicleCount
    requires more.avgSpeed == tr.avgSpeed || 0.0 < more.avgSpeed <= tr.avgSpeed
    ensures Shares(ed, tr).0 <= Shares(ed, more).0 && Shares(ed, tr).1 <= Shares(ed, more).1
  {
    if Moving(ed, tr) {
      Divided(ed.speedLimit, more.avgSpeed, tr.avgSpeed);
    }
    if ed.length > 0.0 {
      Divided(ed.length, tr.vehicleCount as real, more.vehicleCount as real);
    }
  }

  lemma ShareGrows(ed: EdgeData, tr: EdgeTraffic, more: EdgeTraffic, share: real, share': real)
    requires CongestedTo(ed, tr, share) && CongestedTo(ed, more, share')
    requires 0 <= tr.vehicleCount <= more.vehicleCount
    requires more.avgSpeed == tr.avgSpeed || 0.0 < more.avgSpeed <= tr.avgSpeed
    ensures share <= share'
  {
    hide CongestedTo, Shares;
    SharesGrow(ed, tr, more);
    GreaterShare(ed, tr, share);
    GreaterShare(ed, more, share');
  }

  lemma Rise(c: real, c': real, k: real, jitter: real)
    requires 0.0 <= c <= c' && k >= 0.0 && jitter > 0.0
    ensures (1.0 + c * k) * jitter <= (1.0 + c' * k) * jitter
  {
    if k > 0.0 {
      Scale(k, c, c');
    }
    Scale(jitter, 1.0 + c * k, 1.0 + c' * k);
  }

  lemma Regroup(base: real, m: real, jitter: real)
    ensures base * m * jitter == base * (m * jitter)
  {
  }

  /** More congestion makes an edge no lighter, but for one case: where it begins to count, and a lucky draw takes more
      off than that adds. */
  lemma SlowedGrows(base: real, share: real, share': real, fade: real, k: real, jitter: real)
    requires base > 0.0 && 0.0 <= share <= share' && 0.0 < fade && k >= 0.0 && jitter > 0.0
    ensures Slowed(base, share, fade, k, jitter) <= Slowed(base, share', fade, k, jitter) <==>
      !(share * fade < 0.2 <= share' * fade) || (1.0 + share' * fade * k) * jitter >= 1.0
  {
    var c, c' := share * fade, share' * fade;
    Scale(fade, share, share');
    Scale(fade, 0.0, share);
    Rise(c, c', k, jitter);
    var m, m' := (1.0 + c * k) * jitter, (1.0 + c' * k) * jitter;
    Regroup(base, 1.0 + c * k, jitter);
    Regroup(base, 1.0 + c' * k, jitter);
    Scale(base, m, m');
    Scale(base, 1.0, m');
  }

  /** For which draws more congestion never makes an edge lighter: all of them from K = 45/41 on (`SteepForAll`), and
      where the report is too old for any congestion to count. */
  lemma SlowedGrowsAlways(base: real, fade: real, k: real, jitter: real)
    requires base > 0.0 && 0.0 < fade <= 1.0 && k >= 0.0 && jitter > 0.0
    ensures (forall x, y :: 0.0 <= x <= y <= 1.0 ==>
      Slowed(base, x, fade, k, jitter) <= Slowed(base, y, fade, k, jitter))
      <==> fade < 0.2 || Steep(k, jitter)
  {
    hide Slowed;
    forall x, y | 0.0 <= x <= y <= 1.0 && (fade < 0.2 || Steep(k, jitter))
      ensures Slowed(base, x, fade, k, jitter) <= Slowed(base, y, fade, k, jitter)
    {
      SlowedGrows(base, x, y, fade, k, jitter);
      Scale(fade, y, 1.0);
      if y * fade >= 0.2 {
        Rise(0.2, y * fade, k, jitter);
      }
    }
    if fade >= 0.2 && !Steep(k, jitter) {
      var y := 0.2 / fade;
      assert y * fade == 0.2;
      Scale(fade, y, 1.0);
      Scale(fade, 0.0, y);
      SlowedGrows(base, 0.0, y, fade, k, jitter);
      assert (1.0 + 0.2 * k) * jitter < 1.0;
      assert !(Slowed(base, 0.0, fade, k, jitter) <= Slowed(base, y, fade, k, jitter));
    }
  }

  lemma SteepForAll(k: real, e: nat, seed: bv32)
    requires k >= 45.0 / 41.0
    ensures Steep(k, Jitter(e, seed))
  {
    hide Jitter;
    var j := Jitter(e, seed);
    Rise(0.2 * (45.0 / 41.0), 0.2 * k, 1.0, j);
    Scale(1.0 + 0.2 * (45.0 / 41.0), 0.82, j);
  }

  /** Two servers know the same of an edge, but that in the second one the traffic is slower or denser. */
  ghost predicate Slower(a: TrafficServer, b: TrafficServer, e: nat)
    reads a`traffic, a`clock, b`traffic, b`clock
  {
    && a.TrafficValid() && b.TrafficValid() && e < |a.edges| && e < |b.edges|
    && a.edges[e] == b.edges[e] && a.k == b.k && a.fade == b.fade
    && (var slow, fast := b.traffic[e], a.traffic[e];
        && slow == fast.(avgSpeed := slow.avgSpeed, vehicleCount := slow.vehicleCount)
        && slow.vehicleCount >= fast.vehicleCount
        && (slow.avgSpeed == fast.avgSpeed || 0.0 < slow.avgSpeed <= fast.avgSpeed))
  }

  /** The weight does not fall as traffic gets slower or denser. */
  lemma SlowerWeighsMore(a: TrafficServer, b: TrafficServer, e: nat, seed: bv32, now: real)
    requires Slower(a, b, e) && a.clock <= now && b.clock <= now
    requires Steep(a.k, Jitter(e, seed)) || a.fade(now - a.traffic[e].lastUpdate) < 0.2
    ensures a.GetEdgeWeight(e, seed, now) <= b.GetEdgeWeight(e, seed, now)
  {
    hide CongestedTo, Slowed, Jitter, Steep;
    var ed, fast, slow := a.edges[e], a.traffic[e], b.traffic[e];
    assert Healthy(fast, ed, a.clock);
    var share := ShareExists(ed, fast);
    var share' := ShareExists(ed, slow);
    ShareGrows(ed, fast, slow, share, share');
    WeightMeans(a, e, seed, now, share);
    WeightMeans(b, e, seed, now, share');
    BoundShare(ed, fast, share);
    BoundShare(ed, slow, share');
    SlowedGrowsAlways(Base(ed, fast), a.fade(now - fast.lastUpdate), a.k, Jitter(e, seed));
  }

  lemma BoundShare(ed: EdgeData, tr: EdgeTraffic, share: real)
    requires CongestedTo(ed, tr, share)
    ensures 0.0 <= share <= 1.0
  {
  }

  /** With a smaller K it may: for a vehicle whose seed is 0, edge 0 at four fifths of its limit is lighter than the
      same edge at its limit. */
  method SlowerYetLighter(k: real) returns (a: TrafficServer, b: TrafficServer)
    requires 0.0 <= k < 45.0 / 41.0
    ensures Slower(a, b, 0) && a.k == k && a.clock == b.clock == 0.0
    ensures a.traffic[0].avgSpeed == 10.0 && b.traffic[0].avgSpeed == 8.0
    ensures a.GetEdgeWeight(0, 0, 0.0) > b.GetEdgeWeight(0, 0, 0.0)
  {
    a := OneReport(k, 10.0);
    b := OneReport(k, 8.0);
    LighterThere(a, b);
  }

  /** A server that got one report on its one edge. */
  method OneReport(k: real, speed: real) returns (s: TrafficServer)
    requires 0.0 <= k
    ensures s.TrafficValid() && s.clock == 0.0 && s.k == k && s.fade == (_ => 1.0)
    ensures s.edges == [EdgeData(100.0, 10.0, 10.0)] && s.traffic == [EdgeTraffic(1, speed, 0.0, 0.0, 0)]
  {
    s := new TrafficServer([EdgeData(100.0, 10.0, 10.0)], [[]], k, _ => 1.0, 20.0, 100.0);
    s.Learn(0, speed, 0.0, 0.0);
  }

  lemma LighterThere(a: TrafficServer, b: TrafficServer)
    requires a.TrafficValid() && b.TrafficValid() && a.clock == b.clock == 0.0
    requires 0.0 <= a.k == b.k < 45.0 / 41.0 && a.fade(0.0) == b.fade(0.0) == 1.0
    requires a.edges == b.edges == [EdgeData(100.0, 10.0, 10.0)]
    requires a.traffic == [EdgeTraffic(1, 10.0, 0.0, 0.0, 0)] && b.traffic == [EdgeTraffic(1, 8.0, 0.0, 0.0, 0)]
    ensures a.GetEdgeWeight(0, 0, 0.0) > b.GetEdgeWeight(0, 0, 0.0)
  {
    hide Slowed, Healthy, Jitter, CongestedTo, Draw;
    TenAndEight();
    WeightMeans(a, 0, 0, 0.0, 0.1);
    WeightMeans(b, 0, 0, 0.0, 0.2);
    SlowedGrows(10.0, 0.1, 0.2, 1.0, a.k, 0.82);
    FirstJitter();
  }

  lemma TenAndEight()
    ensures CongestedTo(EdgeData(100.0, 10.0, 10.0), EdgeTraffic(1, 10.0, 0.0, 0.0, 0), 0.1)
    ensures CongestedTo(EdgeData(100.0, 10.0, 10.0), EdgeTraffic(1, 8.0, 0.0, 0.0, 0), 0.2)
  {
  }

  lemma FirstJitter()
    ensures Jitter(0, 0) == 0.82
  {
    hide Draw;
    FirstDraw();
  }
}
