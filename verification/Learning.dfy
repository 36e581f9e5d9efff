/** What an edge's traffic is after any number of reports, and after any number of decays. */
module Learning {
  import opened RoadTraffic
  import Sums

  /** What a report says of the edge it is about. */
  datatype Heard = Heard(speed: real, realTT: real, time: real)

  function Speeds(heard: seq<Heard>): (s: seq<real>)
    ensures |s| == |heard| && forall i :: 0 <= i < |s| ==> s[i] == heard[i].speed
  {
    seq(|heard|, i requires 0 <= i < |heard| => heard[i].speed)
  }

  predicate Credible(ed: EdgeData, realTT: real) {
    0.5 < realTT <= 5.0 * ed.baseTravelTime
  }

  /** The travel times that are not too short or too long to be true. */
  function Times(ed: EdgeData, heard: seq<Heard>): seq<real> {
    if heard == [] then []
    else
      var last := heard[|heard| - 1].realTT;
      Times(ed, heard[..|heard| - 1]) + if Credible(ed, last) then [last] else []
  }

  /** The average of the new numbers, and of the one known before if it came from reports. */
  function Smoothed(known: real, counts: bool, news: seq<real>): real {
    var all := if counts then [known] + news else news;
    if all == [] then known else Sums.Average(all)
  }

  /** The traffic afterwards is what was heard, on top of what was known. */
  ghost predicate Learnt(before: EdgeTraffic, ed: EdgeData, heard: seq<Heard>, after: EdgeTraffic) {
    && after.vehicleCount == before.vehicleCount + |heard|
    && after.realTTCount == before.realTTCount + |Times(ed, heard)|
    && after.lastUpdate == (if heard == [] then before.lastUpdate else heard[|heard| - 1].time)
    && after.avgSpeed == Smoothed(before.avgSpeed, before.vehicleCount > 0, Speeds(heard))
    && after.realTravelTime == Smoothed(before.realTravelTime, before.realTTCount > 0, Times(ed, heard))
  }

  lemma SmoothedNone(known: real, counts: bool)
    ensures Smoothed(known, counts, []) == known
  {
    hide Sums.Average;
    Sums.AverageOne(known);
    assert [known] + [] == [known];
  }

  lemma SmoothedNext(known: real, counts: bool, news: seq<real>, x: real)
    ensures Smoothed(known, counts, news + [x]) ==
      if counts || news != [] then 0.7 * Smoothed(known, counts, news) + 0.3 * x else x
  {
    hide Sums.Average;
    var all := if counts then [known] + news else news;
    if all == [] {
      Sums.AverageOne(x);
      assert news + [x] == [x];
    } else {
      Sums.AverageNext(all, x);
      assert [known] + (news + [x]) == ([known] + news) + [x];
    }
  }

  lemma LearntNone(tr: EdgeTraffic, ed: EdgeData)
    ensures Learnt(tr, ed, [], tr)
  {
    SmoothedNone(tr.avgSpeed, tr.vehicleCount > 0);
    SmoothedNone(tr.realTravelTime, tr.realTTCount > 0);
    assert Speeds([]) == [];
  }

  /** One more report. */
  lemma LearntNext(before: EdgeTraffic, ed: EdgeData, heard: seq<Heard>, tr: EdgeTraffic, h: Heard)
    requires Learnt(before, ed, heard, tr) && before.vehicleCount >= 0 && before.realTTCount >= 0
    ensures Learnt(before, ed, heard + [h], Observed(tr, ed, h.speed, h.realTT, h.time))
  {
    hide Smoothed;
    var more, times := heard + [h], Times(ed, heard);
    assert more[..|heard|] == heard;
    assert Speeds(more) == Speeds(heard) + [h.speed];
    SmoothedNext(before.avgSpeed, before.vehicleCount > 0, Speeds(heard), h.speed);
    SmoothedNext(before.realTravelTime, before.realTTCount > 0, times, h.realTT);
    assert Times(ed, more) == times + if Credible(ed, h.realTT) then [h.realTT] else [];
    assert times + [] == times;
    var after := Observed(tr, ed, h.speed, h.realTT, h.time);
    assert after.avgSpeed == Smoothed(before.avgSpeed, before.vehicleCount > 0, Speeds(more));
    assert after.realTravelTime == Smoothed(before.realTravelTime, before.realTTCount > 0, Times(ed, more));
  }

  /** On an edge of which nothing was known, the speed afterwards is the average of the speeds reported; it lies between
      the least and the greatest of them. */
  lemma FirstReports(before: EdgeTraffic, ed: EdgeData, heard: seq<Heard>, after: EdgeTraffic, low: real, high: real)
    requires Learnt(before, ed, heard, after) && before.vehicleCount == 0 && heard != []
    requires forall i :: 0 <= i < |heard| ==> low <= heard[i].speed <= high
    ensures after.avgSpeed == Sums.Average(Speeds(heard)) && low <= after.avgSpeed <= high
  {
    Sums.AverageBetween(Speeds(heard), low, high);
  }

  /** A report of another speed moves the average strictly towards that speed, one of the same speed leaves it. */
  lemma ReportMoves(tr: EdgeTraffic, ed: EdgeData, h: Heard, after: EdgeTraffic)
    requires Learnt(tr, ed, [h], after) && tr.vehicleCount > 0
    ensures h.speed > tr.avgSpeed ==> tr.avgSpeed < after.avgSpeed < h.speed
    ensures h.speed < tr.avgSpeed ==> h.speed < after.avgSpeed < tr.avgSpeed
    ensures h.speed == tr.avgSpeed ==> after.avgSpeed == tr.avgSpeed
  {
    hide Smoothed;
    SmoothedNone(tr.avgSpeed, true);
    SmoothedNext(tr.avgSpeed, true, [], h.speed);
    assert Speeds([h]) == [] + [h.speed];
  }

  // ---------- decays ----------

  function Limit(ed: EdgeData): real {
    if ed.speedLimit > 0.0 then ed.speedLimit else 13.9
  }

  /** One decay: of both counts 92 percent are kept, rounded down; what no report is left of is forgotten, a measured
      time at once, a speed by three tenths of its distance from the limit. */
  ghost predicate Forgot(before: EdgeTraffic, ed: EdgeData, after: EdgeTraffic) {
    && 0 <= 100 * after.vehicleCount <= 92 * before.vehicleCount < 100 * (after.vehicleCount + 1)
    && 0 <= 100 * after.realTTCount <= 92 * before.realTTCount < 100 * (after.realTTCount + 1)
    && after.lastUpdate == before.lastUpdate
    && after.avgSpeed == before.avgSpeed
         + (if after.vehicleCount > 0 then 0.0 else 0.3 * (Limit(ed) - before.avgSpeed))
    && after.realTravelTime == (if after.realTTCount > 0 then before.realTravelTime else 0.0)
  }

  lemma DecayedForgot(tr: EdgeTraffic, ed: EdgeData)
    requires tr.vehicleCount >= 0 && tr.realTTCount >= 0
    ensures Forgot(tr, ed, Decayed(tr, ed))
  {
    Kept(tr.vehicleCount);
    Kept(tr.realTTCount);
  }

  lemma Kept(n: int)
    requires n >= 0
    ensures var m := Truncated(n as real * DECAY_MULT); 0 <= 100 * m <= 92 * n < 100 * (m + 1)
  {
    var x := n as real * DECAY_MULT;
    assert 100.0 * x == 92.0 * n as real;
    var m := Truncated(x);
    assert m as real <= x < m as real + 1.0;
    assert (100 * m) as real <= (92 * n) as real < (100 * (m + 1)) as real;
  }

  /** Once no report counts any more, each decay brings the speed nearer to the limit. */
  lemma {:induction false} SpeedRecovers(tr: EdgeTraffic, ed: EdgeData, n: nat)
    requires tr.vehicleCount == 0 && tr.realTTCount >= 0
    ensures DecayedTimes(tr, ed, n).vehicleCount == 0
    ensures DecayedTimes(tr, ed, n).avgSpeed - Limit(ed) == Sums.Power(0.7, n) * (tr.avgSpeed - Limit(ed))
    decreases n
  {
    if n > 0 {
      var next := Decayed(tr, ed);
      DecayedForgot(tr, ed);
      SpeedRecovers(next, ed, n - 1);
      var p, d := Sums.Power(0.7, n - 1), tr.avgSpeed - Limit(ed);
      assert next.avgSpeed - Limit(ed) == 0.7 * d;
      Sums.Regroup(p, d);
      assert p * (0.7 * d) == 0.7 * (p * d);
    }
  }
}
