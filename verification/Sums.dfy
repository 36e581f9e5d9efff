/** Sums of real numbers, and averages in which newer numbers count more. */
module Sums {

  function Total(s: seq<real>): real {
    if s == [] then 0.0 else s[0] + Total(s[1..])
  }

  lemma {:induction false} TotalLast(s: seq<real>, x: real)
    ensures Total(s + [x]) == Total(s) + x
  {
    if s != [] {
      TotalLast(s[1..], x);
      assert (s + [x])[1..] == s[1..] + [x];
    }
  }

  function Scaled(c: real, s: seq<real>): (t: seq<real>)
    ensures |t| == |s| && forall i :: 0 <= i < |t| ==> t[i] == c * s[i]
  {
    seq(|s|, i requires 0 <= i < |s| => c * s[i])
  }

  lemma TotalFirst(x: real, s: seq<real>)
    ensures Total([x] + s) == x + Total(s) && Total([]) == 0.0
  {
    assert ([x] + s)[1..] == s;
  }

  lemma ScaledFirst(c: real, s: seq<real>)
    requires s != []
    ensures Scaled(c, s) == [c * s[0]] + Scaled(c, s[1..]) && Total(s) == s[0] + Total(s[1..])
  {
    forall i | 0 <= i < |s|
      ensures Scaled(c, s)[i] == ([c * s[0]] + Scaled(c, s[1..]))[i]
    {
      if i > 0 {
        assert s[1..][i - 1] == s[i];
      }
    }
  }

  lemma Distribute(c: real, a: real, b: real)
    ensures c * (a + b) == c * a + c * b
  {
  }

  lemma {:induction false} TotalScaled(c: real, s: seq<real>)
    ensures Total(Scaled(c, s)) == c * Total(s)
  {
    hide Total, Scaled;
    if s == [] {
      TotalFirst(0.0, []);
      assert Scaled(c, s) == [];
    } else {
      TotalScaled(c, s[1..]);
      ScaledFirst(c, s);
      TotalFirst(c * s[0], Scaled(c, s[1..]));
      Distribute(c, s[0], Total(s[1..]));
    }
  }

  function Power(x: real, n: nat): real {
    if n == 0 then 1.0 else x * Power(x, n - 1)
  }

  /** What the i-th of n numbers counts for: the first with 0.7^(n-1), each later one with 0.3 * 0.7^(n-1-i). */
  function Share(n: nat, i: nat): real
    requires i < n
  {
    if i == 0 then Power(0.7, n - 1) else 0.3 * Power(0.7, n - 1 - i)
  }

  function Parts(s: seq<real>): (t: seq<real>)
    ensures |t| == |s| && forall i :: 0 <= i < |t| ==> t[i] == Share(|s|, i) * s[i]
  {
    seq(|s|, i requires 0 <= i < |s| => Share(|s|, i) * s[i])
  }

  /** The average of numbers, the oldest first. */
  function Average(s: seq<real>): real
    requires s != []
  {
    Total(Parts(s))
  }

  lemma AverageOne(x: real)
    ensures Average([x]) == x
  {
    assert Share(1, 0) == 1.0;
    assert Parts([x]) == [x];
    assert Total([x][1..]) == 0.0;
  }

  lemma ShareNext(n: nat, i: nat)
    requires i < n
    ensures Share(n + 1, i) == 0.7 * Share(n, i) && Share(n + 1, n) == 0.3
  {
  }

  /** A newer number takes three tenths of the place of the others. */
  lemma AverageNext(s: seq<real>, x: real)
    requires s != []
    ensures Average(s + [x]) == 0.7 * Average(s) + 0.3 * x
  {
    hide Share;
    var more := s + [x];
    forall i | 0 <= i < |s|
      ensures Parts(more)[i] == Scaled(0.7, Parts(s))[i]
    {
      ShareNext(|s|, i);
      Regroup(Share(|s|, i), s[i]);
    }
    ShareNext(|s|, 0);
    assert Parts(more) == Scaled(0.7, Parts(s)) + [0.3 * x];
    TotalLast(Scaled(0.7, Parts(s)), 0.3 * x);
    TotalScaled(0.7, Parts(s));
  }

  lemma Regroup(a: real, b: real)
    ensures (0.7 * a) * b == 0.7 * (a * b)
  {
  }

  /** The average lies between the least and the greatest of the numbers. */
  lemma {:induction false} AverageBetween(s: seq<real>, low: real, high: real)
    requires s != [] && forall i :: 0 <= i < |s| ==> low <= s[i] <= high
    ensures low <= Average(s) <= high
    decreases |s|
  {
    hide Average;
    var older := s[..|s| - 1];
    assert s == older + [s[|s| - 1]];
    if older == [] {
      AverageOne(s[0]);
    } else {
      AverageBetween(older, low, high);
      AverageNext(older, s[|s| - 1]);
    }
  }

  /** A newer number that differs from the average moves it strictly towards itself. */
  lemma AverageMoves(s: seq<real>, x: real)
    requires s != []
    ensures x > Average(s) ==> Average(s) < Average(s + [x]) < x
    ensures x < Average(s) ==> x < Average(s + [x]) < Average(s)
    ensures x == Average(s) ==> Average(s + [x]) == x
  {
    hide Average;
    AverageNext(s, x);
  }
}
