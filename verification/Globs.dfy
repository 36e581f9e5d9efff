/** Patterns as sequences of elements, and what it means that a string matches one. */
module Globs {

  /** In a set, characters 2k and 2k + 1 are the ends of a range; in a number range, -1 is an end that is not given. */
  datatype Elem =
    | LiteralString(literal: string)
    | AnyChar
    | CommonChar
    | InSet(chars: string)
    | NotInSet(chars: string)
    | NumRange(from: int, upto: int)
    | AnySeq
    | CommonSeq
    | End

  predicate IsDigit(c: char) {
    '0' <= c <= '9'
  }

  function Upper(c: char): char {
    if 'a' <= c <= 'z' then c - 'a' + 'A' else c
  }

  /** The characters are the same, or the same but for case if that does not matter. */
  predicate Same(c: char, d: char, sensitive: bool) {
    if sensitive then c == d else Upper(c) == Upper(d)
  }

  /** When case does not matter, a letter is the same as itself in the other case, 32 places away; nothing else is. */
  lemma SameMeans(c: char, d: char)
    ensures Same(c, d, true) <==> c == d
    ensures Same(c, d, false) <==>
      c == d || ('a' <= c <= 'z' && c as int - d as int == 32) || ('a' <= d <= 'z' && d as int - c as int == 32)
  {
  }

  /** Some range of the set has the character. */
  predicate Member(c: char, chars: string, sensitive: bool) {
    var x := if sensitive then c else Upper(c);
    exists k :: 0 <= k < |chars| / 2 && chars[2 * k] <= x <= chars[2 * k + 1]
  }

  function Digits(s: string, i: nat, j: nat): (v: nat)
    requires i <= j <= |s| && forall x :: i <= x < j ==> IsDigit(s[x])
  {
    if i == j then
      0
    else
      assert IsDigit(s[j - 1]);
      10 * Digits(s, i, j - 1) + (s[j - 1] as int - '0' as int)
  }

  /** The digits from i to j are all the digits from i on, and at least one. */
  predicate Number(s: string, i: nat, j: nat)
    requires i <= j <= |s|
  {
    i < j && (forall x :: i <= x < j ==> IsDigit(s[x])) && (j == |s| || !IsDigit(s[j]))
  }

  /** What one element may stand for: the part of the string from i up to j. */
  predicate Fits(e: Elem, s: string, i: nat, j: nat, sensitive: bool)
    requires i <= j <= |s|
  {
    match e
    case LiteralString(t) => j == i + |t| && forall x :: 0 <= x < |t| ==> Same(s[i + x], t[x], sensitive)
    case AnyChar => j == i + 1
    case CommonChar => j == i + 1 && s[i] != '.'
    case InSet(chars) => j == i + 1 && Member(s[i], chars, sensitive)
    case NotInSet(chars) => j == i + 1 && !Member(s[i], chars, sensitive)
    case NumRange(from, upto) =>
      Number(s, i, j) && (from < 0 || from <= Digits(s, i, j)) && (upto < 0 || Digits(s, i, j) <= upto)
    case AnySeq => true
    case CommonSeq => '.' !in s[i..j]
    case End => i == j == |s|
  }

  /** The string is cut into parts that the elements stand for, one after the other. */
  ghost predicate Cut(p: seq<Elem>, s: string, cuts: seq<nat>, sensitive: bool) {
    && |cuts| == |p| + 1 && (forall k :: 0 <= k < |cuts| ==> cuts[k] <= |s|)
    && (forall k :: 0 <= k < |p| ==> cuts[k] <= cuts[k + 1] && Fits(p[k], s, cuts[k], cuts[k + 1], sensitive))
  }

  /** The pattern matches the part of the string from i up to j. */
  ghost predicate Covers(p: seq<Elem>, s: string, i: nat, j: nat, sensitive: bool) {
    exists cuts :: Cut(p, s, cuts, sensitive) && cuts[0] == i && cuts[|p|] == j
  }

  /** The pattern matches the whole string. */
  ghost predicate Accepts(p: seq<Elem>, s: string, sensitive: bool) {
    Covers(p, s, 0, |s|, sensitive)
  }

  lemma CoversNone(s: string, i: nat, j: nat, sensitive: bool)
    ensures Covers([], s, i, j, sensitive) <==> i == j <= |s|
  {
    if i == j <= |s| {
      assert Cut([], s, [i], sensitive);
    }
  }

  lemma CutRest(p: seq<Elem>, s: string, cuts: seq<nat>, sensitive: bool)
    requires p != [] && Cut(p, s, cuts, sensitive)
    ensures cuts[0] <= cuts[1] <= |s| && Fits(p[0], s, cuts[0], cuts[1], sensitive)
      && Cut(p[1..], s, cuts[1..], sensitive)
  {
    hide Fits;
  }

  lemma CutMore(p: seq<Elem>, s: string, i: nat, rest: seq<nat>, sensitive: bool)
    requires p != [] && Cut(p[1..], s, rest, sensitive) && i <= rest[0] && Fits(p[0], s, i, rest[0], sensitive)
    ensures Cut(p, s, [i] + rest, sensitive)
  {
    hide Fits;
    var cuts := [i] + rest;
    assert forall k :: 0 <= k < |p| ==>
      cuts[k + 1] == rest[k] && (k > 0 ==> p[k] == p[1..][k - 1] && cuts[k] == rest[k - 1]);
  }

  /** A match begins with a part for the first element. */
  lemma CoversFirst(p: seq<Elem>, s: string, i: nat, j: nat, sensitive: bool)
    requires p != []
    ensures Covers(p, s, i, j, sensitive) <==>
      exists m: nat :: i <= m <= |s| && Fits(p[0], s, i, m, sensitive) && Covers(p[1..], s, m, j, sensitive)
  {
    hide Fits;
    if Covers(p, s, i, j, sensitive) {
      var cuts :| Cut(p, s, cuts, sensitive) && cuts[0] == i && cuts[|p|] == j;
      CutRest(p, s, cuts, sensitive);
      assert Covers(p[1..], s, cuts[1], j, sensitive);
    }
    if m: nat :| i <= m <= |s| && Fits(p[0], s, i, m, sensitive) && Covers(p[1..], s, m, j, sensitive) {
      var rest :| Cut(p[1..], s, rest, sensitive) && rest[0] == m && rest[|p| - 1] == j;
      CutMore(p, s, i, rest, sensitive);
      assert ([i] + rest)[|p|] == j;
    }
  }

  /** A match of two patterns in a row is a match of each. */
  lemma {:induction false} CoversJoin(p: seq<Elem>, q: seq<Elem>, s: string, i: nat, j: nat, sensitive: bool)
    ensures Covers(p + q, s, i, j, sensitive)
      <==> exists m: nat :: Covers(p, s, i, m, sensitive) && Covers(q, s, m, j, sensitive)
  {
    if p == [] {
      assert [] + q == q;
      CoversNone(s, i, i, sensitive);
      forall m: nat | Covers(p, s, i, m, sensitive)
        ensures m == i
      {
        CoversNone(s, i, m, sensitive);
      }
      if Covers(q, s, i, j, sensitive) {
        CoversBounds(q, s, i, j, sensitive);
      }
    } else {
      CoversFirst(p + q, s, i, j, sensitive);
      assert (p + q)[1..] == p[1..] + q && (p + q)[0] == p[0];
      if x: nat :| i <= x <= |s| && Fits(p[0], s, i, x, sensitive) && Covers(p[1..] + q, s, x, j, sensitive) {
        CoversJoin(p[1..], q, s, x, j, sensitive);
        var m: nat :| Covers(p[1..], s, x, m, sensitive) && Covers(q, s, m, j, sensitive);
        CoversFirst(p, s, i, m, sensitive);
      }
      if m: nat :| Covers(p, s, i, m, sensitive) && Covers(q, s, m, j, sensitive) {
        CoversFirst(p, s, i, m, sensitive);
        var x: nat :| i <= x <= |s| && Fits(p[0], s, i, x, sensitive) && Covers(p[1..], s, x, m, sensitive);
        CoversJoin(p[1..], q, s, x, j, sensitive);
      }
    }
  }

  lemma CoversBounds(p: seq<Elem>, s: string, i: nat, j: nat, sensitive: bool)
    requires Covers(p, s, i, j, sensitive)
    ensures i <= |s| && j <= |s|
  {
  }
}
