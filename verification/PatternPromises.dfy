/** What the documented elements of a pattern match, from the pattern's text to the matcher's answer. */
module PatternPromises {
  import opened Globs
  import opened Options
  import opened PatternMatchers
  import opened PatternSyntax
  import opened PatternTexts

  /** The matcher, set to the pattern, says that the line matches. */
  ghost predicate Matched(pattern: string, dotted: bool, fullstring: bool, sensitive: bool, line: string) {
    var outcome := Parse(pattern, 0, [], dotted, sensitive);
    outcome.Ok? &&
    var p := Finished(outcome.elems, fullstring);
    Accepts(p, line, sensitive) && EndsExactly(p, line)
  }

  /** Sets the pattern and matches one line. */
  method MatchLine(pattern: string, dotted: bool, fullstring: bool, sensitive: bool, line: string) returns (r: bool)
    ensures r <==> Matched(pattern, dotted, fullstring, sensitive, line)
  {
    var matcher := new PatternMatcher();
    var outcome := matcher.SetPattern(pattern, dotted, fullstring, sensitive);
    if !outcome.Ok? {
      return false;
    }
    r := matcher.Matches(line);
  }

  // ---------- single elements ----------

  /** An element that is a pattern on its own. */
  lemma OneElement(text: string, e: Elem, dotted: bool, sensitive: bool, line: string)
    requires Spells(text, e, dotted, sensitive)
    ensures Matched(text, dotted, true, sensitive, line) <==> Fits(e, line, 0, |line|, sensitive)
  {
    hide Fits, Spells;
    assert Joined([text]) == text + Joined([]) == text;
    ParseWritten([text], [e], dotted, sensitive);
    FullMeaning([e], line, sensitive);
    OneCovers(e, line, 0, |line|, sensitive);
  }

  lemma OneCovers(e: Elem, s: string, i: nat, j: nat, sensitive: bool)
    ensures Covers([e], s, i, j, sensitive) <==> i <= j <= |s| && Fits(e, s, i, j, sensitive)
  {
    hide Fits;
    CoversFirst([e], s, i, j, sensitive);
    assert [e][1..] == [];
    forall m: nat
      ensures Covers([], s, m, j, sensitive) <==> m == j <= |s|
    {
      CoversNone(s, m, j, sensitive);
    }
    if i <= j <= |s| && Fits(e, s, i, j, sensitive) {
      assert Covers([], s, j, j, sensitive);
    }
  }

  /** One star: every line, or, in dotted paths, every line without a dot. */
  lemma Star(dotted: bool, sensitive: bool, line: string)
    ensures Matched("*", dotted, true, sensitive, line) <==> dotted ==> '.' !in line
  {
    assert line[0..|line|] == line;
    OneElement("*", if dotted then CommonSeq else AnySeq, dotted, sensitive, line);
  }

  /** End to end: without dotted paths, the star accepts every line. */
  method EveryLine(line: string, sensitive: bool) returns (r: bool)
    ensures r
  {
    r := MatchLine("*", false, true, sensitive, line);
    Star(false, sensitive, line);
  }

  /** End to end: so it does whatever is between two literals. */
  method EveryMiddle(a: string, middle: string, b: string, sensitive: bool) returns (r: bool)
    ensures r
  {
    hide Matched, Quoted, Between;
    var line := a + middle + b;
    r := MatchLine(Quoted(a) + "*" + Quoted(b), false, true, sensitive, line);
    StarBetween(a, b, false, sensitive, line);
    AnyMiddle(a, middle, b, sensitive);
  }

  lemma AnyMiddle(a: string, middle: string, b: string, sensitive: bool)
    ensures var line := a + middle + b; Between(a, b, sensitive, line) && line[|line| - |b|..] == b
  {
  }

  /** Two stars: every line. */
  lemma TwoStars(dotted: bool, sensitive: bool, line: string)
    ensures Matched("**", dotted, true, sensitive, line)
  {
    OneElement("**", AnySeq, dotted, sensitive, line);
  }

  /** A question mark: one character, in dotted paths other than a dot. */
  lemma Question(dotted: bool, sensitive: bool, line: string)
    ensures Matched("?", dotted, true, sensitive, line) <==> |line| == 1 && (dotted ==> line[0] != '.')
  {
    OneElement("?", if dotted then CommonChar else AnyChar, dotted, sensitive, line);
  }

  /** The number lies between the ends that are given. */
  predicate Ranges(from: int, upto: int, n: nat) {
    (from < 0 || from <= n) && (upto < 0 || n <= upto)
  }

  /** A number range in braces, either end of which may be left out: the numbers from one end to the other. */
  lemma Numbers(from: int, upto: int, dotted: bool, sensitive: bool, n: nat)
    requires from >= -1 && upto >= -1
    ensures Matched("{" + EndText(from) + ".." + EndText(upto) + "}", dotted, true, sensitive, Decimal(n)) <==>
      Ranges(from, upto, n)
  {
    hide EndText;
    var text, line := "{" + EndText(from) + ".." + EndText(upto) + "}", Decimal(n);
    OneElement(text, NumRange(from, upto), dotted, sensitive, line);
    DecimalMeans("", n, "");
    assert "" + line + "" == line;
  }

  lemma NotNumbers(from: int, upto: int, dotted: bool, sensitive: bool, line: string)
    requires from >= -1 && upto >= -1
    requires Matched("{" + EndText(from) + ".." + EndText(upto) + "}", dotted, true, sensitive, line)
    ensures line != "" && AllDigits(line)
  {
    hide EndText;
    OneElement("{" + EndText(from) + ".." + EndText(upto) + "}", NumRange(from, upto), dotted, sensitive, line);
  }

  /** A number range in brackets: the numbers in brackets. */
  lemma BracketNumbers(from: int, upto: int, dotted: bool, sensitive: bool, n: nat)
    requires from >= -1 && upto >= -1
    ensures Matched("[" + (EndText(from) + ".." + EndText(upto) + "]"), dotted, true, sensitive, "[" + Decimal(n) + "]")
      <==> Ranges(from, upto, n)
  {
    hide EndText, HasRange, Decimal;
    var line, e := "[" + Decimal(n) + "]", NumRange(from, upto);
    var a, z := LiteralString("["), LiteralString("]");
    NoRangeEmpty();
    BracketMeans("", "", from, upto, dotted, sensitive);
    assert "" + "[" == "[" && "" + ("[" + (EndText(from) + ".." + EndText(upto) + "]"))
      == "[" + (EndText(from) + ".." + EndText(upto) + "]");
    FullMeaning([a, e, z], line, sensitive);
    NumberBetween(from, upto, sensitive, n);
    assert !EndsInLiteral(Finished([a, e, z], true));
  }

  lemma NumberBetween(from: int, upto: int, sensitive: bool, n: nat)
    ensures var line := "[" + Decimal(n) + "]";
      Covers([LiteralString("["), NumRange(from, upto), LiteralString("]")], line, 0, |line|, sensitive)
      <==> Ranges(from, upto, n)
  {
    hide Decimal, Digits;
    var line, e := "[" + Decimal(n) + "]", NumRange(from, upto);
    var end := |line| - 1;
    DecimalMeans("[", n, "]");
    CoversJoin([LiteralString("["), e], [LiteralString("]")], line, 0, |line|, sensitive);
    CoversJoin([LiteralString("[")], [e], line, 0, end, sensitive);
    assert [LiteralString("["), e] + [LiteralString("]")] == [LiteralString("["), e, LiteralString("]")];
    assert [LiteralString("[")] + [e] == [LiteralString("["), e];
    forall m: nat
      ensures Covers([LiteralString("]")], line, m, |line|, sensitive) <==> m == end
      ensures Covers([LiteralString("[")], line, 0, m, sensitive) <==> m == 1
    {
      OneCovers(LiteralString("]"), line, m, |line|, sensitive);
      OneCovers(LiteralString("["), line, 0, m, sensitive);
    }
    OneCovers(e, line, 1, end, sensitive);
    assert Number(line, 1, end);
    assert Covers([e], line, 1, end, sensitive) <==> Ranges(from, upto, n);
  }

  /** A range of characters in braces, and the same with a caret: one character in the range, or not in it. When case
      does not matter, upper-case letters are compared. */
  lemma CharacterRange(a: char, b: char, dotted: bool, sensitive: bool, line: string)
    requires a != '^' && b != '}'
    ensures Matched(['{', a, '-', b, '}'], dotted, true, sensitive, line) <==>
      |line| == 1 && Shown(a, sensitive) <= Shown(line[0], sensitive) <= Shown(b, sensitive)
    ensures Matched(['{', '^', a, '-', b, '}'], dotted, true, sensitive, line) <==>
      |line| == 1 && !(Shown(a, sensitive) <= Shown(line[0], sensitive) <= Shown(b, sensitive))
  {
    var chars := [Shown(a, sensitive), Shown(b, sensitive)];
    var text, negated := ['{', a, '-', b, '}'], ['{', '^', a, '-', b, '}'];
    var inside := [a, '-', b];
    assert chars[2..] == "" && inside[3..] == "" && text[1..4] == inside && negated[2..5] == inside;
    assert SpellsSet(inside, chars, sensitive);
    assert RangeAt(text, 0, '}') == None;
    OneElement(text, InSet(chars), dotted, sensitive, line);
    OneElement(negated, NotInSet(chars), dotted, sensitive, line);
    if |line| == 1 {
      MemberOne(line[0], chars, sensitive);
    }
  }

  lemma MemberOne(c: char, chars: string, sensitive: bool)
    requires |chars| == 2
    ensures Member(c, chars, sensitive) <==> chars[0] <= Shown(c, sensitive) <= chars[1]
  {
    if chars[0] <= Shown(c, sensitive) <= chars[1] {
      assert chars[2 * 0] <= Shown(c, sensitive) <= chars[2 * 0 + 1];
    }
  }

  // ---------- a star between literals ----------

  /** A literal, unless it is empty. */
  function Literal(t: string): seq<Elem> {
    if t == "" then [] else [LiteralString(t)]
  }

  lemma LiteralCover(t: string, s: string, i: nat, j: nat, sensitive: bool)
    ensures Covers(Literal(t), s, i, j, sensitive) <==>
      i <= j <= |s| && j == i + |t| && forall x :: 0 <= x < |t| ==> Same(s[i + x], t[x], sensitive)
  {
    if t == "" {
      CoversNone(s, i, j, sensitive);
    } else {
      OneCovers(LiteralString(t), s, i, j, sensitive);
    }
  }

  /** The line begins and ends with the literals, which do not overlap in it. */
  ghost predicate Between(a: string, b: string, sensitive: bool, line: string) {
    && |a| + |b| <= |line| && (forall x :: 0 <= x < |a| ==> Same(line[x], a[x], sensitive))
    && (forall x :: 0 <= x < |b| ==> Same(line[|line| - |b| + x], b[x], sensitive))
  }

  lemma BetweenCovers(a: string, b: string, star: Elem, sensitive: bool, line: string)
    requires star == AnySeq || star == CommonSeq
    ensures Covers(Literal(a) + [star] + Literal(b), line, 0, |line|, sensitive) <==>
      Between(a, b, sensitive, line) && (star == CommonSeq ==> '.' !in line[|a|..|line| - |b|])
  {
    hide Same;
    var n := |line|;
    CoversJoin(Literal(a) + [star], Literal(b), line, 0, n, sensitive);
    forall m: nat
      ensures Covers(Literal(a) + [star], line, 0, m, sensitive) <==>
        |a| <= m <= n && (forall x :: 0 <= x < |a| ==> Same(line[x], a[x], sensitive))
        && (star == CommonSeq ==> '.' !in line[|a|..m])
    {
      CoversJoin(Literal(a), [star], line, 0, m, sensitive);
      LiteralCover(a, line, 0, |a|, sensitive);
      OneCovers(star, line, |a|, m, sensitive);
      forall k: nat | Covers(Literal(a), line, 0, k, sensitive)
        ensures k == |a|
      {
        LiteralCover(a, line, 0, k, sensitive);
      }
    }
    forall m: nat
      ensures Covers(Literal(b), line, m, n, sensitive) <==>
        m <= n && n == m + |b| && forall x :: 0 <= x < |b| ==> Same(line[m + x], b[x], sensitive)
    {
      LiteralCover(b, line, m, n, sensitive);
    }
    if Between(a, b, sensitive, line) && (star == CommonSeq ==> '.' !in line[|a|..n - |b|]) {
      var m: nat := n - |b|;
      assert Covers(Literal(a) + [star], line, 0, m, sensitive) && Covers(Literal(b), line, m, n, sensitive);
    }
  }

  /** The text of a literal, unless it is empty. */
  function LiteralText(t: string): seq<string> {
    if t == "" then [] else [Quoted(t)]
  }

  lemma LiteralWritten(t: string, dotted: bool, sensitive: bool)
    ensures |LiteralText(t)| == |Literal(t)| && Joined(LiteralText(t)) == Quoted(t)
    ensures t != "" ==> Spells(Quoted(t), LiteralString(t), dotted, sensitive) && Quoted(t) != "*"
  {
    hide SpellsLiteral, HasRange;
    QuotedSpells(t);
    JoinedOne(Quoted(t));
  }

  lemma JoinedNext(text: string, texts: seq<string>)
    ensures Joined([text] + texts) == text + Joined(texts)
  {
    assert ([text] + texts)[1..] == texts;
  }

  lemma {:induction false} JoinedMore(texts: seq<string>, more: seq<string>)
    ensures Joined(texts + more) == Joined(texts) + Joined(more)
  {
    hide Joined;
    if texts == [] {
      assert texts + more == more;
      JoinedOne("");
    } else {
      JoinedMore(texts[1..], more);
      JoinedNext(texts[0], texts[1..] + more);
      JoinedNext(texts[0], texts[1..]);
      assert texts + more == [texts[0]] + (texts[1..] + more) && texts == [texts[0]] + texts[1..];
    }
  }

  lemma BetweenParses(a: string, b: string, star: string, e: Elem, dotted: bool, sensitive: bool)
    requires Spells(star, e, dotted, sensitive) && (e == AnySeq || e == CommonSeq)
    ensures Parse(Quoted(a) + star + Quoted(b), 0, [], dotted, sensitive) == Ok(Literal(a) + [e] + Literal(b))
  {
    hide Spells, Joined, Quoted;
    LiteralWritten(a, dotted, sensitive);
    LiteralWritten(b, dotted, sensitive);
    JoinedOne(star);
    JoinedMore(LiteralText(a), [star]);
    JoinedMore(LiteralText(a) + [star], LiteralText(b));
    ParseWritten(LiteralText(a) + [star] + LiteralText(b), Literal(a) + [e] + Literal(b), dotted, sensitive);
  }

  lemma JoinedOne(text: string)
    ensures Joined([text]) == text && Joined([]) == ""
  {
    assert [text][1..] == [];
  }

  /** A star between two literals matches the lines that begin and end so and are long enough, dots included unless
      paths are dotted; when case does not matter, the end after a star that may stand for dots must agree in case all
      the same. */
  lemma StarBetween(a: string, b: string, dotted: bool, sensitive: bool, line: string)
    ensures Matched(Quoted(a) + "*" + Quoted(b), dotted, true, sensitive, line) <==>
      && Between(a, b, sensitive, line)
      && (if dotted then '.' !in line[|a|..|line| - |b|] else line[|line| - |b|..] == b)
  {
    var e := if dotted then CommonSeq else AnySeq;
    BetweenParses(a, b, "*", e, dotted, sensitive);
    BetweenMatched(a, b, e, sensitive, line);
  }

  lemma BetweenMatched(a: string, b: string, e: Elem, sensitive: bool, line: string)
    requires e == AnySeq || e == CommonSeq
    ensures var p := Finished(Literal(a) + [e] + Literal(b), true);
      Accepts(p, line, sensitive) && EndsExactly(p, line) <==>
        && Between(a, b, sensitive, line)
        && (if e == CommonSeq then '.' !in line[|a|..|line| - |b|] else line[|line| - |b|..] == b)
  {
    var elems := Literal(a) + [e] + Literal(b);
    var p := Finished(elems, true);
    FullMeaning(elems, line, sensitive);
    BetweenCovers(a, b, e, sensitive, line);
    if b != "" {
      assert p[|p| - 2] == LiteralString(b) && p[|p| - 3] == e;
    } else {
      assert p[|p| - 2] == e;
      assert line[|line|..] == "";
    }
    if |b| <= |line| {
      assert line[|line| - |b|..] == b <==> EndsWith(line, 0, b);
    }
  }

  predicate OccursAt(a: string, sensitive: bool, line: string, i: nat) {
    i + |a| <= |line| && forall x :: 0 <= x < |a| ==> Same(line[i + x], a[x], sensitive)
  }

  /** In substring mode, a literal matches the lines it occurs in. */
  lemma Occurs(a: string, dotted: bool, sensitive: bool, line: string)
    ensures Matched(Quoted(a), dotted, false, sensitive, line) <==> exists i: nat :: OccursAt(a, sensitive, line, i)
  {
    hide Same, Covers;
    QuotedParses(a, dotted, sensitive);
    var elems := Literal(a);
    SubstringMeaning(elems, line, sensitive);
    forall i: nat, j: nat
      ensures Covers(elems, line, i, j, sensitive) <==> j == i + |a| && OccursAt(a, sensitive, line, i)
    {
      LiteralCover(a, line, i, j, sensitive);
    }
    if i: nat :| OccursAt(a, sensitive, line, i) {
      assert Covers(elems, line, i, i + |a|, sensitive);
    }
    NoEnding(elems, line);
  }

  lemma NoEnding(elems: seq<Elem>, line: string)
    ensures EndsExactly(Finished(elems, false), line)
  {
  }
}
