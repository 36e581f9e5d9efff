/** The matcher: it walks the pattern and the string together, and tries the possible lengths of sequences in turn. */
module PatternMatchers {
  import opened Globs
  import opened Options
  import opened PatternSyntax

  /** The pattern has its end mark, only there, and its sets consist of ranges. */
  ghost predicate Formed(p: seq<Elem>) {
    && p != [] && p[|p| - 1] == End
    && (forall k :: 0 <= k < |p| - 1 ==> p[k] != End)
    && (forall k :: 0 <= k < |p| && p[k].InSet? ==> |p[k].chars| % 2 == 0)
    && (forall k :: 0 <= k < |p| && p[k].NotInSet? ==> |p[k].chars| % 2 == 0)
  }

  /** The pattern ends in a sequence and a literal string, which the matcher looks for at the end of the input. */
  predicate EndsInLiteral(p: seq<Elem>) {
    |p| >= 3 && p[|p| - 3] == AnySeq && p[|p| - 2].LiteralString?
  }

  /** From position k, the pattern matches the rest of the string; in the shortcut, the last literal matches only
      itself. */
  ghost predicate Means(p: seq<Elem>, k: nat, s: string, i: nat, sensitive: bool)
    requires Formed(p) && k < |p|
  {
    if EndsInLiteral(p) && k <= |p| - 3 then
      exists m: nat :: m <= |s| && Covers(p[k..|p| - 2], s, i, m, sensitive) && s[m..] == p[|p| - 2].literal
    else
      Covers(p[k..], s, i, |s|, sensitive)
  }

  /** The literal that the shortcut compares is the end of the string. */
  ghost predicate EndsExactly(p: seq<Elem>, s: string) {
    EndsInLiteral(p) ==> EndsWith(s, 0, p[|p| - 2].literal)
  }

  /** The matcher accepts what the pattern matches, except that a final literal after a sequence must also agree in
      case. */
  lemma MeansExactly(p: seq<Elem>, s: string, sensitive: bool)
    requires Formed(p)
    ensures Means(p, 0, s, 0, sensitive) <==> Accepts(p, s, sensitive) && EndsExactly(p, s)
  {
    assert p[0..] == p;
    if EndsInLiteral(p) {
      var head, tail, t := p[0..|p| - 2], p[|p| - 2..], p[|p| - 2].literal;
      assert p == head + tail;
      CoversJoin(head, tail, s, 0, |s|, sensitive);
      forall m: nat | Covers(head, s, 0, m, sensitive)
        ensures m <= |s|
        ensures Covers(tail, s, m, |s|, sensitive)
          <==> |s| - m == |t| && forall x :: 0 <= x < |t| ==> Same(s[m + x], t[x], sensitive)
      {
        CoversBounds(head, s, 0, m, sensitive);
        LiteralLast(tail, s, m, sensitive);
      }
      forall m: nat | m <= |s| && |s| - m == |t|
        ensures s[m..] == t <==> EndsWith(s, 0, t)
        ensures s[m..] == t ==> forall x :: 0 <= x < |t| ==> Same(s[m + x], t[x], sensitive)
      {
        assert s[m..] == t ==> forall x :: 0 <= x < |t| ==> s[m + x] == t[x];
      }
    }
  }

  /** When case matters that is no exception: the matcher accepts just what the pattern matches. */
  lemma MeansSensitive(p: seq<Elem>, s: string)
    requires Formed(p)
    ensures Means(p, 0, s, 0, true) <==> Accepts(p, s, true)
  {
    MeansExactly(p, s, true);
    if Accepts(p, s, true) && EndsInLiteral(p) {
      AcceptsEnding(p, s, true);
      var t := p[|p| - 2].literal;
      assert s[|s| - |t|..] == t;
    }
  }

  /** What a pattern with a final literal matches ends in it. */
  lemma AcceptsEnding(p: seq<Elem>, s: string, sensitive: bool)
    requires Formed(p) && |p| >= 2 && p[|p| - 2].LiteralString? && Accepts(p, s, sensitive)
    ensures var t := p[|p| - 2].literal;
      |t| <= |s| && forall x :: 0 <= x < |t| ==> Same(s[|s| - |t| + x], t[x], sensitive)
  {
    var head, tail := p[..|p| - 2], p[|p| - 2..];
    assert p == head + tail;
    CoversJoin(head, tail, s, 0, |s|, sensitive);
    var m: nat :| Covers(head, s, 0, m, sensitive) && Covers(tail, s, m, |s|, sensitive);
    CoversBounds(head, s, 0, m, sensitive);
    LiteralLast(tail, s, m, sensitive);
  }

  /** The look at the last two characters rejects no string that the pattern matches. */
  lemma LastTwo(p: seq<Elem>, s: string)
    requires Formed(p) && |p| >= 2 && p[|p| - 2].LiteralString? && |p[|p| - 2].literal| >= 2
    ensures var t := p[|p| - 2].literal;
      Accepts(p, s, true) ==> |s| >= 2 && s[|s| - 1] == t[|t| - 1] && s[|s| - 2] == t[|t| - 2]
  {
    if Accepts(p, s, true) {
      AcceptsEnding(p, s, true);
      var t := p[|p| - 2].literal;
      assert Same(s[|s| - |t| + (|t| - 1)], t[|t| - 1], true) && Same(s[|s| - |t| + (|t| - 2)], t[|t| - 2], true);
    }
  }

  lemma LiteralLast(q: seq<Elem>, s: string, m: nat, sensitive: bool)
    requires |q| == 2 && q[0].LiteralString? && q[1] == End && m <= |s|
    ensures Covers(q, s, m, |s|, sensitive) <==>
      |s| - m == |q[0].literal| && forall x :: 0 <= x < |q[0].literal| ==> Same(s[m + x], q[0].literal[x], sensitive)
  {
    CoversFirst(q, s, m, |s|, sensitive);
    assert q[1..] == [End];
    forall x: nat | x <= |s|
      ensures Covers(q[1..], s, x, |s|, sensitive) <==> x == |s|
    {
      EndOnly(q[1..], s, x, sensitive);
    }
    assert Covers(q, s, m, |s|, sensitive) <==> Fits(q[0], s, m, |s|, sensitive);
  }

  lemma EndOnly(q: seq<Elem>, s: string, x: nat, sensitive: bool)
    requires q == [End] && x <= |s|
    ensures Covers(q, s, x, |s|, sensitive) <==> x == |s|
  {
    CoversFirst(q, s, x, |s|, sensitive);
    CoversNone(s, |s|, |s|, sensitive);
  }

  /** One element further. */
  lemma MeansFirst(p: seq<Elem>, k: nat, s: string, i: nat, sensitive: bool)
    requires Formed(p) && k < |p| - 1 && i <= |s| && !(EndsInLiteral(p) && k >= |p| - 3)
    ensures Means(p, k, s, i, sensitive) <==>
      exists m: nat :: i <= m <= |s| && Fits(p[k], s, i, m, sensitive) && Means(p, k + 1, s, m, sensitive)
  {
    if EndsInLiteral(p) {
      var q := p[k..|p| - 2];
      assert q[1..] == p[k + 1..|p| - 2];
      forall j: nat
        ensures Covers(q, s, i, j, sensitive) <==>
          exists m: nat :: i <= m <= |s| && Fits(q[0], s, i, m, sensitive) && Covers(q[1..], s, m, j, sensitive)
      {
        CoversFirst(q, s, i, j, sensitive);
      }
    } else {
      assert p[k..][1..] == p[k + 1..];
      CoversFirst(p[k..], s, i, |s|, sensitive);
    }
  }

  /** Elements without the end mark. */
  ghost predicate Plain(p: seq<Elem>) {
    && (forall k :: 0 <= k < |p| ==> p[k] != End)
    && (forall k :: 0 <= k < |p| && (p[k].InSet? || p[k].NotInSet?) ==> |p[k].chars| % 2 == 0)
  }

  /** The whole piece is the text read so far and the rest. */
  ghost predicate Continues(whole: Piece, text: string, rest: Piece) {
    if rest.BadPiece? then whole.BadPiece? else whole == Piece(text + rest.text, rest.end)
  }

  lemma ContinuesJoin(whole: Piece, text: string, middle: Piece, more: string, rest: Piece)
    requires Continues(whole, text, middle) && Continues(middle, more, rest)
    ensures Continues(whole, text + more, rest)
  {
    if rest.Piece? {
      assert text + (more + rest.text) == (text + more) + rest.text;
    }
  }

  /** One character of a literal string, which may be behind a backslash. */
  lemma LiteralStep(s: string, i: nat, j: nat)
    requires i < |s| && s[i] != '?' && s[i] != '{' && s[i] != '*' && j == if s[i] == '\\' then i + 1 else i
    ensures j == |s| ==> LiteralAt(s, i) == BadPiece
    ensures j < |s| && s[j] == '[' && RangeAt(s, j, ']').Some? ==> LiteralAt(s, i) == Piece([s[j]], j)
    ensures j < |s| && !(s[j] == '[' && RangeAt(s, j, ']').Some?) ==>
      Continues(LiteralAt(s, i), [s[j]], LiteralAt(s, j + 1))
  {
  }

  lemma LiteralEnd(s: string, i: nat)
    requires i <= |s| && (i == |s| || s[i] == '?' || s[i] == '{' || s[i] == '*')
    ensures LiteralAt(s, i) == Piece("", i)
  {
  }

  lemma ContinuesStart(whole: Piece)
    ensures Continues(whole, "", whole)
  {
    if whole.Piece? {
      assert "" + whole.text == whole.text;
    }
  }

  lemma ContinuesBad(whole: Piece, text: string)
    requires Continues(whole, text, BadPiece)
    ensures whole == BadPiece
  {
  }

  lemma ContinuesLast(whole: Piece, text: string, rest: Piece)
    requires Continues(whole, text, rest) && rest.Piece?
    ensures whole == Piece(text + rest.text, rest.end)
  {
  }

  lemma ContinuesEnd(whole: Piece, text: string, end: nat)
    requires Continues(whole, text, Piece("", end))
    ensures whole == Piece(text, end)
  {
    assert text + "" == text;
  }

  /** One range of a set. */
  lemma RangesStep(s: string, begin: nat, i: nat, sensitive: bool)
    requires begin <= i < |s| && (s[i] != '}' || i == begin)
    ensures var isRange := i + 2 < |s| && s[i + 1] == '-' && s[i + 2] != '}';
      var last := if isRange then s[i + 2] else s[i];
      Continues(RangesAt(s, begin, i, sensitive), [Shown(s[i], sensitive), Shown(last, sensitive)],
        RangesAt(s, begin, if isRange then i + 3 else i + 1, sensitive))
  {
  }

  lemma RangesEnd(s: string, begin: nat, i: nat, sensitive: bool)
    requires begin <= i <= |s| && (i == |s| || (s[i] == '}' && i != begin))
    ensures RangesAt(s, begin, i, sensitive) == if i == |s| then BadPiece else Piece("", i)
  {
  }

  lemma FinishedFormed(elems: seq<Elem>, fullstring: bool)
    requires Plain(elems)
    ensures Formed(Finished(elems, fullstring))
  {
  }

  lemma NumberEnd(s: string, i: nat, j: nat)
    requires i <= j <= |s| && Number(s, i, j)
    ensures DigitsEnd(s, i) == j
  {
    NumberOnce(s, i, j);
    assert Number(s, i, DigitsEnd(s, i)) by {
      assert IsDigit(s[i]);
    }
  }

  class PatternMatcher {
    var pattern: seq<Elem>
    var iscasesensitive: bool

    ghost predicate Valid()
      reads this
    {
      Formed(pattern)
    }

    constructor ()
      ensures pattern == [] && !iscasesensitive
    {
      pattern, iscasesensitive := [], false;
    }

    method ParseNumRange(s: string, i: nat, closing: char) returns (range: Option<Range>)
      requires i < |s|
      ensures range == RangeAt(s, i, closing)
    {
      var lo: int, up: int := -1, -1;
      var at: nat := i + 1;
      if at < |s| && IsDigit(s[at]) {
        var end;
        end, lo := ScanNumber(s, at);
        NumberEnd(s, at, end);
        at := end;
      }
      if at >= |s| || s[at] != '.' || at + 1 >= |s| || s[at + 1] != '.' {
        return None;
      }
      at := at + 2;
      if at < |s| && IsDigit(s[at]) {
        var end;
        end, up := ScanNumber(s, at);
        NumberEnd(s, at, end);
        at := end;
      }
      if at >= |s| || s[at] != closing {
        return None;
      }
      range := Some(Range(lo, up, at));
    }

    method ParseLiteralString(s: string, i: nat) returns (piece: Piece)
      requires i <= |s|
      ensures piece == LiteralAt(s, i)
    {
      hide LiteralAt, RangeAt, Continues;
      var at, text := i, "";
      ContinuesStart(LiteralAt(s, i));
      while at < |s| && s[at] != '?' && s[at] != '{' && s[at] != '*'
        invariant i <= at <= |s| && Continues(LiteralAt(s, i), text, LiteralAt(s, at))
        decreases |s| - at
      {
        ghost var from, before := at, text;
        if s[at] == '\\' {
          at := at + 1;
        }
        LiteralStep(s, from, at);
        if at == |s| {
          ContinuesBad(LiteralAt(s, i), text);
          return BadPiece;
        }
        text := text + [s[at]];
        if s[at] == '[' {
          var range := ParseNumRange(s, at, ']');
          if range.Some? {
            ContinuesLast(LiteralAt(s, i), before, LiteralAt(s, from));
            return Piece(text, at);
          }
        }
        at := at + 1;
        ContinuesJoin(LiteralAt(s, i), before, LiteralAt(s, from), [s[at - 1]], LiteralAt(s, at));
      }
      LiteralEnd(s, at);
      ContinuesEnd(LiteralAt(s, i), text, at);
      piece := Piece(text, at);
    }

    /** From the place after the opening brace or the caret. */
    method ParseSet(s: string, begin: nat) returns (piece: Piece)
      requires begin <= |s|
      ensures piece == RangesAt(s, begin, begin, iscasesensitive)
    {
      hide RangesAt, Continues;
      var at, text := begin, "";
      ContinuesStart(RangesAt(s, begin, begin, iscasesensitive));
      while at < |s| && (s[at] != '}' || at == begin)
        invariant begin <= at <= |s|
        invariant Continues(RangesAt(s, begin, begin, iscasesensitive), text, RangesAt(s, begin, at, iscasesensitive))
        decreases |s| - at
      {
        ghost var from := at;
        RangesStep(s, begin, at, iscasesensitive);
        var first, last := s[at], s[at];
        if at + 2 < |s| && s[at + 1] == '-' && s[at + 2] != '}' {
          last := s[at + 2];
          at := at + 3;
        } else {
          at := at + 1;
        }
        if !iscasesensitive {
          first, last := Upper(first), Upper(last);
        }
        ContinuesJoin(RangesAt(s, begin, begin, iscasesensitive), text, RangesAt(s, begin, from, iscasesensitive),
          [first, last], RangesAt(s, begin, at, iscasesensitive));
        text := text + [first, last];
      }
      RangesEnd(s, begin, at, iscasesensitive);
      if at == |s| {
        ContinuesBad(RangesAt(s, begin, begin, iscasesensitive), text);
        return BadPiece;
      }
      ContinuesEnd(RangesAt(s, begin, begin, iscasesensitive), text, at);
      piece := Piece(text, at);
    }

    /** Reads one element; the original does this in the body of the loop of SetPattern. */
    method ParseToken(s: string, i: nat, after: bool, dotted: bool) returns (token: Token)
      requires i < |s|
      ensures token == TokenAt(s, i, after, dotted, iscasesensitive)
    {
      var range: Option<Range> := None;
      if s[i] == '?' {
        return Token(if dotted then CommonChar else AnyChar, i + 1);
      } else if s[i] == '[' {
        if after {
          range := ParseNumRange(s, i, ']');
        }
        if range.Some? {
          return Token(NumRange(range.value.from, range.value.upto), range.value.end);
        }
      } else if s[i] == '{' {
        range := ParseNumRange(s, i, '}');
        if range.Some? {
          return Token(NumRange(range.value.from, range.value.upto), range.value.end + 1);
        }
        var negated := i + 1 < |s| && s[i + 1] == '^';
        var ranges := ParseSet(s, if negated then i + 2 else i + 1);
        if ranges.BadPiece? {
          return Unclosed;
        }
        return Token(if negated then NotInSet(ranges.text) else InSet(ranges.text), ranges.end + 1);
      } else if s[i] == '*' {
        if i + 1 < |s| && s[i + 1] == '*' {
          return Token(AnySeq, i + 2);
        }
        return Token(if dotted then CommonSeq else AnySeq, i + 1);
      }
      var piece := ParseLiteralString(s, i);
      token := if piece.BadPiece? then Stray else Token(LiteralString(piece.text), piece.end);
    }

    /** Reads the text of a pattern. If that fails the pattern is left incomplete. */
    method SetPattern(patt: string, dottedpath: bool, fullstring: bool, casesensitive: bool) returns (outcome: Outcome)
      modifies this
      ensures outcome == Parse(patt, 0, [], dottedpath, casesensitive) && iscasesensitive == casesensitive
      ensures outcome.Ok? ==> Valid() && pattern == Finished(outcome.elems, fullstring)
    {
      hide TokenAt, Formed;
      pattern := [];
      iscasesensitive := casesensitive;
      var at := 0;
      while at < |patt|
        invariant at <= |patt| && iscasesensitive == casesensitive && Plain(pattern)
        invariant Parse(patt, 0, [], dottedpath, casesensitive) == Parse(patt, at, pattern, dottedpath, casesensitive)
        decreases |patt| - at, if pattern != [] && pattern[|pattern| - 1].LiteralString? then 0 else 1
      {
        var after := pattern != [] && pattern[|pattern| - 1].LiteralString?;
        var token := ParseToken(patt, at, after, dottedpath);
        if token.Stray? {
          return LoneBackslash;
        }
        if token.Unclosed? {
          return UnmatchedBrace;
        }
        pattern := pattern + [token.elem];
        at := token.end;
      }
      outcome := Ok(pattern);
      FinishedFormed(pattern, fullstring);
      if !fullstring {
        if pattern == [] || pattern[|pattern| - 1] != AnySeq {
          pattern := pattern + [AnySeq];
        }
        if pattern[0] != AnySeq {
          pattern := [AnySeq] + pattern;
        }
      }
      pattern := pattern + [End];
    }

    method IsInSet(c: char, set_: string) returns (r: bool)
      requires |set_| % 2 == 0
      ensures r == Member(c, set_, iscasesensitive)
    {
      var x := if iscasesensitive then c else Upper(c);
      var at := 0;
      while at < |set_|
        invariant at <= |set_| && at % 2 == 0
        invariant forall k :: 0 <= k < at / 2 ==> !(set_[2 * k] <= x <= set_[2 * k + 1])
      {
        if set_[at] <= x && x <= set_[at + 1] {
          assert set_[2 * (at / 2)] <= x <= set_[2 * (at / 2) + 1];
          return true;
        }
        at := at + 2;
      }
      r := false;
    }

    /** Whether the characters from i on begin with the literal. */
    method Compare(s: string, i: nat, literal: string) returns (r: bool)
      requires i <= |s|
      ensures r <==> i + |literal| <= |s| && Fits(LiteralString(literal), s, i, i + |literal|, iscasesensitive)
    {
      if i + |literal| > |s| {
        return false;
      }
      for x := 0 to |literal|
        invariant forall y :: 0 <= y < x ==> Same(s[i + y], literal[y], iscasesensitive)
      {
        if !Same(s[i + x], literal[x], iscasesensitive) {
          return false;
        }
      }
      r := true;
    }

    /** The number at i: where it ends and what it is. */
    method ScanNumber(s: string, i: nat) returns (j: nat, num: nat)
      requires i < |s| && IsDigit(s[i])
      ensures i <= j <= |s| && Number(s, i, j) && num == Digits(s, i, j)
    {
      j, num := i, 0;
      while j < |s| && IsDigit(s[j])
        invariant i <= j <= |s| && (forall x :: i <= x < j ==> IsDigit(s[x])) && num == Digits(s, i, j)
        invariant j == i ==> j < |s| && IsDigit(s[j])
      {
        num := 10 * num + (s[j] as int - '0' as int);
        j := j + 1;
      }
    }

    /** Passes an element that stands for one character, a literal or a number; where such an element ends is
        determined. */
    method Pass(e: Elem, s: string, i: nat) returns (fits: bool, j: nat)
      requires i <= |s| && !e.AnySeq? && !e.CommonSeq? && !e.End?
      requires (e.InSet? || e.NotInSet?) ==> |e.chars| % 2 == 0
      ensures fits ==> i <= j <= |s| && Fits(e, s, i, j, iscasesensitive)
      ensures forall m: nat :: i <= m <= |s| && Fits(e, s, i, m, iscasesensitive) ==> fits && m == j
    {
      fits, j := false, i;
      match e {
        case LiteralString(t) =>
          fits := Compare(s, i, t);
          j := i + |t|;
        case AnyChar =>
          fits, j := i < |s|, i + 1;
        case CommonChar =>
          fits, j := i < |s| && s[i] != '.', i + 1;
        case InSet(chars) =>
          if i < |s| {
            fits := IsInSet(s[i], chars);
            j := i + 1;
          }
        case NotInSet(chars) =>
          if i < |s| {
            fits := IsInSet(s[i], chars);
            fits, j := !fits, i + 1;
          }
        case NumRange(low, high) =>
          if i < |s| && IsDigit(s[i]) {
            var num;
            j, num := ScanNumber(s, i);
            fits := !((low >= 0 && num < low) || (high >= 0 && num > high));
            NumberOnce(s, i, j);
          } else {
            NoNumber(s, i);
          }
      }
    }

    method DoMatch(s: string, start: nat, from: nat) returns (r: bool)
      requires Valid() && start <= |s| && from < |pattern|
      requires EndsInLiteral(pattern) ==> from <= |pattern| - 3
      ensures r == Means(pattern, from, s, start, iscasesensitive)
      decreases |pattern| - from, 1
    {
      hide Means, Fits, Covers;
      var i: nat, k: nat := start, from;
      while true
        invariant i <= |s| && from <= k < |pattern| && (EndsInLiteral(pattern) ==> k <= |pattern| - 3)
        invariant Means(pattern, from, s, start, iscasesensitive) == Means(pattern, k, s, i, iscasesensitive)
        decreases |pattern| - k
      {
        var e := pattern[k];
        if e == AnySeq || e == CommonSeq {
          r := MatchSequence(s, i, k);
          return;
        }
        if e == End {
          MeansEnd(pattern, s, i, iscasesensitive);
          return i == |s|;
        }
        MeansFirst(pattern, k, s, i, iscasesensitive);
        var fits, j := Pass(e, s, i);
        if !fits {
          return false;
        }
        i, k := j, k + 1;
      }
    }

    /** Tries the lengths of a sequence from none upwards, but takes a shortcut where the rest of the pattern is
        simple. */
    method MatchSequence(s: string, start: nat, k: nat) returns (r: bool)
      requires Valid() && start <= |s| && k < |pattern| && (pattern[k] == AnySeq || pattern[k] == CommonSeq)
      requires EndsInLiteral(pattern) ==> k <= |pattern| - 3
      ensures r == Means(pattern, k, s, start, iscasesensitive)
      decreases |pattern| - k, 0
    {
      hide Means, Covers;
      var i, next := start, k + 1;
      if pattern[k] == AnySeq {
        if k == |pattern| - 2 {
          MeansAnything(pattern, s, i, iscasesensitive);
          return true;
        }
        if k == |pattern| - 3 && pattern[k + 1].LiteralString? {
          MeansEnding(pattern, s, i, iscasesensitive);
          return EndsWith(s, i, pattern[k + 1].literal);
        }
      }
      MeansFirst(pattern, k, s, start, iscasesensitive);
      while true
        invariant start <= i <= |s| && (pattern[k] == CommonSeq ==> '.' !in s[start..i])
        invariant forall m: nat :: start <= m < i ==> !Means(pattern, next, s, m, iscasesensitive)
        decreases |s| - i
      {
        r := DoMatch(s, i, next);
        if r {
          assert Fits(pattern[k], s, start, i, iscasesensitive);
          return;
        }
        if i == |s| || (pattern[k] == CommonSeq && s[i] == '.') {
          forall m: nat | i < m <= |s|
            ensures !Fits(pattern[k], s, start, m, iscasesensitive)
          {
            assert s[start..m][i - start] == s[i];
          }
          return false;
        }
        i := i + 1;
      }
    }

    /** First, if case matters, a look at the last two characters; then the match itself. */
    method Matches(line: string) returns (r: bool)
      requires Valid()
      ensures r <==> Accepts(pattern, line, iscasesensitive) && EndsExactly(pattern, line)
      ensures iscasesensitive ==> (r <==> Accepts(pattern, line, true))
    {
      hide Accepts;
      MeansExactly(pattern, line, iscasesensitive);
      MeansSensitive(pattern, line);
      if |pattern| >= 2 && iscasesensitive && pattern[|pattern| - 2].LiteralString? {
        var t := pattern[|pattern| - 2].literal;
        if |t| >= 2 && |line| >= 2 && (line[|line| - 1] != t[|t| - 1] || line[|line| - 2] != t[|t| - 2]) {
          LastTwo(pattern, line);
          return false;
        }
      }
      r := DoMatch(line, 0, 0);
    }
  }

  /** The rest of the string from i on ends in the given one. */
  predicate EndsWith(s: string, i: nat, ending: string)
    requires i <= |s|
  {
    |s| - i >= |ending| && s[|s| - |ending|..] == ending
  }

  /** All the digits there are end at one place. */
  lemma NumberOnce(s: string, i: nat, j: nat)
    requires i <= j <= |s| && Number(s, i, j)
    ensures forall m: nat :: i <= m <= |s| && Number(s, i, m) ==> m == j
  {
    forall m: nat | i <= m <= |s| && m != j
      ensures !Number(s, i, m)
    {
      assert if m < j then m < i || IsDigit(s[m]) else !IsDigit(s[j]);
    }
  }

  lemma NoNumber(s: string, i: nat)
    requires i <= |s| && (i == |s| || !IsDigit(s[i]))
    ensures forall m: nat :: i <= m <= |s| ==> !Number(s, i, m)
  {
    forall m: nat | i <= m <= |s|
      ensures !Number(s, i, m)
    {
      assert i < m ==> !IsDigit(s[i]);
    }
  }

  lemma MeansEnd(p: seq<Elem>, s: string, i: nat, sensitive: bool)
    requires Formed(p) && i <= |s|
    ensures Means(p, |p| - 1, s, i, sensitive) <==> i == |s|
  {
    assert p[|p| - 1..] == [End];
    EndOnly(p[|p| - 1..], s, i, sensitive);
  }

  lemma MeansAnything(p: seq<Elem>, s: string, i: nat, sensitive: bool)
    requires Formed(p) && |p| >= 2 && p[|p| - 2] == AnySeq && i <= |s|
    ensures Means(p, |p| - 2, s, i, sensitive)
  {
    var q := p[|p| - 2..];
    CoversFirst(q, s, i, |s|, sensitive);
    assert q[1..] == [End];
    EndOnly(q[1..], s, |s|, sensitive);
    assert Fits(q[0], s, i, |s|, sensitive);
  }

  lemma MeansEnding(p: seq<Elem>, s: string, i: nat, sensitive: bool)
    requires Formed(p) && EndsInLiteral(p) && i <= |s|
    ensures Means(p, |p| - 3, s, i, sensitive) <==> EndsWith(s, i, p[|p| - 2].literal)
  {
    var q, t := p[|p| - 3..|p| - 2], p[|p| - 2].literal;
    assert q == [AnySeq];
    forall m: nat
      ensures Covers(q, s, i, m, sensitive) <==> i <= m <= |s|
    {
      CoversFirst(q, s, i, m, sensitive);
      CoversNone(s, m, m, sensitive);
      forall x: nat
        ensures Covers(q[1..], s, x, m, sensitive) <==> x == m <= |s|
      {
        CoversNone(s, x, m, sensitive);
      }
      if i <= m <= |s| {
        assert Fits(q[0], s, i, m, sensitive);
      }
    }
    if EndsWith(s, i, t) {
      var m: nat := |s| - |t|;
      assert Covers(q, s, i, m, sensitive);
    }
  }

  lemma SequenceAccepts()
    ensures Accepts([AnySeq, LiteralString("ab"), End], "xAB", false)
  {
    var p, s := [AnySeq, LiteralString("ab"), End], "xAB";
    assert Fits(p[0], s, 0, 1, false) && Fits(p[1], s, 1, 3, false) && Fits(p[2], s, 3, 3, false);
    assert Cut(p, s, [0, 1, 3, 3], false);
  }

  /** When case does not matter, the matcher rejects a string that the pattern matches: the shortcut compares the
      literal exactly. */
  lemma ShortcutMindsCase(dotted: bool)
    ensures var p := [AnySeq, LiteralString("ab"), End];
      && Parse("**ab", 0, [], dotted, false) == Ok(p[..2]) && Finished(p[..2], true) == p && Formed(p)
      && Accepts(p, "xAB", false) && !Means(p, 0, "xAB", 0, false)
  {
    hide Accepts, Means, Parse;
    var p, s := [AnySeq, LiteralString("ab"), End], "xAB";
    SequenceParses(dotted);
    SequenceAccepts();
    assert p[..2] == [AnySeq, LiteralString("ab")] && p[..2] + [End] == p;
    assert s[1..] == "AB" && !EndsWith(s, 0, "ab");
    MeansExactly(p, s, false);
  }

  lemma SequenceParses(dotted: bool)
    ensures Parse("**ab", 0, [], dotted, false) == Ok([AnySeq, LiteralString("ab")])
  {
    var s := "**ab";
    assert LiteralAt(s, 4) == Piece("", 4) && LiteralAt(s, 3) == Piece("b", 4) && LiteralAt(s, 2) == Piece("ab", 4);
    assert TokenAt(s, 0, false, dotted, false) == Token(AnySeq, 2);
    assert TokenAt(s, 2, false, dotted, false) == Token(LiteralString("ab"), 4);
    assert [] + [AnySeq] == [AnySeq] && [AnySeq] + [LiteralString("ab")] == [AnySeq, LiteralString("ab")];
    assert Parse(s, 4, [AnySeq, LiteralString("ab")], dotted, false) == Ok([AnySeq, LiteralString("ab")]);
    assert Parse(s, 2, [AnySeq], dotted, false) == Ok([AnySeq, LiteralString("ab")]);
  }
}
