/** How the text of a pattern is read, as a function of the text. */
module PatternSyntax {
  import opened Globs
  import opened Options

  /** `LoneBackslash`: the text ends after a backslash, and the original reads past its end. */
  datatype Outcome = Ok(elems: seq<Elem>) | UnmatchedBrace | LoneBackslash

  /** The first place from i on that has no digit. */
  function DigitsEnd(s: string, i: nat): (j: nat)
    requires i <= |s|
    ensures i <= j <= |s| && (forall x :: i <= x < j ==> IsDigit(s[x])) && (j == |s| || !IsDigit(s[j]))
    decreases |s| - i
  {
    if i < |s| && IsDigit(s[i]) then DigitsEnd(s, i + 1) else i
  }

  /** The number between two places, or -1 if there are no digits. */
  function NumberOr(s: string, i: nat, j: nat): int
    requires i <= j <= |s| && forall x :: i <= x < j ==> IsDigit(s[x])
  {
    if i < j then Digits(s, i, j) else -1
  }

  datatype Range = Range(from: int, upto: int, end: nat)

  /** A number range whose opening character is at i: its ends and the place of its closing character. */
  function RangeAt(s: string, i: nat, closing: char): (r: Option<Range>)
    requires i < |s|
    ensures r.Some? ==> i < r.value.end < |s| && s[r.value.end] == closing
  {
    var a := DigitsEnd(s, i + 1);
    if a + 1 < |s| && s[a] == '.' && s[a + 1] == '.' then
      var b := DigitsEnd(s, a + 2);
      if b < |s| && s[b] == closing then
        Some(Range(NumberOr(s, i + 1, a), NumberOr(s, a + 2, b), b))
      else
        None
    else
      None
  }

  datatype Piece = Piece(text: string, end: nat) | BadPiece

  /** A literal string from i on: up to the next special character, or through the bracket that begins a number
      range. */
  function LiteralAt(s: string, i: nat): (r: Piece)
    requires i <= |s|
    ensures r.Piece? ==> i <= r.end <= |s|
    decreases |s| - i
  {
    if i == |s| || s[i] == '?' || s[i] == '{' || s[i] == '*' then
      Piece("", i)
    else
      var j := if s[i] == '\\' then i + 1 else i;
      if j == |s| then
        BadPiece
      else if s[j] == '[' && RangeAt(s, j, ']').Some? then
        Piece([s[j]], j)
      else
        var rest := LiteralAt(s, j + 1);
        if rest.BadPiece? then BadPiece else Piece([s[j]] + rest.text, rest.end)
  }

  function Shown(c: char, sensitive: bool): char {
    if sensitive then c else Upper(c)
  }

  /** The ranges of a set whose first character is at `begin`, from i on; `end` is the place of the closing brace. */
  function RangesAt(s: string, begin: nat, i: nat, sensitive: bool): (r: Piece)
    requires begin <= i <= |s|
    ensures r.Piece? ==> i <= r.end < |s| && s[r.end] == '}' && |r.text| % 2 == 0
    decreases |s| - i
  {
    if i == |s| then
      BadPiece
    else if s[i] == '}' && i != begin then
      Piece("", i)
    else
      var isRange := i + 2 < |s| && s[i + 1] == '-' && s[i + 2] != '}';
      var last := if isRange then s[i + 2] else s[i];
      var rest := RangesAt(s, begin, if isRange then i + 3 else i + 1, sensitive);
      if rest.BadPiece? then BadPiece
      else Piece([Shown(s[i], sensitive), Shown(last, sensitive)] + rest.text, rest.end)
  }

  datatype Token = Token(elem: Elem, end: nat) | Stray | Unclosed

  /** The element that begins at i; `after` says whether a literal string comes before it. */
  function TokenAt(s: string, i: nat, after: bool, dotted: bool, sensitive: bool): (r: Token)
    requires i < |s|
    ensures r.Token? ==> i <= r.end <= |s| && r.elem != End && (r.end == i ==> !after && r.elem.LiteralString?)
    ensures r.Token? && (r.elem.InSet? || r.elem.NotInSet?) ==> |r.elem.chars| % 2 == 0
  {
    if s[i] == '?' then
      Token(if dotted then CommonChar else AnyChar, i + 1)
    else if s[i] == '[' && after && RangeAt(s, i, ']').Some? then
      var range := RangeAt(s, i, ']').value;
      Token(NumRange(range.from, range.upto), range.end)
    else if s[i] == '{' then
      var range := RangeAt(s, i, '}');
      if range.Some? then
        Token(NumRange(range.value.from, range.value.upto), range.value.end + 1)
      else
        var negated := i + 1 < |s| && s[i + 1] == '^';
        var begin := if negated then i + 2 else i + 1;
        var ranges := RangesAt(s, begin, begin, sensitive);
        if ranges.BadPiece? then Unclosed
        else Token(if negated then NotInSet(ranges.text) else InSet(ranges.text), ranges.end + 1)
    else if s[i] == '*' then
      if i + 1 < |s| && s[i + 1] == '*' then
        Token(AnySeq, i + 2)
      else
        Token(if dotted then CommonSeq else AnySeq, i + 1)
    else
      var piece := LiteralAt(s, i);
      if piece.BadPiece? then Stray else Token(LiteralString(piece.text), piece.end)
  }

  /** The elements from i on, after those read so far. */
  function Parse(s: string, i: nat, sofar: seq<Elem>, dotted: bool, sensitive: bool): Outcome
    requires i <= |s|
    decreases |s| - i, if sofar != [] && sofar[|sofar| - 1].LiteralString? then 0 else 1
  {
    if i == |s| then
      Ok(sofar)
    else
      match TokenAt(s, i, sofar != [] && sofar[|sofar| - 1].LiteralString?, dotted, sensitive)
      case Stray => LoneBackslash
      case Unclosed => UnmatchedBrace
      case Token(elem, end) => Parse(s, end, sofar + [elem], dotted, sensitive)
  }

  /** A substring match has sequences at both ends, unless they are there; every pattern has an end mark. */
  function Finished(elems: seq<Elem>, fullstring: bool): (p: seq<Elem>)
    ensures p != [] && p[|p| - 1] == End
  {
    if fullstring then
      elems + [End]
    else
      var closed := if elems == [] || elems[|elems| - 1] != AnySeq then elems + [AnySeq] else elems;
      (if closed[0] != AnySeq then [AnySeq] + closed else closed) + [End]
  }

  /** A sequence covers any part. */
  lemma AnySeqCovers(s: string, i: nat, j: nat, sensitive: bool)
    ensures Covers([AnySeq], s, i, j, sensitive) <==> i <= j <= |s|
  {
    CoversFirst([AnySeq], s, i, j, sensitive);
    assert [AnySeq][1..] == [];
    forall m: nat
      ensures Covers([], s, m, j, sensitive) <==> m == j <= |s|
    {
      CoversNone(s, m, j, sensitive);
    }
    if i <= j <= |s| {
      assert Fits(AnySeq, s, i, j, sensitive) && Covers([], s, j, j, sensitive);
    }
  }

  lemma EndCovers(s: string, m: nat, sensitive: bool)
    ensures Covers([End], s, m, |s|, sensitive) <==> m == |s|
  {
    CoversFirst([End], s, m, |s|, sensitive);
    CoversNone(s, |s|, |s|, sensitive);
    assert [End][1..] == [];
    if m == |s| {
      assert Fits(End, s, m, m, sensitive);
    }
  }

  /** The end mark accepts nothing more. */
  lemma FullMeaning(elems: seq<Elem>, s: string, sensitive: bool)
    ensures Accepts(Finished(elems, true), s, sensitive) <==> Covers(elems, s, 0, |s|, sensitive)
  {
    CoversJoin(elems, [End], s, 0, |s|, sensitive);
    forall m: nat
      ensures Covers([End], s, m, |s|, sensitive) <==> m == |s|
    {
      EndCovers(s, m, sensitive);
    }
  }

  /** Some part of the string is covered that begins at i, or later. */
  ghost predicate Finds(p: seq<Elem>, s: string, sensitive: bool) {
    exists i: nat, j: nat :: Covers(p, s, i, j, sensitive)
  }

  /** A sequence put in front lets the rest of the pattern match from anywhere. */
  lemma FrontSequence(p: seq<Elem>, s: string, j: nat, sensitive: bool)
    ensures Covers([AnySeq] + p, s, 0, j, sensitive) <==> exists i: nat :: Covers(p, s, i, j, sensitive)
  {
    CoversJoin([AnySeq], p, s, 0, j, sensitive);
    forall i: nat | Covers(p, s, i, j, sensitive)
      ensures Covers([AnySeq], s, 0, i, sensitive)
    {
      CoversBounds(p, s, i, j, sensitive);
      AnySeqCovers(s, 0, i, sensitive);
    }
  }

  /** A sequence put behind lets it end anywhere. */
  lemma BackSequence(p: seq<Elem>, s: string, i: nat, sensitive: bool)
    ensures Covers(p + [AnySeq], s, i, |s|, sensitive) <==> exists j: nat :: Covers(p, s, i, j, sensitive)
  {
    CoversJoin(p, [AnySeq], s, i, |s|, sensitive);
    forall j: nat | Covers(p, s, i, j, sensitive)
      ensures Covers([AnySeq], s, j, |s|, sensitive)
    {
      CoversBounds(p, s, i, j, sensitive);
      AnySeqCovers(s, j, |s|, sensitive);
    }
  }

  /** A pattern that begins with a sequence can begin its match at the start of the string. */
  lemma FrontAlready(p: seq<Elem>, s: string, i: nat, j: nat, sensitive: bool)
    requires p != [] && p[0] == AnySeq && Covers(p, s, i, j, sensitive)
    ensures Covers(p, s, 0, j, sensitive)
  {
    assert p == [AnySeq] + p[1..];
    CoversJoin([AnySeq], p[1..], s, i, j, sensitive);
    var m: nat :| Covers([AnySeq], s, i, m, sensitive) && Covers(p[1..], s, m, j, sensitive);
    FrontSequence(p[1..], s, j, sensitive);
  }

  lemma BackAlready(p: seq<Elem>, s: string, i: nat, j: nat, sensitive: bool)
    requires p != [] && p[|p| - 1] == AnySeq && Covers(p, s, i, j, sensitive)
    ensures Covers(p, s, i, |s|, sensitive)
  {
    var head := p[..|p| - 1];
    assert p == head + [AnySeq];
    CoversJoin(head, [AnySeq], s, i, j, sensitive);
    var m: nat :| Covers(head, s, i, m, sensitive) && Covers([AnySeq], s, m, j, sensitive);
    BackSequence(head, s, i, sensitive);
  }

  /** A substring match accepts the strings in which some part matches the pattern. */
  lemma SubstringMeaning(elems: seq<Elem>, s: string, sensitive: bool)
    ensures Accepts(Finished(elems, false), s, sensitive) <==> Finds(elems, s, sensitive)
  {
    var closed := if elems == [] || elems[|elems| - 1] != AnySeq then elems + [AnySeq] else elems;
    var open := if closed[0] != AnySeq then [AnySeq] + closed else closed;
    FullMeaning(open, s, sensitive);
    if i: nat, j: nat :| Covers(elems, s, i, j, sensitive) {
      if closed == elems {
        BackAlready(elems, s, i, j, sensitive);
      } else {
        BackSequence(elems, s, i, sensitive);
      }
      if open == closed {
        FrontAlready(closed, s, i, |s|, sensitive);
      } else {
        FrontSequence(closed, s, |s|, sensitive);
      }
    }
    if Covers(open, s, 0, |s|, sensitive) {
      if open != closed {
        FrontSequence(closed, s, |s|, sensitive);
      }
      var i: nat :| Covers(closed, s, i, |s|, sensitive);
      if closed != elems {
        BackSequence(elems, s, i, sensitive);
      }
    }
  }
}
