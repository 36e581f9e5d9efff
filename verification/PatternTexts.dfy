/** How to write a pattern down: texts that are read as a given literal or as given elements. */
module PatternTexts {
  import opened Globs
  import opened Options
  import opened PatternSyntax

  // ---------- texts that mean themselves ----------

  /** A backslash before every character. */
  function Quoted(t: string): string {
    if t == "" then "" else ['\\', t[0]] + Quoted(t[1..])
  }

  predicate Special(c: char) {
    c == '?' || c == '*' || c == '{' || c == '\\' || c == '['
  }

  function Mark(c: char): string {
    if Special(c) then ['\\', c] else [c]
  }

  /** A backslash before every special character. */
  function Escaped(t: string): string {
    if t == "" then "" else Mark(t[0]) + Escaped(t[1..])
  }

  /** Where a literal ends that is followed by nothing or by another element. */
  predicate Stops(tail: string) {
    tail == "" || tail[0] == '?' || tail[0] == '{' || tail[0] == '*'
  }

  lemma LiteralEmpty(s: string, i: nat)
    requires i <= |s| && Stops(s[i..])
    ensures LiteralAt(s, i) == Piece("", i)
  {
  }

  /** One character of a literal, with or without a backslash, that does not begin a number range. */
  lemma LiteralNext(s: string, i: nat, j: nat)
    requires i <= j < |s| && (j == i + 1 || j == i) && (j == i + 1 ==> s[i] == '\\')
      && (j == i ==> !Special(s[i]) || s[i] == '[')
    requires s[j] == '[' ==> RangeAt(s, j, ']') == None
    ensures var rest := LiteralAt(s, j + 1);
      LiteralAt(s, i) == if rest.BadPiece? then BadPiece else Piece([s[j]] + rest.text, rest.end)
  {
  }

  /** The bracket that begins a number range ends the literal, with or without a backslash. */
  lemma LiteralBracket(s: string, i: nat, j: nat)
    requires i <= j < |s| && (j == i + 1 || j == i) && (j == i + 1 ==> s[i] == '\\')
    requires s[j] == '[' && RangeAt(s, j, ']').Some?
    ensures LiteralAt(s, i) == Piece("[", j)
  {
    assert [s[j]] == "[";
  }

  /** The quoted text is read as that text. */
  lemma QuotedParses(t: string, dotted: bool, sensitive: bool)
    ensures Parse(Quoted(t), 0, [], dotted, sensitive) == Ok(if t == "" then [] else [LiteralString(t)])
  {
    if t != "" {
      assert "" + Quoted(t) + "" == Quoted(t);
      QuotedLiteral("", t, "");
      LiteralOnly(Quoted(t), t, dotted, sensitive);
    }
  }

  /** A text that is one literal. */
  lemma LiteralOnly(s: string, t: string, dotted: bool, sensitive: bool)
    requires s != "" && !(s[0] == '?' || s[0] == '{' || s[0] == '*') && LiteralAt(s, 0) == Piece(t, |s|)
    ensures Parse(s, 0, [], dotted, sensitive) == Ok([LiteralString(t)])
  {
    hide LiteralAt;
    assert TokenAt(s, 0, false, dotted, sensitive) == Token(LiteralString(t), |s|);
    assert [] + [LiteralString(t)] == [LiteralString(t)];
  }

  lemma LiteralCovers(t: string, s: string)
    ensures Covers([LiteralString(t)], s, 0, |s|, true) <==> s == t
  {
    CoversFirst([LiteralString(t)], s, 0, |s|, true);
    assert [LiteralString(t)][1..] == [];
    forall m: nat
      ensures Covers([], s, m, |s|, true) <==> m == |s|
    {
      CoversNone(s, m, |s|, true);
    }
    assert Covers([], s, |s|, |s|, true);
    assert Fits(LiteralString(t), s, 0, |s|, true) <==> s == t;
  }

  /** The quoted text matches just that text. */
  lemma QuotedMatches(t: string, s: string, dotted: bool)
    ensures var outcome := Parse(Quoted(t), 0, [], dotted, true);
      outcome.Ok? && (Accepts(Finished(outcome.elems, true), s, true) <==> s == t)
  {
    QuotedParses(t, dotted, true);
    if t == "" {
      FullMeaning([], s, true);
      CoversNone(s, 0, |s|, true);
    } else {
      FullMeaning([LiteralString(t)], s, true);
      LiteralCovers(t, s);
    }
  }

  // ---------- number ranges ----------

  predicate AllDigits(w: string) {
    forall k :: 0 <= k < |w| ==> IsDigit(w[k])
  }

  /** Digits or none, two dots, digits or none, and the closing character, after the opening one. */
  ghost predicate RangeText(w: string, a: nat, b: nat, closing: char) {
    a + 2 <= b == |w| - 1 && AllDigits(w[..a]) && w[a] == w[a + 1] == '.' && AllDigits(w[a + 2..b]) && w[b] == closing
  }

  lemma {:induction false} DigitsUntil(s: string, i: nat, e: nat)
    requires i <= e <= |s| && (forall k :: i <= k < e ==> IsDigit(s[k])) && (e == |s| || !IsDigit(s[e]))
    ensures DigitsEnd(s, i) == e
    decreases e - i
  {
    if i < e {
      DigitsUntil(s, i + 1, e);
    }
  }

  /** Where a number range is found, and what its ends are. */
  lemma RangeFound(s: string, i: nat, w: string, a: nat, b: nat, closing: char)
    requires i < |s| && RangeText(w, a, b, closing) && w <= s[i + 1..] && !IsDigit(closing)
    ensures DigitsEnd(s, i + 1) == i + 1 + a && DigitsEnd(s, i + 3 + a) == i + 1 + b
    ensures RangeAt(s, i, closing) ==
      Some(Range(NumberOr(s, i + 1, i + 1 + a), NumberOr(s, i + 3 + a, i + 1 + b), i + 1 + b))
  {
    assert forall k :: 0 <= k < |w| ==> s[i + 1 + k] == s[i + 1..][k] == w[k];
    assert forall k :: 0 <= k < a ==> IsDigit(w[..a][k]) && w[..a][k] == w[k];
    assert forall k :: a + 2 <= k < b ==> IsDigit(w[a + 2..b][k - a - 2]) && w[a + 2..b][k - a - 2] == w[k];
    assert forall k :: i + 1 <= k < i + 1 + a ==> s[k] == w[k - i - 1];
    DigitsUntil(s, i + 1, i + 1 + a);
    assert forall k :: i + 3 + a <= k < i + 1 + b ==> s[k] == w[k - i - 1];
    DigitsUntil(s, i + 3 + a, i + 1 + b);
  }

  lemma Part(s: string, i: nat, j: nat, a: nat, b: nat)
    requires i + a <= i + b <= j <= |s|
    ensures s[i..j][a..b] == s[i + a..i + b]
  {
    assert forall k :: 0 <= k < b - a ==> s[i..j][a..b][k] == s[i..j][a + k] == s[i + (a + k)] == s[i + a..i + b][k];
  }

  lemma RangeWritten(s: string, i: nat, closing: char) returns (w: string, a: nat, b: nat)
    requires i < |s| && RangeAt(s, i, closing).Some?
    ensures RangeText(w, a, b, closing) && w <= s[i + 1..]
  {
    var d := DigitsEnd(s, i + 1);
    var e := DigitsEnd(s, d + 2);
    w, a, b := s[i + 1..e + 1], d - i - 1, e - i - 1;
    Part(s, i + 1, e + 1, 0, a);
    Part(s, i + 1, e + 1, a + 2, b);
  }

  // ---------- escaping only what is special ----------

  /** A text without special characters begins the escaped text exactly if it begins the text. */
  lemma {:induction false} PlainPrefix(w: string, t: string)
    requires forall k :: 0 <= k < |w| ==> !Special(w[k])
    ensures w <= Escaped(t) <==> w <= t
    decreases |w|
  {
    if w != "" && t != "" {
      if w[0] == t[0] {
        PlainPrefix(w[1..], t[1..]);
        assert Escaped(t)[1..] == Escaped(t[1..]);
        assert w <= t <==> w[1..] <= t[1..];
        assert w <= Escaped(t) <==> w[1..] <= Escaped(t)[1..];
      } else {
        assert Escaped(t)[0] == if Special(t[0]) then '\\' else t[0];
        assert w[0] != '\\';
      }
    }
  }

  lemma RangePlain(w: string, a: nat, b: nat)
    requires RangeText(w, a, b, ']')
    ensures forall k :: 0 <= k < |w| ==> !Special(w[k])
  {
    assert forall k :: 0 <= k < a ==> w[k] == w[..a][k];
    assert forall k :: a + 2 <= k < b ==> w[k] == w[a + 2..b][k - a - 2];
  }

  lemma RangeUnescaped(s: string, i: nat, t: string)
    requires i < |s| && t != "" && s[i + 1..] == Escaped(t[1..]) && RangeAt(s, i, ']').Some?
    ensures RangeAt(t, 0, ']').Some?
  {
    hide RangeAt, Escaped, Special, DigitsEnd;
    var w, a, b := RangeWritten(s, i, ']');
    RangePlain(w, a, b);
    PlainPrefix(w, t[1..]);
    RangeFound(t, 0, w, a, b, ']');
  }

  lemma RangeEscaped(s: string, i: nat, t: string)
    requires i < |s| && t != "" && s[i + 1..] == Escaped(t[1..]) && RangeAt(t, 0, ']').Some?
    ensures RangeAt(s, i, ']').Some?
  {
    hide RangeAt, Escaped, Special, DigitsEnd;
    var w, a, b := RangeWritten(t, 0, ']');
    RangePlain(w, a, b);
    PlainPrefix(w, t[1..]);
    RangeFound(s, i, w, a, b, ']');
  }

  /** A bracket begins a number range in the escaped text exactly if it does in the text. */
  lemma EscapedRange(head: string, t: string)
    requires head != "" && t != "" && t[0] == '['
    ensures RangeAt(head + Escaped(t[1..]), |head| - 1, ']').Some? <==> RangeAt(t, 0, ']').Some?
  {
    hide RangeAt, Escaped, Special, DigitsEnd;
    var s := head + Escaped(t[1..]);
    assert s[|head|..] == Escaped(t[1..]);
    if RangeAt(s, |head| - 1, ']').Some? {
      RangeUnescaped(s, |head| - 1, t);
    }
    if RangeAt(t, 0, ']').Some? {
      RangeEscaped(s, |head| - 1, t);
    }
  }

  /** Somewhere in the text there is a number range in brackets. */
  predicate HasRange(t: string) {
    exists k :: 0 <= k < |t| && t[k] == '[' && RangeAt(t, k, ']').Some?
  }

  lemma RangeLater(t: string, k: nat)
    requires 0 < k < |t|
    ensures RangeAt(t, k, ']').Some? <==> RangeAt(t[1..], k - 1, ']').Some?
  {
    hide RangeAt;
    assert t[1..][k..] == t[k + 1..];
    if RangeAt(t, k, ']').Some? {
      var w, a, b := RangeWritten(t, k, ']');
      RangeFound(t[1..], k - 1, w, a, b, ']');
    }
    if RangeAt(t[1..], k - 1, ']').Some? {
      var w, a, b := RangeWritten(t[1..], k - 1, ']');
      RangeFound(t, k, w, a, b, ']');
    }
  }

  lemma HasRangeNext(t: string)
    requires t != ""
    ensures HasRange(t) <==> (t[0] == '[' && RangeAt(t, 0, ']').Some?) || HasRange(t[1..])
  {
    hide RangeAt;
    if HasRange(t) {
      var k :| 0 <= k < |t| && t[k] == '[' && RangeAt(t, k, ']').Some?;
      if k > 0 {
        RangeLater(t, k);
        assert t[1..][k - 1] == '[';
      }
    }
    if HasRange(t[1..]) {
      var k :| 0 <= k < |t[1..]| && t[1..][k] == '[' && RangeAt(t[1..], k, ']').Some?;
      RangeLater(t, k + 1);
      assert t[k + 1] == '[';
    }
  }

  lemma NoRangeEmpty()
    ensures !HasRange("")
  {
  }

  lemma RangeLonger(t: string)
    requires t != "" && RangeAt(t, 0, ']').Some?
    ensures |t| > 1
  {
  }

  /** Each character of the literal is written with a backslash, or, if it is not special or is a bracket, as it is. */
  predicate SpellsLiteral(text: string, t: string) {
    if t == "" then text == ""
    else
      || (|text| >= 2 && text[0] == '\\' && text[1] == t[0] && SpellsLiteral(text[2..], t[1..]))
      || (text != "" && text[0] == t[0] && (!Special(t[0]) || t[0] == '[') && SpellsLiteral(text[1..], t[1..]))
  }

  /** What may come after a literal: nothing or another element, a number range in brackets included. */
  predicate Follows(tail: string) {
    Stops(tail) || tail[0] == '['
  }

  /** A prefix ends before a character that it does not have. */
  lemma PrefixEnds(w: string, r: string, n: nat)
    requires w <= r && n <= |r| && (n < |r| ==> r[n] !in w)
    ensures |w| <= n
  {
    forall i | 0 <= i < |w|
      ensures r[i] in w
    {
      assert r[i] == w[i];
    }
  }

  /** No number range in brackets begins in the text and ends after it. */
  lemma RangeInside(s: string, k: nat, m: nat)
    requires k < m <= |s| && Follows(s[m..]) && RangeAt(s, k, ']').Some?
    ensures RangeAt(s[..m], k, ']').Some?
  {
    hide RangeAt;
    var w, a, b := RangeWritten(s, k, ']');
    RangePlain(w, a, b);
    assert m < |s| ==> s[k + 1..][m - k - 1] == s[m..][0];
    PrefixEnds(w, s[k + 1..], m - k - 1);
    assert forall x :: 0 <= x < |w| ==> w[x] == s[k + 1..][x] == s[..m][k + 1..][x];
    RangeFound(s[..m], k, w, a, b, ']');
  }

  lemma RangeMoved(s: string, head: nat, m: nat, k: nat)
    requires head <= k < m <= |s|
    ensures RangeAt(s[..m], k, ']').Some? <==> RangeAt(s[head..m], k - head, ']').Some?
  {
    hide RangeAt;
    assert s[..m][k + 1..] == s[head..m][k - head + 1..];
    if RangeAt(s[..m], k, ']').Some? {
      var w, a, b := RangeWritten(s[..m], k, ']');
      RangeFound(s[head..m], k - head, w, a, b, ']');
    }
    if RangeAt(s[head..m], k - head, ']').Some? {
      var w, a, b := RangeWritten(s[head..m], k - head, ']');
      RangeFound(s[..m], k, w, a, b, ']');
    }
  }

  lemma NoRangeInside(head: string, text: string, tail: string, k: nat)
    requires !HasRange(text) && Follows(tail) && k < |text| && text[k] == '['
    ensures RangeAt(head + text + tail, |head| + k, ']') == None
  {
    hide RangeAt;
    var s, m := head + text + tail, |head + text|;
    assert s[m..] == tail && s[|head|..m] == text;
    if RangeAt(s, |head| + k, ']').Some? {
      RangeInside(s, |head| + k, m);
      RangeMoved(s, |head|, m, |head| + k);
    }
  }

  /** A text without number ranges in brackets is read as the literal it spells; a bracket that begins one belongs to
      the literal before it. */
  lemma {:induction false} SpelledLiteral(head: string, k: nat, text: string, t: string, tail: string)
    requires k <= |text| && SpellsLiteral(text[k..], t) && !HasRange(text) && Follows(tail)
    requires var s := head + text + tail;
      !Stops(tail) ==> RangeAt(s, |head + text|, ']').Some?
    ensures LiteralAt(head + text + tail, |head| + k) == Piece(t + if Stops(tail) then "" else "[", |head + text|)
    decreases |t|
  {
    hide LiteralAt, RangeAt, HasRange;
    var s, i := head + text + tail, |head| + k;
    if t == "" {
      assert s[i..] == tail;
      if Stops(tail) {
        LiteralEmpty(s, i);
      } else {
        LiteralBracket(s, i, i);
        assert "" + "[" == "[";
      }
    } else {
      var escaped := |text| - k >= 2 && text[k] == '\\' && text[k + 1] == t[0] && SpellsLiteral(text[k + 2..], t[1..]);
      var j := if escaped then k + 1 else k;
      assert text[k..][0] == text[k] && text[k..][1..] == text[k + 1..];
      assert escaped ==> text[k..][2..] == text[k + 2..];
      assert s[|head| + j] == text[j] == t[0] && s[i] == text[k];
      if t[0] == '[' {
        NoRangeInside(head, text, tail, j);
      }
      SpelledLiteral(head, j + 1, text, t[1..], tail);
      LiteralNext(s, i, |head| + j);
      var last := if Stops(tail) then "" else "[";
      assert [t[0]] + (t[1..] + last) == t + last;
    }
  }

  lemma {:induction false} QuotedSpells(t: string)
    ensures SpellsLiteral(Quoted(t), t) && !HasRange(Quoted(t))
  {
    hide HasRange, RangeAt;
    NoRangeEmpty();
    if t != "" {
      var q := Quoted(t);
      QuotedSpells(t[1..]);
      assert q[2..] == Quoted(t[1..]) && q[1..][1..] == q[2..];
      HasRangeNext(q);
      HasRangeNext(q[1..]);
      NoRangeHere(q[1..], 0);
    }
  }

  lemma NoRangeHere(s: string, i: nat)
    requires i < |s| && (i + 1 < |s| ==> s[i + 1] == '\\' || Stops(s[i + 1..]))
    ensures RangeAt(s, i, ']') == None
  {
  }

  /** Where a backslash precedes it, no character ends or changes the literal. */
  lemma QuotedLiteral(head: string, t: string, tail: string)
    requires Stops(tail)
    ensures LiteralAt(head + Quoted(t) + tail, |head|) == Piece(t, |head + Quoted(t)|)
  {
    hide LiteralAt, SpellsLiteral, HasRange;
    QuotedSpells(t);
    assert Quoted(t)[0..] == Quoted(t);
    SpelledLiteral(head, 0, Quoted(t), t, tail);
    assert t + "" == t;
  }

  /** The literal read from an escaped text is the whole text, or ends early at the first number range. */
  lemma {:induction false} EscapedLiteral(head: string, t: string)
    ensures var r := LiteralAt(head + Escaped(t), |head|);
      r.Piece? && (if HasRange(t) then |r.text| < |t| else r == Piece(t, |head + Escaped(t)|))
    decreases |t|
  {
    hide LiteralAt, RangeAt, HasRange, Special;
    var s := head + Escaped(t);
    if t == "" {
      NoRangeEmpty();
      assert s == head;
      LiteralEmpty(s, |head|);
    } else {
      var longer := head + Mark(t[0]);
      assert s == longer + Escaped(t[1..]);
      HasRangeNext(t);
      EscapedLiteral(longer, t[1..]);
      EscapedStep(head, t);
      if t[0] == '[' && RangeAt(t, 0, ']').Some? {
        RangeLonger(t);
      }
      assert t == [t[0]] + t[1..];
    }
  }

  lemma EscapedCons(t: string)
    requires t != ""
    ensures Escaped(t) == Mark(t[0]) + Escaped(t[1..])
    ensures |Mark(t[0])| == (if Special(t[0]) then 2 else 1) && Mark(t[0])[|Mark(t[0])| - 1] == t[0]
    ensures Special(t[0]) ==> Mark(t[0])[0] == '\\'
  {
  }

  /** The first character of an escaped text. */
  lemma EscapedStep(head: string, t: string)
    requires t != ""
    ensures var s, longer := head + Escaped(t), head + Mark(t[0]);
      var rest := LiteralAt(s, |longer|);
      LiteralAt(s, |head|) ==
        if t[0] == '[' && RangeAt(t, 0, ']').Some? then Piece("[", |longer| - 1)
        else if rest.BadPiece? then BadPiece
        else Piece([t[0]] + rest.text, rest.end)
  {
    hide LiteralAt, RangeAt, Escaped, Special;
    EscapedCons(t);
    var s, longer := head + Escaped(t), head + Mark(t[0]);
    var j := |longer| - 1;
    assert s == longer + Escaped(t[1..]) && s[j] == t[0] && (j == |head| + 1 ==> s[|head|] == '\\');
    if t[0] == '[' {
      EscapedRange(longer, t);
    }
    if t[0] == '[' && RangeAt(t, 0, ']').Some? {
      LiteralBracket(s, |head|, j);
    } else {
      LiteralNext(s, |head|, j);
    }
  }

  lemma {:induction false} ParseKeeps(s: string, i: nat, sofar: seq<Elem>, dotted: bool, sensitive: bool)
    requires i <= |s|
    ensures var outcome := Parse(s, i, sofar, dotted, sensitive);
      outcome.Ok? ==> sofar <= outcome.elems
    decreases |s| - i, if sofar != [] && sofar[|sofar| - 1].LiteralString? then 0 else 1
  {
    if i < |s| {
      var token := TokenAt(s, i, sofar != [] && sofar[|sofar| - 1].LiteralString?, dotted, sensitive);
      if token.Token? {
        ParseKeeps(s, token.end, sofar + [token.elem], dotted, sensitive);
      }
    }
  }

  /** With a backslash before every special character, a text is read as itself, exactly if it has no number range in
      brackets. */
  lemma EscapedParses(t: string, dotted: bool, sensitive: bool)
    ensures Parse(Escaped(t), 0, [], dotted, sensitive) == Ok(if t == "" then [] else [LiteralString(t)])
      <==> !HasRange(t)
  {
    hide LiteralAt, RangeAt, HasRange;
    NoRangeEmpty();
    if t != "" {
      var s := Escaped(t);
      assert "" + s == s;
      EscapedLiteral("", t);
      var piece := LiteralAt(s, 0);
      if HasRange(t) {
        assert TokenAt(s, 0, false, dotted, sensitive) == Token(LiteralString(piece.text), piece.end);
        ParseKeeps(s, piece.end, [] + [LiteralString(piece.text)], dotted, sensitive);
      } else {
        LiteralOnly(s, t, dotted, sensitive);
      }
    }
  }

  /** For example, this backslash does not keep the bracket from beginning a number range. */
  lemma BracketNotQuoted(dotted: bool)
    ensures Parse("\\[1..2]", 0, [], dotted, true) == Ok([LiteralString("["), NumRange(1, 2), LiteralString("]")])
  {
    var s := "\\[1..2]";
    assert DigitsEnd(s, 2) == 3 && DigitsEnd(s, 5) == 6;
    assert Digits(s, 2, 3) == 10 * Digits(s, 2, 2) + 1 && Digits(s, 5, 6) == 10 * Digits(s, 5, 5) + 2;
    assert RangeAt(s, 1, ']') == Some(Range(1, 2, 6));
    assert LiteralAt(s, 0) == Piece("[", 1);
    assert TokenAt(s, 0, false, dotted, true) == Token(LiteralString("["), 1);
    assert TokenAt(s, 1, true, dotted, true) == Token(NumRange(1, 2), 6);
    assert LiteralAt(s, 7) == Piece("", 7) && LiteralAt(s, 6) == Piece("]", 7);
    assert TokenAt(s, 6, false, dotted, true) == Token(LiteralString("]"), 7);
    var a, b := [LiteralString("[")], [LiteralString("["), NumRange(1, 2)];
    assert [] + a == a && a + [NumRange(1, 2)] == b;
    assert b + [LiteralString("]")] == [LiteralString("["), NumRange(1, 2), LiteralString("]")];
    assert Parse(s, 7, b + [LiteralString("]")], dotted, true) == Ok(b + [LiteralString("]")]);
    assert Parse(s, 6, b, dotted, true) == Parse(s, 7, b + [LiteralString("]")], dotted, true);
    assert Parse(s, 1, a, dotted, true) == Parse(s, 6, b, dotted, true);
  }

  // ---------- texts of elements ----------

  function DigitOf(d: nat): (c: char)
    requires d < 10
    ensures IsDigit(c) && c as int - '0' as int == d
  {
    (d + 48) as char
  }

  function Decimal(n: nat): string {
    (if n < 10 then "" else Decimal(n / 10)) + [DigitOf(n % 10)]
  }

  /** An end of a number range; none for -1. */
  function EndText(n: int): string {
    if n < 0 then "" else Decimal(n)
  }

  /** Each range of a set is written with both ends, or, if it is one character and not taken for a longer range, with
      that one. When case does not matter, a set holds the upper-case characters. */
  predicate SpellsSet(text: string, chars: string, sensitive: bool) {
    if |chars| < 2 then text == chars == ""
    else
      || (|text| >= 3 && Shown(text[0], sensitive) == chars[0] && text[1] == '-' && text[2] != '}'
          && Shown(text[2], sensitive) == chars[1] && SpellsSet(text[3..], chars[2..], sensitive))
      || (text != "" && Shown(text[0], sensitive) == chars[0] == chars[1] && (|text| >= 3 ==> text[1] != '-')
          && SpellsSet(text[1..], chars[2..], sensitive))
  }

  /** The inside of a set: not empty, and a closing brace is only its first character. */
  predicate SpellsInside(text: string, chars: string, sensitive: bool) {
    text != "" && SpellsSet(text, chars, sensitive) && forall k :: 0 < k < |text| ==> text[k] != '}'
  }

  /** The text stands for the element. */
  predicate Spells(text: string, e: Elem, dotted: bool, sensitive: bool) {
    match e
    case LiteralString(t) => t != "" && SpellsLiteral(text, t) && !HasRange(text)
    case AnyChar => !dotted && text == "?"
    case CommonChar => dotted && text == "?"
    case InSet(chars) =>
      && |text| >= 2 && text[0] == '{' && text[|text| - 1] == '}' && text[1] != '^'
      && SpellsInside(text[1..|text| - 1], chars, sensitive) && RangeAt(text, 0, '}') == None
    case NotInSet(chars) =>
      && |text| >= 3 && text[..2] == "{^" && text[|text| - 1] == '}'
      && SpellsInside(text[2..|text| - 1], chars, sensitive)
    case NumRange(from, upto) => from >= -1 && upto >= -1 && text == "{" + EndText(from) + ".." + EndText(upto) + "}"
    case AnySeq => text == "**" || (text == "*" && !dotted)
    case CommonSeq => dotted && text == "*"
    case End => false
  }

  /** What may follow the text of an element: no literal after a literal, and no star after a single star. */
  predicate Ends(text: string, e: Elem, tail: string) {
    (e.LiteralString? ==> Stops(tail)) && (text == "*" ==> tail == "" || tail[0] != '*')
  }

  lemma {:induction false} DecimalMeans(head: string, n: nat, tail: string)
    ensures var s, i, j := head + Decimal(n) + tail, |head|, |head + Decimal(n)|;
      i < j && (forall k :: i <= k < j ==> IsDigit(s[k])) && Digits(s, i, j) == n
    decreases n
  {
    hide Digits, IsDigit;
    var s, i, j := head + Decimal(n) + tail, |head|, |head + Decimal(n)|;
    var d := DigitOf(n % 10);
    if n >= 10 {
      DecimalMeans(head, n / 10, [d] + tail);
      assert s == head + Decimal(n / 10) + ([d] + tail);
    } else {
      DigitsNone(s, i);
    }
    assert s[j - 1] == d;
    DigitsNext(s, i, j - 1);
  }

  lemma DigitsNone(s: string, i: nat)
    requires i <= |s|
    ensures Digits(s, i, i) == 0
  {
  }

  lemma DigitsNext(s: string, i: nat, j: nat)
    requires i <= j < |s| && (forall k :: i <= k < j ==> IsDigit(s[k])) && IsDigit(s[j])
    ensures forall k :: i <= k < j + 1 ==> IsDigit(s[k])
    ensures Digits(s, i, j + 1) == 10 * Digits(s, i, j) + (s[j] as int - '0' as int)
  {
  }

  /** An end of a number range is read as it was written. */
  lemma EndMeans(head: string, n: int, tail: string)
    requires n >= -1 && (tail == "" || !IsDigit(tail[0]))
    ensures var s := head + EndText(n) + tail;
      DigitsEnd(s, |head|) == |head + EndText(n)| && NumberOr(s, |head|, |head + EndText(n)|) == n
  {
    hide Digits, DigitsEnd, Decimal;
    var s := head + EndText(n) + tail;
    if n >= 0 {
      DecimalMeans(head, n, tail);
    }
    DigitsUntil(s, |head|, |head + EndText(n)|);
  }

  lemma RangeMeans(head: string, from: int, upto: int, closing: char, tail: string)
    requires head != "" && from >= -1 && upto >= -1 && !IsDigit(closing)
    ensures var text := EndText(from) + ".." + EndText(upto) + [closing];
      RangeAt(head + text + tail, |head| - 1, closing) == Some(Range(from, upto, |head + text| - 1))
  {
    hide Digits, DigitsEnd, EndText, NumberOr;
    var text := EndText(from) + ".." + EndText(upto) + [closing];
    var s, middle := head + text + tail, head + EndText(from) + "..";
    assert s == head + EndText(from) + (".." + EndText(upto) + [closing] + tail);
    EndMeans(head, from, ".." + EndText(upto) + [closing] + tail);
    assert s == middle + EndText(upto) + ([closing] + tail);
    EndMeans(middle, upto, [closing] + tail);
    assert s[|head + EndText(from)|] == '.' && s[|head + EndText(from)| + 1] == '.';
    assert |middle| == |head + EndText(from)| + 2 && s[|middle + EndText(upto)|] == closing;
  }

  /** The ranges of a set are read as they were written. */
  lemma {:induction false} SetMeans(head: string, begin: nat, text: string, chars: string, tail: string,
      sensitive: bool)
    requires begin <= |head| && SpellsSet(text, chars, sensitive) && (text == "" ==> begin < |head|)
    requires forall k :: 0 <= k < |text| ==> text[k] != '}' || (k == 0 && begin == |head|)
    ensures RangesAt(head + text + ("}" + tail), begin, |head|, sensitive) == Piece(chars, |head + text|)
    decreases |chars|
  {
    hide RangesAt;
    var s := head + text + ("}" + tail);
    if |chars| < 2 {
      assert s[|head|] == '}';
      RangesLast(s, begin, |head|, sensitive);
    } else {
      assert chars == [chars[0], chars[1]] + chars[2..];
      var long := |text| >= 3 && text[1] == '-' && text[2] != '}';
      var n := if long then 3 else 1;
      assert s[|head|] == text[0] && (|text| > 1 ==> s[|head| + 1] == text[1])
        && (|text| > 2 ==> s[|head| + 2] == text[2]);
      assert |text| == 1 ==> s[|head| + 1] == '}';
      assert |text| == 2 ==> s[|head| + 2] == '}';
      var longer := head + text[..n];
      assert s == longer + text[n..] + ("}" + tail) && |longer| == |head| + n;
      SetMeans(longer, begin, text[n..], chars[2..], tail, sensitive);
      RangesNext(s, begin, |head|, sensitive);
    }
  }

  lemma RangesLast(s: string, begin: nat, i: nat, sensitive: bool)
    requires begin < i < |s| && s[i] == '}'
    ensures RangesAt(s, begin, i, sensitive) == Piece("", i)
  {
  }

  lemma RangesNext(s: string, begin: nat, i: nat, sensitive: bool)
    requires begin <= i < |s| && (s[i] != '}' || i == begin)
    ensures var long := i + 2 < |s| && s[i + 1] == '-' && s[i + 2] != '}';
      var rest := RangesAt(s, begin, if long then i + 3 else i + 1, sensitive);
      rest.Piece? ==>
        RangesAt(s, begin, i, sensitive) ==
          Piece([Shown(s[i], sensitive), Shown(s[if long then i + 2 else i], sensitive)] + rest.text, rest.end)
  {
  }

  lemma NoRangeNegated(s: string, i: nat)
    requires i + 1 < |s| && s[i + 1] == '^'
    ensures RangeAt(s, i, '}') == None
  {
  }

  /** Whether braces hold a number range does not depend on what is around them, if there is no brace between. */
  lemma RangeAlone(head: string, text: string, tail: string)
    requires |text| >= 2 && text[|text| - 1] == '}' && forall k :: 1 < k < |text| - 1 ==> text[k] != '}'
    requires RangeAt(text, 0, '}') == None
    ensures RangeAt(head + text + tail, |head|, '}') == None
  {
    hide RangeAt;
    var s := head + text + tail;
    if RangeAt(s, |head|, '}').Some? {
      var w, a, b := RangeWritten(s, |head|, '}');
      assert forall k :: 0 <= k < |w| ==> w[k] == s[|head| + 1..][k] == s[|head| + 1 + k];
      assert forall k :: 0 <= k < a ==> w[k] == w[..a][k];
      assert forall k :: a + 2 <= k < b ==> w[k] == w[a + 2..b][k - a - 2];
      assert forall k :: 0 <= k < |text| ==> s[|head| + k] == text[k];
      assert s[|head| + 1..][|text| - 2] == '}' && '}' !in w[..b];
      PrefixEnds(w[..b], s[|head| + 1..], |text| - 2);
      assert w <= text[1..];
      RangeFound(text, 0, w, a, b, '}');
    }
  }

  /** A set that begins at i. */
  lemma TokenSet(s: string, i: nat, begin: nat, chars: string, end: nat, after: bool, dotted: bool, sensitive: bool)
    requires i + 1 < |s| && s[i] == '{' && RangeAt(s, i, '}') == None
    requires begin == (if s[i + 1] == '^' then i + 2 else i + 1) <= |s|
      && RangesAt(s, begin, begin, sensitive) == Piece(chars, end)
    ensures TokenAt(s, i, after, dotted, sensitive) ==
      Token(if s[i + 1] == '^' then NotInSet(chars) else InSet(chars), end + 1)
  {
    hide RangesAt, RangeAt;
  }

  lemma SetToken(head: string, text: string, e: Elem, tail: string, after: bool, dotted: bool, sensitive: bool)
    requires (e.InSet? || e.NotInSet?) && Spells(text, e, dotted, sensitive)
    ensures TokenAt(head + text + tail, |head|, after, dotted, sensitive) == Token(e, |head + text|)
  {
    hide RangesAt, RangeAt, SpellsSet, TokenAt;
    var s, n := head + text + tail, if e.InSet? then 1 else 2;
    var inside, start := text[n..|text| - 1], head + text[..n];
    assert s == start + inside + ("}" + tail) && |start| == |head| + n;
    assert s[|head|] == text[0] && s[|head| + 1] == text[1];
    assert forall k :: 0 < k < |inside| ==> inside[k] == text[n + k];
    SetMeans(start, |start|, inside, e.chars, tail, sensitive);
    if e.InSet? {
      assert forall k :: 1 < k < |text| - 1 ==> text[k] == inside[k - 1];
      RangeAlone(head, text, tail);
    } else {
      assert text[1] == text[..2][1] && text[0] == text[..2][0];
      NoRangeNegated(s, |head|);
    }
    TokenSet(s, |head|, |start|, e.chars, |start + inside|, after, dotted, sensitive);
  }

  lemma RangeToken(head: string, from: int, upto: int, tail: string, after: bool, dotted: bool, sensitive: bool)
    requires from >= -1 && upto >= -1
    ensures var text := EndText(from) + ".." + EndText(upto) + "}";
      TokenAt(head + ("{" + text) + tail, |head|, after, dotted, sensitive) ==
        Token(NumRange(from, upto), |head + ("{" + text)|)
  {
    hide RangeAt, EndText;
    var text := EndText(from) + ".." + EndText(upto) + "}";
    var s := head + ("{" + text) + tail;
    assert s == (head + "{") + text + tail && s[|head|] == '{';
    assert text == EndText(from) + ".." + EndText(upto) + ['}'];
    RangeMeans(head + "{", from, upto, '}', tail);
  }

  lemma LiteralToken(head: string, text: string, t: string, tail: string, after: bool, dotted: bool, sensitive: bool)
    requires t != "" && SpellsLiteral(text, t) && !HasRange(text) && Stops(tail)
    ensures TokenAt(head + text + tail, |head|, after, dotted, sensitive) == Token(LiteralString(t), |head + text|)
  {
    hide LiteralAt, RangeAt, HasRange;
    var s := head + text + tail;
    assert text[0..] == text && t + "" == t && s[|head|] == text[0];
    SpelledLiteral(head, 0, text, t, tail);
    if text[0] == '[' {
      NoRangeInside(head, text, tail, 0);
    }
  }

  /** The text of an element is read as that element. */
  lemma TextToken(head: string, text: string, e: Elem, tail: string, after: bool, dotted: bool, sensitive: bool)
    requires Spells(text, e, dotted, sensitive) && Ends(text, e, tail)
    ensures TokenAt(head + text + tail, |head|, after, dotted, sensitive) == Token(e, |head + text|)
  {
    hide RangesAt, RangeAt, LiteralAt, SpellsSet, SpellsLiteral, EndText, HasRange;
    var s := head + text + tail;
    match e
    case LiteralString(t) => LiteralToken(head, text, t, tail, after, dotted, sensitive);
    case InSet(_) => SetToken(head, text, e, tail, after, dotted, sensitive);
    case NotInSet(_) => SetToken(head, text, e, tail, after, dotted, sensitive);
    case NumRange(from, upto) =>
      RangeToken(head, from, upto, tail, after, dotted, sensitive);
      assert text == "{" + (EndText(from) + ".." + EndText(upto) + "}");
    case AnySeq =>
      assert s[|head|] == '*' && (text == "**" ==> s[|head| + 1] == '*');
      assert text == "*" && tail != "" ==> s[|head| + 1] == tail[0];
    case CommonSeq => assert s[|head|] == '*' && (tail != "" ==> s[|head| + 1] == tail[0]);
    case AnyChar => assert s[|head|] == '?';
    case CommonChar => assert s[|head|] == '?';
    case End =>
  }

  /** The texts stand for the elements, and can be put one after the other. */
  ghost predicate Written(texts: seq<string>, elems: seq<Elem>, dotted: bool, sensitive: bool) {
    && |texts| == |elems|
    && (forall k :: 0 <= k < |elems| ==> Spells(texts[k], elems[k], dotted, sensitive))
    && (forall k :: 0 < k < |elems| ==>
          && (elems[k - 1].LiteralString? ==> !elems[k].LiteralString?)
          && (texts[k - 1] == "*" ==> !elems[k].AnySeq? && !elems[k].CommonSeq?))
  }

  function Joined(texts: seq<string>): string {
    if texts == [] then "" else texts[0] + Joined(texts[1..])
  }

  lemma TextFirst(text: string, e: Elem, dotted: bool, sensitive: bool)
    requires Spells(text, e, dotted, sensitive)
    ensures text != "" && (!e.LiteralString? ==> text[0] == '?' || text[0] == '{' || text[0] == '*')
    ensures text[0] == '*' <==> e.AnySeq? || e.CommonSeq?
  {
    hide SpellsInside, EndText, RangeAt, HasRange;
  }

  lemma WrittenEnds(texts: seq<string>, elems: seq<Elem>, dotted: bool, sensitive: bool)
    requires elems != [] && Written(texts, elems, dotted, sensitive)
    ensures Ends(texts[0], elems[0], Joined(texts[1..])) && Written(texts[1..], elems[1..], dotted, sensitive)
  {
    hide Spells;
    if |elems| > 1 {
      assert texts[1..][0] == texts[1];
      TextFirst(texts[1], elems[1], dotted, sensitive);
    }
  }

  lemma {:induction false} ParseRest(head: string, texts: seq<string>, elems: seq<Elem>, sofar: seq<Elem>,
      dotted: bool, sensitive: bool)
    requires Written(texts, elems, dotted, sensitive)
    ensures Parse(head + Joined(texts), |head|, sofar, dotted, sensitive) == Ok(sofar + elems)
    decreases |elems|
  {
    hide Spells, TokenAt, Ends;
    var s := head + Joined(texts);
    if elems == [] {
      assert s == head && sofar + elems == sofar;
    } else {
      var text, e, rest := texts[0], elems[0], Joined(texts[1..]);
      var longer := head + text;
      assert s == longer + rest;
      TextFirst(text, e, dotted, sensitive);
      WrittenEnds(texts, elems, dotted, sensitive);
      TextToken(head, text, e, rest, sofar != [] && sofar[|sofar| - 1].LiteralString?, dotted, sensitive);
      ParseRest(longer, texts[1..], elems[1..], sofar + [e], dotted, sensitive);
      assert sofar + [e] + elems[1..] == sofar + elems;
    }
  }

  /** Parsing undoes writing, for all elements that a pattern can have side by side and all their spellings. */
  lemma ParseWritten(texts: seq<string>, elems: seq<Elem>, dotted: bool, sensitive: bool)
    requires Written(texts, elems, dotted, sensitive)
    ensures Parse(Joined(texts), 0, [], dotted, sensitive) == Ok(elems)
  {
    ParseRest("", texts, elems, [], dotted, sensitive);
    assert "" + Joined(texts) == Joined(texts) && [] + elems == elems;
  }

  /** A number range in brackets after a literal: the brackets are in the literals on either side. */
  lemma BracketMeans(text: string, t: string, from: int, upto: int, dotted: bool, sensitive: bool)
    requires SpellsLiteral(text, t) && !HasRange(text) && from >= -1 && upto >= -1
    ensures Parse(text + ("[" + (EndText(from) + ".." + EndText(upto) + "]")), 0, [], dotted, sensitive)
      == Ok([LiteralString(t + "["), NumRange(from, upto), LiteralString("]")])
  {
    hide LiteralAt, RangeAt, HasRange, EndText, TokenAt;
    var tail := "[" + (EndText(from) + ".." + EndText(upto) + "]");
    var s, end := text + tail, |text + tail| - 1;
    assert EndText(from) + ".." + EndText(upto) + [']'] == EndText(from) + ".." + EndText(upto) + "]";
    assert s == (text + "[") + (EndText(from) + ".." + EndText(upto) + [']']) + "";
    RangeMeans(text + "[", from, upto, ']', "");
    assert "" + text + tail == s && text[0..] == text && "" + text == text;
    SpelledLiteral("", 0, text, t, tail);
    var a, b, c := LiteralString(t + "["), NumRange(from, upto), LiteralString("]");
    BracketTokens(s, |text|, t + "[", from, upto, dotted, sensitive);
    assert [] + [a] == [a] && [a] + [b] == [a, b] && [a, b] + [c] == [a, b, c];
    assert Parse(s, end, [a, b], dotted, sensitive) == Parse(s, end + 1, [a, b, c], dotted, sensitive) == Ok([a, b, c]);
    assert Parse(s, |text|, [a], dotted, sensitive) == Parse(s, end, [a, b], dotted, sensitive);
  }

  lemma BracketTokens(s: string, i: nat, t: string, from: int, upto: int, dotted: bool, sensitive: bool)
    requires i < |s| - 1 && s[i] == '[' && s[|s| - 1] == ']' && RangeAt(s, i, ']') == Some(Range(from, upto, |s| - 1))
    requires LiteralAt(s, 0) == Piece(t, i) && !(s[0] == '?' || s[0] == '{' || s[0] == '*')
    ensures TokenAt(s, 0, false, dotted, sensitive) == Token(LiteralString(t), i)
    ensures TokenAt(s, i, true, dotted, sensitive) == Token(NumRange(from, upto), |s| - 1)
    ensures TokenAt(s, |s| - 1, false, dotted, sensitive) == Token(LiteralString("]"), |s|)
  {
    hide RangeAt, LiteralAt;
    LiteralEmpty(s, |s|);
    LiteralNext(s, |s| - 1, |s| - 1);
    assert [s[|s| - 1]] + "" == "]";
  }
}
