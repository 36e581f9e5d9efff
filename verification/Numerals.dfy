/** Printing and parsing of 128-bit numbers, as functions of the number and of the text. */
module Numerals {
  import opened Powers
  import opened Words

  function DigitChar(d: nat): char
    requires d < 37
  {
    if d > 9 then (d + 55) as char else (d + 48) as char
  }

  /** The digits of a number, none for zero. */
  function Numeral(n: nat, radix: nat): string
    requires 2 <= radix <= 37
  {
    if n == 0 then "" else Numeral(n / radix, radix) + [DigitChar(n % radix)]
  }

  function Printed(v: int, radix: nat): string {
    if v == 0 then "0"
    else if radix < 2 || radix > 37 then "(invalid radix)"
    else if v < 0 then "-" + Numeral(-v, radix)
    else Numeral(v, radix)
  }

  /** The value of a digit, or -1, as the source tells them apart. */
  function DigitValue(c: char, radix: nat): int {
    var x := c as int;
    if '0' <= c <= '9' && x < 48 + radix then x - 48
    else if 'a' <= c && x <= 97 + radix - 10 then x - 97 + 10
    else if 'A' <= c && x <= 65 + radix - 10 then x - 65 + 10
    else -1
  }

  /** What a digit or letter is worth, in either case; 36 for any other character. */
  function Worth(c: char): nat {
    if '0' <= c <= '9' then c as int - 48
    else if 'a' <= c <= 'z' then c as int - 87
    else if 'A' <= c <= 'Z' then c as int - 55
    else 36
  }

  /** What is read as a digit is worth less than this: in radix 10 and 16, the letter worth the radix passes too. */
  function Limit(radix: nat): nat {
    if radix < 10 then radix else radix + 1
  }

  lemma DigitWorth(c: char, radix: nat)
    requires radix in {8, 10, 16}
    ensures DigitValue(c, radix) == if Worth(c) < Limit(radix) then Worth(c) else -1
  {
  }

  /** One digit too many is read in radix 10 and 16, and none in radix 8. */
  lemma OneTooMany(c: char, radix: nat)
    requires radix in {8, 10, 16}
    ensures DigitValue(c, radix) >= radix
      <==> radix >= 10 && c as int in {'a' as int + radix - 10, 'A' as int + radix - 10}
  {
  }

  /** The end of the digits worth less than the limit that begin at i. */
  function DigitsEnd(s: string, i: nat, limit: nat): (e: nat)
    requires i <= |s|
    ensures i <= e <= |s| && (forall k :: i <= k < e ==> Worth(s[k]) < limit) && (e == |s| || Worth(s[e]) >= limit)
    decreases |s| - i
  {
    if i == |s| || Worth(s[i]) >= limit then i else DigitsEnd(s, i + 1, limit)
  }

  lemma {:induction false} EndUnique(s: string, i: nat, limit: nat, e: nat)
    requires i <= e <= |s| && (forall k :: i <= k < e ==> Worth(s[k]) < limit) && (e == |s| || Worth(s[e]) >= limit)
    ensures DigitsEnd(s, i, limit) == e
    decreases e - i
  {
    if i < e {
      EndUnique(s, i + 1, limit, e);
    }
  }

  /** A higher limit ends the digits later, exactly if it lets the first character after them pass. */
  lemma {:induction false} EndLater(s: string, i: nat, limit: nat, more: nat)
    requires i <= |s| && limit <= more
    ensures var e := DigitsEnd(s, i, limit);
      e <= DigitsEnd(s, i, more) && (e == DigitsEnd(s, i, more) <==> e == |s| || Worth(s[e]) >= more)
    decreases |s| - i
  {
    if i < |s| && Worth(s[i]) < limit {
      EndLater(s, i + 1, limit, more);
    }
  }

  /** The number that the digits from i to j stand for. */
  function Positional(s: string, i: nat, j: nat, radix: nat): nat
    requires i <= j <= |s|
  {
    if i == j then 0 else Positional(s, i, j - 1, radix) * radix + Worth(s[j - 1])
  }

  /** A text's sign, radix, and where its digits begin. */
  datatype Layout = Layout(minus: bool, radix: nat, from: nat)

  function LayoutOf(s: string): (layout: Layout)
    ensures layout.from <= |s| && layout.radix in {8, 10, 16}
  {
    var minus := s != "" && s[0] == '-';
    var i := if minus then 1 else 0;
    if i < |s| && s[i] == '0' then
      if i + 1 < |s| && s[i + 1] == 'x' then Layout(minus, 16, i + 2) else Layout(minus, 8, i + 1)
    else
      Layout(minus, 10, i)
  }

  function Signed(minus: bool, n: nat): int {
    if minus then -(n as int) else n
  }

  /** The number that the text has if its digits are worth less than the limit, before it is cut to 128 bits. */
  function NumberIn(s: string, limit: nat): int {
    var layout := LayoutOf(s);
    Signed(layout.minus, Positional(s, layout.from, DigitsEnd(s, layout.from, limit), layout.radix))
  }

  /** The number that is parsed. */
  function Parsed(s: string): int {
    Wrap(NumberIn(s, Limit(LayoutOf(s).radix)))
  }

  /** The number that the text means: its digits are worth less than the radix. */
  function Meant(s: string): int {
    Wrap(NumberIn(s, LayoutOf(s).radix))
  }

  /** The digits are not followed by the letter worth the radix. */
  predicate Proper(s: string) {
    var layout := LayoutOf(s);
    var e := DigitsEnd(s, layout.from, layout.radix);
    layout.radix >= 10 && e < |s| ==> Worth(s[e]) != layout.radix
  }

  lemma ProperEnds(s: string)
    ensures var layout := LayoutOf(s);
      var e, d := DigitsEnd(s, layout.from, layout.radix), DigitsEnd(s, layout.from, Limit(layout.radix));
      e <= d && (Proper(s) ==> e == d) && (!Proper(s) ==> e < d && Worth(s[e]) == layout.radix)
  {
    hide DigitsEnd, Worth;
    var layout := LayoutOf(s);
    EndLater(s, layout.from, layout.radix, Limit(layout.radix));
  }

  lemma Multiplied(a: nat, radix: nat)
    requires radix >= 1
    ensures a <= a * radix
  {
  }

  /** More digits make no smaller number. */
  lemma {:induction false} PositionalGrows(s: string, i: nat, j: nat, k: nat, radix: nat)
    requires i <= j <= k <= |s| && radix >= 1
    ensures Positional(s, i, j, radix) <= Positional(s, i, k, radix)
    decreases k
  {
    if j < k {
      PositionalGrows(s, i, j, k - 1, radix);
      Multiplied(Positional(s, i, k - 1, radix), radix);
    }
  }

  /** The letter makes the number greater. */
  lemma ImproperGreater(s: string)
    requires !Proper(s)
    ensures var radix := LayoutOf(s).radix;
      NumberIn(s, radix) != NumberIn(s, Limit(radix))
  {
    hide Positional, DigitsEnd;
    ProperEnds(s);
    var layout := LayoutOf(s);
    var i, radix := layout.from, layout.radix;
    var e, d := DigitsEnd(s, i, radix), DigitsEnd(s, i, Limit(radix));
    PositionalGrows(s, i, e + 1, d, radix);
    PositionalNext(s, i, e, radix);
    Multiplied(Positional(s, i, e, radix), radix);
  }

  lemma PositionalNext(s: string, i: nat, j: nat, radix: nat)
    requires i <= j < |s|
    ensures Positional(s, i, j + 1, radix) == Positional(s, i, j, radix) * radix + Worth(s[j])
  {
  }

  lemma WrapSameOnly(x: int, y: int)
    ensures Wrap(x) == Wrap(y) <==> (x - y) % MODULUS == 0
  {
    var j := WrapMultiple(x);
    var k := WrapMultiple(y);
    if Wrap(x) == Wrap(y) {
      assert x - y == (j - k) * MODULUS;
    } else if (x - y) % MODULUS == 0 {
      var m := (x - y) / MODULUS;
      assert x == Wrap(y) + (k + m) * MODULUS;
      WrapUnique(x, Wrap(y), k + m);
    }
  }

  /** Parsing is right if the digits are not followed by the letter worth the radix, and, when the number read is in
      range, only then. */
  lemma ParsedRight(s: string)
    ensures Proper(s) ==> Parsed(s) == Meant(s)
    ensures -BOUND <= NumberIn(s, Limit(LayoutOf(s).radix)) < BOUND ==> (Parsed(s) == Meant(s) <==> Proper(s))
  {
    hide Wrap, Positional, DigitsEnd;
    var layout := LayoutOf(s);
    var read, meant := NumberIn(s, Limit(layout.radix)), NumberIn(s, layout.radix);
    ProperEnds(s);
    if !Proper(s) && -BOUND <= read < BOUND {
      ImproperGreater(s);
      var e, d := DigitsEnd(s, layout.from, layout.radix), DigitsEnd(s, layout.from, Limit(layout.radix));
      PositionalGrows(s, layout.from, e, d, layout.radix);
      WrapSame(read);
      WrapSame(meant);
    }
  }

  /** Beyond the range it may come out right by chance: what the letter and the digits after it add is lost modulo
      2^128. */
  lemma ParsedByChance(s: string)
    requires !Proper(s)
    ensures var radix := LayoutOf(s).radix;
      Parsed(s) == Meant(s) <==> (NumberIn(s, Limit(radix)) - NumberIn(s, radix)) % MODULUS == 0
  {
    hide Wrap, Positional, DigitsEnd;
    var radix := LayoutOf(s).radix;
    WrapSameOnly(NumberIn(s, Limit(radix)), NumberIn(s, radix));
  }

  lemma {:induction false} PositionalBound(s: string, i: nat, j: nat, radix: nat)
    requires i <= j <= |s| && radix <= 16 && forall k :: i <= k < j ==> Worth(s[k]) <= 16
    ensures Positional(s, i, j, radix) + 2 <= 2 * Pow2(4 * (j - i))
    decreases j
  {
    if i < j {
      PositionalBound(s, i, j - 1, radix);
      PowFour(4 * (j - 1 - i));
      Grow(radix, 16, Positional(s, i, j - 1, radix));
    }
  }

  lemma PowFour(n: nat)
    ensures Pow2(n + 4) == 16 * Pow2(n)
  {
    assert Pow2(n + 4) == 2 * Pow2(n + 3) && Pow2(n + 2) == 2 * Pow2(n + 1);
  }

  /** For a text of at most 31 characters: exactly if the letter does not follow. */
  lemma ParsedRightShort(s: string)
    requires |s| <= 31
    ensures Parsed(s) == Meant(s) <==> Proper(s)
  {
    hide Wrap, Positional, DigitsEnd, Pow2;
    var layout := LayoutOf(s);
    var d := DigitsEnd(s, layout.from, Limit(layout.radix));
    PositionalBound(s, layout.from, d, layout.radix);
    PowMore(4 * (d - layout.from), 124);
    PowWords();
    PowFew();
    ParsedRight(s);
  }

  lemma PowFew()
    ensures 2 * Pow2(124) < BOUND
  {
    hide Pow2;
    PowWords();
    PowHalf(127, BOUND / 2);
    PowHalf(126, BOUND / 4);
    PowHalf(125, BOUND / 8);
  }

  lemma {:induction false} PositionalSame(s: string, t: string, i: nat, j: nat, radix: nat)
    requires i <= j <= |s| && j <= |t| && s[..j] == t[..j]
    ensures Positional(s, i, j, radix) == Positional(t, i, j, radix)
    decreases j
  {
    if i < j {
      assert s[..j - 1] == s[..j][..j - 1] == t[..j - 1];
      PositionalSame(s, t, i, j - 1, radix);
      assert s[j - 1] == s[..j][j - 1] == t[j - 1];
    }
  }

  /** The digits, in order; 37 of them, since the largest radix is 37. */
  const DIGITS := "0123456789ABCDEFGHIJKLMNOPQRSTUVWXYZ["

  lemma DigitChars(d: nat)
    requires d < 37
    ensures DigitChar(d) == DIGITS[d] && Worth(DIGITS[d]) == d
  {
  }

  lemma NumeralLess(n: nat, radix: nat)
    requires n > 0 && 2 <= radix <= 37
    ensures n / radix < n && n == n / radix * radix + n % radix && Worth(DigitChar(n % radix)) == n % radix
  {
    hide Worth, DigitChar;
    DigitChars(n % radix);
    Parted(n, radix);
  }

  lemma Parted(n: nat, radix: nat)
    requires n > 0 && radix >= 2
    ensures n / radix < n && n == n / radix * radix + n % radix
  {
    var q := n / radix;
    Grow(2, radix, q);
  }

  lemma DigitMore(t: string, i: nat, c: char, radix: nat)
    requires i <= |t| && Worth(c) < radix && forall k :: i <= k < |t| ==> Worth(t[k]) < radix
    ensures var s := t + [c];
      && Positional(s, i, |s|, radix) == Positional(t, i, |t|, radix) * radix + Worth(c)
      && forall k :: i <= k < |s| ==> Worth(s[k]) < radix
  {
    hide Positional, Worth;
    var s := t + [c];
    PositionalSame(s, t, i, |t|, radix);
    PositionalNext(s, i, |t|, radix);
  }

  /** The digits of a number stand for it, in every radix. */
  lemma {:induction false} NumeralMeans(n: nat, radix: nat, head: string)
    requires 2 <= radix <= 37
    ensures var s := head + Numeral(n, radix);
      Positional(s, |head|, |s|, radix) == n && forall k :: |head| <= k < |s| ==> Worth(s[k]) < radix
    decreases n
  {
    hide Positional, Worth;
    if n > 0 {
      NumeralLess(n, radix);
      NumeralMeans(n / radix, radix, head);
      var t, c := head + Numeral(n / radix, radix), DigitChar(n % radix);
      DigitMore(t, |head|, c, radix);
      assert head + Numeral(n, radix) == t + [c];
    } else {
      PositionalNone(head + Numeral(0, radix), |head|, radix);
    }
  }

  lemma PositionalNone(s: string, i: nat, radix: nat)
    requires i <= |s|
    ensures Positional(s, i, i, radix) == 0
  {
  }

  lemma {:induction false} NumeralFirst(n: nat)
    requires n > 0
    ensures Numeral(n, 10) != "" && '1' <= Numeral(n, 10)[0] <= '9'
    decreases n
  {
    if n >= 10 {
      NumeralFirst(n / 10);
    } else {
      assert Numeral(0, 10) == "";
    }
  }

  lemma ReadWhole(n: nat, head: string)
    requires 0 < n
    ensures var s := head + Numeral(n, 10);
      |head| < |s| && '1' <= s[|head|] <= '9' && Positional(s, |head|, DigitsEnd(s, |head|, Limit(10)), 10) == n
  {
    hide Numeral, Positional, DigitsEnd;
    var s := head + Numeral(n, 10);
    NumeralFirst(n);
    NumeralMeans(n, 10, head);
    EndUnique(s, |head|, Limit(10), |s|);
  }

  /** The sign and the mark of the radix in front of an octal or hexadecimal number. */
  function Prefix(minus: bool, radix: nat): string {
    (if minus then "-" else "") + if radix == 16 then "0x" else "0"
  }

  /** After the mark of a radix, all its digits are read: the text has their value in that radix. */
  lemma MarkedRadix(minus: bool, radix: nat, w: string)
    requires radix in {8, 16} && forall k :: 0 <= k < |w| ==> Worth(w[k]) < radix
    ensures var head := Prefix(minus, radix);
      Parsed(head + w) == Wrap(Signed(minus, Positional(head + w, |head|, |head + w|, radix)))
  {
    hide Wrap, Positional, DigitsEnd;
    var head := Prefix(minus, radix);
    var s := head + w;
    assert w != "" ==> w[0] != 'x' || radix == 16;
    assert LayoutOf(s) == Layout(minus, radix, |head|);
    EndUnique(s, |head|, Limit(radix), |s|);
  }

  /** An octal numeral after "0", and a hexadecimal one after "0x", are read as the number, with or without a sign. */
  lemma ParsedMarked(minus: bool, radix: nat, n: nat)
    requires radix in {8, 16} && n < BOUND
    ensures Parsed(Prefix(minus, radix) + Numeral(n, radix)) == Signed(minus, n)
  {
    hide Wrap, Positional, DigitsEnd, Worth, Numeral, Parsed;
    var head, w := Prefix(minus, radix), Numeral(n, radix);
    NumeralMeans(n, radix, head);
    assert forall k :: 0 <= k < |w| ==> w[k] == (head + w)[|head| + k];
    MarkedRadix(minus, radix, w);
    WrapSame(Signed(minus, n));
  }

  /** Parsing undoes printing. */
  lemma ParsedPrinted(v: int)
    requires -BOUND <= v < BOUND
    ensures Parsed(Printed(v, 10)) == v
  {
    hide Numeral, Positional, DigitsEnd, Wrap, Worth;
    WrapSame(v);
    if v > 0 {
      ReadWhole(v, "");
      assert "" + Numeral(v, 10) == Numeral(v, 10);
    } else if v < 0 {
      ReadWhole(-v, "-");
    } else {
      EndUnique("0", 1, Limit(8), 1);
      PositionalNone("0", 1, 8);
    }
  }

  lemma NumeralNext(n: nat, radix: nat)
    requires n > 0 && 2 <= radix <= 37
    ensures Numeral(n, radix) == Numeral(n / radix, radix) + [DIGITS[n % radix]] && Numeral(0, radix) == ""
  {
    DigitChars(n % radix);
  }

  /** Of the digits of a numeral, the first counts most: three numerals, printed and read. */
  lemma DecimalKnown()
    ensures Printed(-120, 10) == "-120" && Parsed("-120") == -120
  {
    hide Numeral, Parsed;
    NumeralNext(1, 10);
    assert Numeral(1, 10) == "1";
    NumeralNext(12, 10);
    assert Numeral(12, 10) == "12";
    NumeralNext(120, 10);
    assert Numeral(120, 10) == "120";
    ParsedPrinted(-120);
  }

  lemma OctalKnown()
    ensures Printed(8, 8) == "10" && Parsed("010") == 8
  {
    hide Numeral, Parsed;
    NumeralNext(8, 8);
    NumeralNext(1, 8);
    ParsedMarked(false, 8, 8);
    assert Numeral(8, 8) == "10";
    assert Prefix(false, 8) + "10" == "010";
  }

  lemma HexadecimalKnown()
    ensures Printed(255, 16) == "FF" && Parsed("0xFF") == 255
  {
    hide Numeral, Parsed;
    NumeralNext(255, 16);
    NumeralNext(15, 16);
    ParsedMarked(false, 16, 255);
    assert Numeral(255, 16) == "FF";
    assert Prefix(false, 16) + "FF" == "0xFF";
  }

  lemma ParsedMinimum()
    ensures Parsed("-0") == 0
  {
    hide Wrap;
    WrapSame(0);
    EndUnique("-0", 2, Limit(8), 2);
    PositionalNone("-0", 2, 8);
  }

  lemma OneDigit(s: string, i: nat, radix: nat)
    requires i < |s|
    ensures Positional(s, i, i + 1, radix) == Worth(s[i])
  {
    assert Positional(s, i, i, radix) == 0;
  }

  /** In a decimal number the letter a is read as ten. */
  lemma LetterInDecimal()
    ensures Parsed("1a") == 20 && Meant("1a") == 1
  {
    hide Wrap, DigitsEnd, Positional;
    WrapSame(1);
    WrapSame(20);
    EndUnique("1a", 0, 11, 2);
    EndUnique("1a", 0, 10, 1);
    OneDigit("1a", 0, 10);
    PositionalNext("1a", 0, 1, 10);
  }

  /** In a hexadecimal number the letter g is read as sixteen. */
  lemma LetterInHexadecimal()
    ensures Parsed("0xg") == 16 && Meant("0xg") == 0
  {
    hide Wrap, DigitsEnd, Positional;
    WrapSame(0);
    WrapSame(16);
    EndUnique("0xg", 2, 17, 3);
    EndUnique("0xg", 2, 16, 2);
    OneDigit("0xg", 2, 16);
    PositionalNone("0xg", 2, 16);
  }
}
