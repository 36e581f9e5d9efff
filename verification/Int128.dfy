/** Signed 128-bit numbers in two words. */
module Int128s {
  import opened Numerals
  import opened Powers
  import opened Words

  class Int128 {
    var lo: U64
    var hi: I64

    function Value(): (v: int)
      reads this
      ensures -BOUND <= v < BOUND
    {
      Join(lo, hi)
    }

    constructor (lo: U64, hi: I64)
      ensures this.lo == lo && this.hi == hi && Value() == Join(lo, hi)
    {
      this.lo, this.hi := lo, hi;
    }

    /** From a 32-bit or 64-bit integer. */
    constructor FromInt64(a: I64)
      ensures Value() == a
    {
      lo := a % WORD;
      hi := if a < 0 then -1 else 0;
    }

    constructor Copy(b: Int128)
      ensures Value() == b.Value() && lo == b.lo && hi == b.hi
    {
      lo, hi := b.lo, b.hi;
    }

    method Assign(b: Int128)
      modifies this
      ensures Value() == old(b.Value())
    {
      lo, hi := b.lo, b.hi;
    }

    /** What the words say about the number, where that is all that matters. */
    static lemma ValueParts(b: Int128)
      ensures b.lo == 0 && b.hi == 0 <==> b.Value() == 0
      ensures b.hi == 0 && b.lo == 1 ==> b.Value() == 1
      ensures b.lo % 2 == b.Value() % 2
    {
    }

    predicate IsZero()
      reads this
      ensures IsZero() <==> Value() == 0
    {
      !(hi != 0 || lo != 0)
    }

    predicate IsNegative()
      reads this
      ensures IsNegative() <==> Value() < 0
    {
      hi < 0
    }

    method Negated() returns (r: Int128)
      ensures fresh(r) && r.Value() == Wrap(-Value())
      ensures Value() > -BOUND ==> r.Value() == -Value()
    {
      if lo == 0 {
        r := new Int128(0, Wrap64(0 - hi));
      } else {
        r := new Int128(WORD - lo, -1 - hi);
      }
    }

    /** b may be this number itself. */
    method AddAssign(b: Int128)
      modifies this
      ensures Value() == Wrap(old(Value()) + old(b.Value()))
    {
      hide Join, Wrap, Wrap64;
      AddWords(lo, hi, b.lo, b.hi);
      var oldLo := lo;
      var newHi := Wrap64(hi + b.hi);
      lo := (lo + b.lo) % WORD;
      hi := newHi;
      if lo < oldLo {
        hi := Wrap64(hi + 1);
      }
      Wrap64Same(newHi);
    }

    method SubAssign(b: Int128)
      modifies this
      ensures Value() == Wrap(old(Value()) - old(b.Value()))
    {
      ghost var x, y := Value(), b.Value();
      var n := b.Negated();
      ghost var k := WrapMultiple(-y);
      ghost var j := WrapMultiple(x + n.Value());
      AddAssign(n);
      WrapUnique(x - y, Value(), k + j);
    }

    method ShiftLeftAssign(n: nat)
      modifies this
      ensures Value() == Wrap(old(Value()) * Pow2(n))
    {
      hide Pow2, Wrap;
      PowSmall();
      if n >= 128 {
        ShiftLeftAll(Value(), n);
        lo, hi := 0, 0;
        return;
      }
      if n >= 64 {
        ShiftLeftWord(lo, hi, n);
        hi := Wrap64((lo * Pow2(n - 64)) % WORD);
        lo := 0;
        return;
      }
      if n > 0 {
        ShiftLeftWords(lo, hi, n);
        // the bits that leave the low word come into the places that are free in the high one
        hi := Wrap64(hi * Pow2(n)) + lo / Pow2(64 - n);
        lo := (lo * Pow2(n)) % WORD;
      } else {
        WrapSame(Value());
      }
    }

    method ShiftRightAssign(n: nat)
      modifies this
      ensures Value() == old(Value()) / Pow2(n)
    {
      hide Pow2;
      PowSmall();
      if n >= 128 {
        ShiftRightAll(Value(), n);
        hi := if hi < 0 then -1 else 0;
        lo := hi % WORD;
        return;
      }
      if n >= 64 {
        ShiftRightMany(n);
      } else if n > 0 {
        ShiftRightBits(n);
      }
    }

    /** The high word moves into the low one. */
    method ShiftRightMany(n: nat)
      requires 64 <= n < 128
      modifies this
      ensures Value() == old(Value()) / Pow2(n)
    {
      hide Pow2;
      ShiftRightWord(lo, hi, n);
      lo := (hi / Pow2(n - 64)) % WORD;
      hi := if hi < 0 then -1 else 0;
    }

    /** The low bits of the high word come into the places that become free in the low one. */
    method ShiftRightBits(n: nat)
      requires 0 < n < 64
      modifies this
      ensures Value() == old(Value()) / Pow2(n)
    {
      hide Pow2;
      ShiftRightWords(lo, hi, n);
      lo := lo / Pow2(n) + (hi % Pow2(n)) * Pow2(64 - n);
      hi := hi / Pow2(n);
    }

    predicate Bit(n: nat)
      reads this
      ensures Bit(n) <==> HasBit(Value(), n)
    {
      BitWords(lo, hi, n);
      if n >= 128 then hi < 0
      else if n < 64 then HasBit(lo, n)
      else HasBit(hi, n - 64)
    }

    /** Sets a bit that is not set; the number must stay below its bound. */
    method SetBit(n: nat)
      requires n < 127 && !Bit(n)
      modifies this
      ensures Value() == old(Value()) + Pow2(n)
    {
      SetWords(lo, hi, n);
      if n < 64 {
        lo := lo + Pow2(n);
      } else {
        hi := hi + Pow2(n - 64);
      }
    }

    /** When two negative numbers agree in the high word, the low words are compared with their signs. */
    static predicate Less(a: Int128, b: Int128)
      reads a, b
    {
      if a.hi == b.hi then
        if a.hi < 0 then Wrap64(a.lo) < Wrap64(b.lo) else a.lo < b.lo
      else
        a.hi < b.hi
    }

    /** The comparison is right except for those whose low words lie on different sides of the middle. */
    static lemma LessRight(a: Int128, b: Int128)
      ensures (Less(a, b) <==> a.Value() < b.Value()) <==> !(a.hi == b.hi < 0 && (a.lo < HALF) != (b.lo < HALF))
    {
    }

    /** For example, -2^64 is not found less than -2^63, but greater. */
    static method LessWrong() returns (a: Int128, b: Int128)
      ensures a.Value() == -WORD && b.Value() == -HALF && !Less(a, b) && Less(b, a)
    {
      a := new Int128(0, -1);
      b := new Int128(HALF, -1);
    }

    static lemma LessPositive(a: Int128, b: Int128)
      requires a.Value() >= 0 && b.Value() >= 0
      ensures Less(a, b) <==> a.Value() < b.Value()
    {
      LessRight(a, b);
    }

    /** Adds up the shifted copies of this number that the bits of b ask for; b may be this number itself. */
    method MulAssign(b: Int128)
      modifies this
      ensures Value() == Wrap(old(Value()) * old(b.Value()))
    {
      hide Partial, Pow2, Wrap, Join;
      ValueParts(b);
      ghost var x, y := Value(), b.Value();
      if b.IsZero() {
        lo, hi := 0, 0;
        ValueParts(this);
        WrapSame(0);
        return;
      }
      if b.hi == 0 && b.lo == 1 {
        WrapSame(x);
        return;
      }
      var a := new Int128.Copy(this);
      var t := new Int128.Copy(b);
      lo, hi := 0, 0;
      ValueParts(this);
      ghost var low, k := 0, 0;
      PartialStart(x, y);
      for i := 0 to 128
        invariant fresh(a) && fresh(t) && a != this && t != this && a != t && a.Value() == x
        invariant Partial(x, y, i, t.Value(), low, Value(), k)
      {
        ghost var before, rest := Value(), t.Value();
        ValueParts(t);
        if t.lo % 2 == 1 {
          var shifted := new Int128.Copy(a);
          shifted.ShiftLeftAssign(i);
          AddAssign(shifted);
          k := PartialOne(x, y, i, rest, low, before, k);
          low := low + Pow2(i);
        } else {
          PartialZero(x, y, i, rest, low, before, k);
        }
        t.ShiftRightAssign(1);
        PowSmall();
      }
      PartialLast(x, y, t.Value(), low, Value(), k);
    }

    /** Brings in one more bit at the low end. */
    method ShiftIn(bit: bool)
      requires Value() >= 0 && 2 * Value() + 1 < BOUND
      modifies this
      ensures Value() == 2 * old(Value()) + if bit then 1 else 0
    {
      hide Pow2;
      PowSmall();
      WrapSame(2 * Value());
      ShiftLeftAssign(1);
      ValueParts(this);
      if bit {
        lo := lo + 1;
      }
    }

    /** Restoring division of numbers that are not negative, bit by bit from the top. */
    method DivMagnitude(dd: Int128, ds: Int128) returns (q: Int128, r: Int128)
      requires 0 < ds.Value() <= dd.Value()
      ensures fresh(q) && fresh(r) && q != r && dd.Value() == q.Value() * ds.Value() + r.Value()
      ensures 0 <= r.Value() < ds.Value() && 0 <= q.Value()
    {
      hide Pow2, Join, HasBit, Wrap;
      PowWords();
      r := new Int128.FromInt64(0);
      q := new Int128.FromInt64(0);
      ghost var x, y := dd.Value(), ds.Value();
      var b := 127;
      Division(x, Pow2(128), 0, x);
      LessPositive(r, ds);
      while Less(r, ds)
        invariant -1 <= b <= 127 && r.Value() == x / Pow2(b + 1) && fresh(r) && fresh(q) && q != r && q.Value() == 0
        invariant Less(r, ds) == (r.Value() < y) && dd.Value() == x && ds.Value() == y
        invariant b < 127 ==> r.Value() < 2 * y
        decreases b + 1
      {
        assert b >= 0;
        NextBit(x, b);
        Shrinks(x, b);
        Shrinks(x, b + 1);
        r.ShiftIn(dd.Bit(b));
        b := b - 1;
        LessPositive(r, ds);
      }
      b := b + 1;
      ghost var n := 0;
      while true
        invariant 0 <= b <= 127 && fresh(r) && fresh(q) && q != r && dd.Value() == x && ds.Value() == y
        invariant Dividing(x, y, b, n, q.Value(), r.Value())
        decreases b, if r.Value() < y then 0 else 1
      {
        LessPositive(r, ds);
        if Less(r, ds) {
          if b == 0 {
            break;
          }
          b := b - 1;
          DividingDown(x, y, b, n, q.Value(), r.Value());
          n := 2 * n;
          r.ShiftIn(dd.Bit(b));
        } else {
          DividingTake(x, y, b, n, q.Value(), r.Value());
          WrapSame(r.Value() - y);
          r.SubAssign(ds);
          q.SetBit(b);
          n := n + 1;
        }
      }
      DividingEnd(x, y, n, q.Value(), r.Value());
    }

    /** This number without its sign; the minimum keeps it. */
    method Magnitude() returns (r: Int128)
      ensures fresh(r) && r.Value() == if Value() == -BOUND then -BOUND else Abs(Value())
    {
      if IsNegative() {
        r := Negated();
      } else {
        r := new Int128.Copy(this);
      }
    }

    /** Quotient and remainder; `remainder` may be this number or the divisor. They are right exactly if this number is
        not the minimum. */
    method Div(divisor: Int128, remainder: Int128) returns (q: Int128)
      requires divisor.Value() != 0 && divisor.Value() > -BOUND
      modifies remainder
      ensures fresh(q)
      ensures Divided(old(Value()), old(divisor.Value()), q.Value(), remainder.Value()) <==> old(Value()) > -BOUND
      ensures old(Value()) == -BOUND ==> q.Value() == 0 && remainder.Value() == -BOUND
    {
      hide Pow2, Wrap, Join, Divided, Abs;
      ghost var x, y := Value(), divisor.Value();
      AbsCases(x);
      AbsCases(y);
      var ds := divisor.Magnitude();
      var dd := this.Magnitude();
      LessSigned(dd, ds);
      if Less(dd, ds) {
        if x > -BOUND {
          DividedNone(x, y);
        } else {
          MinimumNever(x, y, 0, x);
        }
        remainder.Assign(this);
        q := new Int128.FromInt64(0);
        return;
      }
      var r;
      q, r := DivMagnitude(dd, ds);
      QuotientInRange(q.Value(), ds.Value(), r.Value());
      DividedSigns(x, y, q.Value(), r.Value());
      if divisor.IsNegative() != this.IsNegative() {
        q := q.Negated();
      }
      if this.IsNegative() {
        r := r.Negated();
      }
      remainder.Assign(r);
    }

    /** With the minimum as divisor the second loop of `div` never ends: after any number of rounds the remainder is 0
        or the minimum, and not less than the divisor, so that another round follows. */
    method EndlessRounds(divisor: Int128, dd: Int128, rounds: nat) returns (r: Int128, ds: Int128)
      requires divisor.Value() == -BOUND && (dd.Value() >= 0 || dd.Value() == -BOUND)
      ensures ds.Value() == -BOUND && !Less(dd, ds)
      ensures r.Value() == (if rounds % 2 == 0 then 0 else -BOUND) && !Less(r, ds)
    {
      hide Wrap, Join;
      ds := divisor.Magnitude();
      LessMinimum(dd, ds);
      r := new Int128.FromInt64(0);
      LessMinimum(r, ds);
      WrapMinimum();
      for k := 0 to rounds
        invariant fresh(r) && fresh(ds) && r != ds && ds.Value() == -BOUND
        invariant r.Value() == (if k % 2 == 0 then 0 else -BOUND) && !Less(r, ds)
      {
        r.SubAssign(ds);
        LessMinimum(r, ds);
      }
      LessMinimum(dd, ds);
    }

    static lemma LessMinimum(a: Int128, b: Int128)
      requires b.Value() == -BOUND && (a.Value() >= 0 || a.Value() == -BOUND)
      ensures !Less(a, b)
    {
      LessRight(a, b);
    }

    static lemma LessSigned(a: Int128, b: Int128)
      requires (a.Value() >= 0 || a.Value() == -BOUND) && b.Value() >= 0
      ensures Less(a, b) <==> a.Value() < b.Value()
    {
      LessRight(a, b);
    }

    method DivAssign(b: Int128)
      requires b.Value() != 0 && b.Value() > -BOUND
      modifies this
      ensures (exists r: int :: Divided(old(Value()), old(b.Value()), Value(), r)) <==> old(Value()) > -BOUND
      ensures old(Value()) == -BOUND ==> Value() == 0
    {
      hide Divided;
      var dummy := new Int128.FromInt64(0);
      ghost var x, y := Value(), b.Value();
      var q := this.Div(b, dummy);
      Assign(q);
      assert x > -BOUND ==> Divided(x, y, Value(), dummy.Value());
      forall r: int | x == -BOUND
        ensures !Divided(x, y, Value(), r)
      {
        MinimumNever(x, y, Value(), r);
      }
    }

    method ModAssign(b: Int128)
      requires b.Value() != 0 && b.Value() > -BOUND
      modifies this
      ensures (exists q: int :: Divided(old(Value()), old(b.Value()), q, Value())) <==> old(Value()) > -BOUND
      ensures old(Value()) == -BOUND ==> Value() == -BOUND
    {
      hide Divided;
      ghost var x, y := Value(), b.Value();
      var q := this.Div(b, this);
      assert x > -BOUND ==> Divided(x, y, q.Value(), Value());
      forall p: int | x == -BOUND
        ensures !Divided(x, y, p, Value())
      {
        MinimumNever(x, y, p, Value());
      }
    }

    /** The numeral, right exactly if this number is not the minimum; that is printed as "-0". */
    method ToString(radix: nat) returns (s: string)
      ensures s == if Value() == -BOUND && 2 <= radix <= 37 then "-0" else Printed(Value(), radix)
      ensures s == Printed(Value(), radix) <==> !(Value() == -BOUND && 2 <= radix <= 37)
    {
      hide Pow2, Wrap, Join, Divided, Numeral, DigitChar, Printed;
      PrintedCases(Value(), radix);
      PrintedMinimum(radix);
      if this.IsZero() {
        return "0";
      }
      if radix < 2 || radix > 37 {
        return "(invalid radix)";
      }
      var r := new Int128.FromInt64(0);
      var ii := this.Magnitude();
      var i := 255;
      var aux := new Int128.FromInt64(radix);
      ghost var x, v := ii.Value(), Value();
      s := "";
      PowWords();
      while !ii.IsZero() && i > 0
        invariant fresh(r) && fresh(ii) && fresh(aux) && r != ii && r != aux && ii != aux && aux.Value() == radix
          && Value() == v
        invariant |s| <= 127 && i == 255 - |s|
        invariant v > -BOUND ==>
          0 <= ii.Value() < Pow2(127 - |s|) && Numeral(x, radix) == Numeral(ii.Value(), radix) + s
        invariant v == -BOUND ==> (ii.Value() == -BOUND && s == "") || (ii.Value() == 0 && s == "0")
        decreases i
      {
        ghost var n := ii.Value();
        ii := ii.Div(aux, r);
        if v > -BOUND {
          DigitStep(n, radix, ii.Value(), r.Value(), s);
        }
        ValueSmall(r);
        i := i - 1;
        s := [DigitChar(r.lo)] + s;
        assert v == -BOUND ==> s == ['0'] + "" == "0";
      }
      NumeralNone(radix);
      assert "" + s == s;
      if this.IsNegative() {
        s := "-" + s;
      }
    }

    /** What a small number has in its low word. */
    static lemma ValueSmall(b: Int128)
      ensures 0 <= b.Value() < WORD ==> b.lo == b.Value()
      ensures b.Value() == -BOUND ==> b.lo == 0
    {
    }

    /** One digit more. */
    method ShiftDigit(radix: nat, n: nat)
      requires radix <= 16 && n <= 16
      modifies this
      ensures Value() == Wrap(Wrap(old(Value()) * radix) + n)
    {
      var factor := new Int128.FromInt64(radix);
      var digit := new Int128.FromInt64(n);
      MulAssign(factor);
      AddAssign(digit);
    }

    /** The loop of set: the digits from a place on, up to the first character that is read as none. */
    method SetDigits(s: string, from: nat, radix: nat)
      requires from <= |s| && radix in {8, 10, 16} && Value() == 0
      modifies this
      ensures Value() == Wrap(Positional(s, from, DigitsEnd(s, from, Limit(radix)), radix))
    {
      hide Join, Wrap, DigitValue, Positional, DigitsEnd, Worth;
      var i := from;
      PositionalNone(s, i, radix);
      WrapSame(0);
      while i < |s|
        invariant from <= i <= |s| && Value() == Wrap(Positional(s, from, i, radix))
        invariant forall k :: from <= k < i ==> Worth(s[k]) < Limit(radix)
      {
        DigitWorth(s[i], radix);
        var n := DigitValue(s[i], radix);
        if n < 0 {
          EndUnique(s, from, Limit(radix), i);
          return;
        }
        ShiftDigit(radix, n);
        WrapOnce(Positional(s, from, i, radix), radix, n);
        PositionalNext(s, from, i, radix);
        i := i + 1;
      }
      EndUnique(s, from, Limit(radix), i);
    }

    method Set(s: string)
      modifies this
      ensures Value() == Parsed(s)
    {
      hide Join, Wrap, Positional, DigitsEnd, Worth;
      lo, hi := 0, 0;
      ValueParts(this);
      if s == "" {
        EndUnique(s, 0, 11, 0);
        PositionalNone(s, 0, 10);
        WrapSame(0);
        return;
      }
      var radix, i, minus := 10, 0, false;
      if s[i] == '-' {
        i := i + 1;
        minus := true;
      }
      if i < |s| && s[i] == '0' {
        radix := 8;
        i := i + 1;
        if i < |s| && s[i] == 'x' {
          radix := 16;
          i := i + 1;
        }
      }
      SetDigits(s, i, radix);
      if minus {
        WrapNegated(Positional(s, i, DigitsEnd(s, i, Limit(radix)), radix));
        var zero := new Int128.FromInt64(0);
        zero.SubAssign(this);
        Assign(zero);
      }
    }

    /** What was printed is parsed back, exactly if it was not the minimum; that comes back as 0. */
    method Reparsed() returns (r: Int128)
      ensures fresh(r) && (r.Value() == Value() <==> Value() > -BOUND)
      ensures Value() == -BOUND ==> r.Value() == 0
    {
      hide Join, Wrap, Parsed, Printed;
      var text := ToString(10);
      r := new Int128.FromInt64(0);
      r.Set(text);
      ParsedPrinted(Value());
      ParsedMinimum();
    }
  }

  /** So far n is the quotient of the dividend's bits from b up, with r left over, and q is n at its place. */
  ghost predicate Dividing(x: int, y: int, b: nat, n: int, q: int, r: int) {
    && 0 < y <= x < BOUND && x / Pow2(b) == n * y + r && q == n * Pow2(b) && 0 <= n && 0 <= r < 2 * y
    && (r >= y ==> n % 2 == 0)
  }

  lemma DividingDown(x: int, y: int, b: nat, n: int, q: int, r: int)
    requires Dividing(x, y, b + 1, n, q, r) && r < y
    ensures Dividing(x, y, b, 2 * n, q, 2 * r + if HasBit(x, b) then 1 else 0) && 2 * r + 1 < BOUND
  {
    hide HasBit, Pow2;
    NextBit(x, b);
    Shrinks(x, b);
    PowNext(b);
    Reorder(2, n, y);
    Reorder(n, 2, Pow2(b));
    Grow(0, n, y);
  }

  lemma DividingTake(x: int, y: int, b: nat, n: int, q: int, r: int)
    requires Dividing(x, y, b, n, q, r) && r >= y
    ensures Dividing(x, y, b, n + 1, q + Pow2(b), r - y) && !HasBit(q, b) && b < 127
  {
    hide Pow2, HasBit;
    NoBit(n, b);
    Distribute(n, 1, y);
    Distribute(n, 1, Pow2(b));
    Shrinks(x, b);
    assert n * y >= 0;
    PowWords();
    if b >= 127 {
      PowMore(127, b);
    }
  }

  lemma DividingEnd(x: int, y: int, n: int, q: int, r: int)
    requires Dividing(x, y, 0, n, q, r) && r < y
    ensures x == q * y + r && 0 <= q
  {
  }

  /** Division towards zero: the remainder is smaller than the divisor and has the dividend's sign, or is zero. */
  ghost predicate Divided(x: int, y: int, q: int, r: int) {
    x == q * y + r && Abs(r) < Abs(y) && (r == 0 || (r < 0 <==> x < 0))
  }

  function Abs(x: int): int {
    if x < 0 then -x else x
  }

  lemma QuotientInRange(q: int, y: int, r: int)
    requires 0 <= q && 0 < y && 0 <= r && q * y + r < BOUND
    ensures q < BOUND
  {
    Grow(1, y, q);
  }

  lemma AbsCases(x: int)
    ensures Abs(x) == if x < 0 then -x else x
  {
  }

  /** The minimum is no remainder, and more than a remainder. */
  lemma MinimumNever(x: int, y: int, q: int, r: int)
    requires x == -BOUND && -BOUND < y < BOUND && (q == 0 || r == x)
    ensures !Divided(x, y, q, r)
  {
  }

  lemma DividedNone(x: int, y: int)
    requires Abs(x) < Abs(y)
    ensures Divided(x, y, 0, x)
  {
  }

  lemma DividedSigns(x: int, y: int, q: int, r: int)
    requires y != 0 && Abs(x) == q * Abs(y) + r && 0 <= r < Abs(y)
    ensures Divided(x, y, if (y < 0) != (x < 0) then -q else q, if x < 0 then -r else r)
  {
    Reorder(-1, q, y);
    Reorder(q, -1, y);
  }

  /** There is only one such quotient and remainder. */
  lemma DividedUnique(x: int, y: int, q: int, r: int, q': int, r': int)
    requires y != 0 && Divided(x, y, q, r) && Divided(x, y, q', r')
    ensures q == q' && r == r'
  {
    hide Divided, Abs;
    RemaindersClose(x, y, q, r, q', r');
    SmallMultiple(q - q', y);
    assert 0 * y == 0;
  }

  lemma RemaindersClose(x: int, y: int, q: int, r: int, q': int, r': int)
    requires Divided(x, y, q, r) && Divided(x, y, q', r')
    ensures (q - q') * y == r' - r && Abs((q - q') * y) < Abs(y)
  {
    Distribute(q, -q', y);
    Reorder(-1, q', y);
  }

  lemma SmallMultiple(k: int, y: int)
    requires Abs(k * y) < Abs(y)
    ensures k == 0
  {
    if y > 0 {
      if k >= 1 { Grow(1, k, y); } else if k <= -1 { Grow(k, -1, y); }
    } else if y < 0 {
      Reorder(k, -1, -y);
      if k >= 1 { Grow(1, k, -y); } else if k <= -1 { Grow(k, -1, -y); }
    }
  }

  /** After i bits: y is the bits seen and the rest t above them, and the sum so far is x times the bits seen, up to the
      modulus. */
  ghost predicate Partial(x: int, y: int, i: nat, t: int, low: int, sum: int, k: int) {
    y == t * Pow2(i) + low && x * low == sum + k * MODULUS && -BOUND <= sum < BOUND
  }

  lemma PartialStart(x: int, y: int)
    ensures Partial(x, y, 0, y, 0, 0, 0)
  {
  }

  lemma PartialZero(x: int, y: int, i: nat, t: int, low: int, sum: int, k: int)
    requires Partial(x, y, i, t, low, sum, k) && t % 2 == 0
    ensures Partial(x, y, i + 1, t / 2, low, sum, k)
  {
    BitStep(t, i);
  }

  lemma PartialOne(x: int, y: int, i: nat, t: int, low: int, sum: int, k: int) returns (k': int)
    requires Partial(x, y, i, t, low, sum, k) && t % 2 == 1
    ensures Partial(x, y, i + 1, t / 2, low + Pow2(i), Wrap(sum + Wrap(x * Pow2(i))), k')
  {
    BitStep(t, i);
    var k1 := WrapMultiple(x * Pow2(i));
    var k2 := WrapMultiple(sum + Wrap(x * Pow2(i)));
    Distribute(low, Pow2(i), x);
    k' := k + k1 + k2;
  }

  lemma PartialLast(x: int, y: int, t: int, low: int, sum: int, k: int)
    requires Partial(x, y, 128, t, low, sum, k)
    ensures sum == Wrap(x * y)
  {
    hide Pow2;
    PowWords();
    Distribute(t * MODULUS, low, x);
    Reorder(t, MODULUS, x);
    WrapUnique(x * y, sum, k + t * x);
  }

  /** The lowest bit and the others. */
  lemma BitStep(t: int, i: nat)
    ensures t * Pow2(i) == (t / 2) * Pow2(i + 1) + (t % 2) * Pow2(i)
  {
    Distribute(2 * (t / 2), t % 2, Pow2(i));
    Reorder(2, t / 2, Pow2(i));
    Reorder(t / 2, 2, Pow2(i));
  }

  lemma SetWords(lo: U64, hi: I64, n: nat)
    requires n < 127 && !HasBit(Join(lo, hi), n)
    ensures n < 64 ==> lo + Pow2(n) < WORD
    ensures n >= 64 ==> hi + Pow2(n - 64) < HALF && Pow2(n - 64) * WORD == Pow2(n)
  {
    hide Pow2;
    BitWords(lo, hi, n);
    PowWords();
    if n < 64 {
      Room(lo, n, 64, WORD);
    } else {
      PowSum(n - 64, 64);
      Room(hi, n - 64, 63, HALF);
    }
  }

  /** Below a bound that is a higher power of two there is room to set a bit that is not set. */
  lemma Room(x: int, n: nat, m: nat, bound: int)
    requires n < m && bound == Pow2(m) && x < bound && !HasBit(x, n)
    ensures x + Pow2(n) < bound
  {
    hide Pow2;
    var p, h := Pow2(n), Pow2(m - n - 1);
    PowSum(n + 1, m - n - 1);
    PowSum(1, n);
    PowSmall();
    Reorder(2, p, h);
    RoomFor(x, p, h, bound);
  }

  lemma RoomFor(x: int, p: int, h: int, bound: int)
    requires p > 0 && h > 0 && bound == (2 * h) * p && x < bound && x / p % 2 != 1
    ensures x + p < bound
  {
    var y := x / p;
    assert x == y * p + x % p;
    Less(y, 2 * h, p);
    Grow(y + 2, 2 * h, p);
    Distribute(y, 2, p);
  }

  lemma PrintedCases(v: int, radix: nat)
    ensures v == 0 ==> Printed(v, radix) == "0"
    ensures v != 0 && (radix < 2 || radix > 37) ==> Printed(v, radix) == "(invalid radix)"
    ensures v > 0 && 2 <= radix <= 37 ==> Printed(v, radix) == Numeral(v, radix)
    ensures v < 0 && 2 <= radix <= 37 ==> Printed(v, radix) == "-" + Numeral(-v, radix)
  {
  }

  lemma PrintedMinimum(radix: nat)
    ensures DigitChar(0) == '0'
    ensures 2 <= radix <= 37 ==> Printed(-BOUND, radix) != "-0"
  {
    if 2 <= radix <= 37 {
      assert BOUND / radix / radix > 0;
      assert |Numeral(BOUND, radix)| == |Numeral(BOUND / radix, radix)| + 1;
      assert |Numeral(BOUND / radix, radix)| == |Numeral(BOUND / radix / radix, radix)| + 1;
    }
  }

  lemma NumeralNone(radix: nat)
    requires 2 <= radix <= 37
    ensures Numeral(0, radix) == ""
  {
  }

  /** One digit is split off; the rest is at most half as large. */
  lemma DigitStep(n: int, radix: nat, q: int, r: int, s: string)
    requires 2 <= radix <= 37 && n > 0 && Divided(n, radix, q, r) && |s| <= 127 && n < Pow2(127 - |s|)
    ensures 0 <= q && 0 <= r < radix && |s| < 127 && q < Pow2(127 - (|s| + 1))
    ensures Numeral(n, radix) + s == Numeral(q, radix) + ([DigitChar(r)] + s)
  {
    hide Pow2, Numeral, Divided;
    QuotientHalf(n, radix, q, r);
    PowNone();
    if |s| < 127 {
      PowNext(127 - (|s| + 1));
    }
    NumeralLast(n, radix, q, r);
    assert (Numeral(q, radix) + [DigitChar(r)]) + s == Numeral(q, radix) + ([DigitChar(r)] + s);
  }

  lemma QuotientHalf(n: int, radix: nat, q: int, r: int)
    requires radix >= 2 && n > 0 && Divided(n, radix, q, r)
    ensures 0 <= q && 2 * q <= n && 0 <= r < radix && n / radix == q && n % radix == r
  {
    Less(-1, q, radix);
    Grow(2, radix, q);
    Division(n, radix, q, r);
  }

  lemma NumeralLast(n: int, radix: nat, q: int, r: int)
    requires 2 <= radix <= 37 && n > 0 && n / radix == q && n % radix == r && 0 <= r < radix
    ensures q >= 0 && Numeral(n, radix) == Numeral(q, radix) + [DigitChar(r)]
  {
  }
}
