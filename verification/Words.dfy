/** Two-word signed numbers: wrapping, powers of two, and what shifts of the words do to the number. */
module Words {
  import opened Powers

  const WORD := 0x1_0000_0000_0000_0000
  const HALF := 0x8000_0000_0000_0000
  /** The number of different values; half of them are negative. */
  const MODULUS := 0x1_0000_0000_0000_0000_0000_0000_0000_0000
  const BOUND := 0x8000_0000_0000_0000_0000_0000_0000_0000

  type U64 = x: int | 0 <= x < WORD
  type I64 = x: int | -HALF <= x < HALF witness 0

  function Join(lo: U64, hi: I64): (v: int)
    ensures -BOUND <= v < BOUND
  {
    hi * WORD + lo
  }

  /** The signed 64-bit number with the same low bits. */
  function Wrap64(x: int): I64 {
    (x + HALF) % WORD - HALF
  }

  lemma Wrap64Same(x: I64)
    ensures Wrap64(x) == x
  {
  }

  /** The signed 128-bit number with the same low bits. */
  function Wrap(x: int): (v: int)
    ensures -BOUND <= v < BOUND
  {
    (x + BOUND) % MODULUS - BOUND
  }

  lemma WrapSame(x: int)
    requires -BOUND <= x < BOUND
    ensures Wrap(x) == x
  {
  }

  lemma WrapMinimum()
    ensures Wrap(0 - -BOUND) == -BOUND && Wrap(-BOUND - -BOUND) == 0
  {
  }

  /** A number in range is the wrapped one if they differ by a multiple of the modulus. */
  lemma WrapUnique(x: int, v: int, k: int)
    requires -BOUND <= v < BOUND && x == v + k * MODULUS
    ensures Wrap(x) == v
  {
    assert x + BOUND == (v + BOUND) + k * MODULUS;
  }

  lemma WrapMultiple(x: int) returns (k: int)
    ensures x == Wrap(x) + k * MODULUS
  {
    k := (x + BOUND) / MODULUS;
  }

  lemma Wrap64Multiple(x: int) returns (k: int)
    ensures x == Wrap64(x) + k * WORD
  {
    k := (x + HALF) / WORD;
  }

  /** Wrapping before a product and before a sum changes nothing of the wrapped whole. */
  lemma WrapOnce(p: int, r: int, d: int)
    ensures Wrap(Wrap(Wrap(p) * r) + d) == Wrap(p * r + d)
  {
    hide Wrap;
    var j := WrapMultiple(p);
    var k := WrapMultiple(Wrap(p) * r);
    Distribute(Wrap(p), j * MODULUS, r);
    Reorder(j, MODULUS, r);
    Distribute(k, j * r, MODULUS);
    WrapMore(Wrap(Wrap(p) * r) + d, k + j * r);
  }

  /** Multiples of the modulus wrap to nothing. */
  lemma WrapMore(x: int, k: int)
    ensures Wrap(x + k * MODULUS) == Wrap(x)
  {
    hide Wrap;
    var j := WrapMultiple(x);
    Distribute(j, k, MODULUS);
    WrapUnique(x + k * MODULUS, Wrap(x), j + k);
  }

  lemma WrapNegated(x: int)
    ensures Wrap(0 - Wrap(x)) == Wrap(-x)
  {
    hide Wrap;
    var k := WrapMultiple(x);
    Distribute(k, -k, MODULUS);
    WrapMore(-x, k);
  }

  /** Adding word by word, with the carry, is adding. */
  lemma AddWords(lo: U64, hi: I64, lo': U64, hi': I64)
    ensures var sum := (lo + lo') % WORD;
      Join(sum, Wrap64(Wrap64(hi + hi') + (if sum < lo then 1 else 0))) == Wrap(Join(lo, hi) + Join(lo', hi'))
  {
    var sum := (lo + lo') % WORD;
    var carry := if sum < lo then 1 else 0;
    assert lo + lo' == sum + carry * WORD;
    var a := Wrap64Multiple(hi + hi');
    var b := Wrap64Multiple(Wrap64(hi + hi') + carry);
    var top := Wrap64(Wrap64(hi + hi') + carry);
    WrapUnique(Join(lo, hi) + Join(lo', hi'), Join(sum, top), a + b);
  }

  lemma {:induction false} PowSum(a: nat, b: nat)
    ensures Pow2(a + b) == Pow2(a) * Pow2(b)
    decreases a
  {
    if a > 0 {
      PowSum(a - 1, b);
      assert a - 1 + b == a + b - 1;
      Regroup(2, Pow2(a - 1), Pow2(b));
    }
  }

  lemma Regroup(a: int, b: int, c: int)
    ensures a * (b * c) == (a * b) * c
  {
  }

  lemma PowDouble(n: nat, p: int)
    requires Pow2(n) == p
    ensures Pow2(n + n) == p * p
  {
    PowSum(n, n);
  }

  lemma PowNext(n: nat)
    ensures Pow2(n + 1) == 2 * Pow2(n)
  {
  }

  lemma PowNone()
    ensures Pow2(0) == 1
  {
  }

  lemma PowHalf(n: nat, p: int)
    requires n > 0 && Pow2(n) == 2 * p
    ensures Pow2(n - 1) == p
  {
  }

  lemma PowWords()
    ensures Pow2(0) == 1 && Pow2(63) == HALF && Pow2(64) == WORD && Pow2(127) == BOUND && Pow2(128) == MODULUS
  {
    hide Pow2;
    PowSmall();
    PowDouble(8, 0x100);
    PowDouble(16, 0x1_0000);
    PowDouble(32, 0x1_0000_0000);
    PowDouble(64, WORD);
    PowHalf(64, HALF);
    PowHalf(128, BOUND);
  }

  lemma PowSmall()
    ensures Pow2(0) == 1 && Pow2(1) == 2 && Pow2(8) == 0x100
  {
  }

  /** Quotient and remainder are determined by what they add up to. */
  lemma Division(x: int, d: int, q: int, r: int)
    requires d > 0 && x == q * d + r && 0 <= r < d
    ensures x / d == q && x % d == r
  {
    var k := x / d - q;
    assert k * d == r - x % d;
    assert (k >= 1 ==> k * d >= d) && (k <= -1 ==> k * d <= -d);
  }

  lemma Distribute(a: int, b: int, c: int)
    ensures (a + b) * c == a * c + b * c
  {
  }

  lemma Reorder(a: int, b: int, c: int)
    ensures (a * b) * c == a * (b * c) == (a * c) * b
  {
  }

  lemma Grow(a: int, b: int, c: int)
    requires a <= b && c >= 0
    ensures a * c <= b * c
  {
  }

  lemma Less(a: int, b: int, c: int)
    requires a * c < b * c && c >= 0
    ensures a < b
  {
    if a >= b {
      Grow(b, a, c);
    }
  }

  /** The low word splits at the bits that a shift moves out of it. */
  lemma LeftLow(lo: U64, p: int, q: int)
    requires p > 0 && q > 0 && p * q == WORD
    ensures 0 <= lo / q < p && 0 <= (lo % q) * p < WORD && lo * p == (lo / q) * WORD + (lo % q) * p
    ensures (lo * p) % WORD == (lo % q) * p
  {
    var a, b := lo / q, lo % q;
    assert lo == a * q + b;
    Less(a, p, q);
    Distribute(a * q, b, p);
    Reorder(a, q, p);
    assert q * p == WORD;
    Grow(b, q - 1, p);
    Distribute(q, -1, p);
    Grow(0, b, p);
    Division(lo * p, WORD, a, b * p);
  }

  /** A shifted high word is a multiple of p, and leaves room for less than p more. */
  lemma LeftHigh(hi: I64, p: int, q: int, h: int)
    requires p > 0 && p * q == WORD && p * h == HALF
    ensures Wrap64(hi * p) + p <= HALF
  {
    var k := Wrap64Multiple(hi * p);
    var m := hi - k * q;
    Distribute(hi, -k * q, p);
    Reorder(-k, q, p);
    assert q * p == WORD && h * p == HALF;
    assert m * p == Wrap64(hi * p);
    Less(m, h, p);
    Grow(m, h - 1, p);
    Distribute(h, -1, p);
  }

  lemma PowParts(n: nat)
    requires 0 < n < 64
    ensures Pow2(n) * Pow2(64 - n) == WORD && Pow2(n) * Pow2(63 - n) == HALF
  {
    hide Pow2;
    PowSum(n, 64 - n);
    PowSum(n, 63 - n);
    PowWords();
  }

  /** Shifting left within the words by less than a word is multiplying. */
  lemma ShiftLeftWords(lo: U64, hi: I64, n: nat)
    requires 0 < n < 64
    ensures var p, q := Pow2(n), Pow2(64 - n);
      0 <= lo / q < p && Wrap64(hi * p) + lo / q < HALF
      && Join((lo * p) % WORD, Wrap64(hi * p) + lo / q) == Wrap(Join(lo, hi) * p)
  {
    hide Pow2;
    var p, q := Pow2(n), Pow2(64 - n);
    PowParts(n);
    LeftLow(lo, p, q);
    LeftHigh(hi, p, q, Pow2(63 - n));
    var k := Wrap64Multiple(hi * p);
    Distribute(hi * WORD, lo, p);
    Reorder(hi, WORD, p);
    WrapUnique(Join(lo, hi) * p, Join((lo * p) % WORD, Wrap64(hi * p) + lo / q), k);
  }

  /** The words shifted right, from quotients and remainders by p. */
  lemma ShiftedRight(h: int, m: nat, a: nat, b: nat, p: nat, q: nat)
    requires m < p && b < p && p * q == WORD && a < q
    ensures 0 <= a + m * q < WORD
    ensures (h * p + m) * WORD + (a * p + b) == (h * WORD + (a + m * q)) * p + b
  {
    Grow(m, p - 1, q);
    Distribute(p, -1, q);
    Grow(0, m, q);
    Distribute(h * p, m, WORD);
    Distribute(h * WORD, a + m * q, p);
    Distribute(m * q, a, p);
    Reorder(h, WORD, p);
    Reorder(m, q, p);
  }

  lemma Quotients(x: int, p: int)
    requires p > 0
    ensures x == (x / p) * p + x % p && 0 <= x % p < p
  {
  }

  /** Shifting right within the words by less than a word is dividing, downwards. */
  lemma ShiftRightWords(lo: U64, hi: I64, n: nat)
    requires 0 < n < 64
    ensures var p, q := Pow2(n), Pow2(64 - n);
      0 <= lo / p + (hi % p) * q < WORD && -HALF <= hi / p < HALF
      && Join(lo / p + (hi % p) * q, hi / p) == Join(lo, hi) / p
  {
    hide Pow2;
    var p, q := Pow2(n), Pow2(64 - n);
    PowParts(n);
    Quotients(lo, p);
    Quotients(hi, p);
    LeftLow(lo, q, p);
    Reorder(p, q, 1);
    ShiftedRight(hi / p, hi % p, lo / p, lo % p, p, q);
    Halves(hi, p);
    Division(Join(lo, hi), p, Join(lo / p + (hi % p) * q, hi / p), lo % p);
  }

  lemma Halves(hi: I64, p: int)
    requires p >= 1
    ensures -HALF <= hi / p < HALF
  {
    var h := hi / p;
    assert hi == h * p + hi % p;
    Less(h, HALF, p) by {
      Grow(1, p, HALF);
    }
    Less(-HALF - 1, h, p) by {
      Grow(1, p, HALF + 1);
      Distribute(h, 1, p);
    }
  }

  /** Shifting left by a word or more moves the low word up and out. */
  lemma ShiftLeftWord(lo: U64, hi: I64, n: nat)
    requires 64 <= n < 128
    ensures Join(0, Wrap64((lo * Pow2(n - 64)) % WORD)) == Wrap(Join(lo, hi) * Pow2(n))
  {
    hide Pow2;
    var p := Pow2(n - 64);
    PowSum(n - 64, 64);
    PowWords();
    var x := lo * p;
    var a := x / WORD;
    var b := Wrap64Multiple(x % WORD);
    Reorder(Join(lo, hi), p, WORD);
    Distribute(hi * WORD, lo, p);
    Reorder(hi, WORD, p);
    assert Join(lo, hi) * Pow2(n) == ((hi * p) * WORD + x) * WORD;
    WrapUnique(Join(lo, hi) * Pow2(n), Join(0, Wrap64(x % WORD)), hi * p + a + b);
  }

  /** Shifting left by all bits leaves none. */
  lemma ShiftLeftAll(x: int, n: nat)
    requires n >= 128
    ensures Wrap(x * Pow2(n)) == 0
  {
    hide Pow2;
    PowSum(n - 128, 128);
    PowWords();
    Reorder(x, Pow2(n - 128), MODULUS);
    WrapUnique(x * Pow2(n), 0, x * Pow2(n - 128));
  }

  /** Shifting right by a word or more. */
  lemma ShiftRightWord(lo: U64, hi: I64, n: nat)
    requires 64 <= n < 128
    ensures hi / Pow2(n - 64) == Join(lo, hi) / Pow2(n)
    ensures -HALF <= hi / Pow2(n - 64) < HALF
    ensures Join((hi / Pow2(n - 64)) % WORD, if hi < 0 then -1 else 0) == Join(lo, hi) / Pow2(n)
  {
    hide Pow2;
    var p := Pow2(n - 64);
    PowSum(n - 64, 64);
    PowWords();
    var h, m := hi / p, hi % p;
    assert hi == h * p + m;
    Halves(hi, p);
    Distribute(h * p, m, WORD);
    Reorder(h, p, WORD);
    Grow(m, p - 1, WORD);
    Division(Join(lo, hi), p * WORD, h, m * WORD + lo);
    Signs(hi, p);
    Division(h, WORD, if hi < 0 then -1 else 0, if hi < 0 then h + WORD else h);
  }

  lemma Signs(hi: int, p: int)
    requires p >= 1
    ensures hi < 0 <==> hi / p < 0
  {
    var h := hi / p;
    assert hi == h * p + hi % p;
    if hi < 0 {
      Less(h, 0, p);
    } else {
      Less(-1, h, p);
    }
  }

  /** Shifting right by all bits leaves the sign. */
  lemma ShiftRightAll(x: int, n: nat)
    requires n >= 128 && -BOUND <= x < BOUND
    ensures x / Pow2(n) == if x < 0 then -1 else 0
  {
    hide Pow2;
    PowSum(n - 128, 128);
    PowWords();
    Grow(1, Pow2(n - 128), MODULUS);
    Division(x, Pow2(n), if x < 0 then -1 else 0, if x < 0 then x + Pow2(n) else x);
  }

  /** Bit n of a number: the parity after dividing, downwards, by 2 to the n. */
  predicate HasBit(x: int, n: nat) {
    x / Pow2(n) % 2 == 1
  }

  /** Bit n is looked for in the word it is in. */
  lemma BitWords(lo: U64, hi: I64, n: nat)
    ensures n < 64 ==> (HasBit(Join(lo, hi), n) <==> HasBit(lo, n))
    ensures 64 <= n < 128 ==> (HasBit(Join(lo, hi), n) <==> HasBit(hi, n - 64))
    ensures n >= 128 ==> (HasBit(Join(lo, hi), n) <==> hi < 0)
  {
    hide Pow2;
    if n >= 128 {
      ShiftRightAll(Join(lo, hi), n);
    } else if n >= 64 {
      ShiftRightWord(lo, hi, n);
    } else {
      var p, q, h := Pow2(n), Pow2(64 - n), Pow2(63 - n);
      PowSum(n, 64 - n);
      PowSum(1, 63 - n);
      PowWords();
      PowSmall();
      assert q == 2 * h && p * q == WORD;
      Distribute(hi * q, lo / p, p);
      Reorder(hi, q, p);
      assert q * p == WORD && lo == (lo / p) * p + lo % p;
      Division(Join(lo, hi), p, hi * q + lo / p, lo % p);
      Reorder(hi, 2, h);
      Even(lo / p, hi * h);
    }
  }

  lemma Even(x: int, y: int)
    ensures (x + 2 * y) % 2 == x % 2
  {
  }

  /** Dividing by one power less brings one bit more. */
  lemma NextBit(x: int, n: nat)
    ensures x / Pow2(n) == 2 * (x / Pow2(n + 1)) + (if HasBit(x, n) then 1 else 0)
  {
    var p := Pow2(n);
    var y := x / p;
    Distribute((y / 2) * 2, y % 2, p);
    Reorder(y / 2, 2, p);
    assert Pow2(n + 1) == 2 * p && p * 2 == 2 * p;
    assert x == y * p + x % p && y == (y / 2) * 2 + y % 2;
    assert y % 2 == 0 || y % 2 == 1;
    Division(x, 2 * p, y / 2, (y % 2) * p + x % p);
  }

  /** Dividing a number that is not negative does not make it larger, and leaves something only if there was as much. */
  lemma Shrinks(x: int, n: nat)
    requires x >= 0
    ensures 0 <= x / Pow2(n) <= x && (x / Pow2(n) >= 1 ==> x >= Pow2(n))
  {
    hide Pow2;
    var p := Pow2(n);
    assert x == (x / p) * p + x % p;
    Less(-1, x / p, p);
    Grow(1, p, x / p);
    if x / p >= 1 {
      Grow(1, x / p, p);
    }
  }

  lemma {:induction false} PowMore(m: nat, n: nat)
    requires m <= n
    ensures Pow2(m) <= Pow2(n)
    decreases n
  {
    if m < n {
      PowMore(m, n - 1);
    }
  }

  /** A multiple of a power of two by an even number does not have that bit. */
  lemma NoBit(q: int, n: nat)
    requires q % 2 == 0
    ensures !HasBit(q * Pow2(n), n)
  {
    hide Pow2;
    Division(q * Pow2(n), Pow2(n), q, 0);
  }
}
