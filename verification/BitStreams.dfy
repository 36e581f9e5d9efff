/** Streams of bits over a vector of bytes, first bit in the most significant place. */
module BitStreams {

  /** Bit k of a byte; bit 0 is the most significant. */
  predicate Bit(b: bv8, k: nat)
    requires k < 8
  {
    match k
    case 0 => b & 0x80 != 0 case 1 => b & 0x40 != 0 case 2 => b & 0x20 != 0 case 3 => b & 0x10 != 0
    case 4 => b & 0x08 != 0 case 5 => b & 0x04 != 0 case 6 => b & 0x02 != 0 case _ => b & 0x01 != 0
  }

  /** The byte that has only bit k. */
  function Mask(k: nat): bv8
    requires k < 8
  {
    match k
    case 0 => 0x80 case 1 => 0x40 case 2 => 0x20 case 3 => 0x10
    case 4 => 0x08 case 5 => 0x04 case 6 => 0x02 case _ => 0x01
  }

  /** The first length bits of the data. */
  ghost function Bits(data: seq<bv8>, length: nat): (s: seq<bool>)
    requires length <= 8 * |data|
    ensures |s| == length && forall i :: 0 <= i < length ==> s[i] == Bit(data[i / 8], i % 8)
  {
    seq(length, i requires 0 <= i < length => Bit(data[i / 8], i % 8))
  }

  ghost function ByteBits(b: bv8): (s: seq<bool>)
    ensures |s| == 8 && forall k :: 0 <= k < 8 ==> s[k] == Bit(b, k)
  {
    [Bit(b, 0), Bit(b, 1), Bit(b, 2), Bit(b, 3), Bit(b, 4), Bit(b, 5), Bit(b, 6), Bit(b, 7)]
  }

  lemma ByteBitsDiffer(a: bv8, b: bv8)
    requires forall k :: 0 <= k < 8 ==> Bit(a, k) == Bit(b, k)
    ensures a == b
  {
    assert Bit(a, 0) == Bit(b, 0) && Bit(a, 1) == Bit(b, 1) && Bit(a, 2) == Bit(b, 2) && Bit(a, 3) == Bit(b, 3);
    assert Bit(a, 4) == Bit(b, 4) && Bit(a, 5) == Bit(b, 5) && Bit(a, 6) == Bit(b, 6) && Bit(a, 7) == Bit(b, 7);
  }

  /** The data has just the bytes its bits need, and the bits after the last are zero. */
  ghost predicate Tidy(data: seq<bv8>, length: nat) {
    && |data| == (length + 7) / 8
    && (length % 8 != 0 ==> ZeroFrom(data[|data| - 1], length % 8))
  }

  ghost predicate ZeroFrom(b: bv8, from: nat) {
    forall k :: from <= k < 8 ==> !Bit(b, k)
  }

  /** What of the value goes into the byte that is already begun, l1 bits of which are taken. */
  function Head(value: bv8, l1: nat): bv8
    requires 0 < l1 < 8
  {
    var l2 := 8 - l1;
    (value & (0xFF << l2)) >> l2
  }

  /** What of the value goes into a new byte. */
  function Rest(value: bv8, l1: nat): bv8
    requires 0 < l1 < 8
  {
    (value & (0xFF >> l1)) << l1
  }

  /** The data after a byte is written. */
  function Written(data: seq<bv8>, length: nat, value: bv8): (r: seq<bv8>)
    requires |data| == (length + 7) / 8
    ensures |r| == |data| + 1
  {
    if length % 8 == 0 then
      data + [value]
    else
      data[|data| - 1 := data[|data| - 1] | Head(value, length % 8)] + [Rest(value, length % 8)]
  }

  lemma MiddleWritten(b: bv8, value: bv8, k: nat)
    requires k < 8 && ZeroFrom(b, 4)
    ensures k < 4 ==> Bit(b | Head(value, 4), k) == Bit(b, k) && Bit(Rest(value, 4), k) == Bit(value, k + 4)
    ensures k >= 4 ==> Bit(b | Head(value, 4), k) == Bit(value, k - 4) && !Bit(Rest(value, 4), k)
  {
    assert !Bit(b, 4) && !Bit(b, 5) && !Bit(b, 6) && !Bit(b, 7);
  }

  /** Where the bits are that a byte written in the middle of another leaves. */
  lemma WrittenMiddle(data: seq<bv8>, length: nat, value: bv8, i: nat)
    requires Tidy(data, length) && length % 8 == 4 && i < length + 8
    ensures var r := Written(data, length, value);
      Bit(r[i / 8], i % 8) == if i < length then Bit(data[i / 8], i % 8) else Bit(value, i - length)
  {
    hide Bit, Head, Rest, ZeroFrom;
    MiddleWritten(data[|data| - 1], value, i % 8);
    var last := |data| - 1;
    assert length == 8 * last + 4;
    if i / 8 < last {
    } else if i / 8 == last {
      assert i == 8 * last + i % 8;
    } else {
      assert i / 8 == last + 1 && i == 8 * last + 8 + i % 8;
    }
  }

  lemma WrittenStart(data: seq<bv8>, length: nat, value: bv8, i: nat)
    requires Tidy(data, length) && length % 8 == 0 && i < length + 8
    ensures var r := Written(data, length, value);
      Bit(r[i / 8], i % 8) == if i < length then Bit(data[i / 8], i % 8) else Bit(value, i - length)
  {
    hide Bit, Head, Rest;
    assert length == 8 * |data|;
    if i >= length {
      assert i / 8 == |data| && i % 8 == i - length;
    }
  }

  /** The bytes that so many bits need, and that one more byte makes. */
  lemma Room(length: nat)
    ensures length % 8 == 0 ==> (length + 7) / 8 == length / 8 && (length + 8 + 7) / 8 == length / 8 + 1
    ensures length % 8 != 0 ==> (length + 7) / 8 == length / 8 + 1 && (length + 8 + 7) / 8 == length / 8 + 2
    ensures (length + 8) % 8 == length % 8 && length <= 8 * ((length + 7) / 8)
      && length + 8 <= 8 * ((length + 8 + 7) / 8)
  {
  }

  lemma Offsets(length: nat)
    ensures length % 4 == 0 <==> length % 8 == 0 || length % 8 == 4
  {
  }

  lemma RestZero(b: bv8, value: bv8)
    requires ZeroFrom(b, 4)
    ensures ZeroFrom(Rest(value, 4), 4)
  {
    hide Bit, Head, Rest;
    forall k | 4 <= k < 8
      ensures !Bit(Rest(value, 4), k)
    {
      MiddleWritten(b, value, k);
    }
  }

  lemma WrittenTidy(data: seq<bv8>, length: nat, value: bv8)
    requires Tidy(data, length) && length % 4 == 0
    ensures Tidy(Written(data, length, value), length + 8)
    ensures |data| == (length + 7) / 8 && length <= 8 * |data| && length + 8 <= 8 * |Written(data, length, value)|
  {
    hide Bit, Head, Rest, ZeroFrom;
    Room(length);
    Offsets(length);
    if length % 8 == 4 {
      RestZero(data[|data| - 1], value);
    }
  }

  lemma WrittenAt(data: seq<bv8>, length: nat, value: bv8, i: nat)
    requires Tidy(data, length) && length % 4 == 0 && i < length + 8
    ensures length <= 8 * |data| && length + 8 <= 8 * |Written(data, length, value)|
    ensures Bits(Written(data, length, value), length + 8)[i] == (Bits(data, length) + ByteBits(value))[i]
  {
    hide Bit, Written, ByteBits, Bits, ZeroFrom;
    Room(length);
    if length % 8 == 4 {
      WrittenMiddle(data, length, value, i);
    } else {
      WrittenStart(data, length, value, i);
    }
  }

  /** At the start or in the middle of a byte, writing a byte appends its bits. */
  lemma WrittenAppends(data: seq<bv8>, length: nat, value: bv8)
    requires Tidy(data, length) && length % 4 == 0
    ensures Tidy(Written(data, length, value), length + 8)
    ensures Bits(Written(data, length, value), length + 8) == Bits(data, length) + ByteBits(value)
  {
    hide Bit, Written, ByteBits, Bits, ZeroFrom, Tidy;
    WrittenTidy(data, length, value);
    forall i | 0 <= i < length + 8
      ensures Bits(Written(data, length, value), length + 8)[i] == (Bits(data, length) + ByteBits(value))[i]
    {
      WrittenAt(data, length, value, i);
    }
  }

  lemma BitSet(b: bv8, k: nat, value: bool)
    requires k < 8 && ZeroFrom(b, k)
    ensures var c := if value then b | Mask(k) else b;
      ZeroFrom(c, k + 1) && Bit(c, k) == value && forall j :: 0 <= j < k ==> Bit(c, j) == Bit(b, j)
  {
    assert !Bit(b, k);
    var c := if value then b | Mask(k) else b;
    forall j | 0 <= j < 8 && j != k
      ensures Bit(c, j) == Bit(b, j)
    {
      MaskOnly(b, k, j);
    }
  }

  lemma MaskOnly(b: bv8, k: nat, j: nat)
    requires k < 8 && j < 8
    ensures Bit(b | Mask(k), j) == (Bit(b, j) || j == k)
  {
  }

  /** Setting the next bit, in a new byte if need be, appends it. */
  lemma BitAppends(data: seq<bv8>, length: nat, value: bool, after: seq<bv8>)
    requires Tidy(data, length)
    requires var room := if length % 8 == 0 then data + [0] else data;
      var c := room[length / 8];
      after == room[length / 8 := if value then c | Mask(length % 8) else c]
    ensures Tidy(after, length + 1) && Bits(after, length + 1) == Bits(data, length) + [value]
  {
    hide Bit, Mask;
    var room := if length % 8 == 0 then data + [0] else data;
    ZeroByte();
    BitSet(room[length / 8], length % 8, value);
    forall i | 0 <= i < length + 1
      ensures Bit(after[i / 8], i % 8) == if i < length then Bit(data[i / 8], i % 8) else value
    {
      if i / 8 == length / 8 {
        assert i % 8 <= length % 8;
      }
    }
  }

  lemma ZeroByte()
    ensures ZeroFrom(0, 0)
  {
  }

  /** Elsewhere the last bit of the byte 1 is lost. */
  lemma LastBitLost(l1: nat)
    requires 0 < l1 < 8 && l1 != 4
    ensures !Bit(Rest(1, l1), l1 - 1) && Bit(1, 7)
  {
    match l1
    case 1 =>
    case 2 =>
    case 3 =>
    case 5 =>
    case 6 =>
    case _ =>
  }

  lemma LastWritten(data: seq<bv8>, length: nat, value: bv8)
    requires |data| == (length + 7) / 8 && length % 8 != 0
    ensures var r := Written(data, length, value);
      (length + 7) / 8 < |r| && r[(length + 7) / 8] == Rest(value, length % 8) && (length + 7) % 8 == length % 8 - 1
  {
    hide Head, Rest;
    var m := length / 8;
    assert length + 7 == 8 * (m + 1) + (length % 8 - 1);
  }

  lemma LastBit(data: seq<bv8>, length: nat, b: bv8)
    requires length % 8 != 0 && |data| == (length + 7) / 8 + 1 && length + 8 <= 8 * |data|
    requires data[(length + 7) / 8] == b
    ensures Bits(data, length + 8)[length + 7] == Bit(b, length % 8 - 1)
  {
    hide Bit;
    var m := length / 8;
    assert length + 7 == 8 * (m + 1) + (length % 8 - 1);
  }

  lemma LastOf(s: seq<bool>, b: bv8)
    ensures (s + ByteBits(b))[|s| + 7] == Bit(b, 7)
  {
    hide Bit;
  }

  lemma WrittenLast(data: seq<bv8>, length: nat)
    requires Tidy(data, length) && length % 8 != 0
    ensures length <= 8 * |data| && length + 8 <= 8 * |Written(data, length, 1)|
    ensures Bits(Written(data, length, 1), length + 8)[length + 7] == Bit(Rest(1, length % 8), length % 8 - 1)
  {
    hide Bit, Head, Rest, Bits, ZeroFrom;
    Room(length);
    LastWritten(data, length, 1);
    LastBit(Written(data, length, 1), length, Rest(1, length % 8));
  }

  /** Elsewhere it does not: the byte 1 is lost after any bits. */
  lemma WrittenLoses(data: seq<bv8>, length: nat)
    requires Tidy(data, length) && length % 4 != 0
    ensures length <= 8 * |data| && length + 8 <= 8 * |Written(data, length, 1)|
    ensures Bits(Written(data, length, 1), length + 8) != Bits(data, length) + ByteBits(1)
  {
    hide Bit, Head, Rest, Written, ByteBits, Bits, ZeroFrom;
    Offsets(length);
    WrittenLast(data, length);
    LastBitLost(length % 8);
    LastOf(Bits(data, length), 1);
  }

  /** Writing a byte is right for every value exactly at the start and in the middle of a byte. */
  lemma WriteByteRight(data: seq<bv8>, length: nat)
    requires Tidy(data, length)
    ensures (forall value :: Bits(Written(data, length, value), length + 8) == Bits(data, length) + ByteBits(value))
      <==> length % 4 == 0
  {
    if length % 4 == 0 {
      forall value
        ensures Bits(Written(data, length, value), length + 8) == Bits(data, length) + ByteBits(value)
      {
        WrittenAppends(data, length, value);
      }
    } else {
      WrittenLoses(data, length);
    }
  }

  /** The bits of several bytes. */
  ghost function BytesBits(bytes: seq<bv8>): (s: seq<bool>)
    ensures |s| == 8 * |bytes|
  {
    if bytes == [] then [] else BytesBits(bytes[..|bytes| - 1]) + ByteBits(bytes[|bytes| - 1])
  }

  lemma BytesBitsMore(bytes: seq<bv8>, b: bv8)
    ensures BytesBits(bytes + [b]) == BytesBits(bytes) + ByteBits(b)
  {
    assert (bytes + [b])[..|bytes|] == bytes;
  }

  lemma ByteBitsUnique(a: bv8, b: bv8)
    requires ByteBits(a) == ByteBits(b)
    ensures a == b
  {
    hide Bit;
    assert forall k :: 0 <= k < 8 ==> ByteBits(a)[k] == ByteBits(b)[k];
    ByteBitsDiffer(a, b);
  }

  lemma {:induction false} BytesBitsUnique(a: seq<bv8>, b: seq<bv8>)
    requires |a| == |b| && BytesBits(a) == BytesBits(b)
    ensures a == b
  {
    hide ByteBits;
    if a != [] {
      var n := |a| - 1;
      var x, y := BytesBits(a[..n]), BytesBits(b[..n]);
      assert x == (x + ByteBits(a[n]))[..8 * n] == (y + ByteBits(b[n]))[..8 * n] == y;
      assert ByteBits(a[n]) == (x + ByteBits(a[n]))[8 * n..] == (y + ByteBits(b[n]))[8 * n..] == ByteBits(b[n]);
      BytesBitsUnique(a[..n], b[..n]);
      ByteBitsUnique(a[n], b[n]);
      assert a == a[..n] + [a[n]] && b == b[..n] + [b[n]];
    }
  }

  lemma NoBits()
    ensures BytesBits([]) == []
  {
  }

  lemma BytesBitsAfter(start: seq<bool>, bytes: seq<bv8>, b: bv8)
    ensures (start + BytesBits(bytes)) + ByteBits(b) == start + BytesBits(bytes + [b])
  {
    hide ByteBits;
    BytesBitsMore(bytes, b);
  }

  /** The byte of one hexadecimal digit. */
  function Hex(d: nat): bv8
    requires d < 16
  {
    match d
    case 0 => 0 case 1 => 1 case 2 => 2 case 3 => 3 case 4 => 4 case 5 => 5 case 6 => 6 case 7 => 7
    case 8 => 8 case 9 => 9 case 10 => 10 case 11 => 11 case 12 => 12 case 13 => 13 case 14 => 14 case _ => 15
  }

  function Digit(b: bv8): (d: nat)
    ensures d < 16
  {
    if b == 0 then 0 else if b == 1 then 1 else if b == 2 then 2 else if b == 3 then 3
    else if b == 4 then 4 else if b == 5 then 5 else if b == 6 then 6 else if b == 7 then 7
    else if b == 8 then 8 else if b == 9 then 9 else if b == 10 then 10 else if b == 11 then 11
    else if b == 12 then 12 else if b == 13 then 13 else if b == 14 then 14 else 15
  }

  /** The byte that stands for a number. */
  function ByteOf(r: nat): bv8
    requires r < 256
  {
    (Hex(r / 16) << 4) | Hex(r % 16)
  }

  /** The number that a byte stands for. */
  function Val(b: bv8): (r: nat)
    ensures r < 256
  {
    16 * Digit(b >> 4) + Digit(b & 0xF)
  }

  /** The bits of a byte count from 128 down to 1. */
  lemma BitValues(b: bv8)
    ensures Val(b) == (if Bit(b, 0) then 128 else 0) + (if Bit(b, 1) then 64 else 0) + (if Bit(b, 2) then 32 else 0)
      + (if Bit(b, 3) then 16 else 0) + (if Bit(b, 4) then 8 else 0) + (if Bit(b, 5) then 4 else 0)
      + (if Bit(b, 6) then 2 else 0) + (if Bit(b, 7) then 1 else 0)
  {
  }

  lemma HexBack(d: nat, b: bv8)
    ensures d < 16 ==> Digit(Hex(d)) == d && Hex(d) < 16
    ensures b < 16 ==> Hex(Digit(b)) == b
  {
  }

  lemma ByteBack(r: nat)
    requires r < 256
    ensures Val(ByteOf(r)) == r
  {
    hide Hex, Digit;
    var x, y := Hex(r / 16), Hex(r % 16);
    HexBack(r / 16, 0);
    HexBack(r % 16, 0);
    Nibbles(x, y);
  }

  lemma Nibbles(x: bv8, y: bv8)
    requires x < 16 && y < 16
    ensures ((x << 4) | y) >> 4 == x && ((x << 4) | y) & 0xF == y
  {
  }

  lemma ValBack(b: bv8)
    ensures ByteOf(Val(b)) == b
  {
    hide Hex, Digit;
    assert b >> 4 < 16 && b & 0xF < 16 && ((b >> 4) << 4) | (b & 0xF) == b;
    HexBack(0, b >> 4);
    HexBack(0, b & 0xF);
    var x, y := Digit(b >> 4), Digit(b & 0xF);
    assert (16 * x + y) / 16 == x && (16 * x + y) % 16 == y;
  }

  function Pow256(k: nat): (p: nat)
    requires k <= 8
    ensures p > 0
  {
    match k
    case 0 => 1 case 1 => 0x100 case 2 => 0x1_0000 case 3 => 0x100_0000 case 4 => 0x1_0000_0000
    case 5 => 0x100_0000_0000 case 6 => 0x1_0000_0000_0000
    case 7 => 0x100_0000_0000_0000 case _ => 0x1_0000_0000_0000_0000
  }

  /** Byte k of a number; byte 0 is the least significant. */
  function Octet(value: nat, k: nat): bv8
    requires k <= 8
  {
    ByteOf(value / Pow256(k) % 256)
  }

  /** An n-byte number, most significant byte first. */
  ghost function ToBe(n: nat, value: nat): (s: seq<bv8>)
    requires n <= 8
    ensures |s| == n
  {
    seq(n, i requires 0 <= i < n => Octet(value, n - 1 - i))
  }

  /** An n-byte number, least significant byte first. */
  ghost function ToLe(n: nat, value: nat): (s: seq<bv8>)
    requires n <= 8
    ensures |s| == n
  {
    seq(n, i requires 0 <= i < n => Octet(value, i))
  }

  lemma OctetBack(value: nat, k: nat)
    requires k <= 8
    ensures Val(Octet(value, k)) == value / Pow256(k) % 256
  {
    hide Pow256, ByteOf, Val;
    ByteBack(value / Pow256(k) % 256);
  }

  lemma NextByte(value: nat, k: nat)
    requires k < 8
    ensures value / Pow256(k) == 256 * (value / Pow256(k + 1)) + value / Pow256(k) % 256
  {
  }

  /** Numbers with the same bytes from byte k up agree from byte k up. */
  lemma {:induction false} SameBytes(n: nat, a: nat, b: nat, k: nat)
    requires k <= n <= 8 && a < Pow256(n) && b < Pow256(n) && forall j :: k <= j < n ==> Octet(a, j) == Octet(b, j)
    ensures a / Pow256(k) == b / Pow256(k)
    decreases n - k
  {
    hide Octet;
    if k < n {
      SameBytes(n, a, b, k + 1);
      OctetBack(a, k);
      OctetBack(b, k);
      NextByte(a, k);
      NextByte(b, k);
    }
  }

  /** Numbers that fit are told apart by their bytes, in either order. */
  lemma NumbersUnique(n: nat, a: nat, b: nat)
    requires n <= 8 && a < Pow256(n) && b < Pow256(n) && (ToBe(n, a) == ToBe(n, b) || ToLe(n, a) == ToLe(n, b))
    ensures a == b
  {
    hide Octet;
    forall j | 0 <= j < n
      ensures Octet(a, j) == Octet(b, j)
    {
      if ToBe(n, a) == ToBe(n, b) {
        assert ToBe(n, a)[n - 1 - j] == ToBe(n, b)[n - 1 - j];
      } else {
        assert ToLe(n, a)[j] == ToLe(n, b)[j];
      }
    }
    SameBytes(n, a, b, 0);
  }

  /** The number with these bytes, most significant first. */
  function FromBe(bytes: seq<bv8>): nat {
    if bytes == [] then 0 else 256 * FromBe(bytes[..|bytes| - 1]) + Val(bytes[|bytes| - 1])
  }

  /** The number with these bytes, least significant first. */
  function FromLe(bytes: seq<bv8>): nat {
    if bytes == [] then 0 else Val(bytes[0]) + 256 * FromLe(bytes[1..])
  }

  lemma TwoBytes(a: bv8, b: bv8)
    ensures FromBe([a, b]) == 256 * Val(a) + Val(b) && FromLe([a, b]) == Val(a) + 256 * Val(b)
  {
    hide Val;
    assert [a, b][..1] == [a] && [a][..0] == [] && [a, b][1..] == [b] && [b][1..] == [];
    assert FromBe([a]) == Val(a) && FromLe([b]) == Val(b);
  }

  lemma LowByte(v: nat, b: bv8, k: nat)
    requires k < 8
    ensures Octet(256 * v + Val(b), 0) == b && Octet(256 * v + Val(b), k + 1) == Octet(v, k)
  {
    hide ByteOf, Val;
    ValBack(b);
    var w := 256 * v + Val(b);
    assert w % 256 == Val(b) && w / 256 == v;
    assert w / 256 / Pow256(k) == w / Pow256(k + 1);
  }

  lemma PowStep(n: nat)
    requires n < 8
    ensures Pow256(0) == 1 && Pow256(n + 1) == 256 * Pow256(n)
  {
  }

  lemma {:induction false} FromBeBack(bytes: seq<bv8>)
    requires |bytes| <= 8
    ensures FromBe(bytes) < Pow256(|bytes|) && ToBe(|bytes|, FromBe(bytes)) == bytes
  {
    hide Octet, Pow256, Val;
    PowStep(0);
    if bytes != [] {
      var n := |bytes| - 1;
      var v, b := FromBe(bytes[..n]), bytes[n];
      FromBeBack(bytes[..n]);
      PowStep(n);
      forall i | 0 <= i < n + 1
        ensures ToBe(n + 1, FromBe(bytes))[i] == bytes[i]
      {
        if i < n {
          LowByte(v, b, n - 1 - i);
          assert ToBe(n, v)[i] == bytes[..n][i];
        } else {
          LowByte(v, b, 0);
        }
      }
    }
  }

  lemma {:induction false} FromLeBack(bytes: seq<bv8>)
    requires |bytes| <= 8
    ensures FromLe(bytes) < Pow256(|bytes|) && ToLe(|bytes|, FromLe(bytes)) == bytes
  {
    hide Octet, Pow256, Val;
    PowStep(0);
    if bytes != [] {
      var n := |bytes| - 1;
      var v, b := FromLe(bytes[1..]), bytes[0];
      FromLeBack(bytes[1..]);
      PowStep(n);
      forall i | 0 <= i < n + 1
        ensures ToLe(n + 1, FromLe(bytes))[i] == bytes[i]
      {
        if i > 0 {
          LowByte(v, b, i - 1);
          assert ToLe(n, v)[i - 1] == bytes[1..][i - 1];
        } else {
          LowByte(v, b, 0);
        }
      }
    }
  }

  lemma FromBeMore(bytes: seq<bv8>, b: bv8)
    ensures FromBe(bytes + [b]) == 256 * FromBe(bytes) + Val(b)
  {
    assert (bytes + [b])[..|bytes|] == bytes;
  }

  lemma FromLeMore(b: bv8, bytes: seq<bv8>)
    ensures FromLe([b] + bytes) == Val(b) + 256 * FromLe(bytes)
  {
    assert ([b] + bytes)[1..] == bytes;
  }

  lemma FromNone()
    ensures FromBe([]) == 0 && FromLe([]) == 0
  {
  }

  lemma Sum2(b0: bv8, b1: bv8)
    ensures FromBe([b0, b1]) == Val(b0) * 0x100 + Val(b1)
    ensures FromLe([b0, b1]) == Val(b0) + Val(b1) * 0x100
  {
    hide FromBe, FromLe, Val;
    FromNone();
    FromBeMore([], b0);
    assert [] + [b0] == [b0];
    FromBeMore([b0], b1);
    assert [b0] + [b1] == [b0, b1];
    FromLeMore(b1, []);
    assert [b1] + [] == [b1];
    FromLeMore(b0, [b1]);
    assert [b0] + [b1] == [b0, b1];
  }

  lemma Sum3(b0: bv8, b1: bv8, b2: bv8)
    ensures FromBe([b0, b1, b2]) == Val(b0) * 0x1_0000 + Val(b1) * 0x100 + Val(b2)
    ensures FromLe([b0, b1, b2]) == Val(b0) + Val(b1) * 0x100 + Val(b2) * 0x1_0000
  {
    hide FromBe, FromLe, Val;
    FromNone();
    FromBeMore([], b0);
    assert [] + [b0] == [b0];
    FromBeMore([b0], b1);
    assert [b0] + [b1] == [b0, b1];
    FromBeMore([b0, b1], b2);
    assert [b0, b1] + [b2] == [b0, b1, b2];
    FromLeMore(b2, []);
    assert [b2] + [] == [b2];
    FromLeMore(b1, [b2]);
    assert [b1] + [b2] == [b1, b2];
    FromLeMore(b0, [b1, b2]);
    assert [b0] + [b1, b2] == [b0, b1, b2];
  }

  lemma Sum4(b0: bv8, b1: bv8, b2: bv8, b3: bv8)
    ensures FromBe([b0, b1, b2, b3]) == Val(b0) * 0x100_0000 + Val(b1) * 0x1_0000 + Val(b2) * 0x100 + Val(b3)
    ensures FromLe([b0, b1, b2, b3]) == Val(b0) + Val(b1) * 0x100 + Val(b2) * 0x1_0000 + Val(b3) * 0x100_0000
  {
    hide FromBe, FromLe, Val;
    FromNone();
    FromBeMore([], b0);
    assert [] + [b0] == [b0];
    FromBeMore([b0], b1);
    assert [b0] + [b1] == [b0, b1];
    FromBeMore([b0, b1], b2);
    assert [b0, b1] + [b2] == [b0, b1, b2];
    FromBeMore([b0, b1, b2], b3);
    assert [b0, b1, b2] + [b3] == [b0, b1, b2, b3];
    FromLeMore(b3, []);
    assert [b3] + [] == [b3];
    FromLeMore(b2, [b3]);
    assert [b2] + [b3] == [b2, b3];
    FromLeMore(b1, [b2, b3]);
    assert [b1] + [b2, b3] == [b1, b2, b3];
    FromLeMore(b0, [b1, b2, b3]);
    assert [b0] + [b1, b2, b3] == [b0, b1, b2, b3];
  }

  lemma {:induction false} FromBeJoin(a: seq<bv8>, b: seq<bv8>)
    requires |b| <= 8
    ensures FromBe(a + b) == FromBe(a) * Pow256(|b|) + FromBe(b)
  {
    if b == [] {
      assert a + b == a;
    } else {
      var n := |b| - 1;
      hide Val;
      FromBeJoin(a, b[..n]);
      assert a + b == (a + b[..n]) + [b[n]];
      FromBeMore(a + b[..n], b[n]);
      FromBeMore(b[..n], b[n]);
      assert b == b[..n] + [b[n]];
      Horner(FromBe(a), n, FromBe(b[..n]));
    }
  }

  lemma Horner(x: nat, n: nat, y: nat)
    requires n < 8
    ensures 256 * (x * Pow256(n) + y) == x * Pow256(n + 1) + 256 * y
  {
    hide Pow256;
    PowStep(n);
  }

  lemma {:induction false} FromLeJoin(a: seq<bv8>, b: seq<bv8>)
    requires |a| <= 8
    ensures FromLe(a + b) == FromLe(a) + FromLe(b) * Pow256(|a|)
  {
    if a == [] {
      assert a + b == b;
    } else {
      hide Val;
      FromLeJoin(a[1..], b);
      assert (a + b)[1..] == a[1..] + b;
      Horner(FromLe(b), |a| - 1, FromLe(a[1..]));
    }
  }

  lemma Sum44(a: seq<bv8>, b: seq<bv8>)
    requires |a| == |b| == 4
    ensures FromBe(a + b) == FromBe(a) * 0x1_0000_0000 + FromBe(b)
    ensures FromLe(a + b) == FromLe(a) + FromLe(b) * 0x1_0000_0000
  {
    hide FromBe, FromLe;
    FromBeJoin(a, b);
    FromLeJoin(a, b);
    assert Pow256(4) == 0x1_0000_0000;
  }

  lemma Sum8(b0: bv8, b1: bv8, b2: bv8, b3: bv8, b4: bv8, b5: bv8, b6: bv8, b7: bv8)
    ensures FromBe([b0, b1, b2, b3] + [b4, b5, b6, b7]) == Val(b0) * 0x100_0000_0000_0000 + Val(b1) * 0x1_0000_0000_0000
      + Val(b2) * 0x100_0000_0000 + Val(b3) * 0x1_0000_0000
        + (Val(b4) * 0x100_0000 + Val(b5) * 0x1_0000 + Val(b6) * 0x100 + Val(b7))
    ensures FromLe([b0, b1, b2, b3] + [b4, b5, b6, b7]) ==
      Val(b0) + Val(b1) * 0x100 + Val(b2) * 0x1_0000 + Val(b3) * 0x100_0000
      + (Val(b4) * 0x1_0000_0000 + Val(b5) * 0x100_0000_0000 + Val(b6) * 0x1_0000_0000_0000
        + Val(b7) * 0x100_0000_0000_0000)
  {
    hide FromBe, FromLe, Val;
    Sum4(b0, b1, b2, b3);
    Sum4(b4, b5, b6, b7);
    Sum44([b0, b1, b2, b3], [b4, b5, b6, b7]);
  }

  /** A byte read across the border of two. */
  function Across(a: bv8, b: bv8, l1: nat): bv8
    requires 0 < l1 < 8
  {
    (a << l1) | (b >> (8 - l1))
  }

  lemma Straddled(a: bv8, b: bv8, l1: nat, k: nat)
    requires 0 < l1 < 8 && k < 8
    ensures Bit(Across(a, b, l1), k) == if k + l1 < 8 then Bit(a, k + l1) else Bit(b, k + l1 - 8)
  {
    match l1
    case 1 =>
    case 2 =>
    case 3 =>
    case 4 =>
    case 5 =>
    case 6 =>
    case _ =>
  }
}
