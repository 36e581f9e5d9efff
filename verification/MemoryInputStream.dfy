/** A stream that bits, bytes and numbers are read from. */
module MemoryInputStreams {
  import opened BitStreams

  class MemoryInputStream {
    const data: seq<bv8>
    /** In bits. */
    const length: nat
    var position: nat
    var isReadBeyondEnd: bool

    ghost predicate Valid()
      reads this
    {
      position <= length <= 8 * |data|
    }

    /** All the bits of the stream. */
    ghost function Content(): (s: seq<bool>)
      requires length <= 8 * |data|
      ensures |s| == length
    {
      Bits(data, length)
    }

    constructor (data: seq<bv8>, length: nat)
      requires length <= 8 * |data|
      ensures Valid() && Content() == Bits(data, length) && this.length == length && position == 0 && !isReadBeyondEnd
    {
      this.data, this.length := data, length;
      position, isReadBeyondEnd := 0, false;
    }

    /** The position moved on by so many bits if there were as many; otherwise it is at the end, and the flag is set. */
    ghost predicate Took(bits: nat, start: nat, beyond: bool)
      reads this
    {
      if start + bits <= length then
        position == start + bits && isReadBeyondEnd == beyond
      else
        position == length && isReadBeyondEnd
    }

    method ReadBit() returns (value: bool)
      requires Valid()
      modifies this
      ensures Valid() && Took(1, old(position), old(isReadBeyondEnd))
      ensures value == if old(position) < length then Content()[old(position)] else false
    {
      if position == length {
        isReadBeyondEnd := true;
        return false;
      }
      var byteIndex, bitIndex := position / 8, position % 8;
      position := position + 1;
      value := Bit(data[byteIndex], bitIndex);
    }

    /** At whatever bit the byte starts. */
    method ReadByte() returns (value: bv8)
      requires Valid()
      modifies this
      ensures Valid() && Took(8, old(position), old(isReadBeyondEnd))
      ensures old(position) + 8 <= length ==> ByteBits(value) == Content()[old(position)..position]
      ensures old(position) + 8 > length ==> value == 0
    {
      hide Bit, ByteBits, Bits;
      if position + 8 > length {
        isReadBeyondEnd := true;
        position := length;
        return 0;
      }
      if position % 8 == 0 {
        value := data[position / 8];
      } else {
        var l1 := position % 8;
        var l2 := 8 - l1;
        Neighbours(position);
        value := data[(position - l1) / 8] << l1;
        value := value | (data[(position + l2) / 8] >> l2);
      }
      ByteAt(data, length, position, value);
      position := position + 8;
    }

    method ReadUint2() returns (value: nat)
      requires Valid()
      modifies this
      ensures Valid() && Took(2, old(position), old(isReadBeyondEnd)) && value < 4
      ensures old(position) + 2 <= length ==> Content()[old(position)..position] == [value / 2 == 1, value % 2 == 1]
    {
      hide Bits;
      value := 0;
      var bit := ReadBit();
      if bit { value := value + 2; }
      bit := ReadBit();
      if bit { value := value + 1; }
    }

    method ReadUint4() returns (value: nat)
      requires Valid()
      modifies this
      ensures Valid() && Took(4, old(position), old(isReadBeyondEnd)) && value < 16
      ensures old(position) + 4 <= length ==>
        Content()[old(position)..position] == [value / 8 == 1, value / 4 % 2 == 1, value / 2 % 2 == 1, value % 2 == 1]
    {
      hide Bits;
      var high := ReadUint2();
      ghost var middle := position;
      var low := ReadUint2();
      value := 4 * high + low;
      assert Content()[old(position)..position] == Content()[old(position)..middle] + Content()[middle..position];
      assert value / 8 == high / 2 && value / 4 % 2 == high % 2 && value / 2 % 2 == low / 2 && value % 2 == low % 2;
    }

    method ReadUint8() returns (value: bv8)
      requires Valid()
      modifies this
      ensures Valid() && Took(8, old(position), old(isReadBeyondEnd))
      ensures old(position) + 8 <= length ==> ByteBits(value) == Content()[old(position)..position]
    {
      value := ReadByte();
    }

    /** The bytes read since the start, as far as the stream reached. */
    ghost predicate Holds(start: nat, beyond: bool, done: seq<bv8>)
      requires Valid()
      reads this
    {
      Took(8 * |done|, start, beyond) && (start + 8 * |done| <= length ==>
        BytesBits(done) == Content()[start..start + 8 * |done|])
    }

    lemma HoldsNone()
      requires Valid()
      ensures Holds(position, isReadBeyondEnd, [])
    {
    }

    lemma HeldBytes(start: nat, beyond: bool, done: seq<bv8>)
      requires Valid() && Holds(start, beyond, done)
      ensures Took(8 * |done|, start, beyond)
      ensures start + 8 * |done| <= length ==> BytesBits(done) == Content()[start..start + 8 * |done|]
    {
    }

    /** Reads a byte after others. */
    method Next(ghost start: nat, ghost beyond: bool, ghost done: seq<bv8>) returns (b: bv8, ghost done': seq<bv8>)
      requires Valid() && Holds(start, beyond, done)
      modifies this
      ensures Valid() && done' == done + [b] && Holds(start, beyond, done')
    {
      hide BytesBits, ByteBits, Bits;
      b := ReadByte();
      done' := done + [b];
      BytesBitsMore(done, b);
      if start + 8 * |done'| <= length {
        assert Content()[start..position] == Content()[start..old(position)] + Content()[old(position)..position];
      }
    }

    method NextFour(ghost start: nat, ghost beyond: bool, ghost done: seq<bv8>)
      returns (b0: bv8, b1: bv8, b2: bv8, b3: bv8, ghost done': seq<bv8>)
      requires Valid() && Holds(start, beyond, done)
      modifies this
      ensures Valid() && done' == done + [b0, b1, b2, b3] && Holds(start, beyond, done')
    {
      hide Holds;
      b0, done' := Next(start, beyond, done);
      b1, done' := Next(start, beyond, done');
      b2, done' := Next(start, beyond, done');
      b3, done' := Next(start, beyond, done');
    }

    method ReadUint16Be() returns (value: nat)
      requires Valid()
      modifies this
      ensures Valid() && Took(16, old(position), old(isReadBeyondEnd))
      ensures old(position) + 16 <= length ==>
        value < Pow256(2) && BytesBits(ToBe(2, value)) == Content()[old(position)..position]
    {
      hide ByteBits, BytesBits, Bits, ToBe, ToLe, FromBe, FromLe, Val, Pow256, Holds;
      ghost var start, beyond := position, isReadBeyondEnd;
      HoldsNone();
      var b0, done := Next(start, beyond, []);
      var b1;
      b1, done := Next(start, beyond, done);
      value := Val(b0) * 0x100 + Val(b1);
      assert done == [b0, b1];
      Sum2(b0, b1);
      FromBeBack(done);
      HeldBytes(start, beyond, done);
    }

    method ReadUint16Le() returns (value: nat)
      requires Valid()
      modifies this
      ensures Valid() && Took(16, old(position), old(isReadBeyondEnd))
      ensures old(position) + 16 <= length ==>
        value < Pow256(2) && BytesBits(ToLe(2, value)) == Content()[old(position)..position]
    {
      hide ByteBits, BytesBits, Bits, ToBe, ToLe, FromBe, FromLe, Val, Pow256, Holds;
      ghost var start, beyond := position, isReadBeyondEnd;
      HoldsNone();
      var b0, done := Next(start, beyond, []);
      var b1;
      b1, done := Next(start, beyond, done);
      value := Val(b0) + Val(b1) * 0x100;
      assert done == [b0, b1];
      Sum2(b0, b1);
      FromLeBack(done);
      HeldBytes(start, beyond, done);
    }

    method ReadUint24Be() returns (value: nat)
      requires Valid()
      modifies this
      ensures Valid() && Took(24, old(position), old(isReadBeyondEnd))
      ensures old(position) + 24 <= length ==>
        value < Pow256(3) && BytesBits(ToBe(3, value)) == Content()[old(position)..position]
    {
      hide ByteBits, BytesBits, Bits, ToBe, ToLe, FromBe, FromLe, Val, Pow256, Holds;
      ghost var start, beyond := position, isReadBeyondEnd;
      HoldsNone();
      var b0, done := Next(start, beyond, []);
      var b1;
      b1, done := Next(start, beyond, done);
      var b2;
      b2, done := Next(start, beyond, done);
      value := Val(b0) * 0x1_0000 + Val(b1) * 0x100 + Val(b2);
      assert done == [b0, b1, b2];
      Sum3(b0, b1, b2);
      FromBeBack(done);
      HeldBytes(start, beyond, done);
    }

    method ReadUint24Le() returns (value: nat)
      requires Valid()
      modifies this
      ensures Valid() && Took(24, old(position), old(isReadBeyondEnd))
      ensures old(position) + 24 <= length ==>
        value < Pow256(3) && BytesBits(ToLe(3, value)) == Content()[old(position)..position]
    {
      hide ByteBits, BytesBits, Bits, ToBe, ToLe, FromBe, FromLe, Val, Pow256, Holds;
      ghost var start, beyond := position, isReadBeyondEnd;
      HoldsNone();
      var b0, done := Next(start, beyond, []);
      var b1;
      b1, done := Next(start, beyond, done);
      var b2;
      b2, done := Next(start, beyond, done);
      value := Val(b0) + Val(b1) * 0x100 + Val(b2) * 0x1_0000;
      assert done == [b0, b1, b2];
      Sum3(b0, b1, b2);
      FromLeBack(done);
      HeldBytes(start, beyond, done);
    }

    method ReadUint32Be() returns (value: nat)
      requires Valid()
      modifies this
      ensures Valid() && Took(32, old(position), old(isReadBeyondEnd))
      ensures old(position) + 32 <= length ==>
        value < Pow256(4) && BytesBits(ToBe(4, value)) == Content()[old(position)..position]
    {
      hide ByteBits, BytesBits, Bits, ToBe, ToLe, FromBe, FromLe, Val, Pow256, Holds;
      ghost var start, beyond := position, isReadBeyondEnd;
      HoldsNone();
      var b0, b1, b2, b3, done := NextFour(start, beyond, []);
      value := Val(b0) * 0x100_0000 + Val(b1) * 0x1_0000 + Val(b2) * 0x100 + Val(b3);
      assert done == [b0, b1, b2, b3];
      Sum4(b0, b1, b2, b3);
      FromBeBack(done);
      HeldBytes(start, beyond, done);
    }

    method ReadUint32Le() returns (value: nat)
      requires Valid()
      modifies this
      ensures Valid() && Took(32, old(position), old(isReadBeyondEnd))
      ensures old(position) + 32 <= length ==>
        value < Pow256(4) && BytesBits(ToLe(4, value)) == Content()[old(position)..position]
    {
      hide ByteBits, BytesBits, Bits, ToBe, ToLe, FromBe, FromLe, Val, Pow256, Holds;
      ghost var start, beyond := position, isReadBeyondEnd;
      HoldsNone();
      var b0, b1, b2, b3, done := NextFour(start, beyond, []);
      value := Val(b0) + Val(b1) * 0x100 + Val(b2) * 0x1_0000 + Val(b3) * 0x100_0000;
      assert done == [b0, b1, b2, b3];
      Sum4(b0, b1, b2, b3);
      FromLeBack(done);
      HeldBytes(start, beyond, done);
    }

    method ReadUint64Be() returns (value: nat)
      requires Valid()
      modifies this
      ensures Valid() && Took(64, old(position), old(isReadBeyondEnd))
      ensures old(position) + 64 <= length ==>
        value < Pow256(8) && BytesBits(ToBe(8, value)) == Content()[old(position)..position]
    {
      hide ByteBits, BytesBits, Bits, ToBe, ToLe, FromBe, FromLe, Val, Pow256, Holds;
      ghost var start, beyond := position, isReadBeyondEnd;
      HoldsNone();
      var b0, b1, b2, b3, half := NextFour(start, beyond, []);
      value := Val(b0) * 0x100_0000_0000_0000 + Val(b1) * 0x1_0000_0000_0000 + Val(b2) * 0x100_0000_0000
        + Val(b3) * 0x1_0000_0000;
      var b4, b5, b6, b7, done := NextFour(start, beyond, half);
      value := value + (Val(b4) * 0x100_0000 + Val(b5) * 0x1_0000 + Val(b6) * 0x100 + Val(b7));
      assert half == [b0, b1, b2, b3];
      Sum8(b0, b1, b2, b3, b4, b5, b6, b7);
      FromBeBack(done);
      HeldBytes(start, beyond, done);
    }

    method ReadUint64Le() returns (value: nat)
      requires Valid()
      modifies this
      ensures Valid() && Took(64, old(position), old(isReadBeyondEnd))
      ensures old(position) + 64 <= length ==>
        value < Pow256(8) && BytesBits(ToLe(8, value)) == Content()[old(position)..position]
    {
      hide ByteBits, BytesBits, Bits, ToBe, ToLe, FromBe, FromLe, Val, Pow256, Holds;
      ghost var start, beyond := position, isReadBeyondEnd;
      HoldsNone();
      var b0, b1, b2, b3, half := NextFour(start, beyond, []);
      value := Val(b0) + Val(b1) * 0x100 + Val(b2) * 0x1_0000 + Val(b3) * 0x100_0000;
      var b4, b5, b6, b7, done := NextFour(start, beyond, half);
      value := value + (Val(b4) * 0x1_0000_0000 + Val(b5) * 0x100_0000_0000 + Val(b6) * 0x1_0000_0000_0000
        + Val(b7) * 0x100_0000_0000_0000);
      assert half == [b0, b1, b2, b3];
      Sum8(b0, b1, b2, b3, b4, b5, b6, b7);
      FromLeBack(done);
      HeldBytes(start, beyond, done);
    }
  }

  lemma Neighbours(start: nat)
    ensures var l1 := start % 8; (start - l1) / 8 == start / 8 && (start + (8 - l1)) / 8 == start / 8 + 1
  {
  }

  lemma BitAt(data: seq<bv8>, start: nat, value: bv8, k: nat)
    requires k < 8 && start + 8 <= 8 * |data|
    requires start % 8 == 0 ==> value == data[start / 8]
    requires start % 8 != 0 ==> value == Across(data[start / 8], data[start / 8 + 1], start % 8)
    ensures Bit(value, k) == Bit(data[(start + k) / 8], (start + k) % 8)
  {
    hide Bit, Across;
    var at, l1, i := start / 8, start % 8, start + k;
    assert if l1 + k < 8 then i / 8 == at && i % 8 == l1 + k else i / 8 == at + 1 && i % 8 == l1 + k - 8;
    if l1 != 0 {
      Straddled(data[at], data[at + 1], l1, k);
    }
  }

  lemma ByteAt(data: seq<bv8>, length: nat, start: nat, value: bv8)
    requires start + 8 <= length <= 8 * |data|
    requires start % 8 == 0 ==> value == data[start / 8]
    requires start % 8 != 0 ==> value == Across(data[start / 8], data[start / 8 + 1], start % 8)
    ensures ByteBits(value) == Bits(data, length)[start..start + 8]
  {
    hide Bit, ByteBits, Bits;
    forall k | 0 <= k < 8
      ensures ByteBits(value)[k] == Bits(data, length)[start..start + 8][k]
    {
      BitAt(data, start, value, k);
      assert Bits(data, length)[start..start + 8][k] == Bits(data, length)[start + k];
    }
  }
}
