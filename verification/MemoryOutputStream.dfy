/** A stream that bits, bytes and numbers are written to the end of. */
module MemoryOutputStreams {
  import opened BitStreams

  class MemoryOutputStream {
    var data: seq<bv8>
    /** In bits. */
    var length: nat

    ghost predicate Valid()
      reads this
    {
      Tidy(data, length)
    }

    /** The bits written so far. */
    ghost function Content(): (s: seq<bool>)
      requires Valid()
      reads this
      ensures |s| == length
    {
      Bits(data, length)
    }

    constructor ()
      ensures Valid() && Content() == []
    {
      data, length := [], 0;
    }

    method WriteBit(value: bool)
      requires Valid()
      modifies this
      ensures Valid() && Content() == old(Content()) + [value]
    {
      var byteIndex, bitIndex := length / 8, length % 8;
      if bitIndex == 0 {
        data := data + [0];
      }
      if value {
        data := data[byteIndex := data[byteIndex] | Mask(bitIndex)];
      }
      BitAppends(old(data), length, value, data);
      length := length + 1;
    }

    /** Elsewhere than at the start or in the middle of a byte this spoils the stream. */
    method WriteByte(value: bv8)
      requires |data| == (length + 7) / 8
      modifies this
      ensures data == Written(old(data), old(length), value) && length == old(length) + 8
      ensures old(Valid() && length % 4 == 0) ==> Valid() && Content() == old(Content()) + ByteBits(value)
    {
      hide Tidy, Bits, Head, Rest;
      if Tidy(data, length) && length % 4 == 0 {
        WrittenAppends(data, length, value);
      }
      if length % 8 == 0 {
        data := data + [value];
      } else {
        var l1 := length % 8;
        data := data[|data| - 1 := data[|data| - 1] | Head(value, l1)];
        data := data + [Rest(value, l1)];
      }
      length := length + 8;
    }

    method WriteUint2(value: bv8)
      requires Valid()
      modifies this
      ensures Valid() && Content() == old(Content()) + [value & 0x2 != 0, value & 0x1 != 0]
    {
      WriteBit(value & 0x2 != 0);
      WriteBit(value & 0x1 != 0);
    }

    method WriteUint4(value: bv8)
      requires Valid()
      modifies this
      ensures Valid() && Content() == old(Content())
        + [value & 0x8 != 0, value & 0x4 != 0, value & 0x2 != 0, value & 0x1 != 0]
    {
      WriteBit(value & 0x8 != 0);
      WriteBit(value & 0x4 != 0);
      WriteBit(value & 0x2 != 0);
      WriteBit(value & 0x1 != 0);
    }

    method WriteUint8(value: bv8)
      requires Valid() && length % 4 == 0
      modifies this
      ensures Valid() && Content() == old(Content()) + ByteBits(value)
    {
      WriteByte(value);
    }

    /** Writes a byte after others. */
    method Append(value: bv8, ghost start: seq<bool>, ghost done: seq<bv8>) returns (ghost done': seq<bv8>)
      requires Valid() && length % 4 == 0 && Content() == start + BytesBits(done)
      modifies this
      ensures done' == done + [value] && length == old(length) + 8
      ensures Valid() && Content() == start + BytesBits(done')
    {
      hide BytesBits, ByteBits, Bits;
      WriteByte(value);
      done' := done + [value];
      BytesBitsAfter(start, done, value);
    }

    method WriteUint16Be(value: nat)
      requires Valid() && length % 4 == 0 && value < Pow256(2)
      modifies this
      ensures Valid() && length == old(length) + 16 && Content() == old(Content()) + BytesBits(ToBe(2, value))
    {
      hide BytesBits, Octet, Bits, Tidy;
      ghost var start := Content();
      NoBits();
      ghost var done := Append(Octet(value, 1), start, []);
      done := Append(Octet(value, 0), start, done);
      assert done == ToBe(2, value);
    }

    method WriteUint16Le(value: nat)
      requires Valid() && length % 4 == 0 && value < Pow256(2)
      modifies this
      ensures Valid() && length == old(length) + 16 && Content() == old(Content()) + BytesBits(ToLe(2, value))
    {
      hide BytesBits, Octet, Bits, Tidy;
      ghost var start := Content();
      NoBits();
      ghost var done := Append(Octet(value, 0), start, []);
      done := Append(Octet(value, 1), start, done);
      assert done == ToLe(2, value);
    }

    method WriteUint24Be(value: nat)
      requires Valid() && length % 4 == 0 && value < Pow256(3)
      modifies this
      ensures Valid() && length == old(length) + 24 && Content() == old(Content()) + BytesBits(ToBe(3, value))
    {
      hide BytesBits, Octet, Bits, Tidy;
      ghost var start := Content();
      NoBits();
      ghost var done := Append(Octet(value, 2), start, []);
      done := Append(Octet(value, 1), start, done);
      done := Append(Octet(value, 0), start, done);
      assert done == ToBe(3, value);
    }

    method WriteUint24Le(value: nat)
      requires Valid() && length % 4 == 0 && value < Pow256(3)
      modifies this
      ensures Valid() && length == old(length) + 24 && Content() == old(Content()) + BytesBits(ToLe(3, value))
    {
      hide BytesBits, Octet, Bits, Tidy;
      ghost var start := Content();
      NoBits();
      ghost var done := Append(Octet(value, 0), start, []);
      done := Append(Octet(value, 1), start, done);
      done := Append(Octet(value, 2), start, done);
      assert done == ToLe(3, value);
    }

    method WriteUint32Be(value: nat)
      requires Valid() && length % 4 == 0 && value < Pow256(4)
      modifies this
      ensures Valid() && length == old(length) + 32 && Content() == old(Content()) + BytesBits(ToBe(4, value))
    {
      hide BytesBits, Octet, Bits, Tidy;
      ghost var start := Content();
      NoBits();
      ghost var done := Append(Octet(value, 3), start, []);
      done := Append(Octet(value, 2), start, done);
      done := Append(Octet(value, 1), start, done);
      done := Append(Octet(value, 0), start, done);
      assert done == ToBe(4, value);
    }

    method WriteUint32Le(value: nat)
      requires Valid() && length % 4 == 0 && value < Pow256(4)
      modifies this
      ensures Valid() && length == old(length) + 32 && Content() == old(Content()) + BytesBits(ToLe(4, value))
    {
      hide BytesBits, Octet, Bits, Tidy;
      ghost var start := Content();
      NoBits();
      ghost var done := Append(Octet(value, 0), start, []);
      done := Append(Octet(value, 1), start, done);
      done := Append(Octet(value, 2), start, done);
      done := Append(Octet(value, 3), start, done);
      assert done == ToLe(4, value);
    }

    method WriteUint64Be(value: nat)
      requires Valid() && length % 4 == 0 && value < Pow256(8)
      modifies this
      ensures Valid() && length == old(length) + 64 && Content() == old(Content()) + BytesBits(ToBe(8, value))
    {
      hide BytesBits, Octet, Bits, Tidy;
      ghost var start := Content();
      NoBits();
      ghost var done := Append(Octet(value, 7), start, []);
      done := Append(Octet(value, 6), start, done);
      done := Append(Octet(value, 5), start, done);
      done := Append(Octet(value, 4), start, done);
      done := Append(Octet(value, 3), start, done);
      done := Append(Octet(value, 2), start, done);
      done := Append(Octet(value, 1), start, done);
      done := Append(Octet(value, 0), start, done);
      assert done == ToBe(8, value);
    }

    method WriteUint64Le(value: nat)
      requires Valid() && length % 4 == 0 && value < Pow256(8)
      modifies this
      ensures Valid() && length == old(length) + 64 && Content() == old(Content()) + BytesBits(ToLe(8, value))
    {
      hide BytesBits, Octet, Bits, Tidy;
      ghost var start := Content();
      NoBits();
      ghost var done := Append(Octet(value, 0), start, []);
      done := Append(Octet(value, 1), start, done);
      done := Append(Octet(value, 2), start, done);
      done := Append(Octet(value, 3), start, done);
      done := Append(Octet(value, 4), start, done);
      done := Append(Octet(value, 5), start, done);
      done := Append(Octet(value, 6), start, done);
      done := Append(Octet(value, 7), start, done);
      assert done == ToLe(8, value);
    }
  }
}
