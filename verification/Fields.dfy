/** Sequences of fields written to one stream and read from another. */
module Fields {
  import opened BitStreams
  import opened MemoryInputStreams
  import opened MemoryOutputStreams

  /** One bit, two or four bits, or a number of bytes in either byte order. */
  datatype Shape = OneBit | TwoBits | FourBits | Bytes(n: nat, bigEndian: bool)

  datatype Field = Field(shape: Shape, value: nat)

  ghost predicate Known(shape: Shape) {
    shape.Bytes? ==> shape.n in {1, 2, 3, 4, 8}
  }

  function Width(shape: Shape): nat {
    match shape
    case OneBit => 1
    case TwoBits => 2
    case FourBits => 4
    case Bytes(n, _) => 8 * n
  }

  /** The value fits the shape. */
  ghost predicate Fits(f: Field) {
    && Known(f.shape)
    && match f.shape
       case OneBit => f.value < 2
       case TwoBits => f.value < 4
       case FourBits => f.value < 16
       case Bytes(n, _) => f.value < Pow256(n)
  }

  ghost function FieldBits(f: Field): (s: seq<bool>)
    requires Fits(f)
    ensures |s| == Width(f.shape)
  {
    match f.shape
    case OneBit => [f.value == 1]
    case TwoBits => [f.value / 2 == 1, f.value % 2 == 1]
    case FourBits => [f.value / 8 == 1, f.value / 4 % 2 == 1, f.value / 2 % 2 == 1, f.value % 2 == 1]
    case Bytes(n, big) => BytesBits(if big then ToBe(n, f.value) else ToLe(n, f.value))
  }

  ghost function AllBits(fields: seq<Field>): seq<bool>
    requires forall f :: f in fields ==> Fits(f)
  {
    if fields == [] then [] else AllBits(fields[..|fields| - 1]) + FieldBits(fields[|fields| - 1])
  }

  /** Where the fields start if the first is at the given bit. */
  function Offset(shapes: seq<Shape>, start: nat): (end: nat)
    ensures start <= end
  {
    if shapes == [] then start else Offset(shapes[..|shapes| - 1], start) + Width(shapes[|shapes| - 1])
  }

  /** Byte-wide fields begin at the start or in the middle of a byte. */
  ghost predicate Placed(shapes: seq<Shape>, start: nat) {
    forall i :: 0 <= i < |shapes| && shapes[i].Bytes? ==> Offset(shapes[..i], start) % 4 == 0
  }

  function Shapes(fields: seq<Field>): (s: seq<Shape>)
    ensures |s| == |fields| && forall i :: 0 <= i < |s| ==> s[i] == fields[i].shape
  {
    seq(|fields|, i requires 0 <= i < |fields| => fields[i].shape)
  }

  method WriteField(stream: MemoryOutputStream, f: Field)
    requires stream.Valid() && Fits(f) && (f.shape.Bytes? ==> stream.length % 4 == 0)
    modifies stream
    ensures stream.Valid() && stream.Content() == old(stream.Content()) + FieldBits(f)
  {
    hide ToBe, ToLe, BytesBits, ByteBits, Bits, Tidy, Octet, Pow256;
    match f.shape {
      case OneBit => stream.WriteBit(f.value == 1);
      case TwoBits =>
        Small(f.value);
        stream.WriteUint2(ByteOf(f.value));
      case FourBits =>
        Small(f.value);
        stream.WriteUint4(ByteOf(f.value));
      case Bytes(n, big) =>
        WriteNumber(stream, n, big, f.value);
    }
  }

  method WriteNumber(stream: MemoryOutputStream, n: nat, big: bool, value: nat)
    requires stream.Valid() && n in {1, 2, 3, 4, 8} && value < Pow256(n) && stream.length % 4 == 0
    modifies stream
    ensures stream.Valid() && stream.Content() ==
      old(stream.Content()) + BytesBits(if big then ToBe(n, value) else ToLe(n, value))
  {
    hide ToBe, ToLe, BytesBits, ByteBits, Bits, Tidy, Octet;
    if n == 1 {
      OneByte(value);
      stream.WriteUint8(ByteOf(value));
    } else if n == 2 {
      if big { stream.WriteUint16Be(value); } else { stream.WriteUint16Le(value); }
    } else if n == 3 {
      if big { stream.WriteUint24Be(value); } else { stream.WriteUint24Le(value); }
    } else if n == 4 {
      if big { stream.WriteUint32Be(value); } else { stream.WriteUint32Le(value); }
    } else {
      if big { stream.WriteUint64Be(value); } else { stream.WriteUint64Le(value); }
    }
  }

  lemma Small(v: nat)
    requires v < 16
    ensures (ByteOf(v) & 0x8 != 0) == (v / 8 == 1) && (ByteOf(v) & 0x4 != 0) == (v / 4 % 2 == 1)
    ensures (ByteOf(v) & 0x2 != 0) == (v / 2 % 2 == 1) && (ByteOf(v) & 0x1 != 0) == (v % 2 == 1)
  {
    match v
    case 0 => case 1 => case 2 => case 3 => case 4 => case 5 => case 6 => case 7 =>
    case 8 => case 9 => case 10 => case 11 => case 12 => case 13 => case 14 => case _ =>
  }

  lemma OneByte(v: nat)
    requires v < 256
    ensures BytesBits(ToBe(1, v)) == BytesBits(ToLe(1, v)) == ByteBits(ByteOf(v))
  {
    hide ByteOf, ByteBits, BytesBits;
    NoBits();
    BytesBitsMore([], ByteOf(v));
    assert ToBe(1, v) == [ByteOf(v)] == [] + [ByteOf(v)];
    assert ToLe(1, v) == [ByteOf(v)];
  }

  lemma OneAt(s: seq<bool>, i: nat)
    ensures i < |s| ==> s[i..i + 1] == [s[i]]
  {
  }

  method ReadField(stream: MemoryInputStream, shape: Shape) returns (f: Field)
    requires stream.Valid() && Known(shape)
    modifies stream
    ensures stream.Valid() && stream.Took(Width(shape), old(stream.position), old(stream.isReadBeyondEnd))
      && f.shape == shape
    ensures old(stream.position) + Width(shape) <= stream.length ==>
      Fits(f) && FieldBits(f) == stream.Content()[old(stream.position)..stream.position]
  {
    hide ToBe, ToLe, BytesBits, ByteBits, Bits, Octet, Pow256;
    match shape {
      case OneBit =>
        var bit := stream.ReadBit();
        f := Field(shape, if bit then 1 else 0);
        OneAt(stream.Content(), old(stream.position));
      case TwoBits =>
        var value := stream.ReadUint2();
        f := Field(shape, value);
      case FourBits =>
        var value := stream.ReadUint4();
        f := Field(shape, value);
      case Bytes(n, big) =>
        var value := ReadNumber(stream, n, big);
        f := Field(shape, value);
    }
  }

  method ReadNumber(stream: MemoryInputStream, n: nat, big: bool) returns (value: nat)
    requires stream.Valid() && n in {1, 2, 3, 4, 8}
    modifies stream
    ensures stream.Valid() && stream.Took(8 * n, old(stream.position), old(stream.isReadBeyondEnd))
    ensures old(stream.position) + 8 * n <= stream.length ==>
      value < Pow256(n) && BytesBits(if big then ToBe(n, value) else ToLe(n, value)) ==
        stream.Content()[old(stream.position)..stream.position]
  {
    hide ToBe, ToLe, BytesBits, ByteBits, Bits, Octet;
    if n == 1 {
      var b := stream.ReadUint8();
      value := Val(b);
      ValBack(b);
      OneByte(value);
    } else if n == 2 {
      if big { value := stream.ReadUint16Be(); } else { value := stream.ReadUint16Le(); }
    } else if n == 3 {
      if big { value := stream.ReadUint24Be(); } else { value := stream.ReadUint24Le(); }
    } else if n == 4 {
      if big { value := stream.ReadUint32Be(); } else { value := stream.ReadUint32Le(); }
    } else {
      if big { value := stream.ReadUint64Be(); } else { value := stream.ReadUint64Le(); }
    }
  }

  /** Fields of the same shape are told apart by their bits. */
  lemma FieldUnique(f: Field, g: Field)
    requires Fits(f) && Fits(g) && f.shape == g.shape && FieldBits(f) == FieldBits(g)
    ensures f == g
  {
    hide ToBe, ToLe, BytesBits, Octet, Pow256;
    match f.shape
    case OneBit =>
      assert FieldBits(f)[0] == FieldBits(g)[0];
    case TwoBits =>
      assert FieldBits(f)[0] == FieldBits(g)[0] && FieldBits(f)[1] == FieldBits(g)[1];
    case FourBits =>
      assert FieldBits(f)[0] == FieldBits(g)[0] && FieldBits(f)[1] == FieldBits(g)[1];
      assert FieldBits(f)[2] == FieldBits(g)[2] && FieldBits(f)[3] == FieldBits(g)[3];
    case Bytes(n, big) =>
      if big {
        BytesBitsUnique(ToBe(n, f.value), ToBe(n, g.value));
      } else {
        BytesBitsUnique(ToLe(n, f.value), ToLe(n, g.value));
      }
      NumbersUnique(n, f.value, g.value);
  }

  /** One more field: where it ends, and what its bits add. */
  lemma OneMore(fields: seq<Field>, f: Field, shapes: seq<Shape>, i: nat, start: nat)
    requires i < |shapes|
    ensures Offset(shapes[..i + 1], start) == Offset(shapes[..i], start) + Width(shapes[i])
    ensures (forall f :: f in fields ==> Fits(f)) && Fits(f) ==> AllBits(fields + [f]) == AllBits(fields) + FieldBits(f)
  {
    hide FieldBits, Fits;
    assert shapes[..i + 1][..i] == shapes[..i];
    assert (fields + [f])[..|fields|] == fields;
  }

  lemma Joined(s: seq<bool>, i: nat, j: nat, k: nat)
    ensures i <= j <= k <= |s| ==> s[i..k] == s[i..j] + s[j..k]
  {
  }

  /** Writes the fields in turn. */
  method WriteFields(stream: MemoryOutputStream, fields: seq<Field>)
    requires stream.Valid() && (forall f :: f in fields ==> Fits(f)) && Placed(Shapes(fields), stream.length)
    modifies stream
    ensures stream.Valid() && stream.Content() == old(stream.Content()) + AllBits(fields)
    ensures stream.length == Offset(Shapes(fields), old(stream.length))
  {
    hide FieldBits, Fits, Bits, Tidy, Width;
    for i := 0 to |fields|
      invariant stream.Valid() && stream.Content() == old(stream.Content()) + AllBits(fields[..i])
      invariant stream.length == Offset(Shapes(fields)[..i], old(stream.length))
    {
      OneMore(fields[..i], fields[i], Shapes(fields), i, old(stream.length));
      assert fields[..i] + [fields[i]] == fields[..i + 1];
      WriteField(stream, fields[i]);
    }
    assert fields[..|fields|] == fields && Shapes(fields)[..|fields|] == Shapes(fields);
  }

  /** Reads as many fields of the given shapes as there are. */
  method ReadFields(stream: MemoryInputStream, shapes: seq<Shape>) returns (fields: seq<Field>)
    requires stream.Valid() && forall shape :: shape in shapes ==> Known(shape)
    modifies stream
    ensures stream.Valid() && Shapes(fields) == shapes
    ensures Offset(shapes, old(stream.position)) <= stream.length ==>
      && (forall f :: f in fields ==> Fits(f))
      && stream.position == Offset(shapes, old(stream.position))
      && AllBits(fields) == stream.Content()[old(stream.position)..stream.position]
  {
    hide FieldBits, Fits, Bits, Width, Known;
    fields := [];
    for i := 0 to |shapes|
      invariant stream.Valid() && Shapes(fields) == shapes[..i]
      invariant Offset(shapes[..i], old(stream.position)) <= stream.length ==>
        && (forall f :: f in fields ==> Fits(f))
        && stream.position == Offset(shapes[..i], old(stream.position))
        && AllBits(fields) == stream.Content()[old(stream.position)..stream.position]
    {
      var f := ReadField(stream, shapes[i]);
      OneMore(fields, f, shapes, i, old(stream.position));
      Joined(stream.Content(), old(stream.position), Offset(shapes[..i], old(stream.position)),
        Offset(shapes[..i + 1], old(stream.position)));
      fields := fields + [f];
    }
    assert shapes[..|shapes|] == shapes;
  }

  lemma SplitOff(x: seq<bool>, p: seq<bool>, y: seq<bool>, q: seq<bool>)
    requires x + p == y + q && |p| == |q|
    ensures x == y && p == q
  {
    assert x == (x + p)[..|x|] && y == (y + q)[..|y|];
    assert p == (x + p)[|x|..] && q == (y + q)[|y|..];
  }

  lemma ShapesBefore(fields: seq<Field>, n: nat)
    requires n <= |fields|
    ensures Shapes(fields[..n]) == Shapes(fields)[..n]
  {
  }

  /** What was written is what is read: fields of the same shapes with the same bits are the same. */
  lemma {:induction false} FieldsUnique(fields: seq<Field>, others: seq<Field>)
    requires (forall f :: f in fields ==> Fits(f)) && (forall f :: f in others ==> Fits(f))
    requires Shapes(fields) == Shapes(others) && AllBits(fields) == AllBits(others)
    ensures fields == others
  {
    hide FieldBits, Fits, Shapes;
    if fields != [] {
      var n := |fields| - 1;
      var f, g := fields[n], others[n];
      assert f.shape == Shapes(fields)[n] == g.shape;
      SplitOff(AllBits(fields[..n]), FieldBits(f), AllBits(others[..n]), FieldBits(g));
      ShapesBefore(fields, n);
      ShapesBefore(others, n);
      FieldsUnique(fields[..n], others[..n]);
      FieldUnique(f, g);
      assert fields == fields[..n] + [f] && others == others[..n] + [g];
    }
  }

  lemma FitsKnown(fields: seq<Field>)
    requires forall f :: f in fields ==> Fits(f)
    ensures forall shape :: shape in Shapes(fields) ==> Known(shape)
  {
    forall shape | shape in Shapes(fields)
      ensures Known(shape)
    {
      var i :| 0 <= i < |fields| && Shapes(fields)[i] == shape;
      assert Fits(fields[i]);
    }
  }

  /** Any fields, the byte-wide ones at the start or in the middle of a byte, written to one stream and read from
      another. */
  method TransferFields(fields: seq<Field>) returns (received: seq<Field>, bytes: seq<bv8>)
    requires (forall f :: f in fields ==> Fits(f)) && Placed(Shapes(fields), 0)
    ensures received == fields && |bytes| == (Offset(Shapes(fields), 0) + 7) / 8
  {
    hide FieldBits, Fits, Placed, Bits, Width, AllBits, Offset, Shapes;
    var output := new MemoryOutputStream();
    WriteFields(output, fields);
    assert output.Content() == AllBits(fields);
    FitsKnown(fields);
    var input := new MemoryInputStream(output.data, output.length);
    received := ReadFields(input, Shapes(fields));
    assert input.Content()[0..input.position] == AllBits(fields);
    FieldsUnique(received, fields);
    bytes := output.data;
  }
}
