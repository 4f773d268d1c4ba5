/** Fixed-layout structs as lists of fields in network order: writing a list of fields
    and reading bytes by a list of shapes are inverse to each other. */
module Fields {
  import opened Wire

  type Short = x: int | 0 <= x < 0x1_0000
  type Long = x: int | 0 <= x < 0x1_0000_0000

  datatype Field = U8(byte: Byte) | U16(short: Short) | U32(long: Long) | Arr(bytes: seq<Byte>)
  datatype Shape = S8 | S16 | S32 | SArr(n: nat)

  function ShapeOf(f: Field): Shape {
    match f
    case U8(_) => S8
    case U16(_) => S16
    case U32(_) => S32
    case Arr(bytes) => SArr(|bytes|)
  }

  function Shapes(fs: seq<Field>): (shapes: seq<Shape>)
    ensures |shapes| == |fs|
  {
    seq(|fs|, i requires 0 <= i < |fs| => ShapeOf(fs[i]))
  }

  function SizeOf(shape: Shape): nat {
    match shape
    case S8 => 1
    case S16 => 2
    case S32 => 4
    case SArr(n) => n
  }

  function Size(shapes: seq<Shape>): nat {
    if shapes == [] then 0 else SizeOf(shapes[0]) + Size(shapes[1..])
  }

  lemma {:induction false} SizeAppend(a: seq<Shape>, b: seq<Shape>)
    ensures Size(a + b) == Size(a) + Size(b)
  {
    if a == [] {
      assert a + b == b;
    } else {
      SizeAppend(a[1..], b);
      assert (a + b)[1..] == a[1..] + b;
    }
  }

  lemma ShapesAppend(fs: seq<Field>, gs: seq<Field>)
    ensures Shapes(fs + gs) == Shapes(fs) + Shapes(gs)
  {
  }

  /** The sizes of four fields at once. */
  lemma Size4(shapes: seq<Shape>)
    requires |shapes| >= 4
    ensures Size(shapes) ==
      SizeOf(shapes[0]) + SizeOf(shapes[1]) + SizeOf(shapes[2]) + SizeOf(shapes[3]) + Size(shapes[4..])
  {
    assert shapes[1..][1..] == shapes[2..];
    assert shapes[2..][1..] == shapes[3..];
    assert shapes[3..][1..] == shapes[4..];
    assert Size(shapes[3..]) == SizeOf(shapes[3]) + Size(shapes[4..]);
    assert Size(shapes[2..]) == SizeOf(shapes[2]) + Size(shapes[3..]);
    assert Size(shapes[1..]) == SizeOf(shapes[1]) + Size(shapes[2..]);
  }

  function ShortBytes(x: Short): (s: seq<Byte>)
    ensures |s| == 2 && Word(s[0], s[1]) == x
  {
    [x / 0x100, x % 0x100]
  }

  function LongBytes(x: Long): (s: seq<Byte>)
    ensures |s| == 4
  {
    ShortBytes(x / 0x1_0000) + ShortBytes(x % 0x1_0000)
  }

  function LongAt(s: seq<Byte>): (x: Long)
    requires |s| >= 4
  {
    Word(s[0], s[1]) * 0x1_0000 + Word(s[2], s[3])
  }

  lemma LongRoundTrip(x: Long)
    ensures LongAt(LongBytes(x)) == x
  {
  }

  function PutOne(f: Field): (s: seq<Byte>)
    ensures |s| == SizeOf(ShapeOf(f))
  {
    match f
    case U8(b) => [b]
    case U16(x) => ShortBytes(x)
    case U32(x) => LongBytes(x)
    case Arr(bytes) => bytes
  }

  function Put(fs: seq<Field>): seq<Byte> {
    if fs == [] then [] else PutOne(fs[0]) + Put(fs[1..])
  }

  function GetOne(shape: Shape, s: seq<Byte>): (f: Field)
    requires |s| == SizeOf(shape)
    ensures ShapeOf(f) == shape
  {
    match shape
    case S8 => U8(s[0])
    case S16 => U16(Word(s[0], s[1]))
    case S32 => U32(LongAt(s))
    case SArr(_) => Arr(s)
  }

  function Get(shapes: seq<Shape>, s: seq<Byte>): (fs: seq<Field>)
    requires |s| >= Size(shapes)
    ensures |fs| == |shapes|
    ensures forall i :: 0 <= i < |fs| ==> ShapeOf(fs[i]) == shapes[i]
  {
    if shapes == [] then []
    else
      var n := SizeOf(shapes[0]);
      [GetOne(shapes[0], s[..n])] + Get(shapes[1..], s[n..])
  }

  lemma OneRoundTrip(f: Field)
    ensures GetOne(ShapeOf(f), PutOne(f)) == f
  {
    if f.U32? {
      LongRoundTrip(f.long);
    }
  }

  lemma ShortUnique(s: seq<Byte>)
    requires |s| == 2
    ensures ShortBytes(Word(s[0], s[1])) == s
  {
  }

  lemma OneBytesRoundTrip(shape: Shape, s: seq<Byte>)
    requires |s| == SizeOf(shape)
    ensures PutOne(GetOne(shape, s)) == s
  {
    match shape
    case S8 =>
    case S16 => ShortUnique(s);
    case S32 =>
      ShortUnique(s[..2]);
      ShortUnique(s[2..]);
      assert s == s[..2] + s[2..];
      assert LongAt(s) / 0x1_0000 == Word(s[0], s[1]) && LongAt(s) % 0x1_0000 == Word(s[2], s[3]);
    case SArr(_) =>
  }

  /** Reading what was written gives the fields back, whatever follows them. */
  lemma {:induction false} GetPut(fs: seq<Field>, t: seq<Byte>)
    ensures |Put(fs)| == Size(Shapes(fs))
    ensures Get(Shapes(fs), Put(fs) + t) == fs
  {
    if fs != [] {
      var first, more := PutOne(fs[0]), Put(fs[1..]);
      GetPut(fs[1..], t);
      OneRoundTrip(fs[0]);
      assert Shapes(fs)[1..] == Shapes(fs[1..]);
      Assoc(first, more, t);
      TakeDrop(first, more + t);
    }
  }

  lemma TakeDrop<T>(a: seq<T>, b: seq<T>)
    ensures (a + b)[..|a|] == a && (a + b)[|a|..] == b
  {
  }

  lemma SplitTake<T>(s: seq<T>, n: nat, k: nat)
    requires n <= k <= |s|
    ensures s[..k] == s[..n] + s[n..][..k - n]
  {
  }

  /** Writing what was read gives the bytes back: no struct layout loses information. */
  lemma {:induction false} PutGet(shapes: seq<Shape>, s: seq<Byte>)
    requires |s| >= Size(shapes)
    ensures Put(Get(shapes, s)) == s[..Size(shapes)]
  {
    if shapes != [] {
      var n, k := SizeOf(shapes[0]), Size(shapes);
      PutGet(shapes[1..], s[n..]);
      OneBytesRoundTrip(shapes[0], s[..n]);
      assert Get(shapes, s)[1..] == Get(shapes[1..], s[n..]);
      SplitTake(s, n, k);
    }
  }

  lemma {:induction false} PutAppend(fs: seq<Field>, gs: seq<Field>)
    ensures Put(fs + gs) == Put(fs) + Put(gs)
  {
    if fs == [] {
      assert fs + gs == gs;
    } else {
      PutAppend(fs[1..], gs);
      assert (fs + gs)[0] == fs[0] && (fs + gs)[1..] == fs[1..] + gs;
      Assoc(PutOne(fs[0]), Put(fs[1..]), Put(gs));
    }
  }

  lemma PutSnoc(fs: seq<Field>, f: Field)
    ensures Put(fs + [f]) == Put(fs) + PutOne(f)
  {
    PutAppend(fs, [f]);
    assert Put([f]) == PutOne(f) + Put([f][1..]);
  }

  /** The bytes of one field lie where the fields before it end. */
  lemma FieldAt(fs: seq<Field>, k: nat)
    requires k < |fs|
    ensures
      var at := Size(Shapes(fs[..k]));
      && at + SizeOf(ShapeOf(fs[k])) <= |Put(fs)|
      && Put(fs)[at..at + SizeOf(ShapeOf(fs[k]))] == PutOne(fs[k])
  {
    GetPut(fs[..k], []);
    PutAppend(fs[..k], fs[k..]);
    assert fs[..k] + fs[k..] == fs;
    var a, b, c := Put(fs[..k]), PutOne(fs[k]), Put(fs[k..][1..]);
    Assoc(a, b, c);
    assert (a + b + c)[|a|..|a| + |b|] == b;
  }

  lemma ShapesTake(fs: seq<Field>, k: nat)
    requires k <= |fs|
    ensures Shapes(fs[..k]) == Shapes(fs)[..k]
  {
  }

  lemma ByteFieldAt(fs: seq<Field>, k: nat)
    requires k < |fs| && fs[k].U8?
    ensures
      var at := Size(Shapes(fs)[..k]);
      at < |Put(fs)| && Put(fs)[at] == fs[k].byte
  {
    FieldAt(fs, k);
    ShapesTake(fs, k);
    var at := Size(Shapes(fs)[..k]);
    assert Put(fs)[at] == Put(fs)[at..at + 1][0];
  }

  lemma ShortFieldAt(fs: seq<Field>, k: nat)
    requires k < |fs| && fs[k].U16?
    ensures
      var at := Size(Shapes(fs)[..k]);
      at + 1 < |Put(fs)| && Word(Put(fs)[at], Put(fs)[at + 1]) == fs[k].short
  {
    FieldAt(fs, k);
    ShapesTake(fs, k);
    var at := Size(Shapes(fs)[..k]);
    var two := Put(fs)[at..at + 2];
    assert Put(fs)[at] == two[0] && Put(fs)[at + 1] == two[1];
  }

  lemma NextOffset(shapes: seq<Shape>, k: nat, at: nat)
    requires k < |shapes| && at == Size(shapes[..k])
    ensures Size(shapes[..k + 1]) == at + SizeOf(shapes[k])
  {
    SizeAppend(shapes[..k], [shapes[k]]);
    assert shapes[..k] + [shapes[k]] == shapes[..k + 1];
    assert Size([shapes[k]]) == SizeOf(shapes[k]) + Size([shapes[k]][1..]);
  }

  /** Four offsets on from one. */
  lemma FourOffsets(shapes: seq<Shape>, k: nat, at: nat)
    requires k + 4 <= |shapes| && at == Size(shapes[..k])
    ensures
      var b := at + SizeOf(shapes[k]);
      var c := b + SizeOf(shapes[k + 1]);
      var d := c + SizeOf(shapes[k + 2]);
      && Size(shapes[..k + 1]) == b && Size(shapes[..k + 2]) == c
      && Size(shapes[..k + 3]) == d && Size(shapes[..k + 4]) == d + SizeOf(shapes[k + 3])
  {
    NextOffset(shapes, k, at);
    NextOffset(shapes, k + 1, Size(shapes[..k + 1]));
    NextOffset(shapes, k + 2, Size(shapes[..k + 2]));
    NextOffset(shapes, k + 3, Size(shapes[..k + 3]));
  }

  lemma WholeOffset(shapes: seq<Shape>)
    ensures Size(shapes[..0]) == 0 && shapes[..|shapes|] == shapes
  {
  }

  /** A field read outright: one byte, two or four in network order, or as many as the
      array has. */
  lemma ReadAt(shapes: seq<Shape>, s: seq<Byte>, k: nat, at: nat)
    requires k < |shapes| && |s| >= Size(shapes) && at == Size(shapes[..k])
    ensures at + SizeOf(shapes[k]) <= |s|
    ensures FieldReads(Get(shapes, s)[k], shapes[k], s, at)
  {
    var fs := Get(shapes, s);
    assert Shapes(fs) == shapes;
    PutGet(shapes, s);
    FieldAt(fs, k);
    ShapesTake(fs, k);
    InPrefix(s, Size(shapes), at, SizeOf(shapes[k]), Put(fs), PutOne(fs[k]));
    OneReads(fs[k], s, at);
  }

  lemma InPrefix(s: seq<Byte>, n: nat, at: nat, size: nat, prefix: seq<Byte>, part: seq<Byte>)
    requires n <= |s| && prefix == s[..n] && at + size <= |prefix| && prefix[at..at + size] == part
    ensures s[at..at + size] == part
  {
  }

  ghost predicate FieldReads(f: Field, shape: Shape, s: seq<Byte>, at: nat)
    requires at + SizeOf(shape) <= |s|
  {
    match shape
    case S8 => f == U8(s[at])
    case S16 => f == U16(Big16(s, at))
    case S32 => f == U32(Big32(s, at))
    case SArr(n) => f == Arr(s[at..at + n])
  }

  lemma OneReads(f: Field, s: seq<Byte>, at: nat)
    requires at + SizeOf(ShapeOf(f)) <= |s| && s[at..at + SizeOf(ShapeOf(f))] == PutOne(f)
    ensures FieldReads(f, ShapeOf(f), s, at)
  {
    match f
    case U8(_) => SameBytes(s, at, PutOne(f));
    case U16(x) => ShortReads(x, s, at);
    case U32(y) => LongReads(y, s, at);
    case Arr(_) =>
  }

  lemma ShortReads(x: Short, s: seq<Byte>, at: nat)
    requires at + 2 <= |s| && s[at..at + 2] == ShortBytes(x)
    ensures Big16(s, at) == x
  {
    SameBytes(s, at, ShortBytes(x));
    WrittenInOrder(x, 0);
  }

  lemma LongReads(y: Long, s: seq<Byte>, at: nat)
    requires at + 4 <= |s| && s[at..at + 4] == LongBytes(y)
    ensures Big32(s, at) == y
  {
    TwoShorts(s, at, ShortBytes(y / 0x1_0000), ShortBytes(y % 0x1_0000));
    ShortReads(y / 0x1_0000, s, at);
    ShortReads(y % 0x1_0000, s, at + 2);
  }

  lemma TwoShorts(s: seq<Byte>, at: nat, a: seq<Byte>, b: seq<Byte>)
    requires |a| == |b| == 2 && at + 4 <= |s| && s[at..at + 4] == a + b
    ensures s[at..at + 2] == a && s[at + 2..at + 2 + 2] == b
  {
    assert a == (a + b)[..2] && b == (a + b)[2..];
  }

  lemma SameBytes(s: seq<Byte>, at: nat, t: seq<Byte>)
    requires at + |t| <= |s| && s[at..at + |t|] == t
    ensures forall i :: 0 <= i < |t| ==> s[at + i] == t[i]
  {
    forall i | 0 <= i < |t|
      ensures s[at + i] == t[i]
    {
      assert s[at..at + |t|][i] == t[i];
    }
  }

  lemma ReadByte(shapes: seq<Shape>, s: seq<Byte>, k: nat, at: nat)
    requires k < |shapes| && |s| >= Size(shapes) && at == Size(shapes[..k]) && shapes[k] == S8
    ensures at < |s| && Get(shapes, s)[k] == U8(s[at])
  {
    ReadAt(shapes, s, k, at);
  }

  lemma ReadShort(shapes: seq<Shape>, s: seq<Byte>, k: nat, at: nat)
    requires k < |shapes| && |s| >= Size(shapes) && at == Size(shapes[..k]) && shapes[k] == S16
    ensures at + 2 <= |s| && Get(shapes, s)[k] == U16(Big16(s, at))
  {
    ReadAt(shapes, s, k, at);
  }

  lemma ReadLong(shapes: seq<Shape>, s: seq<Byte>, k: nat, at: nat)
    requires k < |shapes| && |s| >= Size(shapes) && at == Size(shapes[..k]) && shapes[k] == S32
    ensures at + 4 <= |s| && Get(shapes, s)[k] == U32(Big32(s, at))
  {
    ReadAt(shapes, s, k, at);
  }

  lemma ReadArray(shapes: seq<Shape>, s: seq<Byte>, k: nat, at: nat, end: nat)
    requires k < |shapes| && |s| >= Size(shapes) && at == Size(shapes[..k])
    requires at <= end && shapes[k] == SArr(end - at)
    ensures end <= |s| && Get(shapes, s)[k] == Arr(s[at..end])
  {
    ReadAt(shapes, s, k, at);
  }

  /** What is written for a number is read in network order. */
  lemma WrittenInOrder(x: Short, y: Long)
    ensures Big16(PutOne(U16(x)), 0) == x && Big32(PutOne(U32(y)), 0) == y
  {
  }
}
