/** The receive buffer of server/src/types.cpp: a byte ring over a fixed array, and the
    packet decoder that empties it. */
module Ring {
  import opened Wire

  const SIZE_MODULUS: nat := 0x1_0000_0000_0000_0000
  // No object is larger than half the address space, so no sum of two sizes wraps.
  const MAX_OBJECT: nat := 0x7FFF_FFFF_FFFF_FFFF

  /** Addition of two `size_t`. */
  function SizeSum(a: nat, b: nat): (sum: nat)
    ensures a <= MAX_OBJECT && b <= MAX_OBJECT ==> sum == a + b
  {
    (a + b) % SIZE_MODULUS
  }

  /** The index `i` places after index `from`, going round the end of an array. */
  function Slot(capacity: nat, from: nat, i: nat): int {
    if from + i < capacity then from + i else from + i - capacity
  }

  lemma SlotIsModular(capacity: nat, from: nat, i: nat)
    requires from < capacity && i <= capacity
    ensures Slot(capacity, from, i) == (from + i) % capacity
  {
  }

  /** Stepping an index by one, modulo the capacity, reaches the next slot. */
  lemma NextSlot(capacity: nat, from: nat, i: nat)
    requires from < capacity && i < capacity
    ensures 0 <= Slot(capacity, from, i) < capacity
    ensures Slot(capacity, from, i + 1) == (Slot(capacity, from, i) + 1) % capacity
  {
    SlotIsModular(capacity, Slot(capacity, from, i), 1);
  }

  /** The `n` bytes of `d` that start at `from` and go round the end. */
  function Window(d: seq<Byte>, from: nat, n: nat): (s: seq<Byte>)
    requires n > 0 ==> from < |d|
    requires n <= |d|
    ensures |s| == n
  {
    seq(n, i requires 0 <= i < n => d[Slot(|d|, from, i)])
  }

  lemma WindowAt(d: seq<Byte>, from: nat, n: nat, i: nat)
    requires from < |d| && i < n <= |d|
    ensures 0 <= Slot(|d|, from, i) < |d|
    ensures Window(d, from, n)[i] == d[Slot(|d|, from, i)]
  {
  }

  lemma WindowPush(d: seq<Byte>, from: nat, n: nat, b: Byte)
    requires from < |d| && n < |d|
    ensures 0 <= Slot(|d|, from, n) < |d|
    ensures Window(d[Slot(|d|, from, n) := b], from, n + 1) == Window(d, from, n) + [b]
  {
  }

  /** One turn of the enqueue loop: the window grows by the byte written at its end. */
  lemma EnqueueTurn(d: seq<Byte>, from: nat, n: nat, s: seq<Byte>, buf: seq<Byte>, i: nat)
    requires from < |d| && n + i < |d| && i < |buf|
    requires Window(d, from, n + i) == s + buf[..i]
    ensures
      var rear := Slot(|d|, from, n + i);
      && 0 <= rear < |d|
      && Window(d[rear := buf[i]], from, n + i + 1) == s + buf[..i + 1]
      && Slot(|d|, from, n + i + 1) == (rear + 1) % |d|
  {
    WindowPush(d, from, n + i, buf[i]);
    NextSlot(|d|, from, n + i);
    assert s + buf[..i + 1] == s + buf[..i] + [buf[i]];
  }

  lemma WindowDrop(d: seq<Byte>, from: nat, n: nat, k: nat)
    requires from < |d| && k <= n <= |d|
    ensures 0 <= Slot(|d|, from, k) < |d|
    ensures Window(d, Slot(|d|, from, k), n - k) == Window(d, from, n)[k..]
    ensures Slot(|d|, Slot(|d|, from, k), n - k) == Slot(|d|, from, n)
  {
  }

  /** Taking header, struct and tail one after the other is decoding at once. */
  lemma DecodeInParts(s: seq<Byte>)
    requires Decodable(s)
    ensures
      var size := StructSize(s[1]).value;
      var rest := s[HEADER_SIZE..];
      var last := Consumed(s) - HEADER_SIZE - size;
      && Decode(s) == Record(PacketHeader(s[0], s[1], s[2], s[3]), rest[..size], rest[size..][..last])
      && s[Consumed(s)..] == rest[size..][last..]
  {
  }

  // ----- Any run of calls, on the bytes held

  type ObjectSize = n: nat | n <= MAX_OBJECT

  datatype Call = Put(bytes: seq<Byte>) | Get(size: ObjectSize)

  /** The bytes held, and all bytes ever put in and got out. */
  datatype Queue = Queue(held: seq<Byte>, accepted: seq<Byte>, returned: seq<Byte>)

  /** What `Enqueue` and `Dequeue` do to the contents: a call that does not fit, or asks
      for more than there is, is refused and changes nothing. */
  function After(capacity: nat, q: Queue, call: Call): Queue {
    match call
    case Put(bytes) =>
      if |bytes| <= capacity - |q.held| then Queue(q.held + bytes, q.accepted + bytes, q.returned) else q
    case Get(size) =>
      if size <= |q.held| then Queue(q.held[size..], q.accepted, q.returned + q.held[..size]) else q
  }

  /** When a call is refused, and that it then changes nothing. */
  lemma RefusedIff(capacity: nat, q: Queue, call: Call)
    requires |q.held| <= capacity
    ensures call.Put? && call.bytes != [] ==> (After(capacity, q, call) == q <==> |call.bytes| > capacity - |q.held|)
    ensures call.Get? && call.size > 0 ==> (After(capacity, q, call) == q <==> call.size > |q.held|)
  {
  }

  function Calls(capacity: nat, calls: seq<Call>): Queue {
    if calls == [] then Queue([], [], [])
    else After(capacity, Calls(capacity, calls[..|calls| - 1]), calls[|calls| - 1])
  }

  /** First in, first out over any run: what came out followed by what is held is what
      went in, so the bytes in minus the bytes out are the size, which never exceeds
      the capacity. */
  lemma {:induction false} FirstInFirstOut(capacity: nat, calls: seq<Call>)
    ensures
      var q := Calls(capacity, calls);
      q.returned + q.held == q.accepted && |q.accepted| - |q.returned| == |q.held| <= capacity
  {
    if calls != [] {
      var q := Calls(capacity, calls[..|calls| - 1]);
      FirstInFirstOut(capacity, calls[..|calls| - 1]);
      match calls[|calls| - 1]
      case Put(bytes) => Assoc(q.returned, q.held, bytes);
      case Get(size) =>
        if size <= |q.held| {
          Assoc(q.returned, q.held[..size], q.held[size..]);
          assert q.held[..size] + q.held[size..] == q.held;
        }
    }
  }

  class CircularQueue {
    const data: array<Byte>
    var front: nat
    var rear: nat
    var numFreeBytes: nat

    ghost predicate Valid()
      reads this
    {
      && data.Length <= MAX_OBJECT
      && numFreeBytes <= data.Length
      && (front < data.Length || data.Length == front == 0)
      && rear == Slot(data.Length, front, data.Length - numFreeBytes)
    }

    /** The bytes held, oldest first. */
    ghost function Contents(): (s: seq<Byte>)
      requires Valid()
      reads this, data
      ensures |s| == Size()
    {
      Window(data[..], front, Size())
    }

    constructor (initSize: nat)
      requires initSize <= MAX_OBJECT
      ensures Valid() && fresh(data) && data.Length == initSize && Contents() == []
    {
      data := new Byte[initSize];
      front := 0;
      rear := 0;
      numFreeBytes := initSize;
    }

    function Size(): nat
      requires Valid()
      reads this
    {
      data.Length - numFreeBytes
    }

    predicate IsEmpty()
      requires Valid()
      reads this, data
      ensures IsEmpty() <==> Contents() == []
    {
      numFreeBytes == data.Length
    }

    predicate IsFull()
      requires Valid()
      reads this, data
      ensures IsFull() <==> |Contents()| == data.Length
    {
      numFreeBytes == 0
    }

    /** The invariant in the code's own modular terms. */
    lemma RearIsModular()
      requires Valid() && data.Length > 0
      ensures front < data.Length && rear < data.Length
      ensures rear == (front + Size()) % data.Length
      ensures front == rear <==> IsEmpty() || IsFull()
    {
      SlotIsModular(data.Length, front, Size());
    }

    method Enqueue(buf: seq<Byte>, size: nat) returns (ok: bool)
      requires Valid() && (size <= data.Length - Size() ==> size <= |buf|)
      modifies this, data
      ensures Valid()
      ensures ok <==> size <= data.Length - old(Size())
      ensures ok ==> Contents() == old(Contents()) + buf[..size]
      ensures !ok ==> Contents() == old(Contents()) && unchanged(this) && unchanged(data)
    {
      if numFreeBytes < size {
        return false;
      }
      ghost var d, f, n, s := data[..], front, Size(), Contents();
      var i := 0;
      while i < size
        invariant 0 <= i <= size <= |d| - n
        invariant data[..] == d && front == f
        invariant numFreeBytes == |d| - n - i && rear == Slot(|d|, f, n + i)
        invariant Window(d, f, n + i) == s + buf[..i]
      {
        EnqueueTurn(d, f, n, s, buf, i);
        data[rear] := buf[i];
        d := d[rear := buf[i]];
        rear := (rear + 1) % data.Length;
        numFreeBytes := numFreeBytes - 1;
        i := i + 1;
      }
      return true;
    }

    method Dequeue(buf: array<Byte>, size: nat) returns (ok: bool)
      requires Valid() && size <= buf.Length <= MAX_OBJECT && buf != data
      modifies this`front, this`numFreeBytes, buf
      ensures Valid()
      ensures ok <==> size <= old(Size())
      ensures ok ==> buf[..size] == old(Contents())[..size]
      ensures ok ==> forall j :: size <= j < buf.Length ==> buf[j] == old(buf[j])
      ensures ok ==> Contents() == old(Contents())[size..]
      ensures !ok ==> Contents() == old(Contents()) && unchanged(this) && unchanged(buf)
    {
      if SizeSum(numFreeBytes, size) > data.Length {
        return false;
      }
      ghost var d, f, n, s := data[..], front, Size(), Contents();
      var i := 0;
      while i < size
        invariant 0 <= i <= size <= n
        invariant data[..] == d && numFreeBytes == |d| - n && front == Slot(|d|, f, i)
        invariant forall j :: 0 <= j < i ==> buf[j] == s[j]
        invariant forall j :: size <= j < buf.Length ==> buf[j] == old(buf[j])
      {
        WindowAt(d, f, n, i);
        NextSlot(|d|, f, i);
        buf[i] := data[front];
        front := (front + 1) % data.Length;
        i := i + 1;
      }
      if data.Length > 0 {
        WindowDrop(d, f, n, size);
      }
      numFreeBytes := numFreeBytes + size;
      return true;
    }

    /** Reads bytes 2 and 3 after `front`, whether or not the ring holds that many. */
    function CurrentPacketSize(): (n: nat)
      requires Valid() && data.Length > 0
      reads this, data
      ensures n < 0x1_0000
      ensures Size() >= HEADER_SIZE ==> n == DeclaredLength(Contents())
      ensures Size() >= 4 ==> n == Big16(Contents(), 2)
    {
      assert Size() >= HEADER_SIZE ==>
        && data[(front + 2) % data.Length] == Contents()[2]
        && data[(front + 3) % data.Length] == Contents()[3]
      by {
        if Size() >= HEADER_SIZE {
          SlotIsModular(data.Length, front, 2);
          SlotIsModular(data.Length, front, 3);
          WindowAt(data[..], front, Size(), 2);
          WindowAt(data[..], front, Size(), 3);
        }
      }
      Word(data[(front + 2) % data.Length], data[(front + 3) % data.Length])
    }

    predicate HasCompletePacket()
      requires Valid()
      reads this, data
      ensures HasCompletePacket() <==> Complete(Contents())
    {
      Size() >= HEADER_SIZE && Size() >= HEADER_SIZE + CurrentPacketSize()
    }

    /** A fresh buffer of `size` bytes, filled by one dequeue. */
    method TakeBytes(size: nat) returns (bytes: seq<Byte>)
      requires Valid() && size <= Size()
      modifies this`front, this`numFreeBytes
      ensures Valid()
      ensures bytes == old(Contents())[..size] && Contents() == old(Contents())[size..]
    {
      var buf := new Byte[size];
      var ok := Dequeue(buf, size);
      assert ok;
      bytes := buf[..];
      assert bytes == buf[..size];
    }

    method DequeuePacket(isScr: bool) returns (packet: Packet)
      requires Valid()
      requires if isScr then Size() >= SCREEN_SIZE else Decodable(Contents())
      modifies this`front, this`numFreeBytes
      ensures Valid()
      ensures isScr ==>
        && packet == Screen(old(Contents())[..SCREEN_SIZE])
        && Contents() == old(Contents())[SCREEN_SIZE..]
      ensures !isScr ==>
        && packet == Decode(old(Contents()))
        && Contents() == old(Contents())[Consumed(old(Contents()))..]
    {
      ghost var s := Contents();
      var packetSize := CurrentPacketSize();
      if isScr {
        var record := TakeBytes(SCREEN_SIZE);
        return Screen(record);
      }
      var header := TakeBytes(HEADER_SIZE);
      var structSize := StructSize(header[1]).value;
      if header[1] == IP_TERM {
        packetSize := IP_TERM_SIZE + HEADER_SIZE;
      }
      var payload := TakeBytes(structSize);
      var vectorSize := packetSize - HEADER_SIZE - structSize;
      var tail := TakeBytes(vectorSize);
      packet := Record(PacketHeader(header[0], header[1], header[2], header[3]), payload, tail);
      DecodeInParts(s);
    }
  }

  lemma NextCall(capacity: nat, calls: seq<Call>, i: nat)
    requires i < |calls|
    ensures Calls(capacity, calls[..i + 1]) == After(capacity, Calls(capacity, calls[..i]), calls[i])
  {
    assert calls[..i + 1][..i] == calls[..i];
  }

  /** One call on the ring; what it returns is nothing where it is refused. */
  method MakeCall(ring: CircularQueue, call: Call, ghost q: Queue) returns (out: seq<Byte>)
    requires ring.Valid() && ring.Contents() == q.held
    modifies ring, ring.data
    ensures ring.Valid()
    ensures
      var q' := After(ring.data.Length, q, call);
      ring.Contents() == q'.held && q.returned + out == q'.returned
  {
    out := [];
    assert q.returned + out == q.returned;
    match call {
      case Put(bytes) =>
        var _ := ring.Enqueue(bytes, |bytes|);
        assert bytes[..|bytes|] == bytes;
      case Get(size) =>
        if size <= ring.Size() {
          out := ring.TakeBytes(size);
        } else {
          var buf := new Byte[size];
          var ok := ring.Dequeue(buf, size);
          assert !ok;
        }
    }
  }

  /** Any calls on an empty ring, wherever it stands: the ring holds what the run holds,
      the calls return what the run returns, and the bytes in minus the bytes out are the
      ring's size. */
  method MakeCalls(ring: CircularQueue, calls: seq<Call>) returns (out: seq<Byte>)
    requires ring.Valid() && ring.Contents() == []
    modifies ring, ring.data
    ensures ring.Valid()
    ensures
      var q := Calls(ring.data.Length, calls);
      && out == q.returned && ring.Contents() == q.held
      && out + ring.Contents() == q.accepted && ring.Size() == |q.accepted| - |out|
  {
    out := [];
    var i := 0;
    while i < |calls|
      invariant 0 <= i <= |calls| && ring.Valid()
      invariant
        var q := Calls(ring.data.Length, calls[..i]);
        out == q.returned && ring.Contents() == q.held
    {
      NextCall(ring.data.Length, calls, i);
      var more := MakeCall(ring, calls[i], Calls(ring.data.Length, calls[..i]));
      out := out + more;
      i := i + 1;
    }
    assert calls[..i] == calls;
    FirstInFirstOut(ring.data.Length, calls);
  }
}
