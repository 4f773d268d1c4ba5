/** The wire format of server/include/types.hpp: bytes, packet headers, the sizes of
    the fixed response structs, and the pure decoder that `dequeue_packet` computes. */
module Wire {

  datatype Option<+T> = None | Some(value: T)

  type Byte = x: int | 0 <= x < 0x100

  const HEADER_SIZE := 4
  const RECV_BUFFER_SIZE := 102400
  const SCREEN_SIZE := 96
  const IP_TERM_SIZE := 32

  // Descriptors the decoder's switch covers.
  const AUTH: Byte := 0x01
  const SYS_INFO: Byte := 0x02
  const CONF_INFO: Byte := 0x03
  const PROC_INFO: Byte := 0x04
  const TER_INFO: Byte := 0x09
  const IP_TERM: Byte := 0x0B
  const END: Byte := 0xFF

  /** The size of the response struct of a descriptor; None where the switch has no case. */
  function StructSize(descriptor: Byte): Option<nat> {
    match descriptor
    case 0x01 => Some(112)
    case 0x02 => Some(24)
    case 0x03 => Some(4)
    case 0x04 => Some(4)
    case 0x05 => Some(128)
    case 0x09 => Some(276)
    case 0x0B => Some(IP_TERM_SIZE)
    case 0xFF => Some(4)
    case _ => None
  }

  /** The descriptors the decoder knows. */
  lemma KnownIff(descriptor: Byte)
    ensures StructSize(descriptor).Some? <==> descriptor in {0x01, 0x02, 0x03, 0x04, 0x05, 0x09, 0x0B, 0xFF}
  {
  }

  /** The header as the decoder keeps it: the length stays in network order. */
  datatype PacketHeader = PacketHeader(direction: Byte, descriptor: Byte, sizeHigh: Byte, sizeLow: Byte)

  /** A decoded packet. A screen record carries no header of its own: the header
      variable is never filled on that path. */
  datatype Packet =
    | Record(header: PacketHeader, payload: seq<Byte>, tail: seq<Byte>)
    | Screen(payload: seq<Byte>)

  /** Two bytes in network order. */
  function Word(high: Byte, low: Byte): (n: nat)
    ensures n < 0x1_0000
  {
    var h: int, l: int := high, low;
    h * 0x100 + l
  }

  /** Numbers in network order, wherever they stand. */
  function Big16(s: seq<Byte>, at: nat): (n: nat)
    requires at + 2 <= |s|
    ensures n < 0x1_0000
  {
    var a: int, b: int := s[at], s[at + 1];
    a * 0x100 + b
  }

  function Big32(s: seq<Byte>, at: nat): (n: nat)
    requires at + 4 <= |s|
    ensures n < 0x1_0000_0000
  {
    Big16(s, at) * 0x1_0000 + Big16(s, at + 2)
  }

  lemma NetworkOrder()
    ensures Big16([0x12, 0x34], 0) == 0x1234 && Big32([0x12, 0x34, 0x56, 0x78], 0) == 0x1234_5678
  {
  }

  lemma HighBytes(x: int)
    ensures x / 0x1_0000 / 0x100 == x / 0x100_0000
  {
  }

  lemma LowBytes(x: int)
    ensures x % 0x1_0000 / 0x100 == x / 0x100 % 0x100 && x % 0x1_0000 % 0x100 == x % 0x100
  {
    var high, c, d := x / 0x1_0000, x % 0x1_0000 / 0x100, x % 0x100;
    assert x == high * 0x1_0000 + c * 0x100 + d;
  }

  /** Big-endian reading of the length field, as `ntohs` of bytes 2 and 3. */
  function DeclaredLength(s: seq<Byte>): (n: nat)
    requires |s| >= HEADER_SIZE
    ensures n < 0x1_0000
  {
    Word(s[2], s[3])
  }

  /** The test of `has_complete_packet`: the declared length counts as payload only. */
  predicate Complete(s: seq<Byte>) {
    |s| >= HEADER_SIZE && |s| >= HEADER_SIZE + DeclaredLength(s)
  }

  /** A header the decoder handles: a known descriptor, and a declared length that
      covers header and struct, so that the tail size does not wrap. */
  predicate HeadOk(s: seq<Byte>) {
    && |s| >= HEADER_SIZE
    && var size := StructSize(s[1]);
       size.Some? && DeclaredLength(s) >= HEADER_SIZE + size.value
  }

  lemma HeadOkIs(s: seq<Byte>)
    ensures HeadOk(s) <==>
      |s| >= 4 && StructSize(s[1]).Some? && Big16(s, 2) >= 4 + StructSize(s[1]).value
  {
  }

  /** The number of bytes one non-screen decoding removes. */
  function Consumed(s: seq<Byte>): (n: nat)
    requires HeadOk(s)
    ensures HEADER_SIZE + StructSize(s[1]).value <= n <= DeclaredLength(s)
  {
    if s[1] == IP_TERM then HEADER_SIZE + IP_TERM_SIZE else DeclaredLength(s)
  }

  predicate Decodable(s: seq<Byte>) {
    HeadOk(s) && |s| >= Consumed(s)
  }

  /** Header, struct and tail of the packet at the front of `s`. */
  function Decode(s: seq<Byte>): Packet
    requires Decodable(s)
  {
    var body := HEADER_SIZE + StructSize(s[1]).value;
    Record(PacketHeader(s[0], s[1], s[2], s[3]), s[HEADER_SIZE..body], s[body..Consumed(s)])
  }

  /** A packet outright: four header bytes, the struct of the descriptor's size, and what
      the declared length leaves, which for a terminal record is taken to be 36. */
  lemma DecodeIs(s: seq<Byte>)
    requires Decodable(s)
    ensures
      var size := StructSize(s[1]).value;
      var end := if s[1] == 0x0B then 36 else Big16(s, 2);
      && 4 + size <= end <= |s| && Consumed(s) == end
      && Decode(s) == Record(PacketHeader(s[0], s[1], s[2], s[3]), s[4..4 + size], s[4 + size..end])
  {
  }

  function HeaderBytes(h: PacketHeader): seq<Byte> {
    [h.direction, h.descriptor, h.sizeHigh, h.sizeLow]
  }

  /** The bytes a packet was made of. */
  function PacketBytes(p: Packet): seq<Byte> {
    match p
    case Record(h, payload, tail) => HeaderBytes(h) + payload + tail
    case Screen(payload) => payload
  }

  function Bytes(ps: seq<Packet>): seq<Byte> {
    if ps == [] then [] else PacketBytes(ps[0]) + Bytes(ps[1..])
  }

  lemma Assoc<T>(a: seq<T>, b: seq<T>, c: seq<T>)
    ensures a + b + c == a + (b + c)
  {
  }

  lemma {:induction false} BytesAppend(ps: seq<Packet>, qs: seq<Packet>)
    ensures Bytes(ps + qs) == Bytes(ps) + Bytes(qs)
  {
    if ps == [] {
      assert ps + qs == qs;
    } else {
      var first, rest := PacketBytes(ps[0]), Bytes(ps[1..]);
      assert (ps + qs)[0] == ps[0] && (ps + qs)[1..] == ps[1..] + qs;
      BytesAppend(ps[1..], qs);
      Assoc(first, rest, Bytes(qs));
    }
  }

  /** Decoding loses nothing: the packet's bytes are exactly the bytes consumed. */
  lemma DecodeKeepsBytes(s: seq<Byte>)
    requires Decodable(s)
    ensures PacketBytes(Decode(s)) == s[..Consumed(s)]
  {
    assert HeaderBytes(Decode(s).header) == s[..HEADER_SIZE];
  }

  /** `has_complete_packet` is sound for the decoder, and asks for four bytes more than
      the decoder takes from any packet that is not a terminal record. */
  lemma CompletenessIsSound(s: seq<Byte>)
    requires HeadOk(s)
    ensures Complete(s) ==> Decodable(s) && |s| >= DeclaredLength(s) + HEADER_SIZE
    ensures s[1] != IP_TERM ==> (Complete(s) <==> |s| >= Consumed(s) + HEADER_SIZE)
    ensures s[1] == IP_TERM ==> (Decodable(s) <==> |s| >= 36)
  {
  }
}
