/** The keystream of client/shared_library.cpp: XOR with a rotating key table, and the
    trailer check that is interleaved with decryption. */
module Auth {
  import opened Wire

  // The rotation uses the first 4093 entries of a table of 4096.
  const PERIOD := 4093
  const KEY_SIZE := 4096
  const TRAILER_SIZE := 32

  /** The fixed string "yzmond:id*str&to!tongji@by#Auth^". The results below hold for any
      trailer of its length. */
  const AUTH_STRING: seq<Byte> := [
    0x79, 0x7A, 0x6D, 0x6F, 0x6E, 0x64, 0x3A, 0x69, 0x64, 0x2A, 0x73, 0x74, 0x72, 0x26, 0x74, 0x6F,
    0x21, 0x74, 0x6F, 0x6E, 0x67, 0x6A, 0x69, 0x40, 0x62, 0x79, 0x23, 0x41, 0x75, 0x74, 0x68, 0x5E]

  lemma AuthStringSpeltOut()
    ensures forall i :: 0 <= i < 32 ==> AUTH_STRING[i] == "yzmond:id*str&to!tongji@by#Auth^"[i] as int
  {
  }

  function Pow2(n: nat): (r: nat)
    ensures r > 0
  {
    if n == 0 then 1 else 2 * Pow2(n - 1)
  }

  /** Exclusive or of the lowest `n` bits of two numbers. */
  function XorBits(a: nat, b: nat, n: nat): (r: nat)
    ensures r < Pow2(n)
  {
    if n == 0 then 0
    else (if a % 2 == b % 2 then 0 else 1) + 2 * XorBits(a / 2, b / 2, n - 1)
  }

  lemma BitSplit(bit: nat, more: nat)
    requires bit < 2
    ensures (bit + 2 * more) % 2 == bit && (bit + 2 * more) / 2 == more
  {
  }

  lemma {:induction false} XorBitsTwice(a: nat, b: nat, n: nat)
    requires a < Pow2(n)
    ensures XorBits(XorBits(a, b, n), b, n) == a
  {
    if n > 0 {
      var bit := if a % 2 == b % 2 then 0 else 1;
      var more := XorBits(a / 2, b / 2, n - 1);
      XorBitsTwice(a / 2, b / 2, n - 1);
      BitSplit(bit, more);
    }
  }

  function Xor(a: Byte, b: Byte): Byte {
    assert Pow2(8) == 0x100;
    XorBits(a, b, 8)
  }

  lemma XorTwice(a: Byte, k: Byte)
    ensures Xor(Xor(a, k), k) == a
  {
    assert Pow2(8) == 0x100;
    XorBitsTwice(a, k, 8);
  }

  /** Bit `i` of a number, the least significant one being bit 0. */
  function Bit(x: nat, i: nat): nat {
    x / Pow2(i) % 2
  }

  lemma HalfBit(x: nat, i: nat)
    requires i < 7
    ensures Bit(x, i + 1) == Bit(x / 2, i)
  {
    Powers(i);
    Halves(x, i);
  }

  lemma Powers(i: nat)
    requires i < 7
    ensures Pow2(i) == [1, 2, 4, 8, 16, 32, 64][i] && Pow2(i + 1) == 2 * Pow2(i)
  {
    assert Pow2(0) == 1 && Pow2(1) == 2 && Pow2(2) == 4 && Pow2(3) == 8 && Pow2(4) == 16 && Pow2(5) == 32;
  }

  lemma Halves(x: nat, i: nat)
    requires i < 7
    ensures
      var p := [1, 2, 4, 8, 16, 32, 64][i];
      x / (2 * p) == x / 2 / p
  {
    if i == 0 {
    } else if i == 1 {
      assert x / 4 == x / 2 / 2;
    } else if i == 2 {
      assert x / 8 == x / 2 / 4;
    } else if i == 3 {
      assert x / 16 == x / 2 / 8;
    } else if i == 4 {
      assert x / 32 == x / 2 / 16;
    } else if i == 5 {
      assert x / 64 == x / 2 / 32;
    } else {
      assert x / 128 == x / 2 / 64;
    }
  }

  /** The lowest bit of an exclusive or, and the exclusive or of the others. */
  lemma XorParts(a: nat, b: nat, n: nat)
    requires n > 0
    ensures XorBits(a, b, n) % 2 == (a % 2 + b % 2) % 2
    ensures XorBits(a, b, n) / 2 == XorBits(a / 2, b / 2, n - 1)
  {
    BitSplit(if a % 2 == b % 2 then 0 else 1, XorBits(a / 2, b / 2, n - 1));
  }

  lemma {:induction false} XorBitsAt(a: nat, b: nat, n: nat, i: nat)
    requires i < n <= 8
    ensures Bit(XorBits(a, b, n), i) == (Bit(a, i) + Bit(b, i)) % 2
  {
    XorParts(a, b, n);
    if i > 0 {
      XorBitsAt(a / 2, b / 2, n - 1, i - 1);
      HigherBit(a, b, XorBits(a, b, n), i - 1);
    } else {
      LowBit(XorBits(a, b, n));
      LowBit(a);
      LowBit(b);
    }
  }

  lemma HigherBit(a: nat, b: nat, x: nat, i: nat)
    requires i < 7 && Bit(x / 2, i) == (Bit(a / 2, i) + Bit(b / 2, i)) % 2
    ensures Bit(x, i + 1) == (Bit(a, i + 1) + Bit(b, i + 1)) % 2
  {
    HalfBit(x, i);
    HalfBit(a, i);
    HalfBit(b, i);
  }

  lemma LowBit(x: nat)
    ensures Bit(x, 0) == x % 2
  {
    assert Pow2(0) == 1;
  }

  /** Bit by bit, the sum modulo two. */
  lemma XorAt(a: Byte, b: Byte, i: nat)
    requires i < 8
    ensures Bit(Xor(a, b), i) == (Bit(a, i) + Bit(b, i)) % 2
  {
    XorBitsAt(a, b, 8, i);
  }

  /** Every bit of the result is that of the byte plus that of the key byte whose index
      rotates with period 4093. */
  ghost predicate XoredWithKey(key: seq<Byte>, random: nat, s: seq<Byte>, t: seq<Byte>)
    requires |key| == 4096
  {
    && |t| == |s|
    && forall i, j :: 0 <= i < |s| && 0 <= j < 8 ==> Bit(t[i], j) == (Bit(s[i], j) + Bit(key[(random + i) % 4093], j)) % 2
  }

  lemma KeyedBits(key: seq<Byte>, random: nat, s: seq<Byte>)
    requires |key| == KEY_SIZE
    ensures XoredWithKey(key, random, s, Keyed(key, random, s))
  {
    forall i, j | 0 <= i < |s| && 0 <= j < 8
      ensures Bit(Keyed(key, random, s)[i], j) == (Bit(s[i], j) + Bit(key[(random + i) % 4093], j)) % 2
    {
      XorAt(s[i], key[(random + i) % 4093], j);
    }
  }

  /** The key byte for position `i`. */
  function KeyAt(key: seq<Byte>, random: nat, i: nat): Byte
    requires |key| == KEY_SIZE
  {
    key[(random + i) % PERIOD]
  }

  /** Every byte XORed with its key byte: the effect of both directions. */
  function Keyed(key: seq<Byte>, random: nat, s: seq<Byte>): (r: seq<Byte>)
    requires |key| == KEY_SIZE
    ensures |r| == |s|
  {
    seq(|s|, i requires 0 <= i < |s| => Xor(s[i], KeyAt(key, random, i)))
  }

  lemma KeyedTwice(key: seq<Byte>, random: nat, s: seq<Byte>)
    requires |key| == KEY_SIZE
    ensures Keyed(key, random, Keyed(key, random, s)) == s
  {
    forall i | 0 <= i < |s|
      ensures Keyed(key, random, Keyed(key, random, s))[i] == s[i]
    {
      XorTwice(s[i], KeyAt(key, random, i));
    }
  }

  // ----- The trailer check

  type Trailer = s: seq<Byte> | |s| == TRAILER_SIZE witness AUTH_STRING

  /** The position from which `decrypt_auth` compares: one past length - 32, so the first
      of the 32 trailer bytes is never looked at. */
  function CompareFrom(length: nat): (i: nat)
    ensures length >= TRAILER_SIZE ==> i == length - 31
    ensures length < TRAILER_SIZE ==> i == 0
  {
    if length - TRAILER_SIZE + 1 < 0 then 0 else length - TRAILER_SIZE + 1
  }

  /** The condition under which the loop gives up at position `i`. */
  predicate WrongAt(trailer: Trailer, b: Byte, i: nat, length: nat)
    requires i < length
  {
    i > length - TRAILER_SIZE && b != trailer[i - length + TRAILER_SIZE]
  }

  predicate Mismatch(trailer: Trailer, plain: seq<Byte>, i: nat)
    requires i < |plain|
  {
    WrongAt(trailer, plain[i], i, |plain|)
  }

  /** The trailer check passes: the last min(31, length) bytes are those of the fixed string. */
  predicate TrailerMatches(trailer: Trailer, plain: seq<Byte>) {
    var n := |plain| - CompareFrom(|plain|);
    plain[CompareFrom(|plain|)..] == trailer[TRAILER_SIZE - n..]
  }

  lemma TrailerMatchesIffNoMismatch(trailer: Trailer, plain: seq<Byte>)
    ensures TrailerMatches(trailer, plain) <==> forall i :: 0 <= i < |plain| ==> !Mismatch(trailer, plain, i)
  {
    var from := CompareFrom(|plain|);
    var got, want := plain[from..], trailer[TRAILER_SIZE - (|plain| - from)..];
    forall i | from <= i < |plain|
      ensures Mismatch(trailer, plain, i) <==> got[i - from] != want[i - from]
    {
    }
    if forall i :: 0 <= i < |plain| ==> !Mismatch(trailer, plain, i) {
      forall j | 0 <= j < |got|
        ensures got[j] == want[j]
      {
        assert !Mismatch(trailer, plain, from + j);
      }
    }
  }

  /** What the check accepts, against the whole fixed string: it differs exactly when the
      buffer's byte at length - 32 is the only one that is wrong. */
  lemma AcceptedButNotSigned(trailer: Trailer, plain: seq<Byte>)
    requires |plain| >= TRAILER_SIZE
    ensures
      var at := |plain| - TRAILER_SIZE;
      (plain[at..] == trailer) <==> (TrailerMatches(trailer, plain) && plain[at] == trailer[0])
  {
    var at := |plain| - TRAILER_SIZE;
    assert plain[at..] == [plain[at]] + plain[at + 1..];
    assert trailer == [trailer[0]] + trailer[1..];
    assert CompareFrom(|plain|) == at + 1;
  }

  /** A buffer that is accepted although it does not end with the fixed string. */
  lemma AcceptsWrongFirstByte() returns (plain: seq<Byte>)
    ensures plain == AUTH_STRING[0 := 0x58] && plain != AUTH_STRING && TrailerMatches(AUTH_STRING, plain)
  {
    plain := AUTH_STRING[0 := 0x58];
    assert plain[1..] == AUTH_STRING[1..];
    assert plain[0] != AUTH_STRING[0];
  }

  /** The first `n` bytes of one sequence and the rest of another of the same length. */
  function Partly(done: seq<Byte>, todo: seq<Byte>, n: nat): (s: seq<Byte>)
    requires |done| == |todo|
    ensures |s| == |done|
  {
    seq(|done|, i requires 0 <= i < |done| => if i < n then done[i] else todo[i])
  }

  lemma PartlyTurn(done: seq<Byte>, todo: seq<Byte>, n: nat)
    requires n < |done| == |todo|
    ensures Partly(done, todo, n)[n] == todo[n]
    ensures Partly(done, todo, n)[n := done[n]] == Partly(done, todo, n + 1)
  {
  }

  lemma PartlyEnds(done: seq<Byte>, todo: seq<Byte>)
    requires |done| == |todo|
    ensures Partly(done, todo, 0) == todo && Partly(done, todo, |done|) == done
  {
  }

  /** What a rejection at `stop` leaves: that byte is the first of those compared that is
      wrong, the bytes up to it are decrypted, and the others are as they came. */
  ghost predicate Rejected(trailer: Trailer, plain: seq<Byte>, cipher: seq<Byte>, left: seq<Byte>, stop: nat) {
    && stop < |plain| == |cipher| == |left|
    && stop > |plain| - 32 && plain[stop] != trailer[stop - |plain| + 32]
    && (forall i :: 0 <= i < stop && i > |plain| - 32 ==> plain[i] == trailer[i - |plain| + 32])
    && left[..stop + 1] == plain[..stop + 1] && left[stop + 1..] == cipher[stop + 1..]
  }

  lemma RejectionState(trailer: Trailer, plain: seq<Byte>, cipher: seq<Byte>, stop: nat)
    requires stop < |plain| == |cipher| && Mismatch(trailer, plain, stop)
    requires forall i :: 0 <= i < stop ==> !Mismatch(trailer, plain, i)
    ensures Rejected(trailer, plain, cipher, Partly(plain, cipher, stop + 1), stop)
  {
    var left := Partly(plain, cipher, stop + 1);
    forall i | 0 <= i < stop && i > |plain| - 32
      ensures plain[i] == trailer[i - |plain| + 32]
    {
      assert !Mismatch(trailer, plain, i);
    }
    assert left[..stop + 1] == plain[..stop + 1] && left[stop + 1..] == cipher[stop + 1..];
  }

  /** A buffer shorter than the fixed string is accepted exactly when it is an end of it. */
  lemma ShortBuffer(trailer: Trailer, plain: seq<Byte>)
    requires |plain| < 32
    ensures TrailerMatches(trailer, plain) <==> plain == trailer[32 - |plain|..]
  {
    assert plain[0..] == plain;
  }

  /** A longer one exactly when its last 31 bytes are those of the fixed string. */
  lemma LongBuffer(trailer: Trailer, plain: seq<Byte>)
    requires |plain| >= 32
    ensures TrailerMatches(trailer, plain) <==> plain[|plain| - 31..] == trailer[1..]
  {
  }

  /** One turn of either loop: the byte written and the key position that follows. */
  lemma KeyTurn(key: seq<Byte>, random: nat, s: seq<Byte>, i: nat)
    requires |key| == KEY_SIZE && i < |s|
    ensures
      var pos := (random + i) % PERIOD;
      && Keyed(key, random, s)[i] == Xor(s[i], key[pos])
      && (pos + 1) % PERIOD == (random + (i + 1)) % PERIOD
  {
  }

  /** The loop of `encrypt_auth`; the random number is drawn by the caller. */
  method EncryptAuth(key: seq<Byte>, random: nat, auth: array<Byte>)
    requires |key| == KEY_SIZE
    modifies auth
    ensures auth[..] == Keyed(key, random, old(auth[..]))
    ensures XoredWithKey(key, random, old(auth[..]), auth[..])
  {
    KeyedBits(key, random, auth[..]);
    ghost var plain := auth[..];
    ghost var cipher := Keyed(key, random, plain);
    PartlyEnds(cipher, plain);
    var pos := random % PERIOD;
    var i := 0;
    while i < auth.Length
      invariant 0 <= i <= auth.Length
      invariant 0 <= pos < PERIOD && pos == (random + i) % PERIOD
      invariant auth[..] == Partly(cipher, plain, i)
    {
      KeyTurn(key, random, plain, i);
      PartlyTurn(cipher, plain, i);
      auth[i] := Xor(auth[i], key[pos]);
      pos := (pos + 1) % PERIOD;
      i := i + 1;
    }
  }

  /** Decrypts up to and including the first wrong trailer byte, and then gives up with
      the rest of the buffer still encrypted. */
  method DecryptAuth(trailer: Trailer, key: seq<Byte>, random: nat, auth: array<Byte>) returns (ok: bool, ghost stop: nat)
    requires |key| == KEY_SIZE
    modifies auth
    ensures
      var cipher := old(auth[..]);
      var plain := Keyed(key, random, cipher);
      && (ok <==> TrailerMatches(trailer, plain))
      && (ok ==> auth[..] == plain)
      && (!ok ==>
        && stop < |plain| && Mismatch(trailer, plain, stop)
        && (forall i :: 0 <= i < stop ==> !Mismatch(trailer, plain, i))
        && auth[..] == Partly(plain, cipher, stop + 1) && Rejected(trailer, plain, cipher, auth[..], stop))
      && XoredWithKey(key, random, cipher, plain)
  {
    ghost var cipher := auth[..];
    ghost var plain := Keyed(key, random, cipher);
    KeyedBits(key, random, cipher);
    TrailerMatchesIffNoMismatch(trailer, plain);
    PartlyEnds(plain, cipher);
    var pos := random % PERIOD;
    var i := 0;
    while i < auth.Length
      invariant 0 <= i <= auth.Length
      invariant 0 <= pos < PERIOD && pos == (random + i) % PERIOD
      invariant forall j :: 0 <= j < i ==> !Mismatch(trailer, plain, j)
      invariant auth[..] == Partly(plain, cipher, i)
    {
      KeyTurn(key, random, cipher, i);
      PartlyTurn(plain, cipher, i);
      auth[i] := Xor(auth[i], key[pos]);
      if WrongAt(trailer, auth[i], i, auth.Length) {
        RejectionState(trailer, plain, cipher, i);
        return false, i;
      }
      pos := (pos + 1) % PERIOD;
      i := i + 1;
    }
    return true, auth.Length;
  }

  /** Encrypting and decrypting with the same random number restores the buffer, and is
      accepted when the plaintext ends with the fixed string. */
  method RoundTrip(trailer: Trailer, key: seq<Byte>, random: nat, auth: array<Byte>) returns (ok: bool)
    requires |key| == KEY_SIZE
    modifies auth
    ensures ok <==> TrailerMatches(trailer, old(auth[..]))
    ensures ok ==> auth[..] == old(auth[..])
    ensures auth.Length >= TRAILER_SIZE && old(auth[auth.Length - TRAILER_SIZE..]) == trailer ==> ok
  {
    ghost var plain := auth[..];
    KeyedTwice(key, random, plain);
    if |plain| >= TRAILER_SIZE {
      AcceptedButNotSigned(trailer, plain);
    }
    EncryptAuth(key, random, auth);
    ghost var stop;
    ok, stop := DecryptAuth(trailer, key, random, auth);
  }
}
