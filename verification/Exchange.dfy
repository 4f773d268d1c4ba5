/** Client and server together: reports are packed, sent through the receive buffer, and
    read back. */
module Exchange {
  import opened Wire
  import opened Fields
  import opened Stream
  import opened Reports
  import opened Encoder
  import opened Receiver
  import Auth
  import Layout

  function Messages(key: seq<Byte>, rs: seq<Report>): (ms: seq<seq<Byte>>)
    requires |key| == Auth.KEY_SIZE && forall r <- rs :: Sized(r)
    ensures |ms| == |rs|
  {
    seq(|rs|, i requires 0 <= i < |rs| => Encode(key, rs[i]))
  }

  lemma MessagesAreWhole(key: seq<Byte>, rs: seq<Report>)
    requires |key| == Auth.KEY_SIZE && forall r <- rs :: Sized(r)
    ensures forall m <- Messages(key, rs) :: WholeMessage(m)
  {
    forall i | 0 <= i < |rs|
      ensures WholeMessage(Messages(key, rs)[i])
    {
      EncodeIsWhole(key, rs[i]);
    }
  }

  /** One report, sent into an empty buffer whose ring stands anywhere: the message is
      taken whole and reads back as what was sent. */
  method SendOne(rx: Receiver, key: seq<Byte>, r: Report) returns (got: Option<Report>)
    requires rx.Valid() && rx.Held() == []
    requires |key| == Auth.KEY_SIZE && Sized(r) && rx.ring.data.Length >= MessageLength(r)
    modifies rx, rx.ring, rx.ring.data
    ensures rx.Valid() && rx.Held() == []
    ensures got == Some(Sent(r))
  {
    var message := PackMessage(key, r);
    Arrives(key, r, message);
    var ok := rx.Accept(message);
    assert ok && rx.Held() == message;
    got := TakeReport(rx, key);
  }

  /** The message at the front of the buffer, taken and read. */
  method TakeReport(rx: Receiver, key: seq<Byte>) returns (got: Option<Report>)
    requires rx.Valid() && Ready(rx.Held(), 0) && |key| == Auth.KEY_SIZE
    modifies rx, rx.ring
    ensures rx.Valid()
    ensures
      var s := old(rx.Held());
      got == Unpack(key, MessagePackets(Front(s))) && rx.Held() == s[DeclaredLength(s)..]
  {
    ghost var packets := MessagePackets(Front(rx.Held()));
    var before := rx.emitted;
    rx.TakeMessage();
    TakeDrop(before, packets);
    got := Unpack(key, rx.emitted[|before|..]);
  }

  /** A report's message is taken whole by itself, and its packets give the report. */
  lemma Arrives(key: seq<Byte>, r: Report, m: seq<Byte>)
    requires |key| == Auth.KEY_SIZE && Sized(r) && m == Encode(key, r)
    ensures WholeMessage(m) && |m| == MessageLength(r)
    ensures Ready(m, 0) && Front(m) == m && m[DeclaredLength(m)..] == [] && [] + m == m
    ensures Unpack(key, MessagePackets(m)) == Some(Sent(r))
  {
    EncodeIsWhole(key, r);
    RoundTrip(key, r);
    MessageAlone(m);
  }

  lemma MessageAlone(m: seq<Byte>)
    requires WholeMessage(m)
    ensures Ready(m, 0) && Front(m) == m && m[DeclaredLength(m)..] == [] && [] + m == m
  {
  }

  /** Any reports in a row, cut into any chunks: all but the last are handed on, each as
      the packets of its own message, and the last one waits in the buffer. */
  method SendAll(rx: Receiver, key: seq<Byte>, rs: seq<Report>)
    requires rx.Valid() && rx.Held() == [] && rx.ring.data.Length > 65538
    requires |key| == Auth.KEY_SIZE && rs != [] && forall r <- rs :: Sized(r)
    modifies rx, rx.ring, rx.ring.data
    ensures rx.Valid()
    ensures forall m <- Messages(key, rs) :: WholeMessage(m)
    ensures
      var ms := Messages(key, rs);
      && rx.emitted == old(rx.emitted) + PacketsOf(ms[..|ms| - 1])
      && rx.Held() == ms[|ms| - 1]
  {
    var stream := PackAll(key, rs);
    MessagesAreWhole(key, rs);
    MessagesAreClean(Messages(key, rs));
    HeldBack(Messages(key, rs));
    assert rx.Held() + stream == stream;
    rx.Deliver(stream);
  }

  method PackAll(key: seq<Byte>, rs: seq<Report>) returns (stream: seq<Byte>)
    requires |key| == Auth.KEY_SIZE && forall r <- rs :: Sized(r)
    ensures stream == Concat(Messages(key, rs))
  {
    ghost var ms := Messages(key, rs);
    stream := [];
    var i := 0;
    while i < |rs|
      invariant 0 <= i <= |rs|
      invariant stream == Concat(ms[..i])
    {
      var message := PackMessage(key, rs[i]);
      ConcatNext(ms, i);
      stream := stream + message;
      i := i + 1;
    }
    assert ms[..i] == ms;
  }

  /** The server's side of authentication: the record is decrypted in place with the
      random number that follows it, and read only when the trailer check passes. */
  method Authenticate(key: seq<Byte>, payload: seq<Byte>) returns (got: Option<Report>)
    requires |key| == Auth.KEY_SIZE && |payload| == StructSize(AUTH).value
    ensures
      Size(AUTH_SHAPE) == |payload| && Shapes(Get(AUTH_SHAPE, payload)) == AUTH_SHAPE
      && got == ReadAuth(key, Get(AUTH_SHAPE, payload))
    ensures
      var random := Big32(payload, 108);
      var plain := Auth.Keyed(key, random, payload[4..108]);
      && Auth.XoredWithKey(key, random, payload[4..108], plain)
      && got == if plain[73..] == Auth.AUTH_STRING[1..] then Some(AuthReport(ReadDevice(plain), random)) else None
  {
    Layout.AuthPlaces(payload) by { StructSizes(); }
    Layout.AcceptedIff(key, payload, Big32(payload, 108));
    StructSizes();
    GetShapes(AUTH_SHAPE, payload);
    var f := Get(AUTH_SHAPE, payload);
    got := ReadInPlace(key, f);
  }

  method ReadInPlace(key: seq<Byte>, f: seq<Field>) returns (got: Option<Report>)
    requires |key| == Auth.KEY_SIZE && Shapes(f) == AUTH_SHAPE
    ensures got == ReadAuth(key, f)
  {
    FieldShapes(f);
    var secret, random := f[2].bytes, f[3].long;
    var buffer := new Byte[104];
    CopyInto(buffer, 0, secret);
    assert buffer[..] == secret by {
      assert buffer[..104] == buffer[..];
    }
    var ok, stop := Auth.DecryptAuth(Auth.AUTH_STRING, key, random, buffer);
    if ok {
      got := Some(AuthReport(ReadDevice(buffer[..]), random));
    } else {
      got := None;
    }
  }
}
