/** The writing half of the protocol (client/client_communicate.cpp and its draft in
    test/test_server.cpp): a message grows byte by byte. */
module Encoder {
  import opened Wire
  import opened Fields
  import opened Reports
  import Auth

  class MessageBuilder {
    var message: seq<Byte>
    // The fields written so far.
    ghost var fields: seq<Field>

    ghost predicate Valid()
      reads this
    {
      message == Put(fields)
    }

    constructor ()
      ensures Valid() && fields == []
    {
      message := [];
      fields := [];
    }

    method PushBack(b: Byte)
      requires Valid()
      modifies this
      ensures Valid() && fields == old(fields) + [U8(b)]
      ensures message == old(message) + [b]
    {
      PutSnoc(fields, U8(b));
      message := message + [b];
      fields := fields + [U8(b)];
    }

    method PushBackArray(bytes: seq<Byte>, length: nat)
      requires Valid() && length <= |bytes|
      modifies this
      ensures Valid() && fields == old(fields) + [Arr(bytes[..length])]
      ensures length == |bytes| ==> fields == old(fields) + [Arr(bytes)]
      ensures message == old(message) + bytes[..length]
    {
      ghost var start := message;
      var i := 0;
      while i < length
        invariant 0 <= i <= length
        invariant message == start + bytes[..i] && fields == old(fields)
      {
        Assoc(start, bytes[..i], [bytes[i]]);
        assert bytes[..i + 1] == bytes[..i] + [bytes[i]];
        message := message + [bytes[i]];
        i := i + 1;
      }
      PutSnoc(fields, Arr(bytes[..length]));
      assert length == |bytes| ==> bytes[..length] == bytes;
      fields := fields + [Arr(bytes[..length])];
    }

    method PushBackUint16(data: Short)
      requires Valid()
      modifies this
      ensures Valid() && fields == old(fields) + [U16(data)]
      ensures message == old(message) + [data / 0x100, data % 0x100]
    {
      PutSnoc(fields, U16(data));
      Assoc(message, [data / 0x100], [data % 0x100]);
      message := message + [data / 0x100];
      message := message + [data % 0x100];
      fields := fields + [U16(data)];
    }

    method PushBackUint32(data: Long)
      requires Valid()
      modifies this
      ensures Valid() && fields == old(fields) + [U32(data)]
      ensures message ==
        old(message) + [data / 0x100_0000, data / 0x1_0000 % 0x100, data / 0x100 % 0x100, data % 0x100]
    {
      PutSnoc(fields, U32(data));
      ghost var start := message;
      message := message + [data / 0x100_0000];
      message := message + [data / 0x1_0000 % 0x100];
      message := message + [data / 0x100 % 0x100];
      message := message + [data % 0x100];
      LongDigits(data);
      Four(start, data / 0x100_0000, data / 0x1_0000 % 0x100, data / 0x100 % 0x100, data % 0x100);
      fields := fields + [U32(data)];
    }

    /** The cast to a byte binds before the shift. */
    method PushBackAddress(ip: Long)
      requires Valid()
      modifies this
      ensures Valid() && fields == old(fields) + [U32(SentIp(ip))]
      ensures message == old(message) + [0, 0, 0, ip % 0x100]
    {
      PutSnoc(fields, U32(SentIp(ip)));
      ghost var start := message;
      message := message + [ip % 0x100 / 0x100_0000];
      message := message + [ip % 0x100 / 0x1_0000];
      message := message + [ip % 0x100 / 0x100];
      message := message + [ip % 0x100];
      LongDigits(SentIp(ip));
      Four(start, 0, 0, 0, ip % 0x100);
      fields := fields + [U32(SentIp(ip))];
    }

    method PushBackScreenInfo(sc: ScreenInfo)
      requires Valid() && ScreenSized(sc)
      modifies this
      ensures Valid() && fields == old(fields) + ScreenFields(sc)
    {
      ghost var start := fields;
      PushBackScreenNames(sc);
      PushBackScreenCounts(sc);
      Assoc(start, ScreenNames(sc), ScreenCounts(sc));
    }

    method PushBackScreenNames(sc: ScreenInfo)
      requires Valid() && ScreenSized(sc)
      modifies this
      ensures Valid() && fields == old(fields) + ScreenNames(sc)
    {
      Eight(fields, U8(sc.screenNo), U8(0), U16(sc.port), U32(SentIp(sc.ip)),
            Arr(sc.proto), Arr(sc.state), Arr(sc.prompt), Arr(sc.ttyType));
      PushBack(sc.screenNo);
      PushBack(0);
      PushBackUint16(sc.port);
      PushBackAddress(sc.ip);
      PushBackArray(sc.proto, 12);
      PushBackArray(sc.state, 8);
      PushBackArray(sc.prompt, 24);
      PushBackArray(sc.ttyType, 12);
    }

    /** A run of zero bytes, pushed one at a time. */
    method PushBackZeros(n: nat)
      requires Valid()
      modifies this
      ensures Valid() && fields == old(fields) + [Arr(Zeros(n))]
      ensures |message| == |old(message)| + n && old(message) <= message
      ensures forall i :: |old(message)| <= i < |message| ==> message[i] == 0
    {
      ghost var start := message;
      var i := 0;
      while i < n
        invariant 0 <= i <= n
        invariant message == start + Zeros(i) && fields == old(fields)
      {
        assert Zeros(i) + [0] == Zeros(i + 1);
        Assoc(start, Zeros(i), [0]);
        message := message + [0];
        i := i + 1;
      }
      PutSnoc(fields, Arr(Zeros(n)));
      fields := fields + [Arr(Zeros(n))];
    }

    method PushBackDevice(d: Device)
      requires Valid() && DeviceSized(d)
      modifies this
      ensures Valid() && fields == old(fields) + DeviceFields(d)
    {
      ghost var start := fields;
      PushBackUint16(d.cpu);
      PushBackUint16(d.ram);
      PushBackUint16(d.flash);
      PushBackUint16(d.innerId);
      assert fields == start + DeviceNumbers(d);
      PushBackDeviceNames(d);
      Assoc(start, DeviceNumbers(d), DeviceNames(d));
    }

    method PushBackDeviceNames(d: Device)
      requires Valid() && DeviceSized(d)
      modifies this
      ensures Valid() && fields == old(fields) + DeviceNames(d)
    {
      Seven(fields, Arr(d.groupSerial), Arr(d.deviceType), Arr(d.version), Arr(Zeros(8)),
            U32(d.instId), U8(d.instInnId), Arr(Zeros(3)));
      PushBackArray(d.groupSerial, 16);
      PushBackArray(d.deviceType, 16);
      PushBackArray(d.version, 16);
      PushBackZeros(8);
      PushBackUint32(d.instId);
      PushBack(d.instInnId);
      PushBackZeros(3);
    }

    /** Encrypts the bytes from position 8 on together with the fixed string, in a buffer
        of their own, and puts the result in their place. */
    method Encrypt(key: seq<Byte>, random: Long, ghost prefix: seq<Field>, ghost plain: seq<Byte>)
      requires |key| == Auth.KEY_SIZE && |plain| == DEVICE_SIZE
      requires |Put(prefix)| == 8 && message == Put(prefix) + plain
      modifies this
      ensures Valid() && fields == prefix + [Arr(Auth.Keyed(key, random, plain + Auth.AUTH_STRING))]
    {
      ghost var head := Put(prefix);
      TakeDrop(head, plain);
      var secret := new Byte[104];
      CopyInto(secret, 0, message[8..]);
      CopyInto(secret, 72, Auth.AUTH_STRING);
      Halves(secret[..], plain, Auth.AUTH_STRING);
      Auth.EncryptAuth(key, random, secret);
      PutBack(secret, head, plain);
      PutSnoc(prefix, Arr(secret[..]));
      fields := prefix + [Arr(secret[..])];
    }

    method PackAuth(key: seq<Byte>, r: Report)
      requires |key| == Auth.KEY_SIZE && Sized(r) && r.AuthReport?
      requires Valid() && fields == [U8(DIRECTION), U8(Descriptor(r))]
      modifies this
      ensures Valid() && fields == HeadFields(r) + StructFields(key, r)
    {
      PushBackUint16(116);
      PushBackUint16(0);
      PushBackUint16(108);
      ghost var prefix := fields;
      assert prefix == HeadFields(r) + [U16(0), U16(108)];
      PrefixSize(r);
      PushBackDevice(r.device);
      DeviceBytesSize(r.device);
      PutAppend(prefix, DeviceFields(r.device));
      var n := |message| - 8;
      assert n == 72;
      Encrypt(key, r.random, prefix, Put(DeviceFields(r.device)));
      PushBackUint32(r.random);
    }

    method PackSysInfo(r: Report)
      requires r.SysReport?
      requires Valid() && fields == [U8(DIRECTION), U8(Descriptor(r))]
      modifies this
      ensures Valid() && fields == HeadFields(r) + SysFields(r)
    {
      PushBackUint16(28);
      PushBackUint16(0);
      PushBackUint16(20);
      PushBackUint32(r.user);
      PushBackUint32(r.nice);
      PushBackUint32(r.system);
      PushBackUint32(r.idle);
      PushBackUint32(r.freed);
    }

    method PackFile(r: Report, file: seq<Byte>)
      requires (r.ConfReport? || r.ProcReport?) && file == Clip(r.file)
      requires Valid() && fields == [U8(DIRECTION), U8(Descriptor(r))]
      modifies this
      ensures Valid() && fields == HeadFields(r) + LengthFields(r) + FileFields(r)
    {
      var text := file + [0];
      PushBackUint16(|text| + 8);
      PushBackUint16(0);
      PushBackUint16(|text|);
      PushBackArray(text, |text|);
    }

    method PackTerInfo(r: Report)
      requires r.TerReport? && Sized(r)
      requires Valid() && fields == [U8(DIRECTION), U8(Descriptor(r))]
      modifies this
      ensures Valid() && fields == HeadFields(r) + TerFields(r)
    {
      PushBackUint16(280);
      PushBackUint16(0);
      PushBackUint16(272);
      PushBackArray(r.dumbTerm, 16);
      PushBackArray(r.ipTerm, 254);
      PushBackUint16(r.termNum);
    }

    method PackIpTerm(r: Report)
      requires r.IpTermReport? && Sized(r)
      requires Valid() && fields == [U8(DIRECTION), U8(Descriptor(r))]
      modifies this
      ensures Valid() && fields == HeadFields(r) + IpTermFields(r)
    {
      PushBackUint16(8 + 28 + |r.screens| * 96);
      PackTerminal(r);
    }

    method PackTerminal(r: Report)
      requires r.IpTermReport? && Sized(r) && Valid()
      modifies this
      ensures Valid() && fields == old(fields) + IpTermFields(r)
    {
      IpTermPushed(fields, r);
      PushBackUint16(r.ttyno);
      PushBackUint16(28 + |r.screens| * 96);
      PushBack(r.port);
      PushBack(r.readno);
      PushBack(r.active);
      PushBack(|r.screens|);
      PushBackAddress(r.ip);
      PushBackArray(r.ttyType, 12);
      PushBackArray(r.state, 8);
    }

    /** Header, struct, and the file of a report that has one. */
    method PackFields(key: seq<Byte>, r: Report)
      requires |key| == Auth.KEY_SIZE && Sized(r)
      requires Valid() && fields == []
      modifies this
      ensures Valid() && fields == MessageFields(key, r)
    {
      PushBack(DIRECTION);
      PushBack(Descriptor(r));
      match r {
        case AuthReport(_, _) => PackAuth(key, r);
        case SysReport(_, _, _, _, _) => PackSysInfo(r);
        case ConfReport(file) => PackFile(r, Clip(file));
        case ProcReport(file) => PackFile(r, Clip(file));
        case TerReport(_, _, _) => PackTerInfo(r);
        case IpTermReport(_, _, _, _, _, _, _, _) => PackIpTerm(r);
        case EndReport => PackEnd(r);
      }
    }

    method PackEnd(r: Report)
      requires r.EndReport?
      requires Valid() && fields == [U8(DIRECTION), U8(Descriptor(r))]
      modifies this
      ensures Valid() && fields == HeadFields(r) + LengthFields(r)
    {
      PushBackUint16(8);
      PushBackUint16(0);
      PushBackUint16(0);
    }

    method PushBackScreens(screens: seq<ScreenInfo>)
      requires Valid() && forall sc <- screens :: ScreenSized(sc)
      modifies this
      ensures Valid() && message == old(message) + ScreensBytes(screens)
    {
      ghost var start := message;
      var i := 0;
      while i < |screens|
        invariant 0 <= i <= |screens| && Valid()
        invariant message == start + ScreensBytes(screens[..i])
      {
        PutAppend(fields, ScreenFields(screens[i]));
        ScreensNext(start, screens, i);
        PushBackScreenInfo(screens[i]);
        i := i + 1;
      }
      assert screens[..i] == screens;
    }

    method PutBack(secret: array<Byte>, ghost head: seq<Byte>, ghost plain: seq<Byte>)
      requires secret.Length == 104 && |head| == 8 && |plain| == 72 && message == head + plain
      modifies this`message
      ensures message == head + secret[..]
    {
      var i := 0;
      while i < 72
        invariant 0 <= i <= 72
        invariant message == head + (secret[..i] + plain[i..])
      {
        message := message[8 + i := secret[i]];
        i := i + 1;
      }
      while i < 104
        invariant 72 <= i <= 104
        invariant message == head + secret[..i]
      {
        Assoc(head, secret[..i], [secret[i]]);
        message := message + [secret[i]];
        i := i + 1;
      }
      assert secret[..104] == secret[..];
    }

    method PushBackScreenCounts(sc: ScreenInfo)
      requires Valid()
      modifies this
      ensures Valid() && fields == old(fields) + ScreenCounts(sc)
    {
      Eight(fields, U32(sc.time), U32(sc.sendTerm), U32(sc.recvTerm), U32(sc.sendServer),
            U32(sc.recvServer), U32(sc.pingMin), U32(sc.pingAvg), U32(sc.pingMax));
      PushBackUint32(sc.time);
      PushBackUint32(sc.sendTerm);
      PushBackUint32(sc.recvTerm);
      PushBackUint32(sc.sendServer);
      PushBackUint32(sc.recvServer);
      PushBackUint32(sc.pingMin);
      PushBackUint32(sc.pingAvg);
      PushBackUint32(sc.pingMax);
    }
  }

  /** A file follows its struct as one field, screens follow theirs record by record. */
  function FileFields(r: Report): seq<Field>
    requires Sized(r)
  {
    if r.ConfReport? || r.ProcReport? then [Arr(TailBytes(r))] else []
  }

  function MessageFields(key: seq<Byte>, r: Report): seq<Field>
    requires |key| == Auth.KEY_SIZE && Sized(r)
  {
    HeadFields(r) + StructFields(key, r) + FileFields(r)
  }

  lemma Assembled(key: seq<Byte>, r: Report)
    requires |key| == Auth.KEY_SIZE && Sized(r)
    ensures Encode(key, r) == Put(MessageFields(key, r)) + if r.IpTermReport? then TailBytes(r) else []
  {
    var head, body, file := HeadFields(r), StructFields(key, r), FileFields(r);
    PutAppend(head, body);
    PutAppend(head + body, file);
    FileBytes(r);
    NoTail(Put(head) + Put(body), TailBytes(r));
  }

  lemma FileBytes(r: Report)
    requires Sized(r)
    ensures Put(FileFields(r)) == if r.IpTermReport? then [] else TailBytes(r)
  {
    if r.ConfReport? || r.ProcReport? {
      PutSnoc([], Arr(TailBytes(r)));
      assert [] + FileFields(r) == FileFields(r);
    }
  }

  lemma NoTail(s: seq<Byte>, tail: seq<Byte>)
    ensures s + [] == s && s + tail + [] == s + tail
  {
  }

  /** The message of a report, as `client_pack_message` builds it. */
  method PackMessage(key: seq<Byte>, r: Report) returns (message: seq<Byte>)
    requires |key| == Auth.KEY_SIZE && Sized(r)
    ensures message == Encode(key, r)
  {
    var b := new MessageBuilder();
    b.PackFields(key, r);
    Assembled(key, r);
    NoTail(b.message, []);
    if r.IpTermReport? {
      b.PushBackScreens(r.screens);
    }
    message := b.message;
  }

  lemma {:induction false} ScreensSnoc(screens: seq<ScreenInfo>, sc: ScreenInfo)
    requires ScreenSized(sc) && forall s <- screens :: ScreenSized(s)
    ensures ScreensBytes(screens + [sc]) == ScreensBytes(screens) + Put(ScreenFields(sc))
  {
    if screens == [] {
      assert (screens + [sc])[1..] == [];
    } else {
      ScreensSnoc(screens[1..], sc);
      assert (screens + [sc])[1..] == screens[1..] + [sc];
      Assoc(Put(ScreenFields(screens[0])), ScreensBytes(screens[1..]), Put(ScreenFields(sc)));
    }
  }

  lemma ScreensNext(start: seq<Byte>, screens: seq<ScreenInfo>, i: nat)
    requires i < |screens| && forall sc <- screens :: ScreenSized(sc)
    ensures start + ScreensBytes(screens[..i + 1]) == start + ScreensBytes(screens[..i]) + Put(ScreenFields(screens[i]))
  {
    ScreensSnoc(screens[..i], screens[i]);
    assert screens[..i] + [screens[i]] == screens[..i + 1];
    Assoc(start, ScreensBytes(screens[..i]), Put(ScreenFields(screens[i])));
  }

  method CopyInto(dst: array<Byte>, at: nat, src: seq<Byte>)
    requires at + |src| <= dst.Length
    modifies dst
    ensures dst[..at] == old(dst[..at])
    ensures dst[at..at + |src|] == src
    ensures dst[at + |src|..] == old(dst[at + |src|..])
  {
    var i := 0;
    while i < |src|
      invariant 0 <= i <= |src|
      invariant dst[..at] == old(dst[..at]) && dst[at + |src|..] == old(dst[at + |src|..])
      invariant dst[at..at + i] == src[..i]
    {
      dst[at + i] := src[i];
      i := i + 1;
    }
  }

  lemma PrefixSize(r: Report)
    requires Sized(r)
    ensures |Put(HeadFields(r) + [U16(0), U16(108)])| == 8
  {
    var two := [U16(0), U16(108)];
    HeadBytes(r);
    PutAppend(HeadFields(r), two);
    assert two[1..] == [U16(108)];
    assert Put(two) == PutOne(two[0]) + Put(two[1..]);
    assert Put(two[1..]) == PutOne(U16(108)) + Put([]);
  }

  lemma LongDigits(x: Long)
    ensures LongBytes(x) == [x / 0x100_0000, x / 0x1_0000 % 0x100, x / 0x100 % 0x100, x % 0x100]
  {
    HighBytes(x);
    LowBytes(x);
  }

  lemma Halves<T>(s: seq<T>, a: seq<T>, b: seq<T>)
    requires |s| == |a| + |b| && s[..|a|] == a && s[|a|..] == b
    ensures s == a + b
  {
  }

  lemma Four<T>(start: seq<T>, a: T, b: T, c: T, d: T)
    ensures start + [a] + [b] + [c] + [d] == start + [a, b, c, d]
  {
  }

  lemma Nine<T>(start: seq<T>, a: T, b: T, c: T, d: T, e: T, f: T, g: T, h: T, i: T)
    ensures start + [a] + [b] + [c] + [d] + [e] + [f] + [g] + [h] + [i] == start + [a, b, c, d, e, f, g, h, i]
  {
  }

  /** The fields of a terminal record, in the order in which they are pushed. */
  lemma IpTermPushed(start: seq<Field>, r: Report)
    requires r.IpTermReport? && Sized(r)
    ensures
      var n := |r.screens|;
      start + [U16(r.ttyno)] + [U16(28 + n * 96)] + [U8(r.port)] + [U8(r.readno)] + [U8(r.active)] + [U8(n)] +
        [U32(SentIp(r.ip))] + [Arr(r.ttyType)] + [Arr(r.state)] == start + IpTermFields(r)
  {
    Nine(start, U16(r.ttyno), U16(28 + |r.screens| * 96), U8(r.port), U8(r.readno), U8(r.active), U8(|r.screens|),
         U32(SentIp(r.ip)), Arr(r.ttyType), Arr(r.state));
  }

  lemma Seven<T>(start: seq<T>, a: T, b: T, c: T, d: T, e: T, f: T, g: T)
    ensures start + [a] + [b] + [c] + [d] + [e] + [f] + [g] == start + [a, b, c, d, e, f, g]
  {
  }

  lemma Eight<T>(start: seq<T>, a: T, b: T, c: T, d: T, e: T, f: T, g: T, h: T)
    ensures start + [a] + [b] + [c] + [d] + [e] + [f] + [g] + [h] == start + [a, b, c, d, e, f, g, h]
  {
  }
}
