/** What the handlers of server/src/DatabaseConnection.cpp store of a report: numbers and
    files as they were read, and the names in fixed arrays as C strings, printed from the
    record in the memory of a little-endian host. */
module Storage {
  import opened Wire
  import opened Fields
  import opened Stream
  import opened Reports
  import Text
  import Auth

  /** A field in memory, after the session has put its numbers into host order. */
  function HostBytes(f: Field): (s: seq<Byte>)
    ensures |s| == SizeOf(ShapeOf(f))
  {
    match f
    case U8(b) => [b]
    case U16(x) => [x % 0x100, x / 0x100]
    case U32(x) => [x % 0x100, x / 0x100 % 0x100, x / 0x1_0000 % 0x100, x / 0x100_0000]
    case Arr(bytes) => bytes
  }

  /** A number in memory has its lowest byte first. */
  lemma HostOrder(x: Short, y: Long)
    ensures
      var s, t := HostBytes(U16(x)), HostBytes(U32(y));
      && Big16([s[1], s[0]], 0) == x
      && Big16([t[3], t[2]], 0) == y / 0x1_0000 && Big16([t[1], t[0]], 0) == y % 0x1_0000
  {
    HighBytes(y);
    LowBytes(y);
    HalvesOf(y / 0x1_0000);
    HalvesOf(y % 0x1_0000);
  }

  lemma HalvesOf(x: Short)
    ensures Big16([x / 0x100, x % 0x100], 0) == x
  {
  }

  function InMemory(fs: seq<Field>): seq<Byte> {
    if fs == [] then [] else HostBytes(fs[0]) + InMemory(fs[1..])
  }

  /** The array of field `k`, printed as a C string: it runs to the first zero byte, in
      whatever field that is. None when it runs beyond the record. */
  function Printed(fs: seq<Field>, k: nat): Option<seq<Byte>>
    requires k < |fs|
  {
    PrintedFrom(InMemory(fs[k..]))
  }

  function PrintedFrom(s: seq<Byte>): Option<seq<Byte>> {
    if 0 in s then Some(CString(s)) else None
  }

  /** An array is printed as its own C string exactly when it contains a zero byte or one
      follows it at once. */
  lemma PrintedFromIff(a: seq<Byte>, t: seq<Byte>)
    ensures PrintedFrom(a + t) == Some(CString(a)) <==> 0 in a || (t != [] && t[0] == 0)
  {
    var p := CString(a);
    if 0 in a {
      assert |p| < |a|;
      assert (a + t)[|p|] == 0;
      Text.UpToIs(a + t, p, 0);
    } else {
      Text.UpToIs(a, a, 0);
      if t != [] && t[0] == 0 {
        assert (a + t)[|a|] == 0;
        Text.UpToIs(a + t, a, 0);
      } else {
        RunsOn(a, t);
      }
    }
  }

  /** Without a zero byte in or behind it, an array is printed with what follows. */
  lemma RunsOn(a: seq<Byte>, t: seq<Byte>)
    requires 0 !in a && (t == [] || t[0] != 0)
    ensures PrintedFrom(a + t) != Some(a)
  {
    assert t == [] ==> a + t == a;
    assert t != [] ==> (a + t)[|a|] == t[0];
  }

  lemma InMemoryFrom(fs: seq<Field>, k: nat)
    requires k < |fs|
    ensures InMemory(fs[k..]) == HostBytes(fs[k]) + InMemory(fs[k + 1..])
  {
    assert fs[k..][1..] == fs[k + 1..];
  }

  lemma PrintedIff(fs: seq<Field>, k: nat)
    requires k + 1 < |fs| && fs[k].Arr? && HostBytes(fs[k + 1]) != []
    ensures Printed(fs, k) == Some(CString(fs[k].bytes)) <==> 0 in fs[k].bytes || HostBytes(fs[k + 1])[0] == 0
  {
    InMemoryFrom(fs, k);
    InMemoryFrom(fs, k + 1);
    PrintedFromIff(fs[k].bytes, InMemory(fs[k + 1..]));
  }

  /** The last array of a record has only its own zero byte. */
  lemma PrintedLastIff(fs: seq<Field>, k: nat)
    requires k + 1 == |fs| && fs[k].Arr?
    ensures Printed(fs, k) == Some(CString(fs[k].bytes)) <==> 0 in fs[k].bytes
  {
    InMemoryFrom(fs, k);
    PrintedFromIff(fs[k].bytes, []);
  }

  // ----- The names that are stored

  type Name = Option<seq<Byte>>

  /** The decrypted authentication record, behind its two lengths. */
  function DeviceRecord(plain: seq<Byte>, random: Long): (fs: seq<Field>)
    requires |plain| >= DEVICE_SIZE
    ensures |fs| == 13
  {
    DeviceShapeSize();
    Get(DEVICE_SHAPE, plain) + [Arr(plain[DEVICE_SIZE..]), U32(random)]
  }

  /** Serial, type and version. */
  function PrintedDevice(fs: seq<Field>): seq<Name>
    requires |fs| == 13
  {
    [Printed(fs, 4), Printed(fs, 5), Printed(fs, 6)]
  }

  /** Type and state. */
  function PrintedTerminal(fs: seq<Field>): seq<Name>
    requires |fs| == 9
  {
    [Printed(fs, 7), Printed(fs, 8)]
  }

  /** Protocol, state and terminal type; the prompt is not stored. */
  function PrintedScreen(fs: seq<Field>): seq<Name>
    requires |fs| == 16
  {
    [Printed(fs, 4), Printed(fs, 5), Printed(fs, 7)]
  }

  function PrintedScreens(ps: seq<Packet>): seq<Name> {
    if ps == [] then []
    else if |ps[0].payload| < SCREEN_SIZE then PrintedScreens(ps[1..])
    else
      ScreenShapeSize();
      PrintedScreen(Get(SCREEN_SHAPE, ps[0].payload)) + PrintedScreens(ps[1..])
  }

  function PrintedFields(key: seq<Byte>, d: Byte, f: seq<Field>, more: seq<Packet>): seq<Name>
    requires |key| == Auth.KEY_SIZE && Readable(d) && Shapes(f) == StructShape(d)
  {
    FieldShapes(f);
    if d == AUTH then PrintedDevice(DeviceRecord(Auth.Keyed(key, f[3].long, f[2].bytes), f[3].long))
    else if d == IP_TERM then PrintedTerminal(f) + PrintedScreens(more)
    else []
  }

  /** What is stored of the packets of one message: the report, and its names as printed. */
  datatype Stored = Stored(report: Report, names: seq<Name>)

  function Store(key: seq<Byte>, ps: seq<Packet>): Option<Stored>
    requires |key| == Auth.KEY_SIZE
  {
    match Unpack(key, ps)
    case None => None
    case Some(r) =>
      var d := ps[0].header.descriptor;
      var f := Get(StructShape(d), ps[0].payload);
      GetShapes(StructShape(d), ps[0].payload);
      Some(Stored(r, PrintedFields(key, d, f, ps[1..])))
  }

  // ----- The names that are meant

  function DeviceNamesMeant(d: Device): seq<Name> {
    [Some(CString(d.groupSerial)), Some(CString(d.deviceType)), Some(CString(d.version))]
  }

  function ScreenNamesMeant(sc: ScreenInfo): seq<Name> {
    [Some(CString(sc.proto)), Some(CString(sc.state)), Some(CString(sc.ttyType))]
  }

  function ScreensNamesMeant(screens: seq<ScreenInfo>): seq<Name> {
    if screens == [] then [] else ScreenNamesMeant(screens[0]) + ScreensNamesMeant(screens[1..])
  }

  /** Each name by itself, as a C string. */
  function NamesMeant(r: Report): seq<Name> {
    match r
    case AuthReport(d, _) => DeviceNamesMeant(d)
    case IpTermReport(_, _, _, _, _, ttyType, state, screens) =>
      [Some(CString(ttyType)), Some(CString(state))] + ScreensNamesMeant(screens)
    case _ => []
  }

  /** Every name ends in its own array, or the next one starts with a zero byte. Behind a
      screen's terminal type comes its time, lowest byte first. */
  predicate NamesEnd(r: Report)
    requires Sized(r)
  {
    match r
    case AuthReport(d, _) => DeviceNamesEnd(d)
    case IpTermReport(_, _, _, _, _, ttyType, state, screens) =>
      (0 in ttyType || state[0] == 0) && 0 in state && forall sc <- screens :: ScreenNamesEnd(sc)
    case _ => true
  }

  predicate DeviceNamesEnd(d: Device)
    requires DeviceSized(d)
  {
    (0 in d.groupSerial || d.deviceType[0] == 0) && (0 in d.deviceType || d.version[0] == 0)
  }

  predicate ScreenNamesEnd(sc: ScreenInfo)
    requires ScreenSized(sc)
  {
    && (0 in sc.proto || sc.state[0] == 0)
    && (0 in sc.state || sc.prompt[0] == 0)
    && (0 in sc.ttyType || sc.time % 0x100 == 0)
  }

  // ----- Both compared

  lemma DeviceOfEncoded(d: Device, plain: seq<Byte>, random: Long)
    requires DeviceSized(d) && plain == Put(DeviceFields(d)) + Auth.AUTH_STRING && |plain| >= DEVICE_SIZE
    ensures DeviceRecord(plain, random) == DeviceFields(d) + [Arr(Auth.AUTH_STRING), U32(random)]
  {
    DeviceBytesSize(d);
    GetPut(DeviceFields(d), Auth.AUTH_STRING);
    TakeDrop(Put(DeviceFields(d)), Auth.AUTH_STRING);
  }

  lemma DeviceAt(d: Device, random: Long)
    requires DeviceSized(d)
    ensures
      var fs := DeviceFields(d) + [Arr(Auth.AUTH_STRING), U32(random)];
      && |fs| == 13 && fs[4] == Arr(d.groupSerial) && fs[5] == Arr(d.deviceType)
      && fs[6] == Arr(d.version) && fs[7] == Arr(Zeros(8))
  {
  }

  lemma DeviceNamesIff(fs: seq<Field>, d: Device)
    requires DeviceSized(d) && |fs| == 13 && fs[4] == Arr(d.groupSerial) && fs[5] == Arr(d.deviceType)
    requires fs[6] == Arr(d.version) && fs[7] == Arr(Zeros(8))
    ensures PrintedDevice(fs) == DeviceNamesMeant(d) <==> DeviceNamesEnd(d)
  {
    PrintedIff(fs, 4);
    PrintedIff(fs, 5);
    PrintedIff(fs, 6);
  }

  lemma ScreenNamesIff(fs: seq<Field>, sc: ScreenInfo)
    requires ScreenSized(sc) && |fs| == 16 && fs[4] == Arr(sc.proto) && fs[5] == Arr(sc.state)
    requires fs[6] == Arr(sc.prompt) && fs[7] == Arr(sc.ttyType) && fs[8] == U32(sc.time)
    ensures PrintedScreen(fs) == ScreenNamesMeant(sc) <==> ScreenNamesEnd(sc)
  {
    PrintedIff(fs, 4);
    PrintedIff(fs, 5);
    PrintedIff(fs, 7);
  }

  lemma TerminalNamesIff(fs: seq<Field>, ttyType: seq<Byte>, state: seq<Byte>)
    requires |fs| == 9 && fs[7] == Arr(ttyType) && fs[8] == Arr(state) && |state| > 0
    ensures PrintedTerminal(fs) == [Some(CString(ttyType)), Some(CString(state))] <==>
      (0 in ttyType || state[0] == 0) && 0 in state
  {
    PrintedIff(fs, 7);
    PrintedLastIff(fs, 8);
  }

  lemma ScreenAt(sc: ScreenInfo)
    requires ScreenSized(sc)
    ensures
      var fs := ScreenFields(sc);
      && |fs| == 16 && fs[4] == Arr(sc.proto) && fs[5] == Arr(sc.state) && fs[6] == Arr(sc.prompt)
      && fs[7] == Arr(sc.ttyType) && fs[8] == U32(sc.time)
  {
  }

  /** Heads of one length can be compared apart from the tails. */
  lemma SameHeads<T>(a: seq<T>, b: seq<T>, s: seq<T>, t: seq<T>)
    requires |a| == |b|
    ensures a + s == b + t <==> a == b && s == t
  {
    if a + s == b + t {
      assert a == (a + s)[..|a|] && s == (a + s)[|a|..];
      assert b == (b + t)[..|b|] && t == (b + t)[|b|..];
    }
  }

  lemma OneScreenStored(sc: ScreenInfo, payload: seq<Byte>)
    requires ScreenSized(sc) && payload == Put(ScreenFields(sc)) && |payload| == SCREEN_SIZE == Size(SCREEN_SHAPE)
    ensures PrintedScreen(Get(SCREEN_SHAPE, payload)) == ScreenNamesMeant(sc) <==> ScreenNamesEnd(sc)
  {
    ScreenSize(sc);
    GetPut(ScreenFields(sc), []);
    assert payload + [] == payload;
    ScreenAt(sc);
    ScreenNamesIff(ScreenFields(sc), sc);
  }

  lemma {:induction false} ScreensStored(screens: seq<ScreenInfo>)
    requires forall sc <- screens :: ScreenSized(sc)
    requires |ScreensBytes(screens)| == SCREEN_SIZE * |screens|
    ensures
      PrintedScreens(Screens(ScreensBytes(screens), |screens|)) == ScreensNamesMeant(screens) <==>
        forall sc <- screens :: ScreenNamesEnd(sc)
  {
    if screens != [] {
      var first, more := Put(ScreenFields(screens[0])), ScreensBytes(screens[1..]);
      ScreenSize(screens[0]);
      ScreensSize(screens[1..]);
      ScreensStored(screens[1..]);
      TakeDrop(first, more);
      var ps := Screens(first + more, |screens|);
      assert ps[0] == Screen(first) && ps[1..] == Screens(more, |screens| - 1);
      ScreenShapeSize();
      OneScreenStored(screens[0], first);
      SameHeads(PrintedScreen(Get(SCREEN_SHAPE, first)), ScreenNamesMeant(screens[0]),
                PrintedScreens(ps[1..]), ScreensNamesMeant(screens[1..]));
      FirstAndRest(screens);
    }
  }

  lemma FirstAndRest(screens: seq<ScreenInfo>)
    requires screens != [] && forall sc <- screens :: ScreenSized(sc)
    ensures (forall sc <- screens :: ScreenNamesEnd(sc)) <==>
      ScreenNamesEnd(screens[0]) && forall sc <- screens[1..] :: ScreenNamesEnd(sc)
  {
    assert screens == [screens[0]] + screens[1..];
  }

  /** The names of a report as they are printed, against the names that are meant. */
  lemma NamesStored(key: seq<Byte>, r: Report)
    requires |key| == Auth.KEY_SIZE && Sized(r)
    ensures
      PrintedFields(key, Descriptor(r), StructFields(key, r), ScreenPackets(r)) == NamesMeant(r) <==> NamesEnd(r)
  {
    if r.AuthReport? {
      AuthNamesStored(key, r);
    } else if r.IpTermReport? {
      IpTermNamesStored(key, r);
    }
  }

  lemma AuthNamesStored(key: seq<Byte>, r: Report)
    requires |key| == Auth.KEY_SIZE && Sized(r) && r.AuthReport?
    ensures
      PrintedFields(key, AUTH, AuthFields(key, r), []) == NamesMeant(r) <==> NamesEnd(r)
  {
    var d := r.device;
    var plain := Put(DeviceFields(d)) + Auth.AUTH_STRING;
    Auth.KeyedTwice(key, r.random, plain);
    DeviceBytesSize(d);
    DeviceOfEncoded(d, plain, r.random);
    DeviceAt(d, r.random);
    DeviceNamesIff(DeviceFields(d) + [Arr(Auth.AUTH_STRING), U32(r.random)], d);
  }

  lemma IpTermNamesStored(key: seq<Byte>, r: Report)
    requires |key| == Auth.KEY_SIZE && Sized(r) && r.IpTermReport?
    ensures
      PrintedFields(key, IP_TERM, IpTermFields(r), ScreenPackets(r)) == NamesMeant(r) <==> NamesEnd(r)
  {
    ScreensSize(r.screens);
    ScreensStored(r.screens);
    TerminalNamesIff(IpTermFields(r), r.ttyType, r.state);
    SameHeads(PrintedTerminal(IpTermFields(r)), [Some(CString(r.ttyType)), Some(CString(r.state))],
              PrintedScreens(ScreenPackets(r)), ScreensNamesMeant(r.screens));
  }

  /** What is stored of an encoded report. */
  lemma StoreOfEncoded(key: seq<Byte>, r: Report)
    requires |key| == Auth.KEY_SIZE && Sized(r)
    ensures WholeMessage(Encode(key, r))
    ensures
      Store(key, MessagePackets(Encode(key, r))) ==
        Some(Stored(Sent(r), PrintedFields(key, Descriptor(r), StructFields(key, r), ScreenPackets(r))))
  {
    RoundTrip(key, r);
    PacketsOfEncoded(key, r);
    StoreFields(key, MessagePackets(Encode(key, r)), Descriptor(r), StructFields(key, r), Sent(r));
  }

  lemma StoreFields(key: seq<Byte>, ps: seq<Packet>, d: Byte, fs: seq<Field>, r: Report)
    requires |key| == Auth.KEY_SIZE && ps != [] && ps[0].Record?
    requires Readable(d) && ps[0].header.descriptor == d && ps[0].payload == Put(fs) && Shapes(fs) == StructShape(d)
    requires Unpack(key, ps) == Some(r)
    ensures Store(key, ps) == Some(Stored(r, PrintedFields(key, d, fs, ps[1..])))
  {
    GetPut(fs, []);
    assert Put(fs) + [] == Put(fs);
  }

  /** A report is stored as it is meant exactly when it arrives whole and its names end. */
  lemma StoredAsMeantIff(key: seq<Byte>, r: Report)
    requires |key| == Auth.KEY_SIZE && Sized(r)
    ensures WholeMessage(Encode(key, r))
    ensures
      Store(key, MessagePackets(Encode(key, r))) == Some(Stored(r, NamesMeant(r))) <==>
        && (r.AuthReport? ==> DeviceNamesEnd(r.device))
        && (r.ConfReport? || r.ProcReport? ==> |r.file| <= 8191 && 0 !in r.file)
        && (r.IpTermReport? ==>
            && r.ip == 0 && (0 in r.ttyType || r.state[0] == 0) && 0 in r.state
            && forall sc <- r.screens :: sc.ip <= 0xFF && ScreenNamesEnd(sc))
  {
    StoreOfEncoded(key, r);
    NamesStored(key, r);
    SentIsSame(r);
  }

  /** Names without a zero byte, such as the client draws for its device: the serial is
      stored as all three names in a row. */
  lemma LettersRunOn(key: seq<Byte>, r: Report)
    requires |key| == Auth.KEY_SIZE && Sized(r) && r.AuthReport?
    requires 0 !in r.device.groupSerial && 0 !in r.device.deviceType && 0 !in r.device.version
    ensures WholeMessage(Encode(key, r))
    ensures
      var d := r.device;
      var s := Store(key, MessagePackets(Encode(key, r)));
      s.Some? && |s.value.names| == 3 && s.value.names[0] == Some(d.groupSerial + d.deviceType + d.version)
  {
    var d := r.device;
    var fs := DeviceFields(d) + [Arr(Auth.AUTH_STRING), U32(r.random)];
    var plain := Put(DeviceFields(d)) + Auth.AUTH_STRING;
    StoreOfEncoded(key, r);
    Auth.KeyedTwice(key, r.random, plain);
    DeviceBytesSize(d);
    DeviceOfEncoded(d, plain, r.random);
    DeviceAt(d, r.random);
    LettersPrinted(fs, d);
  }

  lemma LettersPrinted(fs: seq<Field>, d: Device)
    requires DeviceSized(d) && |fs| == 13 && fs[4] == Arr(d.groupSerial) && fs[5] == Arr(d.deviceType)
    requires fs[6] == Arr(d.version) && fs[7] == Arr(Zeros(8))
    requires 0 !in d.groupSerial && 0 !in d.deviceType && 0 !in d.version
    ensures Printed(fs, 4) == Some(d.groupSerial + d.deviceType + d.version)
  {
    var letters, rest := d.groupSerial + d.deviceType + d.version, InMemory(fs[7..]);
    InMemoryFrom(fs, 4);
    InMemoryFrom(fs, 5);
    InMemoryFrom(fs, 6);
    InMemoryFrom(fs, 7);
    assert rest[0] == 0;
    Assoc(d.groupSerial, d.deviceType, d.version + rest);
    Assoc(d.groupSerial + d.deviceType, d.version, rest);
    assert (letters + rest)[|letters|] == 0;
    Text.UpToIs(letters + rest, letters, 0);
  }
}
