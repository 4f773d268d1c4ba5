/** The reports a client sends, their bytes on the wire, and how the server reads them
    back from the decoded packets. */
module Reports {
  import opened Wire
  import opened Fields
  import opened Stream
  import Text
  import Auth

  datatype Device = Device(
    cpu: Short, ram: Short, flash: Short, innerId: Short,
    groupSerial: seq<Byte>, deviceType: seq<Byte>, version: seq<Byte>,
    instId: Long, instInnId: Byte)

  datatype ScreenInfo = ScreenInfo(
    screenNo: Byte, port: Short, ip: Long,
    proto: seq<Byte>, state: seq<Byte>, prompt: seq<Byte>, ttyType: seq<Byte>, time: Long,
    sendTerm: Long, recvTerm: Long, sendServer: Long, recvServer: Long,
    pingMin: Long, pingAvg: Long, pingMax: Long)

  datatype Report =
    | AuthReport(device: Device, random: Long)
    | SysReport(user: Long, nice: Long, system: Long, idle: Long, freed: Long)
    | ConfReport(file: seq<Byte>)
    | ProcReport(file: seq<Byte>)
    | TerReport(dumbTerm: seq<Byte>, ipTerm: seq<Byte>, termNum: Short)
    | IpTermReport(ttyno: Short, port: Byte, readno: Byte, active: Byte, ip: Long,
        ttyType: seq<Byte>, state: seq<Byte>, screens: seq<ScreenInfo>)
    | EndReport

  // ----- Struct layouts of server/include/types.hpp

  const AUTH_SHAPE := [S16, S16, SArr(104), S32]
  const SYS_INFO_SHAPE := [S16, S16, S32, S32, S32, S32, S32]
  const LENGTH_ONLY_SHAPE := [S16, S16]
  const TER_INFO_SHAPE := [S16, S16, SArr(16), SArr(254), S16]
  const IP_TERM_SHAPE := [S16, S16, S8, S8, S8, S8, S32, SArr(12), SArr(8)]
  const SCREEN_NAMES_SHAPE := [S8, S8, S16, S32, SArr(12), SArr(8), SArr(24), SArr(12)]
  const SCREEN_COUNTS_SHAPE := [S32, S32, S32, S32, S32, S32, S32, S32]
  const SCREEN_SHAPE := SCREEN_NAMES_SHAPE + SCREEN_COUNTS_SHAPE
  // The part of the authentication record between the lengths and the trailer.
  const DEVICE_NUMBERS_SHAPE := [S16, S16, S16, S16]
  const DEVICE_NAMES_SHAPE := [SArr(16), SArr(16), SArr(16), SArr(8), S32, S8, SArr(3)]
  const DEVICE_SHAPE := DEVICE_NUMBERS_SHAPE + DEVICE_NAMES_SHAPE
  const DEVICE_SIZE := 72

  lemma StructSizes()
    ensures Size(AUTH_SHAPE) == 112 && Size(SYS_INFO_SHAPE) == 24 && Size(LENGTH_ONLY_SHAPE) == 4
    ensures Size(TER_INFO_SHAPE) == 276 && Size(IP_TERM_SHAPE) == IP_TERM_SIZE
  {
    Size4(AUTH_SHAPE);
    Size4(SYS_INFO_SHAPE);
    Size4(TER_INFO_SHAPE);
    IpTermSize();
  }

  lemma IpTermSize()
    ensures Size(IP_TERM_SHAPE) == IP_TERM_SIZE
  {
    Size4(IP_TERM_SHAPE);
    Size4(IP_TERM_SHAPE[4..]);
  }

  lemma ScreenShapeSize()
    ensures Size(SCREEN_SHAPE) == SCREEN_SIZE
  {
    Size4(SCREEN_NAMES_SHAPE);
    Size4(SCREEN_NAMES_SHAPE[4..]);
    Size4(SCREEN_COUNTS_SHAPE);
    Size4(SCREEN_COUNTS_SHAPE[4..]);
    SizeAppend(SCREEN_NAMES_SHAPE, SCREEN_COUNTS_SHAPE);
  }

  lemma DeviceShapeSize()
    ensures Size(DEVICE_SHAPE) == DEVICE_SIZE
  {
    Size4(DEVICE_NUMBERS_SHAPE);
    Size4(DEVICE_NAMES_SHAPE);
    SizeAppend(DEVICE_NUMBERS_SHAPE, DEVICE_NAMES_SHAPE);
  }

  /** The record of an Ethernet port, which is decoded but not read: two shorts, four bytes,
      a hardware address, options, and 28 numbers. */
  const ETHER_INFO_SHAPE := [S16, S16, S8, S8, S8, S8, SArr(6), S16] + LongShapes(28)

  function LongShapes(n: nat): seq<Shape> {
    seq(n, _ => S32)
  }

  lemma {:induction false} LongsSize(n: nat)
    ensures Size(LongShapes(n)) == 4 * n
  {
    if n > 0 {
      LongsSize(n - 1);
      assert LongShapes(n)[1..] == LongShapes(n - 1);
    }
  }

  /** The decoder takes from every descriptor it knows what its struct measures. */
  lemma DecoderSizes()
    ensures StructSize(0x01) == Some(Size(AUTH_SHAPE)) && StructSize(0x02) == Some(Size(SYS_INFO_SHAPE))
    ensures StructSize(0x03) == StructSize(0x04) == StructSize(0xFF) == Some(Size(LENGTH_ONLY_SHAPE))
    ensures StructSize(0x09) == Some(Size(TER_INFO_SHAPE)) && StructSize(0x0B) == Some(Size(IP_TERM_SHAPE))
  {
    StructSizes();
  }

  lemma EtherShapeSize()
    ensures Size(ETHER_INFO_SHAPE) == 128 && StructSize(0x05) == Some(Size(ETHER_INFO_SHAPE))
  {
    EtherSize([S16, S16, S8, S8, S8, S8, SArr(6), S16]);
  }

  lemma EtherSize(first: seq<Shape>)
    requires first == [S16, S16, S8, S8, S8, S8, SArr(6), S16]
    ensures Size(first + LongShapes(28)) == 128
  {
    SizeAppend(first, LongShapes(28));
    LongsSize(28);
    Size4(first);
    Size4(first[4..]);
  }

  // ----- Writing

  const DIRECTION: Byte := 0x91
  // The largest file a configuration report carries, before its closing zero.
  const MAX_FILE := 8191

  /** The fixed arrays have their declared sizes, and the screen count fits its byte. */
  predicate Sized(r: Report) {
    match r
    case AuthReport(d, _) => DeviceSized(d)
    case TerReport(dumb, ip, _) => |dumb| == 16 && |ip| == 254
    case IpTermReport(_, _, _, _, _, ttyType, state, screens) =>
      |ttyType| == 12 && |state| == 8 && |screens| < 0x100 && forall sc <- screens :: ScreenSized(sc)
    case _ => true
  }

  predicate DeviceSized(d: Device) {
    |d.groupSerial| == |d.deviceType| == |d.version| == 16
  }

  predicate ScreenSized(sc: ScreenInfo) {
    |sc.proto| == |sc.ttyType| == 12 && |sc.state| == 8 && |sc.prompt| == 24
  }

  /** `read_dat` stops at the limit. */
  function Clip(file: seq<Byte>): (s: seq<Byte>)
    ensures |s| <= MAX_FILE && s <= file
  {
    if |file| > MAX_FILE then file[..MAX_FILE] else file
  }

  /** The cast binds before the shift, so only the lowest byte of an address is sent. */
  function SentIp(ip: Long): Long {
    ip % 0x100
  }

  function Zeros(n: nat): (s: seq<Byte>)
    ensures |s| == n
  {
    seq(n, _ => 0)
  }

  function DeviceNumbers(d: Device): (fs: seq<Field>)
    ensures Shapes(fs) == DEVICE_NUMBERS_SHAPE
  {
    [U16(d.cpu), U16(d.ram), U16(d.flash), U16(d.innerId)]
  }

  function DeviceNames(d: Device): (fs: seq<Field>)
    requires DeviceSized(d)
    ensures Shapes(fs) == DEVICE_NAMES_SHAPE
  {
    [Arr(d.groupSerial), Arr(d.deviceType), Arr(d.version), Arr(Zeros(8)),
     U32(d.instId), U8(d.instInnId), Arr(Zeros(3))]
  }

  function DeviceFields(d: Device): seq<Field>
    requires DeviceSized(d)
  {
    DeviceNumbers(d) + DeviceNames(d)
  }

  function ScreenNames(sc: ScreenInfo): (fs: seq<Field>)
    requires ScreenSized(sc)
    ensures Shapes(fs) == SCREEN_NAMES_SHAPE
  {
    [U8(sc.screenNo), U8(0), U16(sc.port), U32(SentIp(sc.ip)),
     Arr(sc.proto), Arr(sc.state), Arr(sc.prompt), Arr(sc.ttyType)]
  }

  function ScreenCounts(sc: ScreenInfo): (fs: seq<Field>)
    ensures Shapes(fs) == SCREEN_COUNTS_SHAPE
  {
    [U32(sc.time), U32(sc.sendTerm), U32(sc.recvTerm), U32(sc.sendServer),
     U32(sc.recvServer), U32(sc.pingMin), U32(sc.pingAvg), U32(sc.pingMax)]
  }

  function ScreenFields(sc: ScreenInfo): seq<Field>
    requires ScreenSized(sc)
  {
    ScreenNames(sc) + ScreenCounts(sc)
  }

  function ScreensBytes(screens: seq<ScreenInfo>): seq<Byte>
    requires forall sc <- screens :: ScreenSized(sc)
  {
    if screens == [] then [] else Put(ScreenFields(screens[0])) + ScreensBytes(screens[1..])
  }

  lemma ScreenSize(sc: ScreenInfo)
    requires ScreenSized(sc)
    ensures Shapes(ScreenFields(sc)) == SCREEN_SHAPE && |Put(ScreenFields(sc))| == SCREEN_SIZE
  {
    ScreenShapeSize();
    ShapesAppend(ScreenNames(sc), ScreenCounts(sc));
    GetPut(ScreenFields(sc), []);
  }

  lemma {:induction false} ScreensSize(screens: seq<ScreenInfo>)
    requires forall sc <- screens :: ScreenSized(sc)
    ensures |ScreensBytes(screens)| == SCREEN_SIZE * |screens|
  {
    if screens != [] {
      ScreenSize(screens[0]);
      ScreensSize(screens[1..]);
    }
  }

  /** Each screen has its 96 bytes, in order. */
  lemma {:induction false} ScreensBytesAt(screens: seq<ScreenInfo>, i: nat)
    requires (forall sc <- screens :: ScreenSized(sc)) && i < |screens|
    ensures |ScreensBytes(screens)| == 96 * |screens|
    ensures ScreensBytes(screens)[96 * i..96 * i + 96] == Put(ScreenFields(screens[i]))
  {
    var first, more := Put(ScreenFields(screens[0])), ScreensBytes(screens[1..]);
    ScreensSize(screens);
    ScreenSize(screens[0]);
    TakeDrop(first, more);
    if i > 0 {
      ScreensBytesAt(screens[1..], i - 1);
      AfterFirst(first, more, 96 * (i - 1));
    }
  }

  lemma AfterFirst(a: seq<Byte>, b: seq<Byte>, at: nat)
    requires |a| == 96 && at + 96 <= |b|
    ensures (a + b)[96 + at..96 + at + 96] == b[at..at + 96]
  {
  }

  function Descriptor(r: Report): (d: Byte)
    ensures StructSize(d).Some?
  {
    match r
    case AuthReport(_, _) => AUTH
    case SysReport(_, _, _, _, _) => SYS_INFO
    case ConfReport(_) => CONF_INFO
    case ProcReport(_) => PROC_INFO
    case TerReport(_, _, _) => TER_INFO
    case IpTermReport(_, _, _, _, _, _, _, _) => IP_TERM
    case EndReport => END
  }

  /** The declared length: header, struct, and what follows the struct. */
  function MessageLength(r: Report): (n: Short)
    requires Sized(r)
    ensures n >= 8
  {
    HEADER_SIZE + StructSize(Descriptor(r)).value +
    match r
    case ConfReport(file) => |Clip(file)| + 1
    case ProcReport(file) => |Clip(file)| + 1
    case IpTermReport(_, _, _, _, _, _, _, screens) => SCREEN_SIZE * |screens|
    case _ => 0
  }

  function AuthFields(key: seq<Byte>, r: Report): (fs: seq<Field>)
    requires r.AuthReport? && Sized(r) && |key| == Auth.KEY_SIZE
    ensures Shapes(fs) == AUTH_SHAPE && StartsWith(fs, MessageLength(r) - 8)
  {
    DeviceBytesSize(r.device);
    [U16(0), U16(MessageLength(r) - 8),
     Arr(Auth.Keyed(key, r.random, Put(DeviceFields(r.device)) + Auth.AUTH_STRING)), U32(r.random)]
  }

  function SysFields(r: Report): (fs: seq<Field>)
    requires r.SysReport?
    ensures Shapes(fs) == SYS_INFO_SHAPE && StartsWith(fs, MessageLength(r) - 8)
  {
    [U16(0), U16(MessageLength(r) - 8), U32(r.user), U32(r.nice), U32(r.system), U32(r.idle), U32(r.freed)]
  }

  function TerFields(r: Report): (fs: seq<Field>)
    requires r.TerReport? && Sized(r)
    ensures Shapes(fs) == TER_INFO_SHAPE && StartsWith(fs, MessageLength(r) - 8)
  {
    [U16(0), U16(MessageLength(r) - 8), Arr(r.dumbTerm), Arr(r.ipTerm), U16(r.termNum)]
  }

  function IpTermFields(r: Report): (fs: seq<Field>)
    requires r.IpTermReport? && Sized(r)
    ensures Shapes(fs) == IP_TERM_SHAPE && StartsWith(fs, MessageLength(r) - 8) && fs[5] == U8(|r.screens|)
  {
    [U16(r.ttyno), U16(MessageLength(r) - 8), U8(r.port), U8(r.readno), U8(r.active), U8(|r.screens|),
     U32(SentIp(r.ip)), Arr(r.ttyType), Arr(r.state)]
  }

  function LengthFields(r: Report): (fs: seq<Field>)
    requires Sized(r)
    ensures Shapes(fs) == LENGTH_ONLY_SHAPE && StartsWith(fs, MessageLength(r) - 8)
  {
    [U16(0), U16(MessageLength(r) - 8)]
  }

  /** The fields of the struct a report is sent in. */
  function StructFields(key: seq<Byte>, r: Report): (fs: seq<Field>)
    requires |key| == Auth.KEY_SIZE && Sized(r)
    ensures Shapes(fs) == StructShape(Descriptor(r)) && StartsWith(fs, MessageLength(r) - 8)
  {
    match r
    case AuthReport(_, _) => AuthFields(key, r)
    case SysReport(_, _, _, _, _) => SysFields(r)
    case TerReport(_, _, _) => TerFields(r)
    case IpTermReport(_, _, _, _, _, _, _, _) => IpTermFields(r)
    case _ => LengthFields(r)
  }

  function TailBytes(r: Report): seq<Byte>
    requires Sized(r)
  {
    match r
    case ConfReport(file) => Clip(file) + [0]
    case ProcReport(file) => Clip(file) + [0]
    case IpTermReport(_, _, _, _, _, _, _, screens) => ScreensBytes(screens)
    case _ => []
  }

  function HeadFields(r: Report): seq<Field>
    requires Sized(r)
  {
    [U8(DIRECTION), U8(Descriptor(r)), U16(MessageLength(r))]
  }

  function Encode(key: seq<Byte>, r: Report): seq<Byte>
    requires |key| == Auth.KEY_SIZE && Sized(r)
  {
    Put(HeadFields(r)) + Put(StructFields(key, r)) + TailBytes(r)
  }

  /** The descriptors whose reports are read. */
  predicate Readable(d: Byte) {
    d == AUTH || d == SYS_INFO || d == CONF_INFO || d == PROC_INFO || d == TER_INFO || d == IP_TERM || d == END
  }

  function StructShape(descriptor: Byte): (shape: seq<Shape>)
    requires Readable(descriptor)
    ensures StructSize(descriptor) == Some(Size(shape))
  {
    StructSizes();
    match descriptor
    case 0x01 => AUTH_SHAPE
    case 0x02 => SYS_INFO_SHAPE
    case 0x09 => TER_INFO_SHAPE
    case 0x0B => IP_TERM_SHAPE
    case _ => LENGTH_ONLY_SHAPE
  }

  lemma DeviceBytesSize(d: Device)
    requires DeviceSized(d)
    ensures Shapes(DeviceFields(d)) == DEVICE_SHAPE && |Put(DeviceFields(d))| == DEVICE_SIZE
  {
    DeviceShapeSize();
    ShapesAppend(DeviceNumbers(d), DeviceNames(d));
    GetPut(DeviceFields(d), []);
  }

  lemma HeadBytes(r: Report)
    requires Sized(r)
    ensures
      var s := Put(HeadFields(r));
      |s| == HEADER_SIZE && s[0] == DIRECTION && s[1] == Descriptor(r) && DeclaredLength(s) == MessageLength(r)
  {
    var fs := HeadFields(r);
    assert fs[1..][1..] == [fs[2]] && fs[1..][0] == fs[1];
    assert Put(fs[1..][1..]) == PutOne(fs[2]) + Put([]);
    assert Put(fs[1..]) == PutOne(fs[1]) + Put(fs[1..][1..]);
  }

  /** The pieces of an encoded report, found again in the whole. */
  lemma EncodedParts(key: seq<Byte>, r: Report)
    requires |key| == Auth.KEY_SIZE && Sized(r)
    ensures
      var m := Encode(key, r);
      var size := StructSize(Descriptor(r)).value;
      && |m| == MessageLength(r) == DeclaredLength(m)
      && m[0] == DIRECTION && m[1] == Descriptor(r)
      && |Put(StructFields(key, r))| == size
      && m[HEADER_SIZE..HEADER_SIZE + size] == Put(StructFields(key, r))
      && m[HEADER_SIZE + size..] == TailBytes(r)
  {
    HeadBytes(r);
    GetPut(StructFields(key, r), []);
    TailSize(r);
    var head, body, tail := Put(HeadFields(r)), Put(StructFields(key, r)), TailBytes(r);
    Parts(head, body, tail);
  }

  lemma TailSize(r: Report)
    requires Sized(r)
    ensures HEADER_SIZE + StructSize(Descriptor(r)).value + |TailBytes(r)| == MessageLength(r)
  {
    if r.IpTermReport? {
      ScreensSize(r.screens);
    }
  }

  lemma Parts<T>(a: seq<T>, b: seq<T>, c: seq<T>)
    ensures (a + b + c)[..|a|] == a && (a + b + c)[|a|..|a| + |b|] == b && (a + b + c)[|a| + |b|..] == c
  {
  }

  /** A struct starts with two shorts, the second of which is its data length. */
  predicate StartsWith(fs: seq<Field>, n: Short) {
    |fs| >= 2 && fs[0].U16? && fs[1] == U16(n)
  }

  lemma DataLengthAt(fs: seq<Field>, n: Short)
    requires StartsWith(fs, n)
    ensures |Put(fs)| >= 4 && Word(Put(fs)[2], Put(fs)[3]) == n
  {
    ShortFieldAt(fs, 1);
    assert Shapes(fs)[..1] == [S16];
  }

  /** The screen count is the byte before the address. */
  lemma ScreenCountAt(fs: seq<Field>, n: Byte)
    requires Shapes(fs) == IP_TERM_SHAPE && fs[5] == U8(n)
    ensures |Put(fs)| > SCREEN_COUNT_AT - HEADER_SIZE && Put(fs)[SCREEN_COUNT_AT - HEADER_SIZE] == n
  {
    assert IP_TERM_SHAPE[..5] == [S16, S16, S8, S8, S8];
    Size4([S16, S16, S8, S8, S8]);
    ByteFieldAt(fs, 5);
  }

  lemma InSlice(m: seq<Byte>, s: seq<Byte>, from: nat, i: nat)
    requires from + |s| <= |m| && m[from..from + |s|] == s && i < |s|
    ensures m[from + i] == s[i]
  {
  }

  lemma DataLengthInMessage(m: seq<Byte>, fs: seq<Field>, n: Short)
    requires StartsWith(fs, n)
    requires HEADER_SIZE + |Put(fs)| <= |m| && m[HEADER_SIZE..HEADER_SIZE + |Put(fs)|] == Put(fs)
    ensures |m| >= 8 && Word(m[6], m[7]) == n
  {
    DataLengthAt(fs, n);
    InSlice(m, Put(fs), HEADER_SIZE, 2);
    InSlice(m, Put(fs), HEADER_SIZE, 3);
  }

  lemma ScreenCountInMessage(m: seq<Byte>, fs: seq<Field>, n: Byte)
    requires Shapes(fs) == IP_TERM_SHAPE && fs[5] == U8(n)
    requires HEADER_SIZE + |Put(fs)| <= |m| && m[HEADER_SIZE..HEADER_SIZE + |Put(fs)|] == Put(fs)
    ensures |m| > SCREEN_COUNT_AT && m[SCREEN_COUNT_AT] == n
  {
    ScreenCountAt(fs, n);
    InSlice(m, Put(fs), HEADER_SIZE, SCREEN_COUNT_AT - HEADER_SIZE);
  }

  lemma HeaderOfEncoded(key: seq<Byte>, r: Report)
    requires |key| == Auth.KEY_SIZE && Sized(r)
    ensures
      var m := Encode(key, r);
      && HeadOk(m) && m[1] == Descriptor(r) && |m| == DeclaredLength(m) == MessageLength(r)
      && Word(m[6], m[7]) == |m| - 8
      && (r.IpTermReport? ==> m[SCREEN_COUNT_AT] == |r.screens|)
  {
    EncodedParts(key, r);
    DataLengthOfEncoded(key, r);
    if r.IpTermReport? {
      ScreenCountOfEncoded(key, r);
    }
  }

  lemma DataLengthOfEncoded(key: seq<Byte>, r: Report)
    requires |key| == Auth.KEY_SIZE && Sized(r)
    ensures
      var m := Encode(key, r);
      |m| >= 8 && Word(m[6], m[7]) == MessageLength(r) - 8
  {
    EncodedParts(key, r);
    DataLengthInMessage(Encode(key, r), StructFields(key, r), MessageLength(r) - 8);
  }

  lemma ScreenCountOfEncoded(key: seq<Byte>, r: Report)
    requires |key| == Auth.KEY_SIZE && Sized(r) && r.IpTermReport?
    ensures
      var m := Encode(key, r);
      |m| > SCREEN_COUNT_AT && m[SCREEN_COUNT_AT] == |r.screens|
  {
    EncodedParts(key, r);
    ScreenCountInMessage(Encode(key, r), StructFields(key, r), |r.screens|);
  }

  /** Every encoded report is one well-formed message: as long as it declares, its data
      length eight less, and a terminal record followed by the screens it counts. */
  lemma EncodeIsWhole(key: seq<Byte>, r: Report)
    requires |key| == Auth.KEY_SIZE && Sized(r)
    ensures
      var m := Encode(key, r);
      && WholeMessage(m) && |m| == DeclaredLength(m) == MessageLength(r)
      && Word(m[6], m[7]) == |m| - 8
  {
    HeaderOfEncoded(key, r);
  }

  /** Struct and tail of the decoded packet are the struct and tail that were encoded. */
  lemma DecodedParts(key: seq<Byte>, r: Report)
    requires |key| == Auth.KEY_SIZE && Sized(r) && WholeMessage(Encode(key, r))
    ensures
      var m := Encode(key, r);
      && Decode(m).header.descriptor == Descriptor(r)
      && Decode(m).payload == Put(StructFields(key, r))
      && (if r.IpTermReport? then Decode(m).tail == [] && m[Consumed(m)..] == TailBytes(r) else Decode(m).tail == TailBytes(r))
  {
    var m := Encode(key, r);
    EncodedParts(key, r);
    DecodeOf(m, StructSize(Descriptor(r)).value);
  }

  lemma DecodeOf(m: seq<Byte>, size: nat)
    requires WholeMessage(m) && StructSize(m[1]) == Some(size)
    ensures Decode(m).payload == m[HEADER_SIZE..HEADER_SIZE + size]
    ensures m[1] != IP_TERM ==> Decode(m).tail == m[HEADER_SIZE + size..]
    ensures m[1] == IP_TERM ==> Decode(m).tail == [] && Consumed(m) == HEADER_SIZE + size
  {
  }

  // ----- Reading

  function ReadDevice(s: seq<Byte>): Device
    requires |s| >= DEVICE_SIZE
  {
    DeviceShapeSize();
    var f := Get(DEVICE_SHAPE, s);
    Device(f[0].short, f[1].short, f[2].short, f[3].short,
           f[4].bytes, f[5].bytes, f[6].bytes, f[8].long, f[9].byte)
  }

  function ReadScreen(s: seq<Byte>): ScreenInfo
    requires |s| >= SCREEN_SIZE
  {
    ScreenShapeSize();
    var f := Get(SCREEN_SHAPE, s);
    ScreenInfo(f[0].byte, f[2].short, f[3].long, f[4].bytes, f[5].bytes, f[6].bytes, f[7].bytes,
               f[8].long, f[9].long, f[10].long, f[11].long, f[12].long, f[13].long, f[14].long, f[15].long)
  }

  function ReadScreens(ps: seq<Packet>): Option<seq<ScreenInfo>> {
    if ps == [] then Some([])
    else if !ps[0].Screen? || |ps[0].payload| != SCREEN_SIZE then None
    else
      match ReadScreens(ps[1..])
      case Some(more) => Some([ReadScreen(ps[0].payload)] + more)
      case None => None
  }

  /** The authentication record is decrypted with the random number that follows it, and
      refused unless the trailer check passes. */
  function ReadAuth(key: seq<Byte>, f: seq<Field>): Option<Report>
    requires |key| == Auth.KEY_SIZE && Shapes(f) == AUTH_SHAPE
  {
    FieldShapes(f);
    var plain := Auth.Keyed(key, f[3].long, f[2].bytes);
    if Auth.TrailerMatches(Auth.AUTH_STRING, plain)
    then Some(AuthReport(ReadDevice(plain), f[3].long)) else None
  }

  lemma FieldShapes(f: seq<Field>)
    ensures forall i :: 0 <= i < |f| ==> ShapeOf(f[i]) == Shapes(f)[i]
  {
  }

  /** The report in the packets of one message, as the session reads it. */
  function Unpack(key: seq<Byte>, ps: seq<Packet>): Option<Report>
    requires |key| == Auth.KEY_SIZE
  {
    if ps == [] || !ps[0].Record? then None
    else
      var d, tail := ps[0].header.descriptor, ps[0].tail;
      if !Readable(d) then None
      else if |ps[0].payload| != StructSize(d).value then None
      else
        var f := Get(StructShape(d), ps[0].payload);
        GetShapes(StructShape(d), ps[0].payload);
        ReadFields(key, d, f, tail, ps[1..])
  }

  lemma GetShapes(shapes: seq<Shape>, s: seq<Byte>)
    requires |s| >= Size(shapes)
    ensures Shapes(Get(shapes, s)) == shapes
  {
  }

  /** The session converts a terminal's 32-bit address with the 16-bit `ntohs`, which on a
      little-endian host keeps the first two bytes of the field. */
  function ReadTerminalIp(ip: Long): Long {
    ip / 0x1_0000
  }

  /** The file as its handler stores it: the tail is printed as a C string, which ends at
      the first zero byte. Without one the handler would read beyond the tail. */
  function CString(tail: seq<Byte>): seq<Byte> {
    Text.UpTo(tail, 0)
  }

  function ReadSys(f: seq<Field>): Report
    requires Shapes(f) == SYS_INFO_SHAPE
  {
    FieldShapes(f);
    SysReport(f[2].long, f[3].long, f[4].long, f[5].long, f[6].long)
  }

  function ReadTer(f: seq<Field>): Report
    requires Shapes(f) == TER_INFO_SHAPE
  {
    FieldShapes(f);
    TerReport(f[2].bytes, f[3].bytes, f[4].short)
  }

  function ReadIpTerm(f: seq<Field>, screens: Option<seq<ScreenInfo>>): Option<Report>
    requires Shapes(f) == IP_TERM_SHAPE
  {
    FieldShapes(f);
    match screens
    case Some(screens) =>
      Some(IpTermReport(f[0].short, f[2].byte, f[3].byte, f[4].byte, ReadTerminalIp(f[6].long), f[7].bytes, f[8].bytes, screens))
    case None => None
  }

  function ReadFields(key: seq<Byte>, d: Byte, f: seq<Field>, tail: seq<Byte>, more: seq<Packet>): Option<Report>
    requires |key| == Auth.KEY_SIZE
    requires Readable(d)
    requires Shapes(f) == StructShape(d)
  {
    match d
    case 0x01 => ReadAuth(key, f)
    case 0x02 => Some(ReadSys(f))
    case 0x03 => if 0 in tail then Some(ConfReport(CString(tail))) else None
    case 0x04 => if 0 in tail then Some(ProcReport(CString(tail))) else None
    case 0x09 => Some(ReadTer(f))
    case 0x0B => ReadIpTerm(f, ReadScreens(more))
    case _ => Some(EndReport)
  }

  /** What arrives of a screen record: the lowest byte of its address. */
  function SentScreen(sc: ScreenInfo): ScreenInfo {
    sc.(ip := SentIp(sc.ip))
  }

  function SentScreens(screens: seq<ScreenInfo>): seq<ScreenInfo> {
    if screens == [] then [] else [SentScreen(screens[0])] + SentScreens(screens[1..])
  }

  /** What arrives of a report: files up to the limit and to their first zero byte, the
      lowest byte of a screen's address, and nothing of a terminal's. */
  function Sent(r: Report): Report {
    match r
    case ConfReport(file) => ConfReport(CString(Clip(file)))
    case ProcReport(file) => ProcReport(CString(Clip(file)))
    case IpTermReport(_, _, _, _, ip, _, _, screens) => r.(ip := ReadTerminalIp(SentIp(ip)), screens := SentScreens(screens))
    case _ => r
  }

  /** The reports that arrive as they were. */
  predicate SentWhole(r: Report) {
    match r
    case ConfReport(file) => |file| <= MAX_FILE && 0 !in file
    case ProcReport(file) => |file| <= MAX_FILE && 0 !in file
    case IpTermReport(_, _, _, _, ip, _, _, screens) => ip == 0 && forall sc <- screens :: sc.ip < 0x100
    case _ => true
  }

  lemma {:induction false} SentScreensWhole(screens: seq<ScreenInfo>)
    ensures SentScreens(screens) == screens <==> forall sc <- screens :: sc.ip < 0x100
  {
    if screens != [] {
      SentScreensWhole(screens[1..]);
      var sent := SentScreens(screens);
      assert sent[1..] == SentScreens(screens[1..]) && sent[0] == SentScreen(screens[0]);
      assert screens == [screens[0]] + screens[1..];
    }
  }

  lemma ScreenRoundTrip(sc: ScreenInfo)
    requires ScreenSized(sc) && |Put(ScreenFields(sc))| == SCREEN_SIZE
    ensures ReadScreen(Put(ScreenFields(sc))) == SentScreen(sc)
  {
    var fs := ScreenFields(sc);
    ScreenSize(sc);
    GetPut(fs, []);
    assert Put(fs) + [] == Put(fs);
    ScreenFromFields(sc);
  }

  lemma ScreenFromFields(sc: ScreenInfo)
    requires ScreenSized(sc)
    ensures
      var f := ScreenFields(sc);
      SentScreen(sc) == ScreenInfo(f[0].byte, f[2].short, f[3].long, f[4].bytes, f[5].bytes, f[6].bytes, f[7].bytes,
               f[8].long, f[9].long, f[10].long, f[11].long, f[12].long, f[13].long, f[14].long, f[15].long)
  {
  }

  lemma {:induction false} ScreensRoundTrip(screens: seq<ScreenInfo>)
    requires forall sc <- screens :: ScreenSized(sc)
    requires |ScreensBytes(screens)| == SCREEN_SIZE * |screens|
    ensures ReadScreens(Screens(ScreensBytes(screens), |screens|)) == Some(SentScreens(screens))
  {
    if screens != [] {
      var first, more := Put(ScreenFields(screens[0])), ScreensBytes(screens[1..]);
      ScreenSize(screens[0]);
      ScreensSize(screens[1..]);
      ScreenRoundTrip(screens[0]);
      ScreensRoundTrip(screens[1..]);
      TakeDrop(first, more);
      var ps := Screens(first + more, |screens|);
      assert ps[0] == Screen(first) && ps[1..] == Screens(more, |screens| - 1);
    }
  }

  lemma DeviceRoundTrip(d: Device, t: seq<Byte>)
    requires DeviceSized(d) && |Put(DeviceFields(d)) + t| >= DEVICE_SIZE
    ensures ReadDevice(Put(DeviceFields(d)) + t) == d
  {
    DeviceBytesSize(d);
    GetPut(DeviceFields(d), t);
    DeviceFromFields(d);
  }

  lemma DeviceFromFields(d: Device)
    requires DeviceSized(d)
    ensures
      var f := DeviceFields(d);
      d == Device(f[0].short, f[1].short, f[2].short, f[3].short,
                  f[4].bytes, f[5].bytes, f[6].bytes, f[8].long, f[9].byte)
  {
  }

  /** The authentication record survives: what was encrypted is decrypted with the random
      number sent beside it, accepted, and read as the device it came from. */
  lemma AuthRoundTrip(key: seq<Byte>, r: Report)
    requires |key| == Auth.KEY_SIZE && Sized(r) && r.AuthReport?
    ensures ReadAuth(key, AuthFields(key, r)) == Some(r)
  {
    var plain := Put(DeviceFields(r.device)) + Auth.AUTH_STRING;
    DeviceBytesSize(r.device);
    Auth.KeyedTwice(key, r.random, plain);
    assert plain[|plain| - Auth.TRAILER_SIZE..] == Auth.AUTH_STRING;
    Auth.AcceptedButNotSigned(Auth.AUTH_STRING, plain);
    DeviceRoundTrip(r.device, Auth.AUTH_STRING);
  }

  /** The tail of a report's packet, and the screen packets that follow it. */
  function PacketTail(r: Report): seq<Byte>
    requires Sized(r)
  {
    if r.IpTermReport? then [] else TailBytes(r)
  }

  function ScreenPackets(r: Report): seq<Packet>
    requires Sized(r)
  {
    if r.IpTermReport? then
      ScreensSize(r.screens);
      Screens(ScreensBytes(r.screens), |r.screens|)
    else []
  }

  /** The struct, tail and screens of a report read back as what was sent. */
  ghost predicate ReadsBack(key: seq<Byte>, r: Report)
    requires |key| == Auth.KEY_SIZE && Sized(r)
  {
    ReadFields(key, Descriptor(r), StructFields(key, r), PacketTail(r), ScreenPackets(r)) == Some(Sent(r))
  }

  lemma IpTermRoundTrip(r: Report)
    requires r.IpTermReport? && Sized(r)
    ensures ReadIpTerm(IpTermFields(r), Some(SentScreens(r.screens))) == Some(Sent(r))
  {
  }

  lemma IpTermReadsBack(key: seq<Byte>, r: Report)
    requires |key| == Auth.KEY_SIZE && Sized(r) && r.IpTermReport?
    ensures ReadsBack(key, r)
  {
    ScreensSize(r.screens);
    ScreensRoundTrip(r.screens);
    IpTermRoundTrip(r);
    var fs, back := StructFields(key, r), ReadScreens(ScreenPackets(r));
    assert fs == IpTermFields(r) && back == Some(SentScreens(r.screens));
    assert ReadFields(key, IP_TERM, fs, [], ScreenPackets(r)) == ReadIpTerm(fs, back);
  }

  lemma FileReadsBack(key: seq<Byte>, r: Report)
    requires |key| == Auth.KEY_SIZE && Sized(r) && (r.ConfReport? || r.ProcReport?)
    ensures ReadsBack(key, r)
  {
    FileRoundTrip(Clip(r.file));
  }

  /** The closing zero ends the file, or an earlier zero does. */
  lemma FileRoundTrip(file: seq<Byte>)
    ensures 0 in file + [0] && CString(file + [0]) == CString(file)
  {
    var p := CString(file);
    assert (file + [0])[|file|] == 0;
    Text.UpToIs(file + [0], p, 0);
  }

  lemma WholeFile(file: seq<Byte>)
    ensures CString(Clip(file)) == file <==> |file| <= MAX_FILE && 0 !in file
  {
    if 0 !in file && |file| <= MAX_FILE {
      Text.UpToIs(file, file, 0);
    }
  }

  lemma PlainRoundTrip(r: Report)
    requires Sized(r)
    ensures r.SysReport? ==> ReadSys(SysFields(r)) == r
    ensures r.TerReport? ==> ReadTer(TerFields(r)) == r
  {
  }

  lemma PlainReadsBack(key: seq<Byte>, r: Report)
    requires |key| == Auth.KEY_SIZE && Sized(r) && (r.SysReport? || r.TerReport? || r.EndReport?)
    ensures ReadsBack(key, r)
  {
    PlainRoundTrip(r);
    if r.SysReport? {
      assert StructFields(key, r) == SysFields(r);
    } else if r.TerReport? {
      assert StructFields(key, r) == TerFields(r);
    }
  }

  lemma FieldsRoundTrip(key: seq<Byte>, r: Report)
    requires |key| == Auth.KEY_SIZE && Sized(r)
    ensures ReadsBack(key, r)
  {
    if r.AuthReport? {
      AuthRoundTrip(key, r);
    } else if r.IpTermReport? {
      IpTermReadsBack(key, r);
    } else if r.ConfReport? || r.ProcReport? {
      FileReadsBack(key, r);
    } else {
      PlainReadsBack(key, r);
    }
  }

  lemma PacketsOfEncoded(key: seq<Byte>, r: Report)
    requires |key| == Auth.KEY_SIZE && Sized(r) && WholeMessage(Encode(key, r))
    ensures
      var ps := MessagePackets(Encode(key, r));
      && ps[0].header.descriptor == Descriptor(r) && ps[0].payload == Put(StructFields(key, r))
      && ps[0].tail == PacketTail(r) && ps[1..] == ScreenPackets(r)
  {
    var m := Encode(key, r);
    DecodedParts(key, r);
    HeaderOfEncoded(key, r);
    var ps := MessagePackets(m);
    assert ps[0] == Decode(m) && ps[1..] == Screens(m[Consumed(m)..], ScreenCount(m));
  }

  /** Every report comes back from the packets its message decodes to. */
  lemma RoundTrip(key: seq<Byte>, r: Report)
    requires |key| == Auth.KEY_SIZE && Sized(r)
    ensures WholeMessage(Encode(key, r))
    ensures Unpack(key, MessagePackets(Encode(key, r))) == Some(Sent(r))
  {
    EncodeIsWhole(key, r);
    PacketsOfEncoded(key, r);
    UnpackFields(key, MessagePackets(Encode(key, r)), Descriptor(r), StructFields(key, r));
    FieldsRoundTrip(key, r);
  }

  /** Unpacking finds the fields that were put into the struct. */
  lemma UnpackFields(key: seq<Byte>, ps: seq<Packet>, d: Byte, fs: seq<Field>)
    requires |key| == Auth.KEY_SIZE && ps != [] && ps[0].Record?
    requires Readable(d) && ps[0].header.descriptor == d && ps[0].payload == Put(fs) && Shapes(fs) == StructShape(d)
    ensures Unpack(key, ps) == ReadFields(key, d, fs, ps[0].tail, ps[1..])
  {
    GetPut(fs, []);
    assert Put(fs) + [] == Put(fs);
  }

  lemma SentIsSame(r: Report)
    ensures Sent(r) == r <==> SentWhole(r)
  {
    if r.IpTermReport? {
      SentScreensWhole(r.screens);
    } else if r.ConfReport? || r.ProcReport? {
      WholeFile(r.file);
    }
  }

  /** A report arrives unchanged exactly when no file exceeds the limit or contains a zero
      byte, no screen's address uses more than its lowest byte, and a terminal's address
      is zero. Fixed arrays are compared as the bytes of the packet here; what is stored
      of the names in them is the subject of module `Storage`. */
  lemma ArrivesUnchanged(key: seq<Byte>, r: Report)
    requires |key| == Auth.KEY_SIZE && Sized(r)
    ensures WholeMessage(Encode(key, r))
    ensures Unpack(key, MessagePackets(Encode(key, r))) == Some(r) <==>
      && (r.ConfReport? || r.ProcReport? ==> |r.file| <= 8191 && 0 !in r.file)
      && (r.IpTermReport? ==> r.ip == 0 && forall sc <- r.screens :: sc.ip <= 0xFF)
  {
    RoundTrip(key, r);
    SentIsSame(r);
  }

  /** What arrives of a file is its longest start without a zero byte, within the limit. */
  lemma FileArrives(r: Report)
    requires r.ConfReport? || r.ProcReport?
    ensures
      var got := Sent(r);
      && (got.ConfReport? <==> r.ConfReport?) && (got.ProcReport? <==> r.ProcReport?)
      && got.file <= r.file && |got.file| <= 8191 && 0 !in got.file
      && (|got.file| < |r.file| && |got.file| < 8191 ==> r.file[|got.file|] == 0)
  {
  }

  /** What arrives of a terminal is all but its address, which is zero, and of its screens
      all but three bytes of theirs. */
  lemma TerminalArrives(r: Report)
    requires r.IpTermReport?
    ensures
      var got := Sent(r);
      && got == r.(ip := 0, screens := got.screens) && |got.screens| == |r.screens|
      && forall i :: 0 <= i < |r.screens| ==> got.screens[i] == r.screens[i].(ip := r.screens[i].ip % 0x100)
  {
    ScreensArrive(r.screens);
  }

  lemma {:induction false} ScreensArrive(screens: seq<ScreenInfo>)
    ensures
      var got := SentScreens(screens);
      && |got| == |screens|
      && forall i :: 0 <= i < |screens| ==> got[i] == screens[i].(ip := screens[i].ip % 0x100)
  {
    if screens != [] {
      ScreensArrive(screens[1..]);
    }
  }

  /** Everything else arrives as it is. */
  lemma OthersArrive(r: Report)
    requires r.AuthReport? || r.SysReport? || r.TerReport? || r.EndReport?
    ensures Sent(r) == r
  {
  }

  /** The first eight bytes of a message: direction, descriptor, the length of the whole,
      the terminal's number or zero, and the length of the data. */
  lemma MessageStarts(key: seq<Byte>, r: Report)
    requires |key| == Auth.KEY_SIZE && Sized(r)
    ensures
      var m := Encode(key, r);
      && |m| >= 8 && m[0] == 0x91 && m[1] == Descriptor(r)
      && Big16(m, 2) == |m| == MessageLength(r) && Big16(m, 6) == |m| - 8
      && Big16(m, 4) == (if r.IpTermReport? then r.ttyno else 0)
  {
    HeaderOfEncoded(key, r);
    EncodedParts(key, r);
    NumberOfEncoded(key, r);
  }

  /** The descriptor and the length of every kind of message. */
  lemma KindsOfMessages(r: Report)
    requires Sized(r)
    ensures r.AuthReport? ==> Descriptor(r) == 0x01 && MessageLength(r) == 116
    ensures r.SysReport? ==> Descriptor(r) == 0x02 && MessageLength(r) == 28
    ensures r.ConfReport? ==> Descriptor(r) == 0x03
    ensures r.ProcReport? ==> Descriptor(r) == 0x04
    ensures r.ConfReport? || r.ProcReport? ==> MessageLength(r) == 9 + if |r.file| <= 8191 then |r.file| else 8191
    ensures r.TerReport? ==> Descriptor(r) == 0x09 && MessageLength(r) == 280
    ensures r.IpTermReport? ==> Descriptor(r) == 0x0B && MessageLength(r) == 36 + 96 * |r.screens|
    ensures r.EndReport? ==> Descriptor(r) == 0xFF && MessageLength(r) == 8
  {
  }

  lemma NumberOfEncoded(key: seq<Byte>, r: Report)
    requires |key| == Auth.KEY_SIZE && Sized(r)
    ensures
      var m := Encode(key, r);
      |m| >= 6 && Big16(m, 4) == if r.IpTermReport? then r.ttyno else 0
  {
    EncodedParts(key, r);
    FirstShort(key, r);
    ShortInSlice(Encode(key, r), Put(StructFields(key, r)), HEADER_SIZE);
  }

  lemma ShortInSlice(m: seq<Byte>, s: seq<Byte>, from: nat)
    requires from + |s| <= |m| && m[from..from + |s|] == s && |s| >= 2
    ensures Big16(m, from) == Big16(s, 0)
  {
    InSlice(m, s, from, 0);
    InSlice(m, s, from, 1);
  }

  lemma FirstShort(key: seq<Byte>, r: Report)
    requires |key| == Auth.KEY_SIZE && Sized(r)
    ensures
      var s := Put(StructFields(key, r));
      |s| >= 2 && Big16(s, 0) == if r.IpTermReport? then r.ttyno else 0
  {
    var fs := StructFields(key, r);
    FirstField(fs);
    NumberFirst(key, r);
  }

  lemma NumberFirst(key: seq<Byte>, r: Report)
    requires |key| == Auth.KEY_SIZE && Sized(r)
    ensures StructFields(key, r) != []
    ensures StructFields(key, r)[0] == U16(if r.IpTermReport? then r.ttyno else 0)
  {
  }

  lemma FirstField(fs: seq<Field>)
    requires fs != [] && fs[0].U16?
    ensures |Put(fs)| >= 2 && Big16(Put(fs), 0) == fs[0].short
  {
    ShortFieldAt(fs, 0);
    assert Shapes(fs)[..0] == [];
  }
}
