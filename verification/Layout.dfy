/** Where every field of a record stands: what the server reads of any bytes, by position. */
module Layout {
  import opened Wire
  import opened Fields
  import opened Stream
  import opened Reports
  import Auth
  import Text

  lemma AuthOffsets()
    ensures Size(AUTH_SHAPE) == 112 && Size(AUTH_SHAPE[..0]) == 0
    ensures Size(AUTH_SHAPE[..1]) == 2 && Size(AUTH_SHAPE[..2]) == 4 && Size(AUTH_SHAPE[..3]) == 108
  {
    WholeOffset(AUTH_SHAPE);
    FourOffsets(AUTH_SHAPE, 0, 0);
  }

  lemma AuthPlaces(s: seq<Byte>)
    requires |s| >= 112 == Size(AUTH_SHAPE)
    ensures
      var f := Get(AUTH_SHAPE, s);
      && f[0] == U16(Big16(s, 0)) && f[1] == U16(Big16(s, 2)) && f[2] == Arr(s[4..108])
      && f[3] == U32(Big32(s, 108))
  {
    AuthOffsets();
    ReadShort(AUTH_SHAPE, s, 0, 0);
    ReadShort(AUTH_SHAPE, s, 1, 2);
    ReadArray(AUTH_SHAPE, s, 2, 4, 108);
    ReadLong(AUTH_SHAPE, s, 3, 108);
  }

  lemma SysOffsets()
    ensures Size(SYS_INFO_SHAPE) == 24 && Size(SYS_INFO_SHAPE[..0]) == 0
    ensures Size(SYS_INFO_SHAPE[..1]) == 2 && Size(SYS_INFO_SHAPE[..2]) == 4 && Size(SYS_INFO_SHAPE[..3]) == 8
    ensures Size(SYS_INFO_SHAPE[..4]) == 12 && Size(SYS_INFO_SHAPE[..5]) == 16 && Size(SYS_INFO_SHAPE[..6]) == 20
  {
    WholeOffset(SYS_INFO_SHAPE);
    FourOffsets(SYS_INFO_SHAPE, 0, 0);
    NextOffset(SYS_INFO_SHAPE, 4, 12);
    NextOffset(SYS_INFO_SHAPE, 5, 16);
    NextOffset(SYS_INFO_SHAPE, 6, 20);
  }

  lemma SysPlaces0(s: seq<Byte>)
    requires |s| >= 24 == Size(SYS_INFO_SHAPE)
    ensures
      var f := Get(SYS_INFO_SHAPE, s);
      && f[0] == U16(Big16(s, 0)) && f[1] == U16(Big16(s, 2)) && f[2] == U32(Big32(s, 4))
      && f[3] == U32(Big32(s, 8))
  {
    SysOffsets();
    ReadShort(SYS_INFO_SHAPE, s, 0, 0);
    ReadShort(SYS_INFO_SHAPE, s, 1, 2);
    ReadLong(SYS_INFO_SHAPE, s, 2, 4);
    ReadLong(SYS_INFO_SHAPE, s, 3, 8);
  }

  lemma SysPlaces4(s: seq<Byte>)
    requires |s| >= 24 == Size(SYS_INFO_SHAPE)
    ensures
      var f := Get(SYS_INFO_SHAPE, s);
      && f[4] == U32(Big32(s, 12)) && f[5] == U32(Big32(s, 16)) && f[6] == U32(Big32(s, 20))
  {
    SysOffsets();
    ReadLong(SYS_INFO_SHAPE, s, 4, 12);
    ReadLong(SYS_INFO_SHAPE, s, 5, 16);
    ReadLong(SYS_INFO_SHAPE, s, 6, 20);
  }

  lemma SysPlaces(s: seq<Byte>)
    requires |s| >= 24 == Size(SYS_INFO_SHAPE)
    ensures
      var f := Get(SYS_INFO_SHAPE, s);
      && f[0] == U16(Big16(s, 0)) && f[1] == U16(Big16(s, 2)) && f[2] == U32(Big32(s, 4))
      && f[3] == U32(Big32(s, 8)) && f[4] == U32(Big32(s, 12)) && f[5] == U32(Big32(s, 16))
      && f[6] == U32(Big32(s, 20))
  {
    SysPlaces0(s);
    SysPlaces4(s);
  }

  lemma TerOffsets()
    ensures Size(TER_INFO_SHAPE) == 276 && Size(TER_INFO_SHAPE[..0]) == 0
    ensures Size(TER_INFO_SHAPE[..1]) == 2 && Size(TER_INFO_SHAPE[..2]) == 4 && Size(TER_INFO_SHAPE[..3]) == 20
    ensures Size(TER_INFO_SHAPE[..4]) == 274
  {
    WholeOffset(TER_INFO_SHAPE);
    FourOffsets(TER_INFO_SHAPE, 0, 0);
    NextOffset(TER_INFO_SHAPE, 4, 274);
  }

  lemma TerPlaces(s: seq<Byte>)
    requires |s| >= 276 == Size(TER_INFO_SHAPE)
    ensures
      var f := Get(TER_INFO_SHAPE, s);
      && f[0] == U16(Big16(s, 0)) && f[1] == U16(Big16(s, 2)) && f[2] == Arr(s[4..20])
      && f[3] == Arr(s[20..274]) && f[4] == U16(Big16(s, 274))
  {
    TerOffsets();
    ReadShort(TER_INFO_SHAPE, s, 0, 0);
    ReadShort(TER_INFO_SHAPE, s, 1, 2);
    ReadArray(TER_INFO_SHAPE, s, 2, 4, 20);
    ReadArray(TER_INFO_SHAPE, s, 3, 20, 274);
    ReadShort(TER_INFO_SHAPE, s, 4, 274);
  }

  lemma IpTermOffsets()
    ensures Size(IP_TERM_SHAPE) == 32 && Size(IP_TERM_SHAPE[..0]) == 0
    ensures Size(IP_TERM_SHAPE[..1]) == 2 && Size(IP_TERM_SHAPE[..2]) == 4 && Size(IP_TERM_SHAPE[..3]) == 5
    ensures Size(IP_TERM_SHAPE[..4]) == 6 && Size(IP_TERM_SHAPE[..5]) == 7 && Size(IP_TERM_SHAPE[..6]) == 8
    ensures Size(IP_TERM_SHAPE[..7]) == 12 && Size(IP_TERM_SHAPE[..8]) == 24
  {
    WholeOffset(IP_TERM_SHAPE);
    FourOffsets(IP_TERM_SHAPE, 0, 0);
    FourOffsets(IP_TERM_SHAPE, 4, 6);
    NextOffset(IP_TERM_SHAPE, 8, 24);
  }

  lemma IpTermPlaces0(s: seq<Byte>)
    requires |s| >= 32 == Size(IP_TERM_SHAPE)
    ensures
      var f := Get(IP_TERM_SHAPE, s);
      && f[0] == U16(Big16(s, 0)) && f[1] == U16(Big16(s, 2)) && f[2] == U8(s[4])
      && f[3] == U8(s[5])
  {
    IpTermOffsets();
    ReadShort(IP_TERM_SHAPE, s, 0, 0);
    ReadShort(IP_TERM_SHAPE, s, 1, 2);
    ReadByte(IP_TERM_SHAPE, s, 2, 4);
    ReadByte(IP_TERM_SHAPE, s, 3, 5);
  }

  lemma IpTermPlaces4(s: seq<Byte>)
    requires |s| >= 32 == Size(IP_TERM_SHAPE)
    ensures
      var f := Get(IP_TERM_SHAPE, s);
      f[4] == U8(s[6]) && f[5] == U8(s[7])
  {
    IpTermOffsets();
    ReadByte(IP_TERM_SHAPE, s, 4, 6);
    ReadByte(IP_TERM_SHAPE, s, 5, 7);
  }

  lemma IpTermPlaces6(s: seq<Byte>)
    requires |s| >= 32 == Size(IP_TERM_SHAPE)
    ensures
      var f := Get(IP_TERM_SHAPE, s);
      f[6] == U32(Big32(s, 8)) && f[7] == Arr(s[12..24])
  {
    IpTermOffsets();
    ReadLong(IP_TERM_SHAPE, s, 6, 8);
    ReadArray(IP_TERM_SHAPE, s, 7, 12, 24);
  }

  lemma IpTermPlaces8(s: seq<Byte>)
    requires |s| >= 32 == Size(IP_TERM_SHAPE)
    ensures
      var f := Get(IP_TERM_SHAPE, s);
      && f[8] == Arr(s[24..32])
  {
    IpTermOffsets();
    ReadArray(IP_TERM_SHAPE, s, 8, 24, 32);
  }

  lemma IpTermPlaces(s: seq<Byte>)
    requires |s| >= 32 == Size(IP_TERM_SHAPE)
    ensures
      var f := Get(IP_TERM_SHAPE, s);
      && f[0] == U16(Big16(s, 0)) && f[1] == U16(Big16(s, 2)) && f[2] == U8(s[4])
      && f[3] == U8(s[5]) && f[4] == U8(s[6]) && f[5] == U8(s[7])
      && f[6] == U32(Big32(s, 8)) && f[7] == Arr(s[12..24]) && f[8] == Arr(s[24..32])
  {
    IpTermPlaces0(s);
    IpTermPlaces4(s);
    IpTermPlaces6(s);
    IpTermPlaces8(s);
  }

  lemma DeviceOffsets()
    ensures Size(DEVICE_SHAPE) == 72 && Size(DEVICE_SHAPE[..0]) == 0
    ensures Size(DEVICE_SHAPE[..1]) == 2 && Size(DEVICE_SHAPE[..2]) == 4 && Size(DEVICE_SHAPE[..3]) == 6
    ensures Size(DEVICE_SHAPE[..4]) == 8 && Size(DEVICE_SHAPE[..5]) == 24 && Size(DEVICE_SHAPE[..6]) == 40
    ensures Size(DEVICE_SHAPE[..7]) == 56 && Size(DEVICE_SHAPE[..8]) == 64 && Size(DEVICE_SHAPE[..9]) == 68
    ensures Size(DEVICE_SHAPE[..10]) == 69
  {
    WholeOffset(DEVICE_SHAPE);
    FourOffsets(DEVICE_SHAPE, 0, 0);
    FourOffsets(DEVICE_SHAPE, 4, 8);
    NextOffset(DEVICE_SHAPE, 8, 64);
    NextOffset(DEVICE_SHAPE, 9, 68);
    NextOffset(DEVICE_SHAPE, 10, 69);
  }

  lemma DevicePlaces0(s: seq<Byte>)
    requires |s| >= 72 == Size(DEVICE_SHAPE)
    ensures
      var f := Get(DEVICE_SHAPE, s);
      && f[0] == U16(Big16(s, 0)) && f[1] == U16(Big16(s, 2)) && f[2] == U16(Big16(s, 4))
      && f[3] == U16(Big16(s, 6))
  {
    DeviceOffsets();
    ReadShort(DEVICE_SHAPE, s, 0, 0);
    ReadShort(DEVICE_SHAPE, s, 1, 2);
    ReadShort(DEVICE_SHAPE, s, 2, 4);
    ReadShort(DEVICE_SHAPE, s, 3, 6);
  }

  lemma DeviceArrays()
    ensures DEVICE_SHAPE[4] == DEVICE_SHAPE[5] == DEVICE_SHAPE[6] == SArr(16) && DEVICE_SHAPE[7] == SArr(8)
  {
  }

  lemma DevicePlace4(s: seq<Byte>)
    requires |s| >= 72 == Size(DEVICE_SHAPE)
    ensures Get(DEVICE_SHAPE, s)[4] == Arr(s[8..24])
  {
    DeviceOffsets();
    DeviceArrays();
    ReadArray(DEVICE_SHAPE, s, 4, 8, 24);
  }

  lemma DevicePlace5(s: seq<Byte>)
    requires |s| >= 72 == Size(DEVICE_SHAPE)
    ensures Get(DEVICE_SHAPE, s)[5] == Arr(s[24..40])
  {
    DeviceOffsets();
    DeviceArrays();
    ReadArray(DEVICE_SHAPE, s, 5, 24, 40);
  }

  lemma DevicePlace6(s: seq<Byte>)
    requires |s| >= 72 == Size(DEVICE_SHAPE)
    ensures Get(DEVICE_SHAPE, s)[6] == Arr(s[40..56])
  {
    DeviceOffsets();
    DeviceArrays();
    ReadArray(DEVICE_SHAPE, s, 6, 40, 56);
  }

  lemma DevicePlace7(s: seq<Byte>)
    requires |s| >= 72 == Size(DEVICE_SHAPE)
    ensures Get(DEVICE_SHAPE, s)[7] == Arr(s[56..64])
  {
    DeviceOffsets();
    DeviceArrays();
    ReadArray(DEVICE_SHAPE, s, 7, 56, 64);
  }

  lemma DevicePlaces8(s: seq<Byte>)
    requires |s| >= 72 == Size(DEVICE_SHAPE)
    ensures
      var f := Get(DEVICE_SHAPE, s);
      && f[8] == U32(Big32(s, 64)) && f[9] == U8(s[68]) && f[10] == Arr(s[69..72])
  {
    DeviceOffsets();
    ReadLong(DEVICE_SHAPE, s, 8, 64);
    ReadByte(DEVICE_SHAPE, s, 9, 68);
    ReadArray(DEVICE_SHAPE, s, 10, 69, 72);
  }

  lemma DevicePlaces(s: seq<Byte>)
    requires |s| >= 72 == Size(DEVICE_SHAPE)
    ensures
      var f := Get(DEVICE_SHAPE, s);
      && f[0] == U16(Big16(s, 0)) && f[1] == U16(Big16(s, 2)) && f[2] == U16(Big16(s, 4))
      && f[3] == U16(Big16(s, 6)) && f[4] == Arr(s[8..24]) && f[5] == Arr(s[24..40])
      && f[6] == Arr(s[40..56]) && f[7] == Arr(s[56..64]) && f[8] == U32(Big32(s, 64))
      && f[9] == U8(s[68]) && f[10] == Arr(s[69..72])
  {
    DevicePlaces0(s);
    DevicePlace4(s);
    DevicePlace5(s);
    DevicePlace6(s);
    DevicePlace7(s);
    DevicePlaces8(s);
  }

  lemma ScreenOffsets()
    ensures Size(SCREEN_SHAPE) == 96 && Size(SCREEN_SHAPE[..0]) == 0
    ensures Size(SCREEN_SHAPE[..1]) == 1 && Size(SCREEN_SHAPE[..2]) == 2 && Size(SCREEN_SHAPE[..3]) == 4
    ensures Size(SCREEN_SHAPE[..4]) == 8 && Size(SCREEN_SHAPE[..5]) == 20 && Size(SCREEN_SHAPE[..6]) == 28
    ensures Size(SCREEN_SHAPE[..7]) == 52 && Size(SCREEN_SHAPE[..8]) == 64 && Size(SCREEN_SHAPE[..9]) == 68
    ensures Size(SCREEN_SHAPE[..10]) == 72 && Size(SCREEN_SHAPE[..11]) == 76 && Size(SCREEN_SHAPE[..12]) == 80
    ensures Size(SCREEN_SHAPE[..13]) == 84 && Size(SCREEN_SHAPE[..14]) == 88 && Size(SCREEN_SHAPE[..15]) == 92
  {
    WholeOffset(SCREEN_SHAPE);
    FourOffsets(SCREEN_SHAPE, 0, 0);
    FourOffsets(SCREEN_SHAPE, 4, 8);
    FourOffsets(SCREEN_SHAPE, 8, 64);
    FourOffsets(SCREEN_SHAPE, 12, 80);
  }

  lemma ScreenPlaces0(s: seq<Byte>)
    requires |s| >= 96 == Size(SCREEN_SHAPE)
    ensures
      var f := Get(SCREEN_SHAPE, s);
      && f[0] == U8(s[0]) && f[1] == U8(s[1]) && f[2] == U16(Big16(s, 2))
      && f[3] == U32(Big32(s, 4))
  {
    ScreenOffsets();
    ReadByte(SCREEN_SHAPE, s, 0, 0);
    ReadByte(SCREEN_SHAPE, s, 1, 1);
    ReadShort(SCREEN_SHAPE, s, 2, 2);
    ReadLong(SCREEN_SHAPE, s, 3, 4);
  }

  lemma ScreenPlaces4(s: seq<Byte>)
    requires |s| >= 96 == Size(SCREEN_SHAPE)
    ensures
      var f := Get(SCREEN_SHAPE, s);
      f[4] == Arr(s[8..20]) && f[5] == Arr(s[20..28])
  {
    ScreenOffsets();
    ReadArray(SCREEN_SHAPE, s, 4, 8, 20);
    ReadArray(SCREEN_SHAPE, s, 5, 20, 28);
  }

  lemma ScreenPlaces6(s: seq<Byte>)
    requires |s| >= 96 == Size(SCREEN_SHAPE)
    ensures
      var f := Get(SCREEN_SHAPE, s);
      f[6] == Arr(s[28..52]) && f[7] == Arr(s[52..64])
  {
    ScreenOffsets();
    ReadArray(SCREEN_SHAPE, s, 6, 28, 52);
    ReadArray(SCREEN_SHAPE, s, 7, 52, 64);
  }

  lemma ScreenPlaces8(s: seq<Byte>)
    requires |s| >= 96 == Size(SCREEN_SHAPE)
    ensures
      var f := Get(SCREEN_SHAPE, s);
      && f[8] == U32(Big32(s, 64)) && f[9] == U32(Big32(s, 68)) && f[10] == U32(Big32(s, 72))
      && f[11] == U32(Big32(s, 76))
  {
    ScreenOffsets();
    ReadLong(SCREEN_SHAPE, s, 8, 64);
    ReadLong(SCREEN_SHAPE, s, 9, 68);
    ReadLong(SCREEN_SHAPE, s, 10, 72);
    ReadLong(SCREEN_SHAPE, s, 11, 76);
  }

  lemma ScreenPlaces12(s: seq<Byte>)
    requires |s| >= 96 == Size(SCREEN_SHAPE)
    ensures
      var f := Get(SCREEN_SHAPE, s);
      && f[12] == U32(Big32(s, 80)) && f[13] == U32(Big32(s, 84)) && f[14] == U32(Big32(s, 88))
      && f[15] == U32(Big32(s, 92))
  {
    ScreenOffsets();
    ReadLong(SCREEN_SHAPE, s, 12, 80);
    ReadLong(SCREEN_SHAPE, s, 13, 84);
    ReadLong(SCREEN_SHAPE, s, 14, 88);
    ReadLong(SCREEN_SHAPE, s, 15, 92);
  }

  lemma ScreenPlaces(s: seq<Byte>)
    requires |s| >= 96 == Size(SCREEN_SHAPE)
    ensures
      var f := Get(SCREEN_SHAPE, s);
      && f[0] == U8(s[0]) && f[1] == U8(s[1]) && f[2] == U16(Big16(s, 2))
      && f[3] == U32(Big32(s, 4)) && f[4] == Arr(s[8..20]) && f[5] == Arr(s[20..28])
      && f[6] == Arr(s[28..52]) && f[7] == Arr(s[52..64]) && f[8] == U32(Big32(s, 64))
      && f[9] == U32(Big32(s, 68)) && f[10] == U32(Big32(s, 72)) && f[11] == U32(Big32(s, 76))
      && f[12] == U32(Big32(s, 80)) && f[13] == U32(Big32(s, 84)) && f[14] == U32(Big32(s, 88))
      && f[15] == U32(Big32(s, 92))
  {
    ScreenPlaces0(s);
    ScreenPlaces4(s);
    ScreenPlaces6(s);
    ScreenPlaces8(s);
    ScreenPlaces12(s);
  }

  // ----- The records read

  /** The decrypted authentication record, from its lengths on. */
  lemma DeviceRead(s: seq<Byte>)
    requires |s| >= 72
    ensures ReadDevice(s) ==
      Device(Big16(s, 0), Big16(s, 2), Big16(s, 4), Big16(s, 6), s[8..24], s[24..40], s[40..56], Big32(s, 64), s[68])
  {
    DeviceOffsets();
    DevicePlaces(s);
  }

  lemma ScreenRead(s: seq<Byte>)
    requires |s| >= 96
    ensures ReadScreen(s) ==
      ScreenInfo(s[0], Big16(s, 2), Big32(s, 4), s[8..20], s[20..28], s[28..52], s[52..64],
        Big32(s, 64), Big32(s, 68), Big32(s, 72), Big32(s, 76), Big32(s, 80), Big32(s, 84), Big32(s, 88), Big32(s, 92))
  {
    ScreenOffsets();
    ScreenPlaces(s);
  }

  /** A packet with this descriptor and a struct of its size. */
  ghost predicate Carries(ps: seq<Packet>, descriptor: Byte, size: nat) {
    ps != [] && ps[0].Record? && ps[0].header.descriptor == descriptor && |ps[0].payload| == size
  }

  lemma UnpackRead(key: seq<Byte>, ps: seq<Packet>, d: Byte)
    requires |key| == Auth.KEY_SIZE && Readable(d) && Carries(ps, d, StructSize(d).value)
    ensures |ps[0].payload| >= Size(StructShape(d)) && Shapes(Get(StructShape(d), ps[0].payload)) == StructShape(d)
    ensures Unpack(key, ps) == ReadFields(key, d, Get(StructShape(d), ps[0].payload), ps[0].tail, ps[1..])
  {
    GetShapes(StructShape(d), ps[0].payload);
  }

  lemma SysRead(key: seq<Byte>, ps: seq<Packet>)
    requires |key| == 4096 && Carries(ps, 0x02, 24)
    ensures
      var s := ps[0].payload;
      Unpack(key, ps) == Some(SysReport(Big32(s, 4), Big32(s, 8), Big32(s, 12), Big32(s, 16), Big32(s, 20)))
  {
    UnpackRead(key, ps, 0x02);
    SysOffsets();
    SysPlaces(ps[0].payload);
  }

  lemma TerRead(key: seq<Byte>, ps: seq<Packet>)
    requires |key| == 4096 && Carries(ps, 0x09, 276)
    ensures
      var s := ps[0].payload;
      Unpack(key, ps) == Some(TerReport(s[4..20], s[20..274], Big16(s, 274)))
  {
    UnpackRead(key, ps, 0x09);
    TerOffsets();
    TerPlaces(ps[0].payload);
  }

  /** The fields of a terminal record. Of the address, the 16-bit swap keeps the first two
      bytes. */
  lemma IpTermOf(s: seq<Byte>, screens: Option<seq<ScreenInfo>>)
    requires |s| == 32 == Size(IP_TERM_SHAPE) && Shapes(Get(IP_TERM_SHAPE, s)) == IP_TERM_SHAPE
    ensures ReadIpTerm(Get(IP_TERM_SHAPE, s), screens) ==
      if screens.None? then None
      else Some(IpTermReport(Big16(s, 0), s[4], s[5], s[6], Big16(s, 8), s[12..24], s[24..32], screens.value))
  {
    IpTermPlaces(s);
    assert Big32(s, 8) / 0x1_0000 == Big16(s, 8);
  }

  lemma IpTermRead(key: seq<Byte>, ps: seq<Packet>)
    requires |key| == 4096 && Carries(ps, 0x0B, 32)
    ensures
      var s, screens := ps[0].payload, ReadScreens(ps[1..]);
      Unpack(key, ps) ==
        if screens.None? then None
        else Some(IpTermReport(Big16(s, 0), s[4], s[5], s[6], Big16(s, 8), s[12..24], s[24..32], screens.value))
  {
    UnpackRead(key, ps, 0x0B);
    IpTermOf(ps[0].payload, ReadScreens(ps[1..]));
  }

  lemma EndsAt(tail: seq<Byte>, file: seq<Byte>)
    requires 0 !in file && file + [0] <= tail
    ensures 0 in tail && CString(tail) == file
  {
    assert tail[|file|] == (file + [0])[|file|] == 0;
    assert file == (file + [0])[..|file|] == tail[..|file|];
    Text.UpToIs(tail, file, 0);
  }

  /** A file is the tail up to its first zero byte; without one it has no end. */
  lemma FileRead(key: seq<Byte>, ps: seq<Packet>, d: Byte, file: seq<Byte>)
    requires |key| == 4096 && (d == 0x03 || d == 0x04) && Carries(ps, d, 4)
    requires 0 !in file && file + [0] <= ps[0].tail
    ensures Unpack(key, ps) == Some(if d == 0x03 then ConfReport(file) else ProcReport(file))
  {
    EndsAt(ps[0].tail, file);
    UnpackRead(key, ps, d);
  }

  lemma NoFileRead(key: seq<Byte>, ps: seq<Packet>, d: Byte)
    requires |key| == 4096 && (d == 0x03 || d == 0x04) && Carries(ps, d, 4) && 0 !in ps[0].tail
    ensures Unpack(key, ps) == None
  {
    UnpackRead(key, ps, d);
  }

  lemma EndRead(key: seq<Byte>, ps: seq<Packet>)
    requires |key| == 4096 && Carries(ps, 0xFF, 4)
    ensures Unpack(key, ps) == Some(EndReport)
  {
    UnpackRead(key, ps, 0xFF);
  }

  /** All screen records that follow are read. */
  lemma {:induction false} ScreensRead(ps: seq<Packet>)
    requires forall q <- ps :: q.Screen? && |q.payload| == 96
    ensures ReadScreens(ps).Some? && |ReadScreens(ps).value| == |ps|
  {
    if ps != [] {
      ScreensRead(ps[1..]);
      FirstScreenRead(ps);
    }
  }

  lemma FirstScreenRead(ps: seq<Packet>)
    requires ps != [] && ps[0].Screen? && |ps[0].payload| == 96 && ReadScreens(ps[1..]).Some?
    ensures ReadScreens(ps) == Some([ReadScreen(ps[0].payload)] + ReadScreens(ps[1..]).value)
  {
  }

  /** An authentication record is read exactly when the last 31 of its decrypted bytes are
      those of the fixed string, and then it is the device that they start with. */
  lemma AuthRead(key: seq<Byte>, ps: seq<Packet>)
    requires |key| == 4096 && Carries(ps, 0x01, 112)
    ensures
      var s := ps[0].payload;
      var plain := Auth.Keyed(key, Big32(s, 108), s[4..108]);
      && Auth.XoredWithKey(key, Big32(s, 108), s[4..108], plain)
      && Unpack(key, ps) ==
        if plain[73..] == Auth.AUTH_STRING[1..] then Some(AuthReport(ReadDevice(plain), Big32(s, 108))) else None
  {
    var s := ps[0].payload;
    UnpackRead(key, ps, 0x01);
    AuthOffsets();
    AuthPlaces(s);
    AcceptedIff(key, s, Big32(s, 108));
  }

  lemma AcceptedIff(key: seq<Byte>, s: seq<Byte>, random: nat)
    requires |key| == 4096 && |s| == 112
    ensures
      var plain := Auth.Keyed(key, random, s[4..108]);
      && Auth.XoredWithKey(key, random, s[4..108], plain)
      && (Auth.TrailerMatches(Auth.AUTH_STRING, plain) <==> plain[73..] == Auth.AUTH_STRING[1..])
  {
    Auth.KeyedBits(key, random, s[4..108]);
    Auth.LongBuffer(Auth.AUTH_STRING, Auth.Keyed(key, random, s[4..108]));
  }

  // ----- What is written but not read

  /** The port counts and the padding of a device are zero. */
  lemma DevicePads(d: Device)
    requires DeviceSized(d)
    ensures
      var s := Put(DeviceFields(d));
      |s| == 72 && (forall i :: 56 <= i < 64 ==> s[i] == 0) && forall i :: 69 <= i < 72 ==> s[i] == 0
  {
    var s := Put(DeviceFields(d));
    DeviceBytesSize(d);
    DeviceOffsets();
    PadField(DeviceFields(d), 7, 56, 8);
    PadField(DeviceFields(d), 10, 69, 3);
  }

  lemma PadField(fs: seq<Field>, k: nat, at: nat, n: nat)
    requires k < |fs| && fs[k] == Arr(Zeros(n)) && at == Size(Shapes(fs)[..k])
    ensures at + n <= |Put(fs)| && forall i :: at <= i < at + n ==> Put(fs)[i] == 0
  {
    FieldAt(fs, k);
    ShapesTake(fs, k);
    ZeroSlice(Put(fs), at, n, PutOne(fs[k]));
  }

  lemma ZeroSlice(s: seq<Byte>, at: nat, n: nat, zeros: seq<Byte>)
    requires at + n <= |s| && s[at..at + n] == zeros && zeros == Zeros(n)
    ensures forall i :: at <= i < at + n ==> s[i] == 0
  {
    forall i | at <= i < at + n
      ensures s[i] == 0
    {
      assert s[i] == zeros[i - at];
    }
  }

  lemma ScreenPad(sc: ScreenInfo)
    requires ScreenSized(sc)
    ensures |Put(ScreenFields(sc))| == 96 && Put(ScreenFields(sc))[1] == 0
  {
    var fs := Reports.ScreenFields(sc);
    ScreenSize(sc);
    ScreenOffsets();
    ByteFieldAt(fs, 1);
  }
}
