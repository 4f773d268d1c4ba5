/** The two sides in dialogue: the client answers each request with an encoded report, the
    server takes it from the ring, decodes it, and goes on with its session. */
module Dialogue {
  import opened Wire
  import opened Fields
  import opened Reports
  import opened Session
  import opened Encoder
  import opened Receiver
  import Stream
  import Transfer
  import Arrivals
  import Auth
  import Layout

  // ----- What the session looks at in a message

  // The index of `ethnum` in the decrypted authentication record.
  const ETHNUM_AT := 56

  function ReplyFields(key: seq<Byte>, d: Byte, f: seq<Field>): Reply
    requires |key| == Auth.KEY_SIZE && Readable(d) && Shapes(f) == StructShape(d)
  {
    FieldShapes(f);
    match d
    case 0x01 =>
      var plain := Auth.Keyed(key, f[3].long, f[2].bytes);
      if Auth.TrailerMatches(Auth.AUTH_STRING, plain) then AuthReply(plain[ETHNUM_AT]) else Other
    case 0x02 => SysInfoReply
    case 0x03 => ConfInfoReply
    case 0x04 => ProcInfoReply
    case 0x09 => TerInfoReply(f[2].bytes, f[3].bytes, f[4].short)
    case 0x0B => TerminalReply(f[5].byte)
    case _ => EndReply
  }

  /** The packets of one message as a reply: its direction, its descriptor, and the fields
      that the session branches on. */
  function ReplyOf(key: seq<Byte>, ps: seq<Packet>): Reply
    requires |key| == Auth.KEY_SIZE
  {
    if ps == [] || !ps[0].Record? || ps[0].header.direction != DIRECTION then Other
    else
      var d, payload := ps[0].header.descriptor, ps[0].payload;
      if d == 0x05 then EtherInfoReply
      else if !Readable(d) || |payload| != StructSize(d).value then Other
      else
        GetShapes(StructShape(d), payload);
        ReplyFields(key, d, Get(StructShape(d), payload))
  }

  /** What a packet is taken for, by its bytes. One with a wrong direction, or of another
      descriptor, is nothing the session waits for. */
  lemma ReplyIs(key: seq<Byte>, ps: seq<Packet>)
    requires |key| == 4096 && ps != [] && ps[0].Record? && ps[0].header.direction == 0x91
    ensures ps[0].header.descriptor == 0x05 ==> ReplyOf(key, ps) == EtherInfoReply
    ensures Layout.Carries(ps, 0x02, 24) ==> ReplyOf(key, ps) == SysInfoReply
    ensures Layout.Carries(ps, 0x03, 4) ==> ReplyOf(key, ps) == ConfInfoReply
    ensures Layout.Carries(ps, 0x04, 4) ==> ReplyOf(key, ps) == ProcInfoReply
    ensures Layout.Carries(ps, 0xFF, 4) ==> ReplyOf(key, ps) == EndReply
    ensures ps[0].header.descriptor !in {0x01, 0x02, 0x03, 0x04, 0x05, 0x09, 0x0B, 0xFF} ==> ReplyOf(key, ps) == Other
  {
  }

  lemma WrongDirection(key: seq<Byte>, ps: seq<Packet>)
    requires |key| == 4096 && ps != [] && ps[0].Record? && ps[0].header.direction != 0x91
    ensures ReplyOf(key, ps) == Other
  {
  }

  lemma ReplyRead(key: seq<Byte>, ps: seq<Packet>, d: Byte)
    requires |key| == Auth.KEY_SIZE && Readable(d) && Layout.Carries(ps, d, StructSize(d).value)
    requires ps[0].header.direction == DIRECTION
    ensures |ps[0].payload| >= Size(StructShape(d)) && Shapes(Get(StructShape(d), ps[0].payload)) == StructShape(d)
    ensures ReplyOf(key, ps) == ReplyFields(key, d, Get(StructShape(d), ps[0].payload))
  {
    GetShapes(StructShape(d), ps[0].payload);
  }

  lemma TerminalsReplied(key: seq<Byte>, ps: seq<Packet>)
    requires |key| == 4096 && Layout.Carries(ps, 0x09, 276) && ps[0].header.direction == 0x91
    ensures
      var s := ps[0].payload;
      ReplyOf(key, ps) == TerInfoReply(s[4..20], s[20..274], Big16(s, 274))
  {
    ReplyRead(key, ps, 0x09);
    Layout.TerPlaces(ps[0].payload);
  }

  lemma TerminalReplied(key: seq<Byte>, ps: seq<Packet>)
    requires |key| == 4096 && Layout.Carries(ps, 0x0B, 32) && ps[0].header.direction == 0x91
    ensures ReplyOf(key, ps) == TerminalReply(ps[0].payload[7])
  {
    ReplyRead(key, ps, 0x0B);
    Layout.IpTermPlaces4(ps[0].payload);
  }

  /** An authentication record is taken for one exactly when it is read as a report, that
      is, when its trailer is right; its number of ports is the byte behind the names. */
  lemma AuthReplied(key: seq<Byte>, ps: seq<Packet>)
    requires |key| == 4096 && Layout.Carries(ps, 0x01, 112) && ps[0].header.direction == 0x91
    ensures ReplyOf(key, ps).AuthReply? <==> Unpack(key, ps).Some?
    ensures
      var s := ps[0].payload;
      var plain := Auth.Keyed(key, Big32(s, 108), s[4..108]);
      ReplyOf(key, ps) == if plain[73..] == Auth.AUTH_STRING[1..] then AuthReply(plain[56]) else Other
  {
    var s := ps[0].payload;
    ReplyRead(key, ps, 0x01);
    Layout.AuthPlaces(s);
    Layout.AuthRead(key, ps);
    Layout.AcceptedIff(key, s, Big32(s, 108));
  }

  /** The reply that a report is taken for. The client announces no Ethernet port. */
  function KindOf(r: Report): Reply
    requires Sized(r)
  {
    match r
    case AuthReport(_, _) => AuthReply(0)
    case SysReport(_, _, _, _, _) => SysInfoReply
    case ConfReport(_) => ConfInfoReply
    case ProcReport(_) => ProcInfoReply
    case TerReport(dumbTerm, ipTerm, termNum) => TerInfoReply(dumbTerm, ipTerm, termNum)
    case IpTermReport(_, _, _, _, _, _, _, screens) => TerminalReply(|screens|)
    case EndReport => EndReply
  }

  /** The port counts follow the names. */
  lemma NoPorts(d: Device)
    requires DeviceSized(d)
    ensures |Put(DeviceFields(d))| == DEVICE_SIZE && Put(DeviceFields(d))[ETHNUM_AT] == 0
  {
    var fs := DeviceFields(d);
    DeviceBytesSize(d);
    PortsAt();
    ShapesTake(fs, 7);
    FieldAt(fs, 7);
    assert fs[7] == Arr(Zeros(8));
    assert Put(fs)[ETHNUM_AT..ETHNUM_AT + 8][0] == 0;
  }

  lemma PortsAt()
    ensures Size(DEVICE_SHAPE[..7]) == ETHNUM_AT
  {
    var names := DEVICE_NAMES_SHAPE[..3];
    assert DEVICE_SHAPE[..7] == DEVICE_NUMBERS_SHAPE + names;
    SizeAppend(DEVICE_NUMBERS_SHAPE, names);
    Size4(DEVICE_NUMBERS_SHAPE);
    ThreeNames(names);
  }

  lemma ThreeNames(names: seq<Shape>)
    requires names == [SArr(16), SArr(16), SArr(16)]
    ensures Size(names) == 48
  {
    var two, one := names[1..], names[2..];
    assert two[1..] == one && one[1..] == [];
    assert Size(one) == 16 + Size(one[1..]) && Size(two) == 16 + Size(two[1..]);
  }

  lemma AuthKind(key: seq<Byte>, r: Report)
    requires |key| == Auth.KEY_SIZE && Sized(r) && r.AuthReport?
    ensures ReplyFields(key, AUTH, AuthFields(key, r)) == AuthReply(0)
  {
    var device := Put(DeviceFields(r.device));
    var plain := device + Auth.AUTH_STRING;
    NoPorts(r.device);
    Auth.KeyedTwice(key, r.random, plain);
    assert plain[|plain| - Auth.TRAILER_SIZE..] == Auth.AUTH_STRING;
    Auth.AcceptedButNotSigned(Auth.AUTH_STRING, plain);
    assert plain[ETHNUM_AT] == device[ETHNUM_AT];
  }

  lemma TerminalKinds(key: seq<Byte>, r: Report)
    requires |key| == Auth.KEY_SIZE && Sized(r)
    ensures r.TerReport? ==> ReplyFields(key, TER_INFO, TerFields(r)) == KindOf(r)
    ensures r.IpTermReport? ==> ReplyFields(key, IP_TERM, IpTermFields(r)) == KindOf(r)
  {
  }

  lemma FieldsKind(key: seq<Byte>, r: Report)
    requires |key| == Auth.KEY_SIZE && Sized(r)
    ensures ReplyFields(key, Descriptor(r), StructFields(key, r)) == KindOf(r)
  {
    if r.AuthReport? {
      AuthKind(key, r);
    } else if r.TerReport? || r.IpTermReport? {
      TerminalKinds(key, r);
    }
  }

  lemma ReplyOfFields(key: seq<Byte>, ps: seq<Packet>, d: Byte, fs: seq<Field>)
    requires |key| == Auth.KEY_SIZE && ps != [] && ps[0].Record? && ps[0].header.direction == DIRECTION
    requires Readable(d) && ps[0].header.descriptor == d && ps[0].payload == Put(fs) && Shapes(fs) == StructShape(d)
    ensures ReplyOf(key, ps) == ReplyFields(key, d, fs)
  {
    GetPut(fs, []);
    assert Put(fs) + [] == Put(fs);
  }

  lemma DirectionOfEncoded(key: seq<Byte>, r: Report)
    requires |key| == Auth.KEY_SIZE && Sized(r) && Stream.WholeMessage(Encode(key, r))
    ensures Stream.MessagePackets(Encode(key, r))[0].header.direction == DIRECTION
  {
    EncodedParts(key, r);
  }

  /** The session takes every encoded report for what it is. */
  lemma ReplyOfEncoded(key: seq<Byte>, r: Report)
    requires |key| == Auth.KEY_SIZE && Sized(r)
    ensures Stream.WholeMessage(Encode(key, r))
    ensures ReplyOf(key, Stream.MessagePackets(Encode(key, r))) == KindOf(r)
  {
    EncodeIsWhole(key, r);
    PacketsOfEncoded(key, r);
    DirectionOfEncoded(key, r);
    ReplyOfFields(key, Stream.MessagePackets(Encode(key, r)), Descriptor(r), StructFields(key, r));
    FieldsKind(key, r);
  }

  // ----- A client with its reports

  /** What a client has to report: its terminals by number, and those it flags. */
  datatype Station = Station(
    device: Device, random: Long, system: Report, configuration: seq<Byte>, processes: seq<Byte>,
    ipTerm: seq<Byte>, termNum: Short, terminals: seq<Report>)

  predicate StationOk(st: Station) {
    && DeviceSized(st.device) && st.system.SysReport? && |st.ipTerm| == 254 && |st.terminals| == 255
    && forall t <- st.terminals :: t.IpTermReport? && Sized(t)
  }

  function ScreensOf(t: Report): Byte
    requires t.IpTermReport? && Sized(t)
  {
    |t.screens|
  }

  function ProfileOf(st: Station): (p: Profile)
    requires StationOk(st)
    ensures ValidProfile(p) && p.ethnum == 0
  {
    Profile(0, st.ipTerm, st.termNum, seq(255, i requires 0 <= i < 255 => ScreensOf(st.terminals[i])))
  }

  /** The requests that the client has a report for. */
  predicate Answerable(q: Request) {
    !q.EtherInfoRequest? && !q.DumbTerRequest? && (q.IPTermRequest? ==> q.ttyno < 255)
  }

  function ReportFor(st: Station, q: Request): (r: Report)
    requires StationOk(st) && Answerable(q)
    ensures Sized(r)
  {
    match q
    case AuthRequest => AuthReport(st.device, st.random)
    case SysInfoRequest => st.system
    case ConfInfoRequest => ConfReport(st.configuration)
    case ProcInfoRequest => ProcReport(st.processes)
    case TerInfoRequest => TerReport(Zeros(16), st.ipTerm, st.termNum)
    case IPTermRequest(t) => st.terminals[t]
    case EndRequest => EndReport
  }

  lemma ReportAnswers(st: Station, q: Request)
    requires StationOk(st) && Answerable(q)
    ensures KindOf(ReportFor(st, q)) == Answer(ProfileOf(st), q)
  {
    assert Zeros(16) == seq(16, _ => 0);
  }

  // ----- No other request comes up

  lemma {:induction false} FlaggedAnswerable(flags: seq<Byte>)
    requires |flags| <= 254
    ensures forall q <- TerminalRequests(flags, false) :: Answerable(q)
  {
    if flags != [] {
      FlaggedAnswerable(flags[..|flags| - 1]);
    }
  }

  ghost predicate Plain(s: Play) {
    && (forall q <- s.pending :: Answerable(q))
    && (s.server.Some? ==> NoPortsAsked(s.server.value))
  }

  /** The requests from position `k` on. */
  ghost predicate AnswerableFrom(sent: seq<Request>, k: nat) {
    forall i :: k <= i < |sent| ==> Answerable(sent[i])
  }

  /** What a client without Ethernet ports and dumb terminals replies. */
  predicate Harmless(r: Reply) {
    && (r.AuthReply? ==> r.ethnum == 0)
    && (r.TerInfoReply? ==> r.dumbTerm == seq(16, _ => 0) && |r.ipTerm| == 254)
  }

  ghost predicate NoPortsAsked(c: Client) {
    c.phase != WaitEtheInfo && (c.phase == WaitAuth || c.ethnum == 0)
  }

  lemma TerminalsAnswerable(c: Client, r: Reply)
    requires c.phase == WaitTermInfo && c.ethnum == 0 && r.TerInfoReply? && Harmless(r)
    ensures
      var c' := Step(c, r, true).value;
      NoPortsAsked(c') && AnswerableFrom(c'.sent, |c.sent|)
  {
    NoneFlagged(16, true);
    FlaggedAnswerable(r.ipTerm);
    var asked := TerminalRequests(r.ipTerm, false);
    assert [] + asked == asked;
    assert forall i :: 0 <= i < |asked| ==> asked[i] in asked;
  }

  lemma StepAnswerable(c: Client, r: Reply)
    requires c.phase != Acceptance && NoPortsAsked(c) && Harmless(r) && Step(c, r, true).Some?
    ensures
      var c' := Step(c, r, true).value;
      NoPortsAsked(c') && AnswerableFrom(c'.sent, |c.sent|)
  {
    if c.phase == WaitTermInfo {
      TerminalsAnswerable(c, r);
    }
  }

  lemma AgainAnswerable(c: Client, k: nat)
    requires NoPortsAsked(c) && AnswerableFrom(c.sent, k) && c.phase != WaitAuth
    ensures NoPortsAsked(Again(c, true)) && AnswerableFrom(Again(c, true).sent, k)
  {
  }

  lemma AnswerHarmless(p: Profile, q: Request)
    requires ValidProfile(p) && p.ethnum == 0
    ensures Harmless(Answer(p, q))
  {
  }

  lemma LeavesAuth(c: Client, r: Reply)
    requires c.phase != Acceptance && Step(c, r, true).Some?
    ensures Step(c, r, true).value.phase != WaitAuth
  {
  }

  /** A turn of such a client asks for nothing else. */
  lemma TurnAnswerable(c: Client, r: Reply)
    requires c.phase != Acceptance && NoPortsAsked(c) && Harmless(r) && Turn(c, r, true, true).Some?
    ensures
      var c' := Turn(c, r, true, true).value;
      NoPortsAsked(c') && AnswerableFrom(c'.sent, |c.sent|)
  {
    StepAnswerable(c, r);
    LeavesAuth(c, r);
    AgainAnswerable(Step(c, r, true).value, |c.sent|);
  }

  lemma PendingAnswerable(pending: seq<Request>, sent: seq<Request>, k: nat)
    requires pending != [] && k <= |sent| && AnswerableFrom(sent, k) && forall q <- pending :: Answerable(q)
    ensures forall q <- pending[1..] + sent[k..] :: Answerable(q)
  {
  }

  lemma RoundPlain(p: Profile, s: Play)
    requires ValidProfile(p) && p.ethnum == 0 && Plain(s) && Arrivals.ServerOk(s)
    ensures Plain(Round(p, s))
  {
    if s.server.Some? && s.pending != [] {
      var c, r := s.server.value, Answer(p, s.pending[0]);
      AnswerHarmless(p, s.pending[0]);
      if Turn(c, r, true, true).Some? {
        TurnAnswerable(c, r);
        PendingAnswerable(s.pending, Turn(c, r, true, true).value.sent, |c.sent|);
      }
    }
  }

  lemma {:induction false} PlaysPlain(p: Profile, n: nat)
    requires ValidProfile(p) && p.ethnum == 0
    ensures Plain(Plays(p, n))
  {
    if n > 0 {
      PlaysPlain(p, n - 1);
      Arrivals.PlaysOk(p, n - 1);
      RoundPlain(p, Plays(p, n - 1));
    }
  }

  // ----- The dialogue

  /** One reply: the client encodes its report, and a readable turn takes the message from
      the ring and decodes it. */
  method TakeReply(rx: Receiver, key: seq<Byte>, r: Report) returns (reply: Reply)
    requires rx.Valid() && rx.Held() == [] && rx.ring.data.Length >= 0x1_0000
    requires |key| == Auth.KEY_SIZE && Sized(r)
    modifies rx, rx.ring, rx.ring.data
    ensures rx.Valid() && rx.Held() == []
    ensures reply == KindOf(r)
  {
    var message := PackMessage(key, r);
    var before := rx.emitted;
    Comes(rx.ring.data.Length, key, r, message);
    var served := Transfer.ServeTurn(rx, [Some(message)]);
    assert served;
    TakeDrop(before, Stream.MessagePackets(message));
    reply := ReplyOf(key, rx.emitted[|before|..]);
  }

  /** A report's message comes whole in one turn, and leaves nothing behind. */
  lemma Comes(capacity: nat, key: seq<Byte>, r: Report, m: seq<Byte>)
    requires |key| == Auth.KEY_SIZE && Sized(r) && m == Encode(key, r) && capacity >= 0x1_0000
    ensures Stream.WholeMessage(m) && ReplyOf(key, Stream.MessagePackets(m)) == KindOf(r)
    ensures
      var got := Transfer.Receive(capacity, [], Transfer.Wanted([]), [Some(m)]);
      && Transfer.Served(got) && Stream.Ready(got.held, 0) && Stream.Front(got.held) == m
      && got.held[DeclaredLength(got.held)..] == []
  {
    EncodeIsWhole(key, r);
    ReplyOfEncoded(key, r);
    ComesAlone(capacity, m);
  }

  lemma ComesAlone(capacity: nat, m: seq<Byte>)
    requires Stream.WholeMessage(m) && capacity >= 0x1_0000
    ensures
      var got := Transfer.Receive(capacity, [], Transfer.Wanted([]), [Some(m)]);
      && Transfer.Served(got) && Stream.Ready(got.held, 0) && Stream.Front(got.held) == m
      && got.held[DeclaredLength(got.held)..] == []
  {
    assert [] + m == m;
    Transfer.OneTurn(capacity, m, [], m);
  }

  /** A session over `n` turns, from the bytes of the client's reports to the state of the
      server: it goes exactly as the play of the client's profile does. */
  method Converse(rx: Receiver, key: seq<Byte>, st: Station, n: nat)
      returns (session: ClientSession, alive: bool, pending: seq<Request>, done: bool)
    requires rx.Valid() && rx.Held() == [] && rx.ring.data.Length >= 0x1_0000
    requires |key| == Auth.KEY_SIZE && StationOk(st)
    modifies rx, rx.ring, rx.ring.data
    ensures rx.Valid() && rx.Held() == []
    ensures State(session, alive, pending, done) == Plays(ProfileOf(st), n)
  {
    session := new ClientSession();
    alive := session.Fsm(Other, true);
    pending, done := [AuthRequest], false;
    var k := 0;
    while k < n
      invariant 0 <= k <= n && fresh(session)
      invariant rx.Valid() && rx.Held() == []
      invariant State(session, alive, pending, done) == Plays(ProfileOf(st), k)
    {
      NextRound(ProfileOf(st), k, k + 1, State(session, alive, pending, done));
      alive, pending, done := BothTurn(rx, session, key, st, alive, pending, done);
      k := k + 1;
    }
  }

  ghost function State(session: ClientSession, alive: bool, pending: seq<Request>, done: bool): Play
    reads session
  {
    Play(if alive then Some(session.Abstract()) else None, pending, done)
  }

  lemma NextRound(p: Profile, k: nat, m: nat, s: Play)
    requires ValidProfile(p) && p.ethnum == 0 && s == Plays(p, k) && m == k + 1
    ensures Plays(p, m) == Round(p, s) && Plain(s) && Arrivals.ServerOk(s)
  {
    Next(p, k, m);
    PlaysPlain(p, k);
    Arrivals.PlaysOk(p, k);
  }

  /** One turn of both sides; nothing happens when no request is open or the connection
      is closed. */
  method BothTurn(rx: Receiver, session: ClientSession, key: seq<Byte>, st: Station, alive: bool, pending: seq<Request>, done: bool)
      returns (alive': bool, pending': seq<Request>, done': bool)
    requires rx.Valid() && rx.Held() == [] && rx.ring.data.Length >= 0x1_0000
    requires |key| == Auth.KEY_SIZE && StationOk(st)
    requires Plain(State(session, alive, pending, done)) && Arrivals.ServerOk(State(session, alive, pending, done))
    modifies rx, rx.ring, rx.ring.data, session
    ensures rx.Valid() && rx.Held() == []
    ensures State(session, alive', pending', done') == Round(ProfileOf(st), old(State(session, alive, pending, done)))
  {
    alive', pending', done' := alive, pending, done;
    if alive && pending != [] {
      assert Answerable(pending[0]);
      var reply := TakeReply(rx, key, ReportFor(st, pending[0]));
      ReportAnswers(st, pending[0]);
      alive', pending', done' := TakeTurn(session, ProfileOf(st), reply, pending, done);
    }
  }

  /** The server's part of a turn. */
  method TakeTurn(session: ClientSession, ghost p: Profile, reply: Reply, pending: seq<Request>, done: bool)
      returns (alive: bool, pending': seq<Request>, done': bool)
    requires ValidProfile(p) && pending != [] && reply == Answer(p, pending[0]) && SessionOk(session.Abstract())
    modifies session
    ensures
      State(session, alive, pending', done') == Round(p, old(State(session, true, pending, done)))
  {
    var sent := |session.sent|;
    ghost var c := session.Abstract();
    alive := session.Fsm(reply, true);
    pending', done' := pending[1..], done;
    if alive {
      StepOk(c, reply, true);
      session.CallAgain(true);
      pending', done' := pending[1..] + session.sent[sent..], done || pending[0] == EndRequest;
    }
  }

  /** A client whose flags and announcement agree: when all its reports have gone through
      the ring, the closing reply has been accepted, and the session is at its end. */
  method ConverseToTheEnd(rx: Receiver, key: seq<Byte>, st: Station) returns (session: ClientSession, done: bool)
    requires rx.Valid() && rx.Held() == [] && rx.ring.data.Length >= 0x1_0000
    requires |key| == Auth.KEY_SIZE && StationOk(st) && st.termNum == |Flagged(ProfileOf(st))| > 0
    modifies rx, rx.ring, rx.ring.data
    ensures rx.Valid() && rx.Held() == []
    ensures done && session.phase == End && EndRequest in session.sent
    ensures session.ttyCnt == st.termNum
  {
    ghost var p := ProfileOf(st);
    var n := 6 + st.termNum;
    Completes(p, n - 1, n);
    EndReached(p, n - 1, n);
    EndSent(p, n);
    var alive, pending;
    session, alive, pending, done := Converse(rx, key, st, n);
  }

  ghost predicate Ended(p: Profile, s: Play) {
    s.server.Some? && s.server.value.phase == End && s.server.value.ttyCnt == p.termNum
  }

  lemma EndReached(p: Profile, n: nat, m: nat)
    requires ValidProfile(p) && Consistent(p) && n + 1 == m == Replies(p)
    ensures Ended(p, Plays(p, m))
  {
    Terminals(p, p.termNum, n);
    LastRound(p, Plays(p, n));
    Next(p, n, m);
  }

  lemma EndSent(p: Profile, n: nat)
    requires ValidProfile(p) && Ended(p, Plays(p, n))
    ensures EndRequest in Plays(p, n).server.value.sent
  {
    Arrivals.PlaysOk(p, n);
    EndAtEnd(Plays(p, n).server.value);
  }

  lemma LastRound(p: Profile, s: Play)
    requires ValidProfile(p) && Consistent(p) && Session.Reported(p, s, p.termNum)
    ensures Ended(p, Round(p, s))
  {
    assert Flagged(p)[p.termNum..] == [];
    Accepted(p, s, EndRequest, [], []);
  }
}
