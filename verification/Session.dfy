/** The session of one client as server/src/presentation.cpp runs it: which request each
    reply is answered with, and when the session comes to its end. */
module Session {
  import opened Wire

  datatype Phase =
    | Acceptance | WaitAuth | WaitSysInfo | WaitConfigInfo | WaitProcInfo | WaitEtheInfo
    | WaitTermInfo | WaitIPTermInfo | WaitScrInfo | End

  datatype Request =
    | AuthRequest | SysInfoRequest | ConfInfoRequest | ProcInfoRequest | EtherInfoRequest(port: nat)
    | TerInfoRequest | DumbTerRequest(ttyno: nat) | IPTermRequest(ttyno: nat) | EndRequest

  /** A packet from the client, as far as the session looks at it. `Other` is any packet
      with a wrong direction byte, another descriptor, or a failed authentication. */
  datatype Reply =
    | AuthReply(ethnum: Byte) | SysInfoReply | ConfInfoReply | ProcInfoReply | EtherInfoReply
    | TerInfoReply(dumbTerm: seq<Byte>, ipTerm: seq<Byte>, termNum: nat)
    | TerminalReply(screens: Byte) | EndReply | Other

  datatype Client = Client(
    phase: Phase, ethnum: Byte, ttyConnected: nat, ttyCnt: nat, scrNum: nat, isScr: bool,
    sent: seq<Request>)

  const NEW_CLIENT := Client(Acceptance, 0, 0, 0, 0, false, [])

  /** Requests for the flagged terminals, numbered from 1. */
  function TerminalRequests(flags: seq<Byte>, dumb: bool): seq<Request> {
    if flags == [] then []
    else
      var k := |flags| - 1;
      TerminalRequests(flags[..k], dumb) +
      if flags[k] == 0 then [] else [if dumb then DumbTerRequest(k + 1) else IPTermRequest(k + 1)]
  }

  /** The request for terminal `t`. */
  function RequestFor(t: nat, dumb: bool): Request {
    if dumb then DumbTerRequest(t) else IPTermRequest(t)
  }

  /** Terminal `t` is asked for exactly when flag number t is set, counted from one. */
  lemma {:induction false} AskedIff(flags: seq<Byte>, dumb: bool, t: nat)
    ensures RequestFor(t, dumb) in TerminalRequests(flags, dumb) <==> 1 <= t <= |flags| && flags[t - 1] != 0
  {
    if flags != [] {
      AskedIff(flags[..|flags| - 1], dumb, t);
    }
  }

  /** Requests for terminals of one kind, by increasing number. */
  ghost predicate ByNumber(rs: seq<Request>, n: nat, dumb: bool) {
    && (forall i :: 0 <= i < |rs| ==>
          (if dumb then rs[i].DumbTerRequest? else rs[i].IPTermRequest?) && 1 <= rs[i].ttyno <= n)
    && (forall i, j :: 0 <= i < j < |rs| ==> rs[i].ttyno < rs[j].ttyno)
  }

  lemma OrderNext(rs: seq<Request>, n: nat, dumb: bool)
    requires n > 0 && ByNumber(rs, n - 1, dumb)
    ensures ByNumber(rs + [RequestFor(n, dumb)], n, dumb)
  {
  }

  /** The requests are for terminals of this kind only, by increasing number. */
  lemma {:induction false} AskedInOrder(flags: seq<Byte>, dumb: bool)
    ensures ByNumber(TerminalRequests(flags, dumb), |flags|, dumb)
  {
    if flags != [] {
      var k := |flags| - 1;
      var before := TerminalRequests(flags[..k], dumb);
      AskedInOrder(flags[..k], dumb);
      if flags[k] == 0 {
        assert TerminalRequests(flags, dumb) == before;
      } else {
        OrderNext(before, k + 1, dumb);
        assert TerminalRequests(flags, dumb) == before + [RequestFor(k + 1, dumb)];
      }
    }
  }

  function Ask(c: Client, requests: seq<Request>, phase: Phase): (c': Client)
    ensures c.sent <= c'.sent
  {
    c.(sent := c.sent + requests, phase := phase)
  }

  /** What follows a terminal: the end when all connected ones have reported, or the next. */
  function AfterTerminal(c: Client): (c': Client)
    ensures c.sent <= c'.sent
  {
    if c.ttyCnt == c.ttyConnected then Ask(c, [EndRequest], End) else c.(phase := WaitIPTermInfo)
  }

  /** One call of the state machine. `stored` is the outcome of its database calls; None
      means that it returns false. */
  function Step(c: Client, r: Reply, stored: bool): (c': Option<Client>)
    ensures c'.Some? ==> c.sent <= c'.value.sent
  {
    match c.phase
    case Acceptance => Some(Ask(c, [AuthRequest], WaitAuth))
    case WaitAuth =>
      if r.AuthReply? && stored then Some(Ask(c.(ethnum := r.ethnum), [SysInfoRequest], WaitSysInfo)) else None
    case WaitSysInfo => if r.SysInfoReply? then Some(Ask(c, [ConfInfoRequest], WaitConfigInfo)) else None
    case WaitConfigInfo =>
      if r.ConfInfoReply? && stored then Some(Ask(c, [ProcInfoRequest], WaitProcInfo)) else None
    case WaitProcInfo =>
      if !(r.ProcInfoReply? && stored) then None
      else if c.ethnum == 0 then Some(Ask(c, [TerInfoRequest], WaitTermInfo))
      else if c.ethnum == 2 then Some(Ask(c, [EtherInfoRequest(1), EtherInfoRequest(0)], WaitEtheInfo))
      else if c.ethnum == 1 then Some(Ask(c, [EtherInfoRequest(0)], WaitEtheInfo))
      else Some(c)
    case WaitEtheInfo =>
      if !(r.EtherInfoReply? && stored) then None
      else
        var left: Byte := (c.ethnum + 0xFF) % 0x100;
        if left > 0 then Some(c.(ethnum := left)) else Some(Ask(c.(ethnum := left), [TerInfoRequest], WaitTermInfo))
    case WaitTermInfo =>
      if !(r.TerInfoReply? && stored) then None
      else
        var requests := TerminalRequests(r.dumbTerm, true) + TerminalRequests(r.ipTerm, false);
        Some(Ask(c.(ttyConnected := r.termNum), requests, WaitIPTermInfo))
    case WaitIPTermInfo =>
      if !(r.TerminalReply? && stored) then None
      else
        var c' := c.(ttyCnt := c.ttyCnt + 1, scrNum := r.screens);
        if r.screens != 0 then Some(c'.(phase := WaitScrInfo, isScr := true)) else Some(AfterTerminal(c'))
    case WaitScrInfo => if stored then Some(AfterTerminal(c.(isScr := false))) else None
    case End => if r.EndReply? && stored then Some(c) else None
  }

  /** When a call returns false: on a packet of any other kind than the one awaited, and on
      a database call that fails, except for system information. */
  lemma AliveIff(c: Client, r: Reply, stored: bool)
    ensures c.phase == WaitAuth ==> (Step(c, r, stored).Some? <==> r.AuthReply? && stored)
    ensures c.phase == WaitSysInfo ==> (Step(c, r, stored).Some? <==> r.SysInfoReply?)
    ensures c.phase == WaitConfigInfo ==> (Step(c, r, stored).Some? <==> r.ConfInfoReply? && stored)
    ensures c.phase == WaitProcInfo ==> (Step(c, r, stored).Some? <==> r.ProcInfoReply? && stored)
    ensures c.phase == WaitEtheInfo ==> (Step(c, r, stored).Some? <==> r.EtherInfoReply? && stored)
    ensures c.phase == WaitTermInfo ==> (Step(c, r, stored).Some? <==> r.TerInfoReply? && stored)
    ensures c.phase == WaitIPTermInfo ==> (Step(c, r, stored).Some? <==> r.TerminalReply? && stored)
    ensures c.phase == WaitScrInfo ==> (Step(c, r, stored).Some? <==> stored)
    ensures c.phase == End ==> (Step(c, r, stored).Some? <==> r.EndReply? && stored)
  {
  }

  /** The list of terminals is answered by the requests for the dumb ones, and then for
      those with an address. */
  lemma ListAnswered(c: Client, dumbTerm: seq<Byte>, ipTerm: seq<Byte>, termNum: nat)
    requires c.phase == WaitTermInfo
    ensures
      var c' := Step(c, TerInfoReply(dumbTerm, ipTerm, termNum), true).value;
      && c'.phase == WaitIPTermInfo
      && c'.sent == c.sent + (TerminalRequests(dumbTerm, true) + TerminalRequests(ipTerm, false))
  {
  }

  /** What a packet that is taken leaves in the client's fields: the number of ports, of
      terminals connected, of terminals counted and of screens due. */
  lemma FieldsTaken(c: Client, r: Reply, stored: bool)
    requires Step(c, r, stored).Some?
    ensures
      var c' := Step(c, r, stored).value;
      && c'.ethnum == (if c.phase == WaitAuth then r.ethnum else if c.phase == WaitEtheInfo then (c.ethnum + 255) % 256 else c.ethnum)
      && c'.ttyConnected == (if c.phase == WaitTermInfo then r.termNum else c.ttyConnected)
      && c'.ttyCnt == (if c.phase == WaitIPTermInfo then c.ttyCnt + 1 else c.ttyCnt)
      && c'.scrNum == (if c.phase == WaitIPTermInfo then r.screens else c.scrNum)
      && c'.isScr == (if c.phase == WaitIPTermInfo && r.screens != 0 then true else if c.phase == WaitScrInfo then false else c.isScr)
  {
  }

  /** At the end of every turn of the select loop, a client that waits for screens is called
      again. What that call returns is ignored: when the screens cannot be stored, the
      client stays as it is and is called once more in the next turn. */
  function Again(c: Client, kept: bool): (c': Client)
    ensures c.sent <= c'.sent
  {
    if c.isScr && kept then AfterTerminal(c.(isScr := false)) else c
  }

  /** One turn in which a packet is read; None means that the connection is closed. */
  function Turn(c: Client, r: Reply, stored: bool, kept: bool): (c': Option<Client>)
    ensures c'.Some? ==> c.sent <= c'.value.sent
  {
    match Step(c, r, stored)
    case Some(c') => Some(Again(c', kept))
    case None => None
  }

  // ----- Every run

  /** The client after its first call, which needs no packet. */
  const START := Ask(NEW_CLIENT, [AuthRequest], WaitAuth)

  /** A turn of the select loop for a client: with a packet from it, or without. */
  datatype Event = Arrival(r: Reply, stored: bool, kept: bool) | Idle(kept: bool)

  function Happen(c: Client, e: Event): Option<Client> {
    match e
    case Arrival(r, stored, kept) => Turn(c, r, stored, kept)
    case Idle(kept) => Some(Again(c, kept))
  }

  /** Any packets, with any outcome of the database calls. */
  function Run(events: seq<Event>): Option<Client> {
    if events == [] then Some(START)
    else
      match Run(events[..|events| - 1])
      case Some(c) => Happen(c, events[|events| - 1])
      case None => None
  }

  /** The event is a terminal packet, and the session takes it for one. */
  predicate TakesTerminal(c: Client, e: Event) {
    e.Arrival? && e.r.TerminalReply? && c.phase == WaitIPTermInfo
  }

  /** The number of terminal packets taken. */
  function TerminalsTaken(events: seq<Event>): nat {
    if events == [] then 0
    else
      var before := events[..|events| - 1];
      TerminalsTaken(before) +
      match Run(before)
      case Some(c) => if TakesTerminal(c, events[|events| - 1]) then 1 else 0
      case None => 0
  }

  ghost predicate SessionOk(c: Client) {
    && c.phase != Acceptance && (c.isScr <==> c.phase == WaitScrInfo)
    && (c.phase != WaitIPTermInfo && c.phase != WaitScrInfo && c.phase != End ==> c.ttyCnt == 0)
    && (c.phase == WaitIPTermInfo ==> c.ttyConnected == 0 || c.ttyCnt < c.ttyConnected)
    && (c.phase == WaitScrInfo ==> ScreensDue(c))
    && (c.phase != End ==> EndRequest !in c.sent)
    && (c.phase == End ==> Ending(c))
  }

  /** A terminal has been counted, but its screens are not stored yet. */
  ghost predicate ScreensDue(c: Client) {
    c.ttyCnt >= 1 && (c.ttyConnected == 0 || c.ttyCnt <= c.ttyConnected)
  }

  ghost predicate Ending(c: Client) {
    && c.ttyCnt == c.ttyConnected >= 1
    && c.sent != [] && c.sent[|c.sent| - 1] == EndRequest && EndRequest !in c.sent[..|c.sent| - 1]
  }

  lemma {:induction false} NoEndAmongTerminals(flags: seq<Byte>, dumb: bool)
    ensures EndRequest !in TerminalRequests(flags, dumb)
  {
    if flags != [] {
      NoEndAmongTerminals(flags[..|flags| - 1], dumb);
    }
  }

  lemma AfterTerminalOk(c: Client)
    requires EndRequest !in c.sent && ScreensDue(c) && !c.isScr
    ensures SessionOk(AfterTerminal(c)) && AfterTerminal(c).ttyCnt == c.ttyCnt && !AfterTerminal(c).isScr
  {
    if c.ttyCnt == c.ttyConnected {
      assert (c.sent + [EndRequest])[..|c.sent|] == c.sent;
    }
  }

  lemma AgainOk(c: Client, kept: bool)
    requires SessionOk(c)
    ensures SessionOk(Again(c, kept)) && Again(c, kept).ttyCnt == c.ttyCnt
  {
    if c.isScr && kept {
      AfterTerminalOk(c.(isScr := false));
    }
  }

  /** The call at the end of a turn is a call like any other. */
  lemma AgainIsCall(c: Client, r: Reply, kept: bool)
    requires SessionOk(c) && c.isScr
    ensures Step(c, r, kept) == if kept then Some(Again(c, kept)) else None
    ensures !kept ==> Again(c, kept) == c
  {
  }

  lemma AskOk(c: Client, requests: seq<Request>, phase: Phase)
    requires EndRequest !in c.sent && EndRequest !in requests && c.ttyCnt == 0 && !c.isScr
    requires phase != Acceptance && phase != WaitScrInfo && phase != End
    ensures SessionOk(Ask(c, requests, phase))
  {
  }

  lemma StepOk(c: Client, r: Reply, stored: bool)
    requires SessionOk(c) && Step(c, r, stored).Some?
    ensures SessionOk(Step(c, r, stored).value)
    ensures Step(c, r, stored).value.ttyCnt == c.ttyCnt + if r.TerminalReply? && c.phase == WaitIPTermInfo then 1 else 0
  {
    match c.phase
    case WaitTermInfo =>
      NoEndAmongTerminals(r.dumbTerm, true);
      NoEndAmongTerminals(r.ipTerm, false);
      AskOk(c.(ttyConnected := r.termNum), TerminalRequests(r.dumbTerm, true) + TerminalRequests(r.ipTerm, false), WaitIPTermInfo);
    case WaitIPTermInfo =>
      if r.screens == 0 {
        AfterTerminalOk(c.(ttyCnt := c.ttyCnt + 1, scrNum := r.screens));
      }
    case WaitScrInfo => AfterTerminalOk(c.(isScr := false));
    case _ =>
  }

  lemma HappenOk(c: Client, e: Event)
    requires SessionOk(c) && Happen(c, e).Some?
    ensures SessionOk(Happen(c, e).value)
    ensures Happen(c, e).value.ttyCnt == c.ttyCnt + if TakesTerminal(c, e) then 1 else 0
  {
    match e
    case Arrival(r, stored, kept) =>
      StepOk(c, r, stored);
      AgainOk(Step(c, r, stored).value, kept);
    case Idle(kept) => AgainOk(c, kept);
  }

  lemma EndAtEnd(c: Client)
    requires SessionOk(c)
    ensures EndRequest in c.sent <==> c.phase == End
  {
    assert c.phase == End ==> c.sent[|c.sent| - 1] in c.sent;
  }

  /** Whatever a client sends, and whichever database calls fail, the end is requested at
      most once and as the last request, and only when the terminal packets taken are as
      many as announced. */
  lemma {:induction false} EndIsRequestedOnce(events: seq<Event>)
    ensures Run(events).Some? ==>
      var c := Run(events).value;
      SessionOk(c) && c.ttyCnt == TerminalsTaken(events) && (EndRequest in c.sent <==> c.phase == End)
  {
    if events != [] {
      var before := events[..|events| - 1];
      EndIsRequestedOnce(before);
      if Run(events).Some? {
        HappenOk(Run(before).value, events[|events| - 1]);
      }
    }
    if Run(events).Some? {
      EndAtEnd(Run(events).value);
    }
  }

  // ----- A client that answers every request

  /** What the client has to tell: its Ethernet ports, the IP terminals it flags, the
      number of terminals it announces, and the screens of each terminal. */
  datatype Profile = Profile(ethnum: Byte, ipTerm: seq<Byte>, termNum: nat, screens: seq<Byte>)

  predicate ValidProfile(p: Profile) {
    |p.ipTerm| == 254 && |p.screens| == 255
  }

  function Answer(p: Profile, request: Request): Reply
    requires ValidProfile(p)
  {
    match request
    case AuthRequest => AuthReply(p.ethnum)
    case SysInfoRequest => SysInfoReply
    case ConfInfoRequest => ConfInfoReply
    case ProcInfoRequest => ProcInfoReply
    case EtherInfoRequest(_) => EtherInfoReply
    case TerInfoRequest => TerInfoReply(seq(16, _ => 0), p.ipTerm, p.termNum)
    case DumbTerRequest(t) => TerminalReply(if t < 255 then p.screens[t] else 0)
    case IPTermRequest(t) => TerminalReply(if t < 255 then p.screens[t] else 0)
    case EndRequest => EndReply
  }

  /** Both sides: the server's client record, the requests not yet answered, and whether
      the closing reply has been accepted. */
  datatype Play = Play(server: Option<Client>, pending: seq<Request>, done: bool)

  /** The client answers its oldest request; nothing happens when there is none, or when
      the connection is closed. Every database call succeeds. */
  function Round(p: Profile, s: Play): Play
    requires ValidProfile(p)
  {
    if s.server.None? || s.pending == [] then s
    else
      var c, request := s.server.value, s.pending[0];
      match Turn(c, Answer(p, request), true, true)
      case None => Play(None, s.pending[1..], s.done)
      case Some(c') =>
        Play(Some(c'), s.pending[1..] + c'.sent[|c.sent|..], s.done || request == EndRequest)
  }

  function Plays(p: Profile, n: nat): Play
    requires ValidProfile(p)
  {
    if n == 0 then Play(Some(START), [AuthRequest], false) else Round(p, Plays(p, n - 1))
  }

  lemma Next(p: Profile, n: nat, m: nat)
    requires ValidProfile(p) && m == n + 1
    ensures Plays(p, m) == Round(p, Plays(p, n))
  {
  }

  /** The play is open, in this phase, with these requests pending. */
  ghost predicate At(s: Play, phase: Phase, ethnum: Byte, cnt: nat, pending: seq<Request>) {
    && s.server.Some? && !s.done && s.pending == pending
    && s.server.value.phase == phase && s.server.value.ethnum == ethnum && s.server.value.ttyCnt == cnt
    && !s.server.value.isScr
  }

  /** An exchange that the server accepts. */
  lemma Accepted(p: Profile, s: Play, request: Request, rest: seq<Request>, asked: seq<Request>)
    requires ValidProfile(p) && s.server.Some? && s.pending == [request] + rest
    requires Turn(s.server.value, Answer(p, request), true, true).Some?
    requires Turn(s.server.value, Answer(p, request), true, true).value.sent == s.server.value.sent + asked
    ensures
      Round(p, s) ==
        Play(Turn(s.server.value, Answer(p, request), true, true), rest + asked, s.done || request == EndRequest)
  {
  }

  lemma {:induction false} NoneFlagged(n: nat, dumb: bool)
    ensures TerminalRequests(seq(n, _ => 0), dumb) == []
  {
    if n > 0 {
      var flags: seq<Byte> := seq(n, _ => 0);
      NoneFlagged(n - 1, dumb);
      assert flags[..n - 1] == seq(n - 1, _ => 0);
    }
  }

  lemma {:induction false} OnlyIPTerms(flags: seq<Byte>)
    ensures forall q <- TerminalRequests(flags, false) :: q.IPTermRequest?
  {
    if flags != [] {
      OnlyIPTerms(flags[..|flags| - 1]);
    }
  }

  lemma FirstFour(p: Profile)
    requires ValidProfile(p)
    ensures p.ethnum == 0 ==> At(Plays(p, 4), WaitTermInfo, 0, 0, [TerInfoRequest])
    ensures p.ethnum == 1 ==> At(Plays(p, 4), WaitEtheInfo, 1, 0, [EtherInfoRequest(0)])
    ensures p.ethnum == 2 ==> At(Plays(p, 4), WaitEtheInfo, 2, 0, [EtherInfoRequest(1), EtherInfoRequest(0)])
    ensures p.ethnum > 2 ==> At(Plays(p, 4), WaitProcInfo, p.ethnum, 0, [])
  {
    Accepted(p, Plays(p, 0), AuthRequest, [], [SysInfoRequest]);
    Accepted(p, Plays(p, 1), SysInfoRequest, [], [ConfInfoRequest]);
    Accepted(p, Plays(p, 2), ConfInfoRequest, [], [ProcInfoRequest]);
    var s := Plays(p, 3);
    assert At(s, WaitProcInfo, p.ethnum, 0, [ProcInfoRequest]);
    Accepted(p, s, ProcInfoRequest, [],
      if p.ethnum == 0 then [TerInfoRequest]
      else if p.ethnum == 2 then [EtherInfoRequest(1), EtherInfoRequest(0)]
      else if p.ethnum == 1 then [EtherInfoRequest(0)]
      else []);
  }

  lemma PortLeft(p: Profile, s: Play)
    requires ValidProfile(p) && At(s, WaitEtheInfo, 2, 0, [EtherInfoRequest(1), EtherInfoRequest(0)])
    ensures At(Round(p, s), WaitEtheInfo, 1, 0, [EtherInfoRequest(0)])
  {
    Accepted(p, s, EtherInfoRequest(1), [EtherInfoRequest(0)], []);
  }

  lemma LastPort(p: Profile, s: Play)
    requires ValidProfile(p) && At(s, WaitEtheInfo, 1, 0, [EtherInfoRequest(0)])
    ensures At(Round(p, s), WaitTermInfo, 0, 0, [TerInfoRequest])
  {
    Accepted(p, s, EtherInfoRequest(0), [], [TerInfoRequest]);
  }

  lemma OnePort(p: Profile, s: Play, n: nat)
    requires ValidProfile(p) && s == Plays(p, 4) && n == 5
    requires At(s, WaitEtheInfo, 1, 0, [EtherInfoRequest(0)])
    ensures At(Plays(p, n), WaitTermInfo, 0, 0, [TerInfoRequest])
  {
    LastPort(p, s);
    Next(p, 4, n);
  }

  lemma TwoPorts(p: Profile, s: Play, n: nat)
    requires ValidProfile(p) && s == Plays(p, 4) && n == 6
    requires At(s, WaitEtheInfo, 2, 0, [EtherInfoRequest(1), EtherInfoRequest(0)])
    ensures At(Plays(p, n), WaitTermInfo, 0, 0, [TerInfoRequest])
  {
    PortLeft(p, s);
    LastPort(p, Round(p, s));
    Next(p, 4, 5);
    Next(p, 5, n);
  }

  /** Up to two Ethernet ports are asked for one by one, and then the terminals. */
  lemma Ethernet(p: Profile, n: nat)
    requires ValidProfile(p) && p.ethnum <= 2 && n == 4 + p.ethnum
    ensures At(Plays(p, n), WaitTermInfo, 0, 0, [TerInfoRequest])
  {
    FirstFour(p);
    if p.ethnum == 1 {
      OnePort(p, Plays(p, 4), n);
    } else if p.ethnum == 2 {
      TwoPorts(p, Plays(p, 4), n);
    }
  }

  /** The requests for the terminals a profile flags. */
  function Flagged(p: Profile): seq<Request> {
    TerminalRequests(p.ipTerm, false)
  }

  /** What is pending, and the phase, when `j` terminals have reported. */
  function PendingAfter(p: Profile, j: nat): seq<Request>
    requires j <= |Flagged(p)|
  {
    Flagged(p)[j..] + if j == p.termNum && j > 0 then [EndRequest] else []
  }

  function PhaseAfter(p: Profile, j: nat): Phase {
    if j == p.termNum && j > 0 then End else WaitIPTermInfo
  }

  lemma TerminalsAsked(p: Profile, s: Play)
    requires ValidProfile(p) && At(s, WaitTermInfo, 0, 0, [TerInfoRequest])
    ensures Reported(p, Round(p, s), 0)
  {
    NoneFlagged(16, true);
    assert [] + Flagged(p) == Flagged(p);
    Accepted(p, s, TerInfoRequest, [], Flagged(p));
    assert Flagged(p)[0..] + [] == Flagged(p);
  }

  /** A terminal's packet and its screens advance the count by one and ask for the end
      when it reaches the number announced. */
  lemma TurnTerminal(c: Client, screens: Byte)
    requires c.phase == WaitIPTermInfo && !c.isScr
    ensures
      var next := Turn(c, TerminalReply(screens), true, true);
      var last := c.ttyCnt + 1 == c.ttyConnected;
      && next.Some? && !next.value.isScr
      && next.value.phase == (if last then End else WaitIPTermInfo)
      && next.value.ethnum == c.ethnum && next.value.ttyConnected == c.ttyConnected
      && next.value.ttyCnt == c.ttyCnt + 1
      && next.value.sent == c.sent + if last then [EndRequest] else []
  {
  }

  lemma TerminalRound(p: Profile, s: Play, request: Request, rest: seq<Request>, cnt: nat)
    requires ValidProfile(p) && request.IPTermRequest? && At(s, WaitIPTermInfo, 0, cnt, [request] + rest)
    ensures
      var connected := s.server.value.ttyConnected;
      var last := cnt + 1 == connected;
      var s' := Round(p, s);
      && At(s', if last then End else WaitIPTermInfo, 0, cnt + 1, rest + if last then [EndRequest] else [])
      && s'.server.value.ttyConnected == connected
  {
    var c := s.server.value;
    TurnTerminal(c, Answer(p, request).screens);
    Accepted(p, s, request, rest, if cnt + 1 == c.ttyConnected then [EndRequest] else []);
  }

  /** After `j` terminals the play is where it should be. */
  ghost predicate Reported(p: Profile, s: Play, j: nat)
    requires j <= |Flagged(p)|
  {
    At(s, PhaseAfter(p, j), 0, j, PendingAfter(p, j)) && s.server.value.ttyConnected == p.termNum
  }

  lemma PendingFirst(p: Profile, j: nat)
    requires 0 < j <= |Flagged(p)| && (p.termNum == 0 || j <= p.termNum)
    ensures PendingAfter(p, j - 1) == [Flagged(p)[j - 1]] + Flagged(p)[j..]
    ensures PendingAfter(p, j) == Flagged(p)[j..] + if j == p.termNum then [EndRequest] else []
    ensures Flagged(p)[j - 1].IPTermRequest?
  {
    OnlyIPTerms(p.ipTerm);
  }

  lemma OneMoreReported(p: Profile, s: Play, j: nat)
    requires ValidProfile(p) && 0 < j <= |Flagged(p)| && (p.termNum == 0 || j <= p.termNum)
    requires Reported(p, s, j - 1)
    ensures Reported(p, Round(p, s), j)
  {
    PendingFirst(p, j);
    TerminalRound(p, s, Flagged(p)[j - 1], Flagged(p)[j..], j - 1);
  }

  lemma {:induction false} Terminals(p: Profile, j: nat, n: nat)
    requires ValidProfile(p) && p.ethnum <= 2 && n == 5 + p.ethnum + j
    requires j <= |Flagged(p)| && (p.termNum == 0 || j <= p.termNum)
    ensures Reported(p, Plays(p, n), j)
  {
    var m := n - 1;
    if j == 0 {
      Ethernet(p, m);
      TerminalsAsked(p, Plays(p, m));
    } else {
      Terminals(p, j - 1, m);
      OneMoreReported(p, Plays(p, m), j);
    }
    Next(p, m, n);
  }

  predicate Stalled(s: Play) {
    s.server.None? || s.pending == []
  }

  lemma {:induction false} StaysStalled(p: Profile, n: nat, m: nat)
    requires ValidProfile(p) && n <= m && Stalled(Plays(p, n))
    ensures Plays(p, m) == Plays(p, n)
  {
    if n < m {
      StaysStalled(p, n, m - 1);
    }
  }

  lemma {:induction false} StaysDone(p: Profile, n: nat, m: nat)
    requires ValidProfile(p) && n <= m && Plays(p, n).done
    ensures Plays(p, m).done
  {
    if n < m {
      StaysDone(p, n, m - 1);
    }
  }

  /** Stalled before it is done. */
  predicate Dead(s: Play) {
    Stalled(s) && !s.done
  }

  lemma DeadAt(p: Profile, n: nat, m: nat)
    requires ValidProfile(p) && Dead(Plays(p, n))
    ensures !Plays(p, m).done
  {
    if m > n {
      StaysStalled(p, n, m);
    } else if Plays(p, m).done {
      StaysDone(p, m, n);
    }
  }

  /** A play that stalls before it is done is never done. */
  lemma NeverDone(p: Profile, n: nat)
    requires ValidProfile(p) && Dead(Plays(p, n))
    ensures forall m :: !Plays(p, m).done
  {
    forall m: nat
      ensures !Plays(p, m).done
    {
      DeadAt(p, n, m);
    }
  }

  /** At most two Ethernet ports, and as many terminals announced as flagged, at least one. */
  predicate Consistent(p: Profile) {
    p.ethnum <= 2 && p.termNum == |Flagged(p)| > 0
  }

  /** The number of replies in a session that completes. */
  function Replies(p: Profile): nat {
    6 + p.ethnum + p.termNum
  }

  lemma Closing(p: Profile, s: Play)
    requires ValidProfile(p) && Consistent(p) && Reported(p, s, p.termNum)
    ensures !s.done && Round(p, s).done
  {
    assert Flagged(p)[p.termNum..] == [];
    Accepted(p, s, EndRequest, [], []);
  }

  lemma Completes(p: Profile, n: nat, m: nat)
    requires ValidProfile(p) && Consistent(p) && n + 1 == m == Replies(p)
    ensures !Plays(p, n).done && Plays(p, m).done
  {
    Terminals(p, p.termNum, n);
    Closing(p, Plays(p, n));
    Next(p, n, m);
  }

  /** With every flag reported and the announced number not reached, nothing is pending. */
  lemma NothingLeft(p: Profile, s: Play)
    requires (p.termNum == 0 || p.termNum > |Flagged(p)|) && Reported(p, s, |Flagged(p)|)
    ensures Dead(s)
  {
  }

  lemma TooFewTerminals(p: Profile)
    requires ValidProfile(p) && p.ethnum <= 2 && (p.termNum == 0 || p.termNum > |Flagged(p)|)
    ensures forall n :: !Plays(p, n).done
  {
    var n := 5 + p.ethnum + |Flagged(p)|;
    Terminals(p, |Flagged(p)|, n);
    NothingLeft(p, Plays(p, n));
    NeverDone(p, n);
  }

  lemma TooManyPorts(p: Profile)
    requires ValidProfile(p) && p.ethnum > 2
    ensures forall n :: !Plays(p, n).done
  {
    FirstFour(p);
    NeverDone(p, 4);
  }

  /** A terminal's packet that arrives when the end has been asked for. */
  lemma Refused(p: Profile, s: Play)
    requires ValidProfile(p) && 0 < p.termNum < |Flagged(p)| && Reported(p, s, p.termNum)
    ensures Dead(Round(p, s)) && Round(p, s).server.None?
  {
    OnlyIPTerms(p.ipTerm);
    assert s.pending[0] == Flagged(p)[p.termNum];
  }

  /** More terminals than announced: the end is asked for too early, and the next
      terminal's packet closes the connection. */
  lemma TooManyTerminals(p: Profile, n: nat)
    requires ValidProfile(p) && p.ethnum <= 2 && 0 < p.termNum < |Flagged(p)| && n == 6 + p.ethnum + p.termNum
    ensures Plays(p, n).server.None?
    ensures forall k :: !Plays(p, k).done
  {
    var m := n - 1;
    Terminals(p, p.termNum, m);
    RefusedNext(p, m, n, Plays(p, m));
  }

  lemma RefusedNext(p: Profile, n: nat, m: nat, s: Play)
    requires ValidProfile(p) && 0 < p.termNum < |Flagged(p)|
    requires s == Plays(p, n) && m == n + 1 && Reported(p, s, p.termNum)
    ensures Plays(p, m).server.None?
    ensures forall k :: !Plays(p, k).done
  {
    Refused(p, s);
    Next(p, n, m);
    DeadFrom(p, m, Round(p, s));
  }

  lemma DeadFrom(p: Profile, n: nat, s: Play)
    requires ValidProfile(p) && s == Plays(p, n) && Dead(s)
    ensures forall k :: !Plays(p, k).done
  {
    NeverDone(p, n);
  }

  /** The session with a client that answers every request comes to its end exactly when
      the client has at most two Ethernet ports and announces as many terminals as it
      flags, and at least one. With more ports, fewer flags or no terminal the server
      waits for ever; with more flags it closes the connection. */
  lemma SessionCompletesIff(p: Profile)
    requires ValidProfile(p)
    ensures (exists n :: Plays(p, n).done) <==> Consistent(p)
  {
    if Consistent(p) {
      Completes(p, Replies(p) - 1, Replies(p));
    } else if p.ethnum > 2 {
      TooManyPorts(p);
    } else if 0 < p.termNum < |Flagged(p)| {
      TooManyTerminals(p, 6 + p.ethnum + p.termNum);
    } else {
      TooFewTerminals(p);
    }
  }

  // ----- What is asked for, in order

  function ServedIn(s: Play): seq<Request> {
    if s.server.None? || s.pending == [] then [] else [s.pending[0]]
  }

  /** The requests sent are those served and those pending. */
  ghost predicate SentIs(s: Play, served: seq<Request>) {
    s.server.Some? ==> s.server.value.sent == served + s.pending
  }

  lemma RoundSent(p: Profile, s: Play, served: seq<Request>)
    requires ValidProfile(p) && SentIs(s, served)
    ensures SentIs(Round(p, s), served + ServedIn(s))
  {
    if s.server.Some? && s.pending != [] && Round(p, s).server.Some? {
      var sent, sent' := s.server.value.sent, Round(p, s).server.value.sent;
      assert sent' == sent + sent'[|sent|..];
      assert s.pending == [s.pending[0]] + s.pending[1..];
    } else {
      assert served + [] == served;
    }
  }

  /** One more round, in which `q` is answered. */
  lemma SentNext(p: Profile, n: nat, m: nat, s: Play, served: seq<Request>, q: Request, rest: seq<Request>)
    requires ValidProfile(p) && m == n + 1 && s == Plays(p, n) && s.server.Some? && s.pending == [q] + rest
    requires SentIs(s, served)
    ensures SentIs(Plays(p, m), served + [q])
  {
    RoundSent(p, s, served);
    Next(p, n, m);
  }

  /** The requests for the ports of a client with up to two. */
  function PortRequests(ethnum: Byte): seq<Request> {
    if ethnum == 2 then [EtherInfoRequest(1), EtherInfoRequest(0)] else if ethnum == 1 then [EtherInfoRequest(0)] else []
  }

  const FIRST_REQUESTS := [AuthRequest, SysInfoRequest, ConfInfoRequest, ProcInfoRequest]

  lemma SentTwo(p: Profile)
    requires ValidProfile(p)
    ensures At(Plays(p, 2), WaitConfigInfo, p.ethnum, 0, [ConfInfoRequest])
    ensures SentIs(Plays(p, 2), [AuthRequest, SysInfoRequest])
  {
    Accepted(p, Plays(p, 0), AuthRequest, [], [SysInfoRequest]);
    Accepted(p, Plays(p, 1), SysInfoRequest, [], [ConfInfoRequest]);
  }

  lemma SentThree(p: Profile, s: Play)
    requires ValidProfile(p) && At(s, WaitConfigInfo, p.ethnum, 0, [ConfInfoRequest])
    requires SentIs(s, [AuthRequest, SysInfoRequest])
    ensures Round(p, s).server.Some? && Round(p, s).pending == [ProcInfoRequest]
    ensures SentIs(Round(p, s), [AuthRequest, SysInfoRequest] + [ConfInfoRequest])
  {
    Accepted(p, s, ConfInfoRequest, [], [ProcInfoRequest]);
    RoundSent(p, s, [AuthRequest, SysInfoRequest]);
  }

  lemma SentFirst(p: Profile)
    requires ValidProfile(p)
    ensures SentIs(Plays(p, 4), FIRST_REQUESTS)
  {
    SentTwo(p);
    SentThree(p, Plays(p, 2));
    Next(p, 2, 3);
    SentFour(p, 3, 4, Plays(p, 3));
  }

  lemma SentFour(p: Profile, n: nat, m: nat, s: Play)
    requires ValidProfile(p) && m == n + 1 && s == Plays(p, n)
    requires s.server.Some? && s.pending == [ProcInfoRequest]
    requires SentIs(s, [AuthRequest, SysInfoRequest] + [ConfInfoRequest])
    ensures SentIs(Plays(p, m), FIRST_REQUESTS)
  {
    var three := [AuthRequest, SysInfoRequest] + [ConfInfoRequest];
    SentNext(p, n, m, s, three, ProcInfoRequest, []);
    SentSame(Plays(p, m), three + [ProcInfoRequest], FIRST_REQUESTS);
  }

  lemma SentSame(s: Play, a: seq<Request>, b: seq<Request>)
    requires SentIs(s, a) && a == b
    ensures SentIs(s, b)
  {
  }

  lemma SentPorts(p: Profile, n: nat)
    requires ValidProfile(p) && p.ethnum <= 2 && n == 4 + p.ethnum
    ensures SentIs(Plays(p, n), FIRST_REQUESTS + PortRequests(p.ethnum))
  {
    SentFirst(p);
    FirstFour(p);
    if p.ethnum == 0 {
      assert FIRST_REQUESTS + PortRequests(p.ethnum) == FIRST_REQUESTS;
    } else if p.ethnum == 1 {
      SentNext(p, 4, n, Plays(p, 4), FIRST_REQUESTS, EtherInfoRequest(0), []);
    } else {
      SentTwoPorts(p, Plays(p, 4), n);
    }
  }

  lemma SentTwoPorts(p: Profile, s: Play, n: nat)
    requires ValidProfile(p) && s == Plays(p, 4) && n == 6 && SentIs(s, FIRST_REQUESTS)
    requires At(s, WaitEtheInfo, 2, 0, [EtherInfoRequest(1), EtherInfoRequest(0)])
    ensures SentIs(Plays(p, n), FIRST_REQUESTS + [EtherInfoRequest(1), EtherInfoRequest(0)])
  {
    SentNext(p, 4, 5, s, FIRST_REQUESTS, EtherInfoRequest(1), [EtherInfoRequest(0)]);
    PortLeft(p, s);
    Next(p, 4, 5);
    SentNext(p, 5, n, Plays(p, 5), FIRST_REQUESTS + [EtherInfoRequest(1)], EtherInfoRequest(0), []);
    assert FIRST_REQUESTS + [EtherInfoRequest(1)] + [EtherInfoRequest(0)] ==
      FIRST_REQUESTS + [EtherInfoRequest(1), EtherInfoRequest(0)];
  }

  /** A session that completes has asked for authentication, system, configuration and
      process information, the ports, the list of terminals, each flagged terminal, and
      the end, each once and in this order. */
  lemma RequestsInOrder(p: Profile, n: nat, m: nat)
    requires ValidProfile(p) && Consistent(p) && n + 1 == m == Replies(p)
    ensures Plays(p, n).server.Some?
    ensures Plays(p, n).server.value.sent ==
      [AuthRequest, SysInfoRequest, ConfInfoRequest, ProcInfoRequest] +
      (if p.ethnum == 2 then [EtherInfoRequest(1), EtherInfoRequest(0)] else if p.ethnum == 1 then [EtherInfoRequest(0)] else []) +
      [TerInfoRequest] + TerminalRequests(p.ipTerm, false) + [EndRequest]
  {
    Terminals(p, p.termNum, n);
    SentTerminals(p, p.termNum, n);
    assert Flagged(p)[..p.termNum] == Flagged(p) && Flagged(p)[p.termNum..] == [];
  }

  function Before(p: Profile, j: nat): seq<Request>
    requires j <= |Flagged(p)|
  {
    FIRST_REQUESTS + PortRequests(p.ethnum) + [TerInfoRequest] + Flagged(p)[..j]
  }

  lemma BeforeNext(p: Profile, j: nat)
    requires 0 < j <= |Flagged(p)|
    ensures Before(p, j) == Before(p, j - 1) + [Flagged(p)[j - 1]]
  {
    var base, flagged := FIRST_REQUESTS + PortRequests(p.ethnum) + [TerInfoRequest], Flagged(p);
    assert base + flagged[..j - 1] + [flagged[j - 1]] == base + flagged[..j];
  }

  lemma BeforeFirst(p: Profile)
    ensures Before(p, 0) == FIRST_REQUESTS + PortRequests(p.ethnum) + [TerInfoRequest]
  {
  }

  lemma {:induction false} SentTerminals(p: Profile, j: nat, n: nat)
    requires ValidProfile(p) && p.ethnum <= 2 && n == 5 + p.ethnum + j
    requires j <= |Flagged(p)| && (p.termNum == 0 || j <= p.termNum)
    ensures SentIs(Plays(p, n), Before(p, j))
  {
    var m := n - 1;
    if j == 0 {
      SentPorts(p, m);
      Ethernet(p, m);
      SentNext(p, m, n, Plays(p, m), FIRST_REQUESTS + PortRequests(p.ethnum), TerInfoRequest, []);
      BeforeFirst(p);
    } else {
      SentTerminals(p, j - 1, m);
      Terminals(p, j - 1, m);
      SentReported(p, j, m, n, Plays(p, m));
    }
  }

  lemma SentReported(p: Profile, j: nat, m: nat, n: nat, s: Play)
    requires ValidProfile(p) && n == m + 1 && s == Plays(p, m) && 0 < j <= |Flagged(p)| && Reported(p, s, j - 1)
    requires (p.termNum == 0 || j <= p.termNum) && SentIs(s, Before(p, j - 1))
    ensures SentIs(Plays(p, n), Before(p, j))
  {
    PendingFirst(p, j);
    BeforeNext(p, j);
    SentNext(p, m, n, s, Before(p, j - 1), Flagged(p)[j - 1], Flagged(p)[j..]);
  }

  /** The state machine over the fields of the client. */
  class ClientSession {
    var phase: Phase
    var ethnum: Byte
    var ttyConnected: nat
    var ttyCnt: nat
    var scrNum: nat
    var isScr: bool
    var sent: seq<Request>

    ghost function Abstract(): Client
      reads this
    {
      Client(phase, ethnum, ttyConnected, ttyCnt, scrNum, isScr, sent)
    }

    constructor ()
      ensures Abstract() == NEW_CLIENT
    {
      phase, ethnum, ttyConnected, ttyCnt, scrNum, isScr, sent := Acceptance, 0, 0, 0, 0, false, [];
    }

    method Push(request: Request)
      modifies this`sent
      ensures sent == old(sent) + [request]
    {
      sent := sent + [request];
    }

    method PushTerminals(flags: seq<Byte>, dumb: bool)
      modifies this`sent
      ensures sent == old(sent) + TerminalRequests(flags, dumb)
    {
      var i := 0;
      while i < |flags|
        invariant 0 <= i <= |flags|
        invariant sent == old(sent) + TerminalRequests(flags[..i], dumb)
      {
        assert flags[..i + 1][..i] == flags[..i];
        if flags[i] != 0 {
          Push(if dumb then DumbTerRequest(i + 1) else IPTermRequest(i + 1));
        }
        i := i + 1;
      }
      assert flags[..i] == flags;
    }

    /** On refusal the connection is closed, and the fields no longer matter, except where
        the refusal is ignored: while screens are due, the client stays as it is. */
    method Fsm(r: Reply, stored: bool) returns (alive: bool)
      modifies this
      ensures alive <==> Step(old(Abstract()), r, stored).Some?
      ensures alive ==> Abstract() == Step(old(Abstract()), r, stored).value
      ensures !alive && old(phase) == WaitScrInfo ==> Abstract() == old(Abstract())
    {
      alive := true;
      match phase {
        case Acceptance =>
          Push(AuthRequest);
          phase := WaitAuth;
        case WaitAuth =>
          if !r.AuthReply? || !stored { return false; }
          ethnum := r.ethnum;
          Push(SysInfoRequest);
          phase := WaitSysInfo;
        case WaitSysInfo =>
          if !r.SysInfoReply? { return false; }
          Push(ConfInfoRequest);
          phase := WaitConfigInfo;
        case WaitConfigInfo =>
          if !r.ConfInfoReply? || !stored { return false; }
          Push(ProcInfoRequest);
          phase := WaitProcInfo;
        case WaitProcInfo =>
          if !r.ProcInfoReply? || !stored { return false; }
          AskEthernet();
        case WaitEtheInfo =>
          if !r.EtherInfoReply? || !stored { return false; }
          ethnum := (ethnum + 0xFF) % 0x100;
          if ethnum > 0 { return true; }
          Push(TerInfoRequest);
          phase := WaitTermInfo;
        case WaitTermInfo =>
          if !r.TerInfoReply? || !stored { return false; }
          ttyConnected := r.termNum;
          AskForTerminals(r.dumbTerm, r.ipTerm);
        case WaitIPTermInfo =>
          if !r.TerminalReply? || !stored { return false; }
          CountTerminal(r.screens);
        case WaitScrInfo =>
          if !stored { return false; }
          isScr := false;
          FinishTerminal();
        case End =>
          if !r.EndReply? || !stored { return false; }
      }
    }

    /** The call at the end of a turn. */
    method CallAgain(kept: bool)
      requires isScr ==> phase == WaitScrInfo
      modifies this
      ensures Abstract() == Again(old(Abstract()), kept)
    {
      if isScr {
        var _ := Fsm(Other, kept);
      }
    }

    /** The switch on the number of Ethernet ports: two fall through to one, and a number
        above two matches no case. */
    method AskEthernet()
      modifies this`sent, this`phase
      ensures phase ==
        if ethnum == 0 then WaitTermInfo else if ethnum <= 2 then WaitEtheInfo else old(phase)
      ensures sent == old(sent) +
        if ethnum == 0 then [TerInfoRequest]
        else if ethnum == 2 then [EtherInfoRequest(1), EtherInfoRequest(0)]
        else if ethnum == 1 then [EtherInfoRequest(0)]
        else []
    {
      if ethnum == 0 {
        Push(TerInfoRequest);
        phase := WaitTermInfo;
      } else if ethnum <= 2 {
        if ethnum == 2 {
          Push(EtherInfoRequest(1));
        }
        Push(EtherInfoRequest(0));
        phase := WaitEtheInfo;
      }
    }

    method AskForTerminals(dumbTerm: seq<Byte>, ipTerm: seq<Byte>)
      modifies this`sent, this`phase
      ensures phase == WaitIPTermInfo
      ensures sent == old(sent) + (TerminalRequests(dumbTerm, true) + TerminalRequests(ipTerm, false))
    {
      Assoc(sent, TerminalRequests(dumbTerm, true), TerminalRequests(ipTerm, false));
      PushTerminals(dumbTerm, true);
      PushTerminals(ipTerm, false);
      phase := WaitIPTermInfo;
    }

    method CountTerminal(screens: Byte)
      modifies this
      ensures
        var c := old(Abstract());
        var c' := c.(ttyCnt := c.ttyCnt + 1, scrNum := screens);
        Abstract() == if screens != 0 then c'.(phase := WaitScrInfo, isScr := true) else AfterTerminal(c')
    {
      ttyCnt := ttyCnt + 1;
      scrNum := screens;
      if screens != 0 {
        phase := WaitScrInfo;
        isScr := true;
      } else {
        FinishTerminal();
      }
    }

    method FinishTerminal()
      modifies this`sent, this`phase
      ensures Abstract() == AfterTerminal(old(Abstract()))
    {
      if ttyCnt == ttyConnected {
        Push(EndRequest);
        phase := End;
      } else {
        phase := WaitIPTermInfo;
      }
    }
  }
}
