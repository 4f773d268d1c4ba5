/** The byte stream as a sequence of messages, and what any schedule of receiving and
    draining makes of it. A message is one packet, or one terminal record followed by
    the screen records it announces. */
module Stream {
  import opened Wire

  // The byte of a terminal message that holds its number of screens (`screen_num`).
  const SCREEN_COUNT_AT := 11

  function ScreenCount(m: seq<Byte>): nat
    requires HeadOk(m)
    requires m[1] == IP_TERM ==> |m| > SCREEN_COUNT_AT
  {
    if m[1] == IP_TERM then m[SCREEN_COUNT_AT] else 0
  }

  /** Exactly one message: as long as it declares, and for a terminal record as long as
      its screens need. */
  predicate WholeMessage(m: seq<Byte>) {
    && HeadOk(m)
    && |m| == DeclaredLength(m)
    && |m| >= Consumed(m)
    && (m[1] == IP_TERM ==> |m| == HEADER_SIZE + IP_TERM_SIZE + SCREEN_SIZE * m[SCREEN_COUNT_AT])
  }

  /** A message by its bytes: a known descriptor, the length it declares, room for the
      struct, and for a terminal record the screens that byte 11 counts. */
  lemma WholeMessageIs(m: seq<Byte>)
    ensures WholeMessage(m) <==>
      && |m| >= 4 && StructSize(m[1]).Some?
      && |m| == Big16(m, 2) >= 4 + StructSize(m[1]).value
      && (m[1] == 0x0B ==> |m| == 36 + 96 * (m[11] as int))
  {
    HeadOkIs(m);
  }

  /** The `n` screen records at the front of `s`. */
  function Screens(s: seq<Byte>, n: nat): (ps: seq<Packet>)
    requires |s| >= SCREEN_SIZE * n
    ensures |ps| == n
  {
    if n == 0 then [] else [Screen(s[..SCREEN_SIZE])] + Screens(s[SCREEN_SIZE..], n - 1)
  }

  /** Screen record `i` is the 96 bytes from 96 * i on. */
  lemma {:induction false} ScreensAre(s: seq<Byte>, n: nat, i: nat)
    requires |s| >= 96 * n && i < n
    ensures Screens(s, n)[i] == Screen(s[96 * i..96 * i + 96])
  {
    if i > 0 {
      ScreensAre(s[SCREEN_SIZE..], n - 1, i - 1);
      assert s[96..][96 * (i - 1)..96 * (i - 1) + 96] == s[96 * i..96 * i + 96];
    }
  }

  function MessagePackets(m: seq<Byte>): (ps: seq<Packet>)
    requires WholeMessage(m)
    ensures |ps| == 1 + ScreenCount(m)
  {
    [Decode(m)] + Screens(m[Consumed(m)..], ScreenCount(m))
  }

  /** The message at the front of `s`, as long as its header declares. */
  function Front(s: seq<Byte>): seq<Byte>
    requires |s| >= HEADER_SIZE && |s| >= DeclaredLength(s)
  {
    s[..DeclaredLength(s)]
  }

  /** A whole message is at the front of `s`, with `slack` bytes to spare. */
  predicate Ready(s: seq<Byte>, slack: nat) {
    |s| >= HEADER_SIZE && |s| >= DeclaredLength(s) + slack && WholeMessage(Front(s))
  }

  /** Every header in `s` is one the decoder handles. The stream may end anywhere. */
  predicate Clean(s: seq<Byte>) {
    |s| < HEADER_SIZE || (
      && HeadOk(s)
      && (|s| >= DeclaredLength(s) ==> WholeMessage(Front(s)) && Clean(s[DeclaredLength(s)..])))
  }

  datatype Parsed = Parsed(packets: seq<Packet>, rest: seq<Byte>)

  /** All messages of `s`, taking the next one while `slack` bytes are left beyond it.
      With slack 0 this is the plain parse, with slack 4 the full drain of the buffer. */
  function Parse(s: seq<Byte>, slack: nat): Parsed
    decreases |s|
  {
    if !Ready(s, slack) then Parsed([], s)
    else
      var more := Parse(s[DeclaredLength(s)..], slack);
      Parsed(MessagePackets(Front(s)) + more.packets, more.rest)
  }

  lemma {:induction false} ScreensKeepBytes(s: seq<Byte>, n: nat)
    requires |s| >= SCREEN_SIZE * n
    ensures Bytes(Screens(s, n)) == s[..SCREEN_SIZE * n]
  {
    if n > 0 {
      ScreensKeepBytes(s[SCREEN_SIZE..], n - 1);
      var first, more := s[..SCREEN_SIZE], s[SCREEN_SIZE..];
      assert s[..SCREEN_SIZE * n] == first + more[..SCREEN_SIZE * (n - 1)];
      assert Screens(s, n)[1..] == Screens(more, n - 1);
    }
  }

  lemma MessageKeepsBytes(m: seq<Byte>)
    requires WholeMessage(m)
    ensures Bytes(MessagePackets(m)) == m
  {
    var n, k := Consumed(m), ScreenCount(m);
    DecodeKeepsBytes(m);
    ScreensKeepBytes(m[n..], k);
    assert MessagePackets(m)[1..] == Screens(m[n..], k);
    assert m[n..][..SCREEN_SIZE * k] == m[n..];
    assert m[..n] + m[n..] == m;
  }

  lemma FrontAndRest(s: seq<Byte>)
    requires |s| >= HEADER_SIZE && |s| >= DeclaredLength(s)
    ensures Front(s) + s[DeclaredLength(s)..] == s
  {
  }

  lemma PrependMessage(m: seq<Byte>, ps: seq<Packet>)
    requires WholeMessage(m)
    ensures Bytes(MessagePackets(m) + ps) == m + Bytes(ps)
  {
    MessageKeepsBytes(m);
    BytesAppend(MessagePackets(m), ps);
  }

  /** What a parse takes and what it leaves are exactly the bytes it was given. */
  lemma {:induction false} ParseConserves(s: seq<Byte>, slack: nat)
    ensures Bytes(Parse(s, slack).packets) + Parse(s, slack).rest == s
    decreases |s|
  {
    if Ready(s, slack) {
      var m, t := Front(s), s[DeclaredLength(s)..];
      var more := Parse(t, slack);
      ParseConserves(t, slack);
      FrontAndRest(s);
      PrependMessage(m, more.packets);
      Assoc(m, Bytes(more.packets), more.rest);
    }
  }

  lemma ReadyIsStable(a: seq<Byte>, b: seq<Byte>, slack: nat)
    requires Ready(a, slack)
    ensures DeclaredLength(a + b) == DeclaredLength(a)
    ensures Front(a + b) == Front(a) && Ready(a + b, slack)
    ensures (a + b)[DeclaredLength(a)..] == a[DeclaredLength(a)..] + b
  {
  }

  /** Parsing can be interrupted: what is left of the first part is parsed with the second. */
  lemma {:induction false} ParseAppend(a: seq<Byte>, b: seq<Byte>, slack: nat)
    ensures
      var first := Parse(a, slack);
      var second := Parse(first.rest + b, slack);
      Parse(a + b, slack) == Parsed(first.packets + second.packets, second.rest)
    decreases |a|
  {
    var first := Parse(a, slack);
    var second := Parse(first.rest + b, slack);
    if Ready(a, slack) {
      ReadyIsStable(a, b, slack);
      var head, more := MessagePackets(Front(a)), Parse(a[DeclaredLength(a)..], slack);
      ParseAppend(a[DeclaredLength(a)..], b, slack);
      Assoc(head, more.packets, second.packets);
    } else {
      assert first.packets + second.packets == second.packets;
    }
  }

  lemma FrontOfClean(s: seq<Byte>)
    requires Clean(s)
    ensures Ready(s, HEADER_SIZE) <==> Complete(s)
    ensures Ready(s, 0) <==> |s| >= HEADER_SIZE && |s| >= DeclaredLength(s)
    ensures Ready(s, 0) ==> Clean(s[DeclaredLength(s)..])
  {
  }

  /** A full drain may come between: the plain parse of what it leaves completes the
      plain parse of the whole. */
  lemma {:induction false} DrainThenParse(s: seq<Byte>, slack: nat)
    requires slack <= HEADER_SIZE
    ensures
      var drained := Parse(s, HEADER_SIZE);
      var more := Parse(drained.rest, slack);
      Parse(s, slack) == Parsed(drained.packets + more.packets, more.rest)
    decreases |s|
  {
    var drained := Parse(s, HEADER_SIZE);
    var more := Parse(drained.rest, slack);
    if Ready(s, HEADER_SIZE) {
      var t := s[DeclaredLength(s)..];
      DrainThenParse(t, slack);
      Assoc(MessagePackets(Front(s)), Parse(t, HEADER_SIZE).packets, more.packets);
    } else {
      assert drained.packets + more.packets == more.packets;
    }
  }

  // ----- Schedules of receiving and draining

  datatype Event = Receive(chunk: seq<Byte>) | TakeOne | DrainAll

  /** The bytes in the buffer, the packets handed on, and all bytes ever accepted. */
  datatype State = State(held: seq<Byte>, emitted: seq<Packet>, accepted: seq<Byte>)

  /** A chunk that does not fit is refused whole; one message is taken, or all of them,
      while the buffer reports a complete packet. */
  function Step(capacity: nat, st: State, e: Event): State {
    match e
    case Receive(chunk) =>
      if |chunk| <= capacity - |st.held|
      then State(st.held + chunk, st.emitted, st.accepted + chunk) else st
    case TakeOne =>
      if Ready(st.held, HEADER_SIZE)
      then State(st.held[DeclaredLength(st.held)..], st.emitted + MessagePackets(Front(st.held)), st.accepted)
      else st
    case DrainAll =>
      var drained := Parse(st.held, HEADER_SIZE);
      State(drained.rest, st.emitted + drained.packets, st.accepted)
  }

  function Run(capacity: nat, events: seq<Event>): State {
    if events == [] then State([], [], [])
    else Step(capacity, Run(capacity, events[..|events| - 1]), events[|events| - 1])
  }

  /** The packets handed on and the bytes held account for everything accepted, and
      parsing what is held completes the parse of everything accepted. */
  ghost predicate Accounted(st: State, slack: nat) {
    var more := Parse(st.held, slack);
    && Bytes(st.emitted) + st.held == st.accepted
    && Parse(st.accepted, slack) == Parsed(st.emitted + more.packets, more.rest)
  }

  lemma ReceiveAccounted(st: State, chunk: seq<Byte>, slack: nat)
    requires Accounted(st, slack)
    ensures Accounted(State(st.held + chunk, st.emitted, st.accepted + chunk), slack)
  {
    var more := Parse(st.held, slack);
    var last := Parse(more.rest + chunk, slack);
    ParseAppend(st.accepted, chunk, slack);
    ParseAppend(st.held, chunk, slack);
    Assoc(st.emitted, more.packets, last.packets);
    Assoc(Bytes(st.emitted), st.held, chunk);
  }

  lemma DrainAccounted(st: State, slack: nat)
    requires Accounted(st, slack) && slack <= HEADER_SIZE
    ensures Accounted(Step(0, st, DrainAll), slack)
  {
    var drained := Parse(st.held, HEADER_SIZE);
    DrainThenParse(st.held, slack);
    ParseConserves(st.held, HEADER_SIZE);
    BytesAppend(st.emitted, drained.packets);
    Assoc(Bytes(st.emitted), Bytes(drained.packets), drained.rest);
    Assoc(st.emitted, drained.packets, Parse(drained.rest, slack).packets);
  }

  lemma TakeAccounted(st: State, slack: nat)
    requires Accounted(st, slack) && slack <= HEADER_SIZE && Ready(st.held, HEADER_SIZE)
    ensures Accounted(Step(0, st, TakeOne), slack)
  {
    var m, t := Front(st.held), st.held[DeclaredLength(st.held)..];
    FrontAndRest(st.held);
    MessageKeepsBytes(m);
    EmitMore(st.emitted, MessagePackets(m), m, t, Parse(t, slack).packets);
  }

  lemma EmitMore(emitted: seq<Packet>, ps: seq<Packet>, m: seq<Byte>, t: seq<Byte>, more: seq<Packet>)
    requires Bytes(ps) == m
    ensures Bytes(emitted + ps) + t == Bytes(emitted) + (m + t)
    ensures emitted + ps + more == emitted + (ps + more)
  {
    BytesAppend(emitted, ps);
    Assoc(Bytes(emitted), m, t);
    Assoc(emitted, ps, more);
  }

  lemma {:induction false} RunAccounted(capacity: nat, events: seq<Event>, slack: nat)
    requires slack <= HEADER_SIZE
    ensures Accounted(Run(capacity, events), slack)
    ensures |Run(capacity, events).held| <= capacity
  {
    if events != [] {
      var st, e := Run(capacity, events[..|events| - 1]), events[|events| - 1];
      RunAccounted(capacity, events[..|events| - 1], slack);
      match e
      case Receive(chunk) => ReceiveAccounted(st, chunk, slack);
      case TakeOne => if Ready(st.held, HEADER_SIZE) { TakeAccounted(st, slack); }
      case DrainAll =>
        DrainAccounted(st, slack);
        ParseConserves(st.held, HEADER_SIZE);
    }
  }

  /** However the stream was cut and whenever the buffer was drained: what was handed on
      is a prefix of the plain parse of the whole stream, and the bytes held together
      with those not yet sent are exactly the part of the stream not handed on. */
  lemma EmittedIsPrefixOfParse(capacity: nat, events: seq<Event>, unsent: seq<Byte>)
    ensures
      var st := Run(capacity, events);
      var more := Parse(st.held + unsent, 0);
      && Parse(st.accepted + unsent, 0) == Parsed(st.emitted + more.packets, more.rest)
      && Bytes(st.emitted) + (st.held + unsent) == st.accepted + unsent
  {
    RunAccounted(capacity, events, 0);
    ReceiveAccounted(Run(capacity, events), unsent, 0);
    Assoc(Bytes(Run(capacity, events).emitted), Run(capacity, events).held, unsent);
  }

  /** After a final drain, the packets handed on and the bytes left depend only on the
      bytes accepted. */
  lemma FragmentationIndependence(capacity: nat, events: seq<Event>)
    ensures
      var st := Run(capacity, events);
      var parsed := Parse(st.accepted, HEADER_SIZE);
      Step(capacity, st, DrainAll) == State(parsed.rest, parsed.packets, st.accepted)
  {
    var st := Run(capacity, events);
    RunAccounted(capacity, events, HEADER_SIZE);
    DrainThenParse(st.held, HEADER_SIZE);
  }

  // ----- The message that is held back

  function Concat(ms: seq<seq<Byte>>): seq<Byte> {
    if ms == [] then [] else ms[0] + Concat(ms[1..])
  }

  function PacketsOf(ms: seq<seq<Byte>>): seq<Packet>
    requires forall m <- ms :: WholeMessage(m)
  {
    if ms == [] then [] else MessagePackets(ms[0]) + PacketsOf(ms[1..])
  }

  /** A message is taken exactly when `slack` bytes follow it, whatever they are. */
  lemma MessageFirst(m: seq<Byte>, t: seq<Byte>, slack: nat)
    requires WholeMessage(m)
    ensures |m| >= 8 && DeclaredLength(m + t) == |m|
    ensures Ready(m + t, slack) <==> |t| >= slack
    ensures |t| >= slack ==> Front(m + t) == m && (m + t)[|m|..] == t
  {
    assert (m + t)[..|m|] == m;
  }

  lemma {:induction false} ParseOfMessages(ms: seq<seq<Byte>>, t: seq<Byte>, slack: nat)
    requires forall m <- ms :: WholeMessage(m)
    requires |t| >= slack
    ensures
      var last := Parse(t, slack);
      Parse(Concat(ms) + t, slack) == Parsed(PacketsOf(ms) + last.packets, last.rest)
  {
    var last := Parse(t, slack);
    if ms == [] {
      assert Concat(ms) + t == t;
      assert PacketsOf(ms) + last.packets == last.packets;
    } else {
      var more := Concat(ms[1..]) + t;
      ParseOfMessages(ms[1..], t, slack);
      Assoc(ms[0], Concat(ms[1..]), t);
      MessageFirst(ms[0], more, slack);
      Assoc(MessagePackets(ms[0]), PacketsOf(ms[1..]), last.packets);
    }
  }

  lemma {:induction false} ConcatLast(ms: seq<seq<Byte>>)
    requires ms != []
    ensures Concat(ms) == Concat(ms[..|ms| - 1]) + ms[|ms| - 1]
  {
    var k := |ms| - 1;
    if k == 0 {
      assert Concat(ms[1..]) == [] && Concat(ms[..0]) == [];
    } else {
      ConcatLast(ms[1..]);
      assert ms[1..][..k - 1] == ms[..k][1..];
      Assoc(ms[0], Concat(ms[..k][1..]), ms[k]);
    }
  }

  /** The full drain of well-formed messages always keeps the last one back, unless four
      more bytes follow it: the buffer's test adds the header to a length that includes it. */
  lemma HoldBack(ms: seq<seq<Byte>>, t: seq<Byte>)
    requires ms != [] && forall m <- ms :: WholeMessage(m)
    ensures |t| < HEADER_SIZE ==>
      Parse(Concat(ms) + t, HEADER_SIZE) == Parsed(PacketsOf(ms[..|ms| - 1]), ms[|ms| - 1] + t)
    ensures |t| >= HEADER_SIZE ==>
      var after := Parse(t, HEADER_SIZE);
      Parse(Concat(ms) + t, HEADER_SIZE) == Parsed(PacketsOf(ms) + after.packets, after.rest)
    ensures Parse(Concat(ms), 0) == Parsed(PacketsOf(ms), [])
  {
    var k := |ms| - 1;
    ParseOfMessages(ms, [], 0);
    assert Concat(ms) + [] == Concat(ms) && PacketsOf(ms) + [] == PacketsOf(ms);
    if |t| >= HEADER_SIZE {
      ParseOfMessages(ms, t, HEADER_SIZE);
    } else {
      ConcatLast(ms);
      Assoc(Concat(ms[..k]), ms[k], t);
      MessageFirst(ms[k], t, HEADER_SIZE);
      ParseOfMessages(ms[..k], ms[k] + t, HEADER_SIZE);
      assert PacketsOf(ms[..k]) + [] == PacketsOf(ms[..k]);
    }
  }

  lemma HeldBack(ms: seq<seq<Byte>>)
    requires ms != [] && forall m <- ms :: WholeMessage(m)
    ensures Parse(Concat(ms), HEADER_SIZE) == Parsed(PacketsOf(ms[..|ms| - 1]), ms[|ms| - 1])
  {
    HoldBack(ms, []);
    NothingAfter(Concat(ms));
    NothingAfter(ms[|ms| - 1]);
  }

  lemma NothingAfter(a: seq<Byte>)
    ensures a + [] == a
  {
  }

  lemma ConcatNext(ms: seq<seq<Byte>>, i: nat)
    requires i < |ms|
    ensures Concat(ms[..i + 1]) == Concat(ms[..i]) + ms[i]
  {
    ConcatLast(ms[..i + 1]);
    assert ms[..i + 1][..i] == ms[..i];
  }

  lemma {:induction false} MessagesAreClean(ms: seq<seq<Byte>>)
    requires forall m <- ms :: WholeMessage(m)
    ensures Clean(Concat(ms))
  {
    if ms != [] {
      MessageFirst(ms[0], Concat(ms[1..]), 0);
      MessagesAreClean(ms[1..]);
    }
  }

  // ----- No stall

  /** A full receive buffer always reports a complete packet; a buffer that does not
      holds at most 65538 bytes, and so has room for 36862 more. */
  lemma NoStall(s: seq<Byte>)
    requires |s| <= RECV_BUFFER_SIZE
    ensures |s| == RECV_BUFFER_SIZE ==> Complete(s)
    ensures !Complete(s) ==> |s| <= 65538 && RECV_BUFFER_SIZE - |s| >= 36862
  {
  }

  /** The bound is reached: 65538 bytes whose length field is all ones. */
  lemma StallBoundIsTight() returns (s: seq<Byte>)
    ensures |s| == 65538 && !Complete(s)
  {
    s := seq(65538, i => 0xFF);
  }

  lemma CleanAfterMessage(a: seq<Byte>, b: seq<Byte>)
    requires Clean(a + b) && Ready(a, 0)
    ensures Clean(a[DeclaredLength(a)..] + b)
  {
    ReadyIsStable(a, b, 0);
  }

  lemma {:induction false} CleanPrefix(a: seq<Byte>, b: seq<Byte>)
    requires Clean(a + b)
    ensures Clean(a)
    decreases |a|
  {
    if |a| >= HEADER_SIZE {
      assert DeclaredLength(a + b) == DeclaredLength(a);
      if |a| >= DeclaredLength(a) {
        assert Front(a + b) == Front(a);
        CleanAfterMessage(a, b);
        CleanPrefix(a[DeclaredLength(a)..], b);
      }
    }
  }

  lemma {:induction false} CleanAfterParse(a: seq<Byte>, b: seq<Byte>, slack: nat)
    requires Clean(a + b)
    ensures Clean(Parse(a, slack).rest + b)
    decreases |a|
  {
    if Ready(a, slack) {
      CleanAfterMessage(a, b);
      CleanAfterParse(a[DeclaredLength(a)..], b, slack);
    }
  }

  lemma {:induction false} ParseIsExhausted(s: seq<Byte>, slack: nat)
    requires Clean(s)
    ensures Clean(Parse(s, slack).rest) && !Ready(Parse(s, slack).rest, slack)
    decreases |s|
  {
    if Ready(s, slack) {
      ParseIsExhausted(s[DeclaredLength(s)..], slack);
    }
  }

  lemma {:induction false} CleanIfRestIs(s: seq<Byte>)
    requires Clean(Parse(s, 0).rest)
    ensures Clean(s)
    decreases |s|
  {
    if Ready(s, 0) {
      CleanIfRestIs(s[DeclaredLength(s)..]);
    }
  }

  /** After a full drain in any schedule over a clean stream, there is room to receive. */
  lemma RoomAfterDrain(events: seq<Event>)
    requires Clean(Run(RECV_BUFFER_SIZE, events).accepted)
    ensures
      var drained := Step(RECV_BUFFER_SIZE, Run(RECV_BUFFER_SIZE, events), DrainAll);
      RECV_BUFFER_SIZE - |drained.held| >= 36862
  {
    var st := Run(RECV_BUFFER_SIZE, events);
    FragmentationIndependence(RECV_BUFFER_SIZE, events);
    ParseIsExhausted(st.accepted, HEADER_SIZE);
    RunAccounted(RECV_BUFFER_SIZE, events, 0);
    ParseConserves(st.held, HEADER_SIZE);
    var left := Step(RECV_BUFFER_SIZE, st, DrainAll).held;
    FrontOfClean(left);
    NoStall(left);
  }
}
