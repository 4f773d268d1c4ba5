/** The receive buffer at work: chunks go in as the socket delivers them, messages come
    out through the packet decoder. */
module Receiver {
  import opened Wire
  import opened Ring
  import opened Stream

  // The index of `screen_num` in the terminal record.
  const SCREEN_NUM_AT := 7

  class Receiver {
    const ring: CircularQueue
    var emitted: seq<Packet>
    ghost var accepted: seq<Byte>

    ghost predicate Valid()
      reads this, ring
    {
      ring.Valid()
    }

    ghost function Held(): seq<Byte>
      requires Valid()
      reads this, ring, ring.data
    {
      ring.Contents()
    }

    /** What the buffer holds, has handed on and has accepted, as a state of the schedule. */
    ghost function Abstract(): State
      requires Valid()
      reads this, ring, ring.data
    {
      State(Held(), emitted, accepted)
    }

    constructor (capacity: nat)
      requires capacity <= MAX_OBJECT
      ensures Valid() && fresh(ring) && fresh(ring.data) && ring.data.Length == capacity
      ensures Abstract() == Run(capacity, [])
    {
      ring := new CircularQueue(capacity);
      emitted := [];
      accepted := [];
    }

    method Accept(chunk: seq<Byte>) returns (ok: bool)
      requires Valid()
      modifies this`accepted, ring, ring.data
      ensures Valid() && (ok <==> |chunk| <= ring.data.Length - |old(Held())|)
      ensures Abstract() == Step(ring.data.Length, old(Abstract()), Receive(chunk))
    {
      ok := ring.Enqueue(chunk, |chunk|);
      assert chunk[..|chunk|] == chunk;
      if ok {
        accepted := accepted + chunk;
      }
    }

    /** A terminal record that declares `n` screens: one plain decoding, then `n` screen
        decodings. They return the record and the screens in order and remove exactly
        the declared length. */
    method TakeTerminal(n: nat) returns (packets: seq<Packet>)
      requires Valid() && HeadOk(Held()) && Held()[1] == IP_TERM
      requires DeclaredLength(Held()) == HEADER_SIZE + IP_TERM_SIZE + SCREEN_SIZE * n
      requires |Held()| >= DeclaredLength(Held())
      modifies ring
      ensures Valid()
      ensures
        var s := old(Held());
        && packets == [Decode(s)] + Screens(s[Consumed(s)..], n)
        && Held() == s[DeclaredLength(s)..]
    {
      ghost var s := Held();
      var record := ring.DequeuePacket(false);
      ghost var body := Held();
      var screens := TakeScreens(n);
      packets := [record] + screens;
      assert body[SCREEN_SIZE * n..] == s[DeclaredLength(s)..];
    }

    method TakeScreens(n: nat) returns (packets: seq<Packet>)
      requires Valid() && |Held()| >= SCREEN_SIZE * n
      modifies ring
      ensures Valid()
      ensures packets == Screens(old(Held()), n)
      ensures Held() == old(Held())[SCREEN_SIZE * n..]
    {
      ghost var s := Held();
      packets := [];
      var i := 0;
      while i < n
        invariant 0 <= i <= n && Valid()
        invariant Held() == s[SCREEN_SIZE * i..]
        invariant Screens(s, n) == packets + Screens(s[SCREEN_SIZE * i..], n - i)
      {
        var screen := ring.DequeuePacket(true);
        ScreensTurn(s, i, n, packets);
        packets := packets + [screen];
        i := i + 1;
      }
    }

    /** The next message, as the session takes it: the packet, and for a terminal record
        the screens it counts. */
    method TakeMessage()
      requires Valid() && Ready(Held(), 0)
      modifies this`emitted, ring
      ensures Valid()
      ensures
        var s := old(Held());
        && emitted == old(emitted) + MessagePackets(Front(s))
        && Held() == s[DeclaredLength(s)..]
    {
      ghost var s := Held();
      FrontDecodes(s);
      var record := ring.DequeuePacket(false);
      var n := 0;
      if record.header.descriptor == IP_TERM {
        n := record.payload[SCREEN_NUM_AT];
      }
      FrontInParts(s, n);
      var screens := TakeScreens(n);
      emitted := emitted + ([record] + screens);
    }

    /** One message, if a complete packet is reported. */
    method TakeOneMessage()
      requires Valid() && Clean(Held())
      modifies this`emitted, ring
      ensures Valid()
      ensures Abstract() == Step(ring.data.Length, old(Abstract()), TakeOne)
      ensures
        var s := old(Held());
        if |s| >= 4 && |s| >= 4 + Big16(s, 2)
        then emitted == old(emitted) + MessagePackets(s[..Big16(s, 2)]) && Held() == s[Big16(s, 2)..]
        else emitted == old(emitted) && Held() == s
    {
      FrontOfClean(Held());
      if ring.HasCompletePacket() {
        TakeMessage();
      }
    }

    /** One event of a schedule, on the ring. */
    method Perform(event: Event)
      requires Valid() && Clean(Held())
      modifies this, ring, ring.data
      ensures Valid() && Abstract() == Step(ring.data.Length, old(Abstract()), event)
    {
      match event {
        case Receive(chunk) => var _ := Accept(chunk);
        case TakeOne => TakeOneMessage();
        case DrainAll => Drain();
      }
    }

    /** Any schedule of receiving, taking single messages and draining, on the ring: it
        does what the run says, as long as every header is one the decoder handles. */
    method Play(events: seq<Event>)
      requires Valid() && Abstract() == Run(ring.data.Length, [])
      requires Clean(Run(ring.data.Length, events).accepted)
      modifies this, ring, ring.data
      ensures Valid() && Abstract() == Run(ring.data.Length, events)
    {
      var i := 0;
      while i < |events|
        invariant 0 <= i <= |events| && Valid()
        invariant Abstract() == Run(ring.data.Length, events[..i])
      {
        HeldIsClean(ring.data.Length, events, i);
        NextEvent(ring.data.Length, events, i);
        Perform(events[i]);
        i := i + 1;
      }
      assert events[..i] == events;
    }

    /** The drain loop: it stops because every message shortens the buffer, and does what
        the schedule's full drain does. */
    method Drain()
      requires Valid() && Clean(Held())
      modifies this`emitted, ring
      ensures Valid()
      ensures Abstract() == Step(ring.data.Length, old(Abstract()), DrainAll)
      ensures |Held()| < 4 || |Held()| < 4 + Big16(Held(), 2)
    {
      ghost var start := emitted;
      ghost var all := Parse(Held(), HEADER_SIZE);
      ghost var out: seq<Packet> := [];
      while ring.HasCompletePacket()
        invariant Valid() && Clean(Held())
        invariant emitted == start + out
        invariant all.packets == out + Parse(Held(), HEADER_SIZE).packets
        invariant all.rest == Parse(Held(), HEADER_SIZE).rest
        decreases ring.Size()
      {
        ghost var s := Held();
        FrontOfClean(s);
        TakeMessage();
        Assoc(out, MessagePackets(Front(s)), Parse(Held(), HEADER_SIZE).packets);
        Assoc(start, out, MessagePackets(Front(s)));
        out := out + MessagePackets(Front(s));
      }
      FrontOfClean(Held());
      assert all.packets == out;
    }

    /** Receiving and draining by turns, with chunks of any size that fits, always gets
        to the end of the stream, and the outcome is the same for all chunkings. */
    method Deliver(stream: seq<Byte>)
      requires Valid() && Clean(Held() + stream)
      requires ring.data.Length > 65538
      modifies this, ring, ring.data
      ensures Valid()
      ensures
        var all := Parse(old(Held()) + stream, HEADER_SIZE);
        emitted == old(emitted) + all.packets && Held() == all.rest
    {
      ghost var start, first := emitted, Held();
      ghost var out: seq<Packet> := [];
      var unsent := stream;
      while unsent != []
        invariant Valid() && Clean(Held() + unsent)
        invariant emitted == start + out
        invariant Delivered(first + stream, out, Held() + unsent)
        decreases |unsent|
      {
        out := DrainTurn(unsent, start, out, first + stream);
        unsent := AcceptSome(unsent);
      }
      out := DrainTurn(unsent, start, out, first + stream);
      assert Held() + unsent == Held();
      FrontOfClean(Held());
    }

    /** A chunk of any size that fits; after a drain there is room for one. */
    method AcceptSome(unsent: seq<Byte>) returns (rest: seq<Byte>)
      requires Valid() && Clean(Held()) && !Complete(Held()) && unsent != []
      requires ring.data.Length > 65538
      modifies this`accepted, ring, ring.data
      ensures Valid() && |rest| < |unsent| && Held() + rest == old(Held()) + unsent
    {
      var n :| 1 <= n <= |unsent| && n <= ring.numFreeBytes;
      Assoc(Held(), unsent[..n], unsent[n..]);
      assert unsent[..n] + unsent[n..] == unsent;
      var ok := Accept(unsent[..n]);
      assert ok;
      rest := unsent[n..];
    }

    ghost predicate Delivered(whole: seq<Byte>, out: seq<Packet>, left: seq<Byte>) {
      var all, more := Parse(whole, HEADER_SIZE), Parse(left, HEADER_SIZE);
      all == Parsed(out + more.packets, more.rest)
    }

    /** One drain inside a delivery. */
    method DrainTurn(unsent: seq<Byte>, ghost start: seq<Packet>, ghost out: seq<Packet>, ghost whole: seq<Byte>)
        returns (ghost out': seq<Packet>)
      requires Valid() && Clean(Held() + unsent)
      requires emitted == start + out && Delivered(whole, out, Held() + unsent)
      modifies this`emitted, ring
      ensures Valid() && Clean(Held() + unsent) && Clean(Held()) && !Complete(Held())
      ensures emitted == start + out' && Delivered(whole, out', Held() + unsent)
    {
      ghost var s := Held();
      CleanPrefix(s, unsent);
      CleanAfterParse(s, unsent, HEADER_SIZE);
      ParseAppend(s, unsent, HEADER_SIZE);
      ParseIsExhausted(s, HEADER_SIZE);
      Drain();
      ghost var taken := Parse(s, HEADER_SIZE).packets;
      FrontOfClean(Held());
      Assoc(start, out, taken);
      Assoc(out, taken, Parse(Held() + unsent, HEADER_SIZE).packets);
      out' := out + taken;
    }
  }

  lemma NextEvent(capacity: nat, events: seq<Event>, i: nat)
    requires i < |events|
    ensures Run(capacity, events[..i + 1]) == Step(capacity, Run(capacity, events[..i]), events[i])
  {
    assert events[..i + 1][..i] == events[..i];
  }

  /** Nothing accepted is forgotten. */
  lemma {:induction false} AcceptedGrows(capacity: nat, events: seq<Event>, i: nat)
    requires i <= |events|
    ensures Run(capacity, events[..i]).accepted <= Run(capacity, events).accepted
    decreases |events| - i
  {
    if i == |events| {
      assert events[..i] == events;
    } else {
      NextEvent(capacity, events, i);
      AcceptedGrows(capacity, events, i + 1);
    }
  }

  /** What is held at any moment of a schedule over a clean stream is clean. */
  lemma HeldIsClean(capacity: nat, events: seq<Event>, i: nat)
    requires i <= |events| && Clean(Run(capacity, events).accepted)
    ensures Clean(Run(capacity, events[..i]).held)
  {
    var st, whole := Run(capacity, events[..i]), Run(capacity, events).accepted;
    AcceptedGrows(capacity, events, i);
    assert whole == st.accepted + whole[|st.accepted|..];
    CleanPrefix(st.accepted, whole[|st.accepted|..]);
    RunAccounted(capacity, events[..i], 0);
    ParseIsExhausted(st.accepted, 0);
    CleanIfRestIs(st.held);
  }

  lemma ScreensTurn(s: seq<Byte>, i: nat, n: nat, packets: seq<Packet>)
    requires i < n && |s| >= SCREEN_SIZE * n
    requires Screens(s, n) == packets + Screens(s[SCREEN_SIZE * i..], n - i)
    ensures s[SCREEN_SIZE * i..][SCREEN_SIZE..] == s[SCREEN_SIZE * (i + 1)..]
    ensures Screens(s, n) ==
      packets + [Screen(s[SCREEN_SIZE * i..][..SCREEN_SIZE])] + Screens(s[SCREEN_SIZE * (i + 1)..], n - (i + 1))
  {
    var t := s[SCREEN_SIZE * i..];
    assert t[SCREEN_SIZE..] == s[SCREEN_SIZE * (i + 1)..];
    Assoc(packets, [Screen(t[..SCREEN_SIZE])], Screens(t[SCREEN_SIZE..], n - i - 1));
  }

  /** Decoding looks at nothing beyond the message. */
  lemma DecodeFront(s: seq<Byte>)
    requires Ready(s, 0)
    ensures
      var m := Front(s);
      && Decodable(s) && Consumed(s) == Consumed(m) && Decode(s) == Decode(m)
      && (s[1] == IP_TERM ==> Decode(s).payload[SCREEN_NUM_AT] == ScreenCount(m))
      && s[Consumed(s)..][SCREEN_SIZE * ScreenCount(m)..] == s[DeclaredLength(s)..]
      && Screens(s[Consumed(s)..], ScreenCount(m)) == Screens(m[Consumed(m)..], ScreenCount(m))
  {
    var m := Front(s);
    assert m[Consumed(m)..] == s[Consumed(s)..][..SCREEN_SIZE * ScreenCount(m)];
    ScreensPrefix(s[Consumed(s)..], ScreenCount(m));
  }

  lemma FrontDecodes(s: seq<Byte>)
    requires Ready(s, 0)
    ensures Decodable(s)
    ensures s[1] == IP_TERM ==> |Decode(s).payload| > SCREEN_NUM_AT
  {
    DecodeFront(s);
  }

  /** The record and the screens it counts are the packets of the message at the front. */
  lemma FrontInParts(s: seq<Byte>, n: nat)
    requires Ready(s, 0) && Decodable(s) && (s[1] == IP_TERM ==> |Decode(s).payload| > SCREEN_NUM_AT)
    requires n == if s[1] == IP_TERM then Decode(s).payload[SCREEN_NUM_AT] else 0
    ensures
      var rest := s[Consumed(s)..];
      && |rest| >= SCREEN_SIZE * n && rest[SCREEN_SIZE * n..] == s[DeclaredLength(s)..]
      && [Decode(s)] + Screens(rest, n) == MessagePackets(Front(s))
  {
    DecodeFront(s);
  }

  lemma {:induction false} ScreensPrefix(s: seq<Byte>, n: nat)
    requires |s| >= SCREEN_SIZE * n
    ensures Screens(s[..SCREEN_SIZE * n], n) == Screens(s, n)
  {
    if n > 0 {
      var t := s[..SCREEN_SIZE * n];
      ScreensPrefix(s[SCREEN_SIZE..], n - 1);
      assert t[SCREEN_SIZE..] == s[SCREEN_SIZE..][..SCREEN_SIZE * (n - 1)];
      assert t[..SCREEN_SIZE] == s[..SCREEN_SIZE];
    }
  }
}
