/** One readable turn of the select loop of server/src/transfer.cpp: bytes are taken from
    the socket into the receive buffer, and the client is served when the buffer holds
    the declared length, and dropped otherwise. */
module Transfer {
  import opened Wire
  import opened Ring
  import opened Stream
  import opened Receiver

  /** What one receive call on the socket would give: an error, or bytes (none at all
      when the peer has closed). The call takes no more than it asks for. */
  type Offer = Option<seq<Byte>>

  function Took(chunk: seq<Byte>, asked: nat): (c: seq<Byte>)
    ensures c <= chunk && |c| == if |chunk| <= asked then |chunk| else asked
  {
    if |chunk| <= asked then chunk else chunk[..asked]
  }

  /** The outcome of a reception: the bytes then in the buffer, whether the connection is
      still good, and the bytes that were taken from the socket. */
  datatype Intake = Intake(held: seq<Byte>, ok: bool, read: seq<Byte>)

  /** Bytes written over the start of a buffer. */
  function Over(buffer: seq<Byte>, bytes: seq<Byte>): (b: seq<Byte>)
    requires |bytes| <= |buffer|
    ensures |b| == |buffer|
  {
    bytes + buffer[|bytes|..]
  }

  /** The loop that waits for a header. Every turn receives to the start of the temporary
      buffer, and then queues as many bytes of it as all turns together have received. */
  function HeaderWait(capacity: nat, i: Intake, temp: seq<Byte>, received: nat, offers: seq<Offer>, k: nat): (r: Intake)
    requires |i.held| <= capacity <= |temp| && k <= |offers|
    ensures r.ok && i.ok ==> |r.held| >= HEADER_SIZE
    ensures |r.held| <= capacity
    decreases |offers| - k
  {
    if |i.held| >= HEADER_SIZE then i
    else if k == |offers| || offers[k].None? then i.(ok := false)
    else
      var c := Took(offers[k].value, capacity - |i.held|);
      if c == [] then i.(ok := false)
      else
        var temp', total := Over(temp, c), received + |c|;
        HeaderWait(capacity, Intake(Queued(capacity, i.held, temp', total), i.ok, i.read + c), temp', total, offers, k + 1)
  }

  /** The contents after queueing the first `total` bytes of a buffer, where they fit. */
  function Queued(capacity: nat, held: seq<Byte>, temp: seq<Byte>, total: nat): (s: seq<Byte>)
    requires |held| <= capacity <= |temp|
    ensures |s| <= capacity
  {
    if total <= capacity - |held| then held + temp[..total] else held
  }

  function Receive(capacity: nat, held: seq<Byte>, wanted: nat, offers: seq<Offer>): (r: Intake)
    requires |held| <= capacity
    ensures r.ok ==> |r.held| >= HEADER_SIZE
  {
    if |held| < HEADER_SIZE then HeaderWait(capacity, Intake(held, true, []), seq(capacity, _ => 0), 0, offers, 0)
    else if |held| == capacity || wanted == 0 then Intake(held, true, [])
    else if offers == [] || offers[0].None? then Intake(held, false, [])
    else
      var c := Took(offers[0].value, capacity - |held|);
      Intake(held + c, true, c)
  }

  /** A reception once a header is held, outright. A full buffer, or nothing wanted, means
      no call. Else one call is made: an error is an error and queues nothing; the bytes it
      gives, none at all from a peer that has closed, are queued as far as there is room. */
  lemma ReceiveOutcome(capacity: nat, held: seq<Byte>, wanted: nat, offers: seq<Offer>)
    requires 4 <= |held| <= capacity
    ensures
      var r, room := Receive(capacity, held, wanted, offers), capacity - |held|;
      && (room == 0 || wanted == 0 ==> r.ok && r.held == held)
      && (room > 0 && wanted > 0 && (offers == [] || offers[0].None?) ==> !r.ok && r.held == held)
      && (room > 0 && wanted > 0 && offers != [] && offers[0].Some? ==>
            var c := offers[0].value;
            r.ok && r.held == held + if |c| <= room then c else c[..room])
  {
  }

  /** The wait for a header ends well exactly with a header held, and gives up on an error,
      on a peer that has closed, and when the buffer has no room. */
  lemma WaitOutcome(capacity: nat, held: seq<Byte>, offers: seq<Offer>)
    requires |held| < 4 && |held| <= capacity
    ensures
      var r := Receive(capacity, held, 0, offers);
      && (r.ok <==> |r.held| >= 4) && held <= r.held
      && (offers == [] || offers[0].None? || offers[0].value == [] || |held| == capacity ==> !r.ok && r.held == held)
  {
    WaitGrows(capacity, Intake(held, true, []), seq(capacity, _ => 0), 0, offers, 0);
  }

  lemma {:induction false} WaitGrows(capacity: nat, i: Intake, temp: seq<Byte>, received: nat, offers: seq<Offer>, k: nat)
    requires |i.held| <= capacity <= |temp| && k <= |offers| && i.ok
    ensures
      var r := HeaderWait(capacity, i, temp, received, offers, k);
      (r.ok <==> |r.held| >= HEADER_SIZE) && i.held <= r.held
    decreases |offers| - k
  {
    if |i.held| < HEADER_SIZE && k < |offers| && offers[k].Some? {
      var c := Took(offers[k].value, capacity - |i.held|);
      if c != [] {
        var temp', total := Over(temp, c), received + |c|;
        WaitGrows(capacity, Intake(Queued(capacity, i.held, temp', total), true, i.read + c), temp', total, offers, k + 1);
      }
    }
  }

  /** The buffer holds the old bytes followed by those taken from the socket. */
  predicate Faithful(held: seq<Byte>, r: Intake) {
    r.held == held + r.read
  }

  /** Once a turn has gone before, a wait that succeeds has queued more than it read. */
  lemma {:induction false} LaterTurns(capacity: nat, i: Intake, temp: seq<Byte>, received: nat, offers: seq<Offer>,
                                      k: nat, start: nat)
    requires |i.held| <= capacity <= |temp| && k <= |offers|
    requires received > 0 && i.ok && |i.held| >= start + |i.read|
    requires |i.held| < HEADER_SIZE || |i.held| > start + |i.read|
    ensures
      var r := HeaderWait(capacity, i, temp, received, offers, k);
      r.ok ==> |r.held| > start + |r.read|
    decreases |offers| - k
  {
    if |i.held| < HEADER_SIZE && k < |offers| && offers[k].Some? {
      var c := Took(offers[k].value, capacity - |i.held|);
      if c != [] {
        var temp', total := Over(temp, c), received + |c|;
        if total <= capacity - |i.held| {
          LaterTurns(capacity, Intake(i.held + temp'[..total], true, i.read + c), temp', total, offers, k + 1, start);
        } else {
          NeverFits(capacity, Intake(i.held, true, i.read + c), temp', total, offers, k + 1);
        }
      }
    }
  }

  /** Once the running total no longer fits, nothing is queued any more and the wait
      can only end in an error. */
  lemma {:induction false} NeverFits(capacity: nat, i: Intake, temp: seq<Byte>, received: nat, offers: seq<Offer>, k: nat)
    requires |i.held| <= capacity <= |temp| && k <= |offers|
    requires |i.held| < HEADER_SIZE && received > capacity - |i.held|
    ensures !HeaderWait(capacity, i, temp, received, offers, k).ok
    decreases |offers| - k
  {
    if k < |offers| && offers[k].Some? {
      var c := Took(offers[k].value, capacity - |i.held|);
      if c != [] {
        NeverFits(capacity, i.(read := i.read + c), Over(temp, c), received + |c|, offers, k + 1);
      }
    }
  }

  /** A call that gives bytes puts them over the start of the temporary buffer, and all
      bytes received so far are queued. */
  lemma WaitTurn(capacity: nat, held: seq<Byte>, read: seq<Byte>, temp: seq<Byte>, received: nat,
                 offers: seq<Offer>, k: nat, c: seq<Byte>)
    requires |held| < HEADER_SIZE && |held| <= capacity <= |temp| && k < |offers|
    requires offers[k].Some? && c == Took(offers[k].value, capacity - |held|) && c != []
    ensures
      var temp', total := Over(temp, c), received + |c|;
      HeaderWait(capacity, Intake(held, true, read), temp, received, offers, k) ==
        HeaderWait(capacity, Intake(Queued(capacity, held, temp', total), true, read + c), temp', total, offers, k + 1)
  {
  }

  /** A call that gives nothing ends the wait in an error. */
  lemma WaitFails(capacity: nat, held: seq<Byte>, read: seq<Byte>, temp: seq<Byte>, received: nat,
                  offers: seq<Offer>, k: nat)
    requires |held| < HEADER_SIZE && |held| <= capacity <= |temp| && k <= |offers|
    requires k == |offers| || offers[k].None? || Took(offers[k].value, capacity - |held|) == []
    ensures HeaderWait(capacity, Intake(held, true, read), temp, received, offers, k) == Intake(held, false, read)
  {
  }

  lemma OverStart(temp: seq<Byte>, c: seq<Byte>, capacity: nat, held: seq<Byte>)
    requires |c| <= capacity - |held| && |held| <= capacity <= |temp|
    ensures Queued(capacity, held, Over(temp, c), |c|) == held + c && [] + c == c
  {
    assert Over(temp, c)[..|c|] == c;
  }

  /** The first receive call queues what it took. */
  lemma FirstCall(capacity: nat, held: seq<Byte>, wanted: nat, offers: seq<Offer>, c: seq<Byte>)
    requires |held| < HEADER_SIZE <= capacity && offers != [] && offers[0].Some? && offers[0].value != []
    requires c == Took(offers[0].value, capacity - |held|)
    ensures
      Receive(capacity, held, wanted, offers) ==
        HeaderWait(capacity, Intake(held + c, true, c), Over(seq(capacity, _ => 0), c), |c|, offers, 1)
  {
    var temp: seq<Byte> := seq(capacity, _ => 0);
    WaitTurn(capacity, held, [], temp, 0, offers, 0, c);
    OverStart(temp, c, capacity, held);
  }

  /** The wait for a header is faithful exactly when its first receive call completes
      the header: any further call queues the bytes of the earlier ones again. */
  lemma WaitIsFaithfulIff(capacity: nat, held: seq<Byte>, offers: seq<Offer>)
    requires |held| < HEADER_SIZE <= capacity && offers != [] && offers[0].Some?
    requires Receive(capacity, held, 0, offers).ok
    ensures Faithful(held, Receive(capacity, held, 0, offers)) <==>
      |held| + |offers[0].value| >= HEADER_SIZE
  {
    var c := Took(offers[0].value, capacity - |held|);
    FirstCall(capacity, held, 0, offers, c);
    if |held| + |c| < HEADER_SIZE {
      LaterTurns(capacity, Intake(held + c, true, c), Over(seq(capacity, _ => 0), c), |c|, offers, 1, |held|);
    }
  }

  /** A wait that succeeds and spoils the buffer: one byte, then three. Five bytes are
      queued, the first byte of the second call twice over. */
  lemma WaitSpoils(capacity: nat, a: Byte, b: Byte, c: Byte, d: Byte)
    requires capacity >= 5
    ensures
      var r := Receive(capacity, [], 0, [Some([a]), Some([b, c, d])]);
      r.ok && r.read == [a, b, c, d] && r.held == [a, b, c, d, 0] && !Faithful([], r)
  {
    var offers := [Some([a]), Some([b, c, d])];
    var temp := Over(seq(capacity, _ => 0), [a]);
    FirstCall(capacity, [], 0, offers, [a]);
    assert [] + [a] == [a];
    assert temp[3] == 0;
    assert Over(temp, [b, c, d])[..4] == [b, c, d, temp[3]];
    assert [a] + [b, c, d, 0] == [a, b, c, d, 0] && [a] + [b, c, d] == [a, b, c, d];
  }

  /** What decides whether a receive call is made at all once a header is there. */
  function Wanted(held: seq<Byte>): nat {
    if |held| >= HEADER_SIZE then DeclaredLength(held) else 0
  }

  /** The client is served in this turn; otherwise it is dropped. */
  predicate Served(r: Intake)
    requires r.ok ==> |r.held| >= HEADER_SIZE
  {
    r.ok && |r.held| >= DeclaredLength(r.held)
  }

  lemma HeadOfPrefix(m: seq<Byte>, s: seq<Byte>)
    requires WholeMessage(m) && |s| >= HEADER_SIZE && (s <= m || m <= s)
    ensures DeclaredLength(s) == |m|
    ensures m <= s ==> Ready(s, 0) && Front(s) == m
  {
  }

  /** A turn that brings a chunk of the stream while its first message `m` is still in
      the buffer or on its way: the client is served from an intact buffer exactly when
      the message is complete with this one chunk. A message cut anywhere costs the
      client its connection or its bytes. */
  lemma ServedIntactIff(capacity: nat, m: seq<Byte>, held: seq<Byte>, chunk: seq<Byte>, later: seq<Offer>)
    requires WholeMessage(m) && (held + chunk <= m || m <= held + chunk)
    requires chunk != [] && |held + chunk| <= capacity && capacity >= HEADER_SIZE
    ensures
      var r := Receive(capacity, held, Wanted(held), [Some(chunk)] + later);
      && (Served(r) && Faithful(held, r) <==> |held + chunk| >= |m|)
      && (|held + chunk| >= |m| ==> r.held == held + chunk && Ready(r.held, 0) && Front(r.held) == m)
  {
    var offers := [Some(chunk)] + later;
    var r := Receive(capacity, held, Wanted(held), offers);
    var s := held + chunk;
    if |held| >= HEADER_SIZE {
      HeadOfPrefix(m, held);
      HeadOfPrefix(m, s);
      assert r == Intake(s, true, chunk);
    } else if |s| >= HEADER_SIZE {
      HeadOfPrefix(m, s);
      FirstCallSuffices(capacity, held, chunk, later);
    } else if r.ok {
      WaitIsFaithfulIff(capacity, held, offers);
    }
  }

  lemma FirstCallSuffices(capacity: nat, held: seq<Byte>, chunk: seq<Byte>, later: seq<Offer>)
    requires |held| < HEADER_SIZE <= |held + chunk| <= capacity
    ensures Receive(capacity, held, 0, [Some(chunk)] + later) == Intake(held + chunk, true, chunk)
  {
    FirstCall(capacity, held, 0, [Some(chunk)] + later, chunk);
  }

  // ----- Turn after turn

  /** The messages a client was served, and the bytes left in its buffer. */
  datatype Service = Service(messages: seq<seq<Byte>>, held: seq<Byte>)

  /** A readable turn for each chunk: one message is served in each, however many the
      chunk completes. None when the client is dropped or its bytes are spoiled. */
  function Turns(capacity: nat, held: seq<Byte>, chunks: seq<seq<Byte>>): Option<Service>
    requires |held| <= capacity
    decreases |chunks|
  {
    if chunks == [] then Some(Service([], held))
    else
      var r := Receive(capacity, held, Wanted(held), [Some(chunks[0])]);
      if !Served(r) || !Faithful(held, r) then None
      else ServedBefore(Front(r.held), Turns(capacity, r.held[DeclaredLength(r.held)..], chunks[1..]))
  }

  function ServedBefore(m: seq<Byte>, more: Option<Service>): Option<Service> {
    match more
    case None => None
    case Some(s) => Some(Service([m] + s.messages, s.held))
  }

  /** Every turn completes a message: `n` bytes are left over from before. */
  predicate InTime(n: nat, chunks: seq<seq<Byte>>, ms: seq<seq<Byte>>)
    requires |chunks| <= |ms|
    decreases |chunks|
  {
    chunks == [] ||
    (n + |chunks[0]| >= |ms[0]| && InTime(n + |chunks[0]| - |ms[0]|, chunks[1..], ms[1..]))
  }

  /** The buffer takes what each turn brings to the bytes left over from the turn before. */
  predicate Fits(capacity: nat, n: nat, chunks: seq<seq<Byte>>, ms: seq<seq<Byte>>)
    requires |chunks| <= |ms|
    decreases |chunks|
  {
    chunks == [] ||
    (&& n + |chunks[0]| <= capacity
     && (n + |chunks[0]| >= |ms[0]| ==> Fits(capacity, n + |chunks[0]| - |ms[0]|, chunks[1..], ms[1..])))
  }

  lemma SamePrefix(s: seq<Byte>, m: seq<Byte>, whole: seq<Byte>)
    requires s <= whole && m <= whole
    ensures if |s| >= |m| then m <= s else s <= m
  {
  }

  /** Taking the first message off both sides of a prefix. */
  lemma DropBoth(s: seq<Byte>, m: seq<Byte>, later: seq<Byte>, more: seq<Byte>)
    requires s + later <= m + more && |m| <= |s|
    ensures m <= s && s[|m|..] + later <= more && m + (s[|m|..] + later) == s + later
  {
    assert s == (m + more)[..|s|];
    assert s[|m|..] + later == (s + later)[|m|..];
    assert more == (m + more)[|m|..];
  }

  /** Messages of a client, cut in any way into chunks that fit when they arrive, however
      many there are: the client is served in all the turns exactly when each of them
      completes a message in time. Then turn after turn serves the messages in order, one
      each, and the bytes of all others that have arrived stay in the buffer until the
      socket is readable again. */
  lemma {:induction false} TurnsServeIff(capacity: nat, ms: seq<seq<Byte>>, held: seq<Byte>, chunks: seq<seq<Byte>>)
    requires |held| <= capacity && capacity >= HEADER_SIZE
    requires |chunks| <= |ms| && Fits(capacity, |held|, chunks, ms)
    requires (forall m <- ms :: WholeMessage(m)) && (forall i :: 0 <= i < |chunks| ==> |chunks[i]| > 0)
    requires held + Concat(chunks) <= Concat(ms)
    ensures Turns(capacity, held, chunks).Some? <==> InTime(|held|, chunks, ms)
    ensures InTime(|held|, chunks, ms) ==>
      var s := Turns(capacity, held, chunks).value;
      s.messages == ms[..|chunks|] && Concat(s.messages) + s.held == held + Concat(chunks)
    decreases |chunks|
  {
    if chunks == [] {
      assert Concat(ms[..0]) == [] && [] + held == held + [];
    } else {
      var m, s := ms[0], held + chunks[0];
      FirstOff(held, chunks[0], Concat(chunks[1..]), m, Concat(ms[1..]));
      FirstTurn(capacity, m, held, chunks);
      if |s| >= |m| {
        TurnsServeIff(capacity, ms[1..], s[|m|..], chunks[1..]);
        if InTime(|s| - |m|, chunks[1..], ms[1..]) {
          ServedFirst(ms, |chunks|, Turns(capacity, s[|m|..], chunks[1..]).value.held);
        }
      }
    }
  }

  /** The first chunk completes the first message, or is a part of it. */
  lemma FirstOff(held: seq<Byte>, chunk: seq<Byte>, later: seq<Byte>, m: seq<Byte>, more: seq<Byte>)
    requires held + (chunk + later) <= m + more
    ensures
      var s := held + chunk;
      if |s| >= |m| then m <= s && s[|m|..] + later <= more && m + (s[|m|..] + later) == held + (chunk + later)
      else s <= m
  {
    var s := held + chunk;
    Assoc(held, chunk, later);
    PrefixOf(s, later, m + more);
    SamePrefix(s, m, m + more);
    if |s| >= |m| {
      DropBoth(s, m, later, more);
    }
  }

  lemma PrefixOf(a: seq<Byte>, b: seq<Byte>, whole: seq<Byte>)
    requires a + b <= whole
    ensures a <= whole && |a| <= |a + b|
  {
    assert a == (a + b)[..|a|];
  }

  lemma ServedFirst(ms: seq<seq<Byte>>, n: nat, held: seq<Byte>)
    requires 0 < n <= |ms|
    ensures [ms[0]] + ms[1..][..n - 1] == ms[..n]
    ensures Concat(ms[..n]) + held == ms[0] + (Concat(ms[1..][..n - 1]) + held)
  {
    assert ms[..n][1..] == ms[1..][..n - 1];
    Assoc(ms[0], Concat(ms[1..][..n - 1]), held);
  }

  lemma OneTurn(capacity: nat, m: seq<Byte>, held: seq<Byte>, chunk: seq<Byte>)
    requires WholeMessage(m) && (held + chunk <= m || m <= held + chunk)
    requires chunk != [] && |held + chunk| <= capacity && capacity >= HEADER_SIZE
    ensures
      var r := Receive(capacity, held, Wanted(held), [Some(chunk)]);
      && (Served(r) && Faithful(held, r) <==> |held + chunk| >= |m|)
      && (|held + chunk| >= |m| ==>
          r.held == held + chunk && Ready(r.held, 0) && Front(r.held) == m && DeclaredLength(r.held) == |m|)
  {
    ServedIntactIff(capacity, m, held, chunk, []);
    assert [Some(chunk)] + [] == [Some(chunk)];
  }

  /** The first of some turns serves the first message, or it is the last. */
  lemma FirstTurn(capacity: nat, m: seq<Byte>, held: seq<Byte>, chunks: seq<seq<Byte>>)
    requires WholeMessage(m) && chunks != [] && chunks[0] != []
    requires held + chunks[0] <= m || m <= held + chunks[0]
    requires |held + chunks[0]| <= capacity && capacity >= HEADER_SIZE
    ensures
      var s := held + chunks[0];
      Turns(capacity, held, chunks) ==
        if |s| >= |m| then ServedBefore(m, Turns(capacity, s[|m|..], chunks[1..])) else None
  {
    OneTurn(capacity, m, held, chunks[0]);
  }

  lemma NoTurns(capacity: nat, held: seq<Byte>, m: seq<Byte>, chunks: seq<seq<Byte>>)
    requires |held| <= capacity && chunks == []
    ensures ServedBefore(m, Turns(capacity, held, chunks)) == Some(Service([m], held))
  {
    assert [m] + [] == [m];
  }

  /** Messages that arrive together: one is served, and all the others wait. */
  lemma TogetherServesOne(capacity: nat, ms: seq<seq<Byte>>)
    requires ms != [] && (forall m <- ms :: WholeMessage(m)) && |Concat(ms)| <= capacity
    ensures Turns(capacity, [], [Concat(ms)]) == Some(Service([ms[0]], Concat(ms[1..])))
  {
    var m, more, all := ms[0], Concat(ms[1..]), Concat(ms);
    assert all == m + more && [] + all == all && all[|m|..] == more;
    FirstTurn(capacity, m, [], [all]);
    NoTurns(capacity, more, m, [all][1..]);
  }

  /** One reception for a client that is not, or is, waiting for screens. The offers are
      what the receive calls would give one after the other. */
  method TryRecv(ring: CircularQueue, isScr: bool, scrPacketSize: nat, offers: seq<Offer>) returns (ok: bool)
    requires ring.Valid() && ring.data.Length >= HEADER_SIZE
    modifies ring, ring.data
    ensures ring.Valid()
    ensures
      var before := old(ring.Contents());
      var r := Receive(ring.data.Length, before, if isScr then scrPacketSize else Wanted(before), offers);
      ok == r.ok && ring.Contents() == r.held
  {
    if ring.Size() < HEADER_SIZE {
      ok := AwaitHeader(ring, offers);
    } else if ring.IsFull() || (if isScr then scrPacketSize else ring.CurrentPacketSize()) == 0 {
      ok := true;
    } else if offers == [] || offers[0].None? {
      ok := false;
    } else {
      var c := Took(offers[0].value, ring.numFreeBytes);
      ok := ring.Enqueue(c, |c|);
      assert c[..|c|] == c;
    }
  }

  /** One turn of the wait: a receive call that gives nothing ends it in an error; else
      the bytes go to the start of the temporary buffer, and all bytes received so far
      are queued again. A refusal of the queue goes unnoticed. */
  method HeaderTurn(ring: CircularQueue, temp: seq<Byte>, received: nat, offers: seq<Offer>, k: nat, ghost read: seq<Byte>)
      returns (more: bool, temp': seq<Byte>, total: nat, ghost read': seq<Byte>)
    requires ring.Valid() && ring.Size() < HEADER_SIZE && |temp| == ring.data.Length && k <= |offers|
    modifies ring, ring.data
    ensures ring.Valid() && |temp'| == |temp| && (more ==> k < |offers|)
    ensures
      var capacity := ring.data.Length;
      var r := HeaderWait(capacity, Intake(old(ring.Contents()), true, read), temp, received, offers, k);
      if more then r == HeaderWait(capacity, Intake(ring.Contents(), true, read'), temp', total, offers, k + 1)
      else r == Intake(ring.Contents(), false, read')
  {
    more, temp', total, read' := false, temp, received, read;
    ghost var s := ring.Contents();
    if k == |offers| || offers[k].None? {
      WaitFails(ring.data.Length, s, read, temp, received, offers, k);
      return;
    }
    var c := Took(offers[k].value, ring.numFreeBytes);
    if c == [] {
      WaitFails(ring.data.Length, s, read, temp, received, offers, k);
      return;
    }
    WaitTurn(ring.data.Length, s, read, temp, received, offers, k, c);
    more, temp', total, read' := true, Over(temp, c), received + |c|, read + c;
    var _ := ring.Enqueue(temp', total);
  }

  method AwaitHeader(ring: CircularQueue, offers: seq<Offer>) returns (ok: bool)
    requires ring.Valid() && ring.Size() < HEADER_SIZE
    modifies ring, ring.data
    ensures ring.Valid()
    ensures
      var r := Receive(ring.data.Length, old(ring.Contents()), 0, offers);
      ok == r.ok && ring.Contents() == r.held
  {
    var temp: seq<Byte> := seq(ring.data.Length, _ => 0);
    ghost var goal := HeaderWait(ring.data.Length, Intake(ring.Contents(), true, []), temp, 0, offers, 0);
    ghost var read: seq<Byte> := [];
    var received: nat, k: nat := 0, 0;
    ok := true;
    while ok && ring.Size() < HEADER_SIZE
      invariant ring.Valid() && k <= |offers| && |temp| == ring.data.Length
      invariant
        if ok then HeaderWait(ring.data.Length, Intake(ring.Contents(), true, read), temp, received, offers, k) == goal
        else goal == Intake(ring.Contents(), false, read)
      decreases ok, |offers| - k
    {
      ok, temp, received, read := HeaderTurn(ring, temp, received, offers, k, read);
      if ok {
        k := k + 1;
      }
    }
  }

  /** A readable turn of a client that is not waiting for screens: a reception, and then
      one message, if the buffer holds the declared length. Otherwise the client is
      dropped. */
  method ServeTurn(rx: Receiver, offers: seq<Offer>) returns (served: bool)
    requires rx.Valid() && rx.ring.data.Length >= HEADER_SIZE
    requires
      var r := Receive(rx.ring.data.Length, rx.Held(), Wanted(rx.Held()), offers);
      Served(r) ==> Ready(r.held, 0)
    modifies rx, rx.ring, rx.ring.data
    ensures rx.Valid()
    ensures
      var before := old(rx.Held());
      var r := Receive(rx.ring.data.Length, before, Wanted(before), offers);
      && served == Served(r)
      && (served ==>
        rx.emitted == old(rx.emitted) + MessagePackets(Front(r.held)) && rx.Held() == r.held[DeclaredLength(r.held)..])
  {
    var ok := TryRecv(rx.ring, false, 0, offers);
    served := ok && rx.ring.Size() >= rx.ring.CurrentPacketSize();
    if served {
      rx.TakeMessage();
    }
  }

  /** Where the turns stand: the messages still to be served, the chunks still to come, and
      the bytes held, all of which make up the stream. */
  ghost predicate Standing(capacity: nat, held: seq<Byte>, chunks: seq<seq<Byte>>, ms: seq<seq<Byte>>) {
    && |held| <= capacity && capacity >= HEADER_SIZE && |chunks| <= |ms|
    && (forall m <- ms :: WholeMessage(m)) && (forall i :: 0 <= i < |chunks| ==> |chunks[i]| > 0)
    && held + Concat(chunks) <= Concat(ms)
    && Fits(capacity, |held|, chunks, ms) && InTime(|held|, chunks, ms)
  }

  lemma StandingTurn(capacity: nat, held: seq<Byte>, chunks: seq<seq<Byte>>, ms: seq<seq<Byte>>, s: seq<Byte>)
    requires Standing(capacity, held, chunks, ms) && chunks != [] && s == held + chunks[0]
    ensures |ms[0]| <= |s| && Standing(capacity, s[|ms[0]|..], chunks[1..], ms[1..])
    ensures ms[0] + (s[|ms[0]|..] + Concat(chunks[1..])) == held + Concat(chunks)
    ensures ms[0] <= s
  {
    Assoc(held, chunks[0], Concat(chunks[1..]));
    DropBoth(s, ms[0], Concat(chunks[1..]), Concat(ms[1..]));
  }

  /** How far the turns have come after `i` chunks. */
  ghost predicate Reached(capacity: nat, first: seq<Byte>, chunks: seq<seq<Byte>>, ms: seq<seq<Byte>>, i: nat, held: seq<Byte>) {
    && i <= |chunks| <= |ms|
    && Standing(capacity, held, chunks[i..], ms[i..])
    && Concat(ms[..i]) + (held + Concat(chunks[i..])) == first + Concat(chunks)
  }

  lemma ReachedNext(capacity: nat, first: seq<Byte>, chunks: seq<seq<Byte>>, ms: seq<seq<Byte>>, i: nat,
                    held: seq<Byte>, s: seq<Byte>)
    requires Reached(capacity, first, chunks, ms, i, held) && i < |chunks| && s == held + chunks[i]
    ensures |ms[i]| <= |s| && Reached(capacity, first, chunks, ms, i + 1, s[|ms[i]|..])
    ensures ms[i] <= s && WholeMessage(ms[i]) && |chunks[i]| > 0 && |s| <= capacity && capacity >= HEADER_SIZE
  {
    Tails(chunks, i);
    Tails(ms, i);
    assert ms[i] in ms[i..] && |chunks[i..][0]| > 0;
    StandingTurn(capacity, held, chunks[i..], ms[i..], s);
    ConcatNext(ms, i);
    var m, left := ms[i], s[|ms[i]|..] + Concat(chunks[i + 1..]);
    Assoc(Concat(ms[..i]), m, left);
  }

  lemma Tails<T>(s: seq<T>, i: nat)
    requires i < |s|
    ensures s[i..][0] == s[i] && s[i..][1..] == s[i + 1..] && s[i..] != []
  {
  }

  lemma ReachedStart(capacity: nat, first: seq<Byte>, chunks: seq<seq<Byte>>, ms: seq<seq<Byte>>)
    requires Standing(capacity, first, chunks, ms)
    ensures Reached(capacity, first, chunks, ms, 0, first) && PacketsOf(ms[..0]) == []
  {
    assert chunks[0..] == chunks && ms[0..] == ms && Concat(ms[..0]) == [];
    assert [] + (first + Concat(chunks)) == first + Concat(chunks);
  }

  lemma ReachedEnd(capacity: nat, first: seq<Byte>, chunks: seq<seq<Byte>>, ms: seq<seq<Byte>>, i: nat, held: seq<Byte>)
    requires Standing(capacity, first, chunks, ms) && Reached(capacity, first, chunks, ms, i, held) && i == |chunks|
    ensures Turns(capacity, first, chunks) == Some(Service(ms[..|chunks|], held))
  {
    TurnsServeIff(capacity, ms, first, chunks);
    assert held + Concat(chunks[i..]) == held;
    Cancel(Concat(ms[..i]), held, Turns(capacity, first, chunks).value.held);
  }

  /** The turn of one more chunk. */
  method ServeNext(rx: Receiver, chunks: seq<seq<Byte>>, i: nat, ghost first: seq<Byte>, ghost ms: seq<seq<Byte>>)
    requires rx.Valid() && i < |chunks| && Reached(rx.ring.data.Length, first, chunks, ms, i, rx.Held())
    modifies rx, rx.ring, rx.ring.data
    ensures rx.Valid() && Reached(rx.ring.data.Length, first, chunks, ms, i + 1, rx.Held())
    ensures WholeMessage(ms[i]) && rx.emitted == old(rx.emitted) + MessagePackets(ms[i])
  {
    ghost var held, s := rx.Held(), rx.Held() + chunks[i];
    ReachedNext(rx.ring.data.Length, first, chunks, ms, i, held, s);
    OneTurn(rx.ring.data.Length, ms[i], held, chunks[i]);
    var served := ServeTurn(rx, [Some(chunks[i])]);
    assert served;
  }

  /** Turn after turn on the ring: each one serves the next message, and what has arrived
      and was not served is held. */
  method ServeTurns(rx: Receiver, chunks: seq<seq<Byte>>, ghost ms: seq<seq<Byte>>)
    requires rx.Valid() && Standing(rx.ring.data.Length, rx.Held(), chunks, ms)
    modifies rx, rx.ring, rx.ring.data
    ensures rx.Valid()
    ensures rx.emitted == old(rx.emitted) + PacketsOf(ms[..|chunks|])
    ensures Turns(rx.ring.data.Length, old(rx.Held()), chunks) == Some(Service(ms[..|chunks|], rx.Held()))
  {
    ghost var start, first := rx.emitted, rx.Held();
    var i := 0;
    ReachedStart(rx.ring.data.Length, first, chunks, ms);
    while i < |chunks|
      invariant 0 <= i <= |chunks| && rx.Valid()
      invariant Reached(rx.ring.data.Length, first, chunks, ms, i, rx.Held())
      invariant rx.emitted == start + PacketsOf(ms[..i])
    {
      PacketsNext(start, ms, i);
      ServeNext(rx, chunks, i, first, ms);
      i := i + 1;
    }
    ReachedEnd(rx.ring.data.Length, first, chunks, ms, i, rx.Held());
  }

  lemma {:induction false} PacketsSnoc(ms: seq<seq<Byte>>, m: seq<Byte>)
    requires (forall x <- ms :: WholeMessage(x)) && WholeMessage(m)
    ensures PacketsOf(ms + [m]) == PacketsOf(ms) + MessagePackets(m)
  {
    if ms == [] {
      assert (ms + [m])[1..] == [] && ms + [m] == [m];
    } else {
      PacketsSnoc(ms[1..], m);
      assert (ms + [m])[0] == ms[0] && (ms + [m])[1..] == ms[1..] + [m];
      Assoc(MessagePackets(ms[0]), PacketsOf(ms[1..]), MessagePackets(m));
    }
  }

  lemma PacketsNext(start: seq<Packet>, ms: seq<seq<Byte>>, i: nat)
    requires i < |ms| && forall m <- ms :: WholeMessage(m)
    ensures start + PacketsOf(ms[..i + 1]) == start + PacketsOf(ms[..i]) + MessagePackets(ms[i])
  {
    PacketsSnoc(ms[..i], ms[i]);
    assert ms[..i] + [ms[i]] == ms[..i + 1];
    Assoc(start, PacketsOf(ms[..i]), MessagePackets(ms[i]));
  }

  lemma Cancel<T>(a: seq<T>, b: seq<T>, c: seq<T>)
    requires a + b == a + c
    ensures b == c
  {
    assert b == (a + b)[|a|..] && c == (a + c)[|a|..];
  }
}
