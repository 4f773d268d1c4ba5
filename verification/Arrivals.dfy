/** Sessions with a client that answers every request, in the way the select loop serves
    them: replies may arrive together, one of them is served in a turn, and the database
    may fail. */
module Arrivals {
  import opened Wire
  import opened Session

  /** A turn: how many replies arrive in it, the outcome of its database call, and how often
      the screens of a terminal cannot be stored before they are, in calls that come
      before the next reply. */
  datatype Arriving = Arriving(replies: nat, stored: bool, failures: nat)

  /** The server, the requests whose replies are in its buffer, those not answered yet, and
      whether the closing reply has been accepted. */
  datatype Busy = Busy(server: Option<Client>, inbox: seq<Request>, pending: seq<Request>, done: bool)

  /** At least one reply makes the socket readable, and there are no more than requests. */
  function Arrived(pending: seq<Request>, a: Arriving): (n: nat)
    requires pending != []
    ensures 1 <= n <= |pending|
  {
    if a.replies < 1 then 1 else if a.replies > |pending| then |pending| else a.replies
  }

  /** One reply is served; the others wait until more arrive. */
  function Serve(p: Profile, s: Busy, a: Arriving): Busy
    requires ValidProfile(p)
  {
    if s.server.None? || s.pending == [] then s
    else
      var n := Arrived(s.pending, a);
      Answered(p, s.server.value, s.inbox + s.pending[..n], s.pending[n..], s.done, a)
  }

  /** The calls at the end of this turn and the next ones, of which the last one succeeds. */
  function Retried(c: Client, failures: nat): (c': Client)
    ensures c' == Again(c, true)
  {
    if failures == 0 then Again(c, true) else Retried(Again(c, false), failures - 1)
  }

  /** A turn with its retries. They make no difference. */
  function TurnRetried(c: Client, r: Reply, a: Arriving): (c': Option<Client>)
    ensures c' == Turn(c, r, a.stored, true)
  {
    match Step(c, r, a.stored)
    case Some(c') => Some(Retried(c', a.failures))
    case None => None
  }

  function Answered(p: Profile, c: Client, inbox: seq<Request>, pending: seq<Request>, done: bool, a: Arriving): Busy
    requires ValidProfile(p) && inbox != []
  {
    match TurnRetried(c, Answer(p, inbox[0]), a)
    case None => Busy(None, inbox[1..], pending, done)
    case Some(c') => Busy(Some(c'), inbox[1..], pending + c'.sent[|c.sent|..], done || inbox[0] == EndRequest)
  }

  function Serves(p: Profile, turns: nat -> Arriving, n: nat): Busy
    requires ValidProfile(p)
  {
    if n == 0 then Busy(Some(START), [], [AuthRequest], false) else Serve(p, Serves(p, turns, n - 1), turns(n - 1))
  }

  // ----- What every such session keeps

  /** The requests not served yet are the last ones sent, and when the closing reply has
      been accepted there are none. */
  ghost predicate Kept(s: Busy) {
    match s.server
    case None => !s.done
    case Some(c) =>
      && SessionOk(c)
      && Unserved(c, s.inbox + s.pending)
      && (s.done ==> c.phase == End && s.inbox == [] && s.pending == [])
  }

  ghost predicate Unserved(c: Client, left: seq<Request>) {
    |left| <= |c.sent| && c.sent[|c.sent| - |left|..] == left
  }

  /** The first of the unserved requests is the end only if it is the last. */
  lemma EndIsLast(c: Client, left: seq<Request>)
    requires SessionOk(c) && Unserved(c, left) && left != [] && left[0] == EndRequest
    ensures c.phase == End && left[1..] == []
  {
    var at := |c.sent| - |left|;
    assert c.sent[at] == c.sent[at..][0];
    EndAtEnd(c);
    OnlyLast(c.sent, at);
  }

  lemma OnlyLast(sent: seq<Request>, at: nat)
    requires at < |sent| && sent[at] == EndRequest && EndRequest !in sent[..|sent| - 1]
    ensures at == |sent| - 1
  {
    assert forall i :: 0 <= i < |sent| - 1 ==> sent[..|sent| - 1][i] == sent[i];
  }

  lemma ServedOne(c: Client, c': Client, left: seq<Request>)
    requires Unserved(c, left) && left != [] && c.sent <= c'.sent
    ensures Unserved(c', left[1..] + c'.sent[|c.sent|..])
  {
    var k := |c.sent| - |left|;
    assert c'.sent[k + 1..] == c.sent[k + 1..] + c'.sent[|c.sent|..];
    assert left[1..] == c.sent[k..][1..];
  }

  lemma TurnOk(c: Client, r: Reply, stored: bool)
    requires SessionOk(c) && Turn(c, r, stored, true).Some?
    ensures SessionOk(Turn(c, r, stored, true).value)
    ensures c.phase == End ==> Turn(c, r, stored, true).value == c
  {
    HappenOk(c, Arrival(r, stored, true));
  }

  lemma AnsweredKeeps(p: Profile, c: Client, inbox: seq<Request>, pending: seq<Request>, a: Arriving)
    requires ValidProfile(p) && inbox != [] && SessionOk(c) && Unserved(c, inbox + pending)
    ensures Kept(Answered(p, c, inbox, pending, false, a))
  {
    var turn := Turn(c, Answer(p, inbox[0]), a.stored, true);
    if turn.Some? {
      TurnOk(c, Answer(p, inbox[0]), a.stored);
      UnservedAfter(c, turn.value, inbox, pending);
      if inbox[0] == EndRequest {
        NothingAfterEnd(c, inbox, pending);
      }
    }
  }

  lemma UnservedAfter(c: Client, c': Client, inbox: seq<Request>, pending: seq<Request>)
    requires inbox != [] && Unserved(c, inbox + pending) && c.sent <= c'.sent
    ensures Unserved(c', inbox[1..] + (pending + c'.sent[|c.sent|..]))
  {
    ServedOne(c, c', inbox + pending);
    assert (inbox + pending)[1..] == inbox[1..] + pending;
    Assoc(inbox[1..], pending, c'.sent[|c.sent|..]);
  }

  lemma NothingAfterEnd(c: Client, inbox: seq<Request>, pending: seq<Request>)
    requires inbox != [] && SessionOk(c) && Unserved(c, inbox + pending) && inbox[0] == EndRequest
    ensures c.phase == End && inbox[1..] == [] && pending == []
  {
    EndIsLast(c, inbox + pending);
    assert |inbox + pending| == 1;
  }

  lemma ServeKeeps(p: Profile, s: Busy, a: Arriving)
    requires ValidProfile(p) && Kept(s)
    ensures Kept(Serve(p, s, a))
  {
    if s.server.Some? && s.pending != [] {
      var n := Arrived(s.pending, a);
      assert s.inbox + s.pending[..n] + s.pending[n..] == s.inbox + s.pending;
      AnsweredKeeps(p, s.server.value, s.inbox + s.pending[..n], s.pending[n..], a);
    }
  }

  lemma {:induction false} ServesKeep(p: Profile, turns: nat -> Arriving, n: nat)
    requires ValidProfile(p)
    ensures Kept(Serves(p, turns, n))
  {
    if n == 0 {
      assert [] + [AuthRequest] == [AuthRequest];
    } else {
      ServesKeep(p, turns, n - 1);
      ServeKeeps(p, Serves(p, turns, n - 1), turns(n - 1));
    }
  }

  lemma InboxStays(p: Profile, s: Busy, a: Arriving)
    requires ValidProfile(p) && s.inbox != []
    ensures Serve(p, s, a).inbox != []
  {
  }

  /** A reply left over in a turn is never caught up with. */
  lemma {:induction false} LeftOver(p: Profile, turns: nat -> Arriving, n: nat, m: nat)
    requires ValidProfile(p) && n <= m && Serves(p, turns, n).inbox != []
    ensures Serves(p, turns, m).inbox != []
  {
    if n < m {
      LeftOver(p, turns, n, m - 1);
      InboxStays(p, Serves(p, turns, m - 1), turns(m - 1));
    }
  }

  lemma NotDone(s: Busy)
    requires Kept(s) && s.inbox != []
    ensures !s.done
  {
  }

  lemma {:induction false} StaysAsIs(p: Profile, turns: nat -> Arriving, n: nat, m: nat)
    requires ValidProfile(p) && n <= m
    requires Serves(p, turns, n).server.None? || Serves(p, turns, n).pending == []
    ensures Serves(p, turns, m) == Serves(p, turns, n)
  {
    if n < m {
      StaysAsIs(p, turns, n, m - 1);
    }
  }

  // ----- Against the session in which every reply arrives alone

  function Lift(s: Play): Busy {
    Busy(s.server, [], s.pending, s.done)
  }

  /** One reply at most arrives in turn `n`, and its database call succeeds. The system
      information, in turn 1, does not depend on the database. */
  predicate Smooth(p: Profile, turns: nat -> Arriving, n: nat)
    requires ValidProfile(p)
  {
    (turns(n).replies <= 1 || |Plays(p, n).pending| <= 1) && (turns(n).stored || n == 1)
  }

  lemma FirstTurns(p: Profile)
    requires ValidProfile(p)
    ensures At(Plays(p, 1), WaitSysInfo, p.ethnum, 0, [SysInfoRequest])
    ensures At(Plays(p, 2), WaitConfigInfo, p.ethnum, 0, [ConfInfoRequest])
  {
    Accepted(p, Plays(p, 0), AuthRequest, [], [SysInfoRequest]);
    Accepted(p, Plays(p, 1), SysInfoRequest, [], [ConfInfoRequest]);
  }

  /** The server of a session in which nothing goes wrong. */
  ghost predicate ServerOk(s: Play) {
    s.server.Some? ==> SessionOk(s.server.value)
  }

  ghost predicate PastSysInfo(s: Play) {
    s.server.Some? ==> s.server.value.phase != WaitAuth && s.server.value.phase != WaitSysInfo
  }

  lemma RoundOk(p: Profile, s: Play)
    requires ValidProfile(p) && ServerOk(s)
    ensures ServerOk(Round(p, s)) && (PastSysInfo(s) ==> PastSysInfo(Round(p, s)))
  {
    if s.server.Some? && s.pending != [] && Round(p, s).server.Some? {
      TurnOk(s.server.value, Answer(p, s.pending[0]), true);
    }
  }

  lemma {:induction false} PlaysOk(p: Profile, n: nat)
    requires ValidProfile(p)
    ensures ServerOk(Plays(p, n)) && (n >= 2 ==> PastSysInfo(Plays(p, n)))
  {
    if n > 0 {
      PlaysOk(p, n - 1);
      RoundOk(p, Plays(p, n - 1));
      Next(p, n - 1, n);
      FirstTurns(p);
    }
  }

  /** The database call of a turn decides about it, unless system information is awaited. */
  predicate Decides(s: Play) {
    s.server.Some? ==> s.server.value.phase != WaitSysInfo
  }

  lemma DecidesExceptOnce(p: Profile, n: nat)
    requires ValidProfile(p)
    ensures Decides(Plays(p, n)) <==> n != 1
  {
    PlaysOk(p, n);
    FirstTurns(p);
  }

  /** A turn without trouble is a round of the session in which every reply arrives alone. */
  lemma SmoothServe(p: Profile, s: Play, a: Arriving)
    requires ValidProfile(p)
    requires (a.replies <= 1 || |s.pending| <= 1) && (a.stored || !Decides(s))
    ensures Serve(p, Lift(s), a) == Lift(Round(p, s))
  {
    if s.server.Some? && s.pending != [] {
      assert Arrived(s.pending, a) == 1;
      assert [] + s.pending[..1] == [s.pending[0]];
    }
  }

  lemma {:induction false} Follows(p: Profile, turns: nat -> Arriving, n: nat)
    requires ValidProfile(p) && forall k :: 0 <= k < n ==> Smooth(p, turns, k)
    ensures Serves(p, turns, n) == Lift(Plays(p, n))
  {
    if n > 0 {
      Follows(p, turns, n - 1);
      assert Smooth(p, turns, n - 1);
      DecidesExceptOnce(p, n - 1);
      SmoothServe(p, Plays(p, n - 1), turns(n - 1));
    }
  }

  /** A session that cannot complete any more: a reply is left over, or nothing more happens. */
  predicate Lost(s: Busy) {
    s.inbox != [] || (!s.done && (s.server.None? || s.pending == []))
  }

  lemma RoughServe(p: Profile, s: Play, a: Arriving)
    requires ValidProfile(p) && ServerOk(s) && !s.done
    requires (a.replies > 1 && |s.pending| > 1) || (!a.stored && Decides(s))
    ensures Lost(Serve(p, Lift(s), a))
  {
  }

  lemma LostForEver(p: Profile, turns: nat -> Arriving, n: nat, m: nat)
    requires ValidProfile(p) && n <= m && Lost(Serves(p, turns, n))
    ensures !Serves(p, turns, m).done
  {
    if Serves(p, turns, n).inbox != [] {
      LeftOver(p, turns, n, m);
      ServesKeep(p, turns, m);
      NotDone(Serves(p, turns, m));
    } else {
      StaysAsIs(p, turns, n, m);
    }
  }

  /** After the first turn with trouble in a session that is not done, it never is. */
  lemma RoughTurn(p: Profile, turns: nat -> Arriving, k: nat, m: nat)
    requires ValidProfile(p) && k < m && !Smooth(p, turns, k) && !Plays(p, k).done
    requires forall j :: 0 <= j < k ==> Smooth(p, turns, j)
    ensures !Serves(p, turns, m).done
  {
    Follows(p, turns, k);
    PlaysOk(p, k);
    DecidesExceptOnce(p, k);
    RoughServe(p, Plays(p, k), turns(k));
    LostForEver(p, turns, k + 1, m);
  }

  lemma {:induction false} FirstRough(p: Profile, turns: nat -> Arriving, n: nat) returns (k: nat)
    requires ValidProfile(p)
    ensures k <= n && (forall j :: 0 <= j < k ==> Smooth(p, turns, j)) && (k < n ==> !Smooth(p, turns, k))
  {
    if n == 0 {
      k := 0;
    } else {
      k := FirstRough(p, turns, n - 1);
      if k == n - 1 && Smooth(p, turns, k) {
        k := n;
      }
    }
  }

  lemma DoneNotBefore(p: Profile, k: nat)
    requires ValidProfile(p) && Plays(p, k).done
    ensures Consistent(p) && k >= Replies(p)
  {
    SessionCompletesIff(p);
    var m := Replies(p);
    NotDoneBefore(p, k, m - 1, m);
  }

  lemma NotDoneBefore(p: Profile, k: nat, n: nat, m: nat)
    requires ValidProfile(p) && Plays(p, k).done && Consistent(p) && n + 1 == m == Replies(p)
    ensures k >= m
  {
    Completes(p, n, m);
    if k < m {
      StaysDone(p, k, n);
    }
  }

  /** The turns of a session that completes are smooth until its rounds are done. */
  lemma SmoothUntilDone(p: Profile, turns: nat -> Arriving, n: nat) returns (k: nat)
    requires ValidProfile(p) && Serves(p, turns, n).done
    ensures Plays(p, k).done && forall j :: 0 <= j < k ==> Smooth(p, turns, j)
  {
    k := FirstRough(p, turns, n);
    if k < n {
      if !Plays(p, k).done {
        RoughTurn(p, turns, k, n);
      }
    } else {
      Follows(p, turns, n);
    }
  }

  /** A session that completes is smooth as long as it lasts, and its profile consistent. */
  lemma CompletedIsSmooth(p: Profile, turns: nat -> Arriving, n: nat)
    requires ValidProfile(p) && Serves(p, turns, n).done
    ensures Consistent(p) && forall k :: 0 <= k < Replies(p) ==> Smooth(p, turns, k)
  {
    var k := SmoothUntilDone(p, turns, n);
    DoneNotBefore(p, k);
  }

  // ----- Read off the profile

  /** The number of replies due in turn `n` of a session that goes well. */
  function Due(p: Profile, n: nat): nat
    requires Consistent(p) && n < Replies(p)
  {
    if n == 4 && p.ethnum == 2 then 2
    else if n < 5 + p.ethnum || n == 5 + p.ethnum + p.termNum then 1
    else p.termNum - (n - 5 - p.ethnum)
  }

  lemma DueFirst(p: Profile, n: nat)
    requires ValidProfile(p) && n < 4
    ensures |Plays(p, n).pending| == 1
  {
    if n == 0 {
    } else if n == 3 {
      SecondTurn(p, 2);
      ThirdTurn(p, Plays(p, 2));
      Next(p, 2, n);
    } else {
      SecondTurn(p, n);
    }
  }

  lemma SecondTurn(p: Profile, n: nat)
    requires ValidProfile(p) && 1 <= n <= 2
    ensures n == 1 ==> At(Plays(p, n), WaitSysInfo, p.ethnum, 0, [SysInfoRequest])
    ensures n == 2 ==> At(Plays(p, n), WaitConfigInfo, p.ethnum, 0, [ConfInfoRequest])
    ensures |Plays(p, n).pending| == 1
  {
    FirstTurns(p);
  }

  lemma ThirdTurn(p: Profile, s: Play)
    requires ValidProfile(p) && At(s, WaitConfigInfo, p.ethnum, 0, [ConfInfoRequest])
    ensures |Round(p, s).pending| == 1
  {
    Accepted(p, s, ConfInfoRequest, [], [ProcInfoRequest]);
  }

  lemma DuePorts(p: Profile, n: nat)
    requires ValidProfile(p) && Consistent(p) && 4 <= n < 5 + p.ethnum
    ensures |Plays(p, n).pending| == Due(p, n)
  {
    FirstFour(p);
    if n == 4 + p.ethnum {
      Ethernet(p, n);
    } else if n == 5 {
      PortLeft(p, Plays(p, 4));
      Next(p, 4, n);
    }
  }

  lemma DueTerminals(p: Profile, n: nat, j: nat)
    requires ValidProfile(p) && Consistent(p) && n == 5 + p.ethnum + j && j <= p.termNum
    ensures |Plays(p, n).pending| == if j == p.termNum then 1 else p.termNum - j
  {
    Terminals(p, j, n);
    PendingSize(p, Plays(p, n), j);
  }

  lemma PendingSize(p: Profile, s: Play, j: nat)
    requires Consistent(p) && j <= p.termNum && Reported(p, s, j)
    ensures |s.pending| == if j == p.termNum then 1 else p.termNum - j
  {
  }

  lemma PendingIsDue(p: Profile, n: nat)
    requires ValidProfile(p) && Consistent(p) && n < Replies(p)
    ensures |Plays(p, n).pending| == Due(p, n)
  {
    if n < 4 {
      DueFirst(p, n);
    } else if n < 5 + p.ethnum {
      DuePorts(p, n);
    } else {
      DueTerminals(p, n, n - 5 - p.ethnum);
    }
  }

  /** One reply at most arrives in turn `n`, or no more are due, and its database call
      succeeds where the session depends on it. */
  predicate GoesWell(p: Profile, turns: nat -> Arriving, n: nat)
    requires Consistent(p) && n < Replies(p)
  {
    (turns(n).replies <= 1 || Due(p, n) == 1) && (turns(n).stored || n == 1)
  }

  /** However the replies arrive, whichever database calls fail, and however often screens
      are stored only in a later call: the session completes exactly when the profile is
      consistent, no reply arrives together with another while several are due, and no
      database call fails that it depends on. A reply that is left over is never caught up
      with, and the server waits for ever. */
  lemma CompletesIffSmooth(p: Profile, turns: nat -> Arriving)
    requires ValidProfile(p)
    ensures (exists n :: Serves(p, turns, n).done) <==>
      Consistent(p) && forall n :: 0 <= n < Replies(p) ==> GoesWell(p, turns, n)
  {
    if n: nat :| Serves(p, turns, n).done {
      CompletedIsSmooth(p, turns, n);
    }
    if Consistent(p) {
      SmoothIff(p, turns);
      if forall n :: 0 <= n < Replies(p) ==> GoesWell(p, turns, n) {
        SmoothCompletes(p, turns, Replies(p));
      }
    }
  }

  lemma SmoothIff(p: Profile, turns: nat -> Arriving)
    requires ValidProfile(p) && Consistent(p)
    ensures forall n :: 0 <= n < Replies(p) ==> (Smooth(p, turns, n) <==> GoesWell(p, turns, n))
  {
    forall n | 0 <= n < Replies(p)
      ensures Smooth(p, turns, n) <==> GoesWell(p, turns, n)
    {
      PendingIsDue(p, n);
    }
  }

  lemma SmoothCompletes(p: Profile, turns: nat -> Arriving, m: nat)
    requires ValidProfile(p) && Consistent(p) && m == Replies(p)
    requires forall n :: 0 <= n < m ==> Smooth(p, turns, n)
    ensures Serves(p, turns, m).done
  {
    Completes(p, m - 1, m);
    Follows(p, turns, m);
  }
}
