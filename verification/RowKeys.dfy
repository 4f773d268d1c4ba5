/** The keys under which server/src/DatabaseConnection.cpp files terminals and screens:
    a terminal number per connection, and a screen counter shared by all connections. */
module RowKeys {
  import opened Wire
  import opened Text
  import Fields

  type Short = Fields.Short

  // The counter's modulus, and the count at which a signed 32-bit counter would overflow.
  const SCREEN_MODULUS := 127
  const COUNTER_LIMIT := 0x7FFF_FFFF

  /** The number a terminal's screens are filed under, in 16 bits. */
  function TtyKey(dumb: bool, ttyno: Short): Short {
    if dumb then (900 + ttyno) % 0x1_0000 else ttyno
  }

  /** The number a terminal itself is filed under: for a dumb one the digit 9 is put in
      front of its decimal digits. */
  function TerminalRowNumber(dumb: bool, ttyno: Short): nat {
    if dumb then Value("9" + Numeral(ttyno, 10, false), 10) else ttyno
  }

  datatype Event = TermReport(conn: nat, dumb: bool, ttyno: Short) | ScreenInfo(conn: nat)

  /** A screen row: its key, the counter value it was given, and the terminal event that
      it follows. */
  datatype Row = Row(conn: nat, tty: Short, screen: nat, stamp: nat, report: nat)

  /** The terminal a connection reported last: its key and the event that reported it. */
  datatype Current = Current(tty: Short, report: nat)

  datatype State = State(counter: nat, current: map<nat, Current>, rows: seq<Row>)

  /** The row of a terminal's screen at a value of the counter. */
  function RowOf(c: nat, terminal: Current, counter: nat): Row {
    Row(c, terminal.tty, counter % SCREEN_MODULUS, counter, terminal.report)
  }

  /** One event, the one numbered `at`. A screen is taken only after its connection's
      terminal. */
  function After(st: State, e: Event, at: nat): State {
    match e
    case TermReport(c, dumb, ttyno) => st.(current := st.current[c := Current(TtyKey(dumb, ttyno), at)])
    case ScreenInfo(c) =>
      if c !in st.current then st
      else State(st.counter + 1, st.current, st.rows + [RowOf(c, st.current[c], st.counter)])
  }

  /** The rows inserted by a run. */
  function Run(events: seq<Event>): (st: State)
    ensures st.counter == |st.rows|
  {
    if events == [] then State(0, map[], [])
    else
      var n := |events| - 1;
      After(Run(events[..n]), events[n], n)
  }

  lemma RunNext(events: seq<Event>, e: Event)
    ensures Run(events + [e]) == After(Run(events), e, |events|)
  {
    assert (events + [e])[..|events|] == events;
  }

  /** Every row carries the key of the terminal event it follows, and the counter values
      number the rows. */
  ghost predicate RowsOk(events: seq<Event>, st: State) {
    && (forall c <- st.current :: CurrentOk(events, c, st.current[c]))
    && (forall i :: 0 <= i < |st.rows| ==> RowOk(events, st.rows[i], i))
  }

  ghost predicate CurrentOk(events: seq<Event>, c: nat, terminal: Current) {
    && terminal.report < |events| && ReportOf(events[terminal.report], c)
    && terminal.tty == TtyKey(events[terminal.report].dumb, events[terminal.report].ttyno)
  }

  ghost predicate RowOk(events: seq<Event>, r: Row, i: nat) {
    && r.stamp == i && r.screen == i % 127
    && CurrentOk(events, r.conn, Current(r.tty, r.report))
  }

  lemma {:induction false} RunRowsOk(events: seq<Event>)
    ensures RowsOk(events, Run(events))
  {
    if events != [] {
      var n := |events| - 1;
      RunRowsOk(events[..n]);
    }
  }

  /** One connection reports numbers in range, and each of them at most once per kind. */
  ghost predicate OncePerKind(events: seq<Event>, c: nat) {
    && (forall e <- events :: ReportOf(e, c) ==> 1 <= e.ttyno <= if e.dumb then 16 else 254)
    && (forall i, j :: 0 <= i < j < |events| && ReportOf(events[i], c) ==> events[i] != events[j])
  }

  predicate ReportOf(e: Event, c: nat) {
    e.TermReport? && e.conn == c
  }

  /** The screens of one terminal fall into a window of 127 consecutive inserts, whoever
      makes the others. */
  ghost predicate InWindow(rows: seq<Row>, c: nat) {
    forall i, j :: 0 <= i < j < |rows| && rows[i].conn == rows[j].conn == c && rows[i].report == rows[j].report ==>
      rows[j].stamp - rows[i].stamp < SCREEN_MODULUS
  }

  lemma ModulusSeparates(a: nat, b: nat)
    requires a < b < a + SCREEN_MODULUS
    ensures a % SCREEN_MODULUS != b % SCREEN_MODULUS
  {
  }

  /** Over any run, interleaved with other connections in any way, the (terminal, screen)
      keys inserted for such a connection are all different. */
  lemma RowKeysAreUnique(events: seq<Event>, c: nat, i: nat, j: nat)
    requires OncePerKind(events, c) && InWindow(Run(events).rows, c)
    requires i < j < |Run(events).rows|
    requires Run(events).rows[i].conn == Run(events).rows[j].conn == c
    ensures Run(events).rows[i].tty != Run(events).rows[j].tty || Run(events).rows[i].screen != Run(events).rows[j].screen
  {
    var rows := Run(events).rows;
    RunRowsOk(events);
    RowsDiffer(events, c, rows[i], rows[j], i, j);
  }

  lemma RowsDiffer(events: seq<Event>, c: nat, r: Row, s: Row, i: nat, j: nat)
    requires OncePerKind(events, c) && r.conn == s.conn == c
    requires RowOk(events, r, i) && RowOk(events, s, j)
    requires i < j && (r.report == s.report ==> j - i < SCREEN_MODULUS)
    ensures r.tty != s.tty || r.screen != s.screen
  {
    if r.report == s.report {
      ModulusSeparates(i, j);
    } else {
      KeysDiffer(events, c, r.report, s.report);
    }
  }

  lemma KeysDiffer(events: seq<Event>, c: nat, i: nat, j: nat)
    requires OncePerKind(events, c) && i < |events| && j < |events| && i != j
    requires ReportOf(events[i], c) && ReportOf(events[j], c)
    ensures TtyKey(events[i].dumb, events[i].ttyno) != TtyKey(events[j].dumb, events[j].ttyno)
  {
    assert events[i] != events[j];
    assert events[i] in events && events[j] in events;
  }

  // ----- The screens of one terminal, inserted without interruption

  /** The rows of `n` screens of one terminal, from a value of the counter on. */
  function BurstOf(c: nat, terminal: Current, counter: nat, n: nat): seq<Row> {
    seq(n, i requires 0 <= i < n => RowOf(c, terminal, counter + i))
  }

  lemma BurstSnoc(rows: seq<Row>, c: nat, terminal: Current, counter: nat, n: nat)
    ensures rows + BurstOf(c, terminal, counter, 0) == rows
    ensures rows + BurstOf(c, terminal, counter, n + 1) ==
      rows + BurstOf(c, terminal, counter, n) + [RowOf(c, terminal, counter + n)]
  {
  }

  /** What a burst of `n` screens leaves. */
  function Burst(st: State, c: nat, terminal: Current, n: nat): State {
    State(st.counter + n, st.current[c := terminal], st.rows + BurstOf(c, terminal, st.counter, n))
  }

  lemma BurstTurn(st: State, c: nat, terminal: Current, n: nat, at: nat)
    ensures After(Burst(st, c, terminal, n), ScreenInfo(c), at) == Burst(st, c, terminal, n + 1)
  {
    BurstSnoc(st.rows, c, terminal, st.counter, n);
  }

  lemma RepeatSnoc<T>(start: seq<T>, x: T, n: nat)
    ensures start + Repeat(x, 0) == start
    ensures start + Repeat(x, n + 1) == start + Repeat(x, n) + [x]
  {
  }

  lemma {:induction false} BurstRows(events: seq<Event>, c: nat, dumb: bool, ttyno: Short, n: nat)
    ensures
      var st, terminal := Run(events), Current(TtyKey(dumb, ttyno), |events|);
      Run(events + [TermReport(c, dumb, ttyno)] + Repeat(ScreenInfo(c), n)) == Burst(st, c, terminal, n)
  {
    var st, terminal := Run(events), Current(TtyKey(dumb, ttyno), |events|);
    var start := events + [TermReport(c, dumb, ttyno)];
    if n == 0 {
      RunNext(events, TermReport(c, dumb, ttyno));
      RepeatSnoc(start, ScreenInfo(c), 0);
      BurstSnoc(st.rows, c, terminal, st.counter, 0);
    } else {
      BurstRows(events, c, dumb, ttyno, n - 1);
      RepeatSnoc(start, ScreenInfo(c), n - 1);
      RunNext(start + Repeat(ScreenInfo(c), n - 1), ScreenInfo(c));
      BurstTurn(st, c, terminal, n - 1, |events| + n);
    }
  }

  ghost predicate Distinct(rows: seq<Row>) {
    forall i, j :: 0 <= i < j < |rows| ==> rows[i].tty != rows[j].tty || rows[i].screen != rows[j].screen
  }

  /** A terminal's screens get different keys exactly when there are at most 127 of them,
      wherever the shared counter stands. The screen count is a byte, so up to 255 can come. */
  lemma BurstKeysDistinctIff(c: nat, terminal: Current, counter: nat, n: nat)
    ensures Distinct(BurstOf(c, terminal, counter, n)) <==> n <= 127
  {
    var rows := BurstOf(c, terminal, counter, n);
    assert forall i :: 0 <= i < n ==> rows[i] == RowOf(c, terminal, counter + i);
    if n <= SCREEN_MODULUS {
      forall i, j | 0 <= i < j < n
        ensures rows[i].screen != rows[j].screen
      {
        ModulusSeparates(counter + i, counter + j);
      }
    } else {
      assert rows[0].tty == rows[SCREEN_MODULUS].tty && rows[0].screen == rows[SCREEN_MODULUS].screen;
    }
  }

  // ----- Terminal rows against screen rows

  lemma NinePrefix(ttyno: Short)
    ensures TerminalRowNumber(true, ttyno) ==
      if ttyno < 10 then 90 + ttyno
      else if ttyno < 100 then 900 + ttyno
      else if ttyno < 1000 then 9000 + ttyno
      else if ttyno < 10000 then 90000 + ttyno
      else 900000 + ttyno
  {
    NineValue(ttyno);
    var a := ttyno / 10;
    var b := a / 10;
    var c := b / 10;
    assert c / 10 < 10;
    assert Magnitude(c) == if c < 10 then 10 else 100;
    assert Magnitude(b) == if b < 10 then 10 else 10 * Magnitude(c);
    assert Magnitude(a) == if a < 10 then 10 else 10 * Magnitude(b);
  }

  /** Ten to the number of decimal digits. */
  function Magnitude(n: nat): nat {
    if n < 10 then 10 else 10 * Magnitude(n / 10)
  }

  lemma {:induction false} NineValue(n: nat)
    ensures Value("9" + Numeral(n, 10, false), 10) == 9 * Magnitude(n) + n
  {
    var s := Numeral(n, 10, false);
    var t := "9" + s;
    if n < 10 {
      DigitRoundTrip(n, false);
      assert t[..1] == "9" && "9"[..0] == "";
      assert Value("9", 10) == 9;
    } else {
      NineValue(n / 10);
      DigitRoundTrip(n % 10, false);
      assert t[..|t| - 1] == "9" + Numeral(n / 10, 10, false);
    }
  }

  /** A terminal's own row and its screens' rows carry the same number exactly when the
      terminal is an IP terminal or its number has two digits: dumb terminals 1 to 9 are
      filed as 91 to 99, and their screens under 901 to 909. */
  lemma RowNumbersAgreeIff(dumb: bool, ttyno: Short)
    ensures TerminalRowNumber(dumb, ttyno) == TtyKey(dumb, ttyno) <==> !dumb || 10 <= ttyno < 100
  {
    NinePrefix(ttyno);
  }

  /** Dumb terminal and IP terminal of one client are filed under one number exactly when
      they are numbered d and 90 + d, for a d of one digit. */
  lemma TerminalsCollideIff(d: Short, i: Short)
    requires 1 <= d <= 16 && 1 <= i <= 254
    ensures TerminalRowNumber(true, d) == TerminalRowNumber(false, i) <==> d <= 9 && i == 90 + d
  {
    NinePrefix(d);
  }

  // ----- The handlers

  /** The state the two handlers share; the fields of a client are kept per connection. */
  class KeyState {
    var globalNumber: nat
    var currentTty: map<nat, Short>
    var currentScr: map<nat, Byte>
    ghost var events: seq<Event>

    ghost predicate Valid()
      reads this
    {
      var st := Run(events);
      && globalNumber == st.counter
      && currentTty.Keys == st.current.Keys
      && forall c <- currentTty :: currentTty[c] == st.current[c].tty
    }

    constructor ()
      ensures Valid() && events == []
    {
      globalNumber, currentTty, currentScr, events := 0, map[], map[], [];
    }

    method OnRecvIPTermResponse(conn: nat, descriptor: Byte, ttyno: Short, activeScreen: Byte)
      requires Valid()
      modifies this
      ensures Valid() && events == old(events) + [TermReport(conn, descriptor == 0x0A, ttyno)]
      ensures Run(events).rows == old(Run(events).rows) && globalNumber == old(globalNumber)
      ensures currentTty ==
        old(currentTty)[conn := if descriptor == 0x0A then (900 + ttyno) % 0x1_0000 else ttyno]
      ensures currentScr == old(currentScr)[conn := activeScreen]
    {
      var isDump := descriptor == 0x0A;
      var all := events + [TermReport(conn, isDump, ttyno)];
      RunNext(events, TermReport(conn, isDump, ttyno));
      currentTty := currentTty[conn := if isDump then (900 + ttyno) % 0x1_0000 else ttyno];
      currentScr := currentScr[conn := activeScreen];
      events := all;
    }

    /** The key of the row inserted; the counter is read and then advanced. */
    method OnRecvScreenInfoPacket(conn: nat) returns (tty: Short, screen: nat)
      requires Valid() && conn in currentTty && globalNumber < COUNTER_LIMIT
      modifies this
      ensures Valid() && events == old(events) + [ScreenInfo(conn)]
      ensures |Run(events).rows| == |old(Run(events).rows)| + 1
      ensures tty == old(currentTty)[conn] && screen == old(globalNumber) % 127
      ensures globalNumber == old(globalNumber) + 1 && currentTty == old(currentTty) && currentScr == old(currentScr)
      ensures
        var row := Run(events).rows[|Run(events).rows| - 1];
        row.conn == conn && row.tty == tty && row.screen == screen
    {
      var all := events + [ScreenInfo(conn)];
      RunNext(events, ScreenInfo(conn));
      tty := currentTty[conn];
      screen := globalNumber % SCREEN_MODULUS;
      globalNumber := globalNumber + 1;
      events := all;
    }
  }
}
