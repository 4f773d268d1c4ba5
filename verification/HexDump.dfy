/** The hex dumpers of client/shared_library.cpp and server/src/log.cpp, printing through
    a stream whose width lasts for one item while fill, base and case persist. */
module HexDump {
  import opened Wire
  import opened Text

  // Columns between ": " and the gutter. A row has 16 bytes.
  const AREA := 50

  // ----- The text of a dump

  /** Printable bytes stand for themselves, all others become a dot. */
  function GutterChar(b: Byte): (c: char)
    ensures c != '\n'
  {
    if 31 < b < 127 then b as char else '.'
  }

  function Gutter(bs: seq<Byte>): (s: string)
    ensures |s| == |bs| && '\n' !in s
  {
    seq(|bs|, i requires 0 <= i < |bs| => GutterChar(bs[i]))
  }

  /** Two digits and a blank. */
  function Cell(b: Byte): (s: string)
    ensures |s| == 3
  {
    [DigitChar(b / 16, true), DigitChar(b % 16, true), ' ']
  }

  /** A byte printed in hexadecimal, filled with zeros to a width of two. */
  lemma CellIsPadded(b: Byte)
    ensures Pad(Numeral(b, 16, true), 2, '0') + " " == Cell(b)
  {
    if b < 16 {
      assert Repeat('0', 1) == "0";
    } else {
      assert Numeral(b / 16, 16, true) == [DigitChar(b / 16, true)];
    }
  }

  /** What stands before the cell of byte `j` of a row. */
  function Dash(j: nat): string {
    if j == 8 then "- " else ""
  }

  /** Where the cell of byte `j` of a row starts. */
  function CellAt(j: nat): nat {
    3 * j + if j >= 8 then 2 else 0
  }

  /** The cells of a row, with a dash in the middle. */
  function Area(bs: seq<Byte>): (s: string)
    ensures |s| == 3 * |bs| + if |bs| > 8 then 2 else 0
  {
    if bs == [] then ""
    else
      var k := |bs| - 1;
      Area(bs[..k]) + Dash(k) + Cell(bs[k])
  }

  function Offset(at: nat): string {
    Pad(Numeral(at, 16, true), 4, '0')
  }

  function Label(at: nat): string {
    " " + Offset(at) + ": "
  }

  /** A line without its offset: the gutter starts at column 50, full row or not. */
  function Body(bs: seq<Byte>): (s: string)
    requires |bs| <= 16
    ensures |s| == AREA + |bs| && s[AREA..] == Gutter(bs)
  {
    Area(bs) + Repeat(' ', AREA - |Area(bs)|) + Gutter(bs)
  }

  function Row(at: nat, bs: seq<Byte>): string
    requires |bs| <= 16
  {
    Label(at) + Body(bs)
  }

  function RowCount(d: seq<Byte>): nat {
    (|d| + 16 - 1) / 16
  }

  function RowBytes(d: seq<Byte>, k: nat): (bs: seq<Byte>)
    requires k < RowCount(d)
    ensures 1 <= |bs| <= 16
  {
    d[16 * k..if 16 * k + 16 <= |d| then 16 * k + 16 else |d|]
  }

  function Rows(d: seq<Byte>): (rows: seq<string>)
    ensures |rows| == RowCount(d)
  {
    seq(RowCount(d), k requires 0 <= k < RowCount(d) => Row(16 * k, RowBytes(d, k)))
  }

  function Dump(d: seq<Byte>): string {
    Lines(Rows(d))
  }

  /** In every line, full or not, the gutter starts 50 columns after the offset's ": ". */
  lemma GutterAlignment(d: seq<Byte>, k: nat)
    requires k < RowCount(d)
    ensures
      var row, mark := Rows(d)[k], Label(16 * k);
      && mark[|mark| - 2..] == ": " && mark <= row
      && |row| >= |mark| + AREA && row[|mark| + AREA..] == Gutter(RowBytes(d, k))
  {
    var body, mark := Body(RowBytes(d, k)), Label(16 * k);
    assert (mark + body)[|mark| + AREA..] == body[AREA..];
  }

  /** An offset of up to four digits, digit by digit; a wider one has one more digit. */
  lemma OffsetDigits(at: nat)
    ensures at < 0x1_0000 ==>
      Offset(at) == [DigitChar(at / 0x1000, true), DigitChar(at / 0x100 % 0x10, true),
                     DigitChar(at / 0x10 % 0x10, true), DigitChar(at % 0x10, true)]
    ensures at >= 0x1_0000 ==> Offset(at) == Offset(at / 0x10) + [DigitChar(at % 0x10, true)]
  {
    if at < 0x1_0000 {
      FourDigits(at);
    } else {
      FiveDigits(at);
    }
  }

  lemma FourDigits(at: nat)
    requires at < 0x1_0000
    ensures Offset(at) == [DigitChar(at / 0x1000, true), DigitChar(at / 0x100 % 0x10, true),
                           DigitChar(at / 0x10 % 0x10, true), DigitChar(at % 0x10, true)]
  {
    PadNext(at, 3);
    PadNext(at / 0x10, 2);
    PadNext(at / 0x100, 1);
    assert at / 0x10 / 0x10 == at / 0x100 && at / 0x100 / 0x10 == at / 0x1000;
  }

  /** A padded numeral is the padded numeral of its other digits, and its last digit. */
  lemma PadNext(n: nat, width: nat)
    requires width >= 1
    ensures Pad(Numeral(n, 16, true), width + 1, '0') ==
      Pad(Numeral(n / 0x10, 16, true), width, '0') + [DigitChar(n % 0x10, true)]
  {
    OneMoreDigit(n);
    if n < 0x10 {
      assert Numeral(0, 16, true) == ['0'];
      assert Repeat('0', width - 1) + ['0'] == Repeat('0', width);
    }
  }

  lemma OneMoreDigit(n: nat)
    ensures Numeral(n, 16, true) ==
      (if n < 0x10 then [] else Numeral(n / 0x10, 16, true)) + [DigitChar(n % 0x10, true)]
  {
  }

  lemma FiveDigits(at: nat)
    requires at >= 0x1_0000
    ensures Offset(at) == Offset(at / 0x10) + [DigitChar(at % 0x10, true)]
  {
    OneMoreDigit(at);
    FourAtLeast(at / 0x10);
  }

  lemma FourAtLeast(n: nat)
    requires n >= 0x1000
    ensures |Numeral(n, 16, true)| >= 4
  {
    OneMoreDigit(n);
    OneMoreDigit(n / 0x10);
    OneMoreDigit(n / 0x100);
    assert n / 0x10 / 0x10 == n / 0x100;
  }

  /** The columns of every row. The label is a blank, the offset and ": ". Each byte has
      two digits and a blank, and a dash and a blank stand before the ninth; blanks fill
      the area up to the gutter. */
  lemma RowColumns(d: seq<Byte>, k: nat)
    requires k < RowCount(d)
    ensures
      var row, bs, mark := Rows(d)[k], RowBytes(d, k), " " + Offset(16 * k) + ": ";
      && bs == d[16 * k..if 16 * k + 16 <= |d| then 16 * k + 16 else |d|]
      && mark <= row && |row| == |mark| + 50 + |bs|
      && (forall j :: 0 <= j < |bs| ==> IsCell(row[|mark|..], 3 * j + (if j < 8 then 0 else 2), bs[j]))
      && (|bs| > 8 ==> row[|mark|..][24] == '-' && row[|mark|..][25] == ' ')
      && (forall c :: 3 * |bs| + (if |bs| > 8 then 2 else 0) <= c < 50 ==> row[|mark|..][c] == ' ')
  {
    var row, bs, mark := Rows(d)[k], RowBytes(d, k), Label(16 * k);
    After(mark, Body(bs), row);
    BodyColumns(bs);
  }

  lemma After(mark: string, body: string, row: string)
    requires row == mark + body
    ensures mark <= row && row[|mark|..] == body
  {
  }

  /** In the gutter, printable bytes stand for themselves and all others become a dot. */
  lemma GutterShows(d: seq<Byte>, k: nat)
    requires k < RowCount(d)
    ensures
      var row, bs, mark := Rows(d)[k], RowBytes(d, k), Label(16 * k);
      && |row| == |mark| + 50 + |bs|
      && forall j :: 0 <= j < |bs| ==>
           row[|mark| + 50 + j] == if 0x20 <= bs[j] <= 0x7E then bs[j] as char else '.'
  {
    var bs, mark := RowBytes(d, k), Label(16 * k);
    assert Rows(d)[k] == mark + Body(bs);
    forall j | 0 <= j < |bs|
      ensures (mark + Body(bs))[|mark| + 50 + j] == GutterChar(bs[j])
    {
      assert Body(bs)[50..][j] == Gutter(bs)[j];
    }
  }

  /** Two digits and a blank stand at a column. */
  predicate IsCell(s: string, at: nat, b: Byte) {
    && at + 2 < |s| && s[at] == "0123456789ABCDEF"[b / 0x10] && s[at + 1] == "0123456789ABCDEF"[b % 0x10]
    && s[at + 2] == ' '
  }

  lemma {:induction false} AreaColumns(bs: seq<Byte>, j: nat)
    requires j < |bs|
    ensures |bs| <= 16 ==> IsCell(Area(bs), CellAt(j), bs[j])
  {
    var k := |bs| - 1;
    if |bs| <= 16 {
      if j < k {
        AreaColumns(bs[..k], j);
      } else {
        DigitsSpeltOut(bs[k] / 16);
        DigitsSpeltOut(bs[k] % 16);
      }
    }
  }

  lemma BodyColumns(bs: seq<Byte>)
    requires |bs| <= 16
    ensures |Body(bs)| == 50 + |bs|
    ensures forall j :: 0 <= j < |bs| ==> IsCell(Body(bs), 3 * j + (if j < 8 then 0 else 2), bs[j])
    ensures |bs| > 8 ==> Body(bs)[24] == '-' && Body(bs)[25] == ' '
    ensures forall c :: 3 * |bs| + (if |bs| > 8 then 2 else 0) <= c < 50 ==> Body(bs)[c] == ' '
  {
    forall j | 0 <= j < |bs|
      ensures IsCell(Body(bs), CellAt(j), bs[j])
    {
      AreaColumns(bs, j);
    }
    if |bs| > 8 {
      DashColumns(bs);
    }
  }

  lemma {:induction false} DashColumns(bs: seq<Byte>)
    requires 8 < |bs| <= 16
    ensures Area(bs)[24] == '-' && Area(bs)[25] == ' '
  {
    if |bs| > 9 {
      DashColumns(bs[..|bs| - 1]);
    }
  }

  // ----- Reading a dump back

  function CellByte(area: string, j: nat): Byte
    requires CellAt(j) + 2 <= |area|
  {
    DigitValue(area[CellAt(j)]) * 16 + DigitValue(area[CellAt(j) + 1])
  }

  /** The bytes of a line after its offset: the gutter's length is the number of cells. */
  function ReadCells(area: string): Option<seq<Byte>> {
    if |area| < AREA || |area| > AREA + 16 then None
    else Some(seq(|area| - AREA, j requires 0 <= j < |area| - AREA => CellByte(area, j)))
  }

  function ReadRow(row: string): Option<(nat, seq<Byte>)> {
    if row == "" then None
    else
      var mark := UpTo(row[1..], ':');
      if |row| < |mark| + 3 then None
      else
        match ReadCells(row[|mark| + 3..])
        case Some(bs) => Some((Value(mark, 16), bs))
        case None => None
  }

  /** All lines, which must be numbered without a gap. */
  function ReadRows(rows: seq<string>, at: nat): Option<seq<Byte>> {
    if rows == [] then Some([])
    else
      match ReadRow(rows[0])
      case None => None
      case Some((mark, bs)) =>
        if mark != at then None
        else
          match ReadRows(rows[1..], at + |bs|)
          case None => None
          case Some(more) => Some(bs + more)
  }

  function Undump(text: string): Option<seq<Byte>> {
    var pieces := Split(text, '\n');
    if pieces[0] != "" then None else ReadRows(pieces[1..], 0)
  }

  lemma {:induction false} AreaCell(bs: seq<Byte>, j: nat)
    requires j < |bs| <= 16
    ensures CellAt(j) + 2 <= |Area(bs)| && CellByte(Area(bs), j) == bs[j]
  {
    var k := |bs| - 1;
    if j < k {
      AreaCell(bs[..k], j);
    } else {
      DigitRoundTrip(bs[k] / 16, true);
      DigitRoundTrip(bs[k] % 16, true);
    }
  }

  lemma {:induction false} AreaHasNoBreak(bs: seq<Byte>)
    ensures '\n' !in Area(bs)
  {
    if bs != [] {
      var k := |bs| - 1;
      AreaHasNoBreak(bs[..k]);
      DigitRoundTrip(bs[k] / 16, true);
      DigitRoundTrip(bs[k] % 16, true);
    }
  }

  lemma OffsetReads(at: nat)
    ensures Value(Offset(at), 16) == at
    ensures ':' !in Offset(at) && '\n' !in Offset(at)
  {
    PaddedValue(at, 4, 16, true);
    NumeralDigits(at, 16, true);
  }

  lemma LabelParts(mark: string, t: string)
    ensures
      var row := " " + mark + ": " + t;
      row[1..] == mark + (": " + t) && row[|mark| + 3..] == t
  {
  }

  lemma LabelReads(at: nat, t: string)
    ensures
      var row := Label(at) + t;
      && UpTo(row[1..], ':') == Offset(at)
      && row[|Offset(at)| + 3..] == t && '\n' !in Label(at)
  {
    OffsetReads(at);
    LabelParts(Offset(at), t);
    UpToFirst(Offset(at), ": " + t, ':');
  }

  lemma BodyCells(bs: seq<Byte>)
    requires |bs| <= 16
    ensures forall j :: 0 <= j < |bs| ==> CellByte(Body(bs), j) == bs[j]
  {
    var area, body := Area(bs), Body(bs);
    forall j | 0 <= j < |bs|
      ensures CellByte(body, j) == bs[j]
    {
      AreaCell(bs, j);
      assert body[CellAt(j)] == area[CellAt(j)] && body[CellAt(j) + 1] == area[CellAt(j) + 1];
    }
  }

  lemma CellsAre(area: string, bs: seq<Byte>)
    requires |bs| <= 16 && |area| == AREA + |bs|
    requires forall j :: 0 <= j < |bs| ==> CellByte(area, j) == bs[j]
    ensures ReadCells(area) == Some(bs)
  {
    assert seq(|area| - AREA, j requires 0 <= j < |area| - AREA => CellByte(area, j)) == bs;
  }

  /** Every cell of a line's body gives its byte; so the body gives all of them. */
  lemma BodyReads(bs: seq<Byte>)
    requires |bs| <= 16
    ensures '\n' !in Body(bs)
    ensures ReadCells(Body(bs)) == Some(bs)
  {
    AreaHasNoBreak(bs);
    BodyCells(bs);
    CellsAre(Body(bs), bs);
  }

  lemma RowIs(row: string, mark: string, area: string, bs: seq<Byte>)
    requires row != "" && UpTo(row[1..], ':') == mark && |row| >= |mark| + 3
    requires row[|mark| + 3..] == area && ReadCells(area) == Some(bs)
    ensures ReadRow(row) == Some((Value(mark, 16), bs))
  {
  }

  lemma RowReads(at: nat, bs: seq<Byte>)
    requires |bs| <= 16
    ensures '\n' !in Row(at, bs)
    ensures ReadRow(Row(at, bs)) == Some((at, bs))
  {
    BodyReads(bs);
    LabelReads(at, Body(bs));
    OffsetReads(at);
    RowIs(Row(at, bs), Offset(at), Body(bs), bs);
  }

  lemma RestOfRows(d: seq<Byte>, k: nat)
    requires k < RowCount(d)
    ensures
      var end := 16 * k + |RowBytes(d, k)|;
      && end <= |d| && d[16 * k..] == RowBytes(d, k) + d[end..]
      && (end < |d| ==> end == 16 * (k + 1)) && (end == |d| <==> k + 1 == RowCount(d))
  {
  }

  lemma FirstRowRead(rows: seq<string>, at: nat, bs: seq<Byte>, more: seq<Byte>)
    requires rows != [] && ReadRow(rows[0]) == Some((at, bs))
    requires ReadRows(rows[1..], at + |bs|) == Some(more)
    ensures ReadRows(rows, at) == Some(bs + more)
  {
  }

  lemma {:induction false} RowsRead(d: seq<Byte>, rows: seq<string>, k: nat)
    requires k < RowCount(d) == |rows|
    requires forall j :: 0 <= j < |rows| ==> ReadRow(rows[j]) == Some((16 * j, RowBytes(d, j)))
    ensures ReadRows(rows[k..], 16 * k) == Some(d[16 * k..])
    decreases |rows| - k
  {
    var bs := RowBytes(d, k);
    var end := 16 * k + |bs|;
    RestOfRows(d, k);
    assert rows[k..][0] == rows[k] && rows[k..][1..] == rows[k + 1..];
    if end < |d| {
      RowsRead(d, rows, k + 1);
    }
    FirstRowRead(rows[k..], 16 * k, bs, d[end..]);
  }

  /** Reading a dump gives the bytes back, for every length and offset; so no two byte
      sequences are printed alike. */
  lemma DumpIsReversible(d: seq<Byte>)
    ensures Undump(Dump(d)) == Some(d)
  {
    var rows := Rows(d);
    forall k | 0 <= k < RowCount(d)
      ensures '\n' !in rows[k] && ReadRow(rows[k]) == Some((16 * k, RowBytes(d, k)))
    {
      RowReads(16 * k, RowBytes(d, k));
    }
    SplitLines(rows);
    assert ([""] + rows)[1..] == rows;
    if d != [] {
      RowsRead(d, rows, 0);
      assert rows[0..] == rows && d[0..] == d;
    }
  }

  /** A dump starts a new line for every row, and ends without one. */
  lemma DumpLines(d: seq<Byte>)
    ensures Split(Dump(d), '\n') == [""] + Rows(d)
  {
    var rows := Rows(d);
    forall k | 0 <= k < RowCount(d)
      ensures '\n' !in rows[k]
    {
      RowReads(16 * k, RowBytes(d, k));
    }
    SplitLines(rows);
  }

  lemma DumpIsInjective(d: seq<Byte>, e: seq<Byte>)
    requires Dump(d) == Dump(e)
    ensures d == e
  {
    DumpIsReversible(d);
    DumpIsReversible(e);
  }

  // ----- The dump as the loop builds it

  /** A row is open: the text ends with the cells of its bytes so far. */
  function Open(before: string, at: nat, bs: seq<Byte>): string {
    before + "\n" + (Label(at) + Area(bs))
  }

  lemma Regroup(rows: string, mark: string, area: string, fill: string, gutter: string)
    ensures rows + (mark + area) + fill + gutter == rows + (mark + (area + fill + gutter))
  {
    Assoc(rows + (mark + area), fill, gutter);
    Assoc(rows, mark + area, fill + gutter);
    Assoc(mark, area, fill + gutter);
    Assoc(area, fill, gutter);
  }

  /** The blanks and the gutter close a row. */
  lemma CloseRow(before: string, at: nat, bs: seq<Byte>, fill: string)
    requires |bs| <= 16 && fill == Repeat(' ', AREA - |Area(bs)|)
    ensures Open(before, at, bs) + fill + Gutter(bs) == before + "\n" + Row(at, bs)
  {
    Regroup(before + "\n", Label(at), Area(bs), fill, Gutter(bs));
  }

  lemma AreaStep(bs: seq<Byte>, b: Byte)
    ensures Area(bs + [b]) == Area(bs) + Dash(|bs|) + Cell(b)
  {
    assert (bs + [b])[..|bs|] == bs;
  }

  lemma GutterStep(bs: seq<Byte>, b: Byte)
    ensures Gutter(bs + [b]) == Gutter(bs) + [GutterChar(b)]
  {
  }

  /** A dash, where one is due, and a cell continue a row. */
  lemma ExtendRow(before: string, at: nat, bs: seq<Byte>, b: Byte)
    ensures Open(before, at, bs + [b]) == Open(before, at, bs) + Dash(|bs|) + Cell(b)
  {
    AreaStep(bs, b);
    Regroup(before + "\n", Label(at), Area(bs), Dash(|bs|), Cell(b));
  }

  lemma OpenRow(before: string, at: nat)
    ensures Open(before, at, []) == before + "\n" + Label(at)
  {
    assert Label(at) + Area([]) == Label(at);
  }

  lemma RowsStep(d: seq<Byte>, k: nat)
    requires k < RowCount(d)
    ensures Rows(d)[..k + 1] == Rows(d)[..k] + [Row(16 * k, RowBytes(d, k))]
    ensures Lines(Rows(d)[..k + 1]) == Lines(Rows(d)[..k]) + "\n" + Row(16 * k, RowBytes(d, k))
  {
    var rows := Rows(d);
    assert rows[..k + 1] == rows[..k] + [rows[k]];
    LinesSnoc(rows[..k], rows[k]);
  }

  /** The blanks that bring a partial row to the gutter. */
  function Interval(i: nat): nat {
    3 * (16 - i % 16) + if i % 16 > 8 then 0 else 2
  }

  /** A text, and the gutter that is carried for it. */
  datatype Sheet = Sheet(text: string, word: string)

  /** Whole rows, and row `k` open up to byte `i`. */
  function InRow(d: seq<Byte>, k: nat, i: nat): Sheet
    requires 16 * k <= i <= |d| && k <= RowCount(d)
  {
    var bs := d[16 * k..i];
    Sheet(Open(Lines(Rows(d)[..k]), 16 * k, bs), Gutter(bs))
  }

  lemma RowBytesAre(d: seq<Byte>, k: nat, i: nat)
    requires k < RowCount(d) && 16 * k < i <= |d| && (i == 16 * k + 16 || (i < 16 * k + 16 && i == |d|))
    ensures RowBytes(d, k) == d[16 * k..i]
  {
  }

  /** The blanks that a row of `i` bytes in all lacks. */
  function Fill(i: nat): string {
    if i % 16 == 0 then "" else Repeat(' ', Interval(i))
  }

  /** The interval formula complements the cells and the dash of a partial row. */
  lemma FillIs(bs: seq<Byte>, i: nat)
    requires |bs| == if i % 16 == 0 then 16 else i % 16
    ensures Repeat(' ', AREA - |Area(bs)|) == Fill(i)
  {
  }

  lemma InRowSize(k: nat, i: nat)
    requires 16 * k < i <= 16 * k + 16
    ensures i - 16 * k == if i % 16 == 0 then 16 else i % 16
  {
  }

  /** The text with its last row closed by the blanks it lacks and its gutter. */
  function Finish(sheet: Sheet, i: nat): string {
    sheet.text + Fill(i) + sheet.word
  }

  /** With the gutter behind it, a row that is full, or the last one, is complete. */
  lemma ClosedRow(d: seq<Byte>, k: nat, i: nat)
    requires k < RowCount(d) && 16 * k < i <= |d| && (i == 16 * k + 16 || (i < 16 * k + 16 && i == |d|))
    ensures Finish(InRow(d, k, i), i) == Lines(Rows(d)[..k + 1])
  {
    var bs := d[16 * k..i];
    RowBytesAre(d, k, i);
    InRowSize(k, i);
    FillIs(bs, i);
    CloseRow(Lines(Rows(d)[..k]), 16 * k, bs, Fill(i));
    RowsStep(d, k);
  }

  lemma OpenFirst(before: string, at: nat, b: Byte)
    ensures Open(before, at, [b]) == before + "\n" + Label(at) + Cell(b)
    ensures Gutter([b]) == [GutterChar(b)]
  {
    OpenRow(before, at);
    ExtendRow(before, at, [], b);
    NoFill(before + "\n" + Label(at));
    assert [] + [b] == [b];
  }

  lemma OpenedRow(d: seq<Byte>, k: nat, i: nat, before: string, next: Sheet)
    requires k < RowCount(d) && i == 16 * k < |d| && before == Lines(Rows(d)[..k])
    requires next == Sheet(before + "\n" + Label(i) + Cell(d[i]), [GutterChar(d[i])])
    ensures next == InRow(d, k, i + 1)
  {
    OpenFirst(before, i, d[i]);
    OneByte(d, i);
  }

  lemma OneByte(d: seq<Byte>, i: nat)
    requires i < |d|
    ensures d[i..i + 1] == [d[i]]
  {
  }

  lemma NoFill(s: string)
    ensures s + "" == s && "" + s == s
  {
  }

  lemma ContinuedRow(d: seq<Byte>, k: nat, i: nat)
    requires k < RowCount(d) && 16 * k < i < |d| && i < 16 * k + 16
    ensures InRow(d, k, i + 1) == Write(InRow(d, k, i), i, d[i])
  {
    var bs := d[16 * k..i];
    assert i % 16 == |bs|;
    assert d[16 * k..i + 1] == bs + [d[i]];
    ExtendRow(Lines(Rows(d)[..k]), 16 * k, bs, d[i]);
    GutterStep(bs, d[i]);
  }

  /** What is printed after `i` bytes, as the loop's branches write it. */
  function Written(d: seq<Byte>, i: nat): Sheet
    requires i <= |d|
  {
    if i == 0 then Sheet("", "") else Write(Written(d, i - 1), i - 1, d[i - 1])
  }

  function Write(sheet: Sheet, i: nat, b: Byte): Sheet {
    if i % 16 == 0
    then Sheet(sheet.text + sheet.word + "\n" + Label(i) + Cell(b), [GutterChar(b)])
    else Sheet(sheet.text + Dash(i % 16) + Cell(b), sheet.word + [GutterChar(b)])
  }

  lemma WrittenStep(d: seq<Byte>, i: nat)
    requires i < |d|
    ensures Written(d, i + 1) == Write(Written(d, i), i, d[i])
  {
  }

  lemma WriteFirst(sheet: Sheet, i: nat, b: Byte, next: Sheet)
    requires i % 16 == 0 && next == Write(sheet, i, b)
    ensures next == Sheet(Finish(sheet, i) + "\n" + Label(i) + Cell(b), [GutterChar(b)])
  {
    NoFill(sheet.text);
  }

  lemma RowStart(k: nat, i: nat)
    requires i == 16 * k
    ensures i % 16 == 0
  {
  }

  /** The byte that starts a row, after rows that are all whole. */
  lemma StartedRow(d: seq<Byte>, k: nat, i: nat, sheet: Sheet, next: Sheet)
    requires k < RowCount(d) && i == 16 * k < |d| && Finish(sheet, i) == Lines(Rows(d)[..k])
    requires next == Write(sheet, i, d[i])
    ensures next == InRow(d, k, i + 1)
  {
    RowStart(k, i);
    WriteFirst(sheet, i, d[i], next);
    OpenedRow(d, k, i, Finish(sheet, i), next);
  }

  lemma FirstOfRow(d: seq<Byte>, k: nat, i: nat, j: nat)
    requires k < RowCount(d) && j == 16 * k && i == j + 1 <= |d|
    requires Finish(Written(d, j), j) == Lines(Rows(d)[..k])
    ensures Written(d, i) == InRow(d, k, i)
  {
    WrittenStep(d, j);
    StartedRow(d, k, j, Written(d, j), Written(d, i));
  }

  lemma NextOfRow(d: seq<Byte>, k: nat, i: nat, j: nat)
    requires k < RowCount(d) && 16 * k < j < 16 * k + 16 && i == j + 1 <= |d|
    requires Written(d, j) == InRow(d, k, j)
    ensures Written(d, i) == InRow(d, k, i)
  {
    WrittenStep(d, j);
    ContinuedRow(d, k, j);
  }

  /** The loop's text after `i` bytes, of which the last is in row `k`. */
  lemma {:induction false} WrittenInRow(d: seq<Byte>, k: nat, i: nat)
    requires k < RowCount(d) && 16 * k < i <= |d| && i <= 16 * k + 16
    ensures Written(d, i) == InRow(d, k, i)
    decreases i, 0
  {
    var j := i - 1;
    if j == 16 * k {
      WrittenRows(d, k, j);
      FirstOfRow(d, k, i, j);
    } else {
      WrittenInRow(d, k, j);
      NextOfRow(d, k, i, j);
    }
  }

  /** After whole rows. */
  lemma {:induction false} WrittenRows(d: seq<Byte>, k: nat, i: nat)
    requires k < RowCount(d) && i == 16 * k < |d|
    ensures Finish(Written(d, i), i) == Lines(Rows(d)[..k])
    decreases i, 1
  {
    if k > 0 {
      WrittenInRow(d, k - 1, i);
      ClosedRow(d, k - 1, i);
    } else {
      NoRows(d);
    }
  }

  lemma NoRows(d: seq<Byte>)
    ensures Lines(Rows(d)[..0]) == "" && Finish(Written(d, 0), 0) == ""
  {
  }

  /** The loop prints the lines of the dump, whether the last one is full or not. */
  lemma FinishedIsDump(d: seq<Byte>)
    ensures Finish(Written(d, |d|), |d|) == Dump(d)
  {
    if d == [] {
      NoRows(d);
      assert Rows(d) == Rows(d)[..0];
    } else {
      LastRow(d, RowCount(d) - 1);
    }
  }

  lemma LastRow(d: seq<Byte>, k: nat)
    requires d != [] && k + 1 == RowCount(d)
    ensures Finish(Written(d, |d|), |d|) == Dump(d)
  {
    LastIndex(d, k);
    WrittenInRow(d, k, |d|);
    ClosedRow(d, k, |d|);
    AllRows(d, Finish(Written(d, |d|), |d|));
  }

  lemma LastIndex(d: seq<Byte>, k: nat)
    requires d != [] && k + 1 == RowCount(d)
    ensures 16 * k < |d| <= 16 * k + 16
  {
  }

  lemma AllRows(d: seq<Byte>, text: string)
    requires text == Lines(Rows(d)[..RowCount(d)])
    ensures text == Dump(d)
  {
    assert Rows(d)[..RowCount(d)] == Rows(d);
  }

  // ----- The stream and the dumpers

  /** An output string stream: the width applies to the next item and is then zero again;
      fill, base and case stay as they were set. */
  class StringStream {
    var text: string
    var width: nat
    var fill: char
    var base: Base
    var upper: bool

    constructor ()
      ensures text == "" && width == 0 && fill == ' ' && base == 10 && !upper
    {
      text, width, fill, base, upper := "", 0, ' ', 10, false;
    }

    method Put(s: string)
      modifies this`text, this`width
      ensures text == old(text) + Pad(s, old(width), fill) && width == 0
    {
      text := text + Pad(s, width, fill);
      width := 0;
    }

    method PutInt(n: nat)
      modifies this`text, this`width
      ensures text == old(text) + Pad(Numeral(n, base, upper), old(width), fill) && width == 0
    {
      Put(Numeral(n, base, upper));
    }

    /** The line break is not padded and leaves the width alone. */
    method Endl()
      modifies this`text
      ensures text == old(text) + "\n"
    {
      text := text + "\n";
    }

    method Clear()
      modifies this`text
      ensures text == ""
    {
      text := "";
    }
  }

  /** The start of a row: the gutter of the row before, a new line, the offset. */
  method BeginRow(ss: StringStream, word: StringStream, i: nat)
    requires ss != word && ss.width == 0
    modifies ss, word`text
    ensures ss.text == old(ss.text) + old(word.text) + "\n" + Label(i) && word.text == ""
    ensures ss.width == 0 && ss.fill == '0' && ss.base == 16 && ss.upper
  {
    ss.Put(word.text);
    ss.Endl();
    word.Clear();
    ss.upper := true;
    ghost var start := ss.text;
    ss.Put(" ");
    ss.width, ss.fill, ss.base := 4, '0', 16;
    ss.PutInt(i);
    ss.Put(": ");
    Assoc(start, " ", Offset(i));
    Assoc(start, " " + Offset(i), ": ");
  }

  /** What a byte's position calls for: a new row, a dash, or nothing. */
  method StartCell(ss: StringStream, word: StringStream, i: nat)
    requires ss != word && ss.width == 0
    modifies ss, word`text
    ensures ss.width == 0 && (i % 16 == 0 || old(ss.upper) ==> ss.upper)
    ensures i % 16 == 0 ==> ss.text == old(ss.text) + old(word.text) + "\n" + Label(i) && word.text == ""
    ensures i % 16 != 0 ==> ss.text == old(ss.text) + Dash(i % 16) && word.text == old(word.text)
  {
    if i % 16 == 0 {
      BeginRow(ss, word, i);
    } else {
      HalfRow(i);
      NoFill(ss.text);
      if i % 8 == 0 {
        ss.Put("- ");
      }
    }
  }

  lemma HalfRow(i: nat)
    requires i % 16 != 0
    ensures Dash(i % 16) == if i % 8 == 0 then "- " else ""
  {
    assert i % 16 % 8 == i % 8;
  }

  /** A byte in hexadecimal, two digits wide, and a blank. The case is whatever was set. */
  method PutCell(ss: StringStream, b: Byte)
    requires ss.width == 0 && ss.upper
    modifies ss
    ensures ss.text == old(ss.text) + Cell(b)
    ensures ss.width == 0 && ss.fill == '0' && ss.base == 16 && ss.upper
  {
    ghost var start := ss.text;
    ss.width, ss.fill, ss.base := 2, '0', 16;
    ss.PutInt(b);
    ss.Put(" ");
    CellIsPadded(b);
    Assoc(start, Pad(Numeral(b, 16, true), 2, '0'), " ");
  }

  /** One byte of a dump. `always` sets uppercase for the cell too, and not only at the
      start of a row. */
  method PrintByte(ss: StringStream, word: StringStream, i: nat, b: Byte, always: bool)
    requires ss != word && ss.width == 0 && word.width == 0 && (always || i % 16 == 0 || ss.upper)
    modifies ss, word
    ensures ss.width == 0 && word.width == 0 && ss.upper
    ensures Sheet(ss.text, word.text) == Write(Sheet(old(ss.text), old(word.text)), i, b)
  {
    StartCell(ss, word, i);
    if always {
      ss.upper := true;
    }
    PutCell(ss, b);
    NoFill([GutterChar(b)]);
    word.Put([GutterChar(b)]);
  }

  /** The closing gutter, after the blanks of a partial row. */
  method EndRow(ss: StringStream, word: StringStream, i: nat) returns (text: string)
    requires ss.width == 0
    modifies ss
    ensures text == Finish(Sheet(old(ss.text), old(word.text)), i)
  {
    var last := word.text;
    NoFill(ss.text);
    if i % 16 != 0 {
      ss.width, ss.fill := Interval(i), ' ';
      Blanks(Interval(i));
      ss.Put(" ");
    }
    ss.width := 0;
    ss.Put(last);
    text := ss.text;
  }

  lemma Blanks(n: nat)
    requires n > 0
    ensures Pad(" ", n, ' ') == Repeat(' ', n)
  {
  }

  /** The dumper of the client, and of the server for a raw buffer: uppercase is set for
      every item. */
  method LogifyData(data: seq<Byte>) returns (text: string)
    requires |data| < 0x8000_0000
    ensures text == Dump(data)
  {
    var ss := new StringStream();
    var word := new StringStream();
    var i := 0;
    while i < |data|
      invariant 0 <= i <= |data|
      invariant ss.width == 0 && word.width == 0
      invariant Written(data, i) == Sheet(ss.text, word.text)
    {
      PrintByte(ss, word, i, data[i], true);
      i := i + 1;
    }
    FinishedIsDump(data);
    text := EndRow(ss, word, i);
  }

  /** The server's dumper for a message: uppercase is set at the start of a row only, and
      lasts. It prints the same text as the other one. */
  method LogifyMessage(message: seq<Byte>) returns (text: string)
    requires |message| < 0x1_0000_0000
    ensures text == Dump(message)
  {
    var ss := new StringStream();
    var word := new StringStream();
    var i := 0;
    while i < |message|
      invariant 0 <= i <= |message|
      invariant ss.width == 0 && word.width == 0 && (i > 0 ==> ss.upper)
      invariant Written(message, i) == Sheet(ss.text, word.text)
    {
      PrintByte(ss, word, i, message[i], false);
      i := i + 1;
    }
    FinishedIsDump(message);
    text := EndRow(ss, word, i);
  }
}
