/** Numerals and lines: the text the program prints and the readers that undo it. */
module Text {

  function DigitChar(d: nat, upper: bool): char
    requires d < 16
  {
    if d < 10 then ('0' as int + d) as char
    else ((if upper then 'A' else 'a') as int + d - 10) as char
  }

  /** The value of a digit of either case. */
  function DigitValue(c: char): (d: nat)
    ensures d < 16
  {
    if '0' <= c <= '9' then c as int - '0' as int
    else if 'A' <= c <= 'F' then c as int - 'A' as int + 10
    else if 'a' <= c <= 'f' then c as int - 'a' as int + 10
    else 0
  }

  lemma DigitRoundTrip(d: nat, upper: bool)
    requires d < 16
    ensures DigitValue(DigitChar(d, upper)) == d
    ensures d < 10 ==> '0' <= DigitChar(d, upper) <= '9'
    ensures '0' <= DigitChar(d, upper) <= '9' || 'A' <= DigitChar(d, upper) <= 'F' || 'a' <= DigitChar(d, upper) <= 'f'
  {
  }

  /** The digits of either case, spelt out. */
  lemma DigitsSpeltOut(d: nat)
    requires d < 16
    ensures DigitChar(d, true) == "0123456789ABCDEF"[d] && DigitChar(d, false) == "0123456789abcdef"[d]
    ensures DigitValue("0123456789ABCDEF"[d]) == d == DigitValue("0123456789abcdef"[d])
  {
  }

  type Base = b: nat | b == 10 || b == 16 witness 10

  /** A number without leading zeros. */
  function Numeral(n: nat, base: Base, upper: bool): (s: string)
    ensures |s| >= 1
  {
    if n < base then [DigitChar(n, upper)]
    else Numeral(n / base, base, upper) + [DigitChar(n % base, upper)]
  }

  function Value(s: string, base: Base): nat {
    if s == "" then 0 else Value(s[..|s| - 1], base) * base + DigitValue(s[|s| - 1])
  }

  lemma {:induction false} ValueOfNumeral(n: nat, base: Base, upper: bool)
    ensures Value(Numeral(n, base, upper), base) == n
  {
    if n < base {
      DigitRoundTrip(n, upper);
      var s := Numeral(n, base, upper);
      assert s[..0] == "";
    } else {
      ValueOfNumeral(n / base, base, upper);
      DigitRoundTrip(n % base, upper);
      var high := Numeral(n / base, base, upper);
      assert (high + [DigitChar(n % base, upper)])[..|high|] == high;
    }
  }

  lemma {:induction false} NumeralDigits(n: nat, base: Base, upper: bool)
    ensures forall c <- Numeral(n, base, upper) ::
      '0' <= c <= '9' || (base == 16 && ('A' <= c <= 'F' || 'a' <= c <= 'f'))
  {
    if n < base {
      DigitRoundTrip(n, upper);
    } else {
      NumeralDigits(n / base, base, upper);
      DigitRoundTrip(n % base, upper);
    }
  }

  function Repeat<T>(x: T, n: nat): (s: seq<T>)
    ensures |s| == n
  {
    seq(n, _ => x)
  }

  /** Numerals of up to three decimal digits, digit by digit. */
  lemma DecimalDigits(n: nat)
    requires n < 1000
    ensures Numeral(n, 10, false) ==
      if n < 10 then [DigitChar(n, false)]
      else if n < 100 then [DigitChar(n / 10, false), DigitChar(n % 10, false)]
      else [DigitChar(n / 100, false), DigitChar(n / 10 % 10, false), DigitChar(n % 10, false)]
  {
    if n >= 10 {
      LastDigit(n);
      LastDigit(n / 10);
      LastDigit(n / 100);
      assert n / 10 / 10 == n / 100;
    }
  }

  lemma LastDigit(n: nat)
    ensures Numeral(n, 10, false) == (if n < 10 then [] else Numeral(n / 10, 10, false)) + [DigitChar(n % 10, false)]
  {
  }

  /** Padding on the left up to a width. */
  function Pad(s: string, width: nat, fill: char): string {
    if |s| >= width then s else Repeat(fill, width - |s|) + s
  }

  lemma {:induction false} LeadingZeros(n: nat, s: string, base: Base)
    ensures Value(Repeat('0', n) + s, base) == Value(s, base)
  {
    if s == "" {
      assert Repeat('0', n) + s == Repeat('0', n);
      if n > 0 {
        LeadingZeros(n - 1, s, base);
        assert Repeat('0', n)[..n - 1] == Repeat('0', n - 1);
        assert Repeat('0', n - 1) + s == Repeat('0', n - 1);
      }
    } else {
      var t := Repeat('0', n) + s;
      LeadingZeros(n, s[..|s| - 1], base);
      assert t[..|t| - 1] == Repeat('0', n) + s[..|s| - 1];
    }
  }

  lemma PaddedValue(n: nat, width: nat, base: Base, upper: bool)
    ensures Value(Pad(Numeral(n, base, upper), width, '0'), base) == n
  {
    ValueOfNumeral(n, base, upper);
    var s := Numeral(n, base, upper);
    if |s| < width {
      LeadingZeros(width - |s|, s, base);
    }
  }

  /** The longest prefix without `c`. */
  function UpTo<T(==)>(s: seq<T>, c: T): (p: seq<T>)
    ensures |p| <= |s| && p <= s && c !in p
    ensures |p| < |s| ==> s[|p|] == c
  {
    if s == [] || s[0] == c then [] else [s[0]] + UpTo(s[1..], c)
  }

  lemma UpToIs<T>(s: seq<T>, a: seq<T>, c: T)
    requires a <= s && c !in a && (a == s || s[|a|] == c)
    ensures UpTo(s, c) == a
  {
    assert forall i :: 0 <= i < |a| ==> s[i] == a[i] && a[i] in a;
  }

  lemma UpToFirst<T>(a: seq<T>, t: seq<T>, c: T)
    requires c !in a && (t == [] || t[0] == c)
    ensures UpTo(a + t, c) == a
  {
    UpToIs(a + t, a, c);
  }

  /** The pieces between occurrences of `c`; the last one runs to the end. */
  function Split(s: string, c: char): (pieces: seq<string>)
    ensures |pieces| >= 1
    decreases |s|
  {
    var p := UpTo(s, c);
    [p] + if |p| == |s| then [] else Split(s[|p| + 1..], c)
  }

  lemma WholePiece(s: string, c: char)
    requires |UpTo(s, c)| == |s|
    ensures UpTo(s, c) == s && Split(s, c) == [s]
  {
    assert [s] + [] == [s];
  }

  lemma SplitFirst(a: string, t: string, c: char)
    requires c !in a
    ensures Split(a + [c] + t, c) == [a] + Split(t, c)
    ensures Split(a, c) == [a]
  {
    UpToFirst(a, [c] + t, c);
    assert a + [c] + t == a + ([c] + t);
    assert (a + [c] + t)[|a| + 1..] == t;
    UpToFirst(a, "", c);
    assert a + "" == a;
  }

  lemma CutAt(a: string, p: string, t: string, b: string, c: char)
    requires a == p + [c] + t
    ensures a[|p| + 1..] == t && a + [c] + b == p + [c] + (t + [c] + b)
  {
  }

  lemma {:induction false} SplitAppend(a: string, b: string, c: char)
    ensures Split(a + [c] + b, c) == Split(a, c) + Split(b, c)
    decreases |a|
  {
    var p := UpTo(a, c);
    if |p| == |a| {
      SplitFirst(a, b, c);
    } else {
      var t := a[|p| + 1..];
      assert a == p + [c] + t;
      CutAt(a, p, t, b, c);
      SplitAppend(t, b, c);
      SplitFirst(p, t + [c] + b, c);
      Pieces(p, Split(t, c), Split(b, c));
    }
  }

  /** One more piece at the end. */
  lemma SplitSnoc(s: string, pieces: seq<string>, b: string, c: char)
    requires Split(s, c) == pieces && c !in b
    ensures Split(s + [c] + b, c) == pieces + [b]
  {
    SplitAppend(s, b, c);
    SplitFirst(b, "", c);
  }

  lemma Pieces(p: string, a: seq<string>, b: seq<string>)
    ensures [p] + (a + b) == [p] + a + b
  {
  }

  function Join(pieces: seq<string>, c: char): string
    requires pieces != []
  {
    var k := |pieces| - 1;
    if k == 0 then pieces[0] else Join(pieces[..k], c) + [c] + pieces[k]
  }

  lemma {:induction false} JoinFirst(p: string, pieces: seq<string>, c: char)
    requires pieces != []
    ensures Join([p] + pieces, c) == p + [c] + Join(pieces, c)
  {
    var k := |pieces| - 1;
    assert ([p] + pieces)[..k + 1] == [p] + pieces[..k];
    if k > 0 {
      JoinFirst(p, pieces[..k], c);
      Shift(p, Join(pieces[..k], c), pieces[k], c);
    } else {
      assert [p] + pieces[..k] == [p];
    }
  }

  lemma Shift(p: string, a: string, b: string, c: char)
    ensures p + [c] + a + [c] + b == p + [c] + (a + [c] + b)
  {
  }

  lemma Recut(s: string, p: string, c: char)
    requires |p| < |s| && p <= s && s[|p|] == c
    ensures p + [c] + s[|p| + 1..] == s
  {
  }

  /** Splitting loses nothing. */
  lemma {:induction false} JoinSplit(s: string, c: char)
    ensures Join(Split(s, c), c) == s
    decreases |s|
  {
    var p := UpTo(s, c);
    if |p| == |s| {
      WholePiece(s, c);
    } else {
      var t := s[|p| + 1..];
      JoinSplit(t, c);
      JoinFirst(p, Split(t, c), c);
      Recut(s, p, c);
    }
  }

  /** Each line on a new line. */
  function Lines(rows: seq<string>): string {
    if rows == [] then "" else Lines(rows[..|rows| - 1]) + "\n" + rows[|rows| - 1]
  }

  lemma LinesSnoc(rows: seq<string>, row: string)
    ensures Lines(rows + [row]) == Lines(rows) + "\n" + row
  {
    assert (rows + [row])[..|rows|] == rows;
  }

  lemma Append(a: seq<string>, rows: seq<string>)
    requires rows != []
    ensures a + rows[..|rows| - 1] + [rows[|rows| - 1]] == a + rows
  {
  }

  lemma {:induction false} SplitLines(rows: seq<string>)
    requires forall row <- rows :: '\n' !in row
    ensures Split(Lines(rows), '\n') == [""] + rows
  {
    if rows == [] {
      SplitFirst("", "", '\n');
    } else {
      var k := |rows| - 1;
      SplitLines(rows[..k]);
      SplitSnoc(Lines(rows[..k]), [""] + rows[..k], rows[k], '\n');
      Append([""], rows);
    }
  }
}
