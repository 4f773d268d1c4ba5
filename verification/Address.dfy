/** The dotted-quad renderer of server/src/DatabaseConnection.cpp and a strict reader of
    IPv4address (section 3.2.2 of RFC 3986). */
module Address {
  import opened Wire
  import opened Text

  type Int32 = x: int | -0x8000_0000 <= x < 0x8000_0000

  /** The byte that an arithmetic shift and a mask leave, for negative values too. */
  function Octet(addr: Int32, shift: int): Byte
    requires shift > 0
  {
    addr / shift % 0x100
  }

  function Decimal(b: Byte): string {
    Numeral(b, 10, false)
  }

  function Render(addr: Int32): string {
    Decimal(Octet(addr, 0x100_0000)) + "." + Decimal(Octet(addr, 0x1_0000)) + "." +
    Decimal(Octet(addr, 0x100)) + "." + Decimal(Octet(addr, 1))
  }

  predicate Digits(s: string) {
    forall c <- s :: '0' <= c <= '9'
  }

  /** A decimal number from 0 to 255 without leading zeros. */
  predicate IsOctet(s: string) {
    && s != ""
    && Digits(s)
    && (|s| > 1 ==> s[0] != '0')
    && Value(s, 10) < 0x100
  }

  function Signed(a: Byte, b: Byte, c: Byte, d: Byte): Int32 {
    var value := Word(a, b) * 0x1_0000 + Word(c, d);
    if value >= 0x8000_0000 then value - 0x1_0000_0000 else value
  }

  function ParseQuad(text: string): Option<Int32> {
    var p := Split(text, '.');
    if |p| == 4 && IsOctet(p[0]) && IsOctet(p[1]) && IsOctet(p[2]) && IsOctet(p[3])
    then Some(Signed(Value(p[0], 10), Value(p[1], 10), Value(p[2], 10), Value(p[3], 10)))
    else None
  }

  lemma {:induction false} NoLeadingZero(n: nat)
    ensures n > 0 ==> Numeral(n, 10, false)[0] != '0'
  {
    if n < 10 {
      DigitRoundTrip(n, false);
      assert DigitValue('0') == 0;
    } else {
      NoLeadingZero(n / 10);
    }
  }

  lemma DecimalIsOctet(b: Byte)
    ensures IsOctet(Decimal(b)) && Value(Decimal(b), 10) == b && '.' !in Decimal(b)
  {
    ValueOfNumeral(b, 10, false);
    NumeralDigits(b, 10, false);
    NoLeadingZero(b);
  }

  lemma TensAndUnits(v: nat, d: nat)
    requires d < 10
    ensures (v * 10 + d) / 10 == v && (v * 10 + d) % 10 == d
  {
  }

  lemma {:induction false} NumeralOfValue(s: string)
    requires s != "" && Digits(s) && (|s| > 1 ==> s[0] != '0')
    ensures Numeral(Value(s, 10), 10, false) == s
    ensures s[0] != '0' ==> Value(s, 10) > 0
  {
    var k := |s| - 1;
    var high, last := s[..k], DigitValue(s[k]);
    assert s[k] in s;
    assert last < 10 && DigitChar(last, false) == s[k];
    if k > 0 {
      assert forall c <- high :: c in s;
      NumeralOfValue(high);
      TensAndUnits(Value(high, 10), last);
    }
  }

  lemma SplitQuad(a: string, b: string, c: string, d: string)
    requires '.' !in a && '.' !in b && '.' !in c && '.' !in d
    ensures Split(a + "." + b + "." + c + "." + d, '.') == [a, b, c, d]
  {
    var ab := a + "." + b;
    var abc := ab + "." + c;
    SplitFirst(a, "", '.');
    SplitSnoc(a, [a], b, '.');
    SplitSnoc(ab, [a] + [b], c, '.');
    SplitSnoc(abc, [a] + [b] + [c], d, '.');
    Four(a, b, c, d);
  }

  lemma Four(a: string, b: string, c: string, d: string)
    ensures [a] + [b] + [c] + [d] == [a, b, c, d]
  {
  }

  lemma LowWord(x: int)
    ensures Word(x / 0x100 % 0x100, x % 0x100) == x % 0x1_0000
  {
    LowBytes(x);
  }

  lemma SignedWords(high: int, low: int)
    requires -0x8000 <= high < 0x8000 && 0 <= low < 0x1_0000
    ensures
      var value := high % 0x1_0000 * 0x1_0000 + low;
      (if value >= 0x8000_0000 then value - 0x1_0000_0000 else value) == high * 0x1_0000 + low
  {
  }

  lemma TwoWords(x: int)
    ensures x == x / 0x1_0000 * 0x1_0000 + x % 0x1_0000
    ensures -0x8000_0000 <= x < 0x8000_0000 ==> -0x8000 <= x / 0x1_0000 < 0x8000
  {
  }

  /** The four octets determine the signed value. */
  lemma OctetsOf(addr: Int32)
    ensures Signed(Octet(addr, 0x100_0000), Octet(addr, 0x1_0000), Octet(addr, 0x100), Octet(addr, 1)) == addr
  {
    HighBytes(addr);
    LowWord(addr);
    LowWord(addr / 0x1_0000);
    TwoWords(addr);
    SignedWords(addr / 0x1_0000, addr % 0x1_0000);
  }

  lemma WordBytes(a: Byte, b: Byte)
    ensures Word(a, b) / 0x100 % 0x100 == a && Word(a, b) % 0x100 == b
  {
  }

  lemma WordsBack(high: int, low: int)
    requires 0 <= low < 0x1_0000
    ensures (high * 0x1_0000 + low) / 0x1_0000 == high && (high * 0x1_0000 + low) % 0x1_0000 == low
  {
  }

  lemma OctetsBack(a: Byte, b: Byte, c: Byte, d: Byte)
    ensures
      var addr := Signed(a, b, c, d);
      && Octet(addr, 0x100_0000) == a && Octet(addr, 0x1_0000) == b
      && Octet(addr, 0x100) == c && Octet(addr, 1) == d
  {
    var addr := Signed(a, b, c, d);
    var high := if Word(a, b) >= 0x8000 then Word(a, b) - 0x1_0000 else Word(a, b);
    assert addr == high * 0x1_0000 + Word(c, d);
    WordsBack(high, Word(c, d));
    HighBytes(addr);
    LowBytes(addr);
    WordBytes(a, b);
    WordBytes(c, d);
    LowBytes(high);
    assert high % 0x1_0000 == Word(a, b);
    LowBytes(Word(a, b));
  }

  /** Reading an address back gives the 32-bit value, for every signed input. */
  lemma RenderIsInvertible(addr: Int32)
    ensures ParseQuad(Render(addr)) == Some(addr)
  {
    var a, b, c, d := Octet(addr, 0x100_0000), Octet(addr, 0x1_0000), Octet(addr, 0x100), Octet(addr, 1);
    DecimalIsOctet(a);
    DecimalIsOctet(b);
    DecimalIsOctet(c);
    DecimalIsOctet(d);
    SplitQuad(Decimal(a), Decimal(b), Decimal(c), Decimal(d));
    OctetsOf(addr);
  }

  /** And every address in strict notation is the one that its value is printed as. */
  lemma ParsedIsRendered(text: string)
    requires ParseQuad(text).Some?
    ensures Render(ParseQuad(text).value) == text
  {
    var p := Split(text, '.');
    JoinSplit(text, '.');
    OctetIsDecimal(p[0]);
    OctetIsDecimal(p[1]);
    OctetIsDecimal(p[2]);
    OctetIsDecimal(p[3]);
    OctetsBack(Value(p[0], 10), Value(p[1], 10), Value(p[2], 10), Value(p[3], 10));
    assert p == [p[0], p[1], p[2], p[3]];
    JoinQuad(p[0], p[1], p[2], p[3]);
  }

  lemma OctetIsDecimal(s: string)
    requires IsOctet(s)
    ensures Decimal(Value(s, 10)) == s
  {
    NumeralOfValue(s);
  }

  lemma JoinQuad(a: string, b: string, c: string, d: string)
    ensures Join([a, b, c, d], '.') == a + "." + b + "." + c + "." + d
  {
    assert [a, b, c, d][..3] == [a, b, c] && [a, b, c][..2] == [a, b] && [a, b][..1] == [a];
    assert Join([a, b], '.') == Join([a], '.') + "." + b;
    assert Join([a, b, c], '.') == Join([a, b], '.') + "." + c;
  }

  /** The most significant octet comes first: whatever its sign, an address is printed as
      the four digits of its value modulo 2^32 to the base 256, in decimal. */
  lemma RenderOrder(addr: Int32, a: Byte, b: Byte, c: Byte, d: Byte)
    requires
      var value := a * 0x100_0000 + b * 0x1_0000 + c * 0x100 + d;
      addr == value || addr == value - 0x1_0000_0000
    ensures Render(addr) ==
      Numeral(a, 10, false) + "." + Numeral(b, 10, false) + "." + Numeral(c, 10, false) + "." + Numeral(d, 10, false)
  {
    SignedIs(addr, a, b, c, d);
    OctetsBack(a, b, c, d);
    RenderOctets(addr, a, b, c, d);
  }

  lemma SignedIs(addr: Int32, a: Byte, b: Byte, c: Byte, d: Byte)
    requires
      var value := a * 0x100_0000 + b * 0x1_0000 + c * 0x100 + d;
      addr == value || addr == value - 0x1_0000_0000
    ensures addr == Signed(a, b, c, d)
  {
    assert Word(a, b) == a * 0x100 + b && Word(c, d) == c * 0x100 + d;
  }

  lemma RenderOctets(addr: Int32, a: Byte, b: Byte, c: Byte, d: Byte)
    requires Octet(addr, 0x100_0000) == a && Octet(addr, 0x1_0000) == b && Octet(addr, 0x100) == c && Octet(addr, 1) == d
    ensures Render(addr) ==
      Numeral(a, 10, false) + "." + Numeral(b, 10, false) + "." + Numeral(c, 10, false) + "." + Numeral(d, 10, false)
  {
  }

  /** Distinct addresses never print alike. */
  lemma RenderIsInjective(a: Int32, b: Int32)
    requires Render(a) == Render(b)
    ensures a == b
  {
    RenderIsInvertible(a);
    RenderIsInvertible(b);
  }
}
