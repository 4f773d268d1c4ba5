/** The configuration reader of client/parse_arguments.cpp. */
module Config {
  import opened Wire
  import opened Text

  type Options = map<string, string>

  predicate IsSpace(c: char) {
    c in {' ', '\t', '\n', '\r', 11 as char, 12 as char}
  }

  /** Everything after the leading blanks. */
  function SkipSpace(s: string): (t: string)
    ensures |t| <= |s|
  {
    if s != "" && IsSpace(s[0]) then SkipSpace(s[1..]) else s
  }

  /** The characters up to the first blank. */
  function Token(s: string): (w: string)
    ensures w <= s
  {
    if s == "" || IsSpace(s[0]) then "" else [s[0]] + Token(s[1..])
  }

  /** Extraction of a word from a string stream: at the end of the text it gives "". */
  function Extract(s: string): (r: (string, string))
  {
    var t := SkipSpace(s);
    (Token(t), t[|Token(t)|..])
  }

  predicate IsEmptyOrComment(s: string) {
    s == "" || s[0] == '#'
  }

  /** The entry a line stands for. Without `isClient` a word, the equals sign, is expected
      between key and value. */
  function EntryOf(line: string, isClient: bool): Option<(string, string)> {
    var (k, rest) := Extract(line);
    if IsEmptyOrComment(k) then None
    else
      var (equal, rest') := if isClient then ("=", rest) else Extract(rest);
      if IsEmptyOrComment(equal) then None
      else
        var (v, _) := Extract(rest');
        if IsEmptyOrComment(v) then None else Some((k, v))
  }

  /** Insertion of an entry whose key is not there yet. */
  function Emplace(opts: Options, entry: Option<(string, string)>): Options {
    match entry
    case None => opts
    case Some((k, v)) => if k in opts then opts else opts[k := v]
  }

  /** All entries of the lines, in order. */
  function Accumulate(lines: seq<string>, isClient: bool): Options {
    if lines == [] then map[]
    else Emplace(Accumulate(lines[..|lines| - 1], isClient), EntryOf(lines[|lines| - 1], isClient))
  }

  /** The left map, extended by the keys that are new in the right one. */
  function Extend(left: Options, right: Options): (m: Options)
    ensures m.Keys == left.Keys + right.Keys
    ensures forall k <- left :: m[k] == left[k]
    ensures forall k <- right :: k !in left ==> m[k] == right[k]
  {
    right + left
  }

  function ParseText(text: string, isClient: bool): Options {
    Accumulate(Split(text, '\n'), isClient)
  }

  lemma EmplaceExtend(a: Options, b: Options, entry: Option<(string, string)>)
    ensures Emplace(Extend(a, b), entry) == Extend(a, Emplace(b, entry))
  {
  }

  lemma {:induction false} AccumulateAppend(xs: seq<string>, ys: seq<string>, isClient: bool)
    ensures Accumulate(xs + ys, isClient) == Extend(Accumulate(xs, isClient), Accumulate(ys, isClient))
  {
    if ys == [] {
      assert xs + ys == xs;
    } else {
      var k := |ys| - 1;
      AccumulateAppend(xs, ys[..k], isClient);
      assert (xs + ys)[..|xs + ys| - 1] == xs + ys[..k];
      EmplaceExtend(Accumulate(xs, isClient), Accumulate(ys[..k], isClient), EntryOf(ys[k], isClient));
    }
  }

  /** A file followed on a new line by another: the first one's entries, extended with the
      keys that are new in the second. */
  lemma ParseIsHomomorphism(a: string, b: string, isClient: bool)
    ensures ParseText(a + "\n" + b, isClient) == Extend(ParseText(a, isClient), ParseText(b, isClient))
  {
    SplitAppend(a, b, '\n');
    AccumulateAppend(Split(a, '\n'), Split(b, '\n'), isClient);
  }

  /** The value on the first line that has an entry for `k`, searching from the top. */
  function FirstValue(lines: seq<string>, isClient: bool, k: string): Option<string> {
    if lines == [] then None
    else
      match EntryOf(lines[0], isClient)
      case Some((key, v)) => if key == k then Some(v) else FirstValue(lines[1..], isClient, k)
      case None => FirstValue(lines[1..], isClient, k)
  }

  lemma AccumulateOne(line: string, isClient: bool)
    ensures Accumulate([line], isClient) == Emplace(map[], EntryOf(line, isClient))
  {
    assert [line][..0] == [];
  }

  /** Each key takes its first valid line; a key without one is absent. */
  lemma {:induction false} FirstLineWins(lines: seq<string>, isClient: bool, k: string)
    ensures
      var opts := Accumulate(lines, isClient);
      FirstValue(lines, isClient, k) == if k in opts then Some(opts[k]) else None
  {
    if lines != [] {
      FirstLineWins(lines[1..], isClient, k);
      AccumulateAppend([lines[0]], lines[1..], isClient);
      AccumulateOne(lines[0], isClient);
      assert [lines[0]] + lines[1..] == lines;
    }
  }

  /** The words of a line. */
  function Words(s: string): (ws: seq<string>)
    ensures forall w <- ws :: w != ""
    decreases |s|
  {
    var (w, rest) := Extract(s);
    if w == "" then [] else [w] + Words(rest)
  }

  /** The six blanks of the C locale: space, tab, line feed, vertical tab, form feed and
      carriage return. */
  predicate Blank(c: char) {
    c as int in {32, 9, 10, 11, 12, 13}
  }

  /** A word between blanks. */
  lemma WordsOfOne(b: string, w: string, s: string)
    requires (forall c <- b :: Blank(c)) && (forall c <- w :: !Blank(c)) && w != ""
    requires s == "" || Blank(s[0])
    ensures Words(b + w + s) == [w] + Words(s)
  {
    SkipBlanks(b, w + s);
    TokenOf(w, s);
    assert b + w + s == b + (w + s) && (w + s)[|w|..] == s;
  }

  /** Blanks alone are no words. */
  lemma WordsOfBlanks(b: string)
    requires forall c <- b :: Blank(c)
    ensures Words(b) == []
  {
    SkipBlanks(b, "");
    assert b + "" == b;
  }

  lemma {:induction false} SkipBlanks(b: string, s: string)
    requires (forall c <- b :: Blank(c)) && (s == "" || !Blank(s[0]))
    ensures SkipSpace(b + s) == s
  {
    if b == "" {
      assert b + s == s;
      assert s != "" ==> IsSpace(s[0]) == Blank(s[0]);
    } else {
      assert IsSpace(b[0]) == Blank(b[0]) && b[0] in b;
      assert (b + s)[0] == b[0] && (b + s)[1..] == b[1..] + s;
      SkipBlanks(b[1..], s);
    }
  }

  lemma {:induction false} TokenOf(w: string, s: string)
    requires (forall c <- w :: !Blank(c)) && (s == "" || Blank(s[0]))
    ensures Token(w + s) == w
  {
    if w == "" {
      assert w + s == s;
      assert s != "" ==> IsSpace(s[0]) == Blank(s[0]);
    } else {
      assert IsSpace(w[0]) == Blank(w[0]) && w[0] in w;
      assert (w + s)[0] == w[0] && (w + s)[1..] == w[1..] + s;
      TokenOf(w[1..], s);
    }
  }

  /** The number of words that an entry needs. */
  function Needed(isClient: bool): nat {
    if isClient then 2 else 3
  }

  /** A line is short, or one of the words an entry needs starts a comment. */
  predicate ShortOrComment(ws: seq<string>, isClient: bool) {
    |ws| < Needed(isClient) || exists i :: 0 <= i < Needed(isClient) && "#" <= ws[i]
  }

  /** The entry of a line, from its words: none when there are fewer than two, or three
      for the server, or one of these starts with the comment sign; else the first word is
      the key, and the second, or for the server the third, is the value. */
  lemma EntryIs(line: string, isClient: bool)
    ensures
      var ws := Words(line);
      EntryOf(line, isClient) ==
        if isClient then
          if |ws| < 2 || "#" <= ws[0] || "#" <= ws[1] then None else Some((ws[0], ws[1]))
        else
          if |ws| < 3 || "#" <= ws[0] || "#" <= ws[1] || "#" <= ws[2] then None else Some((ws[0], ws[2]))
  {
    var (a, afterA) := Extract(line);
    var (b, afterB) := Extract(afterA);
    var (c, _) := Extract(afterB);
    WordsOf(line);
    WordsOf(afterA);
    WordsOf(afterB);
    IsComment(a);
    IsComment(b);
    IsComment(c);
  }

  /** These lines have no entry, and all others have one. */
  lemma NoEntryIff(line: string, isClient: bool)
    ensures EntryOf(line, isClient).None? <==> ShortOrComment(Words(line), isClient)
  {
    EntryIs(line, isClient);
    FirstWords(Words(line), isClient);
  }

  lemma FirstWords(ws: seq<string>, isClient: bool)
    ensures ShortOrComment(ws, isClient) <==>
      |ws| < Needed(isClient) || "#" <= ws[0] || "#" <= ws[1] || (!isClient && "#" <= ws[2])
  {
  }

  lemma WordsOf(s: string)
    ensures
      var (w, rest) := Extract(s);
      Words(s) == if w == "" then [] else [w] + Words(rest)
  {
  }

  lemma IsComment(w: string)
    ensures IsEmptyOrComment(w) <==> w == "" || "#" <= w
  {
  }

  /** A comment or a short line never matters, wherever it stands. */
  lemma SkippedLine(xs: seq<string>, line: string, ys: seq<string>, isClient: bool)
    requires ShortOrComment(Words(line), isClient)
    ensures Accumulate(xs + [line] + ys, isClient) == Accumulate(xs + ys, isClient)
  {
    NoEntryIff(line, isClient);
    AccumulateAppend(xs + [line], ys, isClient);
    AccumulateAppend(xs, ys, isClient);
    assert (xs + [line])[..|xs|] == xs;
  }

  /** The input file: reading a line at the end of the text sets `eof`, and `fail` when
      nothing at all could be read. */
  class InputStream {
    var rest: string
    var eof: bool
    var fail: bool

    constructor (text: string)
      ensures rest == text && !eof && !fail
    {
      rest, eof, fail := text, false, false;
    }

    method GetLine() returns (line: string)
      modifies this
      ensures old(eof || fail) ==> fail && line == "" && eof == old(eof) && rest == old(rest)
      ensures !old(eof || fail) ==> line == UpTo(old(rest), '\n')
      ensures !old(eof || fail) && |line| < |old(rest)| ==> rest == old(rest)[|line| + 1..] && !eof && !fail
      ensures !old(eof || fail) && |line| == |old(rest)| ==> rest == "" && eof && (fail <==> line == "")
      ensures !old(eof) && !old(fail) ==> LinesLeft(old(rest), false) == [line] + LinesLeft(rest, eof)
    {
      line := "";
      if eof || fail {
        fail := true;
        return;
      }
      line := UpTo(rest, '\n');
      if |line| < |rest| {
        rest := rest[|line| + 1..];
      } else {
        rest, eof, fail := "", true, line == "";
      }
    }
  }

  /** The lines still to come from a stream in this state. */
  function LinesLeft(rest: string, eof: bool): seq<string> {
    if eof then [] else Split(rest, '\n')
  }

  /** The entries so far, and those that the lines still to come add to them. */
  ghost predicate Reading(text: string, seen: seq<string>, left: seq<string>, opts: Options, isClient: bool) {
    && opts == Accumulate(seen, isClient)
    && Accumulate(seen + left, isClient) == ParseText(text, isClient)
  }

  lemma ReadingStarts(text: string, isClient: bool)
    ensures Reading(text, [], LinesLeft(text, false), map[], isClient)
  {
    assert [] + Split(text, '\n') == Split(text, '\n');
  }

  lemma ReadingEnds(text: string, seen: seq<string>, opts: Options, isClient: bool)
    requires Reading(text, seen, [], opts, isClient)
    ensures opts == ParseText(text, isClient)
  {
    assert seen + [] == seen;
  }

  /** The loop over the lines of the file; it runs once more after the last line, which
      changes nothing. Client defaults are added where the file has no entry. */
  method ParseArguments(text: string, isClient: bool, defaults: Options) returns (opts: Options)
    ensures opts == if isClient then Extend(ParseText(text, isClient), defaults) else ParseText(text, isClient)
  {
    opts := ParseLines(text, isClient);
    if isClient {
      opts := AddDefaults(opts, defaults);
    }
  }

  method ParseLines(text: string, isClient: bool) returns (opts: Options)
    ensures opts == ParseText(text, isClient)
  {
    var ifs := new InputStream(text);
    ghost var seen: seq<string> := [];
    opts := map[];
    ReadingStarts(text, isClient);
    while !ifs.fail
      invariant fresh(ifs)
      invariant ifs.fail ==> ifs.eof
      invariant Reading(text, seen, LinesLeft(ifs.rest, ifs.eof), opts, isClient)
      decreases !ifs.fail, !ifs.eof, |ifs.rest|
    {
      ghost var rest, left := ifs.rest, LinesLeft(ifs.rest, ifs.eof);
      var line := ifs.GetLine();
      LineTurn(text, seen, line, left, LinesLeft(ifs.rest, ifs.eof), opts, isClient);
      seen := seen + [line];
      opts := InsertLine(opts, line, isClient);
    }
    ReadingEnds(text, seen, opts, isClient);
  }

  /** One turn of the loop, after the line is read. */
  method InsertLine(opts: Options, line: string, isClient: bool) returns (all: Options)
    ensures all == Emplace(opts, EntryOf(line, isClient))
  {
    all := opts;
    var (k, after) := Extract(line);
    if IsEmptyOrComment(k) { return; }
    if !isClient {
      var (equal, after') := Extract(after);
      if IsEmptyOrComment(equal) { return; }
      after := after';
    }
    var (v, _) := Extract(after);
    if IsEmptyOrComment(v) { return; }
    if k !in all {
      all := all[k := v];
    }
  }

  /** A line is taken from those still to come, or there are none and it is blank. */
  lemma LineTurn(text: string, seen: seq<string>, line: string, left: seq<string>, left': seq<string>,
                 opts: Options, isClient: bool)
    requires left == [line] + left' || (line == "" && left == left' == [])
    requires Reading(text, seen, left, opts, isClient)
    ensures Reading(text, seen + [line], left', Emplace(opts, EntryOf(line, isClient)), isClient)
  {
    assert (seen + [line])[..|seen|] == seen;
    if left == [] {
      SkippedLine(seen, "", [], isClient);
    } else {
      Assoc(seen, [line], left');
    }
  }

  lemma DefaultTurn(opts: Options, defaults: Options, k: string)
    requires k in defaults
    ensures Extend(Emplace(opts, Some((k, defaults[k]))), defaults) == Extend(opts, defaults)
  {
  }

  lemma NothingNew(opts: Options, defaults: Options)
    requires forall k <- defaults :: k in opts
    ensures Extend(opts, defaults) == opts
  {
  }

  /** Insertion of every default, in any order. */
  method AddDefaults(opts: Options, defaults: Options) returns (all: Options)
    ensures all == Extend(opts, defaults)
  {
    all := opts;
    var left := defaults.Keys;
    while left != {}
      invariant left <= defaults.Keys
      invariant forall k <- defaults :: k in left || k in all
      invariant Extend(all, defaults) == Extend(opts, defaults)
      decreases |left|
    {
      var k :| k in left;
      DefaultTurn(all, defaults, k);
      all := Emplace(all, Some((k, defaults[k])));
      left := left - {k};
    }
    NothingNew(all, defaults);
  }
}
