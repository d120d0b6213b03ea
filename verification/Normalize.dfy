/**
 What a configuration export is compared as: its lines, with the header that
 changes on every run taken off.
 */
module Normalize {
  import opened Text
  import opened Digits

  /** The header RouterOS rewrites on every export: 9 stands for any digit. */
  const HEADER_SHAPE := TIME_SHAPE + BY
  const TIME_SHAPE := "# 9999-99-99 99:99:99"
  const BY := " by RouterOS "

  predicate FitsShape(s: string, shape: string)
    requires |s| == |shape|
  {
    forall i :: 0 <= i < |s| ==> if shape[i] == '9' then '0' <= s[i] <= '9' else s[i] == shape[i]
  }

  predicate IsVolatileHeader(line: string) {
    && |HEADER_SHAPE| <= |line|
    && FitsShape(line[..|HEADER_SHAPE|], HEADER_SHAPE)
    && '\n' !in line[|HEADER_SHAPE|..]
  }

  /** Both foreign line endings turned into the plain one. */
  function UnifyEndings(text: string): string {
    ReplaceAll(ReplaceAll(text, "\r\n", "\n"), "\r", "\n")
  }

  function DropHeader(lines: seq<string>): seq<string> {
    if |lines| > 0 && IsVolatileHeader(lines[0]) then lines[1..] else lines
  }

  function DropTrailingEmpty(lines: seq<string>): seq<string> {
    if |lines| > 0 && lines[|lines| - 1] == "" then lines[..|lines| - 1] else lines
  }

  function NormalizeLines(text: string): seq<string> {
    DropTrailingEmpty(DropHeader(Split(UnifyEndings(text), '\n')))
  }

  function NormalizeText(text: string): string {
    Join(NormalizeLines(text), '\n')
  }

  /** No normalised line holds a line ending of either kind. */
  lemma LinesAreClean(text: string)
    ensures Free(NormalizeLines(text), '\n')
    ensures '\r' !in NormalizeText(text)
  {
    JoinOfSplit(UnifyEndings(text), '\n');
    var lines := Split(UnifyEndings(text), '\n');
    ReplaceAllOfChar(ReplaceAll(text, "\r\n", "\n"), '\r', "\n");
    forall i | 0 <= i < |lines|
      ensures '\r' !in lines[i]
    {
      JoinHolds(lines, '\n', i, '\r');
    }
    JoinAvoids(NormalizeLines(text), '\n', '\r');
  }

  lemma {:induction false} JoinHolds(pieces: seq<string>, sep: char, i: nat, c: char)
    requires i < |pieces| && c !in Join(pieces, sep)
    ensures c !in pieces[i]
  {
    if |pieces| > 1 && i > 0 {
      JoinHolds(pieces[1..], sep, i - 1, c);
    }
  }

  lemma {:induction false} JoinAvoids(pieces: seq<string>, sep: char, c: char)
    requires c != sep && Free(pieces, c)
    ensures c !in Join(pieces, sep)
  {
    if |pieces| > 1 {
      JoinAvoids(pieces[1..], sep, c);
    }
  }

  /** Different normalised lines give different texts, but for no line at all against one empty line. */
  lemma TextTellsLinesApart(was: string, now: string)
    ensures NormalizeText(was) == NormalizeText(now) <==>
            || NormalizeLines(was) == NormalizeLines(now)
            || (NormalizeLines(was) == [] && NormalizeLines(now) == [""])
            || (NormalizeLines(was) == [""] && NormalizeLines(now) == [])
  {
    LinesAreClean(was);
    LinesAreClean(now);
    JoinIsAlmostInjective(NormalizeLines(was), NormalizeLines(now), '\n');
  }

  // ---- The header, as an export writes it -----------------------------------

  datatype ExportTime = ExportTime(year: int, month: int, day: int, hour: int, minute: int, second: int)

  /** Each field has room: the year in four digits, the others in two. */
  ghost predicate IsExportTime(t: ExportTime) {
    && 0 <= t.year < 10000 && 0 <= t.month < 100 && 0 <= t.day < 100
    && 0 <= t.hour < 100 && 0 <= t.minute < 100 && 0 <= t.second < 100
  }

  /** The time of an export, as its first line begins. */
  ghost function TimeText(t: ExportTime): string
    requires IsExportTime(t)
  {
    "# " + (Four(t.year) + ("-" + (Two(t.month) + ("-" + (Two(t.day) + (" " + (
      Two(t.hour) + (":" + (Two(t.minute) + (":" + Two(t.second)))))))))))
  }

  /** The whole of that line: the time, the maker, and the rest, which is the version and whatever follows it. */
  ghost function HeaderLine(t: ExportTime, rest: string): string
    requires IsExportTime(t)
  {
    TimeText(t) + " by RouterOS " + rest
  }

  ghost predicate IsWritten(line: string) {
    exists t, rest :: IsExportTime(t) && '\n' !in rest && line == HeaderLine(t, rest)
  }

  /** Where each field of a time is. */
  lemma TimeLayout(t: ExportTime)
    requires IsExportTime(t)
    ensures var r := TimeText(t);
            && |r| == 21 && r[0] == '#' && r[1] == ' ' && r[6] == '-' && r[9] == '-' && r[12] == ' '
            && r[15] == ':' && r[18] == ':'
            && r[2] == Two(t.year / 100)[0] && r[3] == Two(t.year / 100)[1]
            && r[4] == Two(t.year % 100)[0] && r[5] == Two(t.year % 100)[1]
            && r[7] == Two(t.month)[0] && r[8] == Two(t.month)[1]
            && r[10] == Two(t.day)[0] && r[11] == Two(t.day)[1]
            && r[13] == Two(t.hour)[0] && r[14] == Two(t.hour)[1]
            && r[16] == Two(t.minute)[0] && r[17] == Two(t.minute)[1]
            && r[19] == Two(t.second)[0] && r[20] == Two(t.second)[1]
  {
  }

  /** The separators of a time, and digits everywhere else. */
  ghost predicate IsTimeText(s: string) {
    && |s| == 21 && s[0] == '#' && s[1] == ' ' && s[6] == '-' && s[9] == '-' && s[12] == ' ' && s[15] == ':' && s[18] == ':'
    && IsDigit(s[2]) && IsDigit(s[3]) && IsDigit(s[4]) && IsDigit(s[5]) && IsDigit(s[7]) && IsDigit(s[8])
    && IsDigit(s[10]) && IsDigit(s[11]) && IsDigit(s[13]) && IsDigit(s[14]) && IsDigit(s[16]) && IsDigit(s[17])
    && IsDigit(s[19]) && IsDigit(s[20])
  }

  lemma TimeShape(s: string)
    requires |s| == 21
    ensures FitsShape(s, TIME_SHAPE) <==> IsTimeText(s)
  {
    var p := TIME_SHAPE;
    assert p[0] == '#' && p[1] == ' ' && p[6] == '-' && p[9] == '-' && p[12] == ' ' && p[15] == ':' && p[18] == ':';
    assert p[2] == p[3] == p[4] == p[5] == p[7] == p[8] == p[10] == p[11] == '9';
    assert p[13] == p[14] == p[16] == p[17] == p[19] == p[20] == '9';
  }

  lemma WrittenTime(t: ExportTime)
    requires IsExportTime(t)
    ensures IsTimeText(TimeText(t))
  {
    TimeLayout(t);
    TwoReads(t.year / 100);
    TwoReads(t.year % 100);
    TwoReads(t.month);
    TwoReads(t.day);
    TwoReads(t.hour);
    TwoReads(t.minute);
    TwoReads(t.second);
  }

  /** Fields read off a text that looks like a time. */
  lemma TimeReads(s: string) returns (t: ExportTime)
    requires IsTimeText(s)
    ensures IsExportTime(t) && TimeText(t) == s
  {
    ValueIsWritten(s, 2);
    ValueIsWritten(s, 4);
    ValueIsWritten(s, 7);
    ValueIsWritten(s, 10);
    ValueIsWritten(s, 13);
    ValueIsWritten(s, 16);
    ValueIsWritten(s, 19);
    HundredsOf(Value2(s, 2), Value2(s, 4));
    t := ExportTime(Value2(s, 2) * 100 + Value2(s, 4), Value2(s, 7), Value2(s, 10), Value2(s, 13), Value2(s, 16),
                    Value2(s, 19));
    TimeLayout(t);
    SameTime(TimeText(t), s);
  }

  lemma SameTime(r: string, s: string)
    requires |r| == |s| == 21
    requires r[0] == s[0] && r[1] == s[1] && r[2] == s[2] && r[3] == s[3] && r[4] == s[4] && r[5] == s[5] && r[6] == s[6]
    requires r[7] == s[7] && r[8] == s[8] && r[9] == s[9] && r[10] == s[10] && r[11] == s[11] && r[12] == s[12]
    requires r[13] == s[13] && r[14] == s[14] && r[15] == s[15] && r[16] == s[16] && r[17] == s[17] && r[18] == s[18]
    requires r[19] == s[19] && r[20] == s[20]
    ensures r == s
  {
  }

  lemma FitsByParts(s: string, t: string, p: string, q: string)
    requires |s| == |p| && |t| == |q|
    ensures FitsShape(s + t, p + q) <==> FitsShape(s, p) && FitsShape(t, q)
  {
    assert forall i :: 0 <= i < |s| ==> (s + t)[i] == s[i] && (p + q)[i] == p[i];
    assert forall i :: 0 <= i < |t| ==> (s + t)[|s| + i] == t[i] && (p + q)[|s| + i] == q[i];
  }

  lemma ByIsItself(s: string)
    requires |s| == |BY|
    ensures FitsShape(s, BY) <==> s == " by RouterOS "
  {
    assert forall i :: 0 <= i < |BY| ==> BY[i] != '9';
  }

  /** A first line is dropped for exactly these: a date and a time, " by RouterOS ", and any text. */
  lemma HeaderExactlyWhen(line: string)
    ensures IsVolatileHeader(line) <==> IsWritten(line)
  {
    if IsVolatileHeader(line) {
      var time, made, rest := line[..21], line[21..34], line[34..];
      assert line[..34] == time + made && line == time + made + rest;
      FitsByParts(time, made, TIME_SHAPE, BY);
      TimeShape(time);
      ByIsItself(made);
      var t := TimeReads(time);
      assert line == HeaderLine(t, rest);
    }
    if IsWritten(line) {
      var t, rest :| IsExportTime(t) && '\n' !in rest && line == HeaderLine(t, rest);
      var time := TimeText(t);
      WrittenTime(t);
      assert line[..34] == time + BY && line[34..] == rest;
      FitsByParts(time, BY, TIME_SHAPE, BY);
      TimeShape(time);
      ByIsItself(BY);
    }
  }

  /** The header and its newline leave nothing of a text: not its time, nor the version that wrote it. */
  lemma HeaderDoesNotShow(t1: ExportTime, rest1: string, t2: ExportTime, rest2: string, body: string)
    requires IsExportTime(t1) && IsExportTime(t2)
    requires '\n' !in rest1 && '\r' !in rest1 && '\n' !in rest2 && '\r' !in rest2
    ensures NormalizeLines(HeaderLine(t1, rest1) + "\n" + body) == NormalizeLines(HeaderLine(t2, rest2) + "\n" + body)
            == DropTrailingEmpty(RawLines(body))
  {
    WrittenIsOneLine(t1, rest1);
    WrittenIsOneLine(t2, rest2);
    LineBefore(HeaderLine(t1, rest1), body);
    LineBefore(HeaderLine(t2, rest2), body);
  }

  /** Any other first line stays. */
  lemma OtherFirstLineStays(line: string, body: string)
    requires '\n' !in line && '\r' !in line && !IsWritten(line)
    ensures NormalizeLines(line + "\n" + body) == [line] + DropTrailingEmpty(RawLines(body))
  {
    HeaderExactlyWhen(line);
    LineBefore(line, body);
  }

  lemma WrittenIsOneLine(t: ExportTime, rest: string)
    requires IsExportTime(t) && '\n' !in rest && '\r' !in rest
    ensures var line := HeaderLine(t, rest); IsVolatileHeader(line) && '\n' !in line && '\r' !in line
  {
    var line := HeaderLine(t, rest);
    HeaderExactlyWhen(line);
    WrittenTime(t);
    TimeHasNoEnding(TimeText(t));
  }

  lemma TimeHasNoEnding(s: string)
    requires IsTimeText(s)
    ensures '\n' !in s && '\r' !in s
  {
    TimeShape(s);
    forall i | 0 <= i < |s|
      ensures s[i] != '\n' && s[i] != '\r'
    {
      assert TIME_SHAPE[i] in TIME_SHAPE;
    }
  }

  /** A text with one more line before it. */
  lemma LineBefore(line: string, body: string)
    requires '\n' !in line && '\r' !in line
    ensures RawLines(line + "\n" + body) == [line] + RawLines(body)
  {
    var once := ReplaceAll(body, "\r\n", "\n");
    ReplaceAllPasses(line + "\n", body, "\r\n", "\n");
    ReplaceAllPasses(line + "\n", once, "\r", "\n");
    assert UnifyEndings(line + "\n" + body) == line + "\n" + UnifyEndings(body);
    SplitOfCons(line, UnifyEndings(body), '\n');
  }

  /**
   The same lines under either of the three line endings are the same: all of
   them but a header that comes first and then an empty line that comes last.
   */
  lemma EndingsDoNotShow(lines: seq<string>, sep: string)
    requires lines != [] && Free(lines, '\n') && Free(lines, '\r') && sep in {"\n", "\r", "\r\n"}
    ensures RawLines(JoinWith(lines, sep)) == lines
    ensures var body := if IsWritten(lines[0]) then lines[1..] else lines;
            NormalizeLines(JoinWith(lines, sep)) ==
              if body != [] && body[|body| - 1] == "" then body[..|body| - 1] else body
  {
    HeaderExactlyWhen(lines[0]);
    SplitOfJoin(lines, '\n');
    JoinAvoids(lines, '\n', '\r');
    UnifyPlain(Join(lines, '\n'));
    if sep == "\n" {
      JoinWithIsJoin(lines, '\n');
    } else if sep == "\r" {
      JoinWithIsJoin(lines, '\r');
      JoinAvoids(lines, '\r', '\n');
      NothingReplaced(JoinWith(lines, sep), "\r\n", "\n");
      ReplaceSeparator(lines, sep, '\n');
    } else {
      ReplaceSeparator(lines, sep, '\n');
      NothingLeft(Join(lines, '\n'));
    }
  }

  lemma NothingLeft(s: string)
    requires '\r' !in s
    ensures ReplaceAll(s, "\r", "\n") == s
  {
    ReplaceAllPasses(s, "", "\r", "\n");
    assert s + "" == s;
  }

  // ---- When normalising twice is the same as once ---------------------------

  lemma {:induction false} UnifyPlain(s: string)
    requires '\r' !in s
    ensures UnifyEndings(s) == s
  {
    ReplaceAllPasses(s, "", "\r\n", "\n");
    ReplaceAllPasses(s, "", "\r", "\n");
    assert s + "" == s;
  }

  lemma {:induction false} JoinLength(pieces: seq<string>, sep: char)
    ensures pieces != [] ==> |Join(pieces, sep)| >= |pieces| - 1
    ensures |pieces| > 1 ==> |Join(pieces, sep)| == |pieces[0]| + 1 + |Join(pieces[1..], sep)|
  {
    if |pieces| > 1 {
      JoinLength(pieces[1..], sep);
    }
  }

  /** Normalising keeps a list of lines as it is unless it begins with a header or ends with an empty line. */
  lemma NormalizeAgain(text: string)
    ensures var lines := NormalizeLines(text);
            var again := NormalizeLines(NormalizeText(text));
            again == DropTrailingEmpty(DropHeader(if lines == [] then [""] else lines))
  {
    var lines := NormalizeLines(text);
    LinesAreClean(text);
    UnifyPlain(NormalizeText(text));
    if lines != [] {
      SplitOfJoin(lines, '\n');
    }
  }

  /** In terms of what one pass leaves: nothing, an empty line, or nothing more to take off at either end. */
  lemma IdempotentByResult(text: string)
    ensures var lines := NormalizeLines(text);
            NormalizeText(NormalizeText(text)) == NormalizeText(text) <==>
            lines == [] || lines == [""] || (!IsVolatileHeader(lines[0]) && lines[|lines| - 1] != "")
  {
    var lines := NormalizeLines(text);
    NormalizeAgain(text);
    LinesAreClean(text);
    LinesAreClean(NormalizeText(text));
    if lines != [] {
      var again := NormalizeLines(NormalizeText(text));
      JoinIsAlmostInjective(lines, again, '\n');
      if again == lines {
        assert |DropHeader(lines)| == |lines|;
      }
    }
  }

  /** The lines of a text, every line ending taken for the plain one. */
  function RawLines(text: string): (lines: seq<string>)
    ensures lines != []
  {
    Split(UnifyEndings(text), '\n')
  }

  /** Right after a leading header comes another. */
  predicate HasSecondHeader(lines: seq<string>) {
    |lines| > 1 && IsVolatileHeader(lines[0]) && IsVolatileHeader(lines[1])
  }

  /** Without a leading header there are more than two lines, and the last two are empty. */
  predicate HasSecondBlank(lines: seq<string>) {
    var body := DropHeader(lines);
    |body| > 2 && body[|body| - 1] == "" && body[|body| - 2] == ""
  }

  lemma HeaderIsNotEmpty(line: string)
    requires IsVolatileHeader(line)
    ensures line != ""
  {
  }

  lemma ResultFromRaw(raw: seq<string>)
    requires raw != []
    ensures var lines := DropTrailingEmpty(DropHeader(raw));
            (lines == [] || lines == [""] || (!IsVolatileHeader(lines[0]) && lines[|lines| - 1] != "")) <==>
            !HasSecondHeader(raw) && !HasSecondBlank(raw)
  {
    var body := DropHeader(raw);
    if body != [] && IsVolatileHeader(body[0]) {
      HeaderIsNotEmpty(body[0]);
    }
  }

  /**
   Normalising is not idempotent on every text, because it takes off one header
   and one trailing empty line only. It is exactly for the texts without a
   second header right after a leading one and without a second empty line at
   the end, unless those two empty lines are all there is.
   */
  lemma IdempotentExactlyWhen(text: string)
    ensures NormalizeText(NormalizeText(text)) == NormalizeText(text) <==>
            !HasSecondHeader(RawLines(text)) && !HasSecondBlank(RawLines(text))
  {
    IdempotentByResult(text);
    ResultFromRaw(RawLines(text));
  }

  /** Two headers one after the other: the second survives the first pass and not the second. */
  lemma SecondHeaderSurvivesOnce(h: string)
    requires IsVolatileHeader(h) && '\r' !in h && '\n' !in h
    ensures NormalizeText(NormalizeText(h + "\n" + h)) != NormalizeText(h + "\n" + h)
  {
    LineBefore(h, h);
    UnifyPlain(h);
    SplitOfPiece(h, '\n');
    IdempotentByResult(h + "\n" + h);
  }

  lemma ShapeIsAHeader()
    ensures IsVolatileHeader(HEADER_SHAPE) && '\r' !in HEADER_SHAPE && '\n' !in HEADER_SHAPE
  {
    assert HEADER_SHAPE[..|HEADER_SHAPE|] == HEADER_SHAPE;
  }

  lemma NotIdempotent()
    ensures exists text :: NormalizeText(NormalizeText(text)) != NormalizeText(text)
  {
    ShapeIsAHeader();
    SecondHeaderSurvivesOnce(HEADER_SHAPE);
  }
}
