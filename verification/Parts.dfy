/**
 Cutting a rendered template into files a router will take one at a time.

 A template is commands under menu headers. A header holds for the commands
 after it, but only within one file: every import starts at the root again. So
 what a text means is the list of its commands, each with the header it runs
 under, and cutting must not change that list.
 */
module Parts {
  import opened Wrappers
  import opened Text

  /** One command, and the menu header in force where it stands. */
  datatype Command = Command(header: string, text: string)

  predicate IsHeader(line: string) {
    HasPrefix(line, "/") && '=' !in line
  }

  /** The commands of some lines that start under a header. */
  function CommandsUnder(header: string, lines: seq<string>): seq<Command>
    decreases |lines|
  {
    if lines == [] then []
    else if lines[0] == "" then CommandsUnder(header, lines[1..])
    else if IsHeader(lines[0]) then CommandsUnder(lines[0], lines[1..])
    else [Command(header, lines[0])] + CommandsUnder(header, lines[1..])
  }

  /** What importing a text by itself runs. */
  function Commands(text: string): seq<Command> {
    CommandsUnder("", Split(text, '\n'))
  }

  /** What importing several texts one after the other runs. */
  function CommandsOfAll(parts: seq<string>): seq<Command> {
    if parts == [] then [] else Commands(parts[0]) + CommandsOfAll(parts[1..])
  }

  function HeaderAfter(header: string, lines: seq<string>): string
    decreases |lines|
  {
    if lines == [] then header
    else HeaderAfter(if lines[0] != "" && IsHeader(lines[0]) then lines[0] else header, lines[1..])
  }

  /**
   What one line is to the lines after it: one that opens with a slash and
   holds no equals sign is the header from there on and runs nothing; an empty
   one is nothing; any other is a command under the header in force.
   */
  lemma LineMeans(header: string, line: string, rest: seq<string>)
    ensures CommandsUnder(header, [line] + rest) ==
              if line == "" then CommandsUnder(header, rest)
              else if line[0] == '/' && forall i :: 0 <= i < |line| ==> line[i] != '=' then CommandsUnder(line, rest)
              else [Command(header, line)] + CommandsUnder(header, rest)
    ensures HeaderAfter(header, [line]) ==
              if line != "" && line[0] == '/' && (forall i :: 0 <= i < |line| ==> line[i] != '=') then line else header
  {
    assert ([line] + rest)[1..] == rest && [line][1..] == [];
    assert line != "" ==> (HasPrefix(line, "/") <==> line[0] == '/');
  }

  function TrimNewlines(s: string): string {
    if s != "" && s[|s| - 1] == '\n' then TrimNewlines(s[..|s| - 1]) else s
  }

  // ---- SplitParts -----------------------------------------------------------

  /** A line with the header it may have to be repeated under does not fit into one file. */
  predicate IsTooLong(header: string, line: string, max: int) {
    line != "" && |header| + 1 + (|line| + 1) > max
  }

  /** The file that is finished when a line does not fit into it any more. */
  function Finished(b: string, line: string, max: int): seq<string> {
    if |b| + (|line| + 1) > max then [b] else []
  }

  /** What a file holds once it has taken a line in, given what it held before. */
  function Held(b: string, header: string, line: string, max: int): string {
    (if |b| + (|line| + 1) <= max then b
     else if !IsHeader(line) && header != "" then header + "\n"
     else "") + line + "\n"
  }

  /** The files the rest of the lines make, with `b` in the one being filled. */
  function Cut(lines: seq<string>, b: string, header: string, max: int): Option<seq<string>> {
    if lines == [] then Some(if b == "" then [] else [b])
    else if lines[0] == "" then Cut(lines[1..], b, header, max)
    else if IsTooLong(header, lines[0], max) then None
    else
      Prepended(Finished(b, lines[0], max),
                Cut(lines[1..], Held(b, header, lines[0], max),
                    if IsHeader(lines[0]) then lines[0] else header, max))
  }

  function Prepended(done: seq<string>, rest: Option<seq<string>>): Option<seq<string>> {
    if rest.None? then None else Some(done + rest.value)
  }

  function Cuts(text: string, max: int): Option<seq<string>> {
    Cut(Split(TrimNewlines(text), '\n'), "", "", max)
  }

  /** One line into the file being filled, or into the next. */
  method TakeLine(done0: seq<string>, b0: string, header: string, line: string, max: int)
    returns (done: seq<string>, b: string)
    ensures done == done0 + Finished(b0, line, max)
    ensures b == Held(b0, header, line, max)
  {
    done, b := done0, b0;
    if |b| + (|line| + 1) > max {
      done, b := done + [b], "";
      if !IsHeader(line) && header != "" {
        b := header + "\n";
      }
    }
    b := b + line + "\n";
  }

  /** The first line, counted from one, that is too long for a file of its own under its header. */
  ghost predicate IsFirstTooLong(lines: seq<string>, n: nat, max: int) {
    && 1 <= n <= |lines| && IsTooLong(HeaderAfter("", lines[..n - 1]), lines[n - 1], max)
    && (forall k :: 0 <= k < n - 1 ==> !IsTooLong(HeaderAfter("", lines[..k]), lines[k], max))
  }

  /** The parts, or the number of the line the text is refused for. */
  method SplitParts(rendered: string, max: int) returns (parts: Option<seq<string>>, refused: nat)
    ensures parts == Cuts(rendered, max)
    ensures parts.None? ==> IsFirstTooLong(Split(TrimNewlines(rendered), '\n'), refused, max)
  {
    refused := 0;
    var lines := Split(TrimNewlines(rendered), '\n');
    var done: seq<string>, b, header := [], "", "";
    assert lines[0..] == lines;
    PrependedNothing(Cuts(rendered, max));
    for i := 0 to |lines|
      invariant Cuts(rendered, max) == Prepended(done, Cut(lines[i..], b, header, max))
      invariant header == HeaderAfter("", lines[..i])
      invariant forall k :: 0 <= k < i ==> !IsTooLong(HeaderAfter("", lines[..k]), lines[k], max)
    {
      var line := lines[i];
      HeaderGrows(lines, i);
      assert lines[i..][0] == line && lines[i..][1..] == lines[i + 1..];
      if line == "" {
        continue;
      }
      if |header| + 1 + (|line| + 1) > max {
        return None, i + 1;
      }
      PrependedTwice(done, Finished(b, line, max),
                     Cut(lines[i + 1..], Held(b, header, line, max), if IsHeader(line) then line else header, max));
      done, b := TakeLine(done, b, header, line, max);
      if IsHeader(line) {
        header := line;
      }
    }
    if |b| > 0 {
      return Some(done + [b]), 0;
    }
    assert done + [] == done;
    return Some(done), 0;
  }

  /** The header in force after one more line. */
  lemma HeaderGrows(lines: seq<string>, i: nat)
    requires i < |lines|
    ensures HeaderAfter("", lines[..i + 1]) ==
              if lines[i] != "" && IsHeader(lines[i]) then lines[i] else HeaderAfter("", lines[..i])
  {
    assert lines[..i + 1] == lines[..i] + [lines[i]];
    CommandsAppended("", lines[..i], [lines[i]]);
    assert [lines[i]][1..] == [];
  }

  lemma PrependedNothing(rest: Option<seq<string>>)
    ensures Prepended([], rest) == rest
  {
    if rest.Some? {
      assert [] + rest.value == rest.value;
    }
  }

  lemma PrependedTwice(a: seq<string>, b: seq<string>, rest: Option<seq<string>>)
    ensures Prepended(a, Prepended(b, rest)) == Prepended(a + b, rest)
  {
    if rest.Some? {
      assert a + (b + rest.value) == a + b + rest.value;
    }
  }

  // ---- Cutting keeps the meaning --------------------------------------------

  /** Lines written out one after the other. */
  ghost function Written(lines: seq<string>): string {
    if lines == [] then "" else Written(lines[..|lines| - 1]) + lines[|lines| - 1] + "\n"
  }

  ghost predicate AreLines(lines: seq<string>) {
    forall i :: 0 <= i < |lines| ==> lines[i] != "" && '\n' !in lines[i]
  }

  lemma {:induction false} CommandsAppended(header: string, a: seq<string>, b: seq<string>)
    ensures CommandsUnder(header, a + b) == CommandsUnder(header, a) + CommandsUnder(HeaderAfter(header, a), b)
    ensures HeaderAfter(header, a + b) == HeaderAfter(HeaderAfter(header, a), b)
    decreases |a|
  {
    if a == [] {
      assert a + b == b;
    } else {
      assert (a + b)[1..] == a[1..] + b;
      CommandsAppended(if a[0] != "" && IsHeader(a[0]) then a[0] else header, a[1..], b);
    }
  }

  /** Splitting before the last newline and after it. */
  lemma {:induction false} SplitAtEnd(s: string, t: string)
    requires '\n' !in t
    ensures Split(s + "\n" + t, '\n') == Split(s, '\n') + [t]
  {
    if s == "" {
      SplitOfCons("", t, '\n');
      SplitOfPiece(t, '\n');
      assert "" + ['\n'] + t == s + "\n" + t;
    } else {
      SplitAtEnd(s[1..], t);
      assert (s + "\n" + t)[1..] == s[1..] + "\n" + t;
    }
  }

  /** A line written after whole lines. */
  lemma {:induction false} SplitOfLine(s: string, line: string, rest: seq<string>)
    requires s == "" || s[|s| - 1] == '\n'
    requires '\n' !in line && Split(s, '\n') == rest + [""]
    ensures Split(s + line + "\n", '\n') == rest + [line] + [""]
  {
    SplitAtEnd(s + line, "");
    assert s + line + "\n" + "" == s + line + "\n";
    if s == "" {
      SplitOfPiece(line, '\n');
      assert s + line == line;
      assert |rest + [""]| == 1;
    } else {
      var u := s[..|s| - 1];
      assert s == u + "\n" + "" && s + line == u + "\n" + line;
      SplitAtEnd(u, "");
      SplitAtEnd(u, line);
      assert Split(u, '\n') == (rest + [""])[..|rest|] == rest;
    }
  }

  lemma {:induction false} SplitOfWritten(lines: seq<string>)
    requires AreLines(lines)
    ensures Split(Written(lines), '\n') == lines + [""]
  {
    if lines == [] {
      assert lines + [""] == [""];
    } else {
      var front, last := lines[..|lines| - 1], lines[|lines| - 1];
      SplitOfWritten(front);
      SplitOfLine(Written(front), last, front);
      assert lines == front + [last];
    }
  }

  /** A file holds exactly the commands of the lines written to it. */
  lemma CommandsOfWritten(lines: seq<string>)
    requires AreLines(lines)
    ensures Commands(Written(lines)) == CommandsUnder("", lines)
  {
    SplitOfWritten(lines);
    CommandsAppended("", lines, [""]);
    assert CommandsUnder(HeaderAfter("", lines), [""]) == [];
  }

  /** A file never opens without the header in force, so it runs what its lines would have run. */
  lemma {:induction false} LineTaken(held: seq<string>, header: string, line: string, max: int) returns (next: seq<string>)
    requires AreLines(held) && AreLines([line]) && HeaderAfter("", held) == header
    requires header == "" || (IsHeader(header) && '\n' !in header)
    ensures AreLines(next) && Written(next) == Held(Written(held), header, line, max)
    ensures HeaderAfter("", next) == if IsHeader(line) then line else header
    ensures CommandsOfAll(Finished(Written(held), line, max)) + CommandsUnder("", next)
            == CommandsUnder("", held) + CommandsUnder(header, [line])
  {
    assert [line][0] == line;
    if |Written(held)| + (|line| + 1) <= max {
      next := held + [line];
      assert next[..|held|] == held;
      CommandsAppended("", held, [line]);
    } else {
      CommandsOfWritten(held);
      assert [Written(held)][1..] == [];
      next := if !IsHeader(line) && header != "" then [header, line] else [line];
      OneOrTwoLines(header, line);
    }
  }

  /** The lines a file opens with. */
  lemma {:induction false} OneOrTwoLines(header: string, line: string)
    requires line != ""
    ensures Written([line]) == line + "\n"
    ensures Written([header, line]) == header + "\n" + line + "\n"
    ensures HeaderAfter("", [line]) == if IsHeader(line) then line else ""
    ensures CommandsUnder("", [line]) == CommandsUnder(header, [line]) || header != ""
    ensures IsHeader(line) ==> CommandsUnder("", [line]) == CommandsUnder(header, [line])
    ensures IsHeader(header) ==> CommandsUnder("", [header, line]) == CommandsUnder(header, [line])
    ensures IsHeader(header) ==> HeaderAfter("", [header, line]) == if IsHeader(line) then line else header
  {
    assert [header, line][..1] == [header] && [header, line][1..] == [line] && [line][1..] == [];
    assert [header][..0] == [] && [line][..0] == [];
    assert HeaderAfter(header, [line]) == if IsHeader(line) then line else header;
  }

  lemma Regroup<T>(a: seq<T>, b: seq<T>, c: seq<T>, d: seq<T>, rest: seq<T>)
    requires a + b == c + d
    ensures a + (b + rest) == c + (d + rest)
  {
    assert a + (b + rest) == a + b + rest && c + (d + rest) == c + d + rest;
  }

  /** Cutting keeps every command, in order, under the header it was under. */
  lemma {:induction false} CutKeepsCommands(lines: seq<string>, held: seq<string>, header: string, max: int)
    requires AreLines(held) && Free(lines, '\n') && HeaderAfter("", held) == header
    requires header == "" || (IsHeader(header) && '\n' !in header)
    ensures var r := Cut(lines, Written(held), header, max);
            r.Some? ==> CommandsOfAll(r.value) == CommandsUnder("", held) + CommandsUnder(header, lines)
    decreases |lines|
  {
    if lines == [] {
      CommandsOfWritten(held);
      assert [Written(held)][1..] == [];
    } else if lines[0] == "" {
      CutKeepsCommands(lines[1..], held, header, max);
    } else if !IsTooLong(header, lines[0], max) {
      var line := lines[0];
      var next := LineTaken(held, header, line, max);
      var under := if IsHeader(line) then line else header;
      CutKeepsCommands(lines[1..], next, under, max);
      var rest := Cut(lines[1..], Written(next), under, max);
      if rest.Some? {
        CommandsOfParts(Finished(Written(held), line, max), rest.value);
        CommandsAppended(header, [line], lines[1..]);
        assert [line] + lines[1..] == lines;
        assert [line][1..] == [];
        Regroup(CommandsOfAll(Finished(Written(held), line, max)), CommandsUnder("", next),
                CommandsUnder("", held), CommandsUnder(header, [line]), CommandsUnder(under, lines[1..]));
      }
    }
  }

  lemma {:induction false} CommandsOfParts(a: seq<string>, b: seq<string>)
    ensures CommandsOfAll(a + b) == CommandsOfAll(a) + CommandsOfAll(b)
  {
    if a == [] {
      assert a + b == b;
    } else {
      assert (a + b)[1..] == a[1..] + b;
      CommandsOfParts(a[1..], b);
    }
  }

  /** Newlines at the end of a text carry no command. */
  lemma {:induction false} TrimKeepsCommands(text: string)
    ensures Commands(TrimNewlines(text)) == Commands(text)
  {
    if text != "" && text[|text| - 1] == '\n' {
      var front := text[..|text| - 1];
      TrimKeepsCommands(front);
      SplitAtEnd(front, "");
      assert front + "\n" + "" == text;
      CommandsAppended("", Split(front, '\n'), [""]);
      assert CommandsUnder(HeaderAfter("", Split(front, '\n')), [""]) == [];
    }
  }

  /** Imported one after the other, the parts run exactly the commands of the text they were cut from. */
  lemma PartsKeepCommands(text: string, max: int)
    ensures Cuts(text, max).Some? ==> CommandsOfAll(Cuts(text, max).value) == Commands(text)
  {
    JoinOfSplit(TrimNewlines(text), '\n');
    CutKeepsCommands(Split(TrimNewlines(text), '\n'), [], "", max);
    TrimKeepsCommands(text);
  }

  // ---- How long the parts are, and when there are none ----------------------

  ghost predicate Fit(parts: seq<string>, max: int) {
    forall i :: 0 <= i < |parts| ==> 0 < |parts[i]| <= max
  }

  ghost predicate AllBlank(lines: seq<string>) {
    forall i :: 0 <= i < |lines| ==> lines[i] == ""
  }

  /** Some line is too long for one file, header and all. */
  ghost predicate HasTooLong(header: string, lines: seq<string>, max: int) {
    exists k :: 0 <= k < |lines| && IsTooLong(HeaderAfter(header, lines[..k]), lines[k], max)
  }

  lemma {:induction false} TooLongLater(header: string, lines: seq<string>, max: int)
    requires lines != []
    ensures HasTooLong(header, lines, max) <==>
            || IsTooLong(header, lines[0], max)
            || HasTooLong(HeaderAfter(header, lines[..1]), lines[1..], max)
  {
    assert lines[..0] == [];
    var under := HeaderAfter(header, lines[..1]);
    assert forall k :: 0 <= k < |lines| - 1 ==> lines[1..][k] == lines[k + 1];
    forall k | 0 <= k < |lines| - 1
      ensures HeaderAfter(under, lines[1..][..k]) == HeaderAfter(header, lines[..k + 1])
    {
      assert lines[..k + 1] == lines[..1] + lines[1..][..k];
      CommandsAppended(header, lines[..1], lines[1..][..k]);
    }
    if HasTooLong(under, lines[1..], max) {
      var k :| 0 <= k < |lines| - 1 && IsTooLong(HeaderAfter(under, lines[1..][..k]), lines[1..][k], max);
      assert IsTooLong(HeaderAfter(header, lines[..k + 1]), lines[k + 1], max);
    }
    if HasTooLong(header, lines, max) && !IsTooLong(header, lines[0], max) {
      var k :| 0 <= k < |lines| && IsTooLong(HeaderAfter(header, lines[..k]), lines[k], max);
      assert IsTooLong(HeaderAfter(under, lines[1..][..k - 1]), lines[1..][k - 1], max);
    }
  }

  lemma {:induction false} HeaderAfterOne(header: string, lines: seq<string>)
    requires lines != []
    ensures HeaderAfter(header, lines[..1]) == if lines[0] != "" && IsHeader(lines[0]) then lines[0] else header
  {
    assert lines[..1][1..] == [];
  }

  lemma {:induction false} CutFits(lines: seq<string>, b: string, header: string, max: int)
    requires b == "" || |b| <= max
    ensures var r := Cut(lines, b, header, max);
            && (r.None? <==> HasTooLong(header, lines, max))
            && (r.Some? ==> Fit(r.value, max) && (r.value == [] <==> b == "" && AllBlank(lines)))
    decreases |lines|
  {
    if lines != [] {
      TooLongLater(header, lines, max);
      HeaderAfterOne(header, lines);
      if lines[0] == "" {
        CutFits(lines[1..], b, header, max);
      } else if !IsTooLong(header, lines[0], max) {
        CutFits(lines[1..], Held(b, header, lines[0], max), if IsHeader(lines[0]) then lines[0] else header, max);
      }
    }
  }

  lemma {:induction false} TrimmedIsEmpty(text: string)
    ensures TrimNewlines(text) == "" <==> forall i :: 0 <= i < |text| ==> text[i] == '\n'
    ensures TrimNewlines(text) == "" || TrimNewlines(text)[|TrimNewlines(text)| - 1] != '\n'
  {
    if text != "" && text[|text| - 1] == '\n' {
      TrimmedIsEmpty(text[..|text| - 1]);
      assert forall i :: 0 <= i < |text| - 1 ==> text[..|text| - 1][i] == text[i];
    }
  }

  lemma {:induction false} BlankLines(s: string)
    requires AllBlank(Split(s, '\n'))
    ensures forall i :: 0 <= i < |s| ==> s[i] == '\n'
  {
    if s != "" {
      var rest := Split(s[1..], '\n');
      assert Split(s, '\n')[0] == "";
      assert forall i :: 0 <= i < |rest| ==> Split(s, '\n')[i + 1] == rest[i];
      BlankLines(s[1..]);
    }
  }

  /**
   Every part can be uploaded; there is none exactly when the text is nothing
   but newlines; and the text is refused exactly when some line is too long for
   a file of its own under its header.
   */
  lemma PartsFit(text: string, max: int)
    ensures var r := Cuts(text, max);
            && (r.None? <==> HasTooLong("", Split(TrimNewlines(text), '\n'), max))
            && (r.Some? ==> Fit(r.value, max))
            && (r == Some([]) <==> forall i :: 0 <= i < |text| ==> text[i] == '\n')
  {
    var trimmed := TrimNewlines(text);
    CutFits(Split(trimmed, '\n'), "", "", max);
    TrimmedIsEmpty(text);
    if AllBlank(Split(trimmed, '\n')) {
      BlankLines(trimmed);
    }
    if trimmed == "" {
      SplitOfPiece(trimmed, '\n');
      assert [trimmed][1..] == [];
    }
  }

  // ---- No part ends early ---------------------------------------------------

  /** The line a file opens with, below the header of the file before it if that had to be repeated. */
  ghost predicate OpensWith(file: string, before: string, line: string) {
    || HasPrefix(file, line + "\n")
    || (!IsHeader(line) && HeaderOf(before) != "" && HasPrefix(file, HeaderOf(before) + "\n" + line + "\n"))
  }

  /** The last header of a file. */
  ghost function HeaderOf(file: string): string {
    HeaderAfter("", Split(file, '\n'))
  }

  /** The line the next file opens with had no room in this one. */
  ghost predicate IsFull(file: string, next: string, max: int) {
    exists line :: line != "" && '\n' !in line && OpensWith(next, file, line) && |file| + |line| + 1 > max
  }

  ghost predicate AreFull(parts: seq<string>, max: int) {
    forall i :: 0 <= i < |parts| - 1 ==> IsFull(parts[i], parts[i + 1], max)
  }

  lemma HeaderOfWritten(lines: seq<string>)
    requires AreLines(lines)
    ensures HeaderOf(Written(lines)) == HeaderAfter("", lines)
  {
    SplitOfWritten(lines);
    CommandsAppended("", lines, [""]);
    assert [""][1..] == [];
  }

  /** A file that is finished, and the one after it, which takes the line in. */
  lemma FinishedIsFull(held: seq<string>, header: string, line: string, next: string, max: int)
    requires AreLines(held) && AreLines([line]) && HeaderAfter("", held) == header
    requires |Written(held)| + (|line| + 1) > max && HasPrefix(next, Held(Written(held), header, line, max))
    ensures IsFull(Written(held), next, max)
  {
    HeaderOfWritten(held);
    assert '\n' !in [line][0] && [line][0] != "";
    if !IsHeader(line) && header != "" {
      assert OpensWith(next, Written(held), line);
    } else {
      assert "" + line + "\n" == line + "\n";
      assert OpensWith(next, Written(held), line);
    }
  }

  lemma PrefixOfPrefix(s: string, p: string, q: string)
    requires HasPrefix(s, p) && HasPrefix(p, q)
    ensures HasPrefix(s, q)
  {
    assert s[..|q|] == s[..|p|][..|q|];
  }

  lemma {:induction false} CutIsFull(lines: seq<string>, held: seq<string>, header: string, max: int)
    requires AreLines(held) && Free(lines, '\n') && HeaderAfter("", held) == header
    requires header == "" || (IsHeader(header) && '\n' !in header)
    ensures var r, b := Cut(lines, Written(held), header, max), Written(held);
            r.Some? ==> AreFull(r.value, max) && (b != "" ==> r.value != [] && HasPrefix(r.value[0], b))
    decreases |lines|
  {
    if lines != [] && lines[0] == "" {
      CutIsFull(lines[1..], held, header, max);
    } else if lines != [] && !IsTooLong(header, lines[0], max) {
      var line, b := lines[0], Written(held);
      var next := LineTaken(held, header, line, max);
      var under := if IsHeader(line) then line else header;
      CutIsFull(lines[1..], next, under, max);
      var rest := Cut(lines[1..], Written(next), under, max);
      if rest.Some? {
        CutGrows(held, header, line, next, rest.value, max);
      }
    }
  }

  lemma FullGrows(b: string, rest: seq<string>, max: int)
    requires rest != [] && AreFull(rest, max) && IsFull(b, rest[0], max)
    ensures AreFull([b] + rest, max)
  {
    var r := [b] + rest;
    forall i | 0 <= i < |r| - 1
      ensures IsFull(r[i], r[i + 1], max)
    {
      if i > 0 {
        assert IsFull(rest[i - 1], rest[i - 1 + 1], max);
      }
    }
  }

  lemma CutGrows(held: seq<string>, header: string, line: string, next: seq<string>, rest: seq<string>, max: int)
    requires AreLines(held) && AreLines([line]) && HeaderAfter("", held) == header
    requires Written(next) == Held(Written(held), header, line, max) && AreFull(rest, max)
    requires rest != [] && HasPrefix(rest[0], Written(next))
    ensures var b := Written(held); var r := Finished(b, line, max) + rest;
            AreFull(r, max) && (b != "" ==> HasPrefix(r[0], b))
  {
    var b := Written(held);
    if |b| + (|line| + 1) > max {
      FinishedIsFull(held, header, line, rest[0], max);
      FullGrows(b, rest, max);
    } else {
      assert [] + rest == rest;
      PrefixOfPrefix(rest[0], Written(next), b);
    }
  }

  /** Every part takes in what it has room for: the line the next one opens with did not fit any more. */
  lemma PartsAreFull(text: string, max: int)
    ensures Cuts(text, max).Some? ==> AreFull(Cuts(text, max).value, max)
  {
    JoinOfSplit(TrimNewlines(text), '\n');
    CutIsFull(Split(TrimNewlines(text), '\n'), [], "", max);
  }
}
