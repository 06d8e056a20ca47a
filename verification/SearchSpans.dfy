/**
 * The text search of the sidecar (crates/volund-search/src/main.rs:111-147). A character stands for a byte; what the
 * pattern finds in a line is an arbitrary list of ranges inside that line.
 */
module SearchSpans {

  /** `listed` says that the walk yields the file, it matches the glob, and it can be read as UTF-8. */
  datatype File = File(path: string, text: string, listed: bool)

  datatype Range = Range(start: nat, end: nat)

  datatype Match = Match(path: string, lineNumber: nat, line: string, start: nat, end: nat)

  type Finder = string -> seq<Range>

  const SNIFFED: nat := 8192

  predicate Searched(f: File) {
    f.listed && forall i :: 0 <= i < |f.text| && i < SNIFFED ==> f.text[i] != '\0'
  }

  function SplitLines(text: string): (lines: seq<string>)
    ensures lines != []
  {
    if text == [] then [""]
    else
      var rest := SplitLines(text[1..]);
      if text[0] == '\n' then [""] + rest else [[text[0]] + rest[0]] + rest[1..]
  }

  function Stripped(raw: string): (line: string)
    ensures line <= raw && |raw| <= |line| + 1
  {
    if raw != [] && raw[|raw| - 1] == '\r' then raw[..|raw| - 1] else raw
  }

  /** Where raw line `i` starts, a line feed after each line before it. */
  function OffsetOf(lines: seq<string>, i: nat): nat
    requires i <= |lines|
  {
    if i == 0 then 0 else OffsetOf(lines, i - 1) + |lines[i - 1]| + 1
  }

  // ---- The unlimited search ----

  function MatchOf(path: string, lines: seq<string>, i: nat, found: Range): Match
    requires i < |lines|
  {
    Match(path, i + 1, Stripped(lines[i]), OffsetOf(lines, i) + found.start, OffsetOf(lines, i) + found.end)
  }

  /** The first `k` matches in line `i`. */
  function InLine(path: string, lines: seq<string>, i: nat, finds: seq<Range>, k: nat): seq<Match>
    requires i < |lines| && k <= |finds|
  {
    if k == 0 then [] else InLine(path, lines, i, finds, k - 1) + [MatchOf(path, lines, i, finds[k - 1])]
  }

  function WholeLine(path: string, lines: seq<string>, i: nat, finder: Finder): seq<Match>
    requires i < |lines|
  {
    var finds := finder(Stripped(lines[i]));
    InLine(path, lines, i, finds, |finds|)
  }

  /** The matches in the first `n` lines. */
  function InLines(path: string, lines: seq<string>, n: nat, finder: Finder): seq<Match>
    requires n <= |lines|
  {
    if n == 0 then [] else InLines(path, lines, n - 1, finder) + WholeLine(path, lines, n - 1, finder)
  }

  function InFile(f: File, finder: Finder): seq<Match> {
    if Searched(f) then InLines(f.path, SplitLines(f.text), |SplitLines(f.text)|, finder) else []
  }

  function InFiles(files: seq<File>, n: nat, finder: Finder): seq<Match>
    requires n <= |files|
  {
    if n == 0 then [] else InFiles(files, n - 1, finder) + InFile(files[n - 1], finder)
  }

  lemma {:induction false} LinePrefix(path: string, lines: seq<string>, i: nat, finds: seq<Range>, k: nat)
    requires i < |lines| && k <= |finds|
    ensures InLine(path, lines, i, finds, k) <= InLine(path, lines, i, finds, |finds|)
    decreases |finds| - k
  {
    if k < |finds| { LinePrefix(path, lines, i, finds, k + 1); }
  }

  lemma {:induction false} LinesPrefix(path: string, lines: seq<string>, n: nat, finder: Finder)
    requires n <= |lines|
    ensures InLines(path, lines, n, finder) <= InLines(path, lines, |lines|, finder)
    decreases |lines| - n
  {
    if n < |lines| { LinesPrefix(path, lines, n + 1, finder); }
  }

  lemma {:induction false} FilesPrefix(files: seq<File>, n: nat, finder: Finder)
    requires n <= |files|
    ensures InFiles(files, n, finder) <= InFiles(files, |files|, finder)
    decreases |files| - n
  {
    hide InFile;
    if n < |files| { FilesPrefix(files, n + 1, finder); }
  }

  lemma Extended(front: seq<Match>, a: seq<Match>, b: seq<Match>)
    requires a <= b
    ensures front + a <= front + b
  {}

  /** What has been found before line `i` of file `f`. */
  ghost function Before(files: seq<File>, f: nat, i: nat, finder: Finder): seq<Match>
    requires f < |files| && i <= |SplitLines(files[f].text)|
  {
    InFiles(files, f, finder) + InLines(files[f].path, SplitLines(files[f].text), i, finder)
  }

  lemma AtFileStart(files: seq<File>, f: nat, finder: Finder)
    requires f < |files|
    ensures Before(files, f, 0, finder) == InFiles(files, f, finder)
  {}

  lemma AtLineEnd(files: seq<File>, f: nat, i: nat, finder: Finder)
    requires f < |files| && i < |SplitLines(files[f].text)|
    ensures Before(files, f, i + 1, finder)
         == Before(files, f, i, finder) + WholeLine(files[f].path, SplitLines(files[f].text), i, finder)
  {
    hide InFiles, SplitLines, WholeLine;
  }

  lemma AtFileEnd(files: seq<File>, f: nat, finder: Finder)
    requires f < |files|
    ensures InFiles(files, f + 1, finder)
         == if Searched(files[f]) then Before(files, f, |SplitLines(files[f].text)|, finder)
            else InFiles(files, f, finder)
  {
    hide SplitLines, InLines, Searched;
    assert InFiles(files, f, finder) + [] == InFiles(files, f, finder);
  }

  ghost predicate IsPrefix(a: seq<Match>, b: seq<Match>) { a <= b }

  lemma CutHere(output: seq<Match>, next: Match, all: seq<Match>, limit: nat)
    requires IsPrefix(output + [next], all) && |output| == limit
    ensures IsCut(output, all, limit)
  {
    assert (output + [next])[..limit] == output;
  }

  /** What has been found so far, and one match more, is a prefix of everything there is to find. */
  lemma MoreToFind(files: seq<File>, f: nat, i: nat, k: nat, finder: Finder)
    requires f < |files| && Searched(files[f])
    requires var lines := SplitLines(files[f].text);
             i < |lines| && k < |finder(Stripped(lines[i]))|
    ensures var path, lines := files[f].path, SplitLines(files[f].text);
            var finds := finder(Stripped(lines[i]));
            IsPrefix(Before(files, f, i, finder) + InLine(path, lines, i, finds, k + 1),
                     InFiles(files, |files|, finder))
  {
    hide Searched, Stripped, SplitLines, MatchOf, InLine, InLines, InFiles, Before;
    var path, lines := files[f].path, SplitLines(files[f].text);
    var finds := finder(Stripped(lines[i]));
    LinePrefix(path, lines, i, finds, k + 1);
    Extended(Before(files, f, i, finder), InLine(path, lines, i, finds, k + 1), WholeLine(path, lines, i, finder));
    AtLineEnd(files, f, i, finder);
    LinesPrefix(path, lines, i + 1, finder);
    BeforeGrows(files, f, i + 1, finder);
    AtFileEnd(files, f, finder);
    FilesPrefix(files, f + 1, finder);
  }

  lemma BeforeGrows(files: seq<File>, f: nat, i: nat, finder: Finder)
    requires f < |files| && i <= |SplitLines(files[f].text)|
    ensures Before(files, f, i, finder) <= Before(files, f, |SplitLines(files[f].text)|, finder)
  {
    hide SplitLines, InLines, InFiles;
    var path, lines := files[f].path, SplitLines(files[f].text);
    LinesPrefix(path, lines, i, finder);
    Extended(InFiles(files, f, finder), InLines(path, lines, i, finder), InLines(path, lines, |lines|, finder));
  }

  lemma OneMoreMatch(before: seq<Match>, path: string, lines: seq<string>, i: nat, finds: seq<Range>, k: nat)
    requires i < |lines| && k < |finds|
    ensures before + InLine(path, lines, i, finds, k + 1)
         == before + InLine(path, lines, i, finds, k) + [MatchOf(path, lines, i, finds[k])]
  {
    hide MatchOf;
  }

  lemma NoMatchYet(before: seq<Match>, path: string, lines: seq<string>, i: nat, finds: seq<Range>)
    requires i < |lines|
    ensures before + InLine(path, lines, i, finds, 0) == before
  {}

  lemma NoOffset(lines: seq<string>)
    ensures OffsetOf(lines, 0) == 0
  {}

  lemma NextOffset(lines: seq<string>, i: nat)
    requires i < |lines|
    ensures OffsetOf(lines, i + 1) == OffsetOf(lines, i) + |lines[i]| + 1
  {}

  lemma SpelledOut(path: string, lines: seq<string>, i: nat, found: Range)
    requires i < |lines|
    ensures MatchOf(path, lines, i, found)
         == Match(path, i + 1, Stripped(lines[i]), OffsetOf(lines, i) + found.start, OffsetOf(lines, i) + found.end)
  {}

  /** The innermost loop: the matches of one line, until the limit is reached. */
  method SearchLine(files: seq<File>, f: nat, lines: seq<string>, i: nat, offset: nat, finder: Finder, limit: nat,
                    found: seq<Match>)
    returns (output: seq<Match>, truncated: bool)
    requires f < |files| && Searched(files[f]) && lines == SplitLines(files[f].text) && i < |lines|
    requires offset == OffsetOf(lines, i) && found == Before(files, f, i, finder) && |found| <= limit
    ensures |output| <= limit
    ensures !truncated ==> output == Before(files, f, i + 1, finder)
    ensures truncated ==> IsCut(output, InFiles(files, |files|, finder), limit)
  {
    hide Searched, Stripped, SplitLines, InLine, InLines, InFiles, Before, IsPrefix, MatchOf, OffsetOf, IsCut;
    var path := files[f].path;
    var line := Stripped(lines[i]);
    var finds := finder(line);
    output, truncated := found, false;
    NoMatchYet(found, path, lines, i, finds);
    AtLineEnd(files, f, i, finder);
    var k := 0;
    while k < |finds|
      invariant 0 <= k <= |finds| && |output| <= limit
      invariant output == found + InLine(path, lines, i, finds, k)
    {
      var next := Match(path, i + 1, line, offset + finds[k].start, offset + finds[k].end);
      SpelledOut(path, lines, i, finds[k]);
      OneMoreMatch(found, path, lines, i, finds, k);
      MoreToFind(files, f, i, k, finder);
      if |output| >= limit {
        CutHere(output, next, InFiles(files, |files|, finder), limit);
        return output, true;
      }
      output := output + [next];
      k := k + 1;
    }
  }

  /** The first `limit` matches, of more. */
  ghost predicate IsCut(output: seq<Match>, all: seq<Match>, limit: nat) {
    |all| > limit && output == all[..limit]
  }

  /** The first `limit` matches of the unlimited search, in order; truncated exactly when there are more. */
  method Search(files: seq<File>, finder: Finder, limit: nat) returns (output: seq<Match>, truncated: bool)
    ensures var all := InFiles(files, |files|, finder);
            && output == (if |all| <= limit then all else all[..limit])
            && (truncated <==> |all| > limit)
  {
    hide Searched, Stripped, SplitLines, InLines, Before, OffsetOf;
    output, truncated := [], false;
    var f := 0;
    while f < |files|
      invariant 0 <= f <= |files| && |output| <= limit && output == InFiles(files, f, finder)
    {
      hide InFiles;
      AtFileStart(files, f, finder);
      AtFileEnd(files, f, finder);
      if Searched(files[f]) {
        var lines := SplitLines(files[f].text);
        var offset, i := 0, 0;
        NoOffset(lines);
        while i < |lines|
          invariant 0 <= i <= |lines| && |output| <= limit && offset == OffsetOf(lines, i)
          invariant output == Before(files, f, i, finder)
        {
          NextOffset(lines, i);
          output, truncated := SearchLine(files, f, lines, i, offset, finder, limit, output);
          if truncated { return; }
          offset := offset + |lines[i]| + 1;
          i := i + 1;
        }
      }
      f := f + 1;
    }
  }

  // ---- Spans ----

  ghost predicate FindsInside(finder: Finder) {
    forall line, k :: 0 <= k < |finder(line)| ==> finder(line)[k].start <= finder(line)[k].end <= |line|
  }

  /** The line stands at this place of the text, in front of its end unless it is the last one. */
  ghost predicate StandsAt(text: string, at: nat, line: string, last: bool) {
    at + |line| <= |text| && text[at..at + |line|] == line && (!last ==> at + |line| < |text|)
  }

  lemma StandsLater(c: char, tail: string, at: nat, line: string, last: bool)
    requires StandsAt(tail, at, line, last)
    ensures StandsAt([c] + tail, at + 1, line, last)
  {
    var text := [c] + tail;
    assert text[at + 1..at + 1 + |line|] == tail[at..at + |line|];
  }

  lemma StandsLonger(c: char, tail: string, line: string, last: bool)
    requires StandsAt(tail, 0, line, last)
    ensures StandsAt([c] + tail, 0, [c] + line, last)
  {
    var text := [c] + tail;
    assert text[..1 + |line|] == [c] + tail[..|line|];
  }

  lemma SplitUnfolds(text: string)
    ensures
      var lines := SplitLines(text);
      if text == [] then lines == [""]
      else
        var rest := SplitLines(text[1..]);
        lines == if text[0] == '\n' then [""] + rest else [[text[0]] + rest[0]] + rest[1..]
  {}

  lemma FirstStands(text: string, line: string, last: bool)
    requires line == "" && (!last ==> text != [])
    ensures StandsAt(text, 0, line, last)
  {}

  /** Raw line `i` stands in the text where its offset says. */
  lemma {:induction false} LineStands(text: string, i: nat)
    requires i < |SplitLines(text)|
    ensures
      var lines := SplitLines(text);
      StandsAt(text, OffsetOf(lines, i), lines[i], i + 1 == |lines|)
    decreases |text|
  {
    hide SplitLines, OffsetOf, StandsAt;
    var lines := SplitLines(text);
    SplitUnfolds(text);
    NoOffset(lines);
    if text == [] {
      FirstStands(text, lines[0], true);
    } else {
      var c, tail := text[0], text[1..];
      var rest := SplitLines(tail);
      assert text == [c] + tail;
      NoOffset(rest);
      if c == '\n' {
        if i > 0 {
          LineStands(tail, i - 1);
          OffsetShifts(lines, rest, i);
          StandsLater(c, tail, OffsetOf(rest, i - 1), rest[i - 1], i == |rest|);
        } else {
          FirstStands(text, lines[0], false);
        }
      } else {
        LineStands(tail, i);
        if i > 0 {
          OffsetShiftsInFirst(lines, rest, i);
          StandsLater(c, tail, OffsetOf(rest, i), rest[i], i + 1 == |rest|);
        } else {
          StandsLonger(c, tail, rest[0], 1 == |rest|);
        }
      }
    }
  }

  lemma {:induction false} OffsetShifts(lines: seq<string>, rest: seq<string>, i: nat)
    requires 0 < i <= |lines| && lines == [""] + rest
    ensures OffsetOf(lines, i) == OffsetOf(rest, i - 1) + 1
    decreases i
  {
    if i > 1 { OffsetShifts(lines, rest, i - 1); }
  }

  lemma {:induction false} OffsetShiftsInFirst(lines: seq<string>, rest: seq<string>, i: nat)
    requires 0 < i <= |lines| && |lines| == |rest| && |lines[0]| == |rest[0]| + 1
    requires forall k :: 0 < k < |lines| ==> lines[k] == rest[k]
    ensures OffsetOf(lines, i) == OffsetOf(rest, i) + 1
    decreases i
  {
    if i > 1 { OffsetShiftsInFirst(lines, rest, i - 1); }
  }

  lemma PieceOfPiece(s: string, at: nat, n: nat, from: nat, to: nat)
    requires from <= to <= n && at + n <= |s|
    ensures s[at + from..at + to] == s[at..at + n][from..to]
  {
    var a, b := s[at + from..at + to], s[at..at + n][from..to];
    assert |a| == |b|;
    forall i | 0 <= i < |a| ensures a[i] == b[i] {
      assert a[i] == s[at + from + i] && b[i] == s[at..at + n][from + i];
    }
  }

  /** The span of a match, taken from the original text, is what the pattern found in the stripped line. */
  lemma SpanIsExact(path: string, text: string, i: nat, finder: Finder, k: nat)
    requires FindsInside(finder) && i < |SplitLines(text)| && k < |finder(Stripped(SplitLines(text)[i]))|
    ensures var found := finder(Stripped(SplitLines(text)[i]))[k];
            var m := MatchOf(path, SplitLines(text), i, found);
            && m.start <= m.end <= |text|
            && text[m.start..m.end] == m.line[found.start..found.end]
  {
    hide SplitLines, Stripped;
    LineStands(text, i);
    var raw, line := SplitLines(text)[i], Stripped(SplitLines(text)[i]);
    var found := finder(line)[k];
    var at := OffsetOf(SplitLines(text), i);
    assert line == raw[..|line|];
    assert found.start <= found.end <= |line| <= |raw|;
    PieceOfPiece(text, at, |raw|, found.start, found.end);
    assert raw[found.start..found.end] == line[found.start..found.end];
  }

  lemma {:induction false} InLineHas(path: string, lines: seq<string>, i: nat, finds: seq<Range>, n: nat, m: Match)
    requires i < |lines| && n <= |finds|
    ensures m in InLine(path, lines, i, finds, n)
            <==> exists k :: 0 <= k < n && m == MatchOf(path, lines, i, finds[k])
  {
    hide MatchOf;
    if n > 0 { InLineHas(path, lines, i, finds, n - 1, m); }
  }

  lemma {:induction false} InLinesHas(path: string, lines: seq<string>, n: nat, finder: Finder, m: Match)
    requires n <= |lines|
    ensures m in InLines(path, lines, n, finder) <==> exists i :: 0 <= i < n && m in WholeLine(path, lines, i, finder)
  {
    hide WholeLine;
    if n > 0 { InLinesHas(path, lines, n - 1, finder, m); }
  }

  /** The match is find `k` of line `i`, and its span cuts that very find out of the text. */
  ghost predicate ShowsFind(f: File, finder: Finder, m: Match, i: nat, k: nat) {
    var lines := SplitLines(f.text);
    && i < |lines| && k < |finder(Stripped(lines[i]))|
    && m == MatchOf(f.path, lines, i, finder(Stripped(lines[i]))[k])
    && m.start <= m.end <= |f.text|
    && var found := finder(Stripped(lines[i]))[k];
       found.start <= found.end <= |m.line| && f.text[m.start..m.end] == m.line[found.start..found.end]
  }

  /** Every reported span indexes the original text, carriage returns included, and shows a piece of its line. */
  lemma EverySpanIsExact(f: File, finder: Finder, m: Match)
    requires FindsInside(finder) && m in InFile(f, finder)
    ensures exists i, k :: ShowsFind(f, finder, m, i, k)
    ensures f.listed && forall i :: 0 <= i < |f.text| && i < 8192 ==> f.text[i] != '\0'
  {
    hide InLines, InLine, SplitLines, Stripped, OffsetOf;
    var lines := SplitLines(f.text);
    InLinesHas(f.path, lines, |lines|, finder, m);
    var i :| 0 <= i < |lines| && m in WholeLine(f.path, lines, i, finder);
    var finds := finder(Stripped(lines[i]));
    InLineHas(f.path, lines, i, finds, |finds|, m);
    var k :| 0 <= k < |finds| && m == MatchOf(f.path, lines, i, finds[k]);
    SpanIsExact(f.path, f.text, i, finder, k);
    assert ShowsFind(f, finder, m, i, k);
  }

  // ---- Lines ----

  /** The lines, a line feed between each two. */
  ghost function Joined(lines: seq<string>): string {
    if lines == [] then "" else if |lines| == 1 then lines[0] else lines[0] + "\n" + Joined(lines[1..])
  }

  lemma JoinedUnfolds(first: string, rest: seq<string>)
    requires rest != []
    ensures Joined([first] + rest) == first + "\n" + Joined(rest)
  {
    assert ([first] + rest)[1..] == rest;
  }

  lemma JoinedLonger(c: char, lines: seq<string>)
    requires lines != []
    ensures Joined([[c] + lines[0]] + lines[1..]) == [c] + Joined(lines)
  {
    var longer := [[c] + lines[0]] + lines[1..];
    assert longer[1..] == lines[1..];
    if |lines| > 1 {
      assert [c] + lines[0] + "\n" + Joined(lines[1..]) == [c] + (lines[0] + "\n" + Joined(lines[1..]));
    }
  }

  /** The raw lines are the text cut at its line feeds, and only there. */
  lemma {:induction false} LinesAreTheText(text: string)
    ensures Joined(SplitLines(text)) == text
    ensures forall k :: 0 <= k < |SplitLines(text)| ==> '\n' !in SplitLines(text)[k]
  {
    if text != [] {
      hide Joined;
      var rest := SplitLines(text[1..]);
      LinesAreTheText(text[1..]);
      JoinedUnfolds("", rest);
      JoinedLonger(text[0], rest);
    } else {
      assert Joined([""]) == "";
    }
  }

  /** One carriage return at the end of a line is no part of it. */
  lemma OneReturnIsStripped(line: string)
    ensures Stripped(line + "\r") == line
    ensures (line == [] || line[|line| - 1] != '\r') ==> Stripped(line) == line
  {
    assert (line + "\r")[..|line|] == line;
  }

  ghost function LineFeeds(s: string): nat {
    if s == [] then 0 else (if s[0] == '\n' then 1 else 0) + LineFeeds(s[1..])
  }

  lemma LineFeedsOfTail(c: char, tail: string, n: nat)
    requires n <= |tail|
    ensures LineFeeds(([c] + tail)[..n + 1]) == (if c == '\n' then 1 else 0) + LineFeeds(tail[..n])
  {
    assert ([c] + tail)[..n + 1] == [c] + tail[..n];
  }

  /** As many line feeds stand before a raw line as there are lines before it. */
  lemma {:induction false} LineFeedsBefore(text: string, i: nat)
    requires i < |SplitLines(text)|
    ensures OffsetOf(SplitLines(text), i) <= |text|
    ensures LineFeeds(text[..OffsetOf(SplitLines(text), i)]) == i
    decreases |text|
  {
    hide SplitLines, OffsetOf, LineFeeds;
    var lines := SplitLines(text);
    SplitUnfolds(text);
    NoOffset(lines);
    NoLineFeeds();
    assert text[..0] == [];
    if i > 0 {
      assert text != [];
      var c, tail := text[0], text[1..];
      var rest := SplitLines(tail);
      assert text == [c] + tail;
      if c == '\n' {
        LineFeedsBefore(tail, i - 1);
        OffsetShifts(lines, rest, i);
        LineFeedsOfTail(c, tail, OffsetOf(rest, i - 1));
      } else {
        LineFeedsBefore(tail, i);
        OffsetShiftsInFirst(lines, rest, i);
        LineFeedsOfTail(c, tail, OffsetOf(rest, i));
      }
    }
  }

  lemma NoLineFeeds()
    ensures LineFeeds([]) == 0
  {}

  /**
   * Nothing is missed: every find of every line of a searched file is reported, under the number of its line, counted
   * by the line feeds before it.
   */
  lemma EveryFindIsReported(f: File, finder: Finder, i: nat, k: nat)
    requires FindsInside(finder) && f.listed && forall i :: 0 <= i < |f.text| && i < 8192 ==> f.text[i] != '\0'
    requires i < |SplitLines(f.text)| && k < |finder(Stripped(SplitLines(f.text)[i]))|
    ensures exists m ::
      && m in InFile(f, finder) && ShowsFind(f, finder, m, i, k)
      && m.path == f.path && m.line == Stripped(SplitLines(f.text)[i])
      && m.lineNumber == 1 + LineFeeds(f.text[..OffsetOf(SplitLines(f.text), i)])
  {
    var lines := SplitLines(f.text);
    var finds := finder(Stripped(lines[i]));
    var m := MatchOf(f.path, lines, i, finds[k]);
    InLineHas(f.path, lines, i, finds, |finds|, m);
    InLinesHas(f.path, lines, |lines|, finder, m);
    hide InLines, InLine, SplitLines, Stripped, Searched, LineFeeds, OffsetOf;
    SpanIsExact(f.path, f.text, i, finder, k);
    LineFeedsBefore(f.text, i);
    assert m in WholeLine(f.path, lines, i, finder);
    assert ShowsFind(f, finder, m, i, k);
  }
}
