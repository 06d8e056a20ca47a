/**
 * Stacked skill invocations: the frames that are submitted (packages/app-runtime/src/skill-tool.ts:24-68)
 * and the summary that is read back from them (packages/app-runtime/src/skills-panel.ts:89-133).
 *
 * What a body becomes when `$ARGUMENTS` is interpolated, and which characters `trim` removes, are arbitrary.
 */
module SkillFrames {
  import opened Results
  import opened SkillText

  datatype Invocation = Invocation(name: string, directory: string, body: string)

  datatype Collapsed = Collapsed(names: seq<string>, task: string, lines: nat)

  // ---- Printing ----

  function Opening(): (s: string)
    ensures s != []
  {
    "<skill name=\""
  }

  function Directory(): (s: string)
    ensures s != []
  {
    " directory=\""
  }

  function Bracket(): (s: string)
    ensures s != []
  {
    ">\n"
  }

  function Ending(): (s: string)
    ensures s != []
  {
    "\n</skill>"
  }

  const QUOTE: string := "\""

  /** A frame between its literal parts. */
  function Frame(name: string, directory: Option<string>, body: string): string {
    Opening() + (name + QUOTE + (
      if directory.Some? then Directory() + (directory.value + QUOTE + (Bracket() + (body + Ending())))
      else Bracket() + (body + Ending())))
  }

  function Printed(i: Invocation): string {
    Frame(EscapeAttribute(i.name), Some(EscapeAttribute(i.directory)), DefuseBody(i.body))
  }

  function JoinWith(lines: seq<string>, separator: string): string {
    if lines == [] then ""
    else if |lines| == 1 then lines[0]
    else lines[0] + separator + JoinWith(lines[1..], separator)
  }

  function PrintedAll(invocations: seq<Invocation>): (frames: seq<string>)
    ensures |frames| == |invocations|
  {
    if invocations == [] then [] else [Printed(invocations[0])] + PrintedAll(invocations[1..])
  }

  function Interpolated(invocations: seq<Invocation>, interpolate: string -> string): seq<Invocation> {
    seq(|invocations|, k requires 0 <= k < |invocations| =>
      invocations[k].(body := interpolate(invocations[k].body)))
  }

  function TaskOf(invocations: seq<Invocation>, args: seq<string>): string
    requires invocations != []
  {
    if args != [] then JoinWith(args, " ")
    else "Follow the \"" + invocations[0].name + "\" skill's instructions for my next request."
  }

  /** The frames, an empty line, and the task they share. */
  function Stacked(invocations: seq<Invocation>, task: string): string {
    JoinWith(PrintedAll(invocations) + ["", task], "\n")
  }

  function BuildStackedSkillInvocationText(
    invocations: seq<Invocation>, args: seq<string>, interpolate: string -> string): string
  {
    if invocations == [] then ""
    else Stacked(Interpolated(invocations, interpolate), TaskOf(invocations, args))
  }

  // ---- The frame pattern ----

  datatype Cutting = Cutting(before: string, after: string)

  /** The text before and after the first occurrence of `pattern`. */
  function Cut(s: string, pattern: string): Option<Cutting>
    requires pattern != []
  {
    if StartsWith(s, pattern) then Some(Cutting([], s[|pattern|..]))
    else if s == [] then None
    else
      match Cut(s[1..], pattern)
      case None => None
      case Some(c) => Some(Cutting([s[0]] + c.before, c.after))
  }

  /** What the pattern captures, and what follows the match. */
  datatype FrameMatch = FrameMatch(name: string, body: string, rest: string)

  function MatchBody(name: string, s: string): (r: Option<FrameMatch>)
    ensures r.Some? ==> |r.value.rest| < |s|
  {
    if !StartsWith(s, Bracket()) then None
    else
      CutMeans(s[|Bracket()|..], Ending());
      match Cut(s[|Bracket()|..], Ending())
      case None => None
      case Some(c) => Some(FrameMatch(name, c.before, c.after))
  }

  /** The anchored pattern: an attribute of whole entities, an optional directory, the shortest body. */
  function MatchFrame(text: string): (r: Option<FrameMatch>)
    ensures r.Some? ==> |r.value.rest| < |text|
  {
    if !StartsWith(text, Opening()) then None
    else
      CutMeans(text[|Opening()|..], QUOTE);
      match Cut(text[|Opening()|..], QUOTE)
      case None => None
      case Some(c) =>
        if c.before == [] || !IsAttribute(c.before) then None
        else if !StartsWith(c.after, Directory()) then MatchBody(c.before, c.after)
        else
          CutMeans(c.after[|Directory()|..], QUOTE);
          match Cut(c.after[|Directory()|..], QUOTE)
          case None => None
          case Some(d) => MatchBody(c.before, d.after)
  }

  /** `before` is what precedes the first occurrence of `pattern` in `before + pattern`. */
  ghost predicate IsShortest(before: string, pattern: string) {
    forall i :: 0 <= i < |before| ==> !OccursAt(before + pattern, pattern, i)
  }

  /** What the pattern describes, apart from how it is looked for. */
  ghost predicate IsFrame(name: string, directory: Option<string>, body: string) {
    && name != [] && IsAttribute(name) && '"' !in name
    && (directory.Some? ==> '"' !in directory.value)
    && IsShortest(body, Ending())
  }

  lemma OccursBefore(before: string, pattern: string, after: string, i: nat)
    requires i < |before|
    ensures OccursAt(before + pattern + after, pattern, i) == OccursAt(before + pattern, pattern, i)
  {
    assert (before + pattern + after)[i..][..|pattern|] == (before + pattern)[i..][..|pattern|];
  }

  lemma ShortestGrows(first: char, before: string, pattern: string, after: string)
    requires IsShortest(before, pattern) && !StartsWith([first] + before + pattern + after, pattern)
    ensures IsShortest([first] + before, pattern)
  {
    var longer := [first] + before;
    assert longer + pattern == [first] + (before + pattern);
    forall i | 0 <= i < |longer| ensures !OccursAt(longer + pattern, pattern, i) {
      if i == 0 {
        OccursBefore(longer, pattern, after, 0);
        assert (longer + pattern + after)[0..] == longer + pattern + after;
      } else {
        OccursLater([first], before + pattern, pattern, i - 1);
      }
    }
  }

  lemma OneMore(first: char, before: string, pattern: string, after: string)
    ensures [first] + (before + pattern + after) == [first] + before + pattern + after
  {}

  lemma {:induction false} CutMeans(s: string, pattern: string)
    requires pattern != []
    ensures var r := Cut(s, pattern);
            r.Some? ==> s == r.value.before + pattern + r.value.after && IsShortest(r.value.before, pattern)
    decreases |s|
  {
    hide IsShortest;
    if StartsWith(s, pattern) {
      assert s == [] + pattern + s[|pattern|..];
      NothingIsShortest(pattern);
    } else if s != [] && Cut(s[1..], pattern).Some? {
      CutMeans(s[1..], pattern);
      var c := Cut(s[1..], pattern).value;
      OneMore(s[0], c.before, pattern, c.after);
      assert s == [s[0]] + s[1..];
      ShortestGrows(s[0], c.before, pattern, c.after);
    }
  }

  lemma NothingIsShortest(pattern: string)
    ensures IsShortest([], pattern)
  {}

  lemma {:induction false} CutIs(before: string, pattern: string, after: string)
    requires pattern != [] && IsShortest(before, pattern)
    ensures Cut(before + pattern + after, pattern) == Some(Cutting(before, after))
    decreases |before|
  {
    var s := before + pattern + after;
    if before == [] {
      assert s == pattern + after;
    } else {
      var rest := before[1..];
      assert s[1..] == rest + pattern + after;
      assert s[0..] == s;
      OccursBefore(before, pattern, after, 0);
      assert !OccursAt(before + pattern, pattern, 0);
      forall i | 0 <= i < |rest| ensures !OccursAt(rest + pattern, pattern, i) {
        assert before + pattern == [before[0]] + (rest + pattern);
        OccursLater([before[0]], rest + pattern, pattern, i);
        assert !OccursAt(before + pattern, pattern, i + 1);
      }
      CutIs(rest, pattern, after);
      assert [s[0]] + rest == before;
    }
  }

  lemma NoQuoteInside(attribute: string)
    ensures '"' !in attribute <==> IsShortest(attribute, QUOTE)
  {
    forall i | 0 <= i < |attribute| ensures OccursAt(attribute + QUOTE, QUOTE, i) == (attribute[i] == '"') {
      assert (attribute + QUOTE)[i..][..1] == [attribute[i]];
    }
  }

  lemma Front(front: string, s: string)
    ensures StartsWith(front + s, front) && (front + s)[|front|..] == s
  {}

  lemma BracketIsNoDirectory(s: string)
    ensures !StartsWith(Bracket() + s, Directory())
  {
    assert (Bracket() + s)[0] == '>' && Directory()[0] == ' ';
  }

  /** A frame and what follows it, part by part. */
  lemma FramePieces(name: string, directory: Option<string>, body: string, rest: string)
    ensures Frame(name, directory, body) + rest
         == Opening() + (name + QUOTE + (
              if directory.Some? then Directory() + (directory.value + QUOTE + (Bracket() + (body + Ending() + rest)))
              else Bracket() + (body + Ending() + rest)))
  {
    hide Opening, Directory, Bracket, Ending;
    var closing := Bracket() + (body + Ending());
    assert closing + rest == Bracket() + (body + Ending() + rest);
    if directory.Some? {
      var tagged := Directory() + (directory.value + QUOTE + closing);
      assert tagged + rest == Directory() + (directory.value + QUOTE + (closing + rest));
      assert Opening() + (name + QUOTE + tagged) + rest == Opening() + (name + QUOTE + (tagged + rest));
    } else {
      assert Opening() + (name + QUOTE + closing) + rest == Opening() + (name + QUOTE + (closing + rest));
    }
  }

  lemma BodyIsFound(name: string, body: string, tail: string)
    requires IsShortest(body, Ending())
    ensures MatchBody(name, Bracket() + (body + Ending() + tail)) == Some(FrameMatch(name, body, tail))
  {
    hide Bracket, Ending, StartsWith, Cut, IsShortest;
    Front(Bracket(), body + Ending() + tail);
    CutIs(body, Ending(), tail);
  }

  /** Every frame is matched, as a whole, whatever follows it. */
  lemma FrameIsFound(name: string, directory: Option<string>, body: string, tail: string)
    requires IsFrame(name, directory, body)
    ensures MatchFrame(Frame(name, directory, body) + tail) == Some(FrameMatch(name, body, tail))
  {
    hide Cut, IsAttribute, IsShortest, StartsWith, Opening, Directory, Bracket, Ending, Frame, MatchBody;
    var closing := Bracket() + (body + Ending() + tail);
    NoQuoteInside(name);
    BodyIsFound(name, body, tail);
    FramePieces(name, directory, body, tail);
    if directory.None? {
      Front(Opening(), name + QUOTE + closing);
      CutIs(name, QUOTE, closing);
      BracketIsNoDirectory(body + Ending() + tail);
    } else {
      NoQuoteInside(directory.value);
      var rest := Directory() + (directory.value + QUOTE + closing);
      Front(Opening(), name + QUOTE + rest);
      CutIs(name, QUOTE, rest);
      Front(Directory(), directory.value + QUOTE + closing);
      CutIs(directory.value, QUOTE, closing);
    }
  }

  lemma WholeOfFront(s: string, front: string)
    ensures StartsWith(s, front) ==> s == front + s[|front|..]
  {}

  lemma BodyIsMatched(name: string, s: string)
    ensures var r := MatchBody(name, s);
            r.Some? ==> r.value.name == name && s == Bracket() + (r.value.body + Ending() + r.value.rest)
                        && IsShortest(r.value.body, Ending())
  {
    hide Cut, IsShortest, Bracket, Ending;
    WholeOfFront(s, Bracket());
    if StartsWith(s, Bracket()) { CutMeans(s[|Bracket()|..], Ending()); }
  }

  /** Nothing but a frame is matched. */
  lemma MatchIsFrame(text: string) returns (directory: Option<string>)
    requires MatchFrame(text).Some?
    ensures var m := MatchFrame(text).value;
            IsFrame(m.name, directory, m.body) && text == Frame(m.name, directory, m.body) + m.rest
  {
    hide Cut, IsAttribute, IsShortest, MatchBody, Opening, Directory, Bracket, Ending, Frame;
    var m := MatchFrame(text).value;
    WholeOfFront(text, Opening());
    CutMeans(text[|Opening()|..], QUOTE);
    var c := Cut(text[|Opening()|..], QUOTE).value;
    NoQuoteInside(c.before);
    if !StartsWith(c.after, Directory()) {
      directory := None;
      BodyIsMatched(c.before, c.after);
    } else {
      WholeOfFront(c.after, Directory());
      CutMeans(c.after[|Directory()|..], QUOTE);
      var d := Cut(c.after[|Directory()|..], QUOTE).value;
      NoQuoteInside(d.before);
      directory := Some(d.before);
      BodyIsMatched(c.before, d.after);
    }
    FramePieces(m.name, directory, m.body, m.rest);
  }

  // ---- Reading back ----

  datatype Parsed = Parsed(names: seq<string>, lines: nat, rest: string)

  /** The lines of one frame, as the summary counts them. */
  function FrameLines(body: string): nat {
    if body == [] then 2 else Newlines(body) + 3
  }

  function WithoutNewline(s: string): string {
    if StartsWith(s, "\n") then s[1..] else s
  }

  /** The frames at the front of the text. */
  function Parse(text: string): Parsed
    decreases |text|
  {
    match MatchFrame(text)
    case None => Parsed([], 0, text)
    case Some(m) =>
      var p := Parse(WithoutNewline(m.rest));
      Parsed([UnescapeAttribute(m.name)] + p.names, FrameLines(m.body) + p.lines, p.rest)
  }

  function TrimStart(s: string, space: set<char>): string {
    if s != [] && s[0] in space then TrimStart(s[1..], space) else s
  }

  function TrimEnd(s: string, space: set<char>): string {
    if s != [] && s[|s| - 1] in space then TrimEnd(s[..|s| - 1], space) else s
  }

  function FirstLine(s: string): string {
    if s == [] || s[0] == '\n' then [] else [s[0]] + FirstLine(s[1..])
  }

  /** The first line of the trimmed text, cut to 60 characters. */
  function Headline(s: string, space: set<char>): (line: string)
    ensures |line| <= 60
  {
    var line := FirstLine(TrimEnd(TrimStart(s, space), space));
    if |line| <= 60 then line else line[..59] + "\U{2026}"
  }

  function Collapse(text: string, space: set<char>): Option<Collapsed> {
    var p := Parse(text);
    if p.names == [] then None else Some(Collapsed(p.names, Headline(p.rest, space), p.lines))
  }

  function Behind(names: seq<string>, lines: nat, p: Parsed): Parsed {
    Parsed(names + p.names, lines + p.lines, p.rest)
  }

  lemma ParseOne(names: seq<string>, lines: nat, text: string)
    ensures var found := MatchFrame(text);
            Behind(names, lines, Parse(text))
            == if found.None? then Parsed(names, lines, text)
               else Behind(names + [UnescapeAttribute(found.value.name)], lines + FrameLines(found.value.body),
                           Parse(WithoutNewline(found.value.rest)))
  {
    hide MatchFrame, UnescapeAttribute, FrameLines, WithoutNewline;
    var found := MatchFrame(text);
    if found.Some? {
      var p := Parse(WithoutNewline(found.value.rest));
      var name := UnescapeAttribute(found.value.name);
      assert names + ([name] + p.names) == names + [name] + p.names;
    }
  }

  method CollapseSkillInvocation(text: string, space: set<char>) returns (r: Option<Collapsed>)
    ensures r == Collapse(text, space)
  {
    hide MatchFrame, UnescapeAttribute, Headline, Newlines, Parse;
    var rest := text;
    var names: seq<string> := [];
    var lines: nat := 0;
    while true
      invariant Parse(text) == Behind(names, lines, Parse(rest))
      decreases |rest|
    {
      ParseOne(names, lines, rest);
      var found := MatchFrame(rest);
      if found.None? { break; }
      names := names + [UnescapeAttribute(found.value.name)];
      var body := found.value.body;
      lines := lines + if body != [] then Newlines(body) + 1 + 2 else 2;
      rest := found.value.rest;
      if StartsWith(rest, "\n") { rest := rest[1..]; }
    }
    if names == [] { return None; }
    return Some(Collapsed(names, Headline(rest, space), lines));
  }

  // ---- Reading undoes printing ----

  /** How many invocations come before the first without a name. */
  function Named(invocations: seq<Invocation>): (n: nat)
    ensures n <= |invocations|
  {
    if invocations == [] || invocations[0].name == [] then 0 else 1 + Named(invocations[1..])
  }

  function Names(invocations: seq<Invocation>): (names: seq<string>)
    ensures |names| == |invocations|
  {
    seq(|invocations|, k requires 0 <= k < |invocations| => invocations[k].name)
  }

  function TotalLines(invocations: seq<Invocation>): nat {
    if invocations == [] then 0 else FrameLines(invocations[0].body) + TotalLines(invocations[1..])
  }

  lemma PrintedIsFrame(i: Invocation)
    requires i.name != []
    ensures IsFrame(EscapeAttribute(i.name), Some(EscapeAttribute(i.directory)), DefuseBody(i.body))
  {
    hide EscapeAttribute, DefuseBody;
    EscapedIsAttribute(i.name);
    EscapedIsAttribute(i.directory);
    var body := DefuseBody(i.body);
    forall k | 0 <= k < |body| ensures !OccursAt(body + Ending(), Ending(), k) {
      DefusedBodyIsInert(i.body, k + 1);
      NoEndingInside(body, k);
    }
  }

  /** An ending that starts inside the body would start a closing tag inside it. */
  lemma NoEndingInside(body: string, k: nat)
    requires k < |body| && !OccursAt(body, CLOSING, k + 1)
    ensures !OccursAt(body + Ending(), Ending(), k)
  {
    var all := body + Ending();
    OccursMeans(all, Ending(), k);
    var j := |body| - k;
    if j < 8 {
      assert Ending()[j] != '\n';
      assert all[k + j] == '\n';
    } else if forall i :: 0 <= i < |CLOSING| ==> body[k + 1 + i] == CLOSING[i] {
      OccursByChars(body, CLOSING, k + 1);
    } else {
      var i :| 0 <= i < |CLOSING| && body[k + 1 + i] != CLOSING[i];
      assert CLOSING[i] == Ending()[i + 1] && all[k + (i + 1)] == body[k + 1 + i];
    }
  }

  lemma PrintedIsRead(i: Invocation, tail: string)
    ensures MatchFrame(Printed(i) + tail)
         == if i.name == [] then None else Some(FrameMatch(EscapeAttribute(i.name), DefuseBody(i.body), tail))
  {
    hide EscapeAttribute, DefuseBody;
    if i.name == [] {
      EscapedIsAttribute(i.name);
      NamelessIsNoFrame(Some(EscapeAttribute(i.directory)), DefuseBody(i.body), tail);
    } else {
      PrintedIsFrame(i);
      FrameIsFound(EscapeAttribute(i.name), Some(EscapeAttribute(i.directory)), DefuseBody(i.body), tail);
    }
  }

  lemma NamelessIsNoFrame(directory: Option<string>, body: string, tail: string)
    ensures MatchFrame(Frame("", directory, body) + tail) == None
  {
    hide Opening, Directory, Bracket, Ending, Frame, MatchBody;
    FramePieces("", directory, body, tail);
    var rest := (Frame("", directory, body) + tail)[|Opening()|..];
    assert rest[..1] == QUOTE;
  }

  lemma StackedUnfolds(invocations: seq<Invocation>, task: string)
    ensures Stacked(invocations, task)
         == if invocations == [] then "\n" + task
            else Printed(invocations[0]) + ("\n" + Stacked(invocations[1..], task))
  {
    hide Printed;
    var tail := ["", task];
    if invocations == [] {
      assert PrintedAll(invocations) + tail == tail;
      assert tail[1..] == [task];
      assert JoinWith(tail, "\n") == "" + "\n" + JoinWith([task], "\n");
      assert JoinWith([task], "\n") == task;
      assert "" + "\n" + task == "\n" + task;
    } else {
      var all := PrintedAll(invocations) + tail;
      assert all[0] == Printed(invocations[0]);
      assert all[1..] == PrintedAll(invocations[1..]) + tail;
      var others := Stacked(invocations[1..], task);
      assert Printed(invocations[0]) + "\n" + others == Printed(invocations[0]) + ("\n" + others);
    }
  }

  /** Reading stops in front of the task, or of the first frame without a name. */
  lemma {:induction false} StackIsRead(invocations: seq<Invocation>, task: string)
    ensures var n := Named(invocations);
            Parse(Stacked(invocations, task))
            == Parsed(Names(invocations[..n]), TotalLines(invocations[..n]), Stacked(invocations[n..], task))
    decreases |invocations|
  {
    hide MatchFrame, Printed, EscapeAttribute, UnescapeAttribute, DefuseBody, Stacked, Newlines;
    StackedUnfolds(invocations, task);
    var text := Stacked(invocations, task);
    if invocations == [] {
      TaskIsNoFrame(task);
      assert Names(invocations[..0]) == [];
      assert invocations[..0] == [] && invocations[0..] == invocations;
    } else {
      var first, others := invocations[0], invocations[1..];
      PrintedIsRead(first, "\n" + Stacked(others, task));
      if first.name == [] {
        assert Names(invocations[..0]) == [];
        assert invocations[..0] == [] && invocations[0..] == invocations;
      } else {
        var n := Named(others);
        StackIsRead(others, task);
        UnescapeUndoesEscape(first.name);
        DefusedBodyIsInert(first.body, 0);
        assert ("\n" + Stacked(others, task))[1..] == Stacked(others, task);
        LeadingNames(invocations, n);
      }
    }
  }

  lemma LeadingNames(invocations: seq<Invocation>, n: nat)
    requires n < |invocations|
    ensures var first, others := invocations[0], invocations[1..];
            && Names(invocations[..n + 1]) == [first.name] + Names(others[..n])
            && TotalLines(invocations[..n + 1]) == FrameLines(first.body) + TotalLines(others[..n])
            && invocations[n + 1..] == others[n..]
  {
    hide FrameLines;
    assert invocations[..n + 1][1..] == invocations[1..][..n];
  }

  lemma TaskIsNoFrame(task: string)
    ensures MatchFrame("\n" + task) == None
  {
    assert ("\n" + task)[0] == '\n' && Opening()[0] == '<';
  }

  lemma {:induction false} AllNamed(invocations: seq<Invocation>)
    ensures Named(invocations) == |invocations| <==> forall k :: 0 <= k < |invocations| ==> invocations[k].name != []
  {
    if invocations != [] {
      AllNamed(invocations[1..]);
      assert forall k :: 0 < k < |invocations| ==> invocations[k] == invocations[1..][k - 1];
    }
  }

  lemma HeadlineIgnoresNewline(task: string, space: set<char>)
    requires '\n' in space
    ensures Headline("\n" + task, space) == Headline(task, space)
  {
    assert ("\n" + task)[1..] == task;
  }

  /** The lines counted for a frame with a body are the lines of its text, when its attributes have no line break. */
  lemma LinesAreCounted(name: string, directory: string, body: string)
    requires Newlines(name) == 0 && Newlines(directory) == 0 && body != []
    ensures FrameLines(body) == 1 + Newlines(Frame(name, Some(directory), body))
  {
    hide Newlines;
    var rest := directory + (QUOTE + (Bracket() + (body + Ending())));
    var shown := Opening() + (name + (QUOTE + (Directory() + rest)));
    assert Frame(name, Some(directory), body) == shown by {
      assert directory + QUOTE + (Bracket() + (body + Ending())) == rest;
      assert name + QUOTE + (Directory() + rest) == name + (QUOTE + (Directory() + rest));
    }
    NewlinesAdd(Opening(), name + (QUOTE + (Directory() + rest)));
    NewlinesAdd(name, QUOTE + (Directory() + rest));
    NewlinesAdd(QUOTE, Directory() + rest);
    NewlinesAdd(Directory(), rest);
    NewlinesAdd(directory, QUOTE + (Bracket() + (body + Ending())));
    NewlinesAdd(QUOTE, Bracket() + (body + Ending()));
    NewlinesAdd(Bracket(), body + Ending());
    NewlinesAdd(body, Ending());
    NewlinesOfParts();
  }

  lemma NewlinesOfParts()
    ensures Newlines(Opening()) == Newlines(QUOTE) == Newlines(Directory()) == 0
    ensures Newlines(Bracket()) == Newlines(Ending()) == 1
  {
    hide Newlines;
    WithoutLineBreak(Opening());
    WithoutLineBreak(QUOTE);
    WithoutLineBreak(Directory());
    NewlinesOfBracket();
    NewlinesOfEnding();
  }

  lemma NewlinesOfBracket()
    ensures Newlines(Bracket()) == 1
  {
    hide Newlines;
    WithoutLineBreak(">");
    OneLineBreak();
    NewlinesAdd(">", "\n");
    assert Bracket() == ">" + "\n";
  }

  lemma NewlinesOfEnding()
    ensures Newlines(Ending()) == 1
  {
    hide Newlines;
    WithoutLineBreak("</skill>");
    OneLineBreak();
    NewlinesAdd("\n", "</skill>");
    assert Ending() == "\n" + "</skill>";
  }

  lemma OneLineBreak()
    ensures Newlines("\n") == 1
  {
    assert "\n"[1..] == "";
  }

  lemma {:induction false} WithoutLineBreak(s: string)
    requires '\n' !in s
    ensures Newlines(s) == 0
  {
    if s != [] {
      WithoutLineBreak(s[1..]);
    }
  }

  /** The text of a frame, letter by letter. */
  lemma FrameIsLiteral(i: Invocation)
    ensures Printed(i) ==
      "<skill name=\"" + EscapeAttribute(i.name) + "\" directory=\"" + EscapeAttribute(i.directory) + "\">\n"
      + DefuseBody(i.body) + "\n</skill>"
  {
    hide EscapeAttribute, DefuseBody;
    assert "\">\n" == QUOTE + Bracket() && "\" directory=\"" == QUOTE + Directory();
  }

  /** A stack is its first frame on lines of its own before the rest, and ends with an empty line and the task. */
  lemma StackIsLiteral(invocations: seq<Invocation>, task: string)
    ensures Stacked(invocations, task) ==
      if invocations == [] then "\n" + task else Printed(invocations[0]) + "\n" + Stacked(invocations[1..], task)
  {
    hide Printed;
    if invocations == [] {
      assert [] + ["", task] == ["", task] && ["", task][1..] == [task];
      assert JoinWith([task], "\n") == task;
    } else {
      var lines := PrintedAll(invocations) + ["", task];
      assert lines[1..] == PrintedAll(invocations[1..]) + ["", task];
    }
  }

  /** What is submitted: the frames and the arguments, a blank between each two, or a sentence with the first name. */
  lemma SubmittedIsLiteral(invocations: seq<Invocation>, args: seq<string>, interpolate: string -> string)
    requires invocations != []
    ensures BuildStackedSkillInvocationText(invocations, args, interpolate) ==
      Stacked(Interpolated(invocations, interpolate),
        if args == [] then "Follow the \"" + invocations[0].name + "\" skill's instructions for my next request."
        else if |args| == 1 then args[0]
        else args[0] + " " + JoinWith(args[1..], " "))
  {}

  /** A task on one line is shown whole up to 60 characters, and else by its first 59 and an ellipsis. */
  lemma HeadlineShows(task: string, space: set<char>)
    requires task != [] && task[0] !in space && task[|task| - 1] !in space && '\n' !in task
    ensures Headline(task, space) == if |task| <= 60 then task else task[..59] + "\U{2026}"
  {
    OneLine(task);
  }

  lemma {:induction false} OneLine(line: string)
    requires '\n' !in line
    ensures FirstLine(line) == line
  {
    if line != [] {
      OneLine(line[1..]);
    }
  }

  /**
   * The summary of a submitted stack names the skills in order, counts their lines and shows the task, whatever the
   * directories, bodies and task are; and it names them all exactly when each of them has a name.
   */
  lemma CollapseUndoesBuild(
    invocations: seq<Invocation>, args: seq<string>, interpolate: string -> string, space: set<char>)
    requires invocations != [] && '\n' in space
    ensures var text := BuildStackedSkillInvocationText(invocations, args, interpolate);
            var collapsed := Collapse(text, space);
            var complete := Collapsed(Names(invocations), Headline(TaskOf(invocations, args), space),
                                      TotalLines(Interpolated(invocations, interpolate)));
            && ((forall k :: 0 <= k < |invocations| ==> invocations[k].name != []) ==> collapsed == Some(complete))
            && (collapsed.Some? && collapsed.value.names == Names(invocations)
                ==> forall k :: 0 <= k < |invocations| ==> invocations[k].name != [])
  {
    hide Stacked, Parse, Headline, TotalLines, TaskOf;
    var shown := Interpolated(invocations, interpolate);
    var task := TaskOf(invocations, args);
    StackIsRead(shown, task);
    AllNamed(shown);
    assert Names(shown) == Names(invocations);
    assert forall k :: 0 <= k < |invocations| ==> shown[k].name == invocations[k].name;
    if Named(shown) == |shown| {
      assert shown[..|shown|] == shown && shown[|shown|..] == [];
      StackedUnfolds([], task);
      HeadlineIgnoresNewline(task, space);
    } else {
      assert |Names(shown[..Named(shown)])| < |Names(invocations)|;
    }
  }

  // ---- Splitting a slash stack ----

  const MAX_SKILL_STACK: nat := 6

  predicate NamesSkill(token: string, known: set<string>) {
    StartsWith(token, "/") && token[1..] in known
  }

  /** The longest run of leading arguments that name known skills joins the stack, six names in all at most. */
  method SplitSkillStack(name: string, args: seq<string>, known: set<string>)
    returns (stack: seq<string>, taskArgs: seq<string>)
    ensures 1 <= |stack| <= MAX_SKILL_STACK && stack[0] == name
    ensures |stack| - 1 <= |args| && taskArgs == args[|stack| - 1..]
    ensures forall k :: 1 <= k < |stack| ==> stack[k] in known && args[k - 1] == "/" + stack[k]
    ensures |stack| == MAX_SKILL_STACK || taskArgs == [] || !NamesSkill(taskArgs[0], known)
  {
    stack := [name];
    var index := 0;
    while index < |args| && |stack| < MAX_SKILL_STACK
      invariant 0 <= index <= |args| && |stack| == index + 1 <= MAX_SKILL_STACK && stack[0] == name
      invariant forall k :: 1 <= k < |stack| ==> stack[k] in known && args[k - 1] == "/" + stack[k]
    {
      var token := args[index];
      if !StartsWith(token, "/") || token[1..] !in known { break; }
      assert token == "/" + token[1..];
      stack := stack + [token[1..]];
      index := index + 1;
    }
    taskArgs := args[index..];
  }
}
