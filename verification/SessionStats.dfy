/**
 * The statistics mined from session logs (packages/app-runtime/src/session-stats.ts:61-147, 215-337): one scan
 * per log, then one overview per range of days over all scans.
 *
 * A line is what parsing makes of it; token counts are integers and days are civil dates counted in days.
 */
module SessionStats {
  import opened KeyedSums
  import opened Results

  type Day = int
  type Model = string

  datatype Usage = Usage(input: int, output: int, cacheRead: int, cacheWrite: int)

  /** A field that is not a number is as none. */
  datatype RawUsage =
    | NoUsage
    | Fields(input: Option<int>, output: Option<int>, cacheRead: Option<int>, cacheWrite: Option<int>)

  /** An empty message id or model is as none. */
  datatype Body =
    | StreamStarted(messageId: Option<string>, model: Option<Model>)
    | StreamCompleted(messageId: Option<string>, usage: RawUsage)
    | TurnCompleted(usage: RawUsage)
    | OtherTracked

  datatype Line = Unreadable | Tracked(day: Day, body: Body)

  datatype Scan = Scan(
    events: nat,
    tokens: Usage,
    dayCounts: map<Day, int>,
    dayTokens: map<Day, int>,
    modelTokens: map<Model, int>,
    modelStreams: map<Model, int>,
    dayModelTokens: map<Day, map<Model, int>>
  )

  /** The scan so far, and the models of the streams not yet completed. */
  datatype Progress = Progress(scan: Scan, streams: map<string, Option<Model>>)

  // ----- One log -----

  function NumberOr0(n: Option<int>): int {
    if n.Some? then n.value else 0
  }

  /** Nothing keeps a count from being negative. */
  function ReadUsage(raw: RawUsage): Option<Usage> {
    match raw
    case NoUsage => None
    case Fields(input, output, cacheRead, cacheWrite) =>
      if input.None? || output.None? then None
      else Some(Usage(input.value, output.value, NumberOr0(cacheRead), NumberOr0(cacheWrite)))
  }

  function TotalOf(u: Usage): int {
    u.input + u.output + u.cacheRead + u.cacheWrite
  }

  function AddUsage(a: Usage, b: Usage): Usage {
    Usage(a.input + b.input, a.output + b.output, a.cacheRead + b.cacheRead, a.cacheWrite + b.cacheWrite)
  }

  function Row(table: map<Day, map<Model, int>>, day: Day): map<Model, int> {
    if day in table then table[day] else map[]
  }

  function CountStream(p: Progress, messageId: Option<string>, model: Option<Model>): Progress {
    var scan := if model.Some? then p.scan.(modelStreams := Plus(p.scan.modelStreams, model.value, 1)) else p.scan;
    Progress(scan, if messageId.Some? then p.streams[messageId.value := model] else p.streams)
  }

  function StartedModel(p: Progress, messageId: Option<string>): Option<Model> {
    if messageId.Some? && messageId.value in p.streams then p.streams[messageId.value] else None
  }

  function CompleteStream(p: Progress, day: Day, messageId: Option<string>, raw: RawUsage): Progress {
    var model, usage := StartedModel(p, messageId), ReadUsage(raw);
    var streams := if messageId.Some? then p.streams - {messageId.value} else p.streams;
    if usage.None? || model.None? then Progress(p.scan, streams)
    else
      var total, row := TotalOf(usage.value), Row(p.scan.dayModelTokens, day);
      Progress(
        p.scan.(modelTokens := Plus(p.scan.modelTokens, model.value, total),
                dayModelTokens := p.scan.dayModelTokens[day := Plus(row, model.value, total)]),
        streams)
  }

  function CompleteTurn(p: Progress, day: Day, raw: RawUsage): Progress {
    var usage := ReadUsage(raw);
    if usage.None? then p
    else
      p.(scan := p.scan.(tokens := AddUsage(p.scan.tokens, usage.value),
                         dayTokens := Plus(p.scan.dayTokens, day, TotalOf(usage.value))))
  }

  function ScanLine(p: Progress, line: Line): Progress {
    if line.Unreadable? then p
    else
      var counted := p.(scan := p.scan.(events := p.scan.events + 1, dayCounts := Plus(p.scan.dayCounts, line.day, 1)));
      match line.body
      case StreamStarted(messageId, model) => CountStream(counted, messageId, model)
      case StreamCompleted(messageId, usage) => CompleteStream(counted, line.day, messageId, usage)
      case TurnCompleted(usage) => CompleteTurn(counted, line.day, usage)
      case OtherTracked => counted
  }

  const NO_SCAN := Scan(0, Usage(0, 0, 0, 0), map[], map[], map[], map[], map[])

  function ScanLines(lines: seq<Line>): Progress {
    if |lines| == 0 then Progress(NO_SCAN, map[])
    else ScanLine(ScanLines(lines[..|lines| - 1]), lines[|lines| - 1])
  }

  method ScanSessionFile(lines: seq<Line>) returns (scan: Scan)
    ensures scan == ScanLines(lines).scan
  {
    scan := NO_SCAN;
    var streams: map<string, Option<Model>> := map[];
    for i := 0 to |lines|
      invariant Progress(scan, streams) == ScanLines(lines[..i])
    {
      assert lines[..i + 1][..i] == lines[..i];
      var line := lines[i];
      if line.Unreadable? {
        continue;
      }
      var day := line.day;
      scan := scan.(events := scan.events + 1, dayCounts := Plus(scan.dayCounts, day, 1));
      match line.body {
        case StreamStarted(messageId, model) =>
          if model.Some? {
            scan := scan.(modelStreams := Plus(scan.modelStreams, model.value, 1));
          }
          if messageId.Some? {
            streams := streams[messageId.value := model];
          }
        case StreamCompleted(messageId, raw) =>
          var model: Option<Model> := None;
          if messageId.Some? && messageId.value in streams {
            model := streams[messageId.value];
          }
          if messageId.Some? {
            streams := streams - {messageId.value};
          }
          var usage := ReadUsage(raw);
          if usage.Some? && model.Some? {
            var total := TotalOf(usage.value);
            scan := scan.(modelTokens := Plus(scan.modelTokens, model.value, total));
            var perDay := Plus(Row(scan.dayModelTokens, day), model.value, total);
            scan := scan.(dayModelTokens := scan.dayModelTokens[day := perDay]);
          }
        case TurnCompleted(raw) =>
          var usage := ReadUsage(raw);
          if usage.Some? {
            scan := scan.(tokens := AddUsage(scan.tokens, usage.value));
            scan := scan.(dayTokens := Plus(scan.dayTokens, day, TotalOf(usage.value)));
          }
        case OtherTracked =>
      }
    }
    assert lines[..|lines|] == lines;
  }

  // ----- What a scan conserves -----

  /** The tokens a line reports for a completed turn. */
  function TurnTokens(line: Line): int {
    if line.Tracked? && line.body.TurnCompleted? && ReadUsage(line.body.usage).Some?
    then TotalOf(ReadUsage(line.body.usage).value) else 0
  }

  /** The tokens of all completed turns, added up line by line. */
  function TokensOf(lines: seq<Line>): int {
    if |lines| == 0 then 0 else TokensOf(lines[..|lines| - 1]) + TurnTokens(lines[|lines| - 1])
  }

  function TokensOn(lines: seq<Line>, day: Day): int {
    if |lines| == 0 then 0
    else
      var last := lines[|lines| - 1];
      TokensOn(lines[..|lines| - 1], day) + if last.Tracked? && last.day == day then TurnTokens(last) else 0
  }

  function ReadableOn(lines: seq<Line>, day: Day): nat {
    if |lines| == 0 then 0
    else
      var last := lines[|lines| - 1];
      ReadableOn(lines[..|lines| - 1], day) + if last.Tracked? && last.day == day then 1 else 0
  }

  /** One model's tokens by day. */
  function Column(table: map<Day, map<Model, int>>, model: Model): map<Day, int> {
    map day | day in table :: Get(table[day], model)
  }

  lemma ColumnPlus(table: map<Day, map<Model, int>>, day: Day, model: Model, x: int, other: Model)
    ensures
      var after := table[day := Plus(Row(table, day), model, x)];
      Sum(Column(after, other)) == Sum(Column(table, other)) + if other == model then x else 0
  {
    var before := Column(table, other);
    var after := Column(table[day := Plus(Row(table, day), model, x)], other);
    SumPlus(before, day, if other == model then x else 0);
    assert after == Plus(before, day, if other == model then x else 0);
  }

  /** The days add up to the totals, and for each model the days add up to its total. */
  ghost predicate Conserves(scan: Scan) {
    && Sum(scan.dayCounts) == scan.events
    && Sum(scan.dayTokens) == TotalOf(scan.tokens)
    && forall model :: Sum(Column(scan.dayModelTokens, model)) == Get(scan.modelTokens, model)
  }

  lemma ModelRowConserves(scan: Scan, day: Day, model: Model, x: int)
    requires Conserves(scan)
    ensures Conserves(scan.(modelTokens := Plus(scan.modelTokens, model, x),
                            dayModelTokens :=
                              scan.dayModelTokens[day := Plus(Row(scan.dayModelTokens, day), model, x)]))
  {
    hide Sum, Column, Row, Plus;
    var table := scan.dayModelTokens[day := Plus(Row(scan.dayModelTokens, day), model, x)];
    forall other ensures Sum(Column(table, other)) == Get(Plus(scan.modelTokens, model, x), other) {
      ColumnPlus(scan.dayModelTokens, day, model, x, other);
      GetPlus(scan.modelTokens, model, x, other);
    }
  }

  lemma GetPlus<K>(m: map<K, int>, k: K, x: int, other: K)
    ensures Get(Plus(m, k, x), other) == Get(m, other) + if other == k then x else 0
  {}

  lemma ScanLineConserves(p: Progress, line: Line)
    requires Conserves(p.scan)
    ensures Conserves(ScanLine(p, line).scan)
    ensures TotalOf(ScanLine(p, line).scan.tokens) == TotalOf(p.scan.tokens) + TurnTokens(line)
  {
    if line.Tracked? {
      var counted := p.scan.(events := p.scan.events + 1, dayCounts := Plus(p.scan.dayCounts, line.day, 1));
      SumPlus(p.scan.dayCounts, line.day, 1);
      hide Sum, Column, Row, Plus;
      assert Conserves(counted);
      match line.body
      case StreamCompleted(messageId, raw) =>
        var model, usage := StartedModel(p, messageId), ReadUsage(raw);
        if usage.Some? && model.Some? {
          ModelRowConserves(counted, line.day, model.value, TotalOf(usage.value));
        }
      case TurnCompleted(raw) =>
        if ReadUsage(raw).Some? {
          SumPlus(p.scan.dayTokens, line.day, TotalOf(ReadUsage(raw).value));
        }
      case _ =>
    }
  }

  /** A scan conserves totals, and its total is that of the turns of the log. */
  lemma {:induction false} ScanConserves(lines: seq<Line>)
    ensures Conserves(ScanLines(lines).scan)
    ensures TotalOf(ScanLines(lines).scan.tokens) == TokensOf(lines)
  {
    hide ScanLine, Conserves, TurnTokens;
    if |lines| == 0 {
      NothingConserves(NO_SCAN);
    } else {
      ScanConserves(lines[..|lines| - 1]);
      ScanLineConserves(ScanLines(lines[..|lines| - 1]), lines[|lines| - 1]);
    }
  }

  lemma NothingConserves(scan: Scan)
    requires scan.events == 0 && scan.tokens == Usage(0, 0, 0, 0)
    requires NoKeys(scan.dayCounts) && NoKeys(scan.dayTokens) && NoKeys(scan.modelTokens)
    requires NoKeys(scan.dayModelTokens)
    ensures Conserves(scan)
  {
    hide Sum, Column, Get, NoKeys;
    SumOfNone(scan.dayCounts);
    SumOfNone(scan.dayTokens);
    forall model ensures Sum(Column(scan.dayModelTokens, model)) == Get(scan.modelTokens, model) {
      NoColumn(scan.dayModelTokens, model);
      SumOfNone(Column(scan.dayModelTokens, model));
      GetOfNone(scan.modelTokens, model);
    }
  }

  lemma NoColumn(table: map<Day, map<Model, int>>, model: Model)
    requires NoKeys(table)
    ensures NoKeys(Column(table, model))
  {}

  /** What a scan holds of one day, next to what the lines of that day hold. */
  ghost predicate DayIsExact(scan: Scan, lines: seq<Line>, day: Day) {
    && Get(scan.dayCounts, day) == ReadableOn(lines, day)
    && Get(scan.dayTokens, day) == TokensOn(lines, day)
    && (day in scan.dayCounts <==> ReadableOn(lines, day) > 0)
    && (day in scan.dayTokens ==> day in scan.dayCounts)
  }

  lemma ScanLineIsExact(p: Progress, line: Line, day: Day)
    ensures
      var after, on := ScanLine(p, line).scan, line.Tracked? && line.day == day;
      && Get(after.dayCounts, day) == Get(p.scan.dayCounts, day) + (if on then 1 else 0)
      && (day in after.dayCounts <==> day in p.scan.dayCounts || on)
      && Get(after.dayTokens, day) == Get(p.scan.dayTokens, day) + (if on then TurnTokens(line) else 0)
      && (day in after.dayTokens ==> day in p.scan.dayTokens || on)
  {
    if line.Tracked? {
      match line.body
      case StreamStarted(_, _) =>
      case StreamCompleted(_, _) =>
      case TurnCompleted(_) =>
      case OtherTracked =>
    }
  }

  /** Day by day a scan holds what the log's lines of that day hold; a day has an entry if it has a readable line. */
  lemma {:induction false} ScanIsExact(lines: seq<Line>, day: Day)
    ensures DayIsExact(ScanLines(lines).scan, lines, day)
  {
    hide ScanLine, TurnTokens;
    if |lines| > 0 {
      ScanIsExact(lines[..|lines| - 1], day);
      ScanLineIsExact(ScanLines(lines[..|lines| - 1]), lines[|lines| - 1], day);
    }
  }

  // ----- Streams and models -----

  /** The tokens a usage record reports: input and output, which must be numbers, and the two cache counts. */
  ghost function Reported(raw: RawUsage): Option<int> {
    match raw
    case Fields(Some(input), Some(output), cacheRead, cacheWrite) =>
      Some(input + output + (match cacheRead case Some(n) => n case None => 0)
                          + (match cacheWrite case Some(n) => n case None => 0))
    case _ => None
  }

  lemma ReportedIsRead(raw: RawUsage)
    ensures Reported(raw) == if ReadUsage(raw).Some? then Some(TotalOf(ReadUsage(raw).value)) else None
  {}

  ghost predicate Starts(line: Line, id: string, model: Option<Model>) {
    line.Tracked? && line.body == StreamStarted(Some(id), model)
  }

  ghost predicate Completes(line: Line, id: string) {
    line.Tracked? && line.body.StreamCompleted? && line.body.messageId == Some(id)
  }

  /** The stream's last start names this model, and nothing has completed or started it again since. */
  ghost predicate OpenAs(lines: seq<Line>, id: string, model: Option<Model>) {
    exists j :: 0 <= j < |lines| && Starts(lines[j], id, model)
      && forall l :: j < l < |lines| ==> !Completes(lines[l], id) && !(exists other :: Starts(lines[l], id, other))
  }

  lemma OpenSnoc(lines: seq<Line>, line: Line, id: string, model: Option<Model>)
    ensures OpenAs(lines + [line], id, model) <==>
      || Starts(line, id, model)
      || (OpenAs(lines, id, model) && !Completes(line, id) && !(exists other :: Starts(line, id, other)))
  {
    hide Starts, Completes;
    var all := lines + [line];
    assert all[|lines|] == line && forall j :: 0 <= j < |lines| ==> all[j] == lines[j];
    if OpenAs(all, id, model) && !Starts(line, id, model) {
      var j :| 0 <= j < |all| && Starts(all[j], id, model)
        && forall l :: j < l < |all| ==> !Completes(all[l], id) && !(exists other :: Starts(all[l], id, other));
      assert lines[j] == all[j];
      forall l | j < l < |lines| ensures !Completes(lines[l], id) && !(exists other :: Starts(lines[l], id, other)) {
        assert lines[l] == all[l];
      }
    }
    if OpenAs(lines, id, model) && !Completes(line, id) && !(exists other :: Starts(line, id, other)) {
      var j :| 0 <= j < |lines| && Starts(lines[j], id, model)
        && forall l :: j < l < |lines| ==> !Completes(lines[l], id) && !(exists other :: Starts(lines[l], id, other));
      assert all[j] == lines[j];
    }
  }

  lemma LineOpens(p: Progress, line: Line, id: string, model: Option<Model>)
    ensures
      var before, after := p.streams, ScanLine(p, line).streams;
      (id in after && after[id] == model) <==>
        || Starts(line, id, model)
        || (id in before && before[id] == model && !Completes(line, id) && !(exists other :: Starts(line, id, other)))
  {
    if line.Tracked? && line.body.StreamStarted? && line.body.messageId == Some(id) {
      assert Starts(line, id, line.body.model);
    }
  }

  /** The streams a scan keeps in mind are those open at that place of the log. */
  lemma {:induction false} StreamsAreOpen(lines: seq<Line>, id: string, model: Option<Model>)
    ensures
      var streams := ScanLines(lines).streams;
      (id in streams && streams[id] == model) <==> OpenAs(lines, id, model)
  {
    hide ScanLine, OpenAs, Starts, Completes;
    if |lines| == 0 {
      NoneOpen(id, model);
    } else {
      var front, last := lines[..|lines| - 1], lines[|lines| - 1];
      StreamsAreOpen(front, id, model);
      OpenSnoc(front, last, id, model);
      LineOpens(ScanLines(front), last, id, model);
      assert lines == front + [last];
    }
  }

  lemma NoneOpen(id: string, model: Option<Model>)
    ensures !OpenAs([], id, model)
  {}

  /** The tokens that the last line adds for a model: those of a completed stream that was open with this model. */
  ghost function StreamTokens(front: seq<Line>, last: Line, model: Model): int {
    match last
    case Tracked(_, StreamCompleted(Some(id), raw)) =>
      if OpenAs(front, id, Some(model)) && Reported(raw).Some? then Reported(raw).value else 0
    case _ => 0
  }

  /** The tokens of a model's completed streams, on one day or on all. */
  ghost function ModelTokens(lines: seq<Line>, model: Model, day: Option<Day>): int {
    if |lines| == 0 then 0
    else
      var front, last := lines[..|lines| - 1], lines[|lines| - 1];
      ModelTokens(front, model, day)
        + if last.Tracked? && (day.None? || last.day == day.value) then StreamTokens(front, last, model) else 0
  }

  /** How many streams were started with this model. */
  ghost function StartsOf(lines: seq<Line>, model: Model): nat {
    if |lines| == 0 then 0
    else
      var last := lines[|lines| - 1];
      StartsOf(lines[..|lines| - 1], model)
        + if last.Tracked? && last.body.StreamStarted? && last.body.model == Some(model) then 1 else 0
  }

  /** What a scan holds of one model on one day, next to what the log's streams of it report. */
  ghost predicate ModelIsExact(scan: Scan, lines: seq<Line>, model: Model, day: Day) {
    && Get(scan.modelTokens, model) == ModelTokens(lines, model, None)
    && Get(Row(scan.dayModelTokens, day), model) == ModelTokens(lines, model, Some(day))
    && Get(scan.modelStreams, model) == StartsOf(lines, model)
  }

  lemma RowPlus(table: map<Day, map<Model, int>>, at: Day, model: Model, x: int, day: Day, other: Model)
    ensures Get(Row(table[at := Plus(Row(table, at), model, x)], day), other)
         == Get(Row(table, day), other) + if day == at && other == model then x else 0
  {}

  lemma LineCountsModel(p: Progress, front: seq<Line>, line: Line, model: Model, day: Day)
    requires forall id, m :: (id in p.streams && p.streams[id] == m) <==> OpenAs(front, id, m)
    ensures
      var after, tokens := ScanLine(p, line).scan, StreamTokens(front, line, model);
      && (line.Unreadable? ==> tokens == 0)
      && Get(after.modelTokens, model) == Get(p.scan.modelTokens, model) + tokens
      && Get(Row(after.dayModelTokens, day), model)
         == Get(Row(p.scan.dayModelTokens, day), model) + (if line.Tracked? && line.day == day then tokens else 0)
      && Get(after.modelStreams, model) == Get(p.scan.modelStreams, model)
         + if line.Tracked? && line.body.StreamStarted? && line.body.model == Some(model) then 1 else 0
  {
    hide OpenAs, Row, Get, Plus;
    if line.Tracked? {
      match line.body
      case StreamStarted(_, started) =>
        if started.Some? {
          GetPlus(p.scan.modelStreams, started.value, 1, model);
        }
      case StreamCompleted(messageId, raw) =>
        ReportedIsRead(raw);
        var named := StartedModel(p, messageId);
        if messageId.Some? {
          assert OpenAs(front, messageId.value, Some(model)) <==> named == Some(model);
        }
        if named.Some? && ReadUsage(raw).Some? {
          var total := TotalOf(ReadUsage(raw).value);
          GetPlus(p.scan.modelTokens, named.value, total, model);
          RowPlus(p.scan.dayModelTokens, line.day, named.value, total, day, model);
        }
      case _ =>
    }
  }

  /** A scan counts each completed stream for the model its message was last started with. */
  lemma {:induction false} ModelsAreExact(lines: seq<Line>, model: Model, day: Day)
    ensures ModelIsExact(ScanLines(lines).scan, lines, model, day)
  {
    hide ScanLine, StreamTokens, OpenAs, Get, Row;
    if |lines| == 0 {
      NothingOfModel(model, day);
    } else {
      var front, last := lines[..|lines| - 1], lines[|lines| - 1];
      ModelsAreExact(front, model, day);
      forall id, m
        ensures (id in ScanLines(front).streams && ScanLines(front).streams[id] == m) <==> OpenAs(front, id, m)
      {
        StreamsAreOpen(front, id, m);
      }
      LineCountsModel(ScanLines(front), front, last, model, day);
    }
  }

  lemma NothingOfModel(model: Model, day: Day)
    ensures ModelIsExact(NO_SCAN, [], model, day)
  {
    GetOfNone(NO_SCAN.modelTokens, model);
    GetOfNone(NO_SCAN.modelStreams, model);
    GetOfNone(Row(NO_SCAN.dayModelTokens, day), model);
  }

  /** The tokens of a turn, and so all totals over turns, are those its usage record reports. */
  lemma TurnTokensAreReported(line: Line)
    ensures TurnTokens(line) ==
      if line.Tracked? && line.body.TurnCompleted? && Reported(line.body.usage).Some?
      then Reported(line.body.usage).value else 0
  {
    if line.Tracked? && line.body.TurnCompleted? {
      ReportedIsRead(line.body.usage);
    }
  }

  /** The four counts of all completed turns, each added up on its own. */
  ghost function TurnCounts(lines: seq<Line>): Usage {
    if |lines| == 0 then Usage(0, 0, 0, 0)
    else
      var sum := TurnCounts(lines[..|lines| - 1]);
      match lines[|lines| - 1]
      case Tracked(_, TurnCompleted(Fields(Some(input), Some(output), cacheRead, cacheWrite))) =>
        Usage(sum.input + input, sum.output + output,
              sum.cacheRead + (match cacheRead case Some(n) => n case None => 0),
              sum.cacheWrite + (match cacheWrite case Some(n) => n case None => 0))
      case _ => sum
  }

  lemma {:induction false} CountsAreExact(lines: seq<Line>)
    ensures ScanLines(lines).scan.tokens == TurnCounts(lines) && ScanLines(lines).scan.events <= |lines|
  {
    hide Plus, Row;
    if |lines| > 0 {
      CountsAreExact(lines[..|lines| - 1]);
    }
  }

  // ----- All logs -----

  datatype Merged = Merged(
    dayEvents: map<Day, int>,
    dayTokens: map<Day, int>,
    modelDayTokens: map<Model, map<Day, int>>
  )

  function Cell(table: map<Model, map<Day, int>>, model: Model, day: Day): int {
    if model in table then Get(table[model], day) else 0
  }

  /** Entry by entry the second map is added to the first. */
  ghost predicate AddsUp(before: map<Day, int>, more: map<Day, int>, after: map<Day, int>) {
    after.Keys == before.Keys + more.Keys && forall day :: Get(after, day) == Get(before, day) + Get(more, day)
  }

  ghost predicate TablesAddUp(before: map<Model, map<Day, int>>, more: map<Day, map<Model, int>>,
                              after: map<Model, map<Day, int>>) {
    forall model, day :: Cell(after, model, day) == Cell(before, model, day) + Get(Row(more, day), model)
  }

  lemma SomeDay(days: set<Day>)
    requires days != {}
    ensures exists day :: day in days
  {
    if forall day :: day !in days {
      assert false;
    }
  }

  /** The entries but those still to do are added. */
  ghost predicate PartlyAdded(before: map<Day, int>, more: map<Day, int>, todo: set<Day>, after: map<Day, int>) {
    && todo <= more.Keys
    && after.Keys == before.Keys + (more.Keys - todo)
    && forall day :: Get(after, day) == Get(before, day) + if day in todo then 0 else Get(more, day)
  }

  lemma AddOneMore(before: map<Day, int>, more: map<Day, int>, todo: set<Day>, after: map<Day, int>, day: Day)
    requires PartlyAdded(before, more, todo, after) && day in todo
    ensures PartlyAdded(before, more, todo - {day}, Plus(after, day, more[day]))
  {
    hide Get;
    forall other ensures Get(Plus(after, day, more[day]), other)
                      == Get(before, other) + if other in todo - {day} then 0 else Get(more, other)
    {
      GetPlus(after, day, more[day], other);
      GetOf(more, day);
    }
    assert Plus(after, day, more[day]).Keys == before.Keys + (more.Keys - (todo - {day}));
  }

  lemma GetOf<K>(m: map<K, int>, k: K)
    ensures Get(m, k) == if k in m then m[k] else 0
  {}

  /** The loop over the entries of one keyed record, in whatever order they come. */
  method AddDays(before: map<Day, int>, more: map<Day, int>) returns (after: map<Day, int>)
    ensures AddsUp(before, more, after)
  {
    hide PartlyAdded, AddsUp;
    after := before;
    var todo := more.Keys;
    NoneAdded(before, more);
    while todo != {}
      invariant PartlyAdded(before, more, todo, after)
      decreases |todo|
    {
      SomeDay(todo);
      var day :| day in todo;
      StillToDo(before, more, todo, after);
      AddOneMore(before, more, todo, after, day);
      after := Plus(after, day, more[day]);
      todo := todo - {day};
    }
    AllAdded(before, more, after);
  }

  lemma NoneAdded(before: map<Day, int>, more: map<Day, int>)
    ensures PartlyAdded(before, more, more.Keys, before)
  {
    forall day | day !in more.Keys ensures Get(more, day) == 0 {}
  }

  lemma AllAdded(before: map<Day, int>, more: map<Day, int>, after: map<Day, int>)
    requires PartlyAdded(before, more, {}, after)
    ensures AddsUp(before, more, after)
  {
    hide Get;
  }

  lemma StillToDo(before: map<Day, int>, more: map<Day, int>, todo: set<Day>, after: map<Day, int>)
    requires PartlyAdded(before, more, todo, after)
    ensures todo <= more.Keys
  {}

  lemma CellPlus(table: map<Model, map<Day, int>>, model: Model, day: Day, x: int, other: Model, at: Day)
    ensures
      var perDay := if model in table then table[model] else map[];
      Cell(table[model := Plus(perDay, day, x)], other, at)
        == Cell(table, other, at) + if other == model && at == day then x else 0
  {}

  ghost predicate RowPartlyAdded(before: map<Model, map<Day, int>>, day: Day, row: map<Model, int>, todo: set<Model>,
                                 after: map<Model, map<Day, int>>) {
    && todo <= row.Keys
    && forall model, at ::
         Cell(after, model, at)
           == Cell(before, model, at) + if at == day && model !in todo then Get(row, model) else 0
  }

  method AddModels(before: map<Model, map<Day, int>>, day: Day, row: map<Model, int>)
    returns (after: map<Model, map<Day, int>>)
    ensures RowPartlyAdded(before, day, row, {}, after)
  {
    hide Cell;
    after := before;
    var todo := row.Keys;
    forall model | model !in row.Keys ensures Get(row, model) == 0 {}
    while todo != {}
      invariant RowPartlyAdded(before, day, row, todo, after)
      decreases |todo|
    {
      var model :| model in todo;
      var perDay := if model in after then after[model] else map[];
      ghost var next := after[model := Plus(perDay, day, row[model])];
      forall other, at ensures Cell(next, other, at)
        == Cell(before, other, at) + if at == day && other !in todo - {model} then Get(row, other) else 0
      {
        CellPlus(after, model, day, row[model], other, at);
      }
      after := after[model := Plus(perDay, day, row[model])];
      todo := todo - {model};
    }
  }

  ghost predicate TablePartlyAdded(before: map<Model, map<Day, int>>, more: map<Day, map<Model, int>>, todo: set<Day>,
                                   after: map<Model, map<Day, int>>) {
    && todo <= more.Keys
    && forall model, day ::
         Cell(after, model, day)
           == Cell(before, model, day) + if day in todo then 0 else Get(Row(more, day), model)
  }

  method AddTable(before: map<Model, map<Day, int>>, more: map<Day, map<Model, int>>)
    returns (after: map<Model, map<Day, int>>)
    ensures TablesAddUp(before, more, after)
  {
    hide Cell;
    after := before;
    var todo := more.Keys;
    forall day, model | day !in more.Keys ensures Get(Row(more, day), model) == 0 {}
    while todo != {}
      invariant TablePartlyAdded(before, more, todo, after)
      decreases |todo|
    {
      SomeDay(todo);
      var day :| day in todo;
      after := AddModels(after, day, more[day]);
      todo := todo - {day};
    }
  }

  /** What several keyed records hold of one day together. */
  function OnDay(parts: seq<map<Day, int>>, day: Day): int {
    if |parts| == 0 then 0 else OnDay(parts[..|parts| - 1], day) + Get(parts[|parts| - 1], day)
  }

  function CountsOf(scans: seq<Scan>): (parts: seq<map<Day, int>>)
    ensures |parts| == |scans|
  {
    seq(|scans|, i requires 0 <= i < |scans| => scans[i].dayCounts)
  }

  function TurnsOf(scans: seq<Scan>): (parts: seq<map<Day, int>>)
    ensures |parts| == |scans|
  {
    seq(|scans|, i requires 0 <= i < |scans| => scans[i].dayTokens)
  }

  function ModelOf(scans: seq<Scan>, model: Model): (parts: seq<map<Day, int>>)
    ensures |parts| == |scans|
  {
    seq(|scans|, i requires 0 <= i < |scans| => Column(scans[i].dayModelTokens, model))
  }

  /** What merging the scans is to give, day by day and model by model. */
  ghost predicate IsMergeOf(m: Merged, scans: seq<Scan>) {
    && (forall day :: Get(m.dayEvents, day) == OnDay(CountsOf(scans), day))
    && (forall day :: day in m.dayEvents <==> exists k :: 0 <= k < |scans| && day in scans[k].dayCounts)
    && (forall day :: Get(m.dayTokens, day) == OnDay(TurnsOf(scans), day))
    && (forall model, day :: Cell(m.modelDayTokens, model, day) == OnDay(ModelOf(scans, model), day))
  }

  method MergeScans(scans: seq<Scan>) returns (m: Merged)
    ensures IsMergeOf(m, scans)
  {
    m := Merged(map[], map[], map[]);
    for i := 0 to |scans|
      invariant IsMergeOf(m, scans[..i])
    {
      assert scans[..i + 1][..i] == scans[..i];
      var dayEvents := AddDays(m.dayEvents, scans[i].dayCounts);
      var dayTokens := AddDays(m.dayTokens, scans[i].dayTokens);
      var models := AddTable(m.modelDayTokens, scans[i].dayModelTokens);
      OneMoreScan(m, Merged(dayEvents, dayTokens, models), scans[..i + 1]);
      m := Merged(dayEvents, dayTokens, models);
    }
    assert scans[..|scans|] == scans;
  }

  lemma ColumnIsRow(table: map<Day, map<Model, int>>, model: Model, day: Day)
    ensures Get(Column(table, model), day) == Get(Row(table, day), model)
  {}

  lemma DaysOneMore(before: Merged, after: Merged, front: seq<Scan>, last: Scan)
    requires after.dayEvents.Keys == before.dayEvents.Keys + last.dayCounts.Keys
    requires forall day :: day in before.dayEvents <==> exists k :: 0 <= k < |front| && day in front[k].dayCounts
    ensures
      var scans := front + [last];
      forall day :: day in after.dayEvents <==> exists k :: 0 <= k < |scans| && day in scans[k].dayCounts
  {
    var scans := front + [last];
    assert scans[|front|] == last && forall k :: 0 <= k < |front| ==> front[k] == scans[k];
    forall day ensures day in after.dayEvents <==> exists k :: 0 <= k < |scans| && day in scans[k].dayCounts {
      if day in before.dayEvents {
        var k :| 0 <= k < |front| && day in front[k].dayCounts;
        assert day in scans[k].dayCounts;
      }
      if k :| 0 <= k < |scans| && day in scans[k].dayCounts {
        assert k < |front| ==> day in front[k].dayCounts;
      }
    }
  }

  lemma PartOneMore(parts: seq<map<Day, int>>, before: map<Day, int>, after: map<Day, int>)
    requires |parts| > 0 && AddsUp(before, parts[|parts| - 1], after)
    requires forall day :: Get(before, day) == OnDay(parts[..|parts| - 1], day)
    ensures forall day :: Get(after, day) == OnDay(parts, day)
  {
    hide Get;
  }

  lemma ModelOneMore(scans: seq<Scan>, before: map<Model, map<Day, int>>, after: map<Model, map<Day, int>>)
    requires |scans| > 0 && TablesAddUp(before, scans[|scans| - 1].dayModelTokens, after)
    requires forall model, day :: Cell(before, model, day) == OnDay(ModelOf(scans[..|scans| - 1], model), day)
    ensures forall model, day :: Cell(after, model, day) == OnDay(ModelOf(scans, model), day)
  {
    hide Get, Cell, Row, Column;
    var front, last := scans[..|scans| - 1], scans[|scans| - 1];
    forall model, day ensures Cell(after, model, day) == OnDay(ModelOf(scans, model), day) {
      assert ModelOf(scans, model)[..|front|] == ModelOf(front, model);
      ColumnIsRow(last.dayModelTokens, model, day);
    }
  }

  lemma OneMoreScan(before: Merged, after: Merged, scans: seq<Scan>)
    requires |scans| > 0 && IsMergeOf(before, scans[..|scans| - 1])
    requires AddsUp(before.dayEvents, scans[|scans| - 1].dayCounts, after.dayEvents)
    requires AddsUp(before.dayTokens, scans[|scans| - 1].dayTokens, after.dayTokens)
    requires TablesAddUp(before.modelDayTokens, scans[|scans| - 1].dayModelTokens, after.modelDayTokens)
    ensures IsMergeOf(after, scans)
  {
    hide Get, Cell, OnDay, TablesAddUp;
    var front, last := scans[..|scans| - 1], scans[|scans| - 1];
    assert scans == front + [last];
    assert CountsOf(scans)[..|front|] == CountsOf(front) && TurnsOf(scans)[..|front|] == TurnsOf(front);
    PartOneMore(CountsOf(scans), before.dayEvents, after.dayEvents);
    PartOneMore(TurnsOf(scans), before.dayTokens, after.dayTokens);
    ModelOneMore(scans, before.modelDayTokens, after.modelDayTokens);
    DaysOneMore(before, after, front, last);
  }

  // ----- One range of days -----

  predicate InWindow(day: Day, window: Option<set<Day>>) {
    window.None? || day in window.value
  }

  function DaysIn(m: map<Day, int>, window: Option<set<Day>>): set<Day> {
    set day | day in m && InWindow(day, window)
  }

  ghost function TokensIn(m: map<Day, int>, window: Option<set<Day>>): int {
    SumOver(m, DaysIn(m, window))
  }

  predicate IsActiveIn(scan: Scan, window: Option<set<Day>>) {
    exists day :: day in scan.dayCounts && InWindow(day, window)
  }

  function SessionsIn(scans: seq<Scan>, window: Option<set<Day>>): nat {
    if |scans| == 0 then 0
    else SessionsIn(scans[..|scans| - 1], window) + if IsActiveIn(scans[|scans| - 1], window) then 1 else 0
  }

  /** The places of the sessions with an event on some day of the range. */
  ghost function ActiveSessions(scans: seq<Scan>, window: Option<set<Day>>): set<int> {
    set i | 0 <= i < |scans| && IsActiveIn(scans[i], window)
  }

  lemma ActiveSnoc(scans: seq<Scan>, window: Option<set<Day>>)
    requires |scans| > 0
    ensures
      var n := |scans| - 1;
      && n !in ActiveSessions(scans[..n], window)
      && ActiveSessions(scans, window)
         == ActiveSessions(scans[..n], window) + if IsActiveIn(scans[n], window) then {n} else {}
  {
    hide IsActiveIn;
    var n := |scans| - 1;
    forall i ensures i in ActiveSessions(scans, window) <==>
      i in ActiveSessions(scans[..n], window) || (i == n && IsActiveIn(scans[n], window))
    {
      assert 0 <= i < n ==> scans[..n][i] == scans[i];
    }
  }

  /** The sessions counted are those with an event on some day of the range. */
  lemma {:induction false} SessionsAreActive(scans: seq<Scan>, window: Option<set<Day>>)
    ensures SessionsIn(scans, window) == |ActiveSessions(scans, window)|
  {
    hide IsActiveIn, ActiveSessions;
    if |scans| == 0 {
      NoSessions(window);
    } else {
      SessionsAreActive(scans[..|scans| - 1], window);
      ActiveSnoc(scans, window);
    }
  }

  lemma NoSessions(window: Option<set<Day>>)
    ensures ActiveSessions([], window) == {}
  {}

  /** The latest of the days with the most tokens, unless all are negative. */
  ghost predicate IsMostActive(m: map<Day, int>, days: set<Day>, best: Option<Day>, most: int) {
    && most >= 0
    && (best.None? ==> most == 0)
    && (best.Some? ==> best.value in days && best.value in m && m[best.value] == most)
    && forall day :: day in days && day in m ==>
         m[day] < most || (m[day] == most && best.Some? && day <= best.value)
  }

  datatype Overview = Overview(
    totalTokens: int,
    sessions: nat,
    activeDays: nat,
    mostActiveDay: Option<Day>,
    modelTotals: map<Model, int>
  )

  /** One more day of the range goes into its sum. */
  lemma SumOneMore(m: map<Day, int>, days: set<Day>, todo: set<Day>, day: Day)
    requires day in todo
    ensures SumOver(m, days - (todo - {day})) == SumOver(m, days - todo) + if day in days then Get(m, day) else 0
  {
    if day in days {
      SumOverPick(m, days - (todo - {day}), day);
      assert days - (todo - {day}) - {day} == days - todo;
    } else {
      assert days - (todo - {day}) == days - todo;
    }
  }

  predicate IsBetter(day: Day, tokens: int, best: Option<Day>, most: int) {
    tokens > most || (tokens == most && (best.None? || day > best.value))
  }

  lemma BestOneMore(m: map<Day, int>, days: set<Day>, todo: set<Day>, day: Day, best: Option<Day>, most: int)
    requires day in m && day in todo && IsMostActive(m, days - todo, best, most)
    ensures
      var after := days - (todo - {day});
      if day !in days then after == days - todo
      else
        && after != {}
        && if IsBetter(day, m[day], best, most) then IsMostActive(m, after, Some(day), m[day])
           else IsMostActive(m, after, best, most)
  {
    var after := days - (todo - {day});
    if day in days {
      assert day in after;
      forall other | other in after ensures other == day || other in days - todo {}
    } else {
      assert after == days - todo;
    }
  }

  /** The loop over the days: whether there are any in the range, their sum, and the most active of them. */
  method SumDays(dayTokens: map<Day, int>, window: Option<set<Day>>)
    returns (some: bool, total: int, best: Option<Day>, most: int)
    ensures some <==> DaysIn(dayTokens, window) != {}
    ensures total == TokensIn(dayTokens, window)
    ensures IsMostActive(dayTokens, DaysIn(dayTokens, window), best, most)
  {
    hide SumOver;
    some, total, best, most := false, 0, None, 0;
    var todo := dayTokens.Keys;
    ghost var days := DaysIn(dayTokens, window);
    assert days - todo == {};
    SumOverNothing(dayTokens, days - todo);
    while todo != {}
      invariant todo <= dayTokens.Keys && total == SumOver(dayTokens, days - todo)
      invariant IsMostActive(dayTokens, days - todo, best, most)
      invariant some <==> days - todo != {}
      decreases |todo|
    {
      SomeDay(todo);
      var day :| day in todo;
      assert day in days <==> InWindow(day, window);
      SumOneMore(dayTokens, days, todo, day);
      BestOneMore(dayTokens, days, todo, day, best, most);
      hide IsMostActive, DaysIn, InWindow, Get;
      if InWindow(day, window) {
        var tokens := dayTokens[day];
        total := total + tokens;
        if IsBetter(day, tokens, best, most) {
          best, most := Some(day), tokens;
        }
        some := true;
      }
      todo := todo - {day};
    }
    assert days - todo == days;
  }

  /** The models with a day in the range. */
  function ModelsIn(table: map<Model, map<Day, int>>, window: Option<set<Day>>): set<Model> {
    set model | model in table && DaysIn(table[model], window) != {}
  }

  lemma ModelsHaveDays(table: map<Model, map<Day, int>>, window: Option<set<Day>>)
    ensures forall model :: model in ModelsIn(table, window) <==>
      model in table && exists day :: day in table[model] && InWindow(day, window)
  {
    forall model | model in table
      ensures DaysIn(table[model], window) != {} <==> exists day :: day in table[model] && InWindow(day, window)
    {
      if day :| day in table[model] && InWindow(day, window) {
        assert day in DaysIn(table[model], window);
      }
      if DaysIn(table[model], window) != {} {
        SomeDay(DaysIn(table[model], window));
      }
    }
  }

  method SumModels(table: map<Model, map<Day, int>>, window: Option<set<Day>>) returns (totals: map<Model, int>)
    ensures totals.Keys == ModelsIn(table, window)
    ensures forall model :: model in totals ==> totals[model] == TokensIn(table[model], window)
  {
    totals := map[];
    var todo := table.Keys;
    while todo != {}
      invariant todo <= table.Keys && totals.Keys == ModelsIn(table, window) - todo
      invariant forall model :: model in totals ==> totals[model] == TokensIn(table[model], window)
      decreases |todo|
    {
      hide DaysIn, TokensIn;
      var model :| model in todo;
      var some, total, _, _ := SumDays(table[model], window);
      if some {
        totals := totals[model := total];
      }
      todo := todo - {model};
    }
  }

  method SummarizeRange(scans: seq<Scan>, m: Merged, window: Option<set<Day>>) returns (o: Overview)
    ensures o.totalTokens == TokensIn(m.dayTokens, window)
    ensures o.sessions == SessionsIn(scans, window) == |ActiveSessions(scans, window)|
    ensures o.activeDays == |DaysIn(m.dayEvents, window)|
    ensures exists best, most ::
      && IsMostActive(m.dayTokens, DaysIn(m.dayTokens, window), best, most)
      && o.mostActiveDay == if most > 0 then best else None
    ensures o.modelTotals.Keys == ModelsIn(m.modelDayTokens, window)
    ensures forall model :: model in o.modelTotals <==>
      model in m.modelDayTokens && exists day :: day in m.modelDayTokens[model] && InWindow(day, window)
    ensures forall model :: model in o.modelTotals ==>
      o.modelTotals[model] == TokensIn(m.modelDayTokens[model], window)
  {
    SessionsAreActive(scans, window);
    ModelsHaveDays(m.modelDayTokens, window);
    hide ModelsIn;
    var sessions := 0;
    for i := 0 to |scans|
      invariant sessions == SessionsIn(scans[..i], window)
    {
      assert scans[..i + 1][..i] == scans[..i];
      if IsActiveIn(scans[i], window) {
        sessions := sessions + 1;
      }
    }
    assert scans[..|scans|] == scans;
    var _, total, best, most := SumDays(m.dayTokens, window);
    var models := SumModels(m.modelDayTokens, window);
    o := Overview(total, sessions, |DaysIn(m.dayEvents, window)|, if most > 0 then best else None, models);
  }

  /** The last `n` days including today. */
  function DayWindow(today: Day, n: nat): (days: set<Day>)
    ensures forall day :: day in days <==> today - n < day <= today
  {
    if n == 0 then {} else DayWindow(today, n - 1) + {today - (n - 1)}
  }

  method BuildStatsData(scans: seq<Scan>, today: Day)
    returns (all: Overview, month: Overview, week: Overview, ghost m: Merged)
    ensures IsMergeOf(m, scans)
    ensures all.totalTokens == TokensIn(m.dayTokens, None)
    ensures month.totalTokens == TokensIn(m.dayTokens, Some(DayWindow(today, 30)))
    ensures week.totalTokens == TokensIn(m.dayTokens, Some(DayWindow(today, 7)))
    ensures all.sessions == SessionsIn(scans, None)
    ensures month.sessions == SessionsIn(scans, Some(DayWindow(today, 30)))
    ensures week.sessions == SessionsIn(scans, Some(DayWindow(today, 7)))
  {
    hide IsMergeOf;
    var merged := MergeScans(scans);
    m := merged;
    all := SummarizeRange(scans, merged, None);
    month := SummarizeRange(scans, merged, Some(DayWindow(today, 30)));
    week := SummarizeRange(scans, merged, Some(DayWindow(today, 7)));
  }

  // ----- The overview conserves totals -----

  ghost function SumOfParts(parts: seq<map<Day, int>>): int {
    if |parts| == 0 then 0 else SumOfParts(parts[..|parts| - 1]) + Sum(parts[|parts| - 1])
  }

  ghost predicate Within(parts: seq<map<Day, int>>, days: set<Day>) {
    forall k :: 0 <= k < |parts| ==> parts[k].Keys <= days
  }

  /** Adding up the days of the merge is adding up the parts. */
  lemma {:induction false} DaysThenParts(parts: seq<map<Day, int>>, m: map<Day, int>, days: set<Day>)
    requires forall day :: day in days ==> Get(m, day) == OnDay(parts, day)
    requires Within(parts, days)
    ensures SumOver(m, days) == SumOfParts(parts)
    decreases |parts|
  {
    hide SumOver, Sum;
    if |parts| == 0 {
      forall day | day in days ensures Get(m, day) == 0 {
        assert Get(m, day) == OnDay(parts, day);
      }
      SumOverNothing(m, days);
    } else {
      var front, last := parts[..|parts| - 1], parts[|parts| - 1];
      var rest := map day | day in days :: OnDay(front, day);
      DaysThenParts(front, rest, days);
      SumOverAdds(rest, last, m, days);
      SumOverMore(last, days);
    }
  }

  ghost function AllDays(parts: seq<map<Day, int>>): set<Day> {
    if |parts| == 0 then {} else AllDays(parts[..|parts| - 1]) + parts[|parts| - 1].Keys
  }

  lemma {:induction false} PartsAreWithin(parts: seq<map<Day, int>>)
    ensures Within(parts, AllDays(parts))
  {
    if |parts| > 0 {
      PartsAreWithin(parts[..|parts| - 1]);
      assert forall k :: 0 <= k < |parts| - 1 ==> parts[k] == parts[..|parts| - 1][k];
    }
  }

  /** The range over all days of a merge totals what its parts total. */
  lemma AllIsSumOfParts(parts: seq<map<Day, int>>, m: map<Day, int>)
    requires forall day :: Get(m, day) == OnDay(parts, day)
    ensures TokensIn(m, None) == SumOfParts(parts)
  {
    hide SumOver;
    var days := m.Keys + AllDays(parts);
    assert DaysIn(m, None) == m.Keys;
    PartsAreWithin(parts);
    SumOverMore(m, days);
    DaysThenParts(parts, m, days);
  }

  /** The tokens of all completed turns of all logs, added up line by line. */
  function AllTokens(logs: seq<seq<Line>>): int {
    if |logs| == 0 then 0 else AllTokens(logs[..|logs| - 1]) + TokensOf(logs[|logs| - 1])
  }

  ghost predicate AreScansOf(scans: seq<Scan>, logs: seq<seq<Line>>) {
    |scans| == |logs| && forall k :: 0 <= k < |logs| ==> scans[k] == ScanLines(logs[k]).scan
  }

  lemma {:induction false} TurnsThenLines(scans: seq<Scan>, logs: seq<seq<Line>>)
    requires AreScansOf(scans, logs)
    ensures SumOfParts(TurnsOf(scans)) == AllTokens(logs)
    decreases |scans|
  {
    hide ScanLines, Sum, Column, TokensOf;
    if |scans| > 0 {
      var n := |scans| - 1;
      TurnsThenLines(scans[..n], logs[..n]);
      ScanConserves(logs[n]);
      assert TurnsOf(scans)[..n] == TurnsOf(scans[..n]);
    }
  }

  function ScannedFor(scans: seq<Scan>, model: Model): int {
    if |scans| == 0 then 0
    else ScannedFor(scans[..|scans| - 1], model) + Get(scans[|scans| - 1].modelTokens, model)
  }

  lemma {:induction false} ColumnsThenTotals(scans: seq<Scan>, logs: seq<seq<Line>>, model: Model)
    requires AreScansOf(scans, logs)
    ensures SumOfParts(ModelOf(scans, model)) == ScannedFor(scans, model)
    decreases |scans|
  {
    hide ScanLines, Sum, Column, Get;
    if |scans| > 0 {
      var n := |scans| - 1;
      ColumnsThenTotals(scans[..n], logs[..n], model);
      ScanConserves(logs[n]);
      assert ModelOf(scans, model)[..n] == ModelOf(scans[..n], model);
    }
  }

  /**
   * The range over all days totals the tokens of every completed turn of every log, and for each model what
   * the scans total for it.
   */
  lemma AllIsDirectSum(logs: seq<seq<Line>>, scans: seq<Scan>, m: Merged)
    requires AreScansOf(scans, logs) && IsMergeOf(m, scans)
    ensures TokensIn(m.dayTokens, None) == AllTokens(logs)
    ensures forall model :: model in m.modelDayTokens ==>
      TokensIn(m.modelDayTokens[model], None) == ScannedFor(scans, model)
  {
    hide AreScansOf, TokensIn, SumOfParts, OnDay, Get;
    AllIsSumOfParts(TurnsOf(scans), m.dayTokens);
    TurnsThenLines(scans, logs);
    forall model | model in m.modelDayTokens
      ensures TokensIn(m.modelDayTokens[model], None) == ScannedFor(scans, model)
    {
      forall day ensures Get(m.modelDayTokens[model], day) == OnDay(ModelOf(scans, model), day) {
        assert Cell(m.modelDayTokens, model, day) == OnDay(ModelOf(scans, model), day);
      }
      AllIsSumOfParts(ModelOf(scans, model), m.modelDayTokens[model]);
      ColumnsThenTotals(scans, logs, model);
    }
  }

  function LoggedOn(logs: seq<seq<Line>>, day: Day): int {
    if |logs| == 0 then 0 else LoggedOn(logs[..|logs| - 1], day) + TokensOn(logs[|logs| - 1], day)
  }

  /** Each day of an overview totals the completed turns of that day in all logs. */
  lemma {:induction false} DaysAreExact(logs: seq<seq<Line>>, scans: seq<Scan>, day: Day)
    requires AreScansOf(scans, logs)
    ensures OnDay(TurnsOf(scans), day) == LoggedOn(logs, day)
    decreases |logs|
  {
    hide ScanLines, TokensOn, Get;
    if |logs| > 0 {
      var n := |logs| - 1;
      DaysAreExact(logs[..n], scans[..n], day);
      ScanIsExact(logs[n], day);
      assert TurnsOf(scans)[..n] == TurnsOf(scans[..n]);
    }
  }

  // ----- Which ranges grow -----

  /** A range is a smaller one and the days between. */
  lemma RangeSplits(m: map<Day, int>, small: set<Day>, large: Option<set<Day>>)
    requires large.Some? ==> small <= large.value
    ensures TokensIn(m, large) == TokensIn(m, Some(small)) + SumOver(m, DaysIn(m, large) - small)
  {
    var days := DaysIn(m, Some(small));
    assert DaysIn(m, large) == days + (DaysIn(m, large) - small);
    SumOverSplit(m, days, DaysIn(m, large) - small);
  }

  /** Every range totals no more than every larger one. */
  ghost predicate RangesGrow(m: map<Day, int>) {
    forall small: set<Day>, large: Option<set<Day>> :: (large.Some? ==> small <= large.value) ==>
      TokensIn(m, Some(small)) <= TokensIn(m, large)
  }

  /** Totals grow with the range exactly if no day's total is negative. */
  lemma RangesGrowIff(m: map<Day, int>)
    ensures RangesGrow(m) <==> forall day :: day in m ==> m[day] >= 0
  {
    hide SumOver;
    if forall day :: day in m ==> m[day] >= 0 {
      forall small: set<Day>, large: Option<set<Day>> | large.Some? ==> small <= large.value
        ensures TokensIn(m, Some(small)) <= TokensIn(m, large)
      {
        RangeSplits(m, small, large);
        SumOverPositive(m, DaysIn(m, large) - small);
      }
    }
    if RangesGrow(m) {
      forall day | day in m ensures m[day] >= 0 {
        assert TokensIn(m, Some({})) <= TokensIn(m, Some({day}));
        assert DaysIn(m, Some({})) == {} && DaysIn(m, Some({day})) == {day};
        SumOverNothing(m, {});
        SumOverPick(m, {day}, day);
        assert {day} - {day} == {};
      }
    }
  }

  lemma {:induction false} NonNegativeDays(lines: seq<Line>, day: Day)
    requires forall k :: 0 <= k < |lines| ==> TurnTokens(lines[k]) >= 0
    ensures TokensOn(lines, day) >= 0
  {
    hide TurnTokens;
    if |lines| > 0 {
      NonNegativeDays(lines[..|lines| - 1], day);
    }
  }

  lemma {:induction false} NonNegativeLogs(logs: seq<seq<Line>>, day: Day)
    requires forall j, k :: 0 <= j < |logs| && 0 <= k < |logs[j]| ==> TurnTokens(logs[j][k]) >= 0
    ensures LoggedOn(logs, day) >= 0
  {
    hide TurnTokens, TokensOn;
    if |logs| > 0 {
      NonNegativeLogs(logs[..|logs| - 1], day);
      NonNegativeDays(logs[|logs| - 1], day);
    }
  }

  /** If no turn reports a negative total, the week totals no more than the month, and the month no more than all. */
  lemma RangesGrowForUsualLogs(logs: seq<seq<Line>>, scans: seq<Scan>, m: Merged, today: Day)
    requires forall j, k :: 0 <= j < |logs| && 0 <= k < |logs[j]| ==> TurnTokens(logs[j][k]) >= 0
    requires AreScansOf(scans, logs) && IsMergeOf(m, scans)
    ensures
      && TokensIn(m.dayTokens, Some(DayWindow(today, 7))) <= TokensIn(m.dayTokens, Some(DayWindow(today, 30)))
      && TokensIn(m.dayTokens, Some(DayWindow(today, 30))) <= TokensIn(m.dayTokens, None)
  {
    hide TurnTokens, TokensIn, AreScansOf;
    forall day | day in m.dayTokens ensures m.dayTokens[day] >= 0 {
      assert Get(m.dayTokens, day) == OnDay(TurnsOf(scans), day);
      DaysAreExact(logs, scans, day);
      NonNegativeLogs(logs, day);
    }
    RangesGrowIff(m.dayTokens);
  }

  /** Sessions and active days grow with the range, whatever the logs say. */
  lemma {:induction false} SessionsGrow(scans: seq<Scan>, small: set<Day>, large: Option<set<Day>>)
    requires large.Some? ==> small <= large.value
    ensures SessionsIn(scans, Some(small)) <= SessionsIn(scans, large)
  {
    if |scans| > 0 {
      SessionsGrow(scans[..|scans| - 1], small, large);
      if IsActiveIn(scans[|scans| - 1], Some(small)) {
        var day :| day in scans[|scans| - 1].dayCounts && day in small;
        assert InWindow(day, large);
      }
    }
  }

  function Turn(day: Day, tokens: int): Line {
    Tracked(day, TurnCompleted(Fields(Some(tokens), Some(0), None, None)))
  }

  lemma TurnAddsTokens(p: Progress, day: Day, tokens: int)
    ensures ScanLine(p, Turn(day, tokens)).scan.dayTokens == Plus(p.scan.dayTokens, day, tokens)
  {}

  lemma TwoTurns(today: Day)
    ensures ScanLines([Turn(today, 10), Turn(today - 40, -5)]).scan.dayTokens == map[today := 10, today - 40 := -5]
  {
    hide ScanLine, Turn;
    var lines := [Turn(today, 10), Turn(today - 40, -5)];
    assert lines[..1][..0] == [];
    var p := ScanLines([]);
    TurnAddsTokens(p, today, 10);
    TurnAddsTokens(ScanLine(p, lines[0]), today - 40, -5);
    assert ScanLines(lines[..1]) == ScanLine(p, lines[0]);
  }

  /** Ten tokens today and minus five forty days ago: the week and the month total 10, all days 5. */
  lemma NegativeUsageExample(today: Day)
    ensures
      var tokens := ScanLines([Turn(today, 10), Turn(today - 40, -5)]).scan.dayTokens;
      && TokensIn(tokens, Some(DayWindow(today, 7))) == 10
      && TokensIn(tokens, Some(DayWindow(today, 30))) == 10
      && TokensIn(tokens, None) == 5
  {
    TwoTurns(today);
    hide ScanLines, SumOver;
    var tokens := map[today := 10, today - 40 := -5];
    assert DaysIn(tokens, Some(DayWindow(today, 7))) == {today} == DaysIn(tokens, Some(DayWindow(today, 30)));
    assert DaysIn(tokens, None) == {today, today - 40};
    SumOverPick(tokens, {today}, today);
    SumOverPick(tokens, {today, today - 40}, today - 40);
    assert {today, today - 40} - {today - 40} == {today} && {today} - {today} == {};
    SumOverNothing(tokens, {});
  }
}
