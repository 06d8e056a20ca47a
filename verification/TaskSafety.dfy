/** What every step of the task daemon keeps: the invariant, and the safety it stands for. */
module TaskSafety {
  import opened Results
  import opened Scheduler
  import opened TaskRuns

  // ----- The journal's history -----

  /** The window last journaled for a task since it was last removed; 0 before any. */
  function LastRecorded(history: seq<Note>, id: TaskId): int {
    if |history| == 0 then 0
    else
      var before := LastRecorded(history[..|history| - 1], id);
      match history[|history| - 1]
      case Recorded(e) => if e.taskId == id then e.scheduledFor else before
      case Removed(gone) => if gone == id then 0 else before
  }

  /** Every window journaled for a task is later than all journaled for it before, unless it was removed since. */
  ghost predicate Ascends(history: seq<Note>) {
    forall i :: 0 <= i < |history| && history[i].Recorded? ==>
      history[i].entry.scheduledFor > LastRecorded(history[..i], history[i].entry.taskId)
  }

  lemma LastRecordedSnoc(history: seq<Note>, note: Note, id: TaskId)
    ensures LastRecorded(history + [note], id) ==
      match note
      case Recorded(e) => if e.taskId == id then e.scheduledFor else LastRecorded(history, id)
      case Removed(gone) => if gone == id then 0 else LastRecorded(history, id)
  {
    assert (history + [note])[..|history|] == history;
  }

  lemma AscendsSnoc(history: seq<Note>, note: Note)
    requires Ascends(history)
    requires note.Recorded? ==> note.entry.scheduledFor > LastRecorded(history, note.entry.taskId)
    ensures Ascends(history + [note])
  {
    var all := history + [note];
    forall i | 0 <= i < |all| && all[i].Recorded?
      ensures all[i].entry.scheduledFor > LastRecorded(all[..i], all[i].entry.taskId)
    {
      assert all[..i] == history[..i];
      assert i == |history| ==> history[..i] == history;
    }
  }

  // ----- The log -----

  /** The tasks whose runs a log leaves unfinished. */
  ghost function OpenRuns(log: seq<LogEntry>): set<TaskId> {
    if |log| == 0 then {} else OpenAfter(OpenRuns(log[..|log| - 1]), log[|log| - 1])
  }

  ghost function OpenAfter(before: set<TaskId>, e: LogEntry): set<TaskId> {
    match e
    case Launched(id, _, _) => before + {id}
    case Ended(id, _, _) => before - {id}
    case Restarted => {}
  }

  lemma OpenRunsSnoc(log: seq<LogEntry>, e: LogEntry)
    ensures OpenRuns(log + [e]) == OpenAfter(OpenRuns(log), e)
  {
    assert (log + [e])[..|log|] == log;
  }

  /** No run is launched while an earlier run of its task is unfinished. */
  ghost predicate NoOverlap(log: seq<LogEntry>) {
    forall i :: 0 <= i < |log| && log[i].Launched? ==> log[i].taskId !in OpenRuns(log[..i])
  }

  /** Runs are launched in the order of their records, so each record is launched at most once. */
  ghost predicate LaunchesInOrder(log: seq<LogEntry>) {
    forall i, j :: 0 <= i < j < |log| && log[i].Launched? && log[j].Launched? ==> log[i].runId < log[j].runId
  }

  /** Whatever was launched stands in the journal's history as running. */
  ghost predicate LaunchesAreJournaled(log: seq<LogEntry>, history: seq<Note>) {
    forall i :: 0 <= i < |log| && log[i].Launched? ==>
      IsRecorded(history, log[i].runId, Entry(log[i].taskId, Running, log[i].scheduledFor))
  }

  ghost predicate IsRecorded(history: seq<Note>, runId: nat, e: Entry) {
    runId < |history| && history[runId] == Recorded(e)
  }

  lemma NoOverlapSnoc(log: seq<LogEntry>, e: LogEntry)
    requires NoOverlap(log) && (e.Launched? ==> e.taskId !in OpenRuns(log))
    ensures NoOverlap(log + [e])
  {
    var all := log + [e];
    forall i | 0 <= i < |all| && all[i].Launched? ensures all[i].taskId !in OpenRuns(all[..i]) {
      assert all[..i] == log[..i];
      assert i == |log| ==> log[..i] == log;
    }
  }

  // ----- The parts of the invariant -----

  ghost predicate TasksOk(tasks: seq<Task>) {
    && (forall k :: 0 <= k < |tasks| ==> ValidTask(tasks[k]))
    && (forall j, k :: 0 <= j < k < |tasks| ==> tasks[j].id != tasks[k].id)
  }

  ghost predicate CursorsOk(cursors: map<TaskId, int>, history: seq<Note>) {
    && (forall id :: id in cursors ==> cursors[id] > 0)
    && (forall id :: Cursor(cursors, id) == LastRecorded(history, id))
  }

  /** The journal holds the latest part of its history, with statuses brought up to date. */
  ghost predicate RunsOk(runs: seq<RunRecord>, history: seq<Note>) {
    && (forall i :: 0 <= i < |runs| ==> IsRecordOf(runs[i], history))
    && (forall i, j :: 0 <= i < j < |runs| ==> runs[i].runId < runs[j].runId)
  }

  ghost predicate IsRecordOf(r: RunRecord, history: seq<Note>) {
    && r.runId < |history|
    && history[r.runId].Recorded?
    && history[r.runId].entry.taskId == r.taskId
    && history[r.runId].entry.scheduledFor == r.scheduledFor
  }

  ghost predicate FlightsOk(inFlight: map<TaskId, Flight>, history: seq<Note>) {
    forall id :: id in inFlight ==>
      IsRecorded(history, inFlight[id].runId, Entry(id, Running, inFlight[id].scheduledFor))
  }

  /** A record is called running only while booting, or while its run is about to enter or in flight and not noted. */
  ghost predicate RunningOk(h: Host) {
    h.booting || forall i :: 0 <= i < |h.runs| && h.runs[i].status.Running? ==> IsUnderWay(h, h.runs[i])
  }

  ghost predicate IsUnderWay(h: Host, r: RunRecord) {
    || IsEntering(h.tick, r.taskId, r.runId)
    || (r.taskId in h.inFlight && h.inFlight[r.taskId].runId == r.runId && !h.inFlight[r.taskId].phase.Noted?)
  }

  ghost predicate IsEntering(tick: Tick, id: TaskId, runId: nat) {
    tick.Ticking? && tick.stage.Entering? && tick.stage.taskId == id && tick.stage.runId == runId
  }

  ghost predicate IsSpawning(tick: Tick, id: TaskId, runId: nat) {
    tick.Ticking? && tick.stage.Spawning? && tick.stage.taskId == id && tick.stage.runId == runId
  }

  ghost predicate LogOk(log: seq<LogEntry>, history: seq<Note>) {
    NoOverlap(log) && LaunchesInOrder(log) && LaunchesAreJournaled(log, history)
  }

  /** The open runs of the log are the flights that are spawned and not exited. */
  ghost predicate OpenOk(log: seq<LogEntry>, inFlight: map<TaskId, Flight>) {
    forall id :: id in OpenRuns(log) <==> id in inFlight && inFlight[id].phase.Spawned?
  }

  /** A flight that is not spawned yet is the one being launched. */
  ghost predicate EnteredOk(tick: Tick, inFlight: map<TaskId, Flight>) {
    forall id :: id in inFlight && inFlight[id].phase.Entered? ==> IsSpawning(tick, id, inFlight[id].runId)
  }

  ghost predicate LaunchedBefore(log: seq<LogEntry>, runId: nat) {
    forall i :: 0 <= i < |log| && log[i].Launched? ==> log[i].runId < runId
  }

  ghost predicate StageOk(tick: Tick, inFlight: map<TaskId, Flight>, history: seq<Note>, log: seq<LogEntry>) {
    tick.Ticking? ==>
      match tick.stage
      case NoLaunch => true
      case Verifying(id, at) => id !in inFlight
      case Committing(id, at) => id !in inFlight && |tick.todo| == 0
      case Entering(id, at, runId) =>
        && id !in inFlight && |tick.todo| == 0
        && IsRecorded(history, runId, Entry(id, Running, at))
        && LaunchedBefore(log, runId)
      case Spawning(id, at, runId) =>
        && id in inFlight && inFlight[id] == Flight(runId, at, Entered) && |tick.todo| == 0
        && LaunchedBefore(log, runId)
  }

  ghost predicate IsStageOf(stage: Stage, id: TaskId) {
    !stage.NoLaunch? && stage.taskId == id
  }

  ghost predicate GroupOk(g: seq<Fire>, stage: Stage, inFlight: map<TaskId, Flight>) {
    && |g| > 0
    && (forall i :: 0 <= i < |g| ==> g[i].task.id == GroupId(g))
    && GroupId(g) !in inFlight
    && !IsStageOf(stage, GroupId(g))
  }

  ghost predicate GroupsOk(tick: Tick, inFlight: map<TaskId, Flight>) {
    tick.Ticking? ==>
      && (forall k :: 0 <= k < |tick.groups| ==> GroupOk(tick.groups[k], tick.stage, inFlight))
      && (forall j, k :: 0 <= j < k < |tick.groups| ==> GroupId(tick.groups[j]) != GroupId(tick.groups[k]))
  }

  /** What is journaled without a launch has its final status at once. */
  ghost predicate TodoOk(tick: Tick) {
    tick.Ticking? ==> forall k :: 0 <= k < |tick.todo| ==> IsClosed(tick.todo[k].entry.status)
  }

  predicate IsClosed(status: RunStatus) {
    status.WasMissed? || status.WasSkipped? || status.Failed?
  }

  // ----- What a tick has still to do for one task -----

  function TodoAts(todo: seq<Todo>, id: TaskId): seq<int> {
    if |todo| == 0 then []
    else (if todo[0].entry.taskId == id then [todo[0].entry.scheduledFor] else []) + TodoAts(todo[1..], id)
  }

  function FireAts(fires: seq<Fire>): seq<int> {
    if |fires| == 0 then [] else [fires[0].scheduledFor] + FireAts(fires[1..])
  }

  function GroupAts(groups: seq<seq<Fire>>, id: TaskId): seq<int> {
    if |groups| == 0 then []
    else (if GroupId(groups[0]) == id then FireAts(groups[0]) else []) + GroupAts(groups[1..], id)
  }

  function StageAts(stage: Stage, id: TaskId): seq<int> {
    if (stage.Verifying? || stage.Committing?) && stage.taskId == id then [stage.at] else []
  }

  /** The windows of a task that the tick has yet to journal, in order. */
  function Remaining(tick: Tick, id: TaskId): seq<int> {
    if tick.Idle? then [] else TodoAts(tick.todo, id) + StageAts(tick.stage, id) + GroupAts(tick.groups, id)
  }

  predicate AscendingAbove(bound: int, s: seq<int>)
    decreases |s|
  {
    |s| == 0 || (s[0] > bound && AscendingAbove(s[0], s[1..]))
  }

  ghost predicate RemainingOk(tick: Tick, cursors: map<TaskId, int>) {
    forall id :: AscendingAbove(Cursor(cursors, id), Remaining(tick, id))
  }

  ghost predicate BootOk(h: Host) {
    h.booting ==> h.tick.Idle? && h.inFlight == map[]
  }

  // ----- The invariant, and what it is for -----

  ghost predicate Inv(h: Host) {
    && JournalInv(h)
    && FlightInv(h)
    && TickInv(h)
  }

  ghost predicate JournalInv(h: Host) {
    && TasksOk(h.tasks)
    && CursorsOk(h.cursors, h.history)
    && Ascends(h.history)
    && RunsOk(h.runs, h.history)
    && LogOk(h.log, h.history)
  }

  ghost predicate FlightInv(h: Host) {
    && FlightsOk(h.inFlight, h.history)
    && RunningOk(h)
    && OpenOk(h.log, h.inFlight)
    && EnteredOk(h.tick, h.inFlight)
    && StageOk(h.tick, h.inFlight, h.history, h.log)
    && BootOk(h)
  }

  ghost predicate TickInv(h: Host) {
    && GroupsOk(h.tick, h.inFlight)
    && TodoOk(h.tick)
    && RemainingOk(h.tick, h.cursors)
  }

  // ----- Journaling -----

  lemma RecordKeepsJournal(h: Host, e: Entry)
    requires JournalInv(h) && e.scheduledFor > Cursor(h.cursors, e.taskId)
    ensures JournalInv(Record(h, e))
    ensures IsRecorded(Record(h, e).history, |h.history|, e)
  {
    var note := Recorded(e);
    hide TasksOk, LastRecorded, KeepLast, NoOverlap, LaunchesInOrder;
    forall id ensures Cursor(Record(h, e).cursors, id) == LastRecorded(h.history + [note], id) {
      LastRecordedSnoc(h.history, note, id);
    }
    AscendsSnoc(h.history, note);
    hide Ascends, CursorsOk;
    AppendKeepsRuns(h.runs, h.history, e, h.retention);
    LogOutlives(h.log, h.history, note);
    hide LogOk, RunsOk;
    assert CursorsOk(Record(h, e).cursors, Record(h, e).history) by {
      CursorsAdvance(h.cursors, h.history, e);
    }
  }

  lemma CursorsAdvance(cursors: map<TaskId, int>, history: seq<Note>, e: Entry)
    requires CursorsOk(cursors, history) && e.scheduledFor > Cursor(cursors, e.taskId)
    ensures CursorsOk(Advance(cursors, e.taskId, e.scheduledFor), history + [Recorded(e)])
  {
    hide LastRecorded;
    forall id
      ensures Cursor(Advance(cursors, e.taskId, e.scheduledFor), id) == LastRecorded(history + [Recorded(e)], id)
    {
      LastRecordedSnoc(history, Recorded(e), id);
    }
  }

  lemma AppendKeepsRuns(runs: seq<RunRecord>, history: seq<Note>, e: Entry, n: nat)
    requires RunsOk(runs, history)
    ensures
      var r := RunRecord(|history|, e.taskId, e.status, e.scheduledFor);
      RunsOk(KeepLast(runs + [r], n), history + [Recorded(e)])
  {
    var all, more := runs + [RunRecord(|history|, e.taskId, e.status, e.scheduledFor)], history + [Recorded(e)];
    forall i | 0 <= i < |all| ensures IsRecordOf(all[i], more) && (i < |runs| ==> all[i].runId < |history|) {
      assert i < |runs| ==> IsRecordOf(runs[i], history);
    }
    assert RunsOk(all, more);
    hide IsRecordOf;
    var kept := KeepLast(all, n);
    var k := |all| - |kept|;
    assert forall i :: 0 <= i < |kept| ==> kept[i] == all[k + i];
  }

  lemma LogOutlives(log: seq<LogEntry>, history: seq<Note>, note: Note)
    requires LogOk(log, history)
    ensures LogOk(log, history + [note])
  {
    hide NoOverlap, LaunchesInOrder;
  }

  /** Nothing said of flights and stage is undone by one more note. */
  lemma FlightsOutlive(inFlight: map<TaskId, Flight>, tick: Tick, history: seq<Note>, log: seq<LogEntry>, note: Note)
    requires FlightsOk(inFlight, history) && StageOk(tick, inFlight, history, log)
    ensures FlightsOk(inFlight, history + [note]) && StageOk(tick, inFlight, history + [note], log)
  {}

  /** A record added to the journal that is not called running leaves the flights as they were. */
  lemma RecordKeepsFlights(h: Host, e: Entry)
    requires FlightInv(h) && !e.status.Running?
    ensures FlightInv(Record(h, e))
  {
    FlightsOutlive(h.inFlight, h.tick, h.history, h.log, Recorded(e));
    hide FlightsOk, OpenOk, EnteredOk, StageOk, BootOk;
    var g := Record(h, e);
    forall i | !h.booting && 0 <= i < |g.runs| && g.runs[i].status.Running? ensures IsUnderWay(g, g.runs[i]) {
      assert g.runs[i] in h.runs;
      assert IsUnderWay(h, g.runs[i]);
    }
  }

  // ----- Sequences of windows -----

  lemma {:induction false} AscendingAboveLower(bound: int, lower: int, s: seq<int>)
    requires AscendingAbove(bound, s) && lower <= bound
    ensures AscendingAbove(lower, s)
  {}

  lemma {:induction false} AscendingAboveRest(bound: int, a: seq<int>, s: seq<int>)
    requires AscendingAbove(bound, a + s)
    ensures AscendingAbove(bound, s)
    decreases |a|
  {
    if |a| == 0 {
      assert a + s == s;
    } else {
      assert (a + s)[0] == a[0] && (a + s)[1..] == a[1..] + s;
      AscendingAboveRest(a[0], a[1..], s);
      AscendingAboveLower(a[0], bound, s);
    }
  }

  lemma {:induction false} TodoAtsSplit(a: seq<Todo>, b: seq<Todo>, id: TaskId)
    ensures TodoAts(a + b, id) == TodoAts(a, id) + TodoAts(b, id)
  {
    if |a| == 0 {
      assert a + b == b;
    } else {
      var own := if a[0].entry.taskId == id then [a[0].entry.scheduledFor] else [];
      assert (a + b)[0] == a[0] && (a + b)[1..] == a[1..] + b;
      TodoAtsSplit(a[1..], b, id);
      assert TodoAts(a, id) == own + TodoAts(a[1..], id) && TodoAts(a + b, id) == own + TodoAts(a[1..] + b, id);
    }
  }

  lemma {:induction false} FireAtsSplit(a: seq<Fire>, b: seq<Fire>)
    ensures FireAts(a + b) == FireAts(a) + FireAts(b)
  {
    if |a| == 0 {
      assert a + b == b;
    } else {
      assert (a + b)[0] == a[0] && (a + b)[1..] == a[1..] + b;
      FireAtsSplit(a[1..], b);
    }
  }

  /** The next write takes the first window of its task and leaves those of the others. */
  lemma WriteTakesFirst(tick: Tick, id: TaskId)
    requires tick.Ticking? && |tick.todo| > 0
    ensures
      var next := tick.todo[0].entry;
      Remaining(tick, id)
        == (if next.taskId == id then [next.scheduledFor] else []) + Remaining(tick.(todo := tick.todo[1..]), id)
  {
    hide GroupAts, StageAts;
    var next, rest := tick.todo[0].entry, TodoAts(tick.todo[1..], id);
    var own := if next.taskId == id then [next.scheduledFor] else [];
    assert TodoAts(tick.todo, id) == own + rest;
    var stage, groups := StageAts(tick.stage, id), GroupAts(tick.groups, id);
    assert own + rest + stage + groups == own + (rest + stage + groups);
  }

  lemma TakeFirst(cursors: map<TaskId, int>, e: Entry, id: TaskId, rest: seq<int>)
    requires AscendingAbove(Cursor(cursors, id), (if e.taskId == id then [e.scheduledFor] else []) + rest)
    ensures AscendingAbove(Cursor(Advance(cursors, e.taskId, e.scheduledFor), id), rest)
    ensures e.taskId == id ==> e.scheduledFor > Cursor(cursors, id)
  {
    if e.taskId == id {
      assert ([e.scheduledFor] + rest)[1..] == rest;
    } else {
      assert [] + rest == rest;
    }
  }

  // ----- The steps of a tick -----

  lemma WriteNextKeepsInv(h: Host)
    requires Inv(h) && h.tick.Ticking? && |h.tick.todo| > 0
    ensures Inv(WriteNext(h))
  {
    hide AscendingAbove, Remaining, JournalInv, FlightInv, Record, Advance, GroupsOk;
    var e, g := h.tick.todo[0].entry, WriteNext(h);
    var rest := h.tick.(todo := h.tick.todo[1..]);
    forall id
      ensures AscendingAbove(Cursor(Advance(h.cursors, e.taskId, e.scheduledFor), id), Remaining(rest, id))
      ensures e.taskId == id ==> e.scheduledFor > Cursor(h.cursors, id)
    {
      WriteTakesFirst(h.tick, id);
      TakeFirst(h.cursors, e, id, Remaining(rest, id));
    }
    RecordKeepsJournal(h, e);
    RecordKeepsFlights(h, e);
    RecordFrame(h, e);
    SameStage(Record(h, e), g);
    assert RemainingOk(g.tick, g.cursors) by {
      forall id ensures Remaining(g.tick, id) == Remaining(rest, id) {
        SameRemaining(rest, g.tick, id);
      }
    }
    assert GroupsOk(g.tick, g.inFlight) by {
      SameGroups(h.tick, g.tick, h.inFlight);
    }
    assert JournalInv(g) by {
      SameJournal(Record(h, e), g);
    }
  }

  lemma RecordFrame(h: Host, e: Entry)
    ensures
      var g := Record(h, e);
      && g.cursors == Advance(h.cursors, e.taskId, e.scheduledFor)
      && g.(runs := h.runs, cursors := h.cursors, history := h.history) == h
  {}

  lemma SameJournal(h: Host, g: Host)
    requires JournalInv(h) && g.(inFlight := h.inFlight, tick := h.tick, booting := h.booting, bootAt := h.bootAt) == h
    ensures JournalInv(g)
  {}

  lemma SameRemaining(tick: Tick, other: Tick, id: TaskId)
    requires tick.Ticking? && other.Ticking?
    requires other.todo == tick.todo && other.stage == tick.stage && other.groups == tick.groups
    ensures Remaining(other, id) == Remaining(tick, id)
  {}

  lemma SameGroups(tick: Tick, other: Tick, inFlight: map<TaskId, Flight>)
    requires GroupsOk(tick, inFlight) && tick.Ticking? && other.Ticking?
    requires other.stage == tick.stage && other.groups == tick.groups
    ensures GroupsOk(other, inFlight)
  {}

  /** The flights do not depend on what is still to be journaled before the commit. */
  lemma SameStage(h: Host, g: Host)
    requires FlightInv(h) && h.tick.Ticking? && g.tick.Ticking? && g.tick.stage == h.tick.stage
    requires |g.tick.todo| <= |h.tick.todo| && g.(tick := h.tick) == h
    ensures FlightInv(g)
  {
    hide FlightsOk, OpenOk;
    assert forall r: RunRecord :: IsUnderWay(h, r) ==> IsUnderWay(g, r);
  }

  /** A tick that is not between commit and spawn, before and after. */
  ghost predicate Calm(tick: Tick) {
    tick.Ticking? ==> !tick.stage.Entering? && !tick.stage.Spawning?
  }

  lemma CalmTickKeepsFlights(h: Host, tick: Tick)
    requires FlightInv(h) && h.tick.Ticking? && Calm(h.tick) && Calm(tick)
    requires StageOk(tick, h.inFlight, h.history, h.log)
    ensures FlightInv(h.(tick := tick))
  {
    hide FlightsOk, OpenOk, StageOk;
    var g := h.(tick := tick);
    assert forall r: RunRecord :: IsUnderWay(h, r) ==> IsUnderWay(g, r);
  }

  lemma TickOnlyKeepsInv(h: Host, tick: Tick)
    requires Inv(h) && h.tick.Ticking? && Calm(h.tick) && Calm(tick)
    requires StageOk(tick, h.inFlight, h.history, h.log)
    requires GroupsOk(tick, h.inFlight) && TodoOk(tick) && RemainingOk(tick, h.cursors)
    ensures Inv(h.(tick := tick))
  {
    CalmTickKeepsFlights(h, tick);
    hide FlightInv, GroupsOk, TodoOk, RemainingOk, StageOk;
    SameJournal(h, h.(tick := tick));
  }

  lemma {:induction false} StaleAts(g: seq<Fire>, id: TaskId)
    requires |g| > 0 && forall i :: 0 <= i < |g| ==> g[i].task.id == id
    ensures FireAts(g) == TodoAts(StaleTodos(g), id) + [g[|g| - 1].scheduledFor]
  {
    if |g| == 1 {
      assert g[1..] == [] && TodoAts([], id) == [];
    } else {
      StaleAts(g[1..], id);
      assert StaleTodos(g)[1..] == StaleTodos(g[1..]);
      assert g[1..][|g| - 2] == g[|g| - 1];
    }
  }

  lemma {:induction false} StaleAtsElsewhere(g: seq<Fire>, id: TaskId)
    requires |g| > 0 && forall i :: 0 <= i < |g| ==> g[i].task.id != id
    ensures TodoAts(StaleTodos(g), id) == []
  {
    if |g| > 1 {
      StaleAtsElsewhere(g[1..], id);
      assert StaleTodos(g)[1..] == StaleTodos(g[1..]);
    }
  }

  /** Starting on a group leaves what remains for every task as it was. */
  lemma StartKeepsRemaining(h: Host, id: TaskId)
    requires Inv(h) && h.tick.Ticking? && |h.tick.todo| == 0 && h.tick.stage.NoLaunch? && |h.tick.groups| > 0
    requires |h.inFlight| < h.tick.limit
    ensures Remaining(NextGroup(h).tick, id) == Remaining(h.tick, id)
  {
    var g, rest := h.tick.groups[0], h.tick.groups[1..];
    assert GroupOk(g, h.tick.stage, h.inFlight);
    hide Inv, FireAts, StaleTodos;
    var at := [g[|g| - 1].scheduledFor];
    if GroupId(g) == id {
      StaleAts(g, id);
      assert Remaining(h.tick, id) == [] + [] + (FireAts(g) + GroupAts(rest, id)) == FireAts(g) + GroupAts(rest, id);
      assert Remaining(NextGroup(h).tick, id) == TodoAts(StaleTodos(g), id) + at + GroupAts(rest, id);
    } else {
      StaleAtsElsewhere(g, id);
      assert Remaining(h.tick, id) == [] + [] + ([] + GroupAts(rest, id)) == GroupAts(rest, id);
      assert Remaining(NextGroup(h).tick, id) == [] + [] + GroupAts(rest, id) == GroupAts(rest, id);
    }
  }

  /** Putting a group off takes its windows from what remains, and no others. */
  lemma PutOffKeepsRest(tick: Tick, id: TaskId)
    requires tick.Ticking? && |tick.todo| == 0 && tick.stage.NoLaunch? && |tick.groups| > 0
    ensures
      var own := if GroupId(tick.groups[0]) == id then FireAts(tick.groups[0]) else [];
      Remaining(tick, id) == own + Remaining(tick.(groups := tick.groups[1..]), id)
  {
    var rest := GroupAts(tick.groups[1..], id);
    assert Remaining(tick.(groups := tick.groups[1..]), id) == [] + [] + rest == rest;
    assert Remaining(tick, id) == [] + [] + GroupAts(tick.groups, id) == GroupAts(tick.groups, id);
  }

  lemma NextGroupKeepsInv(h: Host)
    requires Inv(h) && h.tick.Ticking? && |h.tick.todo| == 0 && h.tick.stage.NoLaunch?
    ensures Inv(NextGroup(h))
  {
    var tick, next := h.tick, NextGroup(h).tick;
    assert TickInv(h);
    if |tick.groups| == 0 {
      IdleIsFine(h, next);
    } else {
      var g, rest := tick.groups[0], tick.groups[1..];
      assert GroupOk(g, tick.stage, h.inFlight);
      if |h.inFlight| >= tick.limit {
        forall id ensures AscendingAbove(Cursor(h.cursors, id), Remaining(next, id)) {
          PutOffKeepsRest(tick, id);
          SameRemaining(tick.(groups := rest), next, id);
          AscendingAboveRest(Cursor(h.cursors, id), if GroupId(g) == id then FireAts(g) else [], Remaining(next, id));
        }
        assert StageOk(next, h.inFlight, h.history, h.log);
      } else {
        forall id ensures AscendingAbove(Cursor(h.cursors, id), Remaining(next, id)) {
          StartKeepsRemaining(h, id);
        }
        assert StageOk(next, h.inFlight, h.history, h.log);
      }
      hide Inv, Remaining, AscendingAbove, StageOk, Cursor;
      assert GroupsOk(next, h.inFlight) by {
        forall k | 0 <= k < |rest| ensures GroupOk(rest[k], next.stage, h.inFlight) {
          assert GroupOk(tick.groups[k + 1], tick.stage, h.inFlight);
        }
      }
      TickOnlyKeepsInv(h, next);
    }
  }

  lemma IdleIsFine(h: Host, idle: Tick)
    requires Inv(h) && h.tick.Ticking? && Calm(h.tick) && idle.Idle?
    ensures Inv(h.(tick := idle))
  {
    TickOnlyKeepsInv(h, idle);
  }

  lemma VerdictKeepsInv(h: Host, admit: bool)
    requires Inv(h) && h.tick.Ticking? && |h.tick.todo| == 0 && h.tick.stage.Verifying?
    ensures Inv(Verdict(h, admit))
  {
    var tick, next := h.tick, Verdict(h, admit).tick;
    assert TickInv(h) && FlightInv(h);
    forall id ensures Remaining(next, id) == Remaining(tick, id) {
      if !admit {
        assert next.todo[1..] == [];
      }
    }
    assert StageOk(next, h.inFlight, h.history, h.log);
    hide Inv, Remaining, AscendingAbove, StageOk, FlightInv;
    assert GroupsOk(next, h.inFlight) by {
      forall k | 0 <= k < |next.groups| ensures GroupOk(next.groups[k], next.stage, h.inFlight) {
        assert GroupOk(tick.groups[k], tick.stage, h.inFlight);
      }
    }
    TickOnlyKeepsInv(h, next);
  }

  lemma AbandonKeepsInv(h: Host)
    requires Inv(h)
    ensures Inv(Abandon(h))
  {
    if Abandon(h) != h {
      IdleIsFine(h, Idle(None));
    }
  }

  /** A commit takes the window it journals from what remains. */
  lemma CommitTakesFirst(h: Host, id: TaskId)
    requires h.tick.Ticking? && |h.tick.todo| == 0 && h.tick.stage.Committing?
    ensures
      var next := Entry(h.tick.stage.taskId, Running, h.tick.stage.at);
      Remaining(h.tick, id)
        == (if next.taskId == id then [next.scheduledFor] else []) + Remaining(Commit(h).tick, id)
  {}

  lemma CommitKeepsInv(h: Host)
    requires Inv(h) && h.tick.Ticking? && |h.tick.todo| == 0 && h.tick.stage.Committing?
    ensures Inv(Commit(h))
  {
    hide AscendingAbove, Remaining, JournalInv, FlightInv, Record, Advance, GroupsOk;
    var id0, at := h.tick.stage.taskId, h.tick.stage.at;
    var e, g := Entry(id0, Running, at), Commit(h);
    forall id
      ensures AscendingAbove(Cursor(Advance(h.cursors, id0, at), id), Remaining(g.tick, id))
      ensures id0 == id ==> at > Cursor(h.cursors, id)
    {
      CommitTakesFirst(h, id);
      TakeFirst(h.cursors, e, id, Remaining(g.tick, id));
    }
    RecordKeepsJournal(h, e);
    RecordFrame(h, e);
    CommitKeepsFlights(h);
    assert GroupsOk(g.tick, g.inFlight) by {
      CommitKeepsGroups(h);
    }
    assert JournalInv(g) by {
      SameJournal(Record(h, e), g);
    }
  }

  lemma CommitKeepsGroups(h: Host)
    requires h.tick.Ticking? && h.tick.stage.Committing? && GroupsOk(h.tick, h.inFlight)
    ensures GroupsOk(Commit(h).tick, h.inFlight)
  {
    var next := Commit(h).tick;
    forall k | 0 <= k < |next.groups| ensures GroupOk(next.groups[k], next.stage, h.inFlight) {
      assert GroupOk(h.tick.groups[k], h.tick.stage, h.inFlight);
    }
  }

  lemma CommitKeepsFlights(h: Host)
    requires JournalInv(h) && FlightInv(h) && h.tick.Ticking? && |h.tick.todo| == 0 && h.tick.stage.Committing?
    ensures FlightInv(Commit(h))
  {
    var id, at := h.tick.stage.taskId, h.tick.stage.at;
    var e, g := Entry(id, Running, at), Commit(h);
    FlightsOutlive(h.inFlight, h.tick, h.history, h.log, Recorded(e));
    assert IsRecorded(g.history, |h.history|, e);
    assert LaunchedBefore(h.log, |h.history|);
    hide FlightsOk, OpenOk, BootOk, JournalInv, NoOverlap, LastRecorded;
    var r := RunRecord(|h.history|, id, Running, at);
    forall i | 0 <= i < |g.runs| && g.runs[i].status.Running? ensures IsUnderWay(g, g.runs[i]) {
      assert g.runs[i] in h.runs + [r];
      if g.runs[i] != r {
        assert g.runs[i] in h.runs;
        assert IsUnderWay(h, g.runs[i]);
      }
    }
  }

  lemma EnterKeepsInv(h: Host)
    requires Inv(h) && h.tick.Ticking? && |h.tick.todo| == 0 && h.tick.stage.Entering?
    ensures Inv(Enter(h))
  {
    var g := Enter(h);
    EnterKeepsFlights(h);
    EnterKeepsTick(h);
    hide FlightInv, TickInv;
    SameJournal(h, g);
  }

  lemma EnterKeepsFlights(h: Host)
    requires FlightInv(h) && h.tick.Ticking? && |h.tick.todo| == 0 && h.tick.stage.Entering?
    ensures FlightInv(Enter(h))
  {
    var g := Enter(h);
    hide OpenRuns;
    forall r: RunRecord | IsUnderWay(h, r) ensures IsUnderWay(g, r) {}
  }

  lemma EnterKeepsTick(h: Host)
    requires TickInv(h) && h.tick.Ticking? && h.tick.stage.Entering?
    ensures TickInv(Enter(h))
  {
    var g := Enter(h);
    hide AscendingAbove, TodoAts, GroupAts;
    forall id ensures Remaining(g.tick, id) == Remaining(h.tick, id) {}
    forall k | 0 <= k < |g.tick.groups| ensures GroupOk(g.tick.groups[k], g.tick.stage, g.inFlight) {
      assert GroupOk(h.tick.groups[k], h.tick.stage, h.inFlight);
    }
  }

  lemma SpawnKeepsInv(h: Host)
    requires Inv(h) && h.tick.Ticking? && |h.tick.todo| == 0 && h.tick.stage.Spawning?
    ensures Inv(Spawn(h))
  {
    SpawnKeepsLog(h);
    SpawnKeepsFlights(h);
    SpawnKeepsTick(h);
    hide FlightInv, TickInv, LogOk, RunsOk, CursorsOk, Ascends, TasksOk;
  }

  lemma SpawnKeepsLog(h: Host)
    requires Inv(h) && h.tick.Ticking? && h.tick.stage.Spawning?
    ensures LogOk(Spawn(h).log, h.history)
  {
    var id, at, runId := h.tick.stage.taskId, h.tick.stage.at, h.tick.stage.runId;
    assert FlightInv(h) && LogOk(h.log, h.history);
    NoOverlapSnoc(h.log, Launched(id, runId, at));
    hide NoOverlap, JournalInv, TickInv, RunningOk;
    assert LaunchesInOrder(Spawn(h).log);
  }

  lemma SpawnKeepsFlights(h: Host)
    requires FlightInv(h) && h.tick.Ticking? && h.tick.stage.Spawning?
    ensures FlightInv(Spawn(h))
  {
    var g := Spawn(h);
    OpenRunsSnoc(h.log, Launched(h.tick.stage.taskId, h.tick.stage.runId, h.tick.stage.at));
    hide OpenRuns;
    forall r: RunRecord | IsUnderWay(h, r) ensures IsUnderWay(g, r) {}
  }

  lemma SpawnKeepsTick(h: Host)
    requires TickInv(h) && h.tick.Ticking? && |h.tick.todo| == 0 && h.tick.stage.Spawning?
    ensures TickInv(Spawn(h))
  {
    var g := Spawn(h);
    hide AscendingAbove, TodoAts, GroupAts;
    forall id ensures Remaining(g.tick, id) == Remaining(h.tick, id) {}
    forall k | 0 <= k < |g.tick.groups| ensures GroupOk(g.tick.groups[k], g.tick.stage, g.inFlight) {
      assert GroupOk(h.tick.groups[k], h.tick.stage, h.inFlight);
    }
  }

  lemma ProceedKeepsInv(h: Host, admit: bool)
    requires Inv(h)
    ensures Inv(Proceed(h, admit))
  {
    hide Inv, WriteNext, NextGroup, Verdict, Commit, Enter, Spawn;
    if h.tick.Ticking? {
      if |h.tick.todo| > 0 {
        WriteNextKeepsInv(h);
      } else {
        match h.tick.stage
        case NoLaunch => NextGroupKeepsInv(h);
        case Verifying(_, _) => VerdictKeepsInv(h, admit);
        case Committing(_, _) => CommitKeepsInv(h);
        case Entering(_, _, _) => EnterKeepsInv(h);
        case Spawning(_, _, _) => SpawnKeepsInv(h);
      }
    }
  }

  // ----- Runs that end -----

  /** What the end of a run may change: its flight moves on or leaves, and records lose the status running. */
  ghost predicate EndsOne(h: Host, g: Host, id: TaskId) {
    && id in h.inFlight
    && !h.inFlight[id].phase.Entered?
    && (g.inFlight == h.inFlight - {id} ||
        exists phase :: phase != Entered && g.inFlight == h.inFlight[id := h.inFlight[id].(phase := phase)])
    && g.(inFlight := h.inFlight, log := h.log, runs := h.runs) == h
  }

  lemma EndKeepsTick(h: Host, g: Host, id: TaskId)
    requires Inv(h) && EndsOne(h, g, id)
    ensures TickInv(g)
    ensures FlightsOk(g.inFlight, g.history) && EnteredOk(g.tick, g.inFlight) && BootOk(g)
  {
    hide RemainingOk, TodoOk, JournalInv;
    if g.tick.Ticking? {
      forall k | 0 <= k < |g.tick.groups| ensures GroupOk(g.tick.groups[k], g.tick.stage, g.inFlight) {
        assert GroupOk(h.tick.groups[k], h.tick.stage, h.inFlight);
      }
    }
  }

  lemma EndKeepsStage(h: Host, g: Host, id: TaskId)
    requires Inv(h) && EndsOne(h, g, id)
    requires g.log == h.log || exists runId, ok :: g.log == h.log + [Ended(id, runId, ok)]
    ensures StageOk(g.tick, g.inFlight, g.history, g.log)
  {
    hide TickInv, JournalInv, RunningOk, OpenOk;
    assert FlightInv(h);
    assert forall runId :: LaunchedBefore(h.log, runId) ==> LaunchedBefore(g.log, runId);
  }

  lemma EndIsFine(h: Host, g: Host, id: TaskId)
    requires Inv(h) && EndsOne(h, g, id)
    requires RunsOk(g.runs, g.history) && LogOk(g.log, g.history) && RunningOk(g) && OpenOk(g.log, g.inFlight)
    requires g.log == h.log || exists runId, ok :: g.log == h.log + [Ended(id, runId, ok)]
    ensures Inv(g)
  {
    EndKeepsTick(h, g, id);
    EndKeepsStage(h, g, id);
    assert JournalInv(h);
    hide TickInv, StageOk, EnteredOk, FlightsOk, RunsOk, Ascends, CursorsOk, TasksOk, LogOk, OpenOk, RunningOk, BootOk;
  }

  lemma UpdateKeepsRuns(runs: seq<RunRecord>, history: seq<Note>, runId: nat, status: RunStatus)
    requires RunsOk(runs, history)
    ensures RunsOk(UpdateRun(runs, runId, status), history)
  {
    forall i | 0 <= i < |runs| ensures IsRecordOf(UpdateRun(runs, runId, status)[i], history) {
      assert IsRecordOf(runs[i], history);
    }
  }

  lemma ExitKeepsInv(h: Host, id: TaskId, ok: bool)
    requires Inv(h)
    ensures Inv(Exit(h, id, ok))
  {
    hide TickInv, StageOk, EnteredOk, FlightsOk, RunsOk, Ascends, CursorsOk, TasksOk, LogOk, BootOk;
    var g := Exit(h, id, ok);
    if g != h {
      assert EndsOne(h, g, id);
      ExitKeepsLog(h, id, ok);
      assert JournalInv(h) && FlightInv(h);
      SameRunning(h, g);
      hide Inv, RunsOk, LogOk, OpenOk, RunningOk, EndsOne;
      EndIsFine(h, g, id);
    }
  }

  lemma SameRunning(h: Host, g: Host)
    requires RunningOk(h) && g.runs == h.runs && g.booting == h.booting
    requires forall r: RunRecord :: IsUnderWay(h, r) ==> IsUnderWay(g, r)
    ensures RunningOk(g)
  {
    hide IsUnderWay;
  }

  lemma ExitKeepsLog(h: Host, id: TaskId, ok: bool)
    requires Inv(h) && id in h.inFlight && h.inFlight[id].phase.Spawned?
    ensures
      var g := Exit(h, id, ok);
      LogOk(g.log, g.history) && OpenOk(g.log, g.inFlight)
  {
    assert FlightInv(h) && JournalInv(h);
    OpenRunsSnoc(h.log, Ended(id, h.inFlight[id].runId, ok));
    NoOverlapSnoc(h.log, Ended(id, h.inFlight[id].runId, ok));
    hide OpenRuns, NoOverlap, TickInv, RunningOk, EnteredOk, StageOk, FlightsOk;
  }

  lemma NoteEndKeepsInv(h: Host, id: TaskId)
    requires Inv(h)
    ensures Inv(NoteEnd(h, id))
  {
    hide TickInv, StageOk, EnteredOk, FlightsOk, RunsOk, Ascends, CursorsOk, TasksOk, LogOk, BootOk;
    var g := NoteEnd(h, id);
    if g != h {
      assert EndsOne(h, g, id);
      assert JournalInv(h) && FlightInv(h);
      UpdateKeepsRuns(h.runs, h.history, h.inFlight[id].runId, if h.inFlight[id].phase.ok then Completed else Failed);
      NotedIsNotRunning(h, id);
      assert OpenOk(g.log, g.inFlight);
      hide Inv, RunsOk, LogOk, OpenOk, RunningOk, EndsOne;
      EndIsFine(h, g, id);
    }
  }

  lemma NotedIsNotRunning(h: Host, id: TaskId)
    requires RunningOk(h)
    ensures RunningOk(NoteEnd(h, id))
  {
    var g := NoteEnd(h, id);
    forall i | !g.booting && 0 <= i < |g.runs| && g.runs[i].status.Running? ensures IsUnderWay(g, g.runs[i]) {
      assert h.runs[i] == g.runs[i] && IsUnderWay(h, h.runs[i]);
    }
  }

  lemma LeaveKeepsInv(h: Host, id: TaskId)
    requires Inv(h)
    ensures Inv(Leave(h, id))
  {
    hide TickInv, StageOk, EnteredOk, FlightsOk, RunsOk, Ascends, CursorsOk, TasksOk, LogOk, BootOk;
    var g := Leave(h, id);
    if g != h {
      assert EndsOne(h, g, id);
      assert JournalInv(h) && FlightInv(h);
      SameRunning(h, g);
      assert OpenOk(g.log, g.inFlight);
      hide Inv, RunsOk, LogOk, OpenOk, RunningOk, EndsOne;
      EndIsFine(h, g, id);
    }
  }

  // ----- Crashes -----

  /** A crash at any point, and booting after it up to any point, keep the invariant. */
  lemma RestartKeepsInv(h: Host, now: int)
    requires Inv(h)
    ensures Inv(Restart(h, now))
  {
    OpenRunsSnoc(h.log, Restarted);
    NoOverlapSnoc(h.log, Restarted);
    assert JournalInv(h);
    hide OpenRuns, NoOverlap, LastRecorded;
    forall id ensures Remaining(Restart(h, now).tick, id) == [] {}
  }

  lemma RecoverKeepsInv(h: Host)
    requires Inv(h)
    ensures Inv(Recover(h))
  {
    if h.booting {
      var i := FirstRunning(h.runs);
      if i < |h.runs| {
        UpdateKeepsRuns(h.runs, h.history, h.runs[i].runId, Failed);
      }
      hide TickInv, StageOk, EnteredOk, FlightsOk, RunsOk, Ascends, CursorsOk, TasksOk, LogOk;
      assert TickInv(h) ==> TickInv(Recover(h)) by {
        SameTick(h, Recover(h));
      }
    }
  }

  lemma SameTick(h: Host, g: Host)
    requires g.tick == h.tick && g.cursors == h.cursors && g.inFlight == h.inFlight
    ensures TickInv(h) ==> TickInv(g)
  {}

  // ----- Edits -----

  lemma {:induction false} UpsertKeepsTasks(tasks: seq<Task>, t: Task)
    requires TasksOk(tasks) && ValidTask(t)
    ensures TasksOk(Upsert(tasks, t))
    ensures forall k :: 0 <= k < |Upsert(tasks, t)| ==>
              Upsert(tasks, t)[k] == t || exists j :: 0 <= j < |tasks| && tasks[j] == Upsert(tasks, t)[k]
  {
    hide ValidTask;
    if |tasks| > 0 && tasks[0].id != t.id {
      assert TasksOk(tasks[1..]);
      UpsertKeepsTasks(tasks[1..], t);
    }
  }

  lemma FrontKeepsTasks(t: Task, tail: seq<Task>, rest: seq<Task>)
    requires TasksOk([t] + tail) && TasksOk(rest) && forall x :: x in rest ==> x in tail
    ensures TasksOk([t] + rest)
  {
    hide ValidTask;
    var all := [t] + tail;
    assert all[0] == t && forall k :: 0 < k < |all| ==> all[k] == tail[k - 1];
    forall x | x in tail ensures x.id != t.id {
      var k :| 0 <= k < |tail| && tail[k] == x;
      assert all[k + 1] == x;
    }
    forall k | 0 < k < |[t] + rest| ensures ([t] + rest)[k] == rest[k - 1] && rest[k - 1].id != t.id {
      assert rest[k - 1] in rest;
    }
  }

  lemma {:induction false} WithoutKeepsTasks(tasks: seq<Task>, id: TaskId)
    requires TasksOk(tasks)
    ensures TasksOk(Without(tasks, id))
    ensures forall t :: t in Without(tasks, id) <==> t in tasks && t.id != id
  {
    hide ValidTask;
    if |tasks| > 0 {
      var t, tail := tasks[0], tasks[1..];
      assert tasks == [t] + tail;
      assert TasksOk(tail);
      hide TasksOk;
      WithoutKeepsTasks(tail, id);
      FrontKeepsTasks(t, tail, Without(tail, id));
    }
  }

  lemma UpsertTaskKeepsInv(h: Host, t: Task)
    requires Inv(h)
    ensures Inv(UpsertTask(h, t))
  {
    if ValidTask(t) {
      UpsertKeepsTasks(h.tasks, t);
      hide TasksOk, Upsert;
      var g := UpsertTask(h, t);
      assert forall r: RunRecord :: IsUnderWay(h, r) ==> IsUnderWay(g, r);
      SameTick(h, g);
      hide TickInv;
    }
  }

  lemma RemoveTaskKeepsInv(h: Host, id: TaskId)
    requires Inv(h)
    ensures Inv(RemoveTask(h, id))
  {
    if HasTask(h.tasks, id) {
      var g, note := RemoveTask(h, id), Removed(id);
      WithoutKeepsTasks(h.tasks, id);
      AscendsSnoc(h.history, note);
      FlightsOutlive(h.inFlight, h.tick, h.history, h.log, note);
      LogOutlives(h.log, h.history, note);
      RemovalKeepsCursors(h.cursors, h.history, id);
      assert forall r: RunRecord :: IsUnderWay(h, r) ==> IsUnderWay(g, r);
      assert RunsOk(g.runs, g.history) by {
        forall i | 0 <= i < |g.runs| ensures IsRecordOf(g.runs[i], g.history) {
          assert IsRecordOf(h.runs[i], h.history);
        }
      }
      assert TickInv(h);
      hide TasksOk, Without, Ascends, CursorsOk, RunsOk, LogOk, FlightsOk, StageOk, OpenOk, EnteredOk, Remaining;
      forall other ensures AscendingAbove(Cursor(g.cursors, other), Remaining(g.tick, other)) {
        assert CursorsOk(h.cursors, h.history);
        LoweredCursor(h.cursors, h.history, id, other);
        AscendingAboveLower(Cursor(h.cursors, other), Cursor(g.cursors, other), Remaining(h.tick, other));
      }
      assert RemainingOk(g.tick, g.cursors);
      hide AscendingAbove, Cursor, RemainingOk;
    }
  }

  lemma LoweredCursor(cursors: map<TaskId, int>, history: seq<Note>, id: TaskId, other: TaskId)
    requires CursorsOk(cursors, history)
    ensures Cursor(cursors - {id}, other) <= Cursor(cursors, other)
  {}

  lemma RemovalKeepsCursors(cursors: map<TaskId, int>, history: seq<Note>, id: TaskId)
    requires CursorsOk(cursors, history)
    ensures CursorsOk(cursors - {id}, history + [Removed(id)])
  {
    hide LastRecorded;
    forall other ensures Cursor(cursors - {id}, other) == LastRecorded(history + [Removed(id)], other) {
      LastRecordedSnoc(history, Removed(id), other);
    }
  }
}
