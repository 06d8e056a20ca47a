/** Where every window of a tick ends up, and the limit on concurrent runs. */
module TaskAccounting {
  import opened Scheduler
  import opened TaskRuns
  import opened TaskSafety
  import opened TaskTicks

  // ----- Capacity -----

  /** The launch under way needs a slot of its own until it is in the in-flight map. */
  ghost function Slots(h: Host): nat {
    |h.inFlight| +
    if h.tick.Ticking? && (h.tick.stage.Verifying? || h.tick.stage.Committing? || h.tick.stage.Entering?) then 1 else 0
  }

  ghost predicate WithinLimit(h: Host, limit: nat) {
    Slots(h) <= limit && (h.tick.Ticking? ==> h.tick.limit <= limit)
  }

  lemma FlightsOneMore(flights: map<TaskId, Flight>, id: TaskId, f: Flight)
    ensures |flights[id := f]| == |flights| + if id in flights then 0 else 1
  {
    var more := flights[id := f];
    assert more.Keys == flights.Keys + {id};
    assert |more.Keys| == |more| && |flights.Keys| == |flights|;
    assert id in flights ==> more.Keys == flights.Keys;
  }

  lemma EnterWithinLimit(h: Host, limit: nat)
    requires StageOk(h.tick, h.inFlight, h.history, h.log) && WithinLimit(h, limit)
    requires h.tick.Ticking? && h.tick.stage.Entering?
    ensures WithinLimit(Enter(h), limit)
  {
    hide LaunchedBefore, IsRecorded;
    FlightsOneMore(h.inFlight, h.tick.stage.taskId, Flight(h.tick.stage.runId, h.tick.stage.at, Entered));
  }

  lemma SpawnWithinLimit(h: Host, limit: nat)
    requires StageOk(h.tick, h.inFlight, h.history, h.log) && WithinLimit(h, limit)
    requires h.tick.Ticking? && h.tick.stage.Spawning?
    ensures WithinLimit(Spawn(h), limit)
  {
    hide LaunchedBefore, IsRecorded;
    FlightsOneMore(h.inFlight, h.tick.stage.taskId, Flight(h.tick.stage.runId, h.tick.stage.at, Spawned));
  }

  lemma ProceedWithinLimit(h: Host, admit: bool, limit: nat)
    requires StageOk(h.tick, h.inFlight, h.history, h.log) && WithinLimit(h, limit)
    ensures WithinLimit(Proceed(h, admit), limit)
  {
    hide KeepLast, Advance, StaleTodos, StageOk, Enter, Spawn, Count;
    if h.tick.Ticking? && |h.tick.todo| == 0 {
      if h.tick.stage.Entering? {
        EnterWithinLimit(h, limit);
      } else if h.tick.stage.Spawning? {
        SpawnWithinLimit(h, limit);
      }
    }
  }

  lemma LeaveWithinLimit(h: Host, id: TaskId, limit: nat)
    requires WithinLimit(h, limit)
    ensures WithinLimit(Leave(h, id), limit)
  {
    var flights := h.inFlight - {id};
    assert flights.Keys == h.inFlight.Keys - {id};
    assert |flights.Keys| == |flights| && |h.inFlight.Keys| == |h.inFlight|;
  }

  lemma StepWithinLimit(h: Host, e: Event, limit: nat)
    requires StageOk(h.tick, h.inFlight, h.history, h.log)
    requires WithinLimit(h, limit) && (e.BeginTick? ==> e.limit <= limit)
    ensures WithinLimit(Step(h, e), limit)
  {
    hide EvaluateAll, UpdateRun, Upsert, Without, FirstRunning, GroupFires, ValidTask, HasTask, MissedTodos,
         SkippedTodos, Proceed, Leave, StageOk;
    match e
    case ProceedTick(admit) => ProceedWithinLimit(h, admit, limit);
    case RunExits(id, ok) => SameSize(h, id, Exited(ok));
    case EndIsNoted(id) => SameSize(h, id, Noted);
    case RunLeaves(id) => LeaveWithinLimit(h, id, limit);
    case _ =>
  }

  lemma SameSize(h: Host, id: TaskId, phase: Phase)
    ensures id in h.inFlight ==> |SetPhase(h, id, phase).inFlight| == |h.inFlight|
  {
    if id in h.inFlight {
      var flights := SetPhase(h, id, phase).inFlight;
      assert flights.Keys == h.inFlight.Keys;
      assert |flights.Keys| == |flights| && |h.inFlight.Keys| == |h.inFlight|;
    }
  }

  /** In every run whose ticks all read a limit of at most `limit`, at most `limit` runs are ever in flight. */
  lemma {:induction false} CapacityHolds(bootAt: int, retention: nat, events: seq<Event>, limit: nat)
    requires forall i :: 0 <= i < |events| && events[i].BeginTick? ==> events[i].limit <= limit
    ensures WithinLimit(Run(InitialHost(bootAt, retention), events), limit)
    ensures |Run(InitialHost(bootAt, retention), events).inFlight| <= limit
  {
    hide Step;
    if |events| > 0 {
      var before := Run(InitialHost(bootAt, retention), events[..|events| - 1]);
      CapacityHolds(bootAt, retention, events[..|events| - 1], limit);
      EveryRunIsSafe(bootAt, retention, events[..|events| - 1]);
      assert StageOk(before.tick, before.inFlight, before.history, before.log);
      StepWithinLimit(before, events[|events| - 1], limit);
    }
  }

  // ----- What is journaled for one task -----

  function DoneAts(notes: seq<Note>, id: TaskId): seq<int> {
    if |notes| == 0 then []
    else
      var last := notes[|notes| - 1];
      DoneAts(notes[..|notes| - 1], id) +
      if last.Recorded? && last.entry.taskId == id then [last.entry.scheduledFor] else []
  }

  /** What was journaled for the task since its history was `from` notes long. */
  function DoneSince(h: Host, from: nat, id: TaskId): seq<int>
    requires from <= |h.history|
  {
    DoneAts(h.history[from..], id)
  }

  lemma DoneSnoc(history: seq<Note>, from: nat, note: Note, id: TaskId)
    requires from <= |history|
    ensures DoneAts((history + [note])[from..], id)
         == DoneAts(history[from..], id) +
            if note.Recorded? && note.entry.taskId == id then [note.entry.scheduledFor] else []
  {
    var notes := history[from..];
    assert (history + [note])[from..] == notes + [note];
    assert (notes + [note])[..|notes|] == notes;
  }

  /** The step journaled the next window of the task's plan. */
  ghost predicate TookOne(h: Host, g: Host, id: TaskId) {
    var before := Remaining(h.tick, id);
    && |before| > 0
    && |g.history| > 0
    && g.history[|g.history| - 1].Recorded?
    && g.history[|g.history| - 1].entry.taskId == id
    && g.history[|g.history| - 1].entry.scheduledFor == before[0]
    && g.history == h.history + [g.history[|g.history| - 1]]
    && Remaining(g.tick, id) == before[1..]
    && id in g.cursors && g.cursors[id] == before[0]
  }

  ghost predicate Concerns(note: Note, id: TaskId) {
    match note
    case Recorded(e) => e.taskId == id
    case Removed(gone) => gone == id
  }

  /** The step journaled nothing for the task; it may have given up the rest of its plan. */
  ghost predicate TookNone(h: Host, g: Host, id: TaskId) {
    && (g.history == h.history
        || (|g.history| > 0 && g.history == h.history + [g.history[|g.history| - 1]]
            && !Concerns(g.history[|g.history| - 1], id)))
    && (Remaining(g.tick, id) == Remaining(h.tick, id) || Remaining(g.tick, id) == [])
    && SameCursor(h.cursors, g.cursors, id)
  }

  ghost predicate SameCursor(before: map<TaskId, int>, after: map<TaskId, int>, id: TaskId) {
    (id in after <==> id in before) && (id in before ==> after[id] == before[id])
  }

  lemma AdvanceTakes(cursors: map<TaskId, int>, id: TaskId, rest: seq<int>)
    requires |rest| > 0 && AscendingAbove(Cursor(cursors, id), rest)
    ensures Advance(cursors, id, rest[0]) == cursors[id := rest[0]]
  {}

  lemma WriteTakes(h: Host, id: TaskId)
    requires Inv(h) && h.tick.Ticking? && |h.tick.todo| > 0
    ensures TookOne(h, WriteNext(h), id) || TookNone(h, WriteNext(h), id)
  {
    hide AscendingAbove, Remaining, JournalInv, FlightInv, KeepLast, Advance, GroupsOk;
    var e, g, rest := h.tick.todo[0].entry, WriteNext(h), h.tick.(todo := h.tick.todo[1..]);
    WriteTakesFirst(h.tick, id);
    SameRemaining(rest, g.tick, id);
    Taken(h, g, e, id);
  }

  lemma CommitTakes(h: Host, id: TaskId)
    requires Inv(h) && h.tick.Ticking? && |h.tick.todo| == 0 && h.tick.stage.Committing?
    ensures TookOne(h, Commit(h), id) || TookNone(h, Commit(h), id)
  {
    hide AscendingAbove, Remaining, JournalInv, FlightInv, KeepLast, Advance, GroupsOk;
    CommitTakesFirst(h, id);
    Taken(h, Commit(h), Entry(h.tick.stage.taskId, Running, h.tick.stage.at), id);
  }

  lemma Taken(h: Host, g: Host, e: Entry, id: TaskId)
    requires RemainingOk(h.tick, h.cursors)
    requires g.history == h.history + [Recorded(e)] && g.cursors == Advance(h.cursors, e.taskId, e.scheduledFor)
    requires
      Remaining(h.tick, id) == (if e.taskId == id then [e.scheduledFor] else []) + Remaining(g.tick, id)
    ensures if e.taskId == id then TookOne(h, g, id) else TookNone(h, g, id)
  {
    assert AscendingAbove(Cursor(h.cursors, id), Remaining(h.tick, id));
    hide Remaining, AscendingAbove, RemainingOk;
    if e.taskId == id {
      AdvanceTakes(h.cursors, id, Remaining(h.tick, id));
    }
  }

  lemma {:induction false} NoneInOthers(groups: seq<seq<Fire>>, id: TaskId)
    requires forall k :: 0 <= k < |groups| ==> GroupId(groups[k]) != id
    ensures GroupAts(groups, id) == []
  {
    if |groups| > 0 {
      NoneInOthers(groups[1..], id);
    }
  }

  lemma NextGroupTakesNone(h: Host, id: TaskId)
    requires Inv(h) && h.tick.Ticking? && |h.tick.todo| == 0 && h.tick.stage.NoLaunch?
    ensures TookNone(h, NextGroup(h), id)
  {
    var tick, next := h.tick, NextGroup(h).tick;
    if |tick.groups| > 0 {
      assert TickInv(h);
      assert GroupOk(tick.groups[0], tick.stage, h.inFlight);
      var rest := tick.groups[1..];
      if |h.inFlight| < tick.limit {
        StartKeepsRemaining(h, id);
      } else {
        PutOffKeepsRest(tick, id);
        SameRemaining(tick.(groups := rest), next, id);
        if GroupId(tick.groups[0]) == id {
          NoneInOthers(rest, id);
        } else {
          assert [] + Remaining(next, id) == Remaining(next, id);
        }
      }
    }
  }

  lemma ProceedTakes(h: Host, admit: bool, id: TaskId)
    requires Inv(h)
    ensures TookOne(h, Proceed(h, admit), id) || TookNone(h, Proceed(h, admit), id)
  {
    hide Inv, WriteNext, NextGroup, Commit, TookOne, GroupAts, TodoAts;
    if h.tick.Ticking? {
      if |h.tick.todo| > 0 {
        WriteTakes(h, id);
      } else if h.tick.stage.NoLaunch? {
        NextGroupTakesNone(h, id);
      } else if h.tick.stage.Committing? {
        CommitTakes(h, id);
      } else if h.tick.stage.Verifying? {
        VerdictTakesNone(h, admit, id);
      }
    }
  }

  lemma VerdictTakesNone(h: Host, admit: bool, id: TaskId)
    requires h.tick.Ticking? && |h.tick.todo| == 0 && h.tick.stage.Verifying?
    ensures TookNone(h, Verdict(h, admit), id)
  {
    if !admit {
      OneTodoAts(Verdict(h, admit).tick.todo[0], id);
    }
  }

  /** An event that starts another tick. */
  predicate StartsTick(h: Host, e: Event) {
    e.BeginTick? && e.enabled && h.tick.Idle? && !h.booting
  }

  lemma StepTakes(h: Host, e: Event, id: TaskId)
    requires Inv(h) && !StartsTick(h, e) && e != TaskRemoved(id)
    ensures TookOne(h, Step(h, e), id) || TookNone(h, Step(h, e), id)
  {
    hide Inv, Proceed, TookOne, Remaining, UpdateRun, Upsert, Without, FirstRunning, ValidTask, HasTask;
    match e
    case ProceedTick(admit) => ProceedTakes(h, admit, id);
    case AbandonTick => NothingRemains(Abandon(h).tick, id);
    case ProcessRestarts(now) => NothingRemains(Restart(h, now).tick, id);
    case _ =>
  }

  lemma NothingRemains(tick: Tick, id: TaskId)
    ensures tick.Idle? ==> Remaining(tick, id) == []
  {}

  /**
   * Since the history was `from` notes long and the cursors were `cursors`: what was journaled for the task
   * and what its tick has still to do run along the plan, and the cursor is at the last window journaled.
   */
  ghost predicate Tracks(h: Host, from: nat, cursors: map<TaskId, int>, plan: seq<int>, id: TaskId) {
    && from <= |h.history|
    && DoneSince(h, from, id) + Remaining(h.tick, id) <= plan
    && CursorFollows(cursors, h.cursors, DoneSince(h, from, id), id)
  }

  ghost predicate CursorFollows(before: map<TaskId, int>, after: map<TaskId, int>, done: seq<int>, id: TaskId) {
    if |done| == 0 then SameCursor(before, after, id) else id in after && after[id] == done[|done| - 1]
  }

  lemma TookOneTracks(h: Host, g: Host, from: nat, cursors: map<TaskId, int>, plan: seq<int>, id: TaskId)
    requires TookOne(h, g, id) && Tracks(h, from, cursors, plan, id)
    ensures Tracks(g, from, cursors, plan, id)
  {
    hide Remaining, DoneAts;
    var done, rest := DoneSince(h, from, id), Remaining(h.tick, id);
    DoneSnoc(h.history, from, g.history[|g.history| - 1], id);
    assert DoneSince(g, from, id) == done + [rest[0]];
    assert done + [rest[0]] + rest[1..] == done + rest;
  }

  lemma TookNoneTracks(h: Host, g: Host, from: nat, cursors: map<TaskId, int>, plan: seq<int>, id: TaskId)
    requires TookNone(h, g, id) && Tracks(h, from, cursors, plan, id)
    ensures Tracks(g, from, cursors, plan, id)
  {
    hide Remaining, DoneAts;
    var done := DoneSince(h, from, id);
    if g.history != h.history {
      DoneSnoc(h.history, from, g.history[|g.history| - 1], id);
    }
    assert done + [] == done;
  }

  lemma StepTracks(h: Host, e: Event, from: nat, cursors: map<TaskId, int>, plan: seq<int>, id: TaskId)
    requires Inv(h) && !StartsTick(h, e) && e != TaskRemoved(id) && Tracks(h, from, cursors, plan, id)
    ensures Tracks(Step(h, e), from, cursors, plan, id)
  {
    hide Inv, Step, TookOne, TookNone, Tracks;
    StepTakes(h, e, id);
    if TookOne(h, Step(h, e), id) {
      TookOneTracks(h, Step(h, e), from, cursors, plan, id);
    } else {
      TookNoneTracks(h, Step(h, e), from, cursors, plan, id);
    }
  }

  /** No other tick starts along the events, and the task is not removed. */
  ghost predicate Undisturbed(h: Host, events: seq<Event>, id: TaskId) {
    forall i :: 0 <= i < |events| ==> events[i] != TaskRemoved(id) && !StartsTick(Run(h, events[..i]), events[i])
  }

  lemma UndisturbedFront(h: Host, events: seq<Event>, id: TaskId)
    requires Undisturbed(h, events, id) && |events| > 0
    ensures Undisturbed(h, events[..|events| - 1], id)
    ensures
      var last := events[|events| - 1];
      last != TaskRemoved(id) && !StartsTick(Run(h, events[..|events| - 1]), last)
  {
    hide StartsTick, Run;
    var front := events[..|events| - 1];
    forall i | 0 <= i < |front| ensures front[i] != TaskRemoved(id) && !StartsTick(Run(h, front[..i]), front[i]) {
      assert front[..i] == events[..i];
    }
  }

  lemma {:induction false} RunTracks(h: Host, events: seq<Event>, from: nat, cursors: map<TaskId, int>, plan: seq<int>,
                                     id: TaskId)
    requires Inv(h) && Undisturbed(h, events, id) && Tracks(h, from, cursors, plan, id)
    ensures Tracks(Run(h, events), from, cursors, plan, id)
  {
    hide Inv, Step, Tracks, Undisturbed, StartsTick;
    if |events| > 0 {
      var front := events[..|events| - 1];
      UndisturbedFront(h, events, id);
      RunTracks(h, front, from, cursors, plan, id);
      RunKeepsInv(h, front);
      StepTracks(Run(h, front), events[|events| - 1], from, cursors, plan, id);
    }
  }

  // ----- No window is lost -----

  /**
   * Every window enumerated by the tick, once: first those collapsed, all before boot and before the first
   * one journaled; then those journaled since, each once and in order, the cursor at the last; then those
   * that the next enumeration, however much later, gives first.
   */
  ghost predicate Accounted(t: Task, input: TickInput, done: seq<int>, after: map<TaskId, int>, later: int) {
    var ws := WindowsOf(t, input);
    if |done| == 0 then
      Anchor(t, after) == Anchor(t, input.cursors) && ws <= TaskWindows(t, after, later)
    else
      var d := CollapsedCount(ws, input.bootAt);
      && d + |done| <= |ws|
      && (forall i :: 0 <= i < d ==> ws[i] < ws[d] < input.bootAt)
      && ws[d..d + |done|] == done
      && Anchor(t, after) == done[|done| - 1]
      && ws[d + |done|..] <= TaskWindows(t, after, later)
  }

  lemma CollapsedAreEarly(windows: seq<int>, bootAt: int)
    requires Ascending(windows)
    ensures
      var d := CollapsedCount(windows, bootAt);
      forall i :: 0 <= i < d && d < |windows| ==> windows[i] < windows[d] < bootAt
  {
    BootSplits(windows, bootAt);
    AllBefore(windows, bootAt);
    var late := Before(windows, bootAt);
    assert forall i :: 0 <= i < |late| ==> windows[i] == late[i];
  }

  lemma {:induction false} AllBefore(windows: seq<int>, bootAt: int)
    ensures forall i :: 0 <= i < |Before(windows, bootAt)| ==> Before(windows, bootAt)[i] < bootAt
  {
    if |windows| > 0 {
      AllBefore(windows[1..], bootAt);
    }
  }

  /** What is not reached is enumerated next. */
  lemma RestIsNext(t: Task, input: TickInput, after: map<TaskId, int>, later: int, k: nat)
    requires ValidTask(t) && t.enabled && later >= input.now
    requires k <= |WindowsOf(t, input)|
    requires Anchor(t, after) == Reached(Anchor(t, input.cursors), WindowsOf(t, input), k)
    ensures WindowsOf(t, input)[k..] <= TaskWindows(t, after, later)
  {
    hide Windows, ValidTask;
    var ws, anchor := WindowsOf(t, input), Anchor(t, input.cursors);
    WindowsAscend(t, anchor, input.now, MAX_WINDOWS_PER_TICK);
    WindowsResume(t, anchor, input.now, MAX_WINDOWS_PER_TICK, k);
    WindowsGrow(t, Anchor(t, after), input.now, later, MAX_WINDOWS_PER_TICK - k, MAX_WINDOWS_PER_TICK);
  }

  lemma TrackedIsAccounted(t: Task, input: TickInput, done: seq<int>, after: map<TaskId, int>, later: int)
    requires ValidTask(t) && t.enabled && later >= input.now
    requires done <= Milestones(WindowsOf(t, input), input.bootAt)
    requires CursorFollows(input.cursors, after, done, t.id)
    ensures Accounted(t, input, done, after, later)
  {
    TaskIsWellShaped(t, input);
    hide EvaluateOne, WellShaped, OnlyWindows, ValidTask, WindowsOf, TaskWindows, Accounted;
    var ws := WindowsOf(t, input);
    if |done| == 0 {
      NoneIsAccounted(t, input, after, later);
    } else {
      CollapsedAreEarly(ws, input.bootAt);
      SomeAreAccounted(t, input, done, after, later, CollapsedCount(ws, input.bootAt));
    }
  }

  lemma NoneIsAccounted(t: Task, input: TickInput, after: map<TaskId, int>, later: int)
    requires ValidTask(t) && t.enabled && later >= input.now && SameCursor(input.cursors, after, t.id)
    ensures Accounted(t, input, [], after, later)
  {
    hide ValidTask, WindowsOf, TaskWindows;
    RestIsNext(t, input, after, later, 0);
    assert WindowsOf(t, input)[0..] == WindowsOf(t, input);
  }

  lemma SomeAreAccounted(t: Task, input: TickInput, done: seq<int>, after: map<TaskId, int>, later: int, d: nat)
    requires ValidTask(t) && t.enabled && later >= input.now && |done| > 0
    requires d == CollapsedCount(WindowsOf(t, input), input.bootAt) && done <= WindowsOf(t, input)[d..]
    requires forall i :: 0 <= i < d ==> WindowsOf(t, input)[i] < WindowsOf(t, input)[d] < input.bootAt
    requires t.id in after && after[t.id] == done[|done| - 1]
    ensures Accounted(t, input, done, after, later)
  {
    hide ValidTask, Windows, CollapsedCount;
    var ws := WindowsOf(t, input);
    var k := d + |done|;
    assert k <= |ws| && ws[d..k] == done;
    RestIsNext(t, input, after, later, k);
    assert ws[k..] <= TaskWindows(t, after, later);
    assert Anchor(t, after) == done[|done| - 1];
  }

  /**
   * No window is lost and none is dealt with twice, wherever a tick stops. Take any events after the start
   * of a tick: writes, refusals, launches, endings, edits, an error, a crash.
   */
  lemma NoWindowIsLost(h: Host, now: int, limit: nat, events: seq<Event>, t: Task, later: int)
    requires Inv(h) && h.tick.Idle? && !h.booting
    requires t in h.tasks && t.enabled && later >= now
    requires Undisturbed(Begin(h, now, limit, true), events, t.id)
    ensures
      var g := Run(Begin(h, now, limit, true), events);
      && |h.history| <= |g.history|
      && Accounted(t, Input(h, now), DoneSince(g, |h.history|, t.id), g.cursors, later)
  {
    var b, input := Begin(h, now, limit, true), Input(h, now);
    var g, plan := Run(b, events), Milestones(WindowsOf(t, input), input.bootAt);
    BeginKeepsInv(h, now, limit, true);
    BeginTracks(h, now, limit, t);
    RunTracks(b, events, |h.history|, h.cursors, plan, t.id);
    hide Inv, Run, Begin, Milestones, DoneAts, Remaining;
    var done := DoneSince(g, |h.history|, t.id);
    assert done <= done + Remaining(g.tick, t.id);
    assert ValidTask(t) by {
      InvMeansValid(h, t);
    }
    TrackedIsAccounted(t, input, done, g.cursors, later);
  }

  lemma InvMeansValid(h: Host, t: Task)
    requires Inv(h) && t in h.tasks
    ensures ValidTask(t)
  {
    var k :| 0 <= k < |h.tasks| && h.tasks[k] == t;
    assert JournalInv(h);
  }

  lemma BeginTracks(h: Host, now: int, limit: nat, t: Task)
    requires Inv(h) && h.tick.Idle? && !h.booting && t in h.tasks
    ensures
      var input := Input(h, now);
      Tracks(Begin(h, now, limit, true), |h.history|, h.cursors, Milestones(WindowsOf(t, input), input.bootAt), t.id)
  {
    assert JournalInv(h);
    hide EvaluateAll, Plan, Milestones, Tracks, FlightInv, TickInv, WindowsOf;
    FreshTracks(Begin(h, now, limit, true), h.tasks, Input(h, now), limit, t);
  }

  lemma FreshTracks(b: Host, tasks: seq<Task>, input: TickInput, limit: nat, t: Task)
    requires TasksOk(tasks) && t in tasks
    requires b.tick == Plan(EvaluateAll(tasks, input), limit) && b.cursors == input.cursors
    ensures Tracks(b, |b.history|, b.cursors, Milestones(WindowsOf(t, input), input.bootAt), t.id)
  {
    hide EvaluateAll, EvaluateOne, Plan, Remaining, ValidTask, OwnPlan, WindowsOf, Milestones;
    RemainingIsPlan(tasks, input, limit, t.id);
    var k :| 0 <= k < |tasks| && tasks[k] == t;
    PlanIsPrefix(t, input);
    assert b.history[|b.history|..] == [];
    assert DoneSince(b, |b.history|, t.id) == [];
    assert [] + OwnPlan(t, input) == OwnPlan(t, input);
  }
}
