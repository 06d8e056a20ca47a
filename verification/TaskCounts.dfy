/** What a tick launches, and that its outcome counts every window it enumerated once. */
module TaskCounts {
  import opened Results
  import opened Scheduler
  import opened TaskRuns
  import opened TaskSafety
  import opened TaskTicks
  import opened TaskAccounting
  import opened WallClock

  // ----- What a tick launches -----

  /** The task was enabled and idle when the tick began, and this is the last of its enumerated windows. */
  ghost predicate IsLatest(id: TaskId, at: int, tasks: seq<Task>, input: TickInput) {
    id !in input.running && exists j :: 0 <= j < |tasks| && EndsAt(tasks[j], input, id, at)
  }

  ghost predicate EndsAt(t: Task, input: TickInput, id: TaskId, at: int) {
    var ws := WindowsOf(t, input);
    t.id == id && t.enabled && |ws| > 0 && at == ws[|ws| - 1]
  }

  ghost predicate LatestOfGroup(g: seq<Fire>, tasks: seq<Task>, input: TickInput) {
    |g| > 0 && IsLatest(g[|g| - 1].task.id, g[|g| - 1].scheduledFor, tasks, input)
  }

  ghost predicate LaunchesLatest(h: Host, from: nat, tasks: seq<Task>, input: TickInput) {
    && from <= |h.log|
    && (forall i :: from <= i < |h.log| && h.log[i].Launched? ==>
          IsLatest(h.log[i].taskId, h.log[i].scheduledFor, tasks, input))
    && (h.tick.Ticking? ==>
          && (forall k :: 0 <= k < |h.tick.groups| ==> LatestOfGroup(h.tick.groups[k], tasks, input))
          && (h.tick.stage.NoLaunch? || IsLatest(h.tick.stage.taskId, h.tick.stage.at, tasks, input)))
  }

  lemma ProceedLaunchesLatest(h: Host, admit: bool, from: nat, tasks: seq<Task>, input: TickInput)
    requires LaunchesLatest(h, from, tasks, input)
    ensures LaunchesLatest(Proceed(h, admit), from, tasks, input)
  {
    hide IsLatest, KeepLast, Advance, StaleTodos;
    if h.tick.Ticking? && |h.tick.todo| == 0 && h.tick.stage.NoLaunch? && |h.tick.groups| > 0 {
      assert LatestOfGroup(h.tick.groups[0], tasks, input);
    }
  }

  lemma StepLaunchesLatest(h: Host, e: Event, from: nat, tasks: seq<Task>, input: TickInput)
    requires LaunchesLatest(h, from, tasks, input) && !StartsTick(h, e)
    ensures LaunchesLatest(Step(h, e), from, tasks, input)
  {
    hide IsLatest, LatestOfGroup, Proceed, UpdateRun, Upsert, Without, FirstRunning, ValidTask, HasTask;
    if e.ProceedTick? {
      ProceedLaunchesLatest(h, e.admit, from, tasks, input);
    }
  }

  lemma TaskGroupEndsAt(t: Task, input: TickInput, tasks: seq<Task>)
    requires ValidTask(t) && t in tasks && |TaskGroup(t, input)| > 0
    ensures LatestOfGroup(TaskGroup(t, input), tasks, input)
  {
    hide EvaluateOne, ValidTask, EntriesInShape, FiresInShape, Windows;
    TaskIsWellShaped(t, input);
    FiresAreOwn(t, input);
    var g, ws := TaskGroup(t, input), WindowsOf(t, input);
    assert g[|g| - 1].scheduledFor == ws[|ws| - 1];
    var j :| 0 <= j < |tasks| && tasks[j] == t;
    assert EndsAt(tasks[j], input, t.id, g[|g| - 1].scheduledFor);
  }

  lemma PlannedGroupsAreLatest(tasks: seq<Task>, input: TickInput, limit: nat)
    requires TasksOk(tasks)
    ensures
      var plan := Plan(EvaluateAll(tasks, input), limit);
      && plan.Ticking? && plan.stage.NoLaunch?
      && forall k :: 0 <= k < |plan.groups| ==> LatestOfGroup(plan.groups[k], tasks, input)
  {
    hide EvaluateAll, EvaluateOne, GroupFires, IsLatest, LatestOfGroup, TaskGroup;
    GroupsArePerTask(tasks, input);
    var groups := Plan(EvaluateAll(tasks, input), limit).groups;
    assert groups == GroupFires(EvaluateAll(tasks, input).fires);
    forall k | 0 <= k < |groups| ensures LatestOfGroup(groups[k], tasks, input) {
      var j :| 0 <= j < |tasks| && groups[k] == TaskGroup(tasks[j], input);
      TaskGroupEndsAt(tasks[j], input, tasks);
    }
  }

  lemma FreshLaunchesLatest(b: Host, tasks: seq<Task>, input: TickInput, limit: nat)
    requires TasksOk(tasks) && b.tick == Plan(EvaluateAll(tasks, input), limit)
    ensures LaunchesLatest(b, |b.log|, tasks, input)
  {
    hide IsLatest, LatestOfGroup, TasksOk, EvaluateAll, Plan;
    PlannedGroupsAreLatest(tasks, input, limit);
    forall k | 0 <= k < |b.tick.groups| ensures LatestOfGroup(b.tick.groups[k], tasks, input) {}
  }

  lemma {:induction false} RunLaunchesLatest(h: Host, events: seq<Event>, from: nat, tasks: seq<Task>, input: TickInput)
    requires LaunchesLatest(h, from, tasks, input)
    requires forall i :: 0 <= i < |events| ==> !StartsTick(Run(h, events[..i]), events[i])
    ensures LaunchesLatest(Run(h, events), from, tasks, input)
  {
    hide LaunchesLatest, Step, StartsTick;
    if |events| > 0 {
      var front := events[..|events| - 1];
      assert forall i :: 0 <= i < |front| ==> front[..i] == events[..i];
      RunLaunchesLatest(h, front, from, tasks, input);
      StepLaunchesLatest(Run(h, front), events[|events| - 1], from, tasks, input);
    }
  }

  /** Until the next one begins, a tick launches only tasks enabled and idle when it began, each for its last window. */
  lemma LaunchesAreLatestWindows(h: Host, now: int, limit: nat, events: seq<Event>, i: nat)
    requires Inv(h) && h.tick.Idle? && !h.booting
    requires
      var b := Begin(h, now, limit, true);
      forall j :: 0 <= j < |events| ==> !StartsTick(Run(b, events[..j]), events[j])
    requires
      var log := Run(Begin(h, now, limit, true), events).log;
      |h.log| <= i < |log| && log[i].Launched?
    ensures
      var e := Run(Begin(h, now, limit, true), events).log[i];
      IsLatest(e.taskId, e.scheduledFor, h.tasks, Input(h, now))
  {
    assert JournalInv(h);
    hide Inv, Run, IsLatest, StartsTick, EvaluateAll, Plan, LaunchesLatest;
    var b := Begin(h, now, limit, true);
    assert b.tick == Plan(EvaluateAll(h.tasks, Input(h, now)), limit) && b.log == h.log;
    hide Begin;
    FreshLaunchesLatest(Begin(h, now, limit, true), h.tasks, Input(h, now), limit);
    RunLaunchesLatest(Begin(h, now, limit, true), events, |h.log|, h.tasks, Input(h, now));
  }

  // ----- Every window is counted once -----

  ghost function Total(c: Counts): nat {
    c.fired + c.missed + c.skipped + c.deferred + c.refused
  }

  ghost function TodoWeight(todo: seq<Todo>): nat {
    if |todo| == 0 then 0 else todo[0].weight + TodoWeight(todo[1..])
  }

  ghost function GroupedFires(groups: seq<seq<Fire>>): nat {
    if |groups| == 0 then 0 else |groups[0]| + GroupedFires(groups[1..])
  }

  /** The windows counted so far and those still to be counted. */
  ghost function Counted(tick: Tick): nat {
    match tick
    case Idle(None) => 0
    case Idle(Some(c)) => Total(c)
    case Ticking(todo, stage, groups, _, c) =>
      Total(c) + TodoWeight(todo) + (if stage.NoLaunch? then 0 else 1) + GroupedFires(groups)
  }

  lemma {:induction false} StaleWeight(g: seq<Fire>)
    requires |g| > 0
    ensures TodoWeight(StaleTodos(g)) == |g| - 1
  {
    if |g| > 1 {
      StaleWeight(g[1..]);
      assert StaleTodos(g)[1..] == StaleTodos(g[1..]);
    }
  }

  lemma ProceedCounts(h: Host, admit: bool)
    requires Inv(h)
    ensures Counted(Proceed(h, admit).tick) == Counted(h.tick)
  {
    assert TickInv(h) && FlightInv(h);
    hide Record, JournalInv, RemainingOk;
    if h.tick.Ticking? {
      var tick := h.tick;
      if |tick.todo| > 0 {
        assert IsClosed(tick.todo[0].entry.status);
      } else if tick.stage.NoLaunch? && |tick.groups| > 0 {
        assert GroupOk(tick.groups[0], tick.stage, h.inFlight);
        StaleWeight(tick.groups[0]);
      } else if tick.stage.Verifying? && !admit {
        assert Verdict(h, admit).tick.todo[1..] == [];
      }
    }
  }

  /** Neither another start, nor an error, nor a crash. */
  ghost predicate Completes(h: Host, events: seq<Event>) {
    forall i :: 0 <= i < |events| ==>
      !events[i].AbandonTick? && !events[i].ProcessRestarts? && !StartsTick(Run(h, events[..i]), events[i])
  }

  lemma {:induction false} RunCounts(h: Host, events: seq<Event>)
    requires Inv(h) && Completes(h, events)
    ensures Counted(Run(h, events).tick) == Counted(h.tick)
  {
    hide Inv, Step, StartsTick, Counted;
    if |events| > 0 {
      var front := events[..|events| - 1];
      assert forall i :: 0 <= i < |front| ==> front[..i] == events[..i];
      assert Completes(h, front);
      RunCounts(h, front);
      RunKeepsInv(h, front);
      StepCounts(Run(h, front), events[|events| - 1]);
    }
  }

  lemma StepCounts(h: Host, e: Event)
    requires Inv(h) && !e.AbandonTick? && !e.ProcessRestarts? && !StartsTick(h, e)
    ensures Counted(Step(h, e).tick) == Counted(h.tick)
  {
    hide Inv, Proceed, UpdateRun, Upsert, Without, FirstRunning, ValidTask, HasTask, Counted;
    if e.ProceedTick? {
      ProceedCounts(h, e.admit);
    }
  }

  // ----- What a fresh tick counts -----

  lemma {:induction false} InsertAddsOne(groups: seq<seq<Fire>>, f: Fire)
    ensures GroupedFires(Insert(groups, f)) == GroupedFires(groups) + 1
  {
    if |groups| == 0 {
      assert [[f]][1..] == [];
    } else if GroupId(groups[0]) != f.task.id {
      InsertAddsOne(groups[1..], f);
    }
  }

  /** Grouping drops the queued fires and nothing else. */
  lemma {:induction false} GroupingKeepsFires(fires: seq<Fire>)
    ensures GroupedFires(GroupFires(fires)) + QueuedCount(fires) == |fires|
  {
    if |fires| > 0 {
      GroupingKeepsFires(fires[..|fires| - 1]);
      InsertAddsOne(GroupFires(fires[..|fires| - 1]), fires[|fires| - 1]);
    }
  }

  lemma {:induction false} TodoWeightSplit(a: seq<Todo>, b: seq<Todo>)
    ensures TodoWeight(a + b) == TodoWeight(a) + TodoWeight(b)
  {
    if |a| == 0 {
      assert a + b == b;
    } else {
      assert (a + b)[0] == a[0] && (a + b)[1..] == a[1..] + b;
      TodoWeightSplit(a[1..], b);
    }
  }

  lemma {:induction false} SkippedWeight(skipped: seq<Skipped>)
    ensures TodoWeight(SkippedTodos(skipped)) == |skipped|
  {
    if |skipped| > 0 {
      SkippedWeight(skipped[1..]);
      assert SkippedTodos(skipped)[1..] == SkippedTodos(skipped[1..]);
    }
  }

  /** Missed windows that collapse into a later one that fires. */
  ghost function Collapsed(missed: seq<Missed>): int {
    if |missed| == 0 then 0 else (if missed[0].fires then missed[0].count - 1 else 0) + Collapsed(missed[1..])
  }

  /** A missed entry is written off for all its windows, or fires for the latest of them. */
  lemma {:induction false} MissedWeight(missed: seq<Missed>)
    ensures TodoWeight(MissedTodos(missed)) + Collapsed(missed) == MissedTotal(missed) - FiringEntries(missed)
  {
    if |missed| > 0 {
      var m, rest := missed[0], missed[1..];
      MissedWeight(rest);
      if !m.fires {
        var own := Todo(Entry(m.task.id, WasMissed, m.scheduledFor), m.count);
        assert ([own] + MissedTodos(rest))[1..] == MissedTodos(rest);
      } else {
        assert [] + MissedTodos(rest) == MissedTodos(rest);
      }
    }
  }

  ghost function WindowCount(tasks: seq<Task>, input: TickInput): nat {
    if |tasks| == 0 then 0 else |WindowsOf(tasks[0], input)| + WindowCount(tasks[1..], input)
  }

  lemma {:induction false} TotalsSplit(a: seq<Missed>, b: seq<Missed>)
    ensures MissedTotal(a + b) == MissedTotal(a) + MissedTotal(b)
    ensures FiringEntries(a + b) == FiringEntries(a) + FiringEntries(b)
  {
    if |a| == 0 {
      assert a + b == b;
    } else {
      assert (a + b)[0] == a[0] && (a + b)[1..] == a[1..] + b;
      TotalsSplit(a[1..], b);
    }
  }

  lemma {:induction false} AllWindowsCounted(tasks: seq<Task>, input: TickInput)
    requires forall k :: 0 <= k < |tasks| ==> ValidTask(tasks[k])
    ensures
      var o := EvaluateAll(tasks, input);
      WindowCount(tasks, input) + FiringEntries(o.missed) == MissedTotal(o.missed) + |o.skipped| + |o.fires|
  {
    hide EvaluateTask, WindowsOf, ValidTask, WellShaped, OnlyWindows;
    if |tasks| > 0 {
      var t := tasks[0];
      AllWindowsCounted(tasks[1..], input);
      TaskIsWellShaped(t, input);
      WindowsAreConserved(t, WindowsOf(t, input), input.bootAt, t.id in input.running);
      assert EvaluateOne(t, input) == EvaluateTask(t, WindowsOf(t, input), input.bootAt, t.id in input.running) by {
        OneIsTask(t, input);
      }
      TotalsSplit(EvaluateOne(t, input).missed, EvaluateAll(tasks[1..], input).missed);
    }
  }

  lemma OneIsTask(t: Task, input: TickInput)
    ensures EvaluateOne(t, input) == EvaluateTask(t, WindowsOf(t, input), input.bootAt, t.id in input.running)
  {}

  /**
   * Conservation, at every step of a tick that is neither given up nor cut off: every enumerated window of
   * every task is counted already, as fired, refused, missed, skipped or deferred, or still to be counted,
   * or it collapses into a later missed window that fires. When the tick is done, its outcome counts all.
   */
  lemma TickConservesWindows(h: Host, now: int, limit: nat, events: seq<Event>)
    requires Inv(h) && h.tick.Idle? && !h.booting
    requires Completes(Begin(h, now, limit, true), events)
    ensures
      var input, g := Input(h, now), Run(Begin(h, now, limit, true), events);
      && Counted(g.tick) + Collapsed(EvaluateAll(h.tasks, input).missed) == WindowCount(h.tasks, input)
      && (g.tick.Idle? && g.tick.outcome.Some? ==>
            Total(g.tick.outcome.value) + Collapsed(EvaluateAll(h.tasks, input).missed) == WindowCount(h.tasks, input))
  {
    var b := Begin(h, now, limit, true);
    BeginKeepsInv(h, now, limit, true);
    RunCounts(b, events);
    assert JournalInv(h);
    hide Inv, Run;
    PlanCounts(h.tasks, Input(h, now), limit);
  }

  lemma PlanCounts(tasks: seq<Task>, input: TickInput, limit: nat)
    requires forall k :: 0 <= k < |tasks| ==> ValidTask(tasks[k])
    ensures
      var o := EvaluateAll(tasks, input);
      Counted(Plan(o, limit)) + Collapsed(o.missed) == WindowCount(tasks, input)
  {
    hide EvaluateAll, ValidTask, WindowCount;
    var o := EvaluateAll(tasks, input);
    AllWindowsCounted(tasks, input);
    GroupingKeepsFires(o.fires);
    MissedWeight(o.missed);
    SkippedWeight(o.skipped);
    TodoWeightSplit(MissedTodos(o.missed), SkippedTodos(o.skipped));
  }

  // ----- What overlapping ticks would do -----

  /** The tick proceeds `n` steps, every launch admitted, with nothing else happening. */
  function Proceeds(h: Host, n: nat): Host {
    if n == 0 then h else Proceed(Proceeds(h, n - 1), true)
  }

  lemma ProceedsFive(h: Host)
    ensures Proceeds(h, 5) == Proceed(Proceed(Proceed(Proceed(Proceed(h, true), true), true), true), true)
  {
    hide Proceed;
    assert Proceeds(h, 1) == Proceed(Proceeds(h, 0), true);
    assert Proceeds(h, 3) == Proceed(Proceeds(h, 2), true);
  }

  lemma FiveSteps(h: Host, f: Fire, rest: seq<seq<Fire>>, limit: nat, counts: Counts)
    requires h.tick == Ticking([], NoLaunch, [[f]] + rest, limit, counts) && |h.inFlight| < limit
    ensures
      var g, id := Proceeds(h, 5), f.task.id;
      && g.log == h.log + [Launched(id, |h.history|, f.scheduledFor)]
      && |g.history| > |h.history|
      && g.inFlight.Keys == h.inFlight.Keys + {id}
      && |g.inFlight| == |h.inFlight| + if id in h.inFlight then 0 else 1
  {
    var id, at := f.task.id, f.scheduledFor;
    ProceedsFive(h);
    hide KeepLast, Advance, Proceeds;
    assert ([[f]] + rest)[0] == [f];
    var h1 := Proceed(h, true);
    assert h1.tick.stage == Verifying(id, at) && h1.tick.todo == [];
    var h2 := Proceed(h1, true);
    var h3 := Proceed(h2, true);
    assert h3.tick.stage == Entering(id, at, |h.history|) && h3.tick.todo == [] && h3.inFlight == h.inFlight;
    var flights := Proceed(Proceed(h3, true), true).inFlight;
    assert flights.Keys == h.inFlight.Keys + {id};
    assert |flights.Keys| == |flights| && |h.inFlight.Keys| == |h.inFlight|;
  }

  lemma ProceedsFour(h: Host)
    ensures Proceeds(h, 4) == Proceed(Proceed(Proceed(Proceed(h, true), true), true), true)
  {
    hide Proceed;
    assert Proceeds(h, 1) == Proceed(Proceeds(h, 0), true);
    assert Proceeds(h, 3) == Proceed(Proceeds(h, 2), true);
  }

  /** From the gate on, four steps launch. */
  lemma FourSteps(h: Host, id: TaskId, at: int)
    requires h.tick.Ticking? && h.tick.todo == [] && h.tick.stage == Verifying(id, at)
    ensures Proceeds(h, 4).log == h.log + [Launched(id, |h.history|, at)]
  {
    ProceedsFour(h);
    hide KeepLast, Advance, Proceeds;
    var h2 := Proceed(Proceed(h, true), true);
    assert h2.tick.stage == Entering(id, at, |h.history|) && h2.tick.todo == [] && h2.log == h.log;
  }

  /**
   * Ticks that overlap launch a window twice as soon as one slot is free. The first tick passes the gate and
   * waits for its checks; a second one, planned alike, passes the gate as well and launches; then the first
   * goes on. That ticks do not overlap is needed.
   */
  lemma OverlapLaunchesTwice(h: Host, f: Fire, rest: seq<seq<Fire>>, limit: nat, counts: Counts)
    requires h.tick == Ticking([], NoLaunch, [[f]] + rest, limit, counts) && |h.inFlight| < limit
    ensures
      var gated := Proceed(h, true);
      var other := Proceeds(gated.(tick := h.tick), 5);
      var both := Proceeds(other.(tick := gated.tick), 4);
      && |other.history| > |h.history|
      && both.log == h.log + [Launched(f.task.id, |h.history|, f.scheduledFor)]
                           + [Launched(f.task.id, |other.history|, f.scheduledFor)]
  {
    assert ([[f]] + rest)[0] == [f];
    var gated := Proceed(h, true);
    assert gated.tick.stage == Verifying(f.task.id, f.scheduledFor) && gated.tick.todo == [];
    assert gated.log == h.log && gated.history == h.history && gated.inFlight == h.inFlight;
    hide Proceeds, Proceed;
    FiveSteps(gated.(tick := h.tick), f, rest, limit, counts);
    var other := Proceeds(gated.(tick := h.tick), 5);
    FourSteps(other.(tick := gated.tick), f.task.id, f.scheduledFor);
  }

  /** Without a free slot a tick logs nothing. */
  lemma {:induction false} FullLogsNothing(h: Host, n: nat)
    requires h.tick.Ticking? ==> h.tick.todo == [] && h.tick.stage.NoLaunch? && |h.inFlight| >= h.tick.limit
    ensures
      var g := Proceeds(h, n);
      && g.log == h.log && g.inFlight == h.inFlight
      && (g.tick.Ticking? ==> g.tick.todo == [] && g.tick.stage.NoLaunch? && |g.inFlight| >= g.tick.limit)
  {
    if n > 0 {
      FullLogsNothing(h, n - 1);
    }
  }

  /** If the second tick only goes on when the first has launched, it launches too exactly if two slots were free. */
  lemma OverlapInTurnIff(h: Host, f: Fire, rest: seq<seq<Fire>>, limit: nat, counts: Counts)
    requires h.tick == Ticking([], NoLaunch, [[f]] + rest, limit, counts) && |h.inFlight| < limit
    requires f.task.id !in h.inFlight
    ensures
      var once := Proceeds(h, 5);
      var twice := Proceeds(once.(tick := h.tick), 5);
      && once.log == h.log + [Launched(f.task.id, |h.history|, f.scheduledFor)]
      && if |h.inFlight| + 1 < limit
         then twice.log == once.log + [Launched(f.task.id, |once.history|, f.scheduledFor)]
         else twice.log == once.log
  {
    hide Proceeds;
    FiveSteps(h, f, rest, limit, counts);
    var again := Proceeds(h, 5).(tick := h.tick);
    if |h.inFlight| + 1 < limit {
      FiveSteps(again, f, rest, limit, counts);
    } else {
      FullLogsNothing(again, 5);
    }
  }

  /** A task that runs every minute and is due for the first time. */
  function EveryMinute(zone: Zone): Task {
    Task("t", true, Interval(60_000), zone, RunLatest, SkipOverlap, 1)
  }

  lemma FirstMinuteIsDue(zone: Zone)
    ensures EvaluateAll([EveryMinute(zone)], TickInput(60_001, 0, map[], {}))
         == Outcome([Fire(EveryMinute(zone), 60_001, false)], [], [])
  {
    var t, input := EveryMinute(zone), TickInput(60_001, 0, map[], {});
    assert Windows(t, 60_001, 60_001, 999) == [];
    assert Windows(t, 1, 60_001, 1000) == [60_001] + [];
    var ws := [60_001];
    assert WindowsOf(t, input) == ws;
    assert ws[1..] == [] && Before([], 0) == [] && NotBefore([], 0) == [];
    assert Before(ws, 0) == [] && NotBefore(ws, 0) == ws;
    hide Windows, Before, NotBefore;
    assert DueFires(t, ws, false) == [Fire(t, 60_001, false)] && DueSkips(t, ws, false) == [];
    assert EvaluateOne(t, input) == Outcome([Fire(t, 60_001, false)], [], []);
    assert EvaluateAll([t], input) == Merge(EvaluateOne(t, input), EvaluateAll([t][1..], input));
    assert [t][1..] == [];
  }

  /** An instance from the empty store on, with the limit of one. */
  lemma OverlapAtLimitOne(retention: nat, zone: Zone)
    ensures
      var start := Step(InitialHost(0, retention), TaskUpserted(EveryMinute(zone)));
      var gated := Proceed(Step(start, BeginTick(60_001, 1, true)), true);
      var second := Step(gated.(tick := Idle(None)), BeginTick(60_001, 1, true));
      var both := Proceeds(Proceeds(second, 5).(tick := gated.tick), 4);
      && |both.log| == 2
      && both.log[0] == Launched("t", 0, 60_001)
      && both.log[1].Launched? && both.log[1].taskId == "t" && both.log[1].scheduledFor == 60_001
  {
    var t := EveryMinute(zone);
    var start := Step(InitialHost(0, retention), TaskUpserted(t));
    assert ValidTask(t) && start.tasks == [t];
    FirstMinuteIsDue(zone);
    var first := Step(start, BeginTick(60_001, 1, true));
    var f := Fire(t, 60_001, false);
    assert Input(start, 60_001) == TickInput(60_001, 0, map[], {});
    assert first.tick == Plan(Outcome([f], [], []), 1);
    PlanOfOne(f);
    var gated := Proceed(first, true);
    assert ([[f]] + [])[0] == [f];
    assert gated.(tick := Idle(None)) == start;
    hide EvaluateAll, Proceed, Proceeds, Step, Plan, InitialHost;
    OverlapLaunchesTwice(first, f, [], 1, Counts(0, 0, 0, 0, 0));
  }

  lemma PlanOfOne(f: Fire)
    requires !f.queued
    ensures Plan(Outcome([f], [], []), 1) == Ticking([], NoLaunch, [[f]] + [], 1, Counts(0, 0, 0, 0, 0))
  {
    assert [f][..0] == [];
    assert GroupFires([f]) == Insert(GroupFires([]), f) == [[f]];
    assert [[f]] + [] == [[f]];
    assert MissedTodos([]) + SkippedTodos([]) == [];
    assert QueuedCount([f]) == QueuedCount([]) == 0;
  }
}
