/**
 * The pure scheduling core (packages/app-runtime/src/scheduler-domain.ts:62-140): which windows a task
 * has missed or is due, and what one tick decides about them.
 */
module Scheduler {
  import opened Results
  import opened WallClock

  const MAX_WINDOWS_PER_TICK: nat := 1000

  type TaskId = string

  datatype Schedule =
    | Interval(everyMs: int)
    | Daily(minute: int)
    | Weekly(weekdays: set<nat>, minute: int)

  datatype MissedPolicy = SkipMissed | RunLatest
  datatype OverlapPolicy = SkipOverlap | QueueOverlap

  datatype Task = Task(
    id: TaskId,
    enabled: bool,
    schedule: Schedule,
    zone: Zone,
    missedRun: MissedPolicy,
    overlap: OverlapPolicy,
    createdAt: int
  )

  /** What the task schema enforces before a definition is stored. */
  predicate ValidTask(t: Task) {
    && t.createdAt > 0
    && match t.schedule
       case Interval(everyMs) => everyMs >= 60_000
       case Daily(minute) => 0 <= minute < 1440
       case Weekly(weekdays, minute) => 0 <= minute < 1440 && exists w :: w in weekdays && w < 7
  }

  // ----- Windows -----

  function ComputeNextRunAt(schedule: Schedule, afterMs: int, zone: Zone): Option<int> {
    match schedule
    case Interval(everyMs) => Some(afterMs + everyMs)
    case Daily(minute) => NextWall(minute, None, afterMs, zone)
    case Weekly(weekdays, minute) => NextWall(minute, Some(weekdays), afterMs, zone)
  }

  lemma NextRunIsLater(t: Task, afterMs: int)
    requires ValidTask(t)
    ensures
      var next := ComputeNextRunAt(t.schedule, afterMs, t.zone);
      next.Some? ==> next.value > afterMs
  {
    match t.schedule
    case Interval(_) =>
    case Daily(minute) => NextIsLaterOccurrence(minute, None, afterMs, t.zone, 0);
    case Weekly(weekdays, minute) => NextIsLaterOccurrence(minute, Some(weekdays), afterMs, t.zone, 0);
  }

  /** The first `limit` windows after `anchor`, none later than `now`. */
  function Windows(t: Task, anchor: int, now: int, limit: nat): seq<int>
    decreases limit
  {
    if limit == 0 then []
    else match ComputeNextRunAt(t.schedule, anchor, t.zone)
      case None => []
      case Some(next) => if next > now then [] else [next] + Windows(t, next, now, limit - 1)
  }

  method EnumerateWindows(t: Task, anchor: int, now: int) returns (windows: seq<int>)
    ensures windows == Windows(t, anchor, now, MAX_WINDOWS_PER_TICK)
  {
    hide ComputeNextRunAt;
    windows := [];
    var cursor := anchor;
    assert windows + Windows(t, anchor, now, MAX_WINDOWS_PER_TICK) == Windows(t, anchor, now, MAX_WINDOWS_PER_TICK);
    while |windows| < MAX_WINDOWS_PER_TICK
      invariant |windows| <= MAX_WINDOWS_PER_TICK
      invariant Windows(t, anchor, now, MAX_WINDOWS_PER_TICK)
             == windows + Windows(t, cursor, now, MAX_WINDOWS_PER_TICK - |windows|)
    {
      var next := ComputeNextRunAt(t.schedule, cursor, t.zone);
      ghost var rest := Windows(t, cursor, now, MAX_WINDOWS_PER_TICK - |windows|);
      assert next.None? || next.value > now ==> rest == [] && windows + rest == windows;
      if next.None? || next.value > now {
        return;
      }
      ghost var after := Windows(t, next.value, now, MAX_WINDOWS_PER_TICK - |windows| - 1);
      assert windows + rest == windows + [next.value] + after;
      windows := windows + [next.value];
      cursor := next.value;
    }
    assert windows + [] == windows;
  }

  ghost predicate Ascending(s: seq<int>) {
    forall i, j :: 0 <= i < j < |s| ==> s[i] < s[j]
  }

  lemma {:induction false} WindowsAscend(t: Task, anchor: int, now: int, limit: nat)
    requires ValidTask(t)
    ensures
      var ws := Windows(t, anchor, now, limit);
      && |ws| <= limit
      && Ascending(ws)
      && forall i :: 0 <= i < |ws| ==> anchor < ws[i] <= now
    decreases limit
  {
    hide ComputeNextRunAt, ValidTask;
    if limit > 0 {
      NextRunIsLater(t, anchor);
      match ComputeNextRunAt(t.schedule, anchor, t.zone)
      case None =>
      case Some(next) =>
        if next <= now {
          WindowsAscend(t, next, now, limit - 1);
          var ws, rest := Windows(t, anchor, now, limit), Windows(t, next, now, limit - 1);
          assert ws == [next] + rest;
          assert forall i :: 1 <= i < |ws| ==> ws[i] == rest[i - 1];
        }
    }
  }

  /** Where the enumeration stands after its first `k` windows. */
  function Reached(anchor: int, windows: seq<int>, k: nat): int
    requires k <= |windows|
  {
    if k == 0 then anchor else windows[k - 1]
  }

  /** Stopping after `k` windows and starting again from the last one loses and repeats nothing. */
  lemma {:induction false} WindowsResume(t: Task, anchor: int, now: int, limit: nat, k: nat)
    requires k <= |Windows(t, anchor, now, limit)| <= limit
    ensures
      var ws := Windows(t, anchor, now, limit);
      ws[k..] == Windows(t, Reached(anchor, ws, k), now, limit - k)
    decreases k
  {
    hide ComputeNextRunAt;
    if k > 0 {
      var next := ComputeNextRunAt(t.schedule, anchor, t.zone).value;
      var ws, rest := Windows(t, anchor, now, limit), Windows(t, next, now, limit - 1);
      assert ws == [next] + rest;
      WindowsResume(t, next, now, limit - 1, k - 1);
      assert ws[k..] == rest[k - 1..];
      assert Reached(anchor, ws, k) == Reached(next, rest, k - 1);
    }
  }

  /** A later clock and a higher limit only add windows at the end. */
  lemma {:induction false} WindowsGrow(t: Task, anchor: int, now: int, later: int, limit: nat, more: nat)
    requires now <= later && limit <= more
    ensures Windows(t, anchor, now, limit) <= Windows(t, anchor, later, more)
    decreases limit
  {
    hide ComputeNextRunAt;
    if limit > 0 {
      match ComputeNextRunAt(t.schedule, anchor, t.zone)
      case None =>
      case Some(next) => WindowsGrow(t, next, now, later, limit - 1, more - 1);
    }
  }

  /** Enumerating in batches from the last window concatenates to the enumeration in one go. */
  lemma {:induction false} BatchesConcatenate(t: Task, anchor: int, now: int, first: nat, second: nat)
    ensures
      var ws := Windows(t, anchor, now, first);
      Windows(t, anchor, now, first + second) == ws + Windows(t, Reached(anchor, ws, |ws|), now, second)
    decreases first
  {
    hide ComputeNextRunAt;
    if first > 0 {
      match ComputeNextRunAt(t.schedule, anchor, t.zone)
      case None =>
        assert second > 0 ==> Windows(t, anchor, now, second) == [];
      case Some(next) =>
        if next <= now {
          BatchesConcatenate(t, next, now, first - 1, second);
          var ws, rest := Windows(t, anchor, now, first), Windows(t, next, now, first - 1);
          assert ws == [next] + rest;
          assert Reached(anchor, ws, |ws|) == Reached(next, rest, |rest|);
        }
    }
  }

  /** The k-th interval window is `k + 1` periods after the anchor, and every such instant up to now is one. */
  lemma {:induction false} IntervalWindows(t: Task, anchor: int, now: int, limit: nat)
    requires ValidTask(t) && t.schedule.Interval?
    ensures
      var ws := Windows(t, anchor, now, limit);
      && (forall k :: 0 <= k < |ws| ==> ws[k] == anchor + (k + 1) * t.schedule.everyMs)
      && (|ws| < limit ==> anchor + (|ws| + 1) * t.schedule.everyMs > now)
    decreases limit
  {
    if limit > 0 {
      var next := anchor + t.schedule.everyMs;
      if next <= now {
        IntervalWindows(t, next, now, limit - 1);
        var ws, rest, p := Windows(t, anchor, now, limit), Windows(t, next, now, limit - 1), t.schedule.everyMs;
        assert ws == [next] + rest;
        forall k | 0 <= k < |ws| ensures ws[k] == anchor + (k + 1) * p {
          OnePeriodMore(anchor, p, k);
          assert k > 0 ==> ws[k] == rest[k - 1];
        }
        OnePeriodMore(anchor, p, |ws|);
      }
    }
  }

  lemma OnePeriodMore(anchor: int, p: int, k: nat)
    ensures anchor + p + k * p == anchor + (k + 1) * p
    ensures k == 0 ==> k * p == 0
  {}

  // ----- One tick -----

  datatype Fire = Fire(task: Task, scheduledFor: int, queued: bool)
  datatype Missed = Missed(task: Task, scheduledFor: int, count: nat, fires: bool)
  datatype Skipped = Skipped(task: Task, scheduledFor: int)

  datatype Outcome = Outcome(fires: seq<Fire>, missed: seq<Missed>, skipped: seq<Skipped>)

  function Before(windows: seq<int>, bootAt: int): (late: seq<int>)
    ensures |late| <= |windows|
  {
    if |windows| == 0 then []
    else (if windows[0] < bootAt then [windows[0]] else []) + Before(windows[1..], bootAt)
  }

  function NotBefore(windows: seq<int>, bootAt: int): seq<int> {
    if |windows| == 0 then []
    else (if windows[0] >= bootAt then [windows[0]] else []) + NotBefore(windows[1..], bootAt)
  }

  /** Ascending windows split at the boot time: first the missed ones, then the due ones. */
  lemma {:induction false} BootSplits(windows: seq<int>, bootAt: int)
    requires Ascending(windows)
    ensures windows == Before(windows, bootAt) + NotBefore(windows, bootAt)
  {
    if |windows| > 0 {
      var rest := windows[1..];
      assert Ascending(rest);
      BootSplits(rest, bootAt);
      if windows[0] >= bootAt {
        AllNotBefore(rest, bootAt);
      }
    }
  }

  lemma {:induction false} AllNotBefore(windows: seq<int>, bootAt: int)
    requires forall i :: 0 <= i < |windows| ==> windows[i] >= bootAt
    ensures Before(windows, bootAt) == []
  {
    if |windows| > 0 {
      AllNotBefore(windows[1..], bootAt);
    }
  }

  /** What becomes of the due windows: fired, queued or skipped, in order. */
  function DueFires(t: Task, due: seq<int>, running: bool): (fs: seq<Fire>)
    ensures |fs| == if running && t.overlap.SkipOverlap? then 0 else |due|
    ensures forall i :: 0 <= i < |fs| ==> fs[i] == Fire(t, due[i], running)
  {
    if running && t.overlap.SkipOverlap? then [] else seq(|due|, i requires 0 <= i < |due| => Fire(t, due[i], running))
  }

  function DueSkips(t: Task, due: seq<int>, running: bool): (ss: seq<Skipped>)
    ensures |ss| == if running && t.overlap.SkipOverlap? then |due| else 0
    ensures forall i :: 0 <= i < |ss| ==> ss[i] == Skipped(t, due[i])
  {
    if running && t.overlap.SkipOverlap? then seq(|due|, i requires 0 <= i < |due| => Skipped(t, due[i])) else []
  }

  /** The missed windows collapse into one entry for the latest of them, which fires or not. */
  predicate MissedFires(t: Task, running: bool) {
    t.missedRun.RunLatest? && (!running || t.overlap.QueueOverlap?)
  }

  function EvaluateTask(t: Task, windows: seq<int>, bootAt: int, running: bool): Outcome {
    var late, due := Before(windows, bootAt), NotBefore(windows, bootAt);
    if |late| == 0 then Outcome(DueFires(t, due, running), [], DueSkips(t, due, running))
    else
      var latest := late[|late| - 1];
      var fires := MissedFires(t, running);
      Outcome(
        (if fires then [Fire(t, latest, running)] else []) + DueFires(t, due, running),
        [Missed(t, latest, |late|, fires)],
        DueSkips(t, due, running))
  }

  function Merge(a: Outcome, b: Outcome): Outcome {
    Outcome(a.fires + b.fires, a.missed + b.missed, a.skipped + b.skipped)
  }

  function Anchor(t: Task, cursors: map<TaskId, int>): int {
    if t.id in cursors then cursors[t.id] else t.createdAt
  }

  function TaskWindows(t: Task, cursors: map<TaskId, int>, now: int): seq<int> {
    if t.enabled then Windows(t, Anchor(t, cursors), now, MAX_WINDOWS_PER_TICK) else []
  }

  datatype TickInput = TickInput(now: int, bootAt: int, cursors: map<TaskId, int>, running: set<TaskId>)

  function EvaluateOne(t: Task, input: TickInput): Outcome {
    EvaluateTask(t, TaskWindows(t, input.cursors, input.now), input.bootAt, t.id in input.running)
  }

  /** Each task is decided on its own; the tick is the decisions in task order. */
  function EvaluateAll(tasks: seq<Task>, input: TickInput): Outcome {
    if |tasks| == 0 then Outcome([], [], [])
    else Merge(EvaluateOne(tasks[0], input), EvaluateAll(tasks[1..], input))
  }

  lemma {:induction false} EvaluateAllSnoc(tasks: seq<Task>, t: Task, input: TickInput)
    ensures EvaluateAll(tasks + [t], input) == Merge(EvaluateAll(tasks, input), EvaluateOne(t, input))
  {
    hide EvaluateOne;
    if |tasks| == 0 {
      assert (tasks + [t])[1..] == [];
    } else {
      EvaluateAllSnoc(tasks[1..], t, input);
      assert (tasks + [t])[1..] == tasks[1..] + [t];
    }
  }

  lemma NothingToEvaluate(input: TickInput)
    ensures EvaluateAll([], input) == Outcome([], [], [])
  {}

  lemma WithoutWindows(t: Task, input: TickInput)
    ensures EvaluateTask(t, [], input.bootAt, t.id in input.running) == Outcome([], [], [])
  {}

  method EvaluateTick(tasks: seq<Task>, input: TickInput) returns (r: Outcome)
    ensures r == EvaluateAll(tasks, input)
    ensures TickFollowsPolicies(r, tasks, input)
  {
    hide TickFollowsPolicies, EvaluateTask, EvaluateAll, Windows, FollowsPolicies;
    var fires: seq<Fire>, missed: seq<Missed>, skipped: seq<Skipped> := [], [], [];
    assert tasks[..0] == [];
    NothingToEvaluate(input);
    var k := 0;
    while k < |tasks|
      invariant k <= |tasks| && Outcome(fires, missed, skipped) == EvaluateAll(tasks[..k], input)
    {
      var task := tasks[k];
      assert tasks[..k + 1] == tasks[..k] + [task];
      EvaluateAllSnoc(tasks[..k], task, input);
      WithoutWindows(task, input);
      var part := Outcome([], [], []);
      if task.enabled {
        var windows := EnumerateWindows(task, Anchor(task, input.cursors), input.now);
        if |windows| > 0 {
          part := DecideTask(task, windows, input.bootAt, task.id in input.running);
        }
      }
      fires, missed, skipped := fires + part.fires, missed + part.missed, skipped + part.skipped;
      k := k + 1;
    }
    assert tasks[..k] == tasks;
    r := Outcome(fires, missed, skipped);
    EvaluationFollowsPolicies(tasks, input);
  }

  /** The body of the tick's task loop. */
  method DecideTask(t: Task, windows: seq<int>, bootAt: int, running: bool) returns (r: Outcome)
    ensures r == EvaluateTask(t, windows, bootAt, running)
    ensures Ascending(windows) ==> FollowsPolicies(r, t, windows, bootAt, running)
  {
    hide FollowsPolicies;
    if Ascending(windows) {
      DecisionFollowsPolicies(t, windows, bootAt, running);
    }
    var late, due := Before(windows, bootAt), NotBefore(windows, bootAt);
    var fires: seq<Fire>, missed: seq<Missed> := [], [];
    if |late| > 0 {
      var latest := late[|late| - 1];
      var wantsFire := t.missedRun.RunLatest?;
      var blocked := wantsFire && running;
      if wantsFire && !blocked {
        fires := [Fire(t, latest, false)];
        missed := [Missed(t, latest, |late|, true)];
      } else if wantsFire && blocked && t.overlap.QueueOverlap? {
        fires := [Fire(t, latest, true)];
        missed := [Missed(t, latest, |late|, true)];
      } else {
        missed := [Missed(t, latest, |late|, false)];
      }
    }
    var dueFires, dueSkips := DecideDue(t, due, running);
    r := Outcome(fires + dueFires, missed, dueSkips);
  }

  method DecideDue(t: Task, due: seq<int>, running: bool) returns (fires: seq<Fire>, skipped: seq<Skipped>)
    ensures fires == DueFires(t, due, running) && skipped == DueSkips(t, due, running)
  {
    fires, skipped := [], [];
    var i := 0;
    while i < |due|
      invariant i <= |due|
      invariant |fires| + |skipped| == i && if running && t.overlap.SkipOverlap? then fires == [] else skipped == []
      invariant forall k :: 0 <= k < |fires| ==> fires[k] == Fire(t, due[k], running)
      invariant forall k :: 0 <= k < |skipped| ==> skipped[k] == Skipped(t, due[k])
    {
      if running {
        if t.overlap.SkipOverlap? {
          skipped := skipped + [Skipped(t, due[i])];
        } else {
          fires := fires + [Fire(t, due[i], true)];
        }
      } else {
        fires := fires + [Fire(t, due[i], false)];
      }
      i := i + 1;
    }
  }

  // ----- The policies -----

  /** `at` is the latest of the windows that fell due before the scheduler booted. */
  ghost predicate LatestMissed(windows: seq<int>, bootAt: int, at: int) {
    at in windows && at < bootAt && forall w :: w in windows && w < bootAt ==> w <= at
  }

  /** Which windows are to be launched: missed ones by both policies, due ones by the overlap policy alone. */
  ghost predicate MustFire(t: Task, windows: seq<int>, bootAt: int, running: bool, at: int) {
    && (running ==> t.overlap.QueueOverlap?)
    && if at < bootAt then LatestMissed(windows, bootAt, at) && t.missedRun.RunLatest? else at in windows
  }

  ghost predicate MustSkip(t: Task, windows: seq<int>, bootAt: int, running: bool, at: int) {
    at in windows && at >= bootAt && running && t.overlap.SkipOverlap?
  }

  /** The number of windows that fell due before the boot. */
  ghost function MissedCount(windows: seq<int>, bootAt: int): nat {
    |set w | w in windows && w < bootAt|
  }

  ghost predicate FiresFollow(o: Outcome, t: Task, windows: seq<int>, bootAt: int, running: bool) {
    forall at, queued :: Fire(t, at, queued) in o.fires <==>
      queued == running && MustFire(t, windows, bootAt, running, at)
  }

  ghost predicate SkipsFollow(o: Outcome, t: Task, windows: seq<int>, bootAt: int, running: bool) {
    forall at :: Skipped(t, at) in o.skipped <==> MustSkip(t, windows, bootAt, running, at)
  }

  ghost predicate MissedFollow(o: Outcome, t: Task, windows: seq<int>, bootAt: int, running: bool) {
    forall at, count, fires :: Missed(t, at, count, fires) in o.missed <==>
      && LatestMissed(windows, bootAt, at)
      && count == MissedCount(windows, bootAt)
      && fires == MustFire(t, windows, bootAt, running, at)
  }

  /** What `o` says about the task `t` is what the task's policies say. */
  ghost predicate FollowsPolicies(o: Outcome, t: Task, windows: seq<int>, bootAt: int, running: bool) {
    && FiresFollow(o, t, windows, bootAt, running)
    && SkipsFollow(o, t, windows, bootAt, running)
    && MissedFollow(o, t, windows, bootAt, running)
  }

  lemma {:induction false} BeforeAndNotBefore(windows: seq<int>, bootAt: int)
    ensures forall w :: w in Before(windows, bootAt) <==> w in windows && w < bootAt
    ensures forall w :: w in NotBefore(windows, bootAt) <==> w in windows && w >= bootAt
  {
    if |windows| > 0 {
      BeforeAndNotBefore(windows[1..], bootAt);
      assert windows == [windows[0]] + windows[1..];
    }
  }

  lemma {:induction false} SizeOfAscending(s: seq<int>)
    requires Ascending(s)
    ensures |set w | w in s| == |s|
  {
    if |s| > 0 {
      var rest := s[..|s| - 1];
      SizeOfAscending(rest);
      assert s == rest + [s[|s| - 1]];
      assert (set w | w in s) == (set w | w in rest) + {s[|s| - 1]};
    }
  }

  lemma CountOfMissed(windows: seq<int>, bootAt: int)
    requires Ascending(windows)
    ensures MissedCount(windows, bootAt) == |Before(windows, bootAt)|
  {
    BootSplits(windows, bootAt);
    BeforeAndNotBefore(windows, bootAt);
    var late := Before(windows, bootAt);
    assert late == windows[..|late|];
    hide Before, NotBefore;
    assert Ascending(late);
    SizeOfAscending(late);
    assert (set w | w in windows && w < bootAt) == (set w | w in late);
  }

  lemma LatestIsLast(windows: seq<int>, bootAt: int, at: int)
    requires Ascending(windows)
    ensures
      var late := Before(windows, bootAt);
      LatestMissed(windows, bootAt, at) <==> |late| > 0 && at == late[|late| - 1]
  {
    BootSplits(windows, bootAt);
    BeforeAndNotBefore(windows, bootAt);
    var late := Before(windows, bootAt);
    hide Before, NotBefore;
    assert late == windows[..|late|];
    if |late| > 0 {
      var last := late[|late| - 1];
      assert last in late;
      forall w | w in windows && w < bootAt ensures w <= last {
        var i :| 0 <= i < |late| && late[i] == w;
      }
    }
  }

  lemma DueFiresAre(t: Task, due: seq<int>, running: bool, at: int, queued: bool)
    ensures Fire(t, at, queued) in DueFires(t, due, running) <==>
            queued == running && (running ==> t.overlap.QueueOverlap?) && at in due
  {
    var fires := DueFires(t, due, running);
    hide DueFires;
    if queued == running && (running ==> t.overlap.QueueOverlap?) && at in due {
      var i :| 0 <= i < |due| && due[i] == at;
      assert fires[i] == Fire(t, at, queued);
    }
  }

  lemma DueSkipsAre(t: Task, due: seq<int>, running: bool, at: int)
    ensures Skipped(t, at) in DueSkips(t, due, running) <==> running && t.overlap.SkipOverlap? && at in due
  {
    var skips := DueSkips(t, due, running);
    hide DueSkips;
    if running && t.overlap.SkipOverlap? && at in due {
      var i :| 0 <= i < |due| && due[i] == at;
      assert skips[i] == Skipped(t, at);
    }
  }

  lemma FiresFollowPolicies(t: Task, windows: seq<int>, bootAt: int, running: bool)
    requires Ascending(windows)
    ensures FiresFollow(EvaluateTask(t, windows, bootAt, running), t, windows, bootAt, running)
  {
    forall at, queued
      ensures Fire(t, at, queued) in EvaluateTask(t, windows, bootAt, running).fires <==>
              queued == running && MustFire(t, windows, bootAt, running, at)
    {
      BeforeAndNotBefore(windows, bootAt);
      LatestIsLast(windows, bootAt, at);
      DueFiresAre(t, NotBefore(windows, bootAt), running, at, queued);
      hide Before, NotBefore, DueFires, DueSkips, LatestMissed, Ascending;
    }
  }

  lemma SkipsFollowPolicies(t: Task, windows: seq<int>, bootAt: int, running: bool)
    ensures SkipsFollow(EvaluateTask(t, windows, bootAt, running), t, windows, bootAt, running)
  {
    forall at
      ensures Skipped(t, at) in EvaluateTask(t, windows, bootAt, running).skipped <==>
              MustSkip(t, windows, bootAt, running, at)
    {
      BeforeAndNotBefore(windows, bootAt);
      DueSkipsAre(t, NotBefore(windows, bootAt), running, at);
      hide Before, NotBefore, DueFires, DueSkips;
    }
  }

  lemma MissedFollowPolicies(t: Task, windows: seq<int>, bootAt: int, running: bool)
    requires Ascending(windows)
    ensures MissedFollow(EvaluateTask(t, windows, bootAt, running), t, windows, bootAt, running)
  {
    forall at, count, fires
      ensures Missed(t, at, count, fires) in EvaluateTask(t, windows, bootAt, running).missed <==>
              && LatestMissed(windows, bootAt, at)
              && count == MissedCount(windows, bootAt)
              && fires == MustFire(t, windows, bootAt, running, at)
    {
      BeforeAndNotBefore(windows, bootAt);
      CountOfMissed(windows, bootAt);
      LatestIsLast(windows, bootAt, at);
      hide Before, NotBefore, DueFires, DueSkips, MissedCount, Ascending;
    }
  }

  /** The decision about one task is what its missed-run and overlap policies say, window by window. */
  lemma DecisionFollowsPolicies(t: Task, windows: seq<int>, bootAt: int, running: bool)
    requires Ascending(windows)
    ensures FollowsPolicies(EvaluateTask(t, windows, bootAt, running), t, windows, bootAt, running)
  {
    FiresFollowPolicies(t, windows, bootAt, running);
    SkipsFollowPolicies(t, windows, bootAt, running);
    MissedFollowPolicies(t, windows, bootAt, running);
  }

  lemma EntriesAreOwn(t: Task, input: TickInput)
    ensures forall f :: f in EvaluateOne(t, input).fires ==> f.task == t
    ensures forall m :: m in EvaluateOne(t, input).missed ==> m.task == t
    ensures forall s :: s in EvaluateOne(t, input).skipped ==> s.task == t
  {
    hide Windows, Before, NotBefore, DueFires, DueSkips;
  }

  /** A tick says about a task what is decided about that task alone. */
  lemma {:induction false} FiresOfTask(tasks: seq<Task>, input: TickInput, f: Fire)
    ensures f in EvaluateAll(tasks, input).fires <==> f.task in tasks && f in EvaluateOne(f.task, input).fires
  {
    hide EvaluateOne;
    if |tasks| > 0 {
      FiresOfTask(tasks[1..], input, f);
      EntriesAreOwn(tasks[0], input);
    }
  }

  lemma {:induction false} SkipsOfTask(tasks: seq<Task>, input: TickInput, s: Skipped)
    ensures s in EvaluateAll(tasks, input).skipped <==> s.task in tasks && s in EvaluateOne(s.task, input).skipped
  {
    hide EvaluateOne;
    if |tasks| > 0 {
      SkipsOfTask(tasks[1..], input, s);
      EntriesAreOwn(tasks[0], input);
    }
  }

  lemma {:induction false} MissedOfTask(tasks: seq<Task>, input: TickInput, m: Missed)
    ensures m in EvaluateAll(tasks, input).missed <==> m.task in tasks && m in EvaluateOne(m.task, input).missed
  {
    hide EvaluateOne;
    if |tasks| > 0 {
      MissedOfTask(tasks[1..], input, m);
      EntriesAreOwn(tasks[0], input);
    }
  }

  /** Where the enumeration of a task's windows starts: at its cursor, or at its creation before the first one. */
  ghost function EnumeratedFrom(t: Task, cursors: map<TaskId, int>): int {
    if t.id in cursors then cursors[t.id] else t.createdAt
  }

  /** The windows a tick is about: none for a disabled task. */
  ghost function TickWindows(t: Task, input: TickInput): seq<int> {
    if t.enabled then Windows(t, EnumeratedFrom(t, input.cursors), input.now, MAX_WINDOWS_PER_TICK) else []
  }

  /** A tick has entries of the given tasks only, and they follow the policies of each. */
  ghost predicate TickFollowsPolicies(o: Outcome, tasks: seq<Task>, input: TickInput) {
    && (forall f :: f in o.fires ==> f.task in tasks)
    && (forall s :: s in o.skipped ==> s.task in tasks)
    && (forall m :: m in o.missed ==> m.task in tasks)
    && forall t :: t in tasks && ValidTask(t) ==>
         FollowsPolicies(o, t, TickWindows(t, input), input.bootAt, t.id in input.running)
  }

  lemma SameFollow(tasks: seq<Task>, input: TickInput, t: Task, windows: seq<int>, running: bool)
    requires t in tasks
    ensures FiresFollow(EvaluateOne(t, input), t, windows, input.bootAt, running)
      ==> FiresFollow(EvaluateAll(tasks, input), t, windows, input.bootAt, running)
    ensures SkipsFollow(EvaluateOne(t, input), t, windows, input.bootAt, running)
      ==> SkipsFollow(EvaluateAll(tasks, input), t, windows, input.bootAt, running)
    ensures MissedFollow(EvaluateOne(t, input), t, windows, input.bootAt, running)
      ==> MissedFollow(EvaluateAll(tasks, input), t, windows, input.bootAt, running)
  {
    hide EvaluateAll, EvaluateOne, MustFire, MustSkip, LatestMissed, MissedCount;
    var all, one := EvaluateAll(tasks, input), EvaluateOne(t, input);
    forall at, queued ensures Fire(t, at, queued) in all.fires <==> Fire(t, at, queued) in one.fires {
      FiresOfTask(tasks, input, Fire(t, at, queued));
    }
    forall at ensures Skipped(t, at) in all.skipped <==> Skipped(t, at) in one.skipped {
      SkipsOfTask(tasks, input, Skipped(t, at));
    }
    forall at, count, fires
      ensures Missed(t, at, count, fires) in all.missed <==> Missed(t, at, count, fires) in one.missed
    {
      MissedOfTask(tasks, input, Missed(t, at, count, fires));
    }
  }

  lemma TaskFollowsPolicies(tasks: seq<Task>, input: TickInput, t: Task)
    requires t in tasks && ValidTask(t)
    ensures
      FollowsPolicies(EvaluateAll(tasks, input), t, TickWindows(t, input), input.bootAt, t.id in input.running)
  {
    hide FiresFollow, SkipsFollow, MissedFollow, EvaluateAll, EvaluateTask, Windows;
    var windows := TickWindows(t, input);
    if t.enabled {
      WindowsAscend(t, EnumeratedFrom(t, input.cursors), input.now, MAX_WINDOWS_PER_TICK);
    }
    DecisionFollowsPolicies(t, windows, input.bootAt, t.id in input.running);
    SameFollow(tasks, input, t, windows, t.id in input.running);
  }

  lemma EvaluationFollowsPolicies(tasks: seq<Task>, input: TickInput)
    ensures TickFollowsPolicies(EvaluateAll(tasks, input), tasks, input)
  {
    hide FollowsPolicies, ValidTask, EvaluateOne, EvaluateAll;
    var o := EvaluateAll(tasks, input);
    forall f | f in o.fires ensures f.task in tasks {
      FiresOfTask(tasks, input, f);
    }
    forall s | s in o.skipped ensures s.task in tasks {
      SkipsOfTask(tasks, input, s);
    }
    forall m | m in o.missed ensures m.task in tasks {
      MissedOfTask(tasks, input, m);
    }
    forall t | t in tasks && ValidTask(t)
      ensures FollowsPolicies(o, t, TickWindows(t, input), input.bootAt, t.id in input.running)
    {
      TaskFollowsPolicies(tasks, input, t);
    }
  }

  // ----- What a tick may and may not do -----

  ghost function MissedTotal(missed: seq<Missed>): nat {
    if |missed| == 0 then 0 else missed[0].count + MissedTotal(missed[1..])
  }

  ghost function FiringEntries(missed: seq<Missed>): nat {
    if |missed| == 0 then 0 else (if missed[0].fires then 1 else 0) + FiringEntries(missed[1..])
  }

  /**
   * Every enumerated window is counted once: missed, skipped or fired, the one latest missed window that fires
   * being counted twice.
   */
  lemma WindowsAreConserved(t: Task, windows: seq<int>, bootAt: int, running: bool)
    requires Ascending(windows)
    ensures
      var o := EvaluateTask(t, windows, bootAt, running);
      |windows| + FiringEntries(o.missed) == MissedTotal(o.missed) + |o.skipped| + |o.fires|
  {
    BootSplits(windows, bootAt);
    var o := EvaluateTask(t, windows, bootAt, running);
    if |o.missed| > 0 {
      assert o.missed[1..] == [];
    }
  }

  /** The windows a task's decision settles without a launch: the non-firing missed entry and the skips. */
  ghost function SettledUpTo(o: Outcome, anchor: int): int {
    if |o.skipped| > 0 then o.skipped[|o.skipped| - 1].scheduledFor
    else if |o.missed| > 0 && !o.missed[0].fires then o.missed[0].scheduledFor
    else anchor
  }

  /**
   * The shape of one task's decision on windows later than `anchor`: its fires are all queued or none,
   * ascending and later than everything settled without them, and fires and settlements together reach
   * the last window.
   */
  ghost predicate WellShaped(o: Outcome, t: Task, windows: seq<int>, anchor: int, running: bool) {
    var settled := SettledUpTo(o, anchor);
    && EntriesInShape(o, t, anchor, settled)
    && FiresInShape(o.fires, t, settled, running)
    && ReachesLast(o, windows, anchor, settled)
  }

  ghost predicate EntriesInShape(o: Outcome, t: Task, anchor: int, settled: int) {
    && |o.missed| <= 1
    && (forall i :: 0 <= i < |o.missed| ==> o.missed[i].task == t)
    && (forall i :: 0 <= i < |o.missed| && !o.missed[i].fires ==> anchor < o.missed[i].scheduledFor <= settled)
    && (forall i :: 0 <= i < |o.skipped| ==> o.skipped[i].task == t && anchor < o.skipped[i].scheduledFor <= settled)
  }

  ghost predicate FiresInShape(fires: seq<Fire>, t: Task, settled: int, running: bool) {
    && (forall i :: 0 <= i < |fires| ==> FireInShape(fires[i], t, settled, running))
    && (forall i, j :: 0 <= i < j < |fires| ==> fires[i].scheduledFor < fires[j].scheduledFor)
  }

  ghost predicate ReachesLast(o: Outcome, windows: seq<int>, anchor: int, settled: int) {
    && (|o.fires| > 0 ==> |windows| > 0 && o.fires[|o.fires| - 1].scheduledFor == windows[|windows| - 1])
    && (|o.fires| == 0 ==> settled == Reached(anchor, windows, |windows|))
    && (settled == anchor || settled in windows)
  }

  ghost predicate FireInShape(f: Fire, t: Task, settled: int, running: bool) {
    f.task == t && f.queued == running && f.scheduledFor > settled
  }

  lemma DecisionIsWellShaped(t: Task, windows: seq<int>, anchor: int, bootAt: int, running: bool)
    requires Ascending(windows) && forall i :: 0 <= i < |windows| ==> windows[i] > anchor
    ensures WellShaped(EvaluateTask(t, windows, bootAt, running), t, windows, anchor, running)
  {
    BootSplits(windows, bootAt);
    var late, due := Before(windows, bootAt), NotBefore(windows, bootAt);
    var o := EvaluateTask(t, windows, bootAt, running);
    var head := if |late| > 0 && MissedFires(t, running) then [Fire(t, late[|late| - 1], running)] else [];
    var entry := if |late| > 0 then [Missed(t, late[|late| - 1], |late|, MissedFires(t, running))] else [];
    assert o == Outcome(head + DueFires(t, due, running), entry, DueSkips(t, due, running));
    hide Before, NotBefore, EvaluateTask, DueFires, DueSkips;
    PartsAreWellShaped(t, late, due, windows, anchor, running, head, entry, o);
  }

  lemma PartsAreWellShaped(
    t: Task, late: seq<int>, due: seq<int>, windows: seq<int>, anchor: int, running: bool,
    head: seq<Fire>, entry: seq<Missed>, o: Outcome)
    requires Ascending(windows) && forall i :: 0 <= i < |windows| ==> windows[i] > anchor
    requires windows == late + due
    requires head == if |late| > 0 && MissedFires(t, running) then [Fire(t, late[|late| - 1], running)] else []
    requires entry == if |late| > 0 then [Missed(t, late[|late| - 1], |late|, MissedFires(t, running))] else []
    requires o == Outcome(head + DueFires(t, due, running), entry, DueSkips(t, due, running))
    ensures WellShaped(o, t, windows, anchor, running)
  {
    hide DueFires, DueSkips, EntriesInShape, FiresInShape, ReachesLast;
    assert |late| > 0 ==> late[|late| - 1] == windows[|late| - 1];
    if running && t.overlap.SkipOverlap? {
      var last := if |due| > 0 then due[|due| - 1] else if |late| > 0 then late[|late| - 1] else anchor;
      assert |windows| > 0 ==> last == windows[|windows| - 1];
      assert o.fires == [] && SettledUpTo(o, anchor) == last;
      SettledEntriesInShape(o, t, late, due, windows, anchor, last);
    } else {
      var from := |late| - |head|;
      forall i | 0 <= i < |o.fires| ensures o.fires[i] == Fire(t, windows[from + i], running) {
        if i >= |head| {
          assert o.fires[i] == DueFires(t, due, running)[i - |head|];
        }
      }
      var settled := if |head| > 0 || |late| == 0 then anchor else windows[|late| - 1];
      assert o.skipped == [] && SettledUpTo(o, anchor) == settled;
      FiredEntriesInShape(o, t, windows, anchor, running, from, settled);
    }
  }

  lemma SettledEntriesInShape(o: Outcome, t: Task, late: seq<int>, due: seq<int>,
                              windows: seq<int>, anchor: int, last: int)
    requires Ascending(windows) && (forall i :: 0 <= i < |windows| ==> windows[i] > anchor) && windows == late + due
    requires last == if |windows| > 0 then windows[|windows| - 1] else anchor
    requires o.fires == [] && o.skipped == DueSkips(t, due, true) && t.overlap.SkipOverlap?
    requires o.missed == if |late| > 0 then [Missed(t, windows[|late| - 1], |late|, false)] else []
    ensures EntriesInShape(o, t, anchor, last) && FiresInShape(o.fires, t, last, true)
      && ReachesLast(o, windows, anchor, last)
  {
    hide DueSkips;
    forall i | 0 <= i < |o.skipped| ensures o.skipped[i] == Skipped(t, due[i]) && anchor < due[i] <= last {
      assert due[i] == windows[|late| + i];
    }
  }

  lemma FiredEntriesInShape(o: Outcome, t: Task, windows: seq<int>, anchor: int, running: bool, from: nat, settled: int)
    requires Ascending(windows) && forall i :: 0 <= i < |windows| ==> windows[i] > anchor
    requires from <= |windows| && |o.fires| == |windows| - from && o.skipped == []
    requires forall i :: 0 <= i < |o.fires| ==> o.fires[i] == Fire(t, windows[from + i], running)
    requires |o.missed| <= 1
    requires |o.missed| == 1 ==> o.missed[0].task == t
    requires settled == anchor || (from > 0 && settled == windows[from - 1])
    requires |o.missed| == 1 && !o.missed[0].fires ==> anchor < o.missed[0].scheduledFor == settled
    requires |o.fires| == 0 ==> settled == Reached(anchor, windows, |windows|)
    ensures
      EntriesInShape(o, t, anchor, settled) && FiresInShape(o.fires, t, settled, running)
      && ReachesLast(o, windows, anchor, settled)
  {
    assert from > 0 ==> windows[from - 1] in windows;
  }

  /** Nothing is decided about an instant that is not an enumerated window. */
  ghost predicate OnlyWindows(o: Outcome, windows: seq<int>) {
    && (forall i :: 0 <= i < |o.missed| ==> o.missed[i].scheduledFor in windows)
    && (forall i :: 0 <= i < |o.skipped| ==> o.skipped[i].scheduledFor in windows)
    && (forall i :: 0 <= i < |o.fires| ==> o.fires[i].scheduledFor in windows)
  }

  lemma {:induction false} SplitsAreWindows(windows: seq<int>, bootAt: int)
    ensures forall w :: w in Before(windows, bootAt) || w in NotBefore(windows, bootAt) ==> w in windows
  {
    if |windows| > 0 {
      var first, rest := windows[0], windows[1..];
      SplitsAreWindows(rest, bootAt);
      assert windows == [first] + rest;
      forall w | w in Before(windows, bootAt) || w in NotBefore(windows, bootAt) ensures w in windows {
        assert w == first || w in Before(rest, bootAt) || w in NotBefore(rest, bootAt);
      }
    }
  }

  lemma DecisionsAreWindows(t: Task, windows: seq<int>, bootAt: int, running: bool)
    ensures OnlyWindows(EvaluateTask(t, windows, bootAt, running), windows)
  {
    SplitsAreWindows(windows, bootAt);
    hide Before, NotBefore, DueFires, DueSkips;
  }
}
