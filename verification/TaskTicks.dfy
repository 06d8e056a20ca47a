/** What a tick plans for each task, and that every run of the daemon is safe. */
module TaskTicks {
  import opened Scheduler
  import opened TaskRuns
  import opened TaskSafety

  // ----- One task's part of a tick -----

  ghost function WindowsOf(t: Task, input: TickInput): seq<int> {
    TaskWindows(t, input.cursors, input.now)
  }

  lemma TaskIsWellShaped(t: Task, input: TickInput)
    requires ValidTask(t)
    ensures Anchor(t, input.cursors) >= Cursor(input.cursors, t.id)
    ensures WellShaped(EvaluateOne(t, input), t, WindowsOf(t, input), Anchor(t, input.cursors), t.id in input.running)
    ensures OnlyWindows(EvaluateOne(t, input), WindowsOf(t, input))
    ensures Ascending(WindowsOf(t, input))
    ensures forall i :: 0 <= i < |WindowsOf(t, input)| ==> WindowsOf(t, input)[i] > Anchor(t, input.cursors)
  {
    hide WellShaped, OnlyWindows, EvaluateTask, Windows;
    WindowsAscend(t, Anchor(t, input.cursors), input.now, MAX_WINDOWS_PER_TICK);
    DecisionIsWellShaped(t, WindowsOf(t, input), Anchor(t, input.cursors), input.bootAt, t.id in input.running);
    DecisionsAreWindows(t, WindowsOf(t, input), input.bootAt, t.id in input.running);
  }

  /** The fires of a task that need not wait: all of them, or none while it is in flight. */
  ghost function TaskGroup(t: Task, input: TickInput): seq<Fire> {
    if t.id in input.running then [] else EvaluateOne(t, input).fires
  }

  ghost function GroupsOf(tasks: seq<Task>, input: TickInput): seq<seq<Fire>> {
    if |tasks| == 0 then []
    else
      var g := TaskGroup(tasks[|tasks| - 1], input);
      GroupsOf(tasks[..|tasks| - 1], input) + if |g| == 0 then [] else [g]
  }

  lemma FiresAreOwn(t: Task, input: TickInput)
    requires ValidTask(t)
    ensures
      var fires := EvaluateOne(t, input).fires;
      && (forall i :: 0 <= i < |fires| ==> fires[i].task == t && fires[i].queued == (t.id in input.running))
      && (|TaskGroup(t, input)| > 0 ==> GroupId(TaskGroup(t, input)) == t.id)
  {
    hide EvaluateOne;
    TaskIsWellShaped(t, input);
  }

  lemma {:induction false} InsertNew(groups: seq<seq<Fire>>, f: Fire)
    requires forall k :: 0 <= k < |groups| ==> GroupId(groups[k]) != f.task.id
    ensures Insert(groups, f) == groups + [[f]]
  {
    if |groups| > 0 {
      InsertNew(groups[1..], f);
    }
  }

  lemma {:induction false} InsertLast(groups: seq<seq<Fire>>, g: seq<Fire>, f: Fire)
    requires forall k :: 0 <= k < |groups| ==> GroupId(groups[k]) != f.task.id
    requires GroupId(g) == f.task.id
    ensures Insert(groups + [g], f) == groups + [g + [f]]
  {
    if |groups| > 0 {
      assert (groups + [g])[1..] == groups[1..] + [g];
      InsertLast(groups[1..], g, f);
    }
  }

  /** A block of fires of one new task adds one group, or nothing if they are queued. */
  lemma {:induction false} GroupBlock(before: seq<Fire>, block: seq<Fire>, id: TaskId, queued: bool)
    requires forall i :: 0 <= i < |block| ==> block[i].task.id == id && block[i].queued == queued
    requires forall k :: 0 <= k < |GroupFires(before)| ==> GroupId(GroupFires(before)[k]) != id
    ensures GroupFires(before + block) == GroupFires(before) + if queued || |block| == 0 then [] else [block]
    decreases |block|
  {
    var all := before + block;
    if |block| == 0 {
      assert all == before;
    } else {
      var init, f := block[..|block| - 1], block[|block| - 1];
      assert all[..|all| - 1] == before + init;
      GroupBlock(before, init, id, queued);
      if !queued {
        if |init| == 0 {
          assert GroupFires(before) + [] == GroupFires(before);
          InsertNew(GroupFires(before), f);
          assert block == [f];
        } else {
          InsertLast(GroupFires(before), init, f);
          assert block == init + [f];
        }
      }
    }
  }

  ghost predicate FromTask(g: seq<Fire>, tasks: seq<Task>, input: TickInput) {
    exists j :: 0 <= j < |tasks| && g == TaskGroup(tasks[j], input)
  }

  /** Grouping the fires of a tick yields one group per task, in task order. */
  lemma {:induction false} GroupsArePerTask(tasks: seq<Task>, input: TickInput)
    requires TasksOk(tasks)
    ensures GroupFires(EvaluateAll(tasks, input).fires) == GroupsOf(tasks, input)
    ensures forall k :: 0 <= k < |GroupsOf(tasks, input)| ==>
              |GroupsOf(tasks, input)[k]| > 0 && FromTask(GroupsOf(tasks, input)[k], tasks, input)
    ensures forall j, k :: 0 <= j < k < |GroupsOf(tasks, input)| ==>
      GroupId(GroupsOf(tasks, input)[j]) != GroupId(GroupsOf(tasks, input)[k])
  {
    hide EvaluateOne, ValidTask, GroupFires, EvaluateAll, TaskGroup;
    if |tasks| > 0 {
      var init, t := tasks[..|tasks| - 1], tasks[|tasks| - 1];
      assert tasks == init + [t];
      GroupsArePerTask(init, input);
      GroupsAreOfOthers(init, t, input);
      GroupOneMore(init, t, input);
      forall k | 0 <= k < |GroupsOf(init, input)| ensures FromTask(GroupsOf(init, input)[k], tasks, input) {
        var j :| 0 <= j < |init| && GroupsOf(init, input)[k] == TaskGroup(init[j], input);
        assert tasks[j] == init[j];
      }
      FiresAreOwn(t, input);
    } else {
      NoFires(tasks, input);
    }
  }

  lemma NoFires(tasks: seq<Task>, input: TickInput)
    requires |tasks| == 0
    ensures GroupFires(EvaluateAll(tasks, input).fires) == []
  {}

  lemma GroupsAreOfOthers(init: seq<Task>, t: Task, input: TickInput)
    requires TasksOk(init + [t])
    requires forall k :: 0 <= k < |GroupsOf(init, input)| ==>
               |GroupsOf(init, input)[k]| > 0 && FromTask(GroupsOf(init, input)[k], init, input)
    ensures forall k :: 0 <= k < |GroupsOf(init, input)| ==> GroupId(GroupsOf(init, input)[k]) != t.id
  {
    hide EvaluateOne, ValidTask, TaskGroup, GroupsOf, GroupId;
    forall k | 0 <= k < |GroupsOf(init, input)| ensures GroupId(GroupsOf(init, input)[k]) != t.id {
      var j :| 0 <= j < |init| && GroupsOf(init, input)[k] == TaskGroup(init[j], input);
      assert (init + [t])[j] == init[j] && (init + [t])[|init|] == t;
      FiresAreOwn(init[j], input);
    }
  }

  lemma GroupOneMore(init: seq<Task>, t: Task, input: TickInput)
    requires ValidTask(t)
    requires GroupFires(EvaluateAll(init, input).fires) == GroupsOf(init, input)
    requires forall k :: 0 <= k < |GroupsOf(init, input)| ==> GroupId(GroupsOf(init, input)[k]) != t.id
    ensures GroupFires(EvaluateAll(init + [t], input).fires)
         == GroupsOf(init, input) + if |TaskGroup(t, input)| == 0 then [] else [TaskGroup(t, input)]
  {
    hide EvaluateOne, ValidTask, GroupFires, EvaluateAll, GroupsOf;
    EvaluateAllSnoc(init, t, input);
    FiresAreOwn(t, input);
    GroupBlock(EvaluateAll(init, input).fires, EvaluateOne(t, input).fires, t.id, t.id in input.running);
  }

  // ----- What is planned for one task -----

  /** How many of the windows before boot collapse into the latest of them. */
  ghost function CollapsedCount(windows: seq<int>, bootAt: int): (k: nat)
    ensures k <= |windows|
  {
    var late := |Before(windows, bootAt)|;
    if late == 0 then 0 else late - 1
  }

  /** The windows that are decided one by one: the latest before boot, and all since. */
  ghost function Milestones(windows: seq<int>, bootAt: int): seq<int> {
    windows[CollapsedCount(windows, bootAt)..]
  }

  /** The windows a tick is going to journal for a task, unless it is stopped or runs out of slots. */
  ghost function OwnPlan(t: Task, input: TickInput): seq<int> {
    var o := EvaluateOne(t, input);
    TodoAts(MissedTodos(o.missed), t.id) + TodoAts(SkippedTodos(o.skipped), t.id) + FireAts(TaskGroup(t, input))
  }

  lemma {:induction false} SkipAts(t: Task, due: seq<int>, skipped: seq<Skipped>)
    requires |skipped| == |due| && forall i :: 0 <= i < |due| ==> skipped[i] == Skipped(t, due[i])
    ensures TodoAts(SkippedTodos(skipped), t.id) == due
  {
    if |due| > 0 {
      SkipAts(t, due[1..], skipped[1..]);
      assert SkippedTodos(skipped)[1..] == SkippedTodos(skipped[1..]);
    }
  }

  lemma {:induction false} FireAtsAre(fires: seq<Fire>, ats: seq<int>)
    requires |fires| == |ats| && forall i :: 0 <= i < |ats| ==> fires[i].scheduledFor == ats[i]
    ensures FireAts(fires) == ats
  {
    if |ats| > 0 {
      FireAtsAre(fires[1..], ats[1..]);
    }
  }

  lemma OneMissedTodo(m: Missed)
    ensures MissedTodos([m]) == if m.fires then [] else [Todo(Entry(m.task.id, WasMissed, m.scheduledFor), m.count)]
  {
    assert [m][1..] == [];
  }

  lemma OneTodoAts(todo: Todo, id: TaskId)
    ensures TodoAts([todo], id) == if todo.entry.taskId == id then [todo.entry.scheduledFor] else []
  {
    assert [todo][1..] == [];
  }

  /** The milestones are the latest window before boot, if any, and the due ones. */
  lemma MilestonesAre(windows: seq<int>, bootAt: int)
    requires Ascending(windows)
    ensures
      var late, due := Before(windows, bootAt), NotBefore(windows, bootAt);
      Milestones(windows, bootAt) == (if |late| > 0 then [late[|late| - 1]] else []) + due
  {
    BootSplits(windows, bootAt);
  }

  lemma DecisionParts(t: Task, windows: seq<int>, bootAt: int, running: bool)
    ensures
      var late, due := Before(windows, bootAt), NotBefore(windows, bootAt);
      var o := EvaluateTask(t, windows, bootAt, running);
      && o.missed == (if |late| > 0 then [Missed(t, late[|late| - 1], |late|, MissedFires(t, running))] else [])
      && o.skipped == DueSkips(t, due, running)
      && o.fires == (if |late| > 0 && MissedFires(t, running) then [Fire(t, late[|late| - 1], running)] else [])
                    + DueFires(t, due, running)
  {
    hide Before, NotBefore, DueFires, DueSkips, MissedFires;
    var fires := DueFires(t, NotBefore(windows, bootAt), running);
    assert [] + fires == fires;
  }

  /** What is planned for a task is planned in the order of its windows, without a gap. */
  lemma PlanIsPrefix(t: Task, input: TickInput)
    requires ValidTask(t)
    ensures OwnPlan(t, input) <= Milestones(WindowsOf(t, input), input.bootAt)
  {
    hide ValidTask, Windows, EvaluateTask, WellShaped, OnlyWindows, TodoAts, SkippedTodos, FireAts,
         TaskGroup, MissedTodos, Milestones, MissedFires;
    var ws, running := WindowsOf(t, input), t.id in input.running;
    TaskIsWellShaped(t, input);
    MilestonesAre(ws, input.bootAt);
    DecisionParts(t, ws, input.bootAt, running);
    var late, due := Before(ws, input.bootAt), NotBefore(ws, input.bootAt);
    var o := EvaluateTask(t, ws, input.bootAt, running);
    assert o == EvaluateOne(t, input);
    MissedPart(t, late, running, o);
    SkippedPart(t, due, running, o);
    FiredPart(t, input, late, due, o);
    LateFires(t, running);
    JoinParts(if |late| > 0 then [late[|late| - 1]] else [], due, running, t.overlap.SkipOverlap?,
              MissedFires(t, running),
              TodoAts(MissedTodos(o.missed), t.id), TodoAts(SkippedTodos(o.skipped), t.id),
              FireAts(TaskGroup(t, input)));
  }

  lemma LateFires(t: Task, running: bool)
    ensures running && t.overlap.SkipOverlap? ==> !MissedFires(t, running)
  {}

  lemma JoinParts(head: seq<int>, due: seq<int>, running: bool, skip: bool, fires: bool,
                  missed: seq<int>, skipped: seq<int>, fired: seq<int>)
    requires running && skip ==> !fires
    requires missed == if fires then [] else head
    requires skipped == if running && skip then due else []
    requires fired == if running then [] else (if fires then head else []) + due
    ensures missed + skipped + fired <= head + due
  {
    assert running && skip ==> missed + skipped + fired == head + due;
    assert running && !skip ==> missed + skipped + fired == missed <= head + due;
    assert !running ==> missed + skipped + fired == head + due;
  }

  lemma MissedPart(t: Task, late: seq<int>, running: bool, o: Outcome)
    requires o.missed == if |late| > 0 then [Missed(t, late[|late| - 1], |late|, MissedFires(t, running))] else []
    ensures TodoAts(MissedTodos(o.missed), t.id)
         == if |late| > 0 && !MissedFires(t, running) then [late[|late| - 1]] else []
  {
    if |late| > 0 {
      OneMissedTodo(o.missed[0]);
      OneTodoAts(Todo(Entry(t.id, WasMissed, late[|late| - 1]), |late|), t.id);
    }
  }

  lemma SkippedPart(t: Task, due: seq<int>, running: bool, o: Outcome)
    requires o.skipped == DueSkips(t, due, running)
    ensures TodoAts(SkippedTodos(o.skipped), t.id) == if running && t.overlap.SkipOverlap? then due else []
  {
    if running && t.overlap.SkipOverlap? {
      SkipAts(t, due, o.skipped);
    }
  }

  lemma FiredPart(t: Task, input: TickInput, late: seq<int>, due: seq<int>, o: Outcome)
    requires o == EvaluateOne(t, input)
    requires
      var running := t.id in input.running;
      var own := if |late| > 0 && MissedFires(t, running) then [Fire(t, late[|late| - 1], running)] else [];
      o.fires == own + DueFires(t, due, running)
    ensures FireAts(TaskGroup(t, input))
         == if t.id in input.running then []
            else (if |late| > 0 && MissedFires(t, false) then [late[|late| - 1]] else []) + due
  {
    hide EvaluateOne, DueFires;
    if t.id !in input.running {
      FireAtsAre(o.fires, (if |late| > 0 && MissedFires(t, false) then [late[|late| - 1]] else []) + due);
    }
  }

  // ----- What a tick plans -----

  lemma {:induction false} MissedTodosSplit(a: seq<Missed>, b: seq<Missed>)
    ensures MissedTodos(a + b) == MissedTodos(a) + MissedTodos(b)
  {
    if |a| == 0 {
      assert a + b == b;
    } else {
      assert (a + b)[0] == a[0] && (a + b)[1..] == a[1..] + b;
      MissedTodosSplit(a[1..], b);
    }
  }

  /** The three parts of a plan that concern one task: missed windows, skipped ones, fires. */
  ghost predicate PartsAre(tasks: seq<Task>, input: TickInput, id: TaskId, missed: seq<int>, skips: seq<int>,
                           fires: seq<int>) {
    var o := EvaluateAll(tasks, input);
    && TodoAts(MissedTodos(o.missed), id) == missed
    && TodoAts(SkippedTodos(o.skipped), id) == skips
    && GroupAts(GroupsOf(tasks, input), id) == fires
  }

  ghost function OwnMissed(t: Task, input: TickInput, id: TaskId): seq<int> {
    TodoAts(MissedTodos(EvaluateOne(t, input).missed), id)
  }

  ghost function OwnSkips(t: Task, input: TickInput, id: TaskId): seq<int> {
    TodoAts(SkippedTodos(EvaluateOne(t, input).skipped), id)
  }

  ghost function OwnFires(t: Task, input: TickInput, id: TaskId): seq<int> {
    if t.id == id then FireAts(TaskGroup(t, input)) else []
  }

  lemma {:induction false} GroupAtsSnoc(groups: seq<seq<Fire>>, g: seq<Fire>, id: TaskId)
    ensures GroupAts(groups + [g], id) == GroupAts(groups, id) + if GroupId(g) == id then FireAts(g) else []
  {
    hide FireAts, GroupId;
    var own := if GroupId(g) == id then FireAts(g) else [];
    if |groups| == 0 {
      assert groups + [g] == [g] && [g][1..] == [];
      assert GroupAts([g], id) == own + [] == [] + own;
    } else {
      var first := if GroupId(groups[0]) == id then FireAts(groups[0]) else [];
      assert (groups + [g])[0] == groups[0] && (groups + [g])[1..] == groups[1..] + [g];
      GroupAtsSnoc(groups[1..], g, id);
      assert GroupAts(groups, id) == first + GroupAts(groups[1..], id);
      assert GroupAts(groups + [g], id) == first + GroupAts(groups[1..] + [g], id);
    }
  }

  /** One more task adds its own parts. */
  lemma PartsSnoc(tasks: seq<Task>, t: Task, input: TickInput, id: TaskId,
                  missed: seq<int>, skips: seq<int>, fires: seq<int>)
    requires ValidTask(t) && PartsAre(tasks, input, id, missed, skips, fires)
    ensures PartsAre(tasks + [t], input, id, missed + OwnMissed(t, input, id), skips + OwnSkips(t, input, id),
                     fires + OwnFires(t, input, id))
  {
    hide EvaluateOne, EvaluateAll, ValidTask, TaskGroup, GroupAts, TodoAts, MissedTodos;
    var o, own := EvaluateAll(tasks, input), EvaluateOne(t, input);
    EvaluateAllSnoc(tasks, t, input);
    MissedTodosSplit(o.missed, own.missed);
    TodoAtsSplit(MissedTodos(o.missed), MissedTodos(own.missed), id);
    assert SkippedTodos(o.skipped + own.skipped) == SkippedTodos(o.skipped) + SkippedTodos(own.skipped);
    TodoAtsSplit(SkippedTodos(o.skipped), SkippedTodos(own.skipped), id);
    FiresAreOwn(t, input);
    var g := TaskGroup(t, input);
    assert (tasks + [t])[..|tasks|] == tasks;
    if |g| > 0 {
      GroupAtsSnoc(GroupsOf(tasks, input), g, id);
    } else {
      assert FireAts(g) == [] && GroupsOf(tasks, input) + [] == GroupsOf(tasks, input);
      assert fires + [] == fires;
    }
  }

  lemma {:induction false} NoneForOther(todo: seq<Todo>, id: TaskId)
    requires forall k :: 0 <= k < |todo| ==> todo[k].entry.taskId != id
    ensures TodoAts(todo, id) == []
  {
    if |todo| > 0 {
      NoneForOther(todo[1..], id);
    }
  }

  lemma OwnPartsElsewhere(t: Task, input: TickInput, id: TaskId)
    requires ValidTask(t) && t.id != id
    ensures OwnMissed(t, input, id) == [] && OwnSkips(t, input, id) == [] && OwnFires(t, input, id) == []
  {
    hide EvaluateOne, ValidTask, TodoAts;
    TaskIsWellShaped(t, input);
    var o := EvaluateOne(t, input);
    if |o.missed| > 0 {
      assert o.missed == [o.missed[0]];
      OneMissedTodo(o.missed[0]);
    }
    NoneForOther(MissedTodos(o.missed), id);
    NoneForOther(SkippedTodos(o.skipped), id);
  }

  lemma NoParts(input: TickInput, id: TaskId)
    ensures PartsAre([], input, id, [], [], [])
  {}

  lemma {:induction false} PlanAbsent(tasks: seq<Task>, input: TickInput, id: TaskId)
    requires TasksOk(tasks) && forall k :: 0 <= k < |tasks| ==> tasks[k].id != id
    ensures PartsAre(tasks, input, id, [], [], [])
  {
    hide ValidTask, OwnMissed, OwnSkips, OwnFires, PartsAre;
    if |tasks| == 0 {
      assert tasks == [];
      NoParts(input, id);
    } else {
      var init, t := tasks[..|tasks| - 1], tasks[|tasks| - 1];
      assert tasks == init + [t];
      PlanAbsent(init, input, id);
      PartsSnoc(init, t, input, id, [], [], []);
      OwnPartsElsewhere(t, input, id);
      assert [] + OwnMissed(t, input, id) == [] + OwnSkips(t, input, id) == [] + OwnFires(t, input, id) == [];
    }
  }

  lemma {:induction false} PlanPresent(tasks: seq<Task>, input: TickInput, k: nat)
    requires TasksOk(tasks) && k < |tasks|
    ensures
      var t := tasks[k];
      PartsAre(tasks, input, t.id, OwnMissed(t, input, t.id), OwnSkips(t, input, t.id), OwnFires(t, input, t.id))
    decreases |tasks|
  {
    hide ValidTask, OwnMissed, OwnSkips, OwnFires, PartsAre;
    var init, last := tasks[..|tasks| - 1], tasks[|tasks| - 1];
    var t := tasks[k];
    assert tasks == init + [last];
    var missed, skips, fires := OwnMissed(t, input, t.id), OwnSkips(t, input, t.id), OwnFires(t, input, t.id);
    if k == |tasks| - 1 {
      PlanAbsent(init, input, t.id);
      PartsSnoc(init, t, input, t.id, [], [], []);
      assert [] + missed == missed && [] + skips == skips && [] + fires == fires;
    } else {
      PlanPresent(init, input, k);
      PartsSnoc(init, last, input, t.id, missed, skips, fires);
      OwnPartsElsewhere(last, input, t.id);
      assert missed + [] == missed && skips + [] == skips && fires + [] == fires;
    }
  }

  lemma PlanParts(o: Outcome, limit: nat, id: TaskId)
    ensures Remaining(Plan(o, limit), id)
         == TodoAts(MissedTodos(o.missed), id) + TodoAts(SkippedTodos(o.skipped), id)
            + GroupAts(GroupFires(o.fires), id)
  {
    TodoAtsSplit(MissedTodos(o.missed), SkippedTodos(o.skipped), id);
    var todo := TodoAts(Plan(o, limit).todo, id);
    assert todo + [] == todo;
  }

  /** What a fresh tick has to do for a task is its own plan, and nothing for ids that are no task's. */
  lemma RemainingIsPlan(tasks: seq<Task>, input: TickInput, limit: nat, id: TaskId)
    requires TasksOk(tasks)
    ensures
      var tick := Plan(EvaluateAll(tasks, input), limit);
      && (forall k :: 0 <= k < |tasks| && tasks[k].id == id ==> Remaining(tick, id) == OwnPlan(tasks[k], input))
      && (!HasTask(tasks, id) ==> Remaining(tick, id) == [])
  {
    hide EvaluateAll, EvaluateOne, GroupFires, TasksOk, Remaining, Plan, TodoAts, GroupAts, MissedTodos, SkippedTodos;
    var o := EvaluateAll(tasks, input);
    GroupsArePerTask(tasks, input);
    PlanParts(o, limit, id);
    if HasTask(tasks, id) {
      forall k | 0 <= k < |tasks| && tasks[k].id == id
        ensures Remaining(Plan(o, limit), id) == OwnPlan(tasks[k], input)
      {
        PlanPresent(tasks, input, k);
      }
    } else {
      PlanAbsent(tasks, input, id);
    }
  }

  // ----- Beginning a tick keeps the invariant -----

  lemma {:induction false} WindowsAscendAbove(windows: seq<int>, k: nat, bound: int)
    requires Ascending(windows) && k <= |windows| && forall i :: 0 <= i < |windows| ==> windows[i] > bound
    ensures AscendingAbove(bound, windows[k..])
    decreases |windows| - k
  {
    if k < |windows| {
      var rest := windows[k + 1..];
      assert windows[k..][1..] == rest && windows[k..][0] == windows[k];
      assert forall i :: 0 <= i < |rest| ==> rest[i] == windows[k + 1 + i] > windows[k];
      WindowsAscendAbove(rest, 0, windows[k]);
      assert rest[0..] == rest;
    }
  }

  lemma {:induction false} PrefixAscends(bound: int, p: seq<int>, s: seq<int>)
    requires p <= s && AscendingAbove(bound, s)
    ensures AscendingAbove(bound, p)
    decreases |p|
  {
    if |p| > 0 {
      assert p[1..] <= s[1..];
      PrefixAscends(p[0], p[1..], s[1..]);
    }
  }

  lemma PlanAscends(t: Task, input: TickInput)
    requires ValidTask(t)
    ensures AscendingAbove(Cursor(input.cursors, t.id), OwnPlan(t, input))
  {
    hide WellShaped, OnlyWindows, ValidTask, EvaluateOne, OwnPlan, AscendingAbove;
    var ws := WindowsOf(t, input);
    TaskIsWellShaped(t, input);
    PlanIsPrefix(t, input);
    hide WindowsOf;
    WindowsAscendAbove(ws, CollapsedCount(ws, input.bootAt), Anchor(t, input.cursors));
    PrefixAscends(Anchor(t, input.cursors), OwnPlan(t, input), Milestones(ws, input.bootAt));
    AscendingAboveLower(Anchor(t, input.cursors), Cursor(input.cursors, t.id), OwnPlan(t, input));
  }

  lemma {:induction false} MissedTodosAreMissed(missed: seq<Missed>)
    ensures forall k :: 0 <= k < |MissedTodos(missed)| ==> MissedTodos(missed)[k].entry.status.WasMissed?
  {
    if |missed| > 0 {
      MissedTodosAreMissed(missed[1..]);
    }
  }

  lemma PlannedGroupsOk(tasks: seq<Task>, input: TickInput, limit: nat, inFlight: map<TaskId, Flight>)
    requires TasksOk(tasks) && input.running == inFlight.Keys
    ensures GroupsOk(Plan(EvaluateAll(tasks, input), limit), inFlight)
  {
    hide EvaluateAll, EvaluateOne, GroupFires;
    GroupsArePerTask(tasks, input);
    var groups := GroupsOf(tasks, input);
    forall k | 0 <= k < |groups| ensures GroupOk(groups[k], NoLaunch, inFlight) {
      var j :| 0 <= j < |tasks| && groups[k] == TaskGroup(tasks[j], input);
      FiresAreOwn(tasks[j], input);
    }
  }

  lemma BeginKeepsInv(h: Host, now: int, limit: nat, enabled: bool)
    requires Inv(h)
    ensures Inv(Begin(h, now, limit, enabled))
  {
    var g := Begin(h, now, limit, enabled);
    if g != h {
      var o, input := EvaluateAll(h.tasks, Input(h, now)), Input(h, now);
      assert JournalInv(h) && g.tick == Plan(o, limit);
      PlannedGroupsOk(h.tasks, input, limit, h.inFlight);
      MissedTodosAreMissed(o.missed);
      assert TodoOk(g.tick);
      IdleFlights(h, g.tick);
      hide EvaluateAll, GroupsOk, TodoOk, Plan, Remaining, AscendingAbove, FlightInv;
      assert RemainingOk(g.tick, g.cursors) by {
        forall id ensures AscendingAbove(Cursor(h.cursors, id), Remaining(g.tick, id)) {
          PlanOfIdAscends(h, now, limit, id);
        }
      }
      SameJournal(h, g);
    }
  }

  lemma IdleFlights(h: Host, tick: Tick)
    requires FlightInv(h) && h.tick.Idle? && !h.booting && tick.Ticking? && tick.stage.NoLaunch?
    ensures FlightInv(h.(tick := tick))
  {
    hide FlightsOk, OpenOk;
    assert forall r: RunRecord :: IsUnderWay(h, r) ==> IsUnderWay(h.(tick := tick), r);
  }

  lemma PlanOfIdAscends(h: Host, now: int, limit: nat, id: TaskId)
    requires TasksOk(h.tasks)
    ensures AscendingAbove(Cursor(h.cursors, id), Remaining(Plan(EvaluateAll(h.tasks, Input(h, now)), limit), id))
  {
    hide EvaluateAll, EvaluateOne, Plan, Remaining, ValidTask;
    RemainingIsPlan(h.tasks, Input(h, now), limit, id);
    if HasTask(h.tasks, id) {
      var k :| 0 <= k < |h.tasks| && h.tasks[k].id == id;
      PlanAscends(h.tasks[k], Input(h, now));
    }
  }

  // ----- Every run is safe -----

  lemma StepKeepsInv(h: Host, e: Event)
    requires Inv(h)
    ensures Inv(Step(h, e))
  {
    hide Inv, Begin, Proceed, Abandon, Exit, NoteEnd, Leave, Restart, Recover, UpsertTask, RemoveTask;
    match e
    case BeginTick(now, limit, enabled) => BeginKeepsInv(h, now, limit, enabled);
    case ProceedTick(admit) => ProceedKeepsInv(h, admit);
    case AbandonTick => AbandonKeepsInv(h);
    case RunExits(id, ok) => ExitKeepsInv(h, id, ok);
    case EndIsNoted(id) => NoteEndKeepsInv(h, id);
    case RunLeaves(id) => LeaveKeepsInv(h, id);
    case ProcessRestarts(now) => RestartKeepsInv(h, now);
    case BootProceeds => RecoverKeepsInv(h);
    case TaskUpserted(t) => UpsertTaskKeepsInv(h, t);
    case TaskRemoved(id) => RemoveTaskKeepsInv(h, id);
  }

  lemma {:induction false} RunKeepsInv(h: Host, events: seq<Event>)
    requires Inv(h)
    ensures Inv(Run(h, events))
  {
    hide Step, Inv;
    if |events| > 0 {
      RunKeepsInv(h, events[..|events| - 1]);
      StepKeepsInv(Run(h, events[..|events| - 1]), events[|events| - 1]);
    }
  }

  ghost predicate NotRemovedBetween(history: seq<Note>, i: nat, j: nat, id: TaskId) {
    forall k :: i < k < j && k < |history| ==> history[k] != Removed(id)
  }

  /** No window of a task is journaled twice, or after a later one, while the task stays. */
  ghost predicate NoWindowTwice(history: seq<Note>) {
    forall i, j ::
      0 <= i < j < |history| && history[i].Recorded? && history[j].Recorded?
      && history[i].entry.taskId == history[j].entry.taskId
      && NotRemovedBetween(history, i, j, history[i].entry.taskId) ==>
        history[i].entry.scheduledFor < history[j].entry.scheduledFor
  }

  /** No window of a task is launched twice, or after a later one, while the task stays; restarts do not matter. */
  ghost predicate NoLaunchTwice(log: seq<LogEntry>, history: seq<Note>) {
    forall i, j ::
      0 <= i < j < |log| && log[i].Launched? && log[j].Launched? && log[i].taskId == log[j].taskId
      && NotRemovedBetween(history, log[i].runId, log[j].runId, log[i].taskId) ==>
        log[i].scheduledFor < log[j].scheduledFor
  }

  /** What the journal claims is running is, unless a crash has not been cleaned up after yet. */
  ghost predicate RunningClaimsHold(h: Host) {
    !h.booting ==>
      forall r :: r in h.runs && r.status.Running? ==>
        || IsEntering(h.tick, r.taskId, r.runId)
        || (r.taskId in h.inFlight && h.inFlight[r.taskId].runId == r.runId)
  }

  lemma {:induction false} LastRecordedGrows(history: seq<Note>, i: nat, j: nat)
    requires Ascends(history) && i < j <= |history| && history[i].Recorded?
    requires NotRemovedBetween(history, i, j, history[i].entry.taskId)
    ensures LastRecorded(history[..j], history[i].entry.taskId) >= history[i].entry.scheduledFor
    decreases j
  {
    var last, id := history[j - 1], history[i].entry.taskId;
    assert history[..j][..j - 1] == history[..j - 1] && history[..j][j - 1] == last;
    if j - 1 > i {
      LastRecordedGrows(history, i, j - 1);
      assert last.Recorded? ==> last.entry.scheduledFor > LastRecorded(history[..j - 1], last.entry.taskId);
      assert last != Removed(id);
    }
  }

  lemma AscendsMeansOnce(history: seq<Note>)
    requires Ascends(history)
    ensures NoWindowTwice(history)
  {
    hide LastRecorded;
    forall i, j |
      0 <= i < j < |history| && history[i].Recorded? && history[j].Recorded?
      && history[i].entry.taskId == history[j].entry.taskId
      && NotRemovedBetween(history, i, j, history[i].entry.taskId)
      ensures history[i].entry.scheduledFor < history[j].entry.scheduledFor
    {
      LastRecordedGrows(history, i, j);
    }
  }

  lemma OnceJournaledOnceLaunched(log: seq<LogEntry>, history: seq<Note>)
    requires NoWindowTwice(history) && LaunchesInOrder(log) && LaunchesAreJournaled(log, history)
    ensures NoLaunchTwice(log, history)
  {
    hide NotRemovedBetween;
    forall i, j |
      0 <= i < j < |log| && log[i].Launched? && log[j].Launched? && log[i].taskId == log[j].taskId
      && NotRemovedBetween(history, log[i].runId, log[j].runId, log[i].taskId)
      ensures log[i].scheduledFor < log[j].scheduledFor
    {
      assert IsRecorded(history, log[i].runId, Entry(log[i].taskId, Running, log[i].scheduledFor));
      assert IsRecorded(history, log[j].runId, Entry(log[j].taskId, Running, log[j].scheduledFor));
    }
  }

  /**
   * After any steps at all, whether they complete a tick or stop anywhere inside one: no window of a task
   * has been journaled twice or launched twice, whatever was launched was journaled first, no task was
   * launched while an earlier run of it was unfinished, and a record is called running only for a run that
   * is in flight or about to be.
   */
  lemma EveryRunIsSafe(bootAt: int, retention: nat, events: seq<Event>)
    ensures
      var h := Run(InitialHost(bootAt, retention), events);
      && Inv(h)
      && NoWindowTwice(h.history)
      && NoLaunchTwice(h.log, h.history)
      && LaunchesAreJournaled(h.log, h.history)
      && NoOverlap(h.log)
      && RunningClaimsHold(h)
  {
    var h := Run(InitialHost(bootAt, retention), events);
    InitialInv(bootAt, retention);
    RunKeepsInv(InitialHost(bootAt, retention), events);
    assert JournalInv(h) && FlightInv(h);
    hide Run, TickInv, NoWindowTwice, NoLaunchTwice, NoOverlap, LaunchesAreJournaled, LaunchesInOrder, RunsOk, Ascends;
    AscendsMeansOnce(h.history);
    OnceJournaledOnceLaunched(h.log, h.history);
  }

  lemma InitialInv(bootAt: int, retention: nat)
    ensures Inv(InitialHost(bootAt, retention))
  {}
}
