/** What a tick reports of itself is what it launched and journaled. */
module TaskTallies {
  import opened Results
  import opened Scheduler
  import opened TaskRuns
  import opened TaskSafety
  import opened TaskTicks
  import opened TaskAccounting

  ghost function Launches(log: seq<LogEntry>): nat {
    if |log| == 0 then 0 else Launches(log[..|log| - 1]) + if log[|log| - 1].Launched? then 1 else 0
  }

  /** The records ever written with this status. */
  ghost function Written(history: seq<Note>, status: RunStatus): nat {
    if |history| == 0 then 0
    else
      var last := history[|history| - 1];
      Written(history[..|history| - 1], status) + if last.Recorded? && last.entry.status == status then 1 else 0
  }

  lemma LaunchesSnoc(log: seq<LogEntry>, e: LogEntry)
    ensures Launches(log + [e]) == Launches(log) + if e.Launched? then 1 else 0
  {
    assert (log + [e])[..|log|] == log;
  }

  lemma WrittenSnoc(history: seq<Note>, note: Note, status: RunStatus)
    ensures Written(history + [note], status) ==
      Written(history, status) + if note.Recorded? && note.entry.status == status then 1 else 0
  {
    assert (history + [note])[..|history|] == history;
  }

  /** The windows that entries still to be written stand for, beyond one each. */
  ghost function Beyond(todo: seq<Todo>): int {
    if |todo| == 0 then 0 else todo[0].weight - 1 + Beyond(todo[1..])
  }

  /** Only a missed entry may stand for more than one window. */
  ghost predicate WeightsOk(todo: seq<Todo>) {
    forall k :: 0 <= k < |todo| && !todo[k].entry.status.WasMissed? ==> todo[k].weight == 1
  }

  /** The counts `c` are what happened since `from`; `beyond` is what its missed entries stood for beyond one each. */
  ghost predicate CountsSince(h: Host, from: Host, c: Counts, beyond: int) {
    && Launches(h.log) == Launches(from.log) + c.fired
    && Written(h.history, WasSkipped) == Written(from.history, WasSkipped) + c.skipped
    && Written(h.history, Failed) == Written(from.history, Failed) + c.refused
    && Written(h.history, WasMissed) + beyond == Written(from.history, WasMissed) + c.missed
  }

  ghost predicate Tallies(h: Host, from: Host, beyond: int) {
    match h.tick
    case Idle(None) => true
    case Idle(Some(c)) => CountsSince(h, from, c, beyond)
    case Ticking(todo, _, _, _, c) => WeightsOk(todo) && CountsSince(h, from, c, beyond - Beyond(todo))
  }

  lemma {:induction false} NothingBeyond(todo: seq<Todo>)
    requires forall k :: 0 <= k < |todo| ==> todo[k].weight == 1
    ensures Beyond(todo) == 0
  {
    if |todo| > 0 {
      NothingBeyond(todo[1..]);
    }
  }

  lemma WriteTallies(h: Host, from: Host, beyond: int)
    requires Tallies(h, from, beyond) && h.tick.Ticking? && |h.tick.todo| > 0 && IsClosed(h.tick.todo[0].entry.status)
    ensures Tallies(WriteNext(h), from, beyond)
  {
    var e := h.tick.todo[0].entry;
    hide Written, Launches, KeepLast, Advance;
    WrittenSnoc(h.history, Recorded(e), WasSkipped);
    WrittenSnoc(h.history, Recorded(e), Failed);
    WrittenSnoc(h.history, Recorded(e), WasMissed);
  }

  lemma CommitTallies(h: Host, from: Host, beyond: int)
    requires Tallies(h, from, beyond) && h.tick.Ticking? && h.tick.stage.Committing?
    ensures Tallies(Commit(h), from, beyond)
  {
    var e := Entry(h.tick.stage.taskId, Running, h.tick.stage.at);
    hide Written, Launches, KeepLast, Advance, Beyond;
    WrittenSnoc(h.history, Recorded(e), WasSkipped);
    WrittenSnoc(h.history, Recorded(e), Failed);
    WrittenSnoc(h.history, Recorded(e), WasMissed);
  }

  lemma NextGroupTallies(h: Host, from: Host, beyond: int)
    requires Tallies(h, from, beyond) && h.tick.Ticking? && |h.tick.todo| == 0
    ensures Tallies(NextGroup(h), from, beyond)
  {
    hide Written, Launches;
    if |h.tick.groups| > 0 && |h.tick.groups[0]| > 0 {
      NothingBeyond(StaleTodos(h.tick.groups[0]));
    }
  }

  lemma VerdictTallies(h: Host, admit: bool, from: Host, beyond: int)
    requires Tallies(h, from, beyond) && h.tick.Ticking? && |h.tick.todo| == 0 && h.tick.stage.Verifying?
    ensures Tallies(Verdict(h, admit), from, beyond)
  {
    hide Written, Launches;
    NothingBeyond([Todo(Entry(h.tick.stage.taskId, Failed, h.tick.stage.at), 1)]);
  }

  lemma SpawnTallies(h: Host, from: Host, beyond: int)
    requires Tallies(h, from, beyond) && h.tick.Ticking? && h.tick.stage.Spawning?
    ensures Tallies(Spawn(h), from, beyond)
  {
    hide Written, Launches, Beyond;
    LaunchesSnoc(h.log, Launched(h.tick.stage.taskId, h.tick.stage.runId, h.tick.stage.at));
  }

  lemma ProceedTallies(h: Host, admit: bool, from: Host, beyond: int)
    requires Inv(h) && Tallies(h, from, beyond)
    ensures Tallies(Proceed(h, admit), from, beyond)
  {
    assert TickInv(h);
    hide Inv, JournalInv, FlightInv, Tallies, WriteNext, NextGroup, Verdict, Commit, Spawn, RemainingOk, GroupsOk;
    if h.tick.Ticking? {
      if |h.tick.todo| > 0 {
        WriteTallies(h, from, beyond);
      } else {
        match h.tick.stage
        case NoLaunch => NextGroupTallies(h, from, beyond);
        case Verifying(_, _) => VerdictTallies(h, admit, from, beyond);
        case Committing(_, _) => CommitTallies(h, from, beyond);
        case Entering(_, _, _) => EnterTallies(h, from, beyond);
        case Spawning(_, _, _) => SpawnTallies(h, from, beyond);
      }
    }
  }

  lemma EnterTallies(h: Host, from: Host, beyond: int)
    requires Tallies(h, from, beyond) && h.tick.Ticking? && h.tick.stage.Entering?
    ensures Tallies(Enter(h), from, beyond)
  {
    hide Written, Launches, Beyond;
  }

  lemma StepTallies(h: Host, e: Event, from: Host, beyond: int)
    requires Inv(h) && Tallies(h, from, beyond) && !StartsTick(h, e)
    ensures Tallies(Step(h, e), from, beyond)
  {
    hide Inv, Proceed, UpdateRun, Upsert, Without, FirstRunning, ValidTask, HasTask, Written, Launches, Beyond,
         WeightsOk;
    match e
    case ProceedTick(admit) => ProceedTallies(h, admit, from, beyond);
    case RunExits(id, ok) =>
      if id in h.inFlight {
        LaunchesSnoc(h.log, Ended(id, h.inFlight[id].runId, ok));
      }
    case TaskRemoved(id) =>
      WrittenSnoc(h.history, Removed(id), WasSkipped);
      WrittenSnoc(h.history, Removed(id), Failed);
      WrittenSnoc(h.history, Removed(id), WasMissed);
    case _ =>
  }

  lemma {:induction false} RunTallies(h: Host, events: seq<Event>, from: Host, beyond: int)
    requires Inv(h) && Tallies(h, from, beyond)
    requires forall i :: 0 <= i < |events| ==> !StartsTick(Run(h, events[..i]), events[i])
    ensures Tallies(Run(h, events), from, beyond)
  {
    hide Inv, Tallies, Step, StartsTick;
    if |events| > 0 {
      var front := events[..|events| - 1];
      assert forall i :: 0 <= i < |front| ==> front[..i] == events[..i];
      RunTallies(h, front, from, beyond);
      RunKeepsInv(h, front);
      StepTallies(Run(h, front), events[|events| - 1], from, beyond);
    }
  }

  // ----- A whole tick -----

  /** What the missed windows that do not fire were collapsed by. */
  ghost function WrittenOff(missed: seq<Missed>): int {
    if |missed| == 0 then 0 else (if missed[0].fires then 0 else missed[0].count - 1) + WrittenOff(missed[1..])
  }

  lemma {:induction false} BeyondSplits(a: seq<Todo>, b: seq<Todo>)
    ensures Beyond(a + b) == Beyond(a) + Beyond(b)
  {
    if |a| == 0 {
      assert a + b == b;
    } else {
      assert (a + b)[0] == a[0] && (a + b)[1..] == a[1..] + b;
      BeyondSplits(a[1..], b);
    }
  }

  lemma {:induction false} MissedBeyond(missed: seq<Missed>)
    ensures Beyond(MissedTodos(missed)) == WrittenOff(missed)
    ensures forall k :: 0 <= k < |MissedTodos(missed)| ==> MissedTodos(missed)[k].entry.status.WasMissed?
  {
    if |missed| > 0 {
      var m, rest := missed[0], missed[1..];
      MissedBeyond(rest);
      if !m.fires {
        var own := Todo(Entry(m.task.id, WasMissed, m.scheduledFor), m.count);
        assert ([own] + MissedTodos(rest))[1..] == MissedTodos(rest);
      } else {
        assert [] + MissedTodos(rest) == MissedTodos(rest);
      }
    }
  }

  lemma PlanTallies(h: Host, o: Outcome, limit: nat)
    ensures Tallies(h.(tick := Plan(o, limit)), h, WrittenOff(o.missed))
  {
    hide Launches, Written, GroupFires, QueuedCount;
    MissedBeyond(o.missed);
    NothingBeyond(SkippedTodos(o.skipped));
    BeyondSplits(MissedTodos(o.missed), SkippedTodos(o.skipped));
  }

  /**
   * A tick that comes to its end reports as fired the launches there were, as skipped and refused the records written
   * as such, and as missed the records written as missed and the windows these were written off for.
   */
  lemma ReportIsTrue(h: Host, now: int, limit: nat, events: seq<Event>)
    requires Inv(h) && h.tick.Idle? && !h.booting
    requires
      var b := Begin(h, now, limit, true);
      forall j :: 0 <= j < |events| ==> !StartsTick(Run(b, events[..j]), events[j])
    ensures
      var g := Run(Begin(h, now, limit, true), events);
      g.tick.Idle? && g.tick.outcome.Some? ==>
        CountsSince(g, h, g.tick.outcome.value, WrittenOff(EvaluateAll(h.tasks, Input(h, now)).missed))
  {
    hide Inv, Run, StartsTick, EvaluateAll, CountsSince, WrittenOff;
    var o := EvaluateAll(h.tasks, Input(h, now));
    BeginKeepsInv(h, now, limit, true);
    PlanTallies(h, o, limit);
    RunTallies(Begin(h, now, limit, true), events, h, WrittenOff(o.missed));
  }
}
