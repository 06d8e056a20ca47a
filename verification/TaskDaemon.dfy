/**
 * The daemon and its store as they are written: objects updated step by step
 * (apps/cli/src/daemon.ts:481-753, packages/storage/src/task-store.ts:106-176). Each method is proved to
 * take the abstract host of module TaskRuns through steps specified there, whatever happens while it waits.
 */
module TaskDaemon {
  import opened Results
  import opened Scheduler
  import opened TaskRuns
  import opened TaskSafety
  import opened TaskTicks

  lemma {:induction false} UpsertSkips(front: seq<Task>, rest: seq<Task>, task: Task)
    requires forall j :: 0 <= j < |front| ==> front[j].id != task.id
    ensures Upsert(front + rest, task) == front + Upsert(rest, task)
  {
    var tail := Upsert(rest, task);
    if front == [] {
      assert front + rest == rest && front + tail == tail;
    } else {
      assert (front + rest)[1..] == front[1..] + rest && (front + rest)[0] == front[0];
      UpsertSkips(front[1..], rest, task);
      assert [front[0]] + (front[1..] + tail) == front + tail;
    }
  }

  /** The task replaces the first one with its id, or goes to the end. */
  lemma UpsertAt(tasks: seq<Task>, i: nat, task: Task)
    requires i <= |tasks| && forall j :: 0 <= j < i ==> tasks[j].id != task.id
    requires i < |tasks| ==> tasks[i].id == task.id
    ensures Upsert(tasks, task) == if i < |tasks| then tasks[..i] + [task] + tasks[i + 1..] else tasks + [task]
  {
    var rest := tasks[i..];
    UpsertSkips(tasks[..i], rest, task);
    assert tasks == tasks[..i] + rest;
    if i < |tasks| {
      assert rest[0] == tasks[i] && rest[1..] == tasks[i + 1..];
      assert tasks[..i] + ([task] + tasks[i + 1..]) == tasks[..i] + [task] + tasks[i + 1..];
    } else {
      assert tasks[..i] == tasks && rest == [];
    }
  }

  lemma {:induction false} WithoutSnoc(tasks: seq<Task>, t: Task, id: TaskId)
    ensures Without(tasks + [t], id) == Without(tasks, id) + if t.id == id then [] else [t]
  {
    if |tasks| == 0 {
      assert tasks + [t] == [t] && [t][1..] == [];
    } else {
      var first, last := if tasks[0].id == id then [] else [tasks[0]], if t.id == id then [] else [t];
      assert (tasks + [t])[0] == tasks[0] && (tasks + [t])[1..] == tasks[1..] + [t];
      WithoutSnoc(tasks[1..], t, id);
      var rest := Without(tasks[1..], id);
      assert first + (rest + last) == (first + rest) + last;
    }
  }

  lemma RunSnoc(h: Host, events: seq<Event>, e: Event)
    ensures Run(h, events + [e]) == Step(Run(h, events), e)
  {
    assert (events + [e])[..|events|] == events;
  }

  class TaskStore {
    var tasks: seq<Task>
    var runs: seq<RunRecord>
    var cursors: map<TaskId, int>
    const journalRetention: nat

    constructor (journalRetention: nat)
      ensures tasks == [] && runs == [] && cursors == map[] && this.journalRetention == journalRetention
    {
      tasks, runs, cursors := [], [], map[];
      this.journalRetention := journalRetention;
    }

    /** An invalid definition is refused and changes nothing. */
    method UpsertTask(task: Task) returns (ok: bool)
      modifies this`tasks
      ensures ok == ValidTask(task)
      ensures tasks == if ok then Upsert(old(tasks), task) else old(tasks)
    {
      ok := ValidTask(task);
      if !ok {
        return;
      }
      var i := 0;
      while i < |tasks| && tasks[i].id != task.id
        invariant i <= |tasks| && forall j :: 0 <= j < i ==> tasks[j].id != task.id
      {
        i := i + 1;
      }
      UpsertAt(tasks, i, task);
      if i < |tasks| {
        tasks := tasks[..i] + [task] + tasks[i + 1..];
      } else {
        tasks := tasks + [task];
      }
    }

    method RemoveTask(id: TaskId) returns (removed: bool)
      modifies this`tasks, this`cursors
      ensures removed == HasTask(old(tasks), id)
      ensures tasks == if removed then Without(old(tasks), id) else old(tasks)
      ensures cursors == if removed then old(cursors) - {id} else old(cursors)
    {
      removed := false;
      var kept: seq<Task> := [];
      for i := 0 to |tasks|
        modifies {}
        invariant kept == Without(tasks[..i], id)
        invariant removed <==> exists k :: 0 <= k < i && tasks[k].id == id
      {
        assert tasks[..i + 1] == tasks[..i] + [tasks[i]];
        WithoutSnoc(tasks[..i], tasks[i], id);
        if tasks[i].id == id {
          removed := true;
        } else {
          kept := kept + [tasks[i]];
        }
      }
      assert tasks[..|tasks|] == tasks;
      if removed {
        tasks, cursors := kept, cursors - {id};
      }
    }

    method RecordRun(record: RunRecord)
      modifies this`runs, this`cursors
      ensures runs == KeepLast(old(runs) + [record], journalRetention)
      ensures cursors == Advance(old(cursors), record.taskId, record.scheduledFor)
    {
      runs := runs + [record];
      if 0 < journalRetention < |runs| {
        runs := runs[|runs| - journalRetention..];
      }
      var previous := if record.taskId in cursors then cursors[record.taskId] else 0;
      cursors := cursors[record.taskId := if previous < record.scheduledFor then record.scheduledFor else previous];
    }

    method UpdateRun(runId: nat, status: RunStatus)
      modifies this`runs
      ensures runs == TaskRuns.UpdateRun(old(runs), runId, status)
    {
      ghost var before := runs;
      var i := 0;
      while i < |runs|
        invariant i <= |runs| == |before|
        invariant forall k :: 0 <= k < i ==>
                    runs[k] == if before[k].runId == runId then before[k].(status := status) else before[k]
        invariant forall k :: i <= k < |before| ==> runs[k] == before[k]
      {
        if runs[i].runId == runId {
          runs := runs[i := runs[i].(status := status)];
        }
        i := i + 1;
      }
    }
  }

  /** What happens elsewhere while the daemon waits for something, and whether what it waits for throws. */
  datatype Pause = Pause(events: seq<Event>, fails: bool)

  /** What may happen while the daemon waits: runs end, and other processes edit tasks. */
  predicate Interferes(e: Event) {
    e.RunExits? || e.EndIsNoted? || e.RunLeaves? || e.TaskUpserted? || e.TaskRemoved?
  }

  predicate InTick(e: Event) {
    e.ProceedTick? || Interferes(e)
  }

  ghost predicate SomeFails(pauses: seq<Pause>) {
    exists k :: 0 <= k < |pauses| && pauses[k].fails
  }

  /** Something has thrown only if a pause says so; the pauses left are the last of all. */
  ghost predicate FailsOnlyIf(failed: bool, expected: seq<Pause>, pauses: seq<Pause>) {
    && (failed ==> SomeFails(expected))
    && |pauses| <= |expected|
    && pauses == expected[|expected| - |pauses|..]
  }

  lemma OnePauseLess(failed: bool, expected: seq<Pause>, pauses: seq<Pause>)
    requires FailsOnlyIf(failed, expected, pauses) && |pauses| > 0
    ensures FailsOnlyIf(failed || pauses[0].fails, expected, pauses[1..])
  {
    assert pauses[0] == expected[|expected| - |pauses|];
  }

  lemma MoreIsApproved(log: seq<LogEntry>, since: nat, approved: set<TaskId>, e: LogEntry)
    requires LaunchesApproved(log, since, approved) && (e.Launched? ==> e.taskId in approved)
    ensures LaunchesApproved(log + [e], since, approved)
  {}

  ghost predicate LaunchesApproved(log: seq<LogEntry>, since: nat, approved: set<TaskId>) {
    since <= |log| && forall i :: since <= i < |log| && log[i].Launched? ==> log[i].taskId in approved
  }

  /** The trace went on with steps of the tick and interference only, unless it was given up at the end. */
  ghost predicate TickWentOn(before: seq<Event>, after: seq<Event>, ok: bool) {
    && |before| <= |after|
    && before == after[..|before|]
    && (!ok ==> |before| < |after| && after[|after| - 1] == AbandonTick)
    && forall i :: |before| <= i < |after| - (if ok then 0 else 1) ==> InTick(after[i])
  }

  ghost predicate BootWentOn(before: seq<Event>, after: seq<Event>) {
    && |before| <= |after|
    && before == after[..|before|]
    && forall i :: |before| <= i < |after| ==> after[i].BootProceeds? || Interferes(after[i])
  }

  function Cleared(r: RunRecord): RunRecord {
    if r.status.Running? then r.(status := Failed) else r
  }

  function RunningCount(runs: seq<RunRecord>): nat {
    if |runs| == 0 then 0
    else RunningCount(runs[..|runs| - 1]) + if runs[|runs| - 1].status.Running? then 1 else 0
  }

  /** The first records are cleared, the others as they were. */
  ghost predicate HalfCleared(before: seq<RunRecord>, after: seq<RunRecord>, i: nat) {
    && |after| == |before|
    && (forall k :: 0 <= k < i && k < |before| ==> after[k] == Cleared(before[k]))
    && (forall k :: i <= k < |before| ==> after[k] == before[k])
  }

  ghost predicate DistinctIds(runs: seq<RunRecord>) {
    forall i, j :: 0 <= i < j < |runs| ==> runs[i].runId != runs[j].runId
  }

  lemma NoBootStep(trace: seq<Event>)
    ensures BootWentOn(trace, trace)
  {}

  lemma OneBootStep(before: seq<Event>, after: seq<Event>)
    requires after == before + [BootProceeds]
    ensures BootWentOn(before, after)
  {}

  lemma BootedTwice(a: seq<Event>, b: seq<Event>, c: seq<Event>)
    requires BootWentOn(a, b) && BootWentOn(b, c)
    ensures BootWentOn(a, c)
  {
    assert forall i :: |a| <= i < |b| ==> c[i] == b[i];
  }

  lemma RunIdsDiffer(h: Host)
    requires Inv(h)
    ensures DistinctIds(h.runs)
  {
    assert JournalInv(h);
  }

  lemma OnlyOneUpdated(runs: seq<RunRecord>, i: nat)
    requires DistinctIds(runs) && i < |runs| && runs[i].status.Running?
    ensures UpdateRun(runs, runs[i].runId, Failed) == runs[i := Cleared(runs[i])]
  {}

  class TaskDaemon {
    const store: TaskStore
    var inFlight: map<TaskId, Flight>
    var bootAt: int
    /** Stands for the drawing of ids never used before. */
    var nextRunId: nat
    /** What the daemon will meet with, one pause after the other. */
    var pauses: seq<Pause>
    /** The tasks that will pass the checks on config and trust. */
    var approved: set<TaskId>

    ghost var booting: bool
    ghost var tick: Tick
    ghost var history: seq<Note>
    ghost var log: seq<LogEntry>
    ghost var origin: Host
    ghost var trace: seq<Event>
    /** All pauses since they were last set, whether one has thrown since, and how long the log was then. */
    ghost var expected: seq<Pause>
    ghost var failed: bool
    ghost var since: nat

    constructor (store: TaskStore, now: int)
      requires store.tasks == [] && store.runs == [] && store.cursors == map[]
      ensures this.store == store && Follows() && trace == []
      ensures View() == InitialHost(now, store.journalRetention)
    {
      this.store := store;
      inFlight, bootAt, nextRunId, pauses, approved := map[], now, 0, [], {};
      expected, failed, since := [], false, 0;
      booting, tick, history, log, trace := false, Idle(None), [], [], [];
      origin := InitialHost(now, store.journalRetention);
      InitialInv(now, store.journalRetention);
      hide Inv;
    }

    ghost function View(): Host
      reads this, store
    {
      Host(store.tasks, store.runs, store.journalRetention, store.cursors,
           inFlight, bootAt, booting, tick, history, log)
    }

    /** The object is where the machine is after the events of the trace, and only approved tasks were launched. */
    ghost predicate Follows()
      reads this, store
    {
      && Inv(origin) && nextRunId == |history| && View() == Run(origin, trace)
      && LaunchesApproved(log, since, approved)
      && FailsOnlyIf(failed, expected, pauses)
    }

    lemma Safe()
      requires Follows()
      ensures Inv(View())
      ensures LaunchesApproved(log, since, approved) && (failed ==> SomeFails(expected))
    {
      hide Inv, Run;
      RunKeepsInv(origin, trace);
    }

    lemma TasksAreOk()
      requires Follows()
      ensures TasksOk(store.tasks)
    {
      hide Run, FlightInv, TickInv;
      Safe();
      assert JournalInv(View());
    }

    // ----- What happens elsewhere -----

    method Expect(ps: seq<Pause>, approved: set<TaskId>)
      requires Follows()
      modifies this`pauses, this`approved, this`expected, this`failed, this`since
      ensures Follows() && !failed && expected == ps && this.approved == approved && since == |log|
    {
      hide Inv, Run;
      pauses, this.approved := ps, approved;
      expected, failed, since := ps, false, |log|;
    }

    method RunExited(id: TaskId, ok: bool)
      requires Follows()
      modifies this`inFlight, this`log, this`trace
      ensures Follows() && trace == old(trace) + [RunExits(id, ok)]
      ensures View() == Step(old(View()), RunExits(id, ok))
    {
      hide Inv, Run, LaunchesApproved, FailsOnlyIf;
      RunSnoc(origin, trace, RunExits(id, ok));
      if id in inFlight && inFlight[id].phase.Spawned? {
        MoreIsApproved(log, since, approved, Ended(id, inFlight[id].runId, ok));
        inFlight := inFlight[id := inFlight[id].(phase := Exited(ok))];
        log := log + [Ended(id, inFlight[id].runId, ok)];
      }
      trace := trace + [RunExits(id, ok)];
    }

    /** The first thing the completion callback does: the record takes its final status. */
    method NoteRunEnd(id: TaskId)
      requires Follows()
      modifies this`inFlight, this`trace, store`runs
      ensures Follows() && trace == old(trace) + [EndIsNoted(id)]
      ensures View() == Step(old(View()), EndIsNoted(id))
    {
      hide Inv, Run, LaunchesApproved, FailsOnlyIf;
      RunSnoc(origin, trace, EndIsNoted(id));
      if id in inFlight && inFlight[id].phase.Exited? {
        store.UpdateRun(inFlight[id].runId, if inFlight[id].phase.ok then Completed else Failed);
        inFlight := inFlight[id := inFlight[id].(phase := Noted)];
      }
      trace := trace + [EndIsNoted(id)];
    }

    /** The last thing the completion callback does: the task leaves the in-flight map. */
    method RunLeft(id: TaskId)
      requires Follows()
      modifies this`inFlight, this`trace
      ensures Follows() && trace == old(trace) + [RunLeaves(id)]
      ensures View() == Step(old(View()), RunLeaves(id))
    {
      hide Inv, Run, LaunchesApproved, FailsOnlyIf;
      RunSnoc(origin, trace, RunLeaves(id));
      if id in inFlight && inFlight[id].phase.Noted? {
        inFlight := inFlight - {id};
      }
      trace := trace + [RunLeaves(id)];
    }

    method TaskWasUpserted(task: Task)
      requires Follows()
      modifies this`trace, store`tasks
      ensures Follows() && trace == old(trace) + [TaskUpserted(task)]
      ensures View() == Step(old(View()), TaskUpserted(task))
    {
      hide Inv, Run, Upsert, ValidTask, LaunchesApproved, FailsOnlyIf;
      RunSnoc(origin, trace, TaskUpserted(task));
      var _ := store.UpsertTask(task);
      trace := trace + [TaskUpserted(task)];
    }

    method TaskWasRemoved(id: TaskId)
      requires Follows()
      modifies this`trace, this`history, this`nextRunId, store`tasks, store`cursors
      ensures Follows() && trace == old(trace) + [TaskRemoved(id)]
      ensures View() == Step(old(View()), TaskRemoved(id))
    {
      hide Inv, Run, Without, HasTask, LaunchesApproved, FailsOnlyIf;
      RunSnoc(origin, trace, TaskRemoved(id));
      var removed := store.RemoveTask(id);
      if removed {
        history := history + [Removed(id)];
        nextRunId := nextRunId + 1;
      }
      trace := trace + [TaskRemoved(id)];
    }

    method Meet(e: Event)
      requires Follows() && Interferes(e)
      modifies this`inFlight, this`log, this`trace, this`history, this`nextRunId, store
      ensures Follows() && trace == old(trace) + [e]
      ensures old(inFlight) == map[] ==> inFlight == map[] && store.runs == old(store.runs)
    {
      hide Inv, Run, Upsert, Without, HasTask, ValidTask, SomeFails;
      match e
      case RunExits(id, ok) => RunExited(id, ok);
      case EndIsNoted(id) => NoteRunEnd(id);
      case RunLeaves(id) => RunLeft(id);
      case TaskUpserted(task) => TaskWasUpserted(task);
      case TaskRemoved(id) => TaskWasRemoved(id);
      case _ => assert false;
    }

    method MeetAll(events: seq<Event>)
      requires Follows()
      modifies this`inFlight, this`log, this`trace, this`history, this`nextRunId, store
      ensures Follows() && TickWentOn(old(trace), trace, true)
      ensures forall i :: |old(trace)| <= i < |trace| ==> Interferes(trace[i])
      ensures old(inFlight) == map[] ==> inFlight == map[] && store.runs == old(store.runs)
    {
      hide Follows;
      for i := 0 to |events|
        invariant Follows() && |old(trace)| <= |trace| && old(trace) == trace[..|old(trace)|]
        invariant old(inFlight) == map[] ==> inFlight == map[] && store.runs == old(store.runs)
        invariant forall i :: |old(trace)| <= i < |trace| ==> Interferes(trace[i])
      {
        if Interferes(events[i]) {
          Meet(events[i]);
        }
      }
    }

    method NextPause() returns (pause: Pause)
      requires Follows()
      modifies this`pauses, this`failed
      ensures Follows() && failed == (old(failed) || pause.fails)
      ensures pause == if |old(pauses)| == 0 then Pause([], false) else old(pauses)[0]
    {
      hide Inv, Run, FailsOnlyIf;
      if |pauses| == 0 {
        return Pause([], false);
      }
      OnePauseLess(failed, expected, pauses);
      pause := pauses[0];
      failed := failed || pause.fails;
      pauses := pauses[1..];
    }

    /** Waits for something: other things happen, and then it is there, or it throws. */
    method Await() returns (ok: bool)
      requires Follows()
      modifies this`inFlight, this`log, this`trace, this`history, this`nextRunId, this`pauses, this`failed, store
      ensures Follows() && TickWentOn(old(trace), trace, true)
      ensures forall i :: |old(trace)| <= i < |trace| ==> Interferes(trace[i])
      ensures ok == (|old(pauses)| == 0 || !old(pauses)[0].fails)
      ensures failed == (old(failed) || !ok)
      ensures old(inFlight) == map[] ==> inFlight == map[] && store.runs == old(store.runs)
    {
      hide Follows, TickWentOn;
      var pause := NextPause();
      MeetAll(pause.events);
      ok := !pause.fails;
    }

    // ----- Booting -----

    /** The process died, its runs with it; the store is what is left. */
    method Crash(now: int)
      requires Follows()
      modifies this`inFlight, this`bootAt, this`booting, this`tick, this`log, this`trace
      ensures Follows() && trace == old(trace) + [ProcessRestarts(now)]
      ensures inFlight == map[] && bootAt == now && booting && tick == Idle(None)
    {
      hide Inv, Run, LaunchesApproved, FailsOnlyIf;
      RunSnoc(origin, trace, ProcessRestarts(now));
      MoreIsApproved(log, since, approved, Restarted);
      inFlight, bootAt, booting, tick, log := map[], now, true, Idle(None), log + [Restarted];
      trace := trace + [ProcessRestarts(now)];
    }

    /** Fails the first record still called running. */
    method FailFirst(i: nat)
      requires Follows() && booting
      requires i < |store.runs| && store.runs[i].status.Running?
      requires forall j :: 0 <= j < i ==> !store.runs[j].status.Running?
      modifies this`trace, store`runs
      ensures Follows() && trace == old(trace) + [BootProceeds]
      ensures store.runs == TaskRuns.UpdateRun(old(store.runs), old(store.runs)[i].runId, Failed)
    {
      hide Inv, Run, UpdateRun, FirstRunning, LaunchesApproved, FailsOnlyIf;
      RunSnoc(origin, trace, BootProceeds);
      assert FirstRunning(store.runs) == i;
      store.UpdateRun(store.runs[i].runId, Failed);
      trace := trace + [BootProceeds];
    }

    method BeBooted()
      requires Follows() && booting && forall j :: 0 <= j < |store.runs| ==> !store.runs[j].status.Running?
      modifies this`trace, this`booting
      ensures Follows() && trace == old(trace) + [BootProceeds] && !booting
    {
      hide Inv, Run, UpdateRun, FirstRunning, LaunchesApproved, FailsOnlyIf;
      RunSnoc(origin, trace, BootProceeds);
      assert FirstRunning(store.runs) == |store.runs|;
      booting := false;
      trace := trace + [BootProceeds];
    }

    /** Waits for the store and fails the record; an error here ends the booting. */
    method RecoverOne(i: nat, ghost snapshot: seq<RunRecord>) returns (ok: bool)
      requires Follows() && booting && inFlight == map[] && DistinctIds(snapshot)
      requires i < |snapshot| && snapshot[i].status.Running? && HalfCleared(snapshot, store.runs, i)
      modifies this`inFlight, this`log, this`trace, this`history, this`nextRunId, this`pauses, this`failed, store
      ensures Follows() && inFlight == map[] && BootWentOn(old(trace), trace)
      ensures if ok then HalfCleared(snapshot, store.runs, i + 1) else failed
    {
      hide Inv, Run, TaskRuns.UpdateRun;
      ok := Await();
      if ok {
        ghost var before := store.runs;
        FailFirst(i);
        OnlyOneUpdated(before, i);
      }
    }

    /**
     * A new process takes over after a crash and calls the runs it finds running failed. If it throws
     * on the way, it is still booting.
     */
    method Boot(now: int, ps: seq<Pause>) returns (ok: bool, recovered: nat)
      requires Follows()
      modifies this, store
      ensures Follows() && BootWentOn(old(trace) + [ProcessRestarts(now)], trace)
      ensures ok == !booting && tick == Idle(None) && inFlight == map[] && bootAt == now
      ensures !ok ==> SomeFails(ps)
      ensures ok ==>
        HalfCleared(old(store.runs), store.runs, |old(store.runs)|) && recovered == RunningCount(old(store.runs))
    {
      hide Inv, Run, BootWentOn, Follows, DistinctIds, SomeFails, LaunchesApproved;
      Safe();
      RunIdsDiffer(View());
      Expect(ps, {});
      Crash(now);
      NoBootStep(trace);
      ok, recovered := true, 0;
      var snapshot := store.runs;
      var i := 0;
      while i < |snapshot|
        invariant ok && i <= |snapshot| && recovered == RunningCount(snapshot[..i])
        invariant Follows() && booting && tick == Idle(None) && inFlight == map[] && bootAt == now
        invariant BootWentOn(old(trace) + [ProcessRestarts(now)], trace)
        invariant HalfCleared(snapshot, store.runs, i) && expected == ps
      {
        assert snapshot[..i + 1][..i] == snapshot[..i];
        if snapshot[i].status.Running? {
          ghost var before := trace;
          ok := RecoverOne(i, snapshot);
          BootedTwice(old(trace) + [ProcessRestarts(now)], before, trace);
          Safe();
          if !ok {
            return;
          }
          recovered := recovered + 1;
        }
        i := i + 1;
      }
      assert snapshot[..i] == snapshot;
      ghost var before := trace;
      BeBooted();
      OneBootStep(before, trace);
      BootedTwice(old(trace) + [ProcessRestarts(now)], before, trace);
    }

    // ----- The steps of a tick -----

    /** Journals an entry the tick has to journal next. */
    method Record(e: Entry)
      requires Follows() && tick.Ticking? && |tick.todo| > 0 && tick.todo[0].entry == e
      modifies this`nextRunId, this`tick, this`history, this`trace, store`runs, store`cursors
      ensures Follows() && trace == old(trace) + [ProceedTick(false)]
      ensures tick == old(tick).(todo := old(tick).todo[1..], counts := Count(old(tick).counts, old(tick).todo[0]))
    {
      hide Inv, Run, KeepLast, Advance, Count, LaunchesApproved, FailsOnlyIf;
      RunSnoc(origin, trace, ProceedTick(false));
      store.RecordRun(RunRecord(nextRunId, e.taskId, e.status, e.scheduledFor));
      nextRunId := nextRunId + 1;
      history := history + [Recorded(e)];
      tick := tick.(todo := tick.todo[1..], counts := Count(tick.counts, tick.todo[0]));
      trace := trace + [ProceedTick(false)];
    }

    /** The tick throws what it waited for threw. */
    ghost method GiveUp()
      requires Follows() && tick.Ticking? && Calm(tick)
      modifies this`tick, this`trace
      ensures Follows() && trace == old(trace) + [AbandonTick] && tick == Idle(None)
    {
      hide Inv, Run, LaunchesApproved, FailsOnlyIf;
      RunSnoc(origin, trace, AbandonTick);
      tick := Idle(None);
      trace := trace + [AbandonTick];
    }

    /** Waits for the store and journals the entry, or gives up. */
    method AwaitRecord(e: Entry) returns (ok: bool)
      requires Follows() && tick.Ticking? && Calm(tick) && |tick.todo| > 0 && tick.todo[0].entry == e
      modifies this`inFlight, this`log, this`tick, this`trace, this`history, this`nextRunId
      modifies this`pauses, this`failed, store
      ensures Follows() && TickWentOn(old(trace), trace, ok)
      ensures failed == (old(failed) || !ok)
      ensures tick ==
        if ok then old(tick).(todo := old(tick).todo[1..], counts := Count(old(tick).counts, old(tick).todo[0]))
        else Idle(None)
    {
      hide Inv, Run, Count;
      ok := Await();
      if ok {
        Record(e);
      } else {
        GiveUp();
      }
    }

    /** The loop over the missed windows: those that fire are left to their launch. */
    method JournalMissed(missed: seq<Missed>, ghost rest: seq<Todo>) returns (ok: bool, count: nat)
      requires Follows() && tick.Ticking? && tick.stage.NoLaunch? && tick.todo == MissedTodos(missed) + rest
      modifies this`inFlight, this`log, this`tick, this`trace, this`history, this`nextRunId
      modifies this`pauses, this`failed, store
      ensures Follows() && TickWentOn(old(trace), trace, ok)
      ensures failed == (old(failed) || !ok)
      ensures tick ==
        if ok then
          old(tick).(todo := rest, counts := old(tick).counts.(missed := old(tick).counts.missed + count))
        else Idle(None)
    {
      hide Follows;
      ok, count := true, 0;
      var i := 0;
      assert missed[0..] == missed;
      while i < |missed|
        invariant ok && i <= |missed| && Follows() && TickWentOn(old(trace), trace, true) && failed == old(failed)
        invariant tick == old(tick).(todo := MissedTodos(missed[i..]) + rest,
                                     counts := old(tick).counts.(missed := old(tick).counts.missed + count))
      {
        var m := missed[i];
        assert missed[i..][1..] == missed[i + 1..];
        if m.fires {
          assert [] + MissedTodos(missed[i + 1..]) == MissedTodos(missed[i + 1..]);
        } else {
          var e := Entry(m.task.id, WasMissed, m.scheduledFor);
          ghost var before, later := trace, MissedTodos(missed[i + 1..]) + rest;
          assert tick.todo == [Todo(e, m.count)] + later;
          assert ([Todo(e, m.count)] + later)[1..] == later;
          ok := AwaitRecord(e);
          WentOnTwice(old(trace), before, trace, ok);
          if !ok {
            return;
          }
          count := count + m.count;
        }
        i := i + 1;
      }
      assert missed[i..] == [] && [] + rest == rest;
    }

    method JournalSkipped(skipped: seq<Skipped>) returns (ok: bool)
      requires Follows() && tick.Ticking? && tick.stage.NoLaunch? && tick.todo == SkippedTodos(skipped)
      modifies this`inFlight, this`log, this`tick, this`trace, this`history, this`nextRunId
      modifies this`pauses, this`failed, store
      ensures Follows() && TickWentOn(old(trace), trace, ok)
      ensures failed == (old(failed) || !ok)
      ensures tick ==
        if ok then
          old(tick).(todo := [], counts := old(tick).counts.(skipped := old(tick).counts.skipped + |skipped|))
        else Idle(None)
    {
      hide Follows;
      ok := true;
      var i := 0;
      while i < |skipped|
        invariant ok && i <= |skipped| && Follows() && TickWentOn(old(trace), trace, true) && failed == old(failed)
        invariant tick == old(tick).(todo := SkippedTodos(skipped)[i..],
                                     counts := old(tick).counts.(skipped := old(tick).counts.skipped + i))
      {
        ghost var before := trace;
        assert SkippedTodos(skipped)[i..][1..] == SkippedTodos(skipped)[i + 1..];
        ok := AwaitRecord(Entry(skipped[i].task.id, WasSkipped, skipped[i].scheduledFor));
        WentOnTwice(old(trace), before, trace, ok);
        if !ok {
          return;
        }
        i := i + 1;
      }
    }

    /** The earlier windows of a group are missed. */
    method JournalStale(group: seq<Fire>) returns (ok: bool)
      requires |group| > 0
      requires Follows() && tick.Ticking? && Calm(tick) && tick.todo == StaleTodos(group)
      modifies this`inFlight, this`log, this`tick, this`trace, this`history, this`nextRunId
      modifies this`pauses, this`failed, store
      ensures Follows() && TickWentOn(old(trace), trace, ok)
      ensures failed == (old(failed) || !ok)
      ensures tick ==
        if ok then
          old(tick).(todo := [], counts := old(tick).counts.(missed := old(tick).counts.missed + |group| - 1))
        else Idle(None)
    {
      hide Follows;
      ok := true;
      var i := 0;
      while i < |group| - 1
        invariant ok && i <= |group| - 1 && Follows() && TickWentOn(old(trace), trace, true) && failed == old(failed)
        invariant tick == old(tick).(todo := StaleTodos(group)[i..],
                                     counts := old(tick).counts.(missed := old(tick).counts.missed + i))
      {
        ghost var before := trace;
        assert StaleTodos(group)[i..][1..] == StaleTodos(group)[i + 1..];
        ok := AwaitRecord(Entry(group[i].task.id, WasMissed, group[i].scheduledFor));
        WentOnTwice(old(trace), before, trace, ok);
        if !ok {
          return;
        }
        i := i + 1;
      }
    }

    /** A step of the tick that only moves it on. */
    ghost method MoveOn(admit: bool)
      requires Follows() && tick.Ticking? && |tick.todo| == 0
      requires tick.stage.Verifying? || tick.stage.NoLaunch?
      modifies this`tick, this`trace
      ensures Follows() && trace == old(trace) + [ProceedTick(admit)]
      ensures tick == Step(old(View()), ProceedTick(admit)).tick
    {
      hide Inv, Run, LaunchesApproved, FailsOnlyIf;
      RunSnoc(origin, trace, ProceedTick(admit));
      tick := Step(View(), ProceedTick(admit)).tick;
      trace := trace + [ProceedTick(admit)];
    }

    /** A launch that passed its checks is journaled before anything else is done for it. */
    method JournalRunning(id: TaskId, at: int) returns (runId: nat)
      requires Follows() && tick.Ticking? && |tick.todo| == 0 && tick.stage == Committing(id, at)
      modifies this`tick, this`trace, this`history, this`nextRunId, store`runs, store`cursors
      ensures Follows() && trace == old(trace) + [ProceedTick(true)]
      ensures tick == old(tick).(stage := Entering(id, at, runId))
    {
      hide Inv, Run, KeepLast, Advance, LaunchesApproved, FailsOnlyIf;
      RunSnoc(origin, trace, ProceedTick(true));
      runId := nextRunId;
      store.RecordRun(RunRecord(runId, id, Running, at));
      nextRunId := nextRunId + 1;
      history := history + [Recorded(Entry(id, Running, at))];
      tick := tick.(stage := Entering(id, at, runId));
      trace := trace + [ProceedTick(true)];
    }

    method EnterRun(id: TaskId, at: int, runId: nat)
      requires Follows() && tick.Ticking? && |tick.todo| == 0 && tick.stage == Entering(id, at, runId)
      modifies this`inFlight, this`tick, this`trace
      ensures Follows() && trace == old(trace) + [ProceedTick(true)]
      ensures tick == old(tick).(stage := Spawning(id, at, runId))
    {
      hide Inv, Run, LaunchesApproved, FailsOnlyIf;
      RunSnoc(origin, trace, ProceedTick(true));
      inFlight := inFlight[id := Flight(runId, at, Entered)];
      tick := tick.(stage := Spawning(id, at, runId));
      trace := trace + [ProceedTick(true)];
    }

    method SpawnRun(id: TaskId, at: int, runId: nat)
      requires Follows() && tick.Ticking? && |tick.todo| == 0 && tick.stage == Spawning(id, at, runId)
      requires id in approved
      modifies this`inFlight, this`log, this`tick, this`trace
      ensures Follows() && trace == old(trace) + [ProceedTick(true)]
      ensures tick == old(tick).(stage := NoLaunch, counts := old(tick).counts.(fired := old(tick).counts.fired + 1))
    {
      hide Inv, Run, LaunchesApproved, FailsOnlyIf;
      RunSnoc(origin, trace, ProceedTick(true));
      MoreIsApproved(log, since, approved, Launched(id, runId, at));
      inFlight := inFlight[id := Flight(runId, at, Spawned)];
      log := log + [Launched(id, runId, at)];
      tick := tick.(stage := NoLaunch, counts := tick.counts.(fired := tick.counts.fired + 1));
      trace := trace + [ProceedTick(true)];
    }

    /** An admitted launch waits for the store once more; nothing is waited for from the journaling to the spawn. */
    method StartRun(id: TaskId, at: int) returns (ok: bool)
      requires Follows() && tick.Ticking? && |tick.todo| == 0 && tick.stage == Committing(id, at) && id in approved
      modifies this`inFlight, this`log, this`tick, this`trace, this`history, this`nextRunId
      modifies this`pauses, this`failed, store
      ensures Follows() && TickWentOn(old(trace), trace, ok)
      ensures failed == (old(failed) || !ok)
      ensures tick ==
        if ok then old(tick).(stage := NoLaunch, counts := old(tick).counts.(fired := old(tick).counts.fired + 1))
        else Idle(None)
    {
      hide Follows;
      ok := Await();
      if !ok {
        GiveUp();
        return;
      }
      var runId := JournalRunning(id, at);
      EnterRun(id, at, runId);
      SpawnRun(id, at, runId);
    }

    /** A refused launch is journaled as failed. */
    method RejectLaunch(id: TaskId, at: int) returns (ok: bool)
      requires Follows() && tick.Ticking? && tick.stage.NoLaunch? && tick.todo == [Todo(Entry(id, Failed, at), 1)]
      modifies this`inFlight, this`log, this`tick, this`trace, this`history, this`nextRunId
      modifies this`pauses, this`failed, store
      ensures Follows() && TickWentOn(old(trace), trace, ok)
      ensures failed == (old(failed) || !ok)
      ensures tick ==
        if ok then old(tick).(todo := [], counts := old(tick).counts.(refused := old(tick).counts.refused + 1))
        else Idle(None)
    {
      hide Follows;
      ok := AwaitRecord(Entry(id, Failed, at));
    }

    /**
     * The launch of a group's latest window: the config is hashed, which may throw, then trust is checked,
     * where an error means no.
     */
    method Launch(id: TaskId, at: int) returns (ok: bool, spawned: bool)
      requires Follows() && tick.Ticking? && |tick.todo| == 0 && tick.stage == Verifying(id, at)
      modifies this`inFlight, this`log, this`tick, this`trace, this`history, this`nextRunId
      modifies this`pauses, this`failed, store
      ensures Follows() && TickWentOn(old(trace), trace, ok)
      ensures (!ok ==> failed) && (old(failed) ==> failed)
      ensures if spawned then ok && id in approved else id !in approved || failed
      ensures tick ==
        if !ok then Idle(None) else old(tick).(stage := NoLaunch, counts := CountLaunch(old(tick).counts, spawned))
    {
      hide Follows, Inv, Run, TickWentOn;
      spawned := false;
      ok := AwaitChecks();
      if !ok {
        return;
      }
      ghost var before := trace;
      var checked := Await();
      WentOnTwice(old(trace), before, trace, true);
      var admitted := checked && id in approved;
      ghost var waited := trace;
      MoveOn(admitted);
      OneStep(waited, trace, ProceedTick(admitted));
      WentOnTwice(old(trace), waited, trace, true);
      ghost var decided := trace;
      if admitted {
        ok := StartRun(id, at);
        spawned := ok;
      } else {
        ok := RejectLaunch(id, at);
      }
      WentOnTwice(old(trace), decided, trace, ok);
    }

    /** Waits for something whose error ends the tick. */
    method AwaitChecks() returns (ok: bool)
      requires Follows() && tick.Ticking? && Calm(tick)
      modifies this`inFlight, this`log, this`tick, this`trace, this`history, this`nextRunId
      modifies this`pauses, this`failed, store
      ensures Follows() && TickWentOn(old(trace), trace, ok)
      ensures failed == (old(failed) || !ok)
      ensures tick == if ok then old(tick) else Idle(None)
    {
      hide Follows;
      ok := Await();
      if !ok {
        GiveUp();
      }
    }

    /** Launches group by group while slots last; only the latest window of a group is launched. */
    method LaunchLoop(groups: seq<seq<Fire>>, limit: nat, counts: Counts) returns (ok: bool, c: Counts)
      requires forall k :: 0 <= k < |groups| ==> |groups[k]| > 0
      requires Follows() && tick == Ticking([], NoLaunch, groups, limit, counts)
      modifies this`inFlight, this`log, this`tick, this`trace, this`history, this`nextRunId
      modifies this`pauses, this`failed, store
      ensures Follows() && TickWentOn(old(trace), trace, ok) && (!ok ==> failed)
      ensures tick == Idle(if ok then Some(c) else None)
      ensures !failed && AllApproved(groups, approved) ==> c.refused == counts.refused
    {
      hide Follows, Inv, Run, TickWentOn;
      ok, c := true, counts;
      NoStep(trace);
      assert groups[0..] == groups;
      var k := 0;
      while k < |groups|
        invariant ok && k <= |groups| && Follows() && TickWentOn(old(trace), trace, true)
        invariant tick == Ticking([], NoLaunch, groups[k..], limit, c)
        invariant !failed && AllApproved(groups, approved) ==> c.refused == counts.refused
      {
        ghost var before := trace;
        assert groups[k..][1..] == groups[k + 1..];
        ok, c := LaunchGroup(groups[k], groups[k + 1..], limit, c);
        WentOnTwice(old(trace), before, trace, ok);
        if !ok {
          return;
        }
        k := k + 1;
      }
      ghost var before := trace;
      assert groups[k..] == [];
      MoveOn(false);
      OneStep(before, trace, ProceedTick(false));
      WentOnTwice(old(trace), before, trace, true);
    }

    method LaunchGroup(group: seq<Fire>, ghost rest: seq<seq<Fire>>, limit: nat, counts: Counts)
      returns (ok: bool, c: Counts)
      requires |group| > 0
      requires Follows() && tick == Ticking([], NoLaunch, [group] + rest, limit, counts)
      modifies this`inFlight, this`log, this`tick, this`trace, this`history, this`nextRunId
      modifies this`pauses, this`failed, store
      ensures Follows() && TickWentOn(old(trace), trace, ok)
      ensures tick == if ok then Ticking([], NoLaunch, rest, limit, c) else Idle(None)
      ensures (!ok ==> failed) && (old(failed) ==> failed)
      ensures !failed && group[|group| - 1].task.id in approved ==> c.refused == counts.refused
    {
      hide Follows, Inv, Run, TickWentOn, StaleTodos;
      assert ([group] + rest)[1..] == rest;
      ok, c := true, counts;
      ghost var start := trace;
      MoveOn(false);
      OneStep(start, trace, ProceedTick(false));
      if |inFlight| >= limit {
        c := c.(deferred := c.deferred + |group|);
        return;
      }
      var latest := group[|group| - 1];
      ghost var moved := trace;
      ok := JournalStale(group);
      WentOnTwice(start, moved, trace, ok);
      if !ok {
        return;
      }
      c := c.(missed := c.missed + |group| - 1);
      ghost var journaled := trace;
      var spawned;
      ok, spawned := Launch(latest.task.id, latest.scheduledFor);
      WentOnTwice(start, journaled, trace, ok);
      c := CountLaunch(c, spawned);
    }

    /** The start of a tick: everything is decided on the store as it is now. */
    method Decide(now: int, limit: nat) returns (outcome: Outcome)
      requires Follows() && tick.Idle? && !booting
      modifies this`tick, this`trace
      ensures Follows() && trace == old(trace) + [BeginTick(now, limit, true)]
      ensures outcome == EvaluateAll(store.tasks, TickInput(now, bootAt, store.cursors, inFlight.Keys))
      ensures tick == Plan(outcome, limit)
    {
      hide Inv, Run, EvaluateAll, Plan, LaunchesApproved, FailsOnlyIf;
      RunSnoc(origin, trace, BeginTick(now, limit, true));
      outcome := EvaluateTick(store.tasks, TickInput(now, bootAt, store.cursors, inFlight.Keys));
      tick := Plan(outcome, limit);
      trace := trace + [BeginTick(now, limit, true)];
    }

    method BeDisabled(now: int, limit: nat)
      requires Follows()
      modifies this`trace
      ensures Follows() && trace == old(trace) + [BeginTick(now, limit, false)]
    {
      hide Inv, Run, EvaluateAll, LaunchesApproved, FailsOnlyIf;
      RunSnoc(origin, trace, BeginTick(now, limit, false));
      trace := trace + [BeginTick(now, limit, false)];
    }

    /**
     * One tick: decide, journal what does not fire, then launch group by group. Whatever happens elsewhere
     * while it waits, and wherever it throws, it goes through steps of the machine; without an error it
     * returns the counts the machine ends the tick with.
     */
    method Tick(now: int, limit: nat, enabled: bool, approved: set<TaskId>, ps: seq<Pause>)
      returns (outcome: Option<Counts>)
      requires Follows() && tick.Idle? && !booting
      modifies this, store
      ensures Follows()
      ensures !enabled ==>
        outcome == None && View() == old(View()) && trace == old(trace) + [BeginTick(now, limit, false)]
      ensures enabled ==>
        && TickWentOn(old(trace) + [BeginTick(now, limit, true)], trace, outcome.Some?)
        && tick == Idle(outcome)
        && LaunchesApproved(log, |old(log)|, approved)
        && (outcome.None? ==> SomeFails(ps))
      ensures enabled && !SomeFails(ps) && (forall t :: t in old(store.tasks) ==> t.id in approved) ==>
        outcome.Some? && outcome.value.refused == 0
    {
      hide Follows, Inv, Run, TickWentOn, GroupFires, EvaluateAll, LaunchesApproved, SomeFails, AllApproved;
      if !enabled {
        BeDisabled(now, limit);
        return None;
      }
      Expect(ps, approved);
      ghost var tasks := store.tasks;
      TasksAreOk();
      var decided := Decide(now, limit);
      ghost var start := trace;
      ghost var input := TickInput(now, bootAt, store.cursors, inFlight.Keys);
      ghost var skips := SkippedTodos(decided.skipped);
      var ok, misses := JournalMissed(decided.missed, skips);
      Safe();
      if !ok {
        return None;
      }
      ghost var missed := trace;
      ok := JournalSkipped(decided.skipped);
      WentOnTwice(start, missed, trace, ok);
      Safe();
      if !ok {
        return None;
      }
      ghost var skipped := trace;
      var groups, queued := Group(decided.fires);
      GroupsAreNonEmpty(decided.fires);
      if forall t :: t in tasks ==> t.id in approved {
        GroupsAreOfTasks(tasks, input, approved);
      }
      var counts;
      ok, counts := LaunchLoop(groups, limit, Counts(0, misses, |decided.skipped|, queued, 0));
      WentOnTwice(start, skipped, trace, ok);
      Safe();
      outcome := if ok then Some(counts) else None;
    }
  }

  /** The latest window of each group is of an approved task. */
  ghost predicate AllApproved(groups: seq<seq<Fire>>, approved: set<TaskId>) {
    forall k :: 0 <= k < |groups| && |groups[k]| > 0 ==> groups[k][|groups[k]| - 1].task.id in approved
  }

  lemma GroupsAreOfTasks(tasks: seq<Task>, input: TickInput, approved: set<TaskId>)
    requires TasksOk(tasks) && forall t :: t in tasks ==> t.id in approved
    ensures AllApproved(GroupFires(EvaluateAll(tasks, input).fires), approved)
  {
    hide EvaluateAll, EvaluateOne, GroupFires;
    GroupsArePerTask(tasks, input);
    var groups: seq<seq<Fire>> := GroupsOf(tasks, input);
    forall k: nat | k < |groups| && |groups[k]| > 0 ensures groups[k][|groups[k]| - 1].task.id in approved {
      var j :| 0 <= j < |tasks| && groups[k] == TaskGroup(tasks[j], input);
      FiresAreOwn(tasks[j], input);
    }
  }

  function CountLaunch(c: Counts, spawned: bool): Counts {
    if spawned then c.(fired := c.fired + 1) else c.(refused := c.refused + 1)
  }

  lemma NoStep(trace: seq<Event>)
    ensures TickWentOn(trace, trace, true)
  {}

  lemma OneStep(before: seq<Event>, after: seq<Event>, e: Event)
    requires after == before + [e] && e.ProceedTick?
    ensures TickWentOn(before, after, true)
  {}

  lemma {:induction false} GroupsAreNonEmpty(fires: seq<Fire>)
    ensures forall k :: 0 <= k < |GroupFires(fires)| ==> |GroupFires(fires)[k]| > 0
  {
    if |fires| > 0 {
      GroupsAreNonEmpty(fires[..|fires| - 1]);
      InsertKeepsNonEmpty(GroupFires(fires[..|fires| - 1]), fires[|fires| - 1]);
    }
  }

  lemma {:induction false} InsertKeepsNonEmpty(groups: seq<seq<Fire>>, f: Fire)
    requires forall k :: 0 <= k < |groups| ==> |groups[k]| > 0
    ensures forall k :: 0 <= k < |Insert(groups, f)| ==> |Insert(groups, f)[k]| > 0
  {
    if |groups| > 0 {
      InsertKeepsNonEmpty(groups[1..], f);
    }
  }

  lemma WentOnTwice(a: seq<Event>, b: seq<Event>, c: seq<Event>, ok: bool)
    requires TickWentOn(a, b, true) && TickWentOn(b, c, ok)
    ensures TickWentOn(a, c, ok)
  {
    assert forall i :: |a| <= i < |b| ==> c[i] == b[i];
  }

  /** The values of an insertion-ordered map. */
  function ValuesOf(order: seq<TaskId>, byTask: map<TaskId, seq<Fire>>): (groups: seq<seq<Fire>>)
    requires forall id :: id in order ==> id in byTask
    ensures |groups| == |order|
  {
    seq(|order|, i requires 0 <= i < |order| => byTask[order[i]])
  }

  /** The order holds each key once, and each key is the id of its group. */
  ghost predicate IsGrouped(order: seq<TaskId>, byTask: map<TaskId, seq<Fire>>) {
    && (forall id :: id in order <==> id in byTask)
    && (forall i, j :: 0 <= i < j < |order| ==> order[i] != order[j])
    && (forall id :: id in byTask ==> |byTask[id]| > 0 && GroupId(byTask[id]) == id)
  }

  lemma {:induction false} InsertAt(groups: seq<seq<Fire>>, k: nat, f: Fire)
    requires k < |groups| && GroupId(groups[k]) == f.task.id
    requires forall j :: 0 <= j < k ==> GroupId(groups[j]) != f.task.id
    ensures Insert(groups, f) == groups[k := groups[k] + [f]]
    decreases k
  {
    if k > 0 {
      InsertAt(groups[1..], k - 1, f);
    }
  }

  lemma PushIsInsert(order: seq<TaskId>, byTask: map<TaskId, seq<Fire>>, f: Fire)
    requires IsGrouped(order, byTask) && f.task.id in byTask
    ensures
      var pushed := byTask[f.task.id := byTask[f.task.id] + [f]];
      IsGrouped(order, pushed) && ValuesOf(order, pushed) == Insert(ValuesOf(order, byTask), f)
  {
    hide Insert;
    var id, groups := f.task.id, ValuesOf(order, byTask);
    var k :| 0 <= k < |order| && order[k] == id;
    InsertAt(groups, k, f);
    assert ValuesOf(order, byTask[id := byTask[id] + [f]]) == groups[k := groups[k] + [f]];
  }

  lemma StartIsInsert(order: seq<TaskId>, byTask: map<TaskId, seq<Fire>>, f: Fire)
    requires IsGrouped(order, byTask) && f.task.id !in byTask
    ensures
      var started := byTask[f.task.id := [f]];
      IsGrouped(order + [f.task.id], started)
      && ValuesOf(order + [f.task.id], started) == Insert(ValuesOf(order, byTask), f)
  {
    var id, groups := f.task.id, ValuesOf(order, byTask);
    forall k | 0 <= k < |groups| ensures GroupId(groups[k]) != id {
      assert order[k] in order;
    }
    InsertNew(groups, f);
    assert ValuesOf(order + [id], byTask[id := [f]]) == groups + [[f]];
  }

  /** The loop over the fires: queued ones are counted, the others pushed to their task's group. */
  method Group(fires: seq<Fire>) returns (groups: seq<seq<Fire>>, queued: nat)
    ensures groups == GroupFires(fires) && queued == QueuedCount(fires)
  {
    hide Insert;
    var order: seq<TaskId>, byTask: map<TaskId, seq<Fire>> := [], map[];
    queued := 0;
    var i := 0;
    while i < |fires|
      invariant i <= |fires| && IsGrouped(order, byTask)
      invariant ValuesOf(order, byTask) == GroupFires(fires[..i]) && queued == QueuedCount(fires[..i])
    {
      assert fires[..i + 1][..i] == fires[..i];
      var id := fires[i].task.id;
      if fires[i].queued {
        queued := queued + 1;
      } else if id in byTask {
        PushIsInsert(order, byTask, fires[i]);
        byTask := byTask[id := byTask[id] + [fires[i]]];
      } else {
        StartIsInsert(order, byTask, fires[i]);
        order, byTask := order + [id], byTask[id := [fires[i]]];
      }
      i := i + 1;
    }
    assert fires[..i] == fires;
    groups := ValuesOf(order, byTask);
  }
}
