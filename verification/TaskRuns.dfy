/**
 * The daemon as a state machine over values: the task store's journal and cursors
 * (packages/storage/src/task-store.ts:106-176), the in-flight map, and the steps that change them
 * (apps/cli/src/daemon.ts:481-753).
 *
 * A tick is not one step. Each of its store writes, each verdict on a launch, the entry into the in-flight
 * map and the spawn is a step of its own, and between any two of them runs may end, tasks may be edited or
 * removed, the tick may be given up because something it waited for threw, or the process may die.
 * Ticks do not overlap.
 */
module TaskRuns {
  import opened Results
  import opened Scheduler

  datatype RunStatus = WasMissed | WasSkipped | Running | Completed | Failed

  datatype Entry = Entry(taskId: TaskId, status: RunStatus, scheduledFor: int)

  datatype RunRecord = RunRecord(runId: nat, taskId: TaskId, status: RunStatus, scheduledFor: int)

  /** How far a run has come: in the in-flight map, its process started, its process ended, its end journaled. */
  datatype Phase = Entered | Spawned | Exited(ok: bool) | Noted

  datatype Flight = Flight(runId: nat, scheduledFor: int, phase: Phase)

  /** What was ever written to the journal, retention aside; a run's id is the place of its record here. */
  datatype Note = Recorded(entry: Entry) | Removed(taskId: TaskId)

  /** What an observer of the processes would note down. */
  datatype LogEntry =
    | Launched(taskId: TaskId, runId: nat, scheduledFor: int)
    | Ended(taskId: TaskId, runId: nat, ok: bool)
    | Restarted

  /** An entry still to be journaled, and how many windows it is counted for. */
  datatype Todo = Todo(entry: Entry, weight: nat)

  /** Where the launch of the current group stands, once its stale windows are journaled. */
  datatype Stage =
    | NoLaunch
    | Verifying(taskId: TaskId, at: int)
    | Committing(taskId: TaskId, at: int)
    | Entering(taskId: TaskId, at: int, runId: nat)
    | Spawning(taskId: TaskId, at: int, runId: nat)

  /** `refused` counts launches turned down by the config or trust check; the source counts them nowhere. */
  datatype Counts = Counts(fired: nat, missed: nat, skipped: nat, deferred: nat, refused: nat)

  datatype Tick =
    | Idle(outcome: Option<Counts>)
    | Ticking(todo: seq<Todo>, stage: Stage, groups: seq<seq<Fire>>, limit: nat, counts: Counts)

  datatype Host = Host(
    tasks: seq<Task>,
    runs: seq<RunRecord>,
    retention: nat,
    cursors: map<TaskId, int>,
    inFlight: map<TaskId, Flight>,
    bootAt: int,
    booting: bool,
    tick: Tick,
    history: seq<Note>,
    log: seq<LogEntry>
  )

  // ----- The store -----

  function KeepLast(runs: seq<RunRecord>, n: nat): seq<RunRecord> {
    if n == 0 || |runs| <= n then runs else runs[|runs| - n..]
  }

  function Cursor(cursors: map<TaskId, int>, id: TaskId): int {
    if id in cursors then cursors[id] else 0
  }

  function Advance(cursors: map<TaskId, int>, id: TaskId, at: int): map<TaskId, int> {
    var previous := Cursor(cursors, id);
    cursors[id := if previous < at then at else previous]
  }

  function Record(h: Host, e: Entry): Host {
    h.(runs := KeepLast(h.runs + [RunRecord(|h.history|, e.taskId, e.status, e.scheduledFor)], h.retention),
       cursors := Advance(h.cursors, e.taskId, e.scheduledFor),
       history := h.history + [Recorded(e)])
  }

  function UpdateRun(runs: seq<RunRecord>, runId: nat, status: RunStatus): seq<RunRecord> {
    seq(|runs|, i requires 0 <= i < |runs| => if runs[i].runId == runId then runs[i].(status := status) else runs[i])
  }

  /** Adds a task or replaces the one with its id; its cursor stays. */
  function Upsert(tasks: seq<Task>, t: Task): seq<Task> {
    if |tasks| == 0 then [t]
    else if tasks[0].id == t.id then [t] + tasks[1..]
    else [tasks[0]] + Upsert(tasks[1..], t)
  }

  function Without(tasks: seq<Task>, id: TaskId): seq<Task> {
    if |tasks| == 0 then []
    else (if tasks[0].id == id then [] else [tasks[0]]) + Without(tasks[1..], id)
  }

  predicate HasTask(tasks: seq<Task>, id: TaskId) {
    exists k :: 0 <= k < |tasks| && tasks[k].id == id
  }

  /** An invalid definition is refused. */
  function UpsertTask(h: Host, t: Task): Host {
    if ValidTask(t) then h.(tasks := Upsert(h.tasks, t)) else h
  }

  /** A removed task takes its cursor along. */
  function RemoveTask(h: Host, id: TaskId): Host {
    if HasTask(h.tasks, id) then
      h.(tasks := Without(h.tasks, id), cursors := h.cursors - {id}, history := h.history + [Removed(id)])
    else h
  }

  // ----- What a tick plans -----

  function GroupId(group: seq<Fire>): TaskId {
    if |group| > 0 then group[0].task.id else ""
  }

  /** Adds a fire to its task's group, or starts one at the end. */
  function Insert(groups: seq<seq<Fire>>, f: Fire): seq<seq<Fire>> {
    if |groups| == 0 then [[f]]
    else if GroupId(groups[0]) == f.task.id then [groups[0] + [f]] + groups[1..]
    else [groups[0]] + Insert(groups[1..], f)
  }

  /** The fires that need not wait, grouped by task in order of first appearance. */
  function GroupFires(fires: seq<Fire>): seq<seq<Fire>> {
    if |fires| == 0 then []
    else
      var groups, f := GroupFires(fires[..|fires| - 1]), fires[|fires| - 1];
      if f.queued then groups else Insert(groups, f)
  }

  function QueuedCount(fires: seq<Fire>): nat {
    if |fires| == 0 then 0 else QueuedCount(fires[..|fires| - 1]) + if fires[|fires| - 1].queued then 1 else 0
  }

  /** A missed entry that fires is journaled by its launch. */
  function MissedTodos(missed: seq<Missed>): seq<Todo> {
    if |missed| == 0 then []
    else
      var m := missed[0];
      (if m.fires then [] else [Todo(Entry(m.task.id, WasMissed, m.scheduledFor), m.count)]) + MissedTodos(missed[1..])
  }

  function SkippedTodos(skipped: seq<Skipped>): (todo: seq<Todo>)
    ensures |todo| == |skipped|
  {
    seq(|skipped|, i requires 0 <= i < |skipped| =>
      Todo(Entry(skipped[i].task.id, WasSkipped, skipped[i].scheduledFor), 1))
  }

  function StaleTodos(group: seq<Fire>): (todo: seq<Todo>)
    requires |group| > 0
    ensures |todo| == |group| - 1
  {
    seq(|group| - 1, i requires 0 <= i < |group| - 1 =>
      Todo(Entry(group[i].task.id, WasMissed, group[i].scheduledFor), 1))
  }

  function Input(h: Host, now: int): TickInput {
    TickInput(now, h.bootAt, h.cursors, h.inFlight.Keys)
  }

  function Plan(o: Outcome, limit: nat): Tick {
    Ticking(MissedTodos(o.missed) + SkippedTodos(o.skipped), NoLaunch, GroupFires(o.fires), limit,
            Counts(0, 0, 0, QueuedCount(o.fires), 0))
  }

  /** A tick that finds tasks disabled does nothing. */
  function Begin(h: Host, now: int, limit: nat, enabled: bool): Host {
    if h.booting || !h.tick.Idle? || !enabled then h
    else h.(tick := Plan(EvaluateAll(h.tasks, Input(h, now)), limit))
  }

  // ----- The steps of a tick -----

  function Count(c: Counts, todo: Todo): Counts {
    match todo.entry.status
    case WasMissed => c.(missed := c.missed + todo.weight)
    case WasSkipped => c.(skipped := c.skipped + todo.weight)
    case Failed => c.(refused := c.refused + todo.weight)
    case _ => c
  }

  /** Journals the next entry of the tick. */
  function WriteNext(h: Host): Host
    requires h.tick.Ticking? && |h.tick.todo| > 0
  {
    var next := h.tick.todo[0];
    Record(h, next.entry).(tick := h.tick.(todo := h.tick.todo[1..], counts := Count(h.tick.counts, next)))
  }

  /** With no free slot a group waits for a later tick; else only its latest window is to be launched. */
  function NextGroup(h: Host): Host
    requires h.tick.Ticking? && |h.tick.todo| == 0
  {
    var tick := h.tick;
    if |tick.groups| == 0 then h.(tick := Idle(Some(tick.counts)))
    else
      var g, rest := tick.groups[0], tick.groups[1..];
      if |g| == 0 then h.(tick := tick.(groups := rest))
      else if |h.inFlight| >= tick.limit then
        h.(tick := tick.(groups := rest, counts := tick.counts.(deferred := tick.counts.deferred + |g|)))
      else
        h.(tick := tick.(todo := StaleTodos(g), stage := Verifying(g[|g| - 1].task.id, g[|g| - 1].scheduledFor),
                         groups := rest))
  }

  /** The checks on config and trust come out; a refused launch is journaled as failed. */
  function Verdict(h: Host, admit: bool): Host
    requires h.tick.Ticking? && h.tick.stage.Verifying?
  {
    var id, at := h.tick.stage.taskId, h.tick.stage.at;
    if admit then h.(tick := h.tick.(stage := Committing(id, at)))
    else h.(tick := h.tick.(stage := NoLaunch, todo := [Todo(Entry(id, Failed, at), 1)]))
  }

  /** The run is journaled before anything else is done for it. */
  function Commit(h: Host): Host
    requires h.tick.Ticking? && h.tick.stage.Committing?
  {
    var id, at := h.tick.stage.taskId, h.tick.stage.at;
    Record(h, Entry(id, Running, at)).(tick := h.tick.(stage := Entering(id, at, |h.history|)))
  }

  function Enter(h: Host): Host
    requires h.tick.Ticking? && h.tick.stage.Entering?
  {
    var id, at, runId := h.tick.stage.taskId, h.tick.stage.at, h.tick.stage.runId;
    h.(inFlight := h.inFlight[id := Flight(runId, at, Entered)],
       tick := h.tick.(stage := Spawning(id, at, runId)))
  }

  function Spawn(h: Host): Host
    requires h.tick.Ticking? && h.tick.stage.Spawning?
  {
    var id, at, runId := h.tick.stage.taskId, h.tick.stage.at, h.tick.stage.runId;
    h.(inFlight := h.inFlight[id := Flight(runId, at, Spawned)],
       log := h.log + [Launched(id, runId, at)],
       tick := h.tick.(stage := NoLaunch, counts := h.tick.counts.(fired := h.tick.counts.fired + 1)))
  }

  function Proceed(h: Host, admit: bool): Host {
    if h.tick.Idle? then h
    else if |h.tick.todo| > 0 then WriteNext(h)
    else match h.tick.stage
      case NoLaunch => NextGroup(h)
      case Verifying(_, _) => Verdict(h, admit)
      case Committing(_, _) => Commit(h)
      case Entering(_, _, _) => Enter(h)
      case Spawning(_, _, _) => Spawn(h)
  }

  /**
   * Something the tick waited for threw. There is nothing to wait for between the write of a running
   * record and the spawn.
   */
  function Abandon(h: Host): Host {
    if h.tick.Ticking? && !h.tick.stage.Entering? && !h.tick.stage.Spawning? then h.(tick := Idle(None)) else h
  }

  // ----- Runs that end -----

  function SetPhase(h: Host, id: TaskId, phase: Phase): Host
    requires id in h.inFlight
  {
    h.(inFlight := h.inFlight[id := h.inFlight[id].(phase := phase)])
  }

  function Exit(h: Host, id: TaskId, ok: bool): Host {
    if id in h.inFlight && h.inFlight[id].phase.Spawned? then
      SetPhase(h, id, Exited(ok)).(log := h.log + [Ended(id, h.inFlight[id].runId, ok)])
    else h
  }

  function NoteEnd(h: Host, id: TaskId): Host {
    if id in h.inFlight && h.inFlight[id].phase.Exited? then
      SetPhase(h, id, Noted).(
        runs := UpdateRun(h.runs, h.inFlight[id].runId, if h.inFlight[id].phase.ok then Completed else Failed))
    else h
  }

  function Leave(h: Host, id: TaskId): Host {
    if id in h.inFlight && h.inFlight[id].phase.Noted? then h.(inFlight := h.inFlight - {id}) else h
  }

  // ----- Crashes -----

  /** The process dies, its runs with it, and a new one starts to boot. */
  function Restart(h: Host, now: int): Host {
    h.(inFlight := map[], bootAt := now, booting := true, tick := Idle(None), log := h.log + [Restarted])
  }

  /** Where the first record still called running is. */
  function FirstRunning(runs: seq<RunRecord>): (i: nat)
    ensures i <= |runs| && (forall j :: 0 <= j < i ==> !runs[j].status.Running?)
    ensures i < |runs| ==> runs[i].status.Running?
  {
    if |runs| == 0 || runs[0].status.Running? then 0 else 1 + FirstRunning(runs[1..])
  }

  /** Booting fails one record left running, or is over. */
  function Recover(h: Host): Host {
    if !h.booting then h
    else
      var i := FirstRunning(h.runs);
      if i == |h.runs| then h.(booting := false)
      else h.(runs := UpdateRun(h.runs, h.runs[i].runId, Failed))
  }

  // ----- Runs of the machine -----

  datatype Event =
    | BeginTick(now: int, limit: nat, enabled: bool)
    | ProceedTick(admit: bool)
    | AbandonTick
    | RunExits(taskId: TaskId, ok: bool)
    | EndIsNoted(taskId: TaskId)
    | RunLeaves(taskId: TaskId)
    | ProcessRestarts(now: int)
    | BootProceeds
    | TaskUpserted(task: Task)
    | TaskRemoved(taskId: TaskId)

  function Step(h: Host, e: Event): Host {
    match e
    case BeginTick(now, limit, enabled) => Begin(h, now, limit, enabled)
    case ProceedTick(admit) => Proceed(h, admit)
    case AbandonTick => Abandon(h)
    case RunExits(id, ok) => Exit(h, id, ok)
    case EndIsNoted(id) => NoteEnd(h, id)
    case RunLeaves(id) => Leave(h, id)
    case ProcessRestarts(now) => Restart(h, now)
    case BootProceeds => Recover(h)
    case TaskUpserted(t) => UpsertTask(h, t)
    case TaskRemoved(id) => RemoveTask(h, id)
  }

  function Run(h: Host, events: seq<Event>): Host {
    if |events| == 0 then h else Step(Run(h, events[..|events| - 1]), events[|events| - 1])
  }

  function InitialHost(bootAt: int, retention: nat): Host {
    Host([], [], retention, map[], map[], bootAt, false, Idle(None), [], [])
  }
}
