/** What the stored journal says of a run is what became of it, and the journal holds the latest records. */
module TaskJournal {
  import opened Scheduler
  import opened TaskRuns
  import opened TaskSafety
  import opened TaskTicks

  // ----- What became of a run -----

  ghost predicate LaunchSeen(log: seq<LogEntry>, id: TaskId, runId: nat) {
    exists i :: 0 <= i < |log| && log[i].Launched? && log[i].taskId == id && log[i].runId == runId
  }

  ghost predicate EndSeen(log: seq<LogEntry>, id: TaskId, runId: nat, ok: bool) {
    Ended(id, runId, ok) in log
  }

  /** The process died, and the run was not launched after that. */
  ghost predicate CutOff(log: seq<LogEntry>, runId: nat) {
    exists j :: 0 <= j < |log| && log[j].Restarted?
      && forall l :: j <= l < |log| && log[l].Launched? ==> log[l].runId != runId
  }

  /**
   * A record written with a final status keeps it. One written as running says so still, or that its run ended well
   * and did, or that it failed: then it ended badly, or the process died under it.
   */
  ghost predicate RecordIsTrue(r: RunRecord, history: seq<Note>, log: seq<LogEntry>) {
    && r.runId < |history| && history[r.runId].Recorded?
    && if !history[r.runId].entry.status.Running? then r.status == history[r.runId].entry.status
       else match r.status
         case Running => true
         case Completed => EndSeen(log, r.taskId, r.runId, true)
         case Failed => EndSeen(log, r.taskId, r.runId, false) || CutOff(log, r.runId)
         case _ => false
  }

  ghost predicate RecordsAreTrue(h: Host) {
    forall i :: 0 <= i < |h.runs| ==> RecordIsTrue(h.runs[i], h.history, h.log)
  }

  /** Every record of the run has this status. */
  ghost predicate RecordedAs(runs: seq<RunRecord>, runId: nat, status: RunStatus) {
    forall i :: 0 <= i < |runs| && runs[i].runId == runId ==> runs[i].status == status
  }

  function FinalStatus(ok: bool): RunStatus {
    if ok then Completed else Failed
  }

  ghost predicate AwaitsNote(inFlight: map<TaskId, Flight>, id: TaskId, runId: nat, ok: bool) {
    id in inFlight && inFlight[id].runId == runId && inFlight[id].phase == Exited(ok)
  }

  ghost predicate DiedAfter(log: seq<LogEntry>, i: nat) {
    exists j :: i < j < |log| && log[j].Restarted?
  }

  /** A run that ended was launched, and unless the process dies its end is to be noted or stands in the journal. */
  ghost predicate EndIsKept(h: Host, i: nat)
    requires i < |h.log| && h.log[i].Ended?
  {
    var e := h.log[i];
    && LaunchSeen(h.log, e.taskId, e.runId)
    && (e.taskId in h.inFlight && h.inFlight[e.taskId].runId == e.runId ==>
          h.inFlight[e.taskId].phase == Exited(e.ok) || h.inFlight[e.taskId].phase.Noted?)
    && (DiedAfter(h.log, i) || AwaitsNote(h.inFlight, e.taskId, e.runId, e.ok)
        || RecordedAs(h.runs, e.runId, FinalStatus(e.ok)))
  }

  ghost predicate EndsAreKept(h: Host) {
    forall i :: 0 <= i < |h.log| && h.log[i].Ended? ==> EndIsKept(h, i)
  }

  ghost predicate FlightsAreSeen(inFlight: map<TaskId, Flight>, log: seq<LogEntry>) {
    forall id :: id in inFlight ==>
      && (!inFlight[id].phase.Entered? ==> LaunchSeen(log, id, inFlight[id].runId))
      && (inFlight[id].phase.Exited? ==> EndSeen(log, id, inFlight[id].runId, inFlight[id].phase.ok))
  }

  /** While booting nothing has been launched since the process died. */
  ghost predicate BootIsFresh(h: Host) {
    h.booting ==>
      exists j :: 0 <= j < |h.log| && h.log[j].Restarted? && forall l :: j <= l < |h.log| ==> !h.log[l].Launched?
  }

  /** The record of a run about to be launched says running. */
  ghost predicate StageIsRunning(h: Host) {
    h.tick.Ticking? && (h.tick.stage.Entering? || h.tick.stage.Spawning?) ==>
      RecordedAs(h.runs, h.tick.stage.runId, Running)
  }

  ghost predicate JournalIsTrue(h: Host) {
    && RecordsAreTrue(h)
    && EndsAreKept(h)
    && FlightsAreSeen(h.inFlight, h.log)
    && BootIsFresh(h)
    && StageIsRunning(h)
  }

  // ----- Each step keeps it -----

  lemma LaunchIsJournaled(h: Host, id: TaskId, runId: nat)
    requires JournalInv(h) && LaunchSeen(h.log, id, runId)
    ensures runId < |h.history| && h.history[runId].Recorded? && h.history[runId].entry.taskId == id
  {
    var i :| 0 <= i < |h.log| && h.log[i].Launched? && h.log[i].taskId == id && h.log[i].runId == runId;
    assert IsRecorded(h.history, h.log[i].runId, Entry(h.log[i].taskId, Running, h.log[i].scheduledFor));
  }

  /** Nothing but the tick's plan, the tasks or the cursors changes, or a removal is noted. */
  lemma OthersKeepTruth(h: Host, g: Host)
    requires JournalIsTrue(h)
    requires g.runs == h.runs && g.inFlight == h.inFlight && g.log == h.log && (g.booting ==> h.booting)
    requires h.history <= g.history
    requires g.tick.Ticking? && (g.tick.stage.Entering? || g.tick.stage.Spawning?) ==> g.tick == h.tick
    ensures JournalIsTrue(g)
  {
    assert forall i :: 0 <= i < |h.history| ==> g.history[i] == h.history[i];
    forall i | 0 <= i < |g.runs| ensures RecordIsTrue(g.runs[i], g.history, g.log) {
      assert RecordIsTrue(h.runs[i], h.history, h.log);
    }
    forall i | 0 <= i < |g.log| && g.log[i].Ended? ensures EndIsKept(g, i) {
      assert EndIsKept(h, i);
    }
  }

  lemma RecordKeepsTruth(h: Host, e: Entry, tick: Tick)
    requires JournalInv(h) && JournalIsTrue(h)
    requires tick.Ticking? && (tick.stage.Entering? || tick.stage.Spawning?) ==>
      tick.stage.runId == |h.history| && e.status.Running?
    ensures JournalIsTrue(Record(h, e).(tick := tick))
  {
    var g := Record(h, e).(tick := tick);
    var r := RunRecord(|h.history|, e.taskId, e.status, e.scheduledFor);
    forall i | 0 <= i < |g.runs| ensures g.runs[i] == r || g.runs[i] in h.runs {}
    forall i | 0 <= i < |g.runs| ensures RecordIsTrue(g.runs[i], g.history, g.log) {
      if g.runs[i] != r {
        var k :| 0 <= k < |h.runs| && h.runs[k] == g.runs[i];
        assert RecordIsTrue(h.runs[k], h.history, h.log);
      }
    }
    forall i | 0 <= i < |g.log| && g.log[i].Ended? ensures EndIsKept(g, i) {
      assert EndIsKept(h, i);
      LaunchIsJournaled(h, h.log[i].taskId, h.log[i].runId);
    }
    assert forall j :: 0 <= j < |h.runs| ==> IsRecordOf(h.runs[j], h.history);
    assert forall k :: 0 <= k < |g.runs| && g.runs[k] in h.runs ==> g.runs[k].runId != |h.history|;
  }

  lemma NoEndBeforeLaunch(h: Host, runId: nat, i: nat)
    requires LaunchedBefore(h.log, runId) && EndsAreKept(h) && i < |h.log| && h.log[i].Ended?
    ensures h.log[i].runId != runId
  {
    assert EndIsKept(h, i);
  }

  lemma EnterKeepsTruth(h: Host)
    requires Inv(h) && JournalIsTrue(h) && h.tick.Ticking? && h.tick.stage.Entering?
    ensures JournalIsTrue(Enter(h))
  {
    assert FlightInv(h);
    var g := Enter(h);
    forall i | 0 <= i < |g.log| && g.log[i].Ended? ensures EndIsKept(g, i) {
      assert EndIsKept(h, i);
      NoEndBeforeLaunch(h, h.tick.stage.runId, i);
    }
  }

  lemma SpawnKeepsTruth(h: Host)
    requires Inv(h) && JournalIsTrue(h) && h.tick.Ticking? && h.tick.stage.Spawning?
    ensures JournalIsTrue(Spawn(h))
  {
    assert FlightInv(h);
    var g, id, runId := Spawn(h), h.tick.stage.taskId, h.tick.stage.runId;
    assert g.log[|h.log|] == Launched(id, runId, h.tick.stage.at);
    LogGrows(h.log, g.log);
    forall i | 0 <= i < |g.runs| ensures RecordIsTrue(g.runs[i], g.history, g.log) {
      assert RecordIsTrue(h.runs[i], h.history, h.log);
      if CutOff(h.log, g.runs[i].runId) && g.runs[i].runId != runId {
        CutOffLasts(h.log, g.log[|h.log|], g.runs[i].runId);
      }
    }
    forall i | 0 <= i < |g.log| && g.log[i].Ended? ensures EndIsKept(g, i) {
      assert EndIsKept(h, i);
      NoEndBeforeLaunch(h, runId, i);
    }
  }

  lemma LogGrows(log: seq<LogEntry>, more: seq<LogEntry>)
    requires log <= more
    ensures forall id, runId :: LaunchSeen(log, id, runId) ==> LaunchSeen(more, id, runId)
    ensures forall id, runId, ok :: EndSeen(log, id, runId, ok) ==> EndSeen(more, id, runId, ok)
    ensures forall i: nat :: DiedAfter(log, i) ==> DiedAfter(more, i)
  {
    assert forall i :: 0 <= i < |log| ==> more[i] == log[i];
  }

  lemma CutOffLasts(log: seq<LogEntry>, e: LogEntry, runId: nat)
    requires CutOff(log, runId) && (e.Launched? ==> e.runId != runId)
    ensures CutOff(log + [e], runId)
  {
    var j :| 0 <= j < |log| && log[j].Restarted?
      && forall l :: j <= l < |log| && log[l].Launched? ==> log[l].runId != runId;
    assert (log + [e])[j] == log[j];
  }

  /** A log entry that is no launch leaves true what is said of records. */
  lemma RecordsStayTrue(h: Host, e: LogEntry)
    requires RecordsAreTrue(h) && !e.Launched?
    ensures RecordsAreTrue(h.(log := h.log + [e]))
  {
    LogGrows(h.log, h.log + [e]);
    forall i | 0 <= i < |h.runs| ensures RecordIsTrue(h.runs[i], h.history, h.log + [e]) {
      assert RecordIsTrue(h.runs[i], h.history, h.log);
      if CutOff(h.log, h.runs[i].runId) {
        CutOffLasts(h.log, e, h.runs[i].runId);
      }
    }
  }

  lemma ExitKeepsEnds(h: Host, id: TaskId, ok: bool)
    requires EndsAreKept(h) && FlightsAreSeen(h.inFlight, h.log)
    requires id in h.inFlight && h.inFlight[id].phase.Spawned?
    ensures EndsAreKept(Exit(h, id, ok))
  {
    var g := Exit(h, id, ok);
    LogGrows(h.log, g.log);
    hide LaunchSeen, EndSeen, DiedAfter, RecordedAs;
    assert g.log[|h.log|] == Ended(id, h.inFlight[id].runId, ok);
    forall i | 0 <= i < |g.log| && g.log[i].Ended? ensures EndIsKept(g, i) {
      if i < |h.log| {
        assert g.log[i] == h.log[i] && EndIsKept(h, i);
      }
    }
  }

  lemma FlightStaysSeen(h: Host, id: TaskId, ok: bool)
    requires FlightsAreSeen(h.inFlight, h.log) && id in h.inFlight && h.inFlight[id].phase.Spawned?
    ensures FlightsAreSeen(Exit(h, id, ok).inFlight, Exit(h, id, ok).log)
  {
    var g := Exit(h, id, ok);
    LogGrows(h.log, g.log);
    assert g.log[|h.log|] == Ended(id, h.inFlight[id].runId, ok);
    hide LaunchSeen;
  }

  lemma ExitKeepsTruth(h: Host, id: TaskId, ok: bool)
    requires JournalIsTrue(h)
    ensures JournalIsTrue(Exit(h, id, ok))
  {
    if id in h.inFlight && h.inFlight[id].phase.Spawned? {
      RecordsStayTrue(h, Ended(id, h.inFlight[id].runId, ok));
      ExitKeepsEnds(h, id, ok);
      FlightStaysSeen(h, id, ok);
      hide RecordsAreTrue, EndsAreKept, FlightsAreSeen;
      BootStaysFresh(h, Ended(id, h.inFlight[id].runId, ok));
    }
  }

  lemma BootStaysFresh(h: Host, e: LogEntry)
    requires BootIsFresh(h) && !e.Launched?
    ensures BootIsFresh(h.(log := h.log + [e]))
  {
    if h.booting {
      var j :| 0 <= j < |h.log| && h.log[j].Restarted? && forall l :: j <= l < |h.log| ==> !h.log[l].Launched?;
      assert (h.log + [e])[j].Restarted?;
    }
  }

  lemma UpdateIs(runs: seq<RunRecord>, runId: nat, status: RunStatus)
    ensures RecordedAs(UpdateRun(runs, runId, status), runId, status)
    ensures forall other, s :: other != runId && RecordedAs(runs, other, s) ==>
      RecordedAs(UpdateRun(runs, runId, status), other, s)
  {
    forall other, s | other != runId && RecordedAs(runs, other, s)
      ensures RecordedAs(UpdateRun(runs, runId, status), other, s)
    {
      forall i | 0 <= i < |runs| && UpdateRun(runs, runId, status)[i].runId == other
        ensures UpdateRun(runs, runId, status)[i].status == s
      {
        assert runs[i].runId == other;
      }
    }
  }

  lemma NoteKeepsRecords(h: Host, id: TaskId)
    requires Inv(h) && JournalIsTrue(h) && id in h.inFlight && h.inFlight[id].phase.Exited?
    ensures RecordsAreTrue(NoteEnd(h, id))
  {
    assert FlightInv(h) && JournalInv(h);
    hide TickInv, StageOk, EnteredOk, OpenOk, RunningOk, LogOk, CutOff, EndSeen, EndsAreKept;
    var g := NoteEnd(h, id);
    forall i | 0 <= i < |g.runs| ensures RecordIsTrue(g.runs[i], g.history, g.log) {
      assert RecordIsTrue(h.runs[i], h.history, h.log) && IsRecordOf(h.runs[i], h.history);
    }
  }

  lemma NoteKeepsEnd(h: Host, id: TaskId, i: nat)
    requires JournalInv(h) && FlightsOk(h.inFlight, h.history)
    requires id in h.inFlight && h.inFlight[id].phase.Exited?
    requires i < |h.log| && h.log[i].Ended? && EndIsKept(h, i)
    ensures EndIsKept(NoteEnd(h, id), i)
  {
    LaunchIsJournaled(h, h.log[i].taskId, h.log[i].runId);
    assert IsRecorded(h.history, h.inFlight[id].runId, Entry(id, Running, h.inFlight[id].scheduledFor));
    hide JournalInv, FlightsOk, DiedAfter, LaunchSeen, RecordedAs, UpdateRun;
    UpdateIs(h.runs, h.inFlight[id].runId, FinalStatus(h.inFlight[id].phase.ok));
  }

  lemma NoteKeepsEnds(h: Host, id: TaskId)
    requires Inv(h) && JournalIsTrue(h) && id in h.inFlight && h.inFlight[id].phase.Exited?
    ensures EndsAreKept(NoteEnd(h, id))
  {
    assert FlightInv(h) && JournalInv(h);
    hide Inv, EndIsKept, RecordsAreTrue, JournalInv, FlightsOk;
    var g := NoteEnd(h, id);
    forall i | 0 <= i < |g.log| && g.log[i].Ended? ensures EndIsKept(g, i) {
      assert EndIsKept(h, i);
      NoteKeepsEnd(h, id, i);
    }
  }

  lemma NoteKeepsStage(h: Host, id: TaskId)
    requires Inv(h) && JournalIsTrue(h) && id in h.inFlight && h.inFlight[id].phase.Exited?
    ensures StageIsRunning(NoteEnd(h, id))
  {
    assert FlightInv(h);
    hide TickInv, JournalInv, EnteredOk, OpenOk, RunningOk, LaunchedBefore, EndsAreKept, RecordsAreTrue, UpdateRun,
         RecordedAs;
    UpdateIs(h.runs, h.inFlight[id].runId, FinalStatus(h.inFlight[id].phase.ok));
    if h.tick.Ticking? && (h.tick.stage.Entering? || h.tick.stage.Spawning?) {
      assert h.tick.stage.runId != h.inFlight[id].runId;
    }
  }

  lemma NoteEndKeepsTruth(h: Host, id: TaskId)
    requires Inv(h) && JournalIsTrue(h)
    ensures JournalIsTrue(NoteEnd(h, id))
  {
    hide Inv, EndsAreKept, RecordsAreTrue, StageIsRunning, UpdateRun;
    if id in h.inFlight && h.inFlight[id].phase.Exited? {
      NoteKeepsRecords(h, id);
      NoteKeepsEnds(h, id);
      NoteKeepsStage(h, id);
    }
  }

  lemma LeaveKeepsTruth(h: Host, id: TaskId)
    requires JournalIsTrue(h)
    ensures JournalIsTrue(Leave(h, id))
  {
    var g := Leave(h, id);
    forall i | 0 <= i < |g.log| && g.log[i].Ended? ensures EndIsKept(g, i) {
      assert EndIsKept(h, i);
    }
  }

  lemma RestartKeepsTruth(h: Host, now: int)
    requires JournalIsTrue(h)
    ensures JournalIsTrue(Restart(h, now))
  {
    var g := Restart(h, now);
    RecordsStayTrue(h, Restarted);
    LogGrows(h.log, g.log);
    assert g.log[|h.log|].Restarted?;
    forall i | 0 <= i < |g.log| && g.log[i].Ended? ensures EndIsKept(g, i) {
      assert EndIsKept(h, i);
      assert DiedAfter(g.log, i);
    }
  }

  lemma RecoverKeepsTruth(h: Host)
    requires Inv(h) && JournalIsTrue(h)
    ensures JournalIsTrue(Recover(h))
  {
    assert FlightInv(h) && JournalInv(h);
    var g := Recover(h);
    var k := FirstRunning(h.runs);
    if h.booting && k < |h.runs| {
      var runId := h.runs[k].runId;
      UpdateIs(h.runs, runId, Failed);
      assert RecordIsTrue(h.runs[k], h.history, h.log);
      assert CutOff(h.log, runId);
      forall i | 0 <= i < |g.runs| ensures RecordIsTrue(g.runs[i], g.history, g.log) {
        assert RecordIsTrue(h.runs[i], h.history, h.log);
      }
      forall i | 0 <= i < |g.log| && g.log[i].Ended? ensures EndIsKept(g, i) {
        assert EndIsKept(h, i);
      }
    } else {
      OthersKeepTruth(h, g);
    }
  }

  lemma WriteKeepsTruth(h: Host)
    requires JournalInv(h) && TodoOk(h.tick) && StageOk(h.tick, h.inFlight, h.history, h.log) && JournalIsTrue(h)
    requires h.tick.Ticking? && |h.tick.todo| > 0
    ensures JournalIsTrue(WriteNext(h))
  {
    hide JournalInv, JournalIsTrue, KeepLast, Advance, LaunchedBefore, IsRecorded;
    RecordKeepsTruth(h, h.tick.todo[0].entry, WriteNext(h).tick);
  }

  lemma CommitKeepsTruth(h: Host)
    requires JournalInv(h) && JournalIsTrue(h) && h.tick.Ticking? && h.tick.stage.Committing?
    ensures JournalIsTrue(Commit(h))
  {
    hide JournalInv, JournalIsTrue, KeepLast, Advance;
    RecordKeepsTruth(h, Entry(h.tick.stage.taskId, Running, h.tick.stage.at), Commit(h).tick);
  }

  lemma GateKeepsTruth(h: Host, admit: bool)
    requires JournalIsTrue(h) && h.tick.Ticking? && |h.tick.todo| == 0
    ensures h.tick.stage.NoLaunch? ==> JournalIsTrue(NextGroup(h))
    ensures h.tick.stage.Verifying? ==> JournalIsTrue(Verdict(h, admit))
  {
    hide JournalIsTrue, StaleTodos;
    if h.tick.stage.NoLaunch? {
      OthersKeepTruth(h, NextGroup(h));
    } else if h.tick.stage.Verifying? {
      OthersKeepTruth(h, Verdict(h, admit));
    }
  }

  lemma ProceedKeepsTruth(h: Host, admit: bool)
    requires Inv(h) && JournalIsTrue(h)
    ensures JournalIsTrue(Proceed(h, admit))
  {
    assert FlightInv(h) && JournalInv(h) && TickInv(h);
    hide Inv, JournalInv, JournalIsTrue, WriteNext, NextGroup, Verdict, Commit, Enter, Spawn, StageOk, TodoOk;
    if h.tick.Ticking? {
      if |h.tick.todo| > 0 {
        WriteKeepsTruth(h);
      } else {
        GateKeepsTruth(h, admit);
        match h.tick.stage
        case Committing(_, _) => CommitKeepsTruth(h);
        case Entering(_, _, _) => EnterKeepsTruth(h);
        case Spawning(_, _, _) => SpawnKeepsTruth(h);
        case _ =>
      }
    }
  }

  lemma StepKeepsTruth(h: Host, e: Event)
    requires Inv(h) && JournalIsTrue(h)
    ensures JournalIsTrue(Step(h, e))
  {
    hide Inv, JournalIsTrue, Proceed, Exit, NoteEnd, Leave, Restart, Recover, EvaluateAll, Upsert, Without, ValidTask;
    match e
    case ProceedTick(admit) => ProceedKeepsTruth(h, admit);
    case RunExits(id, ok) => ExitKeepsTruth(h, id, ok);
    case EndIsNoted(id) => NoteEndKeepsTruth(h, id);
    case RunLeaves(id) => LeaveKeepsTruth(h, id);
    case ProcessRestarts(now) => RestartKeepsTruth(h, now);
    case BootProceeds => RecoverKeepsTruth(h);
    case _ => OthersKeepTruth(h, Step(h, e));
  }

  lemma {:induction false} RunKeepsTruth(h: Host, events: seq<Event>)
    requires Inv(h) && JournalIsTrue(h)
    ensures JournalIsTrue(Run(h, events))
  {
    hide Inv, JournalIsTrue, Step;
    if |events| > 0 {
      var front := events[..|events| - 1];
      RunKeepsTruth(h, front);
      RunKeepsInv(h, front);
      StepKeepsTruth(Run(h, front), events[|events| - 1]);
    }
  }

  /** In every run of the machine the journal tells what became of each run. */
  lemma JournalTellsTheTruth(bootAt: int, retention: nat, events: seq<Event>)
    ensures
      var h := Run(InitialHost(bootAt, retention), events);
      && RecordsAreTrue(h)
      && forall i :: 0 <= i < |h.log| && h.log[i].Ended? ==>
           || DiedAfter(h.log, i)
           || AwaitsNote(h.inFlight, h.log[i].taskId, h.log[i].runId, h.log[i].ok)
           || RecordedAs(h.runs, h.log[i].runId, FinalStatus(h.log[i].ok))
  {
    hide Run, RecordsAreTrue, Inv;
    InitialInv(bootAt, retention);
    NothingToTell(bootAt, retention);
    RunKeepsTruth(InitialHost(bootAt, retention), events);
    var h := Run(InitialHost(bootAt, retention), events);
    forall i | 0 <= i < |h.log| && h.log[i].Ended? ensures EndIsKept(h, i) {}
  }

  lemma NothingToTell(bootAt: int, retention: nat)
    ensures JournalIsTrue(InitialHost(bootAt, retention))
  {}

  // ----- What the journal holds -----

  /** The places of the records in the history. */
  ghost function RecordedIds(history: seq<Note>): seq<nat> {
    if |history| == 0 then []
    else
      var n := |history| - 1;
      RecordedIds(history[..n]) + if history[n].Recorded? then [n] else []
  }

  ghost function IdsOf(runs: seq<RunRecord>): seq<nat> {
    seq(|runs|, i requires 0 <= i < |runs| => runs[i].runId)
  }

  /** The journal holds the latest records of its history, as many as it is to retain, or all of them. */
  ghost predicate HoldsLatest(h: Host) {
    var ids := RecordedIds(h.history);
    IdsOf(h.runs) == if h.retention > 0 && |ids| > h.retention then ids[|ids| - h.retention..] else ids
  }

  /** A step leaves the history and the ids in the journal alone, notes a removal, or records one run. */
  ghost predicate Records(h: Host, g: Host) {
    && g.retention == h.retention
    && (|| (g.history == h.history && IdsOf(g.runs) == IdsOf(h.runs))
        || (g.runs == h.runs && exists id :: g.history == h.history + [Removed(id)])
        || exists e :: RecordsOne(h, g, e))
  }

  ghost predicate RecordsOne(h: Host, g: Host, e: Entry) {
    && g.history == h.history + [Recorded(e)]
    && g.runs == KeepLast(h.runs + [RunRecord(|h.history|, e.taskId, e.status, e.scheduledFor)], h.retention)
  }

  lemma ProceedRecords(h: Host, admit: bool)
    ensures Records(h, Proceed(h, admit))
  {
    hide StaleTodos, Advance, KeepLast, Count;
    var g := Proceed(h, admit);
    if h.tick.Ticking? && |h.tick.todo| > 0 {
      assert RecordsOne(h, g, h.tick.todo[0].entry);
    } else if h.tick.Ticking? && h.tick.stage.Committing? {
      assert RecordsOne(h, g, Entry(h.tick.stage.taskId, Running, h.tick.stage.at));
    }
  }

  lemma StepRecords(h: Host, e: Event)
    ensures Records(h, Step(h, e))
  {
    hide EvaluateAll, Upsert, Without, ValidTask, HasTask, Proceed, FirstRunning, Plan;
    var g := Step(h, e);
    if e.ProceedTick? {
      ProceedRecords(h, e.admit);
    } else if e.BootProceeds? || e.EndIsNoted? {
      assert g.history == h.history && IdsOf(g.runs) == IdsOf(h.runs);
    }
  }

  lemma StepHoldsLatest(h: Host, e: Event)
    requires HoldsLatest(h)
    ensures HoldsLatest(Step(h, e)) && Step(h, e).retention == h.retention
  {
    hide Step, RecordedIds;
    StepRecords(h, e);
    var g := Step(h, e);
    if g.history != h.history {
      assert g.history[..|h.history|] == h.history && |g.history| == |h.history| + 1;
      IdsSnoc(g.history);
    }
  }

  lemma IdsSnoc(history: seq<Note>)
    requires |history| > 0
    ensures
      var n := |history| - 1;
      RecordedIds(history) == RecordedIds(history[..n]) + if history[n].Recorded? then [n] else []
  {}

  lemma {:induction false} StoreKeepsTheLatest(bootAt: int, retention: nat, events: seq<Event>)
    ensures
      var h := Run(InitialHost(bootAt, retention), events);
      HoldsLatest(h) && h.retention == retention
  {
    hide Step, HoldsLatest;
    if |events| == 0 {
      NothingHeld(bootAt, retention);
    } else {
      var front := events[..|events| - 1];
      StoreKeepsTheLatest(bootAt, retention, front);
      StepHoldsLatest(Run(InitialHost(bootAt, retention), front), events[|events| - 1]);
    }
  }

  lemma NothingHeld(bootAt: int, retention: nat)
    ensures HoldsLatest(InitialHost(bootAt, retention))
  {}
}
