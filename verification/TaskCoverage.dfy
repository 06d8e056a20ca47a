/** Over whole runs of the daemon, crashes included, no window of a task is ever passed over. */
module TaskCoverage {
  import opened Scheduler
  import opened TaskRuns
  import opened TaskSafety
  import opened TaskTicks
  import opened TaskAccounting

  // ----- The chain of windows behind an anchor -----

  /** Reached from the anchor by enumerating windows. */
  ghost predicate OnChain(t: Task, anchor: int, at: int) {
    at == anchor || exists now, n: nat :: at in Windows(t, anchor, now, n)
  }

  /** A window beyond a point of the chain is a window of the chain from there. */
  lemma ChainFrom(t: Task, anchor: int, mid: int, now: int, n: nat, w: int) returns (now': int, n': nat)
    requires ValidTask(t) && OnChain(t, anchor, mid) && w in Windows(t, anchor, now, n) && w > mid
    ensures w in Windows(t, mid, now', n')
  {
    hide Windows, ValidTask;
    if mid == anchor {
      return now, n;
    }
    var now1, n1: nat :| mid in Windows(t, anchor, now1, n1);
    now', n' := if now < now1 then now1 else now, if n < n1 then n1 else n;
    var all := Windows(t, anchor, now', n');
    WindowsGrow(t, anchor, now, now', n, n');
    WindowsGrow(t, anchor, now1, now', n1, n');
    WindowsAscend(t, anchor, now', n');
    var i :| 0 <= i < |all| && all[i] == mid;
    var j :| 0 <= j < |all| && all[j] == w;
    assert i < j;
    WindowsResume(t, anchor, now', n', i + 1);
    assert all[i + 1..][j - i - 1] == w;
    n' := n' - (i + 1);
  }

  lemma ChainsJoin(t: Task, anchor: int, mid: int, at: int)
    requires ValidTask(t) && OnChain(t, anchor, mid) && OnChain(t, mid, at)
    ensures OnChain(t, anchor, at)
  {
    hide Windows, ValidTask;
    if mid != anchor && at != mid {
      var now1, n1: nat :| mid in Windows(t, anchor, now1, n1);
      var now2, n2: nat :| at in Windows(t, mid, now2, n2);
      var now := if now1 < now2 then now2 else now1;
      var all := Windows(t, anchor, now, n1 + n2);
      WindowsGrow(t, anchor, now1, now, n1, n1 + n2);
      WindowsAscend(t, anchor, now1, n1);
      WindowsAscend(t, anchor, now, n1 + n2);
      var i :| 0 <= i < |Windows(t, anchor, now1, n1)| && Windows(t, anchor, now1, n1)[i] == mid;
      assert all[i] == mid;
      WindowsResume(t, anchor, now, n1 + n2, i + 1);
      WindowsGrow(t, mid, now2, now, n2, n1 + n2 - (i + 1));
      assert at in all[i + 1..];
      assert at in all;
    }
  }

  /** An enumeration misses no window of the chain up to its last. */
  lemma ListedUpTo(t: Task, anchor: int, now: int, n: nat, w: int, now': int, n': nat, last: int)
    requires ValidTask(t) && w in Windows(t, anchor, now', n') && last in Windows(t, anchor, now, n) && w <= last
    ensures w in Windows(t, anchor, now, n)
  {
    hide Windows, ValidTask;
    var now2, n2: nat := if now < now' then now' else now, if n < n' then n' else n;
    var ws, all := Windows(t, anchor, now, n), Windows(t, anchor, now2, n2);
    WindowsGrow(t, anchor, now, now2, n, n2);
    WindowsGrow(t, anchor, now', now2, n', n2);
    WindowsAscend(t, anchor, now2, n2);
    var i :| 0 <= i < |ws| && ws[i] == last;
    var j :| 0 <= j < |all| && all[j] == w;
    assert all[i] == last;
    assert j <= i;
    assert ws[j] == w;
  }

  // ----- Runs in two parts -----

  lemma {:induction false} RunSplit(h: Host, a: seq<Event>, b: seq<Event>)
    ensures Run(h, a + b) == Run(Run(h, a), b)
    decreases |b|
  {
    hide Step;
    if |b| == 0 {
      assert a + b == a;
    } else {
      assert (a + b)[..|a + b| - 1] == a + b[..|b| - 1];
      RunSplit(h, a, b[..|b| - 1]);
    }
  }

  lemma ProceedGrowsHistory(h: Host, admit: bool)
    ensures h.history <= Proceed(h, admit).history
  {
    hide KeepLast, Advance, StaleTodos;
  }

  lemma StepGrowsHistory(h: Host, e: Event)
    ensures h.history <= Step(h, e).history
  {
    if e.ProceedTick? {
      ProceedGrowsHistory(h, e.admit);
    }
    hide Proceed;
    hide EvaluateAll, KeepLast, Advance, UpdateRun, Upsert, Without, FirstRunning, ValidTask, HasTask, Plan, StaleTodos;
  }

  lemma {:induction false} RunGrowsHistory(h: Host, events: seq<Event>)
    ensures h.history <= Run(h, events).history
  {
    hide Step;
    if |events| > 0 {
      RunGrowsHistory(h, events[..|events| - 1]);
      StepGrowsHistory(Run(h, events[..|events| - 1]), events[|events| - 1]);
    }
  }

  lemma {:induction false} DoneSplit(a: seq<Note>, b: seq<Note>, id: TaskId)
    ensures DoneAts(a + b, id) == DoneAts(a, id) + DoneAts(b, id)
    decreases |b|
  {
    if |b| == 0 {
      assert a + b == a;
      assert DoneAts(a, id) + [] == DoneAts(a, id);
    } else {
      assert (a + b)[..|a + b| - 1] == a + b[..|b| - 1];
      DoneSplit(a, b[..|b| - 1], id);
    }
  }

  /** What was journaled since the first host is what was journaled up to the second and since it. */
  lemma DoneInTwoParts(h: Host, mid: Host, g: Host, id: TaskId)
    requires h.history <= mid.history <= g.history
    ensures DoneSince(g, |h.history|, id) == DoneSince(mid, |h.history|, id) + DoneSince(g, |mid.history|, id)
  {
    var from := |h.history|;
    assert g.history[from..] == mid.history[from..] + g.history[|mid.history|..];
    DoneSplit(mid.history[from..], g.history[|mid.history|..], id);
  }

  // ----- A task that is left alone -----

  ghost predicate Unedited(events: seq<Event>, id: TaskId) {
    forall i :: 0 <= i < |events| ==>
      events[i] != TaskRemoved(id) && (events[i].TaskUpserted? ==> events[i].task.id != id)
  }

  lemma {:induction false} UpsertKeepsOther(tasks: seq<Task>, t: Task, other: Task)
    requires other in tasks && other.id != t.id
    ensures other in Upsert(tasks, t)
  {
    if |tasks| > 0 {
      assert tasks == [tasks[0]] + tasks[1..];
      if tasks[0] != other && tasks[0].id != t.id {
        UpsertKeepsOther(tasks[1..], t, other);
      }
    }
  }

  lemma {:induction false} WithoutKeepsOther(tasks: seq<Task>, id: TaskId, other: Task)
    requires other in tasks && other.id != id
    ensures other in Without(tasks, id)
  {
    if |tasks| > 0 {
      assert tasks == [tasks[0]] + tasks[1..];
      if tasks[0] != other {
        WithoutKeepsOther(tasks[1..], id, other);
      }
    }
  }

  lemma StepKeepsTask(h: Host, e: Event, t: Task)
    requires t in h.tasks && e != TaskRemoved(t.id) && (e.TaskUpserted? ==> e.task.id != t.id)
    ensures t in Step(h, e).tasks
  {
    hide EvaluateAll, KeepLast, Advance, UpdateRun, Upsert, Without, FirstRunning, ValidTask, Plan, StaleTodos;
    match e
    case TaskUpserted(other) => UpsertKeepsOther(h.tasks, other, t);
    case TaskRemoved(id) => WithoutKeepsOther(h.tasks, id, t);
    case _ =>
  }

  lemma {:induction false} RunKeepsTask(h: Host, events: seq<Event>, t: Task)
    requires t in h.tasks && Unedited(events, t.id)
    ensures t in Run(h, events).tasks
  {
    hide Step;
    if |events| > 0 {
      RunKeepsTask(h, events[..|events| - 1], t);
      StepKeepsTask(Run(h, events[..|events| - 1]), events[|events| - 1], t);
    }
  }

  // ----- Boots -----

  ghost function BootTimes(h: Host, events: seq<Event>): set<int> {
    if |events| == 0 then {h.bootAt}
    else
      var last := events[|events| - 1];
      BootTimes(h, events[..|events| - 1]) + if last.ProcessRestarts? then {last.now} else {}
  }

  lemma StepBoots(h: Host, e: Event)
    ensures Step(h, e).bootAt == if e.ProcessRestarts? then e.now else h.bootAt
  {
    hide EvaluateAll, KeepLast, Advance, UpdateRun, Upsert, Without, FirstRunning, ValidTask, HasTask, Plan, StaleTodos;
  }

  lemma {:induction false} BootedThen(h: Host, events: seq<Event>)
    ensures Run(h, events).bootAt in BootTimes(h, events)
  {
    hide Step;
    if |events| > 0 {
      BootedThen(h, events[..|events| - 1]);
      StepBoots(Run(h, events[..|events| - 1]), events[|events| - 1]);
    }
  }

  lemma {:induction false} BootTimesGrow(h: Host, events: seq<Event>, i: nat)
    requires i <= |events|
    ensures BootTimes(h, events[..i]) <= BootTimes(h, events)
    decreases |events|
  {
    if i == |events| {
      assert events[..i] == events;
    } else {
      BootTimesGrow(h, events[..|events| - 1], i);
      assert events[..|events| - 1][..i] == events[..i];
    }
  }

  // ----- Coverage -----

  /** The window was journaled, or collapsed into a later one that was, both before one of the boots. */
  ghost predicate Settled(w: int, done: seq<int>, boots: set<int>) {
    w in done || exists v, b :: v in done && b in boots && w < v < b
  }

  /** Every window of the chain up to the anchor reached is settled. */
  ghost predicate Covered(t: Task, from: int, reached: int, done: seq<int>, boots: set<int>) {
    && OnChain(t, from, reached)
    && forall now, n: nat, w :: w in Windows(t, from, now, n) && w <= reached ==> Settled(w, done, boots)
  }

  lemma NothingToCover(t: Task, from: int, boots: set<int>)
    requires ValidTask(t)
    ensures Covered(t, from, from, [], boots)
  {
    hide Windows, ValidTask;
    forall now, n: nat ensures forall w :: w in Windows(t, from, now, n) ==> w > from {
      WindowsAscend(t, from, now, n);
    }
  }

  /** One more tick, stopped anywhere, extends what is covered. */
  lemma TickExtendsCover(t: Task, from: int, input: TickInput, done: seq<int>, boots: set<int>, more: seq<int>,
                         after: map<TaskId, int>, boots': set<int>)
    requires ValidTask(t) && t.enabled
    requires Covered(t, from, Anchor(t, input.cursors), done, boots)
    requires Accounted(t, input, more, after, input.now)
    requires boots <= boots' && input.bootAt in boots'
    ensures Covered(t, from, Anchor(t, after), done + more, boots')
  {
    hide Windows, ValidTask, CollapsedCount;
    var mid, reached, ws := Anchor(t, input.cursors), Anchor(t, after), WindowsOf(t, input);
    if |more| > 0 {
      var d := CollapsedCount(ws, input.bootAt);
      assert more[|more| - 1] == ws[d + |more| - 1];
      assert reached in ws;
    }
    ChainsJoin(t, from, mid, reached);
    forall now, n: nat, w | w in Windows(t, from, now, n) && w <= reached ensures Settled(w, done + more, boots') {
      if w <= mid {
        assert Settled(w, done, boots);
        StaysSettled(w, done, boots, more, boots');
      } else {
        var now', n' := ChainFrom(t, from, mid, now, n, w);
        NewIsSettled(t, input, more, after, w, now', n');
        StaysSettled(w, more, {input.bootAt}, done, boots');
      }
    }
  }

  lemma NewIsSettled(t: Task, input: TickInput, more: seq<int>, after: map<TaskId, int>, w: int, now: int, n: nat)
    requires ValidTask(t) && t.enabled && Accounted(t, input, more, after, input.now)
    requires w in Windows(t, Anchor(t, input.cursors), now, n)
    requires Anchor(t, input.cursors) < w <= Anchor(t, after)
    ensures Settled(w, more, {input.bootAt})
  {
    hide Windows, ValidTask, CollapsedCount, Settled, Anchor;
    var mid, ws := Anchor(t, input.cursors), WindowsOf(t, input);
    var d := CollapsedCount(ws, input.bootAt);
    assert ws == Windows(t, mid, input.now, MAX_WINDOWS_PER_TICK);
    assert |more| > 0;
    assert d + |more| <= |ws| && ws[d..d + |more|] == more;
    assert forall i :: 0 <= i < d ==> ws[i] < ws[d] < input.bootAt;
    assert Anchor(t, after) == more[|more| - 1] == ws[d + |more| - 1];
    hide Accounted, WindowsOf;
    ListedUpTo(t, mid, input.now, MAX_WINDOWS_PER_TICK, w, now, n, Anchor(t, after));
    WindowsAscend(t, mid, input.now, MAX_WINDOWS_PER_TICK);
    ListedIsSettled(w, ws, d, more, input.bootAt, {input.bootAt});
  }

  lemma StaysSettled(w: int, done: seq<int>, boots: set<int>, more: seq<int>, boots': set<int>)
    requires Settled(w, done, boots) && boots <= boots'
    ensures Settled(w, done + more, boots') && Settled(w, more + done, boots')
  {
    if w !in done {
      var v, b :| v in done && b in boots && w < v < b;
      assert v in done + more && v in more + done && b in boots';
    }
  }

  lemma ListedIsSettled(w: int, ws: seq<int>, d: nat, done: seq<int>, bootAt: int, boots: set<int>)
    requires Ascending(ws) && w in ws && |done| > 0 && d + |done| <= |ws| && ws[d..d + |done|] == done
    requires forall i :: 0 <= i < d ==> ws[i] < ws[d] < bootAt
    requires w <= done[|done| - 1] && bootAt in boots
    ensures Settled(w, done, boots)
  {
    var j :| 0 <= j < |ws| && ws[j] == w;
    assert done[|done| - 1] == ws[d + |done| - 1] && done[0] == ws[d];
    if j >= d {
      assert j < d + |done|;
      assert done[j - d] == w;
    } else {
      assert done[0] in done && w < done[0] < bootAt;
    }
  }

  /** How many events lead up to and include the last start of a tick; 0 if none starts. */
  ghost function LastStart(h: Host, events: seq<Event>): (k: nat)
    ensures k <= |events|
  {
    if |events| == 0 then 0
    else if StartsTick(Run(h, events[..|events| - 1]), events[|events| - 1]) then |events|
    else LastStart(h, events[..|events| - 1])
  }

  lemma {:induction false} LastStartIsLast(h: Host, events: seq<Event>)
    ensures
      var k := LastStart(h, events);
      && (k > 0 ==> StartsTick(Run(h, events[..k - 1]), events[k - 1]))
      && forall j :: k <= j < |events| ==> !StartsTick(Run(h, events[..j]), events[j])
  {
    hide StartsTick, Run;
    var k := LastStart(h, events);
    if 0 < |events| != k {
      var front := events[..|events| - 1];
      LastStartIsLast(h, front);
      assert k > 0 ==> front[..k - 1] == events[..k - 1];
      forall j | k <= j < |events| ensures !StartsTick(Run(h, events[..j]), events[j]) {
        if j < |front| {
          assert front[..j] == events[..j] && front[j] == events[j];
        }
      }
    }
  }

  /** From just after the last start on, nothing disturbs the tick. */
  lemma AfterLastStart(h: Host, events: seq<Event>, id: TaskId)
    requires Unedited(events, id)
    ensures
      var k := LastStart(h, events);
      && Undisturbed(Run(h, events[..k]), events[k..], id)
      && Run(h, events) == Run(Run(h, events[..k]), events[k..])
  {
    hide StartsTick, Run;
    var k := LastStart(h, events);
    LastStartIsLast(h, events);
    var rest := events[k..];
    assert events == events[..k] + rest;
    RunSplit(h, events[..k], rest);
    forall i | 0 <= i < |rest|
      ensures rest[i] != TaskRemoved(id) && !StartsTick(Run(Run(h, events[..k]), rest[..i]), rest[i])
    {
      assert rest[i] == events[k + i];
      assert events[..k + i] == events[..k] + rest[..i];
      RunSplit(h, events[..k], rest[..i]);
    }
  }

  /**
   * No window of a task is ever passed over. Take any events at all in which the task is neither edited nor
   * removed: any number of ticks, each completed or stopped anywhere, any endings and any crashes. Then the
   * task's anchor has moved along its windows, and every window up to it has been journaled, or collapsed
   * into a later one that was, both missed before a boot.
   */
  lemma {:induction false} EveryWindowIsSettled(h: Host, events: seq<Event>, t: Task)
    requires Inv(h) && h.tick.Idle? && t in h.tasks && t.enabled && Unedited(events, t.id)
    ensures
      var g := Run(h, events);
      && h.history <= g.history
      && Covered(t, Anchor(t, h.cursors), Anchor(t, g.cursors), DoneSince(g, |h.history|, t.id), BootTimes(h, events))
    decreases |events|
  {
    hide Inv, Run, Covered, Accounted, ValidTask, DoneAts, Anchor, BootTimes, StartsTick;
    var g, k, from := Run(h, events), LastStart(h, events), Anchor(t, h.cursors);
    RunGrowsHistory(h, events);
    LastStartIsLast(h, events);
    AfterLastStart(h, events, t.id);
    InvMeansValid(h, t);
    if k == 0 {
      NoStartNoMove(h, events, t);
      NothingToCover(t, from, BootTimes(h, events));
    } else {
      var before, e := events[..k - 1], events[k - 1];
      var mid := Run(h, before);
      assert Unedited(before, t.id);
      EveryWindowIsSettled(h, before, t);
      RunKeepsInv(h, before);
      RunKeepsTask(h, before, t);
      assert e.BeginTick? by {
        StartsWithBegin(mid, e);
      }
      StartedTick(h, events, k, t);
      var more := DoneSince(g, |mid.history|, t.id);
      BootedThen(h, before);
      BootTimesGrow(h, events, k - 1);
      TickExtendsCover(t, from, Input(mid, e.now), DoneSince(mid, |h.history|, t.id), BootTimes(h, before), more,
                       g.cursors, BootTimes(h, events));
      DoneInTwoParts(h, mid, g, t.id);
    }
  }

  lemma StartsWithBegin(h: Host, e: Event)
    requires StartsTick(h, e)
    ensures e.BeginTick?
  {}

  lemma StartedTick(h: Host, events: seq<Event>, k: nat, t: Task)
    requires 0 < k <= |events| && events[k - 1].BeginTick? && StartsTick(Run(h, events[..k - 1]), events[k - 1])
    requires Inv(Run(h, events[..k - 1])) && t in Run(h, events[..k - 1]).tasks && t.enabled
    requires Undisturbed(Run(h, events[..k]), events[k..], t.id)
    requires Run(h, events) == Run(Run(h, events[..k]), events[k..])
    ensures
      var mid, g, now := Run(h, events[..k - 1]), Run(h, events), events[k - 1].now;
      && mid.history <= g.history
      && Accounted(t, Input(mid, now), DoneSince(g, |mid.history|, t.id), g.cursors, now)
  {
    var mid, e := Run(h, events[..k - 1]), events[k - 1];
    assert events[..k][..k - 1] == events[..k - 1];
    assert Run(h, events[..k]) == Step(mid, e) == Begin(mid, e.now, e.limit, true);
    hide Inv, Run, Accounted, Begin, DoneAts, Undisturbed;
    NoWindowIsLost(mid, e.now, e.limit, events[k..], t, e.now);
    RunGrowsHistory(Begin(mid, e.now, e.limit, true), events[k..]);
    assert Begin(mid, e.now, e.limit, true).history == mid.history by {
      BeginKeepsHistory(mid, e.now, e.limit);
    }
  }

  lemma BeginKeepsHistory(h: Host, now: int, limit: nat)
    ensures Begin(h, now, limit, true).history == h.history
  {}

  lemma NoStartNoMove(h: Host, events: seq<Event>, t: Task)
    requires Inv(h) && h.tick.Idle? && Unedited(events, t.id)
    requires LastStart(h, events) == 0
    ensures
      var g := Run(h, events);
      && h.history <= g.history
      && DoneSince(g, |h.history|, t.id) == []
      && Anchor(t, g.cursors) == Anchor(t, h.cursors)
  {
    AfterLastStart(h, events, t.id);
    assert events[..0] == [] && events[0..] == events;
    assert Run(h, []) == h;
    assert Remaining(h.tick, t.id) == [];
    assert h.history[|h.history|..] == [];
    assert DoneSince(h, |h.history|, t.id) == [];
    hide Inv, Run, Undisturbed, Remaining, DoneAts;
    RunTracks(h, events, |h.history|, h.cursors, [], t.id);
    RunGrowsHistory(h, events);
  }
}
