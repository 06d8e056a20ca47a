# Volund: verified models of its protocols and formats

Dafny models of the parts of Volund that carry real invariants, each with the theorems it exists for:

- **Permission display** (`JsValues`, `JsonText`, `JsonReader`, `PermissionDisplay`, `Permission`). A tool request is cloned
  and redacted, then printed under a shared budget. The printer is a recursive method over a heap of JavaScript objects,
  shared and cyclic ones included. What is proved: the printed text reads back as the value, a request is approvable
  exactly when it can be shown whole and unredacted within the limits, and no interaction mode returns anything but a
  refusal for any other.
- **Task scheduler and daemon** (`WallClock`, `Scheduler`, `TaskRuns`, `TaskSafety`, `TaskTicks`, `TaskAccounting`,
  `TaskCoverage`, `TaskCounts`, `TaskTallies`, `TaskJournal`, `TaskDaemon`). A state machine in which every store write,
  verdict, entry into the in-flight map and spawn of a tick is a step of its own. Between any two steps runs may end, tasks
  may be edited or removed, the tick may throw, or the process may crash and boot again. What is proved for every sequence
  of steps: no window is journaled or launched twice, a run is journaled before it is launched, runs of a task never
  overlap, capacity holds, every window is journaled, collapsed into a later one, or enumerated again, and the journal
  tells what became of each run. What a tick fires, skips or writes off is what the policies of its tasks say. The daemon
  and its store are classes proved to go through steps of the machine, whatever happens while they wait and wherever they
  throw.
- **Plugin archive** (`Crc32`, `PluginArchive`, `PluginArchiveIo`). A store-only ZIP writer and reader over byte buffers
  and a table-driven CRC-32. What is proved: reading undoes writing exactly when the fields can hold what is written,
  reading any bytes answers what the positions in them say, the table computes the bit-by-bit division, and every error
  burst of at most 32 bits changes the checksum.
- **Skill frames** (`SkillText`, `SkillFrames`). Printing of stacked `<skill>` frames and the summary read back from them.
- **Stateful cores**: nested configuration tables edited in place (`ConfigTree`, `ConfigEdit`), the prompt queues
  (`Prompts`, `PromptController`), the plugin life cycle (`PluginState`, `PluginOverlap`) and the limiter of permission
  prompts (`McpFatigue`).
- **Statistics** (`KeyedSums`, `SessionStats`, `Streaks`): the scan of session logs into keyed sums, their merge over all
  logs, the overview of a range of days, and streaks.
- **Search algorithms**: fuzzy list filtering (`ListPicker`) and the span offsets of text search (`SearchSpans`).

Loops, classes and buffers of the source are loops, classes and buffers here; each is proved equal to a function on
values, and the theorems are proved about that function. `dafny verify dfyconfig.toml` checks everything.

## What the proofs brought out

- *Wall clock.* `nextWallOccurrence` is commented as returning the next instant that reads HH:MM. It probes noon UTC of the
  shifted date, so in a zone twelve hours or more east of UTC it passes over an occurrence still to come on the start date.
  `WallClock.NextIsLeastIff` gives the exact condition and `WallClock.LostTodayExample` an instance at UTC+13. Around one
  change of offset a skipped wall time is left out, and a repeated one fires once (`WallClock.OneChangeAnswers`,
  `WallClock.RepeatedReadingFiresOnce`).
- *Config tables.* Deleting a key just assigned restores the tables exactly when the key was absent and everything on its
  path was a non-empty table (`ConfigTree.DeleteUndoesAssign`): a plain value in the way is overwritten for good, and a
  table that was empty before is pruned.
- *Prompts.* A prompt asked for with a signal that is already aborted is neither queued nor settled: its promise stays open
  in every later run (`Prompts.AbortedAskStaysOpen`), because the handler settles the entry before it is in the queue. An
  aborted signal has settled a prompt exactly if it was not yet aborted when the prompt was asked for
  (`Prompts.AbortSettlesIff`).
- *Line prompt.* The answers `constructor` and `__proto__` find inherited properties in the answer table. The kind they
  yield is none of the declared ones and does not start with `deny`. `Permission.UndeclaredKindIff` says exactly when this
  happens; even then the display was approvable.
- *Ticks.* The timer starts a tick whether or not the one before has ended. Whenever a slot is free, also with the default
  limit of one, two overlapping ticks can launch the same window twice: both pass the gate before either run is in the
  in-flight map (`TaskCounts.OverlapLaunchesTwice`, with `TaskCounts.OverlapAtLimitOne` an instance from the empty store
  on). If the second tick goes on only after the first has launched, it launches too exactly if two slots were free
  (`TaskCounts.OverlapInTurnIff`). The theorems about the daemon therefore assume that ticks do not overlap.
- *Plugins.* Approving and enabling read an entry and write it back later. An approval read before a discovery undoes that
  discovery (`PluginOverlap.LostDiscovery`). Writing back does what the whole operation would exactly if the entry is
  still there and unchanged but for what the operation sets (`PluginOverlap.WriteIsWholeIff`). An enabled plugin is approved
  all the same (`PluginOverlap.EnabledMeansApprovedThroughout`).
- *Statistics.* A usage record may hold negative numbers. Then a week may total more than all days
  (`SessionStats.NegativeUsageExample`); totals grow with the range exactly if no day's total is negative
  (`SessionStats.RangesGrowIff`).
- *List filter.* One more character can add an entry: lower-casing turns a sigma at the end of a word into another letter
  than one inside it (`ListPicker.FinalSigmaExample`). It never does when the lower-cased query is extended
  (`ListPicker.TypingNeverAdds`), and for one-word queries exactly when the shorter word is a subsequence of the longer
  (`ListPicker.NeverAddsIff`).
- *Skill frames.* An invocation without a name prints a frame that the reader does not recognise, and reading stops there.

## Assumptions

- Printing a number is injective and uses digits, sign, point and exponent only (`NumberText`); Unicode categories are an
  arbitrary set of code points; secret detection and sanitizing are arbitrary functions; own keys of an object are distinct.
- A civil date is its day number, and a time zone an arbitrary function from instants to offsets.
- Ticks do not overlap. A store write may throw before it takes effect, which ends the tick or the booting that waits for
  it; a write that has taken effect does not throw afterwards, and the final status of a run is written. Runs die with the
  process. Run identifiers are counted instead of drawn. `KeepLast` keeps everything when the retention is zero, as
  `slice(-0)` does.
- The operations of the plugin store's object run without interruption; `PluginOverlap` is about those that overlap.
- Token counts are integers, a log line is what parsing makes of it, and no model is named like a property that every
  JavaScript object inherits.
- Archive names, and the text searched, are byte strings. A `char` in the skill texts is one UTF-16 code unit, in
  the list picker one code point.
- The permission hash, lower-casing, collation, white space, what a search pattern finds in a line, and what a skill body
  becomes when `$ARGUMENTS` is interpolated are arbitrary.
- Configuration tables form a tree: no table object stands at two places, and an assigned value shares no table with it.

## Model

| member | source | states |
|---|---|---|
| JsonText.WriteCharIsPrefixFree | packages/app-runtime/src/permission-display.ts:31-72 | What follows a printed character cannot change which character it is, under all three quotings |
| JsonText.WriteIsUnambiguous | packages/app-runtime/src/permission-display.ts:74-136 | Two printed values, each followed by an end of value, that give one text are the same value followed by the same rest |
| JsonText.WriteIsInjective | packages/app-runtime/src/permission-display.ts:74-136 | Equal printed texts come from equal values, order of keys included |
| JsonText.LabelIsInjective | packages/app-runtime/src/permission-display.ts:45-62 | Equal printed tool names come from equal tool names |
| JsonText.WriteShowsSafely | packages/app-runtime/src/permission-display.ts:31-72 | No code point that must be escaped survives in the printed text |
| JsonReader.CharIsRead | packages/app-runtime/src/permission-display.ts:31-72 | A reader that knows the two escapes and nothing of the printer reads every printed character as itself, whatever follows |
| JsonReader.WrittenIsRead | packages/app-runtime/src/permission-display.ts:64-136 | A reader of the display's grammar, written without the printer, reads every printed value as that value, whole |
| JsonReader.LabelIsRead | packages/app-runtime/src/permission-display.ts:45-62 | The same reader of characters reads every printed tool name as that name |
| JsonReader.PlainTextIsShownAsItIs | packages/app-runtime/src/permission-display.ts:45-72 | Text in which nothing needs an escape is shown unchanged |
| JsonReader.UnsafeIsEscaped | packages/app-runtime/src/permission-display.ts:31-33 | A code point that must not be shown is shown by its number in at least four capital hexadecimal digits, without needless zeros |
| JsValues.Utf8WidthIsExact | packages/app-runtime/src/permission-display.ts:23-29 | The bytes paid for a code point are as many as encode it (RFC 3629, section 4) |
| JsValues.UnfoldingIsUnique | packages/app-runtime/src/permission-display.ts:74-136 | A heap value denotes at most one finite tree |
| JsValues.RevisitedHasNoUnfolding | packages/app-runtime/src/permission-display.ts:88-89 | A value met again below itself denotes no finite tree, so refusing it refuses nothing printable |
| PermissionDisplay.CountedArrayIsDense | packages/app-runtime/src/permission-display.ts:91-112 | Counting own keys tells a dense plain array from every other once all indices are present |
| PermissionDisplay.DisplayBudget.RenderValue | packages/app-runtime/src/permission-display.ts:74-136 | Rendering ends on every graph; success prints the one tree the value denotes, in a text that reads back as that tree, and pays exactly its nodes, code points and bytes; failure means no tree it denotes fits what was left |
| PermissionDisplay.DisplayBudget.QuoteString | packages/app-runtime/src/permission-display.ts:64-72 | A string is quoted, in a text that reads back as that string, and paid for exactly, or its printed form does not fit |
| PermissionDisplay.FormatPermissionValueForDisplay | packages/app-runtime/src/permission-display.ts:142-155 | Approvable exactly when the value denotes a tree within 32 levels, 4096 nodes, 16384 code points and 65536 bytes; the text is then that tree printed, within the limits, and reads back as that tree |
| PermissionDisplay.FormatPermissionTextForDisplay | packages/app-runtime/src/permission-display.ts:45-62 | A tool name is approvable exactly when its escaped form fits, and is then shown in that form, which reads back as the name |
| Permission.CleanIsUnredacted | packages/app-runtime/src/permission.ts:222-299 | Redaction leaves a value alone in which nothing is flagged |
| Permission.RedactionIsUnique | packages/app-runtime/src/permission.ts:222-299 | A value has at most one redacted copy |
| Permission.CleanIsRedaction | packages/app-runtime/src/permission.ts:222-299 | A value in which nothing is flagged is its own redaction |
| Permission.BillOfClean | packages/app-runtime/src/permission.ts:222-299 | Copying such a value costs its nodes, the bytes of its strings and keys, and its height |
| Permission.MarkersDiffer | packages/app-runtime/src/permission.ts:282-285 | Two redacted keys of one object never get the same marker |
| Permission.RedactionHidesSecrets | packages/app-runtime/src/permission.ts:222-299 | No flagged string and no flagged key is left in a redacted value, and a credential's key holds nothing but the marker |
| Permission.ApprovalBudget.CloneValue | packages/app-runtime/src/permission.ts:222-299 | Cloning succeeds exactly when the value has a redacted copy, without a key twice, that the three budgets allow for; the result is that copy, paid for exactly, and marked exactly if anything in it was redacted |
| Permission.PreparePermissionApprovalValue | packages/app-runtime/src/permission.ts:310-332 | Complete exactly when the value has a redacted copy within the limits, and then that copy sanitized; complete and unredacted exactly when the value denotes a clean tree within the limits that sanitizing leaves alone, and then equal to it |
| Permission.PreparePermissionApprovalSpec | packages/app-runtime/src/permission.ts:334-345 | As for a value, and only an object counts as a spec |
| Permission.PreparePermissionApprovalText | packages/app-runtime/src/permission.ts:347-360 | Complete and unredacted exactly when the text passes unchanged |
| Permission.BuildPermissionDisplay | packages/app-runtime/src/permission.ts:362-390 | Approvable exactly when all four parts are complete and unredacted and both texts fit; otherwise the notice of sensitive details if only the redaction stands in the way, and else that of unavailable details |
| Permission.PermissionPrompt | packages/app-runtime/src/permission.ts:138-177 | With a terminal, a prompt and an approvable display each decision kind is returned exactly for its own answer: a, s, g, p, e, x, the two inherited names, and deny for every other; without them, deny; no answer in time, deny with the timeout reason |
| Permission.KindIsItsAnswer | packages/app-runtime/src/permission.ts:167-177 | Every answer stands for exactly one kind, each letter for its own |
| Permission.UndeclaredKindIff | packages/app-runtime/src/permission.ts:146-176 | The line prompt yields an undeclared kind exactly when there is a terminal and a prompt, the display is approvable and the answer is one of the two inherited names |
| Permission.UndeclaredKindExamples | packages/app-runtime/src/permission.ts:167-176 | The answers constructor and __proto__ to an approvable display yield an undeclared kind, which does not start with deny |
| Permission.RequestPermission | packages/app-runtime/src/permission.ts:391-458 | In every mode, every decision kind but the three that start with deny is returned only for an approvable display, and in line mode each kind exactly for its answer; a display is approvable exactly when spec, name, input and id can all be presented, and then reads back as the request's own spec and name; otherwise it says whether redaction or something else stands in the way |
| Permission.ShownDeterminesApproved | packages/app-runtime/src/permission.ts:391-458 | Two requests shown by one display have the same tool name and denote the same spec |
| Permission.ShownIsRead | packages/app-runtime/src/permission.ts:391-458 | Whoever reads an approvable display reads the request's own spec and tool name |
| WallClock.NextWallOccurrence | packages/app-runtime/src/scheduler-domain.ts:217-249 | The two loops compute the first of today and the eight days after it whose settled instant is later and reads back; in any zone the answer is a later occurrence, and there is one if the offset settles for some of those days |
| WallClock.NextIsLaterOccurrence | packages/app-runtime/src/scheduler-domain.ts:217-249 | Whatever the zone does, a returned instant is later than the start and reads HH:MM on an allowed weekday |
| WallClock.SettledDayIsFound | packages/app-runtime/src/scheduler-domain.ts:225-249 | In any zone, a day for which one offset is in force both at the first guess and at the instant that reads the target under it is answered by that instant, however far the offset of the start was off |
| WallClock.OneChangeAnswers | packages/app-runtime/src/scheduler-domain.ts:225-249 | Around one change of offset a day's answer is exactly a later instant that reads the target and, asked for before the change, the first such; a skipped wall time has none |
| WallClock.RepeatedReadingFiresOnce | packages/app-runtime/src/scheduler-domain.ts:210-249 | A wall time that the change repeats is not answered again on that day |
| WallClock.SpringExample | packages/app-runtime/src/scheduler-domain.ts:231-234 | When summer time starts before the next daily 09:00, that one is found an hour earlier in UTC |
| WallClock.WeeklyFromEpoch | packages/app-runtime/src/scheduler-domain.ts:229-230 | Asked for at the start of 1970 in UTC, a Thursday, each weekday's window lies on the right day |
| WallClock.FixedOffsetFinds | packages/app-runtime/src/scheduler-domain.ts:217-249 | With a fixed offset and a non-empty weekday set an instant is always found |
| WallClock.NextIsLeastIff | packages/app-runtime/src/scheduler-domain.ts:202-249 | With a fixed offset the result is the least later occurrence exactly when no occurrence is left on a start date twelve hours or more east |
| WallClock.NextAfterOccurrenceIsLeast | packages/app-runtime/src/scheduler-domain.ts:217-249 | From one occurrence the least next one is found, so a chain of windows skips none |
| WallClock.LostTodayExample | packages/app-runtime/src/scheduler-domain.ts:225-228 | At UTC+13, a 09:00 window asked for at 01:00 is answered a day late |
| Scheduler.NextRunIsLater | packages/app-runtime/src/scheduler-domain.ts:71-81 | The next run of a valid task is strictly later, for every kind of schedule |
| Scheduler.EnumerateWindows | packages/app-runtime/src/scheduler-domain.ts:129-140 | The loop gathers the windows after the anchor up to now, at most 1000 |
| Scheduler.WindowsAscend | packages/app-runtime/src/scheduler-domain.ts:129-140 | Windows strictly increase, after the anchor and no later than now |
| Scheduler.WindowsResume | packages/app-runtime/src/scheduler-domain.ts:129-140 | Stopping after some windows and resuming from the last loses and repeats none |
| Scheduler.BatchesConcatenate | packages/app-runtime/src/scheduler-domain.ts:129-140 | Enumerating in batches from the last window concatenates to one enumeration |
| Scheduler.WindowsGrow | packages/app-runtime/src/scheduler-domain.ts:129-140 | A later clock or a higher limit only adds windows at the end |
| Scheduler.IntervalWindows | packages/app-runtime/src/scheduler-domain.ts:71-81 | Interval window number k is anchor + (k + 1) * everyMs, and every such instant up to now is one |
| Scheduler.EvaluateTick | packages/app-runtime/src/scheduler-domain.ts:83-127 | The loop over tasks decides each on its own and appends the decisions in task order; for every task the tick has fires, skips and missed entries exactly as its policies say, and none for others |
| Scheduler.DecideTask | packages/app-runtime/src/scheduler-domain.ts:98-124 | The body of the loop decides one task by its policies |
| Scheduler.DecisionFollowsPolicies | packages/app-runtime/src/scheduler-domain.ts:89-127 | A window before boot is fired exactly if it is the latest such, missed runs are to be caught up and the task is idle or queues; one since boot exactly if the task is idle or queues, and else skipped; there is one missed entry, for the latest, with the right count |
| Scheduler.EvaluationFollowsPolicies | packages/app-runtime/src/scheduler-domain.ts:83-127 | A tick has entries of the given tasks only; those of each valid task follow its policies on the windows since its cursor, or since its creation, and a disabled task has none |
| Scheduler.EvaluateAllSnoc | packages/app-runtime/src/scheduler-domain.ts:89-127 | One more task at the end adds its own decision at the end |
| Scheduler.WindowsAreConserved | packages/app-runtime/src/scheduler-domain.ts:89-127 | Windows = missed count + skipped + fires, less one if the missed entry fires |
| Scheduler.DecisionsAreWindows | packages/app-runtime/src/scheduler-domain.ts:89-127 | Nothing is decided about an instant that is not an enumerated window |
| Scheduler.DecisionIsWellShaped | packages/app-runtime/src/scheduler-domain.ts:89-127 | What is settled without a launch precedes every fire, fires ascend and end at the last window, and all are queued or none |
| TaskTicks.GroupsArePerTask | apps/cli/src/daemon.ts:583-592 | Grouping a tick's fires gives one group per task, in task order, holding exactly its unqueued fires |
| TaskTicks.PlanIsPrefix | apps/cli/src/daemon.ts:552-592 | What a tick plans to journal for a task runs along the task's windows without a gap, from the latest missed one on |
| TaskTicks.RemainingIsPlan | apps/cli/src/daemon.ts:552-592 | A fresh tick has to do for each task exactly that task's own plan, and nothing for ids that are no task's |
| TaskTicks.BeginKeepsInv | apps/cli/src/daemon.ts:538-592 | Starting a tick keeps the invariant: every planned window is later than its task's cursor, and no group's task is in flight |
| TaskSafety.ProceedKeepsInv | apps/cli/src/daemon.ts:561-690 | Each step of a tick keeps the invariant: a write, the gate, the verdict, the running record, the entry, the spawn |
| TaskSafety.RestartKeepsInv | apps/cli/src/daemon.ts:481-509 | A crash between any two steps keeps the invariant |
| TaskTicks.EveryRunIsSafe | apps/cli/src/daemon.ts:481-756 | After any steps whatever, a tick stopped anywhere included: no window of a task is journaled or launched twice while the task stays, whatever is launched was journaled as running first, runs of a task do not overlap, and a record is called running only for a run in flight or about to be |
| TaskAccounting.CapacityHolds | apps/cli/src/daemon.ts:593-599 | In every run whose ticks read a limit of at most n, at most n runs are ever in flight, the one being launched included |
| TaskAccounting.StepTakes | apps/cli/src/daemon.ts:561-690 | A step journals the next window of a task's plan and moves its cursor there, or journals nothing for the task and leaves its cursor |
| TaskAccounting.NoWindowIsLost | apps/cli/src/daemon.ts:538-612 | Wherever a tick stops, its windows of a task are, once each and in this order: collapsed before boot into the first one journaled, journaled with the cursor at the last, enumerated first next time |
| TaskCoverage.EveryWindowIsSettled | apps/cli/src/daemon.ts:481-756 | Over any number of ticks, errors and crashes, every window of an unedited task up to its cursor was journaled, or collapsed into a later journaled one, both before a boot |
| TaskCounts.LaunchesAreLatestWindows | apps/cli/src/daemon.ts:593-610 | A tick launches only tasks enabled and idle when it began, each for the last of its enumerated windows |
| TaskCounts.TickConservesWindows | apps/cli/src/daemon.ts:538-612 | At every step of a tick that is not given up, the windows enumerated are those counted, those still to be counted and those collapsed; the outcome counts all |
| TaskTallies.ReportIsTrue | apps/cli/src/daemon.ts:538-612 | A tick that comes to its end reports as fired the launches there were, as skipped and refused the records so written, and as missed the records so written and the windows they were written off for |
| TaskJournal.JournalTellsTheTruth | apps/cli/src/daemon.ts:481-756 | In every run of the machine a record says completed only if its run ended well and failed only if it ended badly, was refused, or the process died under it; a run that ended is journaled as it ended once that is noted, unless the process dies first |
| TaskJournal.StoreKeepsTheLatest | packages/storage/src/task-store.ts:145-162 | In every run of the machine the journal holds, in order, the latest records ever written, as many as are to be retained |
| TaskCounts.OverlapLaunchesTwice | apps/cli/src/daemon.ts:511-522 | With one slot free, a tick that has passed the gate and a second one planned alike launch the same window, both |
| TaskCounts.OverlapInTurnIff | apps/cli/src/daemon.ts:593-599 | A second tick, planned alike but going on after the first has launched, launches too exactly if two slots were free |
| TaskCounts.OverlapAtLimitOne | apps/cli/src/daemon.ts:511-522 | From the empty store on, with the limit of one, two overlapping ticks launch one window of a task twice |
| TaskDaemon.TaskStore.UpsertTask | packages/storage/src/task-store.ts:106-125 | A valid definition replaces the one with its id in place, or goes to the end; an invalid one changes nothing |
| TaskDaemon.UpsertAt | packages/storage/src/task-store.ts:106-125 | A definition replaces the first one with its id and leaves the others in place |
| TaskDaemon.TaskStore.RemoveTask | packages/storage/src/task-store.ts:127-142 | A removed task leaves the list and takes its cursor along; an unknown id changes nothing |
| TaskDaemon.TaskStore.RecordRun | packages/storage/src/task-store.ts:145-162 | The record is appended within the retention and the task's cursor moves up to its window, never back |
| TaskDaemon.TaskStore.UpdateRun | packages/storage/src/task-store.ts:164-177 | Only the record of that run takes the new status |
| TaskDaemon.TaskDaemon.Boot | apps/cli/src/daemon.ts:481-509 | Booting goes through steps of the machine; unless something it waited for throws it has failed exactly the records left running, and counted them |
| TaskDaemon.TaskDaemon.Tick | apps/cli/src/daemon.ts:538-612 | Whatever happens while it waits and wherever it throws, a tick goes through steps of the machine and launches only tasks that pass the checks; it throws only if something it waited for did, and otherwise returns the counts the machine ends with, with nothing refused if all tasks pass; with tasks disabled it changes nothing |
| TaskDaemon.Group | apps/cli/src/daemon.ts:583-592 | The insertion-ordered map of groups holds what grouping the fires gives, and the queued fires are counted |
| TaskDaemon.TaskDaemon.LaunchLoop | apps/cli/src/daemon.ts:593-611 | Group by group, the loop goes through the machine's steps with a free slot or without |
| TaskDaemon.TaskDaemon.Launch | apps/cli/src/daemon.ts:662-757 | A hash that cannot be computed ends the tick, a refused launch is journaled as failed, and an approved one is journaled, entered and spawned in this order |
| TaskDaemon.TaskDaemon.NoteRunEnd | apps/cli/src/daemon.ts:691-751 | An ended run's record takes its final status while the task is still in flight |
| TaskDaemon.TaskDaemon.RunLeft | apps/cli/src/daemon.ts:752-754 | Only after that does the task leave the in-flight map |
| Crc32.BuildTable | packages/app-runtime/src/plugin-archive.ts:41-49 | Entry n of the table is what eight empty message bits make of the register n |
| Crc32.LookUp | packages/app-runtime/src/plugin-archive.ts:53-54 | One look-up does the division of eight message bits |
| Crc32.Crc32 | packages/app-runtime/src/plugin-archive.ts:51-56 | The table-driven loop computes the bit-by-bit CRC-32 of every byte string (APPNOTE section 4.4.7) |
| Crc32.DivideIsLinear | packages/app-runtime/src/plugin-archive.ts:51-56 | The division is linear over exclusive or |
| Crc32.BurstChangesRemainder | packages/app-runtime/src/plugin-archive.ts:51-56 | Messages of one length that differ within 32 consecutive bits leave different registers |
| Crc32.ChecksumDetectsBurst | packages/app-runtime/src/plugin-archive.ts:51-56 | Inputs of one length that differ only inside four consecutive bytes, one byte in particular, have different checksums |
| Crc32.KnownChecksum | packages/app-runtime/src/plugin-archive.ts:51-56 | The checksum of the letter a is the one known for CRC-32 |
| PluginArchiveIo.WriteLocal | packages/app-runtime/src/plugin-archive.ts:67-77 | The local record has the layout of APPNOTE section 4.3.7 |
| PluginArchiveIo.WriteCentral | packages/app-runtime/src/plugin-archive.ts:79-89 | The central record has the layout of APPNOTE section 4.3.12 |
| PluginArchiveIo.WriteEnd | packages/app-runtime/src/plugin-archive.ts:96-102 | The end record has the layout of APPNOTE section 4.3.16 |
| PluginArchiveIo.WriteZip | packages/app-runtime/src/plugin-archive.ts:59-111 | The loops with their running offset produce local records, central directory and end record |
| PluginArchiveIo.ReadZip | packages/app-runtime/src/plugin-archive.ts:114-154 | The backward scan and the directory loop compute the reading the theorems are about, errors included, and answer what the positions in the bytes say |
| PluginArchive.ReadFindsLastEnd | packages/app-runtime/src/plugin-archive.ts:116-127 | The scan finds the last end record within 65535 bytes of the end, or there is none |
| PluginArchive.ReadIff | packages/app-runtime/src/plugin-archive.ts:114-154 | For every byte string: entries are answered exactly if from the end record's offset on as many records as announced lie one behind the other, each with the signature and method 0, its name behind it and its data behind the local header it points at; otherwise the error is that of the first record that cannot be read, or of the missing end record |
| PluginArchive.SignaturesOnDisk | packages/app-runtime/src/plugin-archive.ts:69-98 | On disk the three signatures are PK and two digits |
| PluginArchive.EndLies | packages/app-runtime/src/plugin-archive.ts:95-105 | The end record announces the number of entries, the size and the start of the directory, and no comment |
| PluginArchive.EntryIsWritten | packages/app-runtime/src/plugin-archive.ts:59-111 | Each central record's offset points at a local header with the same name, checksum and size, and the entry's data behind it |
| PluginArchive.RoundTrip | packages/app-runtime/src/plugin-archive.ts:59-154 | Reading undoes writing for every entry list the fields can hold, under any trailing bytes that hold no end record |
| PluginArchive.RoundTripIff | packages/app-runtime/src/plugin-archive.ts:59-154 | Below 4 GiB of local records the archive reads back exactly when entry count and name lengths fit 16 bits |
| PluginArchive.WriteIsInjective | packages/app-runtime/src/plugin-archive.ts:59-111 | Equal archives come from equal entry lists |
| SkillText.UnescapeUndoesEscape | packages/app-runtime/src/skills-panel.ts:131-133 | The three unescaping passes undo the three escaping passes on every string |
| SkillText.EscapedByCharacter | packages/app-runtime/src/skill-tool.ts:6-8 | Escaping goes character by character: three become their entities, the others stay |
| SkillText.EscapedIsAttribute | packages/app-runtime/src/skill-tool.ts:6-8 | An escaped attribute holds no quotation mark and only whole entities, and is empty only if the value was |
| SkillText.DefusedBodyIsInert | packages/app-runtime/src/skill-tool.ts:43-44 | A body so replaced closes no frame, keeps its number of lines, and is empty only if it was |
| SkillText.DefusedAtClosing | packages/app-runtime/src/skill-tool.ts:43-44 | The first closing tag of a body is replaced, and so on behind it |
| SkillText.UndefusedStays | packages/app-runtime/src/skill-tool.ts:43-44 | A body without a closing tag is left alone |
| SkillFrames.FrameIsLiteral | packages/app-runtime/src/skill-tool.ts:41-46 | The text of a frame, letter by letter |
| SkillFrames.StackIsLiteral | packages/app-runtime/src/skill-tool.ts:41-48 | Frames stand one below the other, and an empty line and the task come last |
| SkillFrames.SubmittedIsLiteral | packages/app-runtime/src/skill-tool.ts:24-48 | The task that the frames share is the arguments, a blank between each two, or else a sentence that names the first skill |
| SkillFrames.FrameIsFound | packages/app-runtime/src/skills-panel.ts:89-90 | The pattern matches every frame as a whole, whatever follows it |
| SkillFrames.MatchIsFrame | packages/app-runtime/src/skills-panel.ts:89-90 | The pattern matches nothing but a frame |
| SkillFrames.StackIsRead | packages/app-runtime/src/skills-panel.ts:106-129 | Reading recovers the names and line counts in order and stops in front of the task, even one that looks like a frame, or of the first nameless frame |
| SkillFrames.LinesAreCounted | packages/app-runtime/src/skills-panel.ts:113-115 | The lines counted for a frame with a body are the lines of its text, when its attributes have no line break |
| SkillFrames.CollapseUndoesBuild | packages/app-runtime/src/skill-tool.ts:24-49 | The summary of a submitted stack is its names, its line count and its task's headline; it names all skills exactly when each has a name |
| SkillFrames.HeadlineShows | packages/app-runtime/src/skills-panel.ts:120-122 | A task on one line is shown whole up to 60 characters, and else by its first 59 and an ellipsis |
| SkillFrames.CollapseSkillInvocation | packages/app-runtime/src/skills-panel.ts:106-129 | The loop computes the summary the theorem is about |
| SkillFrames.SplitSkillStack | packages/app-runtime/src/skill-tool.ts:56-70 | The longest run of leading arguments naming known skills joins the stack, six names at most; the rest is the task, unchanged |
| ConfigTree.SplitIsFaithful | packages/app-runtime/src/config-edit.ts:54-68 | Splitting a dotted key loses nothing, so different keys are different paths |
| ConfigTree.JoinThenSplit | packages/app-runtime/src/config-edit.ts:54-68 | Every list of parts without dots is the split of its key, so keys and paths correspond one to one |
| ConfigTree.CheckKeyIff | packages/app-runtime/src/config-edit.ts:52-59 | A key is malformed exactly if it is empty, holds a character that is no letter, digit, underscore, @, dot or hyphen, begins or ends with a dot or has two in a row; otherwise it is forbidden exactly if a part is one of the three names |
| ConfigTree.AssignThenFind | packages/app-runtime/src/config-edit.ts:62-91 | Reading after assigning gives the value, at the key and below it |
| ConfigTree.AssignElsewhere | packages/app-runtime/src/config-edit.ts:62-91 | Keys of which neither is a prefix of the other do not see each other's assignments |
| ConfigTree.DeleteFinds | packages/app-runtime/src/config-edit.ts:94-111 | Deleting succeeds exactly when the key is present |
| ConfigTree.DeleteElsewhere | packages/app-runtime/src/config-edit.ts:94-111 | Keys not prefix-related to the deleted one read the same |
| ConfigTree.DeleteRemoves | packages/app-runtime/src/config-edit.ts:94-111 | The key is gone afterwards and no table on its path is left empty |
| ConfigTree.DeleteUndoesAssign | packages/app-runtime/src/config-edit.ts:62-111 | Deleting undoes assigning exactly when the key was absent and all that stood on its path were non-empty tables |
| ConfigEdit.AssignConfigValue | packages/app-runtime/src/config-edit.ts:62-78 | The cursor walk turns the table objects into the assigned tree, creating exactly the missing tables; a refused key changes nothing |
| ConfigEdit.GetConfigValue | packages/app-runtime/src/config-edit.ts:81-91 | The cursor walk returns what stands at the key |
| ConfigEdit.DeleteConfigValue | packages/app-runtime/src/config-edit.ts:94-111 | The chain walk and the pruning loop turn the table objects into the pruned tree; it answers true exactly when the key was present, and otherwise changes nothing |
| ConfigEdit.PutHolds | packages/app-runtime/src/config-edit.ts:70-77 | Writing one entry of one table object edits the tree at that place only, and keeps it a tree |
| Prompts.FirstAnswerWins | packages/app-runtime/src/contracts.ts:97-143 | In every run a promise is settled at most once, with the answer of the first decide, abort or timeout that hits it; the queue holds, in order, exactly what was asked and not answered; timers and abort listeners live only while pending |
| Prompts.AbortedAskStaysOpen | packages/app-runtime/src/contracts.ts:114-118 | A prompt asked for with an aborted signal is never settled and never queued |
| Prompts.AbortSettlesIff | packages/app-runtime/src/contracts.ts:105-123 | A signal that has been aborted has settled a prompt exactly if it was not yet aborted when the prompt was asked for |
| Prompts.AnsweredLateExample | packages/app-runtime/src/contracts.ts:246-256 | An answer that comes in with the timeout reason is an instance: its prompt is not remembered as timed out |
| Prompts.AnswerIsNoTimeout | packages/app-runtime/src/contracts.ts:246-256 | A prompt closed with an answer is not remembered as timed out, whatever reason the answer carries |
| Prompts.RemembersTimeouts | packages/app-runtime/src/contracts.ts:216-261 | Asking whether a prompt timed out answers true exactly when one with that id did since it was last asked |
| PromptControllers.PromptController.Subscribe | packages/app-runtime/src/contracts.ts:91-95 | A new subscriber is given the pending requests, and from then on its last list is always theirs |
| PromptControllers.PromptController.Unsubscribe | packages/app-runtime/src/contracts.ts:91-95 | That subscriber and no other is dropped, and the others stay informed |
| PromptControllers.PromptController.Request | packages/app-runtime/src/contracts.ts:97-132 | Enqueueing takes the queue through its step and informs every subscriber |
| PromptControllers.PromptController.Decide | packages/app-runtime/src/contracts.ts:134-143 | Deciding settles the first pending prompt with that id, cleans up and informs every subscriber |
| PromptControllers.PromptController.Abort | packages/app-runtime/src/contracts.ts:105-123 | Aborting a signal settles, in order, every pending prompt that watches it |
| PromptControllers.PromptController.Expire | packages/app-runtime/src/contracts.ts:124-128 | A timer that fires settles its own prompt as timed out |
| PromptControllers.PromptController.ConsumeTimedOut | packages/app-runtime/src/contracts.ts:258-261 | Answers whether the id is remembered as timed out, and forgets it |
| PluginState.EnabledMeansApproved | packages/app-runtime/src/plugin-state.ts:136-217 | In every state reached from the empty store an enabled plugin is approved, and no outdated approval is kept |
| PluginState.MarketPluginsAreApprovedThenEnabled | packages/app-runtime/src/plugin-state.ts:136-207 | A market plugin that is enabled was approved in its version and hash and enabled after that, with no removal and no other discovery in between and no disabling since |
| PluginState.MarketPluginsIff | packages/app-runtime/src/plugin-state.ts:136-207 | A market plugin is approved exactly if it was approved in its version and hash and not disturbed since, and enabled exactly if it was enabled after that and not disabled since |
| PluginState.TrustedPluginsIff | packages/app-runtime/src/plugin-state.ts:145-163 | A plugin only ever discovered as builtin or dev is approved, and enabled exactly unless it was disabled, and not enabled again, since it was installed |
| PluginState.LocalPluginStateStore.DiscoverPlugin | packages/app-runtime/src/plugin-state.ts:136-165 | Discovery stores the entry with its approval kept, granted or revoked, its failures kept, and touches no other entry |
| PluginState.LocalPluginStateStore.ApprovePlugin | packages/app-runtime/src/plugin-state.ts:167-182 | Approval needs the current hash; a refusal changes nothing |
| PluginState.LocalPluginStateStore.SetPluginEnabled | packages/app-runtime/src/plugin-state.ts:184-199 | Enabling needs a current approval; a refusal changes nothing |
| PluginState.LocalPluginStateStore.RemovePlugin | packages/app-runtime/src/plugin-state.ts:201-207 | Removal forgets the plugin's entry and no other |
| PluginState.OldApprovalIsNotRevived | packages/app-runtime/src/plugin-state.ts:136-207 | After a discovery under another version or hash, and any operations but approvals of that plugin, discovering the old one again leaves it neither approved nor enabled |
| PluginOverlap.EnabledMeansApprovedThroughout | packages/app-runtime/src/plugin-state.ts:136-213 | However operations overlap between reading an entry and writing it back, an enabled plugin is approved and no outdated approval is kept |
| PluginOverlap.WriteIsWholeIff | packages/app-runtime/src/plugin-state.ts:167-199 | Writing back an entry does what the whole operation would at that moment exactly if the entry is there and unchanged but for what the operation sets |
| PluginOverlap.CurrentWritesAreSequential | packages/app-runtime/src/plugin-state.ts:136-213 | If every write finds its entry current, an overlapped run ends as the whole operations in the order of their writes |
| PluginOverlap.MarketPluginsAreApprovedThenEnabled | packages/app-runtime/src/plugin-state.ts:136-213 | In such a run an approved market plugin was approved, and an enabled one was enabled after that |
| PluginOverlap.LostDiscovery | packages/app-runtime/src/plugin-state.ts:136-182 | An approval read before a discovery and written after it brings the old version back, approved |
| McpFatigue.McpFatigueGuard.Check | packages/app-runtime/src/mcp-fatigue.ts:72-81 | The filter loop rewrites the server's window, and the request is refused exactly when the window exceeds the limit |
| McpFatigue.WindowIsRecentHistory | packages/app-runtime/src/mcp-fatigue.ts:72-81 | The stored window is the last 60 seconds of the server's whole history, refused requests included |
| McpFatigue.LimitHolds | packages/app-runtime/src/mcp-fatigue.ts:72-81 | In any half-open 60 seconds at most the limit goes through, also when limits change along the way |
| ListPicker.GreedyIsComplete | packages/app-runtime/src/list-picker.ts:170-178 | The leftmost match is found whenever the term occurs as a subsequence |
| ListPicker.ScoreIsCompleteAndTiered | packages/app-runtime/src/list-picker.ts:165-179 | A term scores exactly when it is a subsequence; whole value, contiguous and scattered matches score in separate ranges |
| ListPicker.ScoreIsExact | packages/app-runtime/src/list-picker.ts:165-179 | A whole value scores 100, a contiguous match by its first place, and a scattered one by what the leftmost places of its characters leave out between them |
| ListPicker.ComputeFuzzyScore | packages/app-runtime/src/list-picker.ts:165-179 | The loop over positions and gaps computes that score |
| ListPicker.EntryIsComplete | packages/app-runtime/src/list-picker.ts:145-163 | An entry scores exactly when every term is a subsequence of some field |
| ListPicker.EntryScoreIsExact | packages/app-runtime/src/list-picker.ts:145-163 | An entry's score is the sum, over the terms, of the best of 80, 40 and 20 plus the score in caption, value and status |
| ListPicker.WordsSplitAtSpace | packages/app-runtime/src/list-picker.ts:72 | The words of a query are those before a white space and those behind it |
| ListPicker.FilterListEntries | packages/app-runtime/src/list-picker.ts:68-81 | The result is the sorted list of the entries that score; without terms, the list itself |
| ListPicker.SortingKeepsAll | packages/app-runtime/src/list-picker.ts:79 | The sorted list is a permutation of the scoring entries |
| ListPicker.SortingIsRanking | packages/app-runtime/src/list-picker.ts:79 | Sorting orders by falling score and breaks ties by collation |
| ListPicker.MatchingIsExact | packages/app-runtime/src/list-picker.ts:68-81 | An entry is listed exactly when it is given and every term is found in it |
| ListPicker.ListedIff | packages/app-runtime/src/list-picker.ts:68-81 | An entry is listed for a query exactly when it is given and scores for all its terms |
| ListPicker.TypingNeverAdds | packages/app-runtime/src/list-picker.ts:68-81 | If the lower-cased query is a prefix of the lower-cased longer one, everything listed for the longer is listed for the shorter |
| ListPicker.NeverAddsIff | packages/app-runtime/src/list-picker.ts:68-81 | For one-word queries this holds of all lists exactly when the shorter lower-cased word is a subsequence of the longer |
| ListPicker.FinalSigmaExample | packages/app-runtime/src/list-picker.ts:72 | With a final sigma, one more letter adds an entry |
| Streaks.LongestStreak | packages/app-runtime/src/session-stats.ts:372-382 | On ascending days the loop finds the size of the largest block of consecutive active days |
| Streaks.CurrentStreak | packages/app-runtime/src/session-stats.ts:385-394 | The backward loop ends and gives the size of the block ending today, or else yesterday |
| Streaks.BothStreaks | packages/app-runtime/src/session-stats.ts:371-394 | The current streak is never longer than the longest |
| SessionStats.ScanSessionFile | packages/app-runtime/src/session-stats.ts:61-147 | The loop over the lines, with its streams paired by message id, computes the scan the theorems are about |
| SessionStats.ScanConserves | packages/app-runtime/src/session-stats.ts:61-147 | In a scan the days add up to the events and to the four token totals, each model's days add up to its total, and the total is that of the log's completed turns |
| SessionStats.ScanIsExact | packages/app-runtime/src/session-stats.ts:61-147 | Day by day a scan holds the readable lines and the turn tokens of that day |
| SessionStats.ModelsAreExact | packages/app-runtime/src/session-stats.ts:99-121 | For each model, on each day and in all, a scan holds what the completed streams report whose message was last started with it and not completed since, and the number of its starts |
| SessionStats.CountsAreExact | packages/app-runtime/src/session-stats.ts:122-134 | The four token counts of a scan are those of the completed turns, each added up on its own |
| SessionStats.TurnTokensAreReported | packages/app-runtime/src/session-stats.ts:122-134 | The tokens of a turn are its input and output, which must both be numbers, and what there is of the two cache counts |
| SessionStats.MergeScans | packages/app-runtime/src/session-stats.ts:215-237 | In whatever order keys come, the nested loops add up all scans day by day and model by model |
| SessionStats.SummarizeRange | packages/app-runtime/src/session-stats.ts:255-319 | Totals, sessions, active days and model totals are those of the range, and the most active day is the latest of those with the most tokens |
| SessionStats.SessionsAreActive | packages/app-runtime/src/session-stats.ts:261-264 | The sessions of a range are those with an event on one of its days |
| SessionStats.BuildStatsData | packages/app-runtime/src/session-stats.ts:215-250 | The three overviews are of all days, the last 30 and the last 7 of one merge of the scans |
| SessionStats.AllIsDirectSum | packages/app-runtime/src/session-stats.ts:215-319 | The range over all days totals every completed turn of every log, and for each model what the scans total |
| SessionStats.DaysAreExact | packages/app-runtime/src/session-stats.ts:215-237 | Each merged day totals the completed turns of that day in all logs |
| SessionStats.RangesGrowIff | packages/app-runtime/src/session-stats.ts:247-275 | Totals grow with the range, for all ranges, exactly if no day's total is negative |
| SessionStats.RangesGrowForUsualLogs | packages/app-runtime/src/session-stats.ts:247-275 | If no turn reports a negative total, week, month and all days total more and more |
| SessionStats.SessionsGrow | packages/app-runtime/src/session-stats.ts:261-264 | The number of sessions grows with the range, whatever the logs say |
| SessionStats.NegativeUsageExample | packages/app-runtime/src/session-stats.ts:322-337 | Ten tokens today and minus five forty days ago make the week total 10 and all days 5 |
| SearchSpans.Search | crates/volund-search/src/main.rs:111-147 | The output is the first `limit` matches of the unlimited search in order, truncated exactly when there are more |
| SearchSpans.LinesAreTheText | crates/volund-search/src/main.rs:135 | The raw lines are the text cut at its line feeds, and only there |
| SearchSpans.OneReturnIsStripped | crates/volund-search/src/main.rs:136 | One carriage return at the end of a line is no part of it |
| SearchSpans.EveryFindIsReported | crates/volund-search/src/main.rs:111-147 | Every find of every line of a searched file is reported, under the number of its line counted by the line feeds before it |
| SearchSpans.SpanIsExact | crates/volund-search/src/main.rs:134-145 | A span cut from the original text is what the pattern found in the stripped line |
| SearchSpans.EverySpanIsExact | crates/volund-search/src/main.rs:134-145 | Every reported match is a find of a line, and its span cuts that find out of the file |

## Left out

- WallClock.NextIsLeastIff: stated for fixed offsets; across changes of offset WallClock.SettledDayIsFound and WallClock.OneChangeAnswers say which instants are found.
- ConfigEdit.GetConfigValue: reads own keys only; reading an absent key named like a property every JavaScript object inherits gives that property in the source.
- PluginArchive.RoundTripIff: above 4 GiB of local records only the round trip within the limits is stated, because wrapped offsets may point at matching data by chance.
- PluginArchive.RoundTrip: names are bytes; the decoder's dropping of a leading byte order mark is not modelled. The reader never compares checksums, and neither does the model.
- ListPicker.NeverAddsIff: for queries of several words only the sufficient condition of ListPicker.TypingNeverAdds is stated, because words may be found across the words of a field.
- ListPicker.ComputeFuzzyScore: gaps are counted in code points, which differs from the source for characters outside the Basic Multilingual Plane.
- Permission.ApprovalBudget.CloneValue: the order of keys after a redaction renames one, and proxies whose traps answer differently each time, are not captured.
- Permission.PermissionPrompt: answers arrive trimmed and lower-cased.
- TaskTicks.EveryRunIsSafe: overlapping ticks, and writes that take effect and then throw, are not among the steps; refused launches are counted by the model only.
- TaskCoverage.EveryWindowIsSettled: is about a task that is neither edited nor removed along the run; an edit changes which instants are windows.
- TaskDaemon.TaskStore.UpsertTask: validates what the model keeps of a definition, its schedule and creation time; locking and the journal file are not part of this model.
- PluginState.MarketPluginsAreApprovedThenEnabled: for operations that do not overlap; PluginOverlap.MarketPluginsAreApprovedThenEnabled says when it holds for those that do.
- PluginState.EnabledMeansApproved: starts from the empty store; a state file may claim anything and is not part of this model.
- McpFatigue.McpFatigueGuard.Check: the loading and caching of the limits is not part of this model; each request carries the limit it was checked against.
- Prompts.FirstAnswerWins: subscribers that call back into the queue while being informed are not modelled.
- Streaks.LongestStreak: days are consecutive numbers; the calendar arithmetic on day keys is not part of this model.
- SessionStats.SummarizeRange: the ranking and shares of models, session and API durations, line counts, costs and the heat map are not part of this model; totals do not depend on the order in which keys come.
- The filter that hides prompts of subagents, event notification, the archive's extraction to disk and its entry name checks.
- `McpManager`, `SessionController`, `PermissionManager`, command dispatch, panels, fetchers and sandbox backends: plumbing around code outside these files.
