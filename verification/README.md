# Renom: a verified model of its stateful kernels

Renom is a panel for game servers. This project models the parts of it that keep
state over time or compute something intricate, and proves what they are for:

- **Console** (`console.dfy`, `consoleprotocol.dfy`, `consoleviews.dfy`, `gateway.dfy`, `output.dfy`,
  `ansi.dfy`, `ansigrammar.dfy`, `text.dfy`). The
  engine numbers console lines and counts runs; the gateway replays and streams them over a
  socket that may drop lines and lose what is in flight; the client merges a REST reading, a
  replay and live lines by a watermark and a run. The output splitter turns chunks of child
  output into lines, and the client turns ANSI sequences into HTML.
- **Process slot** (`processslot.dfy`, `processcalls.dfy`). Start, stop, kill, child exits, failed
  spawns and timeouts of one server, with the order of JavaScript's microtasks made explicit.
- **Schedules** (`cron.dfy`, `cronexpression.dfy`, `calendar.dfy`, `scheduler.dfy`, `schedules.dfy`). Cron
  expressions as text and as meaning, the search for the next run in the Gregorian calendar,
  and the lease that several runners compete for, with crashes and edits.
- **Files** (`filesystem.dfy`, `confinement.dfy`, `requestedpaths.dfy`, `archive.dfy`, `misleading.dfy`,
  `linktargets.dfy`).
  A file system as a finite tree with symbolic links, resolved by the kernel and by Node's
  `realpathSync`; the walk that confines a requested path, and the replacement of links by
  copies after an archive was extracted.
- **Text and identifiers** (`properties.dfy`, `propertyvalues.dfy`, `ulid.dfy`, `activity.dfy`).
- **Backups** (`restore.dfy`, `retention.dfy`). The swap of a restore, one file-system operation
  at a time with crashes in between, and names, rows and files of the backups of one server.
- **Limits and ports** (`ratelimit.dfy`, `allocations.dfy`).

`prelude.dfy` and `arith.dfy` hold what the others share.

## How it is modelled

Code between two awaits is one step, because JavaScript runs it to completion. What the source
changes in place is a class here, and each of its methods is proved equal to a function on
values; the theorems are about these functions and about every run of the state machines built
from them. SQL tables are maps, a transaction is one step, and a query's result is characterised
by what the query asks for. Clocks, randomness, scan orders, dropped messages, crashes and the
results of foreign tools are parameters or events, so every theorem holds for all of them.

A console line carries the run in force when it was emitted. That tag does not travel with the
line; it is what the theorems are about, since late output of a process that has exited is
emitted in the run that follows.

## What the code does that its documentation does not say

- The marker appended to an overlong line is cut off again before the line is shown
  (`Output.MarkerIsNeverShown`), and an overflowing feed may lose output or join lines
  (`Output.FeedIsFaithfulIff` says exactly when it does not).
- The page restored from the browser's cache joins before it reads the history again. The late
  answer replaces the log, and lines that arrived since it was read are lost even within one run;
  a late refusal loses them all. `ConsoleProtocol.LateReadingIff` says exactly when nothing is
  lost and no runs are mixed.
- Leaving a server keeps the log on screen; only the REST reading clears it. Without the permission
  to read, the next view starts with the old lines, which is right exactly when there are none
  (`ConsoleProtocol.SkipIsSafeIff`); behind the join it is right exactly when those still shown are
  older lines of the present run (`ConsoleProtocol.ReopenedIsTruthfulIff`).
- `finish` after a kill does not look at which child it clears. It is right only because
  microtasks run in order (`ProcessSlot.LateFinishOrphans`).
- The scheduler's class comment says that a crashed run stays marked until an operator acts; the
  lease expires by itself (`Scheduler.ClaimableAfterOnePeriod`). Mutual exclusion needs executions
  to end in time, and fails exactly otherwise (`Scheduler.OverlapIffExpired`).
- The scan of 1830 days does not always cover 29 February: it misses it around a skipped leap
  year, exactly as `Cron.LeapDayRunMissedIff` says.
- `realpathSync` cancels `..` in link targets lexically, and extraction does so for the first target
  itself. With a `..` behind a linked name, confinement can return another file inside the root than
  the kernel would open (`MisleadingLinks.ConfinesAnotherFile`) and extraction can copy another
  (`MisleadingLinks.ParentBehindNameMisleads`), also at the end of a chain whose first link is
  plain; or neither returns (`MisleadingLinks.ConfinementNeedNotReturn`). For what the kernel can
  open, none of this happens if no link followed is of that kind (`Confinement.ConfinedIsRequested`,
  `Archive.LinkNamesWhatIsCopied`), and each target of that kind differs in some tree
  (`LinkTargets.TargetIsSafeIff`).
  What is returned lies inside the root in any case (`Confinement.ConfinePath`).
- Drive letters are not stripped on POSIX systems; there they are ordinary names.
- Missing property keys are appended, although the comment says only present keys are rewritten.
  Free text may start with white space or hold a Unicode line break, and then does not read back
  (`PropertyValues.AcceptedReadsBackIff`).
- A restore interrupted between its renames is repaired by the next one, but a second
  interruption can lose both trees, although "nothing is lost" is promised
  (`Restore.BothCanBeLost`; `Restore.LostIff` says in which runs). The archive itself is untouched,
  and a restore that finishes is always right (`Restore.FinishedIsNew`).
- A backup can be purged by its own create (`Retention.NewBackupIsPurgedIff`), and `remove` deletes
  before it marks, so that a crash in between frees the name (`Retention.NamesStayDistinctIff`).
- A create without a preferred port can take a port that another server holds on a single interface
  (`Allocations.StepKeepsApartIff`), although an assignment would refuse it.
- Releasing a port never succeeds, because a server never has a second one
  (`Allocations.ReleaseNeverSucceeds`).
- An identifier generated after the clock went back, or after the counter wrapped, is smaller
  than its predecessor (`Ulid.NextAscendsIff`).

## Model

| member | source | states |
|---|---|---|
| `Console.EngineSlot.Emit` | apps/panel/src/server/modules/runtime/engine.ts:365-376 | the line gets the next number and the run in force, joins the history, and the history keeps its newest 500 |
| `Console.EngineSlot.BeginRun` | apps/panel/src/server/modules/runtime/engine.ts:356-363 | a start drops the scrollback, counts the run up and leaves the line counter alone |
| `Console.EngineSlot.Recent` | apps/panel/src/server/modules/runtime/engine.ts:565-569 | the newest lines of the history, by the clamped limit |
| `Console.ConsoleClient.AppendLine` | apps/panel/public/app.js:1735-1746 | the log grows by one entry and keeps its newest 500 |
| `Console.ConsoleClient.AppendConsoleLine` | apps/panel/public/app.js:1748-1756 | a line of another generation or at or below the watermark changes nothing; any other is appended and becomes the watermark |
| `Console.ConsoleClient.AppendConsoleLines` | apps/panel/public/app.js:1852-1855 | a replay is its lines appended one after the other, all under the same generation check |
| `Console.ConsoleClient.ResetConsoleHistory` | apps/panel/public/app.js:1758-1762 | the log and the watermark start over from the lines given; the adopted run stays |
| `Console.ConsoleClient.AdoptRun` | apps/panel/public/app.js:1770-1788 | first sight only records the run; a different run clears the log and keeps the watermark; the same run changes nothing |
| `Console.ConsoleClient.RefreshConsoleHistory` | apps/panel/public/app.js:1790-1807 | a superseded answer is ignored, a refusal leaves only the notice, an answer adopts its run and then restarts the log from its lines |
| `Console.ConsoleClient.OnMessage` | apps/panel/public/app.js:1852-1861 | history, line and reset messages act on the view; under another generation only the run a history names is still adopted |
| `Console.ConsoleClient.LeaveServer` | apps/panel/public/app.js:1254-1278 | leaving starts a new generation, forgets watermark and run, and leaves the log standing |
| `ConsoleProtocol.EmittedOk` | apps/panel/src/server/modules/runtime/engine.ts:365-376 | emitting keeps the numbering without gaps, runs that never descend, and a history that is the newest end of what was emitted, all of the present run |
| `ConsoleProtocol.TailAt` | apps/panel/src/server/modules/runtime/engine.ts:565-569 | a replay or REST reading holds lines of the engine's newest end, consecutively numbered, all of the run it is labelled with |
| `ConsoleViews.TailIsEnd` | apps/panel/src/server/modules/runtime/engine.ts:565-569 | and it holds as many as asked for, with the limit clamped to between 1 and 500, or all there are |
| `ConsoleViews.HistoryHoldsRun` | apps/panel/src/server/modules/runtime/engine.ts:356-376 | in every run the history is exactly the newest 500 lines of the present run, or all of them if there are fewer |
| `ConsoleViews.AnswerShowsReading` | apps/panel/public/app.js:1790-1807 | in every run an answered reading leaves exactly the newest 200 lines the engine held when it was served, or all of them, under that run |
| `ConsoleViews.OpenedViewShows` | apps/panel/public/app.js:1213-1246 | a view opened by a reading and then a join shows all of the newest 100 lines the engine held at the join, whatever was emitted and however often the server was started in between |
| `ConsoleViews.JoinShowsAbove` | apps/panel/src/server/http/console-gateway.ts:129-158 | any join brings every line among the newest 100 that lies above the watermark, and the view shows it |
| `ConsoleViews.IntactIff` | apps/panel/src/server/http/console-gateway.ts:129-158 | in every run a subscription counts as unbroken if and only if no line was dropped since its join |
| `ConsoleViews.OwedFrom` | apps/panel/src/server/http/console-gateway.ts:129-158 | what it owes begins, at a join, no later than any of the newest 100 lines above the watermark, and at a start with the first line of the new run; nothing else moves it |
| `ConsoleViews.LeftHearsNothing` | apps/panel/src/server/http/console-gateway.ts:90-96 | who has unsubscribed or closed the socket is sent neither lines nor resets |
| `ConsoleProtocol.AppendAllOk` | apps/panel/public/app.js:1748-1762 | appending any lines of the adopted run, in any order and with any repetition, keeps the log ascending and truthful |
| `ConsoleProtocol.ReceiveOk` | apps/panel/public/app.js:1770-1788 | a message whose lines are of the run in force keeps the view truthful and never takes the adopted run back |
| `ConsoleProtocol.JoinIsSafe` | apps/panel/src/server/http/console-gateway.ts:129-158 | whatever is in flight, the replay sent by a join fits behind it, and once all has arrived the client has adopted the engine's present run |
| `ConsoleProtocol.StepIsSafeIff` | apps/panel/src/server/http/console-gateway.ts:129-158 | every step of engine, socket and client keeps the invariant (emissions, dropped lines, restarts, disconnects, joins, answers at any time, deliveries), except exactly these two: opening without the reading while a line is on the screen, and a late answer whose run does not fit what is adopted and in flight |
| `ConsoleProtocol.OpenViewIsTruthful` | apps/panel/public/app.js:1748-1872 | in every interleaving without those two steps, an open view shows engine lines in strictly ascending order, none twice, each as emitted, all of the adopted run |
| `ConsoleProtocol.SkipIsSafeIff` | apps/panel/public/app.js:1213-1246 | opening a view without the REST reading is right, before any message arrives, if and only if no line is left on the screen |
| `ConsoleProtocol.ReopenedIsTruthfulIff` | apps/panel/public/app.js:1213-1246 | behind the join that follows, the view is right if and only if the old lines that the replay does not push out are of the present run and numbered below the replay's first line |
| `ConsoleProtocol.AdoptedRunGoesBackIff` | apps/panel/public/app.js:1764-1788 | apart from leaving, a step replaces the adopted run by an older one if and only if it is the answer of an older reading |
| `ConsoleProtocol.AppendAllShowsIff` | apps/panel/public/app.js:1748-1756 | of the newest lines, a view shows after a replay exactly those it showed before and those of the replay above the watermark, in spite of the cap on the log |
| `ConsoleProtocol.DrainedShowsIff` | apps/panel/public/app.js:1849-1861 | once everything in flight has arrived, it shows exactly those it shows now and those in flight above its watermark |
| `ConsoleProtocol.StepIsCompleteIff` | apps/panel/public/app.js:1790-1807 | every step keeps the lines a subscription owes the view, except exactly an answer after the join that neither holds them nor leaves them in flight behind it |
| `ConsoleProtocol.SubscriptionIsComplete` | apps/panel/src/server/http/console-gateway.ts:129-158 | in every interleaving without such an answer, while no line of a subscription is dropped, the drained view shows every line the engine still holds from the replay's first line above the watermark on, or from a run begun since |
| `ConsoleProtocol.RestFirstIsCovered` | apps/panel/public/app.js:1213-1246 | in the client's own order, reading first and then join, all of this holds without conditions |
| `ConsoleProtocol.NewRunPassesWatermark` | apps/panel/public/app.js:1780-1785 | every line of a newer run lies above the watermark, so it need not be rewound |
| `ConsoleProtocol.LateReadingIff` | apps/panel/public/app.js:1879-1884 | a REST answer that arrives after the join leaves the view right and complete if and only if it names the adopted run, or one the next message in flight replaces, and every line owed is in it or in flight and newer than all of it |
| `ConsoleProtocol.LateReadingWhenQuiet` | apps/panel/public/app.js:1879-1884 | with nothing in flight: if and only if it names the present run and holds every line owed |
| `ConsoleProtocol.LateReadingMixesRuns` | apps/panel/public/app.js:1879-1884 | otherwise the next line of the present run is shown in a log that belongs to the older one |
| `ConsoleProtocol.ReopenedLog` | apps/panel/public/app.js:1213-1246 | a view reopened without the reading shows its old log followed by the whole replay, within the cap |
| `ConsoleProtocol.LeftoverIsShownTwice` | apps/panel/public/app.js:1213-1246 | so every replayed line that was left on the screen, and still fits the log, is there twice |
| `Gateway.ConsoleGateway.Join` | apps/panel/src/server/http/console-gateway.ts:102-160 | a join that is not allowed changes nothing; an allowed one gives up the socket's earlier listener on that server and adds exactly one |
| `Gateway.ConsoleGateway.Unsubscribe` | apps/panel/src/server/http/console-gateway.ts:90-96 | the listener, its handle and the server in the socket's set go together |
| `Gateway.UnsubscribedIsValid` | apps/panel/src/server/http/console-gateway.ts:90-96 | giving up a subscription removes exactly its listener and keeps listeners, handles and sets in step |
| `Gateway.ConsoleGateway.Disconnect` | apps/panel/src/server/http/console-gateway.ts:196-201 | no listener of the socket remains, and no other is touched |
| `Gateway.ConsoleGateway.DropGrants` | apps/panel/src/server/http/console-gateway.ts:206-215 | exactly the subscriptions of the named user to the named server end |
| `Gateway.RevokedIff` | apps/panel/src/server/http/console-gateway.ts:206-215 | a subscription is revoked if and only if its user and its server are named or not restricted |
| `Gateway.RevokedHearNothing` | apps/panel/src/server/http/console-gateway.ts:206-215 | afterwards an emission reaches none of the revoked sockets, and every other through the same listeners as before |
| `Gateway.EmissionReachesOnce` | apps/panel/src/server/http/console-gateway.ts:129-158 | an emission reaches a subscribed socket through exactly one listener and any other socket through none |
| `Gateway.JoinLeavesOne` | apps/panel/src/server/http/console-gateway.ts:129-158 | joining again replaces the listener, so lines are not doubled |
| `Output.LineFeeder.Feed` | apps/panel/src/server/modules/runtime/engine.ts:428-440 | a chunk is added to the accumulator, cut at the cap, and its complete non-empty parts are emitted in order; the unfinished part stays |
| `Output.LineFeeder.Flush` | apps/panel/src/server/modules/runtime/engine.ts:441-444 | the remainder is emitted if there is one, and the accumulator is empty |
| `Output.FeedStaysBounded` | apps/panel/src/server/modules/runtime/engine.ts:425-440 | whatever is fed, accumulator and emitted lines never exceed LINE_MAX and no emitted line is empty |
| `Output.MarkerIsNeverShown` | apps/panel/src/server/modules/runtime/engine.ts:430-433 | an overlong line is shown cut at LINE_MAX; the truncation marker appended before `emit` is always cut off again |
| `Output.FeedAllIsWholeStream` | apps/panel/src/server/modules/runtime/engine.ts:428-440 | without overflow, feeding chunk by chunk emits the lines of the whole stream and leaves its unfinished line, wherever the cuts fall, also between CR and LF |
| `Output.ChunkingIsInvisible` | apps/panel/src/server/modules/runtime/engine.ts:423-440 | two ways of cutting the same stream emit the same lines and leave the same remainder |
| `Output.WholeStreamIsEmitted` | apps/panel/src/server/modules/runtime/engine.ts:423-444 | with the flush at exit, exactly the non-empty lines of the stream are emitted, none of them clipped |
| `Output.FeedIsFaithfulIff` | apps/panel/src/server/modules/runtime/engine.ts:428-440 | one feed behaves like uncapped splitting if and only if it does not overflow, or overflows on one long line followed by nothing but line breaks and at most one character |
| `Text.SplitAppend` | apps/panel/src/server/modules/runtime/engine.ts:434-438 | splitting is incremental: only the unfinished last line has to be split again |
| `Text.SplitLinesOf` | apps/panel/src/server/modules/runtime/engine.ts:434-438 | the parts of a text are its lines, whichever of the two breaks stands behind each |
| `ProcessSlot.Slot.BeginStart` | apps/panel/src/server/modules/runtime/engine.ts:227-236 | a start is refused unless the server is offline; otherwise the state before and after the spawn, also when it throws or fails later |
| `ProcessSlot.Slot.AwaitExit` | apps/panel/src/server/modules/runtime/engine.ts:771-789 | without a running child the waiter resumes at once, otherwise it waits for that child's exit |
| `ProcessSlot.Slot.BeginStop` | apps/panel/src/server/modules/runtime/engine.ts:485-502 | stop marks the slot and waits; without a child it returns |
| `ProcessSlot.Slot.BeginKill` | apps/panel/src/server/modules/runtime/engine.ts:508-518 | kill marks the slot and waits; without a child it returns |
| `ProcessSlot.Slot.ResumeKill` | apps/panel/src/server/modules/runtime/engine.ts:518-526 | after the exit the slot is finished, whatever it then holds; after the timeout the server stays recorded as stopping |
| `ProcessSlot.Slot.OnExit` | apps/panel/src/server/modules/runtime/engine.ts:454-470 | the exit finishes the slot first and then resumes, in order, exactly those who waited for this child |
| `ProcessSlot.Slot.OnError` | apps/panel/src/server/modules/runtime/engine.ts:449-453 | a failed spawn finishes the slot; no exit follows, so nobody is resumed |
| `ProcessSlot.Slot.FinishChild` | apps/panel/src/server/modules/runtime/engine.ts:756-769 | the handle and the stopping mark are cleared and the server is recorded offline |
| `ProcessSlot.StepIsSafe` | apps/panel/src/server/modules/runtime/engine.ts:347-526 | every request, microtask, exit, spawn error, timeout and grace period keeps the slot tracking exactly the live child, with pending finishes ahead of every caller |
| `ProcessSlot.OneTrackedChild` | apps/panel/src/server/modules/runtime/engine.ts:200-236 | in every interleaving there is at most one live child, the slot holds it, its state is running or stopping, and a start changes nothing but to return |
| `ProcessSlot.LateFinishOrphans` | apps/panel/src/server/modules/runtime/engine.ts:518-526 | were a start to run between a child's exit and the resumption of a kill, the new child would be forgotten and a second one launched |
| `ProcessCalls.EveryCallReturnsOnce` | apps/panel/src/server/modules/runtime/engine.ts:227-526 | in every run each call of start, stop or kill is pending, once, or has returned to its caller, once |
| `ProcessCalls.StopTakesHold` | apps/panel/src/server/modules/runtime/engine.ts:485-502 | with a tracked child a stop leaves the server reading and recorded as stopping and its call waiting for that child, and changes nothing else |
| `ProcessCalls.KillTakesHold` | apps/panel/src/server/modules/runtime/engine.ts:508-518 | a kill likewise, as a call of its own |
| `ProcessCalls.NothingToStop` | apps/panel/src/server/modules/runtime/engine.ts:485-511 | without a child both only return |
| `ProcessCalls.StopReturnsAfter` | apps/panel/src/server/modules/runtime/engine.ts:485-505 | in every run the caller of a stop goes on only after the child it was for has exited, or after the kill behind its timeout has returned |
| `ProcessCalls.TimedOutStopKills` | apps/panel/src/server/modules/runtime/engine.ts:500-518 | a stop that times out goes on at once as a kill that waits for the child the slot then holds, which is the same child if and only if that has neither exited nor failed; with no child it returns |
| `ProcessCalls.ExitResumesItsWaiters` | apps/panel/src/server/modules/runtime/engine.ts:454-470 | an exit leaves the server offline and resumes exactly the calls that waited for this child, each once and as one whose child has exited |
| `ProcessCalls.KillEnds` | apps/panel/src/server/modules/runtime/engine.ts:518-526 | a kill whose child has exited leaves the server offline; one that gives up keeps the child tracked and recorded as stopping |
| `ProcessCalls.StartLaunchesIff` | apps/panel/src/server/modules/runtime/engine.ts:227-236 | a start launches a child if and only if the server reads as offline and the spawn succeeds; one that throws leaves it offline |
| `ProcessCalls.GraceEnds` | apps/panel/src/server/modules/runtime/engine.ts:473-484 | the grace period ends with the server recorded as running if its child is still there, and its call returns |
| `CronSchedules.Schedules.ClaimDue` | apps/panel/src/server/modules/schedules/runner.ts:192-200 | the compare-and-set of a scheduled run: it changes one row, and only if that is active, due and its lease free at the captured time |
| `CronSchedules.Schedules.ClaimOnce` | apps/panel/src/server/modules/schedules/runner.ts:216-224 | the compare-and-set of a manual run: activity and due time do not matter, the lease does |
| `CronSchedules.Schedules.Release` | apps/panel/src/server/modules/schedules/runner.ts:227-234 | a manual run frees the lease and leaves the next run time alone |
| `CronSchedules.Schedules.Finalize` | apps/panel/src/server/modules/schedules/runner.ts:241-255 | the lease is freed and the next run computed from the row as it is now; no next run if the expression has none |
| `CronSchedules.Schedules.Create` | apps/panel/src/server/modules/schedules/runner.ts:63-100 | a schedule is stored, free and active, with its next run; an expression without one is refused |
| `CronSchedules.Schedules.Update` | apps/panel/src/server/modules/schedules/runner.ts:126-171 | a new expression brings its own next run; one without a next run is refused and nothing changes |
| `Scheduler.EditLeaves` | apps/panel/src/server/modules/schedules/runner.ts:136-163 | an accepted edit leaves exactly what was submitted and keeps the rest, the lease and the last run among it; a refused one changes nothing |
| `Scheduler.InactiveNeverFires` | apps/panel/src/server/modules/schedules/runner.ts:151-153 | in every run, after an edit to inactive no scheduled claim fires the schedule until an edit to active |
| `Scheduler.ManualRunIff` | apps/panel/src/server/modules/schedules/runner.ts:212-225 | a manual run begins if and only if the lease is free, for an inactive schedule too, and consumes no run time |
| `Scheduler.ClaimFiresIff` | apps/panel/src/server/modules/schedules/runner.ts:187-204 | a scheduled claim fires exactly an active schedule that is due with a free lease when its runner read the clock, and leases it for fifteen minutes |
| `Scheduler.TickSelectsIff` | apps/panel/src/server/modules/schedules/runner.ts:179-187 | a tick selects exactly the active schedules that are due with a free lease, each once, the earliest first |
| `Scheduler.FinishLeaves` | apps/panel/src/server/modules/schedules/runner.ts:227-255 | the end of an execution frees the lease, records the time, and brings the next run of the expression now in force, which a manual one leaves alone; the runner goes on unless the execution threw |
| `Scheduler.CreateLeaves` | apps/panel/src/server/modules/schedules/runner.ts:63-93 | a new schedule is stored active and free with its first run, or refused without one |
| `Scheduler.OtherEventsLeave` | apps/panel/src/server/modules/schedules/runner.ts:173-176 | a removal takes the row alone, a crash the runner alone, so that its lease stays, and time only moves the clock |
| `Scheduler.StepIsSafe` | apps/panel/src/server/modules/schedules/runner.ts:179-255 | while every execution is inside its lease, no tick, claim, manual run, finish, crash, edit, creation or deletion breaks mutual exclusion |
| `Scheduler.TimelyRunsAreSafe` | apps/panel/src/server/modules/schedules/runner.ts:179-255 | if every execution ends before the `lock_until` it wrote, no two executions of a schedule overlap and each running one owns the lease it will release |
| `Scheduler.OverlapIffExpired` | apps/panel/src/server/modules/schedules/runner.ts:212-225 | a manual run overlaps a running execution if and only if the lease of that execution has run out |
| `Scheduler.DueOverlapIffExpired` | apps/panel/src/server/modules/schedules/runner.ts:187-200 | a scheduled run overlaps a running execution if and only if the row is active and due and that lease had run out when its runner read the clock |
| `Scheduler.LeasesAreBounded` | apps/panel/src/server/modules/schedules/runner.ts:199-199 | in every run, with any crashes, no lease reaches further than fifteen minutes past the clock |
| `Scheduler.ClaimableAfterOnePeriod` | apps/panel/src/server/modules/schedules/runner.ts:187-200 | fifteen minutes later the lease is free, and a due active schedule can be claimed, even if its runner crashed |
| `Scheduler.MarkedIsAttended` | apps/panel/src/server/modules/schedules/runner.ts:179-255 | without crashes a row is marked as processing only while a runner executes it, so every finish gives the lease back |
| `CronSchedules.RunTimesAreNamed` | apps/panel/src/server/modules/schedules/runner.ts:241-255 | in every run, each run time consumed is a whole minute that the expression then in force names |
| `Scheduler.FiresOncePerMinute` | apps/panel/src/server/modules/schedules/runner.ts:179-209 | without crashes and with executions ending in time, the run times consumed by one schedule ascend strictly and none is consumed early, through edits, deletions and manual runs, for any search that looks forward |
| `CronSchedules.NextForIsForward` | apps/panel/src/server/modules/schedules/cron.ts:45-62 | the search for a cron expression looks forward, so all of this holds for it |
| `CronSchedules.NeverTwiceForAMinute` | apps/panel/src/server/modules/schedules/runner.ts:179-255 | in such a run a schedule fires at most once for each minute its expression names |
| `Cron.FindNextRun` | apps/panel/src/server/modules/schedules/cron.ts:45-62 | the loop computes the specification's search |
| `Cron.NextRunIsLeast` | apps/panel/src/server/modules/schedules/cron.ts:45-62 | the result is the least whole minute strictly after the start that matches; no result means none in 1830 days |
| `Cron.NextRunWithinAYear` | apps/panel/src/server/modules/schedules/cron.ts:45-73 | if the fields match at any instant outside 29 February, the next run is at most 366 days away, from any start |
| `Cron.WeekDayInMonthOccurs` | apps/panel/src/server/modules/schedules/cron.ts:65-73 | every weekday falls in every month in any 366 days, and not only on the 29th |
| `Cron.EveryLeapDayFires` | apps/panel/src/server/modules/schedules/cron.ts:65-73 | fields that fire on 29 February only do so by the day of the month, so every 29 February fires |
| `Cron.LeapDayRunMissedIff` | apps/panel/src/server/modules/schedules/cron.ts:45-62 | fields that fire on 29 February only find no run if and only if the window lies between the last match before a skipped leap year and the first one after it |
| `Cron.ClockSpanExists` | apps/panel/src/server/modules/schedules/cron.ts:49-55 | fields that match at all have a first and a last minute of the day |
| `Cron.MissedWindowHoldsCentury` | apps/panel/src/server/modules/schedules/cron.ts:44-48 | such a window contains the 1 March of the skipped leap year |
| `Calendar.DayFromYearIs` | apps/panel/src/server/modules/schedules/cron.ts:48-55 | days counted year by year agree with the closed formula of section 21.4.1 of ECMA-262 |
| `Calendar.DateOfIsInverse` | apps/panel/src/server/modules/schedules/cron.ts:49-55 | a day's date has that day's number |
| `Calendar.DayNumberIsInverse` | apps/panel/src/server/modules/schedules/cron.ts:49-55 | each valid date is the date of exactly one day |
| `Calendar.DayNumberIs` | apps/panel/src/server/modules/schedules/cron.ts:49-55 | the day number of every valid date by one closed formula over year, month and day |
| `Calendar.WeekDayIsCivil` | apps/panel/src/server/modules/schedules/cron.ts:69-69 | the weekday of every valid date is the one Zeller's congruence gives |
| `CronExpression.AddSpan` | apps/panel/src/server/modules/schedules/cron.ts:114-114 | stepping through a range adds exactly its selected values |
| `CronExpression.ParseField` | apps/panel/src/server/modules/schedules/cron.ts:76-118 | the loop over the entries computes the specification's field, and fails as soon as one entry is bad |
| `CronExpression.EntryRoundTrip` | apps/panel/src/server/modules/schedules/cron.ts:80-114 | an entry written by the grammar is accepted if and only if its values are in range, with the grammar's meaning |
| `CronExpression.AcceptedIsEntry` | apps/panel/src/server/modules/schedules/cron.ts:80-114 | of the texts made of digits, `*`, `-`, `/`, commas and white space, nothing but an entry of the grammar is accepted |
| `CronExpression.FieldMeans` | apps/panel/src/server/modules/schedules/cron.ts:76-118 | a field is accepted if and only if all its entries are in range, and lists, ascending and each once, exactly the values some entry selects |
| `CronExpression.InRangeIff` | apps/panel/src/server/modules/schedules/cron.ts:90-113 | in range means: bounds within the field's and in order, and no step of zero |
| `CronExpression.WordsOfSpaced` | apps/panel/src/server/modules/schedules/cron.ts:27-27 | five words are found whatever white space surrounds and separates them |
| `CronExpression.ParseCron` | apps/panel/src/server/modules/schedules/cron.ts:26-42 | exactly five words, each an acceptable field; the star flags come from the literal `*` |
| `CronExpression.ParsedMeaning` | apps/panel/src/server/modules/schedules/cron.ts:26-73 | an expression is accepted if and only if all values are in range, and then matches exactly the instants its grammar names, with the day-of-month or day-of-week rule |
| `CronExpression.AcceptedIsExpression` | apps/panel/src/server/modules/schedules/cron.ts:26-42 | every accepted text in these characters is an expression of the grammar with all values in range |
| `CronExpression.NextRunOfExpression` | apps/panel/src/server/modules/schedules/cron.ts:26-62 | from text to run: the search finds the least whole minute after the start at which the grammar fires, in terms of the civil date and Zeller's weekday |
| `CronExpression.WeekdayRun` | apps/panel/src/server/modules/schedules/cron.ts:45-73 | an expression whose only restriction on the date is a weekday finds its next run within seven days, at the first named time on a date with that weekday |
| `Confinement.InsideIsPrefix` | apps/panel/src/server/modules/files/confinement.ts:16-19 | the string test with the trailing separator decides exactly whether the root is a prefix of the target, component by component |
| `RequestedPaths.PartsOfJoined` | apps/panel/src/server/modules/files/confinement.ts:51-51 | whatever separators stand between, before and behind its segments, the parts of a request are those that are neither empty nor `.`, in order |
| `RequestedPaths.EveryTextIsCut` | apps/panel/src/server/modules/files/confinement.ts:51-51 | every request is made of segments and separators in this way |
| `RequestedPaths.ParentSegmentIff` | apps/panel/src/server/modules/files/confinement.ts:52-54 | a request is refused for a parent segment if and only if one of its segments is `..` |
| `RequestedPaths.PlainRequestIsConfined` | apps/panel/src/server/modules/files/confinement.ts:56-94 | where no link lies on the way, a request is confined to the root followed by exactly the segments that name something, whether they exist or not |
| `Confinement.ConfinePath` | apps/panel/src/server/modules/files/confinement.ts:34-95 | the loops compute the specification, with `realpathSync` as Node runs it; a result lies inside the real root, and no existing component on the way to it is a symbolic link |
| `Confinement.WalkParts` | apps/panel/src/server/modules/files/confinement.ts:56-79 | the walk over the parts computes the specification's walk |
| `Confinement.CloseWalk` | apps/panel/src/server/modules/files/confinement.ts:81-94 | the closing checks never reject a walked path, and the ancestor loop ends |
| `Confinement.ClosingChecksPass` | apps/panel/src/server/modules/files/confinement.ts:82-93 | the deepest existing ancestor of a walked path lies inside the root and is its own real path |
| `Confinement.StepKeepsGrounded` | apps/panel/src/server/modules/files/confinement.ts:57-79 | one step of the walk keeps the path free of links, whether the component is missing, a link or neither |
| `Confinement.WalkFindsWhatTheKernelFinds` | apps/panel/src/server/modules/files/confinement.ts:56-79 | where the kernel can resolve the parts and no link it follows has a `..` behind a name, the walk returns, with the same file or a refusal because a link leaves the root |
| `Confinement.ConfinedIsRequested` | apps/panel/src/server/modules/files/confinement.ts:34-95 | under that condition an accepted request for an existing file names the file the kernel would open, and nothing is refused but a link that leaves the root |
| `Confinement.SpecMoreFuel` | apps/panel/src/server/modules/files/confinement.ts:34-95 | the bound on how often `realpathSync` starts again has no influence on a result, only on whether there is one |
| `Confinement.ConfinedResolves` | apps/panel/src/server/modules/files/confinement.ts:56-79 | conversely, if no link followed has a `..` behind a name, an accepted path that exists is what the kernel finds for the request |
| `Filesystem.ResolveIsReal` | apps/panel/src/server/modules/files/confinement.ts:66-75 | resolution ends at a path whose every component exists and is no link |
| `Filesystem.NodeWalkIsReal` | apps/panel/src/server/modules/files/confinement.ts:66-75 | whatever `realpathSync` finds exists and has no link on the way, although it cancels `..` lexically |
| `Filesystem.NodeWalkMoreFuel` | apps/panel/src/server/modules/files/confinement.ts:66-75 | an answer of `realpathSync` does not depend on the bound on its restarts |
| `Filesystem.StraightAgrees` | apps/panel/src/server/modules/files/confinement.ts:66-75 | `realpathSync` returns the kernel's own path, from any directory and for any target, if every `..` on the way, in the path and in each link followed, comes before all names |
| `Filesystem.GroundedRealpath` | apps/panel/src/server/modules/files/confinement.ts:81-87 | a path without links on the way is its own real path if it exists, and has none otherwise |
| `Filesystem.ResolveMoves` | apps/panel/src/server/modules/files/confinement.ts:51-51 | leaving out the `.` and empty parts does not change what the kernel finds |
| `Filesystem.ResolveAppend` | apps/panel/src/server/modules/files/confinement.ts:57-79 | resolving a path in two parts is resolving it at once |
| `Archive.Staging.Scan` | apps/panel/src/server/modules/files/archive.ts:177-205 | the recursive scan finds every link below the directory, in any order of entries, each with its real path and whether that is a regular file inside; it finishes if and only if `realpathSync` returns for each of them |
| `Archive.Staging.MaterializeLinks` | apps/panel/src/server/modules/files/archive.ts:166-212 | both passes together turn the tree into the specification's, whatever the scan order; if the scan does not finish, nothing was changed |
| `Archive.MaterializedHasNoLinks` | apps/panel/src/server/modules/files/archive.ts:207-211 | afterwards no link is left below the root, everything else is unchanged, and nothing was added |
| `Archive.LinkBecomesFileIff` | apps/panel/src/server/modules/files/archive.ts:182-211 | a link becomes a file if and only if `realpathSync` leads from it to a regular file inside the root of the original tree, and then holds that file's original contents; otherwise it is gone |
| `Archive.MaterializedMoreFuel` | apps/panel/src/server/modules/files/archive.ts:177-212 | once the scan finishes, the result does not depend on the bound on restarts |
| `Archive.MaterializedIsWellFormed` | apps/panel/src/server/modules/files/archive.ts:207-211 | the result is a tree again |
| `Filesystem.NormalizeMoves` | apps/panel/src/server/modules/files/archive.ts:183-183 | `.` and empty components of a target do not matter lexically either |
| `LinkTargets.TargetIsSafeIff` | apps/panel/src/server/modules/files/archive.ts:183-188 | wherever a link with this target leads somewhere and all other links are free of `..` behind names, confinement returns and extraction copies what the kernel opens, if and only if no name stands in front of a `..` in the target |
| `Archive.LinkNamesWhatIsCopied` | apps/panel/src/server/modules/files/archive.ts:183-210 | if no link on the chain has a `..` behind a name, the link becomes a copy of the file the kernel opens through it, and exactly when that is a regular file inside the root |
| `MisleadingLinks.ConfinesAnotherFile` | apps/panel/src/server/modules/files/confinement.ts:65-75 | an example with a `..` behind a linked name: the request is confined to a regular file inside the root that is not the one the kernel opens for it |
| `MisleadingLinks.ConfinementNeedNotReturn` | apps/panel/src/server/modules/files/confinement.ts:65-75 | an example in which the kernel opens the request, but `realpathSync` starts again for ever, however large the bound, in confinement and in the scan of an archive |
| `MisleadingLinks.ParentBehindNameMisleads` | apps/panel/src/server/modules/files/archive.ts:183-211 | in the first example both the link and a plain link to it are replaced by another file than the kernel opens |
| `Properties.ParseProperties` | apps/panel/src/server/modules/files/properties.ts:238-252 | the loop yields the settings of the text's lines in order |
| `Properties.ApplyPropertyChanges` | apps/panel/src/server/modules/files/properties.ts:265-286 | the loops yield the specification's rewritten text |
| `Properties.ValueRoundTripsIff` | apps/panel/src/server/modules/files/properties.ts:241-247 | a value written as `key=value` reads back if and only if it is one line and does not start with white space |
| `Properties.ParseAfterApply` | apps/panel/src/server/modules/files/properties.ts:238-286 | reading back an applied change gives the old settings with the first occurrence of each changed key replaced, everything else in place, and missing keys appended in order |
| `Properties.ApplyIsIdempotent` | apps/panel/src/server/modules/files/properties.ts:265-286 | applying the same changes twice is applying them once |
| `Properties.ApplyNothing` | apps/panel/src/server/modules/files/properties.ts:265-286 | without changes only the carriage returns of line breaks go |
| `Properties.CleanTextAgrees` | apps/panel/src/server/modules/files/properties.ts:240-247 | a text whose only line separators are LF and CRLF meets what reading back asks of its lines |
| `Properties.NothingChangesIff` | apps/panel/src/server/modules/files/properties.ts:238-286 | applying no change keeps the settings if and only if no line but the last holds a setting that only a stray carriage return at its end hides |
| `Properties.LoneReturnExposesSetting` | apps/panel/src/server/modules/files/properties.ts:269-285 | an example: a stray carriage return before a line break hides a setting from the parser, and applying no change at all makes it appear |
| `PropertyValues.CoercedNumber` | apps/panel/src/server/modules/files/properties.ts:301-316 | a number in decimal notation is accepted if and only if it is whole and within bounds, and is written so that it reads back as the number submitted |
| `PropertyValues.ReadIntegerIff` | apps/panel/src/server/modules/files/properties.ts:300-308 | the texts read as whole numbers are digits with at most one sign in front, with their decimal value |
| `PropertyValues.AcceptedIsSubmittedIff` | apps/panel/src/server/modules/files/properties.ts:292-327 | for every other kind the value accepted is the one submitted, and it is accepted if and only if it is `true` or `false`, one of the options, or a single line |
| `PropertyValues.CoerceIsIdempotent` | apps/panel/src/server/modules/files/properties.ts:292-329 | an accepted value is accepted again, unchanged |
| `PropertyValues.AcceptedReadsBackIff` | apps/panel/src/server/modules/files/properties.ts:292-329 | an accepted value reads back from the file if and only if it is not free text beginning with white space or holding a Unicode line break |
| `Ulid.EncodeTime` | apps/panel/src/server/shared/ulid.ts:11-18 | the ten characters are the base-32 digits of the time, most significant first |
| `Ulid.EncodeRandom` | apps/panel/src/server/shared/ulid.ts:25-42 | in 32-bit wrapping arithmetic, the characters are the base-32 digits of the bytes read as one number, padded on the right |
| `Ulid.LexOrderIsNumeric` | apps/panel/src/server/shared/ulid.ts:6-6 | texts of the same length compare like the numbers they encode, and are equal only for equal numbers |
| `Ulid.Generator.Increment` | apps/panel/src/server/shared/ulid.ts:51-58 | the carry loop computes the incremented bytes |
| `Ulid.IncrementedAddsOne` | apps/panel/src/server/shared/ulid.ts:51-58 | the increment adds one to the 80-bit number, and wraps to zero from its last value |
| `Ulid.Generator.Next` | apps/panel/src/server/shared/ulid.ts:48-64 | the identifier is the 26 digits of the state's combined number, time before randomness |
| `Ulid.NextAscendsIff` | apps/panel/src/server/shared/ulid.ts:48-64 | one call ascends if and only if the clock moved forward, or stood still with the counter not exhausted |
| `Ulid.HistoryAscends` | apps/panel/src/server/shared/ulid.ts:48-64 | in any history of such calls every later identifier is lexicographically greater than every earlier one |
| `Ulid.AlwaysAscendsIff` | apps/panel/src/server/shared/ulid.ts:48-64 | every call of a history ascends if and only if the clock never goes back and no millisecond sees more calls than its counter, from its random start on, has values left |
| `Ulid.SteadyHistoryAscends` | apps/panel/src/server/shared/ulid.ts:8-64 | so for a steady clock with that room any two identifiers of a process are lexicographically ordered |
| `Ansi.StyleState.ApplySgr` | apps/panel/public/app.js:1653-1691 | the loop over the codes changes the style as the specification's fold does |
| `Ansi.AnsiToHtml` | apps/panel/public/app.js:1697-1729 | reading the HTML back (tags dropped, entities undone) yields exactly the visible characters, each under the style text of the SGR sequences before it |
| `Ansi.VisibleIsStripped` | apps/panel/public/app.js:1713-1727 | the visible characters are the input with every complete escape sequence removed |
| `Ansi.ReadEscaped` | apps/panel/public/app.js:1625-1627 | undoing the three entities gives back the escaped text |
| `Ansi.SgrIsSafe` | apps/panel/public/app.js:1643-1651 | no sequence of codes puts a character into the style that could end the attribute or the tag |
| `Ansi.IndexedColorConsumesOperand` | apps/panel/public/app.js:1677-1682 | `38;5;n` and `48;5;n` set one colour and consume their operand (section 8.3.117 of ECMA-48) |
| `Ansi.DirectColorConsumesOperands` | apps/panel/public/app.js:1683-1685 | `38;2;r;g;b` and `48;2;r;g;b` set one colour and consume their operands |
| `AnsiGrammar.EscapeAtIff` | apps/panel/public/app.js:1713-1714 | what is taken for a sequence at a position is exactly a complete sequence by the columns of the code table (section 5.4 of ECMA-48) |
| `AnsiGrammar.CodesOfNumbers` | apps/panel/public/app.js:1654-1654 | numbers written between semicolons are the codes, and no parameters mean a reset |
| `AnsiGrammar.CodeChanges` | apps/panel/public/app.js:1655-1676 | for each property of the style, exactly the codes that change it and to what |
| `AnsiGrammar.CodesActInOrder` | apps/panel/public/app.js:1655-1676 | codes act one after the other; what is no number is passed over |
| `AnsiGrammar.ExtendedColors` | apps/panel/public/app.js:1677-1686 | 38 sets the foreground and 48 the background, and nothing else, to a palette colour or one given by its components |
| `AnsiGrammar.BrokenColorIsDropped` | apps/panel/public/app.js:1677-1688 | a colour code with a missing or wrong mode or operand is dropped together with its mode |
| `AnsiGrammar.CubeIs` | apps/panel/public/app.js:1631-1640 | the colours from 16 on are a cube of six levels in each direction |
| `AnsiGrammar.NamedAndGrey` | apps/panel/public/app.js:1631-1640 | the first sixteen colours are the named ones and the last 24 are greys |
| `AnsiGrammar.RgbReads` | apps/panel/public/app.js:1636-1640 | a colour is three decimal numbers between commas, in the parentheses of `rgb` |
| `AnsiGrammar.StyleDeclaresColors` | apps/panel/public/app.js:1643-1651 | the style attribute declares exactly the colours the style holds |
| `AnsiGrammar.StyleDeclaresFont` | apps/panel/public/app.js:1643-1651 | and exactly its weight, opacity and underline; it is empty for a plain style only |
| `RateLimit.RateLimiter.Take` | apps/panel/src/server/modules/auth/ratelimit.ts:23-44 | the decision and the whole new table, with the order in which keys were first stored |
| `RateLimit.RateLimiter.Sweep` | apps/panel/src/server/modules/auth/ratelimit.ts:46-52 | once a minute, exactly the expired buckets go and the others keep their order |
| `RateLimit.SweptIff` | apps/panel/src/server/modules/auth/ratelimit.ts:46-52 | once a minute a bucket stays if and only if its window is open, unchanged and in its place; in between all stay |
| `RateLimit.SweepingIsInvisible` | apps/panel/src/server/modules/auth/ratelimit.ts:23-52 | while nothing is evicted, the limiter decides every call like one that never sweeps |
| `RateLimit.AtMostTwoQuotasPerWindow` | apps/panel/src/server/modules/auth/ratelimit.ts:23-44 | for a clock that does not go back, at most twice the quota of calls per key is accepted in any half-open span of one window |
| `RateLimit.LimitedIff` | apps/panel/src/server/modules/auth/ratelimit.ts:23-44 | a call is limited if and only if the newest window of its key is open and already holds `max` calls; the wait it is told is the least number of whole seconds, at least one, that reaches the end of the window |
| `RateLimit.TableStaysBounded` | apps/panel/src/server/modules/auth/ratelimit.ts:23-44 | after any history of calls from the empty table, whatever their times, at most `maxKeys` buckets are stored (one, if that is zero), the last caller's among them |
| `RateLimit.OldestGivesWay` | apps/panel/src/server/modules/auth/ratelimit.ts:26-33 | a call that needs a new bucket in a full table takes the place of the bucket stored first and of no other; otherwise it takes nobody's |
| `RateLimit.CommandBudget.TakeBudget` | apps/panel/src/server/http/console-gateway.ts:39-51 | the decision and the new list of the key; other keys are untouched |
| `RateLimit.BudgetStep` | apps/panel/src/server/http/console-gateway.ts:39-51 | a command is accepted if and only if fewer than twenty were accepted in the closed ten seconds before it |
| `RateLimit.AtMostTwentyPerTenSeconds` | apps/panel/src/server/http/console-gateway.ts:34-51 | at most twenty commands are accepted in any closed span of ten seconds |
| `Restore.Directories.Run` | apps/panel/src/server/modules/backups/service.ts:221-263 | a restore that succeeds leaves exactly the archive's tree; one that fails leaves the server directory and the displaced one as they were; a wrong checksum touches nothing |
| `Restore.SwapIsCrashConsistent` | apps/panel/src/server/modules/backups/service.ts:232-262 | at every point before a crash hits the gap between the renames, the server directory is complete, old or new, or absent while the complete old one stands aside and the complete new one is staged |
| `Restore.OneGapLosesNothing` | apps/panel/src/server/modules/backups/service.ts:255-262 | after one such crash, through every further step until the directory exists again, some directory holds a complete tree |
| `Restore.LostIff` | apps/panel/src/server/modules/backups/service.ts:234-262 | a run ever loses both trees if and only if one of its steps deletes or overwrites a file of the complete staged tree while the server directory is absent since at least two crashes and the tree that stood aside is broken |
| `Restore.GapIsReached` | apps/panel/src/server/modules/backups/service.ts:232-262 | for every two trees a run with one crash between the renames reaches the repairing restore with the old tree aside and the new one staged |
| `Restore.BothCanBeLost` | apps/panel/src/server/modules/backups/service.ts:232-262 | for every two trees with files a run with two crashes loses both |
| `Restore.SecondGapCanLoseBoth` | apps/panel/src/server/modules/backups/service.ts:234-259 | the four steps that do so from the reached state, when each tree loses one file |
| `Restore.FinishedIsNew` | apps/panel/src/server/modules/backups/service.ts:259-262 | whatever crashed before, a restore that reaches its end leaves exactly the new tree and nothing beside it |
| `Restore.NextRestoreRepairs` | apps/panel/src/server/modules/backups/service.ts:225-262 | whatever crashed before, from every idle state a further restore can run to its end, and then the directory is the archive's tree with nothing beside it |
| `Restore.FailedLeavesOld` | apps/panel/src/server/modules/backups/service.ts:225-262 | a failed extraction ends with the staged tree deleted and the other directories untouched |
| `Retention.ReserveName` | apps/panel/src/server/modules/backups/service.ts:131-152 | reservation ends, with the first name of the series that is not taken |
| `Retention.CandidatesDiffer` | apps/panel/src/server/modules/backups/service.ts:131-150 | no two attempts try the same name |
| `Retention.Backups.BeginCreate` | apps/panel/src/server/modules/backups/service.ts:131-152 | the reserved name is new on disk and the backup is pending under it |
| `Retention.Backups.FailCreate` | apps/panel/src/server/modules/backups/service.ts:162-174 | a failed archiving gives the reserved name back and leaves the table alone |
| `Retention.Backups.CompleteCreate` | apps/panel/src/server/modules/backups/service.ts:176-213 | the row is written, retention runs, and the record is found again unless retention purged it |
| `Retention.Backups.EnforceRetention` | apps/panel/src/server/modules/backups/service.ts:274-297 | exactly the rows behind the newest ten are marked and their files removed |
| `Retention.Backups.Remove` | apps/panel/src/server/modules/backups/service.ts:265-271 | a locked, purged or unknown backup is refused; any other is purged with its file |
| `Retention.Backups.Unlock` | apps/panel/src/server/modules/backups/service.ts:300-305 | exactly a live locked backup is unlocked |
| `Retention.RemovedIsGoneIff` | apps/panel/src/server/modules/backups/service.ts:265-271 | in every safe run a removal takes effect exactly for a live unlocked backup: it is no longer live, its file is gone, and every other backup keeps its row and file |
| `Retention.UnlockedCountsIff` | apps/panel/src/server/modules/backups/service.ts:300-305 | an unlocked backup counts for retention from then on, and nothing else changes |
| `Retention.FailedCreateLeavesNothing` | apps/panel/src/server/modules/backups/service.ts:131-174 | a create whose archiving fails at once leaves the store as it was before |
| `Retention.FailedIsGone` | apps/panel/src/server/modules/backups/service.ts:162-174 | in every safe run a failed create takes its own file and no other backup's |
| `Retention.CrashLeaves` | apps/panel/src/server/modules/backups/service.ts:131-271 | a crash forgets the backups being archived but not their files; inside a removal it leaves a live row without its file |
| `Retention.RunsAreSafe` | apps/panel/src/server/modules/backups/service.ts:131-152 | in every run, also with crashes at any point of retention and inside `remove`, in which no backup takes the name of a live row whose removal was cut off, every other live backup has its archive on disk, no two live or unfinished ones share a file, and no purged backup was locked |
| `Retention.ArchivesArePresent` | apps/panel/src/server/modules/backups/service.ts:131-152 | without such a cut-off removal that is every run, and every live backup has its archive |
| `Retention.LockedSurvives` | apps/panel/src/server/modules/backups/service.ts:265-297 | no step purges a locked backup or takes its archive |
| `Retention.CreateRetainsNewest` | apps/panel/src/server/modules/backups/service.ts:273-297 | after each create exactly ten unlocked backups are live, or all of them if there were fewer; none purged is newer than one kept, and no other row changes |
| `Retention.NewBackupIsPurgedIff` | apps/panel/src/server/modules/backups/service.ts:209-212 | a new unlocked backup is purged by its own create when ten live unlocked ones are newer, kept when fewer than ten are as new, and with no equal times exactly then |
| `Retention.NamesStayDistinctIff` | apps/panel/src/server/modules/backups/service.ts:265-297 | file names stay distinct throughout a run if and only if no backup takes the name of a live row whose removal was cut off between deleting the file and marking the row; a cut-off retention does no harm |
| `Allocations.Database.ClaimFreePort` | apps/panel/src/server/modules/servers/repo.ts:210-222 | the scan yields the specification's free port |
| `Allocations.Database.CreateOnce` | apps/panel/src/server/modules/servers/repo.ts:143-204 | one transaction: the outcome, and the new tables or the old ones unchanged |
| `Allocations.Database.Create` | apps/panel/src/server/modules/servers/repo.ts:125-141 | only a broken uniqueness constraint is retried; it fails that way if and only if all five attempts do, and a failure changes nothing |
| `Allocations.Database.Assign` | apps/panel/src/server/http/routes/allocations.ts:71-114 | the swap happens whole or not at all |
| `Allocations.Database.Release` | apps/panel/src/server/http/routes/allocations.ts:178-199 | the handler's outcome and effect |
| `Allocations.Database.Remove` | apps/panel/src/server/modules/servers/repo.ts:352-366 | the server is marked deleted and all its allocations are released |
| `Allocations.CreatedPort` | apps/panel/src/server/modules/servers/repo.ts:187-234 | a create takes the preferred port only if nobody uses it, and otherwise the least port of the range not taken on all interfaces |
| `Allocations.UniqueFailsIff` | apps/panel/src/server/modules/servers/repo.ts:128-141 | given a free port in range, an attempt breaks a uniqueness constraint if and only if an identifier repeats |
| `Allocations.CreateOutcomeIff` | apps/panel/src/server/modules/servers/repo.ts:143-234 | each answer of a create, and exactly when it is given; without a preferred port only a full range, a repeated identifier or nothing stands against it |
| `Allocations.AssignOutcomeIff` | apps/panel/src/server/http/routes/allocations.ts:71-114 | each answer of an assignment, and exactly when it is given |
| `Allocations.SwapIsAtomic` | apps/panel/src/server/http/routes/allocations.ts:88-114 | an assignment takes effect if and only if the port is valid, no other server's allocation clashes and the identifier is new; then the server holds exactly the new address and the others theirs |
| `Allocations.CreateIsWhole` | apps/panel/src/server/modules/servers/repo.ts:143-204 | a create gives the new server exactly one allocation and leaves every other server alone; a failed one changes nothing |
| `Allocations.RemoveIsWhole` | apps/panel/src/server/modules/servers/repo.ts:352-366 | a removal takes the server and what it held, and leaves every other server alone |
| `Allocations.ClashesIff` | apps/panel/src/server/http/routes/allocations.ts:76-91 | an assignment is refused for exactly the ports another server holds at an address that meets the requested one |
| `Allocations.StepKeepsApartIff` | apps/panel/src/server/http/routes/allocations.ts:76-114 | every step keeps the addresses in use apart, one on all interfaces counting as all, except exactly a create whose scan finds a port that a server holds on a single interface |
| `Allocations.PreferredIsApart` | apps/panel/src/server/modules/servers/repo.ts:228-234 | a preferred port is never such a port |
| `Allocations.ReachableIsValid` | apps/panel/src/server/http/routes/allocations.ts:76-87 | in every reachable table each server has exactly one unreleased allocation, a deleted one none, and no address is used twice |
| `Allocations.ReleaseNeverSucceeds` | apps/panel/src/server/http/routes/allocations.ts:185-196 | releasing a port never succeeds in a reachable table |
| `Activity.AuditLog.Record` | apps/panel/src/server/modules/audit/service.ts:22-53 | a row is appended and the log stays ascending |
| `Activity.PageIs` | apps/panel/src/server/http/routes/activity.ts:41-66 | a page is the front of what remains, a cursor is given if and only if more remains, and it stands for exactly the rest |
| `Activity.ActivityIsFront` | apps/panel/src/server/modules/audit/service.ts:124-141 | the query returns the newest rows below the cursor, as many as asked for within 1 and 101, or all there are |
| `Activity.SelectIgnoresNewer` | apps/panel/src/server/modules/audit/service.ts:124-141 | rows appended above the cursor are not seen |
| `Activity.SelectHasAll` | apps/panel/src/server/modules/audit/service.ts:124-141 | no row of the server below the cursor is missing |
| `Activity.SelectDescends` | apps/panel/src/server/modules/audit/service.ts:137-141 | rows come newest first, each once |
| `Activity.FeedIsComplete` | apps/panel/src/server/http/routes/activity.ts:41-66 | following the cursor to its end returns exactly the server's rows present at the first page, whatever is appended between pages, for any page size from 1 to 100 |
| `Activity.FeedEnds` | apps/panel/src/server/http/routes/activity.ts:41-66 | every page but the last is full, so the end is reached |

## Left out

- HTTP routing, schemas, permissions, Socket.IO, DOM rendering and the rest of the client: plumbing.
- SQL text and the driver: tables are maps, and the partial unique index is a condition of the insert.
- Child processes, archive tools, hashing and downloads: their results are parameters.
- Console: the engine object lives for the whole run; a restart of the panel, which resets line numbers and runs, is not modelled, nor is `forget`.
- Console: one server and one view; opening the same server again without leaving it, when an old socket is still open, is covered only by `Console.ConsoleClient.OnMessage`.
- Console: statistics, revocation messages and the time stamps of lines.
- ConsoleProtocol.StepIsSafeIff: at most one REST reading is served and not yet answered; a second one replaces it, so two overlapping readings are outside the machine.
- Output.LineFeeder.Feed: one stream; a server has two such accumulators, and bytes are already decoded to characters. Lengths count Unicode characters, where JavaScript counts UTF-16 units.
- ProcessSlot.OneTrackedChild: spawns fail by an error event or a throw only, and a server is not deleted while its child runs; agreement of the recorded runtime state with the slot is not claimed, because the write after the grace period can overwrite it.
- Placeholder substitution in start commands, stop commands and signals, and the resolution of executables.
- CronSchedules.Schedules.Finalize: reading the row and writing it is one step; between two panel processes an edit could fall between them.
- CronSchedules.Schedules.Update: names, the online-only flag and the task list, and what the tasks do; only how long an execution lasts matters to the lease.
- CronExpression.AcceptedIsEntry: numerals are strings of digits, with the empty one counting as 0 as it does in the source; hexadecimal, signed, fractional and exponent forms, which JavaScript's `Number` also reads, are not modelled.
- Cron.NextRunIsLeast: instants outside the range of JavaScript dates.
- Confinement.ConfinePath: the file system does not change during the walk; drive letters and other Windows path forms are not modelled.
- Archive.Staging.MaterializeLinks: the staging directory is given by its real path; permissions and hard links are not modelled.
- Filesystem.GroundedRealpath: `realpathSync` is modelled after the JavaScript version in Node, which is not part of the repository: at a link the kernel can `stat` it starts again with the target resolved lexically. Its cache of links already read and its early end at pipes and sockets are not modelled; the kernel follows at most 40 links, as Linux does.
- Filesystem.NodeWalkMoreFuel: a call of `realpathSync` that restarts more often than a bound is taken not to return; every theorem holds for any bound, or any from 40 or from 1 on.
- Member validation and leading-directory stripping of archives.
- Properties.ParseProperties: the table of known keys is not attached to the parsed settings.
- PropertyValues.CoercedNumber: whole numbers in decimal notation only; all bounds in the table are far below 2^53, so rounding does not matter.
- Ansi.StyleState.ApplySgr: parameters above 2^53 are exact here and rounded in JavaScript, and a digit string so long that JavaScript reads it as Infinity, and then skips the code, is a number like any other here.
- Ulid.EncodeTime: the random bytes are a parameter.
- RateLimit.RateLimiter.Take: the limiter is per process; the retry delay is computed as the source does but nothing more is claimed about it.
- Restore.SwapIsCrashConsistent: one restore at a time, of one backup, with the server stopped throughout; a rename is atomic.
- Retention.RunsAreSafe: the backups of one server; nothing else deletes files in its directory.
- Retention.NewBackupIsPurgedIff: with equal creation times the query's order among them decides, which SQL leaves open.
- Activity.FeedIsComplete: whole numbers stand for identifiers, and a later row has a larger one; the cursor is not the empty string.
- Server status, permission intersection, Java version ranges, migrations, endpoint names and usage rates: left out because they would only add easy members.
