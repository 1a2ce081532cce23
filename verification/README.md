# A verified model of the agent_takkub cockpit

The cockpit runs several coding agents in terminal panes, hands them cards from a backlog, and keeps itself going:
it migrates its data at boot, watches its own main thread, files issues about itself and searches its archives.
This project models the parts of it that are protocols or algorithms and proves what they keep over whole runs.
`dafny verify dfyconfig.toml` checks everything.

Where the program changes state in place, there are three layers: methods with the fields, branches and loops of
the source; specification functions the methods are proved against; and lemmas about whole runs of those functions. Disk, clock, subprocesses, Qt and the migration engine are
parameters or steps of an arbitrary environment. Times are integers (microsecond ticks) or reals.

| files | what they model |
|---|---|
| `BacklogModel`, `BacklogStore` | cards and their hand-offs: the operations as functions, and as methods over the stored list |
| `BacklogEffects`, `BacklogAssigns` | what one operation does to a card, said of the card before and after |
| `BacklogFanOut`, `BacklogLifecycle`, `BacklogSuperseded`, `BacklogReconcile`, `BacklogRoundTrip`, `BacklogReachable` | what the backlog promises over runs |
| `MarkdownRow`, `MarkdownBareRow` | the rows of the tables that cards are imported from |
| `SpawnHandoff` | two threads handing over a new process under a deadline |
| `IssueCap`, `IssueReporter`, `IssueCapRuns`, `IssueCapBlock`, `IssueCapRestarts` | the shared cap on filed issues, that nothing is refused in vain, and when a process may end |
| `MigrationProgress`, `MigrationRun`, `MigrationProgressRuns`, `MigrationPercent`, `MigrationFiles` | the progress stream of a migration, what its percentages say, and the files counted within its steps |
| `BootGuard`, `BootGuardRuns` | the boot-time migration stage and its retry guards |
| `StructureJoin`, `WizardWorkers`, `BootWizard` | the boot wizard's join and the lifetime of its threads |
| `Watchdog`, `WatchdogLoop`, `WatchdogRuns` | stall tracker, dump flags and dead-man switch |
| `Render`, `RenderRuns` | render coalescing and session generations of a pane |
| `SkillInstall` | installing selected skills in two ways |
| `AgySync`, `AgySyncRuns` | syncing MCP servers into a file the user also edits |
| `SignalScan`, `SignalScanRules`, `SignalScanRecords`, `SignalScanAlone` | the one-pass log scan for runtime signals, which records matter to a rule, and where rules touch each other |
| `Bm25`, `Bm25Ranking`, `Bm25Tokens` | tokenizer, index and ranking, and what tokens and scores mean |
| `Wrappers` | options, and the first and last index with a property |

## What is not so

Several promises turned out to need a condition, or to be false as documented. The code is modelled as it is.

- A fanned-out card does not wait for its own ids only: a report of another id that names the card finishes an open
  hand-off of its role. `BacklogFanOut.StrayReportExactly` gives the exact condition,
  `BacklogFanOut.StrayReportClosesEarly` such a report.
- Assign and cancel do not restore every card: one that was blocked, or given a reason, while a hand-off was open comes
  back unblocked. `BacklogReachable.ReachableTripRestores` gives the exact condition for every list operations lead to,
  `BacklogReachable.BlockedCardIsUnblocked` such a card.
- The two ways of installing skills do not always leave the same tree: `SkillInstallAgreement.PathsAgreeExactly` is an if
  and only if over every run of the command, with its escapes and with backups and restores that fail. They differ on a
  selected entry that is a link (staging follows it, or fails on it; the in-place way keeps it), on an entry the user did
  not select that is rewritten in a way its signature does not see (an empty directory, a link to a directory inside it),
  and on an escape under a name that existed: staging refuses the run, the in-place way looks at new names only.
- The documentation of the installer says that an escape undoes a whole install. In place it need not:
  `SkillInstallAgreement.EscapeUndoneExactly`, and two inputs, `OldNameEscapeInstalls` and `SelectedEscapeStays`.
- A scan of all signal rules is not a scan of each rule alone: another rule's wider window decides how far back the pauses
  that excuse a stall are looked for. `SignalScanAlone.LoneScanAgreesExactly` gives the exact condition, and
  `SignalScanAlone.OtherRuleExcuses` a log on which two of the shipped rules differ from one. The widest scan forgets
  pauses as well: `SignalScanAlone.ForgottenMarksExactly`.
- A sync that saves the configuration but not its record leaves an entry no later sync will ever touch:
  `AgySyncRuns.OrphanedExactly`, `AgySyncRuns.LostRecordOrphansEntry`. So does a sync that cannot read its record and
  writes it anew, for every entry there was: `AgySyncRuns.UnreadKeepsRecordExactly`.
- The issue cap survives a restart only if every grant since the last save is a day old, and a new process must read the
  disk: `IssueCapRestarts.RestartExactly`, `IssueCapRestarts.UnreadDiskFilesAgain`. A save that fails is harmless once a
  later one succeeds.
- A version can roll a step back more than once. The version marker is written again after data was moved, also when it is
  to be skipped and even twice in one boot: `BootGuardRuns.MarkerRolledBackAgain`, `BootGuardRuns.TwiceInOneBoot`. And a
  run of the whole ladder replaces the state file and with it the per-step guards: `BootGuardRuns.LadderRunForgetsGuard`.
- The boot wizard cuts only threads that still run when the gate leaves. An answer already on its way still starts a
  worker, and the wizard is not kept alive for it unless it lingers for another: `StructureJoin.LateAnswerStillDrives`,
  `WizardWorkers.KeptAliveExactly`, `WizardWorkers.LateWorkerLosesWizard`.
- The files shown within a migration step do not always add up over its entries: the next entry is noticed only if its
  count starts below the total of the one before, which it does not after an entry of one file.
  `MigrationFiles.PassesAddUpExactly` gives the exact condition.
- A row without outer pipes loses the escaped pipe it ends in, and an empty cell at either end:
  `MarkdownBareRow.BareRowExactly`.

## Model

| member | source | states |
|---|---|---|
| BacklogFanOut.FanOut | src/agent_takkub/backlog.py:237-311 | With hand-offs to panes bound to distinct ids, any that the lead keeps for itself, and any left without an id by an assign that was tried again, a card is still being worked on until every awaited id is among the reports, in any order and with any repetition; then it is done if it was made automatically and in review otherwise. |
| BacklogFanOut.AllReportedExactly | src/agent_takkub/backlog.py:283-291 | The test the code makes on the remaining links is passed exactly when every awaited id was reported. |
| BacklogFanOut.ReportsKeepInv | src/agent_takkub/backlog.py:237-296 | Every prefix of reports leaves each link as it was except that it is done exactly if its id was reported, and superseded exactly if it had no id and a link of its role that is not older was reported, and leaves other cards ignorant of the ids. |
| BacklogFanOut.OwnReport | src/agent_takkub/backlog.py:254-295 | A report of a card's own id marks the link with that id and no other. |
| BacklogFanOut.ForeignReport | src/agent_takkub/backlog.py:248-295 | A report of a foreign id leaves the card as it is, up to its time stamp, unless it names the card with a role that fits a hand-off. |
| BacklogFanOut.StrayReportExactly | src/agent_takkub/backlog.py:255-275 | A report of a foreign id that names the card changes its hand-offs if and only if its role fits an open one (reviewer hand-offs for qa and critic). |
| BacklogFanOut.StrayReportClosesEarly | src/agent_takkub/backlog.py:255-296 | A card waiting for one id is closed by the report of another id under the same role. |
| BacklogEffects.HitExactly | src/agent_takkub/backlog.py:254-275 | A report reaches the first link with its id; without one, if it names card and role, the last open one of the role, and for qa and critic else the last open reviewer's; and otherwise none. |
| BacklogEffects.AboutExactly | src/agent_takkub/backlog.py:248-277 | A report is about a card exactly if it is being worked on, not another than the one named, and has such a link or was assigned by hand for the task. |
| BacklogEffects.ReportGoesToFirst | src/agent_takkub/backlog.py:244-296 | The first such card changes and no other; a report without an id, or about no card, changes nothing. |
| BacklogEffects.ReportMarksExactly | src/agent_takkub/backlog.py:267-290 | The link reached is done; every other link of its role without an id that is not newer is superseded; no other link changes. |
| BacklogEffects.ReportFinishesExactly | src/agent_takkub/backlog.py:291-311 | The card is finished, by its kind, exactly if every hand-off to a pane is then done or superseded. |
| BacklogEffects.RetryIsGivenUp | src/agent_takkub/backlog.py:278-292 | A hand-off that was tried again: the report of the second gives up the first and sends the card to review. |
| BacklogEffects.ReleasedExactly | src/agent_takkub/backlog.py:314-357 | A pass makes a link done exactly if the ledger says its task went well, and ended exactly if it was closed or superseded; it releases a card exactly if it learned something and every end is known; and the card is finished by its kind if some pane did its work, and otherwise in review as ended without a report. |
| BacklogEffects.PassExactly | src/agent_takkub/backlog.py:314-357 | A pass without a card to release saves nothing, and any other saves what it learned of every card being worked on. |
| BacklogEffects.UnreportedNeverCloses | src/agent_takkub/backlog.py:337-357 | A card whose panes neither reported nor went well in the ledger is never closed by a pass. |
| BacklogLifecycle.RunKeepsDone | src/agent_takkub/backlog.py:153-612 | Over every run of all operations no finished hand-off of a card is un-done, rebound, given to another role or popped, and every finished one carries a task id, unless the card itself is removed. |
| BacklogLifecycle.StepKeeps | src/agent_takkub/backlog.py:153-612 | One operation of any kind keeps the finished hand-offs of every card it does not remove. |
| BacklogSuperseded.RunGivesUpUnbound | src/agent_takkub/backlog.py:153-612 | In every run, whatever its operations, a card's links stay in place, link by link, and one becomes superseded only without a task id and is otherwise unchanged by that; new links are not superseded, and a cancel leaves all but the popped one as they were. |
| BacklogSuperseded.StepGivesUpUnbound | src/agent_takkub/backlog.py:153-612 | The same for one operation of any kind on any list. |
| BacklogLifecycle.SupersededWasUnbound | src/agent_takkub/backlog.py:278-290 | In a report, the link that supersedes it is a newly finished one of its role that is not older. |
| BacklogLifecycle.CancelKeeps | src/agent_takkub/backlog.py:428-452 | Canceling never takes a finished hand-off away, even where it deletes a card. |
| BacklogLifecycle.BindKeeps | src/agent_takkub/backlog.py:518-556 | Binding a task id never touches a finished hand-off. |
| BacklogLifecycle.RetargetKeeps | src/agent_takkub/backlog.py:455-467 | Retargeting never touches a finished hand-off. |
| BacklogLifecycle.ReconcileKeeps | src/agent_takkub/backlog.py:314-357 | A reconcile pass un-does and rebinds nothing. |
| BacklogReconcile.ReconcileConfluence | src/agent_takkub/backlog.py:314-357 | Along ledgers that keep earlier terminal statuses, a pass after each leaves every card with the status and reason one pass with the last ledger gives, although marks are saved only when some card changed. |
| BacklogReconcile.ReconcileTwice | src/agent_takkub/backlog.py:314-357 | A second pass with the same ledger changes nothing. |
| BacklogReconcile.ChangedExactly | src/agent_takkub/backlog.py:314-357 | The pass reports no card exactly when no card changes. |
| BacklogRoundTrip.RoundTrip | src/agent_takkub/backlog.py:405-452 | What any nest of k assigns canceled in reverse order leaves behind, for every card. |
| BacklogRoundTrip.RoundTripRestores | src/agent_takkub/backlog.py:405-452 | Such a nest restores the list, the time stamp aside, if and only if the card was restorable, which is a test on the card before it; for any list at all. |
| BacklogReachable.ReachableTripRestores | src/agent_takkub/backlog.py:153-612 | On every list operations lead to from an empty one, it restores the list, the time stamp aside, if and only if the hand-offs before it were all done or the card was being worked on without a reason. |
| BacklogReachable.RunKeepsHandedOff | src/agent_takkub/backlog.py:428-515 | A card made for an assign always has a hand-off: it is saved with its first and goes with its last. |
| BacklogReachable.BlockedCardIsUnblocked | src/agent_takkub/backlog.py:207-216 | A card blocked while a hand-off is open is unblocked by an assign that is canceled. |
| BacklogRoundTrip.EnsureThenCancel | src/agent_takkub/backlog.py:470-515 | Creating a card for an assign and canceling it restores the list exactly. |
| BacklogAssigns.BindExactly | src/agent_takkub/backlog.py:518-556 | A task id goes to an open link of the role, without an id if any such is, on the card updated last, the first of equals, and there to the newest; if there is no open link, nothing changes. |
| BacklogAssigns.NamedAssignExactly | src/agent_takkub/backlog.py:485-499 | An assign to a card is refused exactly if the card is done or not wanted, and is new work exactly if it was not being worked on. |
| BacklogAssigns.UnnamedAssignMakesCard | src/agent_takkub/backlog.py:500-515 | With no card made for the task within two minutes and still being worked on, an assign makes one, with the next number and that one hand-off. |
| BacklogAssigns.UnnamedAssignReuses | src/agent_takkub/backlog.py:500-515 | Otherwise it goes to the first of them and is not new work. |
| BacklogAssigns.CancelExactly | src/agent_takkub/backlog.py:428-452 | A cancel takes the newest hand-off of the role without an id away; if all that remain are done, a card made for an assign goes with its last, and any other gets back status and reason from before. |
| BacklogAssigns.RetargetExactly | src/agent_takkub/backlog.py:455-467 | The newest hand-off of the old role without an id changes its role, and no other. |
| BacklogAssigns.LinkExactly | src/agent_takkub/backlog.py:405-425 | A hand-off is added last, open and without an id, keeping the status and the reason the card had. |
| BacklogAssigns.AddExactly | src/agent_takkub/backlog.py:153-193 | A card without a title is not added; any other comes last with the number one above the largest. |
| BacklogAssigns.StatusExactly | src/agent_takkub/backlog.py:196-216 | The first card of the id gets status and reason, and its review clock runs exactly in review. |
| BacklogAssigns.ByHandExactly | src/agent_takkub/backlog.py:231-234 | A card assigned by hand is being worked on for the task, its links untouched. |
| BacklogAssigns.LeadMakesCard | src/agent_takkub/backlog.py:570-585 | Work the lead starts makes a card with one hand-off to the lead itself. |
| BacklogAssigns.LeadNamesCard | src/agent_takkub/backlog.py:570-582 | On a card the lead is refused and starts as any role does. |
| BacklogStore.Store.OnLedgerDone | src/agent_takkub/backlog.py:237-296 | The search over cards and links, the marking and the superseding, in place, amount to the specified report. |
| BacklogStore.Store.ReconcileEndedTasks | src/agent_takkub/backlog.py:314-357 | The pass over all cards with its partial marks amounts to the specified pass, and returns the changed cards. |
| BacklogStore.Store.LinkAssign | src/agent_takkub/backlog.py:410-425 | The hand-off is added with the card's earlier status and reason. |
| BacklogStore.Store.CancelUnstartedAssign | src/agent_takkub/backlog.py:428-452 | The newest unbound hand-off of the role is popped, the card restored or deleted. |
| BacklogStore.Store.RetargetUnstartedLink | src/agent_takkub/backlog.py:455-467 | The newest unbound link of the old role is given to the new role. |
| BacklogStore.Store.EnsureForAssign | src/agent_takkub/backlog.py:470-515 | An assign gets the named card, a recent automatic card of the same task, or a new one, and refuses closed and unknown cards. |
| BacklogStore.Store.FindBinding | src/agent_takkub/backlog.py:518-556 | The sort and the two loops find the newest fitting card and its newest fitting link. |
| BacklogStore.Store.BindTaskId | src/agent_takkub/backlog.py:518-556 | A ledger id is bound to the newest open link of the role, preferring links without an id. |
| BacklogStore.Store.AddItem | src/agent_takkub/backlog.py:153-193 | A card is appended, the others stay, and its number is above all of theirs. |
| BacklogStore.Store.SetStatus | src/agent_takkub/backlog.py:196-216 | Status and reason of one card change, and its review clock is started or cleared. |
| MarkdownRow.RowRoundTrip | src/agent_takkub/backlog.py:672-679 | A row written with outer pipes is split into its cells again if and only if each is trimmed and has no unescaped pipe. |
| MarkdownRow.ReadWriteRead | src/agent_takkub/backlog.py:672-679 | Writing the cells read from any line and reading them again changes nothing. |
| MarkdownRow.CellsArePlain | src/agent_takkub/backlog.py:672-679 | Every cell of every line is trimmed and has no unescaped pipe. |
| MarkdownRow.BareCellExactly | src/agent_takkub/backlog.py:672-679 | Exactly when a single cell without outer pipes comes back. |
| MarkdownBareRow.BareRowExactly | src/agent_takkub/backlog.py:672-679 | A row without outer pipes is split into its cells again if and only if each is plain, the first and the last are not empty unless there is just one, and no pipe ends the last. |
| SpawnHandoff.NoLeakNoDoubleOwner | src/agent_takkub/_pty_backend.py:302-356 | In every interleaving no process is both returned and killed, and once both threads are done, the created one was one or the other. |
| SpawnHandoff.OutcomeIsFinal | src/agent_takkub/_pty_backend.py:302-356 | The caller has exactly one outcome. |
| SpawnHandoff.ErrorWasStored | src/agent_takkub/_pty_backend.py:326-356 | An error reaches the caller only if the native call raised it and it was stored before the caller gave up. |
| SpawnHandoff.CallerIsNeverStuck | src/agent_takkub/_pty_backend.py:302-356 | A native call that never returns does not hold the caller. |
| SpawnHandoff.RunsAreBounded | src/agent_takkub/_pty_backend.py:302-356 | No run has more than seven steps. |
| SpawnHandoff.InvHolds | src/agent_takkub/_pty_backend.py:302-356 | At every point exactly one party answers for the process. |
| IssueCapRuns.CapAndCooldownHold | src/agent_takkub/auto_issue_capture.py:209-346 | In any interleaving of crash hooks, crash workers and signal reporters, with the clock of each section running on and that of the hooks in any order, six grants span 24 hours and two of one signature lie 24 hours apart, if a process ends only when its unsaved grants are a day old and one that has recorded nothing reads the disk; all other reads may return anything and any save may fail. |
| IssueCapRuns.AnyWindow | src/agent_takkub/auto_issue_capture.py:209-346 | No 24 hours from any start hold more than five grants. |
| IssueCapRuns.RoomForOne | src/agent_takkub/auto_issue_capture.py:238-255 | Fewer than five stamps in the window mean fewer than five grants in it, since stamps are distinct and not earlier than their grants. |
| IssueCapRuns.StampIsNew | src/agent_takkub/auto_issue_capture.py:255-256 | A stamp is not before the clock and after every stamp of the window. |
| IssueCapRuns.SectionKeeps | src/agent_takkub/auto_issue_capture.py:209-346 | One section under the lock keeps the disk accountable for what was granted before the last save, and memory for everything. |
| IssueCapRuns.InvHolds | src/agent_takkub/auto_issue_capture.py:209-346 | So they are after every such run, at any later time. |
| IssueCapRuns.OneProcessIsCareful | src/agent_takkub/auto_issue_capture.py:209-346 | Runs of a single process need no condition, whatever reads return and saves fail. |
| IssueCapRuns.DurableIsCareful | src/agent_takkub/auto_issue_capture.py:209-346 | Nor do processes after one another over a disk that works. |
| IssueCapBlock.GrantedExactly | src/agent_takkub/auto_issue_capture.py:224-256 | A section grants exactly if neither source has an issue of the signature within the day and fewer than five different stamps of both are of the day; it is capped exactly if only the latter fails. |
| IssueCapBlock.StampExactly | src/agent_takkub/auto_issue_capture.py:255-256 | A grant is stamped with its time, or one tick above the newest stamp of the day if that is not earlier. |
| IssueCapBlock.BlockedUntilOldest | src/agent_takkub/auto_issue_capture.py:246-253 | A capped section blocks reports until the oldest stamp of the day is a day old. |
| IssueCapBlock.BlockHolds | src/agent_takkub/auto_issue_capture.py:224-253 | In every run, whatever is read and saved and whoever restarts, memory holds five stamps of the day as long as the block lasts. |
| IssueCapBlock.FastPathIsExact | src/agent_takkub/auto_issue_capture.py:224-256 | So the block never refuses a signal that a look at the stamps would grant. |
| IssueCapBlock.KnownWasFiled | src/agent_takkub/auto_issue_capture.py:209-346 | In every run all stamps and signatures in memory were granted, or read by some section. |
| IssueCapBlock.RefusedForAReason | src/agent_takkub/auto_issue_capture.py:209-263 | A signal is turned away only if an issue of its signature was granted, or read to be, within a day, or five stamps of the day were. |
| IssueCapBlock.HookRemembers | src/agent_takkub/auto_issue_capture.py:278-326 | What the crash hook remembers of a signature is its last crash that started a worker, unless one was capped or the process restarted since. |
| IssueCapBlock.WorkerStartsExactly | src/agent_takkub/auto_issue_capture.py:278-289 | A crash starts a worker exactly if reports are not blocked and no such crash was within a day; and while they are blocked, five stamps are of the day. |
| IssueCapRestarts.RestartExactly | src/agent_takkub/auto_issue_capture.py:209-346 | After a run that read the disk, cap and cooldown hold however it goes on after a restart over a disk that works, if and only if every grant since the last save is a day old. |
| IssueCapRestarts.UnreadDiskFilesAgain | src/agent_takkub/auto_issue_capture.py:209-346 | A process that starts within a day of a grant and reads nothing files it again. |
| IssueCapRestarts.LostSaveBreaksCooldown | src/agent_takkub/auto_issue_capture.py:209-263 | One failed save, a restart and a read of the untouched disk let the same signature be filed twice. |
| IssueReporter.Reporter.ReserveSignature | src/agent_takkub/auto_issue_capture.py:209-263 | The signal reporter's section on the module's globals amounts to the specified decision. |
| IssueReporter.Reporter.Worker | src/agent_takkub/auto_issue_capture.py:298-346 | So does the crash worker's, which the block does not hold back. |
| IssueReporter.Reporter.MergedSignatures | src/agent_takkub/auto_issue_capture.py:229-232 | Merging memory and disk keeps the later stamp of each signature. |
| IssueReporter.Reporter.FiredInWindow | src/agent_takkub/auto_issue_capture.py:238-245 | The list compared with the cap is the sorted set of all stamps of the window. |
| IssueCap.Recent | src/agent_takkub/auto_issue_capture.py:238-245 | The stamps of the window, strictly ascending, none lost and none added. |
| MigrationProgressRuns.StreamIsMonotone | src/agent_takkub/boot_flow.py:743-1012 | For every sequence of callbacks phases and percentages never fall, percentages stay in 0..100 and are 100 just in phase 5, no count exceeds its total, and the grand total is the sum of the phase totals. |
| MigrationProgressRuns.EmitKeeps | src/agent_takkub/boot_flow.py:743-854 | One event keeps all that, also when it grows or replaces a total. |
| MigrationProgressRuns.CountersRefine | src/agent_takkub/boot_flow.py:879-916 | The counter of a step is the count of first occurrences computed from the history. |
| MigrationProgressRuns.CounterIsSumOfNames | src/agent_takkub/boot_flow.py:879-916 | The counter depends on the set of reported names only, not on order or repetition. |
| MigrationPercent.PercentIsShare | src/agent_takkub/boot_flow.py:802-808 | The percentage of an event before the last phase is that of the finished phases' totals and the part of the current one in all work, at most 99. |
| MigrationPercent.CallbackShows | src/agent_takkub/boot_flow.py:743-987 | In every run each callback that is to be shown sends one event, of its phase or the highest so far, with the count computed from the history, and its percentage is that share unless an earlier event showed more. |
| MigrationPercent.MoreWorkShowsMore | src/agent_takkub/boot_flow.py:802-812 | In the same phase and plan a larger count never shows less, and shows more below 99 if the smaller one was the highest. |
| MigrationPercent.EmitShows | src/agent_takkub/boot_flow.py:743-854 | One event, with its share, its step and files, and as total the given one, the planned one, or the count that outgrew it. |
| MigrationPercent.BackupCompletes | src/agent_takkub/boot_flow.py:719-731 | Once exactly the planned entries were reported, the counter of the backup is the planned number of files. |
| MigrationPercent.StartsWithPlan | src/agent_takkub/boot_flow.py:719-731 | A run starts with the planned totals, at least one for each phase. |
| MigrationPercent.HalfOfTheBackup | src/agent_takkub/boot_flow.py:802-808 | Half of a hundred files, with one item to promote and one to archive, shows 50 of 102 parts. |
| MigrationPercent.EndsWithAll | src/agent_takkub/boot_flow.py:1012-1045 | A migration ends with one event of the last phase, at 100. |
| MigrationFiles.FilesNeverFall | src/agent_takkub/boot_flow.py:924-951 | The files done within a step never fall when the engine's counts are within their totals, across all its entries. |
| MigrationFiles.TotalsNeverFall | src/agent_takkub/boot_flow.py:861-951 | For every sequence of callbacks in which each step reports pass after pass over the files of its entries, each pass up to its own total, and stops anywhere, neither the files done nor their total ever fall within a step. |
| MigrationFiles.FilesShownExactly | src/agent_takkub/boot_flow.py:924-951 | An event about files shows the report and on top the totals after which the count of its step fell. |
| MigrationFiles.PassesAddUpExactly | src/agent_takkub/boot_flow.py:924-951 | In any pass over an entry the files shown are those of all passes before and of this one, if and only if every pass over some files is followed by one that starts below its total; otherwise they are fewer. |
| MigrationFiles.PassesAreOrderly | src/agent_takkub/core/migration/verify_copy.py:51-66 | In a sequence of such passes a report either goes on in its pass or follows the end of one. |
| MigrationRun.Runner.Emit | src/agent_takkub/boot_flow.py:743-854 | The closure's updates of the shared variables, branch by branch, amount to one more event; the earlier ones stay. |
| MigrationRun.Runner.OnEntry | src/agent_takkub/boot_flow.py:879-916 | After the callback the events rise, stay within totals that add up, the old ones stay, and the counter it shows is the weight of all names reported for the step. |
| MigrationRun.Runner.OnFileProgress | src/agent_takkub/boot_flow.py:924-951 | One more event, the promises kept, no counter touched; and while the engine keeps its protocol, files and their total have not fallen. |
| MigrationRun.Runner.OnValidateStep | src/agent_takkub/boot_flow.py:953-987 | One more event exactly for a domain step, the promises kept and no counter touched. |
| MigrationRun.Runner.OnText | src/agent_takkub/boot_flow.py:918-922 | One more event, the promises kept and no counter touched. |
| BootGuardRuns.RolledBackAgain | src/agent_takkub/auto_migrate_boot.py:498-613 | A version rolls a step back in two boots only if in between another version rolled it back or a run of the whole ladder replaced the state file, or if it is the marker written after moving data, for boots of any versions and layouts. |
| BootGuardRuns.OncePerVersion | src/agent_takkub/auto_migrate_boot.py:498-613 | Boots of one version on a promoted layout, with saves succeeding, roll a step back in at most one of them, the marker written after moving data excepted. |
| BootGuardRuns.MarkerRolledBackAgain | src/agent_takkub/core/migration/engine.py:694-699 | A boot that moves data writes the version marker although it is to be skipped, and rolls it back again. |
| BootGuardRuns.TwiceInOneBoot | src/agent_takkub/auto_migrate_boot.py:583-600 | Within one boot a step is rolled back more than once if and only if two of its reports are hard failures. |
| BootGuardRuns.SkippedExactly | src/agent_takkub/auto_migrate_boot.py:500-528 | A step is skipped exactly if the running version is the last that rolled it back. |
| BootGuardRuns.GuardIsLastRollback | src/agent_takkub/auto_migrate_boot.py:601-606 | The guard map is the history of remembered rollbacks. |
| BootGuardRuns.RolledBackExactly | src/agent_takkub/auto_migrate_boot.py:541-600 | Rolled back are exactly the failed steps that were never applied and do not wait for their clean-up. |
| BootGuardRuns.SparedStepIsRetried | src/agent_takkub/auto_migrate_boot.py:541-606 | A step all of whose reports went through, were of a step applied before or wait for its clean-up is neither rolled back nor guarded, and the next boot of the version tries it again. |
| BootGuardRuns.LadderOncePerVersion | src/agent_takkub/auto_migrate_boot.py:697-743 | A version that rolled the ladder back never walks it again, whatever other boots of it do. |
| BootGuardRuns.LadderRunForgetsGuard | src/agent_takkub/auto_migrate_boot.py:697-743 | A failed ladder run between two boots of one version lets a step be rolled back twice, with a journal that agrees with the boots. |
| BootGuardRuns.GoodLadderSpares | src/agent_takkub/auto_migrate_boot.py:541-542 | After a ladder run that went through, the next boot rolls back none of its steps. |
| BootGuardRuns.RollsBackExactly | src/agent_takkub/auto_migrate_boot.py:444-600 | A boot rolls a step back exactly if the pending pass runs and a report says it failed, of a step never applied and not waiting for its clean-up. |
| BootGuardRuns.StaleExactly | src/agent_takkub/auto_migrate_boot.py:541-582 | A step is noted for the doctor exactly if it was before or failed although it was applied before. |
| BootGuardRuns.StaleSummary | src/agent_takkub/auto_migrate_boot.py:541-582 | The note is the summary of its last failed report, cut to 200 characters. |
| BootGuardRuns.LadderLeaves | src/agent_takkub/auto_migrate_boot.py:697-743 | A run of the ladder leaves in the state file only for which version it went through or was rolled back. |
| BootGuardStage.StateFile.RunApplyPending | src/agent_takkub/auto_migrate_boot.py:444-618 | The pending pass updates the state file as specified, rolls back the hard failures in report order, and its outcome is the one the reports call for. |
| BootGuardStage.StateFile.RunBootStage | src/agent_takkub/auto_migrate_boot.py:621-743 | After a boot whose save succeeds, a boot of the same version skips exactly what was skipped or rolled back, and a version whose ladder was rolled back does not walk it again; each outcome is returned exactly when it should be. |
| StructureJoin.ConsumedOnce | src/agent_takkub/boot_flow_window.py:2491-2584 | With page A left once the result of the structure check is acted on at most once, and exactly once as soon as the check is over, in every interleaving. |
| StructureJoin.NeverLeftHanging | src/agent_takkub/boot_flow_window.py:2491-2584 | Unless the gate left, the wizard is never left waiting with no worker to wait for. |
| StructureJoin.SilentAfterRelease | src/agent_takkub/boot_flow_window.py:2290-2317 | When the gate leaves during the check, the check never drives the wizard again, however the run goes on, if and only if no answer of it is on its way. |
| StructureJoin.LateAnswerStillDrives | src/agent_takkub/boot_flow_window.py:2290-2317 | An answer already on its way then still does, and the worker it starts is listened to. |
| StructureJoin.LostOnlyIfRunning | src/agent_takkub/boot_flow_window.py:2290-2317 | An answer on its way when the gate leaves, or one that follows it, can be lost if and only if its thread still runs. |
| WizardWorkers.RunningIsPinned | src/agent_takkub/boot_flow_window.py:2253-2317 | In every run a running thread is pinned, also after the gate left; a wizard that was left lingers for it, and is not collected, if and only if it had not been tracked after the gate left by a wizard that did not linger. |
| WizardWorkers.KeptAliveExactly | src/agent_takkub/boot_flow_window.py:2253-2317 | However the run goes on, a wizard is not collected while a thread runs if and only if, when it tracked the thread, the gate had not left or the wizard lingered. |
| WizardWorkers.NothingIsLeaked | src/agent_takkub/boot_flow_window.py:2273-2281 | Once all threads have stopped and said so, nothing is pinned and no wizard lingers. |
| WizardWorkers.LateWorkerLosesWizard | src/agent_takkub/boot_flow_window.py:2290-2317 | A wizard whose worker had stopped before the gate left can be collected under the thread that its late answer starts. |
| BootWizard.Wizard.ProceedToMigrationCheck | src/agent_takkub/boot_flow_window.py:2491-2522 | Leaving page A for the first time acts on a parked result, once, or leaves the wizard waiting with a worker it listens to. |
| BootWizard.Wizard.OnStructureReady | src/agent_takkub/boot_flow_window.py:2535-2567 | The answer that ends the check is acted on once if page A was left once; with nothing to migrate nothing is acted on yet and another worker runs. |
| WizardPool.Pool.TrackWorker | src/agent_takkub/boot_flow_window.py:2253-2271 | A tracked thread is pinned and listed with its wizard, every running one stays pinned, and what the two global sets promise is kept. |
| WizardPool.Pool.ReleaseWorker | src/agent_takkub/boot_flow_window.py:2273-2281 | A thread that stopped is unpinned and unlisted, and its wizard still lingers only if a listed thread of it runs. |
| WizardPool.Pool.ReleaseWorkers | src/agent_takkub/boot_flow_window.py:2290-2317 | Leaving the gate keeps a wizard alive exactly if a thread of it runs. |
| WatchdogRuns.RecordsAreRuns | src/agent_takkub/app.py:394-459 | A record is logged exactly at the poll that ends a maximal run above the threshold, with that run's peak, largest gap and spawn flag, and is put down to the whole process exactly for a gap of two seconds or of eight tenths of the peak. |
| WatchdogRuns.PeakIsMaximum | src/agent_takkub/app.py:394-459 | The peak is attained in the run and nothing in it is above. |
| WatchdogRuns.SnapshotsDouble | src/agent_takkub/app.py:442-459 | The k-th later snapshot of a run is taken beyond the threshold doubled k times. |
| WatchdogRuns.SnapshotsAreLogarithmic | src/agent_takkub/app.py:736-741 | The number of snapshots of a run is logarithmic in its peak. |
| WatchdogRuns.LoopTracks | src/agent_takkub/app.py:722-741 | The loop feeds the tracker every poll but those of a wedge. |
| WatchdogRuns.OneDumpEach | src/agent_takkub/app.py:722-789 | One dump for each wedge, at its first poll, one line at its first poll on time, and one dump for each soft stall. |
| WatchdogRuns.RearmsAreSpaced | src/agent_takkub/app.py:712-717 | The dead-man switch is pushed back only while the main thread is well and at most once in its interval. |
| WatchdogRuns.RearmedExactly | src/agent_takkub/app.py:712-717 | It is pushed back at every poll at which the main thread is well and the last push was a minute ago. |
| WatchdogRuns.WedgeExactly | src/agent_takkub/app.py:722-789 | A hard dump is made exactly at the first poll with a heartbeat older than thirty seconds; a wedge is logged only if the loop itself overslept less than five. |
| WatchdogLoop.StallTracker.Update | src/agent_takkub/app.py:404-440 | A record is returned exactly when the poll ends the stall that was going on, with that stall's peak, largest gap and spawn flag; otherwise the poll joins or starts one. |
| WatchdogLoop.Watch.Poll | src/agent_takkub/app.py:698-789 | One turn of the loop changes its variables as specified. |
| RenderRuns.NothingIsLost | src/agent_takkub/agent_pane.py:639-673 | In every run what the terminal was given followed by the buffer is what arrived, in order; the buffer is below 256 KB, due on a running timer, and the timer has the cadence of the pane's visibility. |
| RenderRuns.AllIsDelivered | src/agent_takkub/agent_pane.py:834-838 | A tick, the end of the session or showing the pane hands over everything. |
| RenderRuns.CadenceExactly | src/agent_takkub/agent_pane.py:639-661 | The timer of a pane on screen has the fast cadence, and of another the one last set, but at least 50 milliseconds. |
| RenderRuns.StaleExitIsIgnored | src/agent_takkub/agent_pane.py:907-918 | The exit of a session that was replaced never changes the pane, whatever happens around the replacement. |
| RenderRuns.OwnExitIsHeard | src/agent_takkub/agent_pane.py:907-918 | The exit of the session attached last ends it and flushes. |
| RenderRuns.GenerationsGrow | src/agent_takkub/agent_pane.py:718-729 | The generation counts the attachments. |
| RenderPane.Pane.CoalesceBytes | src/agent_takkub/agent_pane.py:639-661 | A chunk is appended to all that arrived and nothing is lost: it waits on a running timer below the cap, and at the cap all is handed over. |
| RenderPane.Pane.FlushRenderBuf | src/agent_takkub/agent_pane.py:663-673 | All that arrived has been handed over, in at most one more batch that is not empty. |
| RenderPane.Pane.SetKeepalive | src/agent_takkub/agent_pane.py:1155-1178 | Showing the pane hands over all that arrived, and the timer takes the cadence of the pane. |
| RenderPane.Pane.AttachSession | src/agent_takkub/agent_pane.py:682-729 | The session gets a generation above all earlier ones, and what a different session sent before is handed over. |
| RenderPane.Pane.OnExit | src/agent_takkub/agent_pane.py:892-918 | The exit of an earlier generation changes nothing; that of the current one ends the session with all handed over. |
| SkillInstallAgreement.PathsAgreeExactly | src/agent_takkub/autoskills_installer.py:621-804 | For every run of the command, and any backups and restores that fail, exactly when the two ways leave the same tree: if it stopped, when it had changed nothing; if something escapes, when the in-place way undoes it all; otherwise when all unwanted overwrites were undone, no selected entry is a link and no unselected one was rewritten unnoticed. |
| SkillInstallAgreement.SolidPathsAgree | src/agent_takkub/autoskills_installer.py:621-804 | They agree when nothing escapes, backups work, no entry written is a link and the directories written or replaced have no empty or linked directories inside. |
| SkillInstallAgreement.EmptyDirectoryDiffers | src/agent_takkub/autoskills_installer.py:426-459 | They differ on an entry that gains an empty directory. |
| SkillInstallAgreement.UnnoticedIsHollow | src/agent_takkub/autoskills_installer.py:426-459 | What a signature does not see is exactly a directory that keeps its files and changes the empty or linked directories inside. |
| SkillInstallAgreement.EscapesExactly | src/agent_takkub/autoskills_installer.py:346-390 | An entry escapes exactly if it is, or has inside, a link to a place outside. |
| SkillInstallAgreement.SelectedLinkDiffers | src/agent_takkub/autoskills_installer.py:671-680 | On a new selected link they differ, whether staging follows it or fails on it, unless it leads outside, when both refuse. |
| SkillInstallAgreement.EscapeUndoneExactly | src/agent_takkub/autoskills_installer.py:701-804 | Exactly when an in-place install with an escape anywhere leaves the tree as it was: every unwanted overwrite was undone, nothing selected or unnoticed was changed, and the escape is under a new name or no new name was selected. |
| SkillInstallAgreement.OldNameEscapeInstalls | src/agent_takkub/autoskills_installer.py:749-789 | An escape under a name that existed goes unseen in place: the selected new entry is installed, where staging refuses the run. |
| SkillInstallAgreement.SelectedEscapeStays | src/agent_takkub/autoskills_installer.py:752-767 | An escape inside a selected directory that existed stays in place. |
| SkillInstall.SkillsDir.InstallViaStaging | src/agent_takkub/autoskills_installer.py:621-698 | The method leaves the specified tree: the old one on a stop or an escape, otherwise the selected names as copies with links at the top followed, up to the first that dangles; and the install is reported good exactly if none does. |
| SkillInstall.SkillsDir.InstallDirect | src/agent_takkub/autoskills_installer.py:701-804 | The method leaves the specified tree and reports it, for any backups and restores that fail: good exactly if no new name escapes and every unwanted overwrite was undone. |
| SkillInstall.SkillsDir.UndoUnwanted | src/agent_takkub/autoskills_installer.py:752-764 | The loop undoes exactly the unselected overwrites that the signatures show and the backups allow. |
| AgySyncRuns.UserEntriesSurvive | src/agent_takkub/agy_mcp_sync.py:93-165 | An entry whose name is not in the record survives any run of syncs, masters, failed writes and failed reads. |
| AgySyncRuns.SyncConfluence | src/agent_takkub/agy_mcp_sync.py:93-165 | Any order and repetition of roles leaves the same servers and record as one sync for all of them. |
| AgySyncRuns.SyncsCommute | src/agent_takkub/agy_mcp_sync.py:93-165 | The syncs of two roles commute on the servers and on the record. |
| AgySyncRuns.SyncIsIdempotent | src/agent_takkub/agy_mcp_sync.py:93-165 | A repeated sync changes nothing. |
| AgySyncRuns.WantedAreDelivered | src/agent_takkub/agy_mcp_sync.py:141-162 | A wanted server is there, converted and recorded, unless the user's own entry has its name. |
| AgySyncRuns.GoneAreRetracted | src/agent_takkub/agy_mcp_sync.py:134-162 | A recorded server that left the master is removed from both. |
| AgySyncRuns.ConvertedExactly | src/agent_takkub/agy_mcp_sync.py:65-90 | A server with an address becomes one with its headers, else one with a command keeps arguments and environment, and no other is converted. |
| AgySyncRuns.WantedExactly | src/agent_takkub/agy_mcp_sync.py:104-111 | A sync is about the servers of the master that the role may use and the cockpit does not manage. |
| AgySyncRuns.LostRecordOrphansEntry | src/agent_takkub/agy_mcp_sync.py:141-165 | A record that was not saved leaves an entry that no later sync changes. |
| AgySyncRuns.OrphanedExactly | src/agent_takkub/agy_mcp_sync.py:146-161 | A new entry is left without a record if and only if the configuration is saved and the record is not. |
| AgySyncRuns.UnreadKeepsRecordExactly | src/agent_takkub/agy_mcp_sync.py:49-55 | After a sync that could not read the record, an entry stays recorded if and only if the record is not written anew. |
| AgySyncRuns.UnreadRecordOrphansEntry | src/agent_takkub/agy_mcp_sync.py:112-161 | If it is, no later sync changes or removes the entry. |
| AgySyncRuns.UnreadDeliversNew | src/agent_takkub/agy_mcp_sync.py:112-159 | New servers are delivered also then, and no entry is changed. |
| AgySync.Agy.SyncRole | src/agent_takkub/agy_mcp_sync.py:93-165 | The two loops over servers and record amount to the specified sync. |
| SignalScanRules.OnePassAgrees | src/agent_takkub/auto_issue_signals.py:252-326 | The one pass over all rules gives each rule the count, worst value and samples that the log and the collected pause marks give for that rule by itself. |
| SignalScanAlone.LoneScanAgreesExactly | src/agent_takkub/auto_issue_signals.py:252-326 | The count of a rule without chains is that of a scan for it alone if and only if no record in its window is excused only by a pause mark older than its own scan looks back. |
| SignalScanAlone.LoneScanAgrees | src/agent_takkub/auto_issue_signals.py:252-326 | Then any rule, with chains or without, gets the same count, worst value and samples. |
| SignalScanAlone.ForgottenMarksExactly | src/agent_takkub/auto_issue_signals.py:252-262 | Looking for marks farther back than the widest window changes nothing for a rule if and only if no record that counts lies near an older mark. |
| SignalScanAlone.OtherRuleExcuses | src/agent_takkub/auto_issue_signals.py:191-217 | A log on which a shipped rule counts alone and not beside another shipped rule. |
| SignalScan.CollectPauseMarks | src/agent_takkub/maintenance.py:170-219 | The two searches of the log give the moments, from the cutoff on, at which the process is known to have paused. |
| SignalScanRules.CountByChain | src/agent_takkub/auto_issue_signals.py:296-308 | A count is the sum over the chains of their records farther than the window from the one before, plus one for each chain. |
| SignalScanRules.HitsExactly | src/agent_takkub/auto_issue_signals.py:252-326 | Reported are exactly the rules over their bar whose superseding rule is not over its own. |
| SignalScanRules.PruneIsSafe | src/agent_takkub/auto_issue_signals.py:250-281 | The early drop by the widest window drops no record any rule would count. |
| SignalScanRules.CrossedExactly | src/agent_takkub/auto_issue_signals.py:320-324 | A hit for each rule over its bar, with that rule's count, worst value and samples. |
| SignalScanRecords.DisregardedExactly | src/agent_takkub/auto_issue_signals.py:270-295 | A rule passes over a record exactly if it has no time, is of another event, older than the window, routine, below its bar, or a pause it skips. |
| SignalScanRecords.DisregardedChangesNothing | src/agent_takkub/auto_issue_signals.py:252-318 | Adding or deleting such a record anywhere in a log changes no count and no worst value of the rule. |
| SignalScanRecords.DisregardedByAllChangesNoHit | src/agent_takkub/auto_issue_signals.py:252-326 | One that all rules pass over changes no hit. |
| SignalScanRecords.RegardedCounts | src/agent_takkub/auto_issue_signals.py:296-318 | Any other record counts once, or repeats the record before it in its chain within the window. |
| SignalScanRecords.CountsRegarded | src/agent_takkub/auto_issue_signals.py:252-318 | A rule without chains counts exactly the records it does not pass over, and one with chains no more. |
| SignalScanRecords.WorstIsLargest | src/agent_takkub/auto_issue_signals.py:286-295 | The worst value is the largest shown by a record that is not passed over. |
| SignalScanRecords.RoutineIsNoHit | src/agent_takkub/auto_issue_signals.py:149-162 | The shipped rule for failed deliveries is not hit by records of routine reasons, however many. |
| SignalScanRecords.PreparedExactly | src/agent_takkub/auto_issue_signals.py:252-262 | Marks are collected exactly if a rule skips pauses, and are then all moments within the window of the scan or of some rule. |
| SignalScanRecords.MarksExactly | src/agent_takkub/maintenance.py:170-219 | A moment is a mark exactly if a sleep gap or a stall flagged as a pause of the whole process is logged then. |
| SignalScan.ScanForSignals | src/agent_takkub/auto_issue_signals.py:236-326 | Collecting the marks and the loops over lines and rules with their shared dictionaries amount to the specified scan. |
| Bm25Ranking.ThaiSearchIsComplete | src/agent_takkub/bm25_search.py:47-222 | A document that contains a Thai query of three or more characters gets a positive score. |
| Bm25Ranking.ThaiTokensOccur | src/agent_takkub/bm25_search.py:47-61 | The tokens of such a query are all among the tokens of the document. |
| Bm25Ranking.TokensOfThaiRun | src/agent_takkub/bm25_search.py:47-61 | The tokens of a Thai run are its groups of three characters. |
| Bm25Ranking.ScoredExactly | src/agent_takkub/bm25_search.py:145-185 | A document scores above zero exactly if it shares a token with the query, and then below 2.5 times the summed weights of the query. |
| Bm25Ranking.TopIsOrdered | src/agent_takkub/bm25_search.py:145-185 | The result is at most limit documents, each once, in order of score, time and position, with their scores. |
| Bm25Ranking.TopIsComplete | src/agent_takkub/bm25_search.py:145-185 | A document that shares a token is in the result, or the result is full of documents ahead of it. |
| Bm25Tokens.TokensExactly | src/agent_takkub/bm25_search.py:47-61 | The tokens of a text are exactly its whole words, its whole stretches of Thai below three characters, and the groups of three in longer ones. |
| Bm25Tokens.WeightExactly | src/agent_takkub/bm25_search.py:145-185 | A token weighs the logarithm of one more than all documents over half more than those with it. |
| Bm25Tokens.RarerWeighsMore | src/agent_takkub/bm25_search.py:145-185 | A token that fewer documents have weighs more. |
| Bm25Tokens.OneTokenScore | src/agent_takkub/bm25_search.py:145-185 | A query of one token scores its weight times the saturation of its count, and zero without it. |
| Bm25Tokens.SaturationGrows | src/agent_takkub/bm25_search.py:145-185 | More occurrences score more. |
| Bm25Tokens.LongerGainsLess | src/agent_takkub/bm25_search.py:145-185 | The same occurrences score less in a longer document. |
| Bm25Tokens.ScoresAddUp | src/agent_takkub/bm25_search.py:145-185 | A query scores what its parts score together. |
| Bm25Tokens.AheadExactly | src/agent_takkub/bm25_search.py:145-185 | A document is ahead by score, of equal scores by the later time as strings compare, and of equal times by position. |
| Bm25.BuildIndex | src/agent_takkub/bm25_search.py:154-165 | The loops compute the document frequencies, term counts and lengths by their definitions. |
| Bm25.Rank | src/agent_takkub/bm25_search.py:145-185 | Accumulating scores and sorting gives the specified top of the ranking. |
| Bm25.Tokenize | src/agent_takkub/bm25_search.py:47-61 | The tokenizer's loop gives the specified tokens. |

## Left out

- Backlog, clock: each operation reads the clock once.
- Backlog, cards: detail, files, source, impact and severity, the labels, reports and lists made from cards, and deriving a title or a fingerprint from a task; a missing list of links is an empty one and an empty task id is none.
- Backlog, tables: which header names which column, and the conversion of cell texts; only splitting rows is modelled.
- BacklogFanOut.FanOut: excludes reports of foreign ids that name the card with a role of one of its hand-offs, because the code then finishes that hand-off under the foreign id (StrayReportExactly), and reports of the card's ids that name another card; other cards being worked on share no id with it.
- Backlog, several processes: the code has no lock between processes, so nothing is claimed.
- Spawn: a kill that fails, and the checks of the executable before the spawn.
- Issue cap: redaction, fingerprints and the text of the issues, stamps on disk that are not numbers, and writers in other processes.
- Progress stream: labels, log lines, the time remaining, and rounding of percentages.
- Boot stage: the engine's steps themselves; it is assumed to leave skipped steps alone, but for the version marker it writes after moving data. The size estimate of the disk gate is a yes or no of the environment, and an unreadable state file reads as an empty one.
- Boot wizard: pages, texts and the eliding of the footer; the choices on page A. Whether an answer already sent still arrives after its connection was cut is left open.
- Watchdog: the texts of records, the second reading of the heartbeat within one turn, and the dumps themselves.
- Pane: the terminal's own buffer, idle detection, input lock and token meter; an exit that arrives while the widget is being destroyed, or without a generation. A write that raises is swallowed by the code, so "handed over" means given to the write.
- Skill install: copies and removals that fail in the staging install for other reasons than a dangling link, the order of names in result lists, hash collisions, and links that resolve differently in the mirror and in the project; the parsing of the command's output.
- Config sync: JSON, paths, and keys of an entry other than those converted.
- Signal scan: reading the log, numbers that are not whole, timestamps as text, and the issue made from a hit.
- Search: reading the corpus and the archive, snippets, filters, and the fallback to plain substring search; lower-casing beyond ASCII and Thai; floating-point rounding. The logarithm is any function that is positive above one. Sorting is an insertion that keeps the order of equals.
