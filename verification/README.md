# Verified models of Speed of Cinnamon's crash-safe machinery

Speed of Cinnamon is a voice-typing backend. Around the speech engine it keeps logs, encrypts
artifacts, makes backups, installs trees of files, raises alarms and supervises processes, and it
promises that none of this loses data or harms a stranger's process when a call fails, a signal
arrives or the machine stops. This project states those promises and proves them in Dafny.

`dafny verify dfyconfig.toml` checks everything.

## How the world is modelled

- **Processes** (`Kernel`, `ProcessTree`). A table of processes with parent, start time and zombie
  state. Before every system call of a supervisor the environment performs any finite sequence of
  spawns, exits and adoptions, and any number freed by a reap may be reused. An identity is a number
  together with its start time.
- **A directory** (`FaultyDirectory`). Names are bound to inodes; inodes have bytes, a link count
  and a change time. A fault schedule decides for every single call, and for the directory it meets,
  whether it fails and, if so, whether its effect had already happened. A history records the
  directory after each call, so a contract can speak about every instant at which a crash could have
  stopped the program. A lock keeps other writers out.
- **A staged tree** (`StageCalls`, `TreeCopy`). Every call may fail before or after its effect, and a
  successful write or mode change may leave anything on the disk.
- **A ledger and archives** (`BackupState` to `BackupDeadEnds`). Every call may succeed, raise before or
  after its effect, be interrupted, or be the last thing that happens. Hash, tar container and JSON
  text are parameters; manifests are real JSON trees, and `RenderedSizes` gives the length of the text
  that the code renders for a manifest and a ledger, to the byte.
- **Time** is a tick count or a stream of observations; deadlines may pass at any call, and a signal to a
  supervisor may arrive between any two steps.

Code that changes state is modelled by classes and methods with loops, and proved against functions
and predicates; the theorems over runs are lemmas about those.

| module | what it models |
|---|---|
| `DirectChildren`, `Kernel`, `AdoptedChildren`, `LifecycleRun` | the package lifecycle supervisor |
| `ProcessTree`, `GuiSupervisor` | the session supervisor |
| `FaultyDirectory`, `GzipFile`, `MonthlySources`, `MonthlyMerge`, `LogRotation`, `LogEmission` | log compression, the monthly merge, rotation and emission as transactions |
| `Sorting`, `LogRetention`, `ActiveLog`, `LogDays`, `LogSlots` | emitting, rotating and pruning over whole days |
| `SecureRemoval`, `PassphraseHistory`, `PassphraseRotation` | rotating the artifact passphrase |
| `BackupCollector`, `BackupManifest`, `NormalPaths`, `BackupArchive`, `BackupRestore`, `BackupExamples` | what a backup holds, its archive, and its restore |
| `BackupState`, `BackupNames`, `RenderedSizes`, `BackupJob`, `BackupRuns`, `BackupVerdicts`, `BackupNamesakes` | backup jobs, their ledger, and what it says after crashes |
| `BackupRecovery`, `BackupDeadEnds`, `BackupSamples`, `SafePaths` | when later runs get through, and concrete runs after which none does |
| `StageCalls`, `CopyBudget`, `TreePasses`, `TreeCopy`, `TreeInstall` | installing a tree under a shared budget |
| `Alarms`, `AlarmChecks`, `AlarmIds` | alarm occurrences, polling and ids |
| `Numerals`, `ShortReads`, `Wrappers` | decimals, streams with arbitrary short reads, options |

## Main results

1. **No stranger is ever signalled.** `AdoptedChildren.Supervisor.DeliveryKeeps` with
   `DrainAdoptedChildren`, `EmergencyDirectCleanup`, `FinalizeAdoptedChildren` and
   `LifecycleRun.Run.Execute`: under every interleaving each delivered signal hit an unreaped direct
   child, a TERM was the first signal its target ever got, and exit status 0 implies a confirmed
   drain, a root reaped after it and an empty process table.
2. **No bytes are ever unreachable.** `GzipFile.Transaction.Compress`, `MonthlyMerge.Merge.MergeMonth`
   and `LogRotation.Rotation.RotateActiveIfNeeded` hold at every instant of every fault schedule.
3. **No key is ever lost.** `PassphraseRotation.Rotation.Rotate` and `RotationKeepsArtifactsReadable`.
4. **The ledger tells the truth.** `BackupRuns.EveryRunEndsTruthful` over all runs with distinct job
   ids; `BackupVerdicts.EveryVerdict`, `BackupNamesakes.WrongExactlyWhenNamesAreShared` and
   `DeniedExactlyAfterALyingRename` say exactly when it does not; `BackupRecovery.CompletesExactly`,
   `RunsChangeNothingExactly` and `NothingEverChangesExactly` say exactly when a later run gets through.
5. **What is archived comes back.** `BackupManifest.ManifestRoundTrip`, `AcceptedIsRendered`,
   `NormalPaths.ConstructedManifestRoundTrip`, `BackupArchive.BuiltIsAccepted`, `VerifyTarArchive`,
   `BackupRestore.RestoreTarget.RestoreBackup`.
6. **A tree is installed whole or not at all.** `TreeInstall.InstallTarget.InstallTree`: whatever each
   call and the disk do, a target appears only by the one rename, and only with the source's signature.
7. **Alarms go off once.** `AlarmChecks.NoOccurrenceIsReportedTwice`, `EveryOccurrenceIsReportedOnce`.
8. **A frame is written only over an empty tree, and tells the status.**
   `GuiSupervisor.Supervisor.WriteCompletion`, `ScanTwice`, `Supervise`.
9. **No line is lost but with its file.** `LogDays.EveryLineIsKeptOrGone` over every run of starts and
   emits, whatever the clock does; `LastLinesAreKeptInOrder` and `TenSlotsSuffice` where rotated files
   age in order.

## Where the code does less than it seems to promise

Each is stated with the exact condition.

- A monthly merge whose removal of the old archive name failed after taking effect, and whose look at
  the missing name failed too, reports a rollback as done while the old archive is only under its backup
  name, and perhaps a claimed one (`MonthlyMerge.Merge.Rollback` and `MergeMonth`; an instance in
  `JammedMergeExample`).
- A rotation of the active log that fails after linking the slot can leave the log with two names, for
  the schedules that `LogRotation.Rotation.RotateActiveIfNeeded` names (an instance in
  `TwoNamesExample`); no line is written to that log any more (`LogEmission.Handler.EmitAll`).
- Under a clock that goes back and forth the files of one day can use up all hundred slots, and a line
  that does not fit is then refused (`LogSlots.EmitsRunOutOfSlots`; `LogDays.SlotsRunOut` says that
  nothing else lacks a slot, and `TenSlotsSuffice` that it takes files that do not age in order).
- A failed passphrase rotation leaves the live file with two links for the calls that
  `PassphraseRotation.Rotation.Rotate` names, and every later rotation refuses it (an instance in
  `TwoLinksExample`). Withdrawing an unconfirmed backup link never succeeds (`WithdrawBackup`).
- A signal that reaches the session supervisor while it writes the completion frame is lost: the status
  is 0 with the signal pending (`GuiSupervisor.Supervisor.Supervise`; an instance in
  `LostSignalExample`).
- A manifest that was constructed is not read back if the normal form of one of its paths has more than
  4 096 characters, which the constructor checks only before it normalises
  (`NormalPaths.ConstructedManifestRoundTrip`; an instance in `LongPathExample`).
- An archive whose manifest renders to more than 1 000 000 bytes is built but not accepted
  (`BackupArchive.BuiltIsAccepted`; an instance in `BackupExamples.TooLargeExample`).
- An accepted archive in which one artifact's path is a directory of another's cannot be restored,
  and a restore that raises may leave the destination, complete, when the publishing rename or the
  sync after it reports an error (`BackupRestore.RestoreTarget.RestoreBackup`; instances in
  `BackupExamples.NestedExample` and `RaisedButComplete`). No run publishes the first kind
  (`PublishedIsRestorable`).
- A published backup is recorded as failed when the publishing rename raises after taking effect
  (`BackupVerdicts.DeniedExactlyAfterALyingRename`). An interrupted job whose id begins like another's,
  and whose time agrees, is recorded as a success for the other's archive
  (`BackupNamesakes.WrongExactlyWhenNamesAreShared`, `SharedNameExample`).
- A backup whose success does not fit into the ledger stops every later run, and so does a ledger so full
  that neither the start nor the failure of a run fits (`BackupRecovery.RunsChangeNothingExactly`,
  `BackupDeadEnds.FirstRunSticks`). Both are reached from the empty ledger by one run in which nothing
  fails: `LargeBackupSticks`, for 3 532 to 5 582 transcripts, and `FullLedgerSticks`.
- An alarm whose recorded trigger lies in the future misses its next occurrence
  (`AlarmChecks.EveryOccurrenceIsReportedOnce`; `AnticipatedExample`), and a catch-up of a day or more
  drops occurrences (`LongWindowsDropOccurrences`; `DroppedExample`).
- The offset `+00:00` is taken out of a backup's time only after its colon, and so never (lines 207-215
  of `src/speed_of_cinnamon/backup.py`); `BackupNames.Timestamp` follows the code.

## Model

| member | source | states |
|---|---|---|
| DirectChildren.FinishDirectChildToken | scripts/rpm-lifecycle-supervisor.py:190-218 | an error exactly for a nonempty token that is malformed, zero or already seen; otherwise the process joins the set and the batch, once |
| DirectChildren.ConsumePayload | scripts/rpm-lifecycle-supervisor.py:221-287 | after each delivered chunk the parser state is determined by the bytes so far, not by the chunks they came in |
| DirectChildren.IterDirectChildBatches | scripts/rpm-lifecycle-supervisor.py:221-287 | for every split into reads and every failing read: the set, the verdict and the concatenated batches depend on the delivered bytes alone; batches have 1 to 32 entries and only the last may be short; a read failure is reported iff one happened and keeps what was complete |
| DirectChildren.ReadDirectChildrenSnapshot | scripts/rpm-lifecycle-supervisor.py:317-329 | the snapshot is exactly the processes of the complete tokens that are digits, at most 32 bytes and positive; it failed iff a read failed or the list is rejected |
| DirectChildren.AcceptedIsObserved | scripts/rpm-lifecycle-supervisor.py:204-218 | the yielded processes are pairwise distinct and are exactly the observed ones |
| DirectChildren.RejectsExactly | scripts/rpm-lifecycle-supervisor.py:190-287 | without mention of parsing order: a list is rejected iff some token is malformed, oversized or zero, or two tokens name the same process |
| DirectChildren.RenderedListIsReadBack | scripts/rpm-lifecycle-supervisor.py:221-287 | round trip: any list of distinct positive numbers in decimal is accepted and read back in order |
| Kernel.ApplyAllEvolves | scripts/rpm-lifecycle-supervisor.py:89-107 | any sequence of spawns, exits, adoptions and number reuse after a reap keeps the process table well formed, keeps every direct child until the supervisor reaps it, and never revives an identity |
| Kernel.LaterSettled | scripts/rpm-lifecycle-supervisor.py:71-86 | an identity (number and start time) once known to be ours is ours or gone in every later state, so a reused number never passes for it |
| Kernel.ZombieRootHasNoTree | scripts/rpm-lifecycle-supervisor.py:1671-1718 | when the only child of the subreaper is an exited root, no other descendant exists anywhere below it |
| Kernel.ObservedAlone | scripts/rpm-lifecycle-supervisor.py:1671-1718 | one observation of the exited root alone is final: nobody is left who could fork |
| AdoptedChildren.LaterKeeps | scripts/rpm-lifecycle-supervisor.py:959-991 | time passing and reaps keep every binding truthful and every recorded signal accounted for |
| AdoptedChildren.Supervisor.BindChild | scripts/rpm-lifecycle-supervisor.py:959-973 | a binding made from an open descriptor and a matching stat names one identity, which is our direct child |
| AdoptedChildren.Supervisor.VerifyChild | scripts/rpm-lifecycle-supervisor.py:976-991 | success means the number still names our direct child with the bound start time; a missing entry means that the number is free |
| AdoptedChildren.Supervisor.SignalByNumber | scripts/rpm-lifecycle-supervisor.py:1003-1020 | the fallback by number delivers exactly one signal, to the bound identity as our direct child, or none because that identity is gone; on an error it delivers none |
| AdoptedChildren.Supervisor.SignalPidfd | scripts/rpm-lifecycle-supervisor.py:994-1111 | the same for every way the descriptor call and the fallback can fail |
| AdoptedChildren.Supervisor.Send | scripts/rpm-lifecycle-supervisor.py:1586-1668 | a recorded TERM or KILL was delivered or its target is gone; TERM is never sent to a binding that had TERM or KILL |
| AdoptedChildren.Supervisor.DeliveryKeeps | scripts/rpm-lifecycle-supervisor.py:1586-1668 | one more delivery keeps the discipline of the whole log: every signal hit an unreaped direct child, and a TERM is the first signal its identity ever got (so at most one TERM, none after KILL) |
| AdoptedChildren.Supervisor.MarkKeeps | scripts/rpm-lifecycle-supervisor.py:1586-1668 | marking a binding whose target is gone keeps the log accounted for |
| AdoptedChildren.Supervisor.LearnKeeps | scripts/rpm-lifecycle-supervisor.py:1014-1016 | learning the start time of an owned child keeps bindings and log in agreement |
| AdoptedChildren.Supervisor.ForgetKeeps | scripts/rpm-lifecycle-supervisor.py:1205-1308 | forgetting the binding of a reaped child keeps the account of all signals |
| AdoptedChildren.Supervisor.ForgetReaped | scripts/rpm-lifecycle-supervisor.py:1485-1551 | even when time passes between the reap and the removal of the binding, whoever has the number by then was never signalled |
| AdoptedChildren.Supervisor.AddKeeps | scripts/rpm-lifecycle-supervisor.py:1426-1446 | a new binding for an unbound number keeps the account |
| AdoptedChildren.Supervisor.ReapReadyChildren | scripts/rpm-lifecycle-supervisor.py:1205-1308 | only reaped children lose their bindings, the root never does, and no signal is sent |
| AdoptedChildren.Supervisor.ReapChild | scripts/rpm-lifecycle-supervisor.py:1311-1326 | success means that the child is no longer in the table |
| AdoptedChildren.Supervisor.ReapDepartedChild | scripts/rpm-lifecycle-supervisor.py:1448-1551 | whatever the budget cuts off, other bindings stay, discipline holds, and giving up leaves a cleanup error |
| AdoptedChildren.Supervisor.ForgetWithinBudget | scripts/rpm-lifecycle-supervisor.py:1537-1551 | either the binding is gone or the run gave up with a cleanup error and nothing else changed |
| AdoptedChildren.Supervisor.SignalObserved | scripts/rpm-lifecycle-supervisor.py:1586-1640 | a completed pass leaves every observed bound child with TERM recorded, or KILL once cleanup is due |
| AdoptedChildren.Supervisor.KillRemaining | scripts/rpm-lifecycle-supervisor.py:1641-1668 | a completed pass leaves every observed bound child with KILL recorded |
| AdoptedChildren.Supervisor.ConfirmDrained | scripts/rpm-lifecycle-supervisor.py:1671-1718 | confirmation requires two clean observations with only the root bound; around an exited root it means that the tree below is gone |
| AdoptedChildren.Supervisor.DrainRound | scripts/rpm-lifecycle-supervisor.py:1362-1718 | one whole round under any interleaving with the kernel keeps the discipline and confirms only an empty tree |
| AdoptedChildren.Supervisor.DrainAdoptedChildren | scripts/rpm-lifecycle-supervisor.py:1362-1737 | the full drain: discipline throughout; `drained` means only the root is bound and, if it had exited, that nothing else descends from the supervisor, now or later |
| AdoptedChildren.Supervisor.KillAndReap | scripts/rpm-lifecycle-supervisor.py:1740-2036 | emergency KILL and reap of one child touches no other child and no other binding |
| AdoptedChildren.Supervisor.EmergencyDirectCleanup | scripts/rpm-lifecycle-supervisor.py:1740-2036 | the same two guarantees as the drain, for the emergency loop of two clean rounds |
| AdoptedChildren.Supervisor.FinalizeAdoptedChildren | scripts/rpm-lifecycle-supervisor.py:2039-2153 | the finalizer only ever signals unreaped direct children and returns exactly the numbers still bound |
| AdoptedChildren.Supervisor.ReapRootNonblocking | scripts/rpm-lifecycle-supervisor.py:1185-1202 | the root counts as reaped iff the wait says so; reaped after a confirmed drain, the table is empty |
| AdoptedChildren.Supervisor.ReapRoot | scripts/rpm-lifecycle-supervisor.py:1311-1326 | the blocking form of the same |
| LifecycleRun.Run.PollRoot | scripts/rpm-lifecycle-supervisor.py:3162-3180 | one poll keeps the discipline and the first signal, which may arrive before any look at it, and reports an exit only of an exited root |
| LifecycleRun.Run.DrainOrEmergency | scripts/rpm-lifecycle-supervisor.py:3184-3233 | a drain is confirmed only when the tree below the exited root is gone; a raised drain leaves an error even when the emergency cleanup then succeeds |
| LifecycleRun.Run.DrainThenReap | scripts/rpm-lifecycle-supervisor.py:3184-3239 | the root is reaped only after a confirmed drain, and then nothing is left; a signal latched before stays, one received meanwhile may be latched |
| LifecycleRun.Run.Supervise | scripts/rpm-lifecycle-supervisor.py:3162-3261 | the main loop ends with the root reaped after a confirmed drain, or without confirmation |
| LifecycleRun.Run.DrainAndReapRoot | scripts/rpm-lifecycle-supervisor.py:2937-3109 | the same guarantee on the emergency path |
| LifecycleRun.Run.EmergencyReapRoot | scripts/rpm-lifecycle-supervisor.py:2937-3109 | KILL of the root is followed by a reap only after a confirmed drain |
| LifecycleRun.Run.ReapAfterSnapshotFailure | scripts/rpm-lifecycle-supervisor.py:3354-3389 | reaping a root whose children could not be listed always leaves a cleanup error |
| LifecycleRun.Run.Finish | scripts/rpm-lifecycle-supervisor.py:3319-3513 | for a bound root, on the way out: confirmed means reaped with an empty table, and every reap without confirmation, or no reap, leaves a cleanup error |
| LifecycleRun.Run.Execute | scripts/rpm-lifecycle-supervisor.py:3162-3513 | once the root is bound: exit 0 only if the root exited 0, without time-out or a signal received by the end of supervision, drain confirmed, root reaped, table empty and both error lists empty; any path from there that reaps the root unconfirmed records a cleanup error; the signal log is disciplined in every case |
| FaultyDirectory.Directory.Claim | src/speed_of_cinnamon/app_logging.py:2504-2515 | under any fault only the claimed entry moves, and only to a fresh cleanup name |
| FaultyDirectory.Directory.UnlinkClaimed | src/speed_of_cinnamon/app_logging.py:2516-2537 | at every instant the claim is untouched, removed or back under its own name |
| FaultyDirectory.Directory.UnlinkWithParentFsync | src/speed_of_cinnamon/app_logging.py:2474-2549 | for every fault schedule: no other entry changes and no bytes do, at every instant; an entry whose identity changed is left alone; success removes exactly it |
| FaultyDirectory.MovedBackAffectsOnly | src/speed_of_cinnamon/app_logging.py:2474-2549 | claiming and undoing never touches another entry or another inode |
| GzipFile.Transaction.DetectActivation | src/speed_of_cinnamon/app_logging.py:2642-2742 | the rollback classifies every state a crashed activation can leave, and its answer is true of the directory |
| GzipFile.Transaction.RemoveActivated | src/speed_of_cinnamon/app_logging.py:2642-2742 | the archive is withdrawn only while the backup holds the old target |
| GzipFile.Transaction.RestoreBackup | src/speed_of_cinnamon/app_logging.py:2642-2742 | success binds the target name to the old inode again |
| GzipFile.Transaction.RollbackTargetActivation | src/speed_of_cinnamon/app_logging.py:2642-2742 | whenever a rollback of an active transaction returns normally, the target name is bound exactly as on entry and the source is in place; bytes are safe at every instant of it |
| GzipFile.Transaction.UnlinkTargetBackup | src/speed_of_cinnamon/app_logging.py:2591-2631 | only the backup entry is affected, while its inode is safe elsewhere |
| GzipFile.Transaction.PrepareArchive | src/speed_of_cinnamon/app_logging.py:2744-2896 | success means a private scratch file holding the compressed source; nothing else changed |
| GzipFile.Transaction.TryBackup | src/speed_of_cinnamon/app_logging.py:2910-2961 | a confirmed backup is a second name of the old target; any failure keeps the old target named |
| GzipFile.Transaction.RemoveOldTarget | src/speed_of_cinnamon/app_logging.py:2965-2980 | the old target loses its name only while its backup name exists |
| GzipFile.Transaction.ActivateArchive | src/speed_of_cinnamon/app_logging.py:2981-2991 | the archive appears under the target name by a rename that replaces nothing |
| GzipFile.Transaction.Commit | src/speed_of_cinnamon/app_logging.py:2992-2998 | the transaction closes only with the archive in place, also when the backup removal fails half-way |
| GzipFile.Transaction.RemoveSource | src/speed_of_cinnamon/app_logging.py:2999-3004 | the source goes only while the archive with its bytes sits at the target |
| GzipFile.Transaction.ReplaceTarget | src/speed_of_cinnamon/app_logging.py:2897-2998 | the whole replacement, with exactly the resulting names |
| GzipFile.Transaction.SafeElsewhere | src/speed_of_cinnamon/app_logging.py:2552-3025 | a call confined to one entry cannot lose bytes while another name keeps them |
| GzipFile.Transaction.ArchiveStaysInPlace | src/speed_of_cinnamon/app_logging.py:2591-2631 | with the archive in place, clean-up of other entries loses nothing |
| GzipFile.Transaction.ScratchMoved | src/speed_of_cinnamon/app_logging.py:1696-1748 | removing the scratch file touches neither source nor target |
| GzipFile.Transaction.UnlinkLogTemp | src/speed_of_cinnamon/app_logging.py:1696-1748 | the same for the whole clean-up, for every fault |
| GzipFile.Transaction.Compress | src/speed_of_cinnamon/app_logging.py:2552-3025 | for every fault schedule and at every instant: the old target is named or the archive is at the target, and the source is in place unless the archive is; success leaves exactly the archive instead of source and target, and takes a target without another link, such as a left-over backup; a normal rollback restores the entry; a fault-free run on a tidy directory succeeds |
| MonthlySources.SortByNameSorts | src/speed_of_cinnamon/app_logging.py:1988 | sources are taken in name order, none lost or added |
| MonthlySources.CopyStreamCapped | src/speed_of_cinnamon/app_logging.py:2375-2384 | for every chunking: the whole stream, or a refusal iff it exceeds the cap |
| MonthlyMerge.Merge.CopySource | src/speed_of_cinnamon/app_logging.py:2387-2445 | what is copied is exactly the text of the file, uncompressed if need be, read from the file whose identity was noted |
| MonthlyMerge.Merge.CopySources | src/speed_of_cinnamon/app_logging.py:1988-1995 | the archive text is the concatenation of the sources in order, each followed by a line end |
| MonthlyMerge.Merge.PrepareArchive | src/speed_of_cinnamon/app_logging.py:1951-2040 | success means a private scratch archive holding all the texts; nothing else changed |
| MonthlyMerge.Merge.MoveArchiveAside | src/speed_of_cinnamon/app_logging.py:2061-2089 | the old archive loses its name only while its backup name exists; a failure after which the name is gone unnoticed happens on a disk that stops working while the archive has no name |
| MonthlyMerge.Merge.NoteMissingArchive | src/speed_of_cinnamon/app_logging.py:2090-2120 | the flag that lets the rollback restore is set only if the old archive is under its backup name; a missing archive is looked at exactly once, and that look is recorded |
| MonthlyMerge.Merge.BackUpArchive | src/speed_of_cinnamon/app_logging.py:2041-2122 | success moves the old archive to a backup name, or finds that there was none |
| MonthlyMerge.Merge.ActivateArchive | src/speed_of_cinnamon/app_logging.py:2123-2134 | the archive appears by a rename that replaces nothing; the backup still holds the old one |
| MonthlyMerge.Merge.QuarantineSource | src/speed_of_cinnamon/app_logging.py:2162-2187 | moving a source to its quarantine name forbids any later rollback |
| MonthlyMerge.Merge.SettleSource | src/speed_of_cinnamon/app_logging.py:2188-2215 | after a failed quarantine a rollback stays allowed only if the source was seen at home with its identity |
| MonthlyMerge.Merge.HandleDeleteError | src/speed_of_cinnamon/app_logging.py:2161-2246 | every way out of a failed deletion keeps the source reachable or inside the active archive, and the rollback flag truthful |
| MonthlyMerge.Merge.RemoveSource | src/speed_of_cinnamon/app_logging.py:2137-2251 | the same for one whole source; undisturbed, exactly its name goes |
| MonthlyMerge.Merge.RemoveSources | src/speed_of_cinnamon/app_logging.py:2135-2256 | no error means that all sources are gone and no rollback is possible any more |
| MonthlyMerge.Merge.DropBackup | src/speed_of_cinnamon/app_logging.py:2257-2271 | the backup goes only while the new archive is in place |
| MonthlyMerge.Merge.RemoveActivated | src/speed_of_cinnamon/app_logging.py:2281-2329 | the new archive is withdrawn only while every source is home |
| MonthlyMerge.Merge.RestoreBackup | src/speed_of_cinnamon/app_logging.py:2330-2355 | success binds the archive name to the old archive again |
| MonthlyMerge.Merge.Rollback | src/speed_of_cinnamon/app_logging.py:2277-2356 | entered only with all sources home, and leaves them home; a normal return leaves the archive name as on entry iff there was no archive, or the backup flag is set, or the name is still bound; otherwise the old archive is under its backup name, perhaps beside a claimed one |
| MonthlyMerge.Merge.KeptElsewhere | src/speed_of_cinnamon/app_logging.py:1937-2372 | a call confined to one entry keeps everything while the sources are home and another name keeps the old archive |
| MonthlyMerge.Merge.ArchiveStaysInPlace | src/speed_of_cinnamon/app_logging.py:2135-2271 | with the new archive in place, calls on other entries lose nothing |
| MonthlyMerge.Merge.InstalledAndFinished | src/speed_of_cinnamon/app_logging.py:2041-2271 | the names after backup, activation, removal and drop compose to exactly the merged directory |
| MonthlyMerge.Merge.ScratchMoved | src/speed_of_cinnamon/app_logging.py:1696-1748 | removing the scratch archive touches neither sources nor archive |
| MonthlyMerge.Merge.UnlinkLogTemp | src/speed_of_cinnamon/app_logging.py:1696-1748 | the same for the whole clean-up, for every fault |
| MonthlyMerge.Merge.MergeMonth | src/speed_of_cinnamon/app_logging.py:1948-2372 | for every fault schedule and at every instant: every source and the old archive are under some name, or the new archive, which holds all their text in name order, is in place; success leaves the archive and none of the sources, and takes files without another link, such as a left-over backup; a malformed source leaves everything as it was; a rollback reported as done restores the archive name iff the one look at the missing archive did not fail; a fault-free run leaves exactly the merged directory |
| MonthlyMerge.JammedMergeExample | src/speed_of_cinnamon/app_logging.py:2061-2120 | a directory and a fault schedule for which the rollback is reported as done and the archive name is unbound |
| Sorting.SortSorts | src/speed_of_cinnamon/app_logging.py:3055-3060 | sorting by a total order gives an ordered permutation |
| LogRetention.EnforceTotalSizeLimit | src/speed_of_cinnamon/app_logging.py:3041-3070 | the removed files are the shortest run of the oldest non-active files, by modification time and then name, that meets the limit, or all of them |
| LogRetention.PruningIsDetermined | src/speed_of_cinnamon/app_logging.py:3055-3070 | that description leaves no choice: in whatever order the directory is listed, the same files go |
| ActiveLog.SlotNamesDiffer | src/speed_of_cinnamon/app_logging.py:1761 | slot names differ from each other and from the active name |
| ActiveLog.FreeSlotIsFirst | src/speed_of_cinnamon/app_logging.py:1760-1762 | the slot search returns the first free slot, or none if all hundred are taken |
| ActiveLog.AppendingKeepsSlots | src/speed_of_cinnamon/app_logging.py:1751-1880 | a rotation never takes an occupied slot |
| ActiveLog.LogHandler.Rotate | src/speed_of_cinnamon/app_logging.py:1751-1880 | undisturbed: the active file moves to the first free slot as it is, or nothing changes when there is none |
| ActiveLog.LogHandler.Append | src/speed_of_cinnamon/app_logging.py:519-560 | the line is appended, after a rotation iff it would overflow the active file, whether or not the first size check failed |
| ActiveLog.LogHandler.Emit | src/speed_of_cinnamon/app_logging.py:519-561 | an emit appends the line or its short stand-in, and enforces the size limit at least after each rotation |
| ActiveLog.AppendingRecords | src/speed_of_cinnamon/app_logging.py:519-560 | the files of a day hold the emitted lines in order, across rotations |
| ActiveLog.RemainingMembers | src/speed_of_cinnamon/app_logging.py:3060-3070 | whatever the clock does, a rotated file goes as a whole or stays unchanged |
| ActiveLog.NeighboursAreLarge | src/speed_of_cinnamon/app_logging.py:532-556 | files of which any two consecutive ones exceed the limit together hold at least half their number times that limit |
| ActiveLog.PruningDropsOldest | src/speed_of_cinnamon/app_logging.py:3041-3070 | when the rotated files of the day aged in order, the limit removes a chronological prefix of them, until the rest of the day is within the limit or only the active file is left |
| ActiveLog.LogHandler.Start | src/speed_of_cinnamon/app_logging.py:1131-1143 | a start enforces the size limit and then rotates an active file that has reached its own; it fails iff no slot is free for that |
| ActiveLog.AppendingKeepsTight | src/speed_of_cinnamon/app_logging.py:532-556 | a write keeps any two consecutive files of a day above the limit of one |
| LogDays.StepKeepsSound | src/speed_of_cinnamon/app_logging.py:519-561 | one emit or start, whatever the clock: slots stay distinct and files within their limit, and every line is counted once, in a present file or in one removed whole |
| LogDays.EveryLineIsKeptOrGone | src/speed_of_cinnamon/app_logging.py:519-561 | over every run of starts and emits, whatever the clock: slots are distinct and within the hundred, no file exceeds its limit, and every accepted line is in exactly one present file or in one removed whole |
| LogDays.SlotsRunOut | src/speed_of_cinnamon/app_logging.py:1760-1762 | a rotation finds no slot iff all hundred are taken |
| LogSlots.EmitsRunOutOfSlots | src/speed_of_cinnamon/app_logging.py:519-561 | a run of emits alone, under a clock that goes back and forth, after which all hundred slots are taken and a line is refused |
| LogSlots.OldestIsPruned | src/speed_of_cinnamon/app_logging.py:3041-3070 | a day a little over the limit, with short files and older long ones: the limit removes exactly the oldest long file |
| LogDays.LastLinesAreKeptInOrder | src/speed_of_cinnamon/app_logging.py:519-561 | over every run of starts and emits whose rotated files age in order, the files hold exactly the last of the accepted lines, in order |
| LogDays.TenSlotsSuffice | src/speed_of_cinnamon/app_logging.py:519-561 | over every such run no emit and no start ever lacks a slot, and at most ten of the hundred are used |
| LogRotation.Rotation.RemoveClaimed | src/speed_of_cinnamon/app_logging.py:1823-1851 | at every instant the claimed name is untouched, removed, or back under the active name |
| LogRotation.Rotation.WithdrawLink | src/speed_of_cinnamon/app_logging.py:1852-1867 | only the new link is ever taken back, and only if it is the log; it goes iff the look at it works and the unlinking takes effect |
| LogRotation.Rotation.TryLink | src/speed_of_cinnamon/app_logging.py:1778-1794 | the link works iff the slot is free and the call works; a failing one leaves two names iff it had taken effect |
| LogRotation.Rotation.ReleaseName | src/speed_of_cinnamon/app_logging.py:1795-1851 | the slot keeps the file; the log keeps its own name iff no claim of it holds or a failed unlinking is put back, call by call |
| LogRotation.Rotation.LeaveOldName | src/speed_of_cinnamon/app_logging.py:1785-1868 | success leaves the log under the slot alone; both names stay for exactly one family of outcomes of the release and the withdrawal, spelt out call by call, and then the file has two links |
| LogRotation.Rotation.RotateInto | src/speed_of_cinnamon/app_logging.py:1765-1868 | one slot, for every fault: the log keeps a name at every instant and no other entry changes |
| LogRotation.Rotation.RotateActiveIfNeeded | src/speed_of_cinnamon/app_logging.py:1751-1880 | for every fault schedule: no bytes change, every other entry stays bound as it was, and the log is always under its own name, the first free slot or a claim of its own name; success moves it to the first free slot with one link; both names are left iff the schedule is of one family, given call by call, and an error then leaves two links; a log with two links is refused; undisturbed, it succeeds iff a slot is free or no rotation is due |
| LogRotation.TwoNamesExample | src/speed_of_cinnamon/app_logging.py:1751-1880 | a directory and a fault schedule for which a rotation fails and leaves the log with two names and two links |
| LogEmission.Handler.Open | src/speed_of_cinnamon/app_logging.py:601-706 | a log with two links is refused; success binds a log with one link, new if there was none |
| LogEmission.Handler.EmitLocked | src/speed_of_cinnamon/app_logging.py:519-561 | success adds the line to the end of the log or of a new one; a log with two links is left alone and the emit fails |
| LogEmission.Handler.IsLogPathInsecure | src/speed_of_cinnamon/app_logging.py:563-600 | insecure iff the look at the log works and finds other than one link, or a failing look, at the log or at its directory, is one of those that count as insecure |
| LogEmission.Handler.Emit | src/speed_of_cinnamon/app_logging.py:491-517 | after a failed emit the last two calls are the looks, and the handler is disabled, for good, iff they find the log insecure; over a log with other than one link no line is written, whatever fails |
| LogEmission.Handler.EmitAll | src/speed_of_cinnamon/app_logging.py:491-517 | over every run of emits to one log: once it has two links no line is ever written and nothing changes, and the first emit that can look at it disables the handler |
| PassphraseHistory.StrippedLineIsPassphrase | src/speed_of_cinnamon/artifact_crypto.py:497-512 | a stored passphrase survives being written with a line end and read back |
| PassphraseHistory.HistoryGrows | src/speed_of_cinnamon/artifact_crypto.py:497-551 | the new history holds the replaced passphrase and everything the old one held; it is readable exactly when the entry and byte limits are met, so a rotation past the limit fails and evicts nothing |
| PassphraseHistory.DecryptBytes | src/speed_of_cinnamon/artifact_crypto.py:2650-2663 | the key trial opens an artifact iff its passphrase is the current one or in the history |
| SecureRemoval.SecureWipe | src/speed_of_cinnamon/secure_delete.py:51-125 | bytes are overwritten only of an inode without another name |
| SecureRemoval.WipeAndUnlink | src/speed_of_cinnamon/artifact_crypto.py:783-894 | success removes the claimed entry, wiped if asked; a failure leaves it as found or wiped |
| SecureRemoval.RemoveExpectedFile | src/speed_of_cinnamon/artifact_crypto.py:783-894 | for every fault and at every instant only the one entry and its inode are affected; an entry that is not the expected inode is never touched, and one to be wiped that has another name keeps its links; whether an unwiped entry goes, comes back or is left under a claim is given call by call |
| SecureRemoval.UndoingAffects | src/speed_of_cinnamon/artifact_crypto.py:783-894 | claiming, wiping and undoing are confined to the one entry |
| PassphraseRotation.Rotation.ParseKeys | src/speed_of_cinnamon/artifact_crypto.py:461-494 | a stored history is accepted iff it meets every limit and has no duplicate, and then unchanged |
| PassphraseRotation.Rotation.ReadHistory | src/speed_of_cinnamon/artifact_crypto.py:388-494 | what is read is the history on disk; undisturbed, it succeeds iff that history is valid |
| PassphraseRotation.Rotation.WriteHistory | src/speed_of_cinnamon/artifact_crypto.py:497-551 | success records the replaced passphrase on top of the old history; undisturbed, it succeeds iff there is room; a failure leaves the old history or the complete new one |
| PassphraseRotation.Rotation.ReadPreviousPayload | src/speed_of_cinnamon/artifact_crypto.py:937-988 | what is read is the live file as it was on entry |
| PassphraseRotation.Rotation.RestorePreviousPayload | src/speed_of_cinnamon/artifact_crypto.py:990-1007 | success puts the old bytes back under the live name in a new file |
| PassphraseRotation.Rotation.DetectActivation | src/speed_of_cinnamon/artifact_crypto.py:1009-1110 | the answer about the activation is true of the directory |
| PassphraseRotation.Rotation.TakeBackActivation | src/speed_of_cinnamon/artifact_crypto.py:1009-1110 | a visible activation is removed only after the old passphrase was recorded |
| PassphraseRotation.Rotation.RollbackPassphraseActivation | src/speed_of_cinnamon/artifact_crypto.py:1009-1127 | when a rollback of an active rotation returns normally, the live file has its old bytes; the live file has two links in the end iff the calls of the link, the removal and the withdrawal went one of the ways spelt out |
| PassphraseRotation.Rotation.CreateTemp | src/speed_of_cinnamon/artifact_crypto.py:567-595 | the scratch file has a fresh name and nothing else changed |
| PassphraseRotation.Rotation.LinkBackup | src/speed_of_cinnamon/artifact_crypto.py:1194-1222 | a confirmed backup is a second name of the old file; otherwise the live name still holds it, with two links iff the linking call took effect |
| PassphraseRotation.Rotation.WithdrawBackup | src/speed_of_cinnamon/artifact_crypto.py:1232-1250 | withdrawing an unconfirmed backup link never succeeds, because wiping is refused while the live name links to the same file; nothing is lost, and the file keeps its two links |
| PassphraseRotation.Rotation.UnlinkLiveName | src/speed_of_cinnamon/artifact_crypto.py:1223-1231 | the live name goes only after the passphrase was recorded and while the backup holds it |
| PassphraseRotation.Rotation.BackUpAndRemove | src/speed_of_cinnamon/artifact_crypto.py:1192-1255 | success leaves the old file under the backup name only |
| PassphraseRotation.Rotation.Activate | src/speed_of_cinnamon/artifact_crypto.py:1256-1272 | the new file appears under the live name by a rename that replaces nothing |
| PassphraseRotation.Rotation.ScrubBackup | src/speed_of_cinnamon/artifact_crypto.py:647-726 | overwriting the backup changes no name and no other file |
| PassphraseRotation.Rotation.DropBackup | src/speed_of_cinnamon/artifact_crypto.py:1273-1285 | success means the old file is wiped and gone; the new passphrase is live throughout |
| PassphraseRotation.Rotation.RemoveTemporaryFile | src/speed_of_cinnamon/artifact_crypto.py:896-914 | clean-up of the scratch file never touches a passphrase |
| PassphraseRotation.Rotation.ScrubTemp | src/speed_of_cinnamon/artifact_crypto.py:1379-1384 | the same for the fallback that only overwrites it |
| PassphraseRotation.Rotation.RecordedIsKept | src/speed_of_cinnamon/artifact_crypto.py:497-551 | once recorded, the history is the old one plus exactly the replaced passphrase, so nothing is lost |
| PassphraseRotation.Rotation.RecordedStays | src/speed_of_cinnamon/artifact_crypto.py:1192-1285 | calls on any entry but the history keep it recorded |
| PassphraseRotation.Rotation.ScratchMoved | src/speed_of_cinnamon/artifact_crypto.py:896-914 | a claim or wipe of the scratch file keeps every passphrase recoverable |
| PassphraseRotation.Rotation.Rotate | src/speed_of_cinnamon/artifact_crypto.py:729-1401 | for every fault schedule and at every instant the old passphrase is in the live file or the history, and no history entry is lost; success means the new passphrase is live, the old one recorded, its file wiped and no stray name left; a normal rollback leaves the old bytes live; undisturbed, it succeeds iff the old file is private and its passphrase fits into the history; the live file ends with two links iff it had two, or the call that links the backup took effect and either was not confirmed, or was confirmed while the live name could not be removed nor the spare link taken back, each given call by call |
| PassphraseRotation.TwoLinksExample | src/speed_of_cinnamon/artifact_crypto.py:1194-1250 | for any two passphrases, a directory and a fault schedule for which a rotation fails and leaves the live file with two links |
| PassphraseRotation.Rotation.RotationKeepsArtifactsReadable | src/speed_of_cinnamon/artifact_crypto.py:2434-2444 | after a completed rotation an artifact opens iff its passphrase is the new one, the replaced one or in the former history; so whatever opened before still does |
| BackupState.RecordedMembers | src/speed_of_cinnamon/backup_state.py:394-424 | a recorded entry is the newest, the ledger stays within its limit, and every other entry was there before |
| BackupState.RecordedDistinct | src/speed_of_cinnamon/backup_state.py:394-424 | job ids stay distinct |
| BackupState.RecordedEvictsOldest | src/speed_of_cinnamon/backup_state.py:394-424 | another entry is lost only to the limit, and then it is the oldest |
| BackupState.BackupStateStore.RecordJob | src/speed_of_cinnamon/backup_state.py:377-424 | read, replace, limit and atomic write under every fault: the ledger is the old one or the new one, and an oversized one is refused |
| BackupCollector.Collect | src/speed_of_cinnamon/backup.py:852-881 | none exactly when two sources with different bytes claim one archive path; otherwise the specified collection |
| BackupCollector.CollectedAreFirst | src/speed_of_cinnamon/backup.py:852-881 | each collected artifact is the first selected source with its bytes, in source order |
| BackupCollector.CollectedAreDistinct | src/speed_of_cinnamon/backup.py:852-881 | collected artifacts have pairwise distinct (kind, size, hash) and pairwise distinct archive paths |
| BackupCollector.NothingIsMissed | src/speed_of_cinnamon/backup.py:852-881 | every selected source's (kind, size, hash) is in the collection or in a successful job of the ledger |
| BackupCollector.EffectiveSelectionIsAccepted | src/speed_of_cinnamon/backup.py:886-906 | the recomputed selection meets the manifest's invariant iff there are at most 10 000 artifacts |
| BackupManifest.CheckArtifacts | src/speed_of_cinnamon/backup_manifest.py:217-239 | accepts iff every artifact's category is selected and archive paths are distinct |
| BackupManifest.AcceptedIsRendered | src/speed_of_cinnamon/backup_manifest.py:270-326 | whatever the reader accepts is a valid manifest and renders to the very same tree |
| BackupManifest.ManifestRoundTrip | src/speed_of_cinnamon/backup_manifest.py:253-326 | every valid manifest, its paths in normal form, survives rendering and reading |
| BackupManifest.ArtifactRoundTrip | src/speed_of_cinnamon/backup_manifest.py:144-183 | the same for one artifact, its path in normal form |
| NormalPaths.NormalFormIs | src/speed_of_cinnamon/path_safety.py:2281-2306 | the normal form of a safe path is stable, has no empty component, and is safe again unless it is too long or looks like a drive |
| NormalPaths.ConstructedRoundTrip | src/speed_of_cinnamon/backup_manifest.py:100-183 | for every normalisation with the laws of canonical composition: an artifact that was constructed is read back from its rendering iff the normal form of its path has at most 4 096 characters |
| NormalPaths.ConstructedManifestRoundTrip | src/speed_of_cinnamon/backup_manifest.py:186-326 | the same for whole manifests: read back exactly if all its paths are that short, and otherwise refused |
| NormalPaths.ReadAgain | src/speed_of_cinnamon/backup_manifest.py:270-326 | whatever document the reader accepts, in normal form or not: the manifest it gives survives being rendered and read again, with the same exception |
| NormalPaths.NormalManifestReadsAlike | src/speed_of_cinnamon/backup_manifest.py:270-326 | a document whose paths are in normal form is read as without normalisation, so that the results on manifests hold of it |
| NormalPaths.LongPathExample | src/speed_of_cinnamon/backup_manifest.py:109-127 | an artifact that the constructor takes and whose rendering the reader refuses, under a normalisation that expands U+0958 as Unicode does |
| BackupArchive.ReadTarMemberExact | src/speed_of_cinnamon/backup.py:622-646 | for every chunking: the whole member iff it has exactly the expected size |
| BackupArchive.HashTarMember | src/speed_of_cinnamon/backup.py:600-619 | for every chunking: the digest of the whole member iff it has exactly the expected size |
| BackupArchive.VerifyTarArchive | src/speed_of_cinnamon/backup.py:649-698 | accepts iff the archive is exactly what the manifest inside it describes: distinct safe members, one manifest, and every artifact present with its size and digest; then returns that manifest |
| BackupArchive.BuildArchive | src/speed_of_cinnamon/backup.py:571-597 | the archive of the staged copies, unless one is missing |
| BackupArchive.BuiltIsAccepted | src/speed_of_cinnamon/backup.py:571-698 | an archive built from staged copies that match the manifest is accepted iff the rendered manifest has at most 1 000 000 bytes |
| BackupRestore.RestoreMember | src/speed_of_cinnamon/backup.py:1220-1320 | one member becomes one file with its bytes iff its size is right, its path is free and the call works |
| BackupRestore.FillStage | src/speed_of_cinnamon/backup.py:1220-1320 | the stage is filled iff every call works and no path is a prefix directory of another; then it is the restored tree |
| BackupRestore.CopiedIsRestored | src/speed_of_cinnamon/backup.py:1220-1320 | a tree holding the accepted archive's bytes under exactly the manifest's paths has every recorded size and digest |
| BackupRestore.RestoreTarget.RestoreBackup | src/speed_of_cinnamon/backup.py:1220-1320 | for every fault: success, and appearance of the destination, are each characterised exactly; the destination is only ever absent or the complete restored tree |
| BackupExamples.TooLargeExample | src/speed_of_cinnamon/backup.py:571-698 | a valid manifest of up to 10 000 artifacts, all staged, whose archive is refused, rendered as the compact JSON that the code writes |
| BackupExamples.NestedExample | src/speed_of_cinnamon/backup.py:649-698 | an accepted archive, with one path below another, that no restore can put back |
| BackupExamples.PublishedIsRestorable | src/speed_of_cinnamon/backup.py:954-1320 | whatever a run packs and publishes can be restored |
| BackupExamples.RaisedButComplete | src/speed_of_cinnamon/backup.py:1220-1320 | for any restorable archive, a restore that raises and leaves the destination complete |
| BackupJob.BackupTarget.ReconcileInterruptedJobs | src/speed_of_cinnamon/backup.py:315-379 | refines the reconciliation of a ledger snapshot |
| BackupJob.BackupTarget.CreateBackup | src/speed_of_cinnamon/backup.py:784-1036 | refines one whole run with a fault, interrupt or crash at every call; nothing is published whose manifest is invalid, renders to more than 1 000 000 bytes or has one path below another |
| BackupNames.NamesMeet | src/speed_of_cinnamon/backup.py:207-215 | two archive names are one iff the times without their separators, the first sixteen characters of the ids, and the encryption agree |
| BackupNames.PlainExactly | src/speed_of_cinnamon/backup.py:207-215 | an archive name is one plain component iff neither the time nor the first sixteen characters of the id hold a slash or a backslash |
| BackupRuns.ReconcileKeepsSound | src/speed_of_cinnamon/backup.py:315-379 | reconciliation keeps ledger and archives in agreement under every fault, and when it completes every job of its snapshot is closed |
| BackupRuns.ReconciledHasNoRunning | src/speed_of_cinnamon/backup.py:315-379 | a completed reconciliation leaves no running job |
| BackupRuns.RunKeepsSound | src/speed_of_cinnamon/backup.py:784-1036 | a run with a new job id that fails or crashes anywhere keeps ledger and archives in agreement: an open or successful job published iff the archive under its name is its own |
| BackupRuns.RunsKeepSound | src/speed_of_cinnamon/backup.py:784-1036 | the same over every sequence of runs with distinct ids, with archives damaged in between |
| BackupRuns.EveryRunEndsTruthful | src/speed_of_cinnamon/backup.py:315-379 | over all sequences of runs with distinct ids, crashes anywhere and damaged archives, the next completed reconciliation leaves every job closed, and a success published iff the archive under its name is not another job's; without lying errors or damage a published job is never denied, and the ledger is right about a job iff no other job's archive has its name; in fewer than 256 runs no published job is forgotten |
| BackupRuns.BorrowersShareNames | src/speed_of_cinnamon/backup.py:207-215 | a job with another's archive under its name implies two runs whose ids begin alike and whose times agree |
| BackupVerdicts.EveryVerdict | src/speed_of_cinnamon/backup.py:315-379 | in every world and under every fault, a completed reconciliation closes an open job as a success iff the archive under its name is there, undamaged, and verified without an error |
| BackupVerdicts.JudgedTruthfully | src/speed_of_cinnamon/backup.py:315-379 | so it is judged truthfully iff that archive verifies exactly when it is the job's own; this covers verification errors, damage and shared names |
| BackupVerdicts.DeniedExactlyAfterALyingRename | src/speed_of_cinnamon/backup.py:954-1036 | a run records its own published archive as failed iff the publishing rename raised after taking effect and the failure could be recorded |
| BackupVerdicts.LyingRenameExample | src/speed_of_cinnamon/backup.py:954-1036 | such a run exists, with the ledger's own size limit |
| BackupNamesakes.NamesakesGoWrong | src/speed_of_cinnamon/backup.py:207-379 | two honest runs with one archive name can leave the ledger wrong about the second, for any limit on the ledger with room for what they record |
| BackupNamesakes.WrongExactlyWhenNamesAreShared | src/speed_of_cinnamon/backup.py:207-379 | with the ledger's own size limit: two runs from the empty ledger without a lying error can leave it wrong about the second iff their ids begin alike, their times agree and both or neither are encrypted, the first can be published, and both successes fit |
| BackupNamesakes.SharedNameExample | src/speed_of_cinnamon/backup.py:207-379 | any two ids that agree in their first sixteen characters are such a pair, under the limits of manifest and ledger |
| BackupRecovery.CompletesExactly | src/speed_of_cinnamon/backup.py:315-379 | in every world a fault-free reconciliation gets through iff each open job's archive name is plain and the ledger fits after each verdict, taken in ledger order; then exactly the verdicts are recorded, otherwise those before the first obstacle |
| BackupRecovery.StuckExactly | src/speed_of_cinnamon/backup.py:315-379 | reconciliation fails and changes nothing under every fault that does not make a false verification iff the first open job cannot be closed |
| BackupRecovery.RunsChangeNothingExactly | src/speed_of_cinnamon/backup.py:784-1036 | a run with a new id changes nothing and does not return, whatever fails in it, iff the first open job cannot be closed, or no job is open and neither the run's start nor any failure of it fits into the ledger |
| BackupRecovery.UndisturbedRunChangesNothingExactly | src/speed_of_cinnamon/backup.py:784-1036 | with no job open and no call failing, a run changes nothing iff neither its start nor the refusal of that start fits |
| BackupRecovery.BarredForEver | src/speed_of_cinnamon/backup_state.py:377-392 | a world in which every new run is barred is never changed by any sequence of runs |
| BackupRecovery.NothingEverChangesExactly | src/speed_of_cinnamon/backup_state.py:377-392 | no sequence of later runs ever changes anything iff every new run is barred |
| BackupDeadEnds.FirstRunSticks | src/speed_of_cinnamon/backup.py:954-1009 | a first run in which every call works returns and publishes, and leaves its target stuck iff the ledger can hold the success neither with nor without the warning |
| BackupDeadEnds.LargeBackupSticks | src/speed_of_cinnamon/backup_state.py:25-27 | with the sizes that the code renders: a first run of 3 532 to 5 582 transcripts publishes and returns, its success does not fit into the 512 000 bytes of the ledger, and no later run changes anything |
| BackupDeadEnds.FullLedgerSticks | src/speed_of_cinnamon/backup_state.py:25-27 | a first run whose success fills the 512 000 bytes of the ledger to the last: no job is open, and no later run with an id of its own changes anything |
| Alarms.OccurrenceOnDay | src/speed_of_cinnamon/alarms.py:860-876 | the computed occurrence is the only one of its day |
| Alarms.DueOccurrences | src/speed_of_cinnamon/alarms.py:885-895 | exactly the occurrences of the closed window, in increasing order |
| Alarms.NextOccurrence | src/speed_of_cinnamon/alarms.py:986-996 | the least occurrence of all future time; none only if the next eight days have none |
| Alarms.EightDaysSuffice | src/speed_of_cinnamon/alarms.py:986-996 | with a day set and no clock gap at the alarm's time, eight days always hold an occurrence |
| Alarms.NextIsFirstDue | src/speed_of_cinnamon/alarms.py:885-996 | the next occurrence is the head of the due occurrences of the same span |
| AlarmChecks.AlarmStore.CheckAlarm | src/speed_of_cinnamon/alarms.py:949-970 | an alarm is reported iff the latest occurrence of its window is not the recorded one |
| AlarmChecks.AlarmStore.CheckDueAlarms | src/speed_of_cinnamon/alarms.py:919-983 | one check of the whole store refines the step of the runs below; an unmarked check changes nothing |
| AlarmChecks.NoOccurrenceIsReportedTwice | src/speed_of_cinnamon/alarms.py:919-983 | over every run of marked checks with a non-decreasing clock, each alarm's reported times strictly increase, whatever the store held |
| AlarmChecks.EveryOccurrenceIsReportedOnce | src/speed_of_cinnamon/alarms.py:919-983 | when checks are at most their catch-up (under a day) apart, every occurrence up to the last check is reported iff the recorded trigger does not anticipate the next occurrence |
| AlarmChecks.PastTriggersAreHarmless | src/speed_of_cinnamon/alarms.py:919-983 | with a recorded trigger in the past, reported times are exactly the occurrences |
| AlarmChecks.FirstCheckSettles | src/speed_of_cinnamon/alarms.py:919-983 | the premise of the two results above holds after any first check |
| AlarmChecks.LongWindowsDropOccurrences | src/speed_of_cinnamon/alarms.py:919-983 | an occurrence in the window of a check is never reported, then or later, iff a later one is in the same window, which takes a catch-up of a day or more, or it is the recorded trigger |
| AlarmChecks.DroppedExample | src/speed_of_cinnamon/alarms.py:919-983 | a daily alarm whose first morning is never reported after a gap of two days |
| AlarmChecks.AnticipatedExample | src/speed_of_cinnamon/alarms.py:919-983 | a daily alarm with a recorded trigger of the coming morning, which prompt checks miss |
| AlarmIds.CandidatesDiffer | src/speed_of_cinnamon/alarms.py:455-466 | variants with different numbers differ even after cutting the id |
| AlarmIds.VariantsRunOut | src/speed_of_cinnamon/alarms.py:455-466 | distinct variants that are all taken need as many taken ids, so the search ends |
| AlarmIds.FreeId | src/speed_of_cinnamon/alarms.py:455-466 | ends with a nonempty free id of at most 120 characters |
| AlarmIds.DedupeAlarmIds | src/speed_of_cinnamon/alarms.py:446-469 | keeps length and order; each id is kept or the first free variant |
| AlarmIds.DedupedAreDistinct | src/speed_of_cinnamon/alarms.py:446-469 | the ids of the output are pairwise distinct |
| AlarmIds.KeptUnlessTaken | src/speed_of_cinnamon/alarms.py:446-469 | an alarm keeps its id iff no earlier output has it |
| AlarmIds.DistinctIdsAreKept | src/speed_of_cinnamon/alarms.py:446-469 | distinct nonempty ids are left alone, so the function is the identity on its own output |
| AlarmIds.NextAlarmId | src/speed_of_cinnamon/alarms.py:692-700 | the time's id if free, else its first free numbered variant |
| CopyBudget.Budget.ConsumeEntry | scripts/safe-local-fs.py:2724-2731 | accepts iff every counter stays within its limit; a refusal changes nothing |
| CopyBudget.Budget.ReadSize | scripts/safe-local-fs.py:2733-2745 | at least one byte, and at most one past each remaining allowance |
| CopyBudget.Budget.ConsumeRead | scripts/safe-local-fs.py:2747-2754 | accepts iff every counter stays within its limit; a refusal changes nothing |
| CopyBudget.Budget.ConsumeWrite | scripts/safe-local-fs.py:2756-2761 | the same for writes |
| CopyBudget.Budget.HashFile | scripts/safe-local-fs.py:2110-2146 | for every chunking: the whole file is hashed iff it is within its own and the shared allowance; the size probes never cause a refusal |
| CopyBudget.Budget.CopyFile | scripts/safe-local-fs.py:1988-2015 | for every chunking: the whole file is copied iff twice its size is within the shared allowance, its size within the others, and no read or write raises |
| TreePasses.ScanDirectory | scripts/safe-local-fs.py:2272-2322 | one directory is accepted iff it has only files and directories and all limits hold |
| TreePasses.RejectUnsafeTree | scripts/safe-local-fs.py:2223-2269 | a whole tree is accepted iff it is within the limits and free of hard links; it costs one entry pass |
| TreePasses.TreeSignature | scripts/safe-local-fs.py:2337-2446 | the signature describes the tree, computed iff the limits hold; one entry pass and one byte pass |
| TreePasses.Unfolded | scripts/safe-local-fs.py:2272-2322 | the walk over a pending stack accounts for every entry and byte of the tree, once |
| TreePasses.UnfoldedSigned | scripts/safe-local-fs.py:2337-2446 | the walk signs every path of the tree |
| TreePasses.SignedOnce | scripts/safe-local-fs.py:2337-2446 | each path has one signature |
| TreePasses.SameTreeSameSignature | scripts/safe-local-fs.py:2337-2446 | the signature is a function of the tree |
| TreePasses.EqualSignaturesMeanAlike | scripts/safe-local-fs.py:2934-2967 | two signatures are equal iff the trees have the same paths, kinds, modes and file digests |
| TreeCopy.WriteTemp | scripts/safe-local-fs.py:1982-2019 | a scratch file is filled and sealed iff every call works and the second reading fits; on a faithful disk it then holds that reading and the mode |
| TreeCopy.CopyOneFile | scripts/safe-local-fs.py:2817-2855 | one file, read twice: copied iff it has one link, both readings have one digest and fit, and no call raises; whatever a failing call leaves, finished or not, stays behind for the checks |
| TreeCopy.CopySubdirectory | scripts/safe-local-fs.py:2793-2815 | a subdirectory gets its mode only after it is filled |
| TreeCopy.CopyDirectory | scripts/safe-local-fs.py:2779-2856 | a directory is copied iff its tree is ordinary and unlinked, both readings agree, the budget covers every entry once and every byte three times, and none of the calls made raises; then its entries are the source's, and on a faithful disk the copy is the second reading |
| TreeInstall.SharedAllowanceSuffices | scripts/safe-local-fs.py:2885-2890 | the shared byte budget never refuses what the passes accept, unless the first reading of the copied tree is itself too large |
| TreeInstall.SteadyIsInstallable | scripts/safe-local-fs.py:2881-2970 | a source that does not change is installable iff its tree is within the limits and free of hard links, and costs exactly seven entry passes and seven byte passes |
| TreeInstall.InstallTarget.FillStage | scripts/safe-local-fs.py:2765-2878 | filled iff the copy succeeds and no call raises; a failing call leaves any part of it |
| TreeInstall.InstallTarget.StageTree | scripts/safe-local-fs.py:2926-2970 | for a source that may change between passes, a disk that may store anything, and a fault at any call: staging succeeds iff no call raises and every pass, those over the stage included, sees an acceptable tree alike to the first |
| TreeInstall.InstallTarget.Activate | scripts/safe-local-fs.py:2971-3044 | the target changes iff the calls before the rename work, no target exists and the rename takes effect |
| TreeInstall.InstallTarget.InstallTree | scripts/safe-local-fs.py:2881-3067 | success, and appearance of the target, are characterised exactly for every fault schedule; the rename is the only commit point, a target that exists is never altered, and an appearing target is what the stage held, with the signature taken of the source at the start; every byte and entry is paid for in seven passes |
| ProcessTree.ClosedHoldsReachable | scripts/gui-session-supervisor.py:1470-1503 | a set closed under live children holds everything reachable from it |
| ProcessTree.ReachableRootsAddNothing | scripts/gui-session-supervisor.py:1470-1503 | handles that are themselves reachable add nothing to what is reachable |
| GuiSupervisor.Supervisor.Acquire | scripts/gui-session-supervisor.py:1444-1463 | a handle is taken iff the process was seen alive with the expected start time; a handle of another start time is never replaced |
| GuiSupervisor.Supervisor.TakeReachable | scripts/gui-session-supervisor.py:1484-1498 | the fixpoint loop ends and takes only live processes reachable from the supervisor or a live handle |
| GuiSupervisor.Supervisor.CloseStale | scripts/gui-session-supervisor.py:1500-1503 | exactly the handles whose process is gone or replaced are dropped |
| GuiSupervisor.Supervisor.Scan | scripts/gui-session-supervisor.py:1470-1503 | a failed listing changes nothing; otherwise no live handle is lost, none is added that is not live and reachable, and on a stable table without stale handles none is missed |
| GuiSupervisor.Supervisor.NothingMissingIsComplete | scripts/gui-session-supervisor.py:1490-1498 | when a sweep finds nothing more, every live reachable process has a handle |
| GuiSupervisor.Supervisor.ScanTwice | scripts/gui-session-supervisor.py:1470-1503 | after two scans of a stable table the live handles are exactly the live processes reachable before |
| GuiSupervisor.Supervisor.Reap | scripts/gui-session-supervisor.py:1505-1517 | the root's status is kept once; only reaped processes lose their handles |
| GuiSupervisor.Supervisor.Send | scripts/gui-session-supervisor.py:1519-1532 | every live handle is signalled, none twice, the root last |
| GuiSupervisor.Supervisor.ChildrenEmpty | scripts/gui-session-supervisor.py:1534-1548 | empty is answered only right after no child was listed; on a stable table it means nothing of the tree is left |
| GuiSupervisor.Supervisor.Drain | scripts/gui-session-supervisor.py:1550-1571 | drained is answered only right after the tree was observed empty |
| GuiSupervisor.Supervisor.WriteCompletion | scripts/gui-session-supervisor.py:1573-1590 | a frame is begun only right after the tree was observed empty, with nothing but its own writes since, and at most one whole frame is ever written |
| GuiSupervisor.Supervisor.Finish | scripts/gui-session-supervisor.py:1592-1596 | the first signal that came before the status was picked overrides it, in the frame and in the result; a signal is overlooked iff it is the first and comes while the frame is being written |
| GuiSupervisor.Supervisor.Spawn | scripts/gui-session-supervisor.py:1598-1621 | the root is bound or the caller is told that it is not |
| GuiSupervisor.Supervisor.Watch | scripts/gui-session-supervisor.py:1645-1654 | ends with the root reaped, a signal pending, or the time-out |
| GuiSupervisor.Supervisor.Conclude | scripts/gui-session-supervisor.py:1656-1675 | a written frame has exactly the status that the signal, the time-out, the root's exit and the leftovers stand for when it is picked; without a frame the status is an internal error |
| GuiSupervisor.Supervisor.Run | scripts/gui-session-supervisor.py:1623-1675 | the same for the whole run; a root that exits at once and leaves nothing gets its frame |
| GuiSupervisor.Supervisor.Supervise | scripts/gui-session-supervisor.py:1686-1734 | the process's status is 0 iff its frame was written, the root had exited 0 in time with nothing left behind, and no signal had come when the status was picked; then a signal is pending iff one came while the frame was being written; any written frame agrees with the exit status |
| GuiSupervisor.LostSignalExample | scripts/gui-session-supervisor.py:1573-1596 | a root that exits 0 at once and a signal that arrives before the frame is out: status 0, with the signal pending |

## Left out

- LifecycleRun.Run.Execute: the group signals to the root itself are not part of the signal log, only those to adopted children; the run begins once the root is bound, so the launch, the recovery of a failed bind and the clean-up of a root that was never bound are not modelled. A signal that arrives on the way out comes after the status is settled.
- AdoptedChildren.Supervisor.SignalPidfd: bindings are values in a map, so the alias of the root's binding is not captured; the list of signal errors is dropped, and nested subreapers are one supervisor.
- AdoptedChildren.Supervisor.DrainAdoptedChildren: termination of the drain is by its round and time budgets; that every child is drained within them is not claimed, because a child may ignore every signal.
- GzipFile.Transaction.Compress: a rollback that itself meets a failing call is only shown to lose nothing; when it must succeed is not stated. The scratch file is created by one call.
- MonthlyMerge.Merge.MergeMonth: the grouping of file names by month and the bounded directory scan are left out; one month is one call.
- SecureRemoval.SecureWipe: bytes are overwritten all at once or not at all.
- PassphraseRotation.Rotation.Rotate: only the replacing mode; environment and keyring sources, passphrase strength and the mode that keeps an existing file are left out.
- LogDays.EveryLineIsKeptOrGone: that the short stand-in for an oversized record fits into a file is assumed, and no call fails; what compression and the monthly merge do to files of other days enters as an arbitrary refreshed listing.
- LogDays.LastLinesAreKeptInOrder: for rotated files of equal or decreasing age the order of what is removed is that of retention, by time and name, and is not chronological; `EveryLineIsKeptOrGone` covers those runs.
- LogEmission.Handler.Emit: a new day is a new log and a new handler; retry delays, maintenance after a written line, and the checks of mode and owner are left out.
- BackupState.BackupStateStore.RecordJob: whether the ledger takes a list of jobs is a parameter, which `RenderedSizes.LedgerAccepts` instantiates; a fault or damage of the ledger file itself is a failing load; the lock protocol is left out.
- BackupRuns.EveryRunEndsTruthful: archives that are removed between runs; `BackupVerdicts.EveryVerdict` holds in those worlds too. Job ids are taken to be distinct, as they are drawn at random.
- BackupNames.PlainExactly: Unicode normalisation of names is left out.
- BackupManifest.ManifestRoundTrip: reads paths as they are, which is right for paths in normal form; `NormalPaths` has the reader that normalises. The JSON text below the tree is an abstract, faithful codec.
- BackupArchive.VerifyTarArchive: the size limit on the whole archive and the encryption envelope are left out.
- BackupRestore.RestoreTarget.RestoreBackup: removal of a failed staging directory is left out.
- BackupJob.BackupTarget.CreateBackup: an interrupt between the publishing rename and the flag after it is modelled as a rename that raises after its effect; removal of scratch files, the size limit on the whole archive and the encryption envelope are left out; the text of an error is a parameter; there is one target for each ledger.
- TreeInstall.InstallTarget.InstallTree: the source is stable within one pass, though not between passes nor between the two readings of a file, and is listed in a fixed order; a pass is one call that may fail; excluded names are taken out of the given trees; the root's identity is left out, and the removal of the stage is two calls.
- AlarmChecks.AlarmStore.CheckDueAlarms: no alarm is edited between checks of a run; time zones are one predicate that says which local minutes exist.
- AlarmIds.DedupeAlarmIds: for ids that are already sanitised.
- GuiSupervisor.Supervisor.Finish: the pending signal is the first arrival before the clock and not a field, because its handler may write it between any two steps.
- GuiSupervisor.Supervisor.Run: log files, launch plumbing and exhaustion of descriptors are left out; deadlines are numbers of polls.
- Sizes, modification times and modes in the identity checks of log and passphrase files, ownership, access control lists and symbolic links: the lock keeps other writers out, so the inode and link count decide.
- AES-GCM, scrypt, SHA-256 and gzip: abstract, with a round trip or a digest as the only property.
- Text redaction, error notes, bubblewrap runners, keyring processes, path helpers and the speech engine: input checking, plumbing or user interface.
