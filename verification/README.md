# A verified model of a duplicate finder that moves, restores and deletes files

The application finds duplicate files, moves the redundant ones into a quarantine, can move them
back, and can delete quarantined files for good. This project models the parts where a mistake would
lose somebody's data, and proves what those parts promise.

`dafny verify dfyconfig.toml` checks the whole project (Dafny 4.11).

## How to read it

| file | what it models |
|---|---|
| `Domain.dfy` | transaction states, physical files, evidence, the no-replace rename |
| `Journal.dfy` | manifest, transaction table, event table and quarantine table under any interleaving of processes with stale copies |
| `VerifiedMove.dfy`, `MoveCommands.dfy` | the verified move and startup reconciliation as imperative code on a machine that may lose power anywhere |
| `Restore.dfy` | the move in the reverse direction, and both in a row |
| `Sessions.dfy` | whole runs of moves and recoveries, and the two ways in which a careless run loses track of a file |
| `QuarantinePlan.dfy` | applying a sealed plan, item by item, behind live keepers |
| `Encoding.dfy` | the byte strings behind the selection digest and the snapshot token |
| `DeleteProtocol.dfy` | permanent-delete batches under any interleaving: reservation and projection |
| `DeleteExecution.dfy` | preparing, executing, interrupting and repeating a batch on one machine |
| `DuplicateProof.dfy` | the streamed, layered duplicate proof against one-shot grouping |
| `QuickHash.dfy` | which bytes the sampled hash reads |
| `Scheduler.dfy`, `SchedulerControl.dfy` | the volume-aware worker pool as interleaved steps, and what pausing, cancelling and failing do to its runs |
| `PathIndex.dfy` | the two-level path index against a plain map |
| `ScanControl.dfy` | pause, resume and cancel across processes |
| `Progress.dfy`, `Download.dfy` | byte accounting and the resumable download |
| `RootSelection.dfy` | reduction of overlapping source folders |
| `KeepPolicy.dfy` | choice of the kept file, and the dry-run total |

Three conventions run through the files.

* **Interleavings** (`Journal`, `DeleteProtocol`, `Scheduler`, `ScanControl`) are transition systems:
  a step relation, an invariant, and theorems over every run from an initial state. A crashed process
  is one that takes no further step. A database transaction either commits or changes nothing, and
  every guarded update is a compare-and-set.
* **Power cuts** (`VerifiedMove`, `DeleteExecution`) are runs of the very same imperative code: once
  the machine is dead every later step does nothing. What a method ensures therefore holds after a cut
  between any two durable steps. A constant tells whether the machine is reliable; on a reliable
  machine the methods also promise to succeed, and say exactly when.
* **Hash functions** are unknown functions. A theorem that needs them not to collide says so, and only
  for the inputs it is about.

Some promises hold only under a condition. The code is modelled as it is, and the condition is proved:

* A move leaves another open transaction's file findable if and only if it moves a different file or
  moves it to one of that transaction's own paths (`Sessions.MoveKeepsLocatedIff`). Two plans for one
  file break this (`Sessions.TwoPlansLoseSight`). With the condition checked before each move,
  reconciliation never finds both paths missing (`Sessions.Session`).
* Whatever other processes do between a mover's `moving` record and its rename, the record still says
  `moving` after the rename if and only if nobody committed on the transaction in between, and it has
  left the recovery list if and only if somebody closed it (`Sessions.RenameStrandsIff`). Reconciling
  while the mover is alive closes it (`Sessions.ReconcileUnderALiveMover`); a mover could tell by reading
  its row again before the rename.
* After a power cut, a reconciliation that meets no further fault answers for an open transaction if and
  only if the file is still at its source or carries the recorded identity, size and digests. It settles
  the transaction, except in the states after a failed move or a failed verification, which it keeps when
  the file is at its destination. A moved file with other digests is never settled: it stays on the
  recovery list (`MoveCommands.CutPowerThenReconcile`).
* The covering test for source folders misses children exactly for keys that end in a separator, such
  as a drive root (`RootSelection.CoversWhatIsInsideIff`). The comments call the validated roots a set
  that cannot enumerate one path twice. They enumerate a path twice if and only if a minimal selected key
  ends in a separator and another selected key continues it (`RootSelection.EnumeratesTwiceIff`,
  `RootSelection.ValidateRoots`), as a drive and a folder on it do (`RootSelection.DriveAndFolder`).
* The groups of a session are its classes of equal content if the readings are honest and no two contents
  of the session share both full digests; no condition on the quick hash is needed
  (`DuplicateProof.DetectSession`).
* The snapshot token separates identities only for volume identifiers without NUL
  (`Encoding.TokenBinds`, `Encoding.TokenNeedsNulFree`).
* Marking an item as required keeps the aggregate exact if and only if the sum fits the counter; when
  it does not, the refused call has already marked the item (`Progress.ProgressBook.SetRequired`).
* A worker shown as active is not held by its token unless another process declared its session
  interrupted (`ScanControl.ActiveWorkersAreReleased`). Such an interruption, followed by the next stage,
  leaves a worker that is held but shown as active if and only if the token held it before
  (`ScanControl.ForeignInterruptSticksIff`); which steps bring this about at all is
  `ScanControl.GetsStuckIff`.
* An acknowledged pause or resume cancels the scan if and only if the request on record changed after it
  was read (`ScanControl.ConfirmCancelsIff`); a resume between the pause signal and its acknowledgement
  does (`ScanControl.ResumeRaceCancels`).
* Recorded download progress never exceeds the part file, but it may lag behind it: a failing write can
  leave bytes that were never counted. A request that succeeds counts the whole artifact if and only if
  the server starts over or nothing was uncounted before (`Download.DownloadOnce`).
* A deletion succeeds only if no two items share a file; two entries of one path end in recovery
  (`DeleteExecution.Machine.Execute`).

## Model

| member | source | states |
|---|---|---|
| `Domain.TransactionState.Rank` | crates/dedupe-core/src/model.rs:268-320 | every legal transition can be measured by a number of at most six |
| `Domain.ComesFrom` | crates/dedupe-core/src/model.rs:268-320 | from which states each state can be entered: a cancellation only before the move, recovery only after it began, verification only after a move or out of recovery |
| `Domain.PendingIffNotTerminal` | crates/dedupe-store/src/transactions.rs:249-288 | the startup-recovery list is exactly the set of states that still have a legal successor |
| `JournalProtocol.ChainRanks` | crates/dedupe-core/src/model.rs:268-320 | a legal chain of events climbs strictly, so it has at most seven events |
| `JournalProtocol.StepKeepsInv` | crates/dedupe-store/src/journal.rs:73-213 | append, commit, abandon, load and rename by any process keep the journal in order |
| `JournalProtocol.CommitKeepsEntries` | crates/dedupe-store/src/journal.rs:249-338 | a commit creates a quarantine row exactly with the verification of its origin |
| `JournalProtocol.CommitMarks` | crates/dedupe-store/src/journal.rs:249-338 | which quarantine rows one commit marks as verified, restoring, restored or recovery, and that it changes no other row |
| `JournalProtocol.EntriesFollowOn` | crates/dedupe-store/src/journal.rs:249-338 | the marks of a whole stretch of history depend only on the statuses at its two ends |
| `JournalProtocol.EveryInterleaving` | crates/dedupe-store/src/journal.rs:73-213 | after any interleaving of processes with stale copies and crashes: committed events form one legal chain from planned of at most seven, they are a subsequence of the manifest, status is the last event, quarantine rows exist exactly for verified origins under their project and destination, and a restored row has a verified restore from its path |
| `JournalProtocol.HistoryNeverForks` | crates/dedupe-store/src/journal.rs:146-213 | the committed history of a transaction only ever grows at its end |
| `JournalProtocol.MoveConserves` | crates/dedupe-platform/src/portable.rs:89-136 | a non-replacing rename keeps, for every physical file, the number of paths that hold it |
| `JournalProtocol.FilesAreConserved` | crates/dedupe-core/src/transaction_journal.rs:15-118 | over every run no physical file is lost, duplicated or changed |
| `VerifiedMove.Machine.AppendManifest` | crates/dedupe-store/src/journal.rs:50-69 | the line is written before anything else changes, and a failed flush may leave it behind |
| `VerifiedMove.Machine.CommitTransition` | crates/dedupe-store/src/journal.rs:168-211 | compare-and-set of the status with event and projection, all or nothing, in memory only after the commit |
| `VerifiedMove.Machine.Journal` | crates/dedupe-store/src/journal.rs:146-213 | append, then commit; success is durable, and a failure with the power on changed no table |
| `VerifiedMove.Machine.Create` | crates/dedupe-store/src/journal.rs:73-144 | succeeds on a reliable machine exactly for a new record whose size fits the column and whose paths have keys; a record that does not fit leaves manifest and tables as they were |
| `VerifiedMove.Machine.Transition` | crates/dedupe-core/src/transaction_journal.rs:151-167 | the copy stays equal to the row, and changes only along legal transitions |
| `VerifiedMove.Machine.MoveNoReplace` | crates/dedupe-platform/src/portable.rs:89-136 | nothing, or one rename of exactly the expected file to a free path; an error may follow the rename |
| `VerifiedMove.Machine.VerifyDestination` | crates/dedupe-core/src/transaction_journal.rs:121-148 | success means identity, size and both digests match |
| `MoveCommands.Preflight` | crates/dedupe-core/src/transaction_journal.rs:27-65 | the move starts only from a durable moving state with a source snapshot that matches, and never once cancelled; the files are untouched |
| `MoveCommands.CheckAndStart` | crates/dedupe-core/src/transaction_journal.rs:27-65 | a planned record goes on to moving exactly if its source matches, and to preflight-failed otherwise |
| `MoveCommands.FailTowardsRecovery` | crates/dedupe-core/src/transaction_journal.rs:66-84 | a failure ends in recovery, or in a durable state on the way there |
| `MoveCommands.VerifyMoved` | crates/dedupe-core/src/transaction_journal.rs:85-117 | verified is durable only for a fully matching destination |
| `MoveCommands.MoveAndVerify` | crates/dedupe-core/src/transaction_journal.rs:66-117 | the durable status tells whether the rename may have happened |
| `MoveCommands.ExecuteVerifiedMove` | crates/dedupe-core/src/transaction_journal.rs:15-118 | wherever it stops: files untouched or one non-replacing rename of the expected file, the durable status says which, and the quarantine table stands where that status puts it; on a reliable machine it is verified exactly when the file carries all evidence and the destination is free, otherwise preflight-failed or recovery-required |
| `MoveCommands.SettleDestination` | crates/dedupe-core/src/recovery.rs:44-68 | a matching destination becomes verified from moving, moved or recovery states and keeps every other state |
| `MoveCommands.Reconcile` | crates/dedupe-core/src/recovery.rs:25-91 | each of the four dispositions is taken exactly for its combination of existing paths, and the quarantine table follows the record |
| `MoveCommands.CutPowerThenReconcile` | crates/dedupe-core/src/recovery.rs:25-91 | after a cut anywhere in a move the file is at exactly one path; a reconciliation on a machine without further faults answers exactly if the file is at the source or carries all evidence, and leaves the status that belongs to what it found; whatever an unreliable one answers is right; the quarantine table follows the record, except that closing it leaves the table alone |
| `Restore.ThereAndBack` | crates/dedupe-core/src/restore.rs:15-40 | a move and its reverse are the identity on the files |
| `Restore.RestoreOne` | crates/dedupe-core/src/restore.rs:15-57 | nothing, or one rename back to the free original path; the rows of its project at its quarantine path follow its status and no other row changes; success marks them restored; on a reliable machine success exactly for a verified entry whose file still has all evidence and whose original path is free |
| `Restore.QuarantineThenRestore` | crates/dedupe-core/src/restore.rs:43-57 | quarantine followed by restore leaves all files as they were and the entry restored; on a reliable machine whatever was quarantined can be restored |
| `Sessions.MoveKeepsLocatedIff` | crates/dedupe-core/src/recovery.rs:31-33 | exactly when one move keeps another transaction's file at one of its paths |
| `Sessions.CarefulMove` | crates/dedupe-core/src/transaction_journal.rs:15-118 | one checked move, cut short anywhere, keeps every open transaction's file findable; without faults it succeeds exactly for a file with all evidence and a free destination |
| `Sessions.Recover` | crates/dedupe-core/src/recovery.rs:79-89 | recovery changes no file and never records a transaction as missing; without faults it closes or settles a transaction by where its file is |
| `Sessions.Session` | crates/dedupe-core/src/recovery.rs:25-91 | any number of checked moves and recoveries with power cuts: every file conserved, no transaction recorded as missing |
| `Sessions.TwoPlansLoseSight` | crates/dedupe-core/src/recovery.rs:79-89 | without the check, a reachable state in which a file is safe but both paths of its open transaction are absent |
| `Sessions.ReconcileUnderALiveMover` | crates/dedupe-core/src/recovery.rs:34-43 | a run of two processes: reconciling while the mover lives closes the transaction before its file moves |
| `Sessions.StatusStaysIff` | crates/dedupe-store/src/journal.rs:146-213 | over any run a status is unchanged exactly if nobody committed on the transaction, and otherwise it is higher |
| `Sessions.ClosedIff` | crates/dedupe-store/src/journal.rs:146-213 | over any run an open transaction leaves the recovery list exactly if somebody committed its last event |
| `Sessions.RenameStrandsIff` | crates/dedupe-core/src/transaction_journal.rs:57-75 | whatever others do between the moving record and the rename: afterwards the file is at the destination, and its record still says moving exactly if nobody committed in between, and is off the recovery list exactly if somebody closed it |
| `QuarantinePlan.DestinationInjective` | crates/dedupe-core/src/quarantine.rs:58-78 | under one quarantine root different items never share a destination |
| `QuarantinePlan.DestinationIs` | crates/dedupe-core/src/quarantine.rs:58-78 | an item goes below the quarantine root, project, session and item directory, under its path inside the longest root that contains it, and only items outside all roots have no destination |
| `QuarantinePlan.DestinationsDiffer` | apps/cli/src/main.rs:921-931 | different items never share a destination, with one quarantine root for all and, as no validated root lies in a quarantine directory, with the best root of each item |
| `QuarantinePlan.BestRoot` | apps/cli/src/main.rs:921-930 | the longest configured root that contains the path, or none |
| `QuarantinePlan.MoveKeepsSafe` | apps/cli/src/main.rs:913-957 | one more item's move leaves every item's file at its source or own destination and every other file untouched, and makes no other file appear |
| `QuarantinePlan.KeepersStay` | apps/cli/src/main.rs:913-957 | in particular every keeper is where it was |
| `QuarantinePlan.PlanStore.MarkExecuting` | crates/dedupe-store/src/plans.rs:302-318 | only a sealed plan starts, and on a reliable database it does; a failing statement changes nothing |
| `QuarantinePlan.PlanStore.MarkCompletedIfVerified` | crates/dedupe-store/src/plans.rs:340-365 | completed only if every item has a verified quarantine transaction, and on a reliable database exactly then |
| `QuarantinePlan.VerifyLiveKeeper` | crates/dedupe-core/src/quarantine.rs:21-55 | accepts exactly a first keeper that still has all sealed evidence |
| `QuarantinePlan.VerifyGroupOf` | apps/cli/src/main.rs:914-920 | the item's group exists and its keeper lives |
| `QuarantinePlan.MovableIff` | crates/dedupe-core/src/quarantine.rs:81-120 | an item's planned transaction can succeed exactly if the file still carries all of the item's evidence, stable and complete, and its destination is free |
| `QuarantinePlan.MoveItem` | apps/cli/src/main.rs:921-951 | one item ends verified at its own destination, on record with its own evidence, or every named file still is safe |
| `QuarantinePlan.StaysReady` | apps/cli/src/main.rs:913-957 | moving one item leaves all later items movable and all keepers alive |
| `QuarantinePlan.MoveItems` | apps/cli/src/main.rs:912-957 | success means every item on record as verified with its own evidence and gone from its source, and the exact byte count, capped at 64 bits; on a reliable machine a plan that is ready succeeds |
| `QuarantinePlan.ApplyQuarantinePlan` | apps/cli/src/main.rs:893-963 | wherever it stops: nothing is moved unless every group had a live keeper when the plan began, every file that is no item of the plan is untouched, the keepers among them, every item is at its source or own destination, nothing else appears, and the plan is completed only with every item moved and on record; with machine and database reliable it succeeds if keepers live and every file carries the evidence of its item |
| `Encoding.LittleEndianInjective` | crates/dedupe-core/src/permanent_delete.rs:600-604 | fixed-width numbers are determined by their bytes |
| `Encoding.CutEntry` | crates/dedupe-core/src/permanent_delete.rs:599-608 | one encoded entry determines its evidence and where the next begins |
| `Encoding.EncodeInjective` | crates/dedupe-core/src/permanent_delete.rs:594-610 | the digested bytes determine the whole list of evidence |
| `Encoding.SortIsStable` | crates/dedupe-core/src/permanent_delete.rs:594-597 | the sorted selection climbs by identifier and entries of one identifier keep their order |
| `Encoding.SelectionOrderIrrelevant` | crates/dedupe-core/src/permanent_delete.rs:594-597 | the order of selection does not change the digest |
| `Encoding.SelectionBindsEvidence` | crates/dedupe-core/src/permanent_delete.rs:594-610 | equal pre-images mean equal selections, entry for entry |
| `Encoding.TokenBinds` | crates/dedupe-core/src/metadata.rs:7-21 | for NUL-free volume identifiers the token's pre-image determines identity, size and time |
| `Encoding.TokenNeedsNulFree` | crates/dedupe-core/src/metadata.rs:13-17 | without that restriction different identities share a pre-image |
| `DeleteProtocol.ReserveEffect` | crates/dedupe-store/src/permanent_delete.rs:319-355 | starting a batch takes the row of every undeleted item and no other |
| `DeleteProtocol.ComesFrom` | crates/dedupe-core/src/permanent_delete.rs:70-108 | from which states each batch state and each item state can be entered |
| `DeleteProtocol.MoveItemEffect` | crates/dedupe-store/src/permanent_delete.rs:390-478 | an item transition changes that item's state and what its own reserved row shows of it, and nothing else |
| `DeleteProtocol.ReserveSucceedsIff` | crates/dedupe-store/src/permanent_delete.rs:319-355 | a reservation succeeds exactly if each undeleted item's row can be taken |
| `DeleteProtocol.StartsIff` | crates/dedupe-store/src/permanent_delete.rs:275-355 | a prepared batch starts exactly if each of its rows is verified, of its project and reserved by nobody; a stopped one starts again exactly if the rows of its undeleted items still are verified and of its project |
| `DeleteProtocol.MoveBatchKeepsTables` | crates/dedupe-store/src/permanent_delete.rs:275-388 | batch transitions keep reservations and projections in order |
| `DeleteProtocol.MoveItemKeepsTables` | crates/dedupe-store/src/permanent_delete.rs:390-478 | item transitions keep them in order |
| `DeleteProtocol.StepKeepsInv` | crates/dedupe-store/src/permanent_delete.rs:99-478 | every step of any process keeps tables and copies in order |
| `DeleteProtocol.RunKeepsInv` | crates/dedupe-core/src/permanent_delete.rs:70-108 | over every run evidence never changes, intents are never forgotten and deletions are final |
| `DeleteProtocol.ReservationIsExclusive` | crates/dedupe-store/src/permanent_delete.rs:330-348 | two started batches never share an entry |
| `DeleteProtocol.ProjectionAgrees` | crates/dedupe-store/src/permanent_delete.rs:430-455 | the quarantine row of a started batch's item shows the item's state, and a completed batch has every item deleted |
| `DeleteProtocol.OnlyReservedRowsLeaveActive` | crates/dedupe-store/src/permanent_delete.rs:319-355 | a row leaves the active state only through a started batch that lists it |
| `DeleteExecution.SumSizes` | crates/dedupe-core/src/permanent_delete.rs:510-514 | the checked sum is exact or refused |
| `DeleteExecution.CheckSelection` | crates/dedupe-core/src/permanent_delete.rs:240-273 | accepts exactly the selections that are distinct, of one project, past retention, fully evidenced and summable |
| `DeleteExecution.PrepareBatch` | crates/dedupe-core/src/permanent_delete.rs:221-299 | a batch is built exactly for an acceptable selection, sorted, all planned and consistent with its digests and phrase |
| `DeleteExecution.ValidateLoaded` | crates/dedupe-core/src/permanent_delete.rs:502-528 | accepts exactly the consistent batches |
| `DeleteExecution.LaterVersionsStayConsistent` | crates/dedupe-core/src/permanent_delete.rs:502-528 | validation does not depend on states |
| `DeleteExecution.StoredBatchesStayConsistent` | crates/dedupe-store/src/permanent_delete.rs:99-272 | prepare, store, any run of any processes, load: the batch still validates |
| `DeleteExecution.ValidationBindsEvidence` | crates/dedupe-core/src/permanent_delete.rs:502-528 | evidence that validates against the prepared digest is the prepared evidence |
| `DeleteExecution.Machine.JournalBatch` | crates/dedupe-core/src/permanent_delete.rs:545-560 | appended first, committed whole, in memory only after the commit |
| `DeleteExecution.Machine.JournalItem` | crates/dedupe-core/src/permanent_delete.rs:562-578 | the same for one item |
| `DeleteExecution.Machine.VerifyEntry` | crates/dedupe-core/src/permanent_delete.rs:471-500 | success means identity, size, single link and both digests match |
| `DeleteExecution.Machine.DeleteExact` | crates/dedupe-platform/src/windows.rs:103-145 | callable only under a durable intent; removes the file only if identity, size and token still are the expected ones, and without faults exactly then; an error may follow the removal |
| `DeleteExecution.Machine.PreflightItem` | crates/dedupe-core/src/permanent_delete.rs:372-405 | a missing file is accepted only after a durable intent; a cancelled call checks nothing |
| `DeleteExecution.Machine.Preflight` | crates/dedupe-core/src/permanent_delete.rs:367-406 | no file is touched; deletion is reached only if every undeleted item passed full verification, and on a reliable machine exactly then |
| `DeleteExecution.Machine.DeleteItem` | crates/dedupe-core/src/permanent_delete.rs:408-458 | intent, removal, result: a removed file had the identity, size and token of the preflight's snapshot, and deleted is recorded only after a removal |
| `DeleteExecution.Machine.DeleteAll` | crates/dedupe-core/src/permanent_delete.rs:408-459 | every file that disappears is covered by an intent, every recorded deletion is honest; it succeeds without faults exactly if no two items share a file, and success has removed exactly the files of the items |
| `DeleteExecution.Machine.Proceed` | crates/dedupe-core/src/permanent_delete.rs:351-467 | the first removal of a call happens only after the whole preflight passed; without faults it succeeds exactly if the rows let the batch start, all items are cleared and no two share a file, and otherwise it ends in recovery or changes nothing |
| `DeleteExecution.FitsIff` | crates/dedupe-store/src/permanent_delete.rs:114-150 | a consistent batch fits its columns exactly if its total and its count do |
| `DeleteExecution.Machine.Prepare` | crates/dedupe-core/src/permanent_delete.rs:221-309 | a challenge is stored whole or not at all, and its own token and phrase authorise it; without faults it is stored exactly for an acceptable selection under a new id that fits the columns |
| `DeleteExecution.Machine.Execute` | crates/dedupe-core/src/permanent_delete.rs:313-469 | one call, first or repeated, cut short anywhere: no effect without token and phrase, none after expiry, nothing but intended matching files removed, other batches and their rows untouched, success with the exact promised count and bytes and exactly the listed files gone; on a reliable machine success exactly if the batch is completed, or in time with its rows free or still verified and all files with their evidence; otherwise it ends expired, in recovery or unchanged |
| `DeleteExecution.ItemCanMove` | crates/dedupe-store/src/permanent_delete.rs:390-478 | in a started batch every legal item transition finds its reservation |
| `DeleteExecution.AllDeletedSums` | crates/dedupe-core/src/permanent_delete.rs:628-641 | a fully deleted batch sums to its count and total |
| `DeleteExecution.Summarise` | crates/dedupe-core/src/permanent_delete.rs:628-641 | for a consistent, fully deleted batch the outcome is the promised one, without saturation |
| `DeleteExecution.OneMoreDeleted` | crates/dedupe-core/src/permanent_delete.rs:412-458 | one more removal keeps the account of removed files |
| `DeleteExecution.CutThenRetry` | crates/dedupe-core/src/permanent_delete.rs:313-469 | a call that could have succeeded is cut anywhere; the same call on the next start succeeds with the promised outcome, and together they removed exactly the listed files |
| `DeleteExecution.FreshDeletableIff` | crates/dedupe-core/src/permanent_delete.rs:351-467 | a freshly prepared batch can be deleted exactly if every selected entry has a free verified row and a matching file of its own |
| `DeleteExecution.PrepareThenExecute` | crates/dedupe-core/src/permanent_delete.rs:221-469 | from selection to removal: without faults and confirmed in time it succeeds exactly if the selection is ready, and exactly the selected files are gone |
| `DeleteExecution.Campaign` | crates/dedupe-core/src/permanent_delete.rs:313-469 | over any number of prepared, crashed, retried and repeated calls: only intended, fully matching files disappear, nothing reappears, and what is recorded as deleted is gone |
| `DuplicateProof.PickTwice` | crates/dedupe-core/src/duplicate_detector.rs:116-142 | two filters in a row are one |
| `DuplicateProof.IndependentIsDistinct` | crates/dedupe-core/src/duplicate_detector.rs:145-154 | no two members of a group are one physical file |
| `DuplicateProof.IndependentRepresents` | crates/dedupe-core/src/duplicate_detector.rs:145-154 | every dropped row has its physical file represented |
| `DuplicateProof.KeepIndependent` | crates/dedupe-core/src/duplicate_detector.rs:144-154 | the loop with a set of seen identities keeps the first row of every physical file |
| `DuplicateProof.GroupStable` | crates/dedupe-core/src/duplicate_detector.rs:235-282 | the groups of one stage are exactly the rows with a stable reading, by digest, in order |
| `DuplicateProof.ShaStage` | crates/dedupe-core/src/duplicate_detector.rs:143-176 | all groups of one BLAKE3 class |
| `DuplicateProof.BlakeStage` | crates/dedupe-core/src/duplicate_detector.rs:123-177 | all groups of one quick class, although classes of one row are never hashed further |
| `DuplicateProof.QuickStage` | crates/dedupe-core/src/duplicate_detector.rs:112-179 | all groups of the eligible rows |
| `DuplicateProof.StagesAreClass` | crates/dedupe-core/src/duplicate_detector.rs:112-142 | the three layers select the one-shot class of the full key |
| `DuplicateProof.ConfirmGroup` | crates/dedupe-core/src/duplicate_detector.rs:90-179 | exactly the one-shot classes with two independent members, each once; every member has no second link and the size, name and digests of its group |
| `DuplicateProof.StreamGroups` | crates/dedupe-store/src/scan.rs:691-746 | cutting ordered rows into runs yields exactly the preliminary groups with two rows, each whole and once |
| `DuplicateProof.DetectSession` | crates/dedupe-core/src/duplicate_detector.rs:90-179 | streamed and layered detection over a session equals one-shot grouping by size, name, quick hash, BLAKE3 and SHA-256; only files without a second link are reported, with the digests of their group; with honest readings and no joint collision of the full digests, two files are reported together exactly if they are duplicates, and the groups are the classes of equal content, each once |
| `DuplicateProof.GroupsAreDisjoint` | crates/dedupe-core/src/duplicate_detector.rs:144-176 | no row is in two groups |
| `DuplicateProof.ProvesIsFit` | crates/dedupe-core/src/duplicate_detector.rs:101-111 | every reported row is no hard link, has no link count or the count one, and carries the size, name and digests of its group; no two are one physical file |
| `DuplicateProof.QuickStageSplitsNothing` | crates/dedupe-core/src/duplicate_detector.rs:112-117 | the quick stage separates no files that the full digests would join, whatever the quick hash is |
| `DuplicateProof.ProofIsEqualContent` | crates/dedupe-core/src/duplicate_detector.rs:181-233 | fully read files share a proof exactly when their contents are equal, barring two contents of the session that share both full digests |
| `DuplicateProof.ClassIsEqualContent` | crates/dedupe-core/src/duplicate_detector.rs:112-142 | the one-shot class of a fully read file is the class of its content |
| `DuplicateProof.ExactMeansEqualContent` | crates/dedupe-core/src/duplicate_detector.rs:90-179 | groups that are the one-shot classes are the classes of equal content, none twice and none missing |
| `DuplicateProof.ReportsEveryDuplicate` | crates/dedupe-core/src/duplicate_detector.rs:90-179 | any two fully read files without a second link, of equal content (and name) and different identity, are represented in one group, and what is in one group has equal content |
| `QuickHash.OffsetsAre` | crates/dedupe-core/src/quick_hash.rs:63-75 | the offsets after sorting and removing repetitions |
| `QuickHash.WindowsAreOrdered` | crates/dedupe-core/src/quick_hash.rs:63-75 | at most three windows, in bounds and increasing |
| `QuickHash.CoversAllIff` | crates/dedupe-core/src/quick_hash.rs:63-75 | the windows cover every byte exactly up to three samples |
| `QuickHash.Sample` | crates/dedupe-core/src/quick_hash.rs:30-51 | what the hasher is fed, and exactly how many bytes are read |
| `QuickHash.SmallFilesAreBound` | crates/dedupe-core/src/quick_hash.rs:30-51 | up to three samples equal pre-images mean equal files |
| `Scheduler.Configured` | crates/dedupe-core/src/scheduler.rs:68-71 | each limit is its own argument, or the nearer bound when that is out of range; no more workers than jobs |
| `Scheduler.StepKeepsInv` | crates/dedupe-core/src/scheduler.rs:74-167 | every step of producer, workers, collector and user keeps permits, places, history and truth |
| `Scheduler.WorkerKeepsPermits` | crates/dedupe-core/src/scheduler.rs:200-218 | acquire and release conserve permits, and the release never saturates |
| `Scheduler.WorkerCounts` | crates/dedupe-core/src/scheduler.rs:139-168 | a worker's step leaves every index in exactly one place |
| `Scheduler.LimitsHold` | crates/dedupe-core/src/scheduler.rs:185-228 | in every interleaving: available plus held permits is the capacity, no volume runs more than its limit, no job starts twice |
| `Scheduler.RequestedLimitsHold` | crates/dedupe-core/src/scheduler.rs:54-228 | at every moment of every run no volume has more running workers than the full readers asked for (or one), and workers and queues keep to what was asked for |
| `Scheduler.ResultsAreComplete` | crates/dedupe-core/src/scheduler.rs:104-136 | a finished run returns every job's work under its own index or the first error received; lost job and missing limiter are impossible |
| `Scheduler.NeverStuck` | crates/dedupe-core/src/scheduler.rs:54-168 | unless a pause is in the way of some job, some short run of system steps brings the end nearer |
| `Scheduler.CanFinish` | crates/dedupe-core/src/scheduler.rs:54-168 | such runs add up to a finished run |
| `Scheduler.EveryStateCanFinish` | crates/dedupe-core/src/scheduler.rs:54-228 | no deadlock from any reachable state that is cancelled, not paused, or past all checkpoints |
| `SchedulerControl.UndisturbedRunSucceeds` | crates/dedupe-core/src/scheduler.rs:54-168 | whatever the interleaving and the pauses, a finished run that nobody cancels and whose work does not fail returns the work of every job in order |
| `SchedulerControl.CancelledBeforeStart` | crates/dedupe-core/src/scheduler.rs:84-168 | a run cancelled before it begins starts no job and returns that error |
| `SchedulerControl.RunKeepsEarned` | crates/dedupe-core/src/scheduler.rs:139-168 | a value or an error of the work exists only for a job that was started |
| `SchedulerControl.StartsNeedCheckpoint` | crates/dedupe-core/src/scheduler.rs:147-159 | a job is started only in a step that finds the run neither paused nor cancelled |
| `SchedulerControl.PausedStartsNothing` | crates/dedupe-core/src/scheduler.rs:147-159 | once paused, and until somebody resumes, no job is started |
| `SchedulerControl.CancelledStartsNothing` | crates/dedupe-core/src/scheduler.rs:91-102 | once cancelled, no job is started and the producer stops after at most two indices |
| `SchedulerControl.CheckpointsReportCancellation` | crates/dedupe-core/src/scheduler.rs:149-215 | the next checkpoint of a cancelled run ends the job with that error, and no permit is taken any more |
| `SchedulerControl.FirstErrorCancels` | crates/dedupe-core/src/scheduler.rs:104-124 | the first error received cancels the run and is kept, and from then on no job starts and no result is added |
| `SchedulerControl.FailedWorkerStops` | crates/dedupe-core/src/scheduler.rs:160-164 | a worker that has sent an error takes no further job, one that has sent a value is ready for the next |
| `SchedulerControl.MutexHolds` | crates/dedupe-core/src/scheduler.rs:185-218 | at most one worker is inside the critical section of a volume's limiter |
| `Scheduler.Recommended` | crates/dedupe-core/src/scheduler.rs:36-48 | the most metadata workers, up to eight, that have two processors each; one full reader on slow or unknown storage, two on SATA, and on NVMe the most, up to four, that have three processors each |
| `PathIndex.NoExactCollision` | crates/dedupe-store/src/scan.rs:835-857 | the exact-key collision error is unreachable |
| `PathIndex.SlotIsHome` | crates/dedupe-store/src/scan.rs:824-860 | a path finds its own entry exactly if it has one |
| `PathIndex.RootOfIsOwn` | crates/dedupe-store/src/scan.rs:809-822 | a path belongs to the first root that contains it, and to none exactly if no root does |
| `PathIndex.UpsertFiles` | crates/dedupe-store/src/scan.rs:809-937 | one record files its path as written under its own root, under one key, and touches no other entry |
| `PathIndex.UpsertKeepsIds` | crates/dedupe-store/src/scan.rs:901-937 | a record keeps the identifier of its snapshot and every other snapshot, and no two snapshots share one |
| `PathIndex.UpsertRefines` | crates/dedupe-store/src/scan.rs:809-937 | one record is one update of a plain map from exact text to entry; it fails exactly if no root contains the path, the path has no text, or size or time exceed signed 64 bits |
| `PathIndex.LookupIsExact` | crates/dedupe-store/src/duplicates.rs:344-386 | a snapshot is found exactly if the session recorded that very path, and it is the last one |
| `PathIndex.EntriesAreOneToOne` | crates/dedupe-store/src/scan.rs:824-900 | distinct texts never share an entry, and no text has two |
| `PathIndex.Sink.Flush` | crates/dedupe-store/src/scan.rs:802-957 | a flush records the whole buffer in order or nothing, and empties the buffer either way |
| `PathIndex.Sink.RecordSnapshot` | crates/dedupe-store/src/scan.rs:784-790 | buffered until the batch of 256 is full, then flushed |
| `ScanControl.StepKeepsInv` | crates/dedupe-store/src/scan.rs:386-603 | every step of user, monitor, worker and foreign process keeps row and token in order |
| `ScanControl.RecordIsTrue` | crates/dedupe-store/src/scan.rs:386-444 | the stage on record or remembered is the worker's true stage; paused with nothing pending means a paused token |
| `ScanControl.RequestsAreAccepted` | crates/dedupe-store/src/scan.rs:466-544 | pause is accepted exactly while a stage is active, resume exactly while pausing or paused, cancel exactly until the end, and each puts just itself on record |
| `ScanControl.ResumeLandsOnTrueStage` | crates/dedupe-store/src/scan.rs:569-603 | an acknowledged resume shows the true stage and finds the token released |
| `ScanControl.PauseAndResume` | crates/dedupe-store/src/scan.rs:99-156 | an undisturbed pause holds the worker and shows paused; an undisturbed resume then brings back exactly the state before |
| `ScanControl.CancelReleases` | crates/dedupe-store/src/scan.rs:99-156 | an undisturbed cancel reaches the token from every state and releases the worker |
| `ScanControl.MonitorComesBack` | crates/dedupe-store/src/scan.rs:99-156 | whatever the monitor has read, it polls again or is gone after at most two of its own steps |
| `ScanControl.CancellingOnlyEnds` | crates/dedupe-store/src/scan.rs:466-544 | cancelling moves only to an end state |
| `ScanControl.EnteringKeepsControl` | crates/dedupe-store/src/scan.rs:386-444 | the next stage is shown or remembered without hiding a pause or a cancellation |
| `ScanControl.ActiveWorkersAreReleased` | crates/dedupe-store/src/scan.rs:99-156 | a worker shown as active is not held by its token unless another process interrupted the session; a monitor that is gone has cancelled the token |
| `ScanControl.GetsStuckIff` | crates/dedupe-core/src/control.rs:56-70 | exactly which steps make a worker held while it is shown as active |
| `ScanControl.ForeignInterruptSticksIff` | crates/dedupe-store/src/scan.rs:222-238 | an interruption by another process and the next stage do so exactly if the token held the worker before |
| `ScanControl.ForeignInterruptHoldsWorkers` | crates/dedupe-store/src/scan.rs:222-238 | such a run from the start exists |
| `ScanControl.ConfirmCancelsIff` | crates/dedupe-store/src/scan.rs:569-603 | the acknowledgement cancels the scan exactly if the request on record is no longer the one that was read |
| `ScanControl.RestartStartsOver` | crates/dedupe-store/src/scan.rs:222-260 | a session starts over exactly when its process is gone and it was interrupted or blocked, and then from the beginning |
| `ScanControl.CrashIsRecoverable` | crates/dedupe-store/src/scan.rs:222-260 | wherever a process crashes, the session can be started over, unless it was completed or cancelled |
| `ScanControl.MonitorFailureCancels` | crates/dedupe-store/src/scan.rs:99-156 | a monitor that fails cancels the token and holds no worker |
| `ScanControl.EndIsRecorded` | crates/dedupe-store/src/scan.rs:347-464 | a live worker ends its session as completed, cancelled or blocked, and the record shows just that |
| `ScanControl.RecordAfterWorker` | crates/dedupe-store/src/scan.rs:386-603 | what may still change the record once the worker is gone; an end is kept |
| `ScanControl.ResumeRaceCancels` | crates/dedupe-store/src/scan.rs:126-148 | a resume between pause signal and acknowledgement cancels the scan |
| `Progress.NewWithRequired` | apps/runtime-installer/src/progress.rs:125-165 | a book is built exactly if no identifier repeats and the required sizes fit the counter; items as given, aggregate exact |
| `Progress.NewBook` | apps/runtime-installer/src/progress.rs:112-122 | a book of required items is built exactly if no identifier repeats and all sizes fit the counter, and starts out valid |
| `Progress.ProgressBook.SetExistingBytes` | apps/runtime-installer/src/progress.rs:168-182 | replaces the bytes of one item if they fit its size |
| `Progress.ProgressBook.SetRequired` | apps/runtime-installer/src/progress.rs:185-211 | keeps the aggregate exact if and only if the sum fits; otherwise the item is marked and the aggregate is stale |
| `Progress.ProgressBook.RecordNetworkBytes` | apps/runtime-installer/src/progress.rs:225-259 | adds to item and network counter within their bounds |
| `Progress.ProgressBook.PushSample` | apps/runtime-installer/src/progress.rs:248-257 | the window is the tail that is left when all samples but one out of the span are dropped, down to two |
| `Progress.ProgressBook.Snapshot` | apps/runtime-installer/src/progress.rs:291-348 | exact sums without saturation, the share of received bytes in basis points and the speed over the window rounded down, speed zero before any time has passed, least ETA |
| `Progress.Eta` | apps/runtime-installer/src/progress.rs:341-346 | the least number of seconds that covers the remainder |
| `Progress.BasisPoints` | apps/runtime-installer/src/progress.rs:302-307 | the share rounded down, full exactly when received equals total |
| `Progress.Operate` | apps/runtime-installer/src/progress.rs:168-259 | over any operations the total is the sum of required sizes and items stay within their sizes |
| `Download.ParseRangeResponse` | apps/runtime-installer/src/download.rs:613-635 | parsing undoes the notation of section 14.4 of RFC 9110 |
| `Download.ParseU64Iff` | apps/runtime-installer/src/download.rs:613-635 | a number is read exactly from its decimal notation, perhaps with leading zeros or one plus sign, up to 64 bits |
| `Download.ValidRangeContinues` | apps/runtime-installer/src/download.rs:613-644 | exactly the range that continues the part file to its end is accepted |
| `Download.RangeAcceptedIff` | apps/runtime-installer/src/download.rs:613-644 | whatever string the server sends, it is accepted exactly if it names the rest of the artifact behind the part file |
| `Download.Cache.PromoteVerified` | apps/runtime-installer/src/download.rs:229-233 | the part file becomes the complete file, or stays |
| `Download.AcceptResponse` | apps/runtime-installer/src/download.rs:373-407 | which status, range and length are accepted, and where the body goes |
| `Download.CopyBody` | apps/runtime-installer/src/download.rs:409-450 | the part file stays a prefix, progress never exceeds it, done means the exact length and every byte of the body counted |
| `Download.DownloadOnce` | apps/runtime-installer/src/download.rs:346-450 | one request, whatever the server answers; done means everything is counted, except what was uncounted before if the server resumes |
| `Download.SettlePart` | apps/runtime-installer/src/download.rs:142-163 | a part file is promoted exactly if it has size and digest, and removed if it does not; an unreadable one is left alone |
| `Download.Retry` | apps/runtime-installer/src/download.rs:127-180 | no attempt once cancelled; otherwise all allowed attempts are used before giving up, unless the user cancels or the disk refuses; a healthy server finishes in one |
| `Download.DownloadArtifact` | apps/runtime-installer/src/download.rs:83-180 | success leaves a complete file of exact size and digest, fully counted when no retry was needed, and says whether the cache was reused; a good complete file is never lost, and a complete or fully downloaded cache is used without a request; otherwise a prefix with no more progress than bytes |
| `RootSelection.CoversChain` | crates/dedupe-core/src/path_normalization.rs:70-75 | the keys that cover one key form a chain |
| `RootSelection.CoversWhatIsInsideIff` | crates/dedupe-core/src/path_normalization.rs:70-75 | the covering test is containment exactly for keys that do not end in a separator |
| `RootSelection.SharesPathIff` | crates/dedupe-core/src/path_normalization.rs:70-75 | two keys of which neither covers the other contain a common path exactly if one ends in a separator and the other continues it |
| `RootSelection.SortIsSorted` | crates/dedupe-core/src/project_manager.rs:40 | the sorted selection is a permutation, shorter keys first |
| `RootSelection.SortIsInOrder` | crates/dedupe-core/src/project_manager.rs:40 | shorter keys first, equally long ones by their first different character, and equal ones in the order of selection |
| `RootSelection.AcceptedIffMinimal` | crates/dedupe-core/src/project_manager.rs:41-68 | the accepted keys are exactly the minimal eligible keys |
| `RootSelection.UniqueCover` | crates/dedupe-core/src/project_manager.rs:51-63 | every eligible root has exactly one cover |
| `RootSelection.OrderDoesNotMatter` | crates/dedupe-core/src/project_manager.rs:30-71 | two validations of the same eligible keys, in any order and repetition, accept the same keys |
| `RootSelection.EnumeratesTwiceIff` | crates/dedupe-core/src/project_manager.rs:26-71 | the accepted roots enumerate a path twice exactly if a minimal selected key ends in a separator and another selected key continues it |
| `RootSelection.DriveAndFolder` | crates/dedupe-core/src/path_normalization.rs:70-75 | a drive and a folder on it are both accepted and the folder is enumerated twice |
| `RootSelection.Classify` | crates/dedupe-core/src/project_manager.rs:44-68 | each status is explained by an accepted root |
| `RootSelection.ValidateRoots` | crates/dedupe-core/src/project_manager.rs:30-71 | in the order of their keys, valid roots are an antichain that covers every eligible root, every other status names the reason, and no path is enumerated twice exactly if no key of the selection overreaches |
| `KeepPolicy.NotWorseIsOrder` | crates/dedupe-core/src/keep_policy.rs:31-72 | every policy is a total order on members with distinct paths |
| `KeepPolicy.SelectBy` | crates/dedupe-core/src/keep_policy.rs:81-91 | the first of the best members |
| `KeepPolicy.BestIsKept` | crates/dedupe-core/src/keep_policy.rs:17-66 | the member kept is the oldest, the newest, the one with the shortest path, the one that was named, or the oldest in a primary folder, and ties go to the shorter and then the first path |
| `KeepPolicy.DuplicateGroup.ApplyPolicy` | crates/dedupe-core/src/keep_policy.rs:11-79 | exactly one member is kept, the one its policy promises, and all others are quarantined; refused only for an empty group or an absent manual choice |
| `KeepPolicy.KeeperIsOrderIndependent` | crates/dedupe-core/src/keep_policy.rs:11-98 | the kept path is the same for every order of the members |
| `KeepPolicy.BuildDryRun` | crates/dedupe-core/src/dry_run.rs:58-80 | refuses a group without a member to keep, otherwise the capped sum of quarantined sizes |
| `KeepPolicy.PreviewIsSumOfMaxima` | crates/dedupe-core/src/model.rs:176-179 | the preview is the saturating sum of the groups' maximum reclaimable bytes |

## Left out

- Win32, `renameat2` and WinHTTP calls: only their contracts are modelled, namely a rename that refuses to replace, a delete bound to a snapshot, and a body bounded by its length.
- VerifiedMove.Machine.MoveNoReplace: follows the portable mover, which demands a single link; the Windows mover compares identity, size and token only.
- MoveCommands.Reconcile: a path that exists but cannot be inspected counts as absent in the code; the model's files are always inspectable.
- QuarantinePlan.ApplyQuarantinePlan: takes a plan as sealing leaves it, namely items that are quarantine members of its groups, no path listed twice, and no item where another is going to be put.
- Torn manifest lines: an append is one event, written whole or not at all.
- Panics of worker callbacks, which the pool turns into an error.
- Writes to the file system by other programs while a command runs.
- Event text, audit rows, timestamps, telemetry counters and messages.
- Lossy conversion of paths that are not valid Unicode when they are stored.
- Ownership of a file by one of several nested roots in the path index: the order of the roots is taken as given.
- DuplicateProof.GroupStable: does not model the lists of failed and unstable files, which only feed the error report.
- `replace_session_groups` and `load_session_groups`, which store and reload finished groups, and `create_and_seal`, which copies them into a plan: plumbing around the properties above.
- `deletion_entries` and the other table queries: guards that would only add easy members.
- Scheduler, ScanControl, DeleteProtocol and Journal as classes: their properties are about interleavings, so their updates are functions inside a step relation; `VerifiedMove` and `DeleteExecution` give the imperative form of the journal code.
- ControlToken liveness: a notification without the lock can be missed by a paused waiter; only safety is claimed.
- Return of a quarantine row from `restoring` after a reconciled restore: no code moves it back, so nothing is claimed.
- Concurrent restore and permanent delete of one entry with records loaded beforehand.
- Scan sessions resumed while their earlier worker still runs in another process.
- SQLite faults beyond a failing transaction, migrations, backup, compaction, history, reports and the user interfaces.
- Unicode normalization, glob filters and hash internals: unknown functions.
