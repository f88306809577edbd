# service-backup: a verified model

service-backup runs a source command on a schedule, uploads the resulting folder to every configured
destination (S3, Azure, GCS, SCP) and then runs a cleanup command. Child processes go through a process
manager that must be able to shut everything down on SIGTERM. This project models that behaviour in Dafny and
proves what it promises. `dafny verify dfyconfig.toml` checks all of it.

## What is modelled

**The process manager** (`ProcessManager`, `ProcessTraces`, `ProcessSafety`, `ProcessProgress`). Any number of
`Start` calls run against one `Terminate`. They share the mutex, the close-once channel `killAll` and the wait
group; every launched child has a reaper goroutine and a one-place exit channel. One step of the transition system
is one shared-memory action of one goroutine (each program counter names the line it stands at), or a write or exit
of a child. An inductive invariant is proved for every step, and from it the safety theorems over all executions, a
measure that bounds shutdown, a lock-free path to `Terminate`'s return from every waiting state, the return of
every `Start` whose child has exited, and an exact account of who can still get the lock. What a call's record says
is tied to the steps its child took (`ProcessTraces`), so results are statements about exits and writes. The
account of the lock follows the code as written: the early return of process/manager.go:39-41 leaves the lock taken
on line 38 locked, so a `Start` that returns "Shutdown in progress" is the last call that ever holds it.

**Backup runs** (`MultiUploader`, `Executor`, `BackupRuns`, `BackupSafety`, `BackupTraces`, `BackupTheorems`,
`AdmissionFlag`, `BackupShutdown`). Firings of the scheduler's job run concurrently over one manager: identify, ask
for admission, source command, one upload per destination, cleanup command, give the admission back, report.
Source, cleanup and SCP copies are `Start` calls of the manager's transition system, whose own steps, `Terminate`
included, interleave with those of the runs. Each manager call is recorded with the run and purpose it was made
for, so the theorems speak about the children that were launched and not about a run's own bookkeeping;
`BackupTraces` ties a run's record to what the service and the destinations answered and to what the children did.
`Executor` is the same sequence as one goroutine executes it.

**Chunked blob upload** (`Decimal`, `Base64`, `BlockIds`, `BlockBlob`). `uploadFile` is an imperative method over a
file with arbitrary short reads, one reused buffer, and a blob with committed content and uncommitted blocks. Every
request may fail, and a failed request may or may not have taken effect on the service.

**Trees, paths and keys** (`Strings`, `Paths`, `PathMeaning`, `KeyMapping`, `RemotePath`, `S3Paths`, `Walk`). Go's
`Split`, `Join`, `Replace`, `Clean`, `filepath.Join` and `Rel` are defined on strings and component lists and
measured against what paths mean: the directory one reaches by following them; the directory walk is an imperative
traversal of a tree whose directories may refuse to be listed, into a store where a later put overwrites an earlier
one.

`Totals` holds sums over sequences, `Options` the option type.

## Where a tempting property is false

- A `Start` that waits for the lock need not get it: `StuckExactlyWhenLeaking` gives the exact condition, and
  `LeakReached` a run that meets it.
- The in-progress flag need not tell whether a run is active: for every configuration with a destination it does so
  in every history if and only if `exit_if_in_progress` is set (`FlagExactIffOption`); without it,
  `FlagMissesOverlap` builds a history with the flag down while a run is active.
- The replace-all key of S3 and Azure is not always the relative path: `KeyMappingExact` gives the exact condition
  for a source folder however it is written, `CollideExactly` says when two files get one key and `KeyCollision`
  names two that do, `RootFileKey` the case of a source folder that is a file.
- S3 and Azure keys of different days, or of different deployments under one base path, can coincide: they do not
  if and only if what replace-all leaves of each file's path does not climb (`DaysSeparateExactly`,
  `DeploymentsSeparateExactly`); `DaysCollide` is a file that has one key for all days of a month.
- The bucket that is checked need not be the one written to: `BucketStable` and `S3BucketExact` give the exact
  condition, `BucketMoves` a configured path and `FileNamesMoveBucket` file names that break it.
- Date folders need not sort by date: two of them do if and only if their years have the same number of digits or
  the shorter is at most the leading digits of the longer (`DateOrder`); `YearTenThousandSortsFirst` is a pair that
  does not.
- Block IDs keep one length beyond the seven digits of their format, up to 10^9 blocks: `BlockIdLength`.

## Model

| member | source | states |
|---|---|---|
| ProcessManager.InvStep | process/manager.go:37-78 | every step of every call, child, reaper and of `Terminate` keeps the invariant: who owns the lock, what is in each exit channel, when nothing may be on its way to a launch, and that the count is the number of added and not yet done children |
| ProcessManager.InvExecution | process/manager.go:31-78 | the invariant holds in every state of every interleaving from `NewManager` |
| ProcessSafety.ShutdownSafety | process/manager.go:73-78 | once `Terminate` has returned, every child present at any later time was launched and reaped by then: none survives and none is launched afterwards |
| ProcessSafety.WaitGroupAccounting | process/manager.go:50-61 | the count is never negative and equals the number of launched children whose reaper is unfinished, less one exactly inside the locked window between launch and `Add`; `Add` never happens while `Wait` is in progress |
| ProcessSafety.ExitChannelOnce | process/manager.go:43-71 | a reaper's send never blocks, each exit channel carries at most one value, and exactly one, already taken, when a launched child's `Start` returns |
| ProcessTraces.RecordsTell | process/manager.go:37-71 | in every execution the record of a call is exactly what its steps were: the child's one exit, every byte it wrote, its launch or the launch's error, the signal |
| ProcessSafety.StartResult | process/manager.go:37-71 | in terms of the steps up to any later time: output is returned only after the child's one exit and is all it ever wrote; the error of a completed call is that exit's own; the SIGTERM error means one signal after `killAll` was closed; the other errors mean no launch, and the launch error is its own |
| ProcessSafety.StartResultWithoutTerminate | process/manager.go:50-71 | before `killAll` is closed the result is exactly the launch error, or the child's one exit with all its output and no signal sent |
| ProcessSafety.LockDiscipline | process/manager.go:38-78 | in every state the lock is `Terminate`'s if and only if `Terminate` is between lines 74 and 77; otherwise it is free, or held by exactly one `Start` between lines 38 and 52/56 or returned on the shutdown path |
| ProcessSafety.LeakForever | process/manager.go:38-41 | once a `Start` owns the lock after `killAll` was closed it owns it for ever, and every call that waits for the lock or arrives later waits for ever |
| ProcessSafety.AtMostOneShutdownReturn | process/manager.go:38-41 | in any execution at most one `Start` returns "Shutdown in progress" |
| ProcessProgress.ShutdownStep | process/manager.go:55-78 | while `Terminate` waits no step touches the lock, every step other than an arrival or a child's write lowers the work left, and those leave it alone |
| ProcessProgress.ShutdownBounded | process/manager.go:55-78 | however steps interleave, `Terminate` waits through at most as many working steps as the initial measure |
| ProcessProgress.ShutdownEnabled | process/manager.go:58-71 | while `Terminate` waits for unreaped children one of them can move without the lock, its child exiting only after it was signalled |
| ProcessProgress.ShutdownCompletes | process/manager.go:55-78 | from every waiting state the program's own steps and the exits of signalled children lead to `Terminate`'s return with the lock free, within the measure, no call taking the lock |
| ProcessProgress.StartReturns | process/manager.go:55-71 | from every state, with or without `Terminate`: once a launched child has exited, its `Start` returns by its own and its reaper's steps alone, in exactly as many as the measure says, with all the output and, unless it already took the kill case, the child's own exit |
| ProcessProgress.ExitReturned | process/manager.go:38-71 | before shutdown, a `Start` that finds the lock free can return any output with any exit of its child |
| ProcessProgress.LaunchErrorReturned | process/manager.go:50-54 | and any launch error, giving the lock back |
| ProcessProgress.KillReturned | process/manager.go:63-67 | after `killAll` was closed, every `Start` that has not chosen yet can take the kill case and return the SIGTERM error with all the output, however its child exits |
| ProcessProgress.StuckExactlyWhenLeaking | process/manager.go:38-56 | a waiting `Start` can still get the lock in some continuation if and only if it is not the case that `killAll` is closed and a `Start` owns the lock |
| ProcessProgress.LeakReached | process/manager.go:38-41 | an execution in which a second `Start` waits for ever because the first returned without unlocking |
| MultiUploader.FormattedErrorText | upload/multi_uploader.go:50-54 | one error gives its own message, and each further one adds "; " and its message |
| MultiUploader.FormatErrors | upload/multi_uploader.go:45-55 | nil for no errors, otherwise that text |
| MultiUploader.Upload | upload/multi_uploader.go:21-34 | every destination is called exactly once, in order, whatever earlier ones returned; nil if and only if all returned nil; otherwise the text of `FormattedErrorText` over the failures, each failure's message being part of it |
| MultiUploader.FailuresInOrder | upload/multi_uploader.go:28-31 | every failed outcome is listed, behind exactly the failures before it |
| MultiUploader.FailuresOnly | upload/multi_uploader.go:28-31 | every listed error is some destination's, at its position |
| MultiUploader.NilIffAllNil | upload/multi_uploader.go:45-48 | the joined error is nil if and only if every outcome is |
| Executor.Executor.BackupCanBeStarted | executor/executor.go:85-94 | admitted unless the flag and the option are both set; the flag is set afterwards, and a rejected call leaves it as it was |
| Executor.Executor.DoneBackup | executor/executor.go:96-100 | the flag is cleared |
| Executor.Executor.Execute | executor/executor.go:102-144 | a rejected call runs nothing and leaves the flag; an admitted one clears it on every path, tries the uploads only if the source command did not fail, runs the cleanup if and only if it is configured and neither source nor any upload failed, and reports exactly the source's or the joined upload errors with the identifier |
| BackupSafety.RunStepInv | executor/executor.go:102-144 | every step of a run keeps the invariant of all runs, of the ownership of manager calls, of admission and of alerts |
| BackupSafety.ManagerStepInv | process/manager.go:37-78 | every step of the manager keeps it too |
| BackupSafety.HistoryInv | executor/executor.go:102-144 | it holds throughout every history of concurrent runs with `Terminate` anywhere |
| BackupTraces.CallResult | executor/executor.go:176-180 | the result of every `Start` call a run made means, as in `StartResult`, what its child did in the history |
| BackupTraces.RunsTell | executor/executor.go:102-144 | in every history a run carries the identifier the service gave, and its uploads are, destination by destination, what the destinations answered |
| BackupTheorems.CleanupSafety | executor/executor.go:122-139 | if a cleanup child was ever asked for on behalf of a run, then in that run every destination's upload returned nil, the source command is absent or its child took exactly one exit, a successful one, as did the child of every SCP copy, and it is that run's only cleanup |
| BackupTheorems.AdmissionExclusion | executor/executor.go:85-100 | with the option set, at most one run is between admission and `doneBackup`, and the flag is set if and only if one is |
| BackupTheorems.OneChildAtATime | executor/executor.go:113-139 | with the option set, at most one child is alive or unreaped in the whole program, over all runs and purposes |
| BackupTheorems.RejectedNeverClears | executor/executor.go:113-122 | the flag goes down only when an admitted, active run gives it back, never by a rejected one |
| BackupTheorems.NobodyRejected | executor/executor.go:85-94 | with the option unset no run is rejected: every failure is the source command's error or the joined upload errors; and the flag set means some run is active |
| AdmissionFlag.FlagMissesOverlap | executor/executor.go:96-100 | for every configuration with a destination and without the option, a history in which the flag is down while a run is active |
| AdmissionFlag.FlagExactIffOption | executor/executor.go:85-100 | for every configuration with a destination: in every history the flag is set exactly when a run is active, if and only if the option is set |
| AdmissionFlag.ExclusionIffOption | executor/executor.go:85-100 | in every history at most one run is active, if and only if the option is set |
| BackupShutdown.HistoryShutdownBounded | process/manager.go:73-78 | in every history of runs that keep firing and starting calls, `Terminate` keeps the lock and waits through at most as many working steps as there was work left |
| BackupShutdown.HistoryShutdownCompletes | process/manager.go:73-78 | at every point of every history at which `Terminate` waits, the manager's own steps and exits of signalled children complete it within the work left, the runs standing still |
| BackupTheorems.FailureExplained | executor/executor.go:102-144 | a failed run's error carries the identifier the service gave for it and is the rejection text, the source command's error with what that command's child did, or the joined upload errors; such a run never asks for cleanup |
| BackupTheorems.RunMoves | executor/executor.go:102-144 | a run can move if and only if it has not reported and waits for no `Start` call still under way |
| BackupTheorems.ScpUpload | scp/scp.go:102-117 | one copy per listed entry, in the order listed; nil means that all were copied and each child took one exit, a successful one; a failure is that of the last copy, reported with its error and output, every earlier entry copied and none after it tried |
| BackupTheorems.AlertsMatchFailures | scheduler/scheduler.go:31-46 | over any firings the alerts are as many as the reported failed runs when a client is configured, else none; each carries its run's identifier and error, and no run has two |
| BackupTheorems.NoChildAfterTerminate | main.go:76-82 | once `Terminate` has returned no run launches a child for any purpose, and every child any run had was reaped |
| Decimal.PaddedValue | azure/azure.go:76 | a zero-padded number reads back as itself, for every number and width |
| Decimal.PrintLength | azure/azure.go:76 | w digits are enough if and only if the number is below 10^w |
| Decimal.LessIsNumeric | upload/remote_path.go:17 | among digit strings of one length string order is numeric order |
| Decimal.PrintPrefix | upload/remote_path.go:17 | the leading digits of a printed number are the printed leading number |
| Base64.RoundTrip | azure/azure.go:76 | decoding undoes the standard encoding (section 4 of RFC 4648) for every byte sequence |
| Base64.EncodeInjective | azure/azure.go:76 | different byte sequences have different encodings |
| Base64.EncodesNumbers | azure/azure.go:76 | every four characters stand for the same 24-bit number as the three bytes they encode |
| Base64.EncodedLength | azure/azure.go:76 | four characters per started group of three bytes |
| BlockIds.BlockIdReads | azure/azure.go:76 | an ID decodes to "BlockID{", the counter in at least seven digits, and "}" |
| BlockIds.BlockIdsDistinct | azure/azure.go:66-84 | block IDs of different counters differ, for all counters |
| BlockIds.BlockIdLength | azure/azure.go:76 | names have 16 characters if and only if the counter is below 10^7, IDs have 24 if and only if it is below 10^9 |
| BlockBlob.File.Read | azure/azure.go:67-75 | a read gives 1 up to buffer-length bytes of the file in order, end of file only at the end, or an error |
| BlockBlob.Blob.CreateBlockBlob | azure/azure.go:60-63 | success leaves the blob empty; failure leaves it as it was or empty |
| BlockBlob.Blob.PutBlock | azure/azure.go:77-80 | success stores exactly this block, over one with the same ID, and touches no committed content |
| BlockBlob.Blob.PutBlockList | azure/azure.go:86-89 | success commits the concatenation of the listed blocks; otherwise the content is unchanged or that concatenation |
| BlockBlob.AssembleNext | azure/azure.go:75-84 | putting the next block extends what the list names by exactly its chunk, whatever other blocks are there |
| BlockBlob.PutNextChunk | azure/azure.go:67-80 | one turn keeps that the first blocks hold the bytes read so far |
| BlockBlob.PutChunks | azure/azure.go:64-85 | the loop ends; its error says whether a read or a put failed, and it has none if and only if none did, and then the listed blocks assemble to the whole file |
| BlockBlob.UploadFile | azure/azure.go:52-92 | for every content, all read sizes and all leftover blocks: nil if and only if the file was opened and no request failed, each error if and only if it was that request that failed, and nothing is tried after a failure; nil means the committed blob is the file byte for byte; on any error readers see the old content, nothing, or the whole file, never a non-empty proper prefix |
| Strings.SplitJoin | s3/s3.go:205-207 | splitting at slashes undoes joining |
| Strings.JoinSplit | s3/s3.go:205-207 | joining undoes splitting |
| Strings.JoinOccurs | upload/multi_uploader.go:54 | every string joined occurs in the result |
| Strings.RemovedPieces | s3/s3.go:235 | replace-all with nothing cuts the string at the occurrences found from left to right and puts the pieces together |
| Strings.RemoveLength | s3/s3.go:235 | replace-all with nothing changes a string if and only if the pattern does not occur, and otherwise shortens it by at least the pattern |
| PathMeaning.CleanMeans | s3/s3.go:236 | a cleaned path names the same directory as the path, from every working directory |
| PathMeaning.CleanExactly | s3/s3.go:236 | two paths clean to the same path if and only if they name the same directory from every working directory |
| PathMeaning.CleanForm | s3/s3.go:236 | a cleaned path is not empty, has no double slashes, ends in a slash only if it is the root, and has no "." unless that is all |
| PathMeaning.JoinMeans | s3/s3.go:236 | joining means following the second path from where the first leads |
| PathMeaning.RelMeans | gcs/gcs.go:84 | following `Rel` of base and target from the base leads to the target, from every working directory |
| Paths.CleanIdempotent | s3/s3.go:236 | cleaning a cleaned path changes nothing |
| Paths.ReduceContained | s3/s3.go:236 | components that do not climb are cleaned on their own, whatever stands before them |
| Paths.CleanLength | s3/s3.go:236 | cleaning never lengthens a path |
| Paths.LongerThanClean | s3/s3.go:235 | a path without double slashes is clean, clean with a slash at its end, or longer than its cleaned form by two characters |
| Paths.ClimbForgets | s3/s3.go:236 | components that climb out of a folder give the same path whatever the folder's name |
| KeyMapping.RelOfWalkPath | gcs/gcs.go:84-88 | the relative path of a walked file is its names below the directory, for every directory path |
| KeyMapping.KeyMappingExact | s3/s3.go:235-236 | for a folder however it is written, the replace-all key equals the `Rel`-based key of the cleaned remote path if and only if the folder's text occurs in the file's path once, right in front of the names, or does not occur and leads from the remote path back to it |
| KeyMapping.MirrorsCleanFolder | s3/s3.go:235-236 | for a clean folder that condition is that its path does not occur again behind its place in front |
| KeyMapping.MirrorsTrailingSlash | s3/s3.go:235-236 | for a folder written with a slash at its end it is that this text does not occur in the names |
| KeyMapping.KeysInjective | azure/azure.go:117-118 | no two files that meet the condition share a key |
| KeyMapping.KeyCollision | s3/s3.go:235-236 | backing up `/a`, the files `/a/x/a/b` and `/a/x/b` get one key |
| KeyMapping.CollideExactly | azure/azure.go:117-118 | two files whose paths do not climb get one key if and only if the same names are left of both |
| KeyMapping.RootFileKey | gcs/gcs.go:84-88 | a source folder that is a file is stored under the remote path by replace-all and under that path plus "/." by `Rel` |
| KeyMapping.RemainderStays | azure/azure.go:117 | when the folder occurs in a file's path only in front, what replace-all leaves has no ".." and does not climb |
| KeyMapping.RemainderOfCleanFolder | azure/azure.go:117 | the same for a clean folder whose path does not occur again |
| KeyMapping.BucketAtBottom | s3/s3.go:236 | the bucket name stays at the bottom of the cleaned path if nothing climbs over it, and otherwise takes the place of the first climb |
| KeyMapping.BucketStable | s3/s3.go:99-137 | the bucket checked and created is the one written to if and only if the rest of the path does not climb, or comes back down into that name; bucket and key rebuild the path if and only if something is left below the bucket |
| KeyMapping.BucketMoves | s3/s3.go:204-207 | a climbing path puts the file into another bucket than the one checked |
| RemotePath.DateRoundTrip | upload/remote_path.go:16-17 | the date can be read back from its folder |
| RemotePath.DateFormat | upload/remote_path.go:17 | the folder is the year without leading zeros and month and day in two digits each |
| RemotePath.RemoteSplit | upload/remote_path.go:19-28 | for all inputs the remote path is the base path, the deployment name and the date, in this order, and what is empty leaves no trace |
| RemotePath.RemotePathsDistinct | upload/remote_path.go:14-30 | under one base path, different deployments or dates never share a remote path, whatever the names |
| RemotePath.DaysSeparateNames | gcs/gcs.go:88 | GCS names of two dates never coincide, whatever the file names |
| RemotePath.DeploymentsSeparateNames | gcs/gcs.go:88 | nor do those of two deployments under one base path, if these are file names |
| RemotePath.NamesSeparateFiles | gcs/gcs.go:84-88 | a GCS name tells both the date and the file, so no two files of an upload share one even when the date changes between them |
| RemotePath.DaysSeparateKeys | upload/remote_path.go:14-30 | S3 and Azure paths of two dates never coincide, for any relative paths that do not climb |
| RemotePath.DaysSeparateExactly | s3/s3.go:235-236 | for all folders and files: keys of different days never coincide if and only if what replace-all leaves of each file's path does not climb |
| RemotePath.DeploymentsSeparateExactly | azure/azure.go:117-118 | the same condition is exact for keys of different deployments or days under one base path |
| RemotePath.ClimbingKey | azure/azure.go:117-118 | a relative path that climbs has one key for all days of a month |
| RemotePath.DaysSeparateFiles | azure/azure.go:117-118 | so days are kept apart for all files in whose paths the folder occurs only in front |
| RemotePath.DaysCollide | s3/s3.go:235-236 | backing up `/a`, the file `/a/a../f` has one key for all days of a month |
| RemotePath.RemotePathUsable | upload/remote_path.go:14-30 | the remote path never cleans to the root or ".", whatever base path and deployment name |
| RemotePath.DateOrder | upload/remote_path.go:17 | string order of two date folders is date order if and only if the years have the same number of digits or the shorter is at most the leading digits of the longer |
| RemotePath.YearTenThousandSortsFirst | upload/remote_path.go:17 | the folder of year 10000 sorts before that of year 9999 |
| S3Paths.S3Split | upload/factory.go:24-41 | an S3 remote path is the bucket, the bucket path, the deployment name if there is one, and the date |
| S3Paths.S3BucketExact | upload/factory.go:24-41 | for every S3 destination and walked file, the bucket checked is the one written to if and only if the path behind it, with what replace-all leaves of the file's path, does not climb out of it or comes back |
| S3Paths.S3BucketStable | upload/factory.go:24-41 | in particular without ".." in the configuration and with the folder only in front of the file's path; bucket and key then rebuild the path |
| S3Paths.FileNamesMoveBucket | s3/s3.go:235-236 | for every S3 destination without ".." there are file names whose file goes into another bucket than the one checked |
| Walk.FilesExact | s3/s3.go:230-239 | the walk lists a file with its content if and only if following its path down the tree, through directories that can be listed, leads to that content |
| Walk.FilesInWalkOrder | gcs/gcs.go:64-76 | files come in the order of their paths, component by component |
| Walk.FilesDistinct | s3/s3.go:230-239 | the walk of a well-formed tree lists no file twice |
| Walk.NothingSkipped | s3/s3.go:230-233 | on a tree that can be listed throughout, passing over unlistable directories skips nothing |
| Walk.WalkTree | gcs/gcs.go:64-78 | nil means every file was handed over and stored exactly once, in order: for GCS in the whole tree, which then could be listed; for S3 and Azure below listable directories; a refused file is the last one handed over |
| Walk.WalkEntries | s3/s3.go:230-239 | the same for one listing |
| Walk.Store.Put | s3/s3.go:204-227 | one file is handed over, and stored under its key if accepted |
| Walk.SizeOfFiles | executor/dir_size.go:18-23 | the sizes of the files listed add up to the bytes in all files of the tree |
| Walk.AddSizes | executor/dir_size.go:18-23 | fails if and only if a directory cannot be listed; otherwise adds the bytes in all files of the tree modulo 2^64 |
| Walk.CalculateDirSize | executor/dir_size.go:14-26 | an error without the folder; on a listable tree below 2^63 bytes exactly the bytes in all its files, which are those the uploads hand over |
| Walk.TreeMirrored | s3/s3.go:229-245 | when the walk has stored its files, every file's content is at its place under the remote path |
| Walk.NothingElseChanged | s3/s3.go:229-245 | no object at any other place has changed |
| Walk.UploadDir | s3/s3.go:229-245 | the upload of a tree as a whole, or of a folder that is a file: nil means every file the tree holds on listable paths, in a listable tree every file, was handed over once and its content is at its place, and no other object has changed |
| Walk.MappingsAgree | azure/azure.go:112-121 | replace-all and `Rel` make the same writes if and only if the source folder is a directory and every file in it meets the condition of `KeyMappingExact` |

## Left out

- process/manager.go is modelled as a transition system over values, not as a class, because its methods interleave; a second `Terminate`, which would close the channel twice, is not modelled.
- Executor.Executor.Execute: what other goroutines do to the flag meanwhile is not seen there; with concurrent runs and manager steps `Execute` and the loop of scp/scp.go are steps of `BackupRuns`, the two critical sections of the mutex single ones.
- BackupTheorems.ScpUpload: the message of a copy error is modelled without the quoting of `%q`.
- BlockBlob.UploadFile: the file does not change while it is read, and no other client writes the same blob meanwhile.
- Walk.Store.Put: handing bytes to the store is the upload; the result of closing the GCS writer, which the code ignores, is not modelled.
- Walk.WalkTree: `lstat` does not fail during the walk (the callbacks would dereference a nil file info), symbolic links count as files, and the tree does not change.
- Walk.UploadDir: an upload stays within one day; GCS asks for the date at every file, for which see `NamesSeparateFiles`.
- RemotePath.DateRoundTrip: years are natural numbers.
- `filepath.Rel` for a target that cleans to "." is not modelled; no walk produces one below its root.
- AWS, Azure, GCS and SSH client calls, credentials, endpoints, temporary key and known-hosts files, and the direct `ssh` and `ssh-keyscan` commands: only their results matter here.
- YAML parsing, certificate lookup, options, destination dispatch and `ensureBucketExists`: plain plumbing around the behaviour modelled here.
- Cron parsing and firing times, signals and process exit: firings and `Terminate` are steps of the environment.
- Logging, durations and run identifiers in the log.
- The dummy executor, which always returns nil.
