# Compress-and-upload core of BaiduPCS-Go, modelled in Dafny

BaiduPCS-Go can compress local directories into ZIP archives before uploading
them to Baidu netdisk, or only compress them into a local output directory.
This project models that feature and proves properties of the model:

- `Compress` (compress.dfy) models one `CompressTask`. It stats the source
  directory, counts the files the walk will pack (hidden entries are skipped
  unless asked for), checks free disk space, creates the archive and writes one
  entry per walked path. It reports progress after every copied file. The
  module also holds the archive-name helpers and `GetSubDirectories`.
  `CompressProps` (compress_props.dfy) proves what a run produces:
  - which errors occur, and in which order they are checked;
  - which files are counted and packed;
  - the archive's entry names;
  - the progress sequence;
  - the depth-limited directory listing.
  `CompressReports` (compress_reports.dfy) proves which file each progress
  report names.
- `Queue` (queue.dfy) models `CompressQueue`. Items are added one by one or
  for each subdirectory of a parent. `Execute` runs the items in order. Between
  items it obeys `Stop`, `Pause` and `Resume` calls made by other goroutines.
  Afterwards the results can be queried, the failed archives removed and the
  outcome summarised.
- `TaskUnit` (task_unit.dfy) models `CompressUploadTaskUnit`, the executor
  task that compresses one directory into a fresh `CompressTask` and then
  uploads the archive. It also optionally deletes the archive, adds the sizes to
  a shared statistic and cleans up after a failure.
- `Statistic` (statistic.dfy) models `CompressStatistic`, the shared counters
  of a compress-and-upload run.
- `Driver` (driver.dfy) models the two commands `RunCompressUpload` and
  `RunCompressOnly`:
  - option defaulting;
  - choosing the directories to compress by depth;
  - naming the archive and its remote save path;
  - the parallelism limit;
  - filling and running the queue.
- `Paths` (paths.dfy) and `FileSystem` (filesystem.dfy) are the vocabulary the
  core depends on:
  - Go's `path.Clean`, `path.Base`, `filepath.Join`, and the backslash
    replacement used for entry names;
  - a directory tree with per-directory listing errors;
  - the exact visit order and pruning of `filepath.Walk`;
  - the host queries `Stat`, `Abs`, free space, create and the clock;
  - the local disk as a map from path to archive.

The source's state-changing objects are classes with `modifies` clauses:
`CompressTask`, `CompressQueue`, `CompressUploadTaskUnit`,
`CompressStatistic`, `CompressUploadOptions` and the local disk. Each method is
proved against a pure specification function. For example,
`CompressTask.Execute` against `Compress.Run` and `CompressQueue.Execute`
against `Queue.Plan`, `Queue.Outcomes` and `Queue.Archives`. The lemmas in
`CompressProps` and `Queue` then state what those functions mean.

Concurrency is modelled as a sequence of signals. Each read of the queue status
consumes one signal: a `Stop`, `Pause` or `Resume` call made meanwhile, or none.
`Queue.Schedule` says how many items run and how the loop ends: finished,
stopped at a boundary, stopped while paused, or still paused when the signals
run out.

Modelled behaviour worth knowing:
- Totals accumulate when the same task is executed twice
  (compress.go:175-179 does not reset them). See `CompressProps.RerunAccumulates`.
- A file that cannot be opened for permission reasons is skipped, but its
  header has already been written, so the archive keeps an empty entry for it
  (compress.go:239-258).
- The hidden-directory rule applies to the root too, using the base name of
  the source path, so a hidden root with hidden entries excluded is reported as
  an empty directory. See `CompressProps.HiddenRootIsEmpty`.
- A `Stop` seen by the pause loop's own condition check (rather than inside the
  loop) lets the current item run, and the next boundary breaks.
  `OnQueueComplete` fires after a break but not after the return from inside
  the pause loop (queue.go:125-134, 163-165).
- `OnFailed` removes the archive only when the run result carries an error
  (compress_upload_task_unit.go:141-154).
- `GetSubDirectories` with depth 1 lists the direct subdirectories. With any
  other non-zero depth it walks the tree, and a negative depth is unlimited.
  With depth 0 it returns the parent itself.
- A source whose base name is "/" gives the archive name "/.zip"
  (compress.go:297-303).
- `GetCompletedZipPaths` returns paths in item order.

## Model

| member | source | states |
|---|---|---|
| Compress.CompressTask.constructor | internal/pcsfunctions/pcscompress/compress.go:56-69 | a new task keeps both paths, uses the given options or the defaults when none are given, and starts with zero counters and no progress reports |
| Compress.CompressTask.UpdateProgress | internal/pcsfunctions/pcscompress/compress.go:95-103 | the processed and compressed counters take the new values, and exactly one progress report (processed, compressed, total files, current file) is appended |
| Compress.CompressTask.CountFiles | internal/pcsfunctions/pcscompress/compress.go:105-126 | counting adds, to the previous totals, what the hidden-aware scan of the walk yields, and returns the first walk error; see CompressProps.ScanWalk for what that scan counts |
| Compress.CompressTask.CheckDiskSpace | internal/pcsfunctions/pcscompress/compress.go:128-144 | an error occurs exactly when free space is known and the total size exceeds available blocks times block size; that error is DiskSpaceInsufficient; an unknown free space passes |
| Compress.CompressTask.WriteEntry | internal/pcsfunctions/pcscompress/compress.go:211-272 | one walk callback (hidden skip, entry name, directory header, file copy, progress report) takes the archive state exactly as the pack step specifies and reports every progress update it makes |
| Compress.CompressTask.WriteEntries | internal/pcsfunctions/pcscompress/compress.go:211-272 | the whole walk packs exactly what the pack fold over the walk's visits yields, and every progress update is reported through UpdateProgress |
| Compress.CompressTask.WriteArchive | internal/pcsfunctions/pcscompress/compress.go:192-284 | a walk error yields a CompressFailed result; otherwise a successful result carries the counted totals and the compressed size; either way the archive written so far is left on disk |
| Compress.CompressTask.Execute | internal/pcsfunctions/pcscompress/compress.go:146-285 | the result, the new totals and the progress reports are those of the specification Run from the old totals; the disk gains the archive exactly when Run creates one |
| Compress.GetSubDirectories | internal/pcsfunctions/pcscompress/compress.go:305-365 | the method's loop returns exactly the directory list and error of the specification SubDirectories; see CompressProps.SubDirectoriesByDepth |
| Compress.SimpleZipNameShape | internal/pcsfunctions/pcscompress/compress.go:297-303 | the simple name is a non-empty base name (no '/', or "/" itself) followed by ".zip" |
| Compress.UniqueZipNameShape | internal/pcsfunctions/pcscompress/compress.go:287-295 | the unique name is the simple name's stem, then "_" and the timestamp, then ".zip", so it ends in ".zip" and always differs from the simple name |
| Compress.UniqueNamesCollide | internal/pcsfunctions/pcscompress/compress.go:287-295 | at one timestamp two sources get the same unique name if and only if their absolute paths have the same base name, so same-named directories queued within one second collide |
| Compress.ScanErrorStops | internal/pcsfunctions/pcscompress/compress.go:105-126 | once the scan has an error, later visits change nothing, as when filepath.Walk aborts on the callback's error |
| Compress.PackErrorStops | internal/pcsfunctions/pcscompress/compress.go:211-272 | once packing has an error, later visits change nothing |
| Compress.DirsErrorStops | internal/pcsfunctions/pcscompress/compress.go:334-364 | once listing subdirectories has an error, later visits change nothing |
| CompressProps.ScanWalk | internal/pcsfunctions/pcscompress/compress.go:105-126 | counting over a tree fails iff some directory the walk enters is unlistable; otherwise it adds exactly the number and sizes of the eligible (non-excluded) files |
| CompressProps.PackWalk | internal/pcsfunctions/pcscompress/compress.go:211-272 | packing a tree succeeds iff every entered directory is listable and every eligible file can be opened or is permission-skipped; on success the entries are the eligible paths in walk order under their entry names, and processed and compressed are the number and size of the files read |
| CompressProps.PackJoin | internal/pcsfunctions/pcscompress/compress.go:211-272 | the packing summary of a concatenated walk is the concatenation of the two parts' summaries, and it fails iff either part fails |
| CompressProps.PackUnlistable | internal/pcsfunctions/pcscompress/compress.go:211-215 | visiting an unlistable directory aborts packing, even when it is hidden |
| CompressProps.PackHidden | internal/pcsfunctions/pcscompress/compress.go:216-224 | an excluded hidden entry adds nothing |
| CompressProps.PackDir | internal/pcsfunctions/pcscompress/compress.go:239-252 | a listable directory adds only its header entry and reads nothing |
| CompressProps.PackLeaf | internal/pcsfunctions/pcscompress/compress.go:239-270 | a file adds its entry and its bytes exactly when it can be opened or is permission-skipped; any other open or copy failure aborts |
| CompressProps.PackProgress | internal/pcsfunctions/pcscompress/compress.go:261-269 | packing keeps progress consistent (the k-th report says k files processed out of the counted total, compressed sizes never decrease) and only ever grows entries, reports and counters |
| CompressProps.EligibleNotHidden | internal/pcsfunctions/pcscompress/compress.go:216-224 | without includeHidden, no packed entry is hidden and no path component below the root is hidden, so a hidden directory's contents are skipped too |
| CompressProps.EntryNameShape | internal/pcsfunctions/pcscompress/compress.go:226-237 | an entry's name is the root's base name joined with the relative path by '/', with backslashes replaced |
| CompressProps.RunPacks | internal/pcsfunctions/pcscompress/compress.go:175-284 | when every pre-check passes, the totals are the counted eligible files, the archive exists with what was packed, and the result is success exactly when packing had no error |
| CompressProps.RunStops | internal/pcsfunctions/pcscompress/compress.go:152-200 | when a pre-check fails, no archive is created, no progress is reported, and the result is a failure with an error and zero sizes |
| CompressProps.RunSpec | internal/pcsfunctions/pcscompress/compress.go:146-285 | an archive exists iff the pre-checks pass; success iff additionally every eligible file is copyable; a successful result carries the eligible counts, the read size and an archive of exactly the eligible entry names |
| CompressProps.RunStatFailure | internal/pcsfunctions/pcscompress/compress.go:152-167 | a stat permission error gives PermissionDenied, a missing path gives SourceNotExist, another stat error is passed on, and a file source gives SourceNotDirectory |
| CompressProps.RunFirstFailure | internal/pcsfunctions/pcscompress/compress.go:175-200 | for a directory source the checks fail in the source's order: unlistable tree, then no eligible files (EmptyDirectory), then not enough disk space, then archive creation (PermissionDenied for a permission error) |
| CompressProps.RunProgress | internal/pcsfunctions/pcscompress/compress.go:261-269 | the i-th progress report counts i+1 processed files out of the run's total, compressed sizes never decrease, the last report equals the final compressed size, and on success there is one report per file read |
| CompressReports.RunReportsFiles | internal/pcsfunctions/pcscompress/compress.go:261-269 | after a successful execution the i-th progress report names the walked path of the i-th copied eligible file, so the reports name exactly the copied files, in walk order |
| CompressReports.PackWalkReports | internal/pcsfunctions/pcscompress/compress.go:211-270 | a packing walk that ends without error has made one progress report per copied eligible file, in walk order, each naming that file's walked path, and no other report |
| CompressReports.PackStepReports | internal/pcsfunctions/pcscompress/compress.go:216-270 | one walk callback that ends without error reports the visited path exactly when the entry is not excluded and is a file that can be copied |
| CompressProps.HiddenRootIsEmpty | internal/pcsfunctions/pcscompress/compress.go:110-118 | a hidden source directory with hidden entries excluded is reported as EmptyDirectory and no archive is made |
| CompressProps.RerunAccumulates | internal/pcsfunctions/pcscompress/compress.go:175-179 | executing a task a second time counts its files on top of the first run's totals |
| CompressProps.DirsWalk | internal/pcsfunctions/pcscompress/compress.go:334-364 | the depth-limited walk fails iff a directory it enters is unlistable; otherwise it lists exactly the subdirectories within the depth, in walk order |
| CompressProps.ChildDirsAtDepthOne | internal/pcsfunctions/pcscompress/compress.go:320-332 | the depth-1 branch, which reads the parent's entries directly, lists the same directories as the general walk limited to depth 1 |
| CompressProps.SubDirectoriesByDepth | internal/pcsfunctions/pcscompress/compress.go:305-365 | depth 0 gives the parent alone; depth 1 gives the direct subdirectories or an error if the parent is unlistable; any other depth succeeds iff the entered tree is listable and then gives the subdirectories within that depth (all of them when negative) |
| Statistic.CompressStatistic.constructor | internal/pcsfunctions/pcscompress/statistic.go:17-21 | a new statistic has zero counters and starts its timer at the given time |
| Statistic.CompressStatistic.AddTotalSize | internal/pcsfunctions/pcscompress/statistic.go:23-25 | the total size grows by the argument and nothing else changes |
| Statistic.CompressStatistic.AddCompressedSize | internal/pcsfunctions/pcscompress/statistic.go:27-29 | the compressed size grows by the argument and nothing else changes |
| Statistic.CompressStatistic.AddFileCount | internal/pcsfunctions/pcscompress/statistic.go:31-33 | the file count grows by the argument and nothing else changes |
| Statistic.CompressStatistic.StartTimer | internal/pcsfunctions/pcscompress/statistic.go:53-57 | only the start time changes, to the given time |
| Statistic.CompressStatistic.Reset | internal/pcsfunctions/pcscompress/statistic.go:59-66 | every counter returns to zero and the timer restarts |
| Statistic.CompressStatistic.ApplyAll | internal/pcsfunctions/pcscompress/statistic.go:23-33 | applying a batch of atomic adds raises each counter by the sum of the adds aimed at it |
| Statistic.SumOrderIndependent | internal/pcsfunctions/pcscompress/statistic.go:23-33 | any interleaving of the same adds, as concurrent task units produce, gives the same counter totals |
| Queue.CompressQueue.constructor | internal/pcsfunctions/pcscompress/queue.go:42-51 | a new queue is empty and idle, with a concurrency of at least 1 |
| Queue.CompressQueue.AddTask | internal/pcsfunctions/pcscompress/queue.go:53-83 | a failing Abs of the source or of the target (when none is given: the simple archive name if exactly one item is queued already, the unique name otherwise) is reported and leaves the items unchanged; otherwise exactly one pending item with a fresh, unstarted task for the absolute paths is appended |
| Queue.CompressQueue.AddDirectory | internal/pcsfunctions/pcscompress/queue.go:85-105 | a listing error is reported and adds nothing; otherwise one item per listed subdirectory is appended, named by its simple archive name when there is only one subdirectory and by its unique name otherwise, in order up to the first one AddTask rejects, whose error is returned |
| Queue.CompressQueue.AddDirectoryTask | internal/pcsfunctions/pcscompress/queue.go:94-101 | adding one listed subdirectory fails exactly when AddTask would reject it; otherwise exactly one item for it is appended |
| Queue.FirstRejectedFirst | internal/pcsfunctions/pcscompress/queue.go:94-104 | the index where AddDirectory stops is the first subdirectory that is rejected, and no earlier one is |
| Queue.CompressQueue.Stop | internal/pcsfunctions/pcscompress/queue.go:168-170 | the status becomes Stopped |
| Queue.CompressQueue.Pause | internal/pcsfunctions/pcscompress/queue.go:172-174 | the status becomes Paused |
| Queue.CompressQueue.Resume | internal/pcsfunctions/pcscompress/queue.go:176-178 | a paused queue runs again; any other status is left alone |
| Queue.CompressQueue.Execute | internal/pcsfunctions/pcscompress/queue.go:117-166 | a non-idle queue does nothing; otherwise exactly the first plan.0 items are run in order, each finished with its own task's result; the rest are untouched; the disk holds the archives those runs created; the final status and the callbacks follow the plan for the interfering signals |
| Queue.Schedule | internal/pcsfunctions/pcscompress/queue.go:124-161 | the loop runs at most all items and always ends somehow; it ends Finished exactly when every item ran |
| Queue.NoSignalsRunAll | internal/pcsfunctions/pcscompress/queue.go:117-166 | without interference every item runs and the queue finishes |
| Queue.StopBeforeFirstItem | internal/pcsfunctions/pcscompress/queue.go:125-127 | a stop that precedes the first boundary check runs nothing |
| Queue.PauseBeforeFirstItem | internal/pcsfunctions/pcscompress/queue.go:129-134 | a pause that is never resumed or stopped leaves the queue waiting before the first item |
| Queue.StopAfterItems | internal/pcsfunctions/pcscompress/queue.go:124-165 | a stop issued after k items have run breaks the loop there: exactly k items ran, each started, and OnQueueComplete fires |
| Queue.StopWhilePaused | internal/pcsfunctions/pcscompress/queue.go:129-165 | a pause followed by a stop after k items returns from the pause loop: k items ran and OnQueueComplete does not fire |
| Queue.RanTerminal | internal/pcsfunctions/pcscompress/queue.go:136-160 | after a run that started from pending items, exactly the first k items are completed or failed and carry their task's result; the rest are unchanged |
| Queue.CompressQueue.GetResults | internal/pcsfunctions/pcscompress/queue.go:180-186 | returns the items in queue order |
| Queue.CompressQueue.GetCompletedZipPaths | internal/pcsfunctions/pcscompress/queue.go:188-198 | returns the completed paths; see Queue.CompletedPathsMembers and Queue.TallyCounts |
| Queue.CompletedPathsMembers | internal/pcsfunctions/pcscompress/queue.go:188-198 | a path is listed iff some item has a successful result with that target path |
| Queue.TallyCounts | internal/pcsfunctions/pcscompress/queue.go:188-246 | the summary's succeeded and failed counts add up to the number of items, and the completed-path list has one path per succeeded item |
| Queue.CompressQueue.CleanupFailedTasks | internal/pcsfunctions/pcscompress/queue.go:200-210 | exactly the target archives of items whose result failed are removed from the disk |
| Queue.CompressQueue.Summarize | internal/pcsfunctions/pcscompress/queue.go:212-246 | the summary counts the items that succeeded and those that did not (an item without a result counts as failed), and adds up the original and compressed sizes of the successful ones |
| TaskUnit.Verdict | internal/pcsfunctions/pcscompress/compress_upload_task_unit.go:56-85 | a failed compression fails without retry and with a compression error; after a successful compression the upload's result is adopted, and an absent upload result gives the fixed no-result failure; success iff compression and upload both succeed |
| TaskUnit.StatisticAdds | internal/pcsfunctions/pcscompress/compress_upload_task_unit.go:70-74 | a successful compression adds its total size, compressed size and file count to the statistic; a failed one adds nothing |
| TaskUnit.ArchiveKeptUnlessUploaded | internal/pcsfunctions/pcscompress/compress_upload_task_unit.go:78-93 | after a successful compression the archive stays on disk unless the upload succeeded and deletion was asked for; no other path changes |
| TaskUnit.FailedCompressionKeepsDisk | internal/pcsfunctions/pcscompress/compress_upload_task_unit.go:43-61 | a failed compression deletes nothing; the disk changes only by a partial archive, and not at all when a pre-check failed |
| TaskUnit.CompressUploadTaskUnit.constructor | internal/pcsfunctions/pcscompress/compress_upload_task_unit.go:17-32 | a unit holds its configuration and has no compression result yet |
| TaskUnit.CompressUploadTaskUnit.Request | internal/pcsfunctions/pcscompress/compress_upload_task_unit.go:112-126 | the upload request sends the archive to the save path with the unit's policy, parallelism and rapid-upload setting |
| TaskUnit.CompressUploadTaskUnit.Upload | internal/pcsfunctions/pcscompress/compress_upload_task_unit.go:98-127 | a database error gives the fixed non-retried failure; otherwise the engine's result for the unit's request is returned |
| TaskUnit.CompressUploadTaskUnit.Run | internal/pcsfunctions/pcscompress/compress_upload_task_unit.go:38-96 | a fresh task from zero totals is compressed, its result recorded, and the verdict returned; the disk and the shared statistic change as Verdict, DiskAfterRun and StatisticAdds say |
| TaskUnit.CompressUploadTaskUnit.OnFailed | internal/pcsfunctions/pcscompress/compress_upload_task_unit.go:141-154 | the archive is removed iff the failure carries an error and the target path is non-empty |
| TaskUnit.CompressUploadTaskUnit.OnRetry | internal/pcsfunctions/pcscompress/compress_upload_task_unit.go:129-135 | only prints, so the unit is unchanged |
| TaskUnit.CompressUploadTaskUnit.OnSuccess | internal/pcsfunctions/pcscompress/compress_upload_task_unit.go:137-139 | does nothing to the unit |
| TaskUnit.CompressUploadTaskUnit.OnComplete | internal/pcsfunctions/pcscompress/compress_upload_task_unit.go:156-157 | does nothing to the unit |
| Driver.Defaults | internal/pcscommand/compress_upload.go:38-52 | non-positive parallelism and load take the configured values; a negative retry count becomes 3, so the result is never negative; an unknown policy takes the configured one; every other option is kept |
| Driver.DefaultsIdempotent | internal/pcscommand/compress_upload.go:38-52 | defaulting twice is the same as defaulting once |
| Driver.DefaultsSettle | internal/pcscommand/compress_upload.go:38-52 | already-settled options are left alone, and with a sane configuration the defaulted options are settled |
| Driver.CompressUploadOptions.ApplyDefaults | internal/pcscommand/compress_upload.go:38-52 | the options object is updated in place to its defaulted value |
| Driver.CandidatesByDepth | internal/pcscommand/compress_upload.go:103-115 | depth 1 gives the direct subdirectories of the absolute path, or none if listing fails; every other depth gives the absolute path alone |
| Driver.KeptMembers | internal/pcscommand/compress_upload.go:117-123 | a directory is kept iff it is a candidate and its path is legal |
| Driver.RemoteSavePathKeepsName | internal/pcscommand/compress_upload.go:118-125 | the remote save path is the cleaned save path with the archive name appended, so its base name is the archive's name |
| Driver.ZipNameIsPlain | internal/pcsfunctions/pcscompress/compress.go:297-303 | for a source other than the root, the simple archive name is a single plain path segment |
| Driver.ParallelFor | internal/pcscommand/compress_upload.go:150-155 | parallelism is the number of units, capped at the load |
| Driver.RunCompressUpload | internal/pcscommand/compress_upload.go:33-155 | the given options are defaulted in place first, even when the list of local paths is empty; no local paths then ends with NoLocalPaths; otherwise a fresh zeroed statistic is started, and one fresh task unit is built for every legal candidate directory in order, with the parallelism set; no directories means nothing to upload |
| Driver.OnlyTargetInOutputDir | internal/pcscommand/compress_upload.go:256-262 | with an output directory, the archive is written into it under the simple archive name |
| Driver.RunCompressOnly | internal/pcscommand/compress_upload.go:179-280 | no local paths does nothing; otherwise a queue of one item per selected directory is filled, and, if non-empty, run to completion, with each archive on disk and the summary of its items returned |
| Driver.ExecuteUninterrupted | internal/pcsfunctions/pcscompress/queue.go:117-166 | a queue of unstarted tasks executed without interference runs every item from zero totals and ends idle with all archives on disk |

## Left out

- Compress.CompressTask.Execute: two abort paths of the packing are not modelled. A child whose `Lstat` fails inside `filepath.Walk` reaches both callbacks as an error, which they return before the hidden-name test (compress.go:107-109, compress.go:212-214). So the count or the packing aborts even for a hidden child, and a `Node` cannot express that per-entry failure. A failing `zipWriter.Create` or `CreateHeader` (compress.go:235-236, compress.go:246-249) aborts the packing with `ErrCompressFailed`, and the model's archive writer never fails.
- TaskUnit.CompressUploadTaskUnit.Run: removing an existing archive always succeeds in the model (`LocalDisk.Remove`). The only removal error is a missing path. `os.Remove` can also fail on an existing path, for example for lack of permission. The source then prints the error and goes on (compress_upload_task_unit.go:89-92), and the archive stays on disk. So the archive is gone after a successful upload with delete-after-upload only when the host allows the removal. The same holds for `TaskUnit.ArchiveKeptUnlessUploaded`.
- TaskUnit.CompressUploadTaskUnit.OnFailed: the removal of an existing archive always succeeds in the model. The source ignores a failed `os.Remove` (compress_upload_task_unit.go:151), and the archive then stays on disk.
- Queue.CompressQueue.CleanupFailedTasks: the removal of an existing archive always succeeds in the model. The source ignores a failed `os.Remove` (queue.go:206), and the archive then stays on disk.
- Reading file bytes, the ZIP format and Deflate are not modelled. An archive is its entry names and the number of bytes copied, and `CompressedSize` counts the bytes copied, as the source does.
- Compress.CompressTask.Execute: the `OnProgress` callback is modelled as the appended progress reports. The queue's `OnTaskProgress` forwarding only prints.
- `GetProgress` and `GetSpeed` compute floating-point percentages and rates and are not modelled.
- Printing, colour and the Chinese messages are not modelled. `PrintSummary` is modelled by the tally it prints (`Summarize`).
- Time is a parameter. This covers `Statistic.CompressStatistic.Elapsed`, `StartTimer` and the timestamp in `GenerateUniqueZipName`, which is `Host.timestamp`. The 100 ms sleep in the pause loop is not modelled.
- Concurrent `Stop`, `Pause` and `Resume` calls, and the atomics, are modelled as a signal sequence consumed by the status reads. The queue's mutex is not modelled.
- `maxConcurrent` is stored but, as in the source, unused.
- Compress.CompressTask.Execute: the source tree is one snapshot that the task's own writes do not change. The count and the packing walk both see the tree as it was before `os.Create`. The source walks the tree again after creating the archive (compress.go:192-211). So when the target lies inside the source directory, the real program also packs its own partly written archive, and reports more processed files than the counted total. compress-upload, and compress-only without an output directory, name the archive with a bare file name in the current directory, so compressing `.` at depth 0 does this. With an output directory, compress-only joins the name to it (compress_upload.go:258-262), and the same happens whenever that directory lies inside the source. The model does not capture that case.
- CompressProps.RunSpec: holds of the snapshot only. When the target lies inside the source, the archive in the source also holds an entry for the archive itself.
- CompressProps.RunProgress: holds of the snapshot only. When the target lies inside the source, the source can report more processed files than the total and one report more than the copied eligible files. The same holds for CompressReports.RunReportsFiles.
- Queue.CompressQueue.Execute: every item runs against the same host snapshot. An archive written by an earlier item does not appear in a later item's tree, and free space does not shrink as archives are written. The same holds for `TaskUnit.CompressUploadTaskUnit.Run` and for the units of one `RunCompressUpload`.
- Queue.CompressQueue.Execute: when the signals run out while paused, the model stops with the queue still paused. The source would keep sleeping until a later call.
- The task executor is not modelled: its scheduling, retries, `SetParallel` and the failed-task deque. `RunCompressUpload` returns the built units and the chosen parallelism instead of running them.
- `RetryWait` and `SetTaskInfo` are not modelled. `RetryWait` is the executor's wait between retries, computed from the retry count (compress_upload_task_unit.go:159-161), and `SetTaskInfo` stores the executor's bookkeeping. Both belong to the executor, which is not modelled.
- The upload engine, the checksum and the netdisk database are a parameter (`Uploader`).
- The configuration values and the names of known upload policies are parameters.
- `ChPathLegal` is the `legal` parameter.
- The shell-pattern expansion of the remote save path (compress_upload.go:54-57) is not modelled. It asks the netdisk, which is not part of this model, so `savePath` is taken as already resolved. A failed expansion only prints a warning there.
- `filepath.Abs` and `os.Stat` are host queries. Hidden and special files are distinguished only by base name.
- Symbolic links are not modelled: a `Node` is a file or a directory. `filepath.Walk` uses Lstat, so the count adds a link's own size (compress.go:119-122). `os.Open` then follows the link: a link to a directory makes `io.Copy` fail and aborts the packing, and a link to a file copies the target's bytes.
- Statistic.CompressStatistic.AddTotalSize: counters are unbounded integers, so int64 wrap-around is not modelled. The same holds for AddCompressedSize, AddFileCount and the task counters.
- Compress.CompressTask.CheckDiskSpace: the source computes `int64(stat.Bavail) * int64(stat.Bsize)` (compress.go:138). It converts the uint64 block count to int64 and multiplies in int64, so both the conversion and the product can wrap to a smaller or negative free space. The model multiplies `bavail` and `bsize` as unbounded integers and does not capture that wrap.
