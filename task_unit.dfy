/** The compress-then-upload unit of
    internal/pcsfunctions/pcscompress/compress_upload_task_unit.go: each run compresses the
    unit's directory with a fresh compression task, adds the totals to the shared statistic,
    hands the archive to the upload engine, adopts the engine's verdict and removes the
    archive after a successful upload when asked to.  The upload engine and its database
    are external: an `Uploader` value says what they answer. */
module TaskUnit {
  import opened Paths
  import opened FileSystem
  import opened Compress
  import opened Statistic
  import CompressProps

  /** The error a run reports: the compression's, or an error of the external upload side
      (opening the uploading database, or the engine itself), kept abstract. */
  datatype UnitError = CompressionError(cause: Option<Error>) | DatabaseError(code: nat) | UploadError(code: nat)

  /** ResultMessage: which message was formatted (the text is left out); `EngineMessage`
      is the engine's own message. */
  datatype Message = NoMessage | CompressionFailedMessage | DatabaseFailedMessage | EngineMessage(text: string)

  /** A TaskUnitRunResult as the executor receives it: success, whether to retry, the
      error, the message and the engine's opaque extra payload. */
  datatype RunResult = RunResult(succeed: bool, needRetry: bool, err: Option<UnitError>, message: Message, extra: Option<nat>)

  /** The zero TaskUnitRunResult a run starts from. */
  const NoResult := RunResult(false, false, None, NoMessage, None)

  /** What the upload engine is given: the local archive, the remote save path, the
      per-file parallelism, the rapid-upload switch and the name-collision policy. */
  datatype UploadRequest = UploadRequest(localPath: Path, savePath: Path, parallel: int, noRapidUpload: bool, policy: string)

  /** The external upload side: whether opening the uploading database fails (its error),
      and the engine's answer to a request (None for a nil result). */
  datatype Uploader = Uploader(database: Option<nat>, engine: UploadRequest -> Option<RunResult>)

  /** The result of a run whose compression ended with `c`, the upload (if it ran)
      answering `u`: a failed compression is final and carries its error; otherwise the
      five fields of a non-nil upload result are adopted as they are. */
  function Verdict(c: CompressResult, u: Option<RunResult>): (r: RunResult)
    ensures !c.success ==> !r.succeed && !r.needRetry && r.err == Some(CompressionError(c.error))
    ensures c.success && u.Some? ==> r == u.value
    ensures c.success && u.None? ==> r == NoResult
    ensures r.succeed <==> c.success && u.Some? && u.value.succeed
  {
    if !c.success then RunResult(false, false, Some(CompressionError(c.error)), CompressionFailedMessage, None)
    else if u.Some? then RunResult(u.value.succeed, u.value.needRetry, u.value.err, u.value.message, u.value.extra)
    else NoResult
  }

  /** The statistic adds one run makes: the compression's three totals, once each, only
      when it succeeded. */
  function StatisticAdds(c: CompressResult): (adds: seq<Add>)
    ensures Sum(adds, TotalCounter) == if c.success then c.totalSize else 0
    ensures Sum(adds, CompressedCounter) == if c.success then c.compressedSize else 0
    ensures Sum(adds, FilesCounter) == if c.success then c.totalFiles else 0
  {
    if c.success then
      var adds := [AddTotal(c.totalSize), AddCompressed(c.compressedSize), AddFiles(c.totalFiles)];
      SumOfThree(adds[0], adds[1], adds[2], TotalCounter);
      SumOfThree(adds[0], adds[1], adds[2], CompressedCounter);
      SumOfThree(adds[0], adds[1], adds[2], FilesCounter);
      adds
    else []
  }

  lemma SumOfThree(x: Add, y: Add, z: Add, c: Counter)
    ensures Sum([x, y, z], c) == Part(x, c) + Part(y, c) + Part(z, c)
  {
    assert [x, y, z][..2] == [x, y] && [x, y][..1] == [x] && [x][..0] == [];
    assert Sum([x], c) == Part(x, c);
    assert Sum([x, y], c) == Part(x, c) + Part(y, c);
  }

  /** The archives on the local disk after a run: the compression's archive (if it wrote
      one) at the target, removed again when the upload succeeded and the unit deletes
      after upload. */
  function DiskAfterRun(m: map<Path, Archive>, target: Path, o: Outcome, r: RunResult, deleteAfterUpload: bool)
    : map<Path, Archive>
  {
    var written := if o.archive.Some? then m[target := o.archive.value] else m;
    if r.succeed && deleteAfterUpload then written - {target} else written
  }

  /** After a run whose compression succeeded, the archive is on the local disk exactly
      when it was not removed, and it is removed exactly when the upload succeeded and the
      unit deletes after upload; nothing else on the disk changes. */
  lemma ArchiveKeptUnlessUploaded(m: map<Path, Archive>, source: Path, target: Path, opts: CompressOptions,
                                  host: Host, u: Option<RunResult>, deleteAfterUpload: bool)
    requires Run(source, target, opts, host, 0, 0).result.success
    ensures var o := Run(source, target, opts, host, 0, 0);
      var after := DiskAfterRun(m, target, o, Verdict(o.result, u), deleteAfterUpload);
      && (target in after <==> !(u.Some? && u.value.succeed && deleteAfterUpload))
      && (target in after ==> after[target] == o.archive.value)
      && forall p :: p != target ==> (p in after <==> p in m) && (p in m ==> after[p] == m[p])
  {
    CompressProps.RunSpec(source, target, opts, host, 0, 0);
  }

  /** A run whose compression failed never removes anything: the disk keeps whatever
      the compression left, and a compression that stopped before creating the archive
      leaves the disk as it was. */
  lemma FailedCompressionKeepsDisk(m: map<Path, Archive>, source: Path, target: Path, opts: CompressOptions,
                                   host: Host, u: Option<RunResult>, deleteAfterUpload: bool)
    requires !Run(source, target, opts, host, 0, 0).result.success
    ensures var o := Run(source, target, opts, host, 0, 0);
      var after := DiskAfterRun(m, target, o, Verdict(o.result, u), deleteAfterUpload);
      && after == (if o.archive.Some? then m[target := o.archive.value] else m)
      && (!CompressProps.ChecksPass(source, target, opts, host, 0, 0) ==> after == m)
  {
    CompressProps.RunSpec(source, target, opts, host, 0, 0);
  }

  class CompressUploadTaskUnit {
    const SourcePath: Path
    const TargetZipPath: Path
    const SavePath: Path
    const Parallel: int
    const MaxRetry: int
    const Policy: string
    const NoRapidUpload: bool
    const DeleteAfterUpload: bool
    const CompressOpts: Option<CompressOptions>
    /** The shared statistic, or None for a nil pointer. */
    const Statistic: Option<CompressStatistic>
    /** The result of the last compression, None before the first run. */
    var compressResult: Option<CompressResult>

    constructor (sourcePath: Path, targetZipPath: Path, savePath: Path, parallel: int, maxRetry: int,
                 policy: string, noRapidUpload: bool, deleteAfterUpload: bool,
                 compressOpts: Option<CompressOptions>, statistic: Option<CompressStatistic>)
      ensures SourcePath == sourcePath && TargetZipPath == targetZipPath && SavePath == savePath
      ensures Parallel == parallel && MaxRetry == maxRetry && Policy == policy
      ensures NoRapidUpload == noRapidUpload && DeleteAfterUpload == deleteAfterUpload
      ensures CompressOpts == compressOpts && Statistic == statistic
      ensures compressResult == None
    {
      SourcePath, TargetZipPath, SavePath := sourcePath, targetZipPath, savePath;
      Parallel, MaxRetry, Policy := parallel, maxRetry, policy;
      NoRapidUpload, DeleteAfterUpload := noRapidUpload, deleteAfterUpload;
      CompressOpts, Statistic := compressOpts, statistic;
      compressResult := None;
    }

    /** The objects a run may change besides the unit and the disk: the shared statistic. */
    function StatisticObjects(): set<object>
    {
      if Statistic.Some? then {Statistic.value} else {}
    }

    /** The request the unit makes of the upload engine: its own archive, save path,
        parallelism, rapid-upload switch and policy. */
    function Request(): (q: UploadRequest)
      ensures q.localPath == TargetZipPath && q.savePath == SavePath && q.policy == Policy
      ensures q.parallel == Parallel && q.noRapidUpload == NoRapidUpload
    {
      UploadRequest(TargetZipPath, SavePath, Parallel, NoRapidUpload, Policy)
    }

    /** upload: a database that cannot be opened gives a final failure carrying its error;
        otherwise the engine's answer to the unit's request. */
    function Upload(up: Uploader): (r: Option<RunResult>)
      ensures up.database.Some? ==>
        r == Some(RunResult(false, false, Some(DatabaseError(up.database.value)), DatabaseFailedMessage, None))
      ensures up.database.None? ==> r == up.engine(Request())
    {
      if up.database.Some? then
        Some(RunResult(false, false, Some(DatabaseError(up.database.value)), DatabaseFailedMessage, None))
      else up.engine(Request())
    }

    /** Run: compresses with a fresh task built from the unit's fields (so every retry
        compresses again from zero counters), then on success adds the totals to the
        statistic, uploads, adopts the upload's verdict and removes the archive when the
        upload succeeded and the unit deletes after upload (a failed removal is only
        printed). */
    method Run(host: Host, disk: LocalDisk, up: Uploader) returns (result: RunResult)
      modifies this`compressResult, disk, StatisticObjects()
      ensures var o := Compress.Run(SourcePath, TargetZipPath, EffectiveOptions(CompressOpts), host, 0, 0);
        var u := if o.result.success then Upload(up) else None;
        && compressResult == Some(o.result)
        && result == Verdict(o.result, u)
        && disk.archives == DiskAfterRun(old(disk.archives), TargetZipPath, o, result, DeleteAfterUpload)
        && (Statistic.Some? ==>
              var s := Statistic.value;
              var adds := StatisticAdds(o.result);
              && s.totalSize == old(s.totalSize) + Sum(adds, TotalCounter)
              && s.compressedSize == old(s.compressedSize) + Sum(adds, CompressedCounter)
              && s.fileCount == old(s.fileCount) + Sum(adds, FilesCounter)
              && s.startTime == old(s.startTime))
    {
      var task := new CompressTask(SourcePath, TargetZipPath, CompressOpts);
      var c := task.Execute(host, disk);
      compressResult := Some(c);
      if !c.success {
        result := RunResult(false, false, Some(CompressionError(c.error)), CompressionFailedMessage, None);
        return;
      }
      result := Deliver(c, disk, up);
    }

    /** The part of Run after a compression that succeeded with result `c`: the statistic
        adds, the upload, the adoption of its verdict and the removal of the archive. */
    method Deliver(c: CompressResult, disk: LocalDisk, up: Uploader) returns (result: RunResult)
      requires c.success
      modifies disk, StatisticObjects()
      ensures result == Verdict(c, Upload(up))
      ensures disk.archives == if result.succeed && DeleteAfterUpload then old(disk.archives) - {TargetZipPath}
                               else old(disk.archives)
      ensures Statistic.Some? ==>
        var s := Statistic.value;
        && s.totalSize == old(s.totalSize) + c.totalSize
        && s.compressedSize == old(s.compressedSize) + c.compressedSize
        && s.fileCount == old(s.fileCount) + c.totalFiles
        && s.startTime == old(s.startTime)
    {
      if Statistic.Some? {
        Statistic.value.AddTotalSize(c.totalSize);
        Statistic.value.AddCompressedSize(c.compressedSize);
        Statistic.value.AddFileCount(c.totalFiles);
      }
      var uploadResult := Upload(up);
      result := NoResult;
      if uploadResult.Some? {
        result := result.(succeed := uploadResult.value.succeed, needRetry := uploadResult.value.needRetry,
                          err := uploadResult.value.err, message := uploadResult.value.message,
                          extra := uploadResult.value.extra);
      }
      if result.succeed && DeleteAfterUpload {
        var removeErr := disk.Remove(TargetZipPath);
      }
    }

    /** OnRetry only prints the last result before the next attempt. */
    method OnRetry(lastRunResult: RunResult)
      ensures unchanged(this)
    {
    }

    /** OnSuccess only prints. */
    method OnSuccess(lastRunResult: RunResult)
      ensures unchanged(this)
    {
    }

    /** OnFailed: after a final failure that carries an error, removes the archive if it
        is present; a failure without an error returns before any cleanup. */
    method OnFailed(lastRunResult: RunResult, disk: LocalDisk)
      modifies disk
      ensures disk.archives ==
        if lastRunResult.err.Some? && TargetZipPath != "" then old(disk.archives) - {TargetZipPath}
        else old(disk.archives)
    {
      if lastRunResult.err.None? {
        return;
      }
      if TargetZipPath != "" {
        if disk.Exists(TargetZipPath) {
          var removeErr := disk.Remove(TargetZipPath);
        } else {
          assert disk.archives - {TargetZipPath} == disk.archives;
        }
      }
    }

    /** OnComplete does nothing. */
    method OnComplete(lastRunResult: RunResult)
      ensures unchanged(this)
    {
    }
  }
}
