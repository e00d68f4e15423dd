/** The compression engine of internal/pcsfunctions/pcscompress/compress.go: a task that
    pre-scans a directory, checks the free disk space, creates the archive and walks the
    tree a second time copying every eligible file into it, plus the archive-name helpers
    and the sub-directory selection by depth. */
module Compress {
  import opened Paths
  import opened FileSystem

  /** The errors an execution reports. */
  datatype Error =
    | SourceNotExist                          // ErrSourceNotExist
    | SourceNotDirectory                      // ErrSourceNotDirectory
    | PermissionDenied                        // ErrPermissionDenied
    | DiskSpaceInsufficient                   // ErrDiskSpaceInsufficient
    | EmptyDirectory                          // the "directory is empty" error
    | ScanFailed(cause: Error)                // the pre-scan's walk failed, wrapping the cause
    | CreateZipFailed(detail: FsError)        // ErrCreateZipFailed with the OS error's text
    | CompressFailed(cause: Error)            // ErrCompressFailed with the walk's error
    | WriteFailed(path: Path, detail: FsError) // copying one file's bytes failed
    | Os(err: FsError)                        // an OS error passed through unchanged

  datatype CompressOptions = CompressOptions(depth: int, includeHidden: bool, compressionLevel: int)

  /** The options a task gets when it is created without any. */
  function EffectiveOptions(opts: Option<CompressOptions>): CompressOptions
  {
    if opts.None? then CompressOptions(-1, false, 6) else opts.value
  }

  datatype CompressResult = CompressResult(
    success: bool,
    sourcePath: Path,
    targetZipPath: Path,
    totalFiles: int,
    totalSize: int,
    compressedSize: int,
    error: Option<Error>)

  /** The result of an execution that stopped at error `e`: only the paths are filled in. */
  function FailedResult(source: Path, target: Path, e: Error): CompressResult
  {
    CompressResult(false, source, target, 0, 0, 0, Some(e))
  }

  /** One progress update: the counters it sets and the `OnProgress(processed, total, file)`
      call it makes. */
  datatype Progress = Progress(processed: int, compressed: int, total: int, currentFile: Path)

  /** How a failed `os.Stat` of the source is reported. */
  function StatError(e: FsError): Error
  {
    match e
    case Permission => PermissionDenied
    case NotExist => SourceNotExist
    case OtherFs(_) => Os(e)
  }

  /** How a failed `os.Create` of the archive is reported. */
  function CreateError(e: FsError): Error
  {
    if e == Permission then PermissionDenied else CreateZipFailed(e)
  }

  /** checkDiskSpace: fails when the source is larger than the free space; an unavailable
      free-space figure lets the check pass. */
  function DiskCheck(totalSize: int, free: Option<FreeSpace>): Option<Error>
  {
    if free.Some? && totalSize > free.value.bavail * free.value.bsize then Some(DiskSpaceInsufficient)
    else None
  }

  // ---------------------------------------------------------------------------------
  // The pre-scan (countFiles)

  datatype ScanState = ScanState(files: int, size: int, err: Option<FsError>)

  /** The pre-scan's callback: an error stops the walk, a hidden entry is left out (a hidden
      directory is also skipped, which the walk trace already reflects), and a file adds
      one to the count and its size to the total. */
  function ScanStep(st: ScanState, v: Visit, includeHidden: bool): ScanState
  {
    if st.err.Some? then st
    else if v.node.Dir? && v.node.listing.Some? then st.(err := v.node.listing)
    else if !includeHidden && IsHidden(v.base) then st
    else if v.node.File? then ScanState(st.files + 1, st.size + v.node.size, None)
    else st
  }

  function ScanFrom(st: ScanState, vs: seq<Visit>, includeHidden: bool): ScanState
    decreases |vs|
  {
    if vs == [] then st else ScanFrom(ScanStep(st, vs[0], includeHidden), vs[1..], includeHidden)
  }

  lemma {:induction false} ScanErrorStops(st: ScanState, vs: seq<Visit>, includeHidden: bool)
    requires st.err.Some?
    ensures ScanFrom(st, vs, includeHidden) == st
    decreases |vs|
  {
    if vs != [] {
      ScanErrorStops(st, vs[1..], includeHidden);
    }
  }

  // ---------------------------------------------------------------------------------
  // The packaging walk

  /** What the packaging callback knows besides the visit: the hidden option, the task's
      total and, as the closure computes them, the archive entry name and the walked path
      of an entry given by its names below the source. */
  datatype PackContext = PackContext(
    includeHidden: bool,
    total: int,
    entryName: seq<string> -> Path,
    filePath: seq<string> -> Path)

  /** The archive written so far, the running counters, the progress updates made and the
      error that stopped the walk, if any. */
  datatype PackState = PackState(
    entries: seq<Path>,
    processed: int,
    compressed: int,
    updates: seq<Progress>,
    err: Option<Error>)

  /** The archive entry name of a visited entry: the source's base name joined with the
      relative path, every backslash turned into '/'. */
  function EntryName(sourceBase: string, rel: seq<string>): Path
  {
    ReplaceBackslashes(Join(sourceBase, RelPath(rel)))
  }

  /** The path the walk over `root` hands to its callback for the entry `rel`. */
  function PathOf(root: Path): seq<string> -> Path
  {
    rel => WalkPath(root, rel)
  }

  /** The archive entry name of the entry `rel` of a walk over `source`. */
  function NameOf(source: Path): seq<string> -> Path
  {
    rel => EntryName(Base(source), rel)
  }

  /** The packaging callback's context in a task over `source`. */
  function PackContextFor(source: Path, includeHidden: bool, total: int): PackContext
  {
    PackContext(includeHidden, total, NameOf(source), PathOf(source))
  }

  /** The packaging callback.  A directory gets an entry ending in '/'.  A file gets its
      header entry first; then a permission error on opening skips it, any other error on
      opening or copying stops the walk, and a copied file raises both counters and
      reports progress. */
  function PackStep(st: PackState, v: Visit, cx: PackContext): PackState
  {
    if st.err.Some? then st
    else if v.node.Dir? && v.node.listing.Some? then st.(err := Some(Os(v.node.listing.value)))
    else if !cx.includeHidden && IsHidden(v.base) then st
    else
      var name := cx.entryName(v.rel);
      match v.node
      case Dir(_, _, _) => st.(entries := st.entries + [name + "/"])
      case File(_, size, access) =>
        var withHeader := st.(entries := st.entries + [name]);
        var path := cx.filePath(v.rel);
        match access
        case Readable =>
          var p := st.processed + 1;
          var c := st.compressed + size;
          withHeader.(processed := p, compressed := c, updates := st.updates + [Progress(p, c, cx.total, path)])
        case OpenFailed(e) =>
          if e == Permission then withHeader else withHeader.(err := Some(Os(e)))
        case CopyFailed(e) => withHeader.(err := Some(WriteFailed(path, e)))
  }

  function PackFrom(st: PackState, vs: seq<Visit>, cx: PackContext): PackState
    decreases |vs|
  {
    if vs == [] then st else PackFrom(PackStep(st, vs[0], cx), vs[1..], cx)
  }

  lemma PackFromFirst(st: PackState, vs: seq<Visit>, cx: PackContext)
    requires vs != []
    ensures PackFrom(st, vs, cx) == PackFrom(PackStep(st, vs[0], cx), vs[1..], cx)
  {
  }

  lemma {:induction false} PackErrorStops(st: PackState, vs: seq<Visit>, cx: PackContext)
    requires st.err.Some?
    ensures PackFrom(st, vs, cx) == st
    decreases |vs|
  {
    if vs != [] {
      PackErrorStops(st, vs[1..], cx);
    }
  }

  // ---------------------------------------------------------------------------------
  // A whole execution

  /** What an execution leaves behind: the result, the task's TotalFiles and TotalSize
      afterwards, the archive written at the target (None when none was created) and the
      progress updates made. */
  datatype Outcome = Outcome(
    result: CompressResult,
    files: int,
    size: int,
    archive: Option<Archive>,
    updates: seq<Progress>)

  function Stopped(source: Path, target: Path, e: Error, files: int, size: int): Outcome
  {
    Outcome(FailedResult(source, target, e), files, size, None, [])
  }

  /** Execute, for a task over `source` and `target` whose counters start at `files0` and
      `size0`.  The checks run in a fixed order and the first failure ends the execution:
      stat, not a directory, the pre-scan, no files, disk space, creating the archive; then
      the packaging walk. */
  function Run(source: Path, target: Path, opts: CompressOptions, host: Host, files0: int, size0: int): Outcome
  {
    match host.stat(source)
    case StatFailed(e) => Stopped(source, target, StatError(e), files0, size0)
    case Found(root) =>
      if root.File? then Stopped(source, target, SourceNotDirectory, files0, size0)
      else
        var visits := Walk(root, [], Base(source), SkipHidden(opts.includeHidden));
        var scan := ScanFrom(ScanState(files0, size0, None), visits, opts.includeHidden);
        if scan.err.Some? then Stopped(source, target, ScanFailed(Os(scan.err.value)), scan.files, scan.size)
        else if scan.files == 0 then Stopped(source, target, EmptyDirectory, scan.files, scan.size)
        else if DiskCheck(scan.size, host.free(target)).Some? then
          Stopped(source, target, DiskSpaceInsufficient, scan.files, scan.size)
        else if host.create(target).Some? then
          Stopped(source, target, CreateError(host.create(target).value), scan.files, scan.size)
        else
          var cx := PackContextFor(source, opts.includeHidden, scan.files);
          var pack := PackFrom(PackState([], 0, 0, [], None), visits, cx);
          var archive := Some(Archive(pack.entries, if pack.compressed >= 0 then pack.compressed else 0));
          if pack.err.Some? then
            Outcome(FailedResult(source, target, CompressFailed(pack.err.value)), scan.files, scan.size, archive, pack.updates)
          else
            Outcome(CompressResult(true, source, target, scan.files, scan.size, pack.compressed, None),
                    scan.files, scan.size, archive, pack.updates)
  }

  // ---------------------------------------------------------------------------------
  // The task object

  /** Progress fields `updates`, `processed` and `compressed` after the reports `made`,
      having started from reports `u0` and counters `p0` and `c0`: every report is recorded
      and the counters are those of the last one. */
  predicate ReportedIn(updates: seq<Progress>, processed: int, compressed: int,
                       made: seq<Progress>, u0: seq<Progress>, p0: int, c0: int)
  {
    && updates == u0 + made
    && (made == [] ==> processed == p0 && compressed == c0)
    && (made != [] ==> processed == made[|made| - 1].processed && compressed == made[|made| - 1].compressed)
  }

  class CompressTask {
    const SourcePath: Path
    const TargetZipPath: Path
    const Options: CompressOptions
    var TotalFiles: int
    var TotalSize: int
    var CompressedSize: int
    var ProcessedFiles: int
    /** The progress updates made so far; each one is a call of OnProgress. */
    var Updates: seq<Progress>

    /** NewCompressTask: default options when none are given, all counters at zero. */
    constructor (sourcePath: Path, targetZipPath: Path, opts: Option<CompressOptions>)
      ensures SourcePath == sourcePath && TargetZipPath == targetZipPath
      ensures Options == EffectiveOptions(opts)
      ensures TotalFiles == 0 && TotalSize == 0 && CompressedSize == 0 && ProcessedFiles == 0
      ensures Updates == []
    {
      SourcePath := sourcePath;
      TargetZipPath := targetZipPath;
      Options := EffectiveOptions(opts);
      TotalFiles, TotalSize, CompressedSize, ProcessedFiles := 0, 0, 0, 0;
      Updates := [];
    }

    /** The callbacks both walks of this task receive for the tree `root`. */
    function Visits(root: Node): seq<Visit>
    {
      Walk(root, [], Base(SourcePath), SkipHidden(Options.includeHidden))
    }

    /** updateProgress: stores both counters and calls OnProgress with the task's total. */
    method UpdateProgress(processed: int, compressed: int, currentFile: Path)
      modifies this`ProcessedFiles, this`CompressedSize, this`Updates
      ensures ProcessedFiles == processed && CompressedSize == compressed
      ensures Updates == old(Updates) + [Progress(processed, compressed, TotalFiles, currentFile)]
    {
      ProcessedFiles := processed;
      CompressedSize := compressed;
      Updates := Updates + [Progress(processed, compressed, TotalFiles, currentFile)];
    }

    /** countFiles: walks the tree adding each eligible file to TotalFiles and TotalSize;
        a walk error stops it and is returned. */
    method CountFiles(root: Node) returns (err: Option<FsError>)
      modifies this`TotalFiles, this`TotalSize
      ensures ScanFrom(ScanState(old(TotalFiles), old(TotalSize), None), Visits(root), Options.includeHidden)
              == ScanState(TotalFiles, TotalSize, err)
    {
      var visits := Visits(root);
      var includeHidden := Options.includeHidden;
      ghost var goal := ScanFrom(ScanState(TotalFiles, TotalSize, None), visits, includeHidden);
      var k := 0;
      while k < |visits|
        invariant 0 <= k <= |visits|
        invariant ScanFrom(ScanState(TotalFiles, TotalSize, None), visits[k..], includeHidden) == goal
      {
        var v := visits[k];
        if v.node.Dir? && v.node.listing.Some? {
          ScanErrorStops(ScanState(TotalFiles, TotalSize, v.node.listing), visits[k + 1..], includeHidden);
          return v.node.listing;
        }
        if includeHidden || !IsHidden(v.base) {
          if v.node.File? {
            TotalFiles := TotalFiles + 1;
            TotalSize := TotalSize + v.node.size;
          }
        }
        k := k + 1;
      }
      return None;
    }

    /** checkDiskSpace: the source's size against the free space at the target. */
    method CheckDiskSpace(host: Host) returns (err: Option<Error>)
      ensures err.Some? <==> host.free(TargetZipPath).Some? &&
                             TotalSize > host.free(TargetZipPath).value.bavail * host.free(TargetZipPath).value.bsize
      ensures err.Some? ==> err.value == DiskSpaceInsufficient
    {
      var free := host.free(TargetZipPath);
      if free.None? {
        return None;
      }
      var freeSpace := free.value.bavail * free.value.bsize;
      if TotalSize > freeSpace {
        return Some(DiskSpaceInsufficient);
      }
      return None;
    }

    /** The task's progress fields after the reports `made`; see ReportedIn. */
    ghost predicate Reported(made: seq<Progress>, u0: seq<Progress>, p0: int, c0: int)
      reads this
    {
      ReportedIn(Updates, ProcessedFiles, CompressedSize, made, u0, p0, c0)
    }

    /** The packaging walk's callback for one visit: writes the entry, copies a readable
        file and reports progress for it; see PackStep. */
    method WriteEntry(st: PackState, v: Visit, cx: PackContext, ghost u0: seq<Progress>, ghost p0: int, ghost c0: int)
      returns (next: PackState)
      requires st.err.None? && cx == PackContextFor(SourcePath, Options.includeHidden, TotalFiles)
      requires Reported(st.updates, u0, p0, c0)
      modifies this`ProcessedFiles, this`CompressedSize, this`Updates
      ensures next == PackStep(st, v, cx)
      ensures Reported(next.updates, u0, p0, c0)
    {
      if v.node.Dir? && v.node.listing.Some? {
        return st.(err := Some(Os(v.node.listing.value)));
      }
      if !cx.includeHidden && IsHidden(v.base) {
        return st;
      }
      var name := EntryName(Base(SourcePath), v.rel);
      if v.node.Dir? {
        return st.(entries := st.entries + [name + "/"]);
      }
      next := st.(entries := st.entries + [name]);
      var path := WalkPath(SourcePath, v.rel);
      match v.node.access
      case OpenFailed(e) =>
        if e != Permission {
          next := next.(err := Some(Os(e)));
        }
      case CopyFailed(e) =>
        next := next.(err := Some(WriteFailed(path, e)));
      case Readable =>
        var processed := st.processed + 1;
        var compressed := st.compressed + v.node.size;
        UpdateProgress(processed, compressed, path);
        next := next.(processed := processed, compressed := compressed,
                      updates := st.updates + [Progress(processed, compressed, TotalFiles, path)]);
    }

    /** The second walk of Execute: calls WriteEntry for every visit until one fails. */
    method WriteEntries(root: Node) returns (pack: PackState)
      modifies this`ProcessedFiles, this`CompressedSize, this`Updates
      ensures PackFrom(PackState([], 0, 0, [], None), Visits(root), PackContextFor(SourcePath, Options.includeHidden, TotalFiles)) == pack
      ensures Reported(pack.updates, old(Updates), old(ProcessedFiles), old(CompressedSize))
    {
      var cx := PackContextFor(SourcePath, Options.includeHidden, TotalFiles);
      var rest := Visits(root);
      ghost var goal := PackFrom(PackState([], 0, 0, [], None), rest, cx);
      pack := PackState([], 0, 0, [], None);
      while rest != [] && pack.err.None?
        invariant PackFrom(pack, rest, cx) == goal
        invariant Reported(pack.updates, old(Updates), old(ProcessedFiles), old(CompressedSize))
        decreases |rest|
      {
        PackFromFirst(pack, rest, cx);
        pack := WriteEntry(pack, rest[0], cx, old(Updates), old(ProcessedFiles), old(CompressedSize));
        rest := rest[1..];
      }
      if pack.err.Some? {
        PackErrorStops(pack, rest, cx);
      }
    }

    /** Execute: runs the checks in order, creates the archive and fills it; see Run. */
    method Execute(host: Host, disk: LocalDisk) returns (result: CompressResult)
      modifies this, disk
      ensures var o := Run(SourcePath, TargetZipPath, Options, host, old(TotalFiles), old(TotalSize));
        && result == o.result
        && TotalFiles == o.files && TotalSize == o.size
        && Reported(o.updates, old(Updates), old(ProcessedFiles), old(CompressedSize))
        && disk.archives == (if o.archive.Some? then old(disk.archives)[TargetZipPath := o.archive.value]
                             else old(disk.archives))
    {
      var stat := host.stat(SourcePath);
      if stat.StatFailed? {
        return FailedResult(SourcePath, TargetZipPath, StatError(stat.err));
      }
      var root := stat.node;
      if root.File? {
        return FailedResult(SourcePath, TargetZipPath, SourceNotDirectory);
      }
      var scanErr := CountFiles(root);
      if scanErr.Some? {
        return FailedResult(SourcePath, TargetZipPath, ScanFailed(Os(scanErr.value)));
      }
      if TotalFiles == 0 {
        return FailedResult(SourcePath, TargetZipPath, EmptyDirectory);
      }
      var diskErr := CheckDiskSpace(host);
      if diskErr.Some? {
        return FailedResult(SourcePath, TargetZipPath, diskErr.value);
      }
      var createErr := host.create(TargetZipPath);
      if createErr.Some? {
        return FailedResult(SourcePath, TargetZipPath, CreateError(createErr.value));
      }
      result := WriteArchive(root, disk);
    }

    /** The part of Execute after the archive file was created: the packaging walk writes
        the entries, the archive is closed with what was written, and the walk's error, if
        any, becomes the result. */
    method WriteArchive(root: Node, disk: LocalDisk) returns (result: CompressResult)
      modifies this`ProcessedFiles, this`CompressedSize, this`Updates, disk
      ensures var pack := PackFrom(PackState([], 0, 0, [], None), Visits(root),
                                   PackContextFor(SourcePath, Options.includeHidden, TotalFiles));
        && result == (if pack.err.Some? then FailedResult(SourcePath, TargetZipPath, CompressFailed(pack.err.value))
                      else CompressResult(true, SourcePath, TargetZipPath, TotalFiles, TotalSize, pack.compressed, None))
        && Reported(pack.updates, old(Updates), old(ProcessedFiles), old(CompressedSize))
        && disk.archives == old(disk.archives)[TargetZipPath := Archive(pack.entries, if pack.compressed >= 0 then pack.compressed else 0)]
    {
      disk.Put(TargetZipPath, Archive([], 0));
      var pack := WriteEntries(root);
      disk.Put(TargetZipPath, Archive(pack.entries, if pack.compressed >= 0 then pack.compressed else 0));
      if pack.err.Some? {
        return FailedResult(SourcePath, TargetZipPath, CompressFailed(pack.err.value));
      }
      return CompressResult(true, SourcePath, TargetZipPath, TotalFiles, TotalSize, pack.compressed, None);
    }
  }

  // ---------------------------------------------------------------------------------
  // Archive names

  /** The absolute form of a path, or the path itself when `filepath.Abs` fails. */
  function AbsOr(host: Host, p: Path): Path
  {
    if host.abs(p).Some? then host.abs(p).value else p
  }

  /** GenerateSimpleZipName: the base name of the absolute source path plus ".zip". */
  function GenerateSimpleZipName(host: Host, sourcePath: Path): (r: Path)
    ensures |r| > 4
  {
    Base(AbsOr(host, sourcePath)) + ".zip"
  }

  /** The simple name ends in ".zip" after a non-empty stem that is "/" or holds no '/'. */
  lemma SimpleZipNameShape(host: Host, sourcePath: Path)
    ensures var r := GenerateSimpleZipName(host, sourcePath);
      r[|r| - 4..] == ".zip" && var stem := r[..|r| - 4]; stem != "" && (stem == "/" || '/' !in stem)
  {
    var b := Base(AbsOr(host, sourcePath));
    assert (b + ".zip")[..|b|] == b;
  }

  /** GenerateUniqueZipName: the base name, '_', the timestamp and ".zip". */
  function GenerateUniqueZipName(host: Host, sourcePath: Path): (r: Path)
    ensures |r| > 5
  {
    Base(AbsOr(host, sourcePath)) + "_" + host.timestamp + ".zip"
  }

  /** The unique name is the simple name's stem, then '_' and the timestamp, then ".zip";
      so it ends in ".zip" and never equals the simple name of the same source. */
  lemma UniqueZipNameShape(host: Host, sourcePath: Path)
    ensures var r := GenerateUniqueZipName(host, sourcePath);
      var simple := GenerateSimpleZipName(host, sourcePath);
      && r == simple[..|simple| - 4] + "_" + host.timestamp + ".zip"
      && r[|r| - 4..] == ".zip" && r != simple
  {
    var b := Base(AbsOr(host, sourcePath));
    assert (b + ".zip")[..|b|] == b;
    assert |b + "_" + host.timestamp + ".zip"| != |b + ".zip"|;
  }

  /** Two sources get the same unique name at one instant exactly when their absolute paths
      have the same base name: directories of one name queued within the same second
      collide. */
  lemma UniqueNamesCollide(host: Host, a: Path, b: Path)
    ensures GenerateUniqueZipName(host, a) == GenerateUniqueZipName(host, b) <==>
            Base(AbsOr(host, a)) == Base(AbsOr(host, b))
  {
    var ba, bb := Base(AbsOr(host, a)), Base(AbsOr(host, b));
    var tail := "_" + host.timestamp + ".zip";
    assert GenerateUniqueZipName(host, a) == ba + tail;
    assert GenerateUniqueZipName(host, b) == bb + tail;
    if ba + tail == bb + tail {
      assert |ba| == |bb|;
      assert ba == (ba + tail)[..|ba|];
      assert bb == (bb + tail)[..|bb|];
    }
  }

  // ---------------------------------------------------------------------------------
  // GetSubDirectories

  /** The paths of the directories among `cs`, joined to `parent`, in order. */
  function ChildDirs(parent: Path, cs: seq<Node>): seq<Path>
  {
    if cs == [] then []
    else (if cs[0].Dir? then [Join(parent, cs[0].name)] else []) + ChildDirs(parent, cs[1..])
  }

  datatype DirsState = DirsState(dirs: seq<Path>, err: Option<FsError>)

  /** The sub-directory walk's callback: errors stop the walk, files and the root are
      passed over, a directory deeper than a positive depth is skipped with its subtree,
      and any other directory within the depth (every one when the depth is negative) is
      collected. */
  function DirsStep(st: DirsState, v: Visit, pathOf: seq<string> -> Path, depth: int): DirsState
  {
    if st.err.Some? then st
    else if v.node.Dir? && v.node.listing.Some? then st.(err := v.node.listing)
    else if v.node.File? then st
    else if RelPath(v.rel) == "." then st
    else if depth > 0 && Level(v.rel) > depth then st
    else if depth < 0 || Level(v.rel) <= depth then st.(dirs := st.dirs + [pathOf(v.rel)])
    else st
  }

  function DirsFrom(st: DirsState, vs: seq<Visit>, pathOf: seq<string> -> Path, depth: int): DirsState
    decreases |vs|
  {
    if vs == [] then st else DirsFrom(DirsStep(st, vs[0], pathOf, depth), vs[1..], pathOf, depth)
  }

  lemma {:induction false} DirsErrorStops(st: DirsState, vs: seq<Visit>, pathOf: seq<string> -> Path, depth: int)
    requires st.err.Some?
    ensures DirsFrom(st, vs, pathOf, depth) == st
    decreases |vs|
  {
    if vs != [] {
      DirsErrorStops(st, vs[1..], pathOf, depth);
    }
  }

  /** What GetSubDirectories returns: the directories and the error, if any. */
  function SubDirectories(host: Host, parent: Path, depth: int): (seq<Path>, Option<Error>)
  {
    match host.stat(parent)
    case StatFailed(e) => ([], Some(Os(e)))
    case Found(n) =>
      if n.File? then ([], Some(SourceNotDirectory))
      else if depth == 0 then ([parent], None)
      else if depth == 1 then
        (if n.listing.Some? then ([], Some(Os(n.listing.value))) else (ChildDirs(parent, n.children), None))
      else
        var st := DirsFrom(DirsState([], None), Walk(n, [], Base(parent), SkipDeeper(depth)), PathOf(parent), depth);
        (st.dirs, if st.err.Some? then Some(Os(st.err.value)) else None)
  }

  /** GetSubDirectories: depth 0 is the parent itself, depth 1 its child directories,
      anything else the walk above. */
  method GetSubDirectories(host: Host, parent: Path, depth: int) returns (dirs: seq<Path>, err: Option<Error>)
    ensures (dirs, err) == SubDirectories(host, parent, depth)
  {
    var stat := host.stat(parent);
    if stat.StatFailed? {
      return [], Some(Os(stat.err));
    }
    var n := stat.node;
    if n.File? {
      return [], Some(SourceNotDirectory);
    }
    if depth == 0 {
      return [parent], None;
    }
    if depth == 1 {
      if n.listing.Some? {
        return [], Some(Os(n.listing.value));
      }
      dirs := [];
      var i := 0;
      while i < |n.children|
        invariant 0 <= i <= |n.children|
        invariant dirs + ChildDirs(parent, n.children[i..]) == ChildDirs(parent, n.children)
      {
        var entry := n.children[i];
        assert n.children[i..] == [entry] + n.children[i + 1..];
        if entry.Dir? {
          dirs := dirs + [Join(parent, entry.name)];
        }
        i := i + 1;
      }
      assert n.children[i..] == [];
      assert dirs == ChildDirs(parent, n.children);
      assert host.stat(parent) == Found(n);
      assert SubDirectories(host, parent, depth) == (ChildDirs(parent, n.children), None);
      return dirs, None;
    }
    var visits := Walk(n, [], Base(parent), SkipDeeper(depth));
    ghost var goal := DirsFrom(DirsState([], None), visits, PathOf(parent), depth);
    dirs := [];
    var k := 0;
    while k < |visits|
      invariant 0 <= k <= |visits|
      invariant DirsFrom(DirsState(dirs, None), visits[k..], PathOf(parent), depth) == goal
    {
      var v := visits[k];
      if v.node.Dir? && v.node.listing.Some? {
        DirsErrorStops(DirsState(dirs, v.node.listing), visits[k + 1..], PathOf(parent), depth);
        return dirs, Some(Os(v.node.listing.value));
      }
      if v.node.Dir? {
        var relPath := RelPath(v.rel);
        if relPath != "." {
          var currentDepth := CountSep(relPath) + 1;
          if depth > 0 && currentDepth > depth {
            // SkipDir: the walk trace does not descend here
          } else if depth < 0 || currentDepth <= depth {
            dirs := dirs + [WalkPath(parent, v.rel)];
          }
        }
      }
      k := k + 1;
    }
    assert visits[k..] == [];
    assert goal == DirsState(dirs, None);
    return dirs, None;
  }
}
