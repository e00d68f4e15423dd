/** The compress-upload and compress-only commands of internal/pcscommand/compress_upload.go:
    the option defaults, the choice of directories by depth, the archive and remote save
    paths of each directory, the units handed to the task executor with its parallelism,
    and the compress-only run over a one-slot queue. */
module Driver {
  import opened Paths
  import opened FileSystem
  import opened Compress
  import opened Statistic
  import opened Queue
  import opened TaskUnit
  import CompressProps

  /** DefaultCompressMaxRetry. */
  const DefaultCompressMaxRetry := 3

  /** The configured upload values the defaults come from: MaxUploadParallel,
      MaxUploadLoad and UPolicy. */
  datatype Config = Config(maxUploadParallel: int, maxUploadLoad: int, uploadPolicy: string)

  /** The three upload policy names of the client package: skip, overwrite and rsync. */
  datatype PolicyNames = PolicyNames(skip: string, overwrite: string, rsync: string)

  predicate KnownPolicy(names: PolicyNames, p: string)
  {
    p == names.skip || p == names.overwrite || p == names.rsync
  }

  /** The fields of a CompressUploadOptions, as one value. */
  datatype Settings = Settings(parallel: int, maxRetry: int, load: int, noRapidUpload: bool, policy: string,
                               deleteAfterUpload: bool, depth: int, includeHidden: bool)

  /** The zero CompressUploadOptions a nil option pointer is replaced with. */
  const ZeroSettings := Settings(0, 0, 0, false, "", false, 0, false)

  // ---------------------------------------------------------------------------------
  // Option defaults

  /** The options after RunCompressUpload fills in its defaults: a non-positive parallelism
      or load takes the configured one, a negative retry count takes the default (zero
      retries are kept), an unknown policy takes the configured one, and nothing else
      changes. */
  function Defaults(s: Settings, config: Config, names: PolicyNames): (r: Settings)
    ensures s.parallel > 0 ==> r.parallel == s.parallel
    ensures s.parallel <= 0 ==> r.parallel == config.maxUploadParallel
    ensures s.maxRetry >= 0 ==> r.maxRetry == s.maxRetry
    ensures s.maxRetry < 0 ==> r.maxRetry == DefaultCompressMaxRetry
    ensures r.maxRetry >= 0
    ensures s.load > 0 ==> r.load == s.load
    ensures s.load <= 0 ==> r.load == config.maxUploadLoad
    ensures KnownPolicy(names, s.policy) ==> r.policy == s.policy
    ensures !KnownPolicy(names, s.policy) ==> r.policy == config.uploadPolicy
    ensures r.(parallel := s.parallel, maxRetry := s.maxRetry, load := s.load, policy := s.policy) == s
  {
    s.(parallel := if s.parallel <= 0 then config.maxUploadParallel else s.parallel,
       maxRetry := if s.maxRetry < 0 then DefaultCompressMaxRetry else s.maxRetry,
       load := if s.load <= 0 then config.maxUploadLoad else s.load,
       policy := if KnownPolicy(names, s.policy) then s.policy else config.uploadPolicy)
  }

  /** Options that need no default: positive parallelism and load, a retry count that is
      not negative and a known policy. */
  predicate Settled(s: Settings, names: PolicyNames)
  {
    s.parallel > 0 && s.maxRetry >= 0 && s.load > 0 && KnownPolicy(names, s.policy)
  }

  /** Filling in the defaults twice changes nothing more than filling them in once. */
  lemma DefaultsIdempotent(s: Settings, config: Config, names: PolicyNames)
    ensures Defaults(Defaults(s, config, names), config, names) == Defaults(s, config, names)
  {
    var r := Defaults(s, config, names);
    var r2 := Defaults(r, config, names);
    assert r2.parallel == r.parallel && r2.maxRetry == r.maxRetry;
    assert r2.load == r.load && r2.policy == r.policy;
  }

  /** Settled options are exactly the ones the defaults leave alone whatever the
      configuration, and with a settled configuration every option ends settled. */
  lemma DefaultsSettle(s: Settings, config: Config, names: PolicyNames)
    ensures Settled(s, names) ==> Defaults(s, config, names) == s
    ensures config.maxUploadParallel > 0 && config.maxUploadLoad > 0 && KnownPolicy(names, config.uploadPolicy) ==>
      Settled(Defaults(s, config, names), names)
  {
    if Settled(s, names) {
      var r := Defaults(s, config, names);
      assert r.parallel == s.parallel && r.maxRetry == s.maxRetry && r.load == s.load && r.policy == s.policy;
    }
  }

  /** CompressUploadOptions: the command's options, which RunCompressUpload overwrites in
      place with their defaults. */
  class CompressUploadOptions {
    var Parallel: int
    var MaxRetry: int
    var Load: int
    var NoRapidUpload: bool
    var Policy: string
    var DeleteAfterUpload: bool
    var Depth: int
    var IncludeHidden: bool

    constructor (s: Settings)
      ensures Value() == s
    {
      Parallel, MaxRetry, Load, NoRapidUpload := s.parallel, s.maxRetry, s.load, s.noRapidUpload;
      Policy, DeleteAfterUpload, Depth, IncludeHidden := s.policy, s.deleteAfterUpload, s.depth, s.includeHidden;
    }

    function Value(): Settings
      reads this
    {
      Settings(Parallel, MaxRetry, Load, NoRapidUpload, Policy, DeleteAfterUpload, Depth, IncludeHidden)
    }

    /** The default-filling statements at the top of RunCompressUpload. */
    method ApplyDefaults(config: Config, names: PolicyNames)
      modifies this
      ensures Value() == Defaults(old(Value()), config, names)
    {
      if Parallel <= 0 {
        Parallel := config.maxUploadParallel;
      }
      if MaxRetry < 0 {
        MaxRetry := DefaultCompressMaxRetry;
      }
      if Load <= 0 {
        Load := config.maxUploadLoad;
      }
      if !KnownPolicy(names, Policy) {
        Policy := config.uploadPolicy;
      }
    }
  }

  // ---------------------------------------------------------------------------------
  // Which directories become archives

  /** The directories one local path contributes: none when it cannot be stat'ed, is not a
      directory or has no absolute form; at depth 1 its sub-directories (none when they
      cannot be listed); at any other depth its absolute path. */
  function Candidates(host: Host, localPath: Path, depth: int): seq<Path>
  {
    match host.stat(localPath)
    case StatFailed(_) => []
    case Found(n) =>
      if n.File? || host.abs(localPath).None? then []
      else if depth == 1 then
        var (dirs, e) := SubDirectories(host, host.abs(localPath).value, 1);
        if e.Some? then [] else dirs
      else [host.abs(localPath).value]
  }

  /** The directories among `dirs` that `keep` lets through, in order. */
  function Kept(keep: Path -> bool, dirs: seq<Path>): (r: seq<Path>)
    ensures |r| <= |dirs|
  {
    if dirs == [] then []
    else (if keep(dirs[0]) then [dirs[0]] else []) + Kept(keep, dirs[1..])
  }

  /** A directory is kept exactly when it is among `dirs` and `keep` accepts it. */
  lemma {:induction false} KeptMembers(keep: Path -> bool, dirs: seq<Path>, d: Path)
    ensures d in Kept(keep, dirs) <==> d in dirs && keep(d)
  {
    if dirs != [] {
      KeptMembers(keep, dirs[1..], d);
      assert d in dirs <==> d == dirs[0] || d in dirs[1..];
    }
  }

  /** The directories a command handles for `paths`: each path's candidates in turn, in
      order, those `keep` rejects left out. */
  function Selected(pick: Path -> seq<Path>, keep: Path -> bool, paths: seq<Path>): seq<Path>
  {
    if paths == [] then [] else Kept(keep, pick(paths[0])) + Selected(pick, keep, paths[1..])
  }

  /** The candidates of each local path at `depth`. */
  function CandidatesAt(host: Host, depth: int): Path -> seq<Path>
  {
    p => Candidates(host, p, depth)
  }

  lemma {:induction false} KeptSnoc(keep: Path -> bool, dirs: seq<Path>, k: nat)
    requires k < |dirs|
    ensures Kept(keep, dirs[..k + 1]) == Kept(keep, dirs[..k]) + (if keep(dirs[k]) then [dirs[k]] else [])
  {
    if k > 0 {
      assert dirs[..k + 1][1..] == dirs[1..][..k];
      assert dirs[..k][1..] == dirs[1..][..k - 1];
      KeptSnoc(keep, dirs[1..], k - 1);
    } else {
      assert dirs[..1][1..] == [];
    }
  }

  lemma {:induction false} SelectedSnoc(pick: Path -> seq<Path>, keep: Path -> bool, paths: seq<Path>, i: nat)
    requires i < |paths|
    ensures Selected(pick, keep, paths[..i + 1]) == Selected(pick, keep, paths[..i]) + Kept(keep, pick(paths[i]))
  {
    if i > 0 {
      assert paths[..i + 1][1..] == paths[1..][..i];
      assert paths[..i][1..] == paths[1..][..i - 1];
      SelectedSnoc(pick, keep, paths[1..], i - 1);
    } else {
      assert paths[..1][1..] == [];
    }
  }

  /** The depth-driven choice for a local path that is a directory with an absolute form:
      depth 1 gives the directories one level below it in walk order, or nothing when it
      cannot be listed; every other depth, 0 and -1 included, gives the path itself. */
  lemma CandidatesByDepth(host: Host, localPath: Path, depth: int)
    requires host.stat(localPath).Found? && host.stat(localPath).node.Dir? && host.abs(localPath).Some?
    requires var abs := host.abs(localPath).value;
      host.stat(abs).Found? ==> CompressProps.PlainNames(host.stat(abs).node)
    ensures var abs := host.abs(localPath).value;
      && (depth != 1 ==> Candidates(host, localPath, depth) == [abs])
      && (depth == 1 && host.stat(abs).Found? && host.stat(abs).node.Dir? && host.stat(abs).node.listing.None? ==>
            Candidates(host, localPath, depth) == CompressProps.DirsWithin(host.stat(abs).node, [], PathOf(abs), 1))
      && (depth == 1 && (host.stat(abs).StatFailed? || host.stat(abs).node.File? || host.stat(abs).node.listing.Some?) ==>
            Candidates(host, localPath, depth) == [])
  {
    CompressProps.SubDirectoriesByDepth(host, host.abs(localPath).value, 1);
  }

  /** The directory-choosing statements of both commands for one local path. */
  method DirectoriesToCompress(host: Host, localPath: Path, depth: int) returns (dirs: seq<Path>)
    ensures dirs == Candidates(host, localPath, depth)
  {
    var stat := host.stat(localPath);
    if stat.StatFailed? {
      return [];
    }
    if !stat.node.Dir? {
      return [];
    }
    var abs := host.abs(localPath);
    if abs.None? {
      return [];
    }
    if depth == 0 {
      dirs := [abs.value];
    } else if depth == 1 {
      var subDirs, err := GetSubDirectories(host, abs.value, 1);
      if err.Some? {
        return [];
      }
      dirs := subDirs;
    } else {
      dirs := [abs.value];
    }
  }

  // ---------------------------------------------------------------------------------
  // Compress and upload

  /** The remote path an archive is uploaded to: its base name inside the save directory. */
  function RemoteSavePath(savePath: Path, zipPath: Path): Path
  {
    Clean(savePath + "/" + Base(zipPath))
  }

  /** The archive of a directory whose base name is not "/" keeps its name on the remote
      side: it is uploaded directly into the cleaned save directory (the root when the
      save path is empty). */
  lemma RemoteSavePathKeepsName(host: Host, savePath: Path, dir: Path)
    requires Base(AbsOr(host, dir)) != "/"
    ensures var zip := GenerateSimpleZipName(host, dir);
      && RemoteSavePath(savePath, zip) == (if savePath == "" then "/" + zip else AppendName(Clean(savePath), zip))
      && Base(RemoteSavePath(savePath, zip)) == zip
  {
    var zip := GenerateSimpleZipName(host, dir);
    ZipNameIsPlain(host, dir);
    BaseAppendName(".", zip);
    assert AppendName(".", zip) == zip;
    assert savePath + "/" + Base(zip) == savePath + "/" + zip;
    if savePath == "" {
      assert "" + "/" + zip == "/" + zip;
      CleanAppendEmpty(zip);
      BaseAppendName("/", zip);
    } else {
      CleanAppend(savePath, zip);
      BaseAppendName(Clean(savePath), zip);
    }
  }

  /** The simple archive name of a directory whose base name is not "/" is a plain name. */
  lemma ZipNameIsPlain(host: Host, dir: Path)
    requires Base(AbsOr(host, dir)) != "/"
    ensures IsPlain(GenerateSimpleZipName(host, dir))
  {
    var zip := GenerateSimpleZipName(host, dir);
    SimpleZipNameShape(host, dir);
    var stem := zip[..|zip| - 4];
    assert zip == stem + ".zip";
    assert stem == Base(AbsOr(host, dir));
    assert '/' !in ".zip";
  }

  /** The executor's parallelism: the number of units, capped at the load. */
  function ParallelFor(count: nat, load: int): (p: int)
    ensures p <= count && p <= load
    ensures p == count || p == load
  {
    if count > load then load else count
  }

  /** The compression options every unit of a run shares. */
  function CompressOptionsFor(s: Settings): CompressOptions
  {
    CompressOptions(s.depth, s.includeHidden, 6)
  }

  /** `u` is the unit RunCompressUpload appends for `dir`: the directory, its simple archive
      name, the remote save path of that archive, the run's options and the shared statistic. */
  predicate Describes(u: CompressUploadTaskUnit, host: Host, savePath: Path, s: Settings, dir: Path,
                      statistic: CompressStatistic)
  {
    var zip := GenerateSimpleZipName(host, dir);
    && u.SourcePath == dir && u.TargetZipPath == zip && u.SavePath == RemoteSavePath(savePath, zip)
    && u.Parallel == s.parallel && u.MaxRetry == s.maxRetry && u.Policy == s.policy
    && u.NoRapidUpload == s.noRapidUpload && u.DeleteAfterUpload == s.deleteAfterUpload
    && u.CompressOpts == Some(CompressOptionsFor(s)) && u.Statistic == Some(statistic)
  }

  /** `units` are the units for `dirs`, one per directory, in order. */
  predicate Built(units: seq<CompressUploadTaskUnit>, host: Host, savePath: Path, s: Settings, dirs: seq<Path>,
                  statistic: CompressStatistic)
  {
    && |units| == |dirs|
    && forall j {:trigger Describes(units[j], host, savePath, s, dirs[j], statistic)} :: 0 <= j < |units| ==>
         Describes(units[j], host, savePath, s, dirs[j], statistic)
  }

  /** What RunCompressUpload hands to the task executor: nothing for an empty path list,
      nothing when no directory qualified, else the units (each retried up to its MaxRetry
      times), the executor's parallelism and the statistic they share. */
  datatype Launch =
    | NoLocalPaths
    | NothingToUpload
    | Launched(units: seq<CompressUploadTaskUnit>, parallel: int, statistic: CompressStatistic)

  lemma BuiltAppend(units: seq<CompressUploadTaskUnit>, more: seq<CompressUploadTaskUnit>, host: Host, savePath: Path,
                    s: Settings, dirs: seq<Path>, moreDirs: seq<Path>, statistic: CompressStatistic)
    requires Built(units, host, savePath, s, dirs, statistic) && Built(more, host, savePath, s, moreDirs, statistic)
    ensures Built(units + more, host, savePath, s, dirs + moreDirs, statistic)
  {
    forall j | 0 <= j < |units| + |more|
      ensures Describes((units + more)[j], host, savePath, s, (dirs + moreDirs)[j], statistic)
    {
      if j >= |units| {
        assert (units + more)[j] == more[j - |units|] && (dirs + moreDirs)[j] == moreDirs[j - |units|];
      }
    }
  }

  /** The body of RunCompressUpload's inner loop for the directory at `k`: a unit for it
      when its path is legal, with the loop's invariant before and after. */
  method UnitStep(dirs: seq<Path>, k: nat, host: Host, savePath: Path, s: Settings, legal: Path -> bool,
                  statistic: CompressStatistic, units: seq<CompressUploadTaskUnit>)
    returns (units': seq<CompressUploadTaskUnit>)
    requires k < |dirs|
    requires Built(units, host, savePath, s, Kept(legal, dirs[..k]), statistic)
    requires forall j :: 0 <= j < |units| ==> units[j].compressResult == None
    ensures Built(units', host, savePath, s, Kept(legal, dirs[..k + 1]), statistic)
    ensures forall j :: 0 <= j < |units'| ==> units'[j].compressResult == None
    ensures forall j :: 0 <= j < |units'| ==> units'[j] in units || fresh(units'[j])
  {
    var dirPath := dirs[k];
    var zipPath := GenerateSimpleZipName(host, dirPath);
    KeptSnoc(legal, dirs, k);
    units' := units;
    if legal(dirPath) {
      var targetSavePath := Clean(savePath + "/" + Base(zipPath));
      var unit := new CompressUploadTaskUnit(dirPath, zipPath, targetSavePath, s.parallel, s.maxRetry,
                                             s.policy, s.noRapidUpload, s.deleteAfterUpload,
                                             Some(CompressOptionsFor(s)), Some(statistic));
      BuiltAppend(units, [unit], host, savePath, s, Kept(legal, dirs[..k]), [dirPath], statistic);
      units' := units + [unit];
    }
  }

  /** The inner loop of RunCompressUpload over one path's directories: a unit for every
      directory whose path the `legal` test accepts. */
  method UnitsFor(dirs: seq<Path>, host: Host, savePath: Path, s: Settings, legal: Path -> bool,
                  statistic: CompressStatistic)
    returns (units: seq<CompressUploadTaskUnit>)
    ensures Built(units, host, savePath, s, Kept(legal, dirs), statistic)
    ensures forall j :: 0 <= j < |units| ==> fresh(units[j]) && units[j].compressResult == None
  {
    units := [];
    var k := 0;
    while k < |dirs|
      invariant 0 <= k <= |dirs|
      invariant Built(units, host, savePath, s, Kept(legal, dirs[..k]), statistic)
      invariant forall j :: 0 <= j < |units| ==> fresh(units[j]) && units[j].compressResult == None
    {
      units := UnitStep(dirs, k, host, savePath, s, legal, statistic, units);
      k := k + 1;
    }
    assert dirs[..|dirs|] == dirs;
  }

  /** RunCompressUpload up to the executor's start: fills in the option defaults, then builds
      one unit per directory the depth selects whose path the `legal` test accepts, and caps
      the parallelism at the load.  `savePath` is the save path after its shell pattern was
      resolved. */
  method RunCompressUpload(localPaths: seq<Path>, savePath: Path, opt: CompressUploadOptions?, config: Config,
                           names: PolicyNames, host: Host, legal: Path -> bool, now: int)
    returns (launch: Launch)
    modifies opt
    ensures opt != null ==> opt.Value() == Defaults(old(opt.Value()), config, names)
    ensures localPaths == [] ==> launch == NoLocalPaths
    ensures localPaths != [] ==>
      var s := Defaults(if opt == null then ZeroSettings else old(opt.Value()), config, names);
      var dirs := Selected(CandidatesAt(host, s.depth), legal, localPaths);
      && (dirs == [] <==> launch == NothingToUpload)
      && (dirs != [] ==>
            && launch.Launched?
            && Built(launch.units, host, savePath, s, dirs, launch.statistic)
            && launch.parallel == ParallelFor(|dirs|, s.load)
            && fresh(launch.statistic) && launch.statistic.startTime == now
            && launch.statistic.totalSize == 0 && launch.statistic.compressedSize == 0
            && launch.statistic.fileCount == 0
            && forall j :: 0 <= j < |dirs| ==> fresh(launch.units[j]) && launch.units[j].compressResult == None)
  {
    var o := opt;
    if o == null {
      o := new CompressUploadOptions(ZeroSettings);
    }
    o.ApplyDefaults(config, names);
    if |localPaths| == 0 {
      return NoLocalPaths;
    }
    var statistic := new CompressStatistic(now);
    var s := o.Value();
    var units: seq<CompressUploadTaskUnit> := [];
    var i := 0;
    while i < |localPaths|
      invariant 0 <= i <= |localPaths|
      invariant o.Value() == s
      invariant Built(units, host, savePath, s, Selected(CandidatesAt(host, s.depth), legal, localPaths[..i]), statistic)
      invariant forall j :: 0 <= j < |units| ==> fresh(units[j]) && units[j].compressResult == None
      invariant statistic.startTime == now && statistic.totalSize == 0
      invariant statistic.compressedSize == 0 && statistic.fileCount == 0
    {
      var dirs := DirectoriesToCompress(host, localPaths[i], s.depth);
      var added := UnitsFor(dirs, host, savePath, s, legal, statistic);
      BuiltAppend(units, added, host, savePath, s, Selected(CandidatesAt(host, s.depth), legal, localPaths[..i]),
                  Kept(legal, dirs), statistic);
      SelectedSnoc(CandidatesAt(host, s.depth), legal, localPaths, i);
      units := units + added;
      i := i + 1;
    }
    assert localPaths[..|localPaths|] == localPaths;
    if |units| == 0 {
      return NothingToUpload;
    }
    var parallel := if |units| > s.load then s.load else |units|;
    launch := Launched(units, parallel, statistic);
  }

  // ---------------------------------------------------------------------------------
  // Compress only

  /** The archive path of `dir` in compress-only mode: its simple name, inside the output
      directory when one is given. */
  function OnlyTarget(host: Host, outputDir: Path, dir: Path): Path
  {
    var zipName := GenerateSimpleZipName(host, dir);
    if outputDir != "" then Join(outputDir, zipName) else zipName
  }

  /** With an output directory, the archive of a directory whose base name is not "/" lies
      directly inside the cleaned output directory under its simple name. */
  lemma OnlyTargetInOutputDir(host: Host, outputDir: Path, dir: Path)
    requires outputDir != "" && Base(AbsOr(host, dir)) != "/"
    ensures var zip := GenerateSimpleZipName(host, dir);
      OnlyTarget(host, outputDir, dir) == AppendName(Clean(outputDir), zip) && Base(OnlyTarget(host, outputDir, dir)) == zip
  {
    var zip := GenerateSimpleZipName(host, dir);
    ZipNameIsPlain(host, dir);
    CleanAppend(outputDir, zip);
    BaseAppendName(Clean(outputDir), zip);
  }

  /** The directories the compress-only queue accepts: AddTask takes a directory exactly
      when it and its archive path have an absolute form. */
  function Accepts(host: Host, outputDir: Path): Path -> bool
  {
    dir => host.abs(dir).Some? && host.abs(OnlyTarget(host, outputDir, dir)).Some?
  }

  /** `items` are the queue items for `dirs`, one per directory in order, each on its
      compress-only archive path. */
  predicate QueuedAll(items: seq<QueueItem>, host: Host, outputDir: Path, opts: CompressOptions, dirs: seq<Path>)
  {
    && |items| == |dirs|
    && forall j {:trigger Queued(items[j], host, dirs[j], OnlyTarget(host, outputDir, dirs[j]), Some(opts))} ::
         0 <= j < |items| ==> Queued(items[j], host, dirs[j], OnlyTarget(host, outputDir, dirs[j]), Some(opts))
  }

  /** The counters of tasks that never ran. */
  function Zeros(n: nat): (r: seq<Counters>)
    ensures |r| == n && forall j :: 0 <= j < n ==> r[j] == Counters(0, 0, [], 0, 0)
  {
    seq(n, _ => Counters(0, 0, [], 0, 0))
  }

  lemma UnstartedZeros(items: seq<QueueItem>)
    requires forall j :: 0 <= j < |items| ==> Unstarted(items[j].task)
    ensures CountersOfAll(items) == Zeros(|items|)
  {
  }

  lemma QueuedAllAppend(items: seq<QueueItem>, more: seq<QueueItem>, host: Host, outputDir: Path, opts: CompressOptions,
                        dirs: seq<Path>, moreDirs: seq<Path>)
    requires QueuedAll(items, host, outputDir, opts, dirs) && QueuedAll(more, host, outputDir, opts, moreDirs)
    ensures QueuedAll(items + more, host, outputDir, opts, dirs + moreDirs)
  {
    forall j | 0 <= j < |items| + |more|
      ensures Queued((items + more)[j], host, (dirs + moreDirs)[j], OnlyTarget(host, outputDir, (dirs + moreDirs)[j]), Some(opts))
    {
      if j >= |items| {
        assert (items + more)[j] == more[j - |items|] && (dirs + moreDirs)[j] == moreDirs[j - |items|];
      }
    }
  }

  /** One turn of RunCompressOnly's inner loop: AddTask for `dirPath` on its compress-only
      archive path.  `item` is the item it queued, None when AddTask rejected the directory. */
  method QueueOne(queue: CompressQueue, dirPath: Path, host: Host, outputDir: Path, opts: CompressOptions)
    returns (ghost item: Option<QueueItem>)
    requires queue.Valid()
    modifies queue`items
    ensures queue.Valid()
    ensures item.Some? <==> Accepts(host, outputDir)(dirPath)
    ensures item.None? ==> queue.items == old(queue.items)
    ensures item.Some? ==>
      && queue.items == old(queue.items) + [item.value]
      && fresh(item.value.task) && Unstarted(item.value.task)
      && Queued(item.value, host, dirPath, OnlyTarget(host, outputDir, dirPath), Some(opts))
  {
    var zipName := GenerateSimpleZipName(host, dirPath);
    var zipPath := if outputDir != "" then Join(outputDir, zipName) else zipName;
    assert zipPath == OnlyTarget(host, outputDir, dirPath) && zipPath != "";
    var err := queue.AddTask(dirPath, zipPath, Some(opts), host);
    if err.None? {
      item := Some(queue.items[|old(queue.items)|]);
    } else {
      item := None;
    }
  }

  /** The body of RunCompressOnly's inner loop for the directory at `k`, with the loop's
      invariant before and after. */
  method QueueStep(queue: CompressQueue, dirs: seq<Path>, k: nat, host: Host, outputDir: Path, opts: CompressOptions,
                   ghost items0: seq<QueueItem>, ghost added: seq<QueueItem>)
    returns (ghost added': seq<QueueItem>)
    requires k < |dirs|
    requires queue.Valid() && queue.items == items0 + added
    requires QueuedAll(added, host, outputDir, opts, Kept(Accepts(host, outputDir), dirs[..k]))
    requires forall j :: 0 <= j < |added| ==> Unstarted(added[j].task)
    modifies queue`items
    ensures queue.Valid() && queue.items == items0 + added'
    ensures QueuedAll(added', host, outputDir, opts, Kept(Accepts(host, outputDir), dirs[..k + 1]))
    ensures forall j :: 0 <= j < |added'| ==> Unstarted(added'[j].task)
    ensures forall j :: 0 <= j < |added'| ==> added'[j] in added || fresh(added'[j].task)
  {
    ghost var accept := Accepts(host, outputDir);
    KeptSnoc(accept, dirs, k);
    ghost var item := QueueOne(queue, dirs[k], host, outputDir, opts);
    if item.Some? {
      QueuedAllAppend(added, [item.value], host, outputDir, opts, Kept(accept, dirs[..k]), [dirs[k]]);
      AppendAssoc(items0, added, [item.value]);
      added' := added + [item.value];
    } else {
      added' := added;
    }
  }

  /** The inner loop of RunCompressOnly over one path's directories: AddTask for each on its
      compress-only archive path, a rejected one skipped.  `added` are the items it queued. */
  method QueueDirectories(queue: CompressQueue, dirs: seq<Path>, host: Host, outputDir: Path, opts: CompressOptions)
    returns (ghost added: seq<QueueItem>)
    requires queue.Valid()
    modifies queue`items
    ensures queue.Valid() && queue.items == old(queue.items) + added
    ensures QueuedAll(added, host, outputDir, opts, Kept(Accepts(host, outputDir), dirs))
    ensures forall j :: 0 <= j < |added| ==> fresh(added[j].task) && Unstarted(added[j].task)
  {
    ghost var accept := Accepts(host, outputDir);
    added := [];
    var k := 0;
    while k < |dirs|
      invariant 0 <= k <= |dirs|
      invariant queue.Valid() && queue.items == old(queue.items) + added
      invariant QueuedAll(added, host, outputDir, opts, Kept(accept, dirs[..k]))
      invariant forall j :: 0 <= j < |added| ==> fresh(added[j].task) && Unstarted(added[j].task)
    {
      added := QueueStep(queue, dirs, k, host, outputDir, opts, old(queue.items), added);
      k := k + 1;
    }
    assert dirs[..|dirs|] == dirs;
  }

  /** The outer loop of RunCompressOnly: the directories of each local path in turn. */
  method QueueSelected(queue: CompressQueue, localPaths: seq<Path>, host: Host, outputDir: Path, opts: CompressOptions,
                       depth: int)
    requires queue.Valid() && queue.items == []
    modifies queue`items
    ensures queue.Valid()
    ensures QueuedAll(queue.items, host, outputDir, opts, Selected(CandidatesAt(host, depth), Accepts(host, outputDir), localPaths))
    ensures forall j :: 0 <= j < |queue.items| ==> fresh(queue.items[j].task) && Unstarted(queue.items[j].task)
  {
    ghost var accept := Accepts(host, outputDir);
    var i := 0;
    while i < |localPaths|
      invariant 0 <= i <= |localPaths|
      invariant queue.Valid()
      invariant QueuedAll(queue.items, host, outputDir, opts, Selected(CandidatesAt(host, depth), accept, localPaths[..i]))
      invariant forall j :: 0 <= j < |queue.items| ==> fresh(queue.items[j].task) && Unstarted(queue.items[j].task)
    {
      var dirs := DirectoriesToCompress(host, localPaths[i], depth);
      ghost var items0 := queue.items;
      ghost var added := QueueDirectories(queue, dirs, host, outputDir, opts);
      QueuedAllAppend(items0, added, host, outputDir, opts, Selected(CandidatesAt(host, depth), accept, localPaths[..i]),
                      Kept(accept, dirs));
      SelectedSnoc(CandidatesAt(host, depth), accept, localPaths, i);
      i := i + 1;
    }
    assert localPaths[..|localPaths|] == localPaths;
  }

  /** How RunCompressOnly ends: an empty path list, no queued directory, or the hook points
      the queue's execution reached and the summary's tallies.  RunCompressOnly sets no
      OnQueueComplete hook, so the final QueueComplete calls nothing there. */
  datatype CompressOnlyEnd = OnlyNoLocalPaths | NothingToCompress | Compressed(events: seq<Event>, summary: Summary)

  /** RunCompressOnly: queues one task per selected directory on a one-slot queue (a
      directory AddTask rejects is skipped), then, when any was queued, executes the queue
      with nobody stopping or pausing it and tallies the summary.  `queued` are the items as
      they were queued. */
  method RunCompressOnly(localPaths: seq<Path>, outputDir: Path, opt: CompressUploadOptions?, host: Host,
                         disk: LocalDisk)
    returns (end: CompressOnlyEnd, queue: CompressQueue?, ghost queued: seq<QueueItem>, ghost outs: seq<Outcome>)
    modifies disk
    ensures localPaths == [] ==> end == OnlyNoLocalPaths && queue == null && disk.archives == old(disk.archives)
    ensures localPaths != [] ==>
      var s := if opt == null then ZeroSettings else opt.Value();
      var dirs := Selected(CandidatesAt(host, s.depth), Accepts(host, outputDir), localPaths);
      && queue != null && fresh(queue) && queue.maxConcurrent == 1
      && QueuedAll(queued, host, outputDir, CompressOptionsFor(s), dirs)
      && (dirs == [] ==> end == NothingToCompress && queue.items == [] && disk.archives == old(disk.archives))
      && (dirs != [] ==>
            && Performed(queued, Zeros(|queued|), host, outs)
            && end == Compressed(Events((|dirs|, Finished)), Tally(queue.items))
            && queue.status == Idle
            && Ran(queued, queue.items, outs, |dirs|)
            && disk.archives == Archives(old(disk.archives), queued, outs))
  {
    if |localPaths| == 0 {
      return OnlyNoLocalPaths, null, [], [];
    }
    var s := if opt == null then ZeroSettings else opt.Value();
    var compressOpts := CompressOptionsFor(s);
    queue := new CompressQueue(1);
    QueueSelected(queue, localPaths, host, outputDir, compressOpts, s.depth);
    queued := queue.items;
    if queue.Count() == 0 {
      return NothingToCompress, queue, queued, [];
    }
    var events;
    events, outs := ExecuteUninterrupted(queue, host, disk);
    var summary := queue.Summarize();
    end := Compressed(events, summary);
  }

  /** queue.Execute in compress-only mode, where no other caller holds the queue to stop or
      pause it: every queued task runs once from zero counters, in order. */
  method ExecuteUninterrupted(queue: CompressQueue, host: Host, disk: LocalDisk)
    returns (events: seq<Event>, ghost outs: seq<Outcome>)
    requires queue.Valid() && queue.status == Idle
    requires forall j :: 0 <= j < |queue.items| ==> Unstarted(queue.items[j].task)
    modifies queue, disk, queue.Tasks()
    ensures var n := |old(queue.items)|;
      && Performed(old(queue.items), Zeros(n), host, outs)
      && events == Events((n, Finished)) && queue.status == Idle
      && Ran(old(queue.items), queue.items, outs, n)
      && disk.archives == Archives(old(disk.archives), old(queue.items), outs)
  {
    ghost var items := queue.items;
    UnstartedZeros(items);
    NoSignalsRunAll(|items|);
    events := queue.Execute(host, disk, []);
    outs := Outcomes(items, Zeros(|items|), host);
    OutcomesPerformed(items, Zeros(|items|), host);
    assert items[..|items|] == items && outs[..|items|] == outs;
  }
}
