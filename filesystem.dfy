/** The outside world the core reads and writes: directory trees as `os.Stat` and
    `filepath.Walk` see them, the host services the core calls (absolute paths, free
    space, file creation, the clock's timestamp), and the local disk where archives are
    written and removed. */
module FileSystem {
  import opened Paths

  datatype Option<T> = None | Some(value: T)

  /** An operating-system error; `os.IsPermission` and `os.IsNotExist` classify it. */
  datatype FsError = Permission | NotExist | OtherFs(code: nat)

  /** How opening (`os.Open`) and copying (`io.Copy`) a regular file turn out. */
  datatype Access = Readable | OpenFailed(openErr: FsError) | CopyFailed(copyErr: FsError)

  /** A directory tree: the children of a directory in the lexical order in which the walk
      visits them; a directory whose listing fails carries the error. */
  datatype Node =
    | File(name: string, size: nat, access: Access)
    | Dir(name: string, children: seq<Node>, listing: Option<FsError>)

  /** What `os.Stat` (and `os.Lstat`) report for a path. */
  datatype StatResult = Found(node: Node) | StatFailed(err: FsError)

  /** The two numbers `syscall.Statfs` reports that the disk check multiplies. */
  datatype FreeSpace = FreeSpace(bavail: nat, bsize: nat)

  /** The host services: `os.Stat`, `filepath.Abs` (None when it fails), `syscall.Statfs`
      for the directory of a target (None when the query fails), `os.Create` (the error,
      or None when the file was created) and the current time formatted as in the unique
      archive name. */
  datatype Host = Host(
    stat: Path -> StatResult,
    abs: Path -> Option<Path>,
    free: Path -> Option<FreeSpace>,
    create: Path -> Option<FsError>,
    timestamp: string)

  // ---------------------------------------------------------------------------------
  // filepath.Walk

  /** One call of the walk's callback: the visited entry's path relative to the root as a
      list of names, its base name, and the entry itself (its listing error, if any, is
      the error the callback receives). */
  datatype Visit = Visit(rel: seq<string>, base: string, node: Node)

  /** When a callback answers SkipDir for a directory: the compression walks prune hidden
      directories; the sub-directory walk prunes directories deeper than `depth`. */
  datatype SkipRule = SkipHidden(includeHidden: bool) | SkipDeeper(depth: int)

  /** What `filepath.Rel(root, path)` gives for a visited entry. */
  function RelPath(rel: seq<string>): string
  {
    if rel == [] then "." else JoinSegs(rel)
  }

  /** The sub-directory walk's depth of an entry: separators in its relative path plus one. */
  function Level(rel: seq<string>): int
  {
    CountSep(RelPath(rel)) + 1
  }

  predicate SkipsDir(rule: SkipRule, rel: seq<string>, base: string)
  {
    match rule
    case SkipHidden(includeHidden) => !includeHidden && IsHidden(base)
    case SkipDeeper(depth) => RelPath(rel) != "." && depth > 0 && Level(rel) > depth
  }

  /** The callbacks `filepath.Walk` makes, in order: the entry itself, then (for a
      directory whose names could be read and that the callback did not skip) its
      children's walks.  The names are read before the callback runs, so a directory
      whose listing fails is visited once, with the error. */
  function Walk(n: Node, rel: seq<string>, base: string, rule: SkipRule): (vs: seq<Visit>)
    ensures |vs| >= 1 && vs[0] == Visit(rel, base, n)
    decreases n
  {
    if n.File? || n.listing.Some? || SkipsDir(rule, rel, base) then [Visit(rel, base, n)]
    else [Visit(rel, base, n)] + WalkChildren(n.children, rel, rule)
  }

  function WalkChildren(cs: seq<Node>, rel: seq<string>, rule: SkipRule): seq<Visit>
    decreases cs
  {
    if cs == [] then []
    else Walk(cs[0], rel + [cs[0].name], cs[0].name, rule) + WalkChildren(cs[1..], rel, rule)
  }

  /** The path the walk hands to its callback: the root as given, then `filepath.Join`
      with one name per level. */
  function WalkPath(root: Path, rel: seq<string>): Path
    decreases |rel|
  {
    if rel == [] then root else Join(WalkPath(root, rel[..|rel| - 1]), rel[|rel| - 1])
  }

  // ---------------------------------------------------------------------------------
  // The local disk

  /** A ZIP archive as the model keeps it: its entry names in order and the number of
      source bytes copied into it. */
  datatype Archive = Archive(entries: seq<Path>, bytes: nat)

  /** The archives present on the local disk, by path. */
  class LocalDisk {
    var archives: map<Path, Archive>

    constructor (initial: map<Path, Archive>)
      ensures archives == initial
    {
      archives := initial;
    }

    /** `os.Create` followed by writing the archive: the path now holds `a`. */
    method Put(p: Path, a: Archive)
      modifies this
      ensures archives == old(archives)[p := a]
    {
      archives := archives[p := a];
    }

    /** `os.Remove`: fails with a not-exist error when nothing is there. */
    method Remove(p: Path) returns (err: Option<FsError>)
      modifies this
      ensures archives == old(archives) - {p}
      ensures err == if p in old(archives) then None else Some(NotExist)
    {
      err := if p in archives then None else Some(NotExist);
      archives := archives - {p};
    }

    /** `os.Stat` on an archive path succeeds. */
    predicate Exists(p: Path)
      reads this
    {
      p in archives
    }
  }
}
