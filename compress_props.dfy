/** What the compression engine promises, stated against structural definitions of the
    tree (which entries are eligible, which directories can be listed) and proved about
    the callback folds over the walk trace. */
module CompressProps {
  import opened Paths
  import opened FileSystem
  import opened Compress

  // ---------------------------------------------------------------------------------
  // Structural definitions

  /** The hidden rule as both walks apply it. */
  predicate Excluded(includeHidden: bool, base: string)
  {
    !includeHidden && IsHidden(base)
  }

  /** Every directory a compression walk reaches can be listed; a hidden directory is
      reached too (its names are read before it is pruned), its subtree is not. */
  predicate Listable(n: Node, base: string, inc: bool)
    decreases n
  {
    match n
    case File(_, _, _) => true
    case Dir(_, cs, listing) => listing.None? && (Excluded(inc, base) || ChildrenListable(cs, inc))
  }

  predicate ChildrenListable(cs: seq<Node>, inc: bool)
    decreases cs
  {
    cs == [] || (Listable(cs[0], cs[0].name, inc) && ChildrenListable(cs[1..], inc))
  }

  /** The entries of a tree that belong in the archive, in walk order: a hidden entry is
      left out together with everything below it. */
  function Eligible(n: Node, rel: seq<string>, base: string, inc: bool): seq<Visit>
    decreases n
  {
    if Excluded(inc, base) then []
    else match n
      case File(_, _, _) => [Visit(rel, base, n)]
      case Dir(_, cs, listing) =>
        [Visit(rel, base, n)] + (if listing.Some? then [] else EligibleChildren(cs, rel, inc))
  }

  function EligibleChildren(cs: seq<Node>, rel: seq<string>, inc: bool): seq<Visit>
    decreases cs
  {
    if cs == [] then []
    else Eligible(cs[0], rel + [cs[0].name], cs[0].name, inc) + EligibleChildren(cs[1..], rel, inc)
  }

  /** The number of regular files among the visits. */
  function FileCount(vs: seq<Visit>): nat
  {
    if vs == [] then 0 else (if vs[0].node.File? then 1 else 0) + FileCount(vs[1..])
  }

  /** The sizes of the regular files among the visits, summed. */
  function FileSize(vs: seq<Visit>): nat
  {
    if vs == [] then 0 else (if vs[0].node.File? then vs[0].node.size else 0) + FileSize(vs[1..])
  }

  /** The number of files among the visits that can be opened and copied. */
  function ReadCount(vs: seq<Visit>): nat
  {
    if vs == [] then 0
    else (if vs[0].node.File? && vs[0].node.access.Readable? then 1 else 0) + ReadCount(vs[1..])
  }

  /** The sizes of the files among the visits that can be opened and copied, summed. */
  function ReadSize(vs: seq<Visit>): nat
  {
    if vs == [] then 0
    else (if vs[0].node.File? && vs[0].node.access.Readable? then vs[0].node.size else 0) + ReadSize(vs[1..])
  }

  /** No file among the visits fails in a way that stops the packaging walk: each one is
      either copied or skipped for lack of permission. */
  predicate Copyable(vs: seq<Visit>)
  {
    vs == [] ||
    ((vs[0].node.File? ==> vs[0].node.access.Readable? || vs[0].node.access == OpenFailed(Permission)) &&
     Copyable(vs[1..]))
  }

  /** The archive entries written for the visits: a directory's name ends in '/'. */
  function EntryNames(nameOf: seq<string> -> Path, vs: seq<Visit>): seq<Path>
  {
    if vs == [] then []
    else [nameOf(vs[0].rel) + (if vs[0].node.Dir? then "/" else "")] + EntryNames(nameOf, vs[1..])
  }

  lemma {:induction false} CountsAppend(a: seq<Visit>, b: seq<Visit>)
    ensures FileCount(a + b) == FileCount(a) + FileCount(b)
    ensures FileSize(a + b) == FileSize(a) + FileSize(b)
    decreases |a|
  {
    if a == [] {
      assert a + b == b;
    } else {
      assert (a + b)[0] == a[0];
      assert (a + b)[1..] == a[1..] + b;
      CountsAppend(a[1..], b);
    }
  }

  lemma {:induction false} ReadsAppend(a: seq<Visit>, b: seq<Visit>)
    ensures ReadCount(a + b) == ReadCount(a) + ReadCount(b)
    ensures ReadSize(a + b) == ReadSize(a) + ReadSize(b)
    decreases |a|
  {
    if a == [] {
      assert a + b == b;
    } else {
      assert (a + b)[0] == a[0];
      assert (a + b)[1..] == a[1..] + b;
      ReadsAppend(a[1..], b);
    }
  }

  lemma {:induction false} NamesAppend(a: seq<Visit>, b: seq<Visit>, nameOf: seq<string> -> Path)
    ensures EntryNames(nameOf, a + b) == EntryNames(nameOf, a) + EntryNames(nameOf, b)
    decreases |a|
  {
    if a == [] {
      assert a + b == b;
    } else {
      assert (a + b)[0] == a[0];
      assert (a + b)[1..] == a[1..] + b;
      NamesAppend(a[1..], b, nameOf);
    }
  }

  lemma {:induction false} CopyableAppend(a: seq<Visit>, b: seq<Visit>)
    ensures Copyable(a + b) <==> Copyable(a) && Copyable(b)
    decreases |a|
  {
    if a == [] {
      assert a + b == b;
    } else {
      assert (a + b)[0] == a[0];
      assert (a + b)[1..] == a[1..] + b;
      CopyableAppend(a[1..], b);
    }
  }

  // ---------------------------------------------------------------------------------
  // The folds over a concatenated trace

  lemma {:induction false} ScanAppend(st: ScanState, a: seq<Visit>, b: seq<Visit>, inc: bool)
    ensures ScanFrom(st, a + b, inc) == ScanFrom(ScanFrom(st, a, inc), b, inc)
    decreases |a|
  {
    if a == [] {
      assert a + b == b;
    } else {
      assert (a + b)[0] == a[0];
      assert (a + b)[1..] == a[1..] + b;
      ScanAppend(ScanStep(st, a[0], inc), a[1..], b, inc);
    }
  }

  lemma {:induction false} PackAppend(st: PackState, a: seq<Visit>, b: seq<Visit>, cx: PackContext)
    ensures PackFrom(st, a + b, cx) == PackFrom(PackFrom(st, a, cx), b, cx)
    decreases |a|
  {
    if a == [] {
      assert a + b == b;
    } else {
      assert (a + b)[0] == a[0];
      assert (a + b)[1..] == a[1..] + b;
      PackAppend(PackStep(st, a[0], cx), a[1..], b, cx);
    }
  }

  // ---------------------------------------------------------------------------------
  // The pre-scan

  /** countFiles: the walk stops with an error exactly when some directory it reaches
      cannot be listed; otherwise it adds the number of eligible files and their sizes to
      the counters it started from, and directories add nothing. */
  lemma {:induction false} ScanWalk(n: Node, rel: seq<string>, base: string, inc: bool, st: ScanState)
    requires st.err.None?
    ensures var r := ScanFrom(st, Walk(n, rel, base, SkipHidden(inc)), inc);
      && (r.err.None? <==> Listable(n, base, inc))
      && (r.err.None? ==> r.files == st.files + FileCount(Eligible(n, rel, base, inc)) &&
                          r.size == st.size + FileSize(Eligible(n, rel, base, inc)))
    decreases n
  {
    var v := Visit(rel, base, n);
    var st1 := ScanStep(st, v, inc);
    var vs := Walk(n, rel, base, SkipHidden(inc));
    assert vs[0] == v;
    assert ScanFrom(st, vs, inc) == ScanFrom(st1, vs[1..], inc);
    if n.File? || n.listing.Some? || SkipsDir(SkipHidden(inc), rel, base) {
      assert vs[1..] == [];
      if !Excluded(inc, base) {
        assert Eligible(n, rel, base, inc) == [v];
        assert [v][1..] == [];
        assert FileCount([v]) == (if n.File? then 1 else 0);
        assert FileSize([v]) == (if n.File? then n.size else 0);
      }
    } else {
      var cs := n.children;
      assert vs[1..] == WalkChildren(cs, rel, SkipHidden(inc));
      ScanWalkChildren(cs, rel, inc, st1);
      var e := Eligible(n, rel, base, inc);
      assert e == [v] + EligibleChildren(cs, rel, inc);
      assert e[0] == v && e[1..] == EligibleChildren(cs, rel, inc);
    }
  }

  lemma {:induction false} ScanWalkChildren(cs: seq<Node>, rel: seq<string>, inc: bool, st: ScanState)
    requires st.err.None?
    ensures var r := ScanFrom(st, WalkChildren(cs, rel, SkipHidden(inc)), inc);
      && (r.err.None? <==> ChildrenListable(cs, inc))
      && (r.err.None? ==> r.files == st.files + FileCount(EligibleChildren(cs, rel, inc)) &&
                          r.size == st.size + FileSize(EligibleChildren(cs, rel, inc)))
    decreases cs
  {
    if cs != [] {
      var c := cs[0];
      var a := Walk(c, rel + [c.name], c.name, SkipHidden(inc));
      var b := WalkChildren(cs[1..], rel, SkipHidden(inc));
      ScanAppend(st, a, b, inc);
      ScanWalk(c, rel + [c.name], c.name, inc, st);
      var mid := ScanFrom(st, a, inc);
      if mid.err.Some? {
        ScanErrorStops(mid, b, inc);
      } else {
        ScanWalkChildren(cs[1..], rel, inc, mid);
        CountsAppend(Eligible(c, rel + [c.name], c.name, inc), EligibleChildren(cs[1..], rel, inc));
      }
    }
  }

  // ---------------------------------------------------------------------------------
  // The packaging walk

  /** The packaging walk stops with an error exactly when a reached directory cannot be
      listed or an eligible file fails other than by a permission error on opening;
      otherwise it writes one entry per eligible entry in walk order and counts exactly the
      copied files and their sizes (a permission-skipped file keeps its entry but is not
      counted). */
  lemma {:induction false} PackWalk(n: Node, rel: seq<string>, base: string, cx: PackContext, st: PackState)
    requires st.err.None?
    ensures var r := PackFrom(st, Walk(n, rel, base, SkipHidden(cx.includeHidden)), cx);
      var e := Eligible(n, rel, base, cx.includeHidden);
      && (r.err.None? <==> Listable(n, base, cx.includeHidden) && Copyable(e))
      && (r.err.None? ==> r.entries == st.entries + EntryNames(cx.entryName, e) &&
                          r.processed == st.processed + ReadCount(e) &&
                          r.compressed == st.compressed + ReadSize(e))
    decreases n
  {
    var inc := cx.includeHidden;
    var v := Visit(rel, base, n);
    var vs := Walk(n, rel, base, SkipHidden(inc));
    PackFromFirst(st, vs, cx);
    if n.File? || n.listing.Some? || SkipsDir(SkipHidden(inc), rel, base) {
      assert vs == [v];
      if n.Dir? && n.listing.Some? {
        PackUnlistable(st, v, cx);
      } else if Excluded(inc, base) {
        PackHidden(st, v, cx);
      } else {
        assert Eligible(n, rel, base, inc) == [v];
        PackLeaf(st, v, cx);
      }
    } else {
      var cs := n.children;
      var rest := WalkChildren(cs, rel, SkipHidden(inc));
      assert vs == [v] + rest;
      PackDir(st, v, cx);
      PackWalkChildren(cs, rel, cx, PackStep(st, v, cx));
      var ec := EligibleChildren(cs, rel, inc);
      assert Eligible(n, rel, base, inc) == [v] + ec;
      PackJoin(st, [v], rest, cx, true, [v], ChildrenListable(cs, inc), ec);
    }
  }

  /** Two consecutive parts of a packaging walk, each summarised by whether it succeeds and
      by the eligible entries it writes: the whole succeeds when both parts do, and then
      writes and counts the entries of the first part followed by those of the second. */
  lemma PackJoin(st: PackState, a: seq<Visit>, b: seq<Visit>, cx: PackContext,
                 okA: bool, eA: seq<Visit>, okB: bool, eB: seq<Visit>)
    requires st.err.None?
    requires var m := PackFrom(st, a, cx);
      && (m.err.None? <==> okA && Copyable(eA))
      && (m.err.None? ==> m.entries == st.entries + EntryNames(cx.entryName, eA) &&
                          m.processed == st.processed + ReadCount(eA) &&
                          m.compressed == st.compressed + ReadSize(eA))
    requires var m := PackFrom(st, a, cx);
      var r := PackFrom(m, b, cx);
      m.err.None? ==>
        && (r.err.None? <==> okB && Copyable(eB))
        && (r.err.None? ==> r.entries == m.entries + EntryNames(cx.entryName, eB) &&
                            r.processed == m.processed + ReadCount(eB) &&
                            r.compressed == m.compressed + ReadSize(eB))
    ensures var r := PackFrom(st, a + b, cx);
      && (r.err.None? <==> okA && okB && Copyable(eA + eB))
      && (r.err.None? ==> r.entries == st.entries + EntryNames(cx.entryName, eA + eB) &&
                          r.processed == st.processed + ReadCount(eA + eB) &&
                          r.compressed == st.compressed + ReadSize(eA + eB))
  {
    var m := PackFrom(st, a, cx);
    PackAppend(st, a, b, cx);
    if m.err.Some? {
      PackErrorStops(m, b, cx);
    }
    SummariesJoin(st, m, PackFrom(m, b, cx), cx.entryName, okA, eA, okB, eB);
  }

  /** The packaging state `r`, reached from `st`, is what a part of the walk that succeeds
      when `ok` holds and its entries `e` are copyable leaves: the entries of `e` written
      and the copied files counted. */
  predicate Summarises(st: PackState, r: PackState, ok: bool, e: seq<Visit>, nameOf: seq<string> -> Path)
  {
    && (r.err.None? <==> ok && Copyable(e))
    && (r.err.None? ==> r.entries == st.entries + EntryNames(nameOf, e) &&
                        r.processed == st.processed + ReadCount(e) &&
                        r.compressed == st.compressed + ReadSize(e))
  }

  lemma SummariesJoin(st: PackState, m: PackState, r: PackState, nameOf: seq<string> -> Path,
                      okA: bool, eA: seq<Visit>, okB: bool, eB: seq<Visit>)
    requires Summarises(st, m, okA, eA, nameOf)
    requires m.err.None? ==> Summarises(m, r, okB, eB, nameOf)
    requires m.err.Some? ==> r == m
    ensures Summarises(st, r, okA && okB, eA + eB, nameOf)
  {
    CopyableAppend(eA, eB);
    if m.err.None? {
      ReadsAppend(eA, eB);
      NamesAppend(eA, eB, nameOf);
    }
  }

  /** A directory that cannot be listed stops the walk, hidden or not. */
  lemma PackUnlistable(st: PackState, v: Visit, cx: PackContext)
    requires st.err.None? && v.node.Dir? && v.node.listing.Some?
    ensures PackStep(st, v, cx).err.Some?
  {
  }

  /** A hidden entry, with hidden entries excluded, changes nothing. */
  lemma PackHidden(st: PackState, v: Visit, cx: PackContext)
    requires st.err.None? && Excluded(cx.includeHidden, v.base)
    requires v.node.File? || v.node.listing.None?
    ensures PackStep(st, v, cx) == st
  {
  }

  /** One packaging step for a listable directory that is not hidden: its entry only. */
  lemma PackDir(st: PackState, v: Visit, cx: PackContext)
    requires st.err.None? && !Excluded(cx.includeHidden, v.base)
    requires v.node.Dir? && v.node.listing.None?
    ensures PackStep(st, v, cx) == st.(entries := st.entries + EntryNames(cx.entryName, [v]))
    ensures ReadCount([v]) == 0 && ReadSize([v]) == 0 && Copyable([v])
  {
    assert [v][1..] == [];
    assert [v][0] == v;
  }

  /** One packaging step for a file or an unlistable directory that is not hidden. */
  lemma PackLeaf(st: PackState, v: Visit, cx: PackContext)
    requires st.err.None? && !Excluded(cx.includeHidden, v.base)
    requires v.node.File? || v.node.listing.Some?
    ensures var r := PackStep(st, v, cx);
      && (r.err.None? <==> v.node.File? && Copyable([v]))
      && (r.err.None? ==> r.entries == st.entries + EntryNames(cx.entryName, [v]) &&
                          r.processed == st.processed + ReadCount([v]) &&
                          r.compressed == st.compressed + ReadSize([v]))
  {
    assert [v][1..] == [];
    assert [v][0] == v;
    if v.node.File? {
      assert cx.entryName(v.rel) + "" == cx.entryName(v.rel);
      assert EntryNames(cx.entryName, [v]) == [cx.entryName(v.rel)];
      assert Copyable([v]) <==> v.node.access.Readable? || v.node.access == OpenFailed(Permission);
    }
  }

  lemma {:induction false} PackWalkChildren(cs: seq<Node>, rel: seq<string>, cx: PackContext, st: PackState)
    requires st.err.None?
    ensures var r := PackFrom(st, WalkChildren(cs, rel, SkipHidden(cx.includeHidden)), cx);
      var e := EligibleChildren(cs, rel, cx.includeHidden);
      && (r.err.None? <==> ChildrenListable(cs, cx.includeHidden) && Copyable(e))
      && (r.err.None? ==> r.entries == st.entries + EntryNames(cx.entryName, e) &&
                          r.processed == st.processed + ReadCount(e) &&
                          r.compressed == st.compressed + ReadSize(e))
    decreases cs
  {
    var inc := cx.includeHidden;
    if cs != [] {
      var c := cs[0];
      var a := Walk(c, rel + [c.name], c.name, SkipHidden(inc));
      var b := WalkChildren(cs[1..], rel, SkipHidden(inc));
      var e0 := Eligible(c, rel + [c.name], c.name, inc);
      var e1 := EligibleChildren(cs[1..], rel, inc);
      PackWalk(c, rel + [c.name], c.name, cx, st);
      var mid := PackFrom(st, a, cx);
      if mid.err.None? {
        PackWalkChildren(cs[1..], rel, cx, mid);
      }
      PackJoin(st, a, b, cx, Listable(c, c.name, inc), e0, ChildrenListable(cs[1..], inc), e1);
    }
  }

  /** The progress reports of a packaging walk so far: the k-th report carries k as the
      processed count and the task's total, compressed sizes never decrease, and the last
      report matches the running counters. */
  predicate ProgressConsistent(st: PackState, total: int)
  {
    && st.compressed >= 0
    && |st.updates| == st.processed
    && (forall i :: 0 <= i < |st.updates| ==>
          st.updates[i].processed == i + 1 && st.updates[i].total == total &&
          0 <= st.updates[i].compressed <= st.compressed)
    && (forall i, j :: 0 <= i < j < |st.updates| ==> st.updates[i].compressed <= st.updates[j].compressed)
    && (st.updates != [] ==> st.updates[|st.updates| - 1].compressed == st.compressed)
  }

  lemma PackStepProgress(st: PackState, v: Visit, cx: PackContext)
    requires ProgressConsistent(st, cx.total)
    ensures var r := PackStep(st, v, cx);
      && ProgressConsistent(r, cx.total)
      && st.updates <= r.updates && st.entries <= r.entries
      && st.processed <= r.processed && st.compressed <= r.compressed
  {
  }

  /** Along the packaging walk the counters only grow, the entries and reports written
      are never taken back, and the reports stay consistent with the counters. */
  lemma {:induction false} PackProgress(st: PackState, vs: seq<Visit>, cx: PackContext)
    requires ProgressConsistent(st, cx.total)
    ensures var r := PackFrom(st, vs, cx);
      && ProgressConsistent(r, cx.total)
      && st.updates <= r.updates && st.entries <= r.entries
      && st.processed <= r.processed && st.compressed <= r.compressed
    decreases |vs|
  {
    if vs != [] {
      PackStepProgress(st, vs[0], cx);
      PackProgress(PackStep(st, vs[0], cx), vs[1..], cx);
    }
  }

  // ---------------------------------------------------------------------------------
  // The hidden rule

  /** With hidden entries excluded, no eligible entry is hidden and neither is any
      directory on its way down from where the walk started. */
  lemma {:induction false} EligibleNotHidden(n: Node, rel: seq<string>, base: string)
    ensures forall v :: v in Eligible(n, rel, base, false) ==>
      && !IsHidden(v.base)
      && |rel| <= |v.rel| && v.rel[..|rel|] == rel
      && (forall i :: |rel| <= i < |v.rel| ==> !IsHidden(v.rel[i]))
    decreases n
  {
    if !Excluded(false, base) && n.Dir? && n.listing.None? {
      EligibleChildrenNotHidden(n.children, rel);
    }
  }

  lemma {:induction false} EligibleChildrenNotHidden(cs: seq<Node>, rel: seq<string>)
    ensures forall v :: v in EligibleChildren(cs, rel, false) ==>
      && !IsHidden(v.base)
      && |rel| < |v.rel| && v.rel[..|rel|] == rel
      && (forall i :: |rel| <= i < |v.rel| ==> !IsHidden(v.rel[i]))
    decreases cs
  {
    if cs != [] {
      var c := cs[0];
      var sub := rel + [c.name];
      EligibleNotHidden(c, sub, c.name);
      EligibleChildrenNotHidden(cs[1..], rel);
      forall v | v in Eligible(c, sub, c.name, false)
        ensures |rel| < |v.rel| && v.rel[..|rel|] == rel
        ensures forall i :: |rel| <= i < |v.rel| ==> !IsHidden(v.rel[i])
      {
        assert v.rel[..|sub|] == sub;
        assert v.rel[..|rel|] == v.rel[..|sub|][..|rel|];
        assert v.rel[|rel|] == sub[|rel|] == c.name;
        assert !IsHidden(c.name);
      }
    }
  }

  // ---------------------------------------------------------------------------------
  // A whole execution

  /** Whether every check Execute makes before packaging passes for a fresh scan:
      the source is a listable directory with eligible files, the disk has room and the
      archive can be created. */
  predicate ChecksPass(source: Path, target: Path, opts: CompressOptions, host: Host, files0: int, size0: int)
  {
    && host.stat(source).Found?
    && host.stat(source).node.Dir?
    && var e := Eligible(host.stat(source).node, [], Base(source), opts.includeHidden);
       && Listable(host.stat(source).node, Base(source), opts.includeHidden)
       && files0 + FileCount(e) != 0
       && DiskCheck(size0 + FileSize(e), host.free(target)).None?
       && host.create(target).None?
  }

  /** Execute once every check before packaging has passed: the counters hold the
      pre-scan's totals and the archive, reports and result come from the packaging walk. */
  lemma RunPacks(source: Path, target: Path, opts: CompressOptions, host: Host, files0: int, size0: int)
    requires ChecksPass(source, target, opts, host, files0, size0)
    ensures var root := host.stat(source).node;
      var e := Eligible(root, [], Base(source), opts.includeHidden);
      var cx := PackContextFor(source, opts.includeHidden, files0 + FileCount(e));
      var pack := PackFrom(PackState([], 0, 0, [], None), Walk(root, [], Base(source), SkipHidden(opts.includeHidden)), cx);
      var o := Run(source, target, opts, host, files0, size0);
      && o.files == files0 + FileCount(e) && o.size == size0 + FileSize(e)
      && o.updates == pack.updates
      && o.archive == Some(Archive(pack.entries, if pack.compressed >= 0 then pack.compressed else 0))
      && o.result.success == pack.err.None?
      && (pack.err.None? ==> o.result == CompressResult(true, source, target, o.files, o.size, pack.compressed, None))
      && (pack.err.Some? ==> o.result == FailedResult(source, target, CompressFailed(pack.err.value)))
  {
    var root := host.stat(source).node;
    var e := Eligible(root, [], Base(source), opts.includeHidden);
    var visits := Walk(root, [], Base(source), SkipHidden(opts.includeHidden));
    var scan := ScanFrom(ScanState(files0, size0, None), visits, opts.includeHidden);
    ScanWalk(root, [], Base(source), opts.includeHidden, ScanState(files0, size0, None));
    assert scan == ScanState(files0 + FileCount(e), size0 + FileSize(e), None);
  }

  /** Execute when some check before packaging fails: no archive, no report, a failed
      result with zero totals. */
  lemma RunStops(source: Path, target: Path, opts: CompressOptions, host: Host, files0: int, size0: int)
    requires !ChecksPass(source, target, opts, host, files0, size0)
    ensures var o := Run(source, target, opts, host, files0, size0);
      && o.archive.None? && o.updates == [] && !o.result.success && o.result.error.Some?
      && o.result.totalFiles == 0 && o.result.totalSize == 0 && o.result.compressedSize == 0
  {
    var o := Run(source, target, opts, host, files0, size0);
    if host.stat(source).Found? && host.stat(source).node.Dir? {
      var root := host.stat(source).node;
      var visits := Walk(root, [], Base(source), SkipHidden(opts.includeHidden));
      var scan := ScanFrom(ScanState(files0, size0, None), visits, opts.includeHidden);
      ScanWalk(root, [], Base(source), opts.includeHidden, ScanState(files0, size0, None));
      if scan.err.Some? {
        assert o == Stopped(source, target, ScanFailed(Os(scan.err.value)), scan.files, scan.size);
      } else if scan.files == 0 {
        assert o == Stopped(source, target, EmptyDirectory, scan.files, scan.size);
      } else if DiskCheck(scan.size, host.free(target)).Some? {
        assert o == Stopped(source, target, DiskSpaceInsufficient, scan.files, scan.size);
      } else {
        assert o == Stopped(source, target, CreateError(host.create(target).value), scan.files, scan.size);
      }
    }
  }

  /** An archive is created exactly when every check before the creation passes; when
      Execute succeeds, which happens exactly when in addition every eligible file is
      either copied or skipped for lack of permission, the result reports the pre-scan's
      totals and the copied bytes, and the archive holds one entry per eligible entry in
      walk order. */
  lemma RunSpec(source: Path, target: Path, opts: CompressOptions, host: Host, files0: int, size0: int)
    ensures var o := Run(source, target, opts, host, files0, size0);
      && (o.archive.Some? <==> ChecksPass(source, target, opts, host, files0, size0))
      && (o.result.success <==>
            (ChecksPass(source, target, opts, host, files0, size0) &&
             Copyable(Eligible(host.stat(source).node, [], Base(source), opts.includeHidden))))
      && (o.result.success ==>
            var e := Eligible(host.stat(source).node, [], Base(source), opts.includeHidden);
            && o.result.error.None?
            && o.result.totalFiles == files0 + FileCount(e)
            && o.result.totalSize == size0 + FileSize(e)
            && o.result.compressedSize == ReadSize(e)
            && o.archive == Some(Archive(EntryNames(NameOf(source), e), ReadSize(e))))
      && (!o.result.success ==>
            (o.result.error.Some? &&
             o.result.totalFiles == 0 && o.result.totalSize == 0 && o.result.compressedSize == 0))
  {
    if ChecksPass(source, target, opts, host, files0, size0) {
      var root := host.stat(source).node;
      var e := Eligible(root, [], Base(source), opts.includeHidden);
      var cx := PackContextFor(source, opts.includeHidden, files0 + FileCount(e));
      var visits := Walk(root, [], Base(source), SkipHidden(opts.includeHidden));
      var pack := PackFrom(PackState([], 0, 0, [], None), visits, cx);
      RunPacks(source, target, opts, host, files0, size0);
      PackWalk(root, [], Base(source), cx, PackState([], 0, 0, [], None));
      if pack.err.None? {
        assert [] + EntryNames(NameOf(source), e) == EntryNames(NameOf(source), e);
        assert pack.entries == EntryNames(NameOf(source), e);
        assert pack.compressed == ReadSize(e);
      }
    } else {
      RunStops(source, target, opts, host, files0, size0);
    }
  }

  /** A failed stat of the source, or a source that is a file, ends Execute first: a failed
      stat is reported as permission denied, as a missing source or as the OS error itself. */
  lemma RunStatFailure(source: Path, target: Path, opts: CompressOptions, host: Host, files0: int, size0: int)
    ensures var o := Run(source, target, opts, host, files0, size0);
      var st := host.stat(source);
      && (st.StatFailed? && st.err == Permission ==> o.result.error == Some(PermissionDenied))
      && (st.StatFailed? && st.err == NotExist ==> o.result.error == Some(SourceNotExist))
      && (st.StatFailed? && st.err.OtherFs? ==> o.result.error == Some(Os(st.err)))
      && (st.Found? && st.node.File? ==> o.result.error == Some(SourceNotDirectory))
  {
  }

  /** For a directory source the next failing check decides the error, in the order
      pre-scan, file count, disk space, creation; a failed creation is reported as
      permission denied or as a wrapped creation error. */
  lemma RunFirstFailure(source: Path, target: Path, opts: CompressOptions, host: Host, files0: int, size0: int)
    requires host.stat(source).Found? && host.stat(source).node.Dir?
    ensures var o := Run(source, target, opts, host, files0, size0);
      var root := host.stat(source).node;
      var inc := opts.includeHidden;
      var e := Eligible(root, [], Base(source), inc);
      var free := host.free(target);
      && (!Listable(root, Base(source), inc) ==> o.result.error.Some? && o.result.error.value.ScanFailed?)
      && (Listable(root, Base(source), inc) && files0 + FileCount(e) == 0 ==>
            o.result.error == Some(EmptyDirectory))
      && (Listable(root, Base(source), inc) && files0 + FileCount(e) != 0 &&
          free.Some? && size0 + FileSize(e) > free.value.bavail * free.value.bsize ==>
            o.result.error == Some(DiskSpaceInsufficient))
      && (Listable(root, Base(source), inc) && files0 + FileCount(e) != 0 &&
          DiskCheck(size0 + FileSize(e), free).None? && host.create(target).Some? ==>
            o.result.error == Some(if host.create(target).value == Permission then PermissionDenied
                                   else CreateZipFailed(host.create(target).value)))
  {
    ScanWalk(host.stat(source).node, [], Base(source), opts.includeHidden, ScanState(files0, size0, None));
  }

  /** Every progress report of an execution carries the running count of copied files,
      1, 2, ..., and the task's total, with sizes that never decrease and a last report
      equal to the result's compressed size. */
  lemma RunProgress(source: Path, target: Path, opts: CompressOptions, host: Host, files0: int, size0: int)
    ensures var o := Run(source, target, opts, host, files0, size0);
      && (forall i :: 0 <= i < |o.updates| ==> o.updates[i].processed == i + 1 && o.updates[i].total == o.files)
      && (forall i, j :: 0 <= i < j < |o.updates| ==> o.updates[i].compressed <= o.updates[j].compressed)
      && (o.result.success && o.updates != [] ==> o.updates[|o.updates| - 1].compressed == o.result.compressedSize)
      && (o.result.success ==> |o.updates| == ReadCount(Eligible(host.stat(source).node, [], Base(source), opts.includeHidden)))
  {
    if ChecksPass(source, target, opts, host, files0, size0) {
      var root := host.stat(source).node;
      var e := Eligible(root, [], Base(source), opts.includeHidden);
      var cx := PackContextFor(source, opts.includeHidden, files0 + FileCount(e));
      var visits := Walk(root, [], Base(source), SkipHidden(opts.includeHidden));
      var pack := PackFrom(PackState([], 0, 0, [], None), visits, cx);
      var o := Run(source, target, opts, host, files0, size0);
      RunPacks(source, target, opts, host, files0, size0);
      PackProgress(PackState([], 0, 0, [], None), visits, cx);
      assert ProgressConsistent(pack, o.files) && o.updates == pack.updates;
      if o.result.success {
        PackWalk(root, [], Base(source), cx, PackState([], 0, 0, [], None));
        assert o.result.compressedSize == pack.compressed && pack.processed == ReadCount(e);
      }
    } else {
      RunStops(source, target, opts, host, files0, size0);
    }
  }

  /** A source whose own name is hidden, with hidden entries excluded, is pruned as a
      whole: a fresh task fails with the empty-directory error and creates no archive. */
  lemma HiddenRootIsEmpty(source: Path, target: Path, opts: CompressOptions, host: Host)
    requires host.stat(source).Found? && host.stat(source).node.Dir? && host.stat(source).node.listing.None?
    requires !opts.includeHidden && IsHidden(Base(source))
    ensures var o := Run(source, target, opts, host, 0, 0);
      o.result.error == Some(EmptyDirectory) && o.archive.None? && o.files == 0
  {
    var root := host.stat(source).node;
    var visits := Walk(root, [], Base(source), SkipHidden(false));
    assert visits == [Visit([], Base(source), root)];
    assert ScanFrom(ScanState(0, 0, None), visits, false) == ScanState(0, 0, None);
  }

  /** A task executed a second time counts its tree again on top of the first count: the
      pre-scan never resets TotalFiles and TotalSize. */
  lemma RerunAccumulates(source: Path, target: Path, opts: CompressOptions, host: Host)
    requires host.stat(source).Found? && host.stat(source).node.Dir?
    requires Listable(host.stat(source).node, Base(source), opts.includeHidden)
    ensures var first := Run(source, target, opts, host, 0, 0);
      var second := Run(source, target, opts, host, first.files, first.size);
      var e := Eligible(host.stat(source).node, [], Base(source), opts.includeHidden);
      && first.files == FileCount(e) && first.size == FileSize(e)
      && second.files == 2 * FileCount(e) && second.size == 2 * FileSize(e)
  {
    var root := host.stat(source).node;
    var inc := opts.includeHidden;
    ScanWalk(root, [], Base(source), inc, ScanState(0, 0, None));
    var first := Run(source, target, opts, host, 0, 0);
    ScanWalk(root, [], Base(source), inc, ScanState(first.files, first.size, None));
  }

  // ---------------------------------------------------------------------------------
  // GetSubDirectories

  /** Every name below the root is a plain file name, as directory listings give them. */
  predicate PlainNames(n: Node)
    decreases n
  {
    n.Dir? ==> PlainChildren(n.children)
  }

  predicate PlainChildren(cs: seq<Node>)
    decreases cs
  {
    cs == [] || (IsPlain(cs[0].name) && PlainNames(cs[0]) && PlainChildren(cs[1..]))
  }

  /** The directories strictly below the root whose level (1 for a child of the root) is at
      most `depth`, or every one of them when `depth` is negative, in walk order. */
  function DirsWithin(n: Node, rel: seq<string>, pathOf: seq<string> -> Path, depth: int): seq<Path>
    decreases n
  {
    match n
    case File(_, _, _) => []
    case Dir(_, cs, listing) =>
      (if 1 <= |rel| && (depth < 0 || |rel| <= depth) then [pathOf(rel)] else [])
      + (if listing.None? && (depth < 0 || |rel| <= depth) then DirsWithinChildren(cs, rel, pathOf, depth) else [])
  }

  function DirsWithinChildren(cs: seq<Node>, rel: seq<string>, pathOf: seq<string> -> Path, depth: int): seq<Path>
    decreases cs
  {
    if cs == [] then []
    else DirsWithin(cs[0], rel + [cs[0].name], pathOf, depth) + DirsWithinChildren(cs[1..], rel, pathOf, depth)
  }

  /** Every directory the depth-limited walk reaches can be listed: for a positive depth
      that reaches one level below the deepest selected one. */
  predicate DirsListable(n: Node, rel: seq<string>, depth: int)
    decreases n
  {
    match n
    case File(_, _, _) => true
    case Dir(_, cs, listing) => listing.None? && ((depth > 0 && |rel| > depth) || DirsListableChildren(cs, rel, depth))
  }

  predicate DirsListableChildren(cs: seq<Node>, rel: seq<string>, depth: int)
    decreases cs
  {
    cs == [] || (DirsListable(cs[0], rel + [cs[0].name], depth) && DirsListableChildren(cs[1..], rel, depth))
  }

  lemma {:induction false} DirsAppend(st: DirsState, a: seq<Visit>, b: seq<Visit>, pathOf: seq<string> -> Path, depth: int)
    ensures DirsFrom(st, a + b, pathOf, depth) == DirsFrom(DirsFrom(st, a, pathOf, depth), b, pathOf, depth)
    decreases |a|
  {
    if a == [] {
      assert a + b == b;
    } else {
      assert (a + b)[0] == a[0];
      assert (a + b)[1..] == a[1..] + b;
      DirsAppend(DirsStep(st, a[0], pathOf, depth), a[1..], b, pathOf, depth);
    }
  }

  /** Two consecutive parts of a sub-directory walk: the whole succeeds when both parts do,
      and then lists the directories of the first part followed by those of the second. */
  lemma DirsJoin(st: DirsState, a: seq<Visit>, b: seq<Visit>, pathOf: seq<string> -> Path, depth: int,
                 okA: bool, dirsA: seq<Path>, okB: bool, dirsB: seq<Path>)
    requires st.err.None?
    requires var m := DirsFrom(st, a, pathOf, depth);
      && (m.err.None? <==> okA) && (okA ==> m.dirs == st.dirs + dirsA)
    requires var m := DirsFrom(st, a, pathOf, depth);
      var r := DirsFrom(m, b, pathOf, depth);
      okA ==> (r.err.None? <==> okB) && (okB ==> r.dirs == m.dirs + dirsB)
    ensures var r := DirsFrom(st, a + b, pathOf, depth);
      && (r.err.None? <==> okA && okB)
      && (okA && okB ==> r.dirs == st.dirs + (dirsA + dirsB))
  {
    DirsAppend(st, a, b, pathOf, depth);
    var m := DirsFrom(st, a, pathOf, depth);
    if !okA {
      DirsErrorStops(m, b, pathOf, depth);
    }
  }

  /** Every name on a walked path is a plain file name. */
  predicate AllPlain(rel: seq<string>)
    decreases |rel|
  {
    rel == [] || (AllPlain(rel[..|rel| - 1]) && IsPlain(rel[|rel| - 1]))
  }

  lemma {:induction false} AllPlainAt(rel: seq<string>)
    requires AllPlain(rel)
    ensures forall i :: 0 <= i < |rel| ==> IsPlain(rel[i])
    decreases |rel|
  {
    if rel != [] {
      var init := rel[..|rel| - 1];
      AllPlainAt(init);
      assert forall i :: 0 <= i < |init| ==> rel[i] == init[i];
    }
  }

  lemma AllPlainSnoc(rel: seq<string>, name: string)
    requires AllPlain(rel) && IsPlain(name)
    ensures AllPlain(rel + [name])
  {
    assert (rel + [name])[..|rel|] == rel;
  }

  /** The archive entry name of a walked entry, for a plain source name and plain names
      below it: the source's name for the root, else the source's name and the names on the
      way down joined by '/', every backslash turned into '/'. */
  lemma EntryNameShape(b: string, rel: seq<string>)
    requires IsPlain(b) && AllPlain(rel)
    ensures rel == [] ==> EntryName(b, rel) == ReplaceBackslashes(b)
    ensures rel != [] ==> EntryName(b, rel) == ReplaceBackslashes(JoinSegs([b] + rel))
  {
    if rel == [] {
      SplitCons(b, ".");
      SplitPlain(".");
      SplitPlain(b);
      assert Split(b + "/" + ".") == [b, "."];
      assert [b, "."][1..] == ["."] && ["."][1..] == [];
      assert Resolve([], [b, "."], false) == Resolve([b], ["."], false);
      assert Resolve([b], ["."], false) == Resolve([b], [], false);
    } else {
      AllPlainAt(rel);
      var segs := [b] + rel;
      assert segs[1..] == rel;
      assert JoinSegs(segs) == b + "/" + JoinSegs(rel);
      CleanPlain(segs);
      JoinSegsNotDot(rel);
    }
  }

  /** For plain names, the walk's relative path is never "." below the root and its level
      is the number of names. */
  lemma LevelOfPlain(rel: seq<string>)
    requires |rel| >= 1 && AllPlain(rel)
    ensures RelPath(rel) != "." && Level(rel) == |rel|
  {
    AllPlainAt(rel);
    JoinSegsNotDot(rel);
    CountSepJoin(rel);
  }

  /** Below a root reached through plain names, the depth rule and the callback's checks
      depend only on how many names lead to the entry. */
  lemma DirsStepPlain(st: DirsState, v: Visit, pathOf: seq<string> -> Path, depth: int)
    requires depth != 0 && st.err.None? && AllPlain(v.rel)
    ensures SkipsDir(SkipDeeper(depth), v.rel, v.base) == (1 <= |v.rel| && depth > 0 && |v.rel| > depth)
    ensures DirsStep(st, v, pathOf, depth) ==
      if v.node.Dir? && v.node.listing.Some? then st.(err := v.node.listing)
      else if v.node.Dir? && 1 <= |v.rel| && (depth < 0 || |v.rel| <= depth) then st.(dirs := st.dirs + [pathOf(v.rel)])
      else st
  {
    if v.rel != [] {
      LevelOfPlain(v.rel);
    }
  }

  lemma {:induction false} DirsWalk(n: Node, rel: seq<string>, base: string, pathOf: seq<string> -> Path, depth: int, st: DirsState)
    requires depth != 0 && st.err.None? && PlainNames(n)
    requires AllPlain(rel)
    ensures var r := DirsFrom(st, Walk(n, rel, base, SkipDeeper(depth)), pathOf, depth);
      && (r.err.None? <==> DirsListable(n, rel, depth))
      && (r.err.None? ==> r.dirs == st.dirs + DirsWithin(n, rel, pathOf, depth))
    decreases n
  {
    var v := Visit(rel, base, n);
    var st1 := DirsStep(st, v, pathOf, depth);
    DirsStepPlain(st, v, pathOf, depth);
    if n.Dir? && n.listing.None? && !SkipsDir(SkipDeeper(depth), rel, base) {
      var cs := n.children;
      var rest := WalkChildren(cs, rel, SkipDeeper(depth));
      assert Walk(n, rel, base, SkipDeeper(depth)) == [v] + rest;
      DirsWalkChildren(cs, rel, pathOf, depth, st1);
      DirsJoin(st, [v], rest, pathOf, depth,
        true, st1.dirs[|st.dirs|..], DirsListableChildren(cs, rel, depth), DirsWithinChildren(cs, rel, pathOf, depth));
    } else {
      assert Walk(n, rel, base, SkipDeeper(depth)) == [v];
    }
  }

  lemma {:induction false} DirsWalkChildren(cs: seq<Node>, rel: seq<string>, pathOf: seq<string> -> Path, depth: int, st: DirsState)
    requires depth != 0 && st.err.None? && PlainChildren(cs)
    requires AllPlain(rel)
    ensures var r := DirsFrom(st, WalkChildren(cs, rel, SkipDeeper(depth)), pathOf, depth);
      && (r.err.None? <==> DirsListableChildren(cs, rel, depth))
      && (r.err.None? ==> r.dirs == st.dirs + DirsWithinChildren(cs, rel, pathOf, depth))
    decreases cs
  {
    if cs != [] {
      var c := cs[0];
      var sub := rel + [c.name];
      assert IsPlain(c.name) && PlainNames(c) && PlainChildren(cs[1..]);
      AllPlainSnoc(rel, c.name);
      var a := Walk(c, sub, c.name, SkipDeeper(depth));
      var b := WalkChildren(cs[1..], rel, SkipDeeper(depth));
      DirsWalk(c, sub, c.name, pathOf, depth, st);
      var mid := DirsFrom(st, a, pathOf, depth);
      if mid.err.None? {
        DirsWalkChildren(cs[1..], rel, pathOf, depth, mid);
      }
      DirsJoin(st, a, b, pathOf, depth,
        DirsListable(c, sub, depth), DirsWithin(c, sub, pathOf, depth),
        DirsListableChildren(cs[1..], rel, depth), DirsWithinChildren(cs[1..], rel, pathOf, depth));
    }
  }

  /** Below the deepest selected level nothing more is selected. */
  lemma {:induction false} DirsWithinDeep(cs: seq<Node>, rel: seq<string>, pathOf: seq<string> -> Path, depth: int)
    requires 0 < depth <= |rel|
    ensures DirsWithinChildren(cs, rel, pathOf, depth) == []
    decreases cs
  {
    if cs != [] {
      DirsWithinDeep(cs[1..], rel, pathOf, depth);
    }
  }

  /** The depth-1 shortcut lists the same directories the general rule selects at depth 1. */
  lemma {:induction false} ChildDirsAtDepthOne(cs: seq<Node>, parent: Path)
    ensures ChildDirs(parent, cs) == DirsWithinChildren(cs, [], PathOf(parent), 1)
    decreases cs
  {
    if cs != [] {
      var c := cs[0];
      ChildDirsAtDepthOne(cs[1..], parent);
      assert WalkPath(parent, [c.name]) == Join(WalkPath(parent, []), c.name);
      if c.Dir? {
        DirsWithinDeep(c.children, [c.name], PathOf(parent), 1);
        assert DirsWithin(c, [c.name], PathOf(parent), 1) == [Join(parent, c.name)];
      }
    }
  }

  /** GetSubDirectories on a directory: depth 0 gives the parent itself, and any other depth
      gives the directories at levels 1..depth (every level when negative) in walk order,
      or an error when a directory the walk reaches cannot be listed. */
  lemma SubDirectoriesByDepth(host: Host, parent: Path, depth: int)
    requires host.stat(parent).Found? ==> PlainNames(host.stat(parent).node)
    ensures host.stat(parent).Found? && host.stat(parent).node.Dir? ==>
      var n := host.stat(parent).node;
      && (depth == 0 ==> SubDirectories(host, parent, depth) == ([parent], None))
      && (depth == 1 && n.listing.None? ==> SubDirectories(host, parent, depth) == (DirsWithin(n, [], PathOf(parent), 1), None))
      && (depth == 1 && n.listing.Some? ==> SubDirectories(host, parent, depth).1.Some?)
      && (depth != 0 && depth != 1 ==>
            (SubDirectories(host, parent, depth).1.None? <==> DirsListable(n, [], depth)) &&
            (DirsListable(n, [], depth) ==> SubDirectories(host, parent, depth).0 == DirsWithin(n, [], PathOf(parent), depth)))
  {
    if host.stat(parent).Found? && host.stat(parent).node.Dir? {
      var n := host.stat(parent).node;
      if depth == 1 {
        if n.listing.None? {
          ChildDirsAtDepthOne(n.children, parent);
          assert DirsWithin(n, [], PathOf(parent), 1) == [] + DirsWithinChildren(n.children, [], PathOf(parent), 1);
          assert [] + DirsWithinChildren(n.children, [], PathOf(parent), 1) == ChildDirs(parent, n.children);
          assert SubDirectories(host, parent, depth) == (ChildDirs(parent, n.children), None);
        }
      } else if depth != 0 {
        DirsWalk(n, [], Base(parent), PathOf(parent), depth, DirsState([], None));
      }
    }
  }
}
