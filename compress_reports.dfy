/** Which files the progress reports of a packaging walk name: one report per copied
    eligible file, carrying that file's walked path, in walk order. */
module CompressReports {
  import opened Paths
  import opened FileSystem
  import opened Compress
  import opened CompressProps

  /** The file each progress report names, in report order. */
  function ReportedFiles(us: seq<Progress>): (r: seq<Path>)
    ensures |r| == |us| && forall i :: 0 <= i < |us| ==> r[i] == us[i].currentFile
  {
    if us == [] then [] else ReportedFiles(us[..|us| - 1]) + [us[|us| - 1].currentFile]
  }

  /** The walked paths of the files among the visits that can be opened and copied. */
  function ReadPaths(pathOf: seq<string> -> Path, vs: seq<Visit>): seq<Path>
  {
    if vs == [] then []
    else (if vs[0].node.File? && vs[0].node.access.Readable? then [pathOf(vs[0].rel)] else [])
         + ReadPaths(pathOf, vs[1..])
  }

  lemma {:induction false} ReadPathsAppend(pathOf: seq<string> -> Path, a: seq<Visit>, b: seq<Visit>)
    ensures ReadPaths(pathOf, a + b) == ReadPaths(pathOf, a) + ReadPaths(pathOf, b)
    decreases |a|
  {
    if a == [] {
      assert a + b == b;
    } else {
      assert (a + b)[0] == a[0];
      assert (a + b)[1..] == a[1..] + b;
      ReadPathsAppend(pathOf, a[1..], b);
    }
  }

  /** Between the packaging states `st` and `r`, when `r` has no error, one report was made
      per copied file of `e`, naming its walked path. */
  predicate ReportsFiles(st: PackState, r: PackState, pathOf: seq<string> -> Path, e: seq<Visit>)
  {
    r.err.None? ==> ReportedFiles(r.updates) == ReportedFiles(st.updates) + ReadPaths(pathOf, e)
  }

  lemma ReportsFilesJoin(st: PackState, m: PackState, r: PackState, pathOf: seq<string> -> Path,
                         eA: seq<Visit>, eB: seq<Visit>)
    requires ReportsFiles(st, m, pathOf, eA)
    requires m.err.None? ==> ReportsFiles(m, r, pathOf, eB)
    requires m.err.Some? ==> r == m
    ensures ReportsFiles(st, r, pathOf, eA + eB)
  {
    ReadPathsAppend(pathOf, eA, eB);
  }

  /** One packaging step reports the walked path of the visited file exactly when it is an
      eligible file that can be copied. */
  lemma PackStepReports(st: PackState, v: Visit, cx: PackContext)
    requires st.err.None?
    ensures ReportsFiles(st, PackStep(st, v, cx), cx.filePath,
                         if Excluded(cx.includeHidden, v.base) then [] else [v])
  {
    assert [v][1..] == [];
    var r := PackStep(st, v, cx);
    if r.err.None? && !Excluded(cx.includeHidden, v.base) && v.node.File? && v.node.access.Readable? {
      assert r.updates == st.updates + [r.updates[|r.updates| - 1]];
      assert ReadPaths(cx.filePath, [v]) == [cx.filePath(v.rel)];
    }
  }

  /** The packaging walk over a tree reports, in walk order, the walked path of every
      eligible file it copies, and nothing else. */
  lemma {:induction false} PackWalkReports(n: Node, rel: seq<string>, base: string, cx: PackContext, st: PackState)
    requires st.err.None?
    ensures ReportsFiles(st, PackFrom(st, Walk(n, rel, base, SkipHidden(cx.includeHidden)), cx), cx.filePath,
                         Eligible(n, rel, base, cx.includeHidden))
    decreases n
  {
    var inc := cx.includeHidden;
    var v := Visit(rel, base, n);
    var vs := Walk(n, rel, base, SkipHidden(inc));
    PackFromFirst(st, vs, cx);
    PackStepReports(st, v, cx);
    if n.File? || n.listing.Some? || SkipsDir(SkipHidden(inc), rel, base) {
      assert vs == [v];
      if !Excluded(inc, base) && (n.File? || n.listing.Some?) {
        assert Eligible(n, rel, base, inc) == [v];
      }
    } else {
      var cs := n.children;
      var rest := WalkChildren(cs, rel, SkipHidden(inc));
      assert vs == [v] + rest;
      var m := PackStep(st, v, cx);
      assert PackFrom(st, [v], cx) == m;
      PackAppend(st, [v], rest, cx);
      if m.err.None? {
        PackChildrenReports(cs, rel, cx, m);
      } else {
        PackErrorStops(m, rest, cx);
      }
      var ec := EligibleChildren(cs, rel, inc);
      assert Eligible(n, rel, base, inc) == [v] + ec;
      ReportsFilesJoin(st, m, PackFrom(m, rest, cx), cx.filePath, [v], ec);
    }
  }

  lemma {:induction false} PackChildrenReports(cs: seq<Node>, rel: seq<string>, cx: PackContext, st: PackState)
    requires st.err.None?
    ensures ReportsFiles(st, PackFrom(st, WalkChildren(cs, rel, SkipHidden(cx.includeHidden)), cx), cx.filePath,
                         EligibleChildren(cs, rel, cx.includeHidden))
    decreases cs
  {
    var inc := cx.includeHidden;
    if cs != [] {
      var c := cs[0];
      var a := Walk(c, rel + [c.name], c.name, SkipHidden(inc));
      var b := WalkChildren(cs[1..], rel, SkipHidden(inc));
      assert WalkChildren(cs, rel, SkipHidden(inc)) == a + b;
      PackWalkReports(c, rel + [c.name], c.name, cx, st);
      var mid := PackFrom(st, a, cx);
      PackAppend(st, a, b, cx);
      if mid.err.None? {
        PackChildrenReports(cs[1..], rel, cx, mid);
      } else {
        PackErrorStops(mid, b, cx);
      }
      ReportsFilesJoin(st, mid, PackFrom(mid, b, cx), cx.filePath,
                       Eligible(c, rel + [c.name], c.name, inc), EligibleChildren(cs[1..], rel, inc));
    }
  }

  /** After a successful execution the progress reports name the walked paths of the copied
      eligible files, one each, in walk order. */
  lemma RunReportsFiles(source: Path, target: Path, opts: CompressOptions, host: Host, files0: int, size0: int)
    ensures var o := Run(source, target, opts, host, files0, size0);
      o.result.success ==>
        ReportedFiles(o.updates) == ReadPaths(PathOf(source), Eligible(host.stat(source).node, [], Base(source), opts.includeHidden))
  {
    if ChecksPass(source, target, opts, host, files0, size0) {
      var root := host.stat(source).node;
      var e := Eligible(root, [], Base(source), opts.includeHidden);
      var cx := PackContextFor(source, opts.includeHidden, files0 + FileCount(e));
      var st0 := PackState([], 0, 0, [], None);
      var pack := PackFrom(st0, Walk(root, [], Base(source), SkipHidden(opts.includeHidden)), cx);
      var o := Run(source, target, opts, host, files0, size0);
      RunPacks(source, target, opts, host, files0, size0);
      assert o.updates == pack.updates && o.result.success == pack.err.None?;
      PackWalkReports(root, [], Base(source), cx, st0);
      ReportsFromStart(pack, PathOf(source), e);
    } else {
      RunStops(source, target, opts, host, files0, size0);
    }
  }

  /** A packaging walk from the empty state that ends without error reports exactly the files
      its summary names. */
  lemma ReportsFromStart(pack: PackState, pathOf: seq<string> -> Path, e: seq<Visit>)
    requires ReportsFiles(PackState([], 0, 0, [], None), pack, pathOf, e)
    ensures pack.err.None? ==> ReportedFiles(pack.updates) == ReadPaths(pathOf, e)
  {
    assert ReportedFiles([]) == [];
  }
}
