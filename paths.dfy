/** Lexical path helpers with the meaning Go's `path`, `path/filepath` and `strings`
    packages give them on a system whose separator is '/'.  The compression engine,
    the queue and the command driver build every path they use from these. */
module Paths {

  type Path = string

  /** A name as a directory listing returns it: not empty, not "." or "..", no separator. */
  predicate IsPlain(s: string) {
    s != "" && s != "." && s != ".." && '/' !in s
  }

  /** The hidden-entry rule: the base name starts with '.' and is neither "." nor "..". */
  predicate IsHidden(base: string) {
    |base| > 0 && base[0] == '.' && base != "." && base != ".."
  }

  /** strings.Split(s, "/"): the pieces between separators, never an empty list. */
  function Split(s: string): (r: seq<string>)
    ensures |r| >= 1
    ensures forall i :: 0 <= i < |r| ==> '/' !in r[i]
  {
    if s == [] then [""]
    else if s[0] == '/' then [""] + Split(s[1..])
    else
      var t := Split(s[1..]);
      [[s[0]] + t[0]] + t[1..]
  }

  /** strings.Join(segs, "/"). */
  function JoinSegs(segs: seq<string>): string
  {
    if segs == [] then ""
    else if |segs| == 1 then segs[0]
    else segs[0] + "/" + JoinSegs(segs[1..])
  }

  /** The lexical part of Clean: empty and "." elements vanish, ".." removes the element
      before it when that is not itself "..", and a ".." with nothing to remove is kept
      in a relative path and dropped at the root of a rooted one. */
  function Resolve(stack: seq<string>, segs: seq<string>, rooted: bool): seq<string>
    decreases |segs|
  {
    if segs == [] then stack
    else
      var s := segs[0];
      var next :=
        if s == "" || s == "." then stack
        else if s == ".." then
          (if |stack| > 0 && stack[|stack| - 1] != ".." then stack[..|stack| - 1]
           else if rooted then stack
           else stack + [".."])
        else stack + [s];
      Resolve(next, segs[1..], rooted)
  }

  /** path.Clean and filepath.Clean: the shortest lexically equivalent path. */
  function Clean(p: Path): Path
  {
    var rooted := |p| > 0 && p[0] == '/';
    var body := JoinSegs(Resolve([], Split(p), rooted));
    if rooted then "/" + body
    else if body == "" then "."
    else body
  }

  /** filepath.Join of two elements: empty elements are ignored and the result is cleaned. */
  function Join(a: Path, b: Path): Path
  {
    if a == "" && b == "" then ""
    else if a == "" then Clean(b)
    else if b == "" then Clean(a)
    else Clean(a + "/" + b)
  }

  /** The text after the last separator of a path without trailing separators. */
  function LastSegment(t: string): (r: string)
    ensures '/' !in r
    ensures |r| <= |t|
  {
    if t == [] || t[|t| - 1] == '/' then []
    else LastSegment(t[..|t| - 1]) + [t[|t| - 1]]
  }

  /** The path with every trailing separator removed. */
  function TrimTrailing(p: Path): (r: Path)
    ensures r == [] || r[|r| - 1] != '/'
  {
    if p != [] && p[|p| - 1] == '/' then TrimTrailing(p[..|p| - 1]) else p
  }

  /** filepath.Base and path.Base: the last element; "." for the empty path and "/" for
      a path made of separators only. */
  function Base(p: Path): (r: Path)
    ensures r != ""
    ensures r == "/" || '/' !in r
  {
    if p == "" then "."
    else
      var t := TrimTrailing(p);
      if t == "" then "/"
      else
        LastSegmentOfUntrimmed(t);
        LastSegment(t)
  }

  /** strings.ReplaceAll(s, "\\", "/"). */
  function ReplaceBackslashes(s: string): (r: string)
    ensures |r| == |s|
  {
    if s == [] then [] else [if s[0] == '\\' then '/' else s[0]] + ReplaceBackslashes(s[1..])
  }

  /** ReplaceAll changes every backslash into a separator and nothing else. */
  lemma {:induction false} ReplaceBackslashesAt(s: string)
    ensures forall i :: 0 <= i < |s| ==>
      ReplaceBackslashes(s)[i] == (if s[i] == '\\' then '/' else s[i])
    decreases |s|
  {
    if s != [] {
      ReplaceBackslashesAt(s[1..]);
      forall i | 0 <= i < |s|
        ensures ReplaceBackslashes(s)[i] == (if s[i] == '\\' then '/' else s[i])
      {
        if i > 0 {
          assert ReplaceBackslashes(s)[i] == ReplaceBackslashes(s[1..])[i - 1];
        }
      }
    }
  }

  /** strings.Count(s, "/"). */
  function CountSep(s: string): nat
  {
    if s == [] then 0 else (if s[0] == '/' then 1 else 0) + CountSep(s[1..])
  }

  // ---------------------------------------------------------------------------------
  // Lemmas

  /** A path that does not end in a separator has a non-empty last element. */
  lemma LastSegmentOfUntrimmed(t: string)
    requires t != [] && t[|t| - 1] != '/'
    ensures LastSegment(t) != ""
  {
  }

  lemma {:induction false} SplitPlain(a: string)
    requires '/' !in a
    ensures Split(a) == [a]
  {
    if a != [] {
      SplitPlain(a[1..]);
      assert [a[0]] + a[1..] == a;
    }
  }

  /** Splitting after appending one more element adds exactly that element. */
  lemma {:induction false} SplitSnoc(p: string, name: string)
    requires '/' !in name
    ensures Split(p + "/" + name) == Split(p) + [name]
  {
    if p == [] {
      assert p + "/" + name == "/" + name;
      SplitPlain(name);
    } else {
      assert (p + "/" + name)[1..] == p[1..] + "/" + name;
      SplitSnoc(p[1..], name);
    }
  }

  /** strings.Split undoes strings.Join when no element contains the separator. */
  lemma {:induction false} SplitJoin(segs: seq<string>)
    requires |segs| >= 1
    requires forall i :: 0 <= i < |segs| ==> '/' !in segs[i]
    ensures Split(JoinSegs(segs)) == segs
  {
    if |segs| == 1 {
      SplitPlain(segs[0]);
    } else {
      var rest := segs[1..];
      SplitJoin(rest);
      SplitCons(segs[0], JoinSegs(rest));
      assert [segs[0]] + rest == segs;
    }
  }

  lemma {:induction false} SplitCons(a: string, b: string)
    requires '/' !in a
    ensures Split(a + "/" + b) == [a] + Split(b)
  {
    if a == [] {
      assert a + "/" + b == "/" + b;
      assert ("/" + b)[1..] == b;
    } else {
      assert (a + "/" + b)[1..] == a[1..] + "/" + b;
      SplitCons(a[1..], b);
      assert [a[0]] + a[1..] == a;
    }
  }

  /** Appending one more element to a joined path. */
  lemma {:induction false} JoinSegsSnoc(segs: seq<string>, name: string)
    ensures JoinSegs(segs + [name]) == if segs == [] then name else JoinSegs(segs) + "/" + name
  {
    if |segs| >= 2 {
      JoinSegsSnoc(segs[1..], name);
      assert (segs + [name])[1..] == segs[1..] + [name];
    } else if |segs| == 1 {
      assert (segs + [name])[1..] == [name];
    }
  }

  /** Joining non-empty elements gives a non-empty string that starts with the first element. */
  lemma {:induction false} JoinSegsPrefix(segs: seq<string>)
    requires |segs| >= 1 && segs[0] != ""
    ensures |JoinSegs(segs)| >= |segs[0]| && JoinSegs(segs)[..|segs[0]|] == segs[0]
  {
    if |segs| >= 2 {
      assert JoinSegs(segs) == segs[0] + ("/" + JoinSegs(segs[1..]));
    }
  }

  /** Elements that Clean neither drops nor interprets pass through Resolve unchanged. */
  lemma {:induction false} ResolvePlain(stack: seq<string>, segs: seq<string>, rooted: bool)
    requires forall i :: 0 <= i < |segs| ==> IsPlain(segs[i])
    ensures Resolve(stack, segs, rooted) == stack + segs
    decreases |segs|
  {
    if segs != [] {
      ResolvePlain(stack + [segs[0]], segs[1..], rooted);
      assert stack + [segs[0]] + segs[1..] == stack + segs;
    }
  }

  /** Resolving one more plain element pushes it. */
  lemma {:induction false} ResolveSnoc(stack: seq<string>, segs: seq<string>, name: string, rooted: bool)
    requires IsPlain(name)
    ensures Resolve(stack, segs + [name], rooted) == Resolve(stack, segs, rooted) + [name]
    decreases |segs|
  {
    if segs == [] {
      assert ([] + [name])[1..] == [];
    } else {
      var s := segs[0];
      var next :=
        if s == "" || s == "." then stack
        else if s == ".." then
          (if |stack| > 0 && stack[|stack| - 1] != ".." then stack[..|stack| - 1]
           else if rooted then stack
           else stack + [".."])
        else stack + [s];
      assert (segs + [name])[1..] == segs[1..] + [name];
      ResolveSnoc(next, segs[1..], name, rooted);
    }
  }

  /** What Resolve keeps is never empty, never "." and holds no separator. */
  lemma {:induction false} ResolveElements(stack: seq<string>, segs: seq<string>, rooted: bool)
    requires forall i :: 0 <= i < |stack| ==> stack[i] != "" && stack[i] != "." && '/' !in stack[i]
    requires forall i :: 0 <= i < |segs| ==> '/' !in segs[i]
    ensures var r := Resolve(stack, segs, rooted);
      forall i :: 0 <= i < |r| ==> r[i] != "" && r[i] != "." && '/' !in r[i]
    decreases |segs|
  {
    if segs != [] {
      var s := segs[0];
      var next :=
        if s == "" || s == "." then stack
        else if s == ".." then
          (if |stack| > 0 && stack[|stack| - 1] != ".." then stack[..|stack| - 1]
           else if rooted then stack
           else stack + [".."])
        else stack + [s];
      assert '/' !in s;
      assert forall i :: 0 <= i < |next| ==> next[i] != "" && next[i] != "." && '/' !in next[i];
      assert forall i :: 0 <= i < |segs[1..]| ==> '/' !in segs[1..][i];
      ResolveElements(next, segs[1..], rooted);
      assert Resolve(stack, segs, rooted) == Resolve(next, segs[1..], rooted);
    }
  }

  /** A non-empty list of non-empty elements joins to something other than "" and ".". */
  lemma JoinSegsNotDot(segs: seq<string>)
    requires |segs| >= 1
    requires forall i :: 0 <= i < |segs| ==> segs[i] != "" && segs[i] != "."
    ensures JoinSegs(segs) != "" && JoinSegs(segs) != "."
  {
    if |segs| >= 2 {
      var j := JoinSegs(segs);
      assert j == segs[0] + "/" + JoinSegs(segs[1..]);
      assert |j| >= 2;
    }
  }

  /** A relative path made of plain names is already clean. */
  lemma CleanPlain(segs: seq<string>)
    requires |segs| >= 1
    requires forall i :: 0 <= i < |segs| ==> IsPlain(segs[i])
    ensures Clean(JoinSegs(segs)) == JoinSegs(segs)
  {
    var p := JoinSegs(segs);
    JoinSegsPrefix(segs);
    assert p[0] == segs[0][0];
    SplitJoin(segs);
    ResolvePlain([], segs, false);
    assert [] + segs == segs;
    JoinSegsNotDot(segs);
  }

  /** Appending a plain name to the empty path and cleaning gives the name below the root. */
  lemma CleanAppendEmpty(name: string)
    requires IsPlain(name)
    ensures Clean("/" + name) == "/" + name
  {
    SplitSnoc("", name);
    assert "" + "/" + name == "/" + name;
    assert Split("") == [""];
    ResolveSnoc([], [""], name, true);
    assert Resolve([], [""], true) == [];
    JoinSegsSnoc([], name);
  }

  /** Appending a plain name to a non-empty path and cleaning is the same as cleaning the
      path first and then appending the name. */
  lemma CleanAppend(p: Path, name: string)
    requires IsPlain(name) && p != ""
    ensures Clean(p + "/" + name) == AppendName(Clean(p), name)
  {
    var q := p + "/" + name;
    var rooted := p[0] == '/';
    assert q[0] == p[0];
    SplitSnoc(p, name);
    ResolveSnoc([], Split(p), name, rooted);
    var r := Resolve([], Split(p), rooted);
    JoinSegsSnoc(r, name);
    if r != [] {
      ResolveElements([], Split(p), rooted);
      JoinSegsNotDot(r);
    }
  }

  /** The path a clean directory path `dir` gives to its plain child `name`. */
  function AppendName(dir: Path, name: string): Path
  {
    if dir == "/" then "/" + name
    else if dir == "." then name
    else dir + "/" + name
  }

  /** The last element of a path that ends in a plain name is that name. */
  lemma {:induction false} LastSegmentAppend(p: string, name: string)
    requires name != "" && '/' !in name
    ensures LastSegment(p + "/" + name) == name
    decreases |name|
  {
    var q := p + "/" + name;
    assert q[|q| - 1] == name[|name| - 1];
    assert q[..|q| - 1] == p + "/" + name[..|name| - 1];
    if |name| == 1 {
      assert (p + "/" + name[..0]) == p + "/";
    } else {
      LastSegmentAppend(p, name[..|name| - 1]);
      assert name[..|name| - 1] + [name[|name| - 1]] == name;
    }
  }

  lemma {:induction false} LastSegmentPlain(name: string)
    requires '/' !in name
    ensures LastSegment(name) == name
    decreases |name|
  {
    if name != [] {
      LastSegmentPlain(name[..|name| - 1]);
      assert name[..|name| - 1] + [name[|name| - 1]] == name;
    }
  }

  /** Base of a directory path extended by a plain name is that name. */
  lemma BaseAppendName(dir: Path, name: string)
    requires IsPlain(name)
    ensures Base(AppendName(dir, name)) == name
  {
    var q := AppendName(dir, name);
    assert q[|q| - 1] == name[|name| - 1];
    assert TrimTrailing(q) == q;
    if dir == "." {
      LastSegmentPlain(name);
    } else if dir == "/" {
      assert q == [] + "/" + name;
      LastSegmentAppend([], name);
    } else {
      LastSegmentAppend(dir, name);
    }
  }

  /** The separators in a join of separator-free elements are the ones Join put there. */
  lemma {:induction false} CountSepJoin(segs: seq<string>)
    requires |segs| >= 1
    requires forall i :: 0 <= i < |segs| ==> '/' !in segs[i]
    ensures CountSep(JoinSegs(segs)) == |segs| - 1
  {
    if |segs| >= 2 {
      CountSepJoin(segs[1..]);
      CountSepConcat(segs[0], "/" + JoinSegs(segs[1..]));
      CountSepNone(segs[0]);
      assert segs[0] + "/" + JoinSegs(segs[1..]) == segs[0] + ("/" + JoinSegs(segs[1..]));
    } else {
      CountSepNone(segs[0]);
    }
  }

  lemma {:induction false} CountSepConcat(a: string, b: string)
    ensures CountSep(a + b) == CountSep(a) + CountSep(b)
  {
    if a != [] {
      assert (a + b)[1..] == a[1..] + b;
      assert (a + b)[0] == a[0];
      CountSepConcat(a[1..], b);
    } else {
      assert a + b == b;
    }
  }

  lemma {:induction false} CountSepNone(a: string)
    requires '/' !in a
    ensures CountSep(a) == 0
  {
    if a != [] {
      CountSepNone(a[1..]);
    }
  }
}
