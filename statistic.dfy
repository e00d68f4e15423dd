/** The statistics of internal/pcsfunctions/pcscompress/statistic.go: three counters that
    compression tasks add to (original bytes, archive bytes, files) and a start time.  The
    clock is a parameter: `now` is the time `time.Now` would return. */
module Statistic {

  /** One call of an adder, with its argument. */
  datatype Add = AddTotal(size: int) | AddCompressed(size: int) | AddFiles(count: int)

  /** The three counters of a statistic. */
  datatype Counter = TotalCounter | CompressedCounter | FilesCounter

  /** The counter an add goes to. */
  function Target(a: Add): Counter
  {
    match a
    case AddTotal(_) => TotalCounter
    case AddCompressed(_) => CompressedCounter
    case AddFiles(_) => FilesCounter
  }

  /** What an add contributes to counter `c`: its argument for its own counter, else 0. */
  function Part(a: Add, c: Counter): int
  {
    if Target(a) != c then 0
    else match a
      case AddTotal(n) => n
      case AddCompressed(n) => n
      case AddFiles(n) => n
  }

  /** Counter `c` after the adds, starting from zero. */
  function Sum(adds: seq<Add>, c: Counter): int
  {
    if adds == [] then 0 else Sum(adds[..|adds| - 1], c) + Part(adds[|adds| - 1], c)
  }

  lemma {:induction false} SumAppend(a: seq<Add>, b: seq<Add>, c: Counter)
    ensures Sum(a + b, c) == Sum(a, c) + Sum(b, c)
    decreases |b|
  {
    if b == [] {
      assert a + b == a;
    } else {
      var init := b[..|b| - 1];
      assert (a + b)[..|a + b| - 1] == a + init;
      assert (a + b)[|a + b| - 1] == b[|b| - 1];
      SumAppend(a, init, c);
    }
  }

  /** Taking one add out of the sequence takes away exactly its contribution. */
  lemma SumRemove(b: seq<Add>, k: nat, c: Counter)
    requires k < |b|
    ensures Sum(b, c) == Sum(b[..k] + b[k + 1..], c) + Part(b[k], c)
  {
    assert b == (b[..k] + [b[k]]) + b[k + 1..];
    SumAppend(b[..k] + [b[k]], b[k + 1..], c);
    SumAppend(b[..k], [b[k]], c);
    SumAppend(b[..k], b[k + 1..], c);
    assert [b[k]][..0] == [];
  }

  /** Where `x` first occurs in `b`. */
  function IndexOf(b: seq<Add>, x: Add): (k: nat)
    requires x in multiset(b)
    ensures k < |b| && b[k] == x
  {
    if b[0] == x then 0
    else
      assert b == [b[0]] + b[1..];
      1 + IndexOf(b[1..], x)
  }

  lemma MultisetRemove(b: seq<Add>, k: nat)
    requires k < |b|
    ensures multiset(b[..k] + b[k + 1..]) == multiset(b) - multiset{b[k]}
  {
    assert b == b[..k] + [b[k]] + b[k + 1..];
  }

  /** The counters do not depend on the order of the adds: any reordering of the same adds
      leaves every counter with the same value. */
  lemma {:induction false} SumOrderIndependent(a: seq<Add>, b: seq<Add>, c: Counter)
    requires multiset(a) == multiset(b)
    ensures Sum(a, c) == Sum(b, c)
    decreases |a|
  {
    if a != [] {
      var n := |a| - 1;
      var x := a[n];
      assert x in multiset(a);
      var k := IndexOf(b, x);
      MultisetRemove(b, k);
      MultisetRemove(a, n);
      assert a[..n] + a[n + 1..] == a[..n];
      assert multiset(a[..n]) == multiset(b[..k] + b[k + 1..]);
      SumOrderIndependent(a[..n], b[..k] + b[k + 1..], c);
      SumRemove(b, k, c);
    }
  }

  class CompressStatistic {
    var totalSize: int
    var compressedSize: int
    var fileCount: int
    var startTime: int

    /** NewCompressStatistic: all counters at zero, the timer started now. */
    constructor (now: int)
      ensures totalSize == 0 && compressedSize == 0 && fileCount == 0
      ensures startTime == now
    {
      totalSize, compressedSize, fileCount := 0, 0, 0;
      startTime := now;
    }

    method AddTotalSize(size: int)
      modifies this`totalSize
      ensures totalSize == old(totalSize) + size
    {
      totalSize := totalSize + size;
    }

    method AddCompressedSize(size: int)
      modifies this`compressedSize
      ensures compressedSize == old(compressedSize) + size
    {
      compressedSize := compressedSize + size;
    }

    method AddFileCount(count: int)
      modifies this`fileCount
      ensures fileCount == old(fileCount) + count
    {
      fileCount := fileCount + count;
    }

    function TotalSize(): int
      reads this
    {
      totalSize
    }

    function CompressedSize(): int
      reads this
    {
      compressedSize
    }

    function FileCount(): int
      reads this
    {
      fileCount
    }

    /** Elapsed: the time since the timer was last started. */
    function Elapsed(now: int): int
      reads this
    {
      now - startTime
    }

    /** StartTimer: restarts the timer; the counters keep their values. */
    method StartTimer(now: int)
      modifies this`startTime
      ensures startTime == now
    {
      startTime := now;
    }

    /** Reset: all counters back to zero and the timer restarted. */
    method Reset(now: int)
      modifies this
      ensures totalSize == 0 && compressedSize == 0 && fileCount == 0
      ensures startTime == now
    {
      totalSize, compressedSize, fileCount := 0, 0, 0;
      startTime := now;
    }

    /** The adders called in the order given, as the compression tasks sharing this
        statistic call them: each counter grows by the sum of its own adds. */
    method ApplyAll(adds: seq<Add>)
      modifies this`totalSize, this`compressedSize, this`fileCount
      ensures totalSize == old(totalSize) + Sum(adds, TotalCounter)
      ensures compressedSize == old(compressedSize) + Sum(adds, CompressedCounter)
      ensures fileCount == old(fileCount) + Sum(adds, FilesCounter)
    {
      var k := 0;
      while k < |adds|
        invariant 0 <= k <= |adds|
        invariant totalSize == old(totalSize) + Sum(adds[..k], TotalCounter)
        invariant compressedSize == old(compressedSize) + Sum(adds[..k], CompressedCounter)
        invariant fileCount == old(fileCount) + Sum(adds[..k], FilesCounter)
      {
        assert adds[..k + 1][..k] == adds[..k];
        match adds[k] {
          case AddTotal(n) => AddTotalSize(n);
          case AddCompressed(n) => AddCompressedSize(n);
          case AddFiles(n) => AddFileCount(n);
        }
        k := k + 1;
      }
      assert adds[..k] == adds;
    }
  }
}
