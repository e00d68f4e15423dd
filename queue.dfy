/** The compression queue of internal/pcsfunctions/pcscompress/queue.go: an ordered list of
    compression tasks run one after another, with a status word that other goroutines
    change through Stop, Pause and Resume while the queue runs.

    Those other goroutines are modelled by a sequence of signals: before each read of the
    status word the next signal, if any, is applied as the call it stands for. */
module Queue {
  import opened Paths
  import opened FileSystem
  import opened Compress

  /** QueueStatus: Idle, Running, Paused, Stopped. */
  datatype QueueStatus = Idle | Running | Paused | Stopped

  /** An item's Status string: "pending", "running", "completed", "failed". */
  datatype ItemStatus = Pending | InProgress | Completed | Failed

  /** CompressQueueItem: the task, its result once it ran, its status and retry count. */
  datatype QueueItem = QueueItem(task: CompressTask, result: Option<CompressResult>, status: ItemStatus, retryCount: int)

  /** The errors AddTask and AddDirectory return. */
  datatype QueueError =
    | AbsSourceFailed(source: Path)
    | AbsTargetFailed(target: Path)
    | SubDirectoriesFailed(cause: Error)
    | AddTaskFailed(dir: Path, reason: QueueError)

  /** A call another goroutine makes on the queue before the status is read. */
  datatype Signal = NoCall | StopCall | PauseCall | ResumeCall

  /** The points at which an execution would call its hooks OnTaskStart, OnTaskComplete and
      OnQueueComplete.  They are recorded whether or not a hook is set; the source calls only
      the hooks that are set. */
  datatype Event = TaskStart(index: nat) | TaskComplete(index: nat) | QueueComplete

  /** The effect of a signal on the status word: Stop and Pause store their status, Resume
      swaps Paused for Running only. */
  function Apply(s: Signal, status: QueueStatus): QueueStatus
  {
    match s
    case NoCall => status
    case StopCall => Stopped
    case PauseCall => Paused
    case ResumeCall => if status == Paused then Running else status
  }

  /** One read of the status word: the next signal is applied first. */
  function Read(status: QueueStatus, signals: seq<Signal>): (QueueStatus, seq<Signal>)
  {
    if signals == [] then (status, []) else (Apply(signals[0], status), signals[1..])
  }

  /** How the check before an item ends: the item runs, the loop breaks (Stopped seen at
      the boundary), Execute returns (Stopped seen while paused), or the queue stays paused
      for good because nobody resumes it. */
  datatype Gate = Proceed | Break | Return | Blocked

  /** The pause loop, from a read of its condition that gave `c`: while paused, sleep, read
      again and return on Stopped, then read the condition again. */
  function PauseLoop(c: QueueStatus, rest: seq<Signal>): (Gate, QueueStatus, seq<Signal>)
    decreases |rest|
  {
    if c != Paused then (Proceed, c, rest)
    else if rest == [] then (Blocked, c, rest)
    else
      var (s, r) := Read(c, rest);
      if s == Stopped then (Return, s, r)
      else
        var (c2, r2) := Read(s, r);
        PauseLoop(c2, r2)
  }

  /** The checks Execute makes before item i: Stopped breaks the loop, then the pause loop. */
  function Boundary(status: QueueStatus, signals: seq<Signal>): (Gate, QueueStatus, seq<Signal>)
  {
    var (s, r) := Read(status, signals);
    if s == Stopped then (Break, s, r)
    else
      var (c, r2) := Read(s, r);
      PauseLoop(c, r2)
  }

  /** How an execution ends. */
  datatype Ending = NotStarted | Finished | StoppedAtBoundary | StoppedWhilePaused | StillPaused

  /** The course of an execution over `n` remaining items from `status`: how many items
      start and how the execution ends. */
  function Schedule(status: QueueStatus, signals: seq<Signal>, n: nat): (r: (nat, Ending))
    ensures r.0 <= n && r.1 != NotStarted
    ensures r.1 == Finished <==> r.0 == n
    decreases n
  {
    if n == 0 then (0, Finished)
    else
      var (g, s, rest) := Boundary(status, signals);
      match g
      case Proceed => var later := Schedule(s, rest, n - 1); (later.0 + 1, later.1)
      case Break => (0, StoppedAtBoundary)
      case Return => (0, StoppedWhilePaused)
      case Blocked => (0, StillPaused)
  }

  /** One turn of the schedule: the checks decide whether the next item runs. */
  lemma ScheduleStep(status: QueueStatus, signals: seq<Signal>, n: nat, g: Gate, s: QueueStatus, rest: seq<Signal>)
    requires n > 0 && (g, s, rest) == Boundary(status, signals)
    ensures g == Proceed ==> Schedule(status, signals, n) == (Schedule(s, rest, n - 1).0 + 1, Schedule(s, rest, n - 1).1)
    ensures g == Break ==> Schedule(status, signals, n) == (0, StoppedAtBoundary)
    ensures g == Return ==> Schedule(status, signals, n) == (0, StoppedWhilePaused)
    ensures g == Blocked ==> Schedule(status, signals, n) == (0, StillPaused)
  {
  }

  /** The schedule of the items from i on, after the checks before item i: item i runs and
      the schedule goes on from item i + 1, or the execution ends there. */
  lemma ScheduleTurn(status: QueueStatus, signals: seq<Signal>, n: nat, i: nat, g: Gate, s: QueueStatus,
                     rest: seq<Signal>, plan: (nat, Ending))
    requires i < n && i <= plan.0 && (g, s, rest) == Boundary(status, signals)
    requires Schedule(status, signals, n - i) == (plan.0 - i, plan.1)
    ensures g == Proceed ==> i + 1 <= plan.0 && Schedule(s, rest, n - (i + 1)) == (plan.0 - (i + 1), plan.1)
    ensures g == Break ==> i == plan.0 && plan.1 == StoppedAtBoundary
    ensures g == Return ==> i == plan.0 && plan.1 == StoppedWhilePaused
    ensures g == Blocked ==> i == plan.0 && plan.1 == StillPaused
  {
    ScheduleStep(status, signals, n - i, g, s, rest);
  }

  /** The course of Execute: it starts only from Idle. */
  function Plan(status: QueueStatus, signals: seq<Signal>, n: nat): (nat, Ending)
  {
    if status != Idle then (0, NotStarted) else Schedule(Running, signals, n)
  }

  /** An execution from Idle that nobody stops or pauses runs every item and ends normally. */
  lemma {:induction false} NoSignalsRunAll(n: nat)
    ensures Plan(Idle, [], n) == (n, Finished)
  {
    if n > 0 {
      assert Boundary(Running, []) == (Proceed, Running, []);
      NoSignalsRunAll(n - 1);
    }
  }

  /** A Stop before the first item breaks the loop before any item starts. */
  lemma StopBeforeFirstItem(rest: seq<Signal>, n: nat)
    requires n > 0
    ensures Plan(Idle, [StopCall] + rest, n) == (0, StoppedAtBoundary)
  {
    assert ([StopCall] + rest)[1..] == rest;
  }

  /** While paused, calls that neither resume nor stop leave the pause loop waiting. */
  lemma {:induction false} PauseLoopWaits(rest: seq<Signal>)
    requires forall j :: 0 <= j < |rest| ==> rest[j] == NoCall || rest[j] == PauseCall
    ensures PauseLoop(Paused, rest).0 == Blocked
    decreases |rest|
  {
    if rest != [] {
      var r := rest[1..];
      if r == [] {
        assert PauseLoop(Paused, rest) == PauseLoop(Paused, []);
      } else {
        assert PauseLoop(Paused, rest) == PauseLoop(Paused, r[1..]);
        PauseLoopWaits(r[1..]);
      }
    }
  }

  /** A Pause before the first item that is never followed by Resume or Stop keeps the queue
      paused with no item started. */
  lemma PauseBeforeFirstItem(rest: seq<Signal>, n: nat)
    requires n > 0
    requires forall j :: 0 <= j < |rest| ==> rest[j] == NoCall || rest[j] == PauseCall
    ensures Plan(Idle, [PauseCall] + rest, n) == (0, StillPaused)
  {
    assert ([PauseCall] + rest)[1..] == rest;
    if rest == [] {
      assert Boundary(Running, [PauseCall]) == PauseLoop(Paused, []);
    } else {
      assert Boundary(Running, [PauseCall] + rest) == PauseLoop(Paused, rest[1..]);
      PauseLoopWaits(rest[1..]);
    }
  }

  /** The signals of an execution whose first k items nobody interrupts (no call before
      either status read of each), followed by `t`. */
  function QuietThen(k: nat, t: seq<Signal>): (r: seq<Signal>)
    ensures |r| == 2 * k + |t|
  {
    if k == 0 then t else [NoCall, NoCall] + QuietThen(k - 1, t)
  }

  /** Items that nobody interrupts run one after another and the rest of the run goes on
      from the status word Running. */
  lemma {:induction false} QuietItems(k: nat, t: seq<Signal>, n: nat)
    requires k <= n
    ensures Schedule(Running, QuietThen(k, t), n).0 == Schedule(Running, t, n - k).0 + k
    ensures Schedule(Running, QuietThen(k, t), n).1 == Schedule(Running, t, n - k).1
    decreases k
  {
    if k > 0 {
      QuietFirst(k, t, n);
      QuietItems(k - 1, t, n - 1);
    }
  }

  /** The first of k quiet items runs and the run goes on over the other k - 1. */
  lemma QuietFirst(k: nat, t: seq<Signal>, n: nat)
    requires 0 < k <= n
    ensures Schedule(Running, QuietThen(k, t), n).0 == Schedule(Running, QuietThen(k - 1, t), n - 1).0 + 1
    ensures Schedule(Running, QuietThen(k, t), n).1 == Schedule(Running, QuietThen(k - 1, t), n - 1).1
  {
    var sigs := QuietThen(k, t);
    assert sigs == [NoCall, NoCall] + QuietThen(k - 1, t);
    assert sigs[2..] == QuietThen(k - 1, t);
    QuietItem(sigs, n);
  }

  /** An item with two quiet status reads before it runs, and the run goes on from Running. */
  lemma QuietItem(sigs: seq<Signal>, n: nat)
    requires n > 0 && |sigs| >= 2 && sigs[0] == NoCall && sigs[1] == NoCall
    ensures Schedule(Running, sigs, n).0 == Schedule(Running, sigs[2..], n - 1).0 + 1
    ensures Schedule(Running, sigs, n).1 == Schedule(Running, sigs[2..], n - 1).1
  {
    assert sigs[1..][0] == NoCall && sigs[1..][1..] == sigs[2..];
    assert Boundary(Running, sigs) == (Proceed, Running, sigs[2..]);
  }

  /** From Idle, the items nobody interrupts come first; the execution then goes on as one
      from Running over the items that are left. */
  lemma QuietPrefix(k: nat, t: seq<Signal>, n: nat)
    requires k <= n
    ensures Plan(Idle, QuietThen(k, t), n).0 == Schedule(Running, t, n - k).0 + k
    ensures Plan(Idle, QuietThen(k, t), n).1 == Schedule(Running, t, n - k).1
  {
    QuietItems(k, t, n);
  }

  /** A Stop seen at the check before an item breaks the loop before that item. */
  lemma StoppedFirst(t: seq<Signal>, m: nat)
    requires m > 0 && t != [] && t[0] == StopCall
    ensures Schedule(Running, t, m) == (0, StoppedAtBoundary)
  {
    assert Boundary(Running, t) == (Break, Stopped, t[1..]);
    ScheduleStep(Running, t, m, Break, Stopped, t[1..]);
  }

  /** A Stop after the first k of n items completed: exactly k items run, the loop breaks at
      the next boundary and OnQueueComplete still fires. */
  lemma StopAfterItems(k: nat, t: seq<Signal>, n: nat)
    requires k < n && t != [] && t[0] == StopCall
    ensures Plan(Idle, QuietThen(k, t), n) == (k, StoppedAtBoundary)
    ensures Events(Plan(Idle, QuietThen(k, t), n)) == StartedEvents(k) + [QueueComplete]
  {
    StoppedFirst(t, n - k);
    QuietPrefix(k, t, n);
  }

  /** A Pause seen at the check before an item, then a Stop seen inside the pause loop:
      Execute returns before that item. */
  lemma PausedThenStopped(t: seq<Signal>, m: nat)
    requires m > 0 && |t| >= 3 && t[0] == PauseCall && t[1] == NoCall && t[2] == StopCall
    ensures Schedule(Running, t, m) == (0, StoppedWhilePaused)
  {
    assert Read(Running, t) == (Paused, t[1..]);
    assert Read(Paused, t[1..]) == (Paused, t[2..]);
    assert PauseLoop(Paused, t[2..]) == (Return, Stopped, t[3..]);
    ScheduleStep(Running, t, m, Return, Stopped, t[3..]);
  }

  /** A Pause after the first k of n items, then a Stop seen while paused: exactly k items
      run and Execute returns without OnQueueComplete. */
  lemma StopWhilePaused(k: nat, t: seq<Signal>, n: nat)
    requires k < n && |t| >= 3 && t[0] == PauseCall && t[1] == NoCall && t[2] == StopCall
    ensures Plan(Idle, QuietThen(k, t), n) == (k, StoppedWhilePaused)
    ensures Events(Plan(Idle, QuietThen(k, t), n)) == StartedEvents(k)
  {
    PausedThenStopped(t, n - k);
    QuietPrefix(k, t, n);
  }

  /** After a run of the first k items of a queue of pending items, exactly those k carry a
      result and a terminal status; the others are still pending. */
  lemma RanTerminal(before: seq<QueueItem>, after: seq<QueueItem>, outs: seq<Outcome>, k: nat)
    requires Ran(before, after, outs, k)
    requires forall j :: 0 <= j < |before| ==> before[j].status == Pending
    ensures forall j :: 0 <= j < |after| ==>
      && ((after[j].status == Completed || after[j].status == Failed) <==> j < k)
      && (j < k ==> after[j].result == Some(outs[j].result))
      && (j >= k ==> after[j] == before[j])
  {
  }

  /** The status word after Execute: unchanged when it did not start, Paused when it is
      still waiting, else Idle (the deferred store). */
  function FinalStatus(old_: QueueStatus, e: Ending): QueueStatus
  {
    match e
    case NotStarted => old_
    case StillPaused => Paused
    case _ => Idle
  }

  /** The hooks called for the first `k` items, in index order. */
  function StartedEvents(k: nat): seq<Event>
  {
    if k == 0 then [] else StartedEvents(k - 1) + [TaskStart(k - 1), TaskComplete(k - 1)]
  }

  /** All hook points an execution reaches: OnQueueComplete only when the loop ended normally or
      by a break. */
  function Events(p: (nat, Ending)): seq<Event>
  {
    StartedEvents(p.0) + (if p.1 == Finished || p.1 == StoppedAtBoundary then [QueueComplete] else [])
  }

  // ---------------------------------------------------------------------------------
  // What the tasks do when they run

  /** The fields of a task that its runs change: the scan totals and the progress. */
  datatype Counters = Counters(files: int, size: int, updates: seq<Progress>, processed: int, compressed: int)

  ghost function CountersOf(t: CompressTask): Counters
    reads t
  {
    Counters(t.TotalFiles, t.TotalSize, t.Updates, t.ProcessedFiles, t.CompressedSize)
  }

  ghost function CountersOfAll(items: seq<QueueItem>): (r: seq<Counters>)
    reads set i | 0 <= i < |items| :: items[i].task
    ensures |r| == |items| && forall i :: 0 <= i < |items| ==> r[i] == CountersOf(items[i].task)
  {
    if items == [] then [] else CountersOfAll(items[..|items| - 1]) + [CountersOf(items[|items| - 1].task)]
  }

  /** What the next Execute of task `t` does when its counters are `c`. */
  function Perform(t: CompressTask, c: Counters, host: Host): Outcome
  {
    Run(t.SourcePath, t.TargetZipPath, t.Options, host, c.files, c.size)
  }

  /** `after` are the counters of a task whose run from counters `c` had outcome `o`: the
      scan totals and the progress reports of that run. */
  predicate RanFrom(after: Counters, c: Counters, o: Outcome)
  {
    && after.files == o.files && after.size == o.size
    && ReportedIn(after.updates, after.processed, after.compressed, o.updates, c.updates, c.processed, c.compressed)
  }

  /** The outcomes of running the tasks of `items` from counters `cs`. */
  function Outcomes(items: seq<QueueItem>, cs: seq<Counters>, host: Host): (r: seq<Outcome>)
    requires |items| == |cs|
    ensures |r| == |items|
  {
    if items == [] then []
    else
      var k := |items| - 1;
      Outcomes(items[..k], cs[..k], host) + [Perform(items[k].task, cs[k], host)]
  }

  lemma {:induction false} OutcomesAt(items: seq<QueueItem>, cs: seq<Counters>, host: Host, j: nat)
    requires j < |items| == |cs|
    ensures Outcomes(items, cs, host)[j] == Perform(items[j].task, cs[j], host)
    decreases |items|
  {
    var k := |items| - 1;
    if j < k {
      OutcomesAt(items[..k], cs[..k], host, j);
    }
  }

  /** `outs` holds, for each task of `items`, the outcome of running it from its counters
      in `cs`; the fact about item j comes into play only where its run is mentioned. */
  ghost predicate Performed(items: seq<QueueItem>, cs: seq<Counters>, host: Host, outs: seq<Outcome>)
  {
    && |items| == |cs| == |outs|
    && forall j {:trigger Perform(items[j].task, cs[j], host)} :: 0 <= j < |items| ==>
         outs[j] == Perform(items[j].task, cs[j], host)
  }

  lemma OutcomesPerformed(items: seq<QueueItem>, cs: seq<Counters>, host: Host)
    requires |items| == |cs|
    ensures Performed(items, cs, host, Outcomes(items, cs, host))
  {
    forall j | 0 <= j < |items|
      ensures Outcomes(items, cs, host)[j] == Perform(items[j].task, cs[j], host)
    {
      OutcomesAt(items, cs, host, j);
    }
  }

  /** The archives on the local disk after the tasks of `items` ran in order with outcomes `outs`. */
  function Archives(m: map<Path, Archive>, items: seq<QueueItem>, outs: seq<Outcome>): map<Path, Archive>
    requires |items| == |outs|
  {
    if items == [] then m
    else
      var k := |items| - 1;
      var before := Archives(m, items[..k], outs[..k]);
      if outs[k].archive.Some? then before[items[k].task.TargetZipPath := outs[k].archive.value] else before
  }

  /** An item after its task ran with result `r`. */
  function Finish(item: QueueItem, r: CompressResult): QueueItem
  {
    item.(result := Some(r), status := if r.success then Completed else Failed)
  }

  /** `after` is `before` once its first `i` items ran, in order, with outcomes `outs`: the
      items below i finished with their result, the others untouched. */
  predicate Ran(before: seq<QueueItem>, after: seq<QueueItem>, outs: seq<Outcome>, i: nat)
  {
    && |before| == |after| == |outs|
    && forall j :: 0 <= j < |after| ==> after[j] == if j < i then Finish(before[j], outs[j].result) else before[j]
  }

  /** Ran, stated item by item from the end. */
  predicate Stepped(before: seq<QueueItem>, after: seq<QueueItem>, outs: seq<Outcome>, i: nat)
    decreases |after|
  {
    && |before| == |after| == |outs|
    && (after != [] ==>
          var k := |after| - 1;
          && Stepped(before[..k], after[..k], outs[..k], i)
          && after[k] == if k < i then Finish(before[k], outs[k].result) else before[k])
  }

  lemma {:induction false} SteppedIsRan(before: seq<QueueItem>, after: seq<QueueItem>, outs: seq<Outcome>, i: nat)
    ensures Stepped(before, after, outs, i) <==> Ran(before, after, outs, i)
    decreases |after|
  {
    if |before| == |after| == |outs| && after != [] {
      var k := |after| - 1;
      SteppedIsRan(before[..k], after[..k], outs[..k], i);
      assert forall j :: 0 <= j < k ==> before[..k][j] == before[j] && after[..k][j] == after[j] && outs[..k][j] == outs[j];
    }
  }

  /** The state of an execution that has run the items below i: their items finished, and
      `m` is the disk's archives once their archives were written over `m0`. */
  predicate Progressed(before: seq<QueueItem>, after: seq<QueueItem>, outs: seq<Outcome>, i: nat,
                       m0: map<Path, Archive>, m: map<Path, Archive>)
  {
    && i <= |after| && Stepped(before, after, outs, i)
    && m == Archives(m0, before[..i], outs[..i])
  }

  /** Running item i, which is still as it was, finishes it and writes its archive. */
  lemma ProgressedStep(before: seq<QueueItem>, after: seq<QueueItem>, outs: seq<Outcome>, i: nat,
                       m0: map<Path, Archive>, m: map<Path, Archive>)
    requires Progressed(before, after, outs, i, m0, m) && i < |after|
    ensures after[i] == before[i]
    ensures Progressed(before, after[i := Finish(before[i], outs[i].result)], outs, i + 1, m0,
                       if outs[i].archive.Some? then m[before[i].task.TargetZipPath := outs[i].archive.value] else m)
  {
    SteppedIsRan(before, after, outs, i);
    SteppedIsRan(before, after[i := Finish(before[i], outs[i].result)], outs, i + 1);
    assert before[..i + 1][..i] == before[..i];
    assert outs[..i + 1][..i] == outs[..i];
  }

  /** The counters of the tasks of `items`, which started from `cs`, once the first `i` ran
      with outcomes `outs`: those hold what their run left, the others are untouched. */
  ghost predicate CountersAfter(items: seq<QueueItem>, cs: seq<Counters>, outs: seq<Outcome>, i: nat)
    reads set j | 0 <= j < |items| :: items[j].task
  {
    && |items| == |cs| == |outs|
    && forall j :: 0 <= j < |items| ==>
         if j < i then RanFrom(CountersOf(items[j].task), cs[j], outs[j]) else CountersOf(items[j].task) == cs[j]
  }

  /** CountersAfter, stated task by task from the end. */
  ghost predicate TasksAfter(items: seq<QueueItem>, cs: seq<Counters>, outs: seq<Outcome>, i: nat)
    reads *
    decreases |items|
  {
    && |items| == |cs| == |outs|
    && (items != [] ==>
          var k := |items| - 1;
          && TasksAfter(items[..k], cs[..k], outs[..k], i)
          && if k < i then RanFrom(CountersOf(items[k].task), cs[k], outs[k]) else CountersOf(items[k].task) == cs[k])
  }

  lemma {:induction false} TasksAfterIsCountersAfter(items: seq<QueueItem>, cs: seq<Counters>, outs: seq<Outcome>, i: nat)
    ensures TasksAfter(items, cs, outs, i) <==> CountersAfter(items, cs, outs, i)
    decreases |items|
  {
    if |items| == |cs| == |outs| && items != [] {
      var k := |items| - 1;
      TasksAfterIsCountersAfter(items[..k], cs[..k], outs[..k], i);
      assert forall j :: 0 <= j < k ==> items[..k][j] == items[j] && cs[..k][j] == cs[j] && outs[..k][j] == outs[j];
    }
  }

  // ---------------------------------------------------------------------------------
  // Queries

  /** The target paths of the items whose task succeeded, in item order. */
  function CompletedPaths(items: seq<QueueItem>): seq<Path>
  {
    if items == [] then []
    else
      var last := items[|items| - 1];
      CompletedPaths(items[..|items| - 1]) +
        (if last.result.Some? && last.result.value.success then [last.result.value.targetZipPath] else [])
  }

  /** The archives CleanupFailedTasks removes: the targets of the items whose task ran and
      failed, when not empty. */
  function FailedTargets(items: seq<QueueItem>): set<Path>
  {
    set i | 0 <= i < |items| && items[i].result.Some? && !items[i].result.value.success &&
            items[i].task.TargetZipPath != "" :: items[i].task.TargetZipPath
  }

  /** The tallies of PrintSummary. */
  datatype Summary = Summary(succeeded: nat, failed: nat, originalSize: int, compressedSize: int)

  function Tally(items: seq<QueueItem>): Summary
  {
    if items == [] then Summary(0, 0, 0, 0)
    else
      var s := Tally(items[..|items| - 1]);
      var r := items[|items| - 1].result;
      if r.None? || !r.value.success then s.(failed := s.failed + 1)
      else Summary(s.succeeded + 1, s.failed, s.originalSize + r.value.totalSize, s.compressedSize + r.value.compressedSize)
  }

  /** Every item is tallied once, as a success or as a failure, and the successes are
      exactly the items whose targets GetCompletedZipPaths lists. */
  lemma {:induction false} TallyCounts(items: seq<QueueItem>)
    ensures Tally(items).succeeded + Tally(items).failed == |items|
    ensures |CompletedPaths(items)| == Tally(items).succeeded
    decreases |items|
  {
    if items != [] {
      TallyCounts(items[..|items| - 1]);
    }
  }

  /** A path is listed by GetCompletedZipPaths exactly when some item succeeded with it as
      its target. */
  lemma {:induction false} CompletedPathsMembers(items: seq<QueueItem>)
    ensures forall p :: p in CompletedPaths(items) <==>
      exists i :: 0 <= i < |items| && items[i].result.Some? && items[i].result.value.success &&
                  items[i].result.value.targetZipPath == p
    decreases |items|
  {
    if items != [] {
      var init := items[..|items| - 1];
      CompletedPathsMembers(init);
      assert forall i :: 0 <= i < |init| ==> init[i] == items[i];
    }
  }

  /** The target AddTask uses: the given one, or for an empty one the simple archive name
      when exactly one item is queued already, the unique name otherwise. */
  function DefaultTarget(host: Host, source: Path, target: Path, queued: nat): Path
  {
    if target != "" then target
    else if queued == 1 then GenerateSimpleZipName(host, source)
    else GenerateUniqueZipName(host, source)
  }

  /** No two items share a task. */
  predicate DistinctTasks(s: seq<QueueItem>)
  {
    s == [] ||
    (DistinctTasks(s[..|s| - 1]) && forall k :: 0 <= k < |s| - 1 ==> s[k].task != s[|s| - 1].task)
  }

  /** The task of item i is no other item's. */
  lemma {:induction false} DistinctTasksAt(s: seq<QueueItem>, i: nat)
    requires DistinctTasks(s) && i < |s|
    ensures forall j :: 0 <= j < |s| && j != i ==> s[j].task != s[i].task
    decreases |s|
  {
    var k := |s| - 1;
    if i < k {
      DistinctTasksAt(s[..k], i);
      assert forall j :: 0 <= j < k ==> s[..k][j] == s[j];
    }
  }

  /** Distinctness depends on the tasks only. */
  lemma {:induction false} DistinctTasksSame(s: seq<QueueItem>, t: seq<QueueItem>)
    requires DistinctTasks(s) && |s| == |t|
    requires forall j :: 0 <= j < |s| ==> s[j].task == t[j].task
    ensures DistinctTasks(t)
    decreases |s|
  {
    if s != [] {
      var k := |s| - 1;
      DistinctTasksSame(s[..k], t[..k]);
    }
  }

  /** The archive name AddDirectory gives the j-th directory. */
  function ZipNameFor(host: Host, dirs: seq<Path>, j: nat): Path
    requires j < |dirs|
  {
    if |dirs| == 1 then GenerateSimpleZipName(host, dirs[j]) else GenerateUniqueZipName(host, dirs[j])
  }

  /** The archive names of the first `n` directories. */
  function ZipNamesUpTo(host: Host, dirs: seq<Path>, n: nat): (r: seq<Path>)
    requires n <= |dirs|
    ensures |r| == n
  {
    if n == 0 then [] else ZipNamesUpTo(host, dirs, n - 1) + [ZipNameFor(host, dirs, n - 1)]
  }

  /** The archive names AddDirectory gives the directories, in order. */
  function ZipNames(host: Host, dirs: seq<Path>): (r: seq<Path>)
    ensures |r| == |dirs|
  {
    ZipNamesUpTo(host, dirs, |dirs|)
  }

  lemma {:induction false} ZipNamesUpToAt(host: Host, dirs: seq<Path>, n: nat, j: nat)
    requires j < n <= |dirs|
    ensures ZipNamesUpTo(host, dirs, n)[j] == ZipNameFor(host, dirs, j)
    decreases n
  {
    var init := ZipNamesUpTo(host, dirs, n - 1);
    if j < n - 1 {
      ZipNamesUpToAt(host, dirs, n - 1, j);
    }
    NameAt(init, ZipNameFor(host, dirs, n - 1), ZipNamesUpTo(host, dirs, n), j, ZipNameFor(host, dirs, j));
  }

  /** The j-th of `init` followed by `last` is the j-th of `init`, or `last` at the end. */
  lemma NameAt(init: seq<Path>, last: Path, names: seq<Path>, j: nat, x: Path)
    requires names == init + [last] && j <= |init|
    requires j < |init| ==> init[j] == x
    requires j == |init| ==> last == x
    ensures names[j] == x
  {
  }

  lemma AppendAssoc<T>(a: seq<T>, b: seq<T>, c: seq<T>)
    ensures (a + b) + c == a + (b + c)
  {
  }

  /** The j-th archive name: the simple name when there is one directory, else the unique one. */
  lemma ZipNamesAt(host: Host, dirs: seq<Path>, j: nat)
    requires j < |dirs|
    ensures ZipNames(host, dirs)[j] == ZipNameFor(host, dirs, j)
  {
    ZipNamesUpToAt(host, dirs, |dirs|, j);
  }

  /** AddTask cannot add the j-th directory: one of its two paths has no absolute form. */
  predicate Rejected(host: Host, dirs: seq<Path>, j: nat)
    requires j < |dirs|
  {
    host.abs(dirs[j]).None? || host.abs(ZipNames(host, dirs)[j]).None?
  }

  /** The first directory from index `i` on that AddTask cannot add, or |dirs|. */
  function FirstRejected(host: Host, dirs: seq<Path>, i: nat): (k: nat)
    requires i <= |dirs|
    ensures i <= k <= |dirs|
    decreases |dirs| - i
  {
    if i == |dirs| then i
    else if Rejected(host, dirs, i) then i
    else FirstRejected(host, dirs, i + 1)
  }

  /** A task's counters as NewCompressTask leaves them: all zero, no progress reported. */
  ghost predicate Unstarted(t: CompressTask)
    reads t
  {
    t.TotalFiles == 0 && t.TotalSize == 0 && t.CompressedSize == 0 && t.ProcessedFiles == 0 && t.Updates == []
  }

  /** An item as AddTask appends it for `source` and `target`, both with an absolute form:
      pending, no result, no retries, its task on the absolute paths with the effective options. */
  predicate Queued(item: QueueItem, host: Host, source: Path, target: Path, opts: Option<CompressOptions>)
  {
    && host.abs(source).Some? && host.abs(target).Some?
    && item.result.None? && item.status == Pending && item.retryCount == 0
    && item.task.SourcePath == host.abs(source).value && item.task.TargetZipPath == host.abs(target).value
    && item.task.Options == EffectiveOptions(opts)
  }

  /** The queue after AddDirectory added the directories `dirs` to `items0`: one queued
      task per directory up to the first rejected one, which is the error reported. */
  ghost predicate AddedAll(items0: seq<QueueItem>, items: seq<QueueItem>, host: Host, dirs: seq<Path>,
                           opts: Option<CompressOptions>, err: Option<QueueError>)
  {
    var k := FirstRejected(host, dirs, 0);
    && |items| == |items0| + k && items[..|items0|] == items0
    && (err.None? <==> k == |dirs|)
    && (err.Some? ==> err.value.AddTaskFailed? && err.value.dir == dirs[k])
    && forall j :: 0 <= j < k ==> Queued(items[|items0| + j], host, dirs[j], ZipNames(host, dirs)[j], opts)
  }

  class CompressQueue {
    var items: seq<QueueItem>
    var status: QueueStatus
    const maxConcurrent: int

    /** Every item has a task of its own. */
    ghost predicate Valid()
      reads this`items
    {
      DistinctTasks(items)
    }

    ghost function Tasks(): set<CompressTask>
      reads this`items
    {
      set i | 0 <= i < |items| :: items[i].task
    }

    /** NewCompressQueue: at least one concurrent task, Idle, no items. */
    constructor (maxConcurrent: int)
      ensures this.maxConcurrent == (if maxConcurrent < 1 then 1 else maxConcurrent)
      ensures items == [] && status == Idle && Valid()
    {
      this.maxConcurrent := if maxConcurrent < 1 then 1 else maxConcurrent;
      items := [];
      status := Idle;
    }

    /** AddTask: resolves both paths and appends one pending item with a new task. */
    method AddTask(sourcePath: Path, targetZipPath: Path, opts: Option<CompressOptions>, host: Host)
      returns (err: Option<QueueError>)
      requires Valid()
      modifies this`items
      ensures Valid()
      ensures var target := DefaultTarget(host, sourcePath, targetZipPath, |old(items)|);
        && (host.abs(sourcePath).None? ==> err == Some(AbsSourceFailed(sourcePath)))
        && (host.abs(sourcePath).Some? && host.abs(target).None? ==> err == Some(AbsTargetFailed(target)))
        && (err.Some? ==> items == old(items))
        && (err.None? <==> host.abs(sourcePath).Some? && host.abs(target).Some?)
        && (err.None? ==>
              && |items| == |old(items)| + 1 && items == old(items) + [items[|old(items)|]]
              && fresh(items[|old(items)|].task)
              && Queued(items[|old(items)|], host, sourcePath, target, opts)
              && Unstarted(items[|old(items)|].task))
    {
      var absSource := host.abs(sourcePath);
      if absSource.None? {
        return Some(AbsSourceFailed(sourcePath));
      }
      var target := targetZipPath;
      if target == "" {
        if |items| == 1 {
          target := GenerateSimpleZipName(host, sourcePath);
        } else {
          target := GenerateUniqueZipName(host, sourcePath);
        }
      }
      var absTarget := host.abs(target);
      if absTarget.None? {
        return Some(AbsTargetFailed(target));
      }
      var task := new CompressTask(absSource.value, absTarget.value, opts);
      items := items + [QueueItem(task, None, Pending, 0)];
      return None;
    }

    /** AddDirectory: one task per selected sub-directory, named by the simple archive name
        when there is a single directory and by the unique name otherwise; stops at the
        first task that cannot be added, keeping the ones added before it. */
    method AddDirectory(parentPath: Path, depth: int, opts: Option<CompressOptions>, host: Host)
      returns (err: Option<QueueError>)
      requires Valid()
      modifies this`items
      ensures Valid()
      ensures var (dirs, e) := SubDirectories(host, parentPath, depth);
        && (e.Some? ==> err == Some(SubDirectoriesFailed(e.value)) && items == old(items))
        && (e.None? ==> AddedAll(old(items), items, host, dirs, opts, err))
    {
      var dirs, e := GetSubDirectories(host, parentPath, depth);
      if e.Some? {
        return Some(SubDirectoriesFailed(e.value));
      }
      err := AddAll(dirs, opts, host);
    }

    /** AddDirectory's loop over the directories it found. */
    method AddAll(dirs: seq<Path>, opts: Option<CompressOptions>, host: Host) returns (err: Option<QueueError>)
      requires Valid()
      modifies this`items
      ensures Valid()
      ensures AddedAll(old(items), items, host, dirs, opts, err)
    {
      var i := 0;
      err := None;
      ghost var added: seq<QueueItem> := [];
      while i < |dirs| && err.None?
        invariant 0 <= i <= |dirs| && Valid()
        invariant FirstRejected(host, dirs, i) == FirstRejected(host, dirs, 0)
        invariant items == old(items) + added && |added| == i
        invariant forall j :: 0 <= j < i ==> Queued(added[j], host, dirs[j], ZipNames(host, dirs)[j], opts)
        invariant err.Some? ==> i < |dirs| && FirstRejected(host, dirs, 0) == i && err.value.AddTaskFailed? && err.value.dir == dirs[i]
        decreases |dirs| - i, if err.None? then 1 else 0
      {
        var next;
        err, next, added := AddOne(dirs, i, opts, host, old(items), added);
        i := next;
      }
    }

    /** The archive name AddDirectory gives directory i: the simple name when it is the
        only directory, else the unique one; AddTask keeps it as it is. */
    method ArchiveName(dirs: seq<Path>, i: nat, host: Host) returns (zipName: Path)
      requires i < |dirs|
      ensures zipName == ZipNames(host, dirs)[i] && zipName != ""
    {
      if |dirs| == 1 {
        zipName := GenerateSimpleZipName(host, dirs[i]);
      } else {
        zipName := GenerateUniqueZipName(host, dirs[i]);
      }
      ZipNamesAt(host, dirs, i);
    }

    /** One turn of AddDirectory's loop: the task for directory i under its archive name. */
    method AddOne(dirs: seq<Path>, i: nat, opts: Option<CompressOptions>, host: Host,
                  ghost items0: seq<QueueItem>, ghost added: seq<QueueItem>)
      returns (err: Option<QueueError>, next: nat, ghost added': seq<QueueItem>)
      requires i < |dirs| && Valid()
      requires items == items0 + added && |added| == i
      requires forall j :: 0 <= j < i ==> Queued(added[j], host, dirs[j], ZipNames(host, dirs)[j], opts)
      modifies this`items
      ensures Valid() && next == if err.None? then i + 1 else i
      ensures FirstRejected(host, dirs, next) == FirstRejected(host, dirs, i)
      ensures items == items0 + added' && |added'| == next
      ensures forall j :: 0 <= j < next ==> Queued(added'[j], host, dirs[j], ZipNames(host, dirs)[j], opts)
      ensures err.Some? ==> FirstRejected(host, dirs, i) == i && err.value.AddTaskFailed? && err.value.dir == dirs[i]
    {
      err := AddDirectoryTask(dirs, i, opts, host);
      FirstRejectedStep(host, dirs, i);
      if err.Some? {
        return err, i, added;
      }
      added' := added + [items[|items| - 1]];
      AppendAssoc(items0, added, [items[|items| - 1]]);
      return None, i + 1, added';
    }

    /** The task for directory i under its archive name; a failure is reported with the
        directory, and it happens exactly when the directory is rejected. */
    method AddDirectoryTask(dirs: seq<Path>, i: nat, opts: Option<CompressOptions>, host: Host)
      returns (err: Option<QueueError>)
      requires i < |dirs| && Valid()
      modifies this`items
      ensures Valid()
      ensures err.Some? <==> Rejected(host, dirs, i)
      ensures err.Some? ==> items == old(items) && err.value.AddTaskFailed? && err.value.dir == dirs[i]
      ensures err.None? ==>
        && |items| == |old(items)| + 1 && items == old(items) + [items[|old(items)|]]
        && Queued(items[|old(items)|], host, dirs[i], ZipNames(host, dirs)[i], opts)
    {
      var zipName := ArchiveName(dirs, i, host);
      var addErr := AddTask(dirs[i], zipName, opts, host);
      if addErr.Some? {
        return Some(AddTaskFailed(dirs[i], addErr.value));
      }
      return None;
    }

    function Count(): nat
      reads this
    {
      |items|
    }

    function GetStatus(): QueueStatus
      reads this
    {
      status
    }

    /** Stop: stores Stopped whatever the status was. */
    method Stop()
      modifies this`status
      ensures status == Stopped
    {
      status := Stopped;
    }

    /** Pause: stores Paused whatever the status was. */
    method Pause()
      modifies this`status
      ensures status == Paused
    {
      status := Paused;
    }

    /** Resume: Paused becomes Running; any other status is left as it is. */
    method Resume()
      modifies this`status
      ensures old(status) == Paused ==> status == Running
      ensures old(status) != Paused ==> status == old(status)
    {
      if status == Paused {
        status := Running;
      }
    }

    /** A read of the status word, after the call the next signal stands for. */
    method ReadStatus(signals: seq<Signal>) returns (s: QueueStatus, rest: seq<Signal>)
      modifies this`status
      ensures (s, rest) == Read(old(status), signals) && status == s
    {
      rest := signals;
      if rest != [] {
        match rest[0] {
          case NoCall =>
          case StopCall => Stop();
          case PauseCall => Pause();
          case ResumeCall => Resume();
        }
        rest := rest[1..];
      }
      s := GetStatus();
    }

    /** The checks at the top of Execute's loop: a break on Stopped, then the pause loop. */
    method CheckBoundary(signals: seq<Signal>) returns (gate: Gate, rest: seq<Signal>)
      modifies this`status
      ensures (gate, status, rest) == Boundary(old(status), signals)
    {
      var s;
      s, rest := ReadStatus(signals);
      if s == Stopped {
        return Break, rest;
      }
      var c;
      c, rest := ReadStatus(rest);
      while c == Paused
        invariant status == c
        invariant PauseLoop(c, rest) == Boundary(old(status), signals)
        decreases |rest|
      {
        if rest == [] {
          // Nobody resumes or stops the queue: the goroutine sleeps for ever.
          return Blocked, rest;
        }
        s, rest := ReadStatus(rest);
        if s == Stopped {
          return Return, rest;
        }
        c, rest := ReadStatus(rest);
      }
      return Proceed, rest;
    }

    /** The body of Execute's loop for item i: marks it running, runs its task and records
        the result and the final status. */
    method RunItem(i: nat, host: Host, disk: LocalDisk) returns (r: CompressResult)
      requires Valid() && i < |items|
      modifies this`items, items[i].task, disk
      ensures Valid() && |items| == |old(items)|
      ensures var c := old(CountersOf(items[i].task));
        var o := Perform(items[i].task, c, host);
        && r == o.result
        && items == old(items)[i := Finish(old(items[i]), o.result)]
        && RanFrom(CountersOf(items[i].task), c, o)
        && disk.archives == (if o.archive.Some? then old(disk.archives)[items[i].task.TargetZipPath := o.archive.value]
                             else old(disk.archives))
    {
      ghost var before := items;
      items := items[i := items[i].(status := InProgress)];
      r := items[i].task.Execute(host, disk);
      items := items[i := Finish(items[i], r)];
      DistinctTasksSame(before, items);
    }

    /** The run of item i, once the checks let it run. */
    method Advance(i: nat, host: Host, disk: LocalDisk, ghost before: seq<QueueItem>, ghost cs: seq<Counters>,
                   ghost outs: seq<Outcome>, ghost m0: map<Path, Archive>)
      requires Valid() && i < |items|
      requires Progressed(before, items, outs, i, m0, disk.archives) && TasksAfter(items, cs, outs, i)
      requires Performed(before, cs, host, outs)
      modifies this`items, before[i].task, disk
      ensures Valid() && |items| == |old(items)|
      ensures Progressed(before, items, outs, i + 1, m0, disk.archives) && TasksAfter(items, cs, outs, i + 1)
    {
      ProgressedStep(before, items, outs, i, m0, disk.archives);
      TasksAfterIsCountersAfter(items, cs, outs, i);
      assert outs[i] == Perform(before[i].task, cs[i], host);
      DistinctTasksAt(items, i);
      var r := RunItem(i, host, disk);
      TasksAfterIsCountersAfter(items, cs, outs, i + 1);
    }

    /** One turn of Execute's loop: the checks before item i, then its run if they let it;
        `next` is the index of the item the loop looks at next. */
    method Turn(i: nat, host: Host, disk: LocalDisk, signals: seq<Signal>, ghost before: seq<QueueItem>,
                ghost cs: seq<Counters>, ghost outs: seq<Outcome>, ghost m0: map<Path, Archive>)
      returns (gate: Gate, rest: seq<Signal>, next: nat)
      requires Valid() && i < |items|
      requires Progressed(before, items, outs, i, m0, disk.archives) && TasksAfter(items, cs, outs, i)
      requires Performed(before, cs, host, outs)
      modifies this`items, this`status, before[i].task, disk
      ensures (gate, status, rest) == Boundary(old(status), signals)
      ensures next == if gate == Proceed then i + 1 else i
      ensures |items| == |old(items)|
      ensures Valid() && Progressed(before, items, outs, next, m0, disk.archives) && TasksAfter(items, cs, outs, next)
    {
      TasksAfterIsCountersAfter(items, cs, outs, i);
      gate, rest := CheckBoundary(signals);
      TasksAfterIsCountersAfter(items, cs, outs, i);
      next := i;
      if gate == Proceed {
        Advance(i, host, disk, before, cs, outs, m0);
        next := i + 1;
      }
    }

    /** One turn of RunItems: the boundary checks, then the item when they let it run;
        the schedule still to come shrinks by the item run, or the run ends. */
    method Step(i: nat, n: nat, host: Host, disk: LocalDisk, signals: seq<Signal>, events: seq<Event>,
                ghost before: seq<QueueItem>, ghost cs: seq<Counters>, ghost outs: seq<Outcome>,
                ghost m0: map<Path, Archive>, ghost plan: (nat, Ending))
      returns (next: nat, rest: seq<Signal>, events': seq<Event>, ending: Ending)
      requires |before| == |items| == n && i < n && i <= plan.0
      requires Schedule(status, signals, n - i) == (plan.0 - i, plan.1)
      requires events == StartedEvents(i)
      requires Valid() && Progressed(before, items, outs, i, m0, disk.archives) && TasksAfter(items, cs, outs, i)
      requires Performed(before, cs, host, outs)
      modifies this`items, this`status, before[i].task, disk
      ensures |before| == |items| == n && next <= plan.0
      ensures next == if ending == Finished then i + 1 else i
      ensures ending == Finished ==> Schedule(status, rest, n - next) == (plan.0 - next, plan.1)
      ensures ending != Finished ==> next == plan.0 && ending == plan.1
      ensures events' == StartedEvents(next)
      ensures Valid() && Progressed(before, items, outs, next, m0, disk.archives) && TasksAfter(items, cs, outs, next)
    {
      ghost var status0 := status;
      var gate;
      gate, rest, next := Turn(i, host, disk, signals, before, cs, outs, m0);
      ScheduleTurn(status0, signals, n, i, gate, status, rest, plan);
      ending := Finished;
      events' := events;
      match gate {
        case Break => ending := StoppedAtBoundary;
        case Return => ending := StoppedWhilePaused;
        case Blocked => ending := StillPaused;
        case Proceed => events' := events + [TaskStart(i), TaskComplete(i)];
      }
    }

    /** The status store deferred to the end of Execute: a queue nobody resumes stays
        paused, any other ending leaves it Idle. */
    method Settle(ending: Ending, ghost cs: seq<Counters>, ghost outs: seq<Outcome>, ghost i: nat)
      requires TasksAfter(items, cs, outs, i)
      modifies this`status
      ensures status == if ending == StillPaused then Paused else Idle
      ensures CountersAfter(items, cs, outs, i)
    {
      TasksAfterIsCountersAfter(items, cs, outs, i);
      status := if ending == StillPaused then Paused else Idle;
    }

    /** Execute's loop, from the Running status: the checks before each item and the items
        they let run, in order; then the status store deferred to the end of Execute. */
    method RunItems(host: Host, disk: LocalDisk, signals: seq<Signal>, ghost before: seq<QueueItem>,
                    ghost cs: seq<Counters>, ghost outs: seq<Outcome>, ghost m0: map<Path, Archive>,
                    ghost tasks: set<CompressTask>)
      returns (events: seq<Event>, ending: Ending)
      requires Valid() && items == before && disk.archives == m0
      requires forall j :: 0 <= j < |before| ==> before[j].task in tasks
      requires Progressed(before, items, outs, 0, m0, disk.archives) && TasksAfter(items, cs, outs, 0)
      requires Performed(before, cs, host, outs)
      modifies this`items, this`status, disk, tasks
      ensures var plan := Schedule(old(status), signals, |before|);
        && ending == plan.1 && events == StartedEvents(plan.0)
        && status == FinalStatus(Idle, plan.1)
        && Valid() && Progressed(before, items, outs, plan.0, m0, disk.archives) && CountersAfter(items, cs, outs, plan.0)
    {
      ghost var plan := Schedule(status, signals, |before|);
      var n := |items|;
      var i := 0;
      var rest := signals;
      ending := Finished;
      events := [];
      while i < n && ending == Finished
        invariant |before| == |items| == n && i <= plan.0
        invariant ending == Finished ==> Schedule(status, rest, n - i) == (plan.0 - i, plan.1)
        invariant ending != Finished ==> i == plan.0 && ending == plan.1
        invariant events == StartedEvents(i)
        invariant Valid() && Progressed(before, items, outs, i, m0, disk.archives) && TasksAfter(items, cs, outs, i)
        decreases n - i, if ending == Finished then 1 else 0
      {
        i, rest, events, ending := Step(i, n, host, disk, rest, events, before, cs, outs, m0, plan);
      }
      Settle(ending, cs, outs, i);
    }

    /** Execute: from Idle only; runs the items in index order, each one pending, then
        running, then completed or failed, checking the status word before each; the
        status is Idle again at the end unless the queue is still paused. */
    method Execute(host: Host, disk: LocalDisk, signals: seq<Signal>) returns (events: seq<Event>)
      requires Valid()
      modifies this, disk, Tasks()
      ensures var plan := Plan(old(status), signals, |old(items)|);
        var outs := Outcomes(old(items), old(CountersOfAll(items)), host);
        && status == FinalStatus(old(status), plan.1)
        && events == Events(plan)
        && Valid() && Ran(old(items), items, outs, plan.0)
        && disk.archives == Archives(old(disk.archives), old(items)[..plan.0], outs[..plan.0])
        && CountersAfter(items, old(CountersOfAll(items)), outs, plan.0)
    {
      ghost var cs := CountersOfAll(items);
      ghost var outs := Outcomes(items, cs, host);
      if status != Idle {
        SteppedIsRan(items, items, outs, 0);
        return [];
      }
      status := Running;
      SteppedIsRan(items, items, outs, 0);
      TasksAfterIsCountersAfter(items, cs, outs, 0);
      OutcomesPerformed(items, cs, host);
      assert items[..0] == [] && outs[..0] == [];
      var ending;
      events, ending := RunItems(host, disk, signals, items, cs, outs, disk.archives, Tasks());
      ghost var plan := Schedule(Running, signals, |old(items)|);
      assert plan == Plan(old(status), signals, |old(items)|);
      if ending == Finished || ending == StoppedAtBoundary {
        events := events + [QueueComplete];
      }
      assert events == Events(plan);
      SteppedIsRan(old(items), items, outs, plan.0);
    }

    /** GetResults: the items, in order. */
    method GetResults() returns (results: seq<QueueItem>)
      ensures results == items
    {
      results := [];
      var i := 0;
      while i < |items|
        invariant 0 <= i <= |items| && results == items[..i]
      {
        results := results + [items[i]];
        i := i + 1;
      }
      assert items[..i] == items;
    }

    /** GetCompletedZipPaths: the targets of the successful items, in item order. */
    method GetCompletedZipPaths() returns (paths: seq<Path>)
      ensures paths == CompletedPaths(items)
    {
      paths := [];
      var i := 0;
      while i < |items|
        invariant 0 <= i <= |items| && paths == CompletedPaths(items[..i])
      {
        assert items[..i + 1][..i] == items[..i];
        var item := items[i];
        if item.result.Some? && item.result.value.success {
          paths := paths + [item.result.value.targetZipPath];
        }
        i := i + 1;
      }
      assert items[..i] == items;
    }

    /** CleanupFailedTasks: removes the archive of every item whose task ran and failed;
        a failing removal is ignored. */
    method CleanupFailedTasks(disk: LocalDisk)
      modifies disk
      ensures disk.archives == old(disk.archives) - FailedTargets(items)
    {
      var i := 0;
      while i < |items|
        invariant 0 <= i <= |items|
        invariant disk.archives == old(disk.archives) - FailedTargets(items[..i])
      {
        var item := items[i];
        assert FailedTargets(items[..i + 1]) ==
          FailedTargets(items[..i]) +
          (if item.result.Some? && !item.result.value.success && item.task.TargetZipPath != ""
           then {item.task.TargetZipPath} else {});
        if item.result.Some? && !item.result.value.success {
          if item.task.TargetZipPath != "" {
            var _ := disk.Remove(item.task.TargetZipPath);
          }
        }
        i := i + 1;
      }
      assert items[..i] == items;
    }

    /** The tallies PrintSummary prints: successes, failures (an item that did not run
        counts as failed) and the sizes summed over the successes. */
    method Summarize() returns (s: Summary)
      ensures s == Tally(items)
    {
      s := Summary(0, 0, 0, 0);
      var i := 0;
      while i < |items|
        invariant 0 <= i <= |items| && s == Tally(items[..i])
      {
        assert items[..i + 1][..i] == items[..i];
        var r := items[i].result;
        if r.None? || !r.value.success {
          s := s.(failed := s.failed + 1);
        } else {
          s := Summary(s.succeeded + 1, s.failed, s.originalSize + r.value.totalSize,
                       s.compressedSize + r.value.compressedSize);
        }
        i := i + 1;
      }
      assert items[..i] == items;
    }
  }

  /** One step of the search for the first directory AddTask rejects. */
  lemma FirstRejectedStep(host: Host, dirs: seq<Path>, i: nat)
    requires i < |dirs|
    ensures Rejected(host, dirs, i) ==> FirstRejected(host, dirs, i) == i
    ensures !Rejected(host, dirs, i) ==> FirstRejected(host, dirs, i) == FirstRejected(host, dirs, i + 1)
  {
  }

  /** FirstRejected finds the first rejected directory: none before it is rejected, and it
      is itself rejected unless it is past the end. */
  lemma {:induction false} FirstRejectedFirst(host: Host, dirs: seq<Path>, i: nat)
    requires i <= |dirs|
    ensures var k := FirstRejected(host, dirs, i);
      && (forall j :: i <= j < k ==> !Rejected(host, dirs, j))
      && (k < |dirs| ==> Rejected(host, dirs, k))
    decreases |dirs| - i
  {
    if i < |dirs| && !Rejected(host, dirs, i) {
      FirstRejectedFirst(host, dirs, i + 1);
    }
  }
}
