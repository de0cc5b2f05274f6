/** The logger: the asynchronous writer and its shutdown, and the class that rotates files. */
module Logs {
  import opened Bytes
  import opened LogFiles
  import opened LogLines
  import opened BlockQueues

  // ----- the writer thread among all producers -----

  datatype Phase = Running | Draining | Finished

  /** Producers push under the queue's lock at any time; the writer thread pops and writes. */
  datatype Writer = Writer(
    phase: Phase, queue: seq<string>, pushed: seq<string>, written: seq<string>, late: seq<string>)

  datatype Step =
    | Push(line: string)
    | Take // the blocking pop, and what thread_func does with the line
    | SeeEmpty // the test that ends the drain

  ghost predicate Enabled(w: Writer, s: Step) {
    match s
    case Push(_) => true
    case Take => w.queue != [] && !w.phase.Finished?
    case SeeEmpty => w.queue == [] && w.phase.Draining?
  }

  function Apply(w: Writer, s: Step): Writer {
    match s
    case Push(line) =>
      w.(queue := w.queue + [line], pushed := w.pushed + [line],
         late := if w.phase.Finished? then w.late + [line] else w.late)
    case Take =>
      if w.queue == [] then w
      else if w.phase.Running? && w.queue[0] == SENTINEL then w.(phase := Draining, queue := w.queue[1..])
      else w.(queue := w.queue[1..], written := w.written + [w.queue[0]])
    case SeeEmpty => w.(phase := Finished)
  }

  const FRESH: Writer := Writer(Running, [], [], [], [])

  function BeforeEnd(lines: seq<string>): seq<string> {
    if lines == [] || lines[0] == SENTINEL then [] else [lines[0]] + BeforeEnd(lines[1..])
  }

  function AfterEnd(lines: seq<string>): seq<string> {
    if lines == [] then [] else if lines[0] == SENTINEL then lines[1..] else AfterEnd(lines[1..])
  }

  lemma {:induction false} EndSplits(lines: seq<string>, more: seq<string>)
    ensures SENTINEL !in BeforeEnd(lines)
    ensures if SENTINEL in lines then lines == BeforeEnd(lines) + [SENTINEL] + AfterEnd(lines)
      else BeforeEnd(lines) == lines
    ensures SENTINEL in lines ==>
              BeforeEnd(lines + more) == BeforeEnd(lines) && AfterEnd(lines + more) == AfterEnd(lines) + more
  {
    if lines != [] {
      assert (lines + more)[1..] == lines[1..] + more;
      assert lines == [lines[0]] + lines[1..];
      if lines[0] != SENTINEL {
        EndSplits(lines[1..], more);
      }
    }
  }

  lemma {:induction false} FirstEnd(xs: seq<string>, ys: seq<string>)
    requires SENTINEL !in xs
    ensures BeforeEnd(xs + [SENTINEL] + ys) == xs && AfterEnd(xs + [SENTINEL] + ys) == ys
  {
    var all := xs + [SENTINEL] + ys;
    if xs == [] {
      assert all[1..] == ys;
    } else {
      assert all[1..] == xs[1..] + [SENTINEL] + ys;
      FirstEnd(xs[1..], ys);
    }
  }

  ghost predicate Inv(w: Writer) {
    if w.phase.Running? then w.pushed == w.written + w.queue && SENTINEL !in w.written && w.late == []
    else
      && SENTINEL in w.pushed
      && BeforeEnd(w.pushed) + AfterEnd(w.pushed) == w.written + w.queue
      && (if w.phase.Finished? then w.queue == w.late else w.late == [])
  }

  lemma PushKeeps(w: Writer, line: string)
    requires Inv(w)
    ensures Inv(Apply(w, Push(line)))
  {
    if w.phase.Running? {
      assert w.pushed + [line] == w.written + (w.queue + [line]);
    } else {
      EndSplits(w.pushed, [line]);
      var before, after := BeforeEnd(w.pushed), AfterEnd(w.pushed);
      assert before + (after + [line]) == (before + after) + [line];
      assert (w.written + w.queue) + [line] == w.written + (w.queue + [line]);
    }
  }

  lemma TakeKeeps(w: Writer)
    requires Inv(w) && Enabled(w, Take)
    ensures Inv(Apply(w, Take))
  {
    var line, rest := w.queue[0], w.queue[1..];
    assert w.queue == [line] + rest;
    if w.phase.Running? && line == SENTINEL {
      assert w.pushed == w.written + [SENTINEL] + rest;
      FirstEnd(w.written, rest);
    } else {
      assert w.written + w.queue == (w.written + [line]) + rest;
    }
  }

  lemma StepKeeps(w: Writer, s: Step)
    requires Inv(w) && Enabled(w, s)
    ensures Inv(Apply(w, s))
  {
    match s
    case Push(line) => PushKeeps(w, line);
    case Take => TakeKeeps(w);
    case SeeEmpty =>
  }

  ghost predicate IsRun(states: seq<Writer>, steps: seq<Step>) {
    && |states| == |steps| + 1 && states[0] == FRESH
    && forall i :: 0 <= i < |steps| ==> Enabled(states[i], steps[i]) && states[i + 1] == Apply(states[i], steps[i])
  }

  lemma {:induction false} RunKeeps(states: seq<Writer>, steps: seq<Step>, n: nat)
    requires IsRun(states, steps) && n <= |steps|
    ensures Inv(states[n])
  {
    hide Inv, Apply, Enabled;
    if n == 0 {
      FreshKeeps();
    } else {
      RunKeeps(states, steps, n - 1);
      StepKeeps(states[n - 1], steps[n - 1]);
    }
  }

  lemma FreshKeeps()
    ensures Inv(FRESH)
  {
  }

  /**
   * When the writer thread has returned, every line pushed before the end mark has been written
   * exactly once in push order, followed by those drained behind it; only lines pushed after the
   * thread's return are missing.
   */
  lemma NothingLost(states: seq<Writer>, steps: seq<Step>, n: nat)
    requires IsRun(states, steps) && n <= |steps| && states[n].phase.Finished?
    ensures var w := states[n];
            && w.pushed == BeforeEnd(w.pushed) + [SENTINEL] + AfterEnd(w.pushed)
            && SENTINEL !in BeforeEnd(w.pushed)
            && BeforeEnd(w.pushed) + AfterEnd(w.pushed) == w.written + w.late
    ensures BeforeEnd(states[n].pushed) <= states[n].written
  {
    hide Apply, Enabled;
    RunKeeps(states, steps, n);
    var w := states[n];
    EndSplits(w.pushed, []);
    WrittenCoversEnd(states, steps, n);
  }

  lemma {:induction false} WrittenCoversEnd(states: seq<Writer>, steps: seq<Step>, n: nat)
    requires IsRun(states, steps) && n <= |steps| && !states[n].phase.Running?
    ensures BeforeEnd(states[n].pushed) <= states[n].written
  {
    hide Inv;
    assert n > 0;
    var w, s := states[n - 1], steps[n - 1];
    RunKeeps(states, steps, n - 1);
    assert states[n] == Apply(w, s);
    if w.phase.Running? {
      RunningTake(w);
    } else {
      WrittenCoversEnd(states, steps, n - 1);
      HasEnd(w);
      if s.Push? {
        EndSplits(w.pushed, [s.line]);
      }
    }
  }

  lemma RunningTake(w: Writer)
    requires Inv(w) && w.phase.Running? && w.queue != [] && w.queue[0] == SENTINEL
    ensures BeforeEnd(w.pushed) == w.written
  {
    assert w.pushed == w.written + [SENTINEL] + w.queue[1..];
    FirstEnd(w.written, w.queue[1..]);
  }

  lemma HasEnd(w: Writer)
    requires Inv(w) && !w.phase.Running?
    ensures SENTINEL in w.pushed
  {
  }

  // ----- the class -----

  /** The clock and the answer of fopen at the k-th line. */
  datatype Tick = Tick(date: Date, opens: bool)

  function DiskLines(disk: map<string, seq<string>>, name: string): seq<string> {
    if name in disk then disk[name] else []
  }

  function WriteLines(s: LogState, lines: seq<string>, k: nat, clock: nat -> Tick): LogState
    requires s.splitLines > 0
    decreases |lines|
  {
    if lines == [] then s
    else WriteLines(Write(s, clock(k).date, clock(k).opens, lines[0]), lines[1..], k + 1, clock)
  }

  lemma WriteLinesStep(t: LogState, all: seq<string>, k: nat, clock: nat -> Tick)
    requires t.splitLines > 0 && k < |all|
    ensures var u := Write(t, clock(k).date, clock(k).opens, all[k]);
            u.splitLines > 0 && WriteLines(t, all[k..], k, clock) == WriteLines(u, all[k + 1..], k + 1, clock)
  {
  }

  lemma NoMoreLines(t: LogState, k: nat, clock: nat -> Tick)
    requires t.splitLines > 0
    ensures WriteLines(t, [], k, clock) == t
  {
  }

  lemma PoppedBeforeEnd(before: seq<string>, line: string, rest: seq<string>)
    requires before == [line] + rest && SENTINEL in before
    ensures var all := BeforeEnd(before) + AfterEnd(before);
            if line == SENTINEL then all == rest
            else SENTINEL in rest && all != [] && all[0] == line && all[1..] == BeforeEnd(rest) + AfterEnd(rest)
  {
    assert before[0] == line && before[1..] == rest;
  }

  class Log {
    const dirName: string
    const logName: string
    const splitLines: nat
    var count: nat
    var today: nat
    var fp: Option<string> // the open file by name; None is stderr
    var disk: map<string, seq<string>>
    var stderr: seq<string>

    /** The object and the file names show the rotation state. */
    ghost predicate Shows(s: LogState)
      reads this
    {
      && splitLines == s.splitLines > 0 && count == s.count && today == s.today && stderr == s.stderr
      && fp == (if s.out.OnFile? then Some(NameOf(dirName, logName, s.out.file)) else None)
      && (s.out.OnFile? ==> RealDate(s.out.file.date))
      && (forall f: LogFile :: RealDate(f.date) ==> DiskLines(disk, NameOf(dirName, logName, f)) == LinesOf(s.files, f))
    }

    constructor (dirName: string, logName: string, splitLines: int, d: Date)
      requires RealDate(d)
      ensures this.splitLines == (if splitLines > 0 then splitLines else 5000000)
      ensures this.dirName == dirName && this.logName == logName
      ensures Shows(Init(this.splitLines, d))
    {
      this.dirName, this.logName := dirName, logName;
      this.splitLines := if splitLines > 0 then splitLines else 5000000;
      count, today := 0, d.day;
      fp := Some(MakeLogFullname(dirName, logName, d, 0, if splitLines > 0 then splitLines else 5000000, true));
      disk, stderr := map[], [];
      new;
      assert dirName + DatePrefix(d) + logName + "" == NameOf(dirName, logName, LogFile(d, 0));
    }

    method SwitchLog(d: Date, opens: bool, ghost s: LogState)
      requires Shows(s) && RealDate(d)
      modifies this`count, this`today, this`fp
      ensures Shows(Switch(s, d, opens))
    {
      hide NameOf, MakeLogFullname;
      var newDay := today != d.day;
      if newDay || count % splitLines == 0 {
        SwitchOpens(dirName, logName, s, d);
        if newDay {
          today := d.day;
          count := 0;
        }
        var full := MakeLogFullname(dirName, logName, d, count, splitLines, newDay);
        fp := if opens then Some(full) else None;
      }
    }

    method Put(line: string, ghost s: LogState)
      requires Shows(s)
      modifies this`disk, this`stderr
      ensures Shows(Append(s, line))
    {
      hide NameOf;
      if fp.Some? {
        forall f: LogFile | RealDate(f.date) ensures NameOf(dirName, logName, f) == fp.value ==> f == s.out.file {
          NamesDiffer(dirName, logName, f, s.out.file);
        }
        disk := disk[fp.value := DiskLines(disk, fp.value) + [line]];
      } else {
        stderr := stderr + [line];
      }
    }

    method WriteSingleLog(line: string, tick: Tick, ghost s: LogState)
      requires Shows(s) && RealDate(tick.date)
      modifies this`count, this`today, this`fp, this`disk, this`stderr
      ensures Shows(Write(s, tick.date, tick.opens, line))
    {
      hide Switch, Append, NameOf;
      count := count + 1;
      SwitchLog(tick.date, tick.opens, s.(count := s.count + 1));
      Put(line, Switch(s.(count := s.count + 1), tick.date, tick.opens));
    }

    /** The writer thread once nobody pushes any more: it returns with every line but the end mark written in order. */
    method ThreadFunc(queue: BlockQueue<string>, clock: nat -> Tick, ghost s: LogState)
      requires Shows(s) && queue.Valid() && SENTINEL in queue.Contents()
      requires forall k :: RealDate(clock(k).date)
      modifies this`count, this`today, this`fp, this`disk, this`stderr, queue`front, queue`size
      ensures queue.Valid() && queue.Contents() == []
      ensures var lines := old(queue.Contents());
              Shows(WriteLines(s, BeforeEnd(lines) + AfterEnd(lines), 0, clock))
    {
      hide Log.Shows, BlockQueue.Contents, BlockQueue.Valid, Write, WriteLines, BeforeEnd, AfterEnd, RealDate;
      ghost var all := BeforeEnd(queue.Contents()) + AfterEnd(queue.Contents());
      ghost var t := s;
      var k := 0;
      assert all[0..] == all;
      ShowsSplit(s);
      var draining := false;
      while true
        invariant queue.Valid() && Shows(t) && t.splitLines > 0 && k <= |all|
        invariant WriteLines(t, all[k..], k, clock) == WriteLines(s, all, 0, clock)
        invariant draining ==> all[k..] == queue.Contents()
        invariant !draining ==> SENTINEL in queue.Contents()
        invariant !draining ==> all[k..] == BeforeEnd(queue.Contents()) + AfterEnd(queue.Contents())
        decreases |queue.Contents()|
      {
        if draining {
          var empty := queue.Empty();
          if empty {
            break;
          }
        }
        ghost var before := queue.Contents();
        var item := queue.Pop();
        if !draining {
          PoppedBeforeEnd(before, item.value, queue.Contents());
        }
        if !draining && item.value == SENTINEL {
          draining := true;
        } else {
          assert all[k..][0] == all[k] && all[k..][1..] == all[k + 1..];
          WriteLinesStep(t, all, k, clock);
          WriteSingleLog(item.value, clock(k), t);
          t := Write(t, clock(k).date, clock(k).opens, all[k]);
          k := k + 1;
        }
      }
      NoMoreLines(t, k, clock);
    }

    lemma ShowsSplit(s: LogState)
      requires Shows(s)
      ensures s.splitLines > 0
    {
    }
  }
}
