/** The worker pool: its critical sections, and every interleaving of workers, callers and the destructor. */
module ThreadPools {
  import opened Bytes
  import opened Gates

  // ----- the critical sections -----

  /** What a worker decides while it holds the lock. */
  datatype Decision<Task> = Run(task: Task) | Exit | WaitMore

  class ThreadPool<Task> {
    const maxRequests: int
    var workQueue: seq<Task>
    var stop: bool

    constructor (threadNumber: int, maxRequests: int)
      requires threadNumber > 0 && maxRequests > 0 // the constructor throws otherwise
      ensures workQueue == [] && !stop && this.maxRequests == maxRequests
    {
      this.maxRequests := maxRequests;
      workQueue, stop := [], false;
    }

    /** Accepts a task unless the queue is full; a stopped pool accepts too. */
    method Append(task: Task) returns (accepted: bool)
      modifies this`workQueue
      ensures accepted == (|old(workQueue)| < maxRequests)
      ensures workQueue == if accepted then old(workQueue) + [task] else old(workQueue)
    {
      if |workQueue| >= maxRequests {
        return false;
      }
      workQueue := workQueue + [task];
      return true;
    }

    /** The worker's turn: the oldest task goes first, and a worker only leaves a stopped and empty pool. */
    method Look() returns (d: Decision<Task>)
      modifies this`workQueue
      ensures d.Run? <==> old(workQueue) != []
      ensures d.Run? ==> old(workQueue) == [d.task] + workQueue
      ensures !d.Run? ==> workQueue == [] && (d.Exit? <==> stop)
    {
      if !(stop || workQueue != []) {
        return WaitMore;
      }
      if stop && workQueue == [] {
        return Exit;
      }
      var task := workQueue[0];
      workQueue := workQueue[1..];
      return Run(task);
    }

    method Stop()
      modifies this`stop
      ensures stop
    {
      stop := true;
    }
  }

  // ----- all interleavings -----

  /**
   * The tasks ever accepted, in order, of which the first `started` have been taken; a task is known by its position.
   */
  datatype Pool = Pool(
    workers: set<int>, max: nat, accepted: seq<int>, started: nat,
    stop: bool, owedAll: bool, gate: Gate,
    running: map<int, nat>, finished: set<nat>, exited: set<int>,
    sinceExit: nat) // tasks accepted after a worker last left

  function Queued(p: Pool): int { |p.accepted| - p.started }

  /** The work queue: what was accepted and not taken. */
  function WorkQueue(p: Pool): seq<int>
    requires p.started <= |p.accepted|
  {
    p.accepted[p.started..]
  }

  datatype Step =
    | Append(task: int)
    | Notify(chosen: Option<int>)
    | Stop
    | NotifyAll
    | Look(w: int)
    | Finish(w: int)
    | Wake(w: int) // spurious

  ghost predicate Enabled(p: Pool, s: Step) {
    match s
    case Append(_) => true
    case Notify(chosen) => p.gate.owed > 0 && MayChoose(p.gate, chosen)
    case Stop => !p.stop
    case NotifyAll => p.owedAll
    case Look(w) => w in p.gate.awake
    case Finish(w) => w in p.running
    case Wake(w) => w in p.gate.waiting
  }

  ghost function Apply(p: Pool, s: Step): Pool
    requires Enabled(p, s)
  {
    match s
    case Append(task) =>
      if Queued(p) >= p.max then p
      else p.(accepted := p.accepted + [task], gate := Owe(p.gate), sinceExit := p.sinceExit + 1)
    case Notify(chosen) => p.(gate := Gates.Notify(p.gate, chosen))
    case Stop => p.(stop := true, owedAll := true)
    case NotifyAll => p.(owedAll := false, gate := Gates.NotifyAll(p.gate))
    case Look(w) =>
      if Queued(p) > 0 then
        p.(started := p.started + 1, running := p.running[w := p.started], gate := Leave(p.gate, w))
      else if p.stop then p.(exited := p.exited + {w}, gate := Leave(p.gate, w), sinceExit := 0)
      else p.(gate := Sleep(p.gate, w))
    case Finish(w) =>
      p.(finished := p.finished + {p.running[w]}, running := p.running - {w}, gate := Arrive(p.gate, w))
    case Wake(w) => p.(gate := Gates.Wake(p.gate, w))
  }

  /** The steps do to the work queue what the critical sections do to theirs. */
  lemma StepsMoveTheQueue(p: Pool, task: int, w: int)
    requires p.started <= |p.accepted| && w in p.gate.awake
    ensures var q, before := Apply(p, Append(task)), WorkQueue(p);
            q.started <= |q.accepted| && WorkQueue(q) == if |before| < p.max then before + [task] else before
    ensures var q, before := Apply(p, Look(w)), WorkQueue(p);
            && q.started <= |q.accepted|
            && (before != [] <==> w in q.running && q.started == p.started + 1)
            && (before != [] ==> before == [q.accepted[q.running[w]]] + WorkQueue(q))
            && (before == [] ==> WorkQueue(q) == [] && (w in q.exited && w !in p.exited ==> p.stop))
  {
  }

  function Start(workers: set<int>, max: nat): Pool {
    Pool(workers, max, [], 0, false, false, Gate({}, workers, 0), map[], {}, {}, 0)
  }

  /** Every worker is in exactly one place. */
  ghost predicate Placed(p: Pool) {
    && (forall w :: w in p.workers <==> w in p.gate.waiting || w in p.gate.awake || w in p.running || w in p.exited)
    && (forall w :: w in p.running ==> w !in p.gate.waiting && w !in p.gate.awake && w !in p.exited)
    && (forall w :: w in p.exited ==> w !in p.gate.waiting && w !in p.gate.awake)
  }

  ghost predicate RunsSomewhere(running: map<int, nat>, i: nat) { exists w :: w in running && running[w] == i }

  /** Of the tasks taken so far, each is running on exactly one worker or finished, never both. */
  ghost predicate Tracked(started: nat, running: map<int, nat>, finished: set<nat>) {
    && (forall w :: w in running ==> running[w] < started && running[w] !in finished)
    && (forall v, w :: v in running && w in running && running[v] == running[w] ==> v == w)
    && (forall i: nat :: i < started ==> i in finished || RunsSomewhere(running, i))
    && (forall i :: i in finished ==> i < started)
  }

  /** Every accepted task is queued, or taken and tracked; the queue is bounded. */
  ghost predicate Conserved(p: Pool) {
    p.started <= |p.accepted| && |p.accepted| - p.started <= p.max && Tracked(p.started, p.running, p.finished)
  }

  /**
   * Workers leave a stopped pool only, nobody sleeps in a stopped pool for ever, and what is queued came after the
   * last exit.
   */
  ghost predicate Draining(p: Pool) {
    && (p.exited != {} ==> p.stop && Queued(p) <= p.sinceExit)
    && (p.exited != {} && p.exited == p.workers ==> Queued(p) == p.sinceExit)
    && (p.stop && !p.owedAll ==> p.gate.waiting == {})
    && (p.owedAll ==> p.stop)
  }

  ghost predicate Inv(p: Pool) {
    Placed(p) && Conserved(p) && Draining(p) && Covered(p.gate, Queued(p))
  }

  lemma KeepsPlaced(p: Pool, s: Step)
    requires Placed(p) && p.gate.waiting !! p.gate.awake && Enabled(p, s)
    ensures Placed(Apply(p, s))
  {
  }

  lemma TakeTracked(started: nat, running: map<int, nat>, finished: set<nat>, w: int)
    requires Tracked(started, running, finished) && w !in running
    ensures Tracked(started + 1, running[w := started], finished)
  {
    var r := running[w := started];
    forall i: nat | i < started + 1 ensures i in finished || RunsSomewhere(r, i) {
      if i == started {
        assert r[w] == i;
      } else if i !in finished {
        var v :| v in running && running[v] == i;
        assert r[v] == i;
      }
    }
  }

  lemma FinishTracked(started: nat, running: map<int, nat>, finished: set<nat>, w: int)
    requires Tracked(started, running, finished) && w in running
    ensures Tracked(started, running - {w}, finished + {running[w]})
  {
    var r := running - {w};
    forall i: nat | i < started ensures i in finished + {running[w]} || RunsSomewhere(r, i) {
      if i !in finished && i != running[w] {
        var v :| v in running && running[v] == i;
        assert v in r && r[v] == i;
      }
    }
  }

  lemma KeepsConserved(p: Pool, s: Step)
    requires Conserved(p) && Placed(p) && Enabled(p, s)
    ensures Conserved(Apply(p, s))
  {
    hide Tracked;
    match s
    case Look(w) => TakeTracked(p.started, p.running, p.finished, w);
    case Finish(w) => FinishTracked(p.started, p.running, p.finished, w);
    case _ =>
  }

  lemma KeepsCovered(p: Pool, s: Step)
    requires Placed(p) && Covered(p.gate, Queued(p)) && Queued(p) >= 0 && Enabled(p, s)
    ensures var q := Apply(p, s); Covered(q.gate, Queued(q))
  {
    hide Covered;
    var n := Queued(p);
    match s
    case Append(_) => OweCovers(p.gate, n);
    case Notify(chosen) => NotifyCovers(p.gate, chosen, n);
    case Stop =>
    case NotifyAll => NotifyAllCovers(p.gate, n);
    case Look(w) =>
      LeaveCovers(p.gate, w, n);
      if n == 0 {
        SleepCovers(p.gate, w);
      }
    case Finish(w) => ArriveCovers(p.gate, w, n);
    case Wake(w) => WakeCovers(p.gate, w, n);
  }

  lemma KeepsDraining(p: Pool, s: Step)
    requires Draining(p) && Placed(p) && Conserved(p) && Enabled(p, s)
    ensures Draining(Apply(p, s))
  {
  }

  lemma QueuedIsNat(p: Pool)
    requires Conserved(p)
    ensures 0 <= Queued(p) <= p.max
  {
  }

  lemma StepKeeps(p: Pool, s: Step)
    requires Inv(p) && Enabled(p, s)
    ensures Inv(Apply(p, s))
  {
    hide Apply, Enabled, Placed, Conserved, Draining, Covered;
    QueuedIsNat(p);
    CoveredDisjoint(p.gate, Queued(p));
    KeepsPlaced(p, s);
    KeepsConserved(p, s);
    KeepsCovered(p, s);
    KeepsDraining(p, s);
  }

  lemma CoveredDisjoint(g: Gate, available: int)
    requires Covered(g, available)
    ensures g.waiting !! g.awake
  {
  }

  ghost predicate IsRun(states: seq<Pool>, steps: seq<Step>) {
    && |states| == |steps| + 1
    && forall i :: 0 <= i < |steps| ==> Enabled(states[i], steps[i]) && states[i + 1] == Apply(states[i], steps[i])
  }

  ghost predicate StartsFresh(states: seq<Pool>) {
    states != [] && states[0] == Start(states[0].workers, states[0].max)
  }

  lemma {:induction false} RunKeeps(states: seq<Pool>, steps: seq<Step>, n: nat)
    requires IsRun(states, steps) && n <= |steps| && StartsFresh(states)
    ensures Inv(states[n])
  {
    hide Inv, Apply, Enabled;
    if n == 0 {
      StartKeeps(states[0].workers, states[0].max);
    } else {
      RunKeeps(states, steps, n - 1);
      StepKeeps(states[n - 1], steps[n - 1]);
    }
  }

  lemma StartKeeps(workers: set<int>, max: nat)
    ensures Inv(Start(workers, max))
  {
  }

  /** While a worker sleeps, every queued task has a notification due or an awake worker on its way. */
  lemma NoLostWakeup(states: seq<Pool>, steps: seq<Step>, n: nat)
    requires IsRun(states, steps) && n <= |steps| && StartsFresh(states)
    ensures var p := states[n];
            p.gate.waiting != {} ==> Queued(p) <= p.gate.owed + |p.gate.awake|
  {
    hide Apply, Enabled;
    RunKeeps(states, steps, n);
  }

  /** When all workers have left, everything accepted before the last one left has finished, and nothing else. */
  lemma JoinedMeansDone(states: seq<Pool>, steps: seq<Step>, n: nat)
    requires IsRun(states, steps) && n <= |steps| && StartsFresh(states) && states[0].workers != {}
    requires states[n].exited == states[n].workers
    ensures var p := states[n];
            && Queued(p) == p.sinceExit
            && (forall i: nat :: i < |p.accepted| - p.sinceExit <==> i in p.finished)
            && (p.sinceExit == 0 <==> forall i: nat :: i < |p.accepted| ==> i in p.finished)
  {
    hide Apply, Enabled;
    RunKeeps(states, steps, n);
    SameWorkers(states, steps, n);
    var p := states[n];
    forall w ensures w !in p.running {
      assert w in p.running ==> w in p.workers && w !in p.exited;
    }
    if p.sinceExit != 0 {
      assert p.started !in p.finished;
    }
  }

  /** A pool that is stopped, left by its worker and then given a task: the task stays where it is. */
  lemma LateTask()
    ensures var s0 := Start({1}, 1);
            exists states: seq<Pool>, steps: seq<Step> ::
              && IsRun(states, steps) && |steps| == 3 && states[0] == s0 && StartsFresh(states)
              && states[3].exited == states[3].workers && Queued(states[3]) == 1 && states[3].finished == {}
  {
    var s0 := Start({1}, 1);
    var s1 := Apply(s0, Stop);
    var s2 := Apply(s1, Look(1));
    var s3 := Apply(s2, Append(7));
    var states, steps := [s0, s1, s2, s3], [Stop, Look(1), Append(7)];
    assert s2.exited == {1} && s3.accepted == [7];
    assert IsRun(states, steps);
  }

  lemma {:induction false} SameWorkers(states: seq<Pool>, steps: seq<Step>, n: nat)
    requires IsRun(states, steps) && n <= |steps|
    ensures states[n].workers == states[0].workers && states[n].max == states[0].max
  {
    hide Enabled;
    if n > 0 {
      SameWorkers(states, steps, n - 1);
    }
  }

  // ----- shutdown comes to an end -----

  ghost function Weight(g: Gate): int { 2 * |g.waiting| + |g.awake| + g.owed }

  ghost function Measure(p: Pool): int {
    2 * Queued(p) + Weight(p.gate) + 2 * |p.running| + (if p.owedAll then 1 else 0)
  }

  lemma WakeIsLighter(g: Gate, t: int)
    requires g.waiting !! g.awake && t in g.waiting
    ensures Weight(Gates.Wake(g, t)) == Weight(g) - 1
  {
  }

  lemma NotifyIsLighter(g: Gate, chosen: Option<int>)
    requires g.waiting !! g.awake && g.owed > 0 && MayChoose(g, chosen)
    ensures Weight(Gates.Notify(g, chosen)) < Weight(g)
  {
  }

  lemma LeaveIsLighter(g: Gate, t: int)
    requires t in g.awake
    ensures Weight(Leave(g, t)) == Weight(g) - 1
  {
  }

  lemma ArriveIsHeavier(g: Gate, t: int)
    requires t !in g.awake
    ensures Weight(Arrive(g, t)) == Weight(g) + 1
  {
  }

  lemma AllAreLighter(g: Gate)
    requires g.waiting !! g.awake
    ensures Weight(Gates.NotifyAll(g)) <= Weight(g)
  {
  }

  ghost predicate Internal(s: Step) { !s.Append? && !s.Stop? }

  /** After stop, each step of the workers and of the notifications brings the join nearer. */
  lemma ShutdownProgress(p: Pool, s: Step)
    requires Inv(p) && p.stop && Enabled(p, s) && Internal(s)
    ensures 0 <= Measure(Apply(p, s)) < Measure(p)
  {
    hide Weight, Inv, Gates.Wake, Gates.Notify, Gates.NotifyAll, Leave, Arrive, Sleep;
    StepKeeps(p, s);
    MeasureIsNat(Apply(p, s));
    MeasureIsNat(p);
    match s
    case Notify(chosen) => NotifyIsLighter(p.gate, chosen);
    case NotifyAll => AllAreLighter(p.gate);
    case Look(w) =>
      LeaveIsLighter(p.gate, w);
      if Queued(p) > 0 {
        MapAdd(p.running, w, p.started);
      }
    case Finish(w) =>
      ArriveIsHeavier(p.gate, w);
      MapRemove(p.running, w);
    case Wake(w) => WakeIsLighter(p.gate, w);
  }

  lemma MeasureIsNat(p: Pool)
    requires Inv(p)
    ensures Measure(p) >= 0 && p.gate.waiting !! p.gate.awake
    ensures forall w :: w in p.gate.awake ==> w !in p.running
  {
  }

  lemma MapAdd(m: map<int, nat>, w: int, i: nat)
    requires w !in m
    ensures |m[w := i]| == |m| + 1
  {
  }

  lemma MapRemove(m: map<int, nat>, w: int)
    requires w in m
    ensures |m - {w}| == |m| - 1
  {
  }

  /** And a stopped pool in which nothing more can happen has let all its workers go. */
  lemma ShutdownEndsJoined(p: Pool)
    requires Inv(p) && p.stop
    requires forall s :: Internal(s) ==> !Enabled(p, s)
    ensures p.exited == p.workers && (p.workers != {} ==> Queued(p) == p.sinceExit)
  {
    assert !Enabled(p, NotifyAll);
    forall w ensures w !in p.gate.awake && w !in p.running && w !in p.gate.waiting {
      assert !Enabled(p, Look(w)) && !Enabled(p, Finish(w)) && !Enabled(p, Wake(w));
    }
    assert forall w :: w in p.workers <==> w in p.exited;
  }
}
