/** The bounded blocking queue: a ring buffer in an array, and its two condition variables under all interleavings. */
module BlockQueues {
  import opened Bytes
  import opened Gates

  // ----- the ring buffer -----

  function Next(i: nat, capacity: nat): (r: nat)
    requires i < capacity
    ensures r == if i + 1 == capacity then 0 else i + 1
  {
    (i + 1) % capacity
  }

  /** The index k places after i. */
  function Place(i: nat, k: nat, capacity: nat): (r: nat)
    requires i < capacity && k <= capacity
    ensures r < capacity
  {
    if i + k < capacity then i + k else i + k - capacity
  }

  /** What a ring of a given start and size holds, oldest first. */
  ghost function Ring<T>(buffer: seq<T>, front: nat, size: nat): (items: seq<T>)
    requires front < |buffer| && size <= |buffer|
    ensures |items| == size
    decreases size
  {
    if size == 0 then [] else [buffer[front]] + Ring(buffer, Next(front, |buffer|), size - 1)
  }

  /** Writing behind the last item appends to what the ring holds. */
  lemma {:induction false} RingPush<T>(buffer: seq<T>, front: nat, size: nat, item: T)
    requires front < |buffer| && size < |buffer|
    ensures var back := Place(front, size, |buffer|);
            Ring(buffer[back := item], front, size + 1) == Ring(buffer, front, size) + [item]
    decreases size
  {
    if size > 0 {
      RingPush(buffer, Next(front, |buffer|), size - 1, item);
    }
  }

  class BlockQueue<T> {
    const slots: array<T>
    var front: nat
    var back: nat
    var size: nat

    ghost predicate Valid()
      reads this
    {
      && slots.Length > 0
      && front < slots.Length && size <= slots.Length
      && back == Place(front, size, slots.Length)
    }

    /** The queued items, oldest first. */
    ghost function Contents(): (items: seq<T>)
      reads this, slots
      requires Valid()
      ensures |items| == size
    {
      Ring(slots[..], front, size)
    }

    constructor (maxSize: nat, filler: T)
      requires maxSize > 0 // the constructor throws otherwise
      ensures Valid() && fresh(slots) && slots.Length == maxSize && Contents() == []
    {
      slots := new T[maxSize](_ => filler);
      front, back, size := 0, 0, 0;
    }

    /** The critical section of push: false means that the caller has to wait. */
    method Push(item: T) returns (done: bool)
      requires Valid()
      modifies this`back, this`size, slots
      ensures Valid() && done == (|old(Contents())| < slots.Length)
      ensures Contents() == if done then old(Contents()) + [item] else old(Contents())
    {
      if size >= slots.Length {
        return false;
      }
      RingPush(slots[..], front, size, item);
      slots[back] := item;
      back := Next(back, slots.Length);
      size := size + 1;
      return true;
    }

    /** The critical section of pop: None means that the caller has to wait. */
    method Pop() returns (item: Option<T>)
      requires Valid()
      modifies this`front, this`size
      ensures Valid() && item.Some? == (old(Contents()) != [])
      ensures item.Some? ==> old(Contents()) == [item.value] + Contents()
      ensures item.None? ==> Contents() == old(Contents())
    {
      if size == 0 {
        return None;
      }
      item := Some(slots[front]);
      front := Next(front, slots.Length);
      size := size - 1;
    }

    method Empty() returns (r: bool)
      requires Valid()
      ensures r == (Contents() == [])
    {
      return size == 0;
    }

    method Clear()
      requires Valid()
      modifies this`front, this`back, this`size
      ensures Valid() && Contents() == []
    {
      size, front, back := 0, 0, 0;
    }
  }

  // ----- the monitor -----

  /** The queue with the threads inside push (with their items) and pop, and the history of both. */
  datatype Monitor<T> = Monitor(
    items: seq<T>, capacity: nat, notFull: Gate, notEmpty: Gate, carried: map<int, T>,
    pushed: seq<T>, popped: seq<T>)

  datatype Step<T> =
    | EnterPush(t: int, item: T)
    | LookPush(t: int)
    | EnterPop(t: int)
    | LookPop(t: int)
    | GiveUpPop(t: int) // a timed pop whose time is over tests once more and leaves
    | NotifyNotEmpty(chosen: Option<int>)
    | NotifyNotFull(chosen: Option<int>)
    | WakePush(t: int) // spurious
    | WakePop(t: int) // spurious or timed out

  ghost predicate Enabled<T>(m: Monitor<T>, s: Step<T>) {
    match s
    case EnterPush(t, _) => Absent(m.notFull, t) && Absent(m.notEmpty, t)
    case LookPush(t) => t in m.notFull.awake && t in m.carried
    case EnterPop(t) => Absent(m.notFull, t) && Absent(m.notEmpty, t)
    case LookPop(t) => t in m.notEmpty.awake
    case GiveUpPop(t) => t in m.notEmpty.awake && m.items == []
    case NotifyNotEmpty(chosen) => m.notEmpty.owed > 0 && MayChoose(m.notEmpty, chosen)
    case NotifyNotFull(chosen) => m.notFull.owed > 0 && MayChoose(m.notFull, chosen)
    case WakePush(t) => t in m.notFull.waiting
    case WakePop(t) => t in m.notEmpty.waiting
  }

  ghost function Apply<T>(m: Monitor<T>, s: Step<T>): Monitor<T>
    requires Enabled(m, s)
  {
    match s
    case EnterPush(t, item) => m.(notFull := Arrive(m.notFull, t), carried := m.carried[t := item])
    case LookPush(t) =>
      if |m.items| < m.capacity then
        m.(items := m.items + [m.carried[t]], pushed := m.pushed + [m.carried[t]], carried := m.carried - {t},
           notFull := Leave(m.notFull, t), notEmpty := Owe(m.notEmpty))
      else m.(notFull := Sleep(m.notFull, t))
    case EnterPop(t) => m.(notEmpty := Arrive(m.notEmpty, t))
    case LookPop(t) =>
      if m.items != [] then
        m.(items := m.items[1..], popped := m.popped + [m.items[0]],
           notEmpty := Leave(m.notEmpty, t), notFull := Owe(m.notFull))
      else m.(notEmpty := Sleep(m.notEmpty, t))
    case GiveUpPop(t) => m.(notEmpty := Leave(m.notEmpty, t))
    case NotifyNotEmpty(chosen) => m.(notEmpty := Notify(m.notEmpty, chosen))
    case NotifyNotFull(chosen) => m.(notFull := Notify(m.notFull, chosen))
    case WakePush(t) => m.(notFull := Wake(m.notFull, t))
    case WakePop(t) => m.(notEmpty := Wake(m.notEmpty, t))
  }

  /** First in, first out, within the bound. */
  ghost predicate Fifo<T>(m: Monitor<T>) { m.pushed == m.popped + m.items && |m.items| <= m.capacity }

  ghost predicate Carries<T>(m: Monitor<T>) {
    forall t :: t in m.carried <==> t in m.notFull.waiting || t in m.notFull.awake
  }

  /** The order, and no lost wake-up on either side. */
  ghost predicate Inv<T>(m: Monitor<T>) {
    && Fifo(m) && Carries(m)
    && Covered(m.notEmpty, |m.items|)
    && Covered(m.notFull, m.capacity - |m.items|)
  }

  function Start<T>(capacity: nat): Monitor<T> { Monitor([], capacity, QUIET, QUIET, map[], [], []) }

  lemma KeepsFifo<T>(m: Monitor<T>, s: Step<T>)
    requires Fifo(m) && Enabled(m, s)
    ensures Fifo(Apply(m, s))
  {
  }

  lemma KeepsCarries<T>(m: Monitor<T>, s: Step<T>)
    requires Carries(m) && Covered(m.notFull, m.capacity - |m.items|) && Enabled(m, s)
    ensures Carries(Apply(m, s))
  {
  }

  lemma KeepsNotEmpty<T>(m: Monitor<T>, s: Step<T>)
    requires Covered(m.notEmpty, |m.items|) && Enabled(m, s)
    ensures var n := Apply(m, s); Covered(n.notEmpty, |n.items|)
  {
  }

  lemma KeepsNotFull<T>(m: Monitor<T>, s: Step<T>)
    requires Covered(m.notFull, m.capacity - |m.items|) && |m.items| <= m.capacity && Enabled(m, s)
    ensures var n := Apply(m, s); Covered(n.notFull, n.capacity - |n.items|)
  {
  }

  lemma StepKeeps<T>(m: Monitor<T>, s: Step<T>)
    requires Inv(m) && Enabled(m, s)
    ensures Inv(Apply(m, s))
  {
    hide Apply, Enabled, Fifo, Carries, Covered;
    FifoBound(m);
    KeepsFifo(m, s);
    KeepsCarries(m, s);
    KeepsNotEmpty(m, s);
    KeepsNotFull(m, s);
  }

  lemma FifoBound<T>(m: Monitor<T>)
    requires Fifo(m)
    ensures |m.items| <= m.capacity
  {
  }

  /** A run: the steps lead from one state to another. */
  ghost predicate IsRun<T>(start: Monitor<T>, steps: seq<Step<T>>, end: Monitor<T>)
    decreases |steps|
  {
    if steps == [] then start == end else Enabled(start, steps[0]) && IsRun(Apply(start, steps[0]), steps[1..], end)
  }

  lemma {:induction false} RunKeeps<T>(start: Monitor<T>, steps: seq<Step<T>>, end: Monitor<T>)
    requires IsRun(start, steps, end) && Inv(start)
    ensures Inv(end)
    decreases |steps|
  {
    hide Inv, Apply, Enabled;
    if steps != [] {
      StepKeeps(start, steps[0]);
      RunKeeps(Apply(start, steps[0]), steps[1..], end);
    }
  }

  lemma StartKeeps<T>(capacity: nat)
    ensures Inv(Start<T>(capacity))
  {
  }

  /** In no run does an item meet a sleeping consumer, or a free slot a sleeping producer, with nobody due to act. */
  lemma NoLostWakeup<T>(capacity: nat, steps: seq<Step<T>>, m: Monitor<T>)
    requires IsRun(Start(capacity), steps, m)
    ensures m.notEmpty.waiting != {} ==> |m.items| <= m.notEmpty.owed + |m.notEmpty.awake|
    ensures m.notFull.waiting != {} ==> m.capacity - |m.items| <= m.notFull.owed + |m.notFull.awake|
    ensures m.pushed == m.popped + m.items && |m.items| <= m.capacity
  {
    hide IsRun;
    StartKeeps<T>(capacity);
    RunKeeps(Start(capacity), steps, m);
  }

  /** The steps do to the items what the critical sections of the class do to its contents. */
  lemma StepsMoveTheItems<T>(m: Monitor<T>, t: int)
    requires Fifo(m)
    ensures Enabled(m, LookPush(t)) ==>
      Apply(m, LookPush(t)).items == if |m.items| < m.capacity then m.items + [m.carried[t]] else m.items
    ensures Enabled(m, LookPop(t)) && m.items != [] ==>
      var n := Apply(m, LookPop(t)); m.items == [n.popped[|n.popped| - 1]] + n.items
    ensures Enabled(m, LookPop(t)) && m.items == [] ==> Apply(m, LookPop(t)).items == []
  {
  }

  // ----- clear -----

  /** clear() drops the items and notifies nobody. */
  function Cleared<T>(m: Monitor<T>): Monitor<T> { m.(items := []) }

  /** Producers sleep before an empty queue, and nobody is due to wake them. */
  ghost predicate Stranded<T>(m: Monitor<T>) {
    m.items == [] && m.notFull.waiting != {} && m.notFull.awake == {} && m.notFull.owed == 0
  }

  /** One producer fills the queue, another goes to sleep; then the queue is cleared. */
  lemma ClearStrands<T>(x: T, y: T)
    ensures exists steps: seq<Step<T>>, end: Monitor<T> ::
      IsRun(Start(1), steps, end) && end.notFull.waiting == {2} && Stranded(Cleared(end))
  {
    var m0 := Start<T>(1);
    var m1 := Apply(m0, EnterPush(1, x));
    var m2 := Apply(m1, LookPush(1));
    assert |m1.items| < m1.capacity;
    var m3 := Apply(m2, EnterPush(2, y));
    var m4 := Apply(m3, LookPush(2));
    assert m4.notFull.waiting == {2} && m4.notFull.awake == {};
    OneStep(m0, EnterPush(1, x));
    OneStep(m1, LookPush(1));
    OneStep(m2, EnterPush(2, y));
    OneStep(m3, LookPush(2));
    RunThen(m0, [EnterPush(1, x)], m1, [LookPush(1)], m2);
    RunThen(m0, [EnterPush(1, x)] + [LookPush(1)], m2, [EnterPush(2, y)], m3);
    RunThen(m0, [EnterPush(1, x)] + [LookPush(1)] + [EnterPush(2, y)], m3, [LookPush(2)], m4);
  }

  ghost predicate NoNewProducer<T>(steps: seq<Step<T>>) { forall s :: s in steps ==> !s.EnterPush? && !s.WakePush? }

  /** The producer can get up again by the doing of those already there: no new producer, no spurious wake-up. */
  ghost predicate CanWake<T(!new)>(m: Monitor<T>, w: int) {
    exists steps: seq<Step<T>>, end: Monitor<T> ::
      IsRun(m, steps, end) && NoNewProducer(steps) && w in end.notFull.awake
  }

  lemma {:induction false} StrandedForEver<T>(start: Monitor<T>, steps: seq<Step<T>>, end: Monitor<T>)
    requires Stranded(start) && IsRun(start, steps, end) && NoNewProducer(steps)
    ensures Stranded(end) && end.notFull.waiting == start.notFull.waiting
    decreases |steps|
  {
    hide Stranded, Apply, Enabled;
    if steps != [] {
      StaysStranded(start, steps[0]);
      StrandedForEver(Apply(start, steps[0]), steps[1..], end);
    }
  }

  lemma StaysStranded<T>(m: Monitor<T>, s: Step<T>)
    requires Stranded(m) && Enabled(m, s) && !s.EnterPush? && !s.WakePush?
    ensures Stranded(Apply(m, s)) && Apply(m, s).notFull.waiting == m.notFull.waiting
  {
  }

  lemma OneStep<T>(m: Monitor<T>, s: Step<T>)
    requires Enabled(m, s)
    ensures IsRun(m, [s], Apply(m, s))
  {
    hide Enabled, Apply;
    assert [s][1..] == [];
    assert IsRun(Apply(m, s), [s][1..], Apply(m, s));
  }

  lemma FreshThread(busy: set<int>) returns (u: int)
    ensures u !in busy
  {
    u := 0;
    var seen: set<int> := {};
    while u in busy
      invariant seen <= busy && u !in seen && forall x :: x in seen ==> x < u
      decreases |busy - seen|
    {
      seen := seen + {u};
      u := u + 1;
    }
  }

  lemma WokenByNotification<T(!new)>(m: Monitor<T>, w: int)
    requires w in m.notFull.waiting && m.notFull.owed > 0
    ensures CanWake(m, w)
  {
    var last: Step<T> := NotifyNotFull(Some(w));
    OneStep(m, last);
    assert NoNewProducer([last]);
  }

  /** A producer that is awake pushes; once its item has been popped, one sleeper may be woken. */
  lemma PushedAndPopped<T>(m: Monitor<T>, t: int, u: int) returns (steps: seq<Step<T>>, end: Monitor<T>)
    requires m.items == [] && m.capacity > 0 && t in m.notFull.awake && t in m.carried
    requires Absent(m.notEmpty, u) && Absent(m.notFull, u)
    ensures IsRun(m, steps, end) && NoNewProducer(steps)
    ensures end.notFull.waiting == m.notFull.waiting && end.notFull.owed == m.notFull.owed + 1
  {
    var m1 := Apply(m, LookPush(t));
    var m2 := Apply(m1, EnterPop(u));
    assert m1.items == [m.carried[t]];
    end := Apply(m2, LookPop(u));
    OneStep(m, LookPush(t));
    OneStep(m1, EnterPop(u));
    OneStep(m2, LookPop(u));
    RunThen(m, [LookPush(t)], m1, [EnterPop(u)], m2);
    RunThen(m, [LookPush(t)] + [EnterPop(u)], m2, [LookPop(u)], end);
    steps := [LookPush(t)] + [EnterPop(u)] + [LookPop(u)];
  }

  /**
    The calls of clear that lose a wake-up: a sleeping producer can get up again by the doing of those already
    there if and only if another producer was awake at that moment or a notification was owed.
   */
  lemma ClearWakesIff<T(!new)>(m: Monitor<T>, w: int)
    requires Inv(m) && m.capacity > 0 && w in m.notFull.waiting
    ensures CanWake(Cleared(m), w) <==> m.notFull.awake != {} || m.notFull.owed > 0
  {
    var c := Cleared(m);
    if m.notFull.owed > 0 {
      WokenByNotification(c, w);
    } else if m.notFull.awake != {} {
      HasMember(m.notFull.awake);
      var t :| t in m.notFull.awake;
      var busy := m.notFull.awake + m.notFull.waiting + m.notEmpty.awake + m.notEmpty.waiting;
      var u := FreshThread(busy);
      assert t in m.carried && u !in m.notFull.awake && u !in m.notEmpty.awake;
      var steps, end := PushedAndPopped(c, t, u);
      var last: Step<T> := NotifyNotFull(Some(w));
      OneStep(end, last);
      RunThen(c, steps, end, [last], Apply(end, last));
      assert NoNewProducer(steps + [last]);
    } else if CanWake(c, w) {
      var steps: seq<Step<T>>, end: Monitor<T> :|
        IsRun(c, steps, end) && NoNewProducer(steps) && w in end.notFull.awake;
      StrandedForEver(c, steps, end);
    }
  }

  /** Even then a new producer breaks the spell: once its item has been popped, any stranded producer may be woken. */
  lemma RescuedByAnother<T>(m: Monitor<T>, t: int, item: T, w: int)
    requires Stranded(m) && m.capacity > 0 && w in m.notFull.waiting
    requires Absent(m.notFull, t) && Absent(m.notEmpty, t)
    ensures exists steps: seq<Step<T>>, end: Monitor<T> :: IsRun(m, steps, end) && w in end.notFull.awake
  {
    hide IsRun, NoNewProducer;
    var m1 := Apply(m, EnterPush(t, item));
    OneStep(m, EnterPush(t, item));
    var u := FreshThread({t} + m.notFull.waiting + m.notEmpty.awake + m.notEmpty.waiting);
    var steps, m2 := PushedAndPopped(m1, t, u);
    var last: Step<T> := NotifyNotFull(Some(w));
    OneStep(m2, last);
    RunThen(m, [EnterPush(t, item)], m1, steps, m2);
    RunThen(m, [EnterPush(t, item)] + steps, m2, [last], Apply(m2, last));
  }

  lemma {:induction false} RunThen<T>(a: Monitor<T>, xs: seq<Step<T>>, b: Monitor<T>, ys: seq<Step<T>>, c: Monitor<T>)
    requires IsRun(a, xs, b) && IsRun(b, ys, c)
    ensures IsRun(a, xs + ys, c)
    decreases |xs|
  {
    hide Enabled, Apply;
    if xs == [] {
      assert xs + ys == ys;
    } else {
      assert (xs + ys)[1..] == xs[1..] + ys;
      RunThen(Apply(a, xs[0]), xs[1..], b, ys, c);
    }
  }
}
