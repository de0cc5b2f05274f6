/**
 * A condition variable: who sleeps on it, who is about to test the condition, and how many notify_one calls are still
 * due.
 */
module Gates {
  import opened Bytes

  datatype Gate = Gate(waiting: set<int>, awake: set<int>, owed: nat)

  const QUIET: Gate := Gate({}, {}, 0)

  /** No lost wake-up: while somebody sleeps, each available item has somebody due to look at it. */
  ghost predicate Covered(g: Gate, available: int) {
    && g.waiting !! g.awake
    && (g.waiting != {} ==> available <= g.owed + |g.awake|)
  }

  ghost predicate Absent(g: Gate, t: int) { t !in g.waiting && t !in g.awake }

  /** A thread comes to the lock to test the condition. */
  function Arrive(g: Gate, t: int): Gate { g.(awake := g.awake + {t}) }

  /** The condition was false: the thread gives up the lock and sleeps. */
  function Sleep(g: Gate, t: int): Gate { g.(awake := g.awake - {t}, waiting := g.waiting + {t}) }

  /** The thread is through. */
  function Leave(g: Gate, t: int): Gate { g.(awake := g.awake - {t}) }

  /** A sleeping thread gets up, for whatever reason: notified, timed out, or for none at all. */
  function Wake(g: Gate, t: int): Gate { g.(waiting := g.waiting - {t}, awake := g.awake + {t}) }

  /** The lock is released with a notify_one still to come. */
  function Owe(g: Gate): Gate { g.(owed := g.owed + 1) }

  /** notify_one wakes one sleeper if there is any, and is lost otherwise. */
  ghost predicate MayChoose(g: Gate, chosen: Option<int>) {
    if g.waiting == {} then chosen == None else chosen.Some? && chosen.value in g.waiting
  }

  function Notify(g: Gate, chosen: Option<int>): Gate
    requires g.owed > 0
  {
    var h := g.(owed := g.owed - 1);
    match chosen case None => h case Some(t) => Wake(h, t)
  }

  function NotifyAll(g: Gate): Gate { g.(awake := g.awake + g.waiting, waiting := {}) }

  lemma ArriveCovers(g: Gate, t: int, available: int)
    requires Covered(g, available) && Absent(g, t)
    ensures Covered(Arrive(g, t), available)
  {
  }

  /** Going to sleep is safe only because nothing was available. */
  lemma SleepCovers(g: Gate, t: int)
    requires Covered(g, 0) && t in g.awake
    ensures Covered(Sleep(g, t), 0)
  {
  }

  /** Taking an item while leaving keeps the balance. */
  lemma LeaveCovers(g: Gate, t: int, available: int)
    requires Covered(g, available) && t in g.awake
    ensures Covered(Leave(g, t), available - 1)
    ensures available <= 0 ==> Covered(Leave(g, t), available)
  {
  }

  lemma WakeCovers(g: Gate, t: int, available: int)
    requires Covered(g, available) && t in g.waiting
    ensures Covered(Wake(g, t), available)
  {
  }

  /** A new item with its notification owed. */
  lemma OweCovers(g: Gate, available: int)
    requires Covered(g, available)
    ensures Covered(Owe(g), available + 1)
  {
  }

  lemma NotifyCovers(g: Gate, chosen: Option<int>, available: int)
    requires Covered(g, available) && g.owed > 0 && MayChoose(g, chosen)
    ensures Covered(Notify(g, chosen), available)
  {
  }

  lemma NotifyAllCovers(g: Gate, available: int)
    ensures Covered(NotifyAll(g), available)
  {
  }

  /** An item and a sleeper never coexist with nobody due to act. */
  lemma NobodyStranded(g: Gate, available: int)
    requires Covered(g, available) && g.waiting != {} && available > 0
    ensures g.owed > 0 || g.awake != {}
  {
  }
}
