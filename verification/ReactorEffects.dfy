/**
  What each action, event and timer does to its own descriptor, HTTP or WebSocket alike, and that it leaves all others
  alone.
 */
module ReactorEffects {
  import opened Bytes
  import opened Io
  import opened Reactor

  /** Nothing that the tables say of another descriptor has changed. */
  ghost predicate OthersKept(s: State, t: State, fd: int) {
    forall f :: f != fd ==>
      && (f in t.armed <==> f in s.armed) && (f in t.writing <==> f in s.writing)
      && (f in t.registered <==> f in s.registered)
      && (f in t.ws <==> f in s.ws) && (f in t.known <==> f in s.known)
      && (f in t.http <==> f in s.http) && (f in t.http ==> t.http[f] == s.http[f])
      && (f in t.clients <==> f in s.clients) && (f in t.clients ==> t.clients[f] == s.clients[f])
  }

  /** Nor have the timers of other descriptors. */
  ghost predicate OtherTimersKept(s: State, t: State, fd: int) {
    && (forall n :: n in s.timers && s.timers[n].fd != fd ==> n in t.timers && t.timers[n] == s.timers[n])
    && (forall n :: n in t.timers && t.timers[n].fd != fd ==> n in s.timers)
  }

  ghost predicate WorkKept(s: State, t: State) {
    t.events == s.events && t.queue == s.queue && t.running == s.running && t.tasks == s.tasks
  }

  /** A read or a wait turns a registered descriptor to reading, a write turns it to writing; nothing else changes. */
  lemma ActionArms(s: State, fd: int, action: Action)
    requires action == Read || action == Wait || action == Write
    ensures var t := Perform(s, Act(fd, action));
      && OthersKept(s, t, fd) && WorkKept(s, t) && t.timers == s.timers && t.clients == s.clients
      && t.http == s.http && t.ws == s.ws && t.known == s.known && t.registered == s.registered
      && (if fd in s.registered then fd in t.armed && (fd in t.writing <==> action == Write) else t == s)
  {
  }

  lemma HasTimers(s: State)
    requires Invariant(s)
    ensures TimersHold(s.http, s.clients, s.timers, s.tasks)
    ensures TablesHold(s)
  {
  }

  /** A descriptor has at most one managed timer, and only while it is an HTTP connection. */
  lemma OwnTimer(s: State, fd: int, n: nat)
    requires TimersHold(s.http, s.clients, s.timers, s.tasks) && n in s.timers && s.timers[n].fd == fd
    ensures fd in s.http && fd in s.clients && s.clients[fd] == ClientData(Some(n), false)
  {
  }

  /** Forgetting a timer: afterwards the descriptor has none, and no other timer or record has changed. */
  lemma DelTimerEffect(s: State, fd: int)
    requires TimersHold(s.http, s.clients, s.timers, s.tasks)
    ensures var t := DelTimer(s, fd);
      && t == s.(clients := t.clients, timers := t.timers)
      && OthersKept(s, t, fd) && OtherTimersKept(s, t, fd)
      && (forall n :: n in t.timers ==> t.timers[n].fd != fd)
  {
    forall n | n in s.timers
      ensures s.timers[n].fd == fd <==> s.clients[s.timers[n].fd].timer == Some(n) && s.timers[n].fd == fd
    {
      OwnTimer(s, s.timers[n].fd, n);
    }
    if fd in s.clients && s.clients[fd].timer.Some? && !s.clients[fd].deleted {
      var own := s.clients[fd].timer.value;
      forall n | n in s.timers && n != own ensures s.timers[n].fd != fd {
        OwnTimer(s, s.timers[n].fd, n);
      }
      TimerIsOwn(s, fd);
    } else {
      forall n | n in s.timers ensures s.timers[n].fd != fd {
        OwnTimer(s, s.timers[n].fd, n);
      }
    }
  }

  lemma TimerIsOwn(s: State, fd: int)
    requires TimersHold(s.http, s.clients, s.timers, s.tasks)
    requires fd in s.clients && s.clients[fd].timer.Some?
    ensures s.clients[fd].timer.value in s.timers ==> s.timers[s.clients[fd].timer.value].fd == fd
  {
    assert ClientHolds(s.clients, s.timers, TimeoutFds(s.tasks), fd);
  }

  /** Activity on an HTTP connection moves its timer, if it has not fired yet, to the new expiry, and no other. */
  lemma AdjustTimerEffect(s: State, fd: int, expire: int)
    requires TimersHold(s.http, s.clients, s.timers, s.tasks)
    ensures var t := AdjustTimer(s, fd, expire);
      && t == s.(timers := t.timers) && OtherTimersKept(s, t, fd) && t.timers.Keys == s.timers.Keys
      && (forall n :: n in s.timers && s.timers[n].fd == fd ==> t.timers[n] == s.timers[n].(expire := expire))
  {
    forall n | n in s.timers ensures s.clients[s.timers[n].fd] == ClientData(Some(n), false) {
      OwnTimer(s, s.timers[n].fd, n);
    }
    if fd in s.clients && s.clients[fd].timer.Some? {
      TimerIsOwn(s, fd);
    }
  }

  /** An upgrade makes a known WebSocket of the descriptor, without a timer, and turns it to reading. */
  lemma UpgradeArms(s: State, fd: int)
    requires Invariant(s) && fd in s.http
    ensures var t := Perform(s, Act(fd, Upgrade));
      && OthersKept(s, t, fd) && OtherTimersKept(s, t, fd) && WorkKept(s, t)
      && fd in t.ws && fd in t.known && fd !in t.http && fd in t.registered
      && fd in t.armed && fd !in t.writing
      && (forall n :: n in t.timers ==> t.timers[n].fd != fd)
  {
    hide Invariant, TimersHold, TablesHold, DelTimer;
    HasTimers(s);
    KnownIsUpgraded(s, fd);
    LiveIsRegistered(s, fd);
    DelTimerEffect(s, fd);
  }

  lemma DelTimerTables(s: State, fd: int)
    ensures DelTimer(s, fd).ws == s.ws && DelTimer(s, fd).known == s.known
  {
  }

  lemma CloseTables(s: State, fd: int)
    ensures CloseFd(s, fd).ws == s.ws - (if fd in s.known then {fd} else {})
    ensures CloseFd(s, fd).known == s.known - {fd}
  {
    hide DelTimer;
    DelTimerTables(s, fd);
  }

  lemma UpgradeTables(s: State, fd: int)
    ensures UpgradeFd(s, fd).ws == s.ws + {fd} && UpgradeFd(s, fd).known == s.known + {fd}
  {
    hide DelTimer;
    DelTimerTables(s, fd);
  }

  lemma ArmTables(s: State, fd: int, writing: bool)
    ensures Arm(s, fd, writing).ws == s.ws && Arm(s, fd, writing).known == s.known
  {
  }

  lemma TaskKeepsKnown(s: State, task: Task)
    requires s.ws <= s.known
    ensures Perform(s, task).ws <= Perform(s, task).known
  {
    hide CloseFd, UpgradeFd, Arm;
    CloseTables(s, task.fd);
    UpgradeTables(s, task.fd);
    ArmTables(s, task.fd, true);
    ArmTables(s, task.fd, false);
  }

  lemma StepKeepsKnown(s: State, step: Step)
    requires Enabled(s, step) && s.ws <= s.known
    ensures Apply(s, step).ws <= Apply(s, step).known
  {
    hide Unused, CanReport, Perform;
    if step.RunTask? {
      TaskKeepsKnown(s.(tasks := s.tasks[1..]), s.tasks[0]);
    }
  }

  /** The server knows every WebSocket connection of the reactor, in every run. */
  lemma {:induction false} WsAreKnown(states: seq<State>, steps: seq<Step>, n: nat)
    requires IsRun(states, steps) && n < |states|
    ensures states[n].ws <= states[n].known
    decreases n
  {
    if n > 0 {
      hide Apply, Enabled;
      WsAreKnown(states, steps, n - 1);
      StepKeepsKnown(states[n - 1], steps[n - 1]);
    }
  }

  /** A close takes the descriptor out of every table; an HTTP connection's timer goes with it. */
  lemma CloseTakesAll(s: State, fd: int)
    requires Invariant(s) && (fd in s.ws ==> fd in s.known)
    ensures var t := Perform(s, Act(fd, Close));
      && OthersKept(s, t, fd) && OtherTimersKept(s, t, fd) && WorkKept(s, t)
      && fd !in t.registered && fd !in t.armed && fd !in t.ws && fd !in t.known && fd !in t.http
      && (forall n :: n in t.timers ==> t.timers[n].fd != fd)
  {
    hide Invariant, TimersHold, TablesHold, DelTimer;
    HasTimers(s);
    KnownIsUpgraded(s, fd);
    DelTimerEffect(s, fd);
    if fd !in s.http {
      NoHttpNoTimer(s, fd);
    }
  }

  lemma LiveIsRegistered(s: State, fd: int)
    requires TablesHold(s)
    ensures fd in s.http ==> fd in s.registered
  {
  }

  lemma NoHttpNoTimer(s: State, fd: int)
    requires TimersHold(s.http, s.clients, s.timers, s.tasks) && fd !in s.http
    ensures forall n :: n in s.timers ==> s.timers[n].fd != fd
  {
  }

  /** The job that an event on a live connection is for. */
  ghost function JobFor(s: State, e: Event): Job {
    Job(e.fd, if e.fd in s.http then HttpConn(s.http[e.fd]) else WsConn, e.kind)
  }

  ghost predicate Alive(s: State, fd: int) { fd in s.http || (fd in s.ws && fd in s.known) }

  /**
   * An event on a live connection is never passed over: a hang-up queues its close, anything else becomes one job on
   * its object, and is noted as dropped if the pool refuses it. An HTTP connection's timer moves to the new expiry.
   */
  lemma EventIsServed(s: State, accepted: bool, expire: int)
    requires Invariant(s) && s.events != [] && Alive(s, s.events[0].fd)
    ensures var e, t := s.events[0], Apply(s, HandleEvent(accepted, expire));
      && t == s.(events := s.events[1..], tasks := t.tasks, queue := t.queue, dropped := t.dropped, timers := t.timers)
      && t.tasks == (if e.kind == Hangup then s.tasks + [Act(e.fd, Close)] else s.tasks)
      && t.queue == (if e.kind != Hangup && accepted then s.queue + [JobFor(s, e)] else s.queue)
      && t.dropped == (if e.kind != Hangup && !accepted then s.dropped + {e.fd} else s.dropped)
      && OtherTimersKept(s, t, e.fd) && t.timers.Keys == s.timers.Keys
      && (forall n :: n in s.timers && s.timers[n].fd == e.fd ==>
            t.timers[n] == if e.kind == Hangup then s.timers[n] else s.timers[n].(expire := expire))
  {
    hide Invariant, TimersHold, AdjustTimer, TablesHold;
    var e := s.events[0];
    HasTimers(s);
    KnownIsUpgraded(s, e.fd);
    AdjustTimerEffect(s.(events := s.events[1..]), e.fd, expire);
    if e.fd !in s.http {
      NoHttpNoTimer(s, e.fd);
    }
  }

  /** A new connection is armed for reading and has its own timer with the given expiry. */
  lemma NewConnectionArms(s: State, fd: int, life: nat, timer: nat, expire: int)
    requires Enabled(s, NewConnection(fd, life, timer, expire))
    ensures var t := Apply(s, NewConnection(fd, life, timer, expire));
      && OthersKept(s, t, fd) && WorkKept(s, t)
      && fd in t.registered && fd in t.armed && fd !in t.writing
      && fd in t.http && t.http[fd] == life && fd !in t.ws && fd !in t.known
      && t.timers == s.timers[timer := TimerEntry(fd, life, expire)]
      && t.clients[fd] == ClientData(Some(timer), false)
  {
  }

  /** A timer that expires queues exactly one close, of its own connection. */
  lemma ExpiryQueuesClose(s: State, timer: nat, now: int)
    requires Invariant(s) && Enabled(s, Expire(timer, now))
    ensures var e, t := s.timers[timer], Apply(s, Expire(timer, now));
      t == s.(timers := s.timers - {timer}, tasks := s.tasks + [TimeoutClose(e.fd, e.life)])
  {
    hide Tokens, WorkHolds;
    assert s.clients[s.timers[timer].fd] == ClientData(Some(timer), false);
  }
}
