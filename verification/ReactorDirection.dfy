/**
  Which way an HTTP connection is turned: it is armed for writing, asked to write and told to write exactly while a
  response is due, and otherwise for reading. So a read never meets a response that is still being sent.
 */
module ReactorDirection {
  import opened Io
  import opened Reactor

  ghost predicate Faces(due: bool, kind: EventKind) { kind == Hangup || (kind == Writable <==> due) }

  /** Jobs on HTTP objects go the right way, and those on a live descriptor are on its present object. */
  ghost predicate JobsDirected(http: map<int, nat>, due: set<nat>, queue: seq<Job>, running: seq<Job>) {
    forall j :: (j in queue || j in running) && j.target.HttpConn? ==>
      && j.kind != Hangup && Faces(j.target.life in due, j.kind)
      && (j.fd in http ==> http[j.fd] == j.target.life)
  }

  /** So do the interest, the events and the tasks of one live descriptor. */
  ghost predicate FdDirected(
    fd: int, due: bool, armed: set<int>, writing: set<int>, events: seq<Event>, tasks: seq<Task>) {
    && (fd in armed ==> (fd in writing <==> due))
    && (forall e :: e in events && e.fd == fd ==> Faces(due, e.kind))
    && (forall t :: t in tasks && t.Act? && t.fd == fd ==>
          (t.action == Write ==> due) && (t.action == Read || t.action == Wait ==> !due))
  }

  ghost predicate Directed(s: State) {
    && (forall life :: life in s.due ==> life in s.owner)
    && JobsDirected(s.http, s.due, s.queue, s.running)
    && (forall fd :: fd in s.http ==>
          FdDirected(fd, s.http[fd] in s.due, s.armed, s.writing, s.events, s.tasks))
  }

  // ---------- A finishing job is alone ----------

  lemma {:induction false} EventCounts(es: seq<Event>, e: Event)
    requires e in es
    ensures EventFds(es)[e.fd] >= 1
  {
    if es[0] != e {
      EventCounts(es[1..], e);
    }
  }

  /** While a job on an HTTP object runs, nothing else holds its descriptor's turn. */
  lemma AloneAtWork(s: State, w: nat)
    requires Invariant(s) && w < |s.running| && s.running[w].target.HttpConn?
    ensures var fd, others := s.running[w].fd, s.running[..w] + s.running[w + 1..];
      && fd !in s.armed
      && (forall e :: e in s.events ==> e.fd != fd)
      && (forall j :: (j in s.queue || j in others) && j.target.HttpConn? ==> j.fd != fd)
      && (forall t :: t in s.tasks && t.Act? ==> t.fd != fd)
  {
    var j, others := s.running[w], s.running[..w] + s.running[w + 1..];
    JobKinds(s, w);
    RemovedJob(s.running, w);
    hide JobHolds, EventFds, HttpFds, ActFds, TimersHold, TablesHold;
    assert Tokens(s)[j.fd] <= 1;
    forall e | e in s.events ensures e.fd != j.fd { EventCounts(s.events, e); }
    forall k | k in s.queue && k.target.HttpConn? ensures k.fd != j.fd { JobCounts(s.queue, k); }
    forall k | k in others && k.target.HttpConn? ensures k.fd != j.fd { JobCounts(others, k); }
    forall t | t in s.tasks && t.Act? ensures t.fd != j.fd { TaskCounts(s.tasks, t); }
  }

  // ---------- Every step keeps it ----------

  lemma AcceptDirects(s: State, fd: int, life: nat, timer: nat, expire: int)
    requires Directed(s) && Unused(s, fd) && life !in s.owner
    ensures Directed(Accept(s, fd, life, timer, expire))
  {
  }

  lemma DeliverDirects(s: State, fd: int, kind: EventKind)
    requires Directed(s) && Enabled(s, Deliver(fd, kind))
    ensures Directed(Apply(s, Deliver(fd, kind)))
  {
  }

  lemma SubmitDirects(s: State, job: Job, accepted: bool)
    requires Directed(s)
    requires job.target.HttpConn? ==>
      && job.kind != Hangup && Faces(job.target.life in s.due, job.kind)
      && (job.fd in s.http ==> s.http[job.fd] == job.target.life)
    ensures Directed(Submit(s, job, accepted))
  {
  }

  lemma EventFits(s: State)
    requires Directed(s) && s.events != []
    ensures var e := s.events[0]; e.fd in s.http ==> Faces(s.http[e.fd] in s.due, e.kind)
  {
    var e := s.events[0];
    assert e in s.events;
    if e.fd in s.http {
      assert FdDirected(e.fd, s.http[e.fd] in s.due, s.armed, s.writing, s.events, s.tasks);
    }
  }

  lemma EventDirects(s: State, accepted: bool, expire: int)
    requires Directed(s) && s.events != []
    ensures Directed(Dispatch(s.(events := s.events[1..]), s.events[0], accepted, expire))
  {
    hide Directed, Faces, AdjustTimer, Submit;
    var e, u := s.events[0], s.(events := s.events[1..]);
    EventFits(s);
    LessDirects(s, u);
    if e.kind == Hangup {
      PushDirects(u, Act(e.fd, Close));
    } else if e.fd in s.known {
      SubmitDirects(u, Job(e.fd, WsConn, e.kind), accepted);
    } else if e.fd in s.http {
      var t := AdjustTimer(u, e.fd, expire);
      AdjustOnlyTimers(u, e.fd, expire);
      LessDirects(u, t);
      SubmitDirects(t, Job(e.fd, HttpConn(s.http[e.fd]), e.kind), accepted);
    }
  }

  lemma StartDirects(s: State)
    requires Directed(s) && s.queue != []
    ensures Directed(s.(queue := s.queue[1..], running := s.running + [s.queue[0]]))
  {
  }

  lemma FinishDirects(s: State, w: nat, action: Action)
    requires Directed(s) && Invariant(s) && w < |s.running| && CanReport(s.running[w], s.due, action)
    ensures Directed(Finish(s, w, action))
  {
    if s.running[w].target.HttpConn? {
      AloneAtWork(s, w);
      FinishJobs(s, w, action);
      FinishFds(s, w, action);
      FinishDue(s, w, action);
    } else {
      FinishWs(s, w, action);
    }
  }

  lemma FinishDue(s: State, w: nat, action: Action)
    requires Directed(s) && Invariant(s) && w < |s.running|
    ensures var t := Finish(s, w, action); forall life :: life in t.due ==> life in t.owner
  {
    assert JobHolds(s.owner, s.upgraded, s.running[w]);
  }

  lemma FinishWs(s: State, w: nat, action: Action)
    requires Directed(s) && Invariant(s) && w < |s.running| && s.running[w].target.WsConn?
    ensures Directed(Finish(s, w, action))
  {
    hide TimersHold, TokensHold, Tokens;
    var j := s.running[w];
    assert JobHolds(s.owner, s.upgraded, j);
    hide Directed;
    var u := s.(running := s.running[..w] + s.running[w + 1..]);
    LessDirects(s, u);
    PushDirects(u, Act(j.fd, action));
  }

  lemma FinishJobs(s: State, w: nat, action: Action)
    requires Directed(s) && Invariant(s) && w < |s.running| && s.running[w].target.HttpConn?
    requires var fd, others := s.running[w].fd, s.running[..w] + s.running[w + 1..];
      forall k :: (k in s.queue || k in others) && k.target.HttpConn? ==> k.fd != fd
    ensures var t := Finish(s, w, action); JobsDirected(t.http, t.due, t.queue, t.running)
  {
    var j, others := s.running[w], s.running[..w] + s.running[w + 1..];
    hide TimersHold, TokensHold, Tokens, TablesHold;
    assert JobHolds(s.owner, s.upgraded, j);
    forall k | (k in s.queue || k in others) && k.target.HttpConn?
      ensures k.target.life != j.target.life && (k in s.queue || k in s.running)
    {
      assert JobHolds(s.owner, s.upgraded, k);
    }
  }

  lemma JobIsHeld(s: State, w: nat)
    requires Invariant(s) && w < |s.running|
    ensures JobHolds(s.owner, s.upgraded, s.running[w])
  {
  }

  lemma FinishFds(s: State, w: nat, action: Action)
    requires Directed(s) && Invariant(s) && w < |s.running| && s.running[w].target.HttpConn?
    requires CanReport(s.running[w], s.due, action)
    requires var fd := s.running[w].fd;
      && fd !in s.armed && (forall e :: e in s.events ==> e.fd != fd)
      && (forall t :: t in s.tasks && t.Act? ==> t.fd != fd)
    ensures var t := Finish(s, w, action);
      forall fd :: fd in t.http ==> FdDirected(fd, t.http[fd] in t.due, t.armed, t.writing, t.events, t.tasks)
  {
    hide TimersHold, TokensHold, Tokens, WorkHolds;
    var j, t := s.running[w], Finish(s, w, action);
    JobIsHeld(s, w);
    assert Faces(j.target.life in s.due, j.kind) && j.kind != Hangup;
    forall fd | fd in s.http
      ensures FdDirected(fd, t.http[fd] in t.due, t.armed, t.writing, t.events, t.tasks)
    {
      assert FdDirected(fd, s.http[fd] in s.due, s.armed, s.writing, s.events, s.tasks);
      assert s.owner[s.http[fd]] == fd;
    }
  }

  lemma PushDirects(s: State, task: Task)
    requires Directed(s) && (task.Act? ==> task.fd !in s.http || task.action == Close || task.action == Upgrade)
    ensures Directed(Push(s, task))
  {
  }

  lemma ArmDirects(s: State, fd: int, writing: bool)
    requires Directed(s) && (fd in s.http ==> (writing <==> s.http[fd] in s.due))
    ensures Directed(Arm(s, fd, writing))
  {
    var t := Arm(s, fd, writing);
    forall f | f in t.http ensures FdDirected(f, t.http[f] in t.due, t.armed, t.writing, t.events, t.tasks) {
      assert FdDirected(f, s.http[f] in s.due, s.armed, s.writing, s.events, s.tasks);
    }
  }

  /** Fewer descriptors and less interest. */
  lemma LessDirects(s: State, t: State)
    requires Directed(s)
    requires t.due == s.due && t.owner == s.owner && t.writing == s.writing && t.armed <= s.armed
    requires forall x :: x in t.events ==> x in s.events
    requires forall x :: x in t.tasks ==> x in s.tasks
    requires forall j :: j in t.queue || j in t.running ==> j in s.queue || j in s.running
    requires forall fd :: fd in t.http ==> fd in s.http && t.http[fd] == s.http[fd]
    ensures Directed(t)
  {
    forall fd | fd in t.http ensures FdDirected(fd, t.http[fd] in t.due, t.armed, t.writing, t.events, t.tasks) {
      assert FdDirected(fd, s.http[fd] in s.due, s.armed, s.writing, s.events, s.tasks);
    }
  }

  lemma CloseOnlyTakes(s: State, fd: int)
    ensures var t := CloseFd(s, fd);
      && t.due == s.due && t.owner == s.owner && t.queue == s.queue && t.running == s.running && t.tasks == s.tasks
      && t.events == s.events && t.writing == s.writing && t.armed <= s.armed
      && (forall f :: f in t.http ==> f in s.http && t.http[f] == s.http[f])
  {
  }

  lemma SwitchOnlyTakes(s: State, fd: int)
    ensures var t := SwitchProtocol(s, fd);
      && t.due == s.due && t.owner == s.owner && t.queue == s.queue && t.running == s.running && t.tasks == s.tasks
      && t.events == s.events && t.writing == s.writing && t.armed == s.armed
      && fd !in t.http && (forall f :: f in t.http ==> f in s.http && t.http[f] == s.http[f])
  {
  }

  lemma TaskDirects(s: State)
    requires Directed(s) && s.tasks != []
    ensures Directed(Perform(s.(tasks := s.tasks[1..]), s.tasks[0]))
  {
    hide Directed, CloseFd, SwitchProtocol, Arm;
    var u, task := s.(tasks := s.tasks[1..]), s.tasks[0];
    LessDirects(s, u);
    CloseOnlyTakes(u, task.fd);
    LessDirects(u, CloseFd(u, task.fd));
    if task.Act? {
      ActDirects(s, u, task.fd, task.action);
    }
  }

  lemma ActDirects(s: State, u: State, fd: int, action: Action)
    requires s.tasks != [] && s.tasks[0] == Act(fd, action) && u == s.(tasks := s.tasks[1..])
    requires Directed(s) && Directed(u)
    ensures Directed(HandleAction(u, fd, action))
  {
    hide Directed, CloseFd, SwitchProtocol, Arm;
    match action {
      case Close =>
        CloseOnlyTakes(u, fd);
        LessDirects(u, CloseFd(u, fd));
      case Upgrade =>
        SwitchOnlyTakes(u, fd);
        LessDirects(u, SwitchProtocol(u, fd));
        ArmDirects(SwitchProtocol(u, fd), fd, false);
      case _ =>
        TaskFits(s);
        ArmDirects(u, fd, action == Write);
    }
  }

  lemma TaskFits(s: State)
    requires Directed(s) && s.tasks != []
    ensures var t := s.tasks[0];
      t.Act? && t.fd in s.http ==>
        (t.action == Write ==> s.http[t.fd] in s.due) &&
        (t.action == Read || t.action == Wait ==> s.http[t.fd] !in s.due)
  {
    var t := s.tasks[0];
    if t.fd in s.http {
      assert FdDirected(t.fd, s.http[t.fd] in s.due, s.armed, s.writing, s.events, s.tasks);
    }
  }

  lemma FireDirects(s: State, timer: nat)
    requires Directed(s) && timer in s.timers
    ensures Directed(Fire(s, timer))
  {
    hide Directed;
    var e, t := s.timers[timer], s.(timers := s.timers - {timer});
    LessDirects(s, t);
    PushDirects(t, TimeoutClose(e.fd, e.life));
  }

  lemma StepDirects(s: State, step: Step)
    requires Directed(s) && Invariant(s) && Enabled(s, step)
    ensures Directed(Apply(s, step))
  {
    Parts(s);
    hide Directed, Invariant, Accept, Dispatch, Finish, Perform, Fire, TimersHold, TokensHold, WorkHolds, Tokens;
    match step {
      case NewConnection(fd, life, timer, expire) => AcceptDirects(s, fd, life, timer, expire);
      case Deliver(fd, kind) => DeliverDirects(s, fd, kind);
      case HandleEvent(accepted, expire) => EventDirects(s, accepted, expire);
      case StartJob => StartDirects(s);
      case FinishJob(w, action) => FinishDirects(s, w, action);
      case Callback(fd) =>
        KnownIsUpgraded(s, fd);
        PushDirects(s, Act(fd, Write));
      case RunTask => TaskDirects(s);
      case Expire(timer, now) => FireDirects(s, timer);
    }
  }

  lemma {:induction false} RunDirects(states: seq<State>, steps: seq<Step>, n: nat)
    requires IsRun(states, steps) && n < |states|
    ensures Directed(states[n])
  {
    RunStep(states, steps, if n == 0 then 0 else n - 1);
    if n > 0 {
      hide *;
      RunDirects(states, steps, n - 1);
      RunKeeps(states, steps, n - 1);
      StepDirects(states[n - 1], steps[n - 1]);
    }
  }

  /**
   * In every run a worker reads an HTTP connection only while no response is due on it, and writes only while one is.
   */
  lemma ReadsOnlyWhenNothingIsDue(states: seq<State>, steps: seq<Step>, n: nat, w: nat)
    requires IsRun(states, steps) && n < |states| && w < |states[n].running|
    requires states[n].running[w].target.HttpConn?
    ensures var s, j := states[n], states[n].running[w];
      j.kind == (if j.target.life in s.due then Writable else Readable)
  {
    RunDirects(states, steps, n);
    assert states[n].running[w] in states[n].running;
  }

  /** And a live HTTP connection is armed for the direction it needs. */
  lemma ArmedTheRightWay(states: seq<State>, steps: seq<Step>, n: nat, fd: int)
    requires IsRun(states, steps) && n < |states| && fd in states[n].http && fd in states[n].armed
    ensures fd in states[n].writing <==> states[n].http[fd] in states[n].due
  {
    RunDirects(states, steps, n);
    var s := states[n];
    assert FdDirected(fd, s.http[fd] in s.due, s.armed, s.writing, s.events, s.tasks);
  }
}
