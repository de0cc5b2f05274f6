/**
  The life of connections in one SubReactor as a step system: one-shot epoll
  arming, delivered events, the worker pool, the task queue, the idle timers
  and the upgrade from HTTP to WebSocket. Timers are the map that
  Timers.TimerManager refines.
 */
module Reactor {
  import opened Bytes
  import opened Io

  /** timer is the timer's identity, which survives in the record after the timer itself has fired. */
  datatype ClientData = ClientData(timer: Option<nat>, deleted: bool)

  /** A managed timer: the descriptor it watches, the connection object it was made for, and its expiry. */
  datatype TimerEntry = TimerEntry(fd: int, life: nat, expire: int)

  datatype EventKind = Hangup | Readable | Writable
  datatype Event = Event(fd: int, kind: EventKind)

  /** The connection object a job works on. */
  datatype Target = HttpConn(life: nat) | WsConn
  datatype Job = Job(fd: int, target: Target, kind: EventKind)

  /** life records which connection's timer asked for the close; the source's task carries only fd. */
  datatype Task = Act(fd: int, action: Action) | TimeoutClose(fd: int, life: nat)

  datatype State = State(
    http: map<int, nat>,         // m_connections: which HttpConnection object a descriptor has
    ws: set<int>,                // m_ws_connections
    known: set<int>,             // descriptors in WebSocketServer::conns_
    clients: map<int, ClientData>,
    timers: map<nat, TimerEntry>,
    registered: set<int>,        // descriptors in the epoll set
    armed: set<int>,             // those whose one-shot interest is on
    writing: set<int>,           // those whose interest is in writing rather than reading
    events: seq<Event>,          // delivered by epoll_wait and not handled yet
    queue: seq<Job>,             // the worker pool's queue
    running: seq<Job>,           // what each busy worker is doing
    tasks: seq<Task>,
    upgraded: set<int>,          // history: upgraded since they were accepted
    dropped: set<int>,           // history: a job was refused by the pool
    owner: map<nat, int>,        // history: the descriptor of each HttpConnection object
    due: set<nat>)               // HttpConnection objects with a response prepared (m_is_writing)

  function Initial(): State {
    State(map[], {}, {}, map[], map[], {}, {}, {}, [], [], [], [], {}, {}, map[], {})
  }

  datatype Step =
    | NewConnection(fd: int, life: nat, timer: nat, expire: int)
    | Deliver(fd: int, kind: EventKind)
    | HandleEvent(accepted: bool, expire: int)
    | StartJob
    | FinishJob(worker: nat, action: Action)
    | Callback(fd: int)
    | RunTask
    | Expire(timer: nat, now: int)

  // ---------- The operations ----------

  /** Tools::modfd, for EPOLLOUT or EPOLLIN */
  function Arm(s: State, fd: int, writing: bool): State {
    if fd in s.registered then
      s.(armed := s.armed + {fd}, writing := if writing then s.writing + {fd} else s.writing - {fd})
    else s
  }

  /** Tools::del_timer */
  function DelTimer(s: State, fd: int): State {
    if fd in s.clients && s.clients[fd].timer.Some? && !s.clients[fd].deleted then
      s.(clients := s.clients[fd := ClientData(None, true)], timers := s.timers - {s.clients[fd].timer.value})
    else s
  }

  /** Tools::adjust_timer */
  function AdjustTimer(s: State, fd: int, expire: int): State {
    if fd in s.clients && s.clients[fd].timer.Some? && !s.clients[fd].deleted &&
       s.clients[fd].timer.value in s.timers then
      var t := s.clients[fd].timer.value;
      s.(timers := s.timers[t := s.timers[t].(expire := expire)])
    else s
  }

  function CloseFd(s: State, fd: int): State {
    var t := if fd in s.known then s.(known := s.known - {fd}, ws := s.ws - {fd})
             else DelTimer(s, fd).(http := s.http - {fd});
    t.(registered := s.registered - {fd}, armed := s.armed - {fd})
  }

  /** The HTTP connection gives way to a WebSocket connection. */
  function SwitchProtocol(s: State, fd: int): State {
    DelTimer(s, fd).(http := s.http - {fd}, ws := s.ws + {fd},
      known := s.known + {fd}, upgraded := s.upgraded + {fd})
  }

  function UpgradeFd(s: State, fd: int): State { Arm(SwitchProtocol(s, fd), fd, false) }

  function HandleAction(s: State, fd: int, action: Action): State {
    match action
    case Read => Arm(s, fd, false)
    case Wait => Arm(s, fd, false)
    case Write => Arm(s, fd, true)
    case Close => CloseFd(s, fd)
    case Upgrade => UpgradeFd(s, fd)
  }

  function Perform(s: State, task: Task): State {
    match task
    case Act(fd, action) => HandleAction(s, fd, action)
    case TimeoutClose(fd, _) => if fd in s.http then HandleAction(s, fd, Close) else s
  }

  function Accept(s: State, fd: int, life: nat, timer: nat, expire: int): State {
    s.(registered := s.registered + {fd}, armed := s.armed + {fd}, writing := s.writing - {fd},
       http := s.http[fd := life],
       clients := s.clients[fd := ClientData(Some(timer), false)],
       timers := s.timers[timer := TimerEntry(fd, life, expire)],
       upgraded := s.upgraded - {fd}, dropped := s.dropped - {fd},
       owner := s.owner[life := fd])
  }

  function Submit(s: State, job: Job, accepted: bool): State {
    if accepted then s.(queue := s.queue + [job]) else s.(dropped := s.dropped + {job.fd})
  }

  /** What the event loop does with one delivered event; accepted is the worker pool's answer. */
  function Dispatch(s: State, e: Event, accepted: bool, expire: int): State {
    if e.kind == Hangup then s.(tasks := s.tasks + [Act(e.fd, Close)])
    else if e.fd in s.known then
      if e.fd in s.ws then Submit(s, Job(e.fd, WsConn, e.kind), accepted) else s
    else if e.fd in s.http then
      Submit(AdjustTimer(s, e.fd, expire), Job(e.fd, HttpConn(s.http[e.fd]), e.kind), accepted)
    else s
  }

  /** A timer leaves the manager and its callback runs. */
  function Fire(s: State, timer: nat): State
    requires timer in s.timers
  {
    var e := s.timers[timer];
    var t := s.(timers := s.timers - {timer});
    if e.fd in s.clients && s.clients[e.fd].deleted then t
    else t.(tasks := t.tasks + [TimeoutClose(e.fd, e.life)])
  }

  /** Nothing of an earlier life of the descriptor is left anywhere. */
  ghost predicate Unused(s: State, fd: int) {
    && fd !in s.http && fd !in s.ws && fd !in s.known && fd !in s.registered
    && (forall e :: e in s.events ==> e.fd != fd)
    && (forall j :: j in s.queue || j in s.running ==> j.fd != fd)
    && (forall t :: t in s.tasks ==> t.fd != fd)
  }

  /**
   * What a job can report. On an HTTP connection a read waits, answers or gives up; a write without a response due
   * goes back to reading, and with one it blocks, keeps the connection alive, upgrades it or closes it.
   */
  predicate CanReport(job: Job, due: set<nat>, action: Action) {
    match job.target
    case WsConn => action == Read || action == Write || action == Close
    case HttpConn(life) =>
      if job.kind != Writable then action == Read || action == Write || action == Close
      else if life in due then action == Write || action == Wait || action == Upgrade || action == Close
      else action == Read
  }

  /** A response is due once one has been prepared, until the connection is reset for the next request. */
  function DueAfter(due: set<nat>, job: Job, action: Action): set<nat> {
    if job.target.WsConn? then due
    else if action == Write then due + {job.target.life}
    else if action == Wait then due - {job.target.life}
    else due
  }

  ghost predicate Enabled(s: State, step: Step) {
    match step
    case NewConnection(fd, life, timer, expire) => Unused(s, fd) && life !in s.owner && timer !in s.timers
      && (forall f :: f in s.clients ==> s.clients[f].timer != Some(timer))
    case Deliver(fd, kind) => fd in s.armed && (kind == Hangup || (kind == Writable <==> fd in s.writing))
    case HandleEvent(accepted, expire) => s.events != []
    case StartJob => s.queue != []
    case FinishJob(w, action) => w < |s.running| && CanReport(s.running[w], s.due, action)
    case Callback(fd) => fd in s.known
    case RunTask => s.tasks != []
    case Expire(timer, now) => timer in s.timers && s.timers[timer].expire <= now
  }

  function Finish(s: State, w: nat, action: Action): State
    requires w < |s.running|
  {
    s.(running := s.running[..w] + s.running[w + 1..], tasks := s.tasks + [Act(s.running[w].fd, action)],
       due := DueAfter(s.due, s.running[w], action))
  }

  function Push(s: State, task: Task): State { s.(tasks := s.tasks + [task]) }

  ghost function Apply(s: State, step: Step): State
    requires Enabled(s, step)
  {
    match step
    case NewConnection(fd, life, timer, expire) => Accept(s, fd, life, timer, expire)
    case Deliver(fd, kind) => s.(armed := s.armed - {fd}, events := s.events + [Event(fd, kind)])
    case HandleEvent(accepted, expire) => Dispatch(s.(events := s.events[1..]), s.events[0], accepted, expire)
    case StartJob => s.(queue := s.queue[1..], running := s.running + [s.queue[0]])
    case FinishJob(w, action) => Finish(s, w, action)
    case Callback(fd) => Push(s, Act(fd, Write))
    case RunTask => Perform(s.(tasks := s.tasks[1..]), s.tasks[0])
    case Expire(timer, now) => Fire(s, timer)
  }

  ghost predicate IsRun(states: seq<State>, steps: seq<Step>) {
    && |states| == |steps| + 1
    && states[0] == Initial()
    && forall i :: 0 <= i < |steps| ==> Enabled(states[i], steps[i]) && states[i + 1] == Apply(states[i], steps[i])
  }

  // ---------- Counting tokens ----------

  function EventFds(es: seq<Event>): multiset<int> {
    if es == [] then multiset{} else multiset{es[0].fd} + EventFds(es[1..])
  }

  /** Jobs on HTTP connections only. */
  function HttpFds(js: seq<Job>): multiset<int> {
    if js == [] then multiset{}
    else (if js[0].target.HttpConn? then multiset{js[0].fd} else multiset{}) + HttpFds(js[1..])
  }

  function ActFds(ts: seq<Task>): multiset<int> {
    if ts == [] then multiset{} else (if ts[0].Act? then multiset{ts[0].fd} else multiset{}) + ActFds(ts[1..])
  }

  function TimeoutFds(ts: seq<Task>): multiset<int> {
    if ts == [] then multiset{} else (if ts[0].Act? then multiset{} else multiset{ts[0].fd}) + TimeoutFds(ts[1..])
  }

  lemma {:induction false} EventFdsAppend(xs: seq<Event>, ys: seq<Event>)
    ensures EventFds(xs + ys) == EventFds(xs) + EventFds(ys)
  {
    if xs == [] { assert xs + ys == ys; } else {
      assert (xs + ys)[1..] == xs[1..] + ys;
      EventFdsAppend(xs[1..], ys);
    }
  }

  lemma {:induction false} HttpFdsAppend(xs: seq<Job>, ys: seq<Job>)
    ensures HttpFds(xs + ys) == HttpFds(xs) + HttpFds(ys)
  {
    if xs == [] { assert xs + ys == ys; } else {
      assert (xs + ys)[1..] == xs[1..] + ys;
      HttpFdsAppend(xs[1..], ys);
    }
  }

  lemma {:induction false} TaskFdsAppend(xs: seq<Task>, ys: seq<Task>)
    ensures ActFds(xs + ys) == ActFds(xs) + ActFds(ys)
    ensures TimeoutFds(xs + ys) == TimeoutFds(xs) + TimeoutFds(ys)
  {
    if xs == [] { assert xs + ys == ys; } else {
      assert (xs + ys)[1..] == xs[1..] + ys;
      TaskFdsAppend(xs[1..], ys);
    }
  }

  /** Everything that may hold the turn of a connection: the armed bit, an event, a job, or a task for the reactor. */
  function Tokens(s: State): multiset<int> {
    multiset(s.armed) + Held(s.events, s.queue, s.running, s.tasks)
  }

  function Held(events: seq<Event>, queue: seq<Job>, running: seq<Job>, tasks: seq<Task>): multiset<int> {
    EventFds(events) + HttpFds(queue) + HttpFds(running) + ActFds(tasks)
  }

  // ---------- The invariant ----------

  /**
   * Jobs on HTTP objects belong to descriptors that were not upgraded, jobs on WebSocket objects to those that were.
   */
  predicate JobHolds(owner: map<nat, int>, upgraded: set<int>, j: Job) {
    match j.target
    case HttpConn(life) => life in owner && owner[life] == j.fd && j.fd !in upgraded
    case WsConn => j.fd in upgraded
  }

  ghost predicate TablesHold(s: State) {
    && s.ws <= s.upgraded && s.known <= s.upgraded
    && s.http.Keys !! s.upgraded
    && s.armed <= s.registered && s.http.Keys <= s.registered
    && (forall fd :: fd in s.http ==> s.http[fd] in s.owner && s.owner[s.http[fd]] == fd)
  }

  ghost predicate WorkHolds(
    owner: map<nat, int>, upgraded: set<int>, queue: seq<Job>, running: seq<Job>, tasks: seq<Task>) {
    && (forall j :: j in queue || j in running ==> JobHolds(owner, upgraded, j))
    && (forall t :: t in tasks && t == Act(t.fd, Upgrade) ==> t.fd !in upgraded)
  }

  /** One turn for each connection that is not a WebSocket; a live HTTP connection has it unless a job was refused. */
  ghost predicate TokensHold(tokens: multiset<int>, http: set<int>, upgraded: set<int>, dropped: set<int>) {
    && (forall fd :: fd !in upgraded ==> tokens[fd] <= 1)
    && (forall fd :: fd in http && fd !in dropped ==> tokens[fd] == 1)
  }

  /**
    A live HTTP connection has its own timer in the manager or one queued close, never both;
    a managed timer is the current timer of a live HTTP connection.
   */
  ghost predicate TimersHold(
    http: map<int, nat>, clients: map<int, ClientData>, timers: map<nat, TimerEntry>, tasks: seq<Task>) {
    && (forall t :: t in timers ==>
          var e := timers[t];
          e.fd in http && http[e.fd] == e.life && e.fd in clients && clients[e.fd] == ClientData(Some(t), false))
    && (forall fd :: fd in http ==> ClientHolds(clients, timers, TimeoutFds(tasks), fd))
    && (forall fd :: fd in clients && clients[fd].timer.Some? ==> fd in http)
    && (forall t :: t in tasks && t.TimeoutClose? && t.fd in http ==> http[t.fd] == t.life)
  }

  predicate ClientHolds(clients: map<int, ClientData>, timers: map<nat, TimerEntry>, timeouts: multiset<int>, fd: int) {
    && fd in clients && clients[fd].timer.Some? && !clients[fd].deleted
    && var t := clients[fd].timer.value;
       if t in timers then timers[t].fd == fd && timeouts[fd] == 0 else timeouts[fd] == 1
  }

  ghost predicate Invariant(s: State) {
    && TablesHold(s)
    && WorkHolds(s.owner, s.upgraded, s.queue, s.running, s.tasks)
    && TokensHold(Tokens(s), s.http.Keys, s.upgraded, s.dropped)
    && TimersHold(s.http, s.clients, s.timers, s.tasks)
  }

  // ---------- The timers, operation by operation ----------

  lemma TimersPushAct(
    http: map<int, nat>, clients: map<int, ClientData>, timers: map<nat, TimerEntry>, tasks: seq<Task>, fd: int,
    action: Action)
    requires TimersHold(http, clients, timers, tasks)
    ensures TimersHold(http, clients, timers, tasks + [Act(fd, action)])
  {
    TaskFdsAppend(tasks, [Act(fd, action)]);
    assert TimeoutFds([Act(fd, action)]) == multiset{};
    hide TimeoutFds;
  }

  lemma TimersPopAct(http: map<int, nat>, clients: map<int, ClientData>, timers: map<nat, TimerEntry>, tasks: seq<Task>)
    requires TimersHold(http, clients, timers, tasks) && tasks != [] && tasks[0].Act?
    ensures TimersHold(http, clients, timers, tasks[1..])
  {
  }

  /** A queued close of a connection that is gone already is dropped. */
  lemma TimersPopTimeout(
    http: map<int, nat>, clients: map<int, ClientData>, timers: map<nat, TimerEntry>, tasks: seq<Task>)
    requires tasks != [] && tasks[0].TimeoutClose? && tasks[0].fd !in http
    requires TimersHold(http, clients, timers, tasks)
    ensures TimersHold(http, clients, timers, tasks[1..])
  {
  }

  lemma TimersAccept(
    http: map<int, nat>, clients: map<int, ClientData>, timers: map<nat, TimerEntry>, tasks: seq<Task>, fd: int,
    life: nat, timer: nat, expire: int)
    requires TimersHold(http, clients, timers, tasks) && fd !in http && timer !in timers
    requires forall f :: f in clients ==> clients[f].timer != Some(timer)
    requires forall t :: t in tasks ==> t.fd != fd
    ensures TimersHold(http[fd := life], clients[fd := ClientData(Some(timer), false)],
                       timers[timer := TimerEntry(fd, life, expire)], tasks)
  {
    NoTask(tasks, fd);
    hide TimeoutFds;
    var clients', timers' := clients[fd := ClientData(Some(timer), false)],
      timers[timer := TimerEntry(fd, life, expire)];
    forall f | f in http[fd := life]
      ensures ClientHolds(clients', timers', TimeoutFds(tasks), f)
    {
      assert f != fd ==> ClientHolds(clients, timers, TimeoutFds(tasks), f);
    }
  }

  lemma TimersExpire(
    http: map<int, nat>, clients: map<int, ClientData>, timers: map<nat, TimerEntry>, tasks: seq<Task>, timer: nat)
    requires TimersHold(http, clients, timers, tasks) && timer in timers
    ensures TimersHold(http, clients, timers - {timer}, tasks + [TimeoutClose(timers[timer].fd, timers[timer].life)])
  {
    var e := timers[timer];
    var close := TimeoutClose(e.fd, e.life);
    TaskFdsAppend(tasks, [close]);
    assert TimeoutFds([close]) == multiset{e.fd};
    assert forall t :: t in tasks + [close] <==> t in tasks || t == close;
    hide TimeoutFds;
    forall f | f in http
      ensures ClientHolds(clients, timers - {timer}, TimeoutFds(tasks + [close]), f)
    {
      ClientExpires(clients, timers, TimeoutFds(tasks), timer, f);
    }
    hide ClientHolds;
  }

  lemma ClientExpires(
    clients: map<int, ClientData>, timers: map<nat, TimerEntry>, timeouts: multiset<int>, timer: nat, fd: int)
    requires timer in timers && ClientHolds(clients, timers, timeouts, fd)
    requires timers[timer].fd in clients && clients[timers[timer].fd].timer == Some(timer)
    ensures ClientHolds(clients, timers - {timer}, timeouts + multiset{timers[timer].fd}, fd)
  {
  }

  lemma TimersAdjust(
    http: map<int, nat>, clients: map<int, ClientData>, timers: map<nat, TimerEntry>, tasks: seq<Task>, timer: nat,
    expire: int)
    requires TimersHold(http, clients, timers, tasks) && timer in timers
    ensures TimersHold(http, clients, timers[timer := timers[timer].(expire := expire)], tasks)
  {
  }

  /** Closing or upgrading takes the connection out of the table together with its timer, if it still has one. */
  lemma TimersForget(s: State, fd: int)
    requires TimersHold(s.http, s.clients, s.timers, s.tasks)
    ensures TimersHold(s.http - {fd}, DelTimer(s, fd).clients, DelTimer(s, fd).timers, s.tasks)
  {
    hide TimeoutFds;
    var http, clients, timers := s.http - {fd}, DelTimer(s, fd).clients, DelTimer(s, fd).timers;
    forall f | f in http
      ensures ClientHolds(clients, timers, TimeoutFds(s.tasks), f)
    {
      assert ClientHolds(s.clients, s.timers, TimeoutFds(s.tasks), f);
      assert f != fd;
    }
    forall t | t in timers
      ensures timers[t].fd != fd
    {
      assert s.clients[s.timers[t].fd] == ClientData(Some(t), false);
    }
  }

  // ---------- Every step keeps it ----------

  lemma {:induction false} JobCounts(js: seq<Job>, j: Job)
    requires j in js && j.target.HttpConn?
    ensures HttpFds(js)[j.fd] >= 1
  {
    if js[0] != j {
      JobCounts(js[1..], j);
    }
  }

  lemma {:induction false} TaskCounts(ts: seq<Task>, t: Task)
    requires t in ts
    ensures t.Act? ==> ActFds(ts)[t.fd] >= 1
    ensures t.TimeoutClose? ==> TimeoutFds(ts)[t.fd] >= 1
  {
    if ts[0] != t {
      TaskCounts(ts[1..], t);
    }
  }

  lemma {:induction false} NoEvent(es: seq<Event>, fd: int)
    requires forall e :: e in es ==> e.fd != fd
    ensures EventFds(es)[fd] == 0
  {
    if es != [] {
      NoEvent(es[1..], fd);
    }
  }

  lemma {:induction false} NoJob(js: seq<Job>, fd: int)
    requires forall j :: j in js ==> j.fd != fd
    ensures HttpFds(js)[fd] == 0
  {
    if js != [] {
      NoJob(js[1..], fd);
    }
  }

  lemma {:induction false} NoTask(ts: seq<Task>, fd: int)
    requires forall t :: t in ts ==> t.fd != fd
    ensures ActFds(ts)[fd] == 0 && TimeoutFds(ts)[fd] == 0
  {
    if ts != [] {
      NoTask(ts[1..], fd);
    }
  }

  // ---------- The tokens, step by step ----------

  lemma DeliverTokens(s: State, fd: int, kind: EventKind)
    requires fd in s.armed
    ensures Tokens(s.(armed := s.armed - {fd}, events := s.events + [Event(fd, kind)])) == Tokens(s)
  {
    EventFdsAppend(s.events, [Event(fd, kind)]);
    assert EventFds([Event(fd, kind)]) == multiset{fd};
    assert multiset(s.armed) == multiset(s.armed - {fd}) + multiset{fd};
  }

  lemma StartJobTokens(s: State)
    requires s.queue != []
    ensures Tokens(s.(queue := s.queue[1..], running := s.running + [s.queue[0]])) == Tokens(s)
  {
    var j := s.queue[0];
    HttpFdsAppend(s.running, [j]);
    assert s.queue == [j] + s.queue[1..];
    HttpFdsAppend([j], s.queue[1..]);
  }

  lemma OneJob(j: Job)
    ensures HttpFds([j]) == if j.target.HttpConn? then multiset{j.fd} else multiset{}
  {
  }

  lemma RemovedJob(js: seq<Job>, w: nat)
    requires w < |js|
    ensures HttpFds(js) == HttpFds(js[..w] + js[w + 1..]) +
      (if js[w].target.HttpConn? then multiset{js[w].fd} else multiset{})
  {
    hide HttpFds;
    var before, one, after := js[..w], [js[w]], js[w + 1..];
    assert js == (before + one) + after;
    HttpFdsAppend(before + one, after);
    HttpFdsAppend(before, one);
    HttpFdsAppend(before, after);
    OneJob(js[w]);
  }

  lemma PushedTask(tasks: seq<Task>, task: Task)
    ensures ActFds(tasks + [task]) == ActFds(tasks) + (if task.Act? then multiset{task.fd} else multiset{})
  {
    TaskFdsAppend(tasks, [task]);
    assert ActFds([task]) == if task.Act? then multiset{task.fd} else multiset{};
  }

  lemma FinishJobTokens(s: State, w: nat, action: Action)
    requires w < |s.running|
    ensures var t, j := Finish(s, w, action), s.running[w];
      Tokens(t) == if j.target.HttpConn? then Tokens(s) else Tokens(s) + multiset{j.fd}
  {
    hide HttpFds, ActFds, EventFds;
    RemovedJob(s.running, w);
    PushedTask(s.tasks, Act(s.running[w].fd, action));
  }

  lemma PushTokens(s: State, task: Task)
    ensures Tokens(Push(s, task)) == if task.Act? then Tokens(s) + multiset{task.fd} else Tokens(s)
  {
    hide HttpFds, ActFds, EventFds;
    PushedTask(s.tasks, task);
  }

  lemma UnusedHasNoTokens(s: State, fd: int)
    requires Unused(s, fd) && s.armed <= s.registered
    ensures Tokens(s)[fd] == 0 && TimeoutFds(s.tasks)[fd] == 0
  {
    NoEvent(s.events, fd);
    NoJob(s.queue, fd);
    NoJob(s.running, fd);
    NoTask(s.tasks, fd);
  }

  lemma UnusedFacts(s: State, fd: int)
    requires Unused(s, fd)
    ensures fd !in s.http && forall t :: t in s.tasks ==> t.fd != fd
  {
  }

  // ---------- Every step keeps the invariant ----------

  lemma Parts(s: State)
    requires Invariant(s)
    ensures TablesHold(s) && WorkHolds(s.owner, s.upgraded, s.queue, s.running, s.tasks)
    ensures TokensHold(Tokens(s), s.http.Keys, s.upgraded, s.dropped)
    ensures TimersHold(s.http, s.clients, s.timers, s.tasks)
  {
  }

  lemma Assemble(s: State)
    requires TablesHold(s) && WorkHolds(s.owner, s.upgraded, s.queue, s.running, s.tasks)
    requires TokensHold(Tokens(s), s.http.Keys, s.upgraded, s.dropped)
    requires TimersHold(s.http, s.clients, s.timers, s.tasks)
    ensures Invariant(s)
  {
  }

  lemma DeliverKeeps(s: State, fd: int, kind: EventKind)
    requires Invariant(s) && fd in s.armed
    ensures Invariant(s.(armed := s.armed - {fd}, events := s.events + [Event(fd, kind)]))
  {
    DeliverTokens(s, fd, kind);
    hide Tokens, TimersHold, WorkHolds;
  }

  lemma StartJobKeeps(s: State)
    requires Invariant(s) && s.queue != []
    ensures Invariant(s.(queue := s.queue[1..], running := s.running + [s.queue[0]]))
  {
    StartJobTokens(s);
    hide Tokens, TimersHold, JobHolds;
  }

  lemma JobKinds(s: State, w: nat)
    requires WorkHolds(s.owner, s.upgraded, s.queue, s.running, s.tasks) && w < |s.running|
    ensures s.running[w].target.HttpConn? <==> s.running[w].fd !in s.upgraded
  {
    assert JobHolds(s.owner, s.upgraded, s.running[w]);
  }

  lemma FinishKeepsWork(s: State, w: nat, action: Action)
    requires WorkHolds(s.owner, s.upgraded, s.queue, s.running, s.tasks)
    requires w < |s.running| && CanReport(s.running[w], s.due, action)
    ensures WorkHolds(s.owner, s.upgraded, s.queue,
      s.running[..w] + s.running[w + 1..], s.tasks + [Act(s.running[w].fd, action)])
  {
    JobKinds(s, w);
    hide JobHolds;
    assert forall j :: j in s.running[..w] + s.running[w + 1..] ==> j in s.running;
  }

  lemma FinishJobKeeps(s: State, w: nat, action: Action)
    requires Invariant(s) && w < |s.running| && CanReport(s.running[w], s.due, action)
    ensures Invariant(Finish(s, w, action))
  {
    hide Tokens, TimersHold, WorkHolds, TablesHold, TokensHold, Invariant, CanReport, DueAfter;
    Parts(s);
    var t, fd := Finish(s, w, action), s.running[w].fd;
    FinishJobTokens(s, w, action);
    JobKinds(s, w);
    FinishKeepsWork(s, w, action);
    TimersPushAct(s.http, s.clients, s.timers, s.tasks, fd, action);
    TablesIgnore(s, t);
    UpgradedMayHoldMore(Tokens(s), s.http.Keys, s.upgraded, s.dropped, fd);
    KnownIsUpgraded(s, fd);
    Assemble(t);
  }

  lemma UpgradedMayHoldMore(tokens: multiset<int>, http: set<int>, upgraded: set<int>, dropped: set<int>, fd: int)
    requires TokensHold(tokens, http, upgraded, dropped)
    ensures fd in upgraded && fd !in http ==> TokensHold(tokens + multiset{fd}, http, upgraded, dropped)
  {
  }

  lemma CallbackKeeps(s: State, fd: int)
    requires Invariant(s) && fd in s.known
    ensures Invariant(Push(s, Act(fd, Write)))
  {
    PushTokens(s, Act(fd, Write));
    TimersPushAct(s.http, s.clients, s.timers, s.tasks, fd, Write);
    hide Tokens, TimersHold, JobHolds;
  }

  lemma AcceptTokens(s: State, fd: int, life: nat, timer: nat, expire: int)
    requires Unused(s, fd) && TablesHold(s)
    ensures Tokens(Accept(s, fd, life, timer, expire)) == Tokens(s) + multiset{fd}
    ensures Tokens(s)[fd] == 0
  {
    hide ActFds, EventFds, HttpFds, TimeoutFds;
    UnusedHasNoTokens(s, fd);
    hide Unused;
    assert multiset(s.armed + {fd}) == multiset(s.armed) + multiset{fd};
  }

  lemma AcceptKeepsWork(s: State, fd: int, life: nat)
    requires WorkHolds(s.owner, s.upgraded, s.queue, s.running, s.tasks) && Unused(s, fd) && life !in s.owner
    ensures WorkHolds(s.owner[life := fd], s.upgraded - {fd}, s.queue, s.running, s.tasks)
  {
  }

  lemma AcceptedToken(tokens: multiset<int>, http: set<int>, upgraded: set<int>, dropped: set<int>, fd: int)
    requires TokensHold(tokens, http, upgraded, dropped) && tokens[fd] == 0
    ensures TokensHold(tokens + multiset{fd}, http + {fd}, upgraded - {fd}, dropped - {fd})
  {
  }

  lemma AcceptKeepsTables(s: State, fd: int, life: nat, timer: nat, expire: int)
    requires TablesHold(s) && Unused(s, fd) && life !in s.owner
    ensures TablesHold(Accept(s, fd, life, timer, expire))
  {
  }

  lemma NewConnectionKeeps(s: State, fd: int, life: nat, timer: nat, expire: int)
    requires Invariant(s) && Unused(s, fd) && life !in s.owner && timer !in s.timers
    requires forall f :: f in s.clients ==> s.clients[f].timer != Some(timer)
    ensures Invariant(Accept(s, fd, life, timer, expire))
  {
    hide Tokens, TimersHold, WorkHolds, TablesHold, TokensHold, Unused, Invariant;
    Parts(s);
    UnusedFacts(s, fd);
    AcceptTokens(s, fd, life, timer, expire);
    AcceptedToken(Tokens(s), s.http.Keys, s.upgraded, s.dropped, fd);
    AcceptKeepsTables(s, fd, life, timer, expire);
    AcceptKeepsWork(s, fd, life);
    TimersAccept(s.http, s.clients, s.timers, s.tasks, fd, life, timer, expire);
    assert s.http[fd := life].Keys == s.http.Keys + {fd};
    Assemble(Accept(s, fd, life, timer, expire));
  }

  lemma ExpireKeeps(s: State, timer: nat)
    requires Invariant(s) && timer in s.timers
    ensures Invariant(Fire(s, timer))
  {
    var e := s.timers[timer];
    TimersExpire(s.http, s.clients, s.timers, s.tasks, timer);
    PushTokens(s, TimeoutClose(e.fd, e.life));
    assert Tokens(Fire(s, timer)) == Tokens(Push(s, TimeoutClose(e.fd, e.life)));
    hide Tokens, JobHolds;
  }

  lemma TokenMoved(tokens: multiset<int>, http: set<int>, upgraded: set<int>, dropped: set<int>, fd: int)
    requires TokensHold(tokens + multiset{fd}, http, upgraded, dropped)
    ensures TokensHold(tokens, http, upgraded, dropped + {fd})
    ensures TokensHold(tokens, http - {fd}, upgraded, dropped)
    ensures TokensHold(tokens, http - {fd}, upgraded + {fd}, dropped)
  {
  }

  /** The reactor's own steps: the first delivered event. */
  lemma EventTokens(s: State)
    requires s.events != []
    ensures Tokens(s) == Tokens(s.(events := s.events[1..])) + multiset{s.events[0].fd}
  {
  }

  lemma SubmitTokens(s: State, job: Job)
    ensures Tokens(s.(queue := s.queue + [job])) ==
      if job.target.HttpConn? then Tokens(s) + multiset{job.fd} else Tokens(s)
  {
    HttpFdsAppend(s.queue, [job]);
    assert HttpFds([job]) == if job.target.HttpConn? then multiset{job.fd} else multiset{};
  }

  lemma SubmitKeepsWork(s: State, job: Job)
    requires WorkHolds(s.owner, s.upgraded, s.queue, s.running, s.tasks) && JobHolds(s.owner, s.upgraded, job)
    ensures WorkHolds(s.owner, s.upgraded, s.queue + [job], s.running, s.tasks)
  {
  }

  lemma AdjustKeepsTimers(s: State, fd: int, expire: int)
    requires TimersHold(s.http, s.clients, s.timers, s.tasks)
    ensures TimersHold(s.http, s.clients, AdjustTimer(s, fd, expire).timers, s.tasks)
  {
    if fd in s.clients && s.clients[fd].timer.Some? && s.clients[fd].timer.value in s.timers {
      TimersAdjust(s.http, s.clients, s.timers, s.tasks, s.clients[fd].timer.value, expire);
    }
    hide TimersHold;
  }

  /** A job for the connection, which takes the turn of an HTTP connection with it or loses it. */
  lemma SubmitKeeps(s: State, job: Job, accepted: bool)
    requires TablesHold(s) && WorkHolds(s.owner, s.upgraded, s.queue, s.running, s.tasks)
    requires TimersHold(s.http, s.clients, s.timers, s.tasks)
    requires JobHolds(s.owner, s.upgraded, job)
    requires TokensHold(Tokens(s) + multiset{job.fd}, s.http.Keys, s.upgraded, s.dropped)
    ensures Invariant(Submit(s, job, accepted))
  {
    hide Tokens, TimersHold, WorkHolds, TablesHold, TokensHold, HttpFds, Invariant;
    SubmitTokens(s, job);
    SubmitKeepsWork(s, job);
    TokenMoved(Tokens(s), s.http.Keys, s.upgraded, s.dropped, job.fd);
    DropTokens(s, job.fd);
    SubmitTables(s, job, accepted);
    Assemble(Submit(s, job, accepted));
  }

  lemma SubmitTables(s: State, job: Job, accepted: bool)
    requires TablesHold(s)
    ensures TablesHold(Submit(s, job, accepted))
  {
  }

  lemma DropTokens(s: State, fd: int)
    ensures Tokens(s.(dropped := s.dropped + {fd})) == Tokens(s)
  {
  }

  lemma PushKeepsWork(s: State, task: Task)
    requires WorkHolds(s.owner, s.upgraded, s.queue, s.running, s.tasks) &&
      (task == Act(task.fd, Upgrade) ==> task.fd !in s.upgraded)
    ensures WorkHolds(s.owner, s.upgraded, s.queue, s.running, s.tasks + [task])
  {
  }

  lemma TablesIgnore(s: State, t: State)
    requires TablesHold(s)
    requires t.http == s.http && t.ws == s.ws && t.known == s.known && t.upgraded == s.upgraded && t.owner == s.owner
    requires t.registered == s.registered && t.armed <= s.armed
    ensures TablesHold(t)
  {
  }

  lemma HangupKeeps(s: State)
    requires Invariant(s) && s.events != []
    ensures Invariant(Push(s.(events := s.events[1..]), Act(s.events[0].fd, Close)))
  {
    hide Tokens, TimersHold, WorkHolds, TablesHold, TokensHold, Invariant;
    var fd, u := s.events[0].fd, s.(events := s.events[1..]);
    Parts(s);
    EventTokens(s);
    PushTokens(u, Act(fd, Close));
    TimersPushAct(s.http, s.clients, s.timers, s.tasks, fd, Close);
    PushKeepsWork(s, Act(fd, Close));
    TablesIgnore(s, Push(u, Act(fd, Close)));
    Assemble(Push(u, Act(fd, Close)));
  }

  lemma KnownIsUpgraded(s: State, fd: int)
    requires TablesHold(s)
    ensures fd in s.known ==> fd in s.upgraded
    ensures fd in s.ws ==> fd in s.upgraded
    ensures fd in s.http ==> fd !in s.upgraded && s.http[fd] in s.owner && s.owner[s.http[fd]] == fd
  {
  }

  lemma EventOnNothingKeeps(s: State)
    requires Invariant(s) && s.events != [] && s.events[0].fd !in s.http
    ensures Invariant(s.(events := s.events[1..]))
  {
    hide Tokens, TimersHold, WorkHolds, TablesHold, TokensHold, Invariant;
    var fd, u := s.events[0].fd, s.(events := s.events[1..]);
    Parts(s);
    EventTokens(s);
    TokenMoved(Tokens(u), s.http.Keys, s.upgraded, s.dropped, fd);
    assert s.http.Keys - {fd} == s.http.Keys;
    TablesIgnore(s, u);
    Assemble(u);
  }

  /**
   * Handling a delivered event passes the turn on to the pool or to the task queue, or loses it with the connection
   * gone.
   */
  lemma HandleEventKeeps(s: State, accepted: bool, expire: int)
    requires Invariant(s) && s.events != []
    ensures Invariant(Dispatch(s.(events := s.events[1..]), s.events[0], accepted, expire))
  {
    hide Tokens, TimersHold, WorkHolds, TablesHold, TokensHold, Invariant, AdjustTimer, Submit, Push;
    var e, u := s.events[0], s.(events := s.events[1..]);
    Parts(s);
    KnownIsUpgraded(s, e.fd);
    EventTokens(s);
    TablesIgnore(s, u);
    if e.kind == Hangup {
      HangupKeeps(s);
      PushIs(u, Act(e.fd, Close));
    } else if e.fd in s.known && e.fd in s.ws {
      SubmitKeeps(u, Job(e.fd, WsConn, e.kind), accepted);
    } else if e.fd in s.http && e.fd !in s.known {
      AdjustKeepsTimers(u, e.fd, expire);
      AdjustOnlyTimers(u, e.fd, expire);
      TablesIgnore(u, AdjustTimer(u, e.fd, expire));
      SubmitKeeps(AdjustTimer(u, e.fd, expire), Job(e.fd, HttpConn(s.http[e.fd]), e.kind), accepted);
    } else {
      EventOnNothingKeeps(s);
    }
  }

  lemma PushIs(s: State, task: Task)
    ensures Push(s, task) == s.(tasks := s.tasks + [task])
  {
  }

  lemma AdjustOnlyTimers(s: State, fd: int, expire: int)
    ensures var t := AdjustTimer(s, fd, expire); t == s.(timers := t.timers) && Tokens(t) == Tokens(s)
  {
  }

  // ---------- The task queue ----------

  lemma TaskTokens(s: State)
    requires s.tasks != []
    ensures var u, t := s.(tasks := s.tasks[1..]), s.tasks[0];
      Tokens(s) == if t.Act? then Tokens(u) + multiset{t.fd} else Tokens(u)
  {
  }

  /** Re-arming gives the turn back to epoll, if the descriptor is still there. */
  lemma ArmKeeps(s: State, fd: int, writing: bool)
    requires TablesHold(s) && WorkHolds(s.owner, s.upgraded, s.queue, s.running, s.tasks)
    requires TimersHold(s.http, s.clients, s.timers, s.tasks)
    requires TokensHold(Tokens(s) + multiset{fd}, s.http.Keys, s.upgraded, s.dropped)
    ensures Invariant(Arm(s, fd, writing))
  {
    hide Tokens, TimersHold, WorkHolds, Invariant;
    ArmTokens(s, fd, writing);
    if fd in s.armed {
      TokenMoved(Tokens(s), s.http.Keys, s.upgraded, s.dropped, fd);
      ArmedIsToken(s, fd);
    }
    TokenMoved(Tokens(s), s.http.Keys, s.upgraded, s.dropped, fd);
    Assemble(Arm(s, fd, writing));
  }

  lemma ArmTokens(s: State, fd: int, writing: bool)
    ensures Tokens(Arm(s, fd, writing)) ==
      if fd in s.registered && fd !in s.armed then Tokens(s) + multiset{fd} else Tokens(s)
  {
    if fd in s.registered && fd !in s.armed {
      assert multiset(s.armed + {fd}) == multiset(s.armed) + multiset{fd};
    }
    if fd in s.armed {
      assert s.armed + {fd} == s.armed;
    }
  }

  lemma ArmedIsToken(s: State, fd: int)
    requires fd in s.armed
    ensures Tokens(s)[fd] >= 1
  {
  }

  lemma FdFreed(
    tokens: multiset<int>, tokens': multiset<int>, http: set<int>, upgraded: set<int>, dropped: set<int>, fd: int)
    requires TokensHold(tokens, http, upgraded, dropped)
    requires tokens'[fd] <= tokens[fd] && forall f :: f != fd ==> tokens'[f] == tokens[f]
    ensures TokensHold(tokens', http - {fd}, upgraded, dropped)
    ensures TokensHold(tokens', http - {fd}, upgraded + {fd}, dropped)
  {
  }

  lemma CloseTokens(s: State, fd: int)
    ensures Tokens(CloseFd(s, fd))[fd] <= Tokens(s)[fd]
    ensures forall f :: f != fd ==> Tokens(CloseFd(s, fd))[f] == Tokens(s)[f]
  {
    hide CloseFd, Held;
    CloseParts(s, fd);
  }

  lemma CloseParts(s: State, fd: int)
    ensures var t := CloseFd(s, fd);
      && t.events == s.events && t.queue == s.queue && t.running == s.running && t.tasks == s.tasks
      && t.armed == s.armed - {fd}
  {
  }

  lemma CloseTables(s: State, fd: int)
    requires TablesHold(s)
    ensures TablesHold(CloseFd(s, fd))
    ensures var t := CloseFd(s, fd);
      && t.http == s.http - {fd} && t.upgraded == s.upgraded && t.dropped == s.dropped && t.owner == s.owner
      && t.queue == s.queue && t.running == s.running && t.tasks == s.tasks
      && (if fd in s.known then t.clients == s.clients && t.timers == s.timers && fd !in s.http
          else t.clients == DelTimer(s, fd).clients && t.timers == DelTimer(s, fd).timers)
  {
  }

  lemma CloseTimers(s: State, fd: int)
    requires TablesHold(s) && TimersHold(s.http, s.clients, s.timers, s.tasks)
    ensures var t := CloseFd(s, fd); TimersHold(t.http, t.clients, t.timers, t.tasks)
  {
    hide TimersHold, TablesHold, CloseFd, DelTimer;
    CloseTables(s, fd);
    TimersForget(s, fd);
    assert fd !in s.http ==> s.http - {fd} == s.http;
  }

  lemma CloseKeeps(s: State, fd: int, tokens: multiset<int>)
    requires TablesHold(s) && WorkHolds(s.owner, s.upgraded, s.queue, s.running, s.tasks)
    requires TimersHold(s.http, s.clients, s.timers, s.tasks)
    requires TokensHold(tokens, s.http.Keys, s.upgraded, s.dropped)
    requires tokens == Tokens(s) || tokens == Tokens(s) + multiset{fd}
    ensures Invariant(CloseFd(s, fd))
  {
    hide TimersHold, TablesHold, WorkHolds, TokensHold, Tokens, CloseFd, DelTimer, Invariant;
    var t := CloseFd(s, fd);
    CloseTokens(s, fd);
    CloseTables(s, fd);
    CloseTimers(s, fd);
    FdFreed(tokens, Tokens(t), s.http.Keys, s.upgraded, s.dropped, fd);
    assert t.http.Keys == s.http.Keys - {fd};
    Assemble(t);
  }

  lemma UpgradeTables(s: State, fd: int)
    requires TablesHold(s)
    ensures TablesHold(UpgradeFd(s, fd))
    ensures var t := UpgradeFd(s, fd);
      && t.http == s.http - {fd} && t.upgraded == s.upgraded + {fd} && t.dropped == s.dropped && t.owner == s.owner
      && t.queue == s.queue && t.running == s.running && t.tasks == s.tasks
      && t.clients == DelTimer(s, fd).clients && t.timers == DelTimer(s, fd).timers
  {
  }

  lemma UpgradeTokens(s: State, fd: int)
    ensures forall f :: f != fd ==> Tokens(UpgradeFd(s, fd))[f] == Tokens(s)[f]
  {
    hide UpgradeFd, Held;
    UpgradeParts(s, fd);
  }

  lemma UpgradeParts(s: State, fd: int)
    ensures var t := UpgradeFd(s, fd);
      && t.events == s.events && t.queue == s.queue && t.running == s.running && t.tasks == s.tasks
      && (t.armed == s.armed || t.armed == s.armed + {fd})
  {
  }

  lemma UpgradeWork(s: State, fd: int)
    requires WorkHolds(s.owner, s.upgraded, s.queue, s.running, s.tasks)
    requires Tokens(s)[fd] == 0
    ensures WorkHolds(s.owner, s.upgraded + {fd}, s.queue, s.running, s.tasks)
  {
    forall j | j in s.queue || j in s.running
      ensures JobHolds(s.owner, s.upgraded + {fd}, j)
    {
      assert JobHolds(s.owner, s.upgraded, j);
      if j.target.HttpConn? && j.fd == fd {
        if j in s.queue { JobCounts(s.queue, j); } else { JobCounts(s.running, j); }
      }
    }
    forall t | t in s.tasks && t == Act(t.fd, Upgrade)
      ensures t.fd !in s.upgraded + {fd}
    {
      TaskCounts(s.tasks, t);
    }
  }

  lemma UpgradedToken(
    tokens: multiset<int>, tokens': multiset<int>, http: set<int>, upgraded: set<int>, dropped: set<int>, fd: int)
    requires TokensHold(tokens, http, upgraded, dropped)
    requires forall f :: f != fd ==> tokens'[f] == tokens[f]
    ensures TokensHold(tokens', http - {fd}, upgraded + {fd}, dropped)
    ensures fd !in upgraded ==> tokens[fd] <= 1
  {
  }

  lemma UpgradeKeeps(s: State, fd: int)
    requires TablesHold(s) && WorkHolds(s.owner, s.upgraded, s.queue, s.running, s.tasks)
    requires TimersHold(s.http, s.clients, s.timers, s.tasks)
    requires TokensHold(Tokens(s) + multiset{fd}, s.http.Keys, s.upgraded, s.dropped) && fd !in s.upgraded
    ensures Invariant(UpgradeFd(s, fd))
  {
    hide TimersHold, TablesHold, WorkHolds, TokensHold, Tokens, UpgradeFd, DelTimer, Invariant;
    var t := UpgradeFd(s, fd);
    UpgradeTokens(s, fd);
    UpgradeTables(s, fd);
    UpgradedToken(Tokens(s) + multiset{fd}, Tokens(t), s.http.Keys, s.upgraded, s.dropped, fd);
    UpgradeWork(s, fd);
    TimersForget(s, fd);
    assert t.http.Keys == s.http.Keys - {fd};
    Assemble(t);
  }

  lemma PopKeepsWork(s: State)
    requires s.tasks != [] && WorkHolds(s.owner, s.upgraded, s.queue, s.running, s.tasks)
    ensures WorkHolds(s.owner, s.upgraded, s.queue, s.running, s.tasks[1..])
    ensures s.tasks[0] == Act(s.tasks[0].fd, Upgrade) ==> s.tasks[0].fd !in s.upgraded
  {
  }

  lemma ActKeeps(s: State)
    requires Invariant(s) && s.tasks != [] && s.tasks[0].Act?
    ensures Invariant(HandleAction(s.(tasks := s.tasks[1..]), s.tasks[0].fd, s.tasks[0].action))
  {
    hide TimersHold, TablesHold, WorkHolds, TokensHold, Tokens, UpgradeFd, CloseFd, Arm, Invariant;
    var u, fd, action := s.(tasks := s.tasks[1..]), s.tasks[0].fd, s.tasks[0].action;
    Parts(s);
    PopKeepsWork(s);
    TaskTokens(s);
    TimersPopAct(s.http, s.clients, s.timers, s.tasks);
    TablesIgnore(s, u);
    match action {
      case Close => CloseKeeps(u, fd, Tokens(u) + multiset{fd});
      case Upgrade => UpgradeKeeps(u, fd);
      case _ => ArmKeeps(u, fd, action == Write);
    }
  }

  lemma TimeoutKeeps(s: State)
    requires Invariant(s) && s.tasks != [] && s.tasks[0].TimeoutClose?
    ensures Invariant(Perform(s.(tasks := s.tasks[1..]), s.tasks[0]))
  {
    hide TimersHold, TablesHold, WorkHolds, TokensHold, Tokens, CloseFd, Invariant;
    var u, fd := s.(tasks := s.tasks[1..]), s.tasks[0].fd;
    Parts(s);
    PopKeepsWork(s);
    TaskTokens(s);
    TablesIgnore(s, u);
    if fd in s.http {
      CloseKeeps(s, fd, Tokens(s));
      Parts(CloseFd(s, fd));
      CloseTables(s, fd);
      CloseTables(u, fd);
      CloseIgnoresTasks(s, fd, s.tasks[1..]);
      var c, d := CloseFd(s, fd), CloseFd(u, fd);
      TimersPopTimeout(c.http, c.clients, c.timers, c.tasks);
      TaskTokens(c);
      PopKeepsWork(c);
      Assemble(d);
    } else {
      TimersPopTimeout(s.http, s.clients, s.timers, s.tasks);
      Assemble(u);
    }
  }

  lemma CloseIgnoresTasks(s: State, fd: int, tasks: seq<Task>)
    ensures CloseFd(s.(tasks := tasks), fd) == CloseFd(s, fd).(tasks := tasks)
  {
    hide DelTimer;
    DelTimerIgnoresTasks(s, fd, tasks);
  }

  lemma DelTimerIgnoresTasks(s: State, fd: int, tasks: seq<Task>)
    ensures DelTimer(s.(tasks := tasks), fd) == DelTimer(s, fd).(tasks := tasks)
  {
  }

  lemma RunTaskKeeps(s: State)
    requires Invariant(s) && s.tasks != []
    ensures Invariant(Perform(s.(tasks := s.tasks[1..]), s.tasks[0]))
  {
    hide Invariant, HandleAction;
    if s.tasks[0].Act? {
      ActKeeps(s);
    } else {
      TimeoutKeeps(s);
    }
  }

  lemma StepKeeps(s: State, step: Step)
    requires Invariant(s) && Enabled(s, step)
    ensures Invariant(Apply(s, step))
  {
    hide Invariant, Accept, Dispatch, Finish, Push, Perform, Fire;
    match step {
      case NewConnection(fd, life, timer, expire) => NewConnectionKeeps(s, fd, life, timer, expire);
      case Deliver(fd, kind) => DeliverKeeps(s, fd, kind);
      case HandleEvent(accepted, expire) => HandleEventKeeps(s, accepted, expire);
      case StartJob => StartJobKeeps(s);
      case FinishJob(w, action) => FinishJobKeeps(s, w, action);
      case Callback(fd) => CallbackKeeps(s, fd);
      case RunTask => RunTaskKeeps(s);
      case Expire(timer, now) => ExpireKeeps(s, timer);
    }
  }

  lemma RunStep(states: seq<State>, steps: seq<Step>, n: nat)
    requires IsRun(states, steps)
    ensures |states| == |steps| + 1 && states[0] == Initial()
    ensures n < |steps| ==> Enabled(states[n], steps[n]) && states[n + 1] == Apply(states[n], steps[n])
  {
  }

  lemma {:induction false} RunKeeps(states: seq<State>, steps: seq<Step>, n: nat)
    requires IsRun(states, steps) && n < |states|
    ensures Invariant(states[n])
  {
    RunStep(states, steps, if n == 0 then 0 else n - 1);
    if n > 0 {
      hide *;
      RunKeeps(states, steps, n - 1);
      StepKeeps(states[n - 1], steps[n - 1]);
    }
  }

  // ---------- What it means ----------

  lemma {:induction false} TwoJobsCount(js: seq<Job>, a: nat, b: nat)
    requires a < b < |js| && js[a].target.HttpConn? && js[b].target.HttpConn? && js[a].fd == js[b].fd
    ensures HttpFds(js)[js[a].fd] >= 2
  {
    if a == 0 {
      JobCounts(js[1..], js[b]);
    } else {
      TwoJobsCount(js[1..], a - 1, b - 1);
    }
  }

  /** In no run are two workers ever inside the same HTTP connection. */
  lemma OneWorkerPerConnection(states: seq<State>, steps: seq<Step>, n: nat, a: nat, b: nat)
    requires IsRun(states, steps) && n < |states| && a < b < |states[n].running|
    requires states[n].running[a].target.HttpConn?
    ensures states[n].running[a].target != states[n].running[b].target
  {
    RunKeeps(states, steps, n);
    var s := states[n];
    var x, y := s.running[a], s.running[b];
    assert JobHolds(s.owner, s.upgraded, x) && JobHolds(s.owner, s.upgraded, y);
    if x.target == y.target {
      TwoJobsAreTwoTokens(s, a, b);
    }
  }

  lemma TwoJobsAreTwoTokens(s: State, a: nat, b: nat)
    requires a < b < |s.running| && s.running[a].target.HttpConn? && s.running[b].target.HttpConn?
    requires s.running[a].fd == s.running[b].fd
    ensures Tokens(s)[s.running[a].fd] >= 2
  {
    TwoJobsCount(s.running, a, b);
  }

  /**
    A live HTTP connection's turn is in exactly one place, as long as the pool
    has not refused one of its jobs; then it may be nowhere, but never in two.
   */
  lemma OneTurn(states: seq<State>, steps: seq<Step>, n: nat, fd: int)
    requires IsRun(states, steps) && n < |states| && fd in states[n].http
    ensures Tokens(states[n])[fd] <= 1
    ensures fd !in states[n].dropped ==> Tokens(states[n])[fd] == 1
  {
    RunKeeps(states, steps, n);
  }

  /** A live HTTP connection has either its own timer in the manager or exactly one queued close. */
  lemma TimerOrQueuedClose(states: seq<State>, steps: seq<Step>, n: nat, fd: int)
    requires IsRun(states, steps) && n < |states| && fd in states[n].http
    ensures var s := states[n];
      && fd in s.clients && s.clients[fd].timer.Some?
      && var t := s.clients[fd].timer.value;
         if t in s.timers then s.timers[t].fd == fd && TimeoutFds(s.tasks)[fd] == 0 else TimeoutFds(s.tasks)[fd] == 1
    ensures forall t :: t in states[n].timers ==>
      var e := states[n].timers[t]; e.fd in states[n].http && states[n].http[e.fd] == e.life
  {
    RunKeeps(states, steps, n);
    var s := states[n];
    assert ClientHolds(s.clients, s.timers, TimeoutFds(s.tasks), fd);
  }

  /**
    Running a queued timeout closes the very connection whose timer expired, if
    it is still there, and otherwise nothing: never a WebSocket, never a later
    connection on the same descriptor, and never any other descriptor.
   */
  lemma TimeoutClosesItsOwn(states: seq<State>, steps: seq<Step>, n: nat)
    requires IsRun(states, steps) && n < |steps| && steps[n] == RunTask && states[n].tasks[0].TimeoutClose?
    ensures var s, t, task := states[n], states[n + 1], states[n].tasks[0];
      && t.ws == s.ws && t.known == s.known
      && (if task.fd in s.http
          then s.http[task.fd] == task.life && t.http == s.http - {task.fd} && t.registered == s.registered - {task.fd}
          else t.http == s.http && t.registered == s.registered)
  {
    RunKeeps(states, steps, n);
    RunStep(states, steps, n);
  }
}
