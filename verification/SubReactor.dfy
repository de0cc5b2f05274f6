/** The sub-reactor object: each method does to its tables what the step system of module Reactor says. */
module SubReactorModule {
  import opened Bytes
  import opened Io
  import R = Reactor
  import opened Timers

  class SubReactor {
    var connections: map<int, nat>        // m_connections, each entry naming its HttpConnection object
    var wsConnections: set<int>           // m_ws_connections
    var registry: set<int>                // the descriptors in WebSocketServer::conns_
    var clientData: map<int, R.ClientData>
    var timers: map<nat, R.TimerEntry>    // m_timer_manager
    var registered: set<int>              // descriptors in the epoll set
    var armed: set<int>
    var writing: set<int>                 // armed for EPOLLOUT rather than EPOLLIN
    var events: seq<R.Event>
    var pool: seq<R.Job>
    var running: seq<R.Job>
    var tasks: seq<R.Task>
    ghost var upgraded: set<int>
    ghost var dropped: set<int>
    ghost var owner: map<nat, int>
    ghost var due: set<nat>               // objects with a response prepared, in the workers' hands

    ghost function View(): R.State
      reads this
    {
      R.State(connections, wsConnections, registry, clientData, timers, registered, armed, writing, events, pool,
              running, tasks, upgraded, dropped, owner, due)
    }

    constructor ()
      ensures View() == R.Initial()
    {
      connections, wsConnections, registry, clientData, timers := map[], {}, {}, map[], map[];
      registered, armed, writing, events, pool, running, tasks := {}, {}, {}, [], [], [], [];
      upgraded, dropped, owner, due := {}, {}, map[], {};
    }

    method AddTask(task: R.Task)
      modifies this
      ensures View() == R.Push(old(View()), task)
    {
      tasks := tasks + [task];
    }

    /** modfd changes nothing for a descriptor that has left the epoll set. */
    method ModFd(fd: int, forWriting: bool)
      modifies this
      ensures View() == R.Arm(old(View()), fd, forWriting)
    {
      if fd in registered {
        armed := armed + {fd};
        writing := if forWriting then writing + {fd} else writing - {fd};
      }
    }

    method DelTimer(fd: int)
      modifies this
      ensures View() == R.DelTimer(old(View()), fd)
    {
      if fd in clientData && clientData[fd].timer.Some? && !clientData[fd].deleted {
        timers := timers - {clientData[fd].timer.value};
        clientData := clientData[fd := R.ClientData(None, true)];
      }
    }

    method AdjustTimer(fd: int, expire: int)
      modifies this
      ensures View() == R.AdjustTimer(old(View()), fd, expire)
    {
      if fd in clientData && clientData[fd].timer.Some? && !clientData[fd].deleted {
        var timer := clientData[fd].timer.value;
        if timer in timers {
          timers := timers[timer := timers[timer].(expire := expire)];
        }
      }
    }

    method HandleAction(fd: int, action: Action)
      modifies this
      ensures View() == R.HandleAction(old(View()), fd, action)
    {
      match action {
        case Read => ModFd(fd, false);
        case Wait => ModFd(fd, false);
        case Write => ModFd(fd, true);
        case Close => CloseFd(fd);
        case Upgrade => UpgradeFd(fd);
      }
    }

    method CloseFd(fd: int)
      modifies this
      ensures View() == R.CloseFd(old(View()), fd)
    {
      if fd in registry {
        registry, wsConnections := registry - {fd}, wsConnections - {fd};
      } else {
        DelTimer(fd);
        connections := connections - {fd};
      }
      registered, armed := registered - {fd}, armed - {fd};
    }

    method UpgradeFd(fd: int)
      modifies this
      ensures View() == R.UpgradeFd(old(View()), fd)
    {
      DelTimer(fd);
      connections := connections - {fd};
      wsConnections, registry := wsConnections + {fd}, registry + {fd};
      upgraded := upgraded + {fd};
      ModFd(fd, false);
    }

    /** life and timer name the connection object and the timer object that are allocated here. */
    method HandleNewConnection(fd: int, life: nat, timer: nat, expire: int)
      modifies this`registered, this`armed, this`writing, this`connections, this`clientData, this`timers, this`upgraded,
        this`dropped, this`owner
      ensures View() == R.Accept(old(View()), fd, life, timer, expire)
    {
      AddFd(fd);
      connections := connections[fd := life];
      InitTimer(fd, life, timer, expire);
      upgraded, dropped, owner := upgraded - {fd}, dropped - {fd}, owner[life := fd];
    }

    method AddFd(fd: int)
      modifies this`registered, this`armed, this`writing
      ensures registered == old(registered) + {fd} && armed == old(armed) + {fd} && writing == old(writing) - {fd}
    {
      registered, armed, writing := registered + {fd}, armed + {fd}, writing - {fd};
    }

    method InitTimer(fd: int, life: nat, timer: nat, expire: int)
      modifies this`clientData, this`timers
      ensures clientData == old(clientData)[fd := R.ClientData(Some(timer), false)]
      ensures timers == old(timers)[timer := R.TimerEntry(fd, life, expire)]
    {
      clientData := clientData[fd := R.ClientData(Some(timer), false)];
      timers := timers[timer := R.TimerEntry(fd, life, expire)];
    }

    /** accepted is the worker pool's answer to append. */
    method Append(job: R.Job, accepted: bool)
      modifies this
      ensures View() == R.Submit(old(View()), job, accepted)
    {
      if accepted {
        pool := pool + [job];
      } else {
        dropped := dropped + {job.fd};
      }
    }

    /** One turn of the event loop over the delivered events. */
    method HandleEvent(accepted: bool, expire: int)
      requires events != []
      modifies this
      ensures View() == R.Dispatch(old(View()).(events := old(events)[1..]), old(events)[0], accepted, expire)
    {
      var e := events[0];
      events := events[1..];
      if e.kind == R.Hangup {
        AddTask(R.Act(e.fd, Close));
      } else if e.fd in registry {
        if e.fd in wsConnections {
          Append(R.Job(e.fd, R.WsConn, e.kind), accepted);
        }
      } else if e.fd in connections {
        AdjustTimer(e.fd, expire);
        Append(R.Job(e.fd, R.HttpConn(connections[e.fd]), e.kind), accepted);
      }
    }

    method RunTask(task: R.Task)
      modifies this
      ensures View() == R.Perform(old(View()), task)
    {
      match task {
        case Act(fd, action) => HandleAction(fd, action);
        case TimeoutClose(fd, _) =>
          if fd in connections {
            HandleAction(fd, Close);
          }
      }
    }

    /** Takes the whole queue in one go and runs it; nothing it runs adds to the queue. */
    method HandleWakeup()
      modifies this
      ensures View() == RunAll(old(View()))
    {
      ghost var whole := RunAll(View());
      var batch := tasks;
      RunAllEmpty(View().(tasks := []));
      tasks := [];
      while batch != []
        invariant tasks == []
        invariant RunAll(View().(tasks := batch)) == whole
        decreases |batch|
      {
        var task := batch[0];
        PerformIgnoresTasks(View(), batch[1..], task);
        batch := batch[1..];
        RunTask(task);
      }
      RunAllEmpty(View());
    }

    /** Reactor steps RunTask until the queue is empty. */
    static ghost function RunAll(s: R.State): R.State
      decreases |s.tasks|
    {
      if s.tasks == [] then s
      else
        PerformIgnoresTasks(s.(tasks := []), s.tasks[1..], s.tasks[0]);
        RunAll(R.Perform(s.(tasks := s.tasks[1..]), s.tasks[0]))
    }

    static lemma RunAllEmpty(s: R.State)
      ensures s.tasks == [] ==> RunAll(s) == s
    {
    }

    static lemma PerformIgnoresTasks(s: R.State, tasks: seq<R.Task>, task: R.Task)
      ensures R.Perform(s.(tasks := tasks), task) == R.Perform(s, task).(tasks := tasks)
      ensures R.Perform(s, task).tasks == s.tasks
    {
      hide R.CloseFd, R.UpgradeFd, R.Arm;
      CloseUpgradeIgnoreTasks(s, tasks, task.fd);
      ArmIgnoresTasks(s, tasks, task.fd);
      match task {
        case Act(fd, action) =>
          match action {
            case Close =>
            case Upgrade =>
            case _ =>
          }
        case TimeoutClose(fd, _) =>
      }
    }

    static lemma ArmIgnoresTasks(s: R.State, tasks: seq<R.Task>, fd: int)
      ensures forall w ::
        R.Arm(s.(tasks := tasks), fd, w) == R.Arm(s, fd, w).(tasks := tasks) && R.Arm(s, fd, w).tasks == s.tasks
    {
    }

    static lemma CloseUpgradeIgnoreTasks(s: R.State, tasks: seq<R.Task>, fd: int)
      ensures R.CloseFd(s.(tasks := tasks), fd) == R.CloseFd(s, fd).(tasks := tasks)
      ensures R.UpgradeFd(s.(tasks := tasks), fd) == R.UpgradeFd(s, fd).(tasks := tasks)
      ensures R.CloseFd(s, fd).tasks == s.tasks && R.UpgradeFd(s, fd).tasks == s.tasks
    {
      hide R.DelTimer;
      R.DelTimerIgnoresTasks(s, fd, tasks);
      DelTimerKeepsTasks(s, fd);
    }

    static lemma DelTimerKeepsTasks(s: R.State, fd: int)
      ensures var t := R.DelTimer(s, fd); t.tasks == s.tasks && t == s.(clients := t.clients, timers := t.timers)
    {
    }

    /** The timer manager's objects and the timers of the tables are the same timers, with the same expiry. */
    static ghost predicate Mirrors(
      view: map<UtilTimer, int>, ids: map<UtilTimer, nat>, timers: map<nat, R.TimerEntry>) {
      && ids.Keys == view.Keys
      && (forall t :: t in ids ==> ids[t] in timers && timers[ids[t]].expire == view[t])
      && (forall t, u :: t in ids && u in ids && ids[t] == ids[u] ==> t == u)
      && (forall n :: n in timers ==> exists t :: t in ids && ids[t] == n)
    }

    /** Exactly the expired timers, each once, in the order of their expiry. */
    static ghost predicate FiresExpired(fired: seq<nat>, timers: map<nat, R.TimerEntry>, now: int) {
      && (forall i :: 0 <= i < |fired| ==> fired[i] in timers && timers[fired[i]].expire <= now)
      && (forall n :: n in timers && timers[n].expire <= now ==> n in fired)
      && (forall i, j :: 0 <= i < j < |fired| ==>
            fired[i] != fired[j] && timers[fired[i]].expire <= timers[fired[j]].expire)
    }

    static lemma ExpiredAreNumbered(
      view: map<UtilTimer, int>, ids: map<UtilTimer, nat>, timers: map<nat, R.TimerEntry>,
      expired: seq<UtilTimer>, fired: seq<nat>, now: int)
      requires Mirrors(view, ids, timers)
      requires forall t :: t in expired <==> t in view && view[t] <= now
      requires FiredInOrder(expired, view)
      requires |fired| == |expired| && forall i :: 0 <= i < |fired| ==> expired[i] in ids && fired[i] == ids[expired[i]]
      ensures FiresExpired(fired, timers, now)
    {
      assert forall i :: 0 <= i < |expired| ==> expired[i] in expired;
      forall n | n in timers && timers[n].expire <= now ensures n in fired {
        var t :| t in ids && ids[t] == n;
        assert t in expired;
        var i :| 0 <= i < |expired| && expired[i] == t;
        assert fired[i] == n;
      }
    }

    /**
     * One tick: the manager takes out what has expired, and the callbacks run in that order. Manager and tables hold
     * the same timers again afterwards.
     */
    method TickTimers(manager: TimerManager, ids: map<UtilTimer, nat>, now: int)
      returns (fired: seq<nat>, left: map<UtilTimer, nat>)
      requires manager.Valid() && Mirrors(manager.View(), ids, timers)
      modifies this, manager
      ensures manager.Valid() && FiresExpired(fired, old(timers), now)
      ensures View() == FireAll(old(View()), fired)
      ensures Mirrors(manager.View(), left, timers)
    {
      hide Mirrors, FiresExpired, TimerManager.View, TimerManager.Valid, SubReactor.FireAll, SubReactor.View;
      ghost var view := manager.View();
      MirroredKeys(view, ids, timers);
      var expired := manager.Tick(now);
      assert forall i :: 0 <= i < |expired| ==> expired[i] in expired;
      fired := seq(|expired|, i requires 0 <= i < |expired| => ids[expired[i]]);
      ExpiredAreNumbered(view, ids, timers, expired, fired, now);
      left := map t | t in ids && t !in expired :: ids[t];
      MirrorsStill(view, manager.View(), ids, left, timers, expired, fired, now);
      ghost var s := View();
      ViewTimers();
      Distinct(fired, timers, now);
      FireAllTimers(s, fired);
      Tick(fired, now);
      ViewTimers();
    }

    lemma ViewTimers()
      ensures View().timers == timers
    {
    }

    static lemma Distinct(fired: seq<nat>, timers: map<nat, R.TimerEntry>, now: int)
      requires FiresExpired(fired, timers, now)
      ensures forall i :: 0 <= i < |fired| ==> fired[i] in timers
      ensures forall i, j :: 0 <= i < j < |fired| ==> fired[i] != fired[j]
    {
    }

    /** Firing takes exactly those timers away. */
    static lemma {:induction false} FireAllTimers(s: R.State, fired: seq<nat>)
      requires forall i :: 0 <= i < |fired| ==> fired[i] in s.timers
      requires forall i, j :: 0 <= i < j < |fired| ==> fired[i] != fired[j]
      ensures FireAll(s, fired).timers == s.timers - (set n | n in fired)
      decreases |fired|
    {
      if fired == [] {
        assert s.timers - (set n: nat | n in fired) == s.timers;
      } else {
        var t := R.Fire(s, fired[0]);
        assert t.timers == s.timers - {fired[0]};
        FireAllTimers(t, fired[1..]);
        assert (set n | n in fired) == {fired[0]} + (set n | n in fired[1..]);
      }
    }

    static lemma MirrorsStill(
      view: map<UtilTimer, int>, after: map<UtilTimer, int>, ids: map<UtilTimer, nat>, left: map<UtilTimer, nat>,
      timers: map<nat, R.TimerEntry>, expired: seq<UtilTimer>, fired: seq<nat>, now: int)
      requires Mirrors(view, ids, timers) && FiresExpired(fired, timers, now)
      requires forall t :: t in expired <==> t in view && view[t] <= now
      requires after == map t | t in view && view[t] > now :: view[t]
      requires left == map t | t in ids && t !in expired :: ids[t]
      ensures Mirrors(after, left, timers - (set n | n in fired))
    {
      forall n | n in timers && n !in fired ensures exists t :: t in left && left[t] == n {
        var t :| t in ids && ids[t] == n;
        assert t !in expired;
        assert t in left && left[t] == n;
      }
      forall t | t in left ensures left[t] !in fired {
        assert t in view && view[t] > now;
      }
    }

    static lemma MirroredKeys(view: map<UtilTimer, int>, ids: map<UtilTimer, nat>, timers: map<nat, R.TimerEntry>)
      requires Mirrors(view, ids, timers)
      ensures ids.Keys == view.Keys
    {
    }

    /** What the timer callbacks of one tick do with the timers that were taken out, in order. */
    method Tick(fired: seq<nat>, now: int)
      requires FiresExpired(fired, timers, now)
      modifies this
      ensures View() == FireAll(old(View()), fired)
    {
      ghost var whole := FireAll(View(), fired);
      var i := 0;
      assert fired[0..] == fired;
      while i < |fired|
        invariant 0 <= i <= |fired|
        invariant forall k :: i <= k < |fired| ==> fired[k] in timers
        invariant FireAll(View(), fired[i..]) == whole
      {
        var t := fired[i];
        var e := timers[t];
        assert fired[i..][1..] == fired[i + 1..];
        ghost var s := View();
        timers := timers - {t};
        if !(e.fd in clientData && clientData[e.fd].deleted) {
          AddTask(R.TimeoutClose(e.fd, e.life));
        }
        assert View() == R.Fire(s, t);
        i := i + 1;
      }
    }

    static function FireAll(s: R.State, fired: seq<nat>): R.State
      decreases |fired|
    {
      if fired == [] || fired[0] !in s.timers then s else FireAll(R.Fire(s, fired[0]), fired[1..])
    }

    /** The whole batch of a wake-up is a run of RunTask steps, so it keeps the invariant; so does a tick. */
    static lemma {:induction false} RunAllKeeps(s: R.State)
      requires R.Invariant(s)
      ensures R.Invariant(RunAll(s)) && RunAll(s).tasks == []
      decreases |s.tasks|
    {
      hide R.Invariant, R.Perform;
      if s.tasks != [] {
        PerformIgnoresTasks(s.(tasks := []), s.tasks[1..], s.tasks[0]);
        R.RunTaskKeeps(s);
        RunAllKeeps(R.Perform(s.(tasks := s.tasks[1..]), s.tasks[0]));
      }
    }

    static lemma {:induction false} FireAllKeeps(s: R.State, fired: seq<nat>)
      requires R.Invariant(s)
      ensures R.Invariant(FireAll(s, fired))
      decreases |fired|
    {
      hide R.Invariant, R.Fire;
      if fired != [] && fired[0] in s.timers {
        R.ExpireKeeps(s, fired[0]);
        FireAllKeeps(R.Fire(s, fired[0]), fired[1..]);
      }
    }
  }
}
