/**
  The chat server under concurrency: worker and reactor threads take the
  critical sections of WebSocketServer and WebSocketConn in any order. Each
  section is one step; the theorems are about every run of such steps.
 */
module ChatSystem {
  import opened Bytes
  import opened WsFrame
  import opened WsWire
  import opened ChatRegistry

  /** One frame put in a connection's write buffer: a room broadcast, a direct system message, or a pong. */
  datatype Item = FromRoom(room: string, text: seq<byte>) | Direct(text: seq<byte>) | PongItem

  /** History of one connection: every frame ever queued, and every byte the socket has taken. */
  datatype Line = Line(items: seq<Item>, sent: seq<byte>)

  /** One broadcast, in lock order. */
  datatype Post =
    | RoomMessage(sender: int, from: string, room: string, content: string, text: seq<byte>)
    | Notice(room: string, text: seq<byte>)

  /** What a worker carries from one critical section to the next. */
  datatype Job =
    | Bind(fd: int, user: string)
    | Forward(fd: int, room: string, content: string, from: string)

  datatype State = State(
    reg: Registry,
    lines: map<int, Line>,
    history: seq<Post>,
    pending: map<int, Job>,
    sessions: map<string, string>,
    upgrading: set<int>)

  datatype Step =
    | RegisterCallback(fd: int)
    | AddConnection(fd: int)
    | RemoveConnection(fd: int)
    | JoinRoom(fd: int, room: string, notice: seq<byte>)
    | LeaveRoom(fd: int, room: string, notice: seq<byte>)
    | Login(sid: string, user: string)
    | Logout(sid: string)
    | AuthLookup(worker: int, fd: int, sid: string)
    | AuthBind(worker: int, success: seq<byte>)
    | ChatCheck(worker: int, fd: int, room: string, content: string, from: string)
    | ChatForward(worker: int, text: seq<byte>)
    | SendDirect(fd: int, text: seq<byte>)
    | SendPong(fd: int)
    | Flush(fd: int, count: nat)
    | MarkClosed(fd: int)

  function Initial(): State { State(Empty(), map[], [], map[], map[], {}) }

  // ---------- Steps ----------

  function AppendItem(line: Line, item: Item): Line { line.(items := line.items + [item]) }

  /** A broadcast together with its history: one post, and one item for every open member. */
  function PostToRoom(s: State, room: string, text: seq<byte>, post: Post): State {
    var fds := Targets(s.reg, room, -1);
    s.(reg := Broadcast(s.reg, room, text, -1),
       lines := map fd | fd in s.lines ::
         if fd in fds && !s.reg.conns[fd].closed then AppendItem(s.lines[fd], FromRoom(room, text)) else s.lines[fd],
       history := s.history + [post])
  }

  function Tell(s: State, fd: int, text: seq<byte>): State {
    if fd !in s.reg.conns || fd !in s.lines then s
    else s.(reg := Reply(s.reg, fd, text),
            lines := if s.reg.conns[fd].closed then s.lines
                     else s.lines[fd := AppendItem(s.lines[fd], Direct(text))])
  }

  function JoinState(s: State, fd: int, room: string, notice: seq<byte>): State {
    if fd !in s.reg.conns then s
    else
      var members := if room in s.reg.rooms then s.reg.rooms[room] else {};
      var t := s.(reg := s.reg.(rooms := s.reg.rooms[room := members + {fd}]));
      if s.reg.conns[fd].username == "" then t else PostToRoom(t, room, notice, Notice(room, notice))
  }

  function LeaveState(s: State, fd: int, room: string, notice: seq<byte>): State {
    if room !in s.reg.rooms then s
    else
      var t := if fd in s.reg.conns && s.reg.conns[fd].username != ""
        then PostToRoom(s, room, notice, Notice(room, notice)) else s;
      t.(reg := Leave(s.reg, room, fd, notice))
  }

  function BindState(s: State, fd: int, user: string, success: seq<byte>): State {
    if fd !in s.reg.conns || fd !in s.lines then s
    else Tell(s, fd, success).(reg := BindUser(s.reg, fd, user, success))
  }

  function Update(s: State, fd: int, p: Peer, line: Line): State {
    s.(reg := s.reg.(conns := s.reg.conns[fd := p]), lines := s.lines[fd := line])
  }

  predicate Short(text: seq<byte>) { |text| < TWO_TO_THE_63 }

  predicate Live(s: State, fd: int) { fd in s.reg.conns && fd in s.lines }

  predicate Enabled(s: State, step: Step) {
    match step
    case RegisterCallback(fd) => fd >= 0 && fd !in s.reg.conns && fd !in s.upgrading
    case AddConnection(fd) => fd in s.upgrading
    case RemoveConnection(fd) => true
    case JoinRoom(fd, room, notice) => Short(notice)
    case LeaveRoom(fd, room, notice) => Short(notice)
    case Login(sid, user) => user != ""
    case Logout(sid) => true
    case AuthLookup(w, fd, sid) => w !in s.pending && sid in s.sessions && s.sessions[sid] != ""
    case AuthBind(w, success) => w in s.pending && s.pending[w].Bind? && Short(success)
    case ChatCheck(w, fd, room, content, from) =>
      w !in s.pending && room != "" && content != "" && fd in s.reg.conns && s.reg.conns[fd].username == from
    case ChatForward(w, text) => w in s.pending && s.pending[w].Forward? && Short(text)
    case SendDirect(fd, text) => Live(s, fd) && Short(text)
    case SendPong(fd) => Live(s, fd)
    case Flush(fd, n) => Live(s, fd) && !s.reg.conns[fd].closed && n <= |s.reg.conns[fd].outbox|
    case MarkClosed(fd) => Live(s, fd)
  }

  function Apply(s: State, step: Step): State
    requires Enabled(s, step)
  {
    match step
    case RegisterCallback(fd) => s.(reg := Register(s.reg, fd), upgrading := s.upgrading + {fd})
    case AddConnection(fd) =>
      s.(reg := Add(s.reg, fd, Peer("", false, [])), lines := s.lines[fd := Line([], [])],
         upgrading := s.upgrading - {fd})
    case RemoveConnection(fd) => s.(reg := Remove(s.reg, fd), lines := s.lines - {fd})
    case JoinRoom(fd, room, notice) => JoinState(s, fd, room, notice)
    case LeaveRoom(fd, room, notice) => LeaveState(s, fd, room, notice)
    case Login(sid, user) => s.(sessions := s.sessions[sid := user])
    case Logout(sid) => s.(sessions := s.sessions - {sid})
    case AuthLookup(w, fd, sid) => s.(pending := s.pending[w := Bind(fd, s.sessions[sid])])
    case AuthBind(w, success) =>
      BindState(s, s.pending[w].fd, s.pending[w].user, success).(pending := s.pending - {w})
    case ChatCheck(w, fd, room, content, from) => s.(pending := s.pending[w := Forward(fd, room, content, from)])
    case ChatForward(w, text) =>
      var j := s.pending[w];
      PostToRoom(s, j.room, text, RoomMessage(j.fd, j.from, j.room, j.content, text)).(pending := s.pending - {w})
    case SendDirect(fd, text) => Tell(s, fd, text)
    case SendPong(fd) =>
      var p := s.reg.conns[fd];
      Update(s, fd, p.(outbox := p.outbox + PONG_FRAME), AppendItem(s.lines[fd], PongItem))
    case Flush(fd, n) =>
      var p, line := s.reg.conns[fd], s.lines[fd];
      Update(s, fd, p.(outbox := p.outbox[n..]), line.(sent := line.sent + p.outbox[..n]))
    case MarkClosed(fd) => Update(s, fd, s.reg.conns[fd].(closed := true), s.lines[fd])
  }

  ghost predicate IsRun(states: seq<State>, steps: seq<Step>) {
    && |states| == |steps| + 1
    && states[0] == Initial()
    && forall i :: 0 <= i < |steps| ==> Enabled(states[i], steps[i]) && states[i + 1] == Apply(states[i], steps[i])
  }

  lemma RunStep(states: seq<State>, steps: seq<Step>, n: nat)
    requires IsRun(states, steps)
    ensures |states| == |steps| + 1
    ensures n < |steps| ==> Enabled(states[n], steps[n]) && states[n + 1] == Apply(states[n], steps[n])
    ensures states[0] == Initial()
  {
  }

  // ---------- What the wire carries ----------

  function FrameOf(item: Item): seq<byte> {
    match item
    case FromRoom(_, text) => PackText(text)
    case Direct(text) => PackText(text)
    case PongItem => PONG_FRAME
  }

  function WireOf(items: seq<Item>): seq<byte> {
    if items == [] then [] else WireOf(items[..|items| - 1]) + FrameOf(items[|items| - 1])
  }

  ghost predicate ItemsShort(items: seq<Item>) {
    forall i :: 0 <= i < |items| ==> items[i].PongItem? || Short(items[i].text)
  }

  /** The bytes sent and the bytes still queued are together exactly the frames queued so far, in order. */
  ghost predicate LineHolds(line: Line, outbox: seq<byte>) {
    line.sent + outbox == WireOf(line.items) && ItemsShort(line.items)
  }

  ghost predicate Invariant(s: State) {
    && Consistent(s.reg)
    && s.lines.Keys == s.reg.conns.Keys
    && s.upgrading <= s.reg.callbacks
    && s.upgrading !! s.reg.conns.Keys
    && (forall fd :: fd in s.upgrading || fd in s.reg.conns ==> fd >= 0)
    && (forall fd :: fd in s.lines ==> LineHolds(s.lines[fd], s.reg.conns[fd].outbox))
  }

  lemma AppendedLineHolds(line: Line, outbox: seq<byte>, item: Item)
    requires LineHolds(line, outbox) && (item.PongItem? || Short(item.text))
    ensures LineHolds(AppendItem(line, item), outbox + FrameOf(item))
  {
  }

  lemma PostKeeps(s: State, room: string, text: seq<byte>, post: Post)
    requires Invariant(s) && Short(text)
    ensures Invariant(PostToRoom(s, room, text, post))
  {
    var t := PostToRoom(s, room, text, post);
    BroadcastKeeps(s.reg, room, text, -1);
    forall fd | fd in t.lines
      ensures LineHolds(t.lines[fd], t.reg.conns[fd].outbox)
    {
      AppendedLineHolds(s.lines[fd], s.reg.conns[fd].outbox, FromRoom(room, text));
    }
    assert t.reg.conns.Keys == s.reg.conns.Keys;
  }

  lemma TellKeeps(s: State, fd: int, text: seq<byte>)
    requires Invariant(s) && Short(text)
    ensures Invariant(Tell(s, fd, text))
  {
    if fd in s.lines {
      ReplyKeeps(s.reg, fd, text);
      AppendedLineHolds(s.lines[fd], s.reg.conns[fd].outbox, Direct(text));
    }
  }

  lemma JoinStepKeeps(s: State, fd: int, room: string, notice: seq<byte>)
    requires Invariant(s) && Short(notice)
    ensures Invariant(JoinState(s, fd, room, notice))
    ensures JoinState(s, fd, room, notice).reg == Join(s.reg, room, fd, notice)
  {
    if fd in s.reg.conns {
      var members := if room in s.reg.rooms then s.reg.rooms[room] else {};
      var t := s.(reg := s.reg.(rooms := s.reg.rooms[room := members + {fd}]));
      assert Invariant(t);
      PostKeeps(t, room, notice, Notice(room, notice));
    }
  }

  lemma LeaveStepKeeps(s: State, fd: int, room: string, notice: seq<byte>)
    requires Invariant(s) && Short(notice)
    ensures Invariant(LeaveState(s, fd, room, notice))
  {
    PostKeeps(s, room, notice, Notice(room, notice));
    LeaveKeeps(s.reg, room, fd, notice);
  }

  lemma BindStepKeeps(s: State, fd: int, user: string, success: seq<byte>)
    requires Invariant(s) && Short(success)
    ensures Invariant(BindState(s, fd, user, success))
  {
    TellKeeps(s, fd, success);
    BindUserKeeps(s.reg, fd, user, success);
  }

  lemma NewLineHolds()
    ensures LineHolds(Line([], []), [])
  {
  }

  lemma FlushedLineHolds(line: Line, outbox: seq<byte>, n: nat)
    requires LineHolds(line, outbox) && n <= |outbox|
    ensures LineHolds(line.(sent := line.sent + outbox[..n]), outbox[n..])
  {
  }

  lemma MembershipStepKeeps(s: State, step: Step)
    requires Invariant(s) && Enabled(s, step)
    requires step.RegisterCallback? || step.AddConnection? || step.RemoveConnection?
    ensures Invariant(Apply(s, step))
  {
    NewLineHolds();
    hide LineHolds;
    match step {
      case RegisterCallback(fd) => RegisterKeeps(s.reg, fd);
      case AddConnection(fd) => AddKeeps(s.reg, fd, Peer("", false, []));
      case RemoveConnection(fd) => RemoveKeeps(s.reg, fd);
    }
  }

  lemma LineStepKeeps(s: State, step: Step)
    requires Invariant(s) && Enabled(s, step)
    requires step.SendPong? || step.Flush? || step.MarkClosed?
    ensures Invariant(Apply(s, step))
  {
    hide LineHolds, Consistent, WireOf;
    var t, fd := Apply(s, step), step.fd;
    OutboxKeeps(s.reg, t.reg, fd);
    match step {
      case SendPong(_) => AppendedLineHolds(s.lines[fd], s.reg.conns[fd].outbox, PongItem);
      case Flush(_, n) => FlushedLineHolds(s.lines[fd], s.reg.conns[fd].outbox, n);
      case MarkClosed(_) =>
    }
  }

  lemma OutboxKeeps(g: Registry, h: Registry, fd: int)
    requires Consistent(g) && fd in g.conns && fd in h.conns && h.conns[fd].username == g.conns[fd].username
    requires h == g.(conns := g.conns[fd := h.conns[fd]])
    ensures Consistent(h)
  {
  }

  lemma StepKeeps(s: State, step: Step)
    requires Invariant(s) && Enabled(s, step)
    ensures Invariant(Apply(s, step))
  {
    if step.RegisterCallback? || step.AddConnection? || step.RemoveConnection? {
      MembershipStepKeeps(s, step);
    } else if step.SendPong? || step.Flush? || step.MarkClosed? {
      LineStepKeeps(s, step);
    } else {
      hide LineHolds, Consistent, PostToRoom, JoinState, LeaveState, BindState, Tell;
      match step {
        case JoinRoom(fd, room, notice) => JoinStepKeeps(s, fd, room, notice);
        case LeaveRoom(fd, room, notice) => LeaveStepKeeps(s, fd, room, notice);
        case AuthBind(w, success) => BindStepKeeps(s, s.pending[w].fd, s.pending[w].user, success);
        case ChatForward(w, text) =>
          var j := s.pending[w];
          PostKeeps(s, j.room, text, RoomMessage(j.fd, j.from, j.room, j.content, text));
        case SendDirect(fd, text) => TellKeeps(s, fd, text);
        case _ =>
      }
    }
  }

  /** In every reachable state the four indexes agree and every connection's bytes are accounted for. */
  lemma {:induction false} RunKeeps(states: seq<State>, steps: seq<Step>, n: nat)
    requires IsRun(states, steps) && n < |states|
    ensures Invariant(states[n])
  {
    RunStep(states, steps, if n == 0 then 0 else n - 1);
    if n > 0 {
      hide *;
      RunKeeps(states, steps, n - 1);
      StepKeeps(states[n - 1], steps[n - 1]);
    }
  }

  // ---------- Total order of broadcasts ----------

  /** The texts that a connection was sent on behalf of one room. */
  function RoomItems(items: seq<Item>, room: string): seq<seq<byte>> {
    if items == [] then []
    else
      var last := items[|items| - 1];
      RoomItems(items[..|items| - 1], room) + (if last.FromRoom? && last.room == room then [last.text] else [])
  }

  /** The texts broadcast to one room, in lock order. */
  function RoomPosts(history: seq<Post>, room: string): seq<seq<byte>> {
    if history == [] then []
    else
      var last := history[|history| - 1];
      RoomPosts(history[..|history| - 1], room) + (if last.room == room then [last.text] else [])
  }

  ghost predicate Member(s: State, fd: int, room: string) {
    && fd in s.reg.conns && fd in s.lines && !s.reg.conns[fd].closed
    && room in s.reg.rooms && fd in s.reg.rooms[room]
  }

  /** One step moves a member's room texts and the room's history forward by the same texts. */
  ghost predicate SameAdvance(s: State, t: State, fd: int, room: string) {
    && fd in s.lines && fd in t.lines
    && exists delta ::
      && RoomItems(t.lines[fd].items, room) == RoomItems(s.lines[fd].items, room) + delta
      && RoomPosts(t.history, room) == RoomPosts(s.history, room) + delta
  }

  lemma AppendOne(items: seq<Item>, item: Item, history: seq<Post>, post: Post, room: string)
    ensures RoomItems(items + [item], room)
         == RoomItems(items, room) + (if item.FromRoom? && item.room == room then [item.text] else [])
    ensures RoomPosts(history + [post], room)
         == RoomPosts(history, room) + (if post.room == room then [post.text] else [])
  {
  }

  lemma StandStill(s: State, t: State, fd: int, room: string)
    requires fd in s.lines && fd in t.lines
    requires RoomItems(t.lines[fd].items, room) == RoomItems(s.lines[fd].items, room)
    requires t.history == s.history
    ensures SameAdvance(s, t, fd, room)
  {
    var none: seq<seq<byte>> := [];
    assert RoomItems(t.lines[fd].items, room) == RoomItems(s.lines[fd].items, room) + none;
    assert RoomPosts(t.history, room) == RoomPosts(s.history, room) + none;
  }

  lemma PostAdvances(s: State, fd: int, to: string, text: seq<byte>, post: Post, room: string)
    requires Member(s, fd, room) && post.room == to && post.text == text && fd != -1
    ensures SameAdvance(s, PostToRoom(s, to, text, post), fd, room)
  {
    var t := PostToRoom(s, to, text, post);
    var items := s.lines[fd].items;
    AppendOne(items, FromRoom(to, text), s.history, post, room);
    var delta := if to == room then [text] else [];
    assert RoomPosts(t.history, room) == RoomPosts(s.history, room) + delta;
    assert RoomItems(t.lines[fd].items, room) == RoomItems(items, room) + delta;
  }

  lemma TellStandsStill(s: State, fd: int, to: int, text: seq<byte>, room: string)
    requires Member(s, fd, room)
    ensures SameAdvance(s, Tell(s, to, text), fd, room)
  {
    if Live(s, to) {
      AppendOne(s.lines[fd].items, Direct(text), s.history, Notice("", []), room);
    }
    StandStill(s, Tell(s, to, text), fd, room);
  }

  /** A member of a room that stays an open member over one step gets exactly what the step broadcasts to the room. */
  lemma StepAdvances(s: State, step: Step, fd: int, room: string)
    requires Invariant(s) && Enabled(s, step)
    requires Member(s, fd, room) && Member(Apply(s, step), fd, room)
    ensures SameAdvance(s, Apply(s, step), fd, room)
  {
    var t := Apply(s, step);
    match step {
      case JoinRoom(other, to, notice) => JoinAdvances(s, other, to, notice, fd, room);
      case LeaveRoom(other, to, notice) => LeaveAdvances(s, other, to, notice, fd, room);
      case AuthBind(w, success) => TellStandsStill(s, fd, s.pending[w].fd, success, room);
      case ChatForward(w, text) =>
        var j := s.pending[w];
        PostAdvances(s, fd, j.room, text, RoomMessage(j.fd, j.from, j.room, j.content, text), room);
      case SendDirect(to, text) => TellStandsStill(s, fd, to, text, room);
      case SendPong(to) =>
        AppendOne(s.lines[fd].items, PongItem, s.history, Notice("", []), room);
        StandStill(s, t, fd, room);
      case _ => StandStill(s, t, fd, room);
    }
  }

  lemma JoinAdvances(s: State, other: int, to: string, notice: seq<byte>, fd: int, room: string)
    requires Member(s, fd, room) && fd != -1
    ensures SameAdvance(s, JoinState(s, other, to, notice), fd, room)
  {
    var t := JoinState(s, other, to, notice);
    if other in s.reg.conns && s.reg.conns[other].username != "" {
      var members := if to in s.reg.rooms then s.reg.rooms[to] else {};
      var u := s.(reg := s.reg.(rooms := s.reg.rooms[to := members + {other}]));
      PostAdvances(u, fd, to, notice, Notice(to, notice), room);
    } else {
      StandStill(s, t, fd, room);
    }
  }

  lemma LeaveAdvances(s: State, other: int, to: string, notice: seq<byte>, fd: int, room: string)
    requires Member(s, fd, room) && fd != -1
    ensures SameAdvance(s, LeaveState(s, other, to, notice), fd, room)
  {
    var t := LeaveState(s, other, to, notice);
    if to in s.reg.rooms && other in s.reg.conns && s.reg.conns[other].username != "" {
      PostAdvances(s, fd, to, notice, Notice(to, notice), room);
    } else {
      StandStill(s, t, fd, room);
    }
  }

  /**
    Total order: over any span of any run during which a connection stays an
    open member of a room, the texts put in its buffer for that room are
    exactly the room's broadcasts of that span, once each and in lock order.
   */
  lemma {:induction false} TotalOrderBroadcast(
    states: seq<State>, steps: seq<Step>, i: nat, j: nat, fd: int, room: string)
    requires IsRun(states, steps) && i <= j < |states|
    requires forall k :: i <= k <= j ==> Member(states[k], fd, room)
    ensures SameAdvance(states[i], states[j], fd, room)
    decreases j
  {
    RunStep(states, steps, if j == 0 then 0 else j - 1);
    assert Member(states[i], fd, room) && Member(states[j], fd, room);
    hide *;
    if i == j {
      MemberStandsStill(states[i], fd, room);
    } else {
      assert Member(states[j - 1], fd, room);
      TotalOrderBroadcast(states, steps, i, j - 1, fd, room);
      RunKeeps(states, steps, j - 1);
      StepAdvances(states[j - 1], steps[j - 1], fd, room);
      AdvanceTwice(states[i], states[j - 1], states[j], fd, room);
    }
  }

  lemma MemberStandsStill(s: State, fd: int, room: string)
    requires Member(s, fd, room)
    ensures SameAdvance(s, s, fd, room)
  {
    StandStill(s, s, fd, room);
  }

  lemma AdvanceTwice(s: State, t: State, u: State, fd: int, room: string)
    requires SameAdvance(s, t, fd, room) && SameAdvance(t, u, fd, room)
    ensures SameAdvance(s, u, fd, room)
  {
    var d :| RoomItems(t.lines[fd].items, room) == RoomItems(s.lines[fd].items, room) + d
          && RoomPosts(t.history, room) == RoomPosts(s.history, room) + d;
    var e :| RoomItems(u.lines[fd].items, room) == RoomItems(t.lines[fd].items, room) + e
          && RoomPosts(u.history, room) == RoomPosts(t.history, room) + e;
    assert RoomItems(u.lines[fd].items, room) == RoomItems(s.lines[fd].items, room) + (d + e);
    assert RoomPosts(u.history, room) == RoomPosts(s.history, room) + (d + e);
  }

  // ---------- What a client reads ----------

  /** Every text ever queued for a connection, from rooms and direct, in order. */
  function AllTexts(items: seq<Item>): seq<Event> {
    if items == [] then []
    else
      var last := items[|items| - 1];
      AllTexts(items[..|items| - 1]) + (if last.PongItem? then [] else [Text(last.text)])
  }

  lemma PongParses(tail: seq<byte>)
    ensures Parse(PONG_FRAME + tail) == Parse(tail)
    ensures NoWrap(tail) ==> NoWrap(PONG_FRAME + tail)
  {
    hide Parse, NoWrap;
    FrameThenTail(0x8A, [], [], tail);
    assert Encode(0x8A, [], []) == PONG_FRAME;
    assert [] + Parse(tail).events == Parse(tail).events;
  }

  lemma FrameParses(item: Item, tail: seq<byte>)
    requires item.PongItem? || Short(item.text)
    ensures var p := Parse(tail);
      Parse(FrameOf(item) + tail)
      == Parsed((if item.PongItem? then [] else [Text(item.text)]) + p.events, p.status, p.rest)
    ensures NoWrap(tail) ==> NoWrap(FrameOf(item) + tail)
  {
    hide Parse, NoWrap, PackText;
    if item.PongItem? {
      PongParses(tail);
      assert [] + Parse(tail).events == Parse(tail).events;
    } else {
      PackTextParse(item.text, tail);
    }
  }

  lemma {:induction false} WireParses(items: seq<Item>, tail: seq<byte>)
    requires ItemsShort(items)
    ensures Parse(WireOf(items) + tail).events == AllTexts(items) + Parse(tail).events
    ensures Parse(WireOf(items) + tail).status == Parse(tail).status
    ensures NoWrap(tail) ==> NoWrap(WireOf(items) + tail)
    decreases |items|
  {
    hide Parse, NoWrap, FrameOf;
    if items == [] {
      assert WireOf(items) + tail == tail;
    } else {
      var front, last := items[..|items| - 1], items[|items| - 1];
      assert WireOf(items) + tail == WireOf(front) + (FrameOf(last) + tail);
      FrameParses(last, tail);
      WireParses(front, FrameOf(last) + tail);
    }
  }

  lemma LineDecodes(line: Line, outbox: seq<byte>)
    requires LineHolds(line, outbox)
    ensures Parse(line.sent).status == Open
    ensures Parse(line.sent).events <= AllTexts(line.items)
  {
    hide Parse, NoWrap, ReachesWrappedText, AllTexts, WireOf, ItemsShort;
    var wire := WireOf(line.items);
    WireParses(line.items, []);
    assert wire + [] == wire;
    ParseNothing();
    assert Parse(wire).events == AllTexts(line.items);
    NoWrapIsSafe(wire);
    ParseSplit(line.sent, outbox);
  }

  /**
    Decoding what has left on a connection's wire, at any moment of any run,
    yields a prefix of the texts queued for it: nothing lost, duplicated,
    reordered or damaged by partial writes.
   */
  lemma WireIsPrefixOfTexts(states: seq<State>, steps: seq<Step>, n: nat, fd: int)
    requires IsRun(states, steps) && n < |states| && fd in states[n].lines
    ensures Parse(states[n].lines[fd].sent).events <= AllTexts(states[n].lines[fd].items)
    ensures Parse(states[n].lines[fd].sent).status == Open
  {
    RunKeeps(states, steps, n);
    hide IsRun, Parse, AllTexts;
    LineDecodes(states[n].lines[fd], states[n].reg.conns[fd].outbox);
  }

  /** Every frame ever queued for a connection, as a client should receive it. */
  function MessagesOf(items: seq<Item>): seq<Message> {
    if items == [] then []
    else
      var last := items[|items| - 1];
      MessagesOf(items[..|items| - 1]) + [if last.PongItem? then PongMessage([]) else TextMessage(last.text)]
  }

  lemma FrameReceived(item: Item, tail: seq<byte>)
    requires item.PongItem? || Short(item.text)
    ensures Receive(FrameOf(item) + tail, None) ==
      WsWire.Deliver(if item.PongItem? then PongMessage([]) else TextMessage(item.text), Receive(tail, None))
  {
    hide Receive, PackText;
    if item.PongItem? {
      PongReceived(tail, None);
    } else {
      TextReceived(item.text, tail);
    }
  }

  lemma {:induction false} WireReceived(items: seq<Item>, tail: seq<byte>)
    requires ItemsShort(items) && Receive(tail, None).Received?
    ensures var all, later := Receive(WireOf(items) + tail, None), Receive(tail, None);
      all.Received? && all.messages == MessagesOf(items) + later.messages
    decreases |items|
  {
    hide Receive, FrameOf;
    if items == [] {
      assert WireOf(items) + tail == tail;
    } else {
      var front, last := items[..|items| - 1], items[|items| - 1];
      assert WireOf(items) + tail == WireOf(front) + (FrameOf(last) + tail);
      FrameReceived(last, tail);
      WireReceived(front, FrameOf(last) + tail);
    }
  }

  lemma LineReceived(line: Line, outbox: seq<byte>)
    requires LineHolds(line, outbox)
    ensures Receive(line.sent, None).Received? && Receive(line.sent, None).messages <= MessagesOf(line.items)
  {
    hide Receive, MessagesOf, WireOf, ItemsShort;
    var wire := WireOf(line.items);
    NothingReceived();
    WireReceived(line.items, []);
    assert wire + [] == wire;
    ReceivePrefix(line.sent, outbox, None);
  }

  /**
    What a client that reads by section 5 of RFC 6455 has received, at any moment of any run, is a part from the
    start of the texts and pongs queued for it, each as one message, and nothing it would refuse.
   */
  lemma ClientReceivesPrefix(states: seq<State>, steps: seq<Step>, n: nat, fd: int)
    requires IsRun(states, steps) && n < |states| && fd in states[n].lines
    ensures var line := states[n].lines[fd];
      Receive(line.sent, None).Received? && Receive(line.sent, None).messages <= MessagesOf(line.items)
  {
    RunKeeps(states, steps, n);
    hide IsRun, Receive, MessagesOf;
    LineReceived(states[n].lines[fd], states[n].reg.conns[fd].outbox);
  }

  // ---------- Membership ----------

  lemma StepMembership(s: State, step: Step, fd: int, room: string)
    requires Enabled(s, step)
    ensures var t := Apply(s, step);
      && (InRoom(s.reg, fd, room) && !InRoom(t.reg, fd, room) ==>
            (step.LeaveRoom? && step.fd == fd && step.room == room) || (step.RemoveConnection? && step.fd == fd))
      && (!InRoom(s.reg, fd, room) && InRoom(t.reg, fd, room) ==> step.JoinRoom? && step.fd == fd && step.room == room)
  {
    hide Broadcast, Join, Leave, Remove, Reply, BindUser, JoinState, LeaveState, BindState, Tell;
    match step {
      case JoinRoom(f, r, notice) =>
        JoinIs(s, f, r, notice);
        JoinMembership(s.reg, r, f, notice);
      case LeaveRoom(f, r, notice) =>
        LeaveIs(s, f, r, notice);
        LeaveMembership(s.reg, r, f, notice);
      case RemoveConnection(f) => RemoveRooms(s.reg, f);
      case AuthBind(w, success) => TellRooms(s, s.pending[w].fd, s.pending[w].user, success);
      case SendDirect(f, text) => TellRooms(s, f, "", text);
      case ChatForward(w, text) => BroadcastRooms(s.reg, s.pending[w].room, text, -1);
      case _ =>
    }
  }

  lemma JoinIs(s: State, fd: int, room: string, notice: seq<byte>)
    ensures JoinState(s, fd, room, notice).reg == Join(s.reg, room, fd, notice)
  {
    hide Broadcast;
  }

  lemma LeaveIs(s: State, fd: int, room: string, notice: seq<byte>)
    ensures LeaveState(s, fd, room, notice).reg == Leave(s.reg, room, fd, notice)
  {
    hide Broadcast;
  }

  lemma RemoveRooms(g: Registry, fd: int)
    ensures forall r, other :: r in Remove(g, fd).rooms && other in Remove(g, fd).rooms[r] ==>
      r in g.rooms && other in g.rooms[r]
    ensures forall r, other :: other != fd && r in g.rooms && other in g.rooms[r] ==>
      r in Remove(g, fd).rooms && other in Remove(g, fd).rooms[r]
  {
  }

  lemma TellRooms(s: State, fd: int, user: string, text: seq<byte>)
    ensures Tell(s, fd, text).reg.rooms == s.reg.rooms && BindState(s, fd, user, text).reg.rooms == s.reg.rooms
  {
    hide Send;
  }

  /**
    Who is in a room stays in it until its own descriptor leaves that room or is removed, whatever the others do.
   */
  lemma {:induction false} MembersStay(states: seq<State>, steps: seq<Step>, i: nat, j: nat, fd: int, room: string)
    requires IsRun(states, steps) && i <= j < |states| && InRoom(states[i].reg, fd, room)
    requires forall k :: i <= k < j ==>
      steps[k] != RemoveConnection(fd) && !(steps[k].LeaveRoom? && steps[k].fd == fd && steps[k].room == room)
    ensures InRoom(states[j].reg, fd, room)
    decreases j
  {
    RunStep(states, steps, if j == 0 then 0 else j - 1);
    if i < j {
      hide InRoom, Apply, Enabled, IsRun;
      MembersStay(states, steps, i, j - 1, fd, room);
      StepMembership(states[j - 1], steps[j - 1], fd, room);
      assert steps[j - 1] != RemoveConnection(fd);
    }
  }

  // ---------- Authorship ----------

  ghost predicate LoggedIn(steps: seq<Step>, n: nat, user: string)
    requires n <= |steps|
  {
    exists i :: 0 <= i < n && steps[i].Login? && steps[i].user == user
  }

  /** Some earlier step found that the sending connection was bound to exactly the name that the message claims. */
  ghost predicate CheckedSender(
    states: seq<State>, steps: seq<Step>, n: nat, fd: int, room: string, content: string, from: string)
    requires n <= |steps| && |states| == |steps| + 1
  {
    exists i ::
      && 0 <= i < n && steps[i].ChatCheck?
      && steps[i].fd == fd && steps[i].room == room && steps[i].content == content
      && fd in states[i].reg.conns && states[i].reg.conns[fd].username == from
      && (from != "" ==> LoggedIn(steps, i, from))
  }

  ghost predicate NamesFromLogins(s: State, steps: seq<Step>, n: nat)
    requires n <= |steps|
  {
    && (forall sid :: sid in s.sessions ==> s.sessions[sid] != "" && LoggedIn(steps, n, s.sessions[sid]))
    && (forall fd :: NameOf(s.reg, fd) != "" ==> LoggedIn(steps, n, NameOf(s.reg, fd)))
    && (forall w :: w in s.pending && s.pending[w].Bind? ==> LoggedIn(steps, n, s.pending[w].user))
  }

  ghost predicate MessagesChecked(states: seq<State>, steps: seq<Step>, n: nat)
    requires n <= |steps| && |states| == |steps| + 1
  {
    var s := states[n];
    && (forall w :: w in s.pending && s.pending[w].Forward? ==>
          var j := s.pending[w]; CheckedSender(states, steps, n, j.fd, j.room, j.content, j.from))
    && (forall k :: 0 <= k < |s.history| && s.history[k].RoomMessage? ==>
          var m := s.history[k]; CheckedSender(states, steps, n, m.sender, m.room, m.content, m.from))
  }

  lemma EarlierStays(states: seq<State>, steps: seq<Step>, n: nat)
    requires n < |steps| && |states| == |steps| + 1
    ensures forall u :: LoggedIn(steps, n, u) ==> LoggedIn(steps, n + 1, u)
    ensures forall fd, r, c, f :: CheckedSender(states, steps, n, fd, r, c, f) ==>
      CheckedSender(states, steps, n + 1, fd, r, c, f)
  {
  }

  function NameOf(g: Registry, fd: int): string {
    if fd in g.conns then g.conns[fd].username else ""
  }

  lemma BroadcastNames(g: Registry, room: string, text: seq<byte>)
    ensures forall fd :: NameOf(Broadcast(g, room, text, -1), fd) == NameOf(g, fd)
  {
  }

  lemma RoomStepNames(s: State, fd: int, room: string, notice: seq<byte>)
    ensures forall f :: NameOf(JoinState(s, fd, room, notice).reg, f) == NameOf(s.reg, f)
    ensures forall f :: NameOf(LeaveState(s, fd, room, notice).reg, f) == NameOf(s.reg, f)
  {
    hide Broadcast;
    if fd in s.reg.conns {
      var members := if room in s.reg.rooms then s.reg.rooms[room] else {};
      BroadcastNames(s.reg.(rooms := s.reg.rooms[room := members + {fd}]), room, notice);
    }
    BroadcastNames(s.reg, room, notice);
  }

  /** Only authentication changes names, and only to the session's user. */
  lemma NamesAfter(s: State, step: Step)
    requires Enabled(s, step)
    ensures var t := Apply(s, step);
      forall fd ::
        || NameOf(t.reg, fd) == "" || NameOf(t.reg, fd) == NameOf(s.reg, fd)
        || (step.AuthBind? && s.pending[step.worker].user == NameOf(t.reg, fd))
  {
    hide Broadcast, JoinState, LeaveState;
    match step {
      case JoinRoom(fd, room, notice) => RoomStepNames(s, fd, room, notice);
      case LeaveRoom(fd, room, notice) => RoomStepNames(s, fd, room, notice);
      case ChatForward(w, text) => BroadcastNames(s.reg, s.pending[w].room, text);
      case _ =>
    }
  }

  /** The history grows by at most one post, and a room message only by forwarding a checked one. */
  lemma HistoryAfter(s: State, step: Step)
    requires Enabled(s, step)
    ensures var h, h' := s.history, Apply(s, step).history;
      || h' == h
      || (exists text, room :: h' == h + [Notice(room, text)])
      || (step.ChatForward? && var j := s.pending[step.worker];
          h' == h + [RoomMessage(j.fd, j.from, j.room, j.content, step.text)])
  {
  }

  lemma SessionsAfter(s: State, step: Step)
    requires Enabled(s, step)
    ensures var t := Apply(s, step);
      forall sid :: sid in t.sessions ==>
        || (sid in s.sessions && t.sessions[sid] == s.sessions[sid])
        || (step.Login? && t.sessions[sid] == step.user)
    ensures var t := Apply(s, step);
      forall w :: w in t.pending ==>
        || (w in s.pending && t.pending[w] == s.pending[w])
        || (step.AuthLookup? && t.pending[w] == Bind(step.fd, s.sessions[step.sid]))
        || (step.ChatCheck? && t.pending[w] == Forward(step.fd, step.room, step.content, step.from))
  {
  }

  lemma {:induction false} NamesComeFromLogins(states: seq<State>, steps: seq<Step>, n: nat)
    requires IsRun(states, steps) && n < |states|
    ensures NamesFromLogins(states[n], steps, n)
    decreases n
  {
    RunStep(states, steps, if n == 0 then 0 else n - 1);
    if n > 0 {
      hide *;
      NamesComeFromLogins(states, steps, n - 1);
      NamesStep(states[n - 1], steps, n - 1);
    }
  }

  lemma NamesStep(s: State, steps: seq<Step>, n: nat)
    requires n < |steps| && Enabled(s, steps[n]) && NamesFromLogins(s, steps, n)
    ensures NamesFromLogins(Apply(s, steps[n]), steps, n + 1)
  {
    var step := steps[n];
    assert step.Login? ==> step.user != "" && LoggedIn(steps, n + 1, step.user);
    assert step.AuthLookup? ==> s.sessions[step.sid] != "" && LoggedIn(steps, n, s.sessions[step.sid]);
    assert step.AuthBind? ==> LoggedIn(steps, n, s.pending[step.worker].user);
    assert forall u :: LoggedIn(steps, n, u) ==> LoggedIn(steps, n + 1, u);
    NamesAfter(s, step);
    SessionsAfter(s, step);
    hide Apply, Enabled, LoggedIn, NameOf;
  }

  /**
    Authorship: in every run, every room message ever sent carries the name
    that its sender was bound to when it was checked, and any name that is not
    empty was put in the session table by an earlier login.
   */
  lemma {:induction false} Authorship(states: seq<State>, steps: seq<Step>, n: nat)
    requires IsRun(states, steps) && n < |states|
    ensures MessagesChecked(states, steps, n)
    decreases n
  {
    RunStep(states, steps, if n == 0 then 0 else n - 1);
    if n > 0 {
      hide *;
      Authorship(states, steps, n - 1);
      NamesComeFromLogins(states, steps, n - 1);
      MessagesStep(states, steps, n - 1);
    }
  }

  lemma MessagesStep(states: seq<State>, steps: seq<Step>, n: nat)
    requires n < |steps| && |states| == |steps| + 1
    requires Enabled(states[n], steps[n]) && states[n + 1] == Apply(states[n], steps[n])
    requires MessagesChecked(states, steps, n) && NamesFromLogins(states[n], steps, n)
    ensures MessagesChecked(states, steps, n + 1)
  {
    var s, step := states[n], steps[n];
    EarlierStays(states, steps, n);
    SessionsAfter(s, step);
    HistoryAfter(s, step);
    if step.ChatCheck? {
      assert NameOf(s.reg, step.fd) == step.from;
      assert CheckedSender(states, steps, n + 1, step.fd, step.room, step.content, step.from);
    }
    hide Apply, Enabled, CheckedSender;
    var before, after := s.history, states[n + 1].history;
    assert forall k :: 0 <= k < |before| ==> after[k] == before[k];
  }

  // ---------- What the clients are sent ----------

  /** How the server prints the two kinds of room text: a forwarded message and a notice, each with a time stamp. */
  datatype Serialiser = Serialiser(
    chat: (string, string, string, int) -> seq<byte>, // from, room, content, ts
    system: (string, int) -> seq<byte>)               // content, ts

  function JoinedText(user: string, room: string): string { user + " joined room " + room }

  function LeftText(user: string, room: string): string { user + " left room " + room }

  ghost predicate Printed(ser: Serialiser, content: string, text: seq<byte>) {
    exists ts :: text == ser.system(content, ts)
  }

  ghost predicate ForwardPrinted(ser: Serialiser, from: string, room: string, content: string, text: seq<byte>) {
    exists ts :: text == ser.chat(from, room, content, ts)
  }

  /** A step broadcasts nothing but what the serialiser makes of the checked message, or of the announced name. */
  ghost predicate Serialised(ser: Serialiser, s: State, step: Step)
    requires Enabled(s, step)
  {
    match step
    case ChatForward(w, text) =>
      var j := s.pending[w]; ForwardPrinted(ser, j.from, j.room, j.content, text)
    case JoinRoom(fd, room, notice) =>
      NameOf(s.reg, fd) != "" ==> Printed(ser, JoinedText(NameOf(s.reg, fd), room), notice)
    case LeaveRoom(fd, room, notice) =>
      NameOf(s.reg, fd) != "" ==> Printed(ser, LeftText(NameOf(s.reg, fd), room), notice)
    case _ => true
  }

  ghost predicate IsPrintedRun(states: seq<State>, steps: seq<Step>, ser: Serialiser) {
    IsRun(states, steps) &&
    forall i :: 0 <= i < |steps| ==> Enabled(states[i], steps[i]) && Serialised(ser, states[i], steps[i])
  }

  /** The room text that a step broadcasts, if any. */
  ghost predicate Broadcasts(s: State, step: Step, room: string, text: seq<byte>)
    requires Enabled(s, step)
  {
    match step
    case ChatForward(w, t) => room == s.pending[w].room && text == t
    case JoinRoom(fd, r, notice) => NameOf(s.reg, fd) != "" && room == r && text == notice
    case LeaveRoom(fd, r, notice) => NameOf(s.reg, fd) != "" && room == r && text == notice
    case _ => false
  }

  lemma PostItems(s: State, room: string, text: seq<byte>, post: Post)
    ensures var t := PostToRoom(s, room, text, post);
      forall fd, item :: fd in t.lines && item in t.lines[fd].items ==>
        fd in s.lines && (item in s.lines[fd].items || item == FromRoom(room, text))
  {
    hide Broadcast, Targets;
  }

  /** A step adds no room text to any line but the one it broadcasts. */
  lemma ItemsAfter(s: State, step: Step)
    requires Enabled(s, step)
    ensures var t := Apply(s, step);
      forall fd, item :: fd in t.lines && item in t.lines[fd].items && item.FromRoom? ==>
        || (fd in s.lines && item in s.lines[fd].items)
        || Broadcasts(s, step, item.room, item.text)
  {
    hide Broadcast, PostToRoom, Leave, Reply, BindUser;
    match step {
      case JoinRoom(fd, room, notice) =>
        var members := if room in s.reg.rooms then s.reg.rooms[room] else {};
        PostItems(s.(reg := s.reg.(rooms := s.reg.rooms[room := members + {fd}])), room, notice, Notice(room, notice));
      case LeaveRoom(fd, room, notice) =>
        PostItems(s, room, notice, Notice(room, notice));
      case ChatForward(w, text) =>
        var j := s.pending[w];
        PostItems(s, j.room, text, RoomMessage(j.fd, j.from, j.room, j.content, text));
      case _ =>
    }
  }

  /** A text for a room: a message whose claimed sender was checked, or the announcement of a name from a login. */
  ghost predicate Authored(states: seq<State>, steps: seq<Step>, ser: Serialiser, n: nat, room: string, text: seq<byte>)
    requires n <= |steps| && |states| == |steps| + 1
  {
    || (exists sender, from, content ::
          CheckedSender(states, steps, n, sender, room, content, from) &&
          ForwardPrinted(ser, from, room, content, text))
    || (exists user ::
          && LoggedIn(steps, n, user)
          && (Printed(ser, JoinedText(user, room), text) || Printed(ser, LeftText(user, room), text)))
  }

  ghost predicate AllAuthored(states: seq<State>, steps: seq<Step>, ser: Serialiser, n: nat)
    requires n <= |steps| && |states| == |steps| + 1
  {
    forall fd, item :: fd in states[n].lines && item in states[n].lines[fd].items && item.FromRoom? ==>
      Authored(states, steps, ser, n, item.room, item.text)
  }

  lemma AuthoredStays(states: seq<State>, steps: seq<Step>, ser: Serialiser, n: nat, room: string, text: seq<byte>)
    requires n < |steps| && |states| == |steps| + 1 && Authored(states, steps, ser, n, room, text)
    ensures Authored(states, steps, ser, n + 1, room, text)
  {
    hide CheckedSender, LoggedIn, Printed, ForwardPrinted;
    EarlierStays(states, steps, n);
  }

  lemma BroadcastIsAuthored(
    states: seq<State>, steps: seq<Step>, ser: Serialiser, n: nat, room: string, text: seq<byte>)
    requires n < |steps| && |states| == |steps| + 1 && Enabled(states[n], steps[n])
    requires Serialised(ser, states[n], steps[n]) && Broadcasts(states[n], steps[n], room, text)
    requires MessagesChecked(states, steps, n) && NamesFromLogins(states[n], steps, n)
    ensures Authored(states, steps, ser, n, room, text)
  {
    hide CheckedSender, LoggedIn, Printed, ForwardPrinted;
  }

  /**
    What clients read: in every run, every room text ever queued for any connection is the printed form of a
    message whose claimed sender was the sending connection's bound name when it was checked, or the announcement
    that a user who had logged in joined or left that room.
   */
  lemma {:induction false} EveryRoomTextIsAuthored(states: seq<State>, steps: seq<Step>, ser: Serialiser, n: nat)
    requires IsPrintedRun(states, steps, ser) && n < |states|
    ensures AllAuthored(states, steps, ser, n)
    decreases n
  {
    RunStep(states, steps, if n == 0 then 0 else n - 1);
    if n > 0 {
      assert Serialised(ser, states[n - 1], steps[n - 1]);
      EveryRoomTextIsAuthored(states, steps, ser, n - 1);
      Authorship(states, steps, n - 1);
      NamesComeFromLogins(states, steps, n - 1);
      AuthoredStep(states, steps, ser, n - 1);
    }
  }

  lemma AuthoredStep(states: seq<State>, steps: seq<Step>, ser: Serialiser, n: nat)
    requires n < |steps| && |states| == |steps| + 1
    requires Enabled(states[n], steps[n]) && states[n + 1] == Apply(states[n], steps[n])
    requires Serialised(ser, states[n], steps[n]) && AllAuthored(states, steps, ser, n)
    requires MessagesChecked(states, steps, n) && NamesFromLogins(states[n], steps, n)
    ensures AllAuthored(states, steps, ser, n + 1)
  {
    hide Apply, Enabled, Serialised, Broadcasts, Authored, MessagesChecked, NamesFromLogins;
    var s, t := states[n], states[n + 1];
    ItemsAfter(s, steps[n]);
    forall fd, item | fd in t.lines && item in t.lines[fd].items && item.FromRoom?
      ensures Authored(states, steps, ser, n + 1, item.room, item.text)
    {
      if !(fd in s.lines && item in s.lines[fd].items) {
        BroadcastIsAuthored(states, steps, ser, n, item.room, item.text);
      }
      AuthoredStays(states, steps, ser, n, item.room, item.text);
    }
  }
}
