/**
  The four indexes of the chat server as one value, what each critical section
  does to them, and the invariant they keep.
 */
module ChatRegistry {
  import opened Bytes
  import opened WsFrame

  /** What the server sees of a connection. */
  datatype Peer = Peer(username: string, closed: bool, outbox: seq<byte>)

  /** woken counts, for each connection, the write events that the server has asked its reactor for. */
  datatype Registry = Registry(
    conns: map<int, Peer>,
    rooms: map<string, set<int>>,
    users: map<string, set<int>>,
    callbacks: set<int>,
    woken: multiset<int>)

  function Empty(): Registry { Registry(map[], map[], map[], {}, multiset{}) }

  function Send(p: Peer, text: seq<byte>): Peer {
    if p.closed then p else p.(outbox := p.outbox + PackText(text))
  }

  /** The members that a message is put in front of. */
  function Reached(conns: set<int>, members: set<int>, exclude: int): set<int> {
    set fd | fd in members && fd in conns && fd != exclude
  }

  /** Who a broadcast reaches. */
  function Targets(g: Registry, room: string, exclude: int): set<int> {
    if room in g.rooms then Reached(g.conns.Keys, g.rooms[room], exclude) else {}
  }

  lemma ReachedMore(conns: set<int>, members: set<int>, exclude: int, fd: int)
    ensures Reached(conns, members + {fd}, exclude)
         == Reached(conns, members, exclude) + (if fd in conns && fd != exclude then {fd} else {})
    ensures fd !in members ==> fd !in Reached(conns, members, exclude)
  {
  }

  lemma ReachedNobody(conns: set<int>, exclude: int)
    ensures Reached(conns, {}, exclude) == {}
  {
  }

  function SendToAll(conns: map<int, Peer>, fds: set<int>, text: seq<byte>): map<int, Peer> {
    map fd | fd in conns :: if fd in fds then Send(conns[fd], text) else conns[fd]
  }

  /** The members whose reactor is woken: those whose buffer was empty before the message was put in. */
  function ToWake(g: Registry, fds: set<int>): set<int> {
    set fd | fd in fds && fd in g.conns && fd in g.callbacks && g.conns[fd].outbox == []
  }

  function BroadcastTo(g: Registry, fds: set<int>, text: seq<byte>): Registry {
    g.(conns := SendToAll(g.conns, fds, text), woken := g.woken + multiset(ToWake(g, fds)))
  }

  function Broadcast(g: Registry, room: string, text: seq<byte>, exclude: int): Registry {
    BroadcastTo(g, Targets(g, room, exclude), text)
  }

  /** One message for one member. */
  function Deliver(g: Registry, fd: int, text: seq<byte>): Registry
    requires fd in g.conns
  {
    g.(conns := g.conns[fd := Send(g.conns[fd], text)],
       woken := if g.conns[fd].outbox == [] && fd in g.callbacks then g.woken + multiset{fd} else g.woken)
  }

  /** A broadcast is a series of deliveries to distinct members, in any order. */
  lemma BroadcastNobody(g: Registry, text: seq<byte>)
    ensures BroadcastTo(g, {}, text) == g
  {
  }

  lemma BroadcastOneMore(g: Registry, fds: set<int>, fd: int, text: seq<byte>)
    requires fd in g.conns && fd !in fds
    ensures Deliver(BroadcastTo(g, fds, text), fd, text) == BroadcastTo(g, fds + {fd}, text)
  {
  }

  function Register(g: Registry, fd: int): Registry { g.(callbacks := g.callbacks + {fd}) }

  function Add(g: Registry, fd: int, p: Peer): Registry { g.(conns := g.conns[fd := p]) }

  function WithoutMember(rooms: map<string, set<int>>, fd: int): map<string, set<int>> {
    map r | r in rooms :: rooms[r] - {fd}
  }

  function WithoutUser(users: map<string, set<int>>, user: string, fd: int): map<string, set<int>> {
    if user == "" || user !in users then users
    else if users[user] - {fd} == {} then users - {user}
    else users[user := users[user] - {fd}]
  }

  function Remove(g: Registry, fd: int): Registry {
    if fd !in g.conns then g
    else g.(conns := g.conns - {fd},
            rooms := WithoutMember(g.rooms, fd),
            users := WithoutUser(g.users, g.conns[fd].username, fd),
            callbacks := g.callbacks - {fd})
  }

  /** notice is the text that tells the room about the newcomer; only a named connection is announced. */
  function Join(g: Registry, room: string, fd: int, notice: seq<byte>): Registry {
    if fd !in g.conns then g
    else
      var members := if room in g.rooms then g.rooms[room] else {};
      var h := g.(rooms := g.rooms[room := members + {fd}]);
      if g.conns[fd].username == "" then h else Broadcast(h, room, notice, -1)
  }

  function Leave(g: Registry, room: string, fd: int, notice: seq<byte>): Registry {
    if room !in g.rooms then g
    else
      var h := if fd in g.conns && g.conns[fd].username != "" then Broadcast(g, room, notice, -1) else g;
      var members := g.rooms[room] - {fd};
      if members == {} then h.(rooms := h.rooms - {room}) else h.(rooms := h.rooms[room := members])
  }

  /** A direct answer to one connection, which always wakes its reactor. */
  function Reply(g: Registry, fd: int, text: seq<byte>): Registry {
    if fd !in g.conns then g
    else g.(conns := g.conns[fd := Send(g.conns[fd], text)],
            woken := if fd in g.callbacks then g.woken + multiset{fd} else g.woken)
  }

  function BindUser(g: Registry, fd: int, user: string, text: seq<byte>): Registry {
    if fd !in g.conns then g
    else
      var named := if user in g.users then g.users[user] else {};
      Reply(g.(conns := g.conns[fd := g.conns[fd].(username := user)], users := g.users[user := named + {fd}]),
            fd, text)
  }

  // ---------- The invariant ----------

  ghost predicate RoomsKnown(g: Registry) {
    forall r, fd :: r in g.rooms && fd in g.rooms[r] ==> fd in g.conns
  }

  ghost predicate UsersKnown(g: Registry) {
    forall fd :: fd in g.conns && g.conns[fd].username != "" ==>
      g.conns[fd].username in g.users && fd in g.users[g.conns[fd].username]
  }

  /** Members are connections, connections can be woken, named connections are indexed, and no user entry is empty. */
  ghost predicate Consistent(g: Registry) {
    && RoomsKnown(g)
    && g.conns.Keys <= g.callbacks
    && UsersKnown(g)
    && (forall u :: u in g.users ==> g.users[u] != {})
  }

  lemma BroadcastKeeps(g: Registry, room: string, text: seq<byte>, exclude: int)
    requires Consistent(g)
    ensures Consistent(Broadcast(g, room, text, exclude))
  {
  }

  /** The reactor registers the callback before it adds the connection. */
  lemma AddKeeps(g: Registry, fd: int, p: Peer)
    requires Consistent(g) && fd in g.callbacks && p.username == ""
    ensures Consistent(Add(g, fd, p))
  {
  }

  lemma RegisterKeeps(g: Registry, fd: int)
    requires Consistent(g)
    ensures Consistent(Register(g, fd))
  {
  }

  /**
   * A removed connection is gone from the table, the callbacks and every room; everybody else stays where they were.
   */
  lemma RemoveKeeps(g: Registry, fd: int)
    requires Consistent(g)
    ensures var h := Remove(g, fd);
      && Consistent(h)
      && fd !in h.conns
      && (fd in g.conns ==> fd !in h.callbacks)
      && (forall r :: r in h.rooms ==> fd !in h.rooms[r])
      && (forall r, other :: r in g.rooms && other != fd ==>
            r in h.rooms && (other in h.rooms[r] <==> other in g.rooms[r]))
  {
  }

  lemma JoinKeeps(g: Registry, room: string, fd: int, notice: seq<byte>)
    requires Consistent(g)
    ensures Consistent(Join(g, room, fd, notice))
    ensures fd in g.conns ==> room in Join(g, room, fd, notice).rooms && fd in Join(g, room, fd, notice).rooms[room]
  {
  }

  lemma LeaveKeeps(g: Registry, room: string, fd: int, notice: seq<byte>)
    requires Consistent(g)
    ensures Consistent(Leave(g, room, fd, notice))
    ensures var h := Leave(g, room, fd, notice); room in h.rooms ==> fd !in h.rooms[room] && h.rooms[room] != {}
  {
    if room in g.rooms {
      BroadcastKeeps(g, room, notice, -1);
    }
  }

  lemma ReplyKeeps(g: Registry, fd: int, text: seq<byte>)
    requires Consistent(g)
    ensures Consistent(Reply(g, fd, text))
  {
  }

  lemma BindUserKeeps(g: Registry, fd: int, user: string, text: seq<byte>)
    requires Consistent(g)
    ensures Consistent(BindUser(g, fd, user, text))
  {
  }

  // ---------- What each section does to each index ----------

  ghost predicate InRoom(g: Registry, fd: int, room: string) { room in g.rooms && fd in g.rooms[room] }

  /** Everything about a connection but what is queued for it. */
  ghost predicate SamePeers(g: Registry, h: Registry) {
    && h.conns.Keys == g.conns.Keys
    && forall fd :: fd in g.conns ==>
         h.conns[fd].username == g.conns[fd].username && h.conns[fd].closed == g.conns[fd].closed
  }

  /** How often a connection's reactor was woken in between. */
  ghost function WokenSince(g: Registry, h: Registry, fd: int): int { h.woken[fd] as int - g.woken[fd] as int }

  /**
   * A broadcast: each open member but the excluded one gets exactly one frame more, nobody else gets anything, and
   * exactly those whose buffer was empty are woken, once, if they can be.
   */
  lemma BroadcastEffect(g: Registry, room: string, text: seq<byte>, exclude: int, fd: int)
    requires fd in g.conns
    ensures var h := Broadcast(g, room, text, exclude);
      var reached := InRoom(g, fd, room) && fd != exclude;
      && SamePeers(g, h) && h.rooms == g.rooms && h.users == g.users && h.callbacks == g.callbacks
      && h.conns[fd].outbox == g.conns[fd].outbox +
           (if reached && !g.conns[fd].closed then PackText(text) else [])
      && WokenSince(g, h, fd) == (if reached && g.conns[fd].outbox == [] && fd in g.callbacks then 1 else 0)
  {
    hide PackText;
    var h := Broadcast(g, room, text, exclude);
    assert g.conns[fd].outbox + [] == g.conns[fd].outbox;
    var wake := ToWake(g, Targets(g, room, exclude));
    assert multiset(wake)[fd] == if fd in wake then 1 else 0;
  }

  /** A direct message: the one connection gets it, if open, and is woken in any case. */
  lemma ReplyEffect(g: Registry, fd: int, text: seq<byte>, other: int)
    requires other in g.conns
    ensures var h := Reply(g, fd, text);
      && SamePeers(g, h) && h.rooms == g.rooms && h.users == g.users && h.callbacks == g.callbacks
      && h.conns[other].outbox == g.conns[other].outbox +
           (if other == fd && !g.conns[fd].closed then PackText(text) else [])
      && WokenSince(g, h, other) == (if other == fd && fd in g.callbacks then 1 else 0)
  {
    hide PackText;
    assert g.conns[other].outbox + [] == g.conns[other].outbox;
  }

  /** Joining: a known connection becomes a member, and nobody's membership changes otherwise. */
  lemma JoinMembership(g: Registry, room: string, fd: int, notice: seq<byte>)
    ensures var h := Join(g, room, fd, notice);
      && SamePeers(g, h) && h.users == g.users && h.callbacks == g.callbacks
      && forall r, other :: InRoom(h, other, r) <==>
           InRoom(g, other, r) || (r == room && other == fd && fd in g.conns)
  {
    hide PackText, Targets, ToWake;
  }

  /** A named newcomer is announced to the whole room, itself included; nobody else hears of it. */
  lemma JoinAnnounces(g: Registry, room: string, fd: int, notice: seq<byte>, other: int)
    requires other in g.conns && other != -1
    ensures var h := Join(g, room, fd, notice);
      var told := fd in g.conns && g.conns[fd].username != "" && (other == fd || InRoom(g, other, room));
      h.conns[other].outbox == g.conns[other].outbox +
        (if told && !g.conns[other].closed then PackText(notice) else [])
  {
    assert g.conns[other].outbox + [] == g.conns[other].outbox;
    hide PackText, Broadcast;
    if fd in g.conns && g.conns[fd].username != "" {
      var members := if room in g.rooms then g.rooms[room] else {};
      BroadcastEffect(g.(rooms := g.rooms[room := members + {fd}]), room, notice, -1, other);
    }
  }

  /**
   * Leaving: the one who leaves is no member any more, everybody else is where they were, and a room is gone only
   * when the one who left was the last in it.
   */
  lemma LeaveMembership(g: Registry, room: string, fd: int, notice: seq<byte>)
    ensures var h := Leave(g, room, fd, notice);
      && SamePeers(g, h) && h.users == g.users && h.callbacks == g.callbacks
      && (forall r, other :: InRoom(h, other, r) <==> InRoom(g, other, r) && !(r == room && other == fd))
      && (forall r :: r in g.rooms && r !in h.rooms ==> r == room && g.rooms[r] <= {fd})
      && (forall r :: r in h.rooms ==> r in g.rooms)
      && (room in g.rooms && g.rooms[room] <= {fd} ==> room !in h.rooms)
  {
    hide PackText, Targets, ToWake;
    var h := Leave(g, room, fd, notice);
    forall r, other ensures InRoom(h, other, r) <==> InRoom(g, other, r) && !(r == room && other == fd) {
      if room in g.rooms && r == room && other in g.rooms[room] && other != fd {
        assert other in g.rooms[room] - {fd};
      }
    }
    if room in g.rooms {
      assert g.rooms[room] - {fd} == {} <==> g.rooms[room] <= {fd};
    }
  }

  /** A named leaver is announced to the room it leaves, itself included. */
  lemma LeaveAnnounces(g: Registry, room: string, fd: int, notice: seq<byte>, other: int)
    requires other in g.conns && other != -1
    ensures var h := Leave(g, room, fd, notice);
      var told := fd in g.conns && g.conns[fd].username != "" && InRoom(g, other, room);
      h.conns[other].outbox == g.conns[other].outbox +
        (if told && !g.conns[other].closed then PackText(notice) else [])
  {
    assert g.conns[other].outbox + [] == g.conns[other].outbox;
    hide PackText, Broadcast;
    if fd in g.conns && g.conns[fd].username != "" {
      BroadcastEffect(g, room, notice, -1, other);
    }
  }

  /**
   * Authentication: the connection has exactly that name, nobody else's name changes, it is in the name's user entry,
   * and no other entry of any user changes.
   */
  lemma BindUserEffect(g: Registry, fd: int, user: string, text: seq<byte>)
    requires fd in g.conns
    ensures var h := BindUser(g, fd, user, text);
      && h.conns.Keys == g.conns.Keys && h.rooms == g.rooms && h.callbacks == g.callbacks
      && h.conns[fd].username == user
      && (forall other :: other in g.conns && other != fd ==> h.conns[other] == g.conns[other])
      && (forall u, other :: (u in h.users && other in h.users[u]) <==>
            (u == user && other == fd) || (u in g.users && other in g.users[u]))
      && h.conns[fd].outbox == g.conns[fd].outbox + (if g.conns[fd].closed then [] else PackText(text))
      && WokenSince(g, h, fd) == (if fd in g.callbacks then 1 else 0)
  {
    hide PackText;
    assert g.conns[fd].outbox + [] == g.conns[fd].outbox;
  }

  /** Removal: the connection leaves its name's user entry, and all other entries stay; no other connection changes. */
  lemma RemoveEffect(g: Registry, fd: int)
    requires Consistent(g) && fd in g.conns
    ensures var h := Remove(g, fd);
      && h.conns == g.conns - {fd} && h.callbacks == g.callbacks - {fd} && h.woken == g.woken
      && (forall r, other :: InRoom(h, other, r) <==> InRoom(g, other, r) && other != fd)
      && (forall u, other :: (u in h.users && other in h.users[u]) <==>
            (u in g.users && other in g.users[u] && !(other == fd && u == g.conns[fd].username && u != "")))
  {
    var h, user := Remove(g, fd), g.conns[fd].username;
    forall u, other
      ensures (u in h.users && other in h.users[u]) <==>
        (u in g.users && other in g.users[u] && !(other == fd && u == user && u != ""))
    {
      if u == user && u in g.users && other in g.users[u] && other != fd {
        assert other in g.users[u] - {fd};
      }
    }
  }

  lemma BroadcastRooms(g: Registry, room: string, text: seq<byte>, exclude: int)
    ensures Broadcast(g, room, text, exclude).rooms == g.rooms
  {
  }
}
