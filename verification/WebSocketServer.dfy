/** The chat server: every public method is one critical section over the four indexes. */
module WebSocketServerModule {
  import opened Bytes
  import opened WebSocketConnection
  import R = ChatRegistry

  class WebSocketServer {
    var conns: map<int, WebSocketConn>
    var rooms: map<string, set<int>>
    var users: map<string, set<int>>
    var callbacks: set<int>
    var woken: seq<int> // the write events asked for so far, in order

    /** Different entries hold different connection objects. */
    ghost predicate Valid()
      reads this
    {
      forall f, g :: f in conns && g in conns && f != g ==> conns[f] != conns[g]
    }

    static ghost function PeerOf(c: WebSocketConn): R.Peer
      reads c
    {
      R.Peer(c.username, c.closed, c.writeBuf)
    }

    ghost function Peers(): map<int, R.Peer>
      reads this, conns.Values
    {
      map fd | fd in conns :: PeerOf(conns[fd])
    }

    ghost function View(): R.Registry
      reads this, conns.Values
    {
      R.Registry(Peers(), rooms, users, callbacks, multiset(woken))
    }

    /** Changing one connection object changes one entry of the table. */
    twostate lemma OnlyOneChanged(fd: int)
      requires Valid() && fd in conns && conns == old(conns)
      requires forall f :: f in conns && conns[f] != conns[fd] ==> PeerOf(conns[f]) == old(PeerOf(conns[f]))
      ensures Peers() == old(Peers())[fd := PeerOf(conns[fd])]
    {
      forall f | f in conns && f != fd
        ensures Peers()[f] == old(Peers())[f]
      {
        assert conns[f] != conns[fd];
      }
    }

    constructor ()
      ensures Valid() && View() == R.Empty()
    {
      conns, rooms, users, callbacks, woken := map[], map[], map[], {}, [];
    }

    method RegisterCallback(fd: int)
      requires Valid()
      modifies this`callbacks
      ensures Valid() && View() == R.Register(old(View()), fd)
    {
      callbacks := callbacks + {fd};
    }

    method AddConnection(fd: int, conn: WebSocketConn)
      requires Valid() && conn !in conns.Values
      modifies this`conns, conn`hasCallback
      ensures Valid() && View() == R.Add(old(View()), fd, PeerOf(conn))
      ensures conn.hasCallback
    {
      conns := conns[fd := conn];
      conn.hasCallback := true;
    }

    method RemoveConnection(fd: int)
      requires Valid()
      modifies this`conns, this`rooms, this`users, this`callbacks
      ensures Valid() && View() == R.Remove(old(View()), fd)
    {
      if fd !in conns {
        return;
      }
      var username := conns[fd].username;
      LeaveAllRooms(fd);
      if username != "" {
        ForgetUser(username, fd);
      }
      conns := conns - {fd};
      callbacks := callbacks - {fd};
      assert Peers() == old(Peers()) - {fd};
    }

    method LeaveAllRooms(fd: int)
      modifies this`rooms
      ensures rooms == R.WithoutMember(old(rooms), fd)
    {
      var todo := rooms.Keys;
      while todo != {}
        invariant todo <= rooms.Keys == old(rooms).Keys
        invariant forall r :: r in rooms ==> rooms[r] == if r in todo then old(rooms)[r] else old(rooms)[r] - {fd}
        decreases |todo|
      {
        var room :| room in todo;
        rooms := rooms[room := rooms[room] - {fd}];
        todo := todo - {room};
      }
    }

    method ForgetUser(username: string, fd: int)
      requires username != ""
      modifies this`users
      ensures users == R.WithoutUser(old(users), username, fd)
    {
      users := users[username := (if username in users then users[username] else {}) - {fd}];
      if users[username] == {} {
        users := users - {username};
      }
    }

    method IsWebSocketConn(fd: int) returns (known: bool)
      requires Valid()
      ensures known <==> fd in View().conns
    {
      known := fd in conns;
    }

    /** Sends the text to every member but one, whatever order the members are visited in. */
    method BroadcastRoomLocked(room: string, message: seq<byte>, exclude: int)
      requires Valid() && |message| < TWO_TO_THE_64
      modifies this`woken, conns.Values`writeBuf
      ensures Valid() && View() == R.Broadcast(old(View()), room, message, exclude)
    {
      if room !in rooms {
        R.BroadcastNobody(View(), message);
        return;
      }
      SendToMembers(rooms[room], message, exclude);
    }

    method SendToMembers(members: set<int>, message: seq<byte>, exclude: int)
      requires Valid() && |message| < TWO_TO_THE_64
      modifies this`woken, conns.Values`writeBuf
      ensures View() == R.BroadcastTo(old(View()), R.Reached(conns.Keys, members, exclude), message)
    {
      ghost var g, known := View(), conns.Keys;
      assert g.conns.Keys == known;
      ghost var visited: set<int> := {};
      var todo := members;
      R.BroadcastNobody(g, message);
      R.ReachedNobody(known, exclude);
      hide View, Peers, R.BroadcastTo, R.Reached;
      while todo != {}
        invariant visited !! todo && visited + todo == members
        invariant View() == R.BroadcastTo(g, R.Reached(known, visited, exclude), message)
        decreases |todo|
      {
        HasMember(todo);
        var fd: int :| fd in todo;
        todo := todo - {fd};
        DeliverUnlessExcluded(fd, exclude, message, g, visited);
        visited := visited + {fd};
      }
      assert visited == members;
    }

    /** One turn of the broadcast loop. */
    method DeliverUnlessExcluded(
      fd: int, exclude: int, message: seq<byte>, ghost g: R.Registry, ghost visited: set<int>)
      requires Valid() && |message| < TWO_TO_THE_64 && fd !in visited && g.conns.Keys == conns.Keys
      requires View() == R.BroadcastTo(g, R.Reached(conns.Keys, visited, exclude), message)
      modifies this`woken, conns.Values`writeBuf
      ensures View() == R.BroadcastTo(g, R.Reached(conns.Keys, visited + {fd}, exclude), message)
    {
      R.ReachedMore(conns.Keys, visited, exclude, fd);
      if fd != exclude && fd in conns {
        R.BroadcastOneMore(g, R.Reached(conns.Keys, visited, exclude), fd, message);
        hide View, R.BroadcastTo, R.Deliver;
        DeliverTo(fd, message);
      }
    }

    /** One message for one member. */
    method DeliverTo(fd: int, message: seq<byte>)
      requires Valid() && fd in conns && |message| < TWO_TO_THE_64
      modifies this`woken, {conns[fd]}`writeBuf
      ensures View() == R.Deliver(old(View()), fd, message)
    {
      var wasEmpty := conns[fd].writeBuf == [];
      conns[fd].SendText(message);
      OnlyOneChanged(fd);
      if wasEmpty && fd in callbacks {
        woken := woken + [fd];
      }
    }

    method BroadcastRoom(room: string, message: seq<byte>, exclude: int)
      requires Valid() && |message| < TWO_TO_THE_64
      modifies this`woken, conns.Values`writeBuf
      ensures Valid() && View() == R.Broadcast(old(View()), room, message, exclude)
    {
      BroadcastRoomLocked(room, message, exclude);
    }

    /** notice is the serialised announcement of the newcomer. */
    method JoinRoom(room: string, fd: int, notice: seq<byte>)
      requires Valid() && |notice| < TWO_TO_THE_64
      modifies this`rooms, this`woken, conns.Values`writeBuf
      ensures Valid() && View() == R.Join(old(View()), room, fd, notice)
    {
      if fd !in conns {
        return;
      }
      rooms := rooms[room := (if room in rooms then rooms[room] else {}) + {fd}];
      if conns[fd].username != "" {
        assert View() == old(View()).(rooms := rooms);
        hide View, R.Broadcast;
        BroadcastRoomLocked(room, notice, -1);
      }
    }

    method LeaveRoom(room: string, fd: int, notice: seq<byte>)
      requires Valid() && |notice| < TWO_TO_THE_64
      modifies this`rooms, this`woken, conns.Values`writeBuf
      ensures Valid() && View() == R.Leave(old(View()), room, fd, notice)
    {
      if room !in rooms {
        return;
      }
      if fd in conns && conns[fd].username != "" {
        BroadcastRoomLocked(room, notice, -1);
      }
      ghost var told := View();
      hide R.Broadcast, R.BroadcastTo;
      DropMember(room, fd);
      assert View() == told.(rooms := rooms);
    }

    /** Takes one member out of a room, and the room away when nobody is left. */
    method DropMember(room: string, fd: int)
      requires room in rooms
      modifies this`rooms
      ensures var members := old(rooms)[room] - {fd};
        rooms == if members == {} then old(rooms) - {room} else old(rooms)[room := members]
    {
      rooms := rooms[room := rooms[room] - {fd}];
      if rooms[room] == {} {
        rooms := rooms - {room};
      }
    }

    method HandleRoomAction(fd: int, action: string, room: string, notice: seq<byte>)
      requires Valid() && |notice| < TWO_TO_THE_64
      modifies this`rooms, this`woken, conns.Values`writeBuf
      ensures Valid()
      ensures View() ==
        if room == "" then old(View())
        else if action == "join" then R.Join(old(View()), room, fd, notice)
        else if action == "leave" then R.Leave(old(View()), room, fd, notice)
        else old(View())
    {
      if room == "" {
        return;
      }
      if action == "join" {
        JoinRoom(room, fd, notice);
      } else if action == "leave" {
        LeaveRoom(room, fd, notice);
      }
    }

    /** Puts a system message in one connection's buffer and asks for a write event. */
    method SendDirect(fd: int, text: seq<byte>)
      requires Valid() && |text| < TWO_TO_THE_64
      modifies this`woken, conns.Values`writeBuf
      ensures Valid() && View() == R.Reply(old(View()), fd, text)
    {
      if fd in conns {
        conns[fd].SendText(text);
        OnlyOneChanged(fd);
        if fd in callbacks {
          woken := woken + [fd];
        }
        assert Peers() == old(Peers())[fd := R.Send(old(Peers())[fd], text)];
      }
    }

    /** The last critical section of authentication. */
    method BindUser(fd: int, user: string, success: seq<byte>)
      requires Valid() && |success| < TWO_TO_THE_64
      modifies this`users, this`woken, conns.Values`writeBuf, conns.Values`username
      ensures Valid() && View() == R.BindUser(old(View()), fd, user, success)
    {
      if fd in conns {
        conns[fd].username := user;
        OnlyOneChanged(fd);
        users := users[user := (if user in users then users[user] else {}) + {fd}];
        assert Peers() == old(Peers())[fd := old(Peers())[fd].(username := user)];
        SendDirect(fd, success);
      }
    }

    /** Authentication by session id; the texts are the serialised answers. */
    method HandleAuth(fd: int, sessionid: string, sessions: map<string, string>,
                      missing: seq<byte>, invalid: seq<byte>, success: seq<byte>)
      requires Valid() && |missing| < TWO_TO_THE_64 && |invalid| < TWO_TO_THE_64 && |success| < TWO_TO_THE_64
      modifies this`users, this`woken, conns.Values`writeBuf, conns.Values`username
      ensures Valid()
      ensures View() ==
        if sessionid == "" then R.Reply(old(View()), fd, missing)
        else if sessionid !in sessions || sessions[sessionid] == "" then R.Reply(old(View()), fd, invalid)
        else R.BindUser(old(View()), fd, sessions[sessionid], success)
    {
      if sessionid == "" {
        SendDirect(fd, missing);
        return;
      }
      var username := if sessionid in sessions then sessions[sessionid] else "";
      if username == "" {
        SendDirect(fd, invalid);
        return;
      }
      BindUser(fd, username, success);
    }

    /** A room message is forwarded only under the sender's own name; text is its serialised form. */
    method HandleChat(fd: int, subtype: string, room: string, content: string, from: string, text: seq<byte>)
      returns (forwarded: bool)
      requires Valid() && |text| < TWO_TO_THE_64
      modifies this`woken, conns.Values`writeBuf
      ensures Valid()
      ensures forwarded <==>
        subtype == "room_msg" && room != "" && content != "" && fd in conns && from == old(View()).conns[fd].username
      ensures View() == if forwarded then R.Broadcast(old(View()), room, text, -1) else old(View())
    {
      if subtype != "room_msg" || room == "" || content == "" {
        return false;
      }
      if fd !in conns || conns[fd].username != from {
        return false;
      }
      BroadcastRoom(room, text, -1);
      return true;
    }
  }
}
