/** One WebSocket connection: its read buffer, its write buffer and what crosses its socket. */
module WebSocketConnection {
  import opened Bytes
  import opened Io
  import opened WsFrame

  /** The calls of the message callback: the texts among the events, in order, if a callback is set. */
  function Calls(hasCallback: bool, events: seq<Event>): seq<seq<byte>> {
    if events == [] then []
    else (if hasCallback && events[0].Text? then [events[0].payload] else []) + Calls(hasCallback, events[1..])
  }

  /** The bytes queued for the pings among the events. */
  function PongsIn(events: seq<Event>): seq<byte> {
    if events == [] then []
    else (if events[0].Pong? then PONG_FRAME else []) + PongsIn(events[1..])
  }

  lemma {:induction false} EventsAppend(hasCallback: bool, xs: seq<Event>, ys: seq<Event>)
    ensures Calls(hasCallback, xs + ys) == Calls(hasCallback, xs) + Calls(hasCallback, ys)
    ensures PongsIn(xs + ys) == PongsIn(xs) + PongsIn(ys)
    decreases |xs|
  {
    if xs == [] {
      assert xs + ys == ys;
    } else {
      assert (xs + ys)[1..] == xs[1..] + ys;
      EventsAppend(hasCallback, xs[1..], ys);
    }
  }

  lemma NoEvents(hasCallback: bool)
    ensures Calls(hasCallback, []) == [] && PongsIn([]) == []
  {
  }

  /** The bytes that a draining loop moves out of a buffer of the given size, and what it then reports. */
  datatype Drained = Drained(moved: nat, action: Action)

  function Drain(size: nat, io: seq<WriteResult>): (d: Drained)
    ensures d.moved <= size
    ensures d.action == Read ==> d.moved == size
    ensures d.action == Write ==> d.moved < size
  {
    if size == 0 then Drained(0, Read)
    else if io == [] then Drained(0, Write)
    else match io[0]
      case WouldBlock => Drained(0, Write)
      case Failed => Drained(0, Close)
      case Moved(count) =>
        if count == 0 then Drained(0, Close)
        else
          var n := Min(count, size);
          var d := Drain(size - n, io[1..]);
          Drained(n + d.moved, d.action)
  }

  lemma DrainUnfolds(size: nat, io: seq<WriteResult>, i: nat)
    requires i <= |io|
    ensures size == 0 ==> Drain(size, io[i..]) == Drained(0, Read)
    ensures size > 0 && (i == |io| || io[i].WouldBlock?) ==> Drain(size, io[i..]) == Drained(0, Write)
    ensures size > 0 && i < |io| && (io[i].Failed? || io[i] == Moved(0)) ==> Drain(size, io[i..]) == Drained(0, Close)
    ensures size > 0 && i < |io| && io[i].Moved? && io[i].count > 0 ==>
      var n := Min(io[i].count, size);
      var d := Drain(size - n, io[i + 1..]);
      Drain(size, io[i..]) == Drained(n + d.moved, d.action)
  {
  }

  /**
   * Draining: what the sends move adds up, until the buffer is empty or a send does not move anything; a schedule
   * that ends is one that would block.
   */
  lemma {:induction false} DrainMoves(size: nat, counts: seq<nat>, stop: seq<WriteResult>)
    requires forall i :: 0 <= i < |counts| ==> counts[i] > 0
    requires stop == [] || !stop[0].Moved? || stop[0].count == 0
    ensures Drain(size, Moves(counts) + stop) ==
      if Total(counts) >= size then Drained(size, Read)
      else Drained(Total(counts), if stop == [] || stop[0].WouldBlock? then Write else Close)
    decreases |counts|
  {
    var io := Moves(counts) + stop;
    if counts == [] {
      assert io == stop;
    } else if size > 0 {
      assert io[0] == Moved(counts[0]) && io[1..] == Moves(counts[1..]) + stop;
      DrainMoves(size - Min(counts[0], size), counts[1..], stop);
    }
  }

  lemma SameBytes<T>(a: seq<T>, b: seq<T>, c: seq<T>, d: seq<T>, k: nat)
    requires a + b == c + d && k <= |d| && |a| == |c| + k
    ensures a == c + d[..k]
  {
    assert a == (a + b)[..|a|] == (c + d)[..|c| + k];
  }

  class WebSocketConn {
    const fd: int
    var username: string
    var readBuf: seq<byte>
    var writeBuf: seq<byte>
    var closed: bool
    var hasCallback: bool
    var delivered: seq<seq<byte>> // the arguments of the message callback, call by call
    var wire: seq<byte>           // everything the socket has accepted

    constructor (fd: int)
      ensures this.fd == fd && username == "" && readBuf == [] && writeBuf == []
      ensures !closed && !hasCallback && delivered == [] && wire == []
    {
      this.fd := fd;
      username, readBuf, writeBuf := "", [], [];
      closed, hasCallback, delivered, wire := false, false, [], [];
    }

    /** Packs a text, whose size is a 64-bit number, into one unmasked frame. */
    static method PackTextFrame(payload: seq<byte>) returns (frame: seq<byte>)
      requires |payload| < TWO_TO_THE_64
      ensures frame == PackText(payload)
    {
      var len := |payload|;
      frame := [0x81];
      if len < 126 {
        frame := frame + [len];
      } else if len < 65536 {
        frame := frame + [126, (len / 256) % 256, len % 256];
      } else {
        frame := frame + [127];
        ghost var start := frame;
        var i := 8;
        while i > 0
          invariant 0 <= i <= 8
          invariant frame == start + BigEndianBytes(Shift(len, i), 8 - i)
        {
          i := i - 1;
          frame := frame + [Shift(len, i) % 256];
        }
      }
      frame := frame + payload;
      assert frame == [TEXT_FINAL] + LengthField(0, len) + [] + payload;
    }

    /** n shifted right by 8 * i bits. */
    static function Shift(n: nat, i: nat): nat {
      if i == 0 then n else Shift(n, i - 1) / 256
    }

    /** Xors the buffer in place with the repeated key. */
    static method UnmaskPayload(data: array<byte>, mask: seq<byte>)
      requires |mask| == 4
      modifies data
      ensures data[..] == Mask(old(data[..]), mask)
    {
      var i := 0;
      while i < data.Length
        invariant 0 <= i <= data.Length
        invariant forall k :: 0 <= k < i ==> data[k] == Mask(old(data[..]), mask)[k]
        invariant forall k :: i <= k < data.Length ==> data[k] == old(data[k])
      {
        data[i] := Xor(data[i], mask[i % 4]);
        i := i + 1;
      }
    }

    /** The eight-byte length of a long frame. */
    static method LongLength(buf: seq<byte>) returns (n: nat)
      requires |buf| >= 10
      ensures n == BigEndian(buf[2..10])
    {
      n := 0;
      for i := 0 to 8
        invariant n == BigEndian(buf[2..2 + i])
      {
        assert buf[2..2 + i + 1][..i] == buf[2..2 + i];
        n := 256 * n + buf[2 + i];
      }
    }

    /** One frame from the front of the buffer, its payload unmasked in place. */
    static method TakeFrame(buf: seq<byte>) returns (r: Scanned)
      ensures r == Scan(buf)
    {
      if |buf| < 2 {
        return More;
      }
      var masked := buf[1] >= 128;
      var length: nat := buf[1] % 128;
      var size: nat := 2;
      if length == 126 {
        if |buf| < 4 {
          return More;
        }
        length, size := 256 * (buf[2] as int) + buf[3], 4;
      } else if length == 127 {
        if |buf| < 10 {
          return More;
        }
        length := LongLength(buf);
        size := 10;
      }
      var key: seq<byte> := [];
      if masked {
        if |buf| < size + 4 {
          return More;
        }
        key, size := buf[size..size + 4], size + 4;
      }
      ghost var h := ReadHeader(buf);
      assert h == Some(Header(buf[0], key, size, length));
      var need := Add64(size, length);
      if |buf| < need {
        return More;
      }
      var payload := Substr(buf, size, length);
      if masked {
        var data := new byte[|payload|](i requires 0 <= i < |payload| => payload[i]);
        assert data[..] == payload;
        UnmaskPayload(data, key);
        payload := data[..];
      }
      return Frame(buf[0] % 16, payload, need);
    }

    /**
      Decodes every complete frame of the read buffer. Parse says when the
      source's loop would not end, which only a wrapping frame size can cause.
     */
    method ParseFrames() returns (ok: bool)
      requires Parse(readBuf).status != Stuck
      modifies this
      ensures readBuf == Parse(old(readBuf)).rest
      ensures ok <==> Parse(old(readBuf)).status == Open
      ensures closed == (old(closed) || !ok)
      ensures delivered == old(delivered) + Calls(hasCallback, Parse(old(readBuf)).events)
      ensures writeBuf == old(writeBuf) + PongsIn(Parse(old(readBuf)).events)
      ensures wire == old(wire) && username == old(username) && hasCallback == old(hasCallback)
    {
      ghost var whole := Parse(readBuf);
      hide *;
      while |readBuf| >= 2
        invariant whole.status == Parse(readBuf).status != Stuck && whole.rest == Parse(readBuf).rest
        invariant delivered + Calls(hasCallback, Parse(readBuf).events) ==
          old(delivered) + Calls(hasCallback, whole.events)
        invariant writeBuf + PongsIn(Parse(readBuf).events) == old(writeBuf) + PongsIn(whole.events)
        invariant unchanged(this`closed, this`wire, this`username, this`hasCallback)
        decreases |readBuf|
      {
        var r := TakeFrame(readBuf);
        ParseTurn(readBuf);
        if r.More? {
          NoEvents(hasCallback);
          return true;
        }
        readBuf := readBuf[r.consumed..];
        ok := Dispatch(r.opcode, r.payload);
        if !ok {
          NoEvents(hasCallback);
          return false;
        }
        EventsAppend(hasCallback, EventsOf(r.opcode, r.payload), Parse(readBuf).events);
      }
      ParseTurn(readBuf);
      NoEvents(hasCallback);
      return true;
    }

    /** What the connection does with one frame. */
    method Dispatch(opcode: nat, payload: seq<byte>) returns (ok: bool)
      modifies this`delivered, this`writeBuf, this`closed
      ensures ok <==> opcode != OP_CLOSE
      ensures closed == (old(closed) || !ok)
      ensures !ok ==> delivered == old(delivered) && writeBuf == old(writeBuf)
      ensures delivered == old(delivered) + Calls(hasCallback, EventsOf(opcode, payload))
      ensures writeBuf == old(writeBuf) + PongsIn(EventsOf(opcode, payload))
    {
      EventsAppend(hasCallback, [Text(payload)], []);
      EventsAppend(hasCallback, [Pong], []);
      if opcode == OP_TEXT {
        if hasCallback {
          delivered := delivered + [payload];
        }
      } else if opcode == OP_CLOSE {
        closed := true;
        return false;
      } else if opcode == OP_PING {
        writeBuf := writeBuf + [0x8A, 0x00];
      }
      return true;
    }

    /** Everything a series of receive calls adds to the read buffer before one of them does not deliver. */
    static function Received(io: seq<ReadResult>): seq<byte> {
      if io == [] || !io[0].Data? || io[0].bytes == [] then [] else io[0].bytes + Received(io[1..])
    }

    /** Whether the receiving loop ends by running out of data rather than by the end of the stream or an error. */
    static predicate Drains(io: seq<ReadResult>) {
      if io == [] then true
      else match io[0]
        case Again => true
        case Broken => false
        case Data(bytes) => bytes != [] && Drains(io[1..])
    }

    static function Reads(chunks: seq<seq<byte>>): seq<ReadResult> {
      if chunks == [] then [] else [Data(chunks[0])] + Reads(chunks[1..])
    }

    /** Receiving: everything that came, until there is no more for now, an error, or the end of the stream. */
    static lemma {:induction false} ReceivedIs(chunks: seq<seq<byte>>, stop: ReadResult, rest: seq<ReadResult>)
      requires forall i :: 0 <= i < |chunks| ==> chunks[i] != []
      requires stop.Data? ==> stop.bytes == []
      ensures Received(Reads(chunks) + [stop] + rest) == Flatten(chunks)
      ensures Drains(Reads(chunks) + [stop] + rest) <==> stop.Again?
      decreases |chunks|
    {
      var io := Reads(chunks) + [stop] + rest;
      if chunks == [] {
        assert io == [stop] + rest;
      } else {
        assert io[0] == Data(chunks[0]) && io[1..] == Reads(chunks[1..]) + [stop] + rest;
        ReceivedIs(chunks[1..], stop, rest);
      }
    }

    /** Reads until the socket would block; false at the end of the stream and on an error. */
    method ReceiveAll(io: seq<ReadResult>) returns (open: bool)
      modifies this`readBuf, this`closed
      ensures readBuf == old(readBuf) + Received(io)
      ensures open == Drains(io)
      ensures closed == (old(closed) || !open)
    {
      var i := 0;
      assert io[0..] == io;
      while i < |io| && !io[i].Again?
        invariant 0 <= i <= |io|
        invariant readBuf + Received(io[i..]) == old(readBuf) + Received(io)
        invariant Drains(io[i..]) == Drains(io)
        invariant closed == old(closed)
      {
        if io[i].Broken? || io[i].bytes == [] {
          closed := true;
          return false;
        }
        readBuf := readBuf + io[i].bytes;
        assert io[i..][1..] == io[i + 1..];
        i := i + 1;
      }
      return true;
    }

    method HandleRead(io: seq<ReadResult>) returns (action: Action)
      requires Parse(readBuf + Received(io)).status != Stuck
      modifies this
      ensures old(closed) ==>
        action == Close && readBuf == old(readBuf) && writeBuf == old(writeBuf) && delivered == old(delivered)
      ensures !old(closed) && !Drains(io) ==>
        action == Close && closed && writeBuf == old(writeBuf) && delivered == old(delivered)
      ensures !old(closed) && Drains(io) ==>
        var p := Parse(old(readBuf) + Received(io));
        && readBuf == p.rest
        && delivered == old(delivered) + Calls(hasCallback, p.events)
        && writeBuf == old(writeBuf) + PongsIn(p.events)
        && closed == (p.status == Closed)
        && action == (if p.status == Closed then Close else if writeBuf == [] then Read else Write)
      ensures wire == old(wire) && username == old(username) && hasCallback == old(hasCallback)
    {
      hide *;
      if closed {
        return Close;
      }
      var open := ReceiveAll(io);
      if !open {
        return Close;
      }
      var ok := ParseFrames();
      if !ok {
        closed := true;
        return Close;
      }
      return if writeBuf != [] then Write else Read;
    }

    /** Moves the front of the write buffer to the socket: nothing is lost, repeated or reordered. */
    method HandleWrite(io: seq<WriteResult>) returns (action: Action)
      modifies this
      ensures wire + writeBuf == old(wire) + old(writeBuf)
      ensures old(closed) ==> action == Close && wire == old(wire) && closed
      ensures !old(closed) ==>
        var d := Drain(|old(writeBuf)|, io);
        && wire == old(wire) + old(writeBuf)[..d.moved]
        && action == d.action
        && closed == (d.action == Close)
      ensures readBuf == old(readBuf) && delivered == old(delivered)
      ensures username == old(username) && hasCallback == old(hasCallback)
    {
      if closed {
        return Close;
      }
      var i := 0;
      assert io[0..] == io;
      hide Drain;
      while writeBuf != []
        invariant 0 <= i <= |io|
        invariant wire + writeBuf == old(wire) + old(writeBuf)
        invariant var d, rest := Drain(|old(writeBuf)|, io), Drain(|writeBuf|, io[i..]);
          |wire| + rest.moved == |old(wire)| + d.moved && rest.action == d.action
        invariant unchanged(this`readBuf, this`delivered, this`closed, this`username, this`hasCallback)
        decreases |writeBuf|
      {
        DrainUnfolds(|writeBuf|, io, i);
        if i == |io| || io[i].WouldBlock? {
          break;
        }
        if io[i].Failed? || io[i].count == 0 {
          closed := true;
          break;
        }
        var n := Min(io[i].count, |writeBuf|);
        assert (wire + writeBuf[..n]) + writeBuf[n..] == wire + writeBuf;
        wire, writeBuf := wire + writeBuf[..n], writeBuf[n..];
        i := i + 1;
      }
      DrainUnfolds(|writeBuf|, io, i);
      SameBytes(wire, writeBuf, old(wire), old(writeBuf), Drain(|old(writeBuf)|, io).moved);
      return if closed then Close else if writeBuf != [] then Write else Read;
    }

    method SendText(text: seq<byte>)
      requires |text| < TWO_TO_THE_64
      modifies this`writeBuf
      ensures writeBuf == if closed then old(writeBuf) else old(writeBuf) + PackText(text)
    {
      if closed {
        return;
      }
      var frame := PackTextFrame(text);
      writeBuf := writeBuf + frame;
    }
  }
}
