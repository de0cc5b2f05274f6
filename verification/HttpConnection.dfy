/** One HTTP connection: reading and parsing, and the writer that survives partial writes. */
module HttpConnectionModule {
  import opened Bytes
  import opened Io
  import opened HttpText
  import opened HttpRequests
  import opened HttpParsing
  import opened HttpParserModule
  import opened HttpResponses

  /** The answer of one recv; an empty text is the end of the stream. */
  datatype RecvAnswer = Received(text: string) | NothingYet | RecvFailed

  /** Everything recv has to give, behind what is already buffered; ended says that the peer is gone. */
  function ReadAll(buffer: string, io: seq<RecvAnswer>): (string, bool)
    decreases |io|
  {
    if io == [] || io[0].NothingYet? then (buffer, false)
    else if io[0].RecvFailed? || io[0].text == "" then (buffer, true)
    else ReadAll(buffer + io[0].text, io[1..])
  }

  function Answers(chunks: seq<string>): seq<RecvAnswer> {
    if chunks == [] then [] else [Received(chunks[0])] + Answers(chunks[1..])
  }

  /** Receiving: every text that came, in order; the peer is gone unless there was just nothing more for now. */
  lemma {:induction false} ReadAllIs(buffer: string, chunks: seq<string>, stop: RecvAnswer, rest: seq<RecvAnswer>)
    requires forall i :: 0 <= i < |chunks| ==> chunks[i] != ""
    requires stop.Received? ==> stop.text == ""
    ensures ReadAll(buffer, Answers(chunks) + [stop] + rest) == (buffer + Flatten(chunks), !stop.NothingYet?)
    decreases |chunks|
  {
    var io := Answers(chunks) + [stop] + rest;
    if chunks == [] {
      assert io == [stop] + rest;
      assert buffer + Flatten(chunks) == buffer;
    } else {
      assert io[0] == Received(chunks[0]) && io[1..] == Answers(chunks[1..]) + [stop] + rest;
      ReadAllIs(buffer + chunks[0], chunks[1..], stop, rest);
      assert (buffer + chunks[0]) + Flatten(chunks[1..]) == buffer + Flatten(chunks);
    }
  }

  /** headers.find(key): names are compared exactly. */
  function Exactly(h: Headers, key: string): Option<string> {
    if key in h then Some(h[key]) else None
  }

  predicate IsWebsocketUpgrade(r: Request) {
    && r.verb == GET
    && (var upgrade := Exactly(r.headers, "Upgrade"); upgrade.Some? && SameName(upgrade.value, "websocket"))
    && Exactly(r.headers, "Sec-WebSocket-Key").Some?
    && Exactly(r.headers, "Sec-WebSocket-Version") == Some("13")
  }

  predicate KeepsAlive(r: Request) {
    var c := GetHeader(r.headers, "Connection");
    c == Some("keep-alive") || c == Some("Keep-Alive")
  }

  /** What becomes of a connection whose response is out. */
  function NextAction(request: Request, isWebsocket: bool): (action: Action)
    ensures action != Write && action != Read
  {
    if KeepsAlive(request) then Wait else if isWebsocket then Upgrade else Close
  }

  lemma SplitAtMoved(w: string, u: string, w0: string, u0: string, moved: nat)
    requires w + u == w0 + u0 && |w| == |w0| + moved && moved <= |u0|
    ensures w == w0 + u0[..moved] && u == u0[moved..]
  {
    var all := w0 + u0;
    assert w == all[..|w|] && u == all[|w|..];
    assert all[..|w0| + moved] == w0 + u0[..moved] && all[|w0| + moved..] == u0[moved..];
  }

  lemma SendUnfolds(head: nat, file: nat, io: seq<WriteResult>, i: nat)
    requires i <= |io|
    ensures head + file == 0 ==> Send(head, file, io[i..]) == Sent(0, Finished)
    ensures head + file > 0 && (i == |io| || io[i].WouldBlock?) ==> Send(head, file, io[i..]) == Sent(0, Blocked)
    ensures head + file > 0 && i < |io| && io[i].Failed? ==> Send(head, file, io[i..]) == Sent(0, Aborted)
    ensures head > 0 && i < |io| && io[i].Moved? ==>
              var n := Min(io[i].count, head);
              var s := Send(head - n, file, io[i + 1..]);
              Send(head, file, io[i..]) == s.(moved := n + s.moved)
    ensures head == 0 && file > 0 && i < |io| && io[i].Moved? ==>
              var n := Min(io[i].count, file);
              var s := Send(0, file - n, io[i + 1..]);
              Send(head, file, io[i..]) == s.(moved := n + s.moved)
  {
  }

  lemma AfterIs(head: nat, file: nat, headLeft: nat, fileLeft: nat)
    requires headLeft <= head && fileLeft <= file && (headLeft == 0 || fileLeft == file)
    ensures var moved := head + file - headLeft - fileLeft;
            HeadAfter(head, moved) == headLeft && FileAfter(head, file, moved) == fileLeft
  {
  }

  lemma MovedOn(w: string, u: string, moved: nat, w0: string, u0: string, all: nat)
    requires w + u == w0 + u0 && |w| + moved == |w0| + all && moved <= |u| && all <= |u0|
    ensures w + u[..moved] == w0 + u0[..all]
  {
    assert (w + u)[..|w| + moved] == w + u[..moved];
    assert (w0 + u0)[..|w0| + all] == w0 + u0[..all];
  }

  lemma StillConserved(w: string, u: string, moved: nat)
    requires moved <= |u|
    ensures (w + u[..moved]) + u[moved..] == w + u
  {
  }

  lemma DeliverUnfolds(head: nat, file: nat, calls: seq<seq<WriteResult>>, i: nat)
    requires i <= |calls|
    ensures i == |calls| ==> Deliver(head, file, calls[i..]) == Sent(0, Blocked)
    ensures i < |calls| ==>
              var s := Send(head, file, calls[i]);
              Deliver(head, file, calls[i..]) ==
              if !s.ending.Blocked? then s
              else
                var later := Deliver(HeadAfter(head, s.moved), FileAfter(head, file, s.moved), calls[i + 1..]);
                later.(moved := s.moved + later.moved)
  {
    if i < |calls| {
      assert calls[i..][1..] == calls[i + 1..];
    }
  }

  lemma ErrorsServeThemselves(r: Response, answer: FileAnswer)
    requires r.filePath != "" && !answer.Opened?
    ensures ResponseBytes(MakeError(if answer.OpenFails? then 404 else 500), answer) == ResponseBytes(r, answer)
  {
  }

  lemma FileText(r: Response, answer: FileAnswer, text: string)
    requires r.filePath != "" && answer.Opened?
    requires var start := StatusLine(r) + HeaderText(r.headers);
             text == if SetsHeader(r.headers, "Content-Length") then start else start + LengthLine(|answer.content|)
    ensures text + CRLF + answer.content == ResponseBytes(r, answer)
  {
  }

  lemma BodyText(r: Response, answer: FileAnswer, text: string)
    requires r.filePath == ""
    requires var start := StatusLine(r) + HeaderText(r.headers);
             text == if r.body == "" || SetsHeader(r.headers, "Content-Length")
               then start else start + LengthLine(|r.body|)
    ensures text + CRLF + r.body == ResponseBytes(r, answer)
  {
  }

  class HttpConnection {
    const parser: HttpParser
    var readBuffer: string
    var writeBuffer: string
    var isWriting: bool
    var fileOpen: bool // a file descriptor is held
    var fileContent: string // of the open file
    var fileOffset: nat
    var fileBytesToSend: nat
    var iovBase: nat // offset into the write buffer
    var iovLen: nat
    var bytesToSend: nat
    var bytesHaveSent: nat
    var isWebsocket: bool
    var wire: string // everything the socket has accepted

    ghost function HeadLeft(): string
      reads this
      requires Valid()
    {
      writeBuffer[iovBase..iovBase + iovLen]
    }

    ghost function FileLeft(): string
      reads this
      requires Valid()
    {
      if fileOpen then fileContent[fileOffset..] else ""
    }

    /** The counters agree with the bytes: what is announced as unsent is exactly what is left of head and file. */
    ghost predicate Valid()
      reads this
    {
      && iovBase + iovLen <= |writeBuffer|
      && (fileOpen ==> isWriting && fileOffset + fileBytesToSend == |fileContent|)
      && bytesToSend == iovLen + (if fileOpen then fileBytesToSend else 0)
    }

    ghost function Unsent(): string
      reads this
      requires Valid()
    {
      HeadLeft() + FileLeft()
    }

    constructor (parser: HttpParser)
      ensures Valid() && Unsent() == "" && !isWriting && wire == "" && readBuffer == "" && this.parser == parser
    {
      this.parser := parser;
      readBuffer, writeBuffer, wire := "", "", "";
      isWriting, fileOpen, isWebsocket := false, false, false;
      fileContent, fileOffset, fileBytesToSend := "", 0, 0;
      iovBase, iovLen, bytesToSend, bytesHaveSent := 0, 0, 0, 0;
    }

    /** Points the writer at a write buffer and, for a file response, at the whole open file. */
    method Load(buffer: string, file: Option<string>)
      requires !fileOpen
      modifies this
      ensures isWriting && Valid() && bytesHaveSent == 0 && fileOpen == file.Some?
      ensures Unsent() == buffer + (if file.Some? then file.value else "")
      ensures |FileLeft()| == if file.Some? then |file.value| else 0
      ensures readBuffer == old(readBuffer) && wire == old(wire) && isWebsocket == old(isWebsocket)
    {
      isWriting := true;
      writeBuffer := buffer;
      iovBase, iovLen := 0, |buffer|;
      bytesToSend, bytesHaveSent := |buffer|, 0;
      if file.Some? {
        fileOpen, fileContent, fileOffset, fileBytesToSend := true, file.value, 0, |file.value|;
        bytesToSend := bytesToSend + |file.value|;
        assert FileLeft() == file.value;
      }
      assert HeadLeft() == buffer && FileLeft() == (if file.Some? then file.value else "");
    }

    /** Serialises a response, with no file left open by an earlier one; afterwards exactly its bytes are due. */
    method PrepareResponse(response: Response, answer: FileAnswer)
      requires !fileOpen
      modifies this
      ensures isWriting && Valid() && Unsent() == ResponseBytes(response, answer) && bytesHaveSent == 0
      ensures fileOpen == (response.filePath != "" && answer.Opened?) && |FileLeft()| == FileSize(response, answer)
      ensures readBuffer == old(readBuffer) && wire == old(wire) && isWebsocket == old(isWebsocket)
      decreases if response.filePath == "" then 0 else 1
    {
      hide MakeError, StatusLine, HeaderText, LengthLine, SetsHeader, ResponseBytes;
      hide HttpConnection.Unsent, HttpConnection.Valid, HttpConnection.FileLeft;
      if response.filePath != "" && !answer.Opened? {
        PrepareResponse(MakeError(if answer.OpenFails? then 404 else 500), answer);
        ErrorsServeThemselves(response, answer);
        return;
      }
      var text := StatusLine(response) + HeaderText(response.headers);
      if response.filePath != "" {
        if !SetsHeader(response.headers, "Content-Length") {
          text := text + LengthLine(|answer.content|);
        }
        FileText(response, answer, text);
        Load(text + CRLF, Some(answer.content));
      } else {
        if response.body != "" && !SetsHeader(response.headers, "Content-Length") {
          text := text + LengthLine(|response.body|);
        }
        BodyText(response, answer, text);
        assert text + CRLF + response.body + "" == text + CRLF + response.body;
        Load(text + CRLF + response.body, None);
      }
    }

    twostate lemma WriterKept()
      requires old(Valid())
      requires unchanged(this`writeBuffer, this`isWriting, this`fileOpen, this`fileContent, this`fileOffset,
        this`fileBytesToSend)
      requires unchanged(this`iovBase, this`iovLen, this`bytesToSend, this`bytesHaveSent, this`isWebsocket, this`wire)
      ensures Valid() && Unsent() == old(Unsent())
    {
    }

    /**
     * One readable event: everything readable is read, then one parse, then perhaps a response; None is an
     * exception. Such an event only comes to a connection that is not sending a file.
     */
    method HandleRead(io: seq<RecvAnswer>, host: Host, response: Response, answer: FileAnswer)
      returns (action: Option<Action>)
      requires Valid() && !fileOpen
      modifies this, parser
      ensures wire == old(wire) && Valid()
      ensures var input := ReadAll(old(readBuffer), io);
        var o := Run(old(parser.View()), input.0, host);
        var parsed := !input.1 && input.0 != "";
        && (input.1 ==> action == Some(Close))
        && (!input.1 && input.0 == "" ==> action == Some(Read))
        && (!parsed ==> readBuffer == input.0 && parser.View() == old(parser.View()))
        && (parsed ==> parser.View() == o.parser && readBuffer == Kept(o, input.0))
        && (parsed ==> action == match Reported(o.verdict)
                                 case IsComplete => Some(Write)
                                 case IsIncomplete => Some(Read)
                                 case IsError => Some(Write)
                                 case Exception => None)
        && (parsed && o.verdict.Complete? ==>
              isWriting && Unsent() == ResponseBytes(response, answer) &&
              isWebsocket == IsWebsocketUpgrade(o.parser.request))
        && (parsed && o.verdict.Error? ==>
              isWriting && Unsent() == ResponseBytes(MakeError(400), answer) && isWebsocket == old(isWebsocket))
      ensures action != Some(Write) ==>
        Unsent() == old(Unsent()) && !fileOpen && isWriting == old(isWriting) && isWebsocket == old(isWebsocket) &&
        bytesHaveSent == old(bytesHaveSent)
    {
      hide Run, ResponseBytes, MakeError, IsWebsocketUpgrade, HttpConnection.Unsent, HttpConnection.Valid;
      var i := 0;
      assert io[0..] == io;
      while i < |io| && !io[i].NothingYet?
        invariant 0 <= i <= |io|
        invariant ReadAll(readBuffer, io[i..]) == ReadAll(old(readBuffer), io)
        invariant unchanged(this`writeBuffer, this`isWriting, this`fileOpen, this`fileContent, this`fileOffset,
          this`fileBytesToSend)
        invariant unchanged(this`iovBase, this`iovLen, this`bytesToSend, this`bytesHaveSent, this`isWebsocket,
          this`wire)
        invariant parser.View() == old(parser.View())
      {
        assert io[i..][1..] == io[i + 1..];
        if io[i].RecvFailed? || io[i].text == "" {
          WriterKept();
          return Some(Close);
        }
        readBuffer := readBuffer + io[i].text;
        i := i + 1;
      }
      WriterKept();
      if readBuffer == "" {
        return Some(Read);
      }
      var result, kept := parser.Parse(readBuffer, host);
      readBuffer := kept;
      WriterKept();
      match result
      case IsComplete =>
        isWebsocket := IsWebsocketUpgrade(parser.request);
        PrepareResponse(response, answer);
        return Some(Write);
      case IsIncomplete =>
        return Some(Read);
      case IsError =>
        PrepareResponse(MakeError(400), answer);
        return Some(Write);
      case Exception =>
        return None;
    }

    method ResetForKeepAlive()
      modifies this, parser
      ensures Valid() && Unsent() == "" && !isWriting && !isWebsocket && !fileOpen && readBuffer == ""
      ensures parser.View() == HttpParsing.Reset(old(parser.View()))
      ensures wire == old(wire)
    {
      parser.Reset();
      readBuffer, writeBuffer, isWriting := "", "", false;
      fileOpen, fileOffset, fileBytesToSend := false, 0, 0;
      iovBase, iovLen, bytesToSend, bytesHaveSent := 0, 0, 0, 0;
      isWebsocket := false;
    }

    lemma Lengths()
      requires Valid()
      ensures |HeadLeft()| == iovLen && |FileLeft()| == if fileOpen then fileBytesToSend else 0
      ensures |Unsent()| == bytesToSend == |HeadLeft()| + |FileLeft()|
    {
    }

    /** The socket took n bytes of the head; when that was the last of a text response, only the length is cleared. */
    method PushHead(n: nat)
      requires Valid() && n <= iovLen
      modifies this`wire, this`iovBase, this`iovLen, this`bytesToSend, this`bytesHaveSent
      ensures Valid() && wire + Unsent() == old(wire) + old(Unsent()) && |wire| == |old(wire)| + n
      ensures |HeadLeft()| == |old(HeadLeft())| - n && FileLeft() == old(FileLeft())
      ensures bytesToSend == old(bytesToSend) - n && bytesHaveSent == old(bytesHaveSent) + n
    {
      var head := writeBuffer[iovBase..iovBase + iovLen];
      assert HeadLeft() == head;
      ghost var file := FileLeft();
      assert (wire + head[..n]) + (head[n..] + file) == wire + (head + file);
      wire := wire + head[..n];
      bytesToSend, bytesHaveSent := bytesToSend - n, bytesHaveSent + n;
      if fileOpen || n < iovLen {
        iovBase, iovLen := iovBase + n, iovLen - n;
      } else {
        iovLen := 0;
      }
      assert HeadLeft() == head[n..];
    }

    /** sendfile took n bytes of the file. */
    method PushFile(n: nat)
      requires Valid() && fileOpen && iovLen == 0 && n <= fileBytesToSend
      modifies this`wire, this`fileOffset, this`fileBytesToSend, this`bytesToSend, this`bytesHaveSent
      ensures Valid() && wire + Unsent() == old(wire) + old(Unsent()) && |wire| == |old(wire)| + n
      ensures HeadLeft() == old(HeadLeft()) && |FileLeft()| == |old(FileLeft())| - n
      ensures bytesToSend == old(bytesToSend) - n && bytesHaveSent == old(bytesHaveSent) + n
    {
      ghost var file := FileLeft();
      var part := fileContent[fileOffset..fileOffset + n];
      assert part == file[..n];
      assert HeadLeft() == "";
      assert (wire + file[..n]) + ("" + file[n..]) == wire + ("" + file);
      wire := wire + part;
      fileOffset, fileBytesToSend := fileOffset + n, fileBytesToSend - n;
      bytesToSend, bytesHaveSent := bytesToSend - n, bytesHaveSent + n;
      assert FileLeft() == file[n..];
    }

    /** One system call that moved at most count bytes: of the head while there is any left, then of the file. */
    method Push(count: nat)
      requires Valid() && bytesToSend > 0
      modifies this`wire, this`iovBase, this`iovLen, this`fileOffset, this`fileBytesToSend, this`bytesToSend,
        this`bytesHaveSent
      ensures Valid() && wire + Unsent() == old(wire) + old(Unsent())
      ensures var h, f := |old(HeadLeft())|, |old(FileLeft())|;
        var n := if h > 0 then Min(count, h) else Min(count, f);
        && |wire| == |old(wire)| + n
        && |HeadLeft()| == (if h > 0 then h - n else 0) && |FileLeft()| == (if h > 0 then f else f - n)
        && bytesToSend == old(bytesToSend) - n == |HeadLeft()| + |FileLeft()|
        && bytesHaveSent == old(bytesHaveSent) + n
    {
      hide HttpConnection.HeadLeft, HttpConnection.FileLeft, HttpConnection.Unsent;
      Lengths();
      if fileOpen && iovLen == 0 {
        PushFile(Min(count, fileBytesToSend));
      } else {
        PushHead(Min(count, iovLen));
      }
    }

    /** The loop of system calls: it stops when nothing is left, or at the first call that would block or fails. */
    method SendLoop(io: seq<WriteResult>) returns (ending: Ending)
      requires Valid()
      modifies this`wire, this`iovBase, this`iovLen, this`fileOffset, this`fileBytesToSend, this`bytesToSend,
        this`bytesHaveSent
      ensures var s := Send(|old(HeadLeft())|, |old(FileLeft())|, io);
        && ending == s.ending && Valid()
        && wire == old(wire) + old(Unsent())[..s.moved] && Unsent() == old(Unsent())[s.moved..]
        && |HeadLeft()| == HeadAfter(|old(HeadLeft())|, s.moved)
        && |FileLeft()| == FileAfter(|old(HeadLeft())|, |old(FileLeft())|, s.moved)
      ensures bytesToSend + bytesHaveSent == old(bytesToSend + bytesHaveSent) && bytesToSend == |Unsent()|
      ensures ending.Finished? ==> wire == old(wire) + old(Unsent()) && bytesToSend == 0
    {
      hide Send, HeadAfter, FileAfter;
      hide HttpConnection.HeadLeft, HttpConnection.FileLeft, HttpConnection.Unsent, HttpConnection.Valid;
      Lengths();
      ghost var head, file := |HeadLeft()|, |FileLeft()|;
      ghost var all := Send(head, file, io);
      var i := 0;
      assert io[0..] == io;
      while bytesToSend > 0
        invariant 0 <= i <= |io| && Valid()
        invariant wire + Unsent() == old(wire) + old(Unsent())
        invariant bytesToSend + bytesHaveSent == old(bytesToSend + bytesHaveSent)
        invariant var rest := Send(|HeadLeft()|, |FileLeft()|, io[i..]);
          |wire| + rest.moved == |old(wire)| + all.moved && rest.ending == all.ending
        invariant |HeadLeft()| <= head && |FileLeft()| <= file && (|HeadLeft()| == 0 || |FileLeft()| == file)
        invariant bytesToSend == |HeadLeft()| + |FileLeft()|
        decreases |io| - i
      {
        SendUnfolds(|HeadLeft()|, |FileLeft()|, io, i);
        if i == |io| || io[i].WouldBlock? || io[i].Failed? {
          break;
        }
        Push(io[i].count);
        i := i + 1;
      }
      SendUnfolds(|HeadLeft()|, |FileLeft()|, io, i);
      Lengths();
      SplitAtMoved(wire, Unsent(), old(wire), old(Unsent()), all.moved);
      AfterIs(head, file, |HeadLeft()|, |FileLeft()|);
      return if bytesToSend == 0 then Finished else if i < |io| && io[i].Failed? then Aborted else Blocked;
    }

    /** The response is out: keep the connection, hand it to the WebSocket side, or close it. */
    method Finish() returns (action: Action)
      requires Valid() && bytesToSend == 0
      modifies this, parser
      ensures action == NextAction(old(parser.request), old(isWebsocket))
      ensures Valid() && Unsent() == "" && !fileOpen && !isWebsocket && wire == old(wire)
      ensures action == Wait ==>
        !isWriting && readBuffer == "" && parser.View() == HttpParsing.Reset(old(parser.View()))
      ensures action != Wait ==> readBuffer == old(readBuffer) && parser.View() == old(parser.View())
    {
      hide KeepsAlive;
      fileOpen := false;
      if KeepsAlive(parser.request) {
        ResetForKeepAlive();
        return Wait;
      } else if isWebsocket {
        isWebsocket := false;
        return Upgrade;
      } else {
        return Close;
      }
    }

    /**
     * One writable event. The bytes sent are always a prefix of what was due, sent and unsent together
     * stay the same, and the connection only goes on to its next state when nothing is left.
     */
    method HandleWrite(io: seq<WriteResult>) returns (action: Action)
      requires Valid()
      modifies this, parser
      ensures !old(isWriting) ==>
        action == Read && wire == old(wire) && Valid() && Unsent() == old(Unsent()) && !fileOpen
      ensures old(isWriting) ==>
        var s := Send(|old(HeadLeft())|, |old(FileLeft())|, io);
        && wire == old(wire) + old(Unsent())[..s.moved]
        && (s.ending.Blocked? ==>
              action == Write && Valid() && isWriting && isWebsocket == old(isWebsocket) &&
              Unsent() == old(Unsent())[s.moved..] &&
              |HeadLeft()| == HeadAfter(|old(HeadLeft())|, s.moved) &&
              |FileLeft()| == FileAfter(|old(HeadLeft())|, |old(FileLeft())|, s.moved) &&
              bytesToSend + bytesHaveSent == old(bytesToSend + bytesHaveSent) && bytesToSend == |Unsent()|)
        && (s.ending.Aborted? ==> action == Close && !fileOpen)
        && (s.ending.Finished? ==>
              wire == old(wire) + old(Unsent()) && !fileOpen &&
              action == NextAction(old(parser.request), old(isWebsocket)) &&
              Valid() && Unsent() == "" && !isWebsocket)
      ensures action == Wait ==>
        !isWriting && readBuffer == "" && parser.View() == HttpParsing.Reset(old(parser.View()))
      ensures action != Wait ==> readBuffer == old(readBuffer) && parser.View() == old(parser.View())
    {
      if !isWriting {
        return Read;
      }
      hide Send, HttpConnection.HeadLeft, HttpConnection.FileLeft, HttpConnection.Unsent, NextAction;
      Lengths();
      var ending := SendLoop(io);
      match ending
      case Blocked =>
        return Write;
      case Aborted =>
        fileOpen := false;
        return Close;
      case Finished =>
        action := Finish();
    }

    /**
     * Writable events one after the other, until the response is done or the schedule ends. What reaches the wire
     * is always the front of what was due.
     */
    method DeliverAll(calls: seq<seq<WriteResult>>) returns (action: Action)
      requires Valid() && isWriting
      modifies this, parser
      ensures var s := Deliver(|old(HeadLeft())|, |old(FileLeft())|, calls);
        && s.moved <= |old(Unsent())|
        && wire == old(wire) + old(Unsent())[..s.moved]
        && (s.ending.Blocked? <==> action == Write)
        && (s.ending.Blocked? ==> Valid() && isWriting && Unsent() == old(Unsent())[s.moved..])
        && (s.ending.Aborted? ==> action == Close)
        && (s.ending.Finished? ==>
              wire == old(wire) + old(Unsent()) && action == NextAction(old(parser.request), old(isWebsocket)))
    {
      hide Deliver, Send, HeadAfter, FileAfter, NextAction;
      hide HttpConnection.HeadLeft, HttpConnection.FileLeft, HttpConnection.Unsent, HttpConnection.Valid;
      Lengths();
      ghost var all := Deliver(|HeadLeft()|, |FileLeft()|, calls);
      DeliveredWhole(|HeadLeft()|, |FileLeft()|, calls);
      var i := 0;
      assert calls[0..] == calls;
      while i < |calls|
        invariant 0 <= i <= |calls| && Valid() && isWriting
        invariant parser.View() == old(parser.View()) && isWebsocket == old(isWebsocket)
        invariant wire + Unsent() == old(wire) + old(Unsent())
        invariant var rest := Deliver(|HeadLeft()|, |FileLeft()|, calls[i..]);
          |wire| + rest.moved == |old(wire)| + all.moved && rest.ending == all.ending
      {
        Lengths();
        DeliverUnfolds(|HeadLeft()|, |FileLeft()|, calls, i);
        ghost var before, due := wire, Unsent();
        ghost var s := Send(|HeadLeft()|, |FileLeft()|, calls[i]);
        action := HandleWrite(calls[i]);
        if action != Write {
          MovedOn(before, due, s.moved, old(wire), old(Unsent()), all.moved);
          return;
        }
        StillConserved(before, due, s.moved);
        i := i + 1;
      }
      DeliverUnfolds(|HeadLeft()|, |FileLeft()|, calls, i);
      SplitAtMoved(wire, Unsent(), old(wire), old(Unsent()), all.moved);
      return Write;
    }

    /**
     * A response from its first byte on: what is sent is the part of its bytes that the schedule moves, all of them
     * when it ends without an error, and only an error cuts it short.
     */
    method Respond(response: Response, answer: FileAnswer, calls: seq<seq<WriteResult>>) returns (action: Action)
      requires !fileOpen
      modifies this, parser
      ensures var bytes, file := ResponseBytes(response, answer), FileSize(response, answer);
        var s := Deliver(|bytes| - file, file, calls);
        && s.moved <= |bytes| && wire == old(wire) + bytes[..s.moved]
        && (s.ending.Finished? ==>
              wire == old(wire) + bytes && action == NextAction(old(parser.request), old(isWebsocket)))
        && (s.ending.Blocked? ==> action == Write && Valid() && wire + Unsent() == old(wire) + bytes)
        && (s.ending.Aborted? ==> action == Close && !NoneFails(calls))
        && (calls != [] && |calls| >= |bytes| && NoneIdle(calls) && NoneFails(calls) ==> s.ending.Finished?)
    {
      hide Deliver, ResponseBytes, NoneIdle, NoneFails, NextAction, HttpConnection.HeadLeft, HttpConnection.FileLeft;
      PrepareResponse(response, answer);
      Lengths();
      ghost var due, head, file := Unsent(), |HeadLeft()|, |FileLeft()|;
      ghost var s := Deliver(head, file, calls);
      action := DeliverAll(calls);
      assert due == due[..s.moved] + due[s.moved..];
      DeliveryAborts(head, file, calls);
      if calls != [] && |calls| >= |due| && NoneIdle(calls) {
        DeliveryEnds(head, file, calls);
      }
    }
  }
}
