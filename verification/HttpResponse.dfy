/** Responses as bytes, and the schedule of partial writes that delivers them. */
module HttpResponses {
  import opened Bytes
  import opened Io
  import opened HttpText

  /** Headers in the order in which they are printed. */
  type HeaderList = seq<(string, string)>

  datatype Response = Response(
    statusCode: nat, statusText: string, headers: HeaderList, body: string, filePath: string)

  /** headers[key] = value. */
  function Put(h: HeaderList, key: string, value: string): HeaderList {
    if h == [] then [(key, value)]
    else if h[0].0 == key then [(key, value)] + h[1..]
    else [h[0]] + Put(h[1..], key, value)
  }

  function WithBody(r: Response, body: string): Response {
    r.(body := body, headers := Put(r.headers, "Content-Length", Decimal(|body|)))
  }

  function ErrorText(code: nat): (string, string) {
    if code == 400 then
      ("Bad Request", "Your request has bad syntax or is inherently impossible to satisfy.\n")
    else if code == 403 then
      ("Forbidden", "You do not have permission to get file from this server.\n")
    else if code == 404 then
      ("Not Found", "The requested file was not found on this server.\n")
    else
      ("Internal Error", "There was an unusual problem serving the requested file.\n")
  }

  function MakeError(code: nat): (r: Response)
    ensures r.filePath == ""
  {
    var known := code == 400 || code == 403 || code == 404;
    var r := WithBody(Response(if known then code else 500, ErrorText(code).0, [], "", ""), ErrorText(code).1);
    r.(headers := Put(Put(r.headers, "Content-Type", "text/html; charset=utf-8"), "Connection", "close"))
  }

  /** What the host says about the file of a response. */
  datatype FileAnswer = OpenFails | StatFails | Opened(content: string)

  predicate SetsHeader(h: HeaderList, key: string) {
    h != [] && (h[0].0 == key || SetsHeader(h[1..], key))
  }

  function HeaderText(h: HeaderList): string {
    if h == [] then "" else h[0].0 + ": " + h[0].1 + CRLF + HeaderText(h[1..])
  }

  function StatusLine(r: Response): string {
    "HTTP/1.1 " + Decimal(r.statusCode) + " " + r.statusText + CRLF
  }

  function LengthLine(n: nat): string { "Content-Length: " + Decimal(n) + CRLF }

  /** The response that is really sent: a file that cannot be served turns into an error page. */
  function Served(r: Response, answer: FileAnswer): Response {
    if r.filePath == "" || answer.Opened? then r
    else MakeError(if answer.OpenFails? then 404 else 500)
  }

  function Payload(r: Response, answer: FileAnswer): string {
    if r.filePath != "" && answer.Opened? then answer.content else Served(r, answer).body
  }

  /** Everything up to and including the empty line. */
  function Head(r: Response, answer: FileAnswer): string {
    var s := Served(r, answer);
    var n := |Payload(r, answer)|;
    var announce := (s.filePath != "" || n > 0) && !SetsHeader(s.headers, "Content-Length");
    StatusLine(s) + HeaderText(s.headers) + (if announce then LengthLine(n) else "") + CRLF
  }

  function ResponseBytes(r: Response, answer: FileAnswer): string { Head(r, answer) + Payload(r, answer) }

  /** How many of the bytes at the end come from a file. */
  function FileSize(r: Response, answer: FileAnswer): (n: nat)
    ensures n <= |ResponseBytes(r, answer)|
  {
    if r.filePath != "" && answer.Opened? then |answer.content| else 0
  }

  lemma {:induction false} PutSets(h: HeaderList, key: string, value: string, other: string)
    ensures SetsHeader(Put(h, key, value), other) <==> other == key || SetsHeader(h, other)
  {
    if h != [] && h[0].0 != key {
      PutSets(h[1..], key, value, other);
    }
  }

  lemma {:induction false} HeaderTextAppend(h: HeaderList, more: HeaderList)
    ensures HeaderText(h + more) == HeaderText(h) + HeaderText(more)
  {
    if h == [] {
      assert h + more == more;
    } else {
      assert (h + more)[1..] == h[1..] + more;
      HeaderTextAppend(h[1..], more);
    }
  }

  /** A header the response does not set is announced in the head exactly as if it had been set last. */
  lemma LengthIsAnnounced(r: Response, answer: FileAnswer)
    requires !SetsHeader(Served(r, answer).headers, "Content-Length") && (r.filePath != "" || r.body != "")
    ensures var s, n := Served(r, answer), |Payload(r, answer)|;
            Head(r, answer) == StatusLine(s) + HeaderText(s.headers + [("Content-Length", Decimal(n))]) + CRLF
  {
    var s, n := Served(r, answer), |Payload(r, answer)|;
    HeaderTextAppend(s.headers, [("Content-Length", Decimal(n))]);
    var one := [("Content-Length", Decimal(n))];
    assert one[1..] == [];
    assert HeaderText(one) == LengthLine(n);
    ErrorsAnnounce(404);
    ErrorsAnnounce(500);
    assert StatusLine(s) + HeaderText(s.headers) + LengthLine(n) ==
      StatusLine(s) + (HeaderText(s.headers) + LengthLine(n));
  }

  /** An error page announces the length of its text. */
  lemma ErrorsAnnounce(code: nat)
    ensures SetsHeader(MakeError(code).headers, "Content-Length")
    ensures MakeError(code).body != ""
  {
    var h := Put([], "Content-Length", Decimal(|ErrorText(code).1|));
    PutSets([], "Content-Length", Decimal(|ErrorText(code).1|), "Content-Length");
    PutSets(h, "Content-Type", "text/html; charset=utf-8", "Content-Length");
    PutSets(Put(h, "Content-Type", "text/html; charset=utf-8"), "Connection", "close", "Content-Length");
  }

  // ----- schedules of partial writes -----

  datatype Ending = Finished | Blocked | Aborted

  datatype Sent = Sent(moved: nat, ending: Ending)

  /** One call of the writer: the head goes out before the file, each system call moves part of one of them. */
  function Send(head: nat, file: nat, io: seq<WriteResult>): (s: Sent)
    ensures s.moved <= head + file
    ensures s.ending.Finished? ==> s.moved == head + file
    decreases |io|
  {
    if head + file == 0 then Sent(0, Finished)
    else if io == [] || io[0].WouldBlock? then Sent(0, Blocked)
    else if io[0].Failed? then Sent(0, Aborted)
    else
      var n := if head > 0 then Min(io[0].count, head) else Min(io[0].count, file);
      var s := if head > 0 then Send(head - n, file, io[1..]) else Send(0, file - n, io[1..]);
      s.(moved := n + s.moved)
  }

  function HeadAfter(head: nat, moved: nat): nat { if moved <= head then head - moved else 0 }

  function FileAfter(head: nat, file: nat, moved: nat): nat
    requires moved <= head + file
  {
    if moved <= head then file else file - (moved - head)
  }

  /** Calls of the writer, one for each time the socket became writable, until the response is done. */
  function Deliver(head: nat, file: nat, calls: seq<seq<WriteResult>>): (s: Sent)
    decreases |calls|
  {
    if calls == [] then Sent(0, Blocked)
    else
      var s := Send(head, file, calls[0]);
      if !s.ending.Blocked? then s
      else
        var later := Deliver(HeadAfter(head, s.moved), FileAfter(head, file, s.moved), calls[1..]);
        later.(moved := s.moved + later.moved)
  }

  lemma SendOne(head: nat, file: nat, count: nat, io: seq<WriteResult>)
    ensures count <= head ==>
              var s := Send(head - count, file, io);
              Send(head, file, [Moved(count)] + io) == s.(moved := count + s.moved)
    ensures head == 0 && count <= file ==>
              var s := Send(0, file - count, io);
              Send(head, file, [Moved(count)] + io) == s.(moved := count + s.moved)
  {
    assert ([Moved(count)] + io)[1..] == io;
  }

  lemma SendStops(head: nat, file: nat, stop: WriteResult, rest: seq<WriteResult>)
    requires !stop.Moved?
    ensures Send(head, file, [stop] + rest) ==
            Sent(0, if head + file == 0 then Finished else if stop.WouldBlock? then Blocked else Aborted)
  {
  }

  /**
   * The writer goes on while the socket takes bytes, the head first, and stops at the first call that moves nothing.
   */
  lemma {:induction false} SendMoves(
    head: nat, file: nat, ofHead: seq<nat>, ofFile: seq<nat>, stop: WriteResult, rest: seq<WriteResult>)
    requires Total(ofHead) <= head && Total(ofFile) <= file && (ofFile != [] ==> Total(ofHead) == head)
    requires !stop.Moved?
    ensures var moved := Total(ofHead) + Total(ofFile);
            Send(head, file, Moves(ofHead) + Moves(ofFile) + [stop] + rest) ==
            Sent(moved, if moved == head + file then Finished else if stop.WouldBlock? then Blocked else Aborted)
    decreases |ofHead| + |ofFile|
  {
    hide Send;
    var io := Moves(ofHead) + Moves(ofFile) + [stop] + rest;
    if ofHead != [] {
      var more := Moves(ofHead[1..]) + Moves(ofFile) + [stop] + rest;
      assert io == [Moved(ofHead[0])] + more;
      SendOne(head, file, ofHead[0], more);
      SendMoves(head - ofHead[0], file, ofHead[1..], ofFile, stop, rest);
    } else if ofFile != [] {
      var more := Moves(ofHead) + Moves(ofFile[1..]) + [stop] + rest;
      assert io == [Moved(ofFile[0])] + more;
      SendOne(head, file, ofFile[0], more);
      SendMoves(0, file - ofFile[0], ofHead, ofFile[1..], stop, rest);
    } else {
      assert io == [stop] + rest;
      SendStops(head, file, stop, rest);
    }
  }

  /** Under every schedule the bytes moved are at most the response, and all of it when the writer says it is done. */
  lemma {:induction false} DeliveredWhole(head: nat, file: nat, calls: seq<seq<WriteResult>>)
    ensures var s := Deliver(head, file, calls);
            s.moved <= head + file && (s.ending.Finished? ==> s.moved == head + file)
    decreases |calls|
  {
    if calls != [] {
      var s := Send(head, file, calls[0]);
      if s.ending.Blocked? {
        DeliveredWhole(HeadAfter(head, s.moved), FileAfter(head, file, s.moved), calls[1..]);
      }
    }
  }

  /** One writable event that moves nothing or reports an error. */
  predicate Idle(io: seq<WriteResult>) { io == [] || !io[0].Moved? || io[0].count == 0 }

  predicate NoneIdle(calls: seq<seq<WriteResult>>) { forall io :: io in calls ==> !Idle(io) }

  /** No system call of the schedule reports an error. */
  predicate NoneFails(calls: seq<seq<WriteResult>>) { forall io :: io in calls ==> Failed !in io }

  lemma {:induction false} SendAborts(head: nat, file: nat, io: seq<WriteResult>)
    ensures Send(head, file, io).ending.Aborted? ==> Failed in io
    decreases |io|
  {
    if head + file > 0 && io != [] && io[0].Moved? {
      var n := if head > 0 then Min(io[0].count, head) else Min(io[0].count, file);
      if head > 0 {
        SendAborts(head - n, file, io[1..]);
      } else {
        SendAborts(0, file - n, io[1..]);
      }
    }
  }

  /** Only an error aborts a delivery. */
  lemma {:induction false} DeliveryAborts(head: nat, file: nat, calls: seq<seq<WriteResult>>)
    ensures Deliver(head, file, calls).ending.Aborted? ==> !NoneFails(calls)
    decreases |calls|
  {
    if calls != [] {
      var s := Send(head, file, calls[0]);
      SendAborts(head, file, calls[0]);
      if s.ending.Blocked? {
        DeliveryAborts(HeadAfter(head, s.moved), FileAfter(head, file, s.moved), calls[1..]);
      }
    }
  }

  /**
   * The unsent byte count is a termination measure: that many calls that each move a byte end the response, and
   * without an error they have sent all of it.
   */
  lemma {:induction false} DeliveryEnds(head: nat, file: nat, calls: seq<seq<WriteResult>>)
    requires |calls| >= head + file && |calls| >= 1
    requires NoneIdle(calls)
    ensures !Deliver(head, file, calls).ending.Blocked?
    ensures NoneFails(calls) ==> Deliver(head, file, calls) == Sent(head + file, Finished)
    decreases |calls|
  {
    var s := Send(head, file, calls[0]);
    if s.ending.Blocked? {
      Progress(head, file, calls[0]);
      BlockedHasMore(head, file, calls[0]);
      DeliveryEnds(HeadAfter(head, s.moved), FileAfter(head, file, s.moved), calls[1..]);
    } else {
      SendAborts(head, file, calls[0]);
    }
  }

  lemma Progress(head: nat, file: nat, io: seq<WriteResult>)
    requires head + file > 0 && !Idle(io)
    ensures Send(head, file, io).moved >= 1
  {
  }

  lemma {:induction false} BlockedHasMore(head: nat, file: nat, io: seq<WriteResult>)
    ensures Send(head, file, io).ending.Blocked? ==> Send(head, file, io).moved < head + file
    decreases |io|
  {
    if head + file > 0 && io != [] && io[0].Moved? {
      var n := if head > 0 then Min(io[0].count, head) else Min(io[0].count, file);
      if head > 0 {
        BlockedHasMore(head - n, file, io[1..]);
      } else {
        BlockedHasMore(0, file - n, io[1..]);
      }
    }
  }
}
