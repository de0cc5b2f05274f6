/** Both ends of an exchange as a client sees them: what it asked for, what it reads of the answer, and what follows. */
module HttpClient {
  import opened Bytes
  import opened Io
  import opened HttpText
  import opened HttpRequests
  import opened HttpForm
  import opened HttpParsing
  import opened HttpRoundTrip
  import opened HttpResponses
  import opened HttpConnectionModule

  // ----- the headers of a request on the wire -----

  /** The value of the last header line of exactly this name. */
  function LastValue(hs: seq<(string, string)>, name: string): Option<string> {
    if hs == [] then None
    else if hs[|hs| - 1].0 == name then Some(hs[|hs| - 1].1)
    else LastValue(hs[..|hs| - 1], name)
  }

  lemma {:induction false} AssignLast(before: Headers, hs: seq<(string, string)>, h: (string, string))
    ensures AssignAll(before, hs + [h]) == AssignAll(before, hs)[h.0 := h.1]
    decreases |hs|
  {
    if hs == [] {
      assert (hs + [h])[1..] == [];
    } else {
      assert (hs + [h])[1..] == hs[1..] + [h];
      AssignLast(before[hs[0].0 := hs[0].1], hs[1..], h);
    }
  }

  lemma {:induction false} LastValueIs(hs: seq<(string, string)>, name: string)
    ensures name in HeadersOf(hs) <==> LastValue(hs, name).Some?
    ensures name in HeadersOf(hs) ==> LastValue(hs, name) == Some(HeadersOf(hs)[name])
  {
    if hs != [] {
      var front, last := hs[..|hs| - 1], hs[|hs| - 1];
      assert hs == front + [last];
      AssignLast(map[], front, last);
      LastValueIs(front, name);
    }
  }

  /** The value of the last header line of this name in any spelling. */
  ghost predicate Says(hs: seq<(string, string)>, key: string, value: string) {
    exists name :: SameName(name, key) && LastValue(hs, name) == Some(value)
  }

  /** Among headers without twins, a name in any spelling finds the value that was sent, if any was. */
  lemma HeaderSent(hs: seq<(string, string)>, key: string)
    requires NoTwins(HeadersOf(hs))
    ensures forall value :: GetHeader(HeadersOf(hs), key) == Some(value) <==> Says(hs, key, value)
  {
    var h := HeadersOf(hs);
    forall value ensures GetHeader(h, key) == Some(value) <==> Says(hs, key, value) {
      if Says(hs, key, value) {
        var name :| SameName(name, key) && LastValue(hs, name) == Some(value);
        LastValueIs(hs, name);
        OnlyHeader(h, key, name);
      }
      if GetHeader(h, key) == Some(value) {
        var name :| name in h && SameName(name, key) && h[name] == value;
        LastValueIs(hs, name);
      }
    }
  }

  /**
   * After an answer without errors the connection is kept if and only if the request said so in one of two
   * spellings; otherwise it is upgraded or closed.
   */
  lemma FinishedAction(p: Parser, m: Message, trailing: string, host: Host, isWebsocket: bool)
    requires p == HttpParsing.Reset(p) && WellFormed(m) && (NeedsAByte(m) ==> trailing != "")
    ensures var request := Run(p, Print(m) + trailing, host).parser.request;
            var action := NextAction(request, isWebsocket);
            && (action == Wait <==>
                Says(m.headers, "Connection", "keep-alive") || Says(m.headers, "Connection", "Keep-Alive"))
            && (action != Wait ==> action == if isWebsocket then Upgrade else Close)
  {
    hide Run, Print, WellFormed, NeedsAByte, Says;
    ParsePrint(p, m, trailing, host);
    NoTwinsIn(m);
    HeaderSent(m.headers, "Connection");
  }

  lemma NoTwinsIn(m: Message)
    requires WellFormed(m)
    ensures NoTwins(HeadersOf(m.headers)) && RequestOf(m).headers == HeadersOf(m.headers) && RequestOf(m).verb == m.verb
  {
  }

  /** A request is an upgrade if and only if it is a GET that carries the three headers, spelled exactly so. */
  lemma UpgradeAsked(p: Parser, m: Message, trailing: string, host: Host)
    requires p == HttpParsing.Reset(p) && WellFormed(m) && (NeedsAByte(m) ==> trailing != "")
    ensures IsWebsocketUpgrade(Run(p, Print(m) + trailing, host).parser.request) <==>
            var upgrade := LastValue(m.headers, "Upgrade");
            && m.verb == GET
            && upgrade.Some? && SameName(upgrade.value, "websocket")
            && LastValue(m.headers, "Sec-WebSocket-Key").Some?
            && LastValue(m.headers, "Sec-WebSocket-Version") == Some("13")
  {
    hide Run, Print, WellFormed, NeedsAByte, SameName;
    ParsePrint(p, m, trailing, host);
    NoTwinsIn(m);
    LastValueIs(m.headers, "Upgrade");
    LastValueIs(m.headers, "Sec-WebSocket-Key");
    LastValueIs(m.headers, "Sec-WebSocket-Version");
  }

  // ----- the answer -----

  /** What a client reads of an answer. */
  datatype Reply = Reply(version: string, code: nat, text: string, headers: seq<(string, string)>, payload: string)

  /** Header lines up to the empty one, and what is behind it. */
  function ReadFields(s: string): Option<(seq<(string, string)>, string)>
    decreases |s|
  {
    match Find(s, CRLF, 0)
    case None => None
    case Some(i) =>
      if i == 0 then Some(([], s[2..]))
      else
        match HeaderOf(s[..i])
        case None => None
        case Some(h) =>
          match ReadFields(s[i + 2..])
          case None => None
          case Some(later) => Some(([h] + later.0, later.1))
  }

  /** Section 4 of RFC 9112: version, space, three or more digits, space, text; then the fields and the payload. */
  function ReadReply(s: string): Option<Reply> {
    match Find(s, CRLF, 0)
    case None => None
    case Some(end) =>
      var line := s[..end];
      match Find(line, " ", 0)
      case None => None
      case Some(a) =>
        match Find(line, " ", a + 1)
        case None => None
        case Some(b) =>
          match ReadFields(s[end + 2..])
          case None => None
          case Some(rest) => Some(Reply(line[..a], Digits(line[a + 1..b], 0), line[b + 1..], rest.0, rest.1))
  }

  ghost predicate PlainFields(hs: seq<(string, string)>) { forall h :: h in hs ==> PlainHeader(h) }

  lemma {:induction false} FieldsRead(hs: seq<(string, string)>, payload: string)
    requires PlainFields(hs)
    ensures ReadFields(HeaderText(hs) + CRLF + payload) == Some((hs, payload))
    decreases |hs|
  {
    hide Find, HeaderOf, PlainHeader, OneLine;
    NoReturnIsOneLine("");
    if hs == [] {
      assert HeaderText(hs) + CRLF + payload == "" + CRLF + payload;
      LineIs("", payload);
    } else {
      var line, rest := HeaderLineOf(hs[0]), HeaderText(hs[1..]) + CRLF + payload;
      assert HeaderText(hs) + CRLF + payload == line + CRLF + rest;
      HeaderLineParses(hs[0]);
      LineIs(line, rest);
      FieldsRead(hs[1..], payload);
      assert hs == [hs[0]] + hs[1..];
    }
  }

  lemma StatusRead(code: nat, text: string, rest: string)
    requires OneLine(text) && ReadFields(rest).Some?
    ensures var fields := ReadFields(rest).value;
            ReadReply("HTTP/1.1 " + Decimal(code) + " " + text + CRLF + rest) ==
            Some(Reply("HTTP/1.1", code, text, fields.0, fields.1))
  {
    hide Find, Decimal, ReadFields, OneLine;
    var digits := Decimal(code);
    var line := "HTTP/1.1 " + digits + " " + text;
    StatusIsOneLine(code, text);
    LineIs(line, rest);
    assert line == "HTTP/1.1" + " " + (digits + " " + text);
    FindChar("HTTP/1.1", ' ', digits + " " + text);
    assert line[9..] == digits + " " + text;
    FindChar(digits, ' ', text);
    FindShift(line, " ", 9, 0);
    assert line[..8] == "HTTP/1.1" && line[9..9 + |digits|] == digits && line[9 + |digits| + 1..] == text;
    DigitsOfDecimal(code);
  }

  lemma StatusIsOneLine(code: nat, text: string)
    requires OneLine(text)
    ensures OneLine("HTTP/1.1 " + Decimal(code) + " " + text)
  {
    hide Find, Decimal;
    var front := "HTTP/1.1 " + Decimal(code) + " ";
    var line := front + text;
    assert '\r' !in front;
    forall i: nat ensures !At(line, CRLF, i) {
      if i + 2 <= |line| {
        assert line[i..i + 2][0] == line[i];
        if i < |front| {
          assert line[i] == front[i];
        } else {
          NoneAt(text, CRLF, i - |front|);
          assert line[i..i + 2] == text[i - |front|..i - |front| + 2];
        }
      }
    }
  }

  /** The headers that are sent: those that were set, and the length behind them if it was not. */
  function SentHeaders(r: Response, answer: FileAnswer): seq<(string, string)> {
    var s, n := Served(r, answer), |Payload(r, answer)|;
    if (s.filePath != "" || n > 0) && !SetsHeader(s.headers, "Content-Length") then
      s.headers + [("Content-Length", Decimal(n))]
    else s.headers
  }

  /** A client reads the answer as version, code, text, headers and payload that it was made of. */
  lemma ReplyRead(r: Response, answer: FileAnswer)
    requires OneLine(Served(r, answer).statusText) && PlainFields(Served(r, answer).headers)
    ensures var s := Served(r, answer);
            ReadReply(ResponseBytes(r, answer)) ==
            Some(Reply("HTTP/1.1", s.statusCode, s.statusText, SentHeaders(r, answer), Payload(r, answer)))
  {
    hide Find, Decimal, OneLine, ReadReply, ReadFields, PlainHeader, HeaderText, MakeError, SetsHeader;
    var s, payload := Served(r, answer), Payload(r, answer);
    var n := |payload|;
    var length := ("Content-Length", Decimal(n));
    LengthIsPlain(n);
    HeaderTextAppend(s.headers, [length]);
    OneHeaderText(length);
    var fields := SentHeaders(r, answer);
    assert PlainFields(fields);
    FieldsRead(fields, payload);
    var rest := HeaderText(fields) + CRLF + payload;
    assert ResponseBytes(r, answer) == "HTTP/1.1 " + Decimal(s.statusCode) + " " + s.statusText + CRLF + rest;
    StatusRead(s.statusCode, s.statusText, rest);
  }

  lemma OneHeaderText(h: (string, string))
    ensures HeaderText([h]) == h.0 + ": " + h.1 + CRLF
  {
    assert [h][1..] == [];
  }

  lemma LengthIsPlain(n: nat)
    ensures PlainHeader(("Content-Length", Decimal(n)))
  {
    hide Decimal;
    StoulOfDecimal(n);
    NoReturnIsOneLine("Content-Length");
    NoReturnIsOneLine(Decimal(n));
  }

  function PageHeaders(n: nat): seq<(string, string)> {
    [("Content-Length", Decimal(n)), ("Content-Type", "text/html; charset=utf-8"), ("Connection", "close")]
  }

  /** Section 15 of RFC 9110, but for 500, which the server words in its own way. */
  function ReasonOf(code: nat): string
    requires code == 400 || code == 403 || code == 404 || code == 500
  {
    if code == 400 then "Bad Request" else if code == 403 then "Forbidden"
    else if code == 404 then "Not Found" else "Internal Error"
  }

  /** What a client reads of an error page: the code, the length of the page itself, and that the connection ends. */
  lemma ErrorReply(code: nat)
    requires code == 400 || code == 403 || code == 404 || code == 500
    ensures var reply := ReadReply(ResponseBytes(MakeError(code), OpenFails));
            && reply.Some? && reply.value.code == code && reply.value.text == ReasonOf(code)
            && reply.value.payload != ""
            && reply.value.headers == PageHeaders(|reply.value.payload|)
  {
    hide Find, Decimal, OneLine, ReadReply, PlainHeader, MakeError, ErrorText, PageHeaders, ResponseBytes, SetsHeader;
    hide ReasonOf;
    var page := ErrorText(code).1;
    ErrorHeaders(code);
    ErrorTextIsOneLine(code);
    ErrorTextIsReason(code);
    PageHeadersArePlain(|page|);
    ReplyRead(MakeError(code), OpenFails);
  }

  lemma ErrorTextIsReason(code: nat)
    requires code == 400 || code == 403 || code == 404 || code == 500
    ensures ErrorText(code).0 == ReasonOf(code)
  {
  }

  lemma ErrorTextIsOneLine(code: nat)
    ensures OneLine(ErrorText(code).0) && ErrorText(code).1 != ""
  {
    hide Find, OneLine;
    NoReturnIsOneLine("Bad Request");
    NoReturnIsOneLine("Forbidden");
    NoReturnIsOneLine("Not Found");
    NoReturnIsOneLine("Internal Error");
  }

  lemma ErrorHeaders(code: nat)
    ensures MakeError(code).headers == PageHeaders(|ErrorText(code).1|)
    ensures MakeError(code).body == ErrorText(code).1 && MakeError(code).statusText == ErrorText(code).0
    ensures MakeError(code).statusCode == (if code == 400 || code == 403 || code == 404 then code else 500)
    ensures SetsHeader(MakeError(code).headers, "Content-Length")
  {
    hide Decimal, ErrorText, SetsHeader, HttpResponses.Put;
    ErrorsAnnounce(code);
    var length := ("Content-Length", Decimal(|ErrorText(code).1|));
    var kind := ("Content-Type", "text/html; charset=utf-8");
    PutBehind([], length);
    PutBehind([length], kind);
    PutBehind([length, kind], ("Connection", "close"));
    assert [] + [length] == [length];
    assert [length] + [kind] == [length, kind];
  }

  lemma {:induction false} PutBehind(h: HeaderList, added: (string, string))
    requires forall x :: x in h ==> x.0 != added.0
    ensures HttpResponses.Put(h, added.0, added.1) == h + [added]
  {
    if h != [] {
      PutBehind(h[1..], added);
      assert h + [added] == [h[0]] + (h[1..] + [added]);
    }
  }

  lemma LiteralIsPlain(name: string, value: string)
    requires '\r' !in name && ':' !in name && '\r' !in value && Trimmed(name) && Trimmed(value)
    ensures PlainHeader((name, value))
  {
    hide Find;
    NoReturnIsOneLine(name);
    NoReturnIsOneLine(value);
  }

  lemma PageHeadersArePlain(n: nat)
    ensures PlainFields(PageHeaders(n))
  {
    hide Decimal, PlainHeader;
    LengthIsPlain(n);
    LiteralIsPlain("Content-Type", "text/html; charset=utf-8");
    LiteralIsPlain("Connection", "close");
  }

  /**
   * A file that cannot be opened is answered with 404, one that cannot be examined with 500, and one that can with
   * its bytes.
   */
  lemma FileReply(r: Response, answer: FileAnswer)
    requires r.filePath != ""
    ensures answer.OpenFails? ==> Served(r, answer) == MakeError(404) && Payload(r, answer) == MakeError(404).body
    ensures answer.StatFails? ==> Served(r, answer) == MakeError(500) && Payload(r, answer) == MakeError(500).body
    ensures answer.Opened? ==> Served(r, answer) == r && Payload(r, answer) == answer.content
  {
  }
}
