/** Parsing undoes printing, and what follows a request is left for the next one. */
module HttpRoundTrip {
  import opened Bytes
  import opened HttpText
  import opened HttpRequests
  import opened HttpForm
  import opened HttpParsing
  import opened HttpResume

  datatype Message = Message(
    verb: HttpMethod, path: string, version: string, headers: seq<(string, string)>, body: string)

  function MethodName(verb: HttpMethod): string {
    match verb
    case GET => "GET"
    case POST => "POST"
    case HEAD => "HEAD"
    case UNKNOWN => "?"
  }

  function RequestLineOf(m: Message): string { MethodName(m.verb) + " " + m.path + " " + m.version }

  function HeaderLineOf(h: (string, string)): string { h.0 + ": " + h.1 }

  function PrintHeaders(hs: seq<(string, string)>): string {
    if hs == [] then "" else HeaderLineOf(hs[0]) + CRLF + PrintHeaders(hs[1..])
  }

  /** Sections 3 and 5 of RFC 9112: request line, header fields, empty line, body. */
  function Print(m: Message): string {
    RequestLineOf(m) + CRLF + PrintHeaders(m.headers) + CRLF + m.body
  }

  ghost predicate PlainHeader(h: (string, string)) {
    && Trimmed(h.0) && Trimmed(h.1) && ':' !in h.0 && OneLine(h.0) && OneLine(h.1)
  }

  ghost function HeadersOf(hs: seq<(string, string)>): Headers { AssignAll(map[], hs) }

  /** No two names differ only in case; which of those decides is up to the program's hash map. */
  ghost predicate PlainHeaders(hs: seq<(string, string)>) {
    (forall h :: h in hs ==> PlainHeader(h)) && NoTwins(HeadersOf(hs))
  }

  /** What a client may send: words without spaces, plain headers, and a body of the declared length. */
  ghost predicate WellFormed(m: Message) {
    var h := HeadersOf(m.headers);
    && m.verb != UNKNOWN
    && m.path != "" && Spaceless(m.path) && m.version != "" && Spaceless(m.version)
    && PlainHeaders(m.headers) && !IsMultipart(h)
    && (if GetHeader(h, "Content-Length").Some? then ContentLength(h) == Some(|m.body|) else m.body == "")
  }

  /** A declared length of zero is only noticed when another byte follows. */
  ghost predicate NeedsAByte(m: Message) {
    GetHeader(HeadersOf(m.headers), "Content-Length").Some? && m.body == ""
  }

  ghost function RequestOf(m: Message): Request {
    var h := HeadersOf(m.headers);
    var isForm := IsForm(h) && GetHeader(h, "Content-Length").Some?;
    Request(m.verb, m.path, m.version, h, m.body, if isForm then FormFields(map[], m.body) else map[], map[])
  }

  /** Every header is recovered, the last one of a name winning, and there are no others. */
  lemma {:induction false} HeadersRecovered(before: Headers, hs: seq<(string, string)>, k: nat, name: string)
    ensures k < |hs| && (forall j :: k < j < |hs| ==> hs[j].0 != hs[k].0) ==>
              hs[k].0 in AssignAll(before, hs) && AssignAll(before, hs)[hs[k].0] == hs[k].1
    ensures (forall j :: 0 <= j < |hs| ==> hs[j].0 != name) ==>
              (name in AssignAll(before, hs) <==> name in before) &&
              (name in before ==> AssignAll(before, hs)[name] == before[name])
    decreases |hs|
  {
    if hs != [] {
      var rest := hs[1..];
      assert forall j :: 0 <= j < |rest| ==> rest[j] == hs[j + 1];
      if k > 0 {
        HeadersRecovered(before[hs[0].0 := hs[0].1], rest, k - 1, name);
      } else {
        HeadersRecovered(before[hs[0].0 := hs[0].1], rest, k, hs[0].0);
        HeadersRecovered(before[hs[0].0 := hs[0].1], rest, k, name);
      }
    }
  }

  lemma WordIsOneLine(s: string)
    requires Spaceless(s)
    ensures '\r' !in s
  {
  }

  lemma RequestLineParses(p: Parser, m: Message)
    requires m.verb != UNKNOWN
    requires m.path != "" && Spaceless(m.path) && m.version != "" && Spaceless(m.version)
    ensures OneLine(RequestLineOf(m))
    ensures ParseRequestLine(p, RequestLineOf(m)) ==
            Some(p.(request := p.request.(verb := m.verb, path := m.path, version := m.version)))
  {
    hide Word, Find, OneLine;
    var name := MethodName(m.verb);
    var line := RequestLineOf(m);
    assert line == name + (" " + m.path + (" " + m.version + ""));
    WordOf(name, " " + m.path + (" " + m.version + ""));
    WordOf(m.path, " " + m.version + "");
    WordOf(m.version, "");
    WordIsOneLine(m.path);
    WordIsOneLine(m.version);
    NoReturnIsOneLine(line);
  }

  lemma {:induction false} TrimmedStays(s: string)
    requires Trimmed(s)
    ensures TrimLeft(s) == s && TrimRight(s) == s && TrimLeft(" " + s) == s
  {
  }

  lemma HeaderLineParses(h: (string, string))
    requires PlainHeader(h)
    ensures HeaderOf(HeaderLineOf(h)) == Some(h)
    ensures OneLine(HeaderLineOf(h)) && HeaderLineOf(h) != ""
  {
    hide Find, OneLine;
    var line := HeaderLineOf(h);
    assert line == h.0 + ":" + (" " + h.1);
    FindChar(h.0, ':', " " + h.1);
    assert line[..|h.0|] == h.0 && line[|h.0| + 1..] == " " + h.1;
    TrimmedStays(h.0);
    TrimmedStays(h.1);
    HeaderIsOneLine(h);
  }

  lemma HeaderIsOneLine(h: (string, string))
    requires OneLine(h.0) && OneLine(h.1)
    ensures OneLine(HeaderLineOf(h))
  {
    hide Find;
    var line := HeaderLineOf(h);
    var n := |h.0|;
    forall i: nat ensures !At(line, CRLF, i) {
      NoneAt(h.0, CRLF, i);
      if i + 2 <= |line| {
        assert line[i..i + 2][0] == line[i] && line[i..i + 2][1] == line[i + 1];
        if i + 2 <= n {
          assert line[i..i + 2] == h.0[i..i + 2];
        } else if i >= n + 2 {
          NoneAt(h.1, CRLF, i - n - 2);
          assert line[i..i + 2] == h.1[i - n - 2..i - n];
        }
      }
    }
  }

  /** The printed header lines are taken one after the other. */
  lemma {:induction false} HeadersParse(p: Parser, hs: seq<(string, string)>, rest: string, host: Host)
    requires p.state.Headers? && forall h :: h in hs ==> PlainHeader(h)
    ensures Run(p, PrintHeaders(hs) + rest, host) ==
            Run(WithHeaders(p, AssignAll(p.request.headers, hs)), rest, host)
    decreases |hs|
  {
    hide Run, PlainHeader, OneLine, HeaderOf, HeaderLineOf;
    if hs == [] {
      assert PrintHeaders(hs) + rest == rest;
    } else {
      var line, more := HeaderLineOf(hs[0]), PrintHeaders(hs[1..]) + rest;
      HeaderLineParses(hs[0]);
      var q := AddHeader(p, hs[0]);
      assert TakeLine(p, line) == (true, q);
      assert PrintHeaders(hs) + rest == line + CRLF + more;
      RunLine(p, line, more, q, host);
      HeadersParse(q, hs[1..], rest, host);
    }
  }

  /** From the empty line on. */
  lemma BodyParses(p: Parser, body: string, rest: string, host: Host)
    requires p.state.Headers? && !IsMultipart(p.request.headers) && p.request.rawBody == ""
    requires var h := p.request.headers;
             if GetHeader(h, "Content-Length").Some? then ContentLength(h) == Some(|body|) && body + rest != ""
             else body == ""
    ensures var q := AddBody(p, body);
            var declared := GetHeader(p.request.headers, "Content-Length").Some?;
            Run(p, CRLF + body + rest, host) ==
            Outcome(Complete, if declared then FinishBody(q) else q.(state := Done), rest)
  {
    hide Run, IsMultipart, GetHeader, FinishBody, Find, OneLine;
    NoReturnIsOneLine("");
    assert CRLF + body + rest == "" + CRLF + (body + rest);
    var q := EndHeaders(p).1;
    assert TakeLine(p, "") == (true, q);
    RunLine(p, "", body + rest, q, host);
    assert p.request.rawBody + body == body;
    if GetHeader(p.request.headers, "Content-Length").Some? {
      RunBody(q, body + rest, host);
      BodyShort(q, body + rest, |body|);
      assert (body + rest)[..|body|] == body && (body + rest)[|body|..] == rest;
      FinishFromBody(p, q, body);
    } else {
      assert body + rest == rest;
    }
  }

  lemma FinishFromBody(p: Parser, q: Parser, body: string)
    requires q == p.(state := Body)
    ensures FinishBody(AddBody(q, body)) == FinishBody(AddBody(p, body))
  {
  }

  lemma RunBody(p: Parser, data: string, host: Host)
    requires p.state.Body? && data != ""
    ensures Run(p, data, host) == TakeBody(p, data)
  {
  }

  lemma HeadersArePlain(hs: seq<(string, string)>)
    requires PlainHeaders(hs)
    ensures HeadersOf(hs) == AssignAll(map[], hs) && forall h :: h in hs ==> PlainHeader(h)
  {
  }

  /** Parsing a printed request recovers all of it and leaves exactly the bytes behind it. */
  lemma ParsePrint(p: Parser, m: Message, trailing: string, host: Host)
    requires p == Reset(p) && WellFormed(m)
    requires NeedsAByte(m) ==> trailing != ""
    ensures Run(p, Print(m) + trailing, host) ==
            Outcome(Complete, p.(state := Done, request := RequestOf(m)), trailing)
  {
    hide Run, IsMultipart, GetHeader, Find, OneLine, ParseRequestLine, Spaceless, PlainHeaders, PlainHeader;
    hide ContentLength, IsForm, FormFields, HeadersOf, NoTwins;
    var line := RequestLineOf(m);
    RequestLineParses(p, m);
    var q := p.(request := p.request.(verb := m.verb, path := m.path, version := m.version), state := Headers);
    var rest := PrintHeaders(m.headers) + (CRLF + m.body + trailing);
    assert Print(m) + trailing == line + CRLF + rest;
    assert TakeLine(p, line) == (true, q);
    RunLine(p, line, rest, q, host);
    HeadersArePlain(m.headers);
    HeadersParse(q, m.headers, CRLF + m.body + trailing, host);
    BodyParses(WithHeaders(q, HeadersOf(m.headers)), m.body, trailing, host);
    assert "" + m.body == m.body;
  }

  /** A declared length of zero with nothing behind it leaves the parser waiting for one more byte. */
  lemma ZeroLengthWaits(p: Parser, m: Message, host: Host)
    requires p == Reset(p) && WellFormed(m) && NeedsAByte(m)
    ensures var o := Run(p, Print(m), host); o.verdict.Starved? && o.parser.state.Body? && o.rest == ""
  {
    hide Run, IsMultipart, GetHeader, Find, OneLine, ParseRequestLine, Spaceless, PlainHeaders, PlainHeader;
    hide ContentLength, HeadersOf, NoTwins;
    var line := RequestLineOf(m);
    RequestLineParses(p, m);
    var q := p.(request := p.request.(verb := m.verb, path := m.path, version := m.version), state := Headers);
    var rest := PrintHeaders(m.headers) + CRLF;
    assert Print(m) == line + CRLF + rest;
    assert TakeLine(p, line) == (true, q);
    RunLine(p, line, rest, q, host);
    HeadersArePlain(m.headers);
    HeadersParse(q, m.headers, CRLF, host);
    var r := WithHeaders(q, HeadersOf(m.headers));
    NoReturnIsOneLine("");
    assert CRLF == "" + CRLF + "";
    assert TakeLine(r, "") == (true, r.(state := Body));
    RunLine(r, "", "", r.(state := Body), host);
    RunNothing(r.(state := Body), host);
  }

  /** Parse, hand over, reset: as often as asked, as long as requests are complete. */
  ghost function ParseMany(p: Parser, buffer: string, n: nat, host: Host): (seq<Request>, string)
    decreases n
  {
    if n == 0 then ([], buffer)
    else
      var o := Run(p, buffer, host);
      if !o.verdict.Complete? then ([], Kept(o, buffer))
      else
        var later := ParseMany(Reset(o.parser), o.rest, n - 1, host);
        ([o.parser.request] + later.0, later.1)
  }

  ghost function PrintMany(ms: seq<Message>): string {
    if ms == [] then "" else Print(ms[0]) + PrintMany(ms[1..])
  }

  ghost function RequestsOf(ms: seq<Message>): seq<Request> {
    if ms == [] then [] else [RequestOf(ms[0])] + RequestsOf(ms[1..])
  }

  /** Concatenated requests come back in order, and what follows the last one is left. */
  lemma {:induction false} Pipelined(p: Parser, ms: seq<Message>, trailing: string, host: Host)
    requires p == Reset(p)
    requires forall m :: m in ms ==> WellFormed(m)
    requires ms != [] && NeedsAByte(ms[|ms| - 1]) ==> trailing != ""
    ensures ParseMany(p, PrintMany(ms) + trailing, |ms|, host) == (RequestsOf(ms), trailing)
    decreases |ms|
  {
    hide Run, WellFormed, NeedsAByte, Print, RequestOf;
    if ms == [] {
      assert "" + trailing == trailing;
    } else {
      var rest := PrintMany(ms[1..]) + trailing;
      assert PrintMany(ms) + trailing == Print(ms[0]) + rest;
      if |ms| > 1 {
        assert ms[1..] != [];
        assert PrintMany(ms[1..]) == Print(ms[1]) + PrintMany(ms[1..][1..]);
        PrintIsSomething(ms[1]);
      }
      ParsePrint(p, ms[0], rest, host);
      ResetAgain(p, RequestOf(ms[0]));
      Pipelined(p, ms[1..], trailing, host);
    }
  }

  lemma PrintIsSomething(m: Message)
    ensures Print(m) != ""
  {
  }

  lemma ResetAgain(p: Parser, r: Request)
    requires p == Reset(p)
    ensures Reset(p.(state := Done, request := r)) == p
  {
  }

  /** The printed length of a body, short of 2^64 bytes, declares it. */
  lemma DeclaredLength(hs: Headers, body: string)
    requires GetHeader(hs, "Content-Length") == Some(Decimal(|body|))
    ensures ContentLength(hs) == Some(|body|) <==> |body| < TWO_TO_THE_64
  {
    StoulOfDecimal(|body|);
  }
}
