/** Feeding the parser in pieces: when repeated calls agree with one call on the whole stream. */
module HttpResume {
  import opened Bytes
  import opened HttpText
  import opened HttpRequests
  import opened HttpParsing

  /**
   * Repeated calls as bytes arrive, each on the kept buffer and the new bytes, until a request is complete or
   * refused.
   */
  function Feed(p: Parser, buffer: string, chunks: seq<string>, host: Host): (ParseResult, Parser, string)
    decreases |chunks|
  {
    if chunks == [] then (IsIncomplete, p, buffer)
    else
      var data := buffer + chunks[0];
      var o := Run(p, data, host);
      if Reported(o.verdict).IsIncomplete? then Feed(o.parser, Kept(o, data), chunks[1..], host)
      else (Reported(o.verdict), o.parser, Kept(o, data) + Flatten(chunks[1..]))
  }

  // ----- one run over appended bytes -----

  lemma {:induction false} InMultipartRun(p: Parser, chunk: string, host: Host)
    requires InMultipart(p)
    ensures var o := RunMultipart(p, chunk, host);
            o.parser.request.headers == p.request.headers && !o.verdict.MidLine? &&
            (if o.verdict.Complete? then o.parser.state.Done? else InMultipart(o.parser))
    decreases |chunk|, if p.state.PartData? then 1 else 0
  {
    hide StartPart, TakePartData, EndPart, DropCrlf, Find;
    if chunk != "" {
      if p.state.BoundarySearch? {
        DropCrlfShortens(chunk);
        var c := DropCrlf(chunk);
        if Find(c, p.boundary, 0).Some? {
          var rest := c[Find(c, p.boundary, 0).value + |p.boundary|..];
          if !StartsWith(rest, "--") && StartsWith(rest, CRLF) {
            InMultipartRun(p.(state := PartHeaders), rest[2..], host);
          }
        }
      } else if p.state.PartHeaders? {
        if Find(chunk, BLANK_LINE, 0).Some? {
          var i := Find(chunk, BLANK_LINE, 0).value;
          StartKeepsHeaders(p, chunk[..i], host);
          if StartPart(p, chunk[..i], host).Part? {
            InMultipartRun(StartPart(p, chunk[..i], host).parser, chunk[i + 4..], host);
          }
        }
      } else {
        DataKeepsHeaders(p, chunk);
        if Find(chunk, CRLF + p.boundary, 0).Some? {
          var i := Find(chunk, CRLF + p.boundary, 0).value;
          DataKeepsHeaders(p, chunk[..i]);
          InMultipartRun(EndPart(TakePartData(p, chunk[..i])), chunk[i..], host);
        }
      }
    }
  }

  lemma DropCrlfShortens(s: string)
    ensures |DropCrlf(s)| <= |s|
  {
  }

  lemma DataKeepsHeaders(p: Parser, data: string)
    requires p.state.PartData?
    ensures var q := TakePartData(p, data);
            q.state.PartData? && q.request.headers == p.request.headers &&
            EndPart(q).state.BoundarySearch? && EndPart(q).request.headers == p.request.headers
  {
  }

  lemma LineKeepsHeaders(p: Parser, contentType: string, line: string, host: Host)
    ensures var o := PartHeaderLine(p, contentType, line, host);
            o.parser.request == p.request && o.parser.state == p.state && o.parser.boundary == p.boundary
  {
    hide Quoted, TempPath, StartsWith;
  }

  lemma {:induction false} LinesKeepHeaders(p: Parser, contentType: string, lines: seq<string>, host: Host)
    ensures var o := PartHeaderLines(p, contentType, lines, host);
            o.parser.request == p.request && o.parser.state == p.state && o.parser.boundary == p.boundary
    decreases |lines|
  {
    hide PartHeaderLine, DropReturn;
    if lines != [] && lines[0] != "" {
      LineKeepsHeaders(p, contentType, DropReturn(lines[0]), host);
      var o := PartHeaderLine(p, contentType, DropReturn(lines[0]), host);
      if o.Part? {
        LinesKeepHeaders(o.parser, o.contentType, lines[1..], host);
      }
    }
  }

  lemma StartKeepsHeaders(p: Parser, block: string, host: Host)
    ensures var o := StartPart(p, block, host);
            o.parser.request == p.request && o.parser.boundary == p.boundary &&
            o.parser.state == if o.Part? then PartData else p.state
  {
    LinesKeepHeaders(p.(file := None, partName := ""), "text/plain", Split(block, '\n'), host);
  }

  /** The first line of a text that holds one, and what follows it. */
  lemma FirstLine(xs: string, ys: string)
    requires Find(xs, CRLF, 0).Some?
    ensures var i := Find(xs, CRLF, 0).value;
            i + 2 <= |xs| && Find(xs + ys, CRLF, 0) == Some(i) &&
            (xs + ys)[..i] == xs[..i] && (xs + ys)[i + 2..] == xs[i + 2..] + ys
  {
    FindExtend(xs, ys, CRLF);
  }

  /** A call that stopped inside a line can be taken up again from there. */
  lemma {:induction false} MidLineAppend(p: Parser, xs: string, ys: string, host: Host)
    requires Run(p, xs, host).verdict.MidLine?
    ensures var o := Run(p, xs, host);
            InLines(p) && InLines(o.parser) && Run(p, xs + ys, host) == Run(o.parser, o.rest + ys, host)
    decreases |xs|
  {
    hide TakeLine, TakeBody, RunMultipart, Find;
    if InMultipart(p) {
      InMultipartRun(p, xs, host);
    }
    BodyIsNoLine(p, xs);
    if Find(xs, CRLF, 0).Some? {
      var i := Find(xs, CRLF, 0).value;
      FirstLine(xs, ys);
      MidLineAppend(TakeLine(p, xs[..i]).1, xs[i + 2..], ys, host);
    }
  }

  lemma BodyIsNoLine(p: Parser, xs: string)
    ensures !TakeBody(p, xs).verdict.MidLine? && !TakeBody(p, xs).verdict.Throws?
  {
  }

  /** Bytes the body still misses, when its length is declared and not yet exceeded. */
  ghost predicate Misses(p: Parser, n: nat) {
    var length := ContentLength(p.request.headers);
    length.Some? && |p.request.rawBody| + n == length.value
  }

  lemma BodyShort(p: Parser, xs: string, n: nat)
    requires Misses(p, n)
    ensures |xs| < n ==> TakeBody(p, xs) == Outcome(Starved, AddBody(p, xs), "") && Misses(AddBody(p, xs), n - |xs|)
    ensures |xs| >= n ==> TakeBody(p, xs) == Outcome(Complete, FinishBody(AddBody(p, xs[..n])), xs[n..])
  {
    assert xs[..|xs|] == xs;
  }

  lemma BodyRefused(p: Parser, xs: string)
    requires forall n :: !Misses(p, n)
    ensures TakeBody(p, xs).verdict.Error?
  {
    var length := ContentLength(p.request.headers);
    if length.Some? && |p.request.rawBody| <= length.value {
      assert Misses(p, length.value - |p.request.rawBody|);
    }
  }

  lemma BodyAppend(p: Parser, xs: string, ys: string, host: Host)
    requires p.state.Body? && xs != ""
    ensures var o := TakeBody(p, xs);
            && (o.verdict.Complete? ==> TakeBody(p, xs + ys) == o.(rest := o.rest + ys))
            && (o.verdict.Error? ==> TakeBody(p, xs + ys).verdict.Error?)
            && (o.verdict.Starved? ==>
                  o.parser.state.Body? && Run(p, xs + ys, host) == Run(o.parser, o.rest + ys, host))
  {
    hide TakeBody, FinishBody, Misses;
    if n: nat :| Misses(p, n) {
      BodyShort(p, xs, n);
      BodyShort(p, xs + ys, n);
      if |xs| >= n {
        assert (xs + ys)[..n] == xs[..n];
        assert (xs + ys)[n..] == xs[n..] + ys;
      } else if ys == "" {
        assert xs + ys == xs && "" + ys == "";
      } else {
        BodyContinues(p, xs, ys, n);
        assert "" + ys == ys;
      }
    } else {
      BodyRefused(p, xs);
      BodyRefused(p, xs + ys);
    }
  }

  lemma BodyContinues(p: Parser, xs: string, ys: string, n: nat)
    requires Misses(p, n) && |xs| < n
    ensures TakeBody(p, xs + ys) == TakeBody(AddBody(p, xs), ys)
  {
    hide TakeBody, FinishBody, Misses;
    BodyShort(p, xs, n);
    BodyShort(p, xs + ys, n);
    BodyShort(AddBody(p, xs), ys, n - |xs|);
    AddBodyTwice(p, xs, ys);
    if |xs + ys| >= n {
      assert (xs + ys)[..n] == xs + ys[..n - |xs|];
      AddBodyTwice(p, xs, ys[..n - |xs|]);
      assert (xs + ys)[n..] == ys[n - |xs|..];
    }
  }

  lemma AddBodyTwice(p: Parser, xs: string, ys: string)
    ensures AddBody(AddBody(p, xs), ys) == AddBody(p, xs + ys)
  {
  }

  /** A request that is no multipart form is read the same however its bytes are cut into two runs. */
  lemma {:induction false} RunAppend(p: Parser, xs: string, ys: string, host: Host)
    requires !InMultipart(p)
    requires var whole := Run(p, xs + ys, host).parser; InLines(whole) || !IsMultipart(whole.request.headers)
    ensures var o := Run(p, xs, host);
            && !o.verdict.Throws?
            && (o.verdict.Complete? ==> Run(p, xs + ys, host) == o.(rest := o.rest + ys))
            && (o.verdict.Error? ==> Run(p, xs + ys, host).verdict.Error?)
            && ((o.verdict.Starved? || o.verdict.MidLine?) ==>
                  !InMultipart(o.parser) && Run(p, xs + ys, host) == Run(o.parser, o.rest + ys, host))
    decreases |xs|
  {
    hide TakeLine, TakeBody, RunMultipart, Find, IsMultipart;
    if xs == "" {
      assert xs + ys == ys;
    } else if InLines(p) {
      if Find(xs, CRLF, 0).Some? {
        var i := Find(xs, CRLF, 0).value;
        FirstLine(xs, ys);
        var taken := TakeLine(p, xs[..i]);
        if taken.0 && !taken.1.state.Done? {
          if InMultipart(taken.1) {
            IntoMultipart(p, xs[..i]);
            var rest := xs[i + 2..] + ys;
            if rest != "" {
              InMultipartRun(taken.1, rest, host);
            }
          } else {
            RunAppend(taken.1, xs[i + 2..], ys, host);
          }
        }
      }
    } else if p.state.Body? {
      BodyAppend(p, xs, ys, host);
      BodyIsNoLine(p, xs);
    }
  }

  lemma IntoMultipart(p: Parser, line: string)
    requires InLines(p) && InMultipart(TakeLine(p, line).1)
    ensures IsMultipart(TakeLine(p, line).1.request.headers)
  {
  }

  // ----- header lines read twice -----

  /** The assignments that the header lines at the front of a text make together. */
  function TakenHeaders(data: string): Headers
    decreases |data|
  {
    match Find(data, CRLF, 0)
    case None => map[]
    case Some(i) =>
      match HeaderOf(data[..i])
      case None => map[]
      case Some(h) => map[h.0 := h.1] + TakenHeaders(data[i + 2..])
  }

  function WithHeaders(p: Parser, h: Headers): Parser { p.(request := p.request.(headers := h)) }

  lemma AssignFirst(h: Headers, header: (string, string), later: Headers)
    ensures h[header.0 := header.1] + later == h + (map[header.0 := header.1] + later)
  {
  }

  /** Whether a text is only header lines and the start of another one does not depend on the headers seen before. */
  lemma {:induction false} MidLineHeaders(p: Parser, h: Headers, data: string, host: Host)
    requires p.state.Headers? && Run(p, data, host).verdict.MidLine?
    ensures var o := Run(p, data, host);
            && o.parser == WithHeaders(p, p.request.headers + TakenHeaders(data))
            && Run(WithHeaders(p, h), data, host) == o.(parser := WithHeaders(p, h + TakenHeaders(data)))
    decreases |data|
  {
    hide HeaderOf, Find, IsMultipart, GetHeader, GetBoundary, RunMultipart, TakeBody;
    match Find(data, CRLF, 0)
    case None =>
      assert p.request.headers + map[] == p.request.headers && h + map[] == h;
    case Some(i) =>
      var line, rest := data[..i], data[i + 2..];
      NotPastHeaders(p, data, host);
      var header := HeaderOf(line).value;
      var q := AddHeader(p, header);
      var k := h[header.0 := header.1];
      assert TakeLine(p, line) == (true, q);
      assert TakeLine(WithHeaders(p, h), line) == (true, WithHeaders(q, k));
      MidLineHeaders(q, k, rest, host);
      AssignFirst(p.request.headers, header, TakenHeaders(rest));
      AssignFirst(h, header, TakenHeaders(rest));
  }

  lemma NotPastHeaders(p: Parser, data: string, host: Host)
    requires p.state.Headers? && Run(p, data, host).verdict.MidLine? && Find(data, CRLF, 0).Some?
    ensures var line := data[..Find(data, CRLF, 0).value]; line != "" && HeaderOf(line).Some?
  {
    hide Find, IsMultipart, GetHeader, GetBoundary, RunMultipart, TakeBody;
    var i := Find(data, CRLF, 0).value;
    if data[..i] == "" {
      var q := EndHeaders(p).1;
      if InMultipart(q) {
        InMultipartRun(q, data[i + 2..], host);
      }
      BodyIsNoLine(q, data[i + 2..]);
    }
  }

  /** Header lines that the buffer kept are read a second time without effect. */
  lemma Replay(p: Parser, data: string, ys: string, host: Host)
    requires p.state.Headers? && Run(p, data, host).verdict.MidLine?
    ensures var o := Run(p, data, host);
            o.parser.state.Headers? && Run(o.parser, data + ys, host) == Run(o.parser, o.rest + ys, host)
  {
    hide Run, TakenHeaders;
    var o := Run(p, data, host);
    var once := p.request.headers + TakenHeaders(data);
    MidLineHeaders(p, once, data, host);
    assert once + TakenHeaders(data) == once;
    assert Run(o.parser, data, host) == o;
    MidLineAppend(o.parser, data, ys, host);
  }

  // ----- feeding in pieces -----

  predicate EndsWithLine(d: string) { |d| >= 2 && d[|d| - 2..] == CRLF }

  /** Some line is complete, the header section is not, and the last line is cut. */
  predicate EndsInsideHeaders(d: string) {
    Find(d, CRLF, 0).Some? && Find(d, BLANK_LINE, 0).None? && !EndsWithLine(d)
  }

  /** Everything received by the call that first sees the end of the request line. */
  function FirstCall(received: string, chunks: seq<string>): string
    decreases |chunks|
  {
    if chunks == [] then received
    else
      var d := received + chunks[0];
      if Find(d, CRLF, 0).Some? then d else FirstCall(d, chunks[1..])
  }

  /** After its first line, a text reaches a blank line exactly when the rest starts with one or reaches one. */
  lemma BlankLineAfter(x: string)
    requires Find(x, CRLF, 0).Some?
    ensures var rest := x[Find(x, CRLF, 0).value + 2..];
            Find(x, BLANK_LINE, 0).None? <==> !StartsWith(rest, CRLF) && Find(rest, BLANK_LINE, 0).None?
  {
    hide Find, StartsWith;
    var i := Find(x, CRLF, 0).value;
    var rest := x[i + 2..];
    if Find(x, BLANK_LINE, 0).Some? {
      var j := Find(x, BLANK_LINE, 0).value;
      BlankLineParts(x);
      BlankFrom(x, i, j);
    } else {
      forall k: nat ensures !At(rest, BLANK_LINE, k) {
        BlankThere(x, i, k);
      }
      BlankThere(x, i, 0);
    }
  }

  lemma BlankFrom(x: string, i: nat, j: nat)
    requires At(x, CRLF, i) && At(x, BLANK_LINE, j) && i <= j
    ensures var rest := x[i + 2..];
            if j == i then StartsWith(rest, CRLF) else j >= i + 2 && At(rest, BLANK_LINE, j - (i + 2))
  {
    var rest := x[i + 2..];
    assert x[i + 1] == x[i..i + 2][1];
    assert x[j] == x[j..j + 4][0];
    if j == i {
      assert rest[..2] == x[j..j + 4][2..];
    } else {
      assert rest[j - (i + 2)..j - (i + 2) + 4] == x[j..j + 4];
    }
  }

  lemma BlankThere(x: string, i: nat, k: nat)
    requires At(x, CRLF, i)
    ensures At(x[i + 2..], BLANK_LINE, k) ==> At(x, BLANK_LINE, i + 2 + k)
    ensures StartsWith(x[i + 2..], CRLF) ==> At(x, BLANK_LINE, i)
  {
    var rest := x[i + 2..];
    if At(rest, BLANK_LINE, k) {
      assert x[i + 2 + k..i + 2 + k + 4] == rest[k..k + 4];
    }
    if StartsWith(rest, CRLF) {
      assert x[i..i + 4] == x[i..i + 2] + rest[..2];
    }
  }

  lemma EndAfter(x: string)
    requires Find(x, CRLF, 0).Some?
    ensures var rest := x[Find(x, CRLF, 0).value + 2..];
            EndsWithLine(x) <==> rest == "" || EndsWithLine(rest)
  {
    hide Find;
    var i := Find(x, CRLF, 0).value;
    var rest := x[i + 2..];
    assert x[i..i + 2] == CRLF;
    if |rest| >= 2 {
      assert x[|x| - 2..] == rest[|rest| - 2..];
    } else if |rest| == 1 {
      assert x[|x| - 2..][0] == x[i..i + 2][1];
    }
  }

  lemma BlankLineParts(x: string)
    ensures Find(x, BLANK_LINE, 0).Some? ==>
              var j := Find(x, BLANK_LINE, 0).value; At(x, CRLF, j) && At(x, CRLF, j + 2)
  {
    if Find(x, BLANK_LINE, 0).Some? {
      var j := Find(x, BLANK_LINE, 0).value;
      assert x[j..j + 2] == x[j..j + 4][..2];
      assert x[j + 2..j + 4] == x[j..j + 4][2..];
    }
  }

  lemma NoLineNoBlank(x: string)
    requires Find(x, CRLF, 0).None?
    ensures Find(x, BLANK_LINE, 0).None? && !EndsWithLine(x) && !StartsWith(x, CRLF)
  {
    BlankLineParts(x);
    if EndsWithLine(x) {
      assert At(x, CRLF, |x| - 2);
    }
  }

  lemma BlankLineFirst(x: string)
    requires Find(x, CRLF, 0).Some?
    ensures x[..Find(x, CRLF, 0).value] == "" <==> StartsWith(x, CRLF)
  {
  }

  lemma TakeBlank(p: Parser)
    requires p.state.Headers?
    ensures TakeLine(p, "") == EndHeaders(p)
    ensures EndHeaders(p).0 ==> !InLines(EndHeaders(p).1)
  {
  }

  lemma NotMidLine(p: Parser, data: string, host: Host)
    requires !InLines(p)
    ensures !Run(p, data, host).verdict.MidLine?
  {
    hide TakeBody, RunMultipart;
    if InMultipart(p) {
      InMultipartRun(p, data, host);
    }
    BodyIsNoLine(p, data);
  }

  /** Inside the header section, a run that is not refused stops inside a line exactly when its text does. */
  lemma {:induction false} MidLineText(p: Parser, x: string, host: Host)
    requires p.state.Headers? && !Run(p, x, host).verdict.Error?
    ensures Run(p, x, host).verdict.MidLine? <==>
            x != "" && !StartsWith(x, CRLF) && Find(x, BLANK_LINE, 0).None? && !EndsWithLine(x)
    decreases |x|
  {
    hide TakeBody, RunMultipart, Find, EndHeaders, StartsWith, EndsWithLine, HeaderOf;
    if Find(x, CRLF, 0).None? {
      NoLineNoBlank(x);
    } else {
      var i := Find(x, CRLF, 0).value;
      BlankLineFirst(x);
      BlankLineAfter(x);
      EndAfter(x);
      if x[..i] == "" {
        TakeBlank(p);
        NotMidLine(EndHeaders(p).1, x[i + 2..], host);
      } else {
        MidLineText(TakeLine(p, x[..i]).1, x[i + 2..], host);
      }
    }
  }

  lemma RequestLineText(p: Parser, line: string)
    requires p.state.RequestLine? && TakeLine(p, line).0
    ensures TakeLine(p, line).1.state.Headers? && line != ""
    ensures TakeLine(p, line).1.request.headers == p.request.headers
  {
  }

  lemma FirstCallText(p: Parser, d: string, host: Host)
    requires p.state.RequestLine? && Find(d, CRLF, 0).Some? && !Run(p, d, host).verdict.Error?
    ensures EndsInsideHeaders(d) <==> Run(p, d, host).verdict.MidLine?
    ensures Run(p, d, host).verdict.MidLine? ==> Run(p, d, host).parser.state.Headers?
    ensures !Run(p, d, host).parser.state.RequestLine?
  {
    hide TakeBody, RunMultipart, Find, TakeLine, StartsWith, EndsWithLine;
    var i := Find(d, CRLF, 0).value;
    var rest := d[i + 2..];
    var q := TakeLine(p, d[..i]).1;
    RequestLineText(p, d[..i]);
    BlankLineAfter(d);
    EndAfter(d);
    MidLineText(q, rest, host);
    StaysPastRequestLine(q, rest, host);
    if Run(q, rest, host).verdict.MidLine? {
      MidLineHeaders(q, map[], rest, host);
    }
    if rest == "" {
      NoLineNoBlank(rest);
    }
  }

  lemma {:induction false} StaysPastRequestLine(p: Parser, x: string, host: Host)
    requires !p.state.RequestLine?
    ensures !Run(p, x, host).parser.state.RequestLine?
    decreases |x|
  {
    hide RunMultipart, Find, TakeLine, TakeBody;
    if x != "" && InLines(p) && Find(x, CRLF, 0).Some? {
      var i := Find(x, CRLF, 0).value;
      LinePastRequestLine(p, x[..i]);
      StaysPastRequestLine(TakeLine(p, x[..i]).1, x[i + 2..], host);
    } else {
      BodyPastRequestLine(p, x);
      if InMultipart(p) {
        InMultipartRun(p, x, host);
      }
    }
  }

  lemma LinePastRequestLine(p: Parser, line: string)
    requires InLines(p) && !p.state.RequestLine?
    ensures !TakeLine(p, line).1.state.RequestLine?
  {
  }

  lemma BodyPastRequestLine(p: Parser, x: string)
    requires !p.state.RequestLine?
    ensures !TakeBody(p, x).parser.state.RequestLine?
  {
  }

  /** The buffer may hold more than the bytes still to be read, as long as reading it again changes nothing. */
  ghost predicate Synced(p: Parser, buffer: string, rest: string, host: Host) {
    forall ys: string :: Run(p, buffer + ys, host) == Run(p, rest + ys, host)
  }

  ghost predicate Settled(p: Parser, buffer: string, rest: string, host: Host) {
    && !InMultipart(p) && !p.state.RequestLine?
    && Synced(p, buffer, rest, host)
    && (Run(p, rest, host).verdict.Starved? || Run(p, rest, host).verdict.MidLine?)
  }

  lemma SettledNext(p: Parser, buffer: string, rest: string, chunk: string, host: Host)
    requires Settled(p, buffer, rest, host)
    requires var o := Run(p, rest + chunk, host); o.verdict.Starved? || o.verdict.MidLine?
    requires !InMultipart(Run(p, rest + chunk, host).parser)
    requires var o := Run(p, rest + chunk, host); Run(p, rest + chunk, host) == Run(o.parser, o.rest, host)
    ensures var o := Run(p, buffer + chunk, host);
            o == Run(p, rest + chunk, host) && Settled(o.parser, Kept(o, buffer + chunk), o.rest, host)
  {
    hide Run;
    var o := Run(p, buffer + chunk, host);
    assert o == Run(p, rest + chunk, host);
    StaysPastRequestLine(p, rest + chunk, host);
    if o.verdict.MidLine? {
      MidLineAppend(p, buffer + chunk, "", host);
      forall ys: string ensures Run(o.parser, (buffer + chunk) + ys, host) == Run(o.parser, o.rest + ys, host) {
        Replay(p, buffer + chunk, ys, host);
      }
    }
  }

  /** Once past the request line, the remaining splits do not matter. */
  lemma {:induction false} FeedSettled(p: Parser, buffer: string, rest: string, chunks: seq<string>, host: Host)
    requires Settled(p, buffer, rest, host)
    requires var whole := Run(p, rest + Flatten(chunks), host);
             whole.verdict.Complete? && !IsMultipart(whole.parser.request.headers)
    ensures var whole := Run(p, rest + Flatten(chunks), host);
            Feed(p, buffer, chunks, host) == (IsComplete, whole.parser, whole.rest)
    decreases |chunks|
  {
    hide Run, Settled, IsMultipart;
    if chunks == [] {
      assert rest + Flatten(chunks) == rest;
      SettledStarved(p, buffer, rest, host);
    } else {
      var c, more := chunks[0], Flatten(chunks[1..]);
      assert rest + Flatten(chunks) == (rest + c) + more;
      SettledState(p, buffer, rest, host);
      RunAppend(p, rest + c, more, host);
      var o := Run(p, rest + c, host);
      SettledSame(p, buffer, rest, c, host);
      if o.verdict.Starved? || o.verdict.MidLine? {
        RunOnce(p, rest + c, host);
        SettledNext(p, buffer, rest, c, host);
        FeedSettled(o.parser, Kept(o, buffer + c), o.rest, chunks[1..], host);
      }
    }
  }

  lemma SettledStarved(p: Parser, buffer: string, rest: string, host: Host)
    requires Settled(p, buffer, rest, host)
    ensures !Run(p, rest, host).verdict.Complete?
  {
  }

  lemma SettledState(p: Parser, buffer: string, rest: string, host: Host)
    requires Settled(p, buffer, rest, host)
    ensures !InMultipart(p)
  {
  }

  lemma SettledSame(p: Parser, buffer: string, rest: string, c: string, host: Host)
    requires Settled(p, buffer, rest, host)
    ensures Run(p, buffer + c, host) == Run(p, rest + c, host)
  {
  }

  /** Running the leftover of a run gives nothing new. */
  lemma {:induction false} RunOnce(p: Parser, x: string, host: Host)
    requires !InMultipart(p) && !InMultipart(Run(p, x, host).parser)
    requires Run(p, x, host).verdict.Starved? || Run(p, x, host).verdict.MidLine?
    ensures var o := Run(p, x, host); o == Run(o.parser, o.rest, host)
    decreases |x|
  {
    hide RunMultipart, Find, TakeLine, TakeBody;
    if x != "" && InLines(p) && Find(x, CRLF, 0).Some? {
      var i := Find(x, CRLF, 0).value;
      var q := TakeLine(p, x[..i]).1;
      if InMultipart(q) {
        if x[i + 2..] != "" {
          InMultipartRun(q, x[i + 2..], host);
        }
      } else {
        RunOnce(q, x[i + 2..], host);
      }
    } else if x != "" && p.state.Body? {
      BodyIsNoLine(p, x);
      BodyStarved(p, x);
    }
  }

  lemma BodyStarved(p: Parser, x: string)
    ensures var o := TakeBody(p, x); o.verdict.Starved? ==> o.rest == ""
  {
  }

  /** The next call reads the request line again, as a header line. */
  lemma ReadAsHeader(p: Parser, d: string, more: string, host: Host)
    requires p.state.Headers? && Find(d, CRLF, 0).Some? && d[..Find(d, CRLF, 0).value] != ""
    ensures var i := Find(d, CRLF, 0).value;
            match HeaderOf(d[..i])
            case None => Run(p, d + more, host).verdict.Error?
            case Some(h) => Run(p, d + more, host) == Run(AddHeader(p, h), d[i + 2..] + more, host)
  {
    hide HeaderOf, Find, TakeBody, RunMultipart;
    FirstLine(d, more);
  }

  /** A stream whose whole is one complete request that is no multipart form. */
  ghost predicate CompleteStream(p: Parser, data: string, host: Host) {
    var whole := Run(p, data, host);
    p.state.RequestLine? && whole.verdict.Complete? && !IsMultipart(whole.parser.request.headers)
  }

  lemma GoodPrefix(p: Parser, d: string, more: string, host: Host)
    requires CompleteStream(p, d + more, host)
    ensures !Run(p, d, host).verdict.Error? && !Run(p, d, host).verdict.Throws? && !InMultipart(Run(p, d, host).parser)
    ensures Run(p, d, host).verdict.Complete? ==>
              Run(p, d + more, host) == Run(p, d, host).(rest := Run(p, d, host).rest + more)
    ensures !Run(p, d, host).verdict.Complete? ==>
              Run(p, d + more, host) == Run(Run(p, d, host).parser, Run(p, d, host).rest + more, host) &&
              Run(Run(p, d, host).parser, Run(p, d, host).rest, host) == Run(p, d, host)
  {
    hide Run, IsMultipart, Find;
    RunAppend(p, d, more, host);
    var o := Run(p, d, host);
    if o.verdict.Complete? {
      CompleteIsDone(p, d, host);
    } else {
      RunOnce(p, d, host);
    }
  }

  lemma {:induction false} CompleteIsDone(p: Parser, x: string, host: Host)
    ensures Run(p, x, host).verdict.Complete? ==> Run(p, x, host).parser.state.Done?
    decreases |x|
  {
    hide RunMultipart, Find, TakeLine, TakeBody;
    if x != "" && InLines(p) && Find(x, CRLF, 0).Some? {
      var i := Find(x, CRLF, 0).value;
      CompleteIsDone(TakeLine(p, x[..i]).1, x[i + 2..], host);
    } else {
      BodyCompletes(p, x);
      if InMultipart(p) {
        InMultipartRun(p, x, host);
      }
    }
  }

  lemma BodyCompletes(p: Parser, x: string)
    ensures TakeBody(p, x).verdict.Complete? ==> TakeBody(p, x).parser.state.Done?
  {
  }

  // ----- the request line read twice -----

  lemma {:induction false} TakenGrows(x: string, more: string)
    ensures TakenHeaders(x).Keys <= TakenHeaders(x + more).Keys
    decreases |x|
  {
    hide Find, HeaderOf;
    if Find(x, CRLF, 0).Some? {
      FirstLine(x, more);
      TakenGrows(x[Find(x, CRLF, 0).value + 2..], more);
    }
  }

  /** Headers that the header section assigns anyway do not matter beforehand. */
  lemma {:induction false} SameAfterHeaders(p: Parser, x: Headers, y: Headers, data: string, host: Host)
    requires p.state.Headers? && x + TakenHeaders(data) == y + TakenHeaders(data)
    ensures Run(WithHeaders(p, x), data, host) == Run(WithHeaders(p, y), data, host)
    decreases |data|
  {
    hide Find, HeaderOf, EndHeaders, Run;
    if Find(data, CRLF, 0).None? || HeaderOf(data[..Find(data, CRLF, 0).value]).None? {
      assert x + map[] == x && y + map[] == y;
    } else {
      var i := Find(data, CRLF, 0).value;
      var h, rest := HeaderOf(data[..i]).value, data[i + 2..];
      AssignFirst(x, h, TakenHeaders(rest));
      AssignFirst(y, h, TakenHeaders(rest));
      SameAfterHeaders(p, x[h.0 := h.1], y[h.0 := h.1], rest, host);
      EmptyIsNoHeader();
      HeaderTaken(WithHeaders(p, x), data, host);
      HeaderTaken(WithHeaders(p, y), data, host);
    }
  }

  lemma EmptyIsNoHeader()
    ensures HeaderOf("").None?
  {
  }

  lemma HeaderTaken(p: Parser, data: string, host: Host)
    requires p.state.Headers? && Find(data, CRLF, 0).Some? && HeaderOf(data[..Find(data, CRLF, 0).value]).Some?
    ensures var i := Find(data, CRLF, 0).value;
            Run(p, data, host) == Run(AddHeader(p, HeaderOf(data[..i]).value), data[i + 2..], host)
  {
    hide HeaderOf, Find, TakeBody, RunMultipart;
    EmptyIsNoHeader();
  }

  /** A run from the header section on ends with the headers assigned there, whatever else happens. */
  lemma {:induction false} RunHeaders(p: Parser, data: string, host: Host)
    requires p.state.Headers?
    ensures Run(p, data, host).parser.request.headers == p.request.headers + TakenHeaders(data)
    decreases |data|
  {
    hide Find, HeaderOf, Run, TakeLine;
    var h := p.request.headers;
    if Find(data, CRLF, 0).None? || HeaderOf(data[..Find(data, CRLF, 0).value]).None? {
      assert h + map[] == h;
      NoHeaderTaken(p, data, host);
    } else {
      var i := Find(data, CRLF, 0).value;
      var header := HeaderOf(data[..i]).value;
      HeaderTaken(p, data, host);
      RunHeaders(AddHeader(p, header), data[i + 2..], host);
      AssignFirst(h, header, TakenHeaders(data[i + 2..]));
    }
  }

  lemma NoHeaderTaken(p: Parser, data: string, host: Host)
    requires p.state.Headers?
    requires Find(data, CRLF, 0).None? || HeaderOf(data[..Find(data, CRLF, 0).value]).None?
    ensures Run(p, data, host).parser.request.headers == p.request.headers
  {
    hide Find, HeaderOf, IsMultipart, GetHeader, GetBoundary, RunMultipart, TakeBody;
    if data != "" && Find(data, CRLF, 0).Some? {
      var q, rest := EndHeaders(p).1, data[Find(data, CRLF, 0).value + 2..];
      BodyKeepsHeaders(q, rest);
      if InMultipart(q) {
        InMultipartRun(q, rest, host);
      }
    }
  }

  lemma BodyKeepsHeaders(p: Parser, data: string)
    ensures TakeBody(p, data).parser.request.headers == p.request.headers
  {
    hide ContentLength, IsForm;
  }

  /** No call takes a header away. */
  lemma {:induction false} RunGrows(p: Parser, data: string, host: Host)
    ensures p.request.headers.Keys <= Run(p, data, host).parser.request.headers.Keys
    decreases |data|
  {
    hide Find, TakeLine, RunMultipart, TakeBody;
    if data != "" && InLines(p) && Find(data, CRLF, 0).Some? {
      var i := Find(data, CRLF, 0).value;
      LineGrows(p, data[..i]);
      RunGrows(TakeLine(p, data[..i]).1, data[i + 2..], host);
    } else {
      BodyKeepsHeaders(p, data);
      if InMultipart(p) {
        InMultipartRun(p, data, host);
      }
    }
  }

  lemma LineGrows(p: Parser, line: string)
    requires InLines(p)
    ensures p.request.headers.Keys <= TakeLine(p, line).1.request.headers.Keys
  {
    hide Find, HeaderOf, IsMultipart, GetHeader, GetBoundary, Word;
  }

  lemma {:induction false} FeedGrows(p: Parser, buffer: string, chunks: seq<string>, host: Host)
    ensures p.request.headers.Keys <= Feed(p, buffer, chunks, host).1.request.headers.Keys
    decreases |chunks|
  {
    hide Run;
    if chunks != [] {
      var data := buffer + chunks[0];
      RunGrows(p, data, host);
      var o := Run(p, data, host);
      FeedGrows(o.parser, Kept(o, data), chunks[1..], host);
    }
  }

  /** What comes of a stream whose first line has been taken as request line and stays in the buffer. */
  ghost predicate ReadTwice(p: Parser, data: string, fed: (ParseResult, Parser, string), host: Host)
    requires p.state.RequestLine? && Find(data, CRLF, 0).Some?
  {
    var i := Find(data, CRLF, 0).value;
    var h, p1 := HeaderOf(data[..i]), TakeLine(p, data[..i]).1;
    && (h.None? ==> fed.0.IsError?)
    && (h.Some? ==> h.value.0 in fed.1.request.headers)
    && (h.Some? ==>
          var twice := Run(AddHeader(p1, h.value), data[i + 2..], host);
          twice.verdict.Complete? && !IsMultipart(twice.parser.request.headers) ==>
          fed == (IsComplete, twice.parser, twice.rest))
  }

  /** Kept bytes behind a request line that reads as the header h: reading all of them again changes nothing either. */
  lemma ReplayBehind(p: Parser, h: (string, string), d: string, c: string, ys: string, host: Host)
    requires p.state.Headers? && Find(d, CRLF, 0).Some? && HeaderOf(d[..Find(d, CRLF, 0).value]) == Some(h)
    requires Run(AddHeader(p, h), d[Find(d, CRLF, 0).value + 2..] + c, host).verdict.MidLine?
    ensures var o := Run(AddHeader(p, h), d[Find(d, CRLF, 0).value + 2..] + c, host);
            o.parser.state.Headers? && Run(o.parser, (d + c) + ys, host) == Run(o.parser, o.rest + ys, host)
  {
    hide Run, Find, HeaderOf, TakenHeaders;
    var x := d[Find(d, CRLF, 0).value + 2..] + c;
    var a := AddHeader(p, h);
    var o := Run(a, x, host);
    var z := a.request.headers + TakenHeaders(x);
    var again := z[h.0 := h.1];
    MidLineHeaders(a, again, x, host);
    assert again + TakenHeaders(x) == z;
    MidLineAppend(WithHeaders(a, again), x, ys, host);
    EmptyIsNoHeader();
    ReadAsHeader(o.parser, d, c + ys, host);
    assert (d + c) + ys == d + (c + ys);
    assert x + ys == d[Find(d, CRLF, 0).value + 2..] + (c + ys);
    assert AddHeader(o.parser, h) == WithHeaders(a, again);
  }

  /** The first call that reads the request line again, as the header h, and those after it. */
  lemma FeedBehind(q: Parser, h: (string, string), d: string, chunks: seq<string>, host: Host)
    requires q.state.Headers? && Find(d, CRLF, 0).Some? && HeaderOf(d[..Find(d, CRLF, 0).value]) == Some(h)
    requires chunks != []
    ensures var fed := Feed(q, d, chunks, host);
            var twice := Run(AddHeader(q, h), d[Find(d, CRLF, 0).value + 2..] + Flatten(chunks), host);
            && h.0 in fed.1.request.headers
            && (twice.verdict.Complete? && !IsMultipart(twice.parser.request.headers) ==>
                  fed == (IsComplete, twice.parser, twice.rest))
  {
    hide Run, Find, HeaderOf, IsMultipart;
    var c, more := chunks[0], Flatten(chunks[1..]);
    var r, a := d[Find(d, CRLF, 0).value + 2..], AddHeader(q, h);
    EmptyIsNoHeader();
    ReadAsHeader(q, d, c, host);
    var o := Run(a, r + c, host);
    RunGrows(a, r + c, host);
    FeedGrows(o.parser, Kept(o, d + c), chunks[1..], host);
    assert r + Flatten(chunks) == (r + c) + more;
    var twice := Run(a, (r + c) + more, host);
    if twice.verdict.Complete? && !IsMultipart(twice.parser.request.headers) {
      RunAppend(a, r + c, more, host);
      if o.verdict.Starved? || o.verdict.MidLine? {
        BehindSettled(q, h, d, c, host);
        FeedSettled(o.parser, Kept(o, d + c), o.rest, chunks[1..], host);
      }
    }
  }

  lemma BehindSettled(q: Parser, h: (string, string), d: string, c: string, host: Host)
    requires q.state.Headers? && Find(d, CRLF, 0).Some? && HeaderOf(d[..Find(d, CRLF, 0).value]) == Some(h)
    requires var o := Run(AddHeader(q, h), d[Find(d, CRLF, 0).value + 2..] + c, host);
             (o.verdict.Starved? || o.verdict.MidLine?) && !InMultipart(o.parser)
    ensures var o := Run(AddHeader(q, h), d[Find(d, CRLF, 0).value + 2..] + c, host);
            Settled(o.parser, Kept(o, d + c), o.rest, host)
  {
    hide Run, Find, HeaderOf;
    var a, x := AddHeader(q, h), d[Find(d, CRLF, 0).value + 2..] + c;
    var o := Run(a, x, host);
    RunOnce(a, x, host);
    StaysPastRequestLine(a, x, host);
    if o.verdict.MidLine? {
      forall ys: string ensures Run(o.parser, (d + c) + ys, host) == Run(o.parser, o.rest + ys, host) {
        ReplayBehind(q, h, d, c, ys, host);
      }
    }
  }

  lemma FeedTwice(p: Parser, d: string, chunks: seq<string>, host: Host)
    requires CompleteStream(p, d + Flatten(chunks), host) && Find(d, CRLF, 0).Some?
    requires Run(p, d, host).verdict.MidLine? && Run(p, d, host).parser.state.Headers?
    ensures Find(d + Flatten(chunks), CRLF, 0).Some?
    ensures ReadTwice(p, d + Flatten(chunks), Feed(Run(p, d, host).parser, d, chunks, host), host)
  {
    hide Run, IsMultipart, Find, HeaderOf, TakeLine, TakenHeaders, CompleteStream;
    var q := Run(p, d, host).parser;
    var i := Find(d, CRLF, 0).value;
    var line, r, more := d[..i], d[i + 2..], Flatten(chunks);
    FirstLine(d, more);
    CompleteIsWhole(p, d + more, host);
    FirstLineTaken(p, d, host);
    if chunks == [] {
      AppendNothing(d);
      CompleteIsWhole(p, d, host);
    } else if HeaderOf(line).None? {
      ReadAsHeader(q, d, chunks[0], host);
    } else {
      var h, p1 := HeaderOf(line).value, TakeLine(p, line).1;
      FeedBehind(q, h, d, chunks, host);
      MidLineHeaders(p1, map[], r, host);
      var taken, all := TakenHeaders(r), TakenHeaders(r + more);
      TakenGrows(r, more);
      var x, y := q.request.headers[h.0 := h.1], p1.request.headers[h.0 := h.1];
      assert x + all == y + all;
      SameAfterHeaders(p1, x, y, r + more, host);
      assert AddHeader(q, h) == WithHeaders(p1, x) && AddHeader(p1, h) == WithHeaders(p1, y);
    }
  }

  lemma FirstLineTaken(p: Parser, d: string, host: Host)
    requires p.state.RequestLine? && Find(d, CRLF, 0).Some? && !Run(p, d, host).verdict.Error?
    ensures var i := Find(d, CRLF, 0).value;
            var q := TakeLine(p, d[..i]).1;
            && d[..i] != "" && q.state.Headers? && q.request.headers == p.request.headers
            && Run(p, d, host) == Run(q, d[i + 2..], host)
  {
    hide Find, TakeBody, RunMultipart, TakeLine;
    var line := d[..Find(d, CRLF, 0).value];
    if TakeLine(p, line).0 {
      RequestLineText(p, line);
    }
  }

  lemma CompleteIsWhole(p: Parser, data: string, host: Host)
    requires CompleteStream(p, data, host)
    ensures Run(p, data, host).verdict.Complete? && Find(data, CRLF, 0).Some? && p.state.RequestLine?
    ensures !IsMultipart(Run(p, data, host).parser.request.headers)
  {
    hide TakeBody, RunMultipart, TakeLine, IsMultipart;
  }

  lemma AppendNothing(s: string)
    ensures s + "" == s && Flatten<char>([]) == ""
  {
  }

  lemma NoLineYet(p: Parser, d: string, host: Host)
    requires p.state.RequestLine? && Find(d, CRLF, 0).None?
    ensures var o := Run(p, d, host);
            o.parser == p && Kept(o, d) == d && o.rest == d && (o.verdict.Starved? || o.verdict.MidLine?)
  {
  }

  lemma {:induction false} FeedFresh(p: Parser, buffer: string, chunks: seq<string>, host: Host)
    requires CompleteStream(p, buffer + Flatten(chunks), host) && Find(buffer, CRLF, 0).None?
    ensures Find(buffer + Flatten(chunks), CRLF, 0).Some?
    ensures var data := buffer + Flatten(chunks);
            var whole, fed := Run(p, data, host), Feed(p, buffer, chunks, host);
            if EndsInsideHeaders(FirstCall(buffer, chunks)) then ReadTwice(p, data, fed, host)
            else fed == (IsComplete, whole.parser, whole.rest)
    decreases |chunks|
  {
    hide Run, IsMultipart, Find, EndsInsideHeaders, CompleteStream, ReadTwice;
    CompleteIsWhole(p, buffer + Flatten(chunks), host);
    if chunks == [] {
      AppendNothing(buffer);
    } else {
      var d, more := buffer + chunks[0], Flatten(chunks[1..]);
      assert buffer + Flatten(chunks) == d + more;
      if Find(d, CRLF, 0).None? {
        NoLineYet(p, d, host);
        FeedFresh(p, d, chunks[1..], host);
      } else {
        GoodPrefix(p, d, more, host);
        FirstCallText(p, d, host);
        var o := Run(p, d, host);
        if o.verdict.MidLine? {
          FeedTwice(p, d, chunks[1..], host);
        } else if o.verdict.Starved? {
          FeedSettled(o.parser, o.rest, o.rest, chunks[1..], host);
        }
      }
    }
  }

  /**
   * Every split in which the call that sees the end of the request line does not end inside a later header line is as
   * good as none.
   */
  lemma ResumeFaithfully(p: Parser, chunks: seq<string>, host: Host)
    requires CompleteStream(p, Flatten(chunks), host) && !EndsInsideHeaders(FirstCall("", chunks))
    ensures var whole := Run(p, Flatten(chunks), host);
            Feed(p, "", chunks, host) == (IsComplete, whole.parser, whole.rest)
  {
    assert "" + Flatten(chunks) == Flatten(chunks);
    NoLineInNothing();
    FeedFresh(p, "", chunks, host);
  }

  /**
   * Feeding in pieces gives the request, state and leftover of one call on the whole stream if and
   * only if the call that sees the end of the request line does not end inside a later header line,
   * or the request line also reads as a header that the request sends anyway. Otherwise a request
   * line without a colon is refused, and one with a colon comes back as an additional header.
   */
  lemma ResumeIff(p: Parser, chunks: seq<string>, host: Host)
    requires CompleteStream(p, Flatten(chunks), host) && p.request.headers == map[]
    ensures Find(Flatten(chunks), CRLF, 0).Some?
    ensures var data := Flatten(chunks);
            var whole, fed := Run(p, data, host), Feed(p, "", chunks, host);
            var inside := EndsInsideHeaders(FirstCall("", chunks));
            var i := Find(data, CRLF, 0).value;
            var h, sent := HeaderOf(data[..i]), TakenHeaders(data[i + 2..]);
            && (fed == (IsComplete, whole.parser, whole.rest) <==> !inside || (h.Some? && h.value.0 in sent))
            && (inside && h.None? ==> fed.0.IsError?)
            && (inside && h.Some? ==> h.value.0 in fed.1.request.headers)
  {
    hide Run, IsMultipart, Find, EndsInsideHeaders, TakeLine, HeaderOf, TakenHeaders, CompleteStream;
    var data := Flatten(chunks);
    assert "" + data == data;
    NoLineInNothing();
    FeedFresh(p, "", chunks, host);
    CompleteIsWhole(p, data, host);
    FirstLineTaken(p, data, host);
    var i := Find(data, CRLF, 0).value;
    var p1, tail := TakeLine(p, data[..i]).1, data[i + 2..];
    RunHeaders(p1, tail, host);
    var taken := TakenHeaders(tail);
    assert p1.request.headers + taken == taken;
    if HeaderOf(data[..i]).Some? && HeaderOf(data[..i]).value.0 in taken {
      var h := HeaderOf(data[..i]).value;
      assert p1.request.headers[h.0 := h.1] + taken == taken;
      SameAfterHeaders(p1, p1.request.headers[h.0 := h.1], p1.request.headers, tail, host);
      assert WithHeaders(p1, p1.request.headers) == p1;
    }
  }

  lemma NoLineInNothing()
    ensures Find("", CRLF, 0).None?
  {
  }

  /** A stream that arrives one byte at a time is always read like the whole. */
  lemma ByteByByte(p: Parser, chunks: seq<string>, host: Host)
    requires CompleteStream(p, Flatten(chunks), host)
    requires forall c :: c in chunks ==> |c| <= 1
    ensures var whole := Run(p, Flatten(chunks), host);
            Feed(p, "", chunks, host) == (IsComplete, whole.parser, whole.rest)
  {
    NoLineInNothing();
    FirstCallOfBytes("", chunks);
    ResumeFaithfully(p, chunks, host);
  }

  lemma {:induction false} FirstCallOfBytes(received: string, chunks: seq<string>)
    requires Find(received, CRLF, 0).None? && forall c :: c in chunks ==> |c| <= 1
    ensures Find(FirstCall(received, chunks), CRLF, 0).Some? ==> EndsWithLine(FirstCall(received, chunks))
    decreases |chunks|
  {
    hide Find, EndsWithLine;
    if chunks != [] {
      var d := received + chunks[0];
      if Find(d, CRLF, 0).None? {
        FirstCallOfBytes(d, chunks[1..]);
      } else {
        LastByteEndsLine(received, chunks[0]);
      }
    }
  }

  lemma LastByteEndsLine(received: string, c: string)
    requires Find(received, CRLF, 0).None? && |c| <= 1 && Find(received + c, CRLF, 0).Some?
    ensures EndsWithLine(received + c)
  {
    hide Find;
    var i := Find(received + c, CRLF, 0).value;
    NoneAt(received, CRLF, i);
    if i + 2 <= |received| {
      AtExtend(received, c, CRLF, i);
    }
  }

  // ----- the declared length is never overrun -----

  /**
   * A request that is no multipart form: its body stays within the declared length, and has exactly that length once
   * done.
   */
  ghost predicate BodyBounded(p: Parser) {
    var h, body := p.request.headers, p.request.rawBody;
    && (p.state.RequestLine? ==> h == map[])
    && (InLines(p) ==> body == "")
    && (InMultipart(p) ==> IsMultipart(h))
    && (p.state.Body? ==> !IsMultipart(h))
    && (p.state.Body? && ContentLength(h).Some? ==> |body| <= ContentLength(h).value)
    && (p.state.Done? && !IsMultipart(h) && GetHeader(h, "Content-Length").Some? ==> ContentLength(h) == Some(|body|))
  }

  lemma LineKeepsBound(p: Parser, line: string)
    requires InLines(p) && BodyBounded(p)
    ensures BodyBounded(TakeLine(p, line).1)
  {
    hide IsMultipart, GetBoundary, HeaderOf, GetHeader;
  }

  lemma BodyKeepsBound(p: Parser, data: string)
    requires p.state.Body? && BodyBounded(p)
    ensures BodyBounded(TakeBody(p, data).parser)
  {
    hide IsMultipart, IsForm;
  }

  /** Every call keeps it. */
  lemma {:induction false} RunKeepsBound(p: Parser, data: string, host: Host)
    requires BodyBounded(p)
    ensures BodyBounded(Run(p, data, host).parser)
    decreases |data|
  {
    hide RunMultipart, TakeLine, TakeBody, Find, IsMultipart, GetHeader;
    if data != "" && InLines(p) {
      if Find(data, CRLF, 0).Some? {
        var i := Find(data, CRLF, 0).value;
        LineKeepsBound(p, data[..i]);
        RunKeepsBound(TakeLine(p, data[..i]).1, data[i + 2..], host);
      }
    } else if data != "" && p.state.Body? {
      BodyKeepsBound(p, data);
    } else if InMultipart(p) {
      InMultipartRun(p, data, host);
    }
  }

  /** A new parser has it. */
  lemma ResetIsBounded(p: Parser)
    ensures BodyBounded(Reset(p))
  {
  }

  /** So it stays over any sequence of calls, faithful or not. */
  lemma {:induction false} FeedKeepsBound(p: Parser, buffer: string, chunks: seq<string>, host: Host)
    requires BodyBounded(p)
    ensures BodyBounded(Feed(p, buffer, chunks, host).1)
    decreases |chunks|
  {
    hide Run, BodyBounded;
    if chunks != [] {
      var data := buffer + chunks[0];
      RunKeepsBound(p, data, host);
      var o := Run(p, data, host);
      FeedKeepsBound(o.parser, Kept(o, data), chunks[1..], host);
    }
  }

  lemma RunNothing(p: Parser, host: Host)
    ensures Run(p, "", host) == Outcome(Starved, p, "")
  {
  }

  /** One complete line is taken, and the run goes on behind it. */
  lemma RunLine(p: Parser, line: string, rest: string, q: Parser, host: Host)
    requires InLines(p) && OneLine(line) && TakeLine(p, line) == (true, q)
    ensures Run(p, line + CRLF + rest, host) == if q.state.Done? then Outcome(Complete, q, rest) else Run(q, rest, host)
  {
    hide TakeLine, Find, TakeBody, RunMultipart;
    LineIs(line, rest);
  }

  lemma Example(p: Parser, host: Host)
    requires p == Reset(p)
    ensures CompleteStream(p, "G / H\r\nA:\r\n\r\n", host)
    ensures Find("G / H\r\nA:\r\n\r\n", CRLF, 0) == Some(5) && HeaderOf("G / H\r\nA:\r\n\r\n"[..5]).None?
  {
    hide Run, Find, TakeLine, IsMultipart;
    var d := "G / H\r\nA:\r\n\r\n";
    var e := "A:\r\n\r\n";
    assert d == "G / H" + CRLF + e && e == "A:" + CRLF + CRLF && CRLF == "" + CRLF + "";
    NoReturnIsOneLine("G / H");
    NoReturnIsOneLine("A:");
    NoReturnIsOneLine("");
    LineIs("G / H", e);
    NotAt("G / H", ':');
    ExampleRequestLine(p);
    var q := p.(request := p.request.(path := "/", version := "H"), state := Headers);
    ExampleHeader(q);
    var r := AddHeader(q, ("A", ""));
    RunLine(p, "G / H", e, q, host);
    RunLine(q, "A:", CRLF, r, host);
    RunLine(r, "", "", r.(state := Done), host);
  }

  lemma ExampleRequestLine(p: Parser)
    requires p == Reset(p)
    ensures TakeLine(p, "G / H") == (true, p.(request := p.request.(path := "/", version := "H"), state := Headers))
  {
    hide Word;
    var line := "G / H";
    assert line == "G" + " / H";
    WordOf("G", " / H");
    assert " / H" == " " + "/" + " H";
    WordOf("/", " H");
    assert " H" == " " + "H" + "";
    WordOf("H", "");
  }

  lemma ExampleHeader(q: Parser)
    requires q.state.Headers? && q.request.headers == map[]
    ensures TakeLine(q, "A:") == (true, AddHeader(q, ("A", "")))
    ensures var r := AddHeader(q, ("A", ""));
            TakeLine(r, "") == (true, r.(state := Done)) && !IsMultipart(r.request.headers)
  {
    hide Find;
    assert "A:" == "A" + ":" + "";
    FindChar("A", ':', "");
    assert "A:"[..1] == "A" && "A:"[2..] == "";
    assert Trim("A") == "A" && Trim("") == "";
    assert forall key :: |key| > 1 ==> !SameName("A", key);
  }

  lemma ExampleSplit(first: string, second: string)
    requires Find(first, CRLF, 0).Some? && Find(first, BLANK_LINE, 0).None?
    ensures FirstCall("", [first, second]) == first
    ensures EndsInsideHeaders(FirstCall("", [first, second])) <==> !EndsWithLine(first)
    ensures Flatten([first, second]) == first + second
  {
    hide Find;
    assert "" + first == first;
    assert [first, second][1..] == [second];
    assert Flatten([second]) == second;
  }

  lemma ExampleFirst(tail: string)
    requires '\r' !in tail
    ensures var first := "G / H" + CRLF + tail;
            Find(first, CRLF, 0).Some? && Find(first, BLANK_LINE, 0).None?
    ensures EndsWithLine("G / H" + CRLF + tail) <==> tail == ""
  {
    hide Find;
    var first := "G / H" + CRLF + tail;
    NoReturnIsOneLine("G / H");
    LineIs("G / H", tail);
    NoReturnIsOneLine(tail);
    NoLineNoBlank(tail);
    BlankLineAfter(first);
    EndAfter(first);
  }

  /** Both kinds of split on one stream: after the first letter of a header name, and after the request line. */
  lemma SplitMatters(p: Parser, host: Host)
    requires p == Reset(p)
    ensures Feed(p, "", ["G / H\r\nA", ":\r\n\r\n"], host).0.IsError?
    ensures Feed(p, "", ["G / H\r\n", "A:\r\n\r\n"], host).0.IsComplete?
  {
    hide Run, CompleteStream, Feed, Find, EndsInsideHeaders, FirstCall, Flatten, EndsWithLine;
    Example(p, host);
    var d := "G / H\r\nA:\r\n\r\n";
    assert "G / H\r\nA" == "G / H" + CRLF + "A" && "G / H\r\n" == "G / H" + CRLF + "";
    assert "G / H\r\nA" + ":\r\n\r\n" == d && "G / H\r\n" + "A:\r\n\r\n" == d;
    ExampleFirst("A");
    ExampleFirst("");
    ExampleSplit("G / H\r\nA", ":\r\n\r\n");
    ExampleSplit("G / H\r\n", "A:\r\n\r\n");
    ResumeIff(p, ["G / H\r\nA", ":\r\n\r\n"], host);
    ResumeIff(p, ["G / H\r\n", "A:\r\n\r\n"], host);
  }
}
