/** The request parser: an object whose state changes as bytes arrive, proved against HttpParsing. */
module HttpParserModule {
  import opened Bytes
  import opened HttpText
  import opened HttpRequests
  import opened HttpForm
  import opened HttpParsing
  import opened HttpResume

  class HttpParser {
    var state: ParseState
    var request: Request
    var boundary: string
    var partName: string
    var file: Option<UploadedFile>
    var stream: Stream
    var disk: map<string, string>

    ghost function View(): Parser
      reads this
    {
      Parser(state, request, boundary, partName, file, stream, disk)
    }

    constructor (disk: map<string, string>)
      ensures View() == HttpParsing.Reset(View()) && this.disk == disk
    {
      state, request, boundary, partName := RequestLine, EMPTY_REQUEST, "", "";
      file, stream := None, Closed;
      this.disk := disk;
    }

    method Reset()
      modifies this
      ensures View() == HttpParsing.Reset(old(View()))
    {
      state, request, boundary, partName := RequestLine, EMPTY_REQUEST, "", "";
      file, stream := None, Closed;
    }

    method ParseRequestLine(line: string) returns (ok: bool)
      modifies this
      ensures var p := HttpParsing.ParseRequestLine(old(View()), line);
              ok == p.Some? && View() == if ok then p.value else old(View())
    {
      var first := Word(line);
      var second := Word(first.1);
      var third := Word(second.1);
      if third.0 == "" {
        return false;
      }
      var verb := UNKNOWN;
      if first.0 == "GET" {
        verb := GET;
      } else if first.0 == "POST" {
        verb := POST;
      } else if first.0 == "HEAD" {
        verb := HEAD;
      }
      request := request.(verb := verb, path := second.0, version := third.0);
      return true;
    }

    method ParseHeaderLine(line: string) returns (ok: bool)
      modifies this
      ensures var p := HttpParsing.ParseHeaderLine(old(View()), line);
              ok == p.Some? && View() == if ok then p.value else old(View())
    {
      match Find(line, ":", 0)
      case None =>
        return false;
      case Some(colon) =>
        var key, value := Trim(line[..colon]), Trim(line[colon + 1..]);
        request := request.(headers := request.headers[key := value]);
        return true;
    }

    method HandleFormUrlencoded(body: string)
      modifies this`request
      ensures request == old(request).(formFields := FormFields(old(request).formFields, body))
    {
      var pairs := SplitAt(body, '&');
      var i := 0;
      while i < |pairs|
        invariant 0 <= i <= |pairs|
        invariant request == old(request).(formFields := request.formFields)
        invariant PutFields(request.formFields, pairs[i..]) == PutFields(old(request).formFields, pairs)
      {
        var pair := pairs[i];
        assert pairs[i..][1..] == pairs[i + 1..];
        match Find(pair, "=", 0) {
          case None =>
          case Some(eq) =>
            var key := DecodeUrl(pair[..eq]);
            var value := DecodeUrl(pair[eq + 1..]);
            request := request.(formFields := request.formFields[key := value]);
        }
        i := i + 1;
      }
    }

    /** One line of the request line or the header section; false is a refusal. */
    method TakeLine(line: string) returns (ok: bool)
      requires state.RequestLine? || state.Headers?
      modifies this
      ensures (ok, View()) == HttpParsing.TakeLine(old(View()), line)
    {
      if state.RequestLine? {
        ok := ParseRequestLine(line);
        if ok {
          state := Headers;
        }
      } else if line == "" {
        ok := true;
        if IsMultipart(request.headers) {
          boundary := "--" + GetBoundary(request.headers);
          if boundary == "--" {
            return false;
          }
          state := BoundarySearch;
        } else if GetHeader(request.headers, "Content-Length").Some? {
          state := Body;
        } else {
          state := Done;
        }
      } else {
        ok := ParseHeaderLine(line);
      }
    }

    /** The body case of the loop: how many bytes of the data it takes, None for a refusal. */
    method TakeBody(data: string) returns (taken: Option<nat>)
      requires state.Body?
      modifies this
      ensures var o := HttpParsing.TakeBody(old(View()), data);
              && View() == o.parser && (taken.None? <==> o.verdict.Error?)
              && (taken.Some? ==> taken.value <= |data| && data[taken.value..] == o.rest)
              && (taken.Some? ==>
                    if o.verdict.Complete? then state.Done? else o.verdict.Starved? && o.rest == "" && state.Body?)
    {
      var length := ContentLength(request.headers);
      if length.None? {
        return None;
      }
      var received := |request.rawBody|;
      var missing := if received <= length.value then length.value - received
        else length.value - received + TWO_TO_THE_64;
      if missing < 0 {
        return None;
      }
      var take := Min(|data|, missing);
      request := request.(rawBody := request.rawBody + data[..take]);
      if |request.rawBody| == length.value {
        if IsForm(request.headers) {
          HandleFormUrlencoded(request.rawBody);
        }
        state := Done;
      } else if |request.rawBody| > length.value {
        return None;
      }
      return Some(take);
    }

    /** The header lines of one part, until an empty line or a failure. */
    method ParsePartHeaders(block: string, host: Host) returns (failure: Option<Verdict>)
      modifies this
      ensures var o := StartPart(old(View()), block, host);
              && View() == o.parser
              && failure == (if o.Part? then None else if o.PartError? then Some(Error) else Some(Throws))
    {
      hide PartHeaderLine, DropReturn, Split;
      var lines := SplitAt(block, '\n');
      var contentType := "text/plain";
      file := None;
      partName := "";
      ghost var start := View();
      var i := 0;
      assert lines[0..] == lines;
      while i < |lines| && lines[i] != ""
        invariant 0 <= i <= |lines|
        invariant PartHeaderLines(View(), contentType, lines[i..], host) ==
          PartHeaderLines(start, "text/plain", lines, host)
      {
        assert lines[i..][1..] == lines[i + 1..];
        assert PartHeaderLines(View(), contentType, lines[i..], host) ==
               (match PartHeaderLine(View(), contentType, DropReturn(lines[i]), host)
                case Part(q, t) => PartHeaderLines(q, t, lines[i + 1..], host)
                case failed => failed);
        failure, contentType := ParsePartHeader(contentType, DropReturn(lines[i]), host);
        if failure.Some? {
          return;
        }
        i := i + 1;
      }
      failure := None;
      if file.Some? {
        file := Some(file.value.(contentType := contentType));
      }
      state := PartData;
    }

    method ParsePartHeader(contentType: string, line: string, host: Host) returns (failure: Option<Verdict>, t: string)
      modifies this
      ensures var o := PartHeaderLine(old(View()), contentType, line, host);
              && View() == o.parser
              && (if o.Part? then failure == None && t == o.contentType
                  else failure == Some(if o.PartError? then Error else Throws))
    {
      failure, t := None, contentType;
      if StartsWith(line, "Content-Disposition:") {
        var name := Quoted(line, "name=\"");
        if name.Some? {
          partName := name.value;
        }
        var filename := Quoted(line, "filename=\"");
        if filename.Some? {
          var path := TempPath(host, filename.value);
          file := Some(UploadedFile(filename.value, "", path, 0));
          if stream.Closed? && path in host.refused {
            return Some(Error), t;
          }
          if stream.Closed? {
            stream := Open(path);
            disk := disk[path := ""];
          } else {
            stream := Jammed(stream.path);
          }
        }
      } else if StartsWith(line, "Content-Type:") {
        if |line| < 14 {
          return Some(Throws), t;
        }
        t := line[14..];
      }
    }

    /** Part data up to the next delimiter, or all there are. */
    method TakeData(data: string, ends: bool)
      requires state.PartData?
      modifies this
      ensures var p := TakePartData(old(View()), data); View() == if ends then EndPart(p) else p
    {
      if file.Some? {
        disk := WriteStream(disk, stream, data);
        file := Some(file.value.(size := file.value.size + |data|));
      } else if partName != "" {
        request := request.(formFields := AppendField(request.formFields, partName, data));
      }
      if ends {
        if file.Some? {
          stream := Closed;
          request := request.(uploadedFiles := request.uploadedFiles[partName := file.value]);
          file := None;
        }
        state := BoundarySearch;
      }
    }

    /** One call of parse on the caller's buffer: the result, and what is left in the buffer. */
    method Parse(buffer: string, host: Host) returns (result: ParseResult, kept: string)
      modifies this
      ensures var o := Run(old(View()), buffer, host);
              View() == o.parser && result == Reported(o.verdict) && kept == Kept(o, buffer)
    {
      hide Run, HttpParsing.TakeLine, HttpParsing.TakeBody, RunMultipart, Find;
      var processed := 0;
      assert buffer[0..] == buffer;
      while processed < |buffer|
        invariant 0 <= processed <= |buffer|
        invariant Run(View(), buffer[processed..], host) == Run(old(View()), buffer, host)
      {
        ghost var data := buffer[processed..];
        RunTurn(View(), data, host);
        if state.RequestLine? || state.Headers? {
          FindShift(buffer, CRLF, processed, 0);
          match Find(buffer, CRLF, processed)
          case None =>
            return IsIncomplete, buffer;
          case Some(end) =>
            assert data[..end - processed] == buffer[processed..end] &&
              data[end - processed + 2..] == buffer[end + 2..];
            var ok := TakeLine(buffer[processed..end]);
            processed := end + 2;
            if !ok {
              return IsError, buffer;
            }
        } else if state.Body? {
          var taken := TakeBody(buffer[processed..]);
          if taken.None? {
            return IsError, buffer;
          }
          assert data[taken.value..] == buffer[processed + taken.value..];
          processed := processed + taken.value;
          RunNothing(View(), host);
        } else if state.Done? {
          return IsComplete, buffer[processed..];
        } else {
          var verdict, rest := HandleMultipart(buffer[processed..], host);
          return Reported(verdict), if verdict.Complete? || verdict.Starved? then rest else buffer;
        }
        if state.Done? {
          return IsComplete, buffer[processed..];
        }
      }
      assert buffer[processed..] == "";
      RunNothing(View(), host);
      return IsIncomplete, buffer[processed..];
    }

    method HandleMultipart(bodyChunk: string, host: Host) returns (verdict: Verdict, rest: string)
      requires InMultipart(View())
      modifies this
      ensures Outcome(verdict, View(), rest) == RunMultipart(old(View()), bodyChunk, host)
      ensures if verdict.Complete? then state.Done? else InMultipart(View())
    {
      hide StartPart, TakePartData, EndPart, Find, DropCrlf;
      var chunk := bodyChunk;
      while chunk != ""
        invariant InMultipart(View())
        invariant RunMultipart(View(), chunk, host) == RunMultipart(old(View()), bodyChunk, host)
        decreases |chunk|, if state.PartData? then 1 else 0
      {
        if state.BoundarySearch? {
          DropCrlfShortens(chunk);
          chunk := DropCrlf(chunk);
          match Find(chunk, boundary, 0)
          case None =>
            return Starved, chunk;
          case Some(i) =>
            chunk := chunk[i + |boundary|..];
            if StartsWith(chunk, "--") {
              state := Done;
              return Complete, DropCrlf(chunk[2..]);
            } else if StartsWith(chunk, CRLF) {
              chunk := chunk[2..];
              state := PartHeaders;
            } else {
              return Error, chunk;
            }
        } else if state.PartHeaders? {
          match Find(chunk, BLANK_LINE, 0)
          case None =>
            return Starved, chunk;
          case Some(i) =>
            StartKeepsHeaders(View(), chunk[..i], host);
            var failure := ParsePartHeaders(chunk[..i], host);
            chunk := chunk[i + 4..];
            if failure.Some? {
              return failure.value, chunk;
            }
        } else {
          match Find(chunk, CRLF + boundary, 0)
          case None =>
            DataKeepsHeaders(View(), chunk);
            TakeData(chunk, false);
            return Starved, "";
          case Some(i) =>
            DataKeepsHeaders(View(), chunk[..i]);
            TakeData(chunk[..i], true);
            chunk := chunk[i..];
        }
      }
      MultipartNothing(View(), host);
      return Starved, chunk;
    }
  }

  lemma MultipartNothing(p: Parser, host: Host)
    requires InMultipart(p)
    ensures RunMultipart(p, "", host) == Outcome(Starved, p, "")
  {
  }

  /** One turn of the parse loop. */
  lemma RunTurn(p: Parser, data: string, host: Host)
    requires data != ""
    ensures InLines(p) && Find(data, CRLF, 0).None? ==> Run(p, data, host) == Outcome(MidLine, p, data)
    ensures InLines(p) && Find(data, CRLF, 0).Some? ==>
              var i := Find(data, CRLF, 0).value;
              var taken := HttpParsing.TakeLine(p, data[..i]);
              Run(p, data, host) ==
              if !taken.0 then Outcome(Error, taken.1, data[i + 2..])
              else if taken.1.state.Done? then Outcome(Complete, taken.1, data[i + 2..])
              else Run(taken.1, data[i + 2..], host)
    ensures p.state.Body? ==> Run(p, data, host) == HttpParsing.TakeBody(p, data)
    ensures p.state.Done? ==> Run(p, data, host) == Outcome(Complete, p, data)
    ensures InMultipart(p) ==> Run(p, data, host) == RunMultipart(p, data, host)
  {
  }
}
