/** The resumable request parser as a function of its state and the bytes it is shown. */
module HttpParsing {
  import opened Bytes
  import opened HttpText
  import opened HttpRequests
  import opened HttpForm

  datatype ParseState =
    RequestLine | Headers | Body | BoundarySearch | PartHeaders | PartData | Done

  /** The output file stream: a stream that is opened twice keeps its file but takes no more bytes. */
  datatype Stream = Closed | Open(path: string) | Jammed(path: string)

  /** The parser's fields, with the files it has written. */
  datatype Parser = Parser(
    state: ParseState, request: Request, boundary: string,
    partName: string, file: Option<UploadedFile>, stream: Stream, disk: map<string, string>)

  /**
   * What the host decides: the upload directory, the clock as printed into file names, and the paths that do not
   * open.
   */
  datatype Host = Host(uploadDir: string, stamp: string, refused: set<string>)

  /** Starved gives up the bytes before rest; MidLine, Error and Throws leave the caller's whole buffer in place. */
  datatype Verdict = Complete | Starved | MidLine | Error | Throws

  datatype Outcome = Outcome(verdict: Verdict, parser: Parser, rest: string)

  datatype ParseResult = IsComplete | IsIncomplete | IsError | Exception

  function Reset(p: Parser): Parser {
    p.(state := RequestLine, request := EMPTY_REQUEST, boundary := "", partName := "", file := None, stream := Closed)
  }

  predicate InLines(p: Parser) { p.state.RequestLine? || p.state.Headers? }

  predicate InMultipart(p: Parser) { p.state.BoundarySearch? || p.state.PartHeaders? || p.state.PartData? }

  // ----- the request line and the header lines -----

  function ParseRequestLine(p: Parser, line: string): Option<Parser> {
    var first := Word(line);
    var second := Word(first.1);
    var third := Word(second.1);
    if third.0 == "" then None
    else
      var verb := if first.0 == "GET" then GET else if first.0 == "POST" then POST
                  else if first.0 == "HEAD" then HEAD else UNKNOWN;
      Some(p.(request := p.request.(verb := verb, path := second.0, version := third.0)))
  }

  function HeaderOf(line: string): Option<(string, string)> {
    match Find(line, ":", 0)
    case None => None
    case Some(i) => Some((Trim(line[..i]), Trim(line[i + 1..])))
  }

  function AddHeader(p: Parser, h: (string, string)): Parser {
    p.(request := p.request.(headers := p.request.headers[h.0 := h.1]))
  }

  function ParseHeaderLine(p: Parser, line: string): Option<Parser> {
    match HeaderOf(line)
    case None => None
    case Some(h) => Some(AddHeader(p, h))
  }

  /** The empty line: which body follows. */
  function EndHeaders(p: Parser): (bool, Parser) {
    var h := p.request.headers;
    if IsMultipart(h) then
      var q := p.(boundary := "--" + GetBoundary(h));
      if q.boundary == "--" then (false, q) else (true, q.(state := BoundarySearch))
    else if GetHeader(h, "Content-Length").Some? then (true, p.(state := Body))
    else (true, p.(state := Done))
  }

  function TakeLine(p: Parser, line: string): (bool, Parser)
    requires InLines(p)
  {
    if p.state.RequestLine? then
      match ParseRequestLine(p, line)
      case None => (false, p)
      case Some(q) => (true, q.(state := Headers))
    else if line == "" then EndHeaders(p)
    else
      match ParseHeaderLine(p, line)
      case None => (false, p)
      case Some(q) => (true, q)
  }

  // ----- a body of declared length -----

  function FinishBody(p: Parser): Parser {
    var r := p.request;
    p.(state := Done,
       request := if IsForm(r.headers) then r.(formFields := FormFields(r.formFields, r.rawBody)) else r)
  }

  function AddBody(p: Parser, data: string): Parser {
    p.(request := p.request.(rawBody := p.request.rawBody + data))
  }

  /** The missing count is an unsigned 64-bit difference. */
  function TakeBody(p: Parser, data: string): Outcome {
    match ContentLength(p.request.headers)
    case None => Outcome(Error, p, data)
    case Some(length) =>
      var received := |p.request.rawBody|;
      var missing := if received <= length then length - received else length - received + TWO_TO_THE_64;
      var take := if |data| <= missing then |data| else missing;
      if take < 0 then Outcome(Error, p, data) // more than 2^64 bytes received
      else
        var q := AddBody(p, data[..take]);
        if |q.request.rawBody| == length then Outcome(Complete, FinishBody(q), data[take..])
        else if |q.request.rawBody| > length then Outcome(Error, q, data[take..])
        else Outcome(Starved, q, data[take..])
  }

  // ----- a multipart body -----

  function DropCrlf(s: string): string { if StartsWith(s, CRLF) then s[2..] else s }

  function DropReturn(line: string): string {
    if line != "" && line[|line| - 1] == '\r' then line[..|line| - 1] else line
  }

  /** What stands between key" and the next quote, or the end of the line. */
  function Quoted(line: string, key: string): Option<string> {
    match Find(line, key, 0)
    case None => None
    case Some(i) =>
      match Find(line, "\"", i + |key|)
      case None => Some(line[i + |key|..])
      case Some(j) => Some(line[i + |key|..j])
  }

  function TempPath(host: Host, filename: string): string {
    host.uploadDir + "/" + host.stamp + "_" + filename
  }

  function OpenStream(p: Parser, path: string, host: Host): (bool, Parser) {
    match p.stream
    case Closed =>
      if path in host.refused then (false, p)
      else (true, p.(stream := Open(path), disk := p.disk[path := ""]))
    case Open(first) => (true, p.(stream := Jammed(first)))
    case Jammed(_) => (true, p)
  }

  datatype PartOutcome = Part(
    parser: Parser, contentType: string) | PartError(parser: Parser) | PartThrows(parser: Parser)

  function PartHeaderLine(p: Parser, contentType: string, line: string, host: Host): PartOutcome {
    if StartsWith(line, "Content-Disposition:") then
      var name := Quoted(line, "name=\"");
      var q := if name.Some? then p.(partName := name.value) else p;
      match Quoted(line, "filename=\"")
      case None => Part(q, contentType)
      case Some(filename) =>
        var path := TempPath(host, filename);
        var attempt := OpenStream(q.(file := Some(UploadedFile(filename, "", path, 0))), path, host);
        if attempt.0 then Part(attempt.1, contentType) else PartError(attempt.1)
    else if StartsWith(line, "Content-Type:") then
      if |line| < 14 then PartThrows(p) else Part(p, line[14..])
    else Part(p, contentType)
  }

  function PartHeaderLines(p: Parser, contentType: string, lines: seq<string>, host: Host): PartOutcome
    decreases |lines|
  {
    if lines == [] || lines[0] == "" then Part(p, contentType)
    else
      match PartHeaderLine(p, contentType, DropReturn(lines[0]), host)
      case Part(q, t) => PartHeaderLines(q, t, lines[1..], host)
      case failed => failed
  }

  /** The header block of one part. */
  function StartPart(p: Parser, block: string, host: Host): (o: PartOutcome)
    ensures o.Part? ==> o.parser.state.PartData?
  {
    match PartHeaderLines(p.(file := None, partName := ""), "text/plain", Split(block, '\n'), host)
    case Part(q, t) =>
      Part(q.(state := PartData,
              file := match q.file case None => None case Some(f) => Some(f.(contentType := t))), t)
    case failed => failed
  }

  function WriteStream(disk: map<string, string>, stream: Stream, data: string): map<string, string> {
    if stream.Open? then disk[stream.path := (if stream.path in disk then disk[stream.path] else "") + data] else disk
  }

  function AppendField(fields: map<string, string>, name: string, data: string): map<string, string> {
    fields[name := (if name in fields then fields[name] else "") + data]
  }

  function TakePartData(p: Parser, data: string): Parser {
    match p.file
    case Some(f) => p.(disk := WriteStream(p.disk, p.stream, data), file := Some(f.(size := f.size + |data|)))
    case None =>
      if p.partName == "" then p
      else p.(request := p.request.(formFields := AppendField(p.request.formFields, p.partName, data)))
  }

  function EndPart(p: Parser): Parser {
    match p.file
    case Some(f) =>
      p.(state := BoundarySearch, stream := Closed, file := None,
         request := p.request.(uploadedFiles := p.request.uploadedFiles[p.partName := f]))
    case None => p.(state := BoundarySearch)
  }

  function RunMultipart(p: Parser, chunk: string, host: Host): (o: Outcome)
    requires InMultipart(p)
    decreases |chunk|, if p.state.PartData? then 1 else 0
  {
    if chunk == "" then Outcome(Starved, p, chunk)
    else if p.state.BoundarySearch? then
      var c := DropCrlf(chunk);
      match Find(c, p.boundary, 0)
      case None => Outcome(Starved, p, c)
      case Some(i) =>
        var rest := c[i + |p.boundary|..];
        if StartsWith(rest, "--") then Outcome(Complete, p.(state := Done), DropCrlf(rest[2..]))
        else if StartsWith(rest, CRLF) then RunMultipart(p.(state := PartHeaders), rest[2..], host)
        else Outcome(Error, p, rest)
    else if p.state.PartHeaders? then
      match Find(chunk, BLANK_LINE, 0)
      case None => Outcome(Starved, p, chunk)
      case Some(i) =>
        var rest := chunk[i + 4..];
        match StartPart(p, chunk[..i], host)
        case Part(q, _) => RunMultipart(q, rest, host)
        case PartError(q) => Outcome(Error, q, rest)
        case PartThrows(q) => Outcome(Throws, q, rest)
    else
      match Find(chunk, CRLF + p.boundary, 0)
      case None => Outcome(Starved, TakePartData(p, chunk), "")
      case Some(i) => RunMultipart(EndPart(TakePartData(p, chunk[..i])), chunk[i..], host)
  }

  // ----- the whole parser -----

  /** What the bytes mean: every line is taken once. */
  function Run(p: Parser, data: string, host: Host): (o: Outcome)
    decreases |data|
  {
    if data == "" then Outcome(Starved, p, data)
    else if InLines(p) then
      match Find(data, CRLF, 0)
      case None => Outcome(MidLine, p, data)
      case Some(i) =>
        var taken := TakeLine(p, data[..i]);
        var rest := data[i + 2..];
        if !taken.0 then Outcome(Error, taken.1, rest)
        else if taken.1.state.Done? then Outcome(Complete, taken.1, rest)
        else Run(taken.1, rest, host)
    else if p.state.Body? then TakeBody(p, data)
    else if p.state.Done? then Outcome(Complete, p, data)
    else RunMultipart(p, data, host)
  }

  /**
   * What one call of parse does to the caller's buffer: a call that ends inside a line forgets that it took the lines
   * before.
   */
  function Kept(o: Outcome, data: string): string {
    if o.verdict.Complete? || o.verdict.Starved? then o.rest else data
  }

  function Reported(v: Verdict): ParseResult {
    match v
    case Complete => IsComplete
    case Starved => IsIncomplete
    case MidLine => IsIncomplete
    case Error => IsError
    case Throws => Exception
  }
}
