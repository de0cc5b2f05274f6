/** Multipart forms that arrive in one buffer: parsing gives back the fields and files that were encoded. */
module Multipart {
  import opened Bytes
  import opened HttpText
  import opened HttpParsing
  import opened HttpResume

  /** One body part of section 5.1.1 of RFC 2046: its header block and its bytes. */
  datatype Piece = Piece(block: string, data: string)

  /** What follows a delimiter: the remaining parts, each closed by a delimiter, or the closing mark. */
  function AfterDelimiter(mark: string, pieces: seq<Piece>): string {
    if pieces == [] then "--" + CRLF
    else CRLF + pieces[0].block + BLANK_LINE + pieces[0].data + CRLF + mark + AfterDelimiter(mark, pieces[1..])
  }

  function PrintParts(mark: string, pieces: seq<Piece>): string { mark + AfterDelimiter(mark, pieces) }

  /** The block ends at the first blank line, and the data do not contain the delimiter. */
  ghost predicate Separable(mark: string, piece: Piece) {
    && Find(piece.block + BLANK_LINE, BLANK_LINE, 0) == Some(|piece.block|)
    && Find(piece.data, CRLF + mark, 0).None?
  }

  /** One part taken as a whole. */
  function TakePart(p: Parser, piece: Piece, host: Host): PartOutcome {
    match StartPart(p, piece.block, host)
    case Part(q, t) => Part(EndPart(TakePartData(q, piece.data)), t)
    case failed => failed
  }

  function TakeParts(p: Parser, pieces: seq<Piece>, host: Host): PartOutcome
    decreases |pieces|
  {
    if pieces == [] then Part(p, "")
    else
      match TakePart(p, pieces[0], host)
      case Part(q, _) => TakeParts(q, pieces[1..], host)
      case failed => failed
  }

  /**
   * A delimiter starts with the only carriage return in it, so it cannot overlap itself: it is found exactly behind
   * the data.
   */
  lemma DataEnds(data: string, mark: string, rest: string)
    requires '\r' !in mark && Find(data, CRLF + mark, 0).None?
    ensures Find(data + CRLF + mark + rest, CRLF + mark, 0) == Some(|data|)
  {
    hide Find;
    var delimiter := CRLF + mark;
    var all := data + delimiter + rest;
    assert all == data + CRLF + mark + rest;
    assert all[|data|..|data| + |delimiter|] == delimiter;
    forall k | 0 <= k < |data| ensures !At(all, delimiter, k) {
      if k + |delimiter| <= |data| {
        NoneAt(data, delimiter, k);
        assert all == data + (delimiter + rest);
        AtExtend(data, delimiter + rest, delimiter, k);
      } else {
        NoInnerReturn(mark, |data| - k);
        AtIndex(all, delimiter, k, |data| - k);
        assert all[|data|] == '\r';
      }
    }
    FirstAt(all, delimiter, |data|);
  }

  lemma AtIndex(s: string, pat: string, k: nat, j: nat)
    requires j < |pat|
    ensures At(s, pat, k) ==> k + j < |s| && s[k + j] == pat[j]
  {
  }

  lemma NoInnerReturn(mark: string, j: nat)
    requires '\r' !in mark && 1 <= j < |mark| + 2
    ensures (CRLF + mark)[j] != '\r'
  {
  }

  lemma MarkFirst(mark: string, rest: string)
    requires '\r' !in mark && mark != ""
    ensures Find(mark + rest, mark, 0) == Some(0) && (mark + rest)[|mark|..] == rest
    ensures DropCrlf(mark + rest) == mark + rest && DropCrlf(CRLF + mark + rest) == mark + rest
  {
    assert (mark + rest)[0..|mark|] == mark;
    FirstAt(mark + rest, mark, 0);
    assert CRLF + mark + rest == CRLF + (mark + rest);
    assert (mark + rest)[0] == mark[0];
    AtIndex(mark + rest, CRLF, 0, 0);
  }

  lemma BlockEnds(block: string, rest: string)
    requires Find(block + BLANK_LINE, BLANK_LINE, 0) == Some(|block|)
    ensures var all := block + BLANK_LINE + rest;
            Find(all, BLANK_LINE, 0) == Some(|block|) && all[..|block|] == block && all[|block| + 4..] == rest
  {
    hide Find;
    FindExtend(block + BLANK_LINE, rest, BLANK_LINE);
  }

  /** One turn of the multipart loop in each of its states. */
  lemma TurnHeaders(p: Parser, block: string, rest: string, host: Host)
    requires p.state.PartHeaders? && Find(block + BLANK_LINE, BLANK_LINE, 0) == Some(|block|)
    ensures RunMultipart(p, block + BLANK_LINE + rest, host) ==
            var started := StartPart(p, block, host);
            if started.Part? then RunMultipart(started.parser, rest, host)
            else Outcome(if started.PartError? then Error else Throws, started.parser, rest)
  {
    hide StartPart, Find;
    BlockEnds(block, rest);
    StartKeepsHeaders(p, block, host);
  }

  lemma TurnData(p: Parser, data: string, rest: string, host: Host)
    requires p.state.PartData? && '\r' !in p.boundary && Find(data, CRLF + p.boundary, 0).None?
    ensures var q := EndPart(TakePartData(p, data));
            q.state.BoundarySearch? &&
            RunMultipart(p, data + CRLF + p.boundary + rest, host) == RunMultipart(q, CRLF + p.boundary + rest, host)
  {
    hide TakePartData, EndPart, Find;
    var all := data + CRLF + p.boundary + rest;
    DataEnds(data, p.boundary, rest);
    DataKeepsHeaders(p, data);
    assert all[..|data|] == data && all[|data|..] == CRLF + p.boundary + rest;
  }

  lemma TurnSearch(p: Parser, chunk: string, rest: string, host: Host)
    requires p.state.BoundarySearch? && '\r' !in p.boundary && p.boundary != ""
    requires chunk == p.boundary + rest || chunk == CRLF + p.boundary + rest
    ensures StartsWith(rest, "--") ==>
              RunMultipart(p, chunk, host) == Outcome(Complete, p.(state := Done), DropCrlf(rest[2..]))
    ensures StartsWith(rest, CRLF) ==>
              RunMultipart(p, chunk, host) == RunMultipart(p.(state := PartHeaders), rest[2..], host)
  {
    hide Find;
    MarkFirst(p.boundary, rest);
    assert DropCrlf(chunk) == p.boundary + rest;
  }

  /** The parts are taken one after the other, and exactly the trailing bytes are left. */
  lemma {:induction false} PartsParse(p: Parser, chunk: string, pieces: seq<Piece>, trailing: string, host: Host)
    requires p.state.BoundarySearch? && '\r' !in p.boundary && p.boundary != ""
    requires forall piece :: piece in pieces ==> Separable(p.boundary, piece)
    requires var all := p.boundary + (AfterDelimiter(p.boundary, pieces) + trailing);
             chunk == all || chunk == CRLF + all
    ensures var taken := TakeParts(p, pieces, host);
            var o := RunMultipart(p, chunk, host);
            if taken.Part? then o == Outcome(Complete, taken.parser.(state := Done), trailing)
            else
              && o.verdict == (if taken.PartError? then Error else Throws)
              && o.parser == taken.parser.(state := PartHeaders)
    decreases |pieces|
  {
    hide RunMultipart, StartPart, TakePartData, EndPart, Find, Separable, StartsWith, DropCrlf, AfterDelimiter;
    var mark := p.boundary;
    var rest := AfterDelimiter(mark, pieces) + trailing;
    TurnSearch(p, chunk, rest, host);
    if pieces == [] {
      LastText(mark, trailing);
    } else {
      var block, data := pieces[0].block, pieces[0].data;
      var more := AfterDelimiter(mark, pieces[1..]) + trailing;
      var tail := data + CRLF + mark + more;
      NextText(mark, pieces, trailing);
      SeparableParts(mark, pieces[0]);
      var q := p.(state := PartHeaders);
      TurnHeaders(q, block, tail, host);
      StartKeepsHeaders(q, block, host);
      StartIgnoresState(p, block, host);
      var started := StartPart(q, block, host);
      if started.Part? {
        TurnData(started.parser, data, more, host);
        EndKeepsBoundary(started.parser, data);
        assert CRLF + mark + more == CRLF + (mark + more);
        PartsParse(EndPart(TakePartData(started.parser, data)), CRLF + mark + more, pieces[1..], trailing, host);
        SecondPart(p, pieces, host);
      }
    }
  }

  lemma LastText(mark: string, trailing: string)
    ensures var rest := AfterDelimiter(mark, []) + trailing;
            StartsWith(rest, "--") && DropCrlf(rest[2..]) == trailing
  {
  }

  lemma NextText(mark: string, pieces: seq<Piece>, trailing: string)
    requires pieces != []
    ensures var rest := AfterDelimiter(mark, pieces) + trailing;
            var more := AfterDelimiter(mark, pieces[1..]) + trailing;
            StartsWith(rest, CRLF) &&
            rest[2..] == pieces[0].block + BLANK_LINE + (pieces[0].data + CRLF + mark + more)
  {
    var more := AfterDelimiter(mark, pieces[1..]) + trailing;
    assert AfterDelimiter(mark, pieces) + trailing ==
           CRLF + (pieces[0].block + BLANK_LINE + (pieces[0].data + CRLF + mark + more));
  }

  lemma SecondPart(p: Parser, pieces: seq<Piece>, host: Host)
    requires pieces != [] && TakePart(p, pieces[0], host).Part?
    ensures TakeParts(p, pieces, host) == TakeParts(TakePart(p, pieces[0], host).parser, pieces[1..], host)
  {
  }

  lemma SeparableParts(mark: string, piece: Piece)
    requires Separable(mark, piece)
    ensures Find(piece.block + BLANK_LINE, BLANK_LINE, 0) == Some(|piece.block|)
    ensures Find(piece.data, CRLF + mark, 0).None?
  {
  }

  lemma EndKeepsBoundary(p: Parser, data: string)
    ensures EndPart(TakePartData(p, data)).boundary == p.boundary
  {
  }

  /** The header block is read the same in either search state. */
  lemma StartIgnoresState(p: Parser, block: string, host: Host)
    requires p.state.BoundarySearch?
    ensures var a := StartPart(p, block, host);
            StartPart(p.(state := PartHeaders), block, host) == if a.Part? then a else InState(a, PartHeaders)
  {
    hide PartHeaderLines;
    LinesIgnoreState(p.(file := None, partName := ""), "text/plain", Split(block, '\n'), host);
  }

  ghost function InState(o: PartOutcome, s: ParseState): PartOutcome {
    match o
    case Part(q, t) => Part(q.(state := s), t)
    case PartError(q) => PartError(q.(state := s))
    case PartThrows(q) => PartThrows(q.(state := s))
  }

  lemma LineIgnoresState(p: Parser, t: string, line: string, host: Host)
    ensures PartHeaderLine(p.(state := PartHeaders), t, line, host) ==
      InState(PartHeaderLine(p, t, line, host), PartHeaders)
  {
    hide Quoted, StartsWith, TempPath;
  }

  lemma {:induction false} LinesIgnoreState(p: Parser, t: string, lines: seq<string>, host: Host)
    ensures PartHeaderLines(p.(state := PartHeaders), t, lines, host) ==
      InState(PartHeaderLines(p, t, lines, host), PartHeaders)
    decreases |lines|
  {
    hide PartHeaderLine, DropReturn;
    if lines != [] && lines[0] != "" {
      LineIgnoresState(p, t, DropReturn(lines[0]), host);
      var o := PartHeaderLine(p, t, DropReturn(lines[0]), host);
      if o.Part? {
        LinesIgnoreState(o.parser, o.contentType, lines[1..], host);
      }
    }
  }

  // ----- when parsing throws -----

  /** Before any empty line stands a content type line with nothing behind its colon. */
  predicate HasBareType(lines: seq<string>) {
    lines != [] && lines[0] != "" && (DropReturn(lines[0]) == "Content-Type:" || HasBareType(lines[1..]))
  }

  lemma LineThrowsIff(p: Parser, t: string, line: string, host: Host)
    ensures PartHeaderLine(p, t, line, host).PartThrows? <==> line == "Content-Type:"
    ensures host.refused == {} ==> !PartHeaderLine(p, t, line, host).PartError?
  {
    hide Quoted, TempPath;
    if StartsWith(line, "Content-Type:") && |line| < 14 {
      assert line == line[0..13];
    }
    AtIndex("Content-Type:", "Content-Disposition:", 0, 8);
  }

  lemma {:induction false} LinesThrowIff(p: Parser, t: string, lines: seq<string>, host: Host)
    requires host.refused == {}
    ensures PartHeaderLines(p, t, lines, host).PartThrows? <==> HasBareType(lines)
    ensures !PartHeaderLines(p, t, lines, host).PartError?
    decreases |lines|
  {
    hide PartHeaderLine, DropReturn;
    if lines != [] && lines[0] != "" {
      LineThrowsIff(p, t, DropReturn(lines[0]), host);
      var o := PartHeaderLine(p, t, DropReturn(lines[0]), host);
      if o.Part? {
        LinesThrowIff(o.parser, o.contentType, lines[1..], host);
      }
    }
  }

  lemma {:induction false} PartsThrowIff(p: Parser, pieces: seq<Piece>, host: Host)
    requires host.refused == {}
    ensures TakeParts(p, pieces, host).PartThrows? <==>
            exists k :: 0 <= k < |pieces| && HasBareType(Split(pieces[k].block, '\n'))
    ensures !TakeParts(p, pieces, host).PartError?
    decreases |pieces|
  {
    hide PartHeaderLines, HasBareType, Split, TakePartData, EndPart;
    if pieces != [] {
      var rest := pieces[1..];
      LinesThrowIff(p.(file := None, partName := ""), "text/plain", Split(pieces[0].block, '\n'), host);
      var o := TakePart(p, pieces[0], host);
      if o.Part? {
        PartsThrowIff(o.parser, rest, host);
        assert forall k :: 0 <= k < |rest| ==> rest[k] == pieces[k + 1];
      }
    }
  }

  /**
   * While every file opens, parsing a form throws if and only if the header block of some part has a content type
   * line with nothing behind its colon.
   */
  lemma FormThrowsIff(p: Parser, pieces: seq<Piece>, trailing: string, host: Host)
    requires p.state.BoundarySearch? && '\r' !in p.boundary && p.boundary != "" && host.refused == {}
    requires forall piece :: piece in pieces ==> Separable(p.boundary, piece)
    ensures RunMultipart(p, PrintParts(p.boundary, pieces) + trailing, host).verdict.Throws? <==>
            exists k :: 0 <= k < |pieces| && HasBareType(Split(pieces[k].block, '\n'))
  {
    hide RunMultipart, TakeParts, HasBareType, Separable, Split;
    PartsThrowIff(p, pieces, host);
    var chunk := PrintParts(p.boundary, pieces) + trailing;
    assert chunk == p.boundary + (AfterDelimiter(p.boundary, pieces) + trailing);
    PartsParse(p, chunk, pieces, trailing, host);
  }
}
