/** Fields and files as a browser encodes them, and what the parser makes of them. */
module MultipartForms {
  import opened Bytes
  import opened HttpText
  import opened HttpRequests
  import opened HttpParsing
  import opened HttpResume
  import opened HttpRoundTrip
  import opened Multipart

  datatype Item =
    | Field(name: string, value: string)
    | File(name: string, filename: string, contentType: string, bytes: string)

  const BEFORE_NAME: string := "Content-Disposition: form-data; "
  const NAME: string := "name="
  const FILENAME: string := "filename="

  function FieldLine(name: string): string { BEFORE_NAME + NAME + "\"" + name + "\"" }

  function FileLine(name: string, filename: string): string {
    FieldLine(name) + "; " + FILENAME + "\"" + filename + "\""
  }

  function TypeLine(contentType: string): string { "Content-Type: " + contentType }

  /** Section 4.2 of RFC 7578. */
  function PieceOf(item: Item): Piece {
    match item
    case Field(name, value) => Piece(FieldLine(name), value)
    case File(name, filename, contentType, bytes) =>
      Piece(FileLine(name, filename) + CRLF + TypeLine(contentType), bytes)
  }

  function PiecesOf(items: seq<Item>): (r: seq<Piece>)
    ensures |r| == |items|
  {
    if items == [] then [] else [PieceOf(items[0])] + PiecesOf(items[1..])
  }

  predicate EndsWith(s: string, tail: string) { |s| >= |tail| && s[|s| - |tail|..] == tail }

  // ----- the quoted parameters -----

  /** A key that ends in the first quote of the line is found where it stands. */
  lemma KeyFirst(a: string, stem: string, rest: string)
    requires '\"' !in a && '\"' !in stem
    ensures Find(a + stem + "\"" + rest, stem + "\"", 0) == Some(|a|)
  {
    hide Find;
    var line := a + stem + "\"" + rest;
    var key := stem + "\"";
    assert line == a + (key + rest);
    assert line[|a|..|a| + |key|] == key;
    forall k | 0 <= k < |a| ensures !At(line, key, k) {
      AtIndex(line, key, k, |stem|);
      assert line[k + |stem|] == (a + stem)[k + |stem|];
    }
    FirstAt(line, key, |a|);
  }

  lemma NextQuote(b: string, inside: string, rest: string)
    requires '\"' !in inside
    ensures Find(b + inside + "\"" + rest, "\"", |b|) == Some(|b| + |inside|)
  {
    hide Find;
    var line := b + inside + "\"" + rest;
    assert line[|b|..] == inside + "\"" + rest;
    FindShift(line, "\"", |b|, 0);
    FindChar(inside, '\"', rest);
  }

  lemma QuotedIs(line: string, a: string, stem: string, inside: string, rest: string)
    requires line == a + stem + "\"" + inside + "\"" + rest && '\"' !in stem && '\"' !in inside
    requires Find(line, stem + "\"", 0) == Some(|a|)
    ensures Quoted(line, stem + "\"") == Some(inside)
  {
    hide Find;
    var b := a + stem + "\"";
    assert line == b + inside + "\"" + rest;
    NextQuote(b, inside, rest);
    assert line[|b|..|b| + |inside|] == inside;
  }

  lemma NameIsRead(name: string, rest: string)
    requires '\"' !in name
    ensures Quoted(FieldLine(name) + rest, NAME + "\"") == Some(name)
  {
    hide Find, Quoted;
    var line := FieldLine(name) + rest;
    assert line == BEFORE_NAME + NAME + "\"" + (name + "\"" + rest);
    KeyFirst(BEFORE_NAME, NAME, name + "\"" + rest);
    assert line == BEFORE_NAME + NAME + "\"" + name + "\"" + rest;
    QuotedIs(line, BEFORE_NAME, NAME, name, rest);
  }

  /** Up to the quote that closes the name, only a name ending in filename= can look like the file name parameter. */
  lemma NoEarlyFilename(name: string, rest: string, k: nat)
    requires '\"' !in name && k + |FILENAME| < |FieldLine(name)|
    ensures At(FieldLine(name) + rest, FILENAME + "\"", k) <==>
            EndsWith(name, FILENAME) && k + |FILENAME| + 1 == |FieldLine(name)|
  {
    var before := BEFORE_NAME + NAME;
    var line := FieldLine(name) + rest;
    var key := FILENAME + "\"";
    var open, close := |before|, |FieldLine(name)| - 1;
    assert line == before + "\"" + name + "\"" + rest;
    AtIndex(line, key, k, |FILENAME|);
    AtIndex(line, key, k, 3);
    QuotesAre(name, rest, k + |FILENAME|);
    if k + |FILENAME| == open {
      assert line[k + 3] == before[k + 3] == ' ';
      assert key[3] == 'e';
    } else if k + |FILENAME| == close {
      assert line[close] == '\"';
      if |name| >= |FILENAME| {
        assert line[k..k + |FILENAME|] == name[|name| - |FILENAME|..];
        assert line[k..k + |key|] == line[k..k + |FILENAME|] + "\"";
        assert key[..|FILENAME|] == FILENAME;
      } else {
        AtIndex(line, key, k, open - k);
        assert line[open] == '\"';
      }
    }
  }

  lemma QuotesAre(name: string, rest: string, i: nat)
    requires '\"' !in name && i < |FieldLine(name)|
    ensures (FieldLine(name) + rest)[i] == '\"' <==> i == |BEFORE_NAME + NAME| || i == |FieldLine(name)| - 1
  {
  }

  /** A field is taken for a file exactly when its name ends in filename=. */
  lemma FieldHasNoFilename(name: string)
    requires '\"' !in name
    ensures Quoted(FieldLine(name), FILENAME + "\"").None? <==> !EndsWith(name, FILENAME)
  {
    hide Find, EndsWith;
    var line := FieldLine(name);
    assert line + "" == line;
    if EndsWith(name, FILENAME) {
      EndsLong(name);
      var k := |line| - |FILENAME| - 1;
      NoEarlyFilename(name, "", k);
      if Find(line, FILENAME + "\"", 0).None? {
        NoneAt(line, FILENAME + "\"", k);
      }
    } else if Find(line, FILENAME + "\"", 0).Some? {
      NoEarlyFilename(name, "", Find(line, FILENAME + "\"", 0).value);
    }
  }

  lemma EndsLong(name: string)
    requires EndsWith(name, FILENAME)
    ensures |name| >= |FILENAME|
  {
  }

  lemma FilenameIsRead(name: string, filename: string)
    requires '\"' !in name && '\"' !in filename && !EndsWith(name, FILENAME)
    ensures Quoted(FileLine(name, filename), FILENAME + "\"") == Some(filename)
  {
    hide Find, Quoted, EndsWith;
    var a := FieldLine(name) + "; ";
    var line := FileLine(name, filename);
    var rest := "; " + FILENAME + "\"" + filename + "\"";
    var key := FILENAME + "\"";
    assert line == FieldLine(name) + rest;
    assert line == a + FILENAME + "\"" + filename + "\"" + "";
    assert line[|a|..|a| + |key|] == key;
    forall k | 0 <= k < |a| ensures !At(line, key, k) {
      if k + |FILENAME| < |FieldLine(name)| {
        NoEarlyFilename(name, rest, k);
      } else {
        AtIndex(line, key, k, |FILENAME|);
        assert line[k + |FILENAME|] == ("; " + FILENAME)[k + |FILENAME| - |FieldLine(name)|];
      }
    }
    FirstAt(line, key, |a|);
    QuotedIs(line, a, FILENAME, filename, "");
  }

  // ----- the header blocks -----

  lemma DispositionStarts(name: string, rest: string)
    ensures StartsWith(FieldLine(name) + rest, "Content-Disposition:")
  {
  }

  lemma DispositionLine(p: Parser, name: string, t: string, host: Host)
    requires '\"' !in name && !EndsWith(name, FILENAME)
    ensures PartHeaderLine(p, t, FieldLine(name), host) == Part(p.(partName := name), t)
  {
    hide Find, Quoted, StartsWith, EndsWith, FieldLine;
    assert FieldLine(name) + "" == FieldLine(name);
    assert NAME + "\"" == "name=\"" && FILENAME + "\"" == "filename=\"";
    DispositionStarts(name, "");
    NameIsRead(name, "");
    FieldHasNoFilename(name);
  }

  lemma FileDispositionLine(p: Parser, name: string, filename: string, t: string, host: Host)
    requires '\"' !in name && '\"' !in filename && !EndsWith(name, FILENAME)
    requires p.stream.Closed? && TempPath(host, filename) !in host.refused
    ensures var path := TempPath(host, filename);
            PartHeaderLine(p, t, FileLine(name, filename), host) ==
            Part(p.(partName := name, file := Some(UploadedFile(filename, "", path, 0)),
                    stream := Open(path), disk := p.disk[path := ""]), t)
  {
    hide Find, Quoted, StartsWith, EndsWith, FieldLine, TempPath;
    assert NAME + "\"" == "name=\"" && FILENAME + "\"" == "filename=\"";
    var rest := "; " + FILENAME + "\"" + filename + "\"";
    assert FieldLine(name) + rest == FileLine(name, filename);
    DispositionStarts(name, rest);
    NameIsRead(name, rest);
    FilenameIsRead(name, filename);
  }

  lemma TypeLineRead(p: Parser, t: string, contentType: string, host: Host)
    ensures PartHeaderLine(p, t, TypeLine(contentType), host) == Part(p, contentType)
  {
    hide Quoted;
    var line := TypeLine(contentType);
    assert line[14..] == contentType;
    assert line[..13] == "Content-Type:";
    AtIndex(line, "Content-Disposition:", 0, 8);
    assert line[8] == 'T';
  }

  lemma LastCharKept(line: string)
    requires line != "" && line[|line| - 1] != '\r'
    ensures DropReturn(line) == line && DropReturn(line + "\r") == line
  {
  }

  lemma TypeLineEnd(contentType: string)
    requires '\r' !in contentType
    ensures var line := TypeLine(contentType); line[|line| - 1] != '\r'
  {
  }

  ghost predicate Clean(s: string) { '\"' !in s && '\n' !in s }

  lemma LinesHaveNoNewline(name: string, filename: string)
    requires Clean(name) && Clean(filename)
    ensures '\n' !in FieldLine(name) && '\n' !in FileLine(name, filename)
  {
  }

  lemma OneLineBlock(p: Parser, line: string, t: string, host: Host)
    requires '\n' !in line && line != "" && line[|line| - 1] != '\r'
    ensures PartHeaderLines(p, t, Split(line, '\n'), host) == PartHeaderLine(p, t, line, host)
  {
    hide Split, PartHeaderLine, DropReturn, Find;
    NotAt(line, '\n');
    SplitOnce(line, '\n');
    LastCharKept(line);
    assert [line][1..] == [];
    var o := PartHeaderLine(p, t, DropReturn(line), host);
    if o.Part? {
      assert PartHeaderLines(o.parser, o.contentType, [], host) == Part(o.parser, o.contentType);
    }
  }

  lemma TwoLineBlock(p: Parser, line: string, second: string, t: string, host: Host)
    requires '\n' !in line && line != "" && line[|line| - 1] != '\r'
    requires '\n' !in second && second != "" && second[|second| - 1] != '\r'
    ensures var o := PartHeaderLine(p, t, line, host);
            PartHeaderLines(p, t, Split(line + CRLF + second, '\n'), host) ==
            if o.Part? then PartHeaderLine(o.parser, o.contentType, second, host) else o
  {
    hide Split, PartHeaderLine, DropReturn, Find;
    var first := line + "\r";
    var block := line + CRLF + second;
    assert block == first + "\n" + second;
    FindChar(first, '\n', second);
    assert block[..|first|] == first && block[|first| + 1..] == second;
    SplitOnce(block, '\n');
    NotAt(second, '\n');
    SplitOnce(second, '\n');
    LastCharKept(line);
    assert ([first] + Split(second, '\n'))[1..] == Split(second, '\n');
    var o := PartHeaderLine(p, t, line, host);
    if o.Part? {
      OneLineBlock(o.parser, second, o.contentType, host);
    }
  }

  // ----- one item -----

  ghost predicate GoodItem(mark: string, item: Item, host: Host) {
    && Clean(item.name) && !EndsWith(item.name, FILENAME)
    && (match item
        case Field(_, value) => Find(value, CRLF + mark, 0).None?
        case File(_, filename, contentType, bytes) =>
          && Clean(filename) && '\r' !in contentType && '\n' !in contentType
          && TempPath(host, filename) !in host.refused
          && Find(bytes, CRLF + mark, 0).None?)
  }

  function StoreFields(fields: map<string, string>, item: Item): map<string, string> {
    if item.Field? && item.name != "" then AppendField(fields, item.name, item.value) else fields
  }

  function StoreFile(files: map<string, UploadedFile>, item: Item, host: Host): map<string, UploadedFile> {
    if item.File? then
      files[item.name := UploadedFile(item.filename, item.contentType, TempPath(host, item.filename), |item.bytes|)]
    else files
  }

  function StoreBytes(disk: map<string, string>, item: Item, host: Host): map<string, string> {
    if item.File? then disk[TempPath(host, item.filename) := item.bytes] else disk
  }

  /** What one item leaves behind. */
  function Store(p: Parser, item: Item, host: Host): Parser {
    p.(state := BoundarySearch, partName := item.name, file := None,
       request := p.request.(formFields := StoreFields(p.request.formFields, item),
                             uploadedFiles := StoreFile(p.request.uploadedFiles, item, host)),
       disk := StoreBytes(p.disk, item, host))
  }

  function StoreAll(p: Parser, items: seq<Item>, host: Host): Parser
    decreases |items|
  {
    if items == [] then p else StoreAll(Store(p, items[0], host), items[1..], host)
  }

  lemma FieldTaken(p: Parser, item: Item, host: Host)
    requires item.Field? && p.stream.Closed? && Clean(item.name) && !EndsWith(item.name, FILENAME)
    ensures var o := TakePart(p, PieceOf(item), host); o.Part? && o.parser == Store(p, item, host)
  {
    hide Split, PartHeaderLine, PartHeaderLines, Find, FieldLine, EndsWith;
    LinesHaveNoNewline(item.name, "");
    var q := p.(file := None, partName := "");
    FieldLineEnd(item.name);
    OneLineBlock(q, FieldLine(item.name), "text/plain", host);
    DispositionLine(q, item.name, "text/plain", host);
  }

  /**
   * A file is saved under the upload directory, the clock and its own name; without a line that says otherwise it is
   * plain text.
   */
  lemma FileWithoutType(p: Parser, name: string, filename: string, host: Host)
    requires p.stream.Closed? && Clean(name) && !EndsWith(name, FILENAME) && Clean(filename)
    ensures var path := host.uploadDir + "/" + host.stamp + "_" + filename;
            var o := StartPart(p, FileLine(name, filename), host);
            path !in host.refused ==>
              && o.Part? && o.parser.partName == name && o.parser.stream == Open(path)
              && o.parser.file == Some(UploadedFile(filename, "text/plain", path, 0))
              && o.parser.disk == p.disk[path := ""]
  {
    hide FileLine, PartHeaderLine, PartHeaderLines, Split, EndsWith;
    LinesHaveNoNewline(name, filename);
    FileLineEnd(name, filename);
    var q := p.(file := None, partName := "");
    OneLineBlock(q, FileLine(name, filename), "text/plain", host);
    if TempPath(host, filename) !in host.refused {
      FileDispositionLine(q, name, filename, "text/plain", host);
    }
  }

  lemma FieldLineEnd(name: string)
    ensures FieldLine(name) != "" && FieldLine(name)[|FieldLine(name)| - 1] == '\"'
  {
  }

  lemma FileLineEnd(name: string, filename: string)
    ensures FileLine(name, filename) != "" && FileLine(name, filename)[|FileLine(name, filename)| - 1] == '\"'
  {
  }

  lemma FileTaken(p: Parser, item: Item, host: Host)
    requires item.File? && p.stream.Closed? && Clean(item.name) && !EndsWith(item.name, FILENAME)
    requires Clean(item.filename) && '\r' !in item.contentType && '\n' !in item.contentType
    requires TempPath(host, item.filename) !in host.refused
    ensures var o := TakePart(p, PieceOf(item), host); o.Part? && o.parser == Store(p, item, host)
  {
    hide Split, PartHeaderLine, PartHeaderLines, Find, FieldLine, FileLine, EndsWith, TempPath;
    LinesHaveNoNewline(item.name, item.filename);
    var q := p.(file := None, partName := "");
    var path := TempPath(host, item.filename);
    FileLineEnd(item.name, item.filename);
    TypeLineEnd(item.contentType);
    TwoLineBlock(q, FileLine(item.name, item.filename), TypeLine(item.contentType), "text/plain", host);
    FileDispositionLine(q, item.name, item.filename, "text/plain", host);
    TypeLineRead(q.(partName := item.name, file := Some(UploadedFile(item.filename, "", path, 0)),
                    stream := Open(path), disk := q.disk[path := ""]), "text/plain", item.contentType, host);
    assert q.disk[path := ""][path := "" + item.bytes] == q.disk[path := item.bytes] by {
      assert "" + item.bytes == item.bytes;
    }
  }

  /** The misreading: a field stays a field exactly when its name does not end in filename=. */
  lemma FieldStaysField(p: Parser, name: string, host: Host)
    requires Clean(name) && p.stream.Closed? && host.refused == {}
    ensures var o := StartPart(p, FieldLine(name), host);
            o.Part? && o.parser.partName == name && (o.parser.file.None? <==> !EndsWith(name, FILENAME))
  {
    hide Split, PartHeaderLines, Find, FieldLine, EndsWith, Quoted, StartsWith;
    LinesHaveNoNewline(name, "");
    var q := p.(file := None, partName := "");
    FieldLineEnd(name);
    OneLineBlock(q, FieldLine(name), "text/plain", host);
    assert NAME + "\"" == "name=\"" && FILENAME + "\"" == "filename=\"";
    assert FieldLine(name) + "" == FieldLine(name);
    DispositionStarts(name, "");
    NameIsRead(name, "");
    FieldHasNoFilename(name);
  }

  lemma BlankNeedsNewlines(s: string, k: nat)
    requires At(s, BLANK_LINE, k)
    ensures s[k] == '\r' && s[k + 1] == '\n' && s[k + 3] == '\n'
  {
  }

  lemma LineSeparable(line: string)
    requires '\n' !in line && line != "" && line[|line| - 1] != '\r'
    ensures Find(line + BLANK_LINE, BLANK_LINE, 0) == Some(|line|)
  {
    hide Find;
    var all := line + BLANK_LINE;
    assert all[|line|..|line| + 4] == BLANK_LINE;
    forall k | 0 <= k < |line| ensures !At(all, BLANK_LINE, k) {
      assert all[k] == line[k];
      assert k + 1 < |line| ==> all[k + 1] == line[k + 1];
      if At(all, BLANK_LINE, k) {
        BlankNeedsNewlines(all, k);
      }
    }
    FirstAt(all, BLANK_LINE, |line|);
  }

  lemma TwoLinesSeparable(line: string, second: string)
    requires '\n' !in line
    requires '\n' !in second && |second| >= 2 && second[|second| - 1] != '\r'
    ensures var block := line + CRLF + second; Find(block + BLANK_LINE, BLANK_LINE, 0) == Some(|block|)
  {
    hide Find;
    var n := |line|;
    var block := line + CRLF + second;
    var all := block + BLANK_LINE;
    assert all[|block|..|block| + 4] == BLANK_LINE;
    forall k | 0 <= k < |block| ensures !At(all, BLANK_LINE, k) {
      TwoLinesNewlines(line, second, k);
      TwoLinesNewlines(line, second, k + 1);
      if k + 3 < |block| {
        TwoLinesNewlines(line, second, k + 3);
      }
      if At(all, BLANK_LINE, k) {
        BlankNeedsNewlines(all, k);
      }
    }
    FirstAt(all, BLANK_LINE, |block|);
  }

  lemma TwoLinesNewlines(line: string, second: string, i: nat)
    requires '\n' !in line && '\n' !in second && |second| >= 2 && second[|second| - 1] != '\r'
    requires i <= |line + CRLF + second|
    ensures var block := line + CRLF + second;
            var all := block + BLANK_LINE;
            && (all[i] == '\n' <==> i == |line| + 1)
            && (i == |block| - 1 ==> all[i] != '\r')
  {
  }

  lemma ItemSeparable(mark: string, item: Item, host: Host)
    requires GoodItem(mark, item, host)
    ensures Separable(mark, PieceOf(item))
  {
    hide Find, FieldLine, FileLine, EndsWith, TempPath;
    match item
    case Field(name, _) =>
      LinesHaveNoNewline(name, "");
      FieldLineEnd(name);
      LineSeparable(FieldLine(name));
    case File(name, filename, contentType, _) =>
      LinesHaveNoNewline(name, filename);
      TypeLineEnd(contentType);
      TwoLinesSeparable(FileLine(name, filename), TypeLine(contentType));
  }

  lemma ItemTaken(mark: string, p: Parser, item: Item, host: Host)
    requires GoodItem(mark, item, host) && p.stream.Closed?
    ensures var o := TakePart(p, PieceOf(item), host); o.Part? && o.parser == Store(p, item, host)
  {
    hide Find, FieldLine, FileLine, EndsWith, TempPath, TakePart, Store;
    if item.Field? {
      FieldTaken(p, item, host);
    } else {
      FileTaken(p, item, host);
    }
  }

  lemma {:induction false} ItemsSeparable(mark: string, items: seq<Item>, host: Host)
    requires forall item :: item in items ==> GoodItem(mark, item, host)
    ensures forall piece :: piece in PiecesOf(items) ==> Separable(mark, piece)
  {
    hide GoodItem, Separable, PieceOf;
    if items != [] {
      ItemSeparable(mark, items[0], host);
      ItemsSeparable(mark, items[1..], host);
    }
  }

  lemma {:induction false} ItemsTaken(mark: string, p: Parser, items: seq<Item>, host: Host)
    requires forall item :: item in items ==> GoodItem(mark, item, host)
    requires p.stream.Closed?
    ensures var o := TakeParts(p, PiecesOf(items), host); o.Part? && o.parser == StoreAll(p, items, host)
    decreases |items|
  {
    hide GoodItem, PieceOf, TakePart;
    if items != [] {
      ItemTaken(mark, p, items[0], host);
      assert PiecesOf(items)[1..] == PiecesOf(items[1..]);
      ItemsTaken(mark, Store(p, items[0], host), items[1..], host);
    }
  }

  /** Parsing an encoded form stores its items in order and leaves exactly the trailing bytes. */
  lemma FormBodyParses(p: Parser, items: seq<Item>, trailing: string, host: Host)
    requires p.state.BoundarySearch? && p.stream.Closed? && '\r' !in p.boundary && p.boundary != ""
    requires forall item :: item in items ==> GoodItem(p.boundary, item, host)
    ensures RunMultipart(p, PrintParts(p.boundary, PiecesOf(items)) + trailing, host) ==
            Outcome(Complete, StoreAll(p, items, host).(state := Done), trailing)
  {
    hide GoodItem, Separable, RunMultipart, TakeParts, StoreAll, PiecesOf;
    ItemsSeparable(p.boundary, items, host);
    ItemsTaken(p.boundary, p, items, host);
    var chunk := PrintParts(p.boundary, PiecesOf(items)) + trailing;
    assert chunk == p.boundary + (AfterDelimiter(p.boundary, PiecesOf(items)) + trailing);
    PartsParse(p, chunk, PiecesOf(items), trailing, host);
  }

  // ----- what the stored state holds -----

  /** The values of all fields of a name, one after the other. */
  function FieldText(items: seq<Item>, name: string): string {
    if items == [] then ""
    else Added(items[0], name) + FieldText(items[1..], name)
  }

  predicate IsField(item: Item, name: string) { item.Field? && item.name == name }

  function Added(item: Item, name: string): string { if IsField(item, name) then item.value else "" }

  predicate HasField(items: seq<Item>, name: string) {
    items != [] && (IsField(items[0], name) || HasField(items[1..], name))
  }

  function StoreAllFields(fields: map<string, string>, items: seq<Item>): map<string, string>
    decreases |items|
  {
    if items == [] then fields else StoreAllFields(StoreFields(fields, items[0]), items[1..])
  }

  lemma {:induction false} FieldsOfAll(p: Parser, items: seq<Item>, host: Host)
    ensures StoreAll(p, items, host).request.formFields == StoreAllFields(p.request.formFields, items)
    decreases |items|
  {
    if items != [] {
      FieldsOfAll(Store(p, items[0], host), items[1..], host);
    }
  }

  ghost function TextOf(fields: map<string, string>, name: string): string {
    if name in fields then fields[name] else ""
  }

  lemma StoreFieldsText(was: map<string, string>, item: Item, name: string)
    requires name != ""
    ensures var now := StoreFields(was, item);
            && (name in now <==> name in was || IsField(item, name))
            && TextOf(now, name) == TextOf(was, name) + Added(item, name)
  {
  }

  lemma {:induction false} FieldsJoin(was: map<string, string>, items: seq<Item>, name: string)
    requires name != ""
    ensures var now := StoreAllFields(was, items);
            && (name in now <==> name in was || HasField(items, name))
            && TextOf(now, name) == TextOf(was, name) + FieldText(items, name)
    decreases |items|
  {
    hide StoreFields, TextOf, IsField, Added;
    var before := TextOf(was, name);
    if items != [] {
      FieldsJoin(StoreFields(was, items[0]), items[1..], name);
      StoreFieldsText(was, items[0], name);
      var added := Added(items[0], name);
      var later := FieldText(items[1..], name);
      assert (before + added) + later == before + (added + later);
    } else {
      assert before + "" == before;
    }
  }

  /** Each field holds the in-order concatenation of its parts; other fields are untouched. */
  lemma FieldsAreConcatenated(p: Parser, items: seq<Item>, name: string, host: Host)
    requires name != ""
    ensures var was, now := p.request.formFields, StoreAll(p, items, host).request.formFields;
            && (name in now <==> name in was || HasField(items, name))
            && (name in now ==> now[name] == TextOf(was, name) + FieldText(items, name))
  {
    hide StoreAll, StoreAllFields;
    FieldsOfAll(p, items, host);
    FieldsJoin(p.request.formFields, items, name);
  }

  predicate SavesUnder(item: Item, name: string) { item.File? && item.name == name }

  predicate SavesTo(item: Item, path: string, host: Host) { item.File? && TempPath(host, item.filename) == path }

  /**
   * A file is recorded with its exact size, and its bytes are on disk, unless a later part takes its name or its
   * path.
   */
  lemma {:induction false} FilesAreExact(p: Parser, items: seq<Item>, k: nat, host: Host)
    requires k < |items| && items[k].File?
    ensures var f, q := items[k], StoreAll(p, items, host);
            var path := TempPath(host, f.filename);
            && ((forall j :: k < j < |items| ==> !SavesUnder(items[j], f.name)) ==>
                  f.name in q.request.uploadedFiles &&
                  q.request.uploadedFiles[f.name] == UploadedFile(f.filename, f.contentType, path, |f.bytes|))
            && ((forall j :: k < j < |items| ==> !SavesTo(items[j], path, host)) ==>
                  path in q.disk && q.disk[path] == f.bytes)
    decreases |items|
  {
    hide TempPath;
    var q := Store(p, items[0], host);
    var rest := items[1..];
    if k > 0 {
      FilesAreExact(q, rest, k - 1, host);
      assert rest[k - 1] == items[k];
      assert forall j :: k - 1 < j < |rest| ==> rest[j] == items[j + 1];
    } else {
      assert forall j :: 0 <= j < |rest| ==> rest[j] == items[j + 1];
      FilesKept(q, rest, items[0].name, TempPath(host, items[0].filename), host);
    }
  }

  lemma {:induction false} FilesKept(p: Parser, items: seq<Item>, name: string, path: string, host: Host)
    ensures var q := StoreAll(p, items, host);
            && ((forall j :: 0 <= j < |items| ==> !SavesUnder(items[j], name)) ==>
                  name in p.request.uploadedFiles ==>
                  name in q.request.uploadedFiles && q.request.uploadedFiles[name] == p.request.uploadedFiles[name])
            && ((forall j :: 0 <= j < |items| ==> !SavesTo(items[j], path, host)) ==>
                  path in p.disk ==>
                  path in q.disk && q.disk[path] == p.disk[path])
    decreases |items|
  {
    hide TempPath;
    if items != [] {
      var rest := items[1..];
      FilesKept(Store(p, items[0], host), rest, name, path, host);
      assert forall j :: 0 <= j < |rest| ==> rest[j] == items[j + 1];
    }
  }

  // ----- the whole request -----

  /** The boundary parameter is read wherever it stands in a multipart content type, with or without quotes. */
  lemma BoundaryIsRead(h: Headers, before: string, b: string, quoted: bool)
    requires Find(before, "multipart/form-data", 0).Some? && Find(before, "boundary=", 0).None?
    requires !quoted && b != "" ==> b[0] != '\"'
    requires GetHeader(h, "Content-Type") == Some(before + "boundary=" + if quoted then "\"" + b + "\"" else b)
    ensures IsMultipart(h) && GetBoundary(h) == b
  {
    hide GetHeader, Find, Unquote;
    var parameter := if quoted then "\"" + b + "\"" else b;
    UnquoteIs(b, quoted);
    FoundBehind(before, "boundary=", parameter);
    assert before + "boundary=" + parameter == before + ("boundary=" + parameter);
    FindExtend(before, "boundary=" + parameter, "multipart/form-data");
  }

  lemma UnquoteIs(b: string, quoted: bool)
    requires !quoted && b != "" ==> b[0] != '\"'
    ensures Unquote(if quoted then "\"" + b + "\"" else b) == b
  {
    assert ("\"" + b + "\"")[1..|b| + 1] == b;
  }

  /** A pattern whose first character does not recur in it is found behind a text without it. */
  lemma FoundBehind(before: string, pat: string, rest: string)
    requires pat != "" && (forall j :: 0 < j < |pat| ==> pat[j] != pat[0]) && Find(before, pat, 0).None?
    ensures var v := before + pat + rest;
            Find(v, pat, 0) == Some(|before|) && v[|before| + |pat|..] == rest
  {
    hide Find;
    var v := before + pat + rest;
    assert v == before + (pat + rest);
    assert v[|before|..|before| + |pat|] == pat;
    forall k | 0 <= k < |before| ensures !At(v, pat, k) {
      if k + |pat| <= |before| {
        NoneAt(before, pat, k);
        AtExtend(before, pat + rest, pat, k);
      } else {
        AtIndex(v, pat, k, |before| - k);
        assert v[|before|] == pat[0];
      }
    }
    FirstAt(v, pat, |before|);
  }

  /** A multipart request whose body is in the same buffer is read completely. */
  lemma FormRequestParses(p: Parser, m: Message, items: seq<Item>, trailing: string, host: Host)
    requires p == Reset(p) && m.verb != UNKNOWN
    requires m.path != "" && Spaceless(m.path) && m.version != "" && Spaceless(m.version)
    requires PlainHeaders(m.headers) && IsMultipart(HeadersOf(m.headers))
    requires GetBoundary(HeadersOf(m.headers)) != "" && '\r' !in GetBoundary(HeadersOf(m.headers))
    requires var mark := "--" + GetBoundary(HeadersOf(m.headers));
             && m.body == PrintParts(mark, PiecesOf(items))
             && forall item :: item in items ==> GoodItem(mark, item, host)
    ensures var h := HeadersOf(m.headers);
            var r := p.request.(verb := m.verb, path := m.path, version := m.version, headers := h);
            var q := p.(request := r, boundary := "--" + GetBoundary(h), state := BoundarySearch);
            Run(p, Print(m) + trailing, host) == Outcome(Complete, StoreAll(q, items, host).(state := Done), trailing)
  {
    hide Run, IsMultipart, GetBoundary, Find, OneLine, ParseRequestLine, Spaceless, PlainHeaders, PlainHeader;
    hide GoodItem, PiecesOf, StoreAll, PrintParts, Reset, HeadersOf;
    var line := RequestLineOf(m);
    var mark := "--" + GetBoundary(HeadersOf(m.headers));
    RequestLineParses(p, m);
    ResetFields(p);
    var q := p.(request := p.request.(verb := m.verb, path := m.path, version := m.version), state := Headers);
    var rest := PrintHeaders(m.headers) + (CRLF + m.body + trailing);
    assert Print(m) + trailing == line + CRLF + rest;
    assert TakeLine(p, line) == (true, q);
    RunLine(p, line, rest, q, host);
    HeadersArePlain(m.headers);
    HeadersParse(q, m.headers, CRLF + m.body + trailing, host);
    var r := WithHeaders(q, HeadersOf(m.headers));
    NoReturnIsOneLine("");
    assert CRLF + m.body + trailing == "" + CRLF + (m.body + trailing);
    var t := r.(boundary := mark, state := BoundarySearch);
    assert TakeLine(r, "") == (true, t);
    RunLine(r, "", m.body + trailing, t, host);
    FormBodyParses(t, items, trailing, host);
    PrintPartsNonempty(mark, PiecesOf(items));
    RunMulti(t, m.body + trailing, host);
  }

  lemma ResetFields(p: Parser)
    requires p == Reset(p)
    ensures p.state.RequestLine? && p.request == EMPTY_REQUEST && p.stream.Closed?
  {
  }

  lemma PrintPartsNonempty(mark: string, pieces: seq<Piece>)
    requires mark != ""
    ensures PrintParts(mark, pieces) != ""
  {
  }

  lemma RunMulti(p: Parser, data: string, host: Host)
    requires InMultipart(p) && data != ""
    ensures Run(p, data, host) == RunMultipart(p, data, host)
  {
  }
}
