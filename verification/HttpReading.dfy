/** What the parser reads off a line that a client has spelled freely: blanks, padding, numbers and escapes. */
module HttpReading {
  import opened Bytes
  import opened HttpText
  import opened HttpRequests
  import opened HttpForm
  import opened HttpParsing
  import opened HttpRoundTrip

  // ----- header lines -----

  predicate Pad(c: char) { c == ' ' || c == '\t' }

  predicate Padding(s: string) { forall i :: 0 <= i < |s| ==> Pad(s[i]) }

  predicate Unpadded(s: string) { s != "" ==> !Pad(s[0]) && !Pad(s[|s| - 1]) }

  lemma {:induction false} TrimLeftOf(left: string, s: string)
    requires Padding(left) && (s != "" ==> !Pad(s[0]))
    ensures TrimLeft(left + s) == s
  {
    if left == "" {
      assert left + s == s;
    } else {
      assert (left + s)[1..] == left[1..] + s;
      TrimLeftOf(left[1..], s);
    }
  }

  lemma {:induction false} TrimRightOf(s: string, right: string)
    requires Padding(right) && (s != "" ==> !Pad(s[|s| - 1]))
    ensures TrimRight(s + right) == s
  {
    var all := s + right;
    if right == "" {
      assert all == s;
    } else {
      assert all[|all| - 1] == right[|right| - 1];
      assert all[..|all| - 1] == s + right[..|right| - 1];
      TrimRightOf(s, right[..|right| - 1]);
    }
  }

  /** Spaces and tabs around a text go, on both sides, and nothing else. */
  lemma TrimOf(left: string, s: string, right: string)
    requires Padding(left) && Unpadded(s) && Padding(right)
    ensures Trim(left + s + right) == s
  {
    if s == "" {
      TrimLeftOf(left + right, "");
      assert left + s + right == left + right + "";
    } else {
      assert left + s + right == left + (s + right);
      TrimLeftOf(left, s + right);
      TrimRightOf(s, right);
    }
  }

  /** A name and a value however they are padded; only the first colon separates. */
  lemma PaddedHeader(a: string, name: string, b: string, c: string, value: string, d: string)
    requires Padding(a) && Padding(b) && Padding(c) && Padding(d) && Unpadded(name) && Unpadded(value)
    requires ':' !in name
    ensures HeaderOf(a + name + b + ":" + c + value + d) == Some((name, value))
  {
    hide Find, Trim, Unpadded;
    var front, back := a + name + b, c + value + d;
    var line := front + ":" + back;
    assert a + name + b + ":" + c + value + d == line;
    assert ':' !in front;
    FindChar(front, ':', back);
    assert line[..|front|] == front && line[|front| + 1..] == back;
    TrimOf(a, name, b);
    TrimOf(c, value, d);
  }

  /** A line is refused as a header if and only if it has no colon. */
  lemma HeaderRefusedIff(line: string)
    ensures HeaderOf(line).None? <==> ':' !in line
  {
    if ':' in line {
      var i :| 0 <= i < |line| && line[i] == ':';
      assert At(line, ":", i);
    } else {
      NotAt(line, ':');
    }
  }

  // ----- the request line -----

  /** Space, tab, line feed, vertical tab, form feed, carriage return. */
  predicate Void(c: char) { c as int in {32, 9, 10, 11, 12, 13} }

  predicate Gap(s: string) { forall i :: 0 <= i < |s| ==> Void(s[i]) }

  predicate IsWord(s: string) { s != "" && forall i :: 0 <= i < |s| ==> !Void(s[i]) }

  predicate EndsWord(rest: string) { rest == "" || Void(rest[0]) }

  lemma {:induction false} SkipGap(gap: string, s: string)
    requires Gap(gap)
    ensures SkipSpace(gap + s) == SkipSpace(s)
  {
    if gap == "" {
      assert gap + s == s;
    } else {
      assert (gap + s)[1..] == gap[1..] + s;
      SkipGap(gap[1..], s);
    }
  }

  lemma NextWord(gap: string, word: string, rest: string)
    requires Gap(gap) && IsWord(word) && EndsWord(rest)
    ensures Word(gap + word + rest) == (word, rest)
  {
    hide WordLength;
    WordOf(word, rest);
    SkipGap(gap, word + rest);
    assert gap + word + rest == gap + (word + rest);
  }

  lemma NoWord(gap: string)
    requires Gap(gap)
    ensures Word(gap) == ("", "")
  {
    SkipGap(gap, "");
    assert gap + "" == gap;
  }

  /** Three words in a row, however they are set apart, are the request; whatever follows them is ignored. */
  lemma SpacedRequestLine(
    p: Parser, a: string, verb: string, b: string, path: string, c: string, version: string, rest: string)
    requires Gap(a) && Gap(b) && Gap(c) && b != "" && c != "" && EndsWord(rest)
    requires IsWord(verb) && IsWord(path) && IsWord(version)
    ensures var q := ParseRequestLine(p, a + verb + b + path + c + version + rest);
            && q.Some?
            && q.value == p.(request := q.value.request)
            && q.value.request == p.request.(verb := q.value.request.verb, path := path, version := version)
            && (if verb == "GET" || verb == "POST" || verb == "HEAD" then MethodName(q.value.request.verb) == verb
                else q.value.request.verb == UNKNOWN)
  {
    hide Word;
    var third := c + version + rest;
    var second := b + path + third;
    assert a + verb + b + path + c + version + rest == a + verb + second;
    NextWord(a, verb, second);
    NextWord(b, path, third);
    NextWord(c, version, rest);
  }

  /** Fewer than three words are refused. */
  lemma ShortRequestLine(p: Parser, a: string, verb: string, b: string, path: string, c: string)
    requires Gap(a) && Gap(b) && Gap(c)
    requires IsWord(verb) && (path != "" ==> b != "" && IsWord(path))
    ensures ParseRequestLine(p, a) == None
    ensures ParseRequestLine(p, a + verb + b + path + c) == None
  {
    hide Word, IsWord;
    NoWord(a);
    NoWord("");
    NoWord(c);
    var second := b + path + c;
    assert a + verb + b + path + c == a + verb + second;
    NextWord(a, verb, second);
    if path == "" {
      assert second == b + c;
      NoWord(b + c);
    } else {
      NextWord(b, path, c);
    }
  }

  // ----- declared lengths -----

  predicate AllDigits(s: string) { forall i :: 0 <= i < |s| ==> '0' <= s[i] <= '9' }

  /** The number that digits denote. */
  function NumberOf(s: string): nat
    requires AllDigits(s)
  {
    if s == "" then 0
    else 10 * NumberOf(s[..|s| - 1]) + (s[|s| - 1] as int - '0' as int)
  }

  predicate StartsWithDigit(s: string) { s != "" && '0' <= s[0] <= '9' }

  lemma {:induction false} DigitsThenJunk(s: string, junk: string, read: nat)
    requires AllDigits(s) && !StartsWithDigit(junk)
    ensures Digits(s + junk, read) == Digits(s, read)
  {
    if s == "" {
      assert s + junk == junk;
    } else {
      assert (s + junk)[1..] == s[1..] + junk;
      DigitsThenJunk(s[1..], junk, 10 * read + (s[0] as int - '0' as int));
    }
  }

  lemma {:induction false} DigitsAreNumber(s: string)
    requires AllDigits(s)
    ensures Digits(s, 0) == NumberOf(s)
  {
    if s != "" {
      var front := s[..|s| - 1];
      DigitsAreNumber(front);
      DigitsAppend(front, s[|s| - 1], 0);
      assert s == front + [s[|s| - 1]];
    }
  }

  /** White space, at most one sign, digits, and anything that goes on otherwise. */
  lemma LengthIsRead(gap: string, sign: string, digits: string, junk: string)
    requires Gap(gap) && sign in {"", "+", "-"} && digits != "" && AllDigits(digits) && !StartsWithDigit(junk)
    ensures var n := NumberOf(digits);
            Stoul(gap + sign + digits + junk) ==
            if n >= 0x1_0000_0000_0000_0000 then None
            else Some(if sign == "-" then (0x1_0000_0000_0000_0000 - n) % 0x1_0000_0000_0000_0000 else n)
  {
    hide Digits, NumberOf;
    var number := digits + junk;
    var text := sign + number;
    SkipGap(gap, text);
    assert gap + sign + digits + junk == gap + text;
    assert !Space(text[0]);
    assert SkipSpace(text) == text;
    assert number == if sign == "" then text else text[1..];
    DigitsThenJunk(digits, junk, 0);
    DigitsAreNumber(digits);
  }

  /** Without a digit behind the white space and the sign there is no length. */
  lemma LengthIsRefused(gap: string, sign: string, junk: string)
    requires Gap(gap) && sign in {"", "+", "-"} && !StartsWithDigit(junk)
    requires sign == "" ==> !EndsWord(junk) && junk[0] != '+' && junk[0] != '-'
    ensures Stoul(gap + sign + junk) == None
  {
    var text := sign + junk;
    SkipGap(gap, text);
    assert gap + sign + junk == gap + text;
    assert SkipSpace(text) == text;
    assert junk == if sign == "" then text else text[1..];
  }

  // ----- escapes -----

  /** The digits of base sixteen in both spellings, each at the place of its value. */
  const SMALL_DIGITS: string := "0123456789abcdef"
  const CAPITAL_DIGITS: string := "0123456789ABCDEF"

  predicate HexSpelling(c: char, d: nat) { d < 16 && (c == SMALL_DIGITS[d] || c == CAPITAL_DIGITS[d]) }

  ghost predicate NoHex(c: char) { forall d: nat :: !HexSpelling(c, d) }

  lemma HexValueOf(c: char, d: nat)
    ensures HexValue(c) == Some(d) <==> HexSpelling(c, d)
  {
    if d < 10 {
      assert SMALL_DIGITS[d] as int == '0' as int + d && CAPITAL_DIGITS[d] as int == '0' as int + d;
    } else if d < 16 {
      assert SMALL_DIGITS[d] as int == 'a' as int + d - 10 && CAPITAL_DIGITS[d] as int == 'A' as int + d - 10;
    }
  }

  lemma HexValueNone(c: char)
    ensures HexValue(c) == None <==> NoHex(c)
  {
    hide HexValue, HexSpelling;
    forall d: nat ensures HexSpelling(c, d) <==> HexValue(c) == Some(d) {
      HexValueOf(c, d);
    }
    if HexValue(c).Some? {
      assert HexSpelling(c, HexValue(c).value);
    }
  }

  lemma SignIsNoHex(c: char)
    requires Void(c) || c == '+' || c == '-'
    ensures HexValue(c) == None
  {
  }

  /** An escape stands for the byte of its two digits, in either spelling. */
  lemma EscapeOf(a: char, b: char, high: nat, low: nat, rest: string)
    requires HexSpelling(a, high) && HexSpelling(b, low)
    ensures high < 16 && low < 16 && UrlDecode("%" + [a, b] + rest) == [(16 * high + low) as char] + UrlDecode(rest)
  {
    HexValueOf(a, high);
    HexValueOf(b, low);
    Unescape(a, b, rest);
  }

  lemma Unescape(a: char, b: char, rest: string)
    ensures UrlDecode("%" + [a, b] + rest) ==
            if Stoi16(a, b).Some? then [ToChar(Stoi16(a, b).value)] + UrlDecode(rest)
            else "%" + UrlDecode([a, b] + rest)
  {
    hide Stoi16, ToChar;
    var s := "%" + [a, b] + rest;
    assert s[0] == '%' && s[1] == a && s[2] == b && s[3..] == rest && s[1..] == [a, b] + rest;
  }

  /** One digit next to something else: in front of it, or behind white space or a sign, it stands for itself. */
  lemma HalfAnEscape(a: char, b: char, d: nat, rest: string)
    requires d < 16
    ensures HexSpelling(a, d) && NoHex(b) ==> UrlDecode("%" + [a, b] + rest) == [d as char] + UrlDecode(rest)
    ensures (Void(a) || a == '+') && HexSpelling(b, d) ==>
              UrlDecode("%" + [a, b] + rest) == [d as char] + UrlDecode(rest)
    ensures a == '-' && HexSpelling(b, d) ==>
              UrlDecode("%" + [a, b] + rest) == [((256 - d) % 256) as char] + UrlDecode(rest)
  {
    hide HexValue, HexSpelling, NoHex, UrlDecode;
    Unescape(a, b, rest);
    HexValueOf(a, d);
    HexValueOf(b, d);
    HexValueNone(b);
    if Void(a) || a == '+' || a == '-' {
      SignIsNoHex(a);
    }
  }

  /** Any other percent sign stays, and so does every other byte but the plus. */
  lemma NoEscape(c: char, a: char, b: char, rest: string)
    requires c != '+'
    ensures c != '%' || (NoHex(a) && (NoHex(b) || !(Void(a) || a == '+' || a == '-'))) ==>
              UrlDecode([c, a, b] + rest) == [c] + UrlDecode([a, b] + rest)
    ensures UrlDecode([c, a]) == [c] + UrlDecode([a]) && UrlDecode([c]) == [c]
    ensures UrlDecode("+" + rest) == " " + UrlDecode(rest)
  {
    hide HexValue, NoHex;
    HexValueNone(a);
    HexValueNone(b);
    var s := [c, a, b] + rest;
    assert s[1] == a && s[2] == b && s[1..] == [a, b] + rest;
    assert [c, a][1..] == [a] && [c][1..] == "" && ("+" + rest)[1..] == rest;
  }

  /** The first equals sign separates key and value; a piece without one is no field. */
  lemma FieldOf(fields: map<string, string>, key: string, value: string)
    requires '=' !in key
    ensures PutField(fields, key + "=" + value) == fields[UrlDecode(key) := UrlDecode(value)]
    ensures PutField(fields, key) == fields
  {
    hide Find;
    var piece := key + "=" + value;
    FindChar(key, '=', value);
    assert piece[..|key|] == key && piece[|key| + 1..] == value;
    NotAt(key, '=');
    assert "=" == ['='];
  }

  // ----- which body -----

  lemma {:induction false} FoundIff(s: string, pat: string)
    ensures Find(s, pat, 0).Some? <==> exists a, b :: s == a + pat + b
  {
    if Find(s, pat, 0).Some? {
      var i := Find(s, pat, 0).value;
      assert s == s[..i] + pat + s[i + |pat|..];
    }
    if a, b :| s == a + pat + b {
      assert s[|a|..|a| + |pat|] == pat;
      assert At(s, pat, |a|);
    }
  }

  /** The kind of body is whatever the content type mentions anywhere. */
  lemma BodyKind(h: Headers)
    ensures IsMultipart(h) <==>
              exists a, b :: GetHeader(h, "Content-Type") == Some(a + "multipart/form-data" + b)
    ensures IsForm(h) <==>
              exists a, b :: GetHeader(h, "Content-Type") == Some(a + "application/x-www-form-urlencoded" + b)
  {
    hide Find, GetHeader;
    var v := GetHeader(h, "Content-Type");
    if v.Some? {
      FoundIff(v.value, "multipart/form-data");
      FoundIff(v.value, "application/x-www-form-urlencoded");
    }
  }
}
