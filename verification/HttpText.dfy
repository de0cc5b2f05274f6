/** Text primitives of the HTTP side. A byte of the wire is a char below 256. */
module HttpText {
  import opened Bytes

  const CRLF: string := "\r\n"
  const BLANK_LINE: string := "\r\n\r\n"

  predicate At(s: string, pat: string, i: nat) {
    i + |pat| <= |s| && s[i..i + |pat|] == pat
  }

  predicate StartsWith(s: string, pat: string) { At(s, pat, 0) }

  /** std::string::find: the first occurrence at or after a position. */
  function Find(s: string, pat: string, from: nat): (r: Option<nat>)
    ensures r.Some? ==> from <= r.value && At(s, pat, r.value)
    ensures r.Some? ==> forall i :: from <= i < r.value ==> !At(s, pat, i)
    ensures r.None? ==> forall i :: from <= i ==> !At(s, pat, i)
    decreases |s| - from
  {
    if from + |pat| > |s| then None
    else if At(s, pat, from) then Some(from)
    else Find(s, pat, from + 1)
  }

  lemma FirstAt(s: string, pat: string, i: nat)
    requires At(s, pat, i)
    requires forall k :: 0 <= k < i ==> !At(s, pat, k)
    ensures Find(s, pat, 0) == Some(i)
  {
  }

  lemma AtExtend(s: string, more: string, pat: string, i: nat)
    requires i + |pat| <= |s|
    ensures At(s + more, pat, i) == At(s, pat, i)
  {
  }

  /** An occurrence once found stays the first one whatever is appended. */
  lemma FindExtend(s: string, more: string, pat: string)
    requires Find(s, pat, 0).Some?
    ensures Find(s + more, pat, 0) == Find(s, pat, 0)
  {
    var i := Find(s, pat, 0).value;
    AtExtend(s, more, pat, i);
    forall k | 0 <= k < i ensures !At(s + more, pat, k) {
      AtExtend(s, more, pat, k);
    }
    FirstAt(s + more, pat, i);
  }

  /** Searching a suffix is searching from its offset. */
  lemma {:induction false} FindShift(s: string, pat: string, n: nat, from: nat)
    requires n <= |s|
    ensures Find(s, pat, n + from) ==
            match Find(s[n..], pat, from) case None => None case Some(i) => Some(n + i)
    decreases |s| - from
  {
    if n + from + |pat| <= |s| {
      assert s[n..][from..from + |pat|] == s[n + from..n + from + |pat|];
      if !At(s[n..], pat, from) {
        FindShift(s, pat, n, from + 1);
      }
    }
  }

  predicate Blank(c: char) { c == ' ' || c == '\t' }

  /** isspace of the C locale. */
  predicate Space(c: char) { c == ' ' || '\t' <= c <= '\r' }

  predicate Digit(c: char) { '0' <= c <= '9' }

  function TrimLeft(s: string): string {
    if s != "" && Blank(s[0]) then TrimLeft(s[1..]) else s
  }

  function TrimRight(s: string): string {
    if s != "" && Blank(s[|s| - 1]) then TrimRight(s[..|s| - 1]) else s
  }

  function Trim(s: string): string { TrimRight(TrimLeft(s)) }

  predicate Trimmed(s: string) {
    s != "" ==> !Blank(s[0]) && !Blank(s[|s| - 1])
  }

  function SkipSpace(s: string): (r: string)
    ensures |r| <= |s|
  {
    if s != "" && Space(s[0]) then SkipSpace(s[1..]) else s
  }

  function WordLength(s: string): (n: nat)
    ensures n <= |s|
  {
    if s == "" || Space(s[0]) then 0 else 1 + WordLength(s[1..])
  }

  /** Stream extraction of a word: skip white space, then take everything up to the next white space. */
  function Word(s: string): (string, string) {
    var t := SkipSpace(s);
    (t[..WordLength(t)], t[WordLength(t)..])
  }

  predicate Spaceless(s: string) { forall i :: 0 <= i < |s| ==> !Space(s[i]) }

  lemma {:induction false} WordLengthOf(w: string, tail: string)
    requires Spaceless(w) && (tail == "" || Space(tail[0]))
    ensures WordLength(w + tail) == |w|
  {
    if w == "" {
      assert w + tail == tail;
    } else {
      assert (w + tail)[1..] == w[1..] + tail;
      WordLengthOf(w[1..], tail);
    }
  }

  lemma WordOf(w: string, tail: string)
    requires Spaceless(w) && w != "" && (tail == "" || Space(tail[0]))
    ensures Word(w + tail) == (w, tail)
    ensures Word(" " + w + tail) == (w, tail)
  {
    WordLengthOf(w, tail);
    assert SkipSpace(w + tail) == w + tail;
    assert (" " + w + tail)[1..] == w + tail;
    assert SkipSpace(" " + w + tail) == SkipSpace(w + tail);
    assert (w + tail)[..|w|] == w && (w + tail)[|w|..] == tail;
  }

  function Lower(c: char): char {
    if 'A' <= c <= 'Z' then (c as int + 32) as char else c
  }

  predicate SameName(a: string, b: string) {
    |a| == |b| && forall i :: 0 <= i < |a| ==> Lower(a[i]) == Lower(b[i])
  }

  /** The capital and the small form of one letter. */
  predicate CaseTwins(c: char, d: char) {
    ('A' <= c <= 'Z' && d as int == c as int + 32) || ('A' <= d <= 'Z' && c as int == d as int + 32)
  }

  /** Two names are the same if they differ in nothing but the case of letters. */
  lemma SameNameIs(a: string, b: string)
    ensures SameName(a, b) <==>
            |a| == |b| && forall i :: 0 <= i < |a| ==> a[i] == b[i] || CaseTwins(a[i], b[i])
  {
    if |a| == |b| {
      forall i | 0 <= i < |a| ensures Lower(a[i]) == Lower(b[i]) <==> a[i] == b[i] || CaseTwins(a[i], b[i]) {
      }
    }
  }

  /** Lexicographic order. */
  predicate UpTo(a: string, b: string) {
    a == "" || (b != "" && (a[0] < b[0] || (a[0] == b[0] && UpTo(a[1..], b[1..]))))
  }

  lemma {:induction false} UpToOrders(a: string, b: string)
    ensures UpTo(a, b) || UpTo(b, a)
    ensures UpTo(a, b) && UpTo(b, a) ==> a == b
  {
    if a != "" && b != "" && a[0] == b[0] {
      UpToOrders(a[1..], b[1..]);
      assert a == [a[0]] + a[1..] && b == [b[0]] + b[1..];
    }
  }

  lemma {:induction false} UpToChains(a: string, b: string, c: string)
    requires UpTo(a, b) && UpTo(b, c)
    ensures UpTo(a, c)
  {
    if a != "" && a[0] == b[0] == c[0] {
      UpToChains(a[1..], b[1..], c[1..]);
    }
  }

  lemma {:induction false} LeastExists(names: set<string>)
    requires names != {}
    ensures exists n :: n in names && forall m :: m in names ==> UpTo(n, m)
  {
    var a :| a in names;
    var rest := names - {a};
    UpToOrders(a, a);
    if rest == {} {
      assert forall m :: m in names ==> m == a || m in rest;
    } else {
      LeastExists(rest);
      var b :| b in rest && forall m :: m in rest ==> UpTo(b, m);
      UpToOrders(a, b);
      var n := if UpTo(a, b) then a else b;
      forall m | m in names ensures UpTo(n, m) {
        if m != a && n == a {
          UpToChains(a, b, m);
        }
      }
    }
  }

  function Least(names: set<string>): (n: string)
    requires names != {}
    ensures n in names && forall m :: m in names ==> UpTo(n, m)
  {
    LeastExists(names);
    assert forall a, b :: UpTo(a, b) && UpTo(b, a) ==> a == b by {
      forall a, b ensures UpTo(a, b) && UpTo(b, a) ==> a == b {
        UpToOrders(a, b);
      }
    }
    var n :| n in names && forall m :: m in names ==> UpTo(n, m);
    n
  }

  /** The digits at the front of a text, read in base ten after what was read before. */
  function Digits(s: string, read: nat): nat {
    if s == "" || !Digit(s[0]) then read
    else Digits(s[1..], 10 * read + (s[0] as int - '0' as int))
  }

  /** std::stoul of base ten on a 64-bit unsigned long; None is its exception. */
  function Stoul(s: string): (r: Option<nat>)
    ensures r.Some? ==> r.value < TWO_TO_THE_64
  {
    var t := SkipSpace(s);
    var signed := t != "" && (t[0] == '+' || t[0] == '-');
    var u := if signed then t[1..] else t;
    if u == "" || !Digit(u[0]) then None
    else
      var n := Digits(u, 0);
      if n >= TWO_TO_THE_64 then None
      else if signed && t[0] == '-' && n > 0 then Some(TWO_TO_THE_64 - n)
      else Some(n)
  }

  function DigitChar(d: nat): char
    requires d < 10
  {
    ('0' as int + d) as char
  }

  /** std::to_string of an unsigned number. */
  function Decimal(n: nat): (s: string)
    ensures s != "" && forall i :: 0 <= i < |s| ==> Digit(s[i])
  {
    if n < 10 then [DigitChar(n)] else Decimal(n / 10) + [DigitChar(n % 10)]
  }

  lemma {:induction false} DigitsAppend(s: string, d: char, read: nat)
    requires Digit(d) && forall i :: 0 <= i < |s| ==> Digit(s[i])
    ensures Digits(s + [d], read) == 10 * Digits(s, read) + (d as int - '0' as int)
  {
    if s == "" {
      assert (s + [d])[1..] == "";
    } else {
      assert (s + [d])[1..] == s[1..] + [d];
      DigitsAppend(s[1..], d, 10 * read + (s[0] as int - '0' as int));
    }
  }

  lemma {:induction false} DigitsOfDecimal(n: nat)
    ensures Digits(Decimal(n), 0) == n
  {
    if n >= 10 {
      DigitsOfDecimal(n / 10);
      DigitsAppend(Decimal(n / 10), DigitChar(n % 10), 0);
    } else {
      assert Decimal(n)[1..] == "";
    }
  }

  lemma StoulOfDecimal(n: nat)
    ensures Stoul(Decimal(n)) == if n < TWO_TO_THE_64 then Some(n) else None
    ensures Trimmed(Decimal(n))
  {
    DigitsOfDecimal(n);
    var s := Decimal(n);
    assert Digit(s[0]) && Digit(s[|s| - 1]);
    assert SkipSpace(s) == s;
  }

  /** The pieces between delimiters, as repeated std::getline returns them: an empty last piece is not returned. */
  function Split(s: string, delimiter: char): seq<string>
    decreases |s|
  {
    if s == "" then []
    else match Find(s, [delimiter], 0)
      case None => [s]
      case Some(i) => [s[..i]] + Split(s[i + 1..], delimiter)
  }

  lemma SplitOnce(s: string, delimiter: char)
    requires s != ""
    ensures Split(s, delimiter) ==
            match Find(s, [delimiter], 0)
            case None => [s]
            case Some(i) => [s[..i]] + Split(s[i + 1..], delimiter)
  {
  }

  lemma SplitNothing(delimiter: char)
    ensures Split("", delimiter) == []
  {
  }

  function Join(pieces: seq<string>, delimiter: char): string {
    if pieces == [] then "" else pieces[0] + [delimiter] + Join(pieces[1..], delimiter)
  }

  lemma NotAt(s: string, c: char)
    requires c !in s
    ensures forall i: nat :: !At(s, [c], i)
  {
    forall i: nat ensures !At(s, [c], i) {
      if i < |s| {
        assert s[i..i + 1][0] == s[i];
      }
    }
  }

  lemma FindChar(s: string, c: char, tail: string)
    requires c !in s
    ensures Find(s + [c] + tail, [c], 0) == Some(|s|)
  {
    var t := s + [c] + tail;
    assert t[|s|..|s| + 1] == [c];
    forall k | 0 <= k < |s| ensures !At(t, [c], k) {
      assert t[k..k + 1][0] == s[k];
    }
    FirstAt(t, [c], |s|);
  }

  /** Splitting undoes joining, also when a last piece without its delimiter follows. */
  lemma {:induction false} SplitJoin(pieces: seq<string>, last: string, c: char)
    requires forall p :: p in pieces ==> c !in p
    requires c !in last
    ensures Split(Join(pieces, c) + last, c) == if last == "" then pieces else pieces + [last]
    decreases |pieces|
  {
    hide Find, Split;
    if pieces == [] {
      assert Join(pieces, c) + last == last;
      NotAt(last, c);
      if last == "" {
        SplitNothing(c);
      } else {
        SplitOnce(last, c);
      }
    } else {
      var more := Join(pieces[1..], c) + last;
      var all := pieces[0] + [c] + more;
      assert Join(pieces, c) + last == all;
      FindChar(pieces[0], c, more);
      SplitOnce(all, c);
      assert all[..|pieces[0]|] == pieces[0];
      assert all[|pieces[0]| + 1..] == more;
      SplitJoin(pieces[1..], last, c);
      assert pieces == [pieces[0]] + pieces[1..];
    }
  }

  predicate OneLine(s: string) { Find(s, CRLF, 0).None? }

  lemma NoReturnIsOneLine(s: string)
    requires '\r' !in s
    ensures OneLine(s)
  {
    forall i: nat ensures !At(s, CRLF, i) {
      if i + 2 <= |s| {
        assert s[i..i + 2][0] == s[i];
      }
    }
  }

  /** A text without a line end, then a line end: the line end found first is that one. */
  lemma LineIs(line: string, rest: string)
    requires OneLine(line)
    ensures var d := line + CRLF + rest;
            Find(d, CRLF, 0) == Some(|line|) && d[..|line|] == line && d[|line| + 2..] == rest
  {
    hide Find;
    var d := line + CRLF + rest;
    assert d[|line|..|line| + 2] == CRLF;
    forall k | 0 <= k < |line| ensures !At(d, CRLF, k) {
      assert d[k + 1] == d[k..k + 2][1];
      if k + 2 <= |line| {
        assert d == line + (CRLF + rest);
        AtExtend(line, CRLF + rest, CRLF, k);
        assert !At(line, CRLF, k) by { NoneAt(line, CRLF, k); }
      }
    }
    FirstAt(d, CRLF, |line|);
  }

  lemma NoneAt(s: string, pat: string, k: nat)
    requires Find(s, pat, 0).None?
    ensures !At(s, pat, k)
  {
  }
}
