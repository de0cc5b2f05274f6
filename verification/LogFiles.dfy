/** Log rotation: which file is open after each line, how its name is made, and how full files get. */
module LogFiles {
  import opened HttpText

  datatype Date = Date(year: nat, month: nat, day: nat)

  /** A log file of a day; index 0 is the one without a suffix. */
  datatype LogFile = LogFile(date: Date, index: nat)

  ghost predicate RealDate(d: Date) { d.month < 100 && d.day < 100 }

  ghost predicate NotAfter(a: Date, b: Date) {
    a.year < b.year || (a.year == b.year && (a.month < b.month || (a.month == b.month && a.day <= b.day)))
  }

  ghost predicate FileNotAfter(f: LogFile, g: LogFile) {
    if f.date == g.date then f.index <= g.index else NotAfter(f.date, g.date)
  }

  // ----- names -----

  /** "%02d" */
  function Pad2(n: nat): string { if n < 10 then "0" + Decimal(n) else Decimal(n) }

  function DatePrefix(d: Date): string {
    Decimal(d.year) + "_" + Pad2(d.month) + "_" + Pad2(d.day) + "_"
  }

  function MakeLogFullname(dir: string, base: string, d: Date, count: nat, splitLines: nat, newDay: bool): string {
    dir + DatePrefix(d) + base +
    (if !newDay && splitLines > 0 && count > 0 && count % splitLines == 0
     then "." + Decimal(count / splitLines) else "")
  }

  function NameOf(dir: string, base: string, f: LogFile): string {
    dir + DatePrefix(f.date) + base + (if f.index == 0 then "" else "." + Decimal(f.index))
  }

  lemma DecimalInjective(a: nat, b: nat)
    ensures Decimal(a) == Decimal(b) ==> a == b
  {
    DigitsOfDecimal(a);
    DigitsOfDecimal(b);
  }

  lemma UntilUnderscore(a: nat, x: string, b: nat, y: string)
    requires Decimal(a) + "_" + x == Decimal(b) + "_" + y
    ensures a == b && x == y
  {
    hide Find, Decimal;
    FindChar(Decimal(a), '_', x);
    FindChar(Decimal(b), '_', y);
    var s, t := Decimal(a) + "_" + x, Decimal(b) + "_" + y;
    assert s[..|Decimal(a)|] == Decimal(a) && t[..|Decimal(b)|] == Decimal(b);
    assert s[|Decimal(a)| + 1..] == x && t[|Decimal(b)| + 1..] == y;
    DecimalInjective(a, b);
  }

  lemma Pad2Injective(a: nat, b: nat)
    requires a < 100 && b < 100
    ensures |Pad2(a)| == 2 && (Pad2(a) == Pad2(b) ==> a == b)
  {
    hide Decimal;
    TwoDigits(a);
    TwoDigits(b);
    DecimalInjective(a, b);
    if Pad2(a) == Pad2(b) {
      assert Pad2(a)[1..] == Pad2(b)[1..];
      if a < 10 && b < 10 {
        assert ("0" + Decimal(a))[1..] == Decimal(a) && ("0" + Decimal(b))[1..] == Decimal(b);
      }
    }
  }

  lemma TwoDigits(a: nat)
    requires a < 100
    ensures if a < 10 then |Decimal(a)| == 1 else |Decimal(a)| == 2 && Decimal(a)[0] != '0'
  {
  }

  lemma SameTail(p: string, x: string, q: string, y: string)
    requires p + x == q + y && |p| == |q|
    ensures p == q && x == y
  {
    assert (p + x)[..|p|] == p && (q + y)[..|q|] == q;
    assert (p + x)[|p|..] == x && (q + y)[|q|..] == y;
  }

  lemma PrefixDiffers(d: Date, x: string, e: Date, y: string)
    requires RealDate(d) && RealDate(e) && DatePrefix(d) + x == DatePrefix(e) + y
    ensures d == e && x == y
  {
    hide Decimal, Pad2;
    var dayD, dayE := Pad2(d.day) + ("_" + x), Pad2(e.day) + ("_" + y);
    var monthD, monthE := Pad2(d.month) + ("_" + dayD), Pad2(e.month) + ("_" + dayE);
    assert DatePrefix(d) + x == Decimal(d.year) + "_" + monthD;
    assert DatePrefix(e) + y == Decimal(e.year) + "_" + monthE;
    UntilUnderscore(d.year, monthD, e.year, monthE);
    Pad2Injective(d.month, e.month);
    Pad2Injective(e.month, d.month);
    SameTail(Pad2(d.month), "_" + dayD, Pad2(e.month), "_" + dayE);
    SameTail("_", dayD, "_", dayE);
    Pad2Injective(d.day, e.day);
    Pad2Injective(e.day, d.day);
    SameTail(Pad2(d.day), "_" + x, Pad2(e.day), "_" + y);
    SameTail("_", x, "_", y);
  }

  /** Different files have different names. */
  lemma NamesDiffer(dir: string, base: string, f: LogFile, g: LogFile)
    requires RealDate(f.date) && RealDate(g.date)
    ensures NameOf(dir, base, f) == NameOf(dir, base, g) ==> f == g
  {
    hide Decimal, DatePrefix, RealDate;
    if NameOf(dir, base, f) == NameOf(dir, base, g) {
      var tailF := if f.index == 0 then "" else "." + Decimal(f.index);
      var tailG := if g.index == 0 then "" else "." + Decimal(g.index);
      assert NameOf(dir, base, f) == dir + (DatePrefix(f.date) + (base + tailF));
      assert NameOf(dir, base, g) == dir + (DatePrefix(g.date) + (base + tailG));
      SameTail(dir, DatePrefix(f.date) + (base + tailF), dir, DatePrefix(g.date) + (base + tailG));
      PrefixDiffers(f.date, base + tailF, g.date, base + tailG);
      SameTail(base, tailF, base, tailG);
      if f.index != 0 && g.index != 0 {
        SameTail(".", Decimal(f.index), ".", Decimal(g.index));
        DecimalInjective(f.index, g.index);
      }
    }
  }

  /** Nothing but digits, which read as the number. */
  ghost predicate Shows(s: string, n: nat) {
    (forall i :: 0 <= i < |s| ==> Digit(s[i])) && Digits(s, 0) == n
  }

  lemma Pad2Reads(n: nat)
    requires n < 100
    ensures |Pad2(n)| == 2 && Shows(Pad2(n), n)
  {
    TwoDigits(n);
    DigitsOfDecimal(n);
    if n < 10 {
      assert ("0" + Decimal(n))[1..] == Decimal(n);
    }
  }

  lemma YearReads(n: nat)
    requires 1000 <= n < 10000
    ensures |Decimal(n)| == 4 && Shows(Decimal(n), n)
  {
    DigitsOfDecimal(n);
    assert |Decimal(n / 100)| == 2;
  }

  /** A name shows directory, year, month, day, base and, if it is not the first file of the day, the index. */
  lemma NameReads(dir: string, base: string, f: LogFile)
    requires RealDate(f.date) && 1000 <= f.date.year < 10000
    ensures var name, n, m := NameOf(dir, base, f), |dir|, |dir| + 11 + |base|;
            && m <= |name| && name[..n] == dir
            && Shows(name[n..n + 4], f.date.year) && name[n + 4] == '_'
            && Shows(name[n + 5..n + 7], f.date.month) && name[n + 7] == '_'
            && Shows(name[n + 8..n + 10], f.date.day) && name[n + 10] == '_'
            && name[n + 11..m] == base
            && (if f.index == 0 then name[m..] == ""
                else name[m..] != "" && name[m] == '.' && Shows(name[m + 1..], f.index))
  {
    hide Decimal, Pad2, Digits, Shows;
    var tail := if f.index == 0 then "" else "." + Decimal(f.index);
    YearReads(f.date.year);
    Pad2Reads(f.date.month);
    Pad2Reads(f.date.day);
    IndexReads(f.index);
    var year, month, day := Decimal(f.date.year), Pad2(f.date.month), Pad2(f.date.day);
    var name, n := NameOf(dir, base, f), |dir|;
    assert name == dir + (year + "_" + month + "_" + day + "_" + base + tail);
    assert name[n..] == year + "_" + month + "_" + day + "_" + base + tail;
    assert name[n..n + 4] == year && name[n + 5..n + 7] == month && name[n + 8..n + 10] == day;
    assert name[n + 11..n + 11 + |base|] == base && name[n + 11 + |base|..] == tail;
    assert tail != "" ==> tail[1..] == Decimal(f.index);
  }

  lemma IndexReads(n: nat)
    ensures Shows(Decimal(n), n)
  {
    DigitsOfDecimal(n);
  }

  // ----- rotation -----

  datatype Output = OnFile(file: LogFile) | Stderr

  /** The writer's state: lines counted today, the day of the month last seen, where lines go, and the files. */
  datatype LogState = LogState(
    splitLines: nat, count: nat, today: nat, out: Output, files: map<LogFile, seq<string>>, stderr: seq<string>)

  function LinesOf(files: map<LogFile, seq<string>>, f: LogFile): seq<string> {
    if f in files then files[f] else []
  }

  predicate Rotates(s: LogState, d: Date)
    requires s.splitLines > 0
  {
    s.today != d.day || s.count % s.splitLines == 0
  }

  /** switch_log; `opens` is what fopen answers. */
  function Switch(s: LogState, d: Date, opens: bool): LogState
    requires s.splitLines > 0
  {
    if !Rotates(s, d) then s
    else
      var newDay := s.today != d.day;
      var count := if newDay then 0 else s.count;
      s.(today := d.day, count := count,
         out := if opens then OnFile(LogFile(d, count / s.splitLines)) else Stderr)
  }

  function Append(s: LogState, line: string): LogState {
    match s.out
    case OnFile(f) => s.(files := s.files[f := LinesOf(s.files, f) + [line]])
    case Stderr => s.(stderr := s.stderr + [line])
  }

  /** write_single_log */
  function Write(s: LogState, d: Date, opens: bool, line: string): LogState
    requires s.splitLines > 0
  {
    Append(Switch(s.(count := s.count + 1), d, opens), line)
  }

  /** init: the first file is opened before any line is counted. */
  function Init(splitLines: nat, d: Date): LogState {
    LogState(splitLines, 0, d.day, OnFile(LogFile(d, 0)), map[], [])
  }

  /** The name that make_log_fullname builds is the name of the file that Switch opens. */
  lemma SwitchOpens(dir: string, base: string, s: LogState, d: Date)
    requires s.splitLines > 0 && Rotates(s, d)
    ensures var newDay := s.today != d.day;
            var count := if newDay then 0 else s.count;
            MakeLogFullname(dir, base, d, count, s.splitLines, newDay) ==
            NameOf(dir, base, LogFile(d, count / s.splitLines))
  {
    hide Decimal;
    if s.today == d.day && s.count > 0 {
      WholeQuotient(s.count, s.splitLines);
    }
  }

  lemma WholeQuotient(count: nat, n: nat)
    requires n > 0 && count > 0 && count % n == 0
    ensures count / n > 0
  {
  }

  lemma NextQuotient(count: nat, n: nat)
    requires n > 0
    ensures if (count + 1) % n == 0 then (count + 1) / n == count / n + 1
            else (count + 1) / n == count / n && (count + 1) % n == count % n + 1
  {
    var q, r := count / n, count % n;
    assert count == q * n + r;
    if r + 1 < n {
      assert count + 1 == q * n + (r + 1);
      QuotientIs(count + 1, n, q, r + 1);
    } else {
      assert (q + 1) * n == q * n + n;
      QuotientIs(count + 1, n, q + 1, 0);
    }
  }

  lemma QuotientIs(a: nat, n: nat, q: nat, r: nat)
    requires r < n && a == q * n + r
    ensures a / n == q && a % n == r
  {
    var d: int := a / n - q;
    assert a == (a / n) * n + a % n;
    assert d * n == (a / n) * n - q * n;
    assert d >= 1 ==> d * n >= n;
    assert d <= -1 ==> d * n <= 0 - n;
  }

  /** The open file is the one of the current line index, under the day last seen. */
  ghost predicate Current(s: LogState) {
    s.splitLines > 0 && (s.out.OnFile? ==> s.out.file.index == s.count / s.splitLines && s.out.file.date.day == s.today)
  }

  /** After every write the open file's index is the line count divided by the split size. */
  lemma IndexFollowsCount(s: LogState, d: Date, opens: bool, line: string)
    requires Current(s)
    ensures Current(Write(s, d, opens, line))
    ensures var t := Write(s, d, opens, line);
            t.out.OnFile? ==>
              LinesOf(t.files, t.out.file) == LinesOf(s.files, t.out.file) + [line] &&
              forall f :: f != t.out.file ==> LinesOf(t.files, f) == LinesOf(s.files, f)
  {
    NextQuotient(s.count, s.splitLines);
  }

  /**
   * The open file is of the line's date if and only if it already was, or the day of the month
   * changed, or this line completes a split: a change of month or year alone goes unnoticed.
   */
  lemma DateFollowsClock(s: LogState, d: Date, line: string)
    requires Current(s) && s.out.OnFile?
    ensures var t := Write(s, d, true, line);
            t.out.OnFile? &&
            (t.out.file.date == d <==>
             s.out.file.date == d || d.day != s.today || (s.count + 1) % s.splitLines == 0)
  {
  }

  /** Two lines written on the fifth of two months, nothing in between: the second lands in the first month's file. */
  lemma MonthApart()
    ensures var january, february := Date(2025, 1, 5), Date(2025, 2, 5);
            var s := Write(Write(Init(5000000, january), january, true, "a\n"), february, true, "b\n");
            s.out == OnFile(LogFile(january, 0)) && LinesOf(s.files, LogFile(january, 0)) == ["a\n", "b\n"]
  {
  }

  // ----- runs -----

  /** One line with the day it is written on and the answer that fopen would give. */
  datatype Entry = Entry(date: Date, opens: bool, line: string)

  function WriteAll(s: LogState, entries: seq<Entry>): (t: LogState)
    requires s.splitLines > 0
    ensures t.splitLines == s.splitLines
    decreases |entries|
  {
    if entries == [] then s
    else WriteAll(Write(s, entries[0].date, entries[0].opens, entries[0].line), entries[1..])
  }

  /** After each line of the run the open file is (its day, count / split). */
  ghost predicate Follows(s: LogState, entries: seq<Entry>)
    requires s.splitLines > 0
    decreases |entries|
  {
    entries != [] ==>
      var t := Write(s, entries[0].date, entries[0].opens, entries[0].line);
      t.out == OnFile(LogFile(entries[0].date, t.count / t.splitLines)) && Follows(t, entries[1..])
  }

  /**
    No line falls on the same day of another month than the line before it, except one that completes a split;
    and every file that is asked for opens.
   */
  ghost predicate NoMonthJump(splitLines: nat, count: nat, last: Date, entries: seq<Entry>)
    requires splitLines > 0
    decreases |entries|
  {
    entries != [] ==>
      var d := entries[0].date;
      var rotates := d.day != last.day || (count + 1) % splitLines == 0;
      && (d == last || rotates)
      && (rotates ==> entries[0].opens)
      && NoMonthJump(splitLines, if d.day != last.day then 0 else count + 1, d, entries[1..])
  }

  lemma FollowsOnce(s: LogState, last: Date, e: Entry)
    requires Current(s) && s.out.OnFile? && s.out.file.date == last
    ensures var t := Write(s, e.date, e.opens, e.line);
            var rotates := e.date.day != last.day || (s.count + 1) % s.splitLines == 0;
            && t.splitLines == s.splitLines && t.count == (if e.date.day != last.day then 0 else s.count + 1)
            && (t.out == OnFile(LogFile(e.date, t.count / t.splitLines)) <==>
                (e.date == last || rotates) && (rotates ==> e.opens))
  {
    NextQuotient(s.count, s.splitLines);
  }

  /** The open file follows the clock over a run if and only if the run has no such month jump. */
  lemma {:induction false} FileFollowsClock(s: LogState, last: Date, entries: seq<Entry>)
    requires Current(s) && s.out.OnFile? && s.out.file.date == last
    ensures Follows(s, entries) <==> NoMonthJump(s.splitLines, s.count, last, entries)
    decreases |entries|
  {
    hide Write;
    if entries != [] {
      var e := entries[0];
      var t := Write(s, e.date, e.opens, e.line);
      FollowsOnce(s, last, e);
      IndexFollowsCount(s, e.date, e.opens, e.line);
      if t.out == OnFile(LogFile(e.date, t.count / t.splitLines)) {
        FileFollowsClock(t, e.date, entries[1..]);
      }
    }
  }

  ghost predicate Monotone(last: Date, entries: seq<Entry>)
    decreases |entries|
  {
    entries != [] ==> NotAfter(last, entries[0].date) && Monotone(entries[0].date, entries[1..])
  }

  /**
    No file holds more lines than the split size. `rotated` is the day of the last rotation, whether or not its
    fopen succeeded; its file holds at most one line more than the count's remainder.
   */
  ghost predicate Bounded(s: LogState, rotated: Date, last: Date) {
    && s.splitLines > 0 && rotated.day == s.today && NotAfter(rotated, last)
    && var cur := LogFile(rotated, s.count / s.splitLines);
    && (s.out.OnFile? ==> s.out.file == cur)
    && (forall f :: f in s.files ==> FileNotAfter(f, cur) && |s.files[f]| <= s.splitLines)
    && |LinesOf(s.files, cur)| <= s.count % s.splitLines + 1
  }

  lemma NextFileIsNew(s: LogState, rotated: Date, last: Date, d: Date)
    requires Bounded(s, rotated, last) && NotAfter(last, d) && Rotates(s.(count := s.count + 1), d)
    ensures var t := Switch(s.(count := s.count + 1), d, true);
            var next := LogFile(d, t.count / s.splitLines);
            next !in s.files && forall f :: f in s.files ==> FileNotAfter(f, next)
  {
    NextQuotient(s.count, s.splitLines);
    var t := Switch(s.(count := s.count + 1), d, true);
    var cur, next := LogFile(rotated, s.count / s.splitLines), LogFile(d, t.count / s.splitLines);
    assert FileNotAfter(cur, next) && next != cur;
    assert next in s.files ==> FileNotAfter(next, cur);
  }

  lemma WriteBounded(s: LogState, rotated: Date, last: Date, e: Entry)
    requires Bounded(s, rotated, last) && NotAfter(last, e.date)
    ensures var again := if Rotates(s.(count := s.count + 1), e.date) then e.date else rotated;
            Bounded(Write(s, e.date, e.opens, e.line), again, e.date)
  {
    var c := s.(count := s.count + 1);
    NextQuotient(s.count, s.splitLines);
    if Rotates(c, e.date) {
      NextFileIsNew(s, rotated, last, e.date);
      RotatedBounded(s, e);
    } else {
      SameFileBounded(s, rotated, last, e);
    }
  }

  lemma RotatedBounded(s: LogState, e: Entry)
    requires s.splitLines > 0 && Rotates(s.(count := s.count + 1), e.date)
    requires var t := Switch(s.(count := s.count + 1), e.date, true);
             var next := LogFile(e.date, t.count / s.splitLines);
             && next !in s.files
             && forall f :: f in s.files ==> FileNotAfter(f, next) && |s.files[f]| <= s.splitLines
    ensures Bounded(Write(s, e.date, e.opens, e.line), e.date, e.date)
  {
    ZeroRemainder(s.splitLines);
  }

  lemma SameFileBounded(s: LogState, rotated: Date, last: Date, e: Entry)
    requires Bounded(s, rotated, last) && NotAfter(last, e.date) && !Rotates(s.(count := s.count + 1), e.date)
    ensures Bounded(Write(s, e.date, e.opens, e.line), rotated, e.date)
  {
    NextQuotient(s.count, s.splitLines);
  }

  lemma ZeroRemainder(n: nat)
    requires n > 0
    ensures 0 % n == 0 && 0 / n == 0
  {
  }

  lemma {:induction false} FilesStayBounded(s: LogState, rotated: Date, last: Date, entries: seq<Entry>, f: LogFile)
    requires Bounded(s, rotated, last) && Monotone(last, entries)
    ensures |LinesOf(WriteAll(s, entries).files, f)| <= s.splitLines
    decreases |entries|
  {
    hide Write, NotAfter, Rotates;
    if entries != [] {
      var e := entries[0];
      WriteBounded(s, rotated, last, e);
      WriteKeepsSplit(s, e);
      var again := if Rotates(s.(count := s.count + 1), e.date) then e.date else rotated;
      FilesStayBounded(Write(s, e.date, e.opens, e.line), again, e.date, entries[1..], f);
    }
  }

  lemma WriteKeepsSplit(s: LogState, e: Entry)
    requires s.splitLines > 0
    ensures Write(s, e.date, e.opens, e.line).splitLines == s.splitLines
  {
  }

  /**
   * Over any run of lines with non-decreasing dates, month jumps and failing fopens or not, each file stays within
   * the split size.
   */
  lemma EachFileTakesAtMost(splitLines: nat, d: Date, entries: seq<Entry>, f: LogFile)
    requires splitLines > 0 && Monotone(d, entries)
    ensures |LinesOf(WriteAll(Init(splitLines, d), entries).files, f)| <= splitLines
  {
    hide Write, Monotone;
    ZeroRemainder(splitLines);
    FilesStayBounded(Init(splitLines, d), d, d, entries, f);
  }
}
