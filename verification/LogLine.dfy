/** One log line: how write_log prints it into a character buffer of fixed size. */
module LogLines {
  import opened Bytes
  import opened HttpText
  import opened LogFiles

  const SENTINEL: string := "LOG_ENDS_NOW"
  const NUL: char := '\0'

  datatype Time = Time(hour: nat, minute: nat, second: nat, micros: nat)

  /** What a clock can show. */
  predicate Sane(d: Date, t: Time) {
    d.year < 10000 && d.month < 100 && d.day < 100 &&
    t.hour < 100 && t.minute < 100 && t.second < 100 && t.micros < 1000000
  }

  function LevelName(level: int): string {
    if level == 0 then "[debug]:" else if level == 1 then "[info]:" else if level == 2 then "[warn]:"
    else if level == 3 then "[error]:" else "[info]:"
  }

  function Zeros(n: nat): (s: string)
    ensures |s| == n && NUL !in s
  {
    if n == 0 then "" else "0" + Zeros(n - 1)
  }

  /** "%06ld" */
  function Pad6(n: nat): string {
    var s := Decimal(n);
    if |s| < 6 then Zeros(6 - |s|) + s else s
  }

  function DayText(d: Date): string { Decimal(d.year) + "-" + Pad2(d.month) + "-" + Pad2(d.day) }

  function TimeText(t: Time): string {
    Pad2(t.hour) + ":" + Pad2(t.minute) + ":" + Pad2(t.second) + "." + Pad6(t.micros)
  }

  /** The date, the time and the level in front of the message. */
  function Stamp(d: Date, t: Time, level: int): string {
    DayText(d) + " " + TimeText(t) + " " + LevelName(level) + " "
  }

  lemma {:induction false} DecimalLength(n: nat, k: nat, limit: nat)
    requires k >= 1 && limit == Power10(k) && n < limit
    ensures |Decimal(n)| <= k && NUL !in Decimal(n)
  {
    if n >= 10 {
      assert k >= 2;
      DecimalLength(n / 10, k - 1, Power10(k - 1));
    }
  }

  function Power10(k: nat): nat { if k == 0 then 1 else 10 * Power10(k - 1) }

  lemma Pad2Length(n: nat)
    requires n < 100
    ensures |Pad2(n)| == 2 && NUL !in Pad2(n)
  {
    hide Decimal;
    assert Power10(2) == 100 by { assert Power10(1) == 10; }
    DecimalLength(n, 2, 100);
    TwoDigits(n);
  }

  lemma Pad6Length(n: nat)
    requires n < 1000000
    ensures |Pad6(n)| == 6 && NUL !in Pad6(n)
  {
    hide Decimal;
    assert Power10(6) == 1000000 by { assert Power10(3) == 1000; }
    DecimalLength(n, 6, 1000000);
  }

  /** The stamp fits the 64 characters it is given, and starts with a digit. */
  lemma StampFits(d: Date, t: Time, level: int)
    requires Sane(d, t)
    ensures 0 < |Stamp(d, t, level)| <= 40 && NUL !in Stamp(d, t, level) && Digit(Stamp(d, t, level)[0])
  {
    hide Pad2, Pad6;
    assert Power10(4) == 10000 by { assert Power10(2) == 100; }
    DecimalLength(d.year, 4, 10000);
    Pad2Length(d.month);
    Pad2Length(d.day);
    Pad2Length(t.hour);
    Pad2Length(t.minute);
    Pad2Length(t.second);
    Pad6Length(t.micros);
    assert |DayText(d)| <= 10 && |TimeText(t)| == 15 && |LevelName(level)| <= 8;
    assert Stamp(d, t, level)[0] == Decimal(d.year)[0];
  }

  lemma {:induction false} ZerosRead(n: nat, s: string)
    requires forall i :: 0 <= i < |s| ==> Digit(s[i])
    ensures Shows(Zeros(n) + s, Digits(s, 0))
  {
    if n == 0 {
      assert Zeros(n) + s == s;
    } else {
      ZerosRead(n - 1, s);
      var rest := Zeros(n - 1) + s;
      assert Zeros(n) + s == "0" + rest && ("0" + rest)[1..] == rest;
      assert forall i :: 0 < i < |rest| + 1 ==> ("0" + rest)[i] == rest[i - 1];
    }
  }

  lemma Pad6Reads(n: nat)
    requires n < 1000000
    ensures |Pad6(n)| == 6 && Shows(Pad6(n), n)
  {
    Pad6Length(n);
    DigitsOfDecimal(n);
    ZerosRead(6 - |Decimal(n)|, Decimal(n));
    assert |Decimal(n)| == 6 ==> Zeros(0) + Decimal(n) == Decimal(n);
  }

  lemma DayReads(d: Date)
    requires 1000 <= d.year < 10000 && d.month < 100 && d.day < 100
    ensures var s := DayText(d);
            && |s| == 10 && s[4] == s[7] == '-'
            && Shows(s[..4], d.year) && Shows(s[5..7], d.month) && Shows(s[8..], d.day)
  {
    hide Pad2, Decimal, Shows;
    YearReads(d.year);
    Pad2Reads(d.month);
    Pad2Reads(d.day);
    var s := DayText(d);
    assert s[..4] == Decimal(d.year) && s[5..7] == Pad2(d.month) && s[8..] == Pad2(d.day);
  }

  lemma TimeReads(t: Time)
    requires t.hour < 100 && t.minute < 100 && t.second < 100 && t.micros < 1000000
    ensures var s := TimeText(t);
            && |s| == 15 && s[2] == s[5] == ':' && s[8] == '.'
            && Shows(s[..2], t.hour) && Shows(s[3..5], t.minute) && Shows(s[6..8], t.second)
            && Shows(s[9..], t.micros)
  {
    hide Pad2, Pad6, Shows;
    Pad2Reads(t.hour);
    Pad2Reads(t.minute);
    Pad2Reads(t.second);
    Pad6Reads(t.micros);
    var s := TimeText(t);
    assert s[..2] == Pad2(t.hour) && s[3..5] == Pad2(t.minute) && s[6..8] == Pad2(t.second);
    assert s[9..] == Pad6(t.micros);
  }

  /** The front of a line shows year, month, day, hour, minute, second and microseconds, and names the level. */
  lemma StampReads(d: Date, t: Time, level: int)
    requires Sane(d, t) && d.year >= 1000
    ensures var s := Stamp(d, t, level);
            && |s| >= 28
            && Shows(s[..4], d.year) && Shows(s[5..7], d.month) && Shows(s[8..10], d.day)
            && Shows(s[11..13], t.hour) && Shows(s[14..16], t.minute) && Shows(s[17..19], t.second)
            && Shows(s[20..26], t.micros)
            && s[4] == s[7] == '-' && s[10] == ' ' && s[13] == s[16] == ':' && s[19] == '.' && s[26] == ' '
            && s[27..] == (if level == 0 then "[debug]: " else if level == 2 then "[warn]: "
                           else if level == 3 then "[error]: " else "[info]: ")
  {
    hide DayText, TimeText, Shows;
    DayReads(d);
    TimeReads(t);
    var day, time, name := DayText(d), TimeText(t), LevelName(level) + " ";
    var s := Stamp(d, t, level);
    assert s == day + (" " + time + " " + name);
    assert s[..10] == day && s[11..26] == time && s[27..] == name;
    assert s[..4] == day[..4] && s[5..7] == day[5..7] && s[8..10] == day[8..];
    assert s[11..13] == time[..2] && s[14..16] == time[3..5] && s[17..19] == time[6..8] && s[20..26] == time[9..];
  }

  // ----- the buffer -----

  /** The C string at the front of a buffer. */
  function CString(buffer: string): string {
    if buffer == "" || buffer[0] == NUL then "" else [buffer[0]] + CString(buffer[1..])
  }

  lemma {:induction false} CStringIs(text: string, rest: string)
    requires NUL !in text
    ensures CString(text + [NUL] + rest) == text
  {
    var all := text + [NUL] + rest;
    if text != "" {
      assert all[1..] == text[1..] + [NUL] + rest;
      CStringIs(text[1..], rest);
    }
  }

  /** snprintf: as much of the text as fits before a closing NUL, and the length that all of it would have had. */
  method Snprintf(buffer: array<char>, at: nat, limit: nat, text: string) returns (printed: nat)
    requires 0 < limit && at + limit <= buffer.Length
    modifies buffer
    ensures printed == |text|
    ensures var k := Min(|text|, limit - 1);
      buffer[..at + k + 1] == old(buffer[..at]) + text[..k] + [NUL]
  {
    var k := Min(|text|, limit - 1);
    ghost var front := buffer[..at];
    for i := 0 to k
      invariant buffer[..at + i] == front + text[..i]
    {
      buffer[at + i] := text[i];
      assert text[..i + 1] == text[..i] + [text[i]];
    }
    buffer[at + k] := NUL;
    return |text|;
  }

  /** Whether the whole line, its newline and its NUL are shorter than the buffer. */
  predicate Fits(stamp: string, message: string, size: nat) { |stamp| + |message| + 1 < size }

  /** What write_log makes of a stamp and a message in a buffer of the given size. */
  function LineOf(stamp: string, message: string, size: nat): string
    requires size >= 2
  {
    if Fits(stamp, message, size) then stamp + message + "\n" else (stamp + message)[..size - 2]
  }

  /** Prints stamp and message one behind the other, and tells where the message would have ended. */
  method PrintBoth(buffer: array<char>, stamp: string, message: string) returns (end: nat)
    requires |stamp| < 63 && buffer.Length >= 64
    modifies buffer
    ensures end == |stamp| + |message|
    ensures Fits(stamp, message, buffer.Length) ==> buffer[..end] == stamp + message
    ensures !Fits(stamp, message, buffer.Length) ==>
      var last := buffer.Length - 2; buffer[..last] == (stamp + message)[..last] && buffer[last] == NUL
  {
    var n := Snprintf(buffer, 0, 64, stamp);
    assert stamp[..n] == stamp && buffer[..0] == "";
    assert buffer[..n] == buffer[..n + 1][..n] == stamp;
    var m := Snprintf(buffer, n, buffer.Length - n - 1, message);
    ghost var k := Min(m, buffer.Length - n - 2);
    assert buffer[..n + k] == buffer[..n + k + 1][..n + k] == stamp + message[..k];
    assert buffer[n + k] == buffer[..n + k + 1][n + k];
    assert message[..m] == message;
    assert (stamp + message)[..n + k] == stamp + message[..k];
    return n + m;
  }

  /**
   * Prints the line and stores a newline and a NUL behind where the whole message would end; `inside` says whether
   * both stores stay in the buffer. Memory outside of it is not modelled.
   */
  method FormatInto(stamp: string, message: string, size: nat) returns (line: string, inside: bool)
    requires |stamp| < 63 && size >= 64 && NUL !in stamp && NUL !in message
    ensures line == LineOf(stamp, message, size) && (inside <==> Fits(stamp, message, size))
  {
    var buffer := new char[size];
    var end := PrintBoth(buffer, stamp, message);
    inside := true;
    if end < size {
      buffer[end] := '\n';
    } else {
      inside := false;
    }
    if end + 1 < size {
      buffer[end + 1] := NUL;
    } else {
      inside := false;
    }
    line := CString(buffer[..]);
    if Fits(stamp, message, size) {
      ReadsAs(buffer[..], stamp + message + "\n");
    } else {
      ReadsAs(buffer[..], (stamp + message)[..size - 2]);
    }
  }

  lemma ReadsAs(buffer: string, text: string)
    requires |text| < |buffer| && buffer[..|text|] == text && buffer[|text|] == NUL && NUL !in text
    ensures CString(buffer) == text
  {
    assert buffer == text + [NUL] + buffer[|text| + 1..];
    CStringIs(text, buffer[|text| + 1..]);
  }

  /**
   * Formatting a line: the newline ends it and both stores stay in the buffer if and only if stamp and message
   * leave room for them; in any case the line is not the end mark.
   */
  method FormatLine(d: Date, t: Time, level: int, message: string, size: nat) returns (line: string, inside: bool)
    requires Sane(d, t) && NUL !in message && size >= 64
    ensures var stamp := Stamp(d, t, level);
      && line == LineOf(stamp, message, size)
      && (inside && line != "" && line[|line| - 1] == '\n' <==> |stamp| + |message| + 1 < size)
    ensures line != SENTINEL
  {
    StampFits(d, t, level);
    NeverTheSentinel(d, t, level, message, size);
    hide Stamp;
    line, inside := FormatInto(Stamp(d, t, level), message, size);
  }

  /** A line is never taken for the end mark, whatever the message and whatever of it fits. */
  lemma NeverTheSentinel(d: Date, t: Time, level: int, message: string, size: nat)
    requires Sane(d, t) && size >= 64
    ensures LineOf(Stamp(d, t, level), message, size) != SENTINEL
  {
    hide Stamp;
    StampFits(d, t, level);
    assert LineOf(Stamp(d, t, level), message, size)[0] == Stamp(d, t, level)[0];
    assert SENTINEL[0] == 'L';
  }

  /** With the buffer of 2000 that the server asks for, a message of as many letters loses its end and its newline. */
  lemma LongMessage(d: Date, t: Time, level: int)
    requires Sane(d, t)
    ensures var stamp, message := Stamp(d, t, level), seq(2000, _ => 'x');
            var line := LineOf(stamp, message, 2000);
            !Fits(stamp, message, 2000) && |line| == 1998 && line[|line| - 1] == 'x'
  {
    hide Stamp;
    StampFits(d, t, level);
    var stamp, message := Stamp(d, t, level), seq(2000, _ => 'x');
    assert (stamp + message)[1997] == message[1997 - |stamp|];
  }
}
