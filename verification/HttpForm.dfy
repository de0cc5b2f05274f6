/** Percent decoding and urlencoded forms. */
module HttpForm {
  import opened Bytes
  import opened HttpText

  function HexValue(c: char): (r: Option<nat>)
    ensures r.Some? ==> r.value < 16
  {
    if Digit(c) then Some(c as int - '0' as int)
    else if 'a' <= c <= 'f' then Some(c as int - 'a' as int + 10)
    else if 'A' <= c <= 'F' then Some(c as int - 'A' as int + 10)
    else None
  }

  /**
   * std::stoi of two characters in base 16: white space or a sign may come first, and a tail that is no digit is
   * ignored.
   */
  function Stoi16(a: char, b: char): (r: Option<int>)
    ensures r.Some? ==> -16 < r.value < 256
  {
    var high: Option<int>, low: Option<int> := HexValue(a), HexValue(b);
    if high.Some? then Some(if low.Some? then 16 * high.value + low.value else high.value)
    else if low.None? then None
    else if Space(a) || a == '+' then Some(low.value)
    else if a == '-' then Some(-low.value)
    else None
  }

  /** static_cast<char> of a small number. */
  function ToChar(n: int): char
    requires -256 < n < 256
  {
    (if n < 0 then n + 256 else n) as char
  }

  function UrlDecode(s: string): (r: string)
    ensures |r| <= |s|
    decreases |s|
  {
    if s == "" then ""
    else if s[0] == '+' then " " + UrlDecode(s[1..])
    else if s[0] == '%' && 2 < |s| && Stoi16(s[1], s[2]).Some? then
      [ToChar(Stoi16(s[1], s[2]).value)] + UrlDecode(s[3..])
    else [s[0]] + UrlDecode(s[1..])
  }

  lemma DecodeStep(s: string, i: nat)
    requires i < |s|
    ensures s[i] == '+' ==> UrlDecode(s[i..]) == " " + UrlDecode(s[i + 1..])
    ensures s[i] == '%' && i + 2 < |s| && Stoi16(s[i + 1], s[i + 2]).Some? ==>
              UrlDecode(s[i..]) == [ToChar(Stoi16(s[i + 1], s[i + 2]).value)] + UrlDecode(s[i + 3..])
    ensures s[i] != '+' && !(s[i] == '%' && i + 2 < |s| && Stoi16(s[i + 1], s[i + 2]).Some?) ==>
              UrlDecode(s[i..]) == [s[i]] + UrlDecode(s[i + 1..])
  {
  }

  method DecodeUrl(encoded: string) returns (res: string)
    ensures res == UrlDecode(encoded)
  {
    hide UrlDecode, Stoi16, ToChar;
    res := "";
    var i := 0;
    assert encoded[0..] == encoded;
    while i < |encoded|
      invariant 0 <= i <= |encoded|
      invariant res + UrlDecode(encoded[i..]) == UrlDecode(encoded)
    {
      DecodeStep(encoded, i);
      if encoded[i] == '+' {
        res := res + " ";
        i := i + 1;
      } else if encoded[i] == '%' && i + 2 < |encoded| && Stoi16(encoded[i + 1], encoded[i + 2]).Some? {
        res := res + [ToChar(Stoi16(encoded[i + 1], encoded[i + 2]).value)];
        i := i + 3;
      } else {
        res := res + [encoded[i]];
        i := i + 1;
      }
    }
    DecodeNothing();
    assert encoded[i..] == "";
  }

  lemma SplitStep(s: string, at: nat, delimiter: char)
    requires at < |s|
    ensures Find(s, [delimiter], at).None? ==> Split(s[at..], delimiter) == [s[at..]]
    ensures Find(s, [delimiter], at).Some? ==>
              var i := Find(s, [delimiter], at).value;
              Split(s[at..], delimiter) == [s[at..i]] + Split(s[i + 1..], delimiter)
  {
    hide Split, Find;
    FindShift(s, [delimiter], at, 0);
    SplitOnce(s[at..], delimiter);
    if Find(s, [delimiter], at).Some? {
      var i := Find(s, [delimiter], at).value;
      assert s[at..][..i - at] == s[at..i];
      assert s[at..][i - at + 1..] == s[i + 1..];
    }
  }

  method SplitAt(s: string, delimiter: char) returns (tokens: seq<string>)
    ensures tokens == Split(s, delimiter)
  {
    hide Split, Find;
    tokens := [];
    var at := 0;
    assert s[0..] == s;
    while at < |s|
      invariant 0 <= at <= |s|
      invariant tokens + Split(s[at..], delimiter) == Split(s, delimiter)
    {
      SplitStep(s, at, delimiter);
      match Find(s, [delimiter], at)
      case None =>
        tokens := tokens + [s[at..]];
        at := |s|;
        assert s[at..] == "";
        SplitNothing(delimiter);
      case Some(i) =>
        tokens := tokens + [s[at..i]];
        at := i + 1;
    }
    SplitNothing(delimiter);
    assert s[at..] == "";
  }

  function PutField(fields: map<string, string>, pair: string): map<string, string> {
    match Find(pair, "=", 0)
    case None => fields
    case Some(i) => fields[UrlDecode(pair[..i]) := UrlDecode(pair[i + 1..])]
  }

  function PutFields(fields: map<string, string>, pairs: seq<string>): map<string, string>
    decreases |pairs|
  {
    if pairs == [] then fields else PutFields(PutField(fields, pairs[0]), pairs[1..])
  }

  /** handle_form_urlencoded: a later pair of the same key replaces an earlier one. */
  function FormFields(fields: map<string, string>, body: string): map<string, string> {
    PutFields(fields, Split(body, '&'))
  }

  // Encoding, as section 4.10.22.6 of HTML 5 asks a client to do it: letters and digits stay,
  // a space becomes a plus, and every other byte becomes a percent sign and two hex digits.

  predicate Plain(c: char) {
    Digit(c) || 'a' <= c <= 'z' || 'A' <= c <= 'Z'
  }

  predicate IsBytes(s: string) { forall i :: 0 <= i < |s| ==> s[i] < 256 as char }

  function HexDigit(d: nat): (c: char)
    requires d < 16
    ensures HexValue(c) == Some(d) && Plain(c)
  {
    if d < 10 then ('0' as int + d) as char else ('A' as int + d - 10) as char
  }

  function EncodeChar(c: char): string
    requires c < 256 as char
  {
    if Plain(c) then [c]
    else if c == ' ' then "+"
    else ['%', HexDigit(c as int / 16), HexDigit(c as int % 16)]
  }

  function UrlEncode(s: string): string
    requires IsBytes(s)
  {
    if s == "" then "" else EncodeChar(s[0]) + UrlEncode(s[1..])
  }

  lemma DecodeEncodedChar(c: char, tail: string)
    requires c < 256 as char
    ensures UrlDecode(EncodeChar(c) + tail) == [c] + UrlDecode(tail)
    ensures '&' !in EncodeChar(c) && '=' !in EncodeChar(c)
  {
    var e := EncodeChar(c);
    assert (e + tail)[|e|..] == tail;
  }

  /** Decoding undoes encoding, for every byte string. */
  lemma {:induction false} DecodeEncode(s: string)
    requires IsBytes(s)
    ensures UrlDecode(UrlEncode(s)) == s
    ensures '&' !in UrlEncode(s) && '=' !in UrlEncode(s)
  {
    hide UrlDecode, EncodeChar;
    if s != "" {
      DecodeEncodedChar(s[0], UrlEncode(s[1..]));
      DecodeEncode(s[1..]);
    } else {
      DecodeNothing();
    }
  }

  lemma DecodeNothing()
    ensures UrlDecode("") == ""
  {
  }

  function EncodePair(key: string, value: string): string
    requires IsBytes(key) && IsBytes(value)
  {
    UrlEncode(key) + "=" + UrlEncode(value)
  }

  lemma PutFieldOfPair(fields: map<string, string>, key: string, value: string)
    requires IsBytes(key) && IsBytes(value)
    ensures PutField(fields, EncodePair(key, value)) == fields[key := value]
    ensures '&' !in EncodePair(key, value) && EncodePair(key, value) != ""
  {
    DecodeEncode(key);
    DecodeEncode(value);
    FindChar(UrlEncode(key), '=', UrlEncode(value));
    var p := EncodePair(key, value);
    assert p[..|UrlEncode(key)|] == UrlEncode(key);
    assert p[|UrlEncode(key)| + 1..] == UrlEncode(value);
  }

  ghost predicate BytePairs(pairs: seq<(string, string)>) {
    forall i :: 0 <= i < |pairs| ==> IsBytes(pairs[i].0) && IsBytes(pairs[i].1)
  }

  ghost function EncodedPairs(pairs: seq<(string, string)>): (r: seq<string>)
    requires BytePairs(pairs)
    ensures |r| == |pairs|
    ensures forall p :: p in r ==> '&' !in p && p != ""
  {
    if pairs == [] then []
    else
      PutFieldOfPair(map[], pairs[0].0, pairs[0].1);
      [EncodePair(pairs[0].0, pairs[0].1)] + EncodedPairs(pairs[1..])
  }

  ghost function EncodeForm(pairs: seq<(string, string)>): string
    requires BytePairs(pairs)
  {
    if pairs == [] then ""
    else
      var encoded := EncodedPairs(pairs);
      Join(encoded[..|pairs| - 1], '&') + encoded[|pairs| - 1]
  }

  ghost function AssignAll(fields: map<string, string>, pairs: seq<(string, string)>): map<string, string>
    decreases |pairs|
  {
    if pairs == [] then fields else AssignAll(fields[pairs[0].0 := pairs[0].1], pairs[1..])
  }

  lemma {:induction false} PutEncodedPairs(fields: map<string, string>, pairs: seq<(string, string)>)
    requires BytePairs(pairs)
    ensures PutFields(fields, EncodedPairs(pairs)) == AssignAll(fields, pairs)
    decreases |pairs|
  {
    if pairs != [] {
      PutFieldOfPair(fields, pairs[0].0, pairs[0].1);
      PutEncodedPairs(fields[pairs[0].0 := pairs[0].1], pairs[1..]);
    }
  }

  /** An encoded form comes back as the assignments it lists, in order. */
  lemma FormRoundTrip(fields: map<string, string>, pairs: seq<(string, string)>)
    requires BytePairs(pairs)
    ensures FormFields(fields, EncodeForm(pairs)) == AssignAll(fields, pairs)
  {
    PutEncodedPairs(fields, pairs);
    if pairs != [] {
      var encoded := EncodedPairs(pairs);
      SplitJoin(encoded[..|pairs| - 1], encoded[|pairs| - 1], '&');
      assert encoded == encoded[..|pairs| - 1] + [encoded[|pairs| - 1]];
    }
  }
}
