/**
  The WebSocket frame format as WebSocketConn reads and writes it: one pure
  reading of a buffer (Scan, Parse) and one printing of a frame (Encode), with
  the laws that tie them together.
 */
module WsFrame {
  import opened Bytes

  // ---------- Big-endian numbers ----------

  function BigEndian(bs: seq<byte>): nat {
    if bs == [] then 0 else 256 * BigEndian(bs[..|bs| - 1]) + bs[|bs| - 1]
  }

  function BigEndianBytes(n: nat, k: nat): (bs: seq<byte>)
    ensures |bs| == k
  {
    if k == 0 then [] else BigEndianBytes(n / 256, k - 1) + [n % 256]
  }

  function Pow256(k: nat): nat { if k == 0 then 1 else 256 * Pow256(k - 1) }

  lemma {:induction false} BigEndianRoundTrip(n: nat, k: nat)
    requires n < Pow256(k)
    ensures BigEndian(BigEndianBytes(n, k)) == n
  {
    if k > 0 {
      var front := BigEndianBytes(n / 256, k - 1);
      assert (front + [n % 256])[..k - 1] == front;
      BigEndianRoundTrip(n / 256, k - 1);
    }
  }

  lemma Pow256Of8()
    ensures Pow256(8) == TWO_TO_THE_64
  {
  }

  lemma {:induction false} BigEndianBound(bs: seq<byte>)
    ensures BigEndian(bs) < Pow256(|bs|)
  {
    if bs != [] {
      BigEndianBound(bs[..|bs| - 1]);
    }
  }

  // ---------- Masking ----------

  /** What unmaskPayload leaves in the buffer: byte i is xored with key byte i mod 4. */
  function Mask(data: seq<byte>, key: seq<byte>): (r: seq<byte>)
    requires |key| == 4
    ensures |r| == |data|
  {
    seq(|data|, i requires 0 <= i < |data| => Xor(data[i], key[i % 4]))
  }

  lemma MaskTwice(data: seq<byte>, key: seq<byte>)
    requires |key| == 4
    ensures Mask(Mask(data, key), key) == data
  {
    forall i | 0 <= i < |data|
      ensures Mask(Mask(data, key), key)[i] == data[i]
    {
      XorTwice(data[i], key[i % 4]);
    }
  }

  // ---------- Reading one frame ----------

  /** A masking key, or [] for an unmasked frame. */
  predicate IsKey(key: seq<byte>) { |key| == 0 || |key| == 4 }

  /** A complete frame header: its first byte, the masking key ([] when unmasked), its size and the declared length. */
  datatype Header = Header(first: byte, key: seq<byte>, size: nat, length: nat)

  function ReadKey(buf: seq<byte>, size: nat, length: nat): (h: Option<Header>)
    requires 2 <= size <= |buf|
    ensures h.Some? ==>
      IsKey(h.value.key) && size + |h.value.key| == h.value.size <= |buf| && h.value.length == length
  {
    if buf[1] < 128 then Some(Header(buf[0], [], size, length))
    else if |buf| < size + 4 then None
    else Some(Header(buf[0], buf[size..size + 4], size + 4, length))
  }

  function ReadHeader(buf: seq<byte>): (h: Option<Header>)
    ensures h.Some? ==> 2 <= h.value.size <= |buf| && h.value.size <= 14 && IsKey(h.value.key)
    ensures h.Some? ==> h.value.length < TWO_TO_THE_64
  {
    if |buf| < 2 then None
    else if buf[1] % 128 == 126 then
      if |buf| < 4 then None else ReadKey(buf, 4, 256 * (buf[2] as int) + buf[3])
    else if buf[1] % 128 == 127 then
      if |buf| < 10 then None
      else
        BigEndianBound(buf[2..10]);
        Pow256Of8();
        ReadKey(buf, 10, BigEndian(buf[2..10]))
    else ReadKey(buf, 2, buf[1] % 128)
  }

  /** One turn of the decoding loop: too little data, or a frame and the number of bytes it takes out of the buffer. */
  datatype Scanned = More | Frame(opcode: nat, payload: seq<byte>, consumed: nat)

  /** Addition of two 64-bit unsigned numbers. */
  function Add64(a: nat, b: nat): (r: nat)
    requires a < TWO_TO_THE_64 && b < TWO_TO_THE_64
    ensures r < TWO_TO_THE_64
  {
    if a + b < TWO_TO_THE_64 then a + b else a + b - TWO_TO_THE_64
  }

  /** The size of a frame is a 64-bit sum in the source, so it wraps around; the payload is clamped by substr. */
  function Scan(buf: seq<byte>): (r: Scanned)
    ensures r.Frame? ==> ReadHeader(buf).Some? && r.consumed <= |buf|
  {
    match ReadHeader(buf)
    case None => More
    case Some(h) =>
      var need := Add64(h.size, h.length);
      if |buf| < need then More
      else
        var raw := Substr(buf, h.size, h.length);
        Frame(h.first % 16, if h.key == [] then raw else Mask(raw, h.key), need)
  }

  predicate Wraps(h: Header) { h.size + h.length >= TWO_TO_THE_64 }

  /** A frame takes exactly its header and its payload out of the buffer precisely when the 64-bit sum does not wrap. */
  lemma ScanExactUnlessWrapping(buf: seq<byte>)
    requires Scan(buf).Frame?
    ensures var h, r := ReadHeader(buf).value, Scan(buf);
      && (!Wraps(h) <==> r.consumed == h.size + |r.payload| && |r.payload| == h.length)
      && (Wraps(h) <==> r.consumed < h.size)
  {
  }

  lemma ReadHeaderOfLonger(a: seq<byte>, b: seq<byte>)
    requires ReadHeader(a).Some?
    ensures ReadHeader(a + b) == ReadHeader(a)
  {
    if |a| >= 10 {
      assert (a + b)[2..10] == a[2..10];
    }
    if |a| >= 14 {
      assert (a + b)[10..14] == a[10..14];
    }
    if |a| >= 8 {
      assert (a + b)[4..8] == a[4..8];
    }
    if |a| >= 6 {
      assert (a + b)[2..6] == a[2..6];
    }
  }

  lemma ScanOfLonger(a: seq<byte>, b: seq<byte>)
    requires Scan(a).Frame? && !Wraps(ReadHeader(a).value)
    ensures Scan(a + b) == Scan(a)
  {
    ReadHeaderOfLonger(a, b);
    var h := ReadHeader(a).value;
    assert (a + b)[h.size..h.size + h.length] == a[h.size..h.size + h.length];
  }

  // ---------- Reading a buffer ----------

  /** What the connection does with a frame: hand a text to the message callback, or queue a pong. */
  datatype Event = Text(payload: seq<byte>) | Pong

  const OP_TEXT := 1
  const OP_CLOSE := 8
  const OP_PING := 9

  function EventsOf(opcode: nat, payload: seq<byte>): seq<Event> {
    if opcode == OP_TEXT then [Text(payload)]
    else if opcode == OP_PING then [Pong]
    else []
  }

  /** Open: waiting for data. Closed: a close frame was met. Stuck: the loop consumes nothing and never ends. */
  datatype Status = Open | Closed | Stuck

  datatype Parsed = Parsed(events: seq<Event>, status: Status, rest: seq<byte>)

  function Parse(buf: seq<byte>): Parsed
    decreases |buf|
  {
    match Scan(buf)
    case More => Parsed([], Open, buf)
    case Frame(opcode, payload, n) =>
      if opcode == OP_CLOSE then Parsed([], Closed, buf[n..])
      else if n == 0 then Parsed(EventsOf(opcode, payload), Stuck, buf)
      else
        var p := Parse(buf[n..]);
        p.(events := EventsOf(opcode, payload) + p.events)
  }

  /** No frame that the decoder reaches has a size that wraps around (section 5.2 of RFC 6455 forbids such lengths). */
  predicate NoWrap(buf: seq<byte>)
    decreases |buf|
  {
    match ReadHeader(buf)
    case None => true
    case Some(h) =>
      && !Wraps(h)
      && (h.size + h.length <= |buf| && h.first % 16 != OP_CLOSE ==> NoWrap(buf[h.size + h.length..]))
  }

  /**
    The decoder reaches a text frame whose size wraps around while bytes follow its header. Such a frame takes
    for its payload whatever the buffer happens to hold.
   */
  predicate ReachesWrappedText(buf: seq<byte>)
    decreases |buf|
  {
    match Scan(buf)
    case More => false
    case Frame(opcode, _, n) =>
      var h := ReadHeader(buf).value;
      if opcode == OP_CLOSE || (Wraps(h) && h.size == |buf|) then false
      else if Wraps(h) && opcode == OP_TEXT then true
      else n != 0 && ReachesWrappedText(buf[n..])
  }

  /** Parsing more data after some has been parsed. */
  function Resume(p: Parsed, more: seq<byte>): Parsed {
    if p.status != Open then p
    else
      var q := Parse(p.rest + more);
      q.(events := p.events + q.events)
  }

  /** What an open parse leaves over is an incomplete frame: parsing it again yields nothing. */
  lemma {:induction false} ParseRestIsQuiet(a: seq<byte>)
    ensures Parse(a).status == Open ==> Scan(Parse(a).rest) == More
    decreases |a|
  {
    match Scan(a) {
      case More =>
      case Frame(opcode, payload, n) =>
        if opcode != OP_CLOSE && n != 0 {
          ParseRestIsQuiet(a[n..]);
        }
    }
  }

  lemma ResumeWithNothing(a: seq<byte>)
    ensures Resume(Parse(a), []) == Parse(a)
  {
    ParseRestIsQuiet(a);
    var p := Parse(a);
    assert p.rest + [] == p.rest && p.events + [] == p.events;
  }

  /** More data do not change a complete frame, except for the payload of one whose size wraps around. */
  lemma ScanOfMore(a: seq<byte>, b: seq<byte>)
    requires Scan(a).Frame?
    ensures var r, q, h := Scan(a), Scan(a + b), ReadHeader(a).value;
      && ReadHeader(a + b) == ReadHeader(a) && q.Frame? && q.opcode == r.opcode && q.consumed == r.consumed
      && (!Wraps(h) ==> q == r)
  {
    ReadHeaderOfLonger(a, b);
    if !Wraps(ReadHeader(a).value) {
      ScanOfLonger(a, b);
    }
  }

  lemma SameEvents(a: seq<byte>, b: seq<byte>)
    requires Scan(a).Frame? && b != [] && !ReachesWrappedText(a + b)
    ensures var r, q := Scan(a), Scan(a + b);
      && q.Frame? && q.opcode == r.opcode && q.consumed == r.consumed
      && (r.opcode != OP_CLOSE ==> EventsOf(q.opcode, q.payload) == EventsOf(r.opcode, r.payload))
      && (r.opcode != OP_CLOSE && r.consumed != 0 ==> !ReachesWrappedText((a + b)[r.consumed..]))
  {
    hide ReadHeader, Scan;
    ScanOfMore(a, b);
  }

  /** One turn of the decoding loop. */
  lemma ParseTurn(buf: seq<byte>)
    ensures |buf| < 2 ==> Scan(buf).More?
    ensures var r, p := Scan(buf), Parse(buf);
      && (r.More? ==> p == Parsed([], Open, buf))
      && (r.Frame? && r.opcode == OP_CLOSE ==> p == Parsed([], Closed, buf[r.consumed..]))
      && (r.Frame? && r.opcode != OP_CLOSE ==>
            var front, q := EventsOf(r.opcode, r.payload), Parse(buf[r.consumed..]);
            p == if r.consumed == 0 then Parsed(front, Stuck, buf) else q.(events := front + q.events))
  {
  }

  lemma ResumeBehind(front: seq<Event>, p: Parsed, b: seq<byte>)
    ensures Resume(p.(events := front + p.events), b) ==
            Resume(p, b).(events := front + Resume(p, b).events)
  {
    hide Parse;
    if p.status == Open {
      var q := Parse(p.rest + b);
      assert (front + p.events) + q.events == front + (p.events + q.events);
    }
  }

  /** A parse of a + b is a parse of a, resumed with b. */
  lemma {:induction false} ParseSplit(a: seq<byte>, b: seq<byte>)
    requires !ReachesWrappedText(a + b)
    ensures Parse(a + b).status == Resume(Parse(a), b).status
    ensures Parse(a + b).events == Resume(Parse(a), b).events
    ensures Parse(a).status == Closed ==> Parse(a + b).rest == Parse(a).rest + b
    ensures Parse(a).status == Open ==>
      Parse(a + b).rest == Resume(Parse(a), b).rest && !ReachesWrappedText(Parse(a).rest + b)
    decreases |a|
  {
    hide ReadHeader, Scan, Parse, Resume, EventsOf, ReachesWrappedText;
    ParseTurn(a);
    ParseTurn(a + b);
    if b == [] {
      assert a + b == a;
      ResumeWithNothing(a);
      assert Parse(a).rest + b == Parse(a).rest;
      QuietRest(a);
    } else if Scan(a).More? {
      ResumeNothingYet(a, b);
    } else {
      SameEvents(a, b);
      var r := Scan(a);
      var n := r.consumed;
      assert (a + b)[n..] == a[n..] + b;
      if r.opcode == OP_CLOSE || n == 0 {
        ResumeNotOpen(Parse(a), b);
      } else {
        ParseSplit(a[n..], b);
        ResumeBehind(EventsOf(r.opcode, r.payload), Parse(a[n..]), b);
      }
    }
  }

  lemma QuietRest(a: seq<byte>)
    ensures Parse(a).status == Open ==> !ReachesWrappedText(Parse(a).rest)
    ensures Parse(a).status == Closed ==> Parse(a).rest + [] == Parse(a).rest
  {
    ParseRestIsQuiet(a);
  }

  lemma ResumeNothingYet(a: seq<byte>, b: seq<byte>)
    ensures Resume(Parsed([], Open, a), b) == Parse(a + b)
  {
    assert [] + Parse(a + b).events == Parse(a + b).events;
  }

  lemma ResumeNotOpen(p: Parsed, b: seq<byte>)
    requires p.status != Open
    ensures Resume(p, b) == p
  {
  }

  /** The decoder of one connection after a series of reads, each handing over one chunk. */
  function Feed(p: Parsed, chunks: seq<seq<byte>>): Parsed
    decreases |chunks|
  {
    if chunks == [] then p else Feed(Resume(p, chunks[0]), chunks[1..])
  }

  lemma {:induction false} FeedIsResume(p: Parsed, chunks: seq<seq<byte>>)
    requires p.status == Open ==> Scan(p.rest) == More && !ReachesWrappedText(p.rest + Flatten(chunks))
    ensures var q, whole := Feed(p, chunks), Resume(p, Flatten(chunks));
      && q.status == whole.status
      && q.events == whole.events
      && (q.status == Open ==> q.rest == whole.rest)
    decreases |chunks|
  {
    hide Parse, ReachesWrappedText, Scan;
    if p.status != Open {
      if chunks != [] {
        FeedIsResume(p, chunks[1..]);
      }
    } else if chunks == [] {
      assert p.rest + [] == p.rest;
      ParseMore(p.rest);
    } else {
      var a, b := p.rest + chunks[0], Flatten(chunks[1..]);
      assert p.rest + Flatten(chunks) == a + b;
      ParseSplit(a, b);
      ParseRestIsQuiet(a);
      FeedIsResume(Resume(p, chunks[0]), chunks[1..]);
    }
  }

  lemma ParseMore(buf: seq<byte>)
    requires Scan(buf) == More
    ensures Parse(buf) == Parsed([], Open, buf)
  {
  }

  const START: Parsed := Parsed([], Open, [])

  /** The outcome of a series of reads is that of one read of everything. */
  ghost predicate ReadsLike(chunks: seq<seq<byte>>, s: seq<byte>) {
    var q, whole := Feed(START, chunks), Parse(s);
    q.events == whole.events && q.status == whole.status && (whole.status == Open ==> q.rest == whole.rest)
  }

  lemma FeedsAlike(chunks: seq<seq<byte>>)
    requires !ReachesWrappedText(Flatten(chunks))
    ensures ReadsLike(chunks, Flatten(chunks))
  {
    hide Parse, ReachesWrappedText;
    assert [] + Flatten(chunks) == Flatten(chunks);
    assert [] + Parse(Flatten(chunks)).events == Parse(Flatten(chunks)).events;
    FeedIsResume(START, chunks);
  }

  lemma FeedTwo(a: seq<byte>, b: seq<byte>)
    ensures Feed(START, [a, b]) == Resume(Parse(a), b) && Flatten([a, b]) == a + b
  {
    hide Parse;
    var chunks := [a, b];
    assert chunks[1..] == [b] && [b][1..] == [];
    assert [] + a == a && [] + Parse(a).events == Parse(a).events;
    assert Resume(START, a) == Parse(a);
    assert Feed(START, chunks) == Feed(Parse(a), [b]) == Resume(Parse(a), b);
    assert Flatten([b]) == b + Flatten<byte>([]) == b;
  }

  lemma WrappedTextsDiffer(a: seq<byte>, s: seq<byte>)
    requires |s| < TWO_TO_THE_63 && s != [] && a == s[..|s| - 1]
    requires Scan(s).Frame? && Scan(s).opcode == OP_TEXT
    requires Wraps(ReadHeader(s).value) && ReadHeader(s).value.size < |s|
    ensures Scan(a).Frame? && Scan(a).opcode == OP_TEXT
    ensures |Scan(a).payload| + 1 == |Scan(s).payload|
  {
    hide ReadHeader, Mask;
    HeaderIsEnough(s);
    var h := ReadHeader(s).value;
    var head := s[..h.size];
    assert a == head + s[h.size..|s| - 1];
    ReadHeaderOfLonger(head, s[h.size..|s| - 1]);
  }

  /** Holding back the last byte shows: the wrapped text frame comes out one byte shorter. */
  lemma {:induction false} LastByteMatters(s: seq<byte>)
    requires |s| < TWO_TO_THE_63 && ReachesWrappedText(s)
    ensures s != [] && Resume(Parse(s[..|s| - 1]), s[|s| - 1..]).events != Parse(s).events
    decreases |s|
  {
    hide ReadHeader, Mask, Scan, Parse, Resume, EventsOf;
    var a, b := s[..|s| - 1], s[|s| - 1..];
    var r := Scan(s);
    var n := r.consumed;
    if Wraps(ReadHeader(s).value) && r.opcode == OP_TEXT {
      WrappedTextsDiffer(a, s);
      TextFirst(a, b);
      TextFirst(s, []);
    } else {
      FrameOfMost(s);
      ParseTurn(s);
      ParseTurn(a);
      LastByteMatters(s[n..]);
      assert s[n..][..|s[n..]| - 1] == a[n..] && s[n..][|s[n..]| - 1..] == b;
      var front := EventsOf(r.opcode, r.payload);
      ResumeBehind(front, Parse(a[n..]), b);
      SameFront(front, Resume(Parse(a[n..]), b).events, Parse(s[n..]).events);
    }
  }

  lemma TextFirst(s: seq<byte>, more: seq<byte>)
    requires Scan(s).Frame? && Scan(s).opcode == OP_TEXT
    ensures Parse(s).events != [] && Parse(s).events[0] == Text(Scan(s).payload)
    ensures var e := Resume(Parse(s), more).events; e != [] && e[0] == Text(Scan(s).payload)
  {
    hide Scan;
  }

  lemma SameFront<T>(front: seq<T>, x: seq<T>, y: seq<T>)
    ensures front + x == front + y ==> x == y
  {
    assert (front + x)[|front|..] == x && (front + y)[|front|..] == y;
  }

  /** A frame behind which something is left, other than a wrapped text, is read the same without the last byte. */
  lemma FrameOfMost(s: seq<byte>)
    requires s != [] && Scan(s).Frame? && Scan(s).consumed < |s| && Scan(s).opcode != OP_CLOSE
    requires var h := ReadHeader(s).value; Wraps(h) ==> Scan(s).opcode != OP_TEXT && h.size < |s|
    ensures var a, r := s[..|s| - 1], Scan(s);
      && Scan(a).Frame? && Scan(a).opcode == r.opcode && Scan(a).consumed == r.consumed
      && EventsOf(Scan(a).opcode, Scan(a).payload) == EventsOf(r.opcode, r.payload)
  {
    hide ReadHeader, Mask;
    var a, h := s[..|s| - 1], ReadHeader(s).value;
    HeaderIsEnough(s);
    var head := s[..h.size];
    assert a == head + s[h.size..|s| - 1];
    ReadHeaderOfLonger(head, s[h.size..|s| - 1]);
    assert a + s[|s| - 1..] == s;
    ScanOfMore(a, s[|s| - 1..]);
  }

  /**
    A stream reads the same however it is cut, if and only if the decoder reaches no text frame in it whose size
    wraps around with bytes behind its header.
   */
  lemma ChunkIndependence(s: seq<byte>)
    requires |s| < TWO_TO_THE_63
    ensures (forall chunks: seq<seq<byte>> :: Flatten(chunks) == s ==> ReadsLike(chunks, s)) <==> !ReachesWrappedText(s)
  {
    hide Parse, ReachesWrappedText, ReadsLike;
    if ReachesWrappedText(s) {
      LastByteMatters(s);
      var a, b := s[..|s| - 1], s[|s| - 1..];
      FeedTwo(a, b);
      assert a + b == s;
      NotAlike([a, b], s);
    } else {
      forall chunks: seq<seq<byte>> | Flatten(chunks) == s ensures ReadsLike(chunks, s) {
        FeedsAlike(chunks);
      }
    }
  }

  lemma NotAlike(chunks: seq<seq<byte>>, s: seq<byte>)
    requires Feed(START, chunks).events != Parse(s).events
    ensures !ReadsLike(chunks, s)
  {
  }

  /** Section 5.2 of RFC 6455 keeps a stream clear of all that: without wrapping sizes the decoder never gets stuck. */
  lemma {:induction false} NoWrapIsSafe(s: seq<byte>)
    requires NoWrap(s)
    ensures !ReachesWrappedText(s) && Parse(s).status != Stuck
    decreases |s|
  {
    hide ReadHeader;
    var r := Scan(s);
    if r.Frame? && r.opcode != OP_CLOSE {
      NoWrapIsSafe(s[r.consumed..]);
    }
  }

  /** A text frame of the largest length and one byte: cut before that byte, it delivers an empty text. */
  lemma WrappingExample()
    ensures var s: seq<byte> := [0x81, 127, 255, 255, 255, 255, 255, 255, 255, 255, 65];
      Feed(START, [s[..10], s[10..]]).events != Parse(s).events
  {
    var s: seq<byte> := [0x81, 127, 255, 255, 255, 255, 255, 255, 255, 255, 65];
    LargestLength(s);
    LastByteMatters(s);
    FeedTwo(s[..10], s[10..]);
  }

  lemma LargestLength(s: seq<byte>)
    requires s == [0x81, 127, 255, 255, 255, 255, 255, 255, 255, 255, 65]
    ensures ReachesWrappedText(s)
  {
    hide BigEndian;
    assert s[2..10] == [255, 255, 255, 255, 255, 255, 255, 255];
    AllOnes();
    assert ReadHeader(s) == Some(Header(0x81, [], 10, TWO_TO_THE_64 - 1));
  }

  lemma AllOnes()
    ensures BigEndian([255, 255, 255, 255, 255, 255, 255, 255]) == TWO_TO_THE_64 - 1
  {
    Ones(8);
    Pow256Of8();
    assert seq<byte>(8, _ => 255) == [255, 255, 255, 255, 255, 255, 255, 255];
  }

  lemma {:induction false} Ones(k: nat)
    ensures BigEndian(seq<byte>(k, _ => 255)) == Pow256(k) - 1
  {
    if k > 0 {
      Ones(k - 1);
      assert seq<byte>(k, _ => 255)[..k - 1] == seq<byte>(k - 1, _ => 255);
    }
  }

  lemma HeaderIsEnough(s: seq<byte>)
    requires ReadHeader(s).Some?
    ensures ReadHeader(s[..ReadHeader(s).value.size]) == ReadHeader(s)
  {
    var n := ReadHeader(s).value.size;
    var head := s[..n];
    assert n >= 10 ==> head[2..10] == s[2..10];
    assert n >= 6 ==> head[2..6] == s[2..6];
    assert n >= 8 ==> head[4..8] == s[4..8];
    assert n >= 14 ==> head[10..14] == s[10..14];
  }

  /** A turn of the loop takes at least two bytes unless the 64-bit size wraps around to zero or one. */
  lemma ScanTakesAHeader(buf: seq<byte>)
    requires Scan(buf).Frame?
    ensures var h := ReadHeader(buf).value;
      2 <= Scan(buf).consumed <= |buf| <==> !(TWO_TO_THE_64 <= h.size + h.length < TWO_TO_THE_64 + 2)
  {
  }

  // ---------- Writing frames ----------

  /** The length field, shortest form first; maskBit is 128 for a masked frame. */
  function LengthField(maskBit: nat, n: nat): seq<byte>
    requires maskBit == 0 || maskBit == 128
  {
    if n < 126 then [maskBit + n]
    else if n < 65536 then [maskBit + 126, n / 256, n % 256]
    else [maskBit + 127] + BigEndianBytes(n, 8)
  }

  /** A frame on the wire: key is [] for an unmasked (server) frame and 4 bytes for a client frame. */
  function Encode(first: byte, key: seq<byte>, payload: seq<byte>): seq<byte>
    requires IsKey(key)
  {
    [first] + LengthField(if key == [] then 0 else 128, |payload|) + key
    + (if key == [] then payload else Mask(payload, key))
  }

  const TEXT_FINAL: byte := 0x81

  /** The frame a server sends for a text. */
  function PackText(text: seq<byte>): seq<byte> { Encode(TEXT_FINAL, [], text) }

  const PONG_FRAME: seq<byte> := [0x8A, 0x00]

  /** The length field reads back as the length. */
  lemma LengthFieldReads(maskBit: nat, first: byte, n: nat, tail: seq<byte>)
    requires (maskBit == 0 || maskBit == 128) && n < TWO_TO_THE_63
    requires maskBit == 128 ==> |tail| >= 4
    ensures var field := LengthField(maskBit, n);
      ReadHeader([first] + field + tail) == ReadKey([first] + field + tail, 1 + |field|, n)
  {
    hide ReadKey;
    var buf := [first] + LengthField(maskBit, n) + tail;
    if n >= 65536 {
      assert buf[2..10] == BigEndianBytes(n, 8);
      Pow256Of8();
      BigEndianRoundTrip(n, 8);
    }
  }

  lemma EncodeHeader(first: byte, key: seq<byte>, payload: seq<byte>, tail: seq<byte>)
    requires IsKey(key) && |payload| < TWO_TO_THE_63
    ensures ReadHeader(Encode(first, key, payload) + tail)
         == Some(Header(first, key, |Encode(first, key, payload)| - |payload|, |payload|))
  {
    hide ReadHeader, Mask;
    var body := if key == [] then payload else Mask(payload, key);
    var field := LengthField(if key == [] then 0 else 128, |payload|);
    var buf := [first] + field + (key + body + tail);
    LengthFieldReads(if key == [] then 0 else 128, first, |payload|, key + body + tail);
    assert buf == Encode(first, key, payload) + tail;
    assert buf[0] == first && buf[1] == field[0];
    var size := 1 + |field|;
    assert key != [] ==> buf[size..size + 4] == key;
  }

  /** Round trip of one frame, whatever follows it. */
  lemma EncodeScan(first: byte, key: seq<byte>, payload: seq<byte>, tail: seq<byte>)
    requires IsKey(key) && |payload| < TWO_TO_THE_63
    ensures Scan(Encode(first, key, payload) + tail)
         == Frame(first % 16, payload, |Encode(first, key, payload)|)
  {
    EncodeHeader(first, key, payload, tail);
    var buf := Encode(first, key, payload) + tail;
    var h := ReadHeader(buf).value;
    var body := if key == [] then payload else Mask(payload, key);
    assert buf[h.size..h.size + h.length] == body;
    if key != [] {
      MaskTwice(payload, key);
    }
  }

  lemma FrameThenTail(first: byte, key: seq<byte>, payload: seq<byte>, tail: seq<byte>)
    requires IsKey(key) && |payload| < TWO_TO_THE_63 && first % 16 != OP_CLOSE
    ensures var p := Parse(tail);
      Parse(Encode(first, key, payload) + tail)
      == Parsed(EventsOf(first % 16, payload) + p.events, p.status, p.rest)
    ensures NoWrap(tail) ==> NoWrap(Encode(first, key, payload) + tail)
  {
    hide ReadHeader, Scan;
    var one := Encode(first, key, payload);
    EncodeScan(first, key, payload, tail);
    EncodeHeader(first, key, payload, tail);
    hide Encode, EventsOf;
    assert (one + tail)[|one|..] == tail;
  }

  /** A frame that a peer may send: its first byte, its masking key ([] for none) and its payload. */
  datatype WireFrame = WireFrame(first: byte, key: seq<byte>, payload: seq<byte>)

  predicate Sendable(f: WireFrame) {
    IsKey(f.key) && |f.payload| < TWO_TO_THE_63
  }

  function EncodeAll(fs: seq<WireFrame>): seq<byte>
    requires forall f | f in fs :: Sendable(f)
  {
    if fs == [] then [] else
      assert Sendable(fs[0]);
      Encode(fs[0].first, fs[0].key, fs[0].payload) + EncodeAll(fs[1..])
  }

  /** The texts and pings among the frames, in order. */
  function EventsOfAll(fs: seq<WireFrame>): seq<Event> {
    if fs == [] then [] else EventsOf(fs[0].first % 16, fs[0].payload) + EventsOfAll(fs[1..])
  }

  lemma FirstEncoded(fs: seq<WireFrame>, tail: seq<byte>)
    requires fs != [] && forall f | f in fs :: Sendable(f)
    ensures Sendable(fs[0]) && IsKey(fs[0].key) && |fs[0].payload| < TWO_TO_THE_63
    ensures EncodeAll(fs) + tail == Encode(fs[0].first, fs[0].key, fs[0].payload) + (EncodeAll(fs[1..]) + tail)
  {
    hide Encode;
  }

  /** Round trip of any run of frames before a close frame: nothing lost, added or reordered, and the tail untouched. */
  lemma {:induction false} EncodeAllParse(fs: seq<WireFrame>, tail: seq<byte>)
    requires forall f | f in fs :: Sendable(f) && f.first % 16 != OP_CLOSE
    ensures var p, t := Parse(EncodeAll(fs) + tail), Parse(tail);
      p.events == EventsOfAll(fs) + t.events && p.status == t.status && p.rest == t.rest
    ensures NoWrap(tail) ==> NoWrap(EncodeAll(fs) + tail)
    decreases |fs|
  {
    hide Parse, NoWrap, Encode, EventsOf, Sendable;
    if fs == [] {
      assert EncodeAll(fs) + tail == tail;
    } else {
      var f, rest := fs[0], fs[1..];
      FirstEncoded(fs, tail);
      FrameThenTail(f.first, f.key, f.payload, EncodeAll(rest) + tail);
      EncodeAllParse(rest, tail);
      assert EventsOfAll(fs) + Parse(tail).events ==
        EventsOf(f.first % 16, f.payload) + (EventsOfAll(rest) + Parse(tail).events);
    }
  }

  /** The concatenation of the frames the server packs for a list of texts. */
  function PackAll(texts: seq<seq<byte>>): seq<byte> {
    if texts == [] then [] else PackText(texts[0]) + PackAll(texts[1..])
  }

  function Texts(texts: seq<seq<byte>>): seq<Event> {
    if texts == [] then [] else [Text(texts[0])] + Texts(texts[1..])
  }

  /** The server's own frames decode to exactly the texts that were packed, with nothing left over. */
  lemma {:induction false} ServerRoundTrip(texts: seq<seq<byte>>)
    requires forall i | 0 <= i < |texts| :: |texts[i]| < TWO_TO_THE_63
    ensures Parse(PackAll(texts)) == Parsed(Texts(texts), Open, []) && NoWrap(PackAll(texts))
    decreases |texts|
  {
    hide Encode, Parse, NoWrap, EventsOf;
    if texts == [] {
      ParseNothing();
    } else {
      var others := texts[1..];
      PackTextParse(texts[0], PackAll(others));
      ServerRoundTrip(others);
    }
  }

  lemma ParseNothing()
    ensures Parse([]) == Parsed([], Open, []) && NoWrap([])
  {
  }

  lemma PackTextParse(text: seq<byte>, tail: seq<byte>)
    requires |text| < TWO_TO_THE_63
    ensures var p := Parse(tail);
      Parse(PackText(text) + tail) == Parsed([Text(text)] + p.events, p.status, p.rest)
    ensures NoWrap(tail) ==> NoWrap(PackText(text) + tail)
  {
    hide Encode, Parse, NoWrap;
    FrameThenTail(TEXT_FINAL, [], text, tail);
  }

  /**
   * No frame is a proper prefix of another, and equal frames carry equal payloads: the encoding is uniquely readable.
   */
  lemma EncodePrefixFree(f: WireFrame, g: WireFrame, tail: seq<byte>)
    requires Sendable(f) && Sendable(g)
    requires Encode(f.first, f.key, f.payload) + tail == Encode(g.first, g.key, g.payload)
    ensures tail == [] && f == g
  {
    var wire := Encode(g.first, g.key, g.payload);
    assert wire + [] == wire;
    EncodeHeader(f.first, f.key, f.payload, tail);
    EncodeHeader(g.first, g.key, g.payload, []);
    EncodeScan(f.first, f.key, f.payload, tail);
    EncodeScan(g.first, g.key, g.payload, []);
  }

  /** No wire form of a text that the decoder accepts is shorter than the one the server picks. */
  lemma PackTextIsMinimal(buf: seq<byte>)
    requires Scan(buf).Frame? && !Wraps(ReadHeader(buf).value)
    ensures |PackText(Scan(buf).payload)| <= Scan(buf).consumed
  {
  }
}
