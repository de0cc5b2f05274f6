/**
  The frame format as section 5 of RFC 6455 lays it out, read bit by bit and with the numbers of the standard: what a
  client receives of the frames the server packs, and what the server makes of the frames a client sends.
 */
module WsWire {
  import opened Bytes
  import opened WsFrame
  import opened WebSocketConnection

  /** Section 5.2: the bits of a header, and where the masking key or the payload starts. */
  datatype Head = Head(fin: bool, reserved: nat, opcode: nat, masked: bool, start: nat, length: nat)

  /** Eight bytes, the most significant first. */
  function Eight(bs: seq<byte>): nat
    requires |bs| == 8
  {
    var b: seq<int> := bs;
    b[0] * 0x100_0000_0000_0000 + b[1] * 0x1_0000_0000_0000 + b[2] * 0x100_0000_0000 + b[3] * 0x1_0000_0000
    + b[4] * 0x100_0000 + b[5] * 0x1_0000 + b[6] * 0x100 + b[7]
  }

  function ReadHead(wire: seq<byte>): (h: Option<Head>)
    ensures h.Some? ==> 2 <= h.value.start <= |wire|
  {
    if |wire| < 2 then None
    else
      var fin, reserved, opcode := wire[0] >= 0x80, wire[0] / 0x10 % 8, wire[0] % 0x10;
      var masked, short := wire[1] >= 0x80, wire[1] % 0x80;
      if short <= 125 then Some(Head(fin, reserved, opcode, masked, 2, short))
      else if short == 126 then
        if |wire| < 4 then None else Some(Head(fin, reserved, opcode, masked, 4, 0x100 * (wire[2] as int) + wire[3]))
      else if |wire| < 10 then None
      else Some(Head(fin, reserved, opcode, masked, 10, Eight(wire[2..10])))
  }

  // ---------- A client's receiver ----------

  datatype Message = TextMessage(text: seq<byte>) | PongMessage(data: seq<byte>)

  /**
   * What a receiver has of a stream: complete messages, the fragments of an unfinished one, and an incomplete frame.
   */
  datatype Reception =
    | Refused
    | Received(messages: seq<Message>, partial: Option<seq<byte>>, rest: seq<byte>)

  function Deliver(m: Message, later: Reception): Reception {
    if later.Refused? then Refused else later.(messages := [m] + later.messages)
  }

  /** Section 5.2: the shortest of the three length forms, and no more than 63 bits. */
  predicate Minimal(h: Head) {
    h.start == 2 || (h.start == 4 && h.length >= 126) || (h.start == 10 && 0x1_0000 <= h.length < TWO_TO_THE_63)
  }

  /**
    Sections 5.1, 5.2, 5.4 and 5.5: a client refuses reserved bits and masked frames, delivers a text at its final
    fragment, lets final and short control frames come in between, and refuses whatever else a server may not send
    it here.
   */
  function Receive(wire: seq<byte>, partial: Option<seq<byte>>): Reception
    decreases |wire|
  {
    match ReadHead(wire)
    case None => Received([], partial, wire)
    case Some(h) =>
      if h.reserved != 0 || h.masked || !Minimal(h) then Refused
      else if |wire| < h.start + h.length then Received([], partial, wire)
      else
        var payload, rest := wire[h.start..h.start + h.length], wire[h.start + h.length..];
        if h.opcode == 1 && partial.None? then
          if h.fin then Deliver(TextMessage(payload), Receive(rest, None)) else Receive(rest, Some(payload))
        else if h.opcode == 0 && partial.Some? then
          if h.fin then Deliver(TextMessage(partial.value + payload), Receive(rest, None))
          else Receive(rest, Some(partial.value + payload))
        else if h.opcode == 10 && h.fin && h.length <= 125 then Deliver(PongMessage(payload), Receive(rest, partial))
        else Refused
  }

  lemma EightIsBigEndian(bs: seq<byte>)
    requires |bs| == 8
    ensures Eight(bs) == BigEndian(bs)
  {
    hide BigEndian;
    BigEndianFront(bs, 7);
    BigEndianFront(bs, 6);
    BigEndianFront(bs, 5);
    BigEndianFront(bs, 4);
    BigEndianFront(bs, 3);
    BigEndianFront(bs, 2);
    BigEndianFront(bs, 1);
    BigEndianFront(bs, 0);
    assert bs[..8] == bs;
  }

  lemma BigEndianFront(bs: seq<byte>, i: nat)
    requires i < |bs|
    ensures BigEndian(bs[..i + 1]) == 256 * BigEndian(bs[..i]) + bs[i]
    ensures BigEndian(bs[..0]) == 0
  {
    assert bs[..i + 1][..i] == bs[..i];
  }

  lemma PackedHead(text: seq<byte>, tail: seq<byte>)
    requires |text| < TWO_TO_THE_63
    ensures var frame := PackText(text);
      var start := |frame| - |text|;
      && ReadHead(frame + tail) == Some(Head(true, 0, 1, false, start, |text|))
      && Minimal(Head(true, 0, 1, false, start, |text|))
      && (frame + tail)[start..start + |text|] == text && (frame + tail)[start + |text|..] == tail
  {
    var frame := PackText(text);
    var field := LengthField(0, |text|);
    assert frame == [TEXT_FINAL] + field + text;
    assert frame + tail == [TEXT_FINAL] + field + (text + tail);
    if |text| >= 65536 {
      assert (frame + tail)[2..10] == BigEndianBytes(|text|, 8);
      Pow256Of8();
      BigEndianRoundTrip(|text|, 8);
      EightIsBigEndian(BigEndianBytes(|text|, 8));
    }
  }

  /** A packed text is received as one complete message, whatever follows it. */
  lemma TextReceived(text: seq<byte>, tail: seq<byte>)
    requires |text| < TWO_TO_THE_63
    ensures Receive(PackText(text) + tail, None) == Deliver(TextMessage(text), Receive(tail, None))
  {
    hide ReadHead, PackText, Minimal;
    PackedHead(text, tail);
  }

  /** The answer to a ping is received as one empty pong, also between the fragments of a text. */
  lemma PongReceived(tail: seq<byte>, partial: Option<seq<byte>>)
    ensures Receive(PONG_FRAME + tail, partial) == Deliver(PongMessage([]), Receive(tail, partial))
  {
    var wire := PONG_FRAME + tail;
    assert wire[2..2] == [] && wire[2..] == tail;
    assert ReadHead(wire) == Some(Head(true, 0, 10, false, 2, 0));
  }

  function TextMessages(texts: seq<seq<byte>>): seq<Message> {
    if texts == [] then [] else [TextMessage(texts[0])] + TextMessages(texts[1..])
  }

  /** A client receives the texts that the server packs: each as one message of its own, in order, and nothing else. */
  lemma {:induction false} TextsReceived(texts: seq<seq<byte>>)
    requires forall i | 0 <= i < |texts| :: |texts[i]| < TWO_TO_THE_63
    ensures Receive(PackAll(texts), None) == Received(TextMessages(texts), None, [])
  {
    hide PackText, Receive;
    if texts == [] {
      NothingReceived();
    } else {
      TextReceived(texts[0], PackAll(texts[1..]));
      TextsReceived(texts[1..]);
    }
  }

  lemma NothingReceived()
    ensures Receive([], None) == Received([], None, [])
  {
  }

  lemma HeadOfLonger(a: seq<byte>, b: seq<byte>)
    requires ReadHead(a).Some?
    ensures ReadHead(a + b) == ReadHead(a)
  {
    if |a| >= 10 {
      assert (a + b)[2..10] == a[2..10];
    }
  }

  /** Of a stream that is in order, any part from its start on is received as a part from the start of the messages. */
  lemma {:induction false} ReceivePrefix(a: seq<byte>, b: seq<byte>, partial: Option<seq<byte>>)
    requires Receive(a + b, partial).Received?
    ensures Receive(a, partial).Received? && Receive(a, partial).messages <= Receive(a + b, partial).messages
    decreases |a|
  {
    hide ReadHead, Minimal;
    if ReadHead(a).Some? {
      HeadOfLonger(a, b);
      var h := ReadHead(a).value;
      if |a| >= h.start + h.length {
        var n := h.start + h.length;
        assert (a + b)[h.start..n] == a[h.start..n] && (a + b)[n..] == a[n..] + b;
        var payload := a[h.start..n];
        if h.opcode == 1 && partial.None? {
          ReceivePrefix(a[n..], b, if h.fin then None else Some(payload));
        } else if h.opcode == 0 && partial.Some? {
          ReceivePrefix(a[n..], b, if h.fin then None else Some(partial.value + payload));
        } else {
          ReceivePrefix(a[n..], b, partial);
        }
      }
    }
  }

  // ---------- What a client sends ----------

  /** Section 5.3: every bit of the data is the payload's bit, turned over where the key's bit is set. */
  ghost predicate MaskedWith(data: seq<byte>, key: seq<byte>, payload: seq<byte>) {
    && |key| == 4 && |data| == |payload|
    && forall i, j :: 0 <= i < |data| && 0 <= j < 8 ==> (Bit(data[i], j) <==> Bit(payload[i], j) != Bit(key[i % 4], j))
  }

  /** One masked frame, in any of the length forms and whatever its first four bits. */
  ghost predicate ClientFrame(wire: seq<byte>, opcode: nat, key: seq<byte>, payload: seq<byte>) {
    var head := ReadHead(wire);
    && head.Some? && head.value.masked && head.value.opcode == opcode && head.value.length == |payload|
    && |key| == 4 && |wire| == head.value.start + 4 + |payload|
    && wire[head.value.start..head.value.start + 4] == key
    && MaskedWith(wire[head.value.start + 4..], key, payload)
  }

  lemma MaskIs(data: seq<byte>, key: seq<byte>, payload: seq<byte>)
    requires MaskedWith(data, key, payload)
    ensures Mask(data, key) == payload
  {
    forall i | 0 <= i < |data| ensures Mask(data, key)[i] == payload[i] {
      forall j | 0 <= j < 8 ensures Bit(Xor(data[i], key[i % 4]), j) == Bit(payload[i], j) {
        XorBit(data[i], key[i % 4], j);
      }
      SameByte(Xor(data[i], key[i % 4]), payload[i]);
    }
  }

  lemma MaskGives(key: seq<byte>, payload: seq<byte>)
    requires |key| == 4
    ensures MaskedWith(Mask(payload, key), key, payload)
  {
    forall i, j | 0 <= i < |payload| && 0 <= j < 8
      ensures Bit(Mask(payload, key)[i], j) <==> Bit(payload[i], j) != Bit(key[i % 4], j)
    {
      XorBit(payload[i], key[i % 4], j);
    }
  }

  lemma HeadersAgree(wire: seq<byte>)
    requires ReadHead(wire).Some? && ReadHead(wire).value.masked && |wire| >= ReadHead(wire).value.start + 4
    ensures var h := ReadHead(wire).value;
      ReadHeader(wire) == Some(Header(wire[0], wire[h.start..h.start + 4], h.start + 4, h.length))
    ensures ReadHead(wire).value.opcode == wire[0] % 16
  {
    if |wire| >= 10 {
      EightIsBigEndian(wire[2..10]);
    }
  }

  /** The server reads a client's frame as what the client meant, and takes exactly its bytes. */
  lemma ClientFrameRead(wire: seq<byte>, opcode: nat, key: seq<byte>, payload: seq<byte>, tail: seq<byte>)
    requires ClientFrame(wire, opcode, key, payload) && |payload| < TWO_TO_THE_63
    ensures Scan(wire + tail) == Frame(opcode, payload, |wire|)
  {
    var h := ReadHead(wire).value;
    hide ReadHead, ReadHeader;
    HeadersAgree(wire);
    assert wire[h.start + 4..h.start + 4 + |payload|] == wire[h.start + 4..];
    MaskIs(wire[h.start + 4..], key, payload);
    ScanOfLonger(wire, tail);
  }

  /** Sections 5.5 and 5.6 by number: 1 is a text, 8 closes, 9 is answered, and the others are passed over. */
  lemma ClientFrameEffect(wire: seq<byte>, opcode: nat, key: seq<byte>, payload: seq<byte>, tail: seq<byte>)
    requires ClientFrame(wire, opcode, key, payload) && |payload| < TWO_TO_THE_63
    ensures var p, rest := Parse(wire + tail), Parse(tail);
      && (opcode == 1 ==> p == rest.(events := [Text(payload)] + rest.events))
      && (opcode == 9 ==> p == rest.(events := [Pong] + rest.events))
      && (opcode == 8 ==> p == Parsed([], Closed, tail))
      && (opcode != 1 && opcode != 8 && opcode != 9 ==> p == rest)
  {
    hide Scan, ClientFrame;
    ClientFrameRead(wire, opcode, key, payload, tail);
    assert (wire + tail)[|wire|..] == tail;
    ParseTurn(wire + tail);
    assert [] + Parse(tail).events == Parse(tail).events;
    FrameHasBytes(wire, opcode, key, payload);
  }

  lemma FrameHasBytes(wire: seq<byte>, opcode: nat, key: seq<byte>, payload: seq<byte>)
    requires ClientFrame(wire, opcode, key, payload)
    ensures |wire| > 0
  {
  }

  /** Any message can be sent so. */
  lemma EncodeIsClientFrame(opcode: nat, key: seq<byte>, payload: seq<byte>)
    requires opcode < 16 && |key| == 4 && |payload| < TWO_TO_THE_63
    ensures ClientFrame(Encode(128 + opcode, key, payload), opcode, key, payload)
  {
    hide ReadHead, LengthField, Mask;
    var wire, field := Encode(128 + opcode, key, payload), LengthField(128, |payload|);
    EncodedHead(opcode, |payload|, key + Mask(payload, key));
    assert wire == [128 + opcode] + field + (key + Mask(payload, key));
    var start := 1 + |field|;
    assert wire[start..start + 4] == key && wire[start + 4..] == Mask(payload, key);
    MaskGives(key, payload);
  }

  lemma EncodedHead(opcode: nat, length: nat, tail: seq<byte>)
    requires opcode < 16 && length < TWO_TO_THE_63
    ensures var field := LengthField(128, length);
      ReadHead([128 + opcode] + field + tail) == Some(Head(true, 0, opcode, true, 1 + |field|, length))
  {
    var wire := [128 + opcode] + LengthField(128, length) + tail;
    if length >= 65536 {
      assert wire[2..10] == BigEndianBytes(length, 8);
      Pow256Of8();
      BigEndianRoundTrip(length, 8);
      EightIsBigEndian(BigEndianBytes(length, 8));
    }
  }

  // ---------- A conversation ----------

  datatype Sent = Sent(opcode: nat, key: seq<byte>, payload: seq<byte>)

  /** The frames of a client that has not closed yet. */
  ghost predicate ClientStream(wires: seq<seq<byte>>, sent: seq<Sent>)
    decreases |wires|
  {
    && |wires| == |sent|
    && (wires != [] ==>
          && ClientFrame(wires[0], sent[0].opcode, sent[0].key, sent[0].payload)
          && |sent[0].payload| < TWO_TO_THE_63 && sent[0].opcode != 8
          && ClientStream(wires[1..], sent[1..]))
  }

  function TextsIn(sent: seq<Sent>): seq<seq<byte>> {
    if sent == [] then [] else (if sent[0].opcode == 1 then [sent[0].payload] else []) + TextsIn(sent[1..])
  }

  function PongsFor(sent: seq<Sent>): seq<Message> {
    if sent == [] then [] else (if sent[0].opcode == 9 then [PongMessage([])] else []) + PongsFor(sent[1..])
  }

  lemma {:induction false} StreamParses(wires: seq<seq<byte>>, sent: seq<Sent>)
    requires ClientStream(wires, sent)
    ensures var p := Parse(Flatten(wires));
      && p.status == Open && p.rest == []
      && Calls(true, p.events) == TextsIn(sent) && Calls(false, p.events) == []
      && Receive(PongsIn(p.events), None) == Received(PongsFor(sent), None, [])
    decreases |wires|
  {
    hide ClientFrame, Parse, Receive;
    if wires == [] {
      ParseNothing();
      NothingReceived();
    } else {
      var s, rest := sent[0], Flatten(wires[1..]);
      ClientFrameEffect(wires[0], s.opcode, s.key, s.payload, rest);
      StreamParses(wires[1..], sent[1..]);
      var later := Parse(rest).events;
      var first: seq<Event> := if s.opcode == 1 then [Text(s.payload)] else if s.opcode == 9 then [Pong] else [];
      assert Parse(wires[0] + rest).events == first + later;
      if s.opcode == 9 {
        PongReceived(PongsIn(later), None);
      }
      assert first != [] ==> (first + later)[1..] == later;
      assert first == [] ==> first + later == later;
      assert PongsIn(first + later) == (if s.opcode == 9 then PONG_FRAME + PongsIn(later) else PongsIn(later));
    }
  }

  /** The unmasked "Hello" of section 5.7. */
  lemma HelloOnTheWire()
    ensures PackText([0x48, 0x65, 0x6c, 0x6c, 0x6f]) == [0x81, 0x05, 0x48, 0x65, 0x6c, 0x6c, 0x6f]
  {
  }
}
