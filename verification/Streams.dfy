/** Well-formed incoming streams: messages fragmented as section 5.4 of RFC 6455
    allows, with pings and pongs between the fragments, and what the connection
    of libs/shared/websocket/dialer.go reads from them. */
module Streams {
  import opened Types
  import opened Wire
  import opened Reading

  /** A fragment and the control frames sent before it. */
  datatype Part = Part(controls: seq<Frame>, frame: Frame)

  ghost predicate ValidControl(f: Frame) {
    ValidFrame(f) && (f.opcode == OP_PING || f.opcode == OP_PONG)
  }

  ghost predicate ValidControls(fs: seq<Frame>) {
    forall f :: f in fs ==> ValidControl(f)
  }

  /** The fragments of one message from some fragment on: continuation frames,
      of which exactly the last has FIN set. */
  ghost predicate ValidRest(parts: seq<Part>) {
    && parts != []
    && ValidControls(parts[0].controls) && ValidFrame(parts[0].frame)
    && parts[0].frame.opcode == OP_CONTINUATION
    && parts[0].frame.fin == (|parts| == 1)
    && (|parts| > 1 ==> ValidRest(parts[1..]))
  }

  /** A whole message: a text or binary frame, then continuations. */
  ghost predicate ValidMessage(parts: seq<Part>) {
    && parts != []
    && ValidControls(parts[0].controls) && ValidFrame(parts[0].frame)
    && (parts[0].frame.opcode == OP_TEXT || parts[0].frame.opcode == OP_BINARY)
    && parts[0].frame.fin == (|parts| == 1)
    && (|parts| > 1 ==> ValidRest(parts[1..]))
  }

  function MessageData(parts: seq<Part>): seq<byte> {
    if parts == [] then [] else parts[0].frame.payload + MessageData(parts[1..])
  }

  /** The data of the pings among `fs`, in order. */
  function Pings(fs: seq<Frame>): seq<seq<byte>> {
    if fs == [] then []
    else (if fs[0].opcode == OP_PING then [fs[0].payload] else []) + Pings(fs[1..])
  }

  function MessagePings(parts: seq<Part>): seq<seq<byte>> {
    if parts == [] then [] else Pings(parts[0].controls) + MessagePings(parts[1..])
  }

  /** The bytes of `fs` followed by `tail`. */
  function FramesThen(fs: seq<Frame>, tail: seq<byte>): seq<byte> {
    if fs == [] then tail else EncodeFrame(fs[0]) + FramesThen(fs[1..], tail)
  }

  function PartsThen(parts: seq<Part>, tail: seq<byte>): seq<byte> {
    if parts == [] then tail
    else FramesThen(parts[0].controls, EncodeFrame(parts[0].frame) + PartsThen(parts[1..], tail))
  }

  lemma EncodedFrameSplits(f: Frame, tail: seq<byte>)
    ensures EncodeFrame(f) + tail == EncodeHeader(f.Head(), f.form) + (Mask(f.masked, f.key, f.payload) + tail)
  {
    AppendAssociates(EncodeHeader(f.Head(), f.form), Mask(f.masked, f.key, f.payload), tail);
  }

  /** Header and payload of an encoded frame come back as they were. */
  lemma ReadsFrame(f: Frame, tail: seq<byte>)
    requires ValidFrame(f)
    ensures ParseHeader(EncodeFrame(f) + tail) == HeaderOk(f.Head(), Mask(f.masked, f.key, f.payload) + tail)
    ensures Payload(Mask(f.masked, f.key, f.payload) + tail, f.Head().masked, f.Head().key, |f.payload|)
         == Got(f.payload, tail)
  {
    var masked := Mask(f.masked, f.key, f.payload);
    EncodedFrameSplits(f, tail);
    ParseEncodedHeader(f.Head(), f.form, masked + tail);
    ReadFullSplit(masked, tail);
    MaskInvolution(f.masked, f.key, f.payload);
  }

  lemma ReadsControl(limit: nat, f: Frame, tail: seq<byte>, data: seq<byte>, t: MessageType)
    requires ValidControl(f) && |data| <= limit
    ensures ReadFrom(limit, EncodeFrame(f) + tail, data, t)
         == After(if f.opcode == OP_PING then [f.payload] else [], ReadFrom(limit, tail, data, t))
  {
    ReadsFrame(f, tail);
  }

  lemma {:induction false} ReadsControls(limit: nat, fs: seq<Frame>, tail: seq<byte>, data: seq<byte>, t: MessageType)
    requires ValidControls(fs) && |data| <= limit
    ensures ReadFrom(limit, FramesThen(fs, tail), data, t) == After(Pings(fs), ReadFrom(limit, tail, data, t))
    decreases |fs|
  {
    if fs == [] {
      AfterNothing(ReadFrom(limit, tail, data, t));
    } else {
      ReadsControl(limit, fs[0], FramesThen(fs[1..], tail), data, t);
      ReadsControls(limit, fs[1..], tail, data, t);
      AfterAfter(if fs[0].opcode == OP_PING then [fs[0].payload] else [], Pings(fs[1..]), ReadFrom(limit, tail, data, t));
    }
  }

  lemma ReadsData(limit: nat, f: Frame, tail: seq<byte>, data: seq<byte>, t: MessageType)
    requires ValidFrame(f) && |data| + |f.payload| <= limit && t != NoType
    requires f.opcode == OP_TEXT || f.opcode == OP_BINARY || f.opcode == OP_CONTINUATION
    ensures var u := if f.opcode == OP_CONTINUATION then t else OpcodeToMessageType(f.opcode);
            ReadFrom(limit, EncodeFrame(f) + tail, data, t)
            == if f.fin then ReadResult(Message(u, data + f.payload), tail, [])
               else ReadFrom(limit, tail, data + f.payload, u)
  {
    ReadsFrame(f, tail);
  }

  lemma ReadsFirst(limit: nat, f: Frame, tail: seq<byte>)
    requires ValidFrame(f) && |f.payload| <= limit
    requires f.opcode == OP_TEXT || f.opcode == OP_BINARY
    ensures var u := OpcodeToMessageType(f.opcode);
            ReadFrom(limit, EncodeFrame(f) + tail, [], NoType)
            == if f.fin then ReadResult(Message(u, f.payload), tail, [])
               else ReadFrom(limit, tail, f.payload, u)
  {
    ReadsFrame(f, tail);
    assert [] + f.payload == f.payload;
  }

  /** The continuation fragments of a message complete it. */
  lemma {:induction false} ReadsRest(limit: nat, parts: seq<Part>, tail: seq<byte>, data: seq<byte>, t: MessageType)
    requires ValidRest(parts) && |data| + |MessageData(parts)| <= limit && t != NoType
    ensures ReadFrom(limit, PartsThen(parts, tail), data, t)
         == ReadResult(Message(t, data + MessageData(parts)), tail, MessagePings(parts))
    decreases |parts|
  {
    var f, more := parts[0].frame, PartsThen(parts[1..], tail);
    ReadsControls(limit, parts[0].controls, EncodeFrame(f) + more, data, t);
    ReadsData(limit, f, more, data, t);
    if |parts| == 1 {
      assert parts[1..] == [];
      assert f.payload + [] == f.payload && Pings(parts[0].controls) + [] == Pings(parts[0].controls);
    } else {
      ReadsRest(limit, parts[1..], tail, data + f.payload, t);
      AppendAssociates(data, f.payload, MessageData(parts[1..]));
    }
  }

  /** A message in any number of fragments, with any control frames between
      them, is read as its first frame's type and the concatenated data; every
      ping on the way is answered, in order. */
  lemma ReadsMessage(limit: nat, parts: seq<Part>, tail: seq<byte>)
    requires ValidMessage(parts) && |MessageData(parts)| <= limit
    ensures ReadFrom(limit, PartsThen(parts, tail), [], NoType)
         == ReadResult(Message(OpcodeToMessageType(parts[0].frame.opcode), MessageData(parts)), tail, MessagePings(parts))
  {
    var f, more := parts[0].frame, PartsThen(parts[1..], tail);
    ReadsControls(limit, parts[0].controls, EncodeFrame(f) + more, [], NoType);
    ReadsFirst(limit, f, more);
    if |parts| == 1 {
      assert parts[1..] == [];
      assert f.payload + [] == f.payload && Pings(parts[0].controls) + [] == Pings(parts[0].controls);
    } else {
      ReadsRest(limit, parts[1..], tail, f.payload, OpcodeToMessageType(f.opcode));
    }
  }

  // ---------------------------------------------------------------------
  // Messages that do not end, or do not fit

  /** Continuations of a message that goes on. */
  ghost predicate ValidMore(parts: seq<Part>) {
    parts != [] ==>
      && ValidControls(parts[0].controls) && ValidFrame(parts[0].frame)
      && parts[0].frame.opcode == OP_CONTINUATION && !parts[0].frame.fin
      && ValidMore(parts[1..])
  }

  /** The fragments so far of a message that goes on, if any. */
  ghost predicate ValidOpen(parts: seq<Part>) {
    parts != [] ==>
      && ValidControls(parts[0].controls) && ValidFrame(parts[0].frame)
      && (parts[0].frame.opcode == OP_TEXT || parts[0].frame.opcode == OP_BINARY) && !parts[0].frame.fin
      && ValidMore(parts[1..])
  }

  function OpenType(parts: seq<Part>): MessageType {
    if parts == [] then NoType else OpcodeToMessageType(parts[0].frame.opcode)
  }

  lemma {:induction false} ReadsMore(limit: nat, parts: seq<Part>, tail: seq<byte>, data: seq<byte>, t: MessageType)
    requires ValidMore(parts) && |data| + |MessageData(parts)| <= limit && t != NoType
    ensures ReadFrom(limit, PartsThen(parts, tail), data, t)
         == After(MessagePings(parts), ReadFrom(limit, tail, data + MessageData(parts), t))
    decreases |parts|
  {
    if parts == [] {
      assert data + [] == data;
      AfterNothing(ReadFrom(limit, tail, data, t));
    } else {
      var f, more := parts[0].frame, PartsThen(parts[1..], tail);
      ReadsControls(limit, parts[0].controls, EncodeFrame(f) + more, data, t);
      ReadsData(limit, f, more, data, t);
      ReadsMore(limit, parts[1..], tail, data + f.payload, t);
      AppendAssociates(data, f.payload, MessageData(parts[1..]));
      AfterAfter(Pings(parts[0].controls), MessagePings(parts[1..]), ReadFrom(limit, tail, data + MessageData(parts), t));
    }
  }

  /** The fragments so far are taken in, and reading goes on behind them. */
  lemma ReadsOpen(limit: nat, parts: seq<Part>, tail: seq<byte>)
    requires ValidOpen(parts) && |MessageData(parts)| <= limit
    ensures ReadFrom(limit, PartsThen(parts, tail), [], NoType)
         == After(MessagePings(parts), ReadFrom(limit, tail, MessageData(parts), OpenType(parts)))
  {
    if parts == [] {
      AfterNothing(ReadFrom(limit, tail, [], NoType));
    } else {
      var f, more := parts[0].frame, PartsThen(parts[1..], tail);
      ReadsControls(limit, parts[0].controls, EncodeFrame(f) + more, [], NoType);
      ReadsFirst(limit, f, more);
      ReadsMore(limit, parts[1..], tail, f.payload, OpenType(parts));
      AfterAfter(Pings(parts[0].controls), MessagePings(parts[1..]),
                 ReadFrom(limit, tail, MessageData(parts), OpenType(parts)));
    }
  }

  lemma ReadsTooMuch(limit: nat, f: Frame, tail: seq<byte>, data: seq<byte>, t: MessageType)
    requires ValidFrame(f) && |data| <= limit < |data| + |f.payload|
    requires f.opcode == OP_TEXT || f.opcode == OP_BINARY || (f.opcode == OP_CONTINUATION && t != NoType)
    ensures StopsWith(ReadFrom(limit, EncodeFrame(f) + tail, data, t), [])
  {
    ReadsFrame(f, tail);
  }

  /** A message is stashed, after these pings were answered. */
  ghost predicate StopsWith(r: ReadResult, pongs: seq<seq<byte>>) {
    r.outcome.Stashed? && r.pongs == pongs
  }

  /** The pings of a message up to the fragment that no longer fits. */
  function PingsUntil(parts: seq<Part>, room: int): seq<seq<byte>> {
    if parts == [] then []
    else
      var size := |parts[0].frame.payload|;
      Pings(parts[0].controls) + (if size > room then [] else PingsUntil(parts[1..], room - size))
  }

  /** The controls before a fragment are answered, whatever becomes of it. */
  lemma StopsBehind(limit: nat, part: Part, more: seq<byte>, data: seq<byte>, t: MessageType, pongs: seq<seq<byte>>)
    requires |data| <= limit && ValidControls(part.controls)
    requires StopsWith(ReadFrom(limit, EncodeFrame(part.frame) + more, data, t), pongs)
    ensures StopsWith(ReadFrom(limit, FramesThen(part.controls, EncodeFrame(part.frame) + more), data, t),
                      Pings(part.controls) + pongs)
  {
    var inner := EncodeFrame(part.frame) + more;
    ReadsControls(limit, part.controls, inner, data, t);
  }

  lemma FirstPart(parts: seq<Part>, tail: seq<byte>, room: int)
    requires parts != []
    ensures PartsThen(parts, tail)
         == FramesThen(parts[0].controls, EncodeFrame(parts[0].frame) + PartsThen(parts[1..], tail))
    ensures var size := |parts[0].frame.payload|;
            PingsUntil(parts, room)
            == Pings(parts[0].controls) + (if size > room then [] else PingsUntil(parts[1..], room - size))
  {
  }

  lemma LastPart(parts: seq<Part>)
    requires parts != []
    ensures |parts| == 1 ==> MessageData(parts) == parts[0].frame.payload
  {
    if |parts| == 1 { assert MessageData(parts[1..]) == []; }
  }

  /** A message is stashed at the first fragment that no longer fits. */
  lemma {:induction false} ReadsTooLargeRest(limit: nat, parts: seq<Part>, tail: seq<byte>, data: seq<byte>, t: MessageType)
    requires ValidRest(parts) && |data| <= limit < |data| + |MessageData(parts)| && t != NoType
    ensures StopsWith(ReadFrom(limit, PartsThen(parts, tail), data, t), PingsUntil(parts, limit - |data|))
    decreases |parts|
  {
    var f, more := parts[0].frame, PartsThen(parts[1..], tail);
    FirstPart(parts, tail, limit - |data|);
    if |data| + |f.payload| > limit {
      ReadsTooMuch(limit, f, more, data, t);
      StopsBehind(limit, parts[0], more, data, t, []);
    } else {
      LastPart(parts);
      ReadsData(limit, f, more, data, t);
      ReadsTooLargeRest(limit, parts[1..], tail, data + f.payload, t);
      StopsBehind(limit, parts[0], more, data, t, PingsUntil(parts[1..], limit - |data| - |f.payload|));
    }
  }

  lemma ReadsTooLarge(limit: nat, parts: seq<Part>, tail: seq<byte>)
    requires ValidMessage(parts) && |MessageData(parts)| > limit
    ensures StopsWith(ReadFrom(limit, PartsThen(parts, tail), [], NoType), PingsUntil(parts, limit))
  {
    var f, more := parts[0].frame, PartsThen(parts[1..], tail);
    FirstPart(parts, tail, limit);
    if |f.payload| > limit {
      ReadsTooMuch(limit, f, more, [], NoType);
      StopsBehind(limit, parts[0], more, [], NoType, []);
    } else {
      LastPart(parts);
      ReadsFirst(limit, f, more);
      ReadsTooLargeRest(limit, parts[1..], tail, f.payload, OpcodeToMessageType(f.opcode));
      StopsBehind(limit, parts[0], more, [], NoType, PingsUntil(parts[1..], limit - |f.payload|));
    }
  }

  lemma {:induction false} ReadsTooLargeMore(limit: nat, parts: seq<Part>, tail: seq<byte>, data: seq<byte>, t: MessageType)
    requires ValidMore(parts) && |data| <= limit < |data| + |MessageData(parts)| && t != NoType
    ensures ReadFrom(limit, PartsThen(parts, tail), data, t).outcome.Stashed?
    decreases |parts|
  {
    var f, more := parts[0].frame, PartsThen(parts[1..], tail);
    ReadsControls(limit, parts[0].controls, EncodeFrame(f) + more, data, t);
    if |data| + |f.payload| > limit {
      ReadsTooMuch(limit, f, more, data, t);
    } else {
      ReadsData(limit, f, more, data, t);
      ReadsTooLargeMore(limit, parts[1..], tail, data + f.payload, t);
    }
  }

  /** So is a message that has not ended yet. */
  lemma ReadsTooLargeOpen(limit: nat, parts: seq<Part>, tail: seq<byte>)
    requires ValidOpen(parts) && |MessageData(parts)| > limit
    ensures ReadFrom(limit, PartsThen(parts, tail), [], NoType).outcome.Stashed?
  {
    var f, more := parts[0].frame, PartsThen(parts[1..], tail);
    ReadsControls(limit, parts[0].controls, EncodeFrame(f) + more, [], NoType);
    if |f.payload| > limit {
      ReadsTooMuch(limit, f, more, [], NoType);
    } else {
      ReadsFirst(limit, f, more);
      ReadsTooLargeMore(limit, parts[1..], tail, f.payload, OpcodeToMessageType(f.opcode));
    }
  }

  // ---------------------------------------------------------------------
  // Written frames

  /** What `writeFrame` emits for a data message is read back as that message:
      same type, same payload, in one frame. */
  lemma WrittenMessageReadsBack(limit: nat, key: MaskKey, msgType: MessageType, payload: seq<byte>, tail: seq<byte>)
    requires msgType == Text || msgType == Binary
    requires |payload| <= limit && |payload| <= MAX_PAYLOAD
    ensures ReadFrom(limit, EncodeFrame(WrittenFrame(key, MessageTypeToOpcode(msgType), payload)) + tail, [], NoType)
         == ReadResult(Message(msgType, payload), tail, [])
  {
    ReadsFirst(limit, WrittenFrame(key, MessageTypeToOpcode(msgType), payload), tail);
  }

  /** The bytes begin with a final frame of this opcode and payload. */
  ghost predicate ReadsAs(input: seq<byte>, opcode: byte, payload: seq<byte>, tail: seq<byte>) {
    var r := ParseHeader(input);
    && r.HeaderOk? && r.header.fin && r.header.opcode == opcode
    && Payload(r.rest, r.header.masked, r.header.key, r.header.length) == Got(payload, tail)
  }

  /** The wire round trip.  For every opcode, key and payload that a slice can
      hold, what `writeFrame` emits is read back as it was exactly when the reader
      takes its length: 2^31-1 bytes at most, and 125 in a control frame.
      `writeFrame` makes no such difference. */
  lemma WrittenFrameReadsBack(key: MaskKey, opcode: byte, payload: seq<byte>, tail: seq<byte>)
    requires opcode < 16 && |payload| < Pow256(8)
    ensures ReadsAs(EncodeFrame(WrittenFrame(key, opcode, payload)) + tail, opcode, payload, tail)
       <==> |payload| <= MAX_PAYLOAD && (IsControl(opcode) ==> |payload| <= MAX_CONTROL)
  {
    var f := WrittenFrame(key, opcode, payload);
    if |payload| > MAX_PAYLOAD {
      EncodedFrameSplits(f, tail);
      ParseTooLong(f.Head(), Mask(f.masked, f.key, f.payload) + tail);
    } else if IsControl(opcode) && |payload| > MAX_CONTROL {
      EncodedFrameSplits(f, tail);
      ParseBadControl(f.Head(), f.form, Mask(f.masked, f.key, f.payload) + tail);
    } else {
      ReadsFrame(f, tail);
    }
  }

  // ---------------------------------------------------------------------
  // Streams

  /** Complete messages, then control frames after the last of them. */
  datatype Stream = Stream(messages: seq<seq<Part>>, trailing: seq<Frame>)

  ghost predicate ValidStream(s: Stream) {
    && (forall m :: m in s.messages ==> ValidMessage(m))
    && ValidControls(s.trailing)
  }

  /** The bytes of `ms` followed by `tail`. */
  function MessagesThen(ms: seq<seq<Part>>, tail: seq<byte>): seq<byte> {
    if ms == [] then tail else PartsThen(ms[0], MessagesThen(ms[1..], tail))
  }

  function AllPings(ms: seq<seq<Part>>): seq<seq<byte>> {
    if ms == [] then [] else MessagePings(ms[0]) + AllPings(ms[1..])
  }

  function Bytes(s: Stream): seq<byte> {
    MessagesThen(s.messages, FramesThen(s.trailing, []))
  }

  function StreamPings(s: Stream): seq<seq<byte>> {
    AllPings(s.messages) + Pings(s.trailing)
  }

  /** Nothing follows the trailing control frames. */
  lemma ReadsTrailing(limit: nat, fs: seq<Frame>)
    requires ValidControls(fs)
    ensures ReadFrom(limit, FramesThen(fs, []), [], NoType) == ReadResult(Failed(Eof), [], Pings(fs))
  {
    ReadsControls(limit, fs, [], [], NoType);
    assert ReadFrom(limit, [], [], NoType) == ReadResult(Failed(Eof), [], []);
    assert Pings(fs) + [] == Pings(fs);
  }
}
