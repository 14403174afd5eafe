/** The client connection `wsConn` of libs/shared/websocket/dialer.go, with its
    fields and buffers updated in place as in the source.  The socket is the
    sequence of bytes it will still deliver and the sequence it was given. */
module Connection {
  import opened Types
  import opened Wire
  import opened Reading

  class WsConn {
    var input: seq<byte>            // what the peer still sends
    var sent: seq<Frame>            // every frame written so far
    var mask: nat
    var pending: Option<Pending>

    /** `dialWebSocket`, after the handshake; `seed` is what `seedMask` returns. */
    constructor (stream: seq<byte>, seed: nat)
      ensures input == stream && sent == [] && pending == None
      ensures mask == if seed == 0 then 0x9e3779b9 else seed
    {
      input := stream;
      sent := [];
      mask := if seed == 0 then 0x9e3779b9 else seed;
      pending := None;
    }

    /** `io.ReadFull` */
    method Fill(n: nat) returns (r: FullRead)
      modifies this`input
      ensures r == ReadFull(old(input), n)
      ensures input == if r.Got? then r.rest else []
    {
      r := ReadFull(input, n);
      input := if r.Got? then r.rest else [];
    }

    /** `readHeader` */
    method ReadHeader() returns (r: HeaderResult)
      modifies this`input
      ensures r == ParseHeader(old(input)) && input == r.rest
    {
      var fixed := Fill(2);
      if fixed.Missing? { return HeaderErr(fixed.error, []); }
      var fin := TopBit(fixed.data[0]);
      if ReservedBits(fixed.data[0]) { return HeaderErr(Protocol, input); }
      var opcode := LowNibble(fixed.data[0]);
      var masked := TopBit(fixed.data[1]);
      var length: nat := LowSeven(fixed.data[1]);
      if length == 126 {
        var ext := Fill(2);
        if ext.Missing? { return HeaderErr(ext.error, []); }
        length := DecodeBE(ext.data);
      } else if length == 127 {
        var ext := Fill(8);
        if ext.Missing? { return HeaderErr(ext.error, []); }
        if TopBit(ext.data[0]) { return HeaderErr(Protocol, input); }
        length := DecodeBE(ext.data);
        if length > MAX_PAYLOAD { return HeaderErr(TooLarge, input); }
      }
      var key: MaskKey := NO_KEY;
      if masked {
        var k := Fill(4);
        if k.Missing? { return HeaderErr(k.error, []); }
        key := KeyFrom(k.data);
      }
      if IsControl(opcode) && (!fin || length > MAX_CONTROL) { return HeaderErr(Protocol, input); }
      return HeaderOk(Header(fin, opcode, masked, key, length), input);
    }

    /** `readPayload` into `dst[from..to]`, unmasking in place. */
    method ReadPayload(dst: array<byte>, from: nat, to: nat, masked: bool, key: MaskKey) returns (error: Option<ReadError>)
      requires from <= to <= dst.Length
      modifies this`input, dst
      ensures match Payload(old(input), masked, key, to - from)
              case Missing(e) => error == Some(e) && input == []
              case Got(data, rest) =>
                && error == None && input == rest
                && dst[from..to] == data && dst[..from] == old(dst[..from]) && dst[to..] == old(dst[to..])
    {
      var taken := Fill(to - from);
      if taken.Missing? { return Some(taken.error); }
      forall i | from <= i < to {
        dst[i] := taken.data[i - from];
      }
      if masked {
        assert dst[from..to] == taken.data;
        XorInPlace(dst, from, to, key);
        assert dst[from..to] == Mask(true, key, taken.data);
      } else {
        assert dst[from..to] == taken.data;
      }
      error := None;
    }

    /** `writeFrame`, for pongs and for every other frame; `bytes` is what goes
        to the socket.  The payload is masked in the caller's buffer and stays
        masked there. */
    method WriteFrame(opcode: byte, payload: array<byte>, length: nat) returns (bytes: seq<byte>)
      requires opcode < 16 && length <= payload.Length
      modifies this`sent, this`mask, payload
      ensures mask == NextMask(old(mask))
      ensures var f := WrittenFrame(KeyOf(mask), opcode, old(payload[..length]));
              sent == old(sent) + [f] && bytes == EncodeFrame(f)
      ensures payload[..length] == Mask(true, KeyOf(mask), old(payload[..length]))
      ensures payload[length..] == old(payload[length..])
    {
      mask := NextMask(mask);
      var key := KeyOf(mask);
      bytes := HeaderBytes(opcode, length, key);
      ghost var plain := payload[..length];
      sent := sent + [WrittenFrame(key, opcode, payload[..length])];
      if length == 0 {
        assert Mask(true, key, plain) == [] && plain == [];
        assert bytes + [] == bytes;
        return;
      }
      XorInPlace(payload, 0, length, key);
      assert payload[..length] == payload[0..length] && plain == old(payload[0..length]);
      bytes := bytes + payload[..length];
    }

    /** `stashPending` */
    method StashPending(data: seq<byte>, msgType: MessageType, fin: bool, masked: bool, key: MaskKey, length: nat)
      modifies this`pending
      ensures pending == Some(Pending(data, msgType, fin, masked, key, length))
    {
      pending := Some(Pending(data, msgType, fin, masked, key, length));
    }

    /** The state a finished read leaves: the stash is set exactly when the
        message did not fit, and a message lies at the start of the buffer. */
    predicate Left(outcome: Outcome, dst: array<byte>)
      reads this`pending, dst
    {
      && pending == (if outcome.Stashed? then Some(outcome.pending) else None)
      && (outcome.Message? ==> |outcome.data| <= dst.Length && dst[..|outcome.data|] == outcome.data)
    }

    /** The control frame branch of the loop in `Read`. */
    method HandleControl(h: Header) returns (error: Option<ReadError>, ghost pongs: seq<seq<byte>>, ghost frames: seq<Frame>)
      requires h.opcode < 16 && IsControl(h.opcode) && h.length <= MAX_CONTROL
      modifies this`input, this`sent, this`mask
      ensures match Payload(old(input), h.masked, h.key, h.length)
              case Missing(e) => error == Some(e) && input == [] && pongs == []
              case Got(p, rest) =>
                && input == rest && pongs == (if h.opcode == OP_PING then [p] else [])
                && error == (if h.opcode == OP_CLOSE then Some(Eof) else None)
      ensures ArePongs(frames, pongs) && sent == old(sent) + frames
    {
      var ctrl := new byte[125](_ => 0);
      pongs, frames := [], [];
      error := ReadPayload(ctrl, 0, h.length, h.masked, h.key);
      if error.Some? { return; }
      assert ctrl[..h.length] == ctrl[0..h.length];
      if h.opcode == OP_PING {
        pongs := [ctrl[..h.length]];
        var _ := WriteFrame(OP_PONG, ctrl, h.length);
        frames := [WrittenFrame(KeyOf(mask), OP_PONG, pongs[0])];
      }
      if h.opcode == OP_CLOSE { error := Some(Eof); }
    }

    /** One round of the loop in `Read`.  It either goes on with the rest of the
        message, or returns. */
    method ReadFrame(dst: array<byte>, length: nat, total: nat, msgType: MessageType)
      returns (step: Step, ghost pongs: seq<seq<byte>>, ghost frames: seq<Frame>)
      requires total <= length <= dst.Length && pending == None
      modifies this, dst
      ensures ArePongs(frames, pongs) && sent == old(sent) + frames
      ensures step.More? ==> step.total <= length && |input| < |old(input)| && pending == None
      ensures step.Done? ==> Left(step.outcome, dst)
      ensures ReadFrom(length, old(input), old(dst[..total]), msgType)
           == if step.More? then After(pongs, ReadFrom(length, input, dst[..step.total], step.msgType))
              else ReadResult(step.outcome, input, pongs)
    {
      ghost var data := dst[..total];
      pongs, frames := [], [];
      var header := ReadHeader();
      if header.HeaderErr? { step := Done(Failed(header.error)); return; }
      var h := header.header;
      if IsControl(h.opcode) {
        var error;
        error, pongs, frames := HandleControl(h);
        step := if error.Some? then Done(Failed(error.value)) else More(total, msgType);
        return;
      }
      FrameIsData(length, old(input), data, msgType, h, input);
      step := ReadDataFrame(dst, length, total, msgType, h);
    }

    /** A data frame, its header read: refused, stashed or taken. */
    method ReadDataFrame(dst: array<byte>, length: nat, total: nat, msgType: MessageType, h: Header) returns (step: Step)
      requires total <= length <= dst.Length && pending == None && !IsControl(h.opcode)
      modifies this`input, this`pending, dst
      ensures step.More? ==> step.total <= length && pending == None
      ensures step.Done? ==> Left(step.outcome, dst)
      ensures |input| <= |old(input)|
      ensures DataFrame(length, h, old(input), old(dst[..total]), msgType)
           == if step.More? then After([], ReadFrom(length, input, dst[..step.total], step.msgType))
              else ReadResult(step.outcome, input, [])
    {
      var t := msgType;
      if h.opcode != OP_CONTINUATION { t := OpcodeToMessageType(h.opcode); }
      if t == NoType { step := Done(Failed(Protocol)); return; }
      if total + h.length > length {
        StashPending(dst[..total], t, h.fin, h.masked, h.key, h.length);
        step := Done(Stashed(pending.value));
        return;
      }
      step := ReadFragment(dst, length, total, t, h);
    }

    /** A data frame that fits. */
    method ReadFragment(dst: array<byte>, length: nat, total: nat, t: MessageType, h: Header) returns (step: Step)
      requires total + h.length <= length <= dst.Length && pending == None
      modifies this`input, dst
      ensures step.More? ==> step.total <= length
      ensures step.Done? ==> Left(step.outcome, dst)
      ensures |input| <= |old(input)|
      ensures Resume(length, Pending(old(dst[..total]), t, h.fin, h.masked, h.key, h.length), old(input))
           == if step.More? then After([], ReadFrom(length, input, dst[..step.total], step.msgType))
              else ReadResult(step.outcome, input, [])
    {
      ghost var p := Pending(dst[..total], t, h.fin, h.masked, h.key, h.length);
      ghost var taken := Payload(input, h.masked, h.key, h.length);
      ResumeTakes(length, p, input);
      var error := ReadData(dst, total, h.masked, h.key, h.length);
      if error.Some? { step := Done(Failed(error.value)); return; }
      var n := total + h.length;
      assert dst[..n] == p.data + taken.data && input == taken.rest;
      if h.fin {
        step := Done(Message(t, dst[..n]));
      } else {
        step := More(n, t);
      }
    }

    /** The payload of a frame, read behind the first `total` bytes. */
    method ReadData(dst: array<byte>, total: nat, masked: bool, key: MaskKey, length: nat) returns (error: Option<ReadError>)
      requires total + length <= dst.Length
      modifies this`input, dst
      ensures match Payload(old(input), masked, key, length)
              case Missing(e) => error == Some(e) && input == []
              case Got(p, rest) => error == None && input == rest && dst[..total + length] == old(dst[..total]) + p
    {
      error := ReadPayload(dst, total, total + length, masked, key);
      if error.None? {
        assert dst[..total + length] == dst[..total] + dst[total..total + length];
      }
    }

    /** The stashed message at the start of `Read`. */
    method ReadPending(dst: array<byte>, length: nat) returns (step: Step)
      requires length <= dst.Length && pending.Some?
      modifies this`input, this`pending, dst
      ensures step.More? ==> step.total <= length && pending == None
      ensures step.Done? ==> Left(step.outcome, dst)
      ensures Resume(length, old(pending).value, old(input))
           == if step.More? then ReadFrom(length, input, dst[..step.total], step.msgType)
              else ReadResult(step.outcome, input, [])
    {
      var p := pending.value;
      if length < p.Need() { return Done(Stashed(p)); }
      CopyTo(dst, p.data);
      pending := None;
      var error := ReadData(dst, |p.data|, p.masked, p.key, p.length);
      if error.Some? { return Done(Failed(error.value)); }
      var n := p.Need();
      step := if p.fin then Done(Message(p.msgType, dst[..n])) else More(n, p.msgType);
    }

    /** `Read` into the first `length` bytes of `dst`: exactly the outcome, the
        bytes consumed and the pongs of `Reading.Read`. */
    method Read(dst: array<byte>, length: nat)
      returns (n: nat, msgType: MessageType, error: Option<ReadError>, ghost frames: seq<Frame>)
      requires length <= dst.Length
      modifies this, dst
      ensures var r := Reading.Read(length, old(pending), old(input));
              && input == r.rest
              && ArePongs(frames, r.pongs) && sent == old(sent) + frames
              && Left(r.outcome, dst)
              && (error, msgType) == Returned(r.outcome)
              && n == if r.outcome.Message? then |r.outcome.data| else 0
    {
      ghost var goal := Reading.Read(length, pending, input);
      ghost var pongs: seq<seq<byte>> := [];
      frames := [];
      var step := More(0, NoType);
      if pending.Some? {
        step := ReadPending(dst, length);
      }
      AfterNothing(goal);
      while step.More?
        invariant step.More? ==> step.total <= length && pending == None
        invariant step.Done? ==> Left(step.outcome, dst)
        invariant goal == if step.More? then After(pongs, ReadFrom(length, input, dst[..step.total], step.msgType))
                          else ReadResult(step.outcome, input, pongs)
        invariant ArePongs(frames, pongs) && sent == old(sent) + frames
        decreases step.More?, |input|
      {
        ghost var pong, frame;
        step, pong, frame := ReadFrame(dst, length, step.total, step.msgType);
        PongsAppend(frames, pongs, frame, pong);
        AppendAssociates(old(sent), frames, frame);
        if step.More? {
          AfterAfter(pongs, pong, ReadFrom(length, input, dst[..step.total], step.msgType));
        }
        pongs, frames := pongs + pong, frames + frame;
      }
      error, msgType := Returned(step.outcome).0, Returned(step.outcome).1;
      n := if step.outcome.Message? then |step.outcome.data| else 0;
    }
  }

  /** What a round of `Read` decides. */
  datatype Step = More(total: nat, msgType: MessageType) | Done(outcome: Outcome)

  /** The error and message type `Read` returns for an outcome. */
  function Returned(outcome: Outcome): (Option<ReadError>, MessageType) {
    match outcome
    case Message(t, _) => (None, t)
    case Failed(e) => (Some(e), NoType)
    case Stashed(_) => (Some(TooLarge), NoType)
  }

  /** `for i := range dst { dst[i] ^= maskKey[i&3] }` over `a[from..to]`. */
  method XorInPlace(a: array<byte>, from: nat, to: nat, key: MaskKey)
    requires from <= to <= a.Length
    modifies a
    ensures a[from..to] == Mask(true, key, old(a[from..to]))
    ensures a[..from] == old(a[..from]) && a[to..] == old(a[to..])
  {
    ghost var plain := a[from..to];
    var i := 0;
    while i < to - from
      invariant 0 <= i <= to - from
      invariant a[from..from + i] == XorKey(key, plain[..i])
      invariant a[from + i..to] == plain[i..]
      invariant a[..from] == old(a[..from]) && a[to..] == old(a[to..])
    {
      assert a[from + i] == a[from + i..to][0] == plain[i];
      XorNext(key, plain, i);
      a[from + i] := XorBytes(a[from + i], key.At(i));
      assert a[from..from + i + 1] == a[from..from + i] + [a[from + i]];
      i := i + 1;
    }
    assert plain[..i] == plain;
  }

  lemma XorNext(key: MaskKey, plain: seq<byte>, i: nat)
    requires i < |plain|
    ensures XorKey(key, plain[..i + 1]) == XorKey(key, plain[..i]) + [XorBytes(plain[i], key.At(i))]
  {
    assert plain[..i + 1][..i] == plain[..i];
  }

  /** The header `writeFrame` builds: FIN, the opcode, the length and the key. */
  method HeaderBytes(opcode: byte, length: nat, key: MaskKey) returns (bytes: seq<byte>)
    requires opcode < 16
    ensures bytes == EncodeHeader(Header(true, opcode, true, key, length), ShortestForm(length))
  {
    var header := new byte[14](_ => 0);
    header[0] := 0x80 + opcode;
    var n := BuildLengthHeader(header, length, true, key);
    assert header[..n] == [header[0]] + header[1..n];
    bytes := header[..n];
  }

  /** `buildLengthHeader`: everything after the first byte. */
  method BuildLengthHeader(dst: array<byte>, length: nat, masked: bool, key: MaskKey) returns (n: nat)
    requires dst.Length == 14
    modifies dst
    ensures 2 <= n <= 14 && dst[0] == old(dst[0])
    ensures var form := ShortestForm(length);
            dst[1..n] == [SecondByte(masked, Length7(form, length))] + LengthBytes(form, length)
                         + (if masked then key.Bytes() else [])
  {
    n := PutLength(dst, length);
    if masked { n := PutKey(dst, n, key); }
    assert dst[1..n] == [dst[1]] + dst[2..n];
  }

  /** The mask bit, and the key behind the length. */
  method PutKey(dst: array<byte>, at: nat, key: MaskKey) returns (n: nat)
    requires 2 <= at <= 10 && dst.Length == 14 && dst[1] < 128
    modifies dst
    ensures n == at + 4 && dst[0] == old(dst[0]) && dst[1] == old(dst[1]) + 128
    ensures dst[2..n] == old(dst[2..at]) + key.Bytes()
  {
    n := at + 4;
    ghost var before := dst[2..at];
    dst[1] := dst[1] + 128;
    forall i | 0 <= i < 4 { dst[at + i] := key.Bytes()[i]; }
    assert dst[2..at] == before;
    assert dst[at..n] == key.Bytes();
    assert dst[2..n] == dst[2..at] + dst[at..n];
  }

  /** The length field, without the mask bit. */
  method PutLength(dst: array<byte>, length: nat) returns (n: nat)
    requires dst.Length == 14
    modifies dst
    ensures 2 <= n <= 10 && dst[0] == old(dst[0])
    ensures dst[1] == Length7(ShortestForm(length), length) && dst[2..n] == LengthBytes(ShortestForm(length), length)
  {
    n := 2;
    if length <= 125 {
      dst[1] := length;
    } else if length <= 0xffff {
      dst[1] := 126;
      PutBytes(dst, 2, EncodeBE(length, 2));
      n := n + 2;
    } else {
      dst[1] := 127;
      PutBytes(dst, 2, EncodeBE(length, 8));
      n := n + 8;
    }
  }

  method PutBytes(dst: array<byte>, at: nat, s: seq<byte>)
    requires at + |s| <= dst.Length
    modifies dst
    ensures dst[at..at + |s|] == s
    ensures dst[..at] == old(dst[..at]) && dst[at + |s|..] == old(dst[at + |s|..])
  {
    forall i | 0 <= i < |s| { dst[at + i] := s[i]; }
  }
}
