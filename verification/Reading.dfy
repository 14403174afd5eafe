/** What one call of `wsConn.Read` in libs/shared/websocket/dialer.go returns, as
    a function of the bytes still to come, the length of the caller's buffer and
    the stashed partial message.

    The two laws at the end are what the retrying caller relies on: a buffer
    that is large enough may be replaced by any larger one, and a message that
    did not fit can be resumed as if the larger buffer had been there from the
    start. */
module Reading {
  import opened Types
  import opened Wire

  /** `pendingRead`: the part of a message read so far and the header of the
      frame that did not fit behind it. */
  datatype Pending = Pending(data: seq<byte>, msgType: MessageType, fin: bool, masked: bool, key: MaskKey, length: nat)
  {
    function Need(): nat { |data| + length }
  }

  datatype Outcome =
    | Message(msgType: MessageType, data: seq<byte>)
    | Failed(error: ReadError)
    | Stashed(pending: Pending)

  /** Outcome of one read, the bytes left in the stream, and the payloads of the
      pings answered on the way, in order. */
  datatype ReadResult = ReadResult(outcome: Outcome, rest: seq<byte>, pongs: seq<seq<byte>>)

  /** The result `r` seen by a reader that has answered `pongs` before. */
  function After(pongs: seq<seq<byte>>, r: ReadResult): ReadResult {
    r.(pongs := pongs + r.pongs)
  }

  /** `readPayload`: the next `length` bytes, unmasked. */
  function Payload(input: seq<byte>, masked: bool, key: MaskKey, length: nat): (r: FullRead)
    ensures r.Got? ==> |r.rest| <= |input| && |r.data| == length
  {
    match ReadFull(input, length)
    case Missing(e) => Missing(e)
    case Got(data, rest) => Got(Mask(masked, key, data), rest)
  }

  /** The frame loop of `Read`: `data` and `msgType` are what the earlier frames
      of the message left, `limit` is the length of the caller's buffer. */
  function ReadFrom(limit: nat, input: seq<byte>, data: seq<byte>, msgType: MessageType): (r: ReadResult)
    requires |data| <= limit
    decreases |input|
  {
    match ParseHeader(input)
    case HeaderErr(e, rest) => ReadResult(Failed(e), rest, [])
    case HeaderOk(h, rest) =>
      if IsControl(h.opcode) then
        match Payload(rest, h.masked, h.key, h.length)
        case Missing(e) => ReadResult(Failed(e), [], [])
        case Got(p, rest2) =>
          if h.opcode == OP_CLOSE then ReadResult(Failed(Eof), rest2, [])
          else After(if h.opcode == OP_PING then [p] else [], ReadFrom(limit, rest2, data, msgType))
      else
        var t := if h.opcode != OP_CONTINUATION then OpcodeToMessageType(h.opcode) else msgType;
        if t == NoType then ReadResult(Failed(Protocol), rest, [])
        else if |data| + h.length > limit then
          ReadResult(Stashed(Pending(data, t, h.fin, h.masked, h.key, h.length)), rest, [])
        else
          match Payload(rest, h.masked, h.key, h.length)
          case Missing(e) => ReadResult(Failed(e), [], [])
          case Got(p, rest2) =>
            if h.fin then ReadResult(Message(t, data + p), rest2, [])
            else ReadFrom(limit, rest2, data + p, t)
  }

  /** `Read` when a stashed message is waiting. */
  function Resume(limit: nat, p: Pending, input: seq<byte>): ReadResult {
    if p.Need() > limit then ReadResult(Stashed(p), input, [])
    else
      match Payload(input, p.masked, p.key, p.length)
      case Missing(e) => ReadResult(Failed(e), [], [])
      case Got(d, rest) =>
        if p.fin then ReadResult(Message(p.msgType, p.data + d), rest, [])
        else ReadFrom(limit, rest, p.data + d, p.msgType)
  }

  /** `Read` on a connection whose stash is `pending`. */
  function Read(limit: nat, pending: Option<Pending>, input: seq<byte>): ReadResult {
    match pending
    case None => ReadFrom(limit, input, [], NoType)
    case Some(p) => Resume(limit, p, input)
  }

  lemma AfterAfter(a: seq<seq<byte>>, b: seq<seq<byte>>, r: ReadResult)
    ensures After(a, After(b, r)) == After(a + b, r)
  {
    assert a + (b + r.pongs) == (a + b) + r.pongs;
  }

  lemma AfterNothing(r: ReadResult)
    ensures After([], r) == r
  {
    assert [] + r.pongs == r.pongs;
  }

  /** What a reader with a larger buffer does where this one stopped with `r`:
      the same, or the stashed message resumed. */
  function Continue(limit: nat, r: ReadResult): ReadResult {
    match r.outcome
    case Stashed(p) => After(r.pongs, Resume(limit, p, r.rest))
    case _ => r
  }

  lemma ContinueAfter(limit: nat, pongs: seq<seq<byte>>, r: ReadResult)
    ensures Continue(limit, After(pongs, r)) == After(pongs, Continue(limit, r))
  {
    if r.outcome.Stashed? {
      AfterAfter(pongs, r.pongs, Resume(limit, r.outcome.pending, r.rest));
    }
  }

  /** Stashing is invisible to a larger buffer: reading with `small`, and
      resuming with `large` if the message did not fit, is reading with `large`
      in the first place.  This holds of every byte stream, malformed ones
      included. */
  lemma {:induction false} StashIsTransparentFrom(small: nat, large: nat, input: seq<byte>, data: seq<byte>, msgType: MessageType)
    requires |data| <= small <= large
    ensures ReadFrom(large, input, data, msgType) == Continue(large, ReadFrom(small, input, data, msgType))
    decreases |input|
  {
    match ParseHeader(input) {
      case HeaderErr(_, _) =>
      case HeaderOk(h, rest) =>
        var taken := Payload(rest, h.masked, h.key, h.length);
        if IsControl(h.opcode) {
          if taken.Got? && h.opcode != OP_CLOSE {
            StashIsTransparentFrom(small, large, taken.rest, data, msgType);
            ContinueAfter(large, if h.opcode == OP_PING then [taken.data] else [],
                          ReadFrom(small, taken.rest, data, msgType));
          }
        } else {
          var t := if h.opcode != OP_CONTINUATION then OpcodeToMessageType(h.opcode) else msgType;
          if t != NoType {
            if |data| + h.length > small {
              ResumeIsFrame(large, h, rest, data, t, input, msgType);
              AfterNothing(Resume(large, Pending(data, t, h.fin, h.masked, h.key, h.length), rest));
            } else if taken.Got? && !h.fin {
              StashIsTransparentFrom(small, large, taken.rest, data + taken.data, t);
            }
          }
        }
    }
  }

  lemma ResumeIsFrame(limit: nat, h: Header, rest: seq<byte>, data: seq<byte>, t: MessageType, input: seq<byte>, msgType: MessageType)
    requires |data| <= limit && ParseHeader(input) == HeaderOk(h, rest) && !IsControl(h.opcode)
    requires t == (if h.opcode != OP_CONTINUATION then OpcodeToMessageType(h.opcode) else msgType) && t != NoType
    ensures ReadFrom(limit, input, data, msgType)
         == Resume(limit, Pending(data, t, h.fin, h.masked, h.key, h.length), rest)
  {
  }

  /** A message resumed into a buffer that holds it. */
  lemma ResumeTakes(limit: nat, p: Pending, input: seq<byte>)
    requires p.Need() <= limit
    ensures var taken := Payload(input, p.masked, p.key, p.length);
            Resume(limit, p, input)
            == if taken.Missing? then ReadResult(Failed(taken.error), [], [])
               else if p.fin then ReadResult(Message(p.msgType, p.data + taken.data), taken.rest, [])
               else After([], ReadFrom(limit, taken.rest, p.data + taken.data, p.msgType))
  {
    var taken := Payload(input, p.masked, p.key, p.length);
    if taken.Got? && !p.fin { AfterNothing(ReadFrom(limit, taken.rest, p.data + taken.data, p.msgType)); }
  }

  /** What a data frame with header `h` leads to. */
  function DataFrame(limit: nat, h: Header, rest: seq<byte>, data: seq<byte>, msgType: MessageType): ReadResult {
    var t := if h.opcode != OP_CONTINUATION then OpcodeToMessageType(h.opcode) else msgType;
    if t == NoType then ReadResult(Failed(Protocol), rest, [])
    else Resume(limit, Pending(data, t, h.fin, h.masked, h.key, h.length), rest)
  }

  lemma FrameIsData(limit: nat, input: seq<byte>, data: seq<byte>, msgType: MessageType, h: Header, rest: seq<byte>)
    requires |data| <= limit && ParseHeader(input) == HeaderOk(h, rest) && !IsControl(h.opcode)
    ensures ReadFrom(limit, input, data, msgType) == DataFrame(limit, h, rest, data, msgType)
  {
  }

  /** The same for a call of `Read` in any state of the connection. */
  lemma StashIsTransparent(small: nat, large: nat, pending: Option<Pending>, input: seq<byte>)
    requires small <= large
    ensures Read(large, pending, input) == Continue(large, Read(small, pending, input))
  {
    match pending {
      case None => StashIsTransparentFrom(small, large, input, [], NoType);
      case Some(p) =>
        if p.Need() > small {
          AfterNothing(Resume(large, p, input));
        } else {
          var taken := Payload(input, p.masked, p.key, p.length);
          if taken.Got? && !p.fin {
            StashIsTransparentFrom(small, large, taken.rest, p.data + taken.data, p.msgType);
          }
        }
    }
  }

  /** A stashed message is always one that the buffer could not hold. */
  lemma {:induction false} StashMeansTooSmallFrom(limit: nat, input: seq<byte>, data: seq<byte>, msgType: MessageType)
    requires |data| <= limit
    ensures var r := ReadFrom(limit, input, data, msgType);
            && |r.rest| <= |input|
            && (r.outcome.Stashed? ==> r.outcome.pending.Need() > limit >= |r.outcome.pending.data|)
            && (r.outcome.Stashed? || r.outcome.Message? ==> |r.rest| < |input|)
            && (r.outcome.Message? ==> |r.outcome.data| <= limit)
    decreases |input|
  {
    match ParseHeader(input) {
      case HeaderErr(_, _) =>
      case HeaderOk(h, rest) =>
        var taken := Payload(rest, h.masked, h.key, h.length);
        if taken.Got? {
          if IsControl(h.opcode) {
            if h.opcode != OP_CLOSE {
              StashMeansTooSmallFrom(limit, taken.rest, data, msgType);
            }
          } else if |data| + h.length <= limit && !h.fin {
            var t := if h.opcode != OP_CONTINUATION then OpcodeToMessageType(h.opcode) else msgType;
            StashMeansTooSmallFrom(limit, taken.rest, data + taken.data, t);
          }
        }
    }
  }

  lemma StashMeansTooSmall(limit: nat, pending: Option<Pending>, input: seq<byte>)
    ensures var r := Read(limit, pending, input);
            && |r.rest| <= |input|
            && (r.outcome.Stashed? ==> r.outcome.pending.Need() > limit)
            && (r.outcome.Message? ==> |r.outcome.data| <= limit)
            && (pending.None? && r.outcome.Message? ==> |r.rest| < |input|)
  {
    match pending {
      case None => StashMeansTooSmallFrom(limit, input, [], NoType);
      case Some(p) =>
        var taken := Payload(input, p.masked, p.key, p.length);
        if p.Need() <= limit && taken.Got? && !p.fin {
          StashMeansTooSmallFrom(limit, taken.rest, p.data + taken.data, p.msgType);
        }
    }
  }

  /** `frames` are the pongs for `payloads`: one each, in order, with the same
      data. */
  ghost predicate ArePongs(frames: seq<Frame>, payloads: seq<seq<byte>>) {
    && |frames| == |payloads|
    && forall i :: 0 <= i < |frames| ==> frames[i] == WrittenFrame(frames[i].key, OP_PONG, payloads[i])
  }

  lemma PongsAppend(frames: seq<Frame>, pongs: seq<seq<byte>>, frame: seq<Frame>, pong: seq<seq<byte>>)
    requires ArePongs(frames, pongs) && ArePongs(frame, pong)
    ensures ArePongs(frames + frame, pongs + pong)
  {
  }
}
