/** Frames byte by byte: what section 5.2 of RFC 6455 asks of the bytes that
    libs/shared/websocket/dialer.go writes and reads, in plain numbers. */
module RawFrames {
  import opened Types
  import opened Wire
  import opened Reading
  import opened Connection

  // ---------------------------------------------------------------------
  // Masking

  predicate Bit(n: nat, k: nat) {
    n / Pow2(k) % 2 == 1
  }

  lemma HalfBit(n: nat, k: nat)
    ensures Bit(n, k + 1) <==> Bit(n / 2, k)
  {
    DivTwice(n, Pow2(k));
  }

  lemma DivTwice(n: nat, p: nat)
    requires p > 0
    ensures n / (2 * p) == n / 2 / p
  {
    var q, r := n / 2 / p, n / 2 % p;
    assert n / 2 == q * p + r;
    var s := 2 * r + n % 2;
    assert n == q * (2 * p) + s && 0 <= s < 2 * p;
    Quotient(n, 2 * p, q, s);
  }

  lemma Quotient(n: nat, m: nat, q: nat, r: nat)
    requires m > 0 && n == q * m + r && r < m
    ensures n / m == q
  {
    var d := n / m - q;
    assert n == (n / m) * m + n % m;
    assert d * m == r - n % m;
    if d >= 1 { AtLeast(d, m); assert false; }
    if d <= -1 { AtLeast(-d, m); assert false; }
  }

  lemma AtLeast(d: int, m: nat)
    requires d >= 1
    ensures d * m >= m
  {
  }

  /** `^` is exclusive or, bit by bit. */
  lemma {:induction false} XorBits(a: nat, b: nat, k: nat)
    ensures Bit(Xor(a, b), k) <==> (Bit(a, k) != Bit(b, k))
    decreases k
  {
    XorBit(a, b);
    if k == 0 {
      assert Pow2(0) == 1;
      ParityOfSum(a, b);
    } else {
      HalfBit(a, k - 1);
      HalfBit(b, k - 1);
      HalfBit(Xor(a, b), k - 1);
      XorBits(a / 2, b / 2, k - 1);
    }
  }

  lemma ParityOfSum(a: nat, b: nat)
    ensures (a + b) % 2 == 1 <==> a % 2 != b % 2
  {
  }

  /** Masking changes byte `i` by byte `i` modulo 4 of the key. */
  lemma {:induction false} MaskedByte(key: MaskKey, data: seq<byte>, i: nat)
    requires i < |data|
    ensures Mask(true, key, data)[i] == XorBytes(data[i], key.Bytes()[i % 4])
    decreases |data|
  {
    if i < |data| - 1 { MaskedByte(key, data[..|data| - 1], i); }
  }

  /** The bits of a masked byte. */
  lemma MaskedBits(a: byte, b: byte, k: nat)
    ensures Bit(XorBytes(a, b), k) <==> (Bit(a, k) != Bit(b, k))
  {
    XorBits(a, b, k);
  }

  // ---------------------------------------------------------------------
  // What is written

  /** Where the key of a masked frame with `n` bytes of payload stands. */
  function KeyPlace(n: nat): nat {
    if n <= 125 then 2 else if n <= 0xffff then 4 else 10
  }

  function Number2(high: nat, low: nat): nat {
    256 * high + low
  }

  function Number4(a: nat, b: nat, c: nat, d: nat): nat {
    Number2(Number2(Number2(a, b), c), d)
  }

  /** The number eight bytes spell, the highest first. */
  function Number8(s: seq<byte>): nat
    requires |s| == 8
  {
    Number2(Number2(Number2(Number2(Number4(s[0], s[1], s[2], s[3]), s[4]), s[5]), s[6]), s[7])
  }

  lemma DecodeIs(s: seq<byte>)
    ensures |s| == 2 ==> DecodeBE(s) == Number2(s[0], s[1])
    ensures |s| == 8 ==> DecodeBE(s) == Number8(s)
  {
    if |s| == 2 || |s| == 8 {
      assert s[..|s|] == s;
      DecodePrefix(s, 0);
      DecodePrefix(s, 1);
    }
    if |s| == 8 {
      DecodePrefix(s, 2);
      DecodePrefix(s, 3);
      DecodePrefix(s, 4);
      DecodePrefix(s, 5);
      DecodePrefix(s, 6);
      DecodePrefix(s, 7);
    }
  }

  /** The bytes of a written frame. */
  ghost predicate IsWritten(bytes: seq<byte>, key: MaskKey, opcode: byte, payload: seq<byte>) {
    var n := |payload|;
    var at := KeyPlace(n);
    && |bytes| == at + 4 + n
    && bytes[0] == 128 + opcode
    && bytes[1] == 128 + (if n <= 125 then n else if n <= 0xffff then 126 else 127)
    && (at == 4 ==> Number2(bytes[2], bytes[3]) == n)
    && (at == 10 ==> Number8(bytes[2..10]) == n)
    && bytes[at..at + 4] == key.Bytes()
    && forall i :: 0 <= i < n ==> bytes[at + 4 + i] == XorBytes(payload[i], bytes[at + i % 4])
  }

  lemma LengthIs(n: nat)
    requires n < Pow256(8)
    ensures var ext := LengthBytes(ShortestForm(n), n);
            && |ext| + 2 == KeyPlace(n)
            && Length7(ShortestForm(n), n) == (if n <= 125 then n else if n <= 0xffff then 126 else 127)
            && (|ext| == 2 ==> Number2(ext[0], ext[1]) == n)
            && (|ext| == 8 ==> Number8(ext) == n)
  {
    var form := ShortestForm(n);
    Pow256Values();
    DecodeIs(LengthBytes(form, n));
    if form == Medium { BigEndianRoundTrip(n, 2); }
    if form == Long { BigEndianRoundTrip(n, 8); }
  }

  lemma Pieces(fixed: seq<byte>, ext: seq<byte>, key: seq<byte>, masked: seq<byte>)
    requires |fixed| == 2 && |key| == 4
    ensures var bytes := (fixed + ext + key) + masked;
            var at := 2 + |ext|;
            && |bytes| == at + 4 + |masked|
            && bytes[0] == fixed[0] && bytes[1] == fixed[1] && bytes[2..at] == ext && bytes[at..at + 4] == key
            && forall i :: 0 <= i < |masked| ==> bytes[at + 4 + i] == masked[i]
  {
  }

  /** For every opcode, key and payload, the bytes `writeFrame` sends are those of
      section 5.2 of RFC 6455: FIN and opcode, mask bit and shortest length, the
      key, and the payload byte by byte changed by the key. */
  lemma WrittenBytes(key: MaskKey, opcode: byte, payload: seq<byte>)
    requires opcode < 16 && |payload| < Pow256(8)
    ensures IsWritten(EncodeFrame(WrittenFrame(key, opcode, payload)), key, opcode, payload)
  {
    var n := |payload|;
    var form := ShortestForm(n);
    var first, second := FirstByte(true, opcode), SecondByte(true, Length7(form, n));
    LengthIs(n);
    FixedPieces(opcode, Length7(form, n));
    FramePieces(key, opcode, payload);
    WrittenPieces(EncodeFrame(WrittenFrame(key, opcode, payload)), first, second, LengthBytes(form, n), key, opcode, payload);
  }

  lemma FixedPieces(opcode: byte, length7: byte)
    requires opcode < 16 && length7 < 128
    ensures FirstByte(true, opcode) == 128 + opcode && SecondByte(true, length7) == 128 + length7
  {
  }

  lemma FramePieces(key: MaskKey, opcode: byte, payload: seq<byte>)
    ensures var n := |payload|;
            var form := ShortestForm(n);
            EncodeFrame(WrittenFrame(key, opcode, payload))
            == ([FirstByte(true, opcode), SecondByte(true, Length7(form, n))] + LengthBytes(form, n) + key.Bytes())
               + Mask(true, key, payload)
  {
  }

  lemma WrittenPieces(bytes: seq<byte>, first: byte, second: byte, ext: seq<byte>, key: MaskKey, opcode: byte, payload: seq<byte>)
    requires bytes == ([first, second] + ext + key.Bytes()) + Mask(true, key, payload)
    requires var n := |payload|;
             && first == 128 + opcode
             && second == 128 + (if n <= 125 then n else if n <= 0xffff then 126 else 127)
             && |ext| + 2 == KeyPlace(n)
             && (|ext| == 2 ==> Number2(ext[0], ext[1]) == n)
             && (|ext| == 8 ==> Number8(ext) == n)
    ensures IsWritten(bytes, key, opcode, payload)
  {
    Pieces([first, second], ext, key.Bytes(), Mask(true, key, payload));
    assert |ext| == 2 ==> bytes[2..4] == ext && bytes[2] == ext[0] && bytes[3] == ext[1];
    MaskedPayload(bytes, KeyPlace(|payload|), key, payload);
  }

  lemma MaskedPayload(bytes: seq<byte>, at: nat, key: MaskKey, payload: seq<byte>)
    requires |bytes| == at + 4 + |payload| && bytes[at..at + 4] == key.Bytes()
    requires forall i :: 0 <= i < |payload| ==> bytes[at + 4 + i] == Mask(true, key, payload)[i]
    ensures forall i :: 0 <= i < |payload| ==> bytes[at + 4 + i] == XorBytes(payload[i], bytes[at + i % 4])
  {
    forall i | 0 <= i < |payload| ensures bytes[at + 4 + i] == XorBytes(payload[i], bytes[at + i % 4]) {
      MaskedByte(key, payload, i);
      assert bytes[at..at + 4][i % 4] == bytes[at + i % 4];
    }
  }

  /** The opcode byte of each message type. */
  lemma WrittenTypes(key: MaskKey, payload: seq<byte>)
    requires |payload| < Pow256(8)
    ensures EncodeFrame(WrittenFrame(key, MessageTypeToOpcode(Text), payload))[0] == 0x81
    ensures EncodeFrame(WrittenFrame(key, MessageTypeToOpcode(Binary), payload))[0] == 0x82
    ensures EncodeFrame(WrittenFrame(key, MessageTypeToOpcode(Close), payload))[0] == 0x88
    ensures EncodeFrame(WrittenFrame(key, MessageTypeToOpcode(Ping), payload))[0] == 0x89
    ensures EncodeFrame(WrittenFrame(key, MessageTypeToOpcode(Pong), payload))[0] == 0x8A
  {
  }

  /** Pings are answered by frames that begin 0x8A, with their data. */
  lemma PongBytes(frames: seq<Frame>, pongs: seq<seq<byte>>, i: nat)
    requires ArePongs(frames, pongs) && i < |frames|
    ensures i < |pongs| && EncodeFrame(frames[i])[0] == 0x8A && frames[i].payload == pongs[i]
  {
  }

  // ---------------------------------------------------------------------
  // The key generator

  /** The four key bytes are the mask, lowest byte first. */
  lemma KeyIsMask(mask: nat)
    requires mask < 0x1_0000_0000
    ensures var k := KeyOf(mask).Bytes(); Number4(k[3], k[2], k[1], k[0]) == mask
  {
    var b := mask / 0x100;
    var c := b / 0x100;
    Above(mask);
    FourBytes(mask, b, c, c / 0x100, mask % 0x100, b % 0x100, c % 0x100);
    assert KeyOf(mask) == MaskKey(mask % 0x100, b % 0x100, c % 0x100, c / 0x100);
  }

  lemma FourBytes(m: nat, b: nat, c: nat, d: nat, k0: nat, k1: nat, k2: nat)
    requires m == 256 * b + k0 && b == 256 * c + k1 && c == 256 * d + k2
    ensures Number4(d, k2, k1, k0) == m
  {
  }

  lemma Above(m: nat)
    requires m < 0x1_0000_0000
    ensures m / 0x100 / 0x100 == m / 0x1_0000 && m / 0x1_0000 / 0x100 == m / 0x100_0000 && m / 0x100_0000 < 256
  {
  }

  lemma {:induction false} ShiftRightBit(m: nat, n: nat, k: nat)
    ensures Bit(ShiftRight(m, n), k) <==> Bit(m, k + n)
    decreases n
  {
    if n > 0 {
      HalfBit(ShiftRight(m, n - 1), k);
      ShiftRightBit(m, n - 1, k + 1);
    }
  }

  lemma DoubleBit(m: nat, k: nat)
    ensures Bit(2 * m, k) <==> k > 0 && Bit(m, k - 1)
  {
    if k > 0 {
      HalfBit(2 * m, k - 1);
      assert 2 * m / 2 == m;
    } else {
      assert Pow2(0) == 1 && 2 * m % 2 == 0;
    }
  }

  lemma {:induction false} LowBits(m: nat, p: nat, k: nat)
    requires k < p
    ensures Bit(m % Pow2(p), k) <==> Bit(m, k)
    decreases p
  {
    ModHalf(m, Pow2(p - 1));
    if k == 0 {
      assert Pow2(0) == 1 && m % Pow2(p) % 2 == m % 2;
    } else {
      HalfBit(m, k - 1);
      HalfBit(m % Pow2(p), k - 1);
      LowBits(m / 2, p - 1, k - 1);
    }
  }

  lemma ModHalf(m: nat, q: nat)
    requires q > 0
    ensures m % (2 * q) % 2 == m % 2 && m % (2 * q) / 2 == m / 2 % q
  {
    DivTwice(m, q);
    var d := m / (2 * q);
    assert m == d * (2 * q) + m % (2 * q);
    var r := m % (2 * q);
    assert r == m - 2 * (d * q);
    assert m / 2 == d * q + r / 2 && 0 <= r / 2 < q;
    assert m / 2 == (m / 2 / q) * q + m / 2 % q;
  }

  lemma {:induction false} ShiftLeftBit(m: nat, n: nat, k: nat)
    requires m < 0x1_0000_0000 && k < 32
    ensures Bit(ShiftLeft(m, n), k) <==> k >= n && Bit(m, k - n)
    decreases n
  {
    if n > 0 {
      Pow2Values();
      LowBits(2 * ShiftLeft(m, n - 1), 32, k);
      DoubleBit(ShiftLeft(m, n - 1), k);
      if k > 0 { ShiftLeftBit(m, n - 1, k - 1); }
    }
  }

  /** The generator is xorshift with 13, 17 and 5: three rounds, each bit changed
      by the one that many places away. */
  lemma MaskBits(m: nat) returns (a: nat, b: nat)
    requires 0 < m < 0x1_0000_0000
    ensures forall k :: 0 <= k < 32 ==> (Bit(a, k) <==> (Bit(m, k) != (k >= 13 && Bit(m, k - 13))))
    ensures forall k :: 0 <= k < 32 ==> (Bit(b, k) <==> (Bit(a, k) != Bit(a, k + 17)))
    ensures forall k :: 0 <= k < 32 ==> (Bit(NextMask(m), k) <==> (Bit(b, k) != (k >= 5 && Bit(b, k - 5))))
    ensures a < 0x1_0000_0000 && b < 0x1_0000_0000 && NextMask(m) < 0x1_0000_0000
  {
    MaskStaysNonZero(m);
    a := Xor(m, ShiftLeft(m, 13));
    b := Xor(a, ShiftRight(a, 17));
    RoundsBelow(m, a, b);
    LeftRounds(m, 13, a);
    RightRounds(a, 17, b);
    LeftRounds(b, 5, NextMask(m));
  }

  lemma LeftRounds(m: nat, n: nat, r: nat)
    requires m < 0x1_0000_0000 && r == Xor(m, ShiftLeft(m, n))
    ensures forall k :: 0 <= k < 32 ==> (Bit(r, k) <==> (Bit(m, k) != (k >= n && Bit(m, k - n))))
  {
    forall k | 0 <= k < 32 ensures Bit(r, k) <==> (Bit(m, k) != (k >= n && Bit(m, k - n))) { LeftRound(m, n, k); }
  }

  lemma RightRounds(m: nat, n: nat, r: nat)
    requires r == Xor(m, ShiftRight(m, n))
    ensures forall k :: 0 <= k < 32 ==> (Bit(r, k) <==> (Bit(m, k) != Bit(m, k + n)))
  {
    forall k | 0 <= k < 32 ensures Bit(r, k) <==> (Bit(m, k) != Bit(m, k + n)) { RightRound(m, n, k); }
  }

  lemma RoundsBelow(m: nat, a: nat, b: nat)
    requires m < 0x1_0000_0000 && a == Xor(m, ShiftLeft(m, 13)) && b == Xor(a, ShiftRight(a, 17))
    ensures a < 0x1_0000_0000 && b < 0x1_0000_0000
  {
    Pow2Values();
    XorBelow(m, ShiftLeft(m, 13), 32);
    ShiftRightSmaller(a, 17);
    XorBelow(a, ShiftRight(a, 17), 32);
  }

  lemma LeftRound(m: nat, n: nat, k: nat)
    requires m < 0x1_0000_0000 && k < 32
    ensures Bit(Xor(m, ShiftLeft(m, n)), k) <==> (Bit(m, k) != (k >= n && Bit(m, k - n)))
  {
    XorBits(m, ShiftLeft(m, n), k);
    ShiftLeftBit(m, n, k);
  }

  lemma RightRound(m: nat, n: nat, k: nat)
    ensures Bit(Xor(m, ShiftRight(m, n)), k) <==> (Bit(m, k) != Bit(m, k + n))
  {
    XorBits(m, ShiftRight(m, n), k);
    ShiftRightBit(m, n, k);
  }

  // ---------------------------------------------------------------------
  // What is read

  /** The refusals of `readHeader`, by the bytes. */
  lemma HeaderRefusals(input: seq<byte>)
    ensures |input| == 0 ==> ParseHeader(input) == HeaderErr(Eof, [])
    ensures |input| == 1 ==> ParseHeader(input) == HeaderErr(UnexpectedEof, [])
    ensures |input| >= 2 && input[0] / 16 % 8 != 0 ==> ParseHeader(input) == HeaderErr(Protocol, input[2..])
    ensures |input| >= 10 && input[0] / 16 % 8 == 0 && input[1] % 128 == 127 ==>
              && (input[2] >= 128 ==> ParseHeader(input) == HeaderErr(Protocol, input[10..]))
              && (input[2] < 128 && Number8(input[2..10]) > 2147483647 ==> ParseHeader(input) == HeaderErr(TooLarge, input[10..]))
  {
    if |input| >= 10 {
      DecodeIs(input[2..10]);
      assert input[2..][..8] == input[2..10] && input[2..][8..] == input[10..];
    }
  }

  /** And the headers it takes, for data frames: the length in any form, and the
      key behind it. */
  lemma HeaderAccepts(input: seq<byte>)
    requires |input| >= 14 && input[0] / 16 % 8 == 0 && input[0] % 16 < 3
    ensures var fin, opcode := input[0] >= 128, input[0] % 16;
            && (input[1] < 126 ==> ParseHeader(input) == HeaderOk(Header(fin, opcode, false, NO_KEY, input[1]), input[2..]))
            && (input[1] == 126 ==>
                  ParseHeader(input) == HeaderOk(Header(fin, opcode, false, NO_KEY, Number2(input[2], input[3])), input[4..]))
            && (input[1] == 127 && input[2] < 128 && Number8(input[2..10]) <= 2147483647 ==>
                  ParseHeader(input) == HeaderOk(Header(fin, opcode, false, NO_KEY, Number8(input[2..10])), input[10..]))
            && (128 <= input[1] < 254 ==>
                  ParseHeader(input) == HeaderOk(Header(fin, opcode, true, KeyFrom(input[2..6]), input[1] - 128), input[6..]))
  {
    if input[1] == 126 {
      TakesMedium(input);
    } else if input[1] == 127 {
      if input[2] < 128 { TakesLong(input); }
    } else if input[1] < 254 {
      TakesShort(input);
    }
  }

  lemma TakesMedium(input: seq<byte>)
    requires |input| >= 14 && input[0] / 16 % 8 == 0 && input[0] % 16 < 3 && input[1] == 126
    ensures ParseHeader(input)
         == HeaderOk(Header(input[0] >= 128, input[0] % 16, false, NO_KEY, Number2(input[2], input[3])), input[4..])
  {
    DecodeIs(input[2..4]);
    assert input[2..][..2] == input[2..4] && input[2..][2..] == input[4..] && input[4..][0..] == input[4..];
  }

  lemma TakesLong(input: seq<byte>)
    requires |input| >= 14 && input[0] / 16 % 8 == 0 && input[0] % 16 < 3 && input[1] == 127 && input[2] < 128
    ensures Number8(input[2..10]) <= 2147483647 ==>
              ParseHeader(input)
              == HeaderOk(Header(input[0] >= 128, input[0] % 16, false, NO_KEY, Number8(input[2..10])), input[10..])
  {
    DecodeIs(input[2..10]);
    assert input[2..][..8] == input[2..10] && input[2..][8..] == input[10..] && input[10..][0..] == input[10..];
  }

  lemma TakesShort(input: seq<byte>)
    requires |input| >= 14 && input[0] / 16 % 8 == 0 && input[0] % 16 < 3 && input[1] % 128 < 126
    ensures ParseHeader(input)
         == if input[1] < 128 then HeaderOk(Header(input[0] >= 128, input[0] % 16, false, NO_KEY, input[1]), input[2..])
            else HeaderOk(Header(input[0] >= 128, input[0] % 16, true, KeyFrom(input[2..6]), input[1] - 128), input[6..])
  {
    assert input[2..][..4] == input[2..6] && input[2..][4..] == input[6..] && input[2..][0..] == input[2..];
  }

  /** An unmasked frame with a short length. */
  function RawFrame(first: byte, payload: seq<byte>, tail: seq<byte>): seq<byte>
    requires |payload| <= 125
  {
    [first, |payload|] + (payload + tail)
  }

  lemma RawHeader(first: byte, payload: seq<byte>, tail: seq<byte>)
    requires |payload| <= 125 && first / 16 % 8 == 0
    ensures var opcode := first % 16;
            ParseHeader(RawFrame(first, payload, tail))
            == if (opcode == 8 || opcode == 9 || opcode == 10) && first < 128 then HeaderErr(Protocol, payload + tail)
               else HeaderOk(Header(first >= 128, opcode, false, NO_KEY, |payload|), payload + tail)
    ensures Payload(payload + tail, false, NO_KEY, |payload|) == Got(payload, tail)
  {
    var fixed, after := [first, |payload|], payload + tail;
    assert LengthBytes(Short, |payload|) + after == after;
    ParseFixed(fixed, Short, |payload|, after);
    NoKey(first >= 128, first % 16, |payload|, after);
    ReadFullSplit(payload, tail);
  }

  lemma NoKey(fin: bool, opcode: byte, length: nat, after: seq<byte>)
    requires length <= 125
    ensures FinishHeader(fin, opcode, false, length, after)
         == if (opcode == 8 || opcode == 9 || opcode == 10) && !fin then HeaderErr(Protocol, after)
            else HeaderOk(Header(fin, opcode, false, NO_KEY, length), after)
  {
    assert after[0..] == after;
  }

  /** What each first byte means to `Read`, with `data` read of a message of type
      `t` so far: 0x81 and 0x82 are text and binary, 0x80 goes on, without FIN
      there is more to come, 0x88 ends the stream, 0x89 is answered with its data,
      0x8A is skipped, and everything else is refused. */
  lemma FirstByteDecides(limit: nat, first: byte, payload: seq<byte>, tail: seq<byte>, data: seq<byte>, t: MessageType)
    requires |payload| <= 125 && |data| + |payload| <= limit
    ensures var r := ReadFrom(limit, RawFrame(first, payload, tail), data, t);
            && (first == 0x81 ==> r == ReadResult(Message(Text, data + payload), tail, []))
            && (first == 0x82 ==> r == ReadResult(Message(Binary, data + payload), tail, []))
            && (first == 0x80 ==> r == if t == NoType then ReadResult(Failed(Protocol), payload + tail, [])
                                       else ReadResult(Message(t, data + payload), tail, []))
            && (first == 0x01 ==> r == ReadFrom(limit, tail, data + payload, Text))
            && (first == 0x02 ==> r == ReadFrom(limit, tail, data + payload, Binary))
            && (first == 0x00 ==> r == if t == NoType then ReadResult(Failed(Protocol), payload + tail, [])
                                       else ReadFrom(limit, tail, data + payload, t))
            && (first == 0x88 ==> r == ReadResult(Failed(Eof), tail, []))
            && (first == 0x89 ==> r == After([payload], ReadFrom(limit, tail, data, t)))
            && (first == 0x8A ==> r == After([], ReadFrom(limit, tail, data, t)))
            && (first !in {0x00, 0x01, 0x02, 0x80, 0x81, 0x82, 0x88, 0x89, 0x8A} ==> r.outcome == Failed(Protocol))
  {
    var input := RawFrame(first, payload, tail);
    FirstBytes(first);
    if first / 16 % 8 == 0 {
      RawHeader(first, payload, tail);
      HeaderDecides(limit, input, first, payload, tail, data, t);
    } else {
      ReservedRefused(limit, input, data, t);
    }
  }

  lemma FirstBytes(first: byte)
    ensures first / 16 % 8 == 0 <==> first < 16 || 128 <= first < 144
    ensures first < 16 ==> first % 16 == first
    ensures 128 <= first < 144 ==> first % 16 == first - 128
  {
  }

  lemma ReservedRefused(limit: nat, input: seq<byte>, data: seq<byte>, t: MessageType)
    requires |data| <= limit && |input| >= 2 && input[0] / 16 % 8 != 0
    ensures ReadFrom(limit, input, data, t).outcome == Failed(Protocol)
  {
    HeaderRefusals(input);
  }

  lemma HeaderDecides(limit: nat, input: seq<byte>, first: byte, payload: seq<byte>, tail: seq<byte>, data: seq<byte>, t: MessageType)
    requires |data| + |payload| <= limit && |payload| <= 125
    requires var opcode := first % 16;
             ParseHeader(input)
             == if (opcode == 8 || opcode == 9 || opcode == 10) && first < 128 then HeaderErr(Protocol, payload + tail)
                else HeaderOk(Header(first >= 128, opcode, false, NO_KEY, |payload|), payload + tail)
    requires first / 16 % 8 == 0 && Payload(payload + tail, false, NO_KEY, |payload|) == Got(payload, tail)
    ensures var r, opcode := ReadFrom(limit, input, data, t), first % 16;
            && (opcode == 1 ==> r == if first >= 128 then ReadResult(Message(Text, data + payload), tail, [])
                                     else ReadFrom(limit, tail, data + payload, Text))
            && (opcode == 2 ==> r == if first >= 128 then ReadResult(Message(Binary, data + payload), tail, [])
                                     else ReadFrom(limit, tail, data + payload, Binary))
            && (opcode == 0 ==> r == if t == NoType then ReadResult(Failed(Protocol), payload + tail, [])
                                     else if first >= 128 then ReadResult(Message(t, data + payload), tail, [])
                                     else ReadFrom(limit, tail, data + payload, t))
            && (opcode == 8 && first >= 128 ==> r == ReadResult(Failed(Eof), tail, []))
            && (opcode == 9 && first >= 128 ==> r == After([payload], ReadFrom(limit, tail, data, t)))
            && (opcode == 10 && first >= 128 ==> r == After([], ReadFrom(limit, tail, data, t)))
            && ((8 <= opcode <= 10 && first < 128) || 3 <= opcode < 8 || opcode > 10 ==> r.outcome == Failed(Protocol))
  {
  }

  /** A message that does not fit is stashed with what its header says. */
  lemma TextIsStashed(limit: nat, payload: seq<byte>, tail: seq<byte>, data: seq<byte>, t: MessageType)
    requires |payload| <= 125 && |data| <= limit < |data| + |payload|
    ensures ReadFrom(limit, RawFrame(0x81, payload, tail), data, t)
         == ReadResult(Stashed(Pending(data, Text, true, false, NO_KEY, |payload|)), payload + tail, [])
  {
    RawHeader(0x81, payload, tail);
  }

  // ---------------------------------------------------------------------
  // Streams that break off

  /** The end of the input is `Eof` in front of a part of a frame and
      `UnexpectedEof` within one. */
  function EndAt(empty: bool): ReadError {
    if empty then Eof else UnexpectedEof
  }

  /** Within the length or the key of a header. */
  lemma HeaderBreaksOff(input: seq<byte>)
    requires |input| >= 2 && input[0] / 16 % 8 == 0
    ensures input[1] % 128 == 126 && |input| < 4 ==> ParseHeader(input) == HeaderErr(EndAt(|input| == 2), [])
    ensures input[1] % 128 == 127 && |input| < 10 ==> ParseHeader(input) == HeaderErr(EndAt(|input| == 2), [])
    ensures input[1] >= 128 && input[1] % 128 < 126 && |input| < 6 ==> ParseHeader(input) == HeaderErr(EndAt(|input| == 2), [])
    ensures input[1] == 254 && 4 <= |input| < 8 ==> ParseHeader(input) == HeaderErr(EndAt(|input| == 4), [])
    ensures input[1] == 255 && 10 <= |input| < 14 && input[2] < 128 && Number8(input[2..10]) <= 2147483647 ==>
              ParseHeader(input) == HeaderErr(EndAt(|input| == 10), [])
  {
    if |input| >= 10 {
      DecodeIs(input[2..10]);
      assert input[2..][..8] == input[2..10];
    }
  }

  /** And what `Read` makes of it, also within a payload. */
  lemma ReadBreaksOff(limit: nat, input: seq<byte>, data: seq<byte>, t: MessageType)
    requires |data| <= limit && ParseHeader(input).HeaderErr?
    ensures ReadFrom(limit, input, data, t) == ReadResult(Failed(ParseHeader(input).error), ParseHeader(input).rest, [])
    ensures |input| < 2 ==> ReadFrom(limit, input, data, t) == ReadResult(Failed(EndAt(input == [])), [], [])
  {
  }

  lemma PayloadBreaksOff(limit: nat, first: byte, length: nat, part: seq<byte>, data: seq<byte>, t: MessageType)
    requires |part| < length <= 125 && |data| + length <= limit
    requires first in {0x01, 0x02, 0x81, 0x82, 0x88, 0x89, 0x8A}
    ensures ReadFrom(limit, [first, length] + part, data, t) == ReadResult(Failed(EndAt(part == [])), [], [])
  {
    var fixed := [first, length];
    assert LengthBytes(Short, length) + part == part;
    ParseFixed(fixed, Short, length, part);
    NoKey(first >= 128, first % 16, length, part);
    FirstBytes(first);
  }
}
