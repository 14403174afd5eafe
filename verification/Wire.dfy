/** Wire format of libs/shared/websocket/dialer.go: base framing, masking and
    the three payload length forms of sections 5.2 and 5.3 of RFC 6455.

    A header is described twice: `ParseHeader` follows the branches of
    `readHeader`, `EncodeHeader` lays the fields out as section 5.2 of RFC 6455
    does.  The lemmas say that the two are inverse to each other. */
module Wire {
  type byte = n: nat | n < 256

  /** A masking key, `[4]byte`. */
  datatype MaskKey = MaskKey(k0: byte, k1: byte, k2: byte, k3: byte)
  {
    function At(i: nat): byte {
      if i % 4 == 0 then k0 else if i % 4 == 1 then k1 else if i % 4 == 2 then k2 else k3
    }

    function Bytes(): (s: seq<byte>)
      ensures |s| == 4
    {
      [k0, k1, k2, k3]
    }
  }

  const NO_KEY: MaskKey := MaskKey(0, 0, 0, 0)

  function KeyFrom(s: seq<byte>): (k: MaskKey)
    requires |s| == 4
    ensures k.Bytes() == s
  {
    MaskKey(s[0], s[1], s[2], s[3])
  }

  /** `maxPayloadLen`. */
  const MAX_PAYLOAD: nat := 0x7fff_ffff
  /** Largest payload of a control frame. */
  const MAX_CONTROL: nat := 125

  const OP_CONTINUATION: byte := 0x0
  const OP_TEXT: byte := 0x1
  const OP_BINARY: byte := 0x2
  const OP_CLOSE: byte := 0x8
  const OP_PING: byte := 0x9
  const OP_PONG: byte := 0xA

  /** The two data message types, and the zero value Go uses for "none". */
  datatype MessageType = NoType | Text | Binary | Close | Ping | Pong

  predicate IsControl(opcode: byte) {
    opcode == OP_PING || opcode == OP_PONG || opcode == OP_CLOSE
  }

  /** `opcodeToMessageType` */
  function OpcodeToMessageType(opcode: byte): MessageType {
    if opcode == OP_TEXT then Text
    else if opcode == OP_BINARY then Binary
    else NoType
  }

  /** `messageTypeToOpcode` */
  function MessageTypeToOpcode(msgType: MessageType): byte {
    match msgType
    case Text => OP_TEXT
    case Binary => OP_BINARY
    case Ping => OP_PING
    case Pong => OP_PONG
    case Close => OP_CLOSE
    case NoType => 0
  }

  /** End of input before the first byte, in the middle of a read, a protocol
      violation, and `errFrameTooLarge`.  A close frame also ends the stream
      with `Eof`. */
  datatype ReadError = Eof | UnexpectedEof | Protocol | TooLarge

  // ---------------------------------------------------------------------
  // Bytes and big-endian numbers

  function Pow256(k: nat): (p: nat)
    ensures p > 0
  {
    if k == 0 then 1 else 256 * Pow256(k - 1)
  }

  /** `binary.BigEndian.Uint16` and `Uint64`, for any number of bytes. */
  function DecodeBE(s: seq<byte>): nat {
    if s == [] then 0 else DecodeBE(s[..|s| - 1]) * 256 + s[|s| - 1]
  }

  lemma DecodePrefix(s: seq<byte>, i: nat)
    requires i < |s|
    ensures DecodeBE(s[..i + 1]) == DecodeBE(s[..i]) * 256 + s[i]
  {
    assert s[..i + 1][..i] == s[..i];
  }

  /** `binary.BigEndian.PutUint16` and `PutUint64`, for any number of bytes. */
  function EncodeBE(n: nat, k: nat): (s: seq<byte>)
    ensures |s| == k
  {
    if k == 0 then [] else EncodeBE(n / 256, k - 1) + [n % 256]
  }

  lemma DivBelow(n: nat, p: nat)
    requires n < 256 * p
    ensures n / 256 < p
  {
  }

  /** Decoding undoes encoding for every number that fits. */
  lemma {:induction false} BigEndianRoundTrip(n: nat, k: nat)
    requires n < Pow256(k)
    ensures DecodeBE(EncodeBE(n, k)) == n
  {
    if k > 0 {
      DivBelow(n, Pow256(k - 1));
      BigEndianRoundTrip(n / 256, k - 1);
      var s := EncodeBE(n, k);
      assert s[..k - 1] == EncodeBE(n / 256, k - 1);
    }
  }

  lemma DivSplit(hi: nat, lo: nat, p: nat)
    requires lo < 256 && hi < p
    ensures (hi * 256 + lo) / 256 == hi && (hi * 256 + lo) % 256 == lo
    ensures hi * 256 + lo < 256 * p
  {
  }

  lemma EncodeSnoc(n: nat, b: byte, k: nat)
    requires n % 256 == b
    ensures EncodeBE(n, k + 1) == EncodeBE(n / 256, k) + [b]
  {
  }

  /** Encoding undoes decoding, so the bytes of a number are determined by it. */
  lemma {:induction false} BigEndianBytes(s: seq<byte>)
    ensures DecodeBE(s) < Pow256(|s|)
    ensures EncodeBE(DecodeBE(s), |s|) == s
  {
    if s != [] {
      var t, b := s[..|s| - 1], s[|s| - 1];
      BigEndianBytes(t);
      var n := DecodeBE(s);
      DivSplit(DecodeBE(t), b, Pow256(|t|));
      EncodeSnoc(n, b, |t|);
      assert s == t + [b];
    }
  }

  /** A number with room to spare has a zero leading byte. */
  lemma {:induction false} LeadingZero(n: nat, k: nat)
    requires k > 0 && n < Pow256(k - 1)
    ensures EncodeBE(n, k)[0] == 0
  {
    if k > 1 {
      DivBelow(n, Pow256(k - 2));
      LeadingZero(n / 256, k - 1);
    } else {
      assert n == 0;
      assert EncodeBE(0, 1) == EncodeBE(0, 0) + [0];
    }
  }

  lemma Pow256Values()
    ensures Pow256(2) == 0x1_0000
    ensures Pow256(7) == 0x100_0000_0000_0000
    ensures Pow256(8) == 0x1_0000_0000_0000_0000
  {
    assert Pow256(1) == 256;
    assert Pow256(3) == 0x100_0000;
    assert Pow256(4) == 0x1_0000_0000;
    assert Pow256(5) == 0x100_0000_0000;
    assert Pow256(6) == 0x1_0000_0000_0000;
  }

  // ---------------------------------------------------------------------
  // Masking

  /** `^` on unsigned integers, bit by bit. */
  function Xor(a: nat, b: nat): nat
    decreases a + b
  {
    if a == 0 && b == 0 then 0 else 2 * Xor(a / 2, b / 2) + (a + b) % 2
  }

  lemma {:induction false} XorBelow(a: nat, b: nat, k: nat)
    requires a < Pow2(k) && b < Pow2(k)
    ensures Xor(a, b) < Pow2(k)
    decreases k
  {
    if k > 0 {
      XorBelow(a / 2, b / 2, k - 1);
    }
  }

  lemma HalfAndBit(h: nat, b: nat)
    requires b < 2
    ensures (2 * h + b) / 2 == h && (2 * h + b) % 2 == b
  {
  }

  lemma XorUnfolds(a: nat, b: nat, h: nat)
    requires h == Xor(a / 2, b / 2)
    ensures Xor(a, b) == 2 * h + (a + b) % 2
  {
    if a == 0 && b == 0 { assert Xor(0, 0) == 0; }
  }

  lemma XorBit(a: nat, b: nat)
    ensures Xor(a, b) / 2 == Xor(a / 2, b / 2) && Xor(a, b) % 2 == (a + b) % 2
  {
    var h := Xor(a / 2, b / 2);
    XorUnfolds(a, b, h);
    HalfAndBit(h, (a + b) % 2);
  }

  lemma ParityBack(a: nat, k: nat, x: nat)
    requires x % 2 == (a + k) % 2
    ensures (x + k) % 2 == a % 2
  {
  }

  lemma {:induction false} XorTwice(a: nat, k: nat)
    ensures Xor(Xor(a, k), k) == a
    decreases a + k
  {
    if a != 0 || k != 0 {
      var x := Xor(a, k);
      XorTwice(a / 2, k / 2);
      XorBit(a, k);
      XorUnfolds(x, k, a / 2);
      ParityBack(a, k, x);
    }
  }

  lemma {:induction false} XorZero(a: nat, b: nat)
    ensures Xor(a, b) == 0 <==> a == b
    decreases a + b
  {
    if a != 0 || b != 0 {
      XorZero(a / 2, b / 2);
    }
  }

  function Pow2(k: nat): (p: nat)
    ensures p > 0
  {
    if k == 0 then 1 else 2 * Pow2(k - 1)
  }

  lemma Pow2Values()
    ensures Pow2(8) == 0x100 && Pow2(32) == 0x1_0000_0000
  {
    assert Pow2(4) == 16;
    assert Pow2(12) == 0x1000;
    assert Pow2(16) == 0x1_0000;
    assert Pow2(20) == 0x10_0000;
    assert Pow2(24) == 0x100_0000;
    assert Pow2(28) == 0x1000_0000;
  }

  function XorBytes(a: byte, b: byte): byte {
    Pow2Values();
    XorBelow(a, b, 8);
    Xor(a, b)
  }

  /** `dst[i] ^= maskKey[i&3]` for every byte of a slice. */
  function XorKey(key: MaskKey, data: seq<byte>): (r: seq<byte>)
    ensures |r| == |data|
  {
    if data == [] then []
    else
      var n := |data| - 1;
      XorKey(key, data[..n]) + [XorBytes(data[n], key.At(n))]
  }

  /** The payload as it travels: changed by the key when the mask bit is set. */
  function Mask(masked: bool, key: MaskKey, data: seq<byte>): (r: seq<byte>)
    ensures |r| == |data|
  {
    if masked then XorKey(key, data) else data
  }

  lemma {:induction false} XorKeyTwice(key: MaskKey, data: seq<byte>)
    ensures XorKey(key, XorKey(key, data)) == data
  {
    if data != [] {
      var n := |data| - 1;
      var x := XorKey(key, data);
      assert x[..n] == XorKey(key, data[..n]) && x[n] == XorBytes(data[n], key.At(n));
      XorKeyTwice(key, data[..n]);
      XorTwice(data[n], key.At(n));
    }
  }

  /** Masking twice with one key restores the data (section 5.3 of RFC 6455). */
  lemma MaskInvolution(masked: bool, key: MaskKey, data: seq<byte>)
    ensures Mask(masked, key, Mask(masked, key, data)) == data
  {
    if masked {
      XorKeyTwice(key, data);
    }
  }

  // ---------------------------------------------------------------------
  // Headers

  /** A parsed header.  `length` is the payload length in bytes. */
  datatype Header = Header(fin: bool, opcode: byte, masked: bool, key: MaskKey, length: nat)

  /** The masking key, present when the mask bit is set. */
  function KeyBytes(h: Header): seq<byte> {
    if h.masked then h.key.Bytes() else []
  }

  /** Which of the three length encodings of section 5.2 a header uses. */
  datatype LengthForm = Short | Medium | Long

  /** What one frame on the wire may look like to this reader. */
  ghost predicate ValidHeader(h: Header, form: LengthForm) {
    && h.opcode < 16
    && (IsControl(h.opcode) ==> h.fin && h.length <= MAX_CONTROL)
    && (!h.masked ==> h.key == NO_KEY)
    && FitsForm(h.length, form)
  }

  /** What a length form can announce to this reader. */
  predicate FitsForm(length: nat, form: LengthForm) {
    match form
    case Short => length <= 125
    case Medium => length <= 0xffff
    case Long => length <= MAX_PAYLOAD
  }

  function FirstByte(fin: bool, opcode: byte): byte {
    (if fin then 0x80 else 0) + opcode % 16
  }

  function SecondByte(masked: bool, length7: byte): byte {
    (if masked then 0x80 else 0) + length7 % 128
  }

  function LengthBytes(form: LengthForm, length: nat): (s: seq<byte>)
    ensures |s| == (match form case Short => 0 case Medium => 2 case Long => 8)
  {
    match form
    case Short => []
    case Medium => EncodeBE(length, 2)
    case Long => EncodeBE(length, 8)
  }

  function Length7(form: LengthForm, length: nat): (b: byte)
    ensures b < 128
  {
    match form
    case Short => length % 128
    case Medium => 126
    case Long => 127
  }

  /** The bytes of a header, as section 5.2 of RFC 6455 lays them out. */
  function EncodeHeader(h: Header, form: LengthForm): seq<byte> {
    [FirstByte(h.fin, h.opcode), SecondByte(h.masked, Length7(form, h.length))]
    + LengthBytes(form, h.length)
    + KeyBytes(h)
  }

  /** `io.ReadFull`: all `n` bytes, or an error that has used the stream up. */
  datatype FullRead = Got(data: seq<byte>, rest: seq<byte>) | Missing(error: ReadError)

  function ReadFull(input: seq<byte>, n: nat): (r: FullRead)
    ensures r.Got? <==> n <= |input|
    ensures r.Got? ==> |r.data| == n && |r.rest| == |input| - n
  {
    if n <= |input| then Got(input[..n], input[n..])
    else Missing(if input == [] then Eof else UnexpectedEof)
  }

  datatype HeaderResult =
    | HeaderOk(header: Header, rest: seq<byte>)
    | HeaderErr(error: ReadError, rest: seq<byte>)

  /** `readHeader` after the extended length is known: the masking key, then the
      two control frame checks. */
  function FinishHeader(fin: bool, opcode: byte, masked: bool, length: nat, input: seq<byte>): (r: HeaderResult)
    ensures |r.rest| <= |input|
  {
    match ReadFull(input, if masked then 4 else 0)
    case Missing(e) => HeaderErr(e, [])
    case Got(key, rest) =>
      if IsControl(opcode) && (!fin || length > MAX_CONTROL) then HeaderErr(Protocol, rest)
      else HeaderOk(Header(fin, opcode, masked, if masked then KeyFrom(key) else NO_KEY, length), rest)
  }

  // Bit fields of the two fixed bytes, written with division: `b & 0x80 != 0`,
  // `b & 0x70 != 0`, `b & 0x0f` and `b & 0x7f`.
  predicate TopBit(b: byte) { b / 128 == 1 }
  predicate ReservedBits(b: byte) { b / 16 % 8 != 0 }
  function LowNibble(b: byte): byte { b % 16 }
  function LowSeven(b: byte): byte { b % 128 }

  /** `readHeader`. */
  function ParseHeader(input: seq<byte>): (r: HeaderResult)
    ensures |r.rest| <= |input|
    ensures r.HeaderOk? ==> |r.rest| < |input|
  {
    match ReadFull(input, 2)
    case Missing(e) => HeaderErr(e, [])
    case Got(b, rest) =>
      var fin := TopBit(b[0]);
      if ReservedBits(b[0]) then HeaderErr(Protocol, rest) else
      var opcode := LowNibble(b[0]);
      var masked := TopBit(b[1]);
      var length7 := LowSeven(b[1]);
      if length7 == 126 then
        match ReadFull(rest, 2)
        case Missing(e) => HeaderErr(e, [])
        case Got(ext, rest2) => FinishHeader(fin, opcode, masked, DecodeBE(ext), rest2)
      else if length7 == 127 then
        match ReadFull(rest, 8)
        case Missing(e) => HeaderErr(e, [])
        case Got(ext, rest2) =>
          if TopBit(ext[0]) then HeaderErr(Protocol, rest2)
          else if DecodeBE(ext) > MAX_PAYLOAD then HeaderErr(TooLarge, rest2)
          else FinishHeader(fin, opcode, masked, DecodeBE(ext), rest2)
      else FinishHeader(fin, opcode, masked, length7, rest)
  }

  lemma ReadFullSplit(a: seq<byte>, b: seq<byte>)
    ensures ReadFull(a + b, |a|) == Got(a, b)
  {
    assert (a + b)[..|a|] == a && (a + b)[|a|..] == b;
  }

  lemma FinishHeaderReads(h: Header, tail: seq<byte>)
    requires IsControl(h.opcode) ==> h.fin && h.length <= MAX_CONTROL
    requires !h.masked ==> h.key == NO_KEY
    ensures FinishHeader(h.fin, h.opcode, h.masked, h.length, KeyBytes(h) + tail)
         == HeaderOk(h, tail)
  {
    ReadFullSplit(KeyBytes(h), tail);
  }

  lemma FixedBytes(fin: bool, opcode: byte, masked: bool, l7: byte)
    requires opcode < 16 && l7 < 128
    ensures var b0, b1 := FirstByte(fin, opcode), SecondByte(masked, l7);
            && TopBit(b0) == fin && !ReservedBits(b0) && LowNibble(b0) == opcode
            && TopBit(b1) == masked && LowSeven(b1) == l7
  {
  }

  lemma EncodeHeaderParts(h: Header, form: LengthForm, tail: seq<byte>)
    ensures EncodeHeader(h, form) + tail
         == [FirstByte(h.fin, h.opcode), SecondByte(h.masked, Length7(form, h.length))]
            + (LengthBytes(form, h.length) + (KeyBytes(h) + tail))
  {
  }

  lemma ReadExtendedLength(form: LengthForm, length: nat, after: seq<byte>)
    requires (form == Medium && length <= 0xffff) || (form == Long && length <= MAX_PAYLOAD)
    ensures var ext := LengthBytes(form, length);
            && ReadFull(ext + after, |ext|) == Got(ext, after)
            && DecodeBE(ext) == length
            && (form == Long ==> !TopBit(ext[0]))
  {
    ReadFullSplit(LengthBytes(form, length), after);
    Pow256Values();
    if form == Medium {
      BigEndianRoundTrip(length, 2);
    } else {
      LeadingZero(length, 8);
      BigEndianRoundTrip(length, 8);
    }
  }

  /** Up to the masking key `readHeader` recovers every field, whether or not the
      control frame rules hold. */
  lemma ParseEncodedFields(h: Header, form: LengthForm, tail: seq<byte>)
    requires h.opcode < 16 && FitsForm(h.length, form)
    ensures ParseHeader(EncodeHeader(h, form) + tail)
         == FinishHeader(h.fin, h.opcode, h.masked, h.length, KeyBytes(h) + tail)
  {
    var l7 := Length7(form, h.length);
    var fixed := [FirstByte(h.fin, h.opcode), SecondByte(h.masked, l7)];
    var after := KeyBytes(h) + tail;
    EncodeHeaderParts(h, form, tail);
    FixedBytes(h.fin, h.opcode, h.masked, l7);
    ParseFixed(fixed, form, h.length, after);
  }

  /** Two fixed bytes, the extended length if any, and what follows. */
  lemma ParseFixed(fixed: seq<byte>, form: LengthForm, length: nat, after: seq<byte>)
    requires |fixed| == 2 && !ReservedBits(fixed[0]) && FitsForm(length, form)
    requires LowSeven(fixed[1]) == Length7(form, length)
    ensures ParseHeader(fixed + (LengthBytes(form, length) + after))
         == FinishHeader(TopBit(fixed[0]), LowNibble(fixed[0]), TopBit(fixed[1]), length, after)
  {
    ReadFullSplit(fixed, LengthBytes(form, length) + after);
    if form == Short {
      assert LengthBytes(form, length) + after == after;
    } else {
      ReadExtendedLength(form, length, after);
    }
  }

  /** `readHeader` reads back every valid header, in every length form, and
      leaves the bytes after it untouched. */
  lemma ParseEncodedHeader(h: Header, form: LengthForm, tail: seq<byte>)
    requires ValidHeader(h, form)
    ensures ParseHeader(EncodeHeader(h, form) + tail) == HeaderOk(h, tail)
  {
    ParseEncodedFields(h, form, tail);
    FinishHeaderReads(h, tail);
  }

  /** A control frame above 125 bytes, or in fragments, is refused behind its
      header. */
  lemma ParseBadControl(h: Header, form: LengthForm, tail: seq<byte>)
    requires h.opcode < 16 && FitsForm(h.length, form)
    requires IsControl(h.opcode) && (!h.fin || h.length > MAX_CONTROL)
    ensures ParseHeader(EncodeHeader(h, form) + tail) == HeaderErr(Protocol, tail)
  {
    ParseEncodedFields(h, form, tail);
    ReadFullSplit(KeyBytes(h), tail);
  }

  /** A 64-bit length above `maxPayloadLen` is refused. */
  lemma ParseTooLong(h: Header, tail: seq<byte>)
    requires h.opcode < 16 && MAX_PAYLOAD < h.length < Pow256(8)
    ensures ParseHeader(EncodeHeader(h, Long) + tail).HeaderErr?
  {
    var fixed := [FirstByte(h.fin, h.opcode), SecondByte(h.masked, 127)];
    var after := KeyBytes(h) + tail;
    EncodeHeaderParts(h, Long, tail);
    ReadFullSplit(fixed, LengthBytes(Long, h.length) + after);
    FixedBytes(h.fin, h.opcode, h.masked, 127);
    ReadFullSplit(LengthBytes(Long, h.length), after);
    BigEndianRoundTrip(h.length, 8);
  }

  /** The form `readHeader` recognises in the second byte. */
  ghost function FormOf(input: seq<byte>): LengthForm
    requires |input| >= 2
  {
    if LowSeven(input[1]) == 126 then Medium else if LowSeven(input[1]) == 127 then Long else Short
  }

  lemma ExtendedLength(ext: seq<byte>)
    ensures |ext| == 2 ==> DecodeBE(ext) <= 0xffff && EncodeBE(DecodeBE(ext), 2) == ext
    ensures |ext| == 8 ==> EncodeBE(DecodeBE(ext), 8) == ext
  {
    BigEndianBytes(ext);
    Pow256Values();
  }

  lemma FixedBytesBack(b0: byte, b1: byte)
    requires !ReservedBits(b0)
    ensures FirstByte(TopBit(b0), LowNibble(b0)) == b0
    ensures SecondByte(TopBit(b1), LowSeven(b1)) == b1
  {
  }

  lemma FinishedHeader(fin: bool, opcode: byte, masked: bool, length: nat, input: seq<byte>)
    requires FinishHeader(fin, opcode, masked, length, input).HeaderOk?
    ensures var r := FinishHeader(fin, opcode, masked, length, input);
            && r.header.fin == fin && r.header.opcode == opcode && r.header.masked == masked
            && r.header.length == length
            && (IsControl(opcode) ==> fin && length <= MAX_CONTROL)
            && (!masked ==> r.header.key == NO_KEY)
            && KeyBytes(r.header) + r.rest == input
  {
  }

  /** Bytes of extended length in each form. */
  ghost function ExtendedBytes(form: LengthForm): nat {
    match form case Short => 0 case Medium => 2 case Long => 8
  }

  /** What an accepted header was parsed from. */
  lemma AcceptedHeader(input: seq<byte>)
    requires ParseHeader(input).HeaderOk?
    ensures |input| >= 2 + ExtendedBytes(FormOf(input))
    ensures !ReservedBits(input[0])
    ensures var form, b1 := FormOf(input), input[1];
            var n := ExtendedBytes(form);
            var length := if form == Short then LowSeven(b1) else DecodeBE(input[2..2 + n]);
            && (form == Long ==> length <= MAX_PAYLOAD)
            && ParseHeader(input) == FinishHeader(TopBit(input[0]), LowNibble(input[0]), TopBit(b1), length, input[2 + n..])
  {
    var rest, n := input[2..], ExtendedBytes(FormOf(input));
    if n <= |rest| {
      assert rest[..n] == input[2..2 + n];
      assert rest[n..] == input[2 + n..];
    }
  }

  lemma SplitInput(input: seq<byte>, n: nat)
    requires |input| >= 2 + n
    ensures [input[0], input[1]] + (input[2..2 + n] + input[2 + n..]) == input
  {
    assert input[2..] == input[2..2 + n] + input[2 + n..];
    assert input == [input[0], input[1]] + input[2..];
  }

  lemma AssembledHeader(b0: byte, b1: byte, form: LengthForm, length: nat, body: seq<byte>, h: Header, tail: seq<byte>)
    requires !ReservedBits(b0)
    requires FinishHeader(TopBit(b0), LowNibble(b0), TopBit(b1), length, body) == HeaderOk(h, tail)
    requires match form case Short => length <= 125 case Medium => length <= 0xffff case Long => length <= MAX_PAYLOAD
    requires LowSeven(b1) == Length7(form, length)
    ensures ValidHeader(h, form)
    ensures EncodeHeader(h, form) + tail == [b0, b1] + (LengthBytes(form, length) + body)
  {
    FixedBytesBack(b0, b1);
    FinishedHeader(TopBit(b0), LowNibble(b0), TopBit(b1), length, body);
    EncodeHeaderParts(h, form, tail);
  }

  /** Whatever `readHeader` accepts is the encoding of a valid header: it never
      accepts a byte sequence section 5.2 does not describe. */
  lemma ParsedHeaderIsEncoded(input: seq<byte>)
    requires ParseHeader(input).HeaderOk?
    ensures |input| >= 2
    ensures ValidHeader(ParseHeader(input).header, FormOf(input))
    ensures EncodeHeader(ParseHeader(input).header, FormOf(input)) + ParseHeader(input).rest == input
  {
    AcceptedHeader(input);
    var b1, form := input[1], FormOf(input);
    var n := ExtendedBytes(form);
    var ext := input[2..2 + n];
    var length := if form == Short then LowSeven(b1) else DecodeBE(ext);
    ExtendedLength(ext);
    AssembledHeader(input[0], b1, form, length, input[2 + n..], ParseHeader(input).header, ParseHeader(input).rest);
    assert ext == LengthBytes(form, length);
    SplitInput(input, n);
  }

  // ---------------------------------------------------------------------
  // Frames

  /** One frame: header fields, length form and unmasked payload. */
  datatype Frame = Frame(fin: bool, opcode: byte, masked: bool, key: MaskKey, form: LengthForm, payload: seq<byte>)
  {
    function Head(): Header {
      Header(fin, opcode, masked, if masked then key else NO_KEY, |payload|)
    }
  }

  ghost predicate ValidFrame(f: Frame) {
    ValidHeader(f.Head(), f.form)
  }

  function EncodeFrame(f: Frame): seq<byte> {
    EncodeHeader(f.Head(), f.form) + Mask(f.masked, f.key, f.payload)
  }

  /** The form `buildLengthHeader` picks: the shortest that fits. */
  function ShortestForm(length: nat): LengthForm {
    if length <= 125 then Short else if length <= 0xffff then Medium else Long
  }

  // ---------------------------------------------------------------------
  // The masking key generator

  /** `m << k` in 32 bits. */
  function ShiftLeft(m: nat, k: nat): (r: nat)
    ensures m < 0x1_0000_0000 ==> r < 0x1_0000_0000
  {
    if k == 0 then m else 2 * ShiftLeft(m, k - 1) % 0x1_0000_0000
  }

  /** `m >> k` */
  function ShiftRight(m: nat, k: nat): nat {
    if k == 0 then m else ShiftRight(m, k - 1) / 2
  }

  function XorShift(m: nat): nat {
    var a := Xor(m, ShiftLeft(m, 13));
    var b := Xor(a, ShiftRight(a, 17));
    Xor(b, ShiftLeft(b, 5))
  }

  /** `nextMask` */
  function NextMask(m: nat): nat {
    var x := XorShift(m);
    if x == 0 then 0x9e3779b9 else x
  }

  /** The lowest `n` bits of `m` are zero. */
  ghost predicate LowZero(m: nat, n: nat) {
    n == 0 || (m % 2 == 0 && LowZero(m / 2, n - 1))
  }

  lemma {:induction false} LowZeroPow(k: nat, n: nat)
    requires n <= k
    ensures LowZero(Pow2(k), n)
  {
    if n > 0 {
      LowZeroPow(k - 1, n - 1);
    }
  }

  lemma {:induction false} LowZeroMinus(a: nat, b: nat, n: nat)
    requires b <= a && LowZero(a, n) && LowZero(b, n)
    ensures LowZero(a - b, n)
  {
    if n > 0 {
      LowZeroMinus(a / 2, b / 2, n - 1);
      assert (a - b) / 2 == a / 2 - b / 2;
    }
  }

  lemma {:induction false} LowZeroSmall(m: nat, n: nat)
    requires LowZero(m, n) && m < Pow2(n)
    ensures m == 0
  {
    if n > 0 {
      LowZeroSmall(m / 2, n - 1);
    }
  }

  lemma LowZeroEven(m: nat, n: nat)
    requires LowZero(m, n)
    ensures LowZero(2 * m, n + 1)
  {
    assert 2 * m / 2 == m && 2 * m % 2 == 0;
  }

  lemma DoubleWraps(m: nat)
    requires m < 0x1_0000_0000
    ensures 2 * m % 0x1_0000_0000 == if m < 0x8000_0000 then 2 * m else 2 * (m - 0x8000_0000)
  {
  }

  lemma Pow31()
    ensures Pow2(31) == 0x8000_0000
  {
    Pow2Values();
    assert Pow2(32) == 2 * Pow2(31);
  }

  /** One shift to the left leaves one more zero at the bottom. */
  lemma LowZeroDouble(m: nat, n: nat)
    requires m < 0x1_0000_0000 && n < 32 && LowZero(m, n)
    ensures LowZero(2 * m % 0x1_0000_0000, n + 1)
  {
    DoubleWraps(m);
    if m < 0x8000_0000 {
      LowZeroEven(m, n);
    } else {
      Pow31();
      LowZeroPow(31, n);
      LowZeroMinus(m, 0x8000_0000, n);
      LowZeroEven(m - 0x8000_0000, n);
    }
  }

  lemma {:induction false} LowZeroShift(m: nat, k: nat, n: nat)
    requires m < 0x1_0000_0000 && LowZero(m, n) && n + k <= 32
    ensures LowZero(ShiftLeft(m, k), n + k)
  {
    if k > 0 {
      LowZeroShift(m, k - 1, n);
      LowZeroDouble(ShiftLeft(m, k - 1), n + k - 1);
    }
  }

  lemma {:induction false} LowZeroFewer(m: nat, n: nat, fewer: nat)
    requires LowZero(m, n) && fewer <= n
    ensures LowZero(m, fewer)
  {
    if fewer > 0 {
      LowZeroFewer(m / 2, n - 1, fewer - 1);
    }
  }

  /** A word that a shift by at least one place leaves alone is zero. */
  lemma {:induction false} ShiftMovesBits(m: nat, k: nat, n: nat)
    requires m < 0x1_0000_0000 && 0 < k <= 32 && ShiftLeft(m, k) == m && n <= 32
    ensures LowZero(m, n)
    decreases n
  {
    if n > 0 {
      ShiftMovesBits(m, k, n - 1);
      var from := if n - 1 + k <= 32 then n - 1 else 32 - k;
      LowZeroFewer(m, n - 1, from);
      LowZeroShift(m, k, from);
      LowZeroFewer(m, from + k, n);
    }
  }

  lemma ShiftRightSmaller(m: nat, k: nat)
    ensures k > 0 && m > 0 ==> ShiftRight(m, k) < m
    ensures ShiftRight(m, k) <= m
  {
  }

  lemma ShiftedIsDifferent(m: nat, k: nat)
    requires 0 < m < 0x1_0000_0000 && 0 < k <= 32
    ensures ShiftLeft(m, k) != m
  {
    if ShiftLeft(m, k) == m {
      ShiftMovesBits(m, k, 32);
      Pow2Values();
      LowZeroSmall(m, 32);
    }
  }

  /** A non-zero state stays non-zero, so the reseeding branch of `nextMask` is
      never taken after `seedMask`, and no frame goes out with a zero key. */
  lemma MaskStaysNonZero(m: nat)
    requires 0 < m < 0x1_0000_0000
    ensures 0 < XorShift(m) < 0x1_0000_0000 && NextMask(m) == XorShift(m)
  {
    var a := Xor(m, ShiftLeft(m, 13));
    var b := Xor(a, ShiftRight(a, 17));
    Pow2Values();
    XorBelow(m, ShiftLeft(m, 13), 32);
    ShiftRightSmaller(a, 17);
    XorBelow(a, ShiftRight(a, 17), 32);
    XorBelow(b, ShiftLeft(b, 5), 32);
    XorZero(m, ShiftLeft(m, 13));
    ShiftedIsDifferent(m, 13);
    XorZero(a, ShiftRight(a, 17));
    XorZero(b, ShiftLeft(b, 5));
    ShiftedIsDifferent(b, 5);
  }

  /** The four bytes of `mask`, lowest first. */
  function KeyOf(mask: nat): MaskKey {
    MaskKey(mask % 256, mask / 0x100 % 256, mask / 0x1_0000 % 256, mask / 0x100_0000 % 256)
  }

  /** The frame `writeFrame` puts on the wire, masked with `key`. */
  function WrittenFrame(key: MaskKey, opcode: byte, payload: seq<byte>): Frame {
    Frame(true, opcode, true, key, ShortestForm(|payload|), payload)
  }

  /** `copy(dst, data)` */
  method CopyTo(dst: array<byte>, data: seq<byte>)
    requires |data| <= dst.Length
    modifies dst
    ensures dst[..|data|] == data
  {
    forall i | 0 <= i < |data| { dst[i] := data[i]; }
  }
}
