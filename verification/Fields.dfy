/** What the scanners of a payload find, and when they find nothing. */
module Fields {
  import opened Types
  import opened Scan
  import opened Skipper
  import opened Params
  import opened BtccCodec
  import opened Requests
  import RawFrames
  import Wire

  /** The whitespace of RFC 8259, section 2. */
  lemma Whitespace(c: char)
    ensures IsSpace(c) <==> c as int == 0x20 || c as int == 0x09 || c as int == 0x0A || c as int == 0x0D
  {
  }

  /** What `ValueStart` has passed: text up to the first colon, and spaces. */
  lemma StartParts(s: string, key: string) returns (gap: string, space: string)
    requires ValueStart(s, key).Some?
    ensures key != "" && IndexFrom(s, key, 0) >= 0
    ensures (forall k :: 0 <= k < |gap| ==> gap[k] != ':') && Blank(space)
    ensures var p, i := IndexFrom(s, key, 0) + |key|, ValueStart(s, key).value;
            && i == p + |gap| + 1 + |space| && i <= |s| && (i < |s| ==> !IsSpace(s[i]))
            && At(s, gap + (":" + (space + "")), p)
  {
    var p := IndexFrom(s, key, 0) + |key|;
    var colon := Find(s, p, ':');
    var i := SpacesEnd(s, colon + 1);
    gap, space := s[p..colon], s[colon + 1..i];
    Adjoin(s, p, colon, i, gap, space);
  }

  lemma Adjoin(s: string, p: nat, colon: nat, i: nat, gap: string, space: string)
    requires p <= colon < i <= |s| && s[colon] == ':' && gap == s[p..colon] && space == s[colon + 1..i]
    ensures At(s, gap + (":" + (space + "")), p)
  {
    assert space + "" == space;
    assert At(s, ":", colon);
    AtSplit(s, ":", space, colon);
    AtSplit(s, gap, ":" + space, p);
  }

  lemma Behind(s: string, p: nat, gap: string, space: string, value: string)
    requires At(s, gap + (":" + (space + "")), p) && At(s, value, p + |gap| + 1 + |space|)
    ensures At(s, gap + (":" + (space + value)), p)
  {
    assert space + "" == space;
    AtSplit(s, gap, ":" + space, p);
    AtSplit(s, ":", space, p + |gap|);
    AtSplit(s, space, value, p + |gap| + 1);
    AtSplit(s, ":", space + value, p + |gap|);
    AtSplit(s, gap, ":" + (space + value), p);
  }

  lemma Quoted(s: string, i: nat, end: nat, value: string)
    requires i < end < |s| && s[i] == '"' && s[end] == '"' && value == s[i + 1..end]
    ensures At(s, "\"" + (value + "\""), i)
  {
    assert At(s, "\"", i) && At(s, value, i + 1) && At(s, "\"", end);
    AtSplit(s, value, "\"", i + 1);
    AtSplit(s, "\"", value + "\"", i);
  }

  lemma StringEnds(s: string, key: string, value: string)
    requires StringField(s, key) == Some(value)
    ensures ValueStart(s, key).Some? && At(s, "\"" + (value + "\""), ValueStart(s, key).value)
    ensures forall k :: 0 <= k < |value| ==> value[k] != '"'
  {
    var i := ValueStart(s, key).value;
    Quoted(s, i, Find(s, i + 1, '"'), value);
  }

  lemma StringStands(s: string, key: string, value: string) returns (gap: string, space: string)
    requires StringField(s, key) == Some(value)
    ensures HasField(s, key, gap, space, value)
  {
    StringEnds(s, key, value);
    gap, space := StartParts(s, key);
    Behind(s, IndexFrom(s, key, 0) + |key|, gap, space, "\"" + (value + "\""));
  }

  /** The string scanner finds a text exactly when the first occurrence of the key
      is followed by a colon, whitespace, and that text in quotes. */
  lemma StringFieldFound(s: string, key: string, value: string)
    ensures StringField(s, key) == Some(value) <==> exists gap: string, space: string :: HasField(s, key, gap, space, value)
  {
    if StringField(s, key) == Some(value) { var gap, space := StringStands(s, key, value); }
    forall gap: string, space: string | HasField(s, key, gap, space, value) ensures StringField(s, key) == Some(value) {
      StringFieldExact(s, key, gap, space, value);
    }
  }

  /** The first occurrence of `key` is followed by a colon, whitespace and the
      longest run of digits, `digits`. */
  ghost predicate HasNumber(s: string, key: string, gap: string, space: string, digits: string) {
    var p := IndexFrom(s, key, 0);
    && p >= 0 && key != ""
    && (forall k :: 0 <= k < |gap| ==> gap[k] != ':') && Blank(space)
    && digits != "" && AllDigits(digits)
    && At(s, gap + (":" + (space + digits)), p + |key|)
    && var end := p + |key| + |gap| + 1 + |space| + |digits|;
       end < |s| ==> !IsDigit(s[end])
  }

  lemma NumberStands(s: string, i: nat, digits: string)
    requires At(s, digits, i) && AllDigits(digits) && digits != "" && (i + |digits| < |s| ==> !IsDigit(s[i + |digits|]))
    ensures i < |s| && IsDigit(s[i]) && DigitsEnd(s, i) == i + |digits| && s[i..DigitsEnd(s, i)] == digits
  {
    forall k | i <= k < i + |digits| ensures IsDigit(s[k]) { AtChar(s, digits, i, k - i); }
    DigitsEndUnique(s, i, i + |digits|);
  }

  lemma NumberRead(s: string, key: string, gap: string, space: string, digits: string)
    requires HasNumber(s, key, gap, space, digits)
    ensures UintField(s, key) == Some(DecimalValue(digits) % 0x1_0000_0000_0000_0000)
  {
    assert !IsSpace(digits[0]);
    ValueStartExact(s, key, gap, space, digits);
    NumberStands(s, ValueStart(s, key).value, digits);
  }

  lemma DigitsThere(s: string, key: string) returns (digits: string)
    requires UintField(s, key).Some?
    ensures ValueStart(s, key).Some? && digits != "" && AllDigits(digits)
    ensures var i := ValueStart(s, key).value;
            At(s, digits, i) && (i + |digits| < |s| ==> !IsDigit(s[i + |digits|]))
  {
    var i := ValueStart(s, key).value;
    digits := s[i..DigitsEnd(s, i)];
  }

  lemma NumberFound(s: string, key: string) returns (gap: string, space: string, digits: string)
    requires UintField(s, key).Some?
    ensures HasNumber(s, key, gap, space, digits)
  {
    gap, space := StartParts(s, key);
    digits := DigitsThere(s, key);
    Behind(s, IndexFrom(s, key, 0) + |key|, gap, space, digits);
  }

  /** The number scanner finds a number exactly when a run of digits stands there,
      and reads it modulo 2^64. */
  lemma UintFieldFound(s: string, key: string, n: nat)
    ensures UintField(s, key) == Some(n) <==>
              exists gap: string, space: string, digits: string ::
                HasNumber(s, key, gap, space, digits) && n == DecimalValue(digits) % 0x1_0000_0000_0000_0000
  {
    if UintField(s, key) == Some(n) {
      var gap, space, digits := NumberFound(s, key);
      NumberRead(s, key, gap, space, digits);
    }
    forall gap: string, space: string, digits: string | HasNumber(s, key, gap, space, digits)
      ensures UintField(s, key) == Some(DecimalValue(digits) % 0x1_0000_0000_0000_0000)
    {
      NumberRead(s, key, gap, space, digits);
    }
  }

  // ---------------------------------------------------------------------
  // Params

  /** A parameter is found only behind the bracket of the first `"params"`. */
  lemma ParamsNeedArray(s: string, index: int)
    requires ParamsValue(s, index) != Absent
    ensures index >= 0
    ensures exists gap: string, space: string ::
              && (forall k :: 0 <= k < |gap| ==> gap[k] != ':') && Blank(space)
              && IndexFrom(s, "\"params\"", 0) >= 0
              && At(s, gap + (":" + (space + "[")), IndexFrom(s, "\"params\"", 0) + 8)
  {
    var gap, space := StartParts(s, PARAMS);
    var i := ValueStart(s, PARAMS).value;
    assert At(s, "[", i);
    Behind(s, IndexFrom(s, PARAMS, 0) + |PARAMS|, gap, space, "[");
  }

  lemma TrimKeepsFirst(text: string)
    requires text != "" && !IsSpace(text[0])
    ensures Trim(text) != "" && Trim(text)[0] == text[0]
  {
    assert TrimStart(text) == 0;
    TrimStops(text, |text|);
  }

  lemma {:induction false} TrimStops(text: string, end: nat)
    requires 0 < end <= |text| && !IsSpace(text[0])
    ensures TrimEnd(text, 0, end) > 0
    decreases end
  {
    if end > 1 && IsSpace(text[end - 1]) { TrimStops(text, end - 1); }
  }

  /** A parameter that is not a string has no text. */
  lemma NoStringParam(s: string, gap: string, space: string, blank: string, es: seq<Element>, index: nat, spare: string)
    requires HasParams(s, gap, space, blank, es)
    requires index >= |es| || !es[index].value.Str?
    ensures Unquoted(Sliced(ParamsValue(s, index), spare)) == Missed
  {
    ParamsValueExact(s, gap, space, blank, es, index);
    if index < |es| {
      assert ValidElement(es[index]);
      FirstChar(es[index].value);
      TrimKeepsFirst(Yield(es[index]));
    }
  }

  /** Trimming leaves what stands between the whitespace at both ends. */
  lemma TrimExactly(text: string) returns (i: nat)
    ensures var raw := Trim(text);
            && i + |raw| <= |text| && text[i..i + |raw|] == raw
            && (forall k :: 0 <= k < i || i + |raw| <= k < |text| ==> IsSpace(text[k]))
            && (raw != "" ==> !IsSpace(raw[0]) && !IsSpace(raw[|raw| - 1]))
  {
    i := TrimStart(text);
    TrimmedEnd(text, i, |text|);
  }

  lemma {:induction false} TrimmedEnd(text: string, from: nat, end: nat)
    requires from <= end <= |text|
    ensures var r := TrimEnd(text, from, end);
            (forall k :: r <= k < end ==> IsSpace(text[k])) && (r > from ==> !IsSpace(text[r - 1]))
    decreases end
  {
    if end > from && IsSpace(text[end - 1]) { TrimmedEnd(text, from, end - 1); }
  }

  /** A closing quote is found behind string items, and only there. */
  lemma {:induction false} QuoteItems(raw: string, i: nat) returns (items: seq<Item>)
    requires i <= |raw| && QuoteFrom(raw, i) < |raw|
    ensures var q := QuoteFrom(raw, i);
            ValidItems(items) && raw[i..q] == ItemsText(items) && raw[q] == '"'
    decreases |raw| - i
  {
    var q := QuoteFrom(raw, i);
    if raw[i] == '"' {
      items := [];
    } else if raw[i] == '\\' {
      var rest := QuoteItems(raw, i + 2);
      items := [Escape(raw[i + 1])] + rest;
      assert raw[i..q] == [raw[i], raw[i + 1]] + raw[i + 2..q];
    } else {
      var rest := QuoteItems(raw, i + 1);
      items := [Plain(raw[i])] + rest;
      assert raw[i..q] == [raw[i]] + raw[i + 1..q];
    }
  }

  /** The string taken from a parameter is the text of string items between
      quotes, and there is none unless the parameter begins with such. */
  lemma UnquotedExactly(text: string, value: string)
    ensures Unquoted(Got(text)) == Got(value) <==>
              exists items: seq<Item>, rest: string ::
                ValidItems(items) && value == ItemsText(items) && Trim(text) == "\"" + (value + ("\"" + rest))
  {
    var raw := Trim(text);
    if Unquoted(Got(text)) == Got(value) {
      var items, rest := UnquotedParts(raw, value);
    }
    forall items: seq<Item>, rest: string
      | ValidItems(items) && value == ItemsText(items) && raw == "\"" + (value + ("\"" + rest))
      ensures Unquoted(Got(text)) == Got(value)
    {
      QuotedFirst(raw, items, rest);
    }
  }

  lemma UnquotedParts(raw: string, value: string) returns (items: seq<Item>, rest: string)
    requires |raw| >= 2 && raw[0] == '"' && QuoteFrom(raw, 1) < |raw| && value == raw[1..QuoteFrom(raw, 1)]
    ensures ValidItems(items) && value == ItemsText(items) && raw == "\"" + (value + ("\"" + rest))
  {
    var q := QuoteFrom(raw, 1);
    items := QuoteItems(raw, 1);
    rest := raw[q + 1..];
    assert raw == [raw[0]] + (raw[1..q] + ([raw[q]] + raw[q + 1..]));
  }

  lemma QuotedFirst(raw: string, items: seq<Item>, rest: string)
    requires ValidItems(items) && raw == "\"" + (ItemsText(items) + ("\"" + rest))
    ensures |raw| >= 2 && raw[0] == '"' && QuoteFrom(raw, 1) == 1 + |ItemsText(items)| < |raw|
    ensures raw[1..QuoteFrom(raw, 1)] == ItemsText(items)
  {
    var value := ItemsText(items);
    assert At(raw, raw, 0);
    AtSplit(raw, "\"", value + ("\"" + rest), 0);
    AtChar(raw, "\"", 0, 0);
    Associate(value, "\"", rest);
    AtSplit(raw, value + "\"", rest, 1);
    AtSplit(raw, value, "\"", 1);
    QuoteFromExact(raw, 1, items);
  }

  /** A scalar ends at the first comma or closing bracket. */
  lemma {:induction false} ScalarStops(s: string, i: nat)
    requires i <= |s|
    ensures var j := ScalarEnd(s, i);
            && (j < |s| ==> s[j] == ',' || s[j] == ']' || s[j] == '}')
            && forall k :: i <= k < j ==> s[k] != ',' && s[k] != ']' && s[k] != '}'
    decreases |s| - i
  {
    if i < |s| && ScalarEnd(s, i) > i { ScalarStops(s, i + 1); }
  }

  // ---------------------------------------------------------------------
  // Decoding

  /** The payload is an update of a market, of either kind. */
  ghost predicate Updates(payload: string, spare: string, kind: Kind, market: string) {
    match kind
    case DepthKind =>
      && StringField(payload, "\"method\"") == Some("depth.update")
      && Unquoted(Sliced(ParamsValue(payload, 2), spare)) == Got(market)
    case OrderKind =>
      && StringField(payload, "\"method\"") == Some("order.update")
      && Sliced(ParamsValue(payload, 1), spare).Got?
      && StringField(Sliced(ParamsValue(payload, 1), spare).text, "\"market\"") == Some(market)
  }

  lemma OneMethod(payload: string)
    ensures !(StringField(payload, "\"method\"") == Some("depth.update") && StringField(payload, "\"method\"") == Some("order.update"))
  {
    assert "depth.update"[0] != "order.update"[0];
  }

  lemma DecodesDepth(s: State, payload: string, spare: string, id: TopicId)
    requires s.auth.None? && StringField(payload, "\"method\"") == Some("depth.update")
    ensures Decode(s, payload, spare) == Resolved(Some(id))
       <==> exists market: string :: Updates(payload, spare, DepthKind, market) && Lookup(s, DepthKind, market) == Some(id)
  {
  }

  lemma DecodesOrder(s: State, payload: string, spare: string, id: TopicId)
    requires s.auth.None? && StringField(payload, "\"method\"") == Some("order.update")
    ensures Decode(s, payload, spare) == Resolved(Some(id))
       <==> exists market: string :: Updates(payload, spare, OrderKind, market) && Lookup(s, OrderKind, market) == Some(id)
  {
    OneMethod(payload);
  }

  /** Without authentication, a payload decodes to an id exactly when it is an
      update of a market that is looked up as this id. */
  lemma DecodesExactly(s: State, payload: string, spare: string, id: TopicId)
    requires s.auth.None?
    ensures Decode(s, payload, spare) == Resolved(Some(id))
       <==> exists kind: Kind, market: string :: Updates(payload, spare, kind, market) && Lookup(s, kind, market) == Some(id)
  {
    OneMethod(payload);
    if StringField(payload, "\"method\"") == Some("depth.update") {
      DecodesDepth(s, payload, spare, id);
    } else if StringField(payload, "\"method\"") == Some("order.update") {
      DecodesOrder(s, payload, spare, id);
    }
  }

  // ---------------------------------------------------------------------
  // The hash of a market

  /** FNV-1a in 64 bits: the empty text, and one more byte. */
  lemma HashOfEmpty()
    ensures Hash("") == 0xcbf2_9ce4_8422_2325
  {
  }

  lemma HashNext(data: string, c: char) returns (mixed: nat)
    ensures forall k: nat :: RawFrames.Bit(mixed, k) <==> RawFrames.Bit(Hash(data), k) != RawFrames.Bit(c as nat % 256, k)
    ensures Hash(data + [c]) == mixed * 0x100_0000_01b3 % 0x1_0000_0000_0000_0000
  {
    mixed := Wire.Xor(Hash(data), c as nat % 256);
    assert (data + [c])[..|data|] == data;
    forall k: nat ensures RawFrames.Bit(mixed, k) <==> RawFrames.Bit(Hash(data), k) != RawFrames.Bit(c as nat % 256, k) {
      RawFrames.XorBits(Hash(data), c as nat % 256, k);
    }
  }
}
