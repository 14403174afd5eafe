/** Picking elements out of a params array: `scanParamsValue` and
    `scanParamsString` of bundle/internal/ingest/btcc/payload.go. */
module Params {
  import opened Types
  import opened Scan
  import opened Skipper

  /** A text, nothing, or the rest of the payload for a slice bound one past it:
      the skipper can end there when the payload breaks off after a backslash. */
  datatype Slice = Found(text: string) | Absent | Beyond(text: string)

  /** What Go makes of it: a bound past the length takes in the next byte of the
      buffer, and panics when the capacity ends there. */
  datatype Taken = Got(text: string) | Missed | Panics

  /** `spare` is what the buffer holds behind the payload, up to its capacity. */
  function Sliced(slice: Slice, spare: string): Taken {
    match slice
    case Found(text) => Got(text)
    case Absent => Missed
    case Beyond(text) => if spare == "" then Panics else Got(text + [spare[0]])
  }

  const PARAMS: string := "\"params\""

  /** `for isSpace(payload[i]) || payload[i] == ','` */
  function SeparatorsEnd(s: string, i: nat): (r: nat)
    requires i <= |s|
    ensures i <= r <= |s|
    decreases |s| - i
  {
    if i >= |s| || !(IsSpace(s[i]) || s[i] == ',') then i else SeparatorsEnd(s, i + 1)
  }

  /** The element loop of `scanParamsValue`, `n` elements before the wanted one. */
  function ElementAt(s: string, i: nat, n: nat): Slice
    decreases n
  {
    if i >= |s| then Absent
    else
      var start := SeparatorsEnd(s, i);
      if start >= |s| || s[start] == ']' then Absent
      else
        var end := ValueEnd(s, start);
        if end <= start then Absent
        else if n > 0 then ElementAt(s, end, n - 1)
        else if end <= |s| then Found(s[start..end])
        else Beyond(s[start..])
  }

  /** `scanParamsValue` */
  function ParamsValue(s: string, index: int): Slice {
    if index < 0 then Absent
    else match ValueStart(s, PARAMS)
      case None => Absent
      case Some(i) => if i >= |s| || s[i] != '[' then Absent else ElementAt(s, i + 1, index)
  }

  method SkipSeparators(s: string, from: nat) returns (i: nat)
    requires from <= |s|
    ensures i == SeparatorsEnd(s, from)
  {
    i := from;
    while i < |s| && (IsSpace(s[i]) || s[i] == ',')
      invariant from <= i <= |s| && SeparatorsEnd(s, from) == SeparatorsEnd(s, i)
    {
      i := i + 1;
    }
  }

  method ScanParamsValue(s: string, spare: string, index: int) returns (r: Taken)
    ensures r == Sliced(ParamsValue(s, index), spare)
  {
    if index < 0 { return Missed; }
    var v := FindValue(s, PARAMS);
    if v.None? { return Missed; }
    var i := v.value;
    if i >= |s| || s[i] != '[' { return Missed; }
    r := ScanElements(s, spare, i + 1, index);
  }

  /** The loop of `scanParamsValue`. */
  method ScanElements(s: string, spare: string, start: nat, index: nat) returns (r: Taken)
    ensures r == Sliced(ElementAt(s, start, index), spare)
  {
    var i, idx := start, 0;
    while i < |s|
      invariant idx <= index && ElementAt(s, start, index) == ElementAt(s, i, index - idx)
      decreases |s| + 1 - i
    {
      i := SkipSeparators(s, i);
      if i >= |s| || s[i] == ']' { return Missed; }
      var end := SkipValue(s, i);
      if end <= i { return Missed; }
      if idx == index {
        if end <= |s| { return Got(s[i..end]); }
        return if spare == "" then Panics else Got(s[i..] + [spare[0]]);
      }
      i := end;
      idx := idx + 1;
    }
    return Missed;
  }

  // ---------------------------------------------------------------------
  // Agreement with the grammar

  /** Spaces and commas, in any order. */
  predicate Separators(s: string) {
    forall k :: 0 <= k < |s| ==> IsSpace(s[k]) || s[k] == ','
  }

  lemma {:induction false} OverSeparators(s: string, i: nat, text: string)
    requires At(s, text, i) && Separators(text)
    ensures i + |text| <= |s| && SeparatorsEnd(s, i) == SeparatorsEnd(s, i + |text|)
    decreases |text|
  {
    if text != "" {
      AtChar(s, text, i, 0);
      AtSplit(s, text[..1], text[1..], i);
      assert text[..1] + text[1..] == text;
      OverSeparators(s, i + 1, text[1..]);
    }
  }

  /** The text `scanParamsValue` yields for an element: the value, and the
      whitespace behind it when it is a scalar. */
  function Yield(e: Element): string {
    Text(e.value) + Trailing(e.value, e.after)
  }

  /** The whitespace the next round starts with. */
  function Leftover(e: Element): string {
    if e.value.Scalar? then "" else e.after
  }

  lemma YieldAndLeftover(e: Element)
    ensures Yield(e) + Leftover(e) == Text(e.value) + e.after
  {
  }

  /** An element as the loop sees it: spaces, the text it yields, and what it
      leaves to the next round. */
  datatype Piece = Piece(before: string, text: string, left: string)

  function PieceText(p: Piece): string {
    p.before + (p.text + p.left)
  }

  function Comma(ps: seq<Piece>): string {
    if |ps| > 1 then "," else ""
  }

  function PiecesText(ps: seq<Piece>): string {
    if ps == [] then "" else PieceText(ps[0]) + (Comma(ps) + PiecesText(ps[1..]))
  }

  /** In front of a delimiter the skipper takes `text` and leaves `left`. */
  ghost predicate Skips(p: Piece) {
    forall s: string, i: nat {:trigger At(s, p.text + p.left, i)} ::
      At(s, p.text + p.left, i) && i + |p.text + p.left| < |s| && Delimiter(s[i + |p.text + p.left|])
      ==> ValueEnd(s, i) == i + |p.text|
  }

  ghost predicate Sound(p: Piece) {
    && Separators(p.before) && Separators(p.left)
    && p.text != "" && !IsSpace(p.text[0]) && p.text[0] != ',' && p.text[0] != ']'
    && Skips(p)
  }

  lemma SeparatorsStop(s: string, i: nat, lead: string, text: string)
    requires Separators(lead) && At(s, lead, i) && At(s, text, i + |lead|)
    requires text != "" && !IsSpace(text[0]) && text[0] != ','
    ensures i < |s| && SeparatorsEnd(s, i) == i + |lead| && s[i + |lead|] == text[0]
  {
    AtChar(s, text, i + |lead|, 0);
    OverSeparators(s, i, lead);
  }

  lemma ElementAtStep(s: string, i: nat, n: nat, start: nat, text: string)
    requires i < |s| && start < |s| && SeparatorsEnd(s, i) == start && s[start] != ']'
    requires text != "" && At(s, text, start) && ValueEnd(s, start) == start + |text|
    ensures ElementAt(s, i, n) == if n == 0 then Found(text) else ElementAt(s, start + |text|, n - 1)
  {
  }

  /** Where the parts of a piece stand behind a lead. */
  lemma PiecePlaces(s: string, i: nat, lead: string, p: Piece, tail: string)
    requires At(s, lead + (PieceText(p) + tail), i)
    ensures var start := i + |lead + p.before|;
            && At(s, lead + p.before, i) && At(s, p.text + p.left, start) && At(s, p.text, start)
            && At(s, p.left + tail, start + |p.text|) && At(s, tail, start + |p.text + p.left|)
  {
    var start := i + |lead + p.before|;
    assert lead + (PieceText(p) + tail) == (lead + p.before) + ((p.text + p.left) + tail);
    AtSplit(s, lead + p.before, (p.text + p.left) + tail, i);
    AtSplit(s, p.text + p.left, tail, start);
    assert (p.text + p.left) + tail == p.text + (p.left + tail);
    AtSplit(s, p.text, p.left + tail, start);
  }

  lemma SkipsHere(s: string, start: nat, p: Piece, tail: string)
    requires Skips(p) && At(s, p.text + p.left, start) && At(s, tail, start + |p.text + p.left|)
    requires tail != "" && Delimiter(tail[0])
    ensures ValueEnd(s, start) == start + |p.text|
  {
    AtChar(s, tail, start + |p.text + p.left|, 0);
  }

  /** In front of a piece and a delimiter. */
  lemma PieceFacts(s: string, i: nat, lead: string, p: Piece, tail: string)
    requires Sound(p) && Separators(lead) && At(s, lead + (PieceText(p) + tail), i)
    requires tail != "" && Delimiter(tail[0])
    ensures var start := i + |lead + p.before|;
            && i < |s| && start < |s| && SeparatorsEnd(s, i) == start && s[start] != ']'
            && At(s, p.text, start) && ValueEnd(s, start) == start + |p.text|
            && At(s, p.left + tail, start + |p.text|)
  {
    var start := i + |lead + p.before|;
    PiecePlaces(s, i, lead, p, tail);
    SeparatorsStop(s, i, lead + p.before, p.text);
    SkipsHere(s, start, p, tail);
  }

  /** One round of the loop. */
  lemma PieceRound(s: string, i: nat, lead: string, p: Piece, tail: string, n: nat) returns (end: nat)
    requires Sound(p) && Separators(lead) && At(s, lead + (PieceText(p) + tail), i)
    requires tail != "" && Delimiter(tail[0])
    ensures At(s, p.left + tail, end) && end == i + |lead + p.before| + |p.text|
    ensures ElementAt(s, i, n) == if n == 0 then Found(p.text) else ElementAt(s, end, n - 1)
  {
    var start := i + |lead + p.before|;
    end := start + |p.text|;
    PieceFacts(s, i, lead, p, tail);
    ElementAtStep(s, i, n, start, p.text);
  }

  lemma EmptyList(s: string, i: nat, lead: string)
    requires Separators(lead) && At(s, lead + "]", i)
    ensures i < |s| && SeparatorsEnd(s, i) == i + |lead| && s[i + |lead|] == ']'
  {
    AtSplit(s, lead, "]", i);
    SeparatorsStop(s, i, lead, "]");
  }

  lemma Regroup(lead: string, first: string, comma: string, rest: string)
    ensures lead + ((first + (comma + rest)) + "]") == lead + (first + (comma + (rest + "]")))
  {
  }

  lemma Associate(a: string, b: string, c: string)
    ensures a + (b + c) == (a + b) + c
  {
  }

  /** From the start of a list of pieces, piece `n` comes out, or nothing when the
      list is shorter. */
  lemma {:induction false} PiecesRound(s: string, i: nat, lead: string, ps: seq<Piece>, n: nat)
    requires Separators(lead) && forall k :: 0 <= k < |ps| ==> Sound(ps[k])
    requires At(s, lead + (PiecesText(ps) + "]"), i)
    ensures ElementAt(s, i, n) == if n < |ps| then Found(ps[n].text) else Absent
    decreases |ps|
  {
    if ps == [] {
      assert lead + (PiecesText(ps) + "]") == lead + "]";
      EmptyList(s, i, lead);
    } else {
      var end := FirstRound(s, i, lead, ps, n);
      if n > 0 { PiecesRound(s, end, ps[0].left + Comma(ps), ps[1..], n - 1); }
    }
  }

  lemma FirstRound(s: string, i: nat, lead: string, ps: seq<Piece>, n: nat) returns (end: nat)
    requires Separators(lead) && ps != [] && Sound(ps[0])
    requires At(s, lead + (PiecesText(ps) + "]"), i)
    ensures ElementAt(s, i, n) == if n == 0 then Found(ps[0].text) else ElementAt(s, end, n - 1)
    ensures var next := ps[0].left + Comma(ps);
            Separators(next) && At(s, next + (PiecesText(ps[1..]) + "]"), end)
  {
    var rest := PiecesText(ps[1..]);
    Regroup(lead, PieceText(ps[0]), Comma(ps), rest);
    if |ps| == 1 { assert rest == ""; }
    end := PieceRound(s, i, lead, ps[0], Comma(ps) + (rest + "]"), n);
    Associate(ps[0].left, Comma(ps), rest + "]");
  }

  // Elements are such pieces.

  function PieceOf(e: Element): Piece {
    Piece(e.before, Yield(e), Leftover(e))
  }

  function PiecesOf(es: seq<Element>): (ps: seq<Piece>)
    ensures |ps| == |es| && forall k :: 0 <= k < |es| ==> ps[k] == PieceOf(es[k])
  {
    seq(|es|, k requires 0 <= k < |es| => PieceOf(es[k]))
  }

  lemma PieceOfText(e: Element)
    ensures PieceText(PieceOf(e)) == ElementText(e)
  {
    YieldAndLeftover(e);
  }

  lemma PieceStarts(e: Element)
    requires ValidElement(e)
    ensures var p := PieceOf(e);
            && Separators(p.before) && Separators(p.left)
            && p.text != "" && !IsSpace(p.text[0]) && p.text[0] != ',' && p.text[0] != ']'
  {
    FirstChar(e.value);
  }

  lemma PieceSound(e: Element)
    requires ValidElement(e)
    ensures Sound(PieceOf(e))
  {
    var p := PieceOf(e);
    PieceStarts(e);
    YieldAndLeftover(e);
    forall s: string, i: nat
      | At(s, p.text + p.left, i) && i + |p.text + p.left| < |s| && Delimiter(s[i + |p.text + p.left|])
      ensures ValueEnd(s, i) == i + |p.text|
    {
      ValueEndExact(s, i, e.value, e.after);
    }
  }

  lemma {:induction false} PiecesOfText(es: seq<Element>)
    ensures PiecesText(PiecesOf(es)) == ElementsText(es)
    decreases |es|
  {
    if es != [] {
      PieceOfText(es[0]);
      PiecesOfText(es[1..]);
      assert PiecesOf(es)[1..] == PiecesOf(es[1..]);
      if |es| == 1 { assert ElementsText(es[1..]) == ""; }
    }
  }

  /** From the start of a list of elements, element `n` comes out, or nothing
      when the list is shorter. */
  lemma ElementsRound(s: string, i: nat, lead: string, es: seq<Element>, n: nat)
    requires Separators(lead) && forall k :: 0 <= k < |es| ==> ValidElement(es[k])
    requires At(s, lead + (ElementsText(es) + "]"), i)
    ensures ElementAt(s, i, n) == if n < |es| then Found(Yield(es[n])) else Absent
  {
    PiecesOfText(es);
    forall k | 0 <= k < |es| ensures Sound(PiecesOf(es)[k]) { PieceSound(es[k]); }
    PiecesRound(s, i, lead, PiecesOf(es), n);
  }

  /** The payload holds the params array `elements`: the first `"params"` of the
      payload is followed by a colon, whitespace, and the array. */
  ghost predicate HasParams(s: string, gap: string, space: string, blank: string, elements: seq<Element>) {
    var p := IndexFrom(s, PARAMS, 0);
    && p >= 0
    && (forall k :: 0 <= k < |gap| ==> gap[k] != ':') && Blank(space)
    && Valid(Arr(blank, elements))
    && At(s, gap + (":" + (space + Text(Arr(blank, elements)))), p + |PARAMS|)
  }

  lemma FindUnique(s: string, i: nat, r: nat, c: char)
    requires i <= r < |s| && s[r] == c && forall k :: i <= k < r ==> s[k] != c
    ensures Find(s, i, c) == r
  {
  }

  lemma SpacesEndUnique(s: string, i: nat, r: nat)
    requires i <= r < |s| && !IsSpace(s[r]) && forall k :: i <= k < r ==> IsSpace(s[k])
    ensures SpacesEnd(s, i) == r
  {
  }

  /** Behind a key: text without a colon, the colon, whitespace, a value. */
  lemma ValueStartExact(s: string, key: string, gap: string, space: string, value: string)
    requires key != "" && IndexFrom(s, key, 0) >= 0
    requires (forall k :: 0 <= k < |gap| ==> gap[k] != ':') && Blank(space)
    requires value != "" && !IsSpace(value[0])
    requires At(s, gap + (":" + (space + value)), IndexFrom(s, key, 0) + |key|)
    ensures var i := IndexFrom(s, key, 0) + |key| + |gap| + 1 + |space|;
            ValueStart(s, key) == Some(i) && At(s, value, i)
  {
    BehindKey(s, IndexFrom(s, key, 0) + |key|, gap, space, value);
  }

  lemma BehindKey(s: string, p: nat, gap: string, space: string, value: string)
    requires (forall k :: 0 <= k < |gap| ==> gap[k] != ':') && Blank(space)
    requires value != "" && !IsSpace(value[0])
    requires At(s, gap + (":" + (space + value)), p)
    ensures var colon := p + |gap|;
            && colon < |s| && Find(s, p, ':') == colon && SpacesEnd(s, colon + 1) == colon + 1 + |space|
            && At(s, value, colon + 1 + |space|)
  {
    var colon := p + |gap|;
    AtSplit(s, gap, ":" + (space + value), p);
    AtSplit(s, ":", space + value, colon);
    AtSplit(s, space, value, colon + 1);
    AtChar(s, ":", colon, 0);
    ColonBehind(s, p, gap);
    SpacesBehind(s, colon + 1, space, value);
  }

  lemma ColonBehind(s: string, p: nat, gap: string)
    requires At(s, gap, p) && p + |gap| < |s| && s[p + |gap|] == ':' && forall k :: 0 <= k < |gap| ==> gap[k] != ':'
    ensures Find(s, p, ':') == p + |gap|
  {
    forall k | p <= k < p + |gap| ensures s[k] != ':' { AtChar(s, gap, p, k - p); }
    FindUnique(s, p, p + |gap|, ':');
  }

  lemma SpacesBehind(s: string, p: nat, space: string, value: string)
    requires At(s, space, p) && At(s, value, p + |space|) && Blank(space) && value != "" && !IsSpace(value[0])
    ensures SpacesEnd(s, p) == p + |space|
  {
    forall k | p <= k < p + |space| ensures IsSpace(s[k]) { AtChar(s, space, p, k - p); }
    AtChar(s, value, p + |space|, 0);
    SpacesEndUnique(s, p, p + |space|);
  }

  /** On a payload with a params array, `scanParamsValue` yields exactly the text
      of the element asked for, and nothing past the last one; whatever the
      elements nest and whatever follows the array. */
  lemma ParamsValueExact(s: string, gap: string, space: string, blank: string, elements: seq<Element>, index: nat)
    requires HasParams(s, gap, space, blank, elements)
    ensures ParamsValue(s, index) == if index < |elements| then Found(Yield(elements[index])) else Absent
  {
    var list := Text(Arr(blank, elements));
    ValueStartExact(s, PARAMS, gap, space, list);
    ParamsBehind(s, ValueStart(s, PARAMS).value, blank, elements, index);
  }

  lemma ParamsBehind(s: string, i: nat, blank: string, elements: seq<Element>, index: nat)
    requires ValueStart(s, PARAMS) == Some(i)
    requires At(s, Text(Arr(blank, elements)), i) && Valid(Arr(blank, elements))
    ensures ParamsValue(s, index) == if index < |elements| then Found(Yield(elements[index])) else Absent
  {
    ArrayAt(s, i, blank, elements, index);
  }

  lemma ArrayAt(s: string, i: nat, blank: string, elements: seq<Element>, index: nat)
    requires At(s, Text(Arr(blank, elements)), i) && Valid(Arr(blank, elements))
    ensures i < |s| && s[i] == '['
    ensures ElementAt(s, i + 1, index) == if index < |elements| then Found(Yield(elements[index])) else Absent
  {
    AtSplit(s, "[", blank + (ElementsText(elements) + "]"), i);
    AtChar(s, "[", i, 0);
    ElementsRound(s, i + 1, blank, elements, index);
  }

  // ---------------------------------------------------------------------
  // Strings among the params

  /** The loop of `scanParamsString`: a backslash skips the next byte only when
      there is one. */
  function QuoteFrom(raw: string, i: nat): (r: nat)
    requires i <= |raw|
    ensures i <= r <= |raw|
    decreases |raw| - i
  {
    if i >= |raw| || raw[i] == '"' then i
    else if raw[i] == '\\' && i + 1 < |raw| then QuoteFrom(raw, i + 2)
    else QuoteFrom(raw, i + 1)
  }

  function TrimStart(s: string): (i: nat)
    ensures i <= |s|
  {
    SpacesEnd(s, 0)
  }

  function TrimEnd(s: string, from: nat, end: nat): (r: nat)
    requires from <= end <= |s|
    ensures from <= r <= end
  {
    if end > from && IsSpace(s[end - 1]) then TrimEnd(s, from, end - 1) else end
  }

  /** `trimSpace` */
  function Trim(s: string): string {
    s[TrimStart(s)..TrimEnd(s, TrimStart(s), |s|)]
  }

  method TrimSpace(s: string) returns (r: string)
    ensures r == Trim(s)
  {
    var start, end := 0, |s|;
    while start < end && IsSpace(s[start])
      invariant 0 <= start <= end && SpacesEnd(s, 0) == SpacesEnd(s, start)
    {
      start := start + 1;
    }
    while end > start && IsSpace(s[end - 1])
      invariant start <= end <= |s| && TrimEnd(s, start, |s|) == TrimEnd(s, start, end)
    {
      end := end - 1;
    }
    r := s[start..end];
  }

  /** `scanParamsString`, of the value taken. */
  function Unquoted(taken: Taken): Taken {
    match taken
    case Missed => Missed
    case Panics => Panics
    case Got(text) =>
      var raw := Trim(text);
      if |raw| < 2 || raw[0] != '"' then Missed
      else
        var end := QuoteFrom(raw, 1);
        if end >= |raw| then Missed else Got(raw[1..end])
  }

  method ScanParamsString(s: string, spare: string, index: int) returns (r: Taken)
    ensures r == Unquoted(Sliced(ParamsValue(s, index), spare))
  {
    var v := ScanParamsValue(s, spare, index);
    if !v.Got? { return v; }
    var raw := TrimSpace(v.text);
    if |raw| < 2 || raw[0] != '"' { return Missed; }
    var i := 1;
    while i < |raw| && raw[i] != '"'
      invariant 1 <= i <= |raw| && QuoteFrom(raw, 1) == QuoteFrom(raw, i)
    {
      if raw[i] == '\\' && i + 1 < |raw| {
        i := i + 2;
        continue;
      }
      i := i + 1;
    }
    if i >= |raw| { return Missed; }
    return Got(raw[1..i]);
  }

  lemma {:induction false} QuoteFromExact(s: string, i: nat, items: seq<Item>)
    requires ValidItems(items) && At(s, ItemsText(items) + "\"", i)
    ensures QuoteFrom(s, i) == i + |ItemsText(items)|
    decreases |items|
  {
    if items == [] {
      assert ItemsText(items) + "\"" == "\"";
      AtChar(s, "\"", i, 0);
    } else {
      var first := if items[0].Plain? then [items[0].c] else ['\\', items[0].c];
      var rest := ItemsText(items[1..]) + "\"";
      assert ItemsText(items) + "\"" == first + rest;
      AtSplit(s, first, rest, i);
      AtChar(s, first, i, 0);
      QuoteFromExact(s, i + |first|, items[1..]);
    }
  }

  /** A string element comes out as what stands between its quotes, escapes
      untouched. */
  lemma ParamsStringExact(s: string, gap: string, space: string, blank: string, elements: seq<Element>, index: nat)
    requires HasParams(s, gap, space, blank, elements)
    requires index < |elements| && elements[index].value.Str?
    ensures forall spare :: Unquoted(Sliced(ParamsValue(s, index), spare)) == Got(ItemsText(elements[index].value.items))
  {
    ParamsValueExact(s, gap, space, blank, elements, index);
    assert ValidElement(elements[index]);
    assert Valid(elements[index].value);
    QuotedText(elements[index].value.items);
  }

  lemma QuotedText(items: seq<Item>)
    requires ValidItems(items)
    ensures var raw := StringText(items);
            && Trim(raw) == raw && |raw| >= 2 && raw[0] == '"'
            && QuoteFrom(raw, 1) == |raw| - 1 && raw[1..|raw| - 1] == ItemsText(items)
  {
    var raw := StringText(items);
    assert raw[0] == '"' && raw[|raw| - 1] == '"';
    assert Trim(raw) == raw[0..|raw|];
    assert raw[1..] == ItemsText(items) + "\"";
    assert raw[1..1 + |ItemsText(items) + "\""|] == raw[1..];
    QuoteFromExact(raw, 1, items);
    assert raw[1..][..|ItemsText(items)|] == ItemsText(items);
  }
}
