/** Payloads that break off: when the skipper of
    bundle/internal/ingest/btcc/payload.go ends one past the payload, and what
    `scanParamsValue` does then. */
module Truncation {
  import opened Types
  import opened Scan
  import opened Skipper
  import opened Params

  // ---------------------------------------------------------------------
  // Inside a string

  /** Nothing but characters and escapes, and a backslash with nothing behind. */
  ghost predicate Unpaired(text: string) {
    exists items: seq<Item> :: ValidItems(items) && text == ItemsText(items) + "\\"
  }

  function ItemText(item: Item): string {
    if item.Plain? then [item.c] else ['\\', item.c]
  }

  lemma ItemFirst(items: seq<Item>)
    requires items != []
    ensures ItemsText(items) + "\\" == ItemText(items[0]) + (ItemsText(items[1..]) + "\\")
  {
  }

  /** Whether the loop runs off the end depends on what is left only. */
  lemma {:induction false} UnpairedRunsOff(s: string, i: nat, items: seq<Item>)
    requires ValidItems(items) && i <= |s| && s[i..] == ItemsText(items) + "\\"
    ensures StringEnd(s, i) == |s| + 1
    decreases |items|
  {
    if items == [] {
      assert s[i..] == "\\" && s[i] == s[i..][0];
    } else {
      var first := ItemText(items[0]);
      ItemFirst(items);
      assert s[i..][0] == first[0];
      assert s[i + |first|..] == s[i..][|first|..];
      UnpairedRunsOff(s, i + |first|, items[1..]);
    }
  }

  lemma {:induction false} RunsOffUnpaired(s: string, i: nat) returns (items: seq<Item>)
    requires i <= |s| && StringEnd(s, i) > |s|
    ensures ValidItems(items) && s[i..] == ItemsText(items) + "\\"
    decreases |s| - i
  {
    if i + 1 == |s| && s[i] == '\\' {
      items := [];
    } else if s[i] == '\\' {
      var rest := RunsOffUnpaired(s, i + 2);
      items := [Escape(s[i + 1])] + rest;
      assert s[i..] == [s[i], s[i + 1]] + s[i + 2..];
    } else {
      var rest := RunsOffUnpaired(s, i + 1);
      items := [Plain(s[i])] + rest;
      assert s[i..] == [s[i]] + s[i + 1..];
    }
  }

  /** A string runs off the payload exactly when what is left of it ends in an
      unpaired backslash and has no closing quote. */
  lemma StringBreaksOff(s: string, i: nat)
    requires i <= |s|
    ensures StringEnd(s, i) > |s| <==> Unpaired(s[i..])
  {
    if StringEnd(s, i) > |s| {
      var items := RunsOffUnpaired(s, i);
    }
    if Unpaired(s[i..]) {
      var items :| ValidItems(items) && s[i..] == ItemsText(items) + "\\";
      UnpairedRunsOff(s, i, items);
    }
  }

  // ---------------------------------------------------------------------
  // Inside brackets

  /** What a counting loop passes at once: a character, or a whole string. */
  datatype Token = Char(c: char) | Quoted(items: seq<Item>)

  predicate ValidToken(t: Token) {
    match t
    case Char(c) => c != '"'
    case Quoted(items) => ValidItems(items)
  }

  function TokenText(t: Token): string {
    match t
    case Char(c) => [c]
    case Quoted(items) => StringText(items)
  }

  function TokensText(ts: seq<Token>): string {
    if ts == [] then "" else TokenText(ts[0]) + TokensText(ts[1..])
  }

  /** The brackets counted never come back to zero. */
  predicate StaysOpen(ts: seq<Token>, depth: int, open: char, close: char) {
    ts == []
    || (ValidToken(ts[0])
        && if ts[0] == Char(open) then StaysOpen(ts[1..], depth + 1, open, close)
           else if ts[0] == Char(close) then depth != 1 && StaysOpen(ts[1..], depth - 1, open, close)
           else StaysOpen(ts[1..], depth, open, close))
  }

  /** Brackets that stay open, and a string that breaks off inside them. */
  ghost predicate Dangling(text: string, depth: int, open: char, close: char) {
    exists ts: seq<Token>, rest: string ::
      StaysOpen(ts, depth, open, close) && Unpaired(rest) && text == TokensText(ts) + ("\"" + rest)
  }

  lemma TokenFirst(ts: seq<Token>, rest: string)
    requires ts != []
    ensures TokensText(ts) + rest == TokenText(ts[0]) + (TokensText(ts[1..]) + rest)
  {
  }

  function DepthBehind(t: Token, depth: int, open: char, close: char): int {
    if t == Char(open) then depth + 1 else if t == Char(close) then depth - 1 else depth
  }

  /** The loop passes a token. */
  lemma OverToken(s: string, i: nat, t: Token, more: string, depth: int, open: char, close: char) returns (next: nat)
    requires Brackets(open, close) && ValidToken(t) && i <= |s| && s[i..] == TokenText(t) + more
    requires t == Char(close) ==> depth != 1
    ensures next <= |s| && s[next..] == more
    ensures NestedEnd(s, i, depth, open, close) == NestedEnd(s, next, DepthBehind(t, depth, open, close), open, close)
  {
    var text := TokenText(t);
    next := i + |text|;
    assert s[i..][..|text|] == text && s[i..][|text|..] == more;
    assert At(s, text, i) && s[i..][0] == s[i];
    if t.Quoted? { OverString(s, i, t.items, depth, open, close); }
  }

  lemma StringRunsOff(s: string, i: nat, depth: int, open: char, close: char, tail: string)
    requires Brackets(open, close) && i <= |s| && s[i..] == tail
    requires tail != "" && tail[0] == '"' && Unpaired(tail[1..])
    ensures NestedEnd(s, i, depth, open, close) > |s|
  {
    assert s[i] == s[i..][0] && s[i + 1..] == s[i..][1..];
    StringBreaksOff(s, i + 1);
  }

  lemma NoTokens(tail: string)
    ensures TokensText([]) + tail == tail
  {
  }

  lemma OpenNext(ts: seq<Token>, depth: int, open: char, close: char)
    requires StaysOpen(ts, depth, open, close) && ts != [] && open != close
    ensures ValidToken(ts[0]) && (ts[0] == Char(close) ==> depth != 1)
    ensures StaysOpen(ts[1..], DepthBehind(ts[0], depth, open, close), open, close)
  {
  }

  lemma OverFirst(s: string, i: nat, ts: seq<Token>, tail: string, depth: int, open: char, close: char) returns (next: nat)
    requires Brackets(open, close) && i <= |s| && ts != [] && s[i..] == TokensText(ts) + tail
    requires ValidToken(ts[0]) && (ts[0] == Char(close) ==> depth != 1)
    ensures next <= |s| && s[next..] == TokensText(ts[1..]) + tail
    ensures NestedEnd(s, i, depth, open, close) == NestedEnd(s, next, DepthBehind(ts[0], depth, open, close), open, close)
  {
    TokenFirst(ts, tail);
    next := OverToken(s, i, ts[0], TokensText(ts[1..]) + tail, depth, open, close);
  }

  lemma {:induction false} DanglingRunsOff(s: string, i: nat, depth: int, open: char, close: char,
                                           ts: seq<Token>, tail: string, end: nat)
    requires Brackets(open, close) && i <= |s| && StaysOpen(ts, depth, open, close)
    requires s[i..] == TokensText(ts) + tail && tail != "" && tail[0] == '"' && Unpaired(tail[1..])
    requires end == NestedEnd(s, i, depth, open, close)
    ensures end > |s|
    decreases |ts|
  {
    if ts == [] {
      NoTokens(tail);
      StringRunsOff(s, i, depth, open, close, tail);
    } else {
      OpenNext(ts, depth, open, close);
      var next := OverFirst(s, i, ts, tail, depth, open, close);
      DanglingRunsOff(s, next, DepthBehind(ts[0], depth, open, close), open, close, ts[1..], tail, end);
    }
  }

  /** A string that ends inside the payload was closed. */
  lemma {:induction false} StringCloses(s: string, i: nat) returns (items: seq<Item>)
    requires i <= |s| && StringEnd(s, i) < |s|
    ensures ValidItems(items) && s[i..StringEnd(s, i)] == ItemsText(items) + "\""
    decreases |s| - i
  {
    var end := StringEnd(s, i);
    if s[i] == '"' {
      items := [];
    } else if s[i] == '\\' {
      var rest := StringCloses(s, i + 2);
      items := [Escape(s[i + 1])] + rest;
      assert s[i..end] == [s[i], s[i + 1]] + s[i + 2..end];
    } else {
      var rest := StringCloses(s, i + 1);
      items := [Plain(s[i])] + rest;
      assert s[i..end] == [s[i]] + s[i + 1..end];
    }
  }

  /** The next token of a loop that runs off behind it. */
  lemma NextToken(s: string, i: nat, depth: int, open: char, close: char) returns (t: Token, next: nat)
    requires Brackets(open, close) && i <= |s| && NestedEnd(s, i, depth, open, close) > |s|
    requires !(s[i] == '"' && StringEnd(s, i + 1) > |s|)
    ensures ValidToken(t) && i < next <= |s| && s[i..] == TokenText(t) + s[next..] && (t == Char(close) ==> depth != 1)
    ensures NestedEnd(s, next, DepthBehind(t, depth, open, close), open, close) == NestedEnd(s, i, depth, open, close)
  {
    if s[i] == '"' {
      var items := StringCloses(s, i + 1);
      t, next := Quoted(items), StringEnd(s, i + 1);
      assert s[i..] == [s[i]] + s[i + 1..next] + s[next..];
    } else {
      t, next := Char(s[i]), i + 1;
      assert s[i..] == [s[i]] + s[i + 1..];
    }
  }

  lemma {:induction false} RunsOffDangling(s: string, i: nat, depth: int, open: char, close: char)
    returns (ts: seq<Token>, rest: string)
    requires Brackets(open, close) && i <= |s| && NestedEnd(s, i, depth, open, close) > |s|
    ensures StaysOpen(ts, depth, open, close) && Unpaired(rest) && s[i..] == TokensText(ts) + ("\"" + rest)
    decreases |s| - i
  {
    if s[i] == '"' && StringEnd(s, i + 1) > |s| {
      StringBreaksOff(s, i + 1);
      ts, rest := [], s[i + 1..];
      assert s[i..] == "\"" + rest;
    } else {
      var t, next := NextToken(s, i, depth, open, close);
      ts, rest := RunsOffDangling(s, next, DepthBehind(t, depth, open, close), open, close);
      TokenBefore(t, ts, "\"" + rest);
      ts := [t] + ts;
    }
  }

  lemma TokenBefore(t: Token, ts: seq<Token>, rest: string)
    ensures TokensText([t] + ts) + rest == TokenText(t) + (TokensText(ts) + rest)
    ensures ([t] + ts)[1..] == ts
  {
    TokenFirst([t] + ts, rest);
    assert ([t] + ts)[1..] == ts;
  }

  /** An array or object runs off the payload exactly when its brackets stay open
      up to a string that breaks off behind an unpaired backslash. */
  lemma NestedBreaksOff(s: string, i: nat, depth: int, open: char, close: char)
    requires Brackets(open, close) && i <= |s|
    ensures NestedEnd(s, i, depth, open, close) > |s| <==> Dangling(s[i..], depth, open, close)
  {
    if NestedEnd(s, i, depth, open, close) > |s| {
      var ts, rest := RunsOffDangling(s, i, depth, open, close);
    }
    if Dangling(s[i..], depth, open, close) {
      var ts: seq<Token>, rest: string :|
        StaysOpen(ts, depth, open, close) && Unpaired(rest) && s[i..] == TokensText(ts) + ("\"" + rest);
      assert ("\"" + rest)[1..] == rest;
      DanglingRunsOff(s, i, depth, open, close, ts, "\"" + rest, NestedEnd(s, i, depth, open, close));
    }
  }

  // ---------------------------------------------------------------------
  // Values and params

  /** A value that breaks off behind an unpaired backslash, in a string of its own
      or inside brackets. */
  ghost predicate BreaksOff(value: string) {
    && value != ""
    && ((value[0] == '"' && Unpaired(value[1..]))
        || (value[0] == '{' && Dangling(value, 0, '{', '}'))
        || (value[0] == '[' && Dangling(value, 0, '[', ']')))
  }

  /** The skipper leaves the payload exactly on such a value. */
  lemma ValueBreaksOff(s: string, i: nat)
    requires i <= |s|
    ensures ValueEnd(s, i) > |s| <==> BreaksOff(s[SpacesEnd(s, i)..])
  {
    var j := SpacesEnd(s, i);
    if j < |s| {
      assert s[j..][0] == s[j] && s[j..][1..] == s[j + 1..];
      StringBreaksOff(s, j + 1);
      NestedBreaksOff(s, j, 0, '{', '}');
      NestedBreaksOff(s, j, 0, '[', ']');
    }
  }

  /** Where element `n` starts, once the elements before it are skipped. */
  function ElementStart(s: string, i: nat, n: nat): Option<nat>
    decreases n
  {
    if i >= |s| then None
    else
      var start := SeparatorsEnd(s, i);
      if start >= |s| || s[start] == ']' || ValueEnd(s, start) <= start then None
      else if n > 0 then ElementStart(s, ValueEnd(s, start), n - 1)
      else Some(start)
  }

  function ParamStart(s: string, index: nat): Option<nat> {
    match ValueStart(s, PARAMS)
    case None => None
    case Some(i) => if i >= |s| || s[i] != '[' then None else ElementStart(s, i + 1, index)
  }

  lemma {:induction false} ElementBeyond(s: string, i: nat, n: nat)
    ensures ElementStart(s, i, n).Some? ==> ElementStart(s, i, n).value < |s|
    ensures ElementAt(s, i, n).Beyond?
       <==> ElementStart(s, i, n).Some? && BreaksOff(s[ElementStart(s, i, n).value..])
    ensures ElementAt(s, i, n).Beyond? ==> ElementAt(s, i, n).text == s[ElementStart(s, i, n).value..]
    decreases n
  {
    if i < |s| {
      var start := SeparatorsEnd(s, i);
      if start < |s| && s[start] != ']' && ValueEnd(s, start) > start {
        if n > 0 {
          ElementBeyond(s, ValueEnd(s, start), n - 1);
        } else {
          ValueBreaksOff(s, start);
          NoSpaceBehind(s, i);
        }
      }
    }
  }

  lemma {:induction false} NoSpaceBehind(s: string, i: nat)
    requires i <= |s|
    ensures SpacesEnd(s, SeparatorsEnd(s, i)) == SeparatorsEnd(s, i)
    decreases |s| - i
  {
    if i < |s| && (IsSpace(s[i]) || s[i] == ',') { NoSpaceBehind(s, i + 1); }
  }

  /** The element asked for is reached and breaks off behind an unpaired
      backslash. */
  ghost predicate ParamBreaksOff(s: string, index: nat) {
    var start := ParamStart(s, index);
    start.Some? && start.value <= |s| && BreaksOff(s[start.value..])
  }

  /** When `scanParamsValue` panics, for every payload, index and buffer: exactly
      when the element asked for breaks off and the payload fills its buffer.
      With a byte to spare that byte is taken in, and otherwise the buffer does
      not matter. */
  lemma ParamsPanicExactly(s: string, spare: string, index: nat)
    ensures Sliced(ParamsValue(s, index), spare) == Panics <==> spare == "" && ParamBreaksOff(s, index)
    ensures ParamBreaksOff(s, index) && spare != "" ==>
              Sliced(ParamsValue(s, index), spare) == Got(s[ParamStart(s, index).value..] + [spare[0]])
    ensures !ParamBreaksOff(s, index) ==>
              forall other :: Sliced(ParamsValue(s, index), spare) == Sliced(ParamsValue(s, index), other)
  {
    ParamsBeyond(s, index);
  }

  lemma ParamsBeyond(s: string, index: nat)
    ensures ParamsValue(s, index).Beyond? <==> ParamBreaksOff(s, index)
    ensures ParamBreaksOff(s, index) ==> ParamsValue(s, index).text == s[ParamStart(s, index).value..]
  {
    var v := ValueStart(s, PARAMS);
    if v.Some? && v.value < |s| && s[v.value] == '[' { ElementBeyond(s, v.value + 1, index); }
  }

  // ---------------------------------------------------------------------
  // Complete elements, and one that breaks off

  function BrokenList(ps: seq<Piece>, broken: string): string {
    if ps == [] then broken else PieceText(ps[0]) + ("," + BrokenList(ps[1..], broken))
  }

  lemma ElementAtBeyond(s: string, i: nat, n: nat, start: nat)
    requires i < |s| && SeparatorsEnd(s, i) == start < |s| && s[start] != ']' && ValueEnd(s, start) == |s| + 1
    ensures ElementAt(s, i, n) == if n == 0 then Beyond(s[start..]) else Absent
  {
  }

  lemma RestBreaksOff(s: string, start: nat, value: string)
    requires start <= |s| && s[start..] == value && BreaksOff(value)
    ensures ValueEnd(s, start) == |s| + 1
  {
    assert start < |s| && s[start] == value[0];
    assert SpacesEnd(s, start) == start;
    ValueBreaksOff(s, start);
  }

  lemma BrokenAlone(s: string, i: nat, lead: string, value: string, n: nat)
    requires Separators(lead) && BreaksOff(value) && At(s, lead + value, i) && i + |lead + value| == |s|
    ensures ElementAt(s, i, n) == if n == 0 then Beyond(value) else Absent
  {
    var start := i + |lead|;
    AtSplit(s, lead, value, i);
    SeparatorsStop(s, i, lead, value);
    assert s[start..] == value;
    RestBreaksOff(s, start, value);
    ElementAtBeyond(s, i, n, start);
  }

  lemma {:induction false} BrokenListRound(s: string, i: nat, lead: string, ps: seq<Piece>, before: string, value: string, n: nat)
    requires Separators(lead) && Separators(before) && BreaksOff(value)
    requires forall k :: 0 <= k < |ps| ==> Sound(ps[k])
    requires At(s, lead + BrokenList(ps, before + value), i) && i + |lead + BrokenList(ps, before + value)| == |s|
    ensures ElementAt(s, i, n)
         == if n < |ps| then Found(ps[n].text) else if n == |ps| then Beyond(value) else Absent
    decreases |ps|
  {
    if ps == [] {
      Associate(lead, before, value);
      BrokenAlone(s, i, lead + before, value, n);
    } else {
      var end := BrokenFirst(s, i, lead, ps, before + value, n);
      if n > 0 { BrokenListRound(s, end, ps[0].left + ",", ps[1..], before, value, n - 1); }
    }
  }

  lemma BrokenFirst(s: string, i: nat, lead: string, ps: seq<Piece>, broken: string, n: nat) returns (end: nat)
    requires Separators(lead) && ps != [] && Sound(ps[0])
    requires At(s, lead + BrokenList(ps, broken), i) && i + |lead + BrokenList(ps, broken)| == |s|
    ensures ElementAt(s, i, n) == if n == 0 then Found(ps[0].text) else ElementAt(s, end, n - 1)
    ensures var next := (ps[0].left + ",") + BrokenList(ps[1..], broken);
            Separators(ps[0].left + ",") && At(s, next, end) && end + |next| == |s|
  {
    var rest := BrokenList(ps[1..], broken);
    end := PieceRound(s, i, lead, ps[0], "," + rest, n);
    Associate(ps[0].left, ",", rest);
  }

  function ElementsBefore(es: seq<Element>, broken: string): string {
    if es == [] then broken else ElementText(es[0]) + ("," + ElementsBefore(es[1..], broken))
  }

  lemma {:induction false} PiecesBefore(es: seq<Element>, broken: string)
    ensures BrokenList(PiecesOf(es), broken) == ElementsBefore(es, broken)
    decreases |es|
  {
    if es != [] {
      PieceOfText(es[0]);
      PiecesBefore(es[1..], broken);
      assert PiecesOf(es)[1..] == PiecesOf(es[1..]);
    }
  }

  /** The payload ends inside its params array, in the element behind `es`. */
  ghost predicate HasBrokenParams(s: string, gap: string, space: string, blank: string, es: seq<Element>, before: string, value: string) {
    var p := IndexFrom(s, PARAMS, 0);
    var list := "[" + (blank + ElementsBefore(es, before + value));
    && p >= 0
    && (forall k :: 0 <= k < |gap| ==> gap[k] != ':') && Blank(space) && Blank(blank) && Blank(before)
    && (forall k :: 0 <= k < |es| ==> ValidElement(es[k])) && BreaksOff(value)
    && At(s, gap + (":" + (space + list)), p + |PARAMS|)
    && p + |PARAMS| + |gap + (":" + (space + list))| == |s|
  }

  /** On a payload that breaks off in the element behind any complete elements,
      the complete ones come out exactly, the broken one is taken with the byte
      behind the payload or panics, and there are no others. */
  lemma BrokenParamsExact(s: string, gap: string, space: string, blank: string, es: seq<Element>, before: string,
                          value: string, index: nat)
    requires HasBrokenParams(s, gap, space, blank, es, before, value)
    ensures ParamsValue(s, index)
         == if index < |es| then Found(Yield(es[index])) else if index == |es| then Beyond(value) else Absent
  {
    var list := "[" + (blank + ElementsBefore(es, before + value));
    ValueStartExact(s, PARAMS, gap, space, list);
    BrokenBehind(s, ValueStart(s, PARAMS).value, blank, es, before, value, index);
  }

  lemma BrokenBehind(s: string, i: nat, blank: string, es: seq<Element>, before: string, value: string, index: nat)
    requires ValueStart(s, PARAMS) == Some(i) && Blank(blank) && Blank(before) && BreaksOff(value)
    requires forall k :: 0 <= k < |es| ==> ValidElement(es[k])
    requires var list := "[" + (blank + ElementsBefore(es, before + value)); At(s, list, i) && i + |list| == |s|
    ensures ParamsValue(s, index)
         == if index < |es| then Found(Yield(es[index])) else if index == |es| then Beyond(value) else Absent
  {
    BracketBefore(s, i, blank + ElementsBefore(es, before + value));
    FromBracket(s, i, index);
    BrokenElementsRound(s, i + 1, blank, es, before, value, index);
  }

  lemma FromBracket(s: string, i: nat, index: nat)
    requires ValueStart(s, PARAMS) == Some(i) && i < |s| && s[i] == '['
    ensures ParamsValue(s, index) == ElementAt(s, i + 1, index)
  {
  }

  lemma BracketBefore(s: string, i: nat, list: string)
    requires At(s, "[" + list, i)
    ensures i < |s| && s[i] == '[' && At(s, list, i + 1) && i + |"[" + list| == i + 1 + |list|
  {
    AtSplit(s, "[", list, i);
    AtChar(s, "[", i, 0);
  }

  lemma BrokenElementsRound(s: string, i: nat, lead: string, es: seq<Element>, before: string, value: string, n: nat)
    requires Separators(lead) && Separators(before) && BreaksOff(value)
    requires forall k :: 0 <= k < |es| ==> ValidElement(es[k])
    requires var list := lead + ElementsBefore(es, before + value); At(s, list, i) && i + |list| == |s|
    ensures ElementAt(s, i, n)
         == if n < |es| then Found(Yield(es[n])) else if n == |es| then Beyond(value) else Absent
  {
    PiecesBefore(es, before + value);
    forall k | 0 <= k < |es| ensures Sound(PiecesOf(es)[k]) { PieceSound(es[k]); }
    BrokenListRound(s, i, lead, PiecesOf(es), before, value, n);
  }
}
