/** The JSON skipper of bundle/internal/ingest/btcc/payload.go.

    It has no stack: inside an object it counts only braces, inside an array
    only brackets.  `Json` is the grammar of RFC 8259, sections 2 to 7, with its
    insignificant whitespace, and the main results say that the skipper agrees
    with it. */
module Skipper {
  import opened Scan

  // ---------------------------------------------------------------------
  // The skipper

  /** The loop of `skipString`, from position `i` inside a string.  A backslash
      as the last byte takes it one past the end. */
  function StringEnd(s: string, i: nat): (r: nat)
    ensures i <= |s| + 1 ==> r <= |s| + 1
    ensures i <= r && (i < |s| ==> i < r)
    decreases |s| + 1 - i
  {
    if i >= |s| then i
    else if s[i] == '\\' then StringEnd(s, i + 2)
    else if s[i] == '"' then i + 1
    else StringEnd(s, i + 1)
  }

  /** The loop of `skipObject` and `skipArray`, which differ in the pair of
      brackets they count. */
  function NestedEnd(s: string, i: nat, depth: int, open: char, close: char): (r: nat)
    requires open != '"' && close != '"'
    ensures i <= |s| + 1 ==> r <= |s| + 1
    ensures i <= r
    decreases |s| + 1 - i
  {
    if i >= |s| then i
    else if s[i] == open then NestedEnd(s, i + 1, depth + 1, open, close)
    else if s[i] == close then
      if depth == 1 then i + 1 else NestedEnd(s, i + 1, depth - 1, open, close)
    else if s[i] == '"' then NestedEnd(s, StringEnd(s, i + 1), depth, open, close)
    else NestedEnd(s, i + 1, depth, open, close)
  }

  predicate Delimiter(c: char) {
    c == ',' || c == ']' || c == '}'
  }

  function ScalarEnd(s: string, i: nat): (r: nat)
    requires i <= |s|
    ensures i <= r <= |s|
    decreases |s| - i
  {
    if i >= |s| || Delimiter(s[i]) then i else ScalarEnd(s, i + 1)
  }

  /** `skipValue` */
  function ValueEnd(s: string, i: nat): (r: nat)
    requires i <= |s|
    ensures i <= r <= |s| + 1
  {
    var j := SpacesEnd(s, i);
    if j >= |s| then j
    else if s[j] == '"' then StringEnd(s, j + 1)
    else if s[j] == '{' then NestedEnd(s, j, 0, '{', '}')
    else if s[j] == '[' then NestedEnd(s, j, 0, '[', ']')
    else ScalarEnd(s, j)
  }

  method SkipString(s: string, start: nat) returns (r: nat)
    requires start < |s|
    ensures r == StringEnd(s, start + 1)
  {
    var i := start + 1;
    while i < |s|
      invariant start < i <= |s| + 1 && StringEnd(s, start + 1) == StringEnd(s, i)
      decreases |s| + 1 - i
    {
      if s[i] == '\\' {
        i := i + 2;
        continue;
      }
      if s[i] == '"' { return i + 1; }
      i := i + 1;
    }
    return i;
  }

  /** `skipObject` and `skipArray`; the jump over a string lands one before its
      end, because the loop adds one. */
  method SkipNested(s: string, start: nat, open: char, close: char) returns (r: nat)
    requires start < |s| && open != '"' && close != '"' && open != close
    ensures r == NestedEnd(s, start, 0, open, close)
  {
    var depth := 0;
    var i := start;
    while i < |s|
      invariant start <= i <= |s| + 1
      invariant NestedEnd(s, start, 0, open, close) == NestedEnd(s, i, depth, open, close)
      decreases |s| + 1 - i
    {
      if s[i] == open {
        depth := depth + 1;
      } else if s[i] == close {
        depth := depth - 1;
        if depth == 0 { return i + 1; }
      } else if s[i] == '"' {
        var end := SkipString(s, i);
        i := end - 1;
      }
      i := i + 1;
    }
    return i;
  }

  method SkipValue(s: string, start: nat) returns (r: nat)
    requires start <= |s|
    ensures r == ValueEnd(s, start)
  {
    var i := SkipSpaces(s, start);
    if i >= |s| { return i; }
    match s[i] {
      case '"' => r := SkipString(s, i);
      case '{' => r := SkipNested(s, i, '{', '}');
      case '[' => r := SkipNested(s, i, '[', ']');
      case _ =>
        ghost var from := i;
        while i < |s|
          invariant from <= i <= |s| && ScalarEnd(s, from) == ScalarEnd(s, i)
        {
          if Delimiter(s[i]) { return i; }
          i := i + 1;
        }
        return i;
    }
  }

  // ---------------------------------------------------------------------
  // The grammar

  /** One character of a string, or one escape and the character behind the
      backslash; the digits of \uXXXX are characters of their own. */
  datatype Item = Plain(c: char) | Escape(c: char)

  /** A value.  Whitespace stands around elements, keys and values, and inside
      empty brackets. */
  datatype Json =
    | Scalar(text: string)
    | Str(items: seq<Item>)
    | Arr(blank: string, elements: seq<Element>)
    | Obj(blank: string, members: seq<Member>)

  datatype Element = Element(before: string, value: Json, after: string)

  datatype Member = Member(before: string, key: seq<Item>, gap: string, element: Element)

  predicate Blank(s: string) {
    forall k :: 0 <= k < |s| ==> IsSpace(s[k])
  }

  /** Characters of numbers and of the literals true, false and null. */
  predicate ScalarChar(c: char) {
    IsDigit(c) || 'a' <= c <= 'z' || c == '-' || c == '+' || c == '.' || c == 'E'
  }

  predicate ValidItem(item: Item) {
    item.Plain? ==> item.c != '"' && item.c != '\\'
  }

  predicate ValidItems(items: seq<Item>) {
    forall k :: 0 <= k < |items| ==> ValidItem(items[k])
  }

  predicate Valid(v: Json) {
    match v
    case Scalar(text) => text != "" && forall k :: 0 <= k < |text| ==> ScalarChar(text[k])
    case Str(items) => ValidItems(items)
    case Arr(blank, es) => Blank(blank) && forall k :: 0 <= k < |es| ==> ValidElement(es[k])
    case Obj(blank, ms) => Blank(blank) && forall k :: 0 <= k < |ms| ==> ValidMember(ms[k])
  }

  predicate ValidElement(e: Element) {
    Blank(e.before) && Valid(e.value) && Blank(e.after)
  }

  predicate ValidMember(m: Member) {
    Blank(m.before) && ValidItems(m.key) && Blank(m.gap) && ValidElement(m.element)
  }

  function ItemsText(items: seq<Item>): string {
    if items == [] then ""
    else (if items[0].Plain? then [items[0].c] else ['\\', items[0].c]) + ItemsText(items[1..])
  }

  function StringText(items: seq<Item>): string {
    "\"" + (ItemsText(items) + "\"")
  }

  function Text(v: Json): string
    decreases v, 0
  {
    match v
    case Scalar(text) => text
    case Str(items) => StringText(items)
    case Arr(blank, es) => "[" + (blank + (ElementsText(es) + "]"))
    case Obj(blank, ms) => "{" + (blank + (MembersText(ms) + "}"))
  }

  function ElementText(e: Element): string
    decreases e, 1
  {
    e.before + (Text(e.value) + e.after)
  }

  function ElementsText(es: seq<Element>): string
    decreases es, 0
  {
    if es == [] then ""
    else ElementText(es[0]) + (if |es| == 1 then "" else "," + ElementsText(es[1..]))
  }

  function MemberText(m: Member): string
    decreases m, 1
  {
    m.before + (StringText(m.key) + (m.gap + (":" + ElementText(m.element))))
  }

  function MembersText(ms: seq<Member>): string
    decreases ms, 0
  {
    if ms == [] then ""
    else MemberText(ms[0]) + (if |ms| == 1 then "" else "," + MembersText(ms[1..]))
  }

  // ---------------------------------------------------------------------
  // Agreement

  /** Inside a string, the loop reaches exactly its closing quote. */
  lemma {:induction false} StringEndExact(s: string, i: nat, items: seq<Item>)
    requires ValidItems(items) && At(s, ItemsText(items) + "\"", i)
    ensures StringEnd(s, i) == i + |ItemsText(items)| + 1
    decreases |items|
  {
    if items == [] {
      assert ItemsText(items) + "\"" == "\"";
      AtChar(s, "\"", i, 0);
    } else {
      var first := if items[0].Plain? then [items[0].c] else ['\\', items[0].c];
      var rest := ItemsText(items[1..]) + "\"";
      assert ItemsText(items) + "\"" == first + rest;
      AtSplit(s, first, rest, i);
      AtChar(s, first, i, 0);
      StringEndExact(s, i + |first|, items[1..]);
    }
  }

  predicate Brackets(open: char, close: char) {
    (open == '{' && close == '}') || (open == '[' && close == ']')
  }

  /** Characters neither counting loop reacts to. */
  predicate Neutral(c: char) {
    c != '"' && c != '{' && c != '}' && c != '[' && c != ']'
  }

  lemma {:induction false} OverNeutral(s: string, i: nat, text: string, depth: int, open: char, close: char)
    requires Brackets(open, close) && At(s, text, i) && forall k :: 0 <= k < |text| ==> Neutral(text[k])
    ensures NestedEnd(s, i, depth, open, close) == NestedEnd(s, i + |text|, depth, open, close)
    decreases |text|
  {
    if text != "" {
      AtChar(s, text, i, 0);
      AtSplit(s, text[..1], text[1..], i);
      assert text[..1] + text[1..] == text;
      OverNeutral(s, i + 1, text[1..], depth, open, close);
    }
  }

  lemma OverString(s: string, i: nat, items: seq<Item>, depth: int, open: char, close: char)
    requires Brackets(open, close) && ValidItems(items) && At(s, StringText(items), i)
    ensures NestedEnd(s, i, depth, open, close) == NestedEnd(s, i + |StringText(items)|, depth, open, close)
  {
    AtSplit(s, "\"", ItemsText(items) + "\"", i);
    AtChar(s, "\"", i, 0);
    StringEndExact(s, i + 1, items);
  }

  /** A bracket of the other kind does not count, one of this kind does. */
  lemma OverBracket(s: string, i: nat, depth: int, open: char, close: char)
    requires Brackets(open, close) && i < |s|
    ensures s[i] == '[' || s[i] == '{' ==>
              NestedEnd(s, i, depth, open, close)
              == NestedEnd(s, i + 1, if s[i] == open then depth + 1 else depth, open, close)
    ensures (s[i] == ']' || s[i] == '}') && (s[i] == close ==> depth > 1) ==>
              NestedEnd(s, i, depth, open, close)
              == NestedEnd(s, i + 1, if s[i] == close then depth - 1 else depth, open, close)
  {
  }

  lemma ScalarIsNeutral(text: string)
    requires Valid(Scalar(text))
    ensures forall k :: 0 <= k < |text| ==> Neutral(text[k])
  {
  }

  lemma BlankIsNeutral(text: string)
    requires Blank(text)
    ensures forall k :: 0 <= k < |text| ==> Neutral(text[k])
  {
  }

  /** Inside the brackets it counts, the loop passes over any value and is back
      at the depth it had, whatever brackets of either kind the value holds. */
  lemma {:induction false} OverValue(s: string, i: nat, v: Json, depth: int, open: char, close: char)
    requires Brackets(open, close) && Valid(v) && At(s, Text(v), i) && depth >= 1
    ensures NestedEnd(s, i, depth, open, close) == NestedEnd(s, i + |Text(v)|, depth, open, close)
    decreases v, 1
  {
    match v {
      case Scalar(text) =>
        ScalarIsNeutral(text);
        OverNeutral(s, i, text, depth, open, close);
      case Str(items) => OverString(s, i, items, depth, open, close);
      case Arr(blank, es) =>
        OverArray(s, i, v, depth, open, close);
      case Obj(blank, ms) =>
        OverObject(s, i, v, depth, open, close);
    }
  }

  lemma {:induction false} OverArray(s: string, i: nat, v: Json, depth: int, open: char, close: char)
    requires Brackets(open, close) && v.Arr? && Valid(v) && At(s, Text(v), i) && depth >= 1
    ensures NestedEnd(s, i, depth, open, close) == NestedEnd(s, i + |Text(v)|, depth, open, close)
    decreases v, 0
  {
    var inner := ElementsText(v.elements);
    var j, _ := BetweenBrackets(s, i, "[", v.blank, inner, "]");
    OverElements(s, j, v.elements, if open == '[' then depth + 1 else depth, open, close);
    OverBracketed(s, i, "[", v.blank, inner, "]", depth, open, close);
  }

  lemma {:induction false} OverObject(s: string, i: nat, v: Json, depth: int, open: char, close: char)
    requires Brackets(open, close) && v.Obj? && Valid(v) && At(s, Text(v), i) && depth >= 1
    ensures NestedEnd(s, i, depth, open, close) == NestedEnd(s, i + |Text(v)|, depth, open, close)
    decreases v, 0
  {
    var inner := MembersText(v.members);
    var j, _ := BetweenBrackets(s, i, "{", v.blank, inner, "}");
    OverMembers(s, j, v.members, if open == '{' then depth + 1 else depth, open, close);
    OverBracketed(s, i, "{", v.blank, inner, "}", depth, open, close);
  }

  lemma BracketParts(s: string, i: nat, open: string, blank: string, inner: string, close: string)
    requires |open| == 1 && |close| == 1 && At(s, open + (blank + (inner + close)), i)
    ensures i < |s| && s[i] == open[0]
    ensures At(s, blank, i + 1) && At(s, inner, i + 1 + |blank|)
    ensures i + 1 + |blank| + |inner| < |s| && s[i + 1 + |blank| + |inner|] == close[0]
  {
    AtSplit(s, open, blank + (inner + close), i);
    AtSplit(s, blank, inner + close, i + 1);
    AtSplit(s, inner, close, i + 1 + |blank|);
    AtChar(s, open, i, 0);
    AtChar(s, close, i + 1 + |blank| + |inner|, 0);
  }

  /** A pair of brackets around something the loop passes over. */
  lemma OverBracketed(s: string, i: nat, left: string, blank: string, inner: string, right: string,
                      depth: int, open: char, close: char)
    requires Brackets(open, close) && depth >= 1 && Blank(blank)
    requires (left == "[" && right == "]") || (left == "{" && right == "}")
    requires At(s, left + (blank + (inner + right)), i)
    requires var d, j := if open == left[0] then depth + 1 else depth, i + 1 + |blank|;
             NestedEnd(s, j, d, open, close) == NestedEnd(s, j + |inner|, d, open, close)
    ensures NestedEnd(s, i, depth, open, close)
         == NestedEnd(s, i + |left + (blank + (inner + right))|, depth, open, close)
  {
    var d, j := if open == left[0] then depth + 1 else depth, i + 1 + |blank|;
    BracketParts(s, i, left, blank, inner, right);
    BlankIsNeutral(blank);
    OverNeutral(s, i + 1, blank, d, open, close);
    OverBracket(s, i, depth, open, close);
    OverBracket(s, j + |inner|, d, open, close);
  }

  /** The outermost brackets of a value end the loop. */
  lemma EndsBracketed(s: string, i: nat, blank: string, k: nat, open: char, close: char)
    requires Brackets(open, close) && Blank(blank) && At(s, blank, i + 1)
    requires i < |s| && s[i] == open && k < |s| && s[k] == close
    requires NestedEnd(s, i + 1 + |blank|, 1, open, close) == NestedEnd(s, k, 1, open, close)
    ensures NestedEnd(s, i, 0, open, close) == k + 1
  {
    OverBlank(s, i + 1, blank, 1, open, close);
    EndsAt(s, i, k, open, close);
  }

  lemma EndsAt(s: string, i: nat, k: nat, open: char, close: char)
    requires Brackets(open, close) && i < |s| && s[i] == open && k < |s| && s[k] == close
    requires NestedEnd(s, i + 1, 1, open, close) == NestedEnd(s, k, 1, open, close)
    ensures NestedEnd(s, i, 0, open, close) == k + 1
  {
  }

  lemma ElementParts(s: string, i: nat, e: Element) returns (j: nat, k: nat)
    requires At(s, ElementText(e), i)
    ensures j == i + |e.before| && k == j + |Text(e.value)| && i + |ElementText(e)| == k + |e.after|
    ensures At(s, e.before, i) && At(s, Text(e.value), j) && At(s, e.after, k)
  {
    j, k := i + |e.before|, i + |e.before| + |Text(e.value)|;
    AtSplit(s, e.before, Text(e.value) + e.after, i);
    AtSplit(s, Text(e.value), e.after, i + |e.before|);
  }

  lemma OverBlank(s: string, i: nat, text: string, depth: int, open: char, close: char)
    requires Brackets(open, close) && At(s, text, i) && Blank(text)
    ensures NestedEnd(s, i, depth, open, close) == NestedEnd(s, i + |text|, depth, open, close)
  {
    BlankIsNeutral(text);
    OverNeutral(s, i, text, depth, open, close);
  }

  lemma {:induction false} OverElement(s: string, i: nat, e: Element, depth: int, open: char, close: char)
    requires Brackets(open, close) && ValidElement(e) && At(s, ElementText(e), i) && depth >= 1
    ensures NestedEnd(s, i, depth, open, close) == NestedEnd(s, i + |ElementText(e)|, depth, open, close)
    decreases e, 2
  {
    var j, k := ElementParts(s, i, e);
    OverBlank(s, i, e.before, depth, open, close);
    OverValue(s, j, e.value, depth, open, close);
    OverBlank(s, k, e.after, depth, open, close);
  }

  /** The first item of a comma-separated list, and the rest. */
  lemma ListParts(s: string, i: nat, first: string, more: bool, rest: string)
    requires At(s, first + (if !more then "" else "," + rest), i)
    ensures At(s, first, i)
    ensures more ==> At(s, ",", i + |first|) && At(s, rest, i + |first| + 1)
  {
    AtSplit(s, first, if !more then "" else "," + rest, i);
    if more {
      AtSplit(s, ",", rest, i + |first|);
    }
  }

  lemma OverComma(s: string, i: nat, depth: int, open: char, close: char)
    requires Brackets(open, close) && At(s, ",", i)
    ensures NestedEnd(s, i, depth, open, close) == NestedEnd(s, i + 1, depth, open, close)
  {
    OverNeutral(s, i, ",", depth, open, close);
  }

  lemma {:induction false} OverElements(s: string, i: nat, es: seq<Element>, depth: int, open: char, close: char)
    requires Brackets(open, close) && depth >= 1 && At(s, ElementsText(es), i)
    requires forall k :: 0 <= k < |es| ==> ValidElement(es[k])
    ensures NestedEnd(s, i, depth, open, close) == NestedEnd(s, i + |ElementsText(es)|, depth, open, close)
    decreases es, 0
  {
    if es != [] {
      var t := ElementText(es[0]);
      ListParts(s, i, t, |es| > 1, ElementsText(es[1..]));
      OverElement(s, i, es[0], depth, open, close);
      if |es| > 1 {
        OverComma(s, i + |t|, depth, open, close);
        OverElements(s, i + |t| + 1, es[1..], depth, open, close);
      }
    }
  }

  lemma {:induction false} OverMember(s: string, i: nat, m: Member, depth: int, open: char, close: char)
    requires Brackets(open, close) && ValidMember(m) && At(s, MemberText(m), i) && depth >= 1
    ensures NestedEnd(s, i, depth, open, close) == NestedEnd(s, i + |MemberText(m)|, depth, open, close)
    decreases m, 3
  {
    var j := ToElement(s, i, m, depth, open, close);
    OverElement(s, j, m.element, depth, open, close);
  }

  /** Over the key and the colon of a member. */
  lemma ToElement(s: string, i: nat, m: Member, depth: int, open: char, close: char) returns (j: nat)
    requires Brackets(open, close) && ValidMember(m) && At(s, MemberText(m), i)
    ensures At(s, ElementText(m.element), j) && i + |MemberText(m)| == j + |ElementText(m.element)|
    ensures NestedEnd(s, i, depth, open, close) == NestedEnd(s, j, depth, open, close)
  {
    MemberParts(s, i, m);
    var k := OverQuoted(s, i, m.before, m.key, depth, open, close);
    OverColon(s, k, m.gap, depth, open, close);
    j := k + |m.gap| + 1;
  }

  lemma OverColon(s: string, i: nat, gap: string, depth: int, open: char, close: char)
    requires Brackets(open, close) && Blank(gap) && At(s, gap, i) && At(s, ":", i + |gap|)
    ensures NestedEnd(s, i, depth, open, close) == NestedEnd(s, i + |gap| + 1, depth, open, close)
  {
    OverBlank(s, i, gap, depth, open, close);
    OverNeutral(s, i + |gap|, ":", depth, open, close);
  }

  lemma MemberParts(s: string, i: nat, m: Member)
    requires At(s, MemberText(m), i)
    ensures var k := i + |m.before|;
            var j := k + |StringText(m.key)|;
            && At(s, m.before, i) && At(s, StringText(m.key), k) && At(s, m.gap, j)
            && At(s, ":", j + |m.gap|) && At(s, ElementText(m.element), j + |m.gap| + 1)
            && i + |MemberText(m)| == j + |m.gap| + 1 + |ElementText(m.element)|
  {
    FieldParts(s, i, m.before, StringText(m.key), m.gap, ElementText(m.element));
  }

  lemma FieldParts(s: string, i: nat, before: string, key: string, gap: string, value: string)
    requires At(s, before + (key + (gap + (":" + value))), i)
    ensures var k := i + |before| + |key| + |gap|;
            && At(s, before, i) && At(s, key, i + |before|) && At(s, gap, i + |before| + |key|)
            && At(s, ":", k) && At(s, value, k + 1)
            && i + |before + (key + (gap + (":" + value)))| == k + 1 + |value|
  {
    AtSplit(s, before, key + (gap + (":" + value)), i);
    AtSplit(s, key, gap + (":" + value), i + |before|);
    AtSplit(s, gap, ":" + value, i + |before| + |key|);
    AtSplit(s, ":", value, i + |before| + |key| + |gap|);
  }

  lemma OverQuoted(s: string, i: nat, before: string, items: seq<Item>, depth: int, open: char, close: char) returns (k: nat)
    requires Brackets(open, close) && Blank(before) && ValidItems(items)
    requires At(s, before, i) && At(s, StringText(items), i + |before|)
    ensures k == i + |before| + |StringText(items)|
    ensures NestedEnd(s, i, depth, open, close) == NestedEnd(s, k, depth, open, close)
  {
    k := i + |before| + |StringText(items)|;
    OverBlank(s, i, before, depth, open, close);
    OverString(s, i + |before|, items, depth, open, close);
  }

  lemma {:induction false} OverMembers(s: string, i: nat, ms: seq<Member>, depth: int, open: char, close: char)
    requires Brackets(open, close) && depth >= 1 && At(s, MembersText(ms), i)
    requires forall k :: 0 <= k < |ms| ==> ValidMember(ms[k])
    ensures NestedEnd(s, i, depth, open, close) == NestedEnd(s, i + |MembersText(ms)|, depth, open, close)
    decreases ms, 0
  {
    if ms != [] {
      var t := MemberText(ms[0]);
      ListParts(s, i, t, |ms| > 1, MembersText(ms[1..]));
      OverMember(s, i, ms[0], depth, open, close);
      if |ms| > 1 {
        OverNeutral(s, i + |t|, ",", depth, open, close);
        OverMembers(s, i + |t| + 1, ms[1..], depth, open, close);
      }
    }
  }

  lemma {:induction false} ScalarEndExact(s: string, i: nat, text: string)
    requires At(s, text, i) && forall k :: 0 <= k < |text| ==> !Delimiter(text[k])
    requires i + |text| < |s| && Delimiter(s[i + |text|])
    ensures ScalarEnd(s, i) == i + |text|
    decreases |text|
  {
    if text != "" {
      AtChar(s, text, i, 0);
      AtSplit(s, text[..1], text[1..], i);
      assert text[..1] + text[1..] == text;
      ScalarEndExact(s, i + 1, text[1..]);
    }
  }

  /** A value starts with a character that is neither a space nor a delimiter. */
  lemma FirstChar(v: Json)
    requires Valid(v)
    ensures Text(v) != "" && !IsSpace(Text(v)[0]) && !Delimiter(Text(v)[0])
    ensures v.Scalar? ==> Text(v)[0] != '"' && Text(v)[0] != '{' && Text(v)[0] != '['
    ensures v.Str? ==> Text(v)[0] == '"'
    ensures v.Arr? ==> Text(v)[0] == '['
    ensures v.Obj? ==> Text(v)[0] == '{'
  {
  }

  /** Whitespace behind a scalar counts as part of it. */
  function Trailing(v: Json, after: string): string {
    if v.Scalar? then after else ""
  }

  lemma TrailingNotDelimited(text: string, after: string)
    requires Valid(Scalar(text)) && Blank(after)
    ensures forall k :: 0 <= k < |text + after| ==> !Delimiter((text + after)[k])
  {
  }

  lemma ArrayEndExact(s: string, i: nat, v: Json)
    requires v.Arr? && Valid(v) && At(s, Text(v), i)
    ensures NestedEnd(s, i, 0, '[', ']') == i + |Text(v)|
  {
    var j, k := BetweenBrackets(s, i, "[", v.blank, ElementsText(v.elements), "]");
    OverElements(s, j, v.elements, 1, '[', ']');
    EndsBracketed(s, i, v.blank, k, '[', ']');
  }

  lemma ObjectEndExact(s: string, i: nat, v: Json)
    requires v.Obj? && Valid(v) && At(s, Text(v), i)
    ensures NestedEnd(s, i, 0, '{', '}') == i + |Text(v)|
  {
    var j, k := BetweenBrackets(s, i, "{", v.blank, MembersText(v.members), "}");
    OverMembers(s, j, v.members, 1, '{', '}');
    EndsBracketed(s, i, v.blank, k, '{', '}');
  }

  /** Where the inner text begins and ends. */
  lemma BetweenBrackets(s: string, i: nat, open: string, blank: string, inner: string, close: string) returns (j: nat, k: nat)
    requires |open| == 1 && |close| == 1 && At(s, open + (blank + (inner + close)), i)
    ensures i < |s| && s[i] == open[0] && k < |s| && s[k] == close[0]
    ensures At(s, blank, i + 1) && At(s, inner, j)
    ensures j == i + 1 + |blank| && k == j + |inner| && k + 1 == i + |open + (blank + (inner + close))|
  {
    j, k := i + 1 + |blank|, i + 1 + |blank| + |inner|;
    BracketParts(s, i, open, blank, inner, close);
  }

  lemma StringTextEnd(s: string, i: nat, items: seq<Item>)
    requires ValidItems(items) && At(s, StringText(items), i)
    ensures StringEnd(s, i + 1) == i + |StringText(items)|
  {
    AtSplit(s, "\"", ItemsText(items) + "\"", i);
    StringEndExact(s, i + 1, items);
  }

  lemma ScalarTextEnd(s: string, i: nat, text: string, after: string)
    requires Valid(Scalar(text)) && Blank(after) && At(s, text + after, i)
    requires i + |text| + |after| < |s| && Delimiter(s[i + |text| + |after|])
    ensures ScalarEnd(s, i) == i + |text| + |after|
  {
    TrailingNotDelimited(text, after);
    ScalarEndExact(s, i, text + after);
  }

  /** The skipper agrees with the grammar: in front of whitespace and a
      delimiter it stops exactly at the end of a string, array or object, and
      at the delimiter behind a scalar. */
  lemma ValueEndExact(s: string, i: nat, v: Json, after: string)
    requires Valid(v) && Blank(after) && At(s, Text(v) + after, i)
    requires i + |Text(v)| + |after| < |s| && Delimiter(s[i + |Text(v)| + |after|])
    ensures ValueEnd(s, i) == i + |Text(v)| + |Trailing(v, after)|
  {
    FirstChar(v);
    AtSplit(s, Text(v), after, i);
    AtChar(s, Text(v), i, 0);
    assert SpacesEnd(s, i) == i;
    match v {
      case Scalar(text) => ScalarTextEnd(s, i, text, after);
      case Str(items) => StringTextEnd(s, i, items);
      case Arr(_, _) => ArrayEndExact(s, i, v);
      case Obj(_, _) => ObjectEndExact(s, i, v);
    }
  }
}
