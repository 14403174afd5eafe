/** The updates an exchange sends, as texts: they are depth and order updates in
    the sense of `BtccCodec`. */
module SentUpdates {
  import opened Types
  import opened Scan
  import opened Skipper
  import opened Params
  import opened Truncation
  import opened BtccCodec

  const DEPTH_HEAD: string := "{\"method\":\"depth.update\","
  const ORDER_HEAD: string := "{\"method\":\"order.update\","

  /** The head of a message of method `m`: nothing in it looks like the params. */
  ghost predicate IsHead(head: string, m: string) {
    && |head| == 25 && |m| == 12 && (forall k :: 0 <= k < 12 ==> m[k] != '"')
    && head[1..9] == KEY_METHOD && head[0] != KEY_METHOD[0]
    && head[9..24] == ":" + ("\"" + (m + "\""))
    && forall r :: 0 <= r < 25 && head[r] == '"' ==> r + 1 < 25 && head[r + 1] != 'p'
  }

  lemma DepthHeadChar(k: nat)
    requires k < 25
    ensures |DEPTH_HEAD| == 25 && |KEY_METHOD| == 8 && |DEPTH_UPDATE| == 12
    ensures 1 <= k < 9 ==> DEPTH_HEAD[k] == KEY_METHOD[k - 1]
    ensures 11 <= k < 23 ==> DEPTH_HEAD[k] == DEPTH_UPDATE[k - 11]
    ensures DEPTH_HEAD[k] == '"' <==> k == 1 || k == 8 || k == 10 || k == 23
    ensures k == 9 ==> DEPTH_HEAD[k] == ':'
  {
    assert k == 0 || k == 1 || k == 2 || k == 3 || k == 4 || k == 5 || k == 6 || k == 7 || k == 8 || k == 9
           || k == 10 || k == 11 || k == 12 || k == 13 || k == 14 || k == 15 || k == 16 || k == 17 || k == 18
           || k == 19 || k == 20 || k == 21 || k == 22 || k == 23 || k == 24;
  }

  lemma OrderHeadChar(k: nat)
    requires k < 25
    ensures |ORDER_HEAD| == 25 && |KEY_METHOD| == 8 && |ORDER_UPDATE| == 12
    ensures 1 <= k < 9 ==> ORDER_HEAD[k] == KEY_METHOD[k - 1]
    ensures 11 <= k < 23 ==> ORDER_HEAD[k] == ORDER_UPDATE[k - 11]
    ensures ORDER_HEAD[k] == '"' <==> k == 1 || k == 8 || k == 10 || k == 23
    ensures k == 9 ==> ORDER_HEAD[k] == ':'
  {
    assert k == 0 || k == 1 || k == 2 || k == 3 || k == 4 || k == 5 || k == 6 || k == 7 || k == 8 || k == 9
           || k == 10 || k == 11 || k == 12 || k == 13 || k == 14 || k == 15 || k == 16 || k == 17 || k == 18
           || k == 19 || k == 20 || k == 21 || k == 22 || k == 23 || k == 24;
  }

  lemma HeadFromChars(head: string, m: string)
    requires |head| == 25 && |m| == 12 && |KEY_METHOD| == 8 && KEY_METHOD[0] == '"'
    requires forall k :: 1 <= k < 9 ==> head[k] == KEY_METHOD[k - 1]
    requires forall k :: 11 <= k < 23 ==> head[k] == m[k - 11]
    requires forall k :: 0 <= k < 25 ==> (head[k] == '"' <==> k == 1 || k == 8 || k == 10 || k == 23)
    requires head[9] == ':' && head[2] != 'p' && head[11] != 'p' && head[24] != 'p'
    ensures IsHead(head, m)
  {
    assert head[1..9] == KEY_METHOD;
    assert head[9..24] == ":" + ("\"" + (m + "\""));
    forall k | 0 <= k < 12 ensures m[k] != '"' { assert head[k + 11] == m[k]; }
  }

  lemma Heads()
    ensures IsHead(DEPTH_HEAD, DEPTH_UPDATE) && IsHead(ORDER_HEAD, ORDER_UPDATE)
  {
    assert KEY_METHOD[0] == '"' && DEPTH_HEAD[2] == 'm' && DEPTH_HEAD[11] == 'd' && DEPTH_HEAD[24] == ',';
    assert ORDER_HEAD[2] == 'm' && ORDER_HEAD[11] == 'o' && ORDER_HEAD[24] == ',';
    forall k | 0 <= k < 25
      ensures 1 <= k < 9 ==> DEPTH_HEAD[k] == KEY_METHOD[k - 1] && ORDER_HEAD[k] == KEY_METHOD[k - 1]
      ensures 11 <= k < 23 ==> DEPTH_HEAD[k] == DEPTH_UPDATE[k - 11] && ORDER_HEAD[k] == ORDER_UPDATE[k - 11]
      ensures DEPTH_HEAD[k] == '"' <==> k == 1 || k == 8 || k == 10 || k == 23
      ensures ORDER_HEAD[k] == '"' <==> k == 1 || k == 8 || k == 10 || k == 23
    {
      DepthHeadChar(k);
      OrderHeadChar(k);
    }
    DepthHeadChar(9);
    OrderHeadChar(9);
    HeadFromChars(DEPTH_HEAD, DEPTH_UPDATE);
    HeadFromChars(ORDER_HEAD, ORDER_UPDATE);
  }

  /** A message: head, params array, and anything behind it. */
  function Sent(head: string, es: seq<Element>, tail: string): string {
    head + (PARAMS + (":" + (Text(Arr("", es)) + tail)))
  }

  lemma MethodStands(head: string, m: string, rest: string)
    requires IsHead(head, m)
    ensures HasField(head + rest, KEY_METHOD, "", "", m)
  {
    var payload := head + rest;
    assert payload[1..9] == head[1..9] && payload[9..24] == head[9..24];
    assert At(payload, KEY_METHOD, 1);
    NotAt(payload, KEY_METHOD, 0, 0);
    assert IndexFrom(payload, KEY_METHOD, 0) == 1;
    assert "" + (":" + ("" + ("\"" + (m + "\"")))) == ":" + ("\"" + (m + "\""));
    assert At(payload, "" + (":" + ("" + ("\"" + (m + "\"")))), 9);
  }

  lemma ParamsStand(head: string, m: string, list: string, tail: string)
    requires IsHead(head, m)
    ensures var payload := head + (PARAMS + (":" + (list + tail)));
            IndexFrom(payload, PARAMS, 0) == 25 && At(payload, "" + (":" + ("" + list)), 25 + |PARAMS|)
  {
    var payload := head + (PARAMS + (":" + (list + tail)));
    assert payload[25..33] == PARAMS;
    assert At(payload, PARAMS, 25);
    forall r | 0 <= r < 25 ensures !At(payload, PARAMS, r) {
      assert payload[r] == head[r];
      if payload[r] == '"' {
        assert payload[r + 1] == head[r + 1];
        NotAt(payload, PARAMS, r, 1);
      } else {
        NotAt(payload, PARAMS, r, 0);
      }
    }
    assert "" + (":" + ("" + list)) == ":" + list;
    assert payload[33..34 + |list|] == ":" + list;
  }

  /** Every depth message is a depth update of its third parameter: for all
      elements of the array, whatever follows it. */
  lemma SentDepthUpdate(es: seq<Element>, tail: string)
    requires Valid(Arr("", es)) && |es| > 2 && es[2].value.Str?
    ensures IsDepthUpdate(Sent(DEPTH_HEAD, es, tail), ItemsText(es[2].value.items))
  {
    var list := Text(Arr("", es));
    var payload := Sent(DEPTH_HEAD, es, tail);
    Heads();
    MethodStands(DEPTH_HEAD, DEPTH_UPDATE, PARAMS + (":" + (list + tail)));
    ParamsStand(DEPTH_HEAD, DEPTH_UPDATE, list, tail);
    assert HasField(payload, KEY_METHOD, "", "", DEPTH_UPDATE);
    assert HasParams(payload, "", "", "", es);
  }

  // ---------------------------------------------------------------------
  // Orders

  /** Where member `j` begins in the members' text. */
  function MemberOffset(ms: seq<Member>, j: nat): nat
    requires j < |ms|
  {
    if j == 0 then 0 else |MemberText(ms[0])| + 1 + MemberOffset(ms[1..], j - 1)
  }

  lemma {:induction false} MemberAt(s: string, i: nat, ms: seq<Member>, j: nat)
    requires j < |ms| && At(s, MembersText(ms), i)
    ensures At(s, MemberText(ms[j]), i + MemberOffset(ms, j))
    decreases j
  {
    ListParts(s, i, MemberText(ms[0]), |ms| > 1, MembersText(ms[1..]));
    if j > 0 { MemberAt(s, i + |MemberText(ms[0])| + 1, ms[1..], j - 1); }
  }

  /** A member with a string behind its key is a field. */
  lemma MemberIsField(s: string, i: nat, m: Member, items: seq<Item>)
    requires At(s, MemberText(m), i) && m.element.value == Str(items)
    ensures var text := m.gap + (":" + (m.element.before + ("\"" + (ItemsText(items) + "\""))));
            At(s, text, i + |m.before| + |StringText(m.key)|)
  {
    var j := i + |m.before| + |StringText(m.key)|;
    MemberParts(s, i, m);
    var _, _ := ElementParts(s, j + |m.gap| + 1, m.element);
    FieldJoins(s, j, m.gap, m.element.before, StringText(items));
  }

  lemma FieldJoins(s: string, j: nat, gap: string, space: string, value: string)
    requires At(s, gap, j) && At(s, ":", j + |gap|)
    requires At(s, space, j + |gap| + 1) && At(s, value, j + |gap| + 1 + |space|)
    ensures At(s, gap + (":" + (space + value)), j)
  {
    AtSplit(s, space, value, j + |gap| + 1);
    AtSplit(s, ":", space + value, j + |gap|);
    AtSplit(s, gap, ":" + (space + value), j);
  }

  /** Member `j` of the object is the first place where `"market"` stands, and its
      value is a string without quotes. */
  ghost predicate NamesMarket(v: Json, j: nat, items: seq<Item>) {
    && v.Obj? && j < |v.members| && v.members[j].element.value == Str(items)
    && IndexFrom(Text(v), KEY_MARKET, 0) == 1 + |v.blank| + MemberOffset(v.members, j) + |v.members[j].before|
    && StringText(v.members[j].key) == KEY_MARKET
    && forall k :: 0 <= k < |ItemsText(items)| ==> ItemsText(items)[k] != '"'
  }

  lemma MarketIsField(v: Json, j: nat, items: seq<Item>)
    requires Valid(v) && NamesMarket(v, j, items)
    ensures HasField(Text(v), KEY_MARKET, v.members[j].gap, v.members[j].element.before, ItemsText(items))
  {
    var m := v.members[j];
    MarketStands(v, j, items);
    assert ValidMember(m);
    MemberBlanks(m);
  }

  lemma MarketStands(v: Json, j: nat, items: seq<Item>)
    requires NamesMarket(v, j, items)
    ensures var m := v.members[j];
            At(Text(v), m.gap + (":" + (m.element.before + ("\"" + (ItemsText(items) + "\"")))),
               IndexFrom(Text(v), KEY_MARKET, 0) + |KEY_MARKET|)
  {
    var text, i := Text(v), 1 + |v.blank|;
    MembersStand(v);
    MemberAt(text, i, v.members, j);
    MemberIsField(text, i + MemberOffset(v.members, j), v.members[j], items);
  }

  lemma MemberBlanks(m: Member)
    requires ValidMember(m)
    ensures Blank(m.element.before) && forall k :: 0 <= k < |m.gap| ==> m.gap[k] != ':'
  {
    assert ValidElement(m.element);
  }

  lemma MembersStand(v: Json)
    requires v.Obj?
    ensures At(Text(v), MembersText(v.members), 1 + |v.blank|)
  {
    var text := Text(v);
    assert At(text, text, 0);
    AtSplit(text, "{", v.blank + (MembersText(v.members) + "}"), 0);
    AtSplit(text, v.blank, MembersText(v.members) + "}", 1);
    AtSplit(text, MembersText(v.members), "}", 1 + |v.blank|);
  }

  /** Every order message is an order update of the market in its second
      parameter. */
  lemma SentOrderUpdate(es: seq<Element>, tail: string, j: nat, items: seq<Item>)
    requires Valid(Arr("", es)) && |es| > 1 && NamesMarket(es[1].value, j, items)
    ensures IsOrderUpdate(Sent(ORDER_HEAD, es, tail), ItemsText(items))
  {
    var list := Text(Arr("", es));
    var payload := Sent(ORDER_HEAD, es, tail);
    Heads();
    MethodStands(ORDER_HEAD, ORDER_UPDATE, PARAMS + (":" + (list + tail)));
    ParamsStand(ORDER_HEAD, ORDER_UPDATE, list, tail);
    assert ValidElement(es[1]);
    MarketIsField(es[1].value, j, items);
    assert HasField(payload, KEY_METHOD, "", "", ORDER_UPDATE);
    assert HasParams(payload, "", "", "", es);
  }
  // ---------------------------------------------------------------------
  // Messages that break off

  /** A message that ends inside the element behind `es`. */
  function Broken(head: string, es: seq<Element>, value: string): string {
    head + (PARAMS + (":" + ("[" + ElementsBefore(es, value))))
  }

  lemma BrokenStands(head: string, m: string, es: seq<Element>, value: string)
    requires IsHead(head, m) && BreaksOff(value) && forall k :: 0 <= k < |es| ==> ValidElement(es[k])
    ensures StringField(Broken(head, es, value), KEY_METHOD) == Some(m)
    ensures HasBrokenParams(Broken(head, es, value), "", "", "", es, "", value)
  {
    var list := "[" + ElementsBefore(es, value);
    MethodStands(head, m, PARAMS + (":" + list));
    StringFieldExact(Broken(head, es, value), KEY_METHOD, "", "", m);
    ParamsStand(head, m, list, "");
    assert list + "" == list && "" + value == value && "" + ElementsBefore(es, value) == ElementsBefore(es, value);
    BrokenLength(head, list);
  }

  lemma BrokenLength(head: string, list: string)
    requires |head| == 25
    ensures 25 + |PARAMS| + |"" + (":" + ("" + list))| == |head + (PARAMS + (":" + list))|
  {
  }

  /** Every depth message that breaks off in its third parameter panics, when it
      fills its buffer. */
  lemma BrokenDepthPanics(s: State, es: seq<Element>, value: string)
    requires |es| == 2 && ValidElement(es[0]) && ValidElement(es[1]) && BreaksOff(value)
    requires !IsAuthAck(s, Broken(DEPTH_HEAD, es, value))
    ensures Decode(s, Broken(DEPTH_HEAD, es, value), "") == Panicked
  {
    var payload := Broken(DEPTH_HEAD, es, value);
    Heads();
    BrokenStands(DEPTH_HEAD, DEPTH_UPDATE, es, value);
    BrokenParamsExact(payload, "", "", "", es, "", value, 2);
    DecodeOfDepth(s, payload, "");
  }

  /** And every order message that breaks off in its second one. */
  lemma BrokenOrderPanics(s: State, es: seq<Element>, value: string)
    requires |es| == 1 && ValidElement(es[0]) && BreaksOff(value)
    requires !IsAuthAck(s, Broken(ORDER_HEAD, es, value))
    ensures Decode(s, Broken(ORDER_HEAD, es, value), "") == Panicked
  {
    var payload := Broken(ORDER_HEAD, es, value);
    Heads();
    BrokenStands(ORDER_HEAD, ORDER_UPDATE, es, value);
    BrokenParamsExact(payload, "", "", "", es, "", value, 1);
    DecodeOfOrder(s, payload, "");
  }

  const ONE := Element("", Scalar("1"), "")

  /** A string that breaks off at once. */
  const CUT: string := "\"\\"

  lemma CutBreaksOff()
    ensures BreaksOff(CUT)
  {
    assert CUT[1..] == ItemsText([]) + "\\";
  }

  /** One such message, as it stands in the buffer. */
  const CUT_DEPTH: string := "{\"method\":\"depth.update\",\"params\":[1,1,\"\\"

  lemma CutDepthHead()
    ensures |CUT_DEPTH| == 41 && CUT_DEPTH[..25] == DEPTH_HEAD
  {
    assert |DEPTH_HEAD| == 25;
    assert forall k :: 0 <= k < 25 ==> CUT_DEPTH[k] == DEPTH_HEAD[k];
  }

  lemma CutDepthTail()
    ensures |CUT_DEPTH| == 41 && CUT_DEPTH[25..] == PARAMS + (":" + ("[" + "1,1,\"\\"))
  {
    assert |PARAMS| == 8;
    assert forall k :: 25 <= k < 33 ==> CUT_DEPTH[k] == PARAMS[k - 25];
    assert CUT_DEPTH[33..] == ":" + ("[" + "1,1,\"\\");
    assert CUT_DEPTH[25..] == CUT_DEPTH[25..33] + CUT_DEPTH[33..];
  }

  lemma TwoOnes()
    ensures ElementsBefore([ONE, ONE], CUT) == "1,1,\"\\"
  {
    assert [ONE, ONE][1..] == [ONE] && [ONE][1..] == [];
    assert ElementText(ONE) == "1";
    assert ElementsBefore([ONE], CUT) == "1,\"\\";
  }

  lemma CutDepthIsBroken()
    ensures Broken(DEPTH_HEAD, [ONE, ONE], CUT) == CUT_DEPTH
  {
    CutDepthHead();
    CutDepthTail();
    TwoOnes();
    assert CUT_DEPTH == CUT_DEPTH[..25] + CUT_DEPTH[25..];
  }

  lemma OnePanics(s: State)
    requires s.auth.None?
    ensures Decode(s, CUT_DEPTH, "") == Panicked
  {
    CutBreaksOff();
    CutDepthIsBroken();
    BrokenDepthPanics(s, [ONE, ONE], CUT);
  }

  /** An order object that breaks off behind its market. */
  function CutObject(market: string): string {
    "{" + (KEY_MARKET + (":" + (("\"" + (market + "\"")) + ("," + CUT))))
  }

  const MARKET_NAME: seq<Item> := [Plain('m'), Plain('a'), Plain('r'), Plain('k'), Plain('e'), Plain('t')]

  lemma MarketName()
    ensures ValidItems(MARKET_NAME) && StringText(MARKET_NAME) == KEY_MARKET
  {
    assert ItemsText(MARKET_NAME[6..]) == "";
    assert ItemsText(MARKET_NAME[5..]) == "t";
    assert ItemsText(MARKET_NAME[4..]) == "et";
    assert ItemsText(MARKET_NAME[3..]) == "ket";
    assert ItemsText(MARKET_NAME[2..]) == "rket";
    assert ItemsText(MARKET_NAME[1..]) == "arket";
    assert ItemsText(MARKET_NAME) == "market";
  }

  /** One more token in front, other than a closing brace. */
  lemma TokenAhead(t: Token, ts: seq<Token>, depth: int) returns (more: seq<Token>)
    requires ValidToken(t) && t != Char('}') && StaysOpen(ts, if t == Char('{') then depth + 1 else depth, '{', '}')
    ensures StaysOpen(more, depth, '{', '}') && TokensText(more) == TokenText(t) + TokensText(ts)
  {
    more := [t] + ts;
  }

  lemma CutTokens(items: seq<Item>) returns (ts: seq<Token>)
    requires ValidItems(items)
    ensures StaysOpen(ts, 0, '{', '}')
    ensures TokensText(ts) == "{" + (KEY_MARKET + (":" + (StringText(items) + ("," + ""))))
  {
    MarketName();
    ts := TokenAhead(Char(','), [], 1);
    ts := TokenAhead(Quoted(items), ts, 1);
    ts := TokenAhead(Char(':'), ts, 1);
    ts := TokenAhead(Quoted(MARKET_NAME), ts, 1);
    ts := TokenAhead(Char('{'), ts, 0);
  }

  lemma CutObjectBreaksOff(items: seq<Item>)
    requires ValidItems(items)
    ensures BreaksOff(CutObject(ItemsText(items)))
  {
    var ts := CutTokens(items);
    assert CUT == "\"" + "\\" && "\\" == ItemsText([]) + "\\";
    Nested(KEY_MARKET, StringText(items), CUT);
    assert Dangling(CutObject(ItemsText(items)), 0, '{', '}');
  }

  lemma Nested(name: string, market: string, cut: string)
    ensures "{" + (name + (":" + (market + ("," + cut)))) == ("{" + (name + (":" + (market + ("," + ""))))) + cut
  {
  }

  lemma CutObjectNamesMarket(market: string)
    requires forall k :: 0 <= k < |market| ==> market[k] != '"'
    ensures HasField(CutObject(market), KEY_MARKET, "", "", market)
  {
    var quoted := "\"" + (market + "\"");
    FirstField(CutObject(market), KEY_MARKET, quoted, "," + CUT);
    assert "" + (":" + ("" + quoted)) == ":" + quoted;
  }

  lemma FirstField(text: string, key: string, quoted: string, rest: string)
    requires text == "{" + (key + (":" + (quoted + rest))) && key != "" && key[0] != '{'
    ensures IndexFrom(text, key, 0) == 1 && At(text, ":" + quoted, 1 + |key|)
  {
    assert At(text, text, 0);
    AtSplit(text, "{", key + (":" + (quoted + rest)), 0);
    AtSplit(text, key, ":" + (quoted + rest), 1);
    NotAt(text, key, 0, 0);
    AtSplit(text, ":", quoted + rest, 1 + |key|);
    AtSplit(text, quoted, rest, 2 + |key|);
    AtSplit(text, ":", quoted, 1 + |key|);
  }

  /** An order message cut off in its object, behind any market, is looked up with
      a byte to spare and panics without. */
  lemma CutOrderIsLookedUp(s: State, first: Element, items: seq<Item>, spare: string)
    requires ValidElement(first) && ValidItems(items)
    requires forall k :: 0 <= k < |ItemsText(items)| ==> ItemsText(items)[k] != '"'
    requires !IsAuthAck(s, Broken(ORDER_HEAD, [first], CutObject(ItemsText(items))))
    ensures Decode(s, Broken(ORDER_HEAD, [first], CutObject(ItemsText(items))), spare)
         == if spare == "" then Panicked else Resolved(Lookup(s, OrderKind, ItemsText(items)))
  {
    var market := ItemsText(items);
    var value := CutObject(market);
    Heads();
    CutObjectBreaksOff(items);
    CutObjectNamesMarket(market);
    BrokenStands(ORDER_HEAD, ORDER_UPDATE, [first], value);
    CutOffOrder(s, Broken(ORDER_HEAD, [first], value), spare, "", "", "", first, "", value, "", "", market);
  }
}
