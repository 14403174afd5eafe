/** The requests the BTCC codec sends, read back as JSON: the grammar of `Skipper`
    and the field and parameter scanners agree on what they ask for. */
module Requests {
  import opened Types
  import opened Scan
  import opened Skipper
  import opened Params
  import opened BtccCodec
  import Decimals

  // ---------------------------------------------------------------------
  // Calls as values

  function Plains(s: string): (items: seq<Item>)
    ensures |items| == |s| && forall k :: 0 <= k < |s| ==> items[k] == Plain(s[k])
  {
    seq(|s|, k requires 0 <= k < |s| => Plain(s[k]))
  }

  ghost predicate NeedsNoEscape(s: string) {
    forall k :: 0 <= k < |s| ==> s[k] != '"' && s[k] != '\\'
  }

  lemma {:induction false} PlainsText(s: string)
    requires NeedsNoEscape(s)
    ensures ValidItems(Plains(s)) && ItemsText(Plains(s)) == s
    decreases |s|
  {
    if s != "" {
      PlainsText(s[1..]);
      assert Plains(s)[1..] == Plains(s[1..]);
      assert s == [s[0]] + s[1..];
    }
  }

  function Bare(v: Json): Element {
    Element("", v, "")
  }

  function Field(key: string, v: Json): Member {
    Member("", Plains(key), "", Bare(v))
  }

  /** An object with an id, a method and parameters, without any whitespace. */
  function Call(id: nat, name: string, params: seq<Element>): Json {
    Obj("", [Field("id", Scalar(Decimals.Digits(id))), Field("method", Str(Plains(name))),
             Field("params", Arr("", params))])
  }

  /** `text` is that request, and its fields and parameters are found in it. */
  ghost predicate Asks(text: string, id: nat, name: string, params: seq<Element>) {
    && Valid(Call(id, name, params)) && text == Text(Call(id, name, params))
    && UintField(text, "\"id\"") == Some(id)
    && StringField(text, "\"method\"") == Some(name)
    && (forall n: nat :: ParamsValue(text, n) == if n < |params| then Found(Yield(params[n])) else Absent)
    && forall n: nat | n < |params| && params[n].value.Str? :: IsStringParam(text, n, params[n].value.items)
  }

  ghost predicate IsStringParam(text: string, n: nat, items: seq<Item>) {
    forall spare :: Unquoted(Sliced(ParamsValue(text, n), spare)) == Got(ItemsText(items))
  }

  function DepthParams(market: seq<Item>): seq<Element> {
    [Bare(Str(market)), Bare(Scalar("20")), Bare(Str(Plains("0.00000001")))]
  }

  function MarketOnly(market: seq<Item>): seq<Element> {
    [Bare(Str(market))]
  }

  // ---------------------------------------------------------------------
  // Their texts

  /** What stands behind the id. */
  function BehindId(name: string, params: string): string {
    "," + ("\"method\"" + (":" + (("\"" + (name + "\"")) + ("," + ("\"params\"" + (":" + params))))))
  }

  /** A message that begins with the id. */
  function WithId(id: nat, rest: string): string {
    "{" + ("\"id\"" + (":" + (Decimals.Digits(id) + rest)))
  }

  function RequestText(id: nat, name: string, params: string): string {
    WithId(id, BehindId(name, params))
  }

  lemma FieldText(key: string, v: Json)
    requires NeedsNoEscape(key)
    ensures MemberText(Field(key, v)) == ("\"" + (key + "\"")) + (":" + Text(v))
    ensures Valid(v) ==> ValidMember(Field(key, v))
  {
    PlainsText(key);
    var e := Bare(v);
    assert ElementText(e) == Text(v);
  }

  lemma ThreeMembers(a: Member, b: Member, c: Member)
    ensures MembersText([a, b, c]) == MemberText(a) + ("," + (MemberText(b) + ("," + MemberText(c))))
  {
    assert [a, b, c][1..] == [b, c] && [b, c][1..] == [c];
    assert MembersText([c]) == MemberText(c);
  }

  lemma Keys()
    ensures "\"" + ("id" + "\"") == "\"id\""
    ensures "\"" + ("method" + "\"") == "\"method\""
    ensures "\"" + ("params" + "\"") == "\"params\""
  {
  }

  lemma Joined(id: string, digits: string, m: string, name: string, p: string, params: string)
    ensures "{" + ("" + (((id + (":" + digits)) + ("," + ((m + (":" + name)) + ("," + (p + (":" + params)))))) + "}"))
         == "{" + (id + (":" + (digits + ("," + (m + (":" + (name + ("," + (p + (":" + (params + "}")))))))))))
  {
  }

  lemma CallIsText(id: nat, name: string, params: seq<Element>)
    requires NeedsNoEscape(name) && Valid(Arr("", params))
    ensures Valid(Call(id, name, params))
    ensures Text(Call(id, name, params)) == RequestText(id, name, Text(Arr("", params)) + "}")
  {
    var a, b, c := Field("id", Scalar(Decimals.Digits(id))), Field("method", Str(Plains(name))), Field("params", Arr("", params));
    PlainsText(name);
    Keys();
    FieldText("id", a.element.value);
    FieldText("method", b.element.value);
    FieldText("params", c.element.value);
    ThreeMembers(a, b, c);
    Joined("\"id\"", Decimals.Digits(id), "\"method\"", "\"" + (name + "\""), "\"params\"", Text(Arr("", params)));
  }

  // ---------------------------------------------------------------------
  // Reading them

  /** No quote in `head` is followed by `c`. */
  ghost predicate Misses(head: string, c: char) {
    forall k :: 0 <= k < |head| && head[k] == '"' ==> k + 1 < |head| && head[k + 1] != c
  }

  lemma MissesBoth(a: string, b: string, c: char)
    requires Misses(a, c) && Misses(b, c)
    ensures Misses(a + b, c)
  {
    forall k | 0 <= k < |a + b| && (a + b)[k] == '"' ensures k + 1 < |a + b| && (a + b)[k + 1] != c {
      if k < |a| { assert a[k] == '"'; } else { assert b[k - |a|] == '"'; }
    }
  }

  /** Behind such a head, a key beginning with a quote and `c` is the first. */
  lemma KeyStands(head: string, key: string, rest: string)
    requires |key| > 1 && key[0] == '"' && Misses(head, key[1])
    ensures IndexFrom(head + (key + rest), key, 0) == |head|
    ensures At(head + (key + rest), rest, |head| + |key|)
  {
    var s := head + (key + rest);
    assert At(s, s, 0);
    AtSplit(s, head, key + rest, 0);
    AtSplit(s, key, rest, |head|);
    forall r | 0 <= r < |head| ensures !At(s, key, r) {
      assert s[r] == head[r];
      if head[r] == '"' {
        assert s[r + 1] == head[r + 1];
        NotAt(s, key, r, 1);
      } else {
        NotAt(s, key, r, 0);
      }
    }
  }

  function IdPart(id: nat): string {
    "{" + ("\"id\"" + (":" + (Decimals.Digits(id) + ",")))
  }

  function MethodPart(name: string): string {
    "\"method\"" + (":" + (("\"" + (name + "\"")) + ","))
  }

  lemma IdPartMisses(id: nat)
    ensures Misses(IdPart(id), 'm') && Misses(IdPart(id), 'p')
  {
    var start, end := "{\"id\":", Decimals.Digits(id) + ",";
    assert IdPart(id) == start + end;
    forall c | c == 'm' || c == 'p' ensures Misses(start + end, c) { MissesBoth(start, end, c); }
  }

  lemma MethodPartMisses(name: string)
    requires NeedsNoEscape(name) && name != "" && name[0] != 'p'
    ensures Misses(MethodPart(name), 'p')
  {
    var start, end := "\"method\":\"", name + "\",";
    assert MethodPart(name) == start + end;
    assert |start| == 10;
    forall k | 0 <= k < |start + end| && (start + end)[k] == '"'
      ensures k + 1 < |start + end| && (start + end)[k + 1] != 'p'
    {
      if k >= 10 { assert end[k - 10] == '"'; }
    }
  }

  lemma Regrouped(a: string, b: string, c: string, d: string, e: string, f: string)
    ensures "{" + (a + (":" + (b + ("," + (c + (":" + (d + ("," + (e + (":" + f))))))))))
         == ("{" + (a + (":" + (b + ",")))) + (c + (":" + (d + ("," + (e + (":" + f))))))
    ensures "{" + (a + (":" + (b + ("," + (c + (":" + (d + ("," + (e + (":" + f))))))))))
         == (("{" + (a + (":" + (b + ",")))) + (c + (":" + (d + ",")))) + (e + (":" + f))
  {
  }

  /** The field scanner finds the method. */
  lemma MethodFound(id: nat, name: string, params: string)
    requires NeedsNoEscape(name)
    ensures StringField(RequestText(id, name, params), "\"method\"") == Some(name)
  {
    var quoted := "\"" + (name + "\"");
    var rest := ":" + (quoted + ("," + ("\"params\"" + (":" + params))));
    var text := RequestText(id, name, params);
    IdPartMisses(id);
    Regrouped("\"id\"", Decimals.Digits(id), "\"method\"", quoted, "\"params\"", params);
    assert text == IdPart(id) + ("\"method\"" + rest);
    KeyStands(IdPart(id), "\"method\"", rest);
    FirstPart(text, |IdPart(id)| + 8, quoted, "," + ("\"params\"" + (":" + params)));
    StringFieldExact(text, "\"method\"", "", "", name);
  }

  lemma FirstPart(s: string, i: nat, value: string, rest: string)
    requires At(s, ":" + (value + rest), i)
    ensures At(s, "" + (":" + ("" + value)), i)
  {
    AtSplit(s, ":", value + rest, i);
    AtSplit(s, value, rest, i + 1);
    AtSplit(s, ":", value, i);
    assert "" + (":" + ("" + value)) == ":" + value;
  }

  /** And the parameter scanner every parameter. */
  lemma ParamsFound(id: nat, name: string, params: seq<Element>)
    requires NeedsNoEscape(name) && name != "" && name[0] != 'p' && Valid(Arr("", params))
    ensures HasParams(RequestText(id, name, Text(Arr("", params)) + "}"), "", "", "", params)
  {
    var quoted := "\"" + (name + "\"");
    var list := Text(Arr("", params));
    var text, head := RequestText(id, name, list + "}"), IdPart(id) + MethodPart(name);
    IdPartMisses(id);
    MethodPartMisses(name);
    MissesBoth(IdPart(id), MethodPart(name), 'p');
    Regrouped("\"id\"", Decimals.Digits(id), "\"method\"", quoted, "\"params\"", list + "}");
    assert text == head + ("\"params\"" + (":" + (list + "}")));
    KeyStands(head, "\"params\"", ":" + (list + "}"));
    FirstPart(text, |head| + 8, list, "}");
  }

  lemma RequestAsks(id: nat, name: string, params: seq<Element>)
    requires id < TWO64 && Valid(Arr("", params))
    requires NeedsNoEscape(name) && name != "" && name[0] != 'p'
    ensures Asks(RequestText(id, name, Text(Arr("", params)) + "}"), id, name, params)
  {
    var text := RequestText(id, name, Text(Arr("", params)) + "}");
    CallIsText(id, name, params);
    IdStands(text, id, BehindId(name, Text(Arr("", params)) + "}"));
    MethodFound(id, name, Text(Arr("", params)) + "}");
    ParamsFound(id, name, params);
    forall n: nat ensures ParamsValue(text, n) == if n < |params| then Found(Yield(params[n])) else Absent {
      ParamsValueExact(text, "", "", "", params, n);
    }
    forall n: nat | n < |params| && params[n].value.Str? ensures IsStringParam(text, n, params[n].value.items) {
      ParamsStringExact(text, "", "", "", params, n);
    }
  }

  // ---------------------------------------------------------------------
  // The requests of the codec

  lemma BareText(v: Json)
    ensures ElementText(Bare(v)) == Text(v)
    ensures Valid(v) ==> ValidElement(Bare(v))
  {
  }

  lemma OneElement(market: seq<Item>)
    requires ValidItems(market)
    ensures Text(Arr("", MarketOnly(market))) == "[\"" + (ItemsText(market) + "\"]")
    ensures Valid(Arr("", MarketOnly(market)))
  {
    var e := Bare(Str(market));
    BareText(Str(market));
    assert ElementsText([e]) == ElementText(e);
    OneText(ItemsText(market));
  }

  lemma OneText(market: string)
    ensures "[" + ("" + (("\"" + (market + "\"")) + "]")) == "[\"" + (market + "\"]")
  {
  }

  lemma ThreeElements(a: Element, b: Element, c: Element)
    ensures ElementsText([a, b, c]) == ElementText(a) + ("," + (ElementText(b) + ("," + ElementText(c))))
  {
    assert [a, b, c][1..] == [b, c] && [b, c][1..] == [c];
    assert ElementsText([c]) == ElementText(c);
  }

  lemma PlainString(text: string)
    requires NeedsNoEscape(text)
    ensures Valid(Str(Plains(text))) && Text(Str(Plains(text))) == "\"" + (text + "\"")
  {
    PlainsText(text);
  }

  lemma Precision()
    ensures Valid(Str(Plains("0.00000001")))
    ensures Text(Str(Plains("0.00000001"))) == "\"" + ("0.00000001" + "\"")
  {
    PlainString("0.00000001");
  }

  lemma ThreeTexts(a: Json, b: Json, c: Json)
    requires Valid(a) && Valid(b) && Valid(c)
    ensures Valid(Arr("", [Bare(a), Bare(b), Bare(c)]))
    ensures Text(Arr("", [Bare(a), Bare(b), Bare(c)]))
         == "[" + ("" + ((Text(a) + ("," + (Text(b) + ("," + Text(c))))) + "]"))
  {
    BareText(a);
    BareText(b);
    BareText(c);
    ThreeElements(Bare(a), Bare(b), Bare(c));
  }

  lemma Levels()
    ensures Valid(Scalar("20"))
  {
  }

  lemma DepthTexts(market: seq<Item>, levels: Json, precision: Json)
    requires ValidItems(market) && Valid(levels) && Valid(precision)
    ensures Valid(Arr("", [Bare(Str(market)), Bare(levels), Bare(precision)]))
    ensures Text(Arr("", [Bare(Str(market)), Bare(levels), Bare(precision)]))
         == "[" + ("" + ((("\"" + (ItemsText(market) + "\"")) + ("," + (Text(levels) + ("," + Text(precision))))) + "]"))
  {
    ThreeTexts(Str(market), levels, precision);
  }

  lemma DepthElements(market: seq<Item>)
    requires ValidItems(market)
    ensures Text(Arr("", DepthParams(market))) == "[\"" + (ItemsText(market) + "\",20,\"0.00000001\"]")
    ensures Valid(Arr("", DepthParams(market)))
  {
    Levels();
    Precision();
    DepthTexts(market, Scalar("20"), Str(Plains("0.00000001")));
    DepthTail(ItemsText(market));
  }

  lemma DepthTail(market: string)
    ensures "[" + ("" + ((("\"" + (market + "\"")) + ("," + ("20" + ("," + ("\"" + ("0.00000001" + "\"")))))) + "]"))
         == "[\"" + (market + "\",20,\"0.00000001\"]")
  {
  }

  /** `head` is what the codec writes between the id and the market. */
  ghost predicate HeadOf(head: string, name: string) {
    && head == ",\"method\":\"" + (name + "\",\"params\":[\"")
    && NeedsNoEscape(name) && name != "" && name[0] != 'p'
  }

  lemma SubscribeDepth()
    ensures HeadOf(SUBSCRIBE_DEPTH, "depth.subscribe")
  {
  }

  lemma SubscribeOrder()
    ensures HeadOf(SUBSCRIBE_ORDER, "order.subscribe")
  {
  }

  lemma UnsubscribeDepth()
    ensures HeadOf(UNSUBSCRIBE_DEPTH, "depth.unsubscribe")
  {
  }

  lemma UnsubscribeOrder()
    ensures HeadOf(UNSUBSCRIBE_ORDER, "order.unsubscribe")
  {
  }

  lemma HeadText(name: string, head: string, market: string, tail: string)
    requires HeadOf(head, name)
    ensures BehindId(name, ("[\"" + (market + tail)) + "}") == head + (market + (tail + "}"))
  {
  }

  lemma HeadAsks(id: TopicId, name: string, head: string, params: seq<Element>, market: string, tail: string)
    requires id < TWO64 && HeadOf(head, name) && Valid(Arr("", params))
    requires Text(Arr("", params)) == "[\"" + (market + tail)
    ensures Asks(WithId(id, head + (market + (tail + "}"))), id, name, params)
  {
    RequestAsks(id, name, params);
    HeadText(name, head, market, tail);
  }

  /** What a subscribe request asks for: for every market that can stand in a JSON
      string, with depth the twenty best levels at full precision. */
  lemma SubscribeAsks(id: TopicId, meta: Meta, market: seq<Item>)
    requires id < TWO64 && ValidItems(market) && meta.market == ItemsText(market)
    ensures meta.kind == DepthKind ==> Asks(SubscribeText(id, meta), id, "depth.subscribe", DepthParams(market))
    ensures meta.kind == OrderKind ==> Asks(SubscribeText(id, meta), id, "order.subscribe", MarketOnly(market))
  {
    match meta.kind {
      case DepthKind => DepthAsks(id, meta, market);
      case OrderKind => OrderAsks(id, meta, market);
    }
  }

  lemma DepthAsks(id: TopicId, meta: Meta, market: seq<Item>)
    requires id < TWO64 && ValidItems(market) && meta == Meta(DepthKind, ItemsText(market))
    ensures Asks(SubscribeText(id, meta), id, "depth.subscribe", DepthParams(market))
  {
    SubscribeDepth();
    DepthElements(market);
    DepthEnd();
    HeadAsks(id, "depth.subscribe", SUBSCRIBE_DEPTH, DepthParams(market), meta.market, "\",20,\"0.00000001\"]");
  }

  lemma DepthEnd()
    ensures "\",20,\"0.00000001\"]" + "}" == "\",20,\"0.00000001\"]}"
  {
  }

  lemma OrderAsks(id: TopicId, meta: Meta, market: seq<Item>)
    requires id < TWO64 && ValidItems(market) && meta == Meta(OrderKind, ItemsText(market))
    ensures Asks(SubscribeText(id, meta), id, "order.subscribe", MarketOnly(market))
  {
    SubscribeOrder();
    OneElement(market);
    assert "\"]" + "}" == "\"]}";
    HeadAsks(id, "order.subscribe", SUBSCRIBE_ORDER, MarketOnly(market), meta.market, "\"]");
  }

  lemma UnsubscribeAsks(id: TopicId, meta: Meta, market: seq<Item>)
    requires id < TWO64 && ValidItems(market) && meta.market == ItemsText(market)
    ensures meta.kind == DepthKind ==> Asks(UnsubscribeText(id, meta), id, "depth.unsubscribe", MarketOnly(market))
    ensures meta.kind == OrderKind ==> Asks(UnsubscribeText(id, meta), id, "order.unsubscribe", MarketOnly(market))
  {
    OneElement(market);
    assert "\"]" + "}" == "\"]}";
    match meta.kind {
      case DepthKind =>
        UnsubscribeDepth();
        HeadAsks(id, "depth.unsubscribe", UNSUBSCRIBE_DEPTH, MarketOnly(market), meta.market, "\"]");
      case OrderKind =>
        UnsubscribeOrder();
        HeadAsks(id, "order.unsubscribe", UNSUBSCRIBE_ORDER, MarketOnly(market), meta.market, "\"]");
    }
  }

  lemma RegisteredEncodes(s: State, id: TopicId, topic: Topic, market: string)
    requires market != "" && topic != OtherTopic && (s.auth.None? || s.auth.value.topic != id)
    ensures var t, meta := AfterRegister(s, id, topic, market), Meta(if topic == TopicDepth then DepthKind else OrderKind, market);
            Encode(t, id) == Encoding.Request(SubscribeText(id, meta)) && EncodeOff(t, id) == Encoding.Request(UnsubscribeText(id, meta))
  {
  }

  /** And so what a codec sends for a topic it was just given. */
  lemma RegisteredAsks(s: State, id: TopicId, topic: Topic, market: seq<Item>)
    requires id < TWO64 && ValidItems(market) && market != [] && topic != OtherTopic
    requires s.auth.None? || s.auth.value.topic != id
    ensures var t := AfterRegister(s, id, topic, ItemsText(market));
            Encode(t, id).Request? && EncodeOff(t, id).Request?
    ensures var t := AfterRegister(s, id, topic, ItemsText(market));
            topic == TopicDepth ==>
              && Asks(Encode(t, id).text, id, "depth.subscribe", DepthParams(market))
              && Asks(EncodeOff(t, id).text, id, "depth.unsubscribe", MarketOnly(market))
    ensures var t := AfterRegister(s, id, topic, ItemsText(market));
            topic == TopicOrder ==>
              && Asks(Encode(t, id).text, id, "order.subscribe", MarketOnly(market))
              && Asks(EncodeOff(t, id).text, id, "order.unsubscribe", MarketOnly(market))
  {
    var meta := Meta(if topic == TopicDepth then DepthKind else OrderKind, ItemsText(market));
    RegisteredEncodes(s, id, topic, ItemsText(market));
    SubscribeAsks(id, meta, market);
    UnsubscribeAsks(id, meta, market);
  }

  /** When there is nothing to ask: the authentication topic has a request of its
      own and needs no unsubscribe, and an unknown id is refused. */
  lemma EncodesExactly(s: State, id: TopicId)
    ensures var auth := s.auth.Some? && s.auth.value.topic == id;
            && (Encode(s, id) == AuthRequest <==> auth)
            && (auth ==> EncodeOff(s, id) == Encoding.Request(""))
            && (Encode(s, id) == NoSuchTopic <==> !auth && id !in s.topics)
            && (EncodeOff(s, id) == NoSuchTopic <==> !auth && id !in s.topics)
            && EncodeOff(s, id) != AuthRequest
  {
  }

  // ---------------------------------------------------------------------
  // Answers

  /** An answer to the request with the codec's authentication id. */
  ghost predicate Answers(s: State, payload: string) {
    s.auth.Some? && UintField(payload, "\"id\"") == Some(s.auth.value.reqId)
  }

  ghost predicate SaysSuccess(payload: string) {
    match StringField(payload, "\"status\"")
    case Some(status) => status == "success"
    case None => StringField(payload, "\"result\"") == Some("success")
  }

  /** The authentication topic comes out exactly for successful answers; every
      other payload decodes as in a codec without authentication. */
  lemma AnswerDecodes(s: State, payload: string, spare: string)
    ensures Answers(s, payload) && SaysSuccess(payload) ==> Decode(s, payload, spare) == Resolved(Some(s.auth.value.topic))
    ensures !(Answers(s, payload) && SaysSuccess(payload)) ==> Decode(s, payload, spare) == Decode(s.(auth := None), payload, spare)
  {
  }

  /** An answer whose first `"status"` stands in front of a string is decided by
      that string. */
  lemma StatusDecides(s: State, body: string, spare: string, gap: string, space: string, status: string)
    requires s.auth.Some? && s.auth.value.reqId < TWO64 && body != "" && body[0] == ','
    requires HasField(WithId(s.auth.value.reqId, body), "\"status\"", gap, space, status)
    ensures Decode(s, WithId(s.auth.value.reqId, body), spare)
         == if status == "success" then Resolved(Some(s.auth.value.topic))
            else Decode(s.(auth := None), WithId(s.auth.value.reqId, body), spare)
  {
    var payload := WithId(s.auth.value.reqId, body);
    IdStands(payload, s.auth.value.reqId, body);
    StringFieldExact(payload, "\"status\"", gap, space, status);
    AnswerDecodes(s, payload, spare);
  }

  /** Without a `"status"`, its first `"result"` decides. */
  lemma ResultDecides(s: State, body: string, spare: string, gap: string, space: string, result: string)
    requires s.auth.Some? && s.auth.value.reqId < TWO64 && body != "" && body[0] == ','
    requires IndexFrom(WithId(s.auth.value.reqId, body), "\"status\"", 0) == -1
    requires HasField(WithId(s.auth.value.reqId, body), "\"result\"", gap, space, result)
    ensures Decode(s, WithId(s.auth.value.reqId, body), spare)
         == if result == "success" then Resolved(Some(s.auth.value.topic))
            else Decode(s.(auth := None), WithId(s.auth.value.reqId, body), spare)
  {
    var payload := WithId(s.auth.value.reqId, body);
    IdStands(payload, s.auth.value.reqId, body);
    StringFieldExact(payload, "\"result\"", gap, space, result);
    AnswerDecodes(s, payload, spare);
  }
}
