/** Topic resolution: the codec of bundle/internal/ingest/btcc/codec.go.

    Markets are looked up by a 64-bit hash.  What a payload resolves to is
    therefore stated for markets whose hashes differ. */
module BtccCodec {
  import opened Types
  import opened Scan
  import opened Skipper
  import opened Params
  import opened Truncation
  import Decimals
  import Wire

  datatype Kind = DepthKind | OrderKind

  /** `enum.Topic` of a request. */
  datatype Topic = TopicDepth | TopicOrder | OtherTopic

  datatype Meta = Meta(kind: Kind, market: string)

  datatype Auth = Auth(topic: TopicId, reqId: nat)

  datatype State = State(topics: map<TopicId, Meta>, depth: map<nat, TopicId>, order: map<nat, TopicId>, auth: Option<Auth>)

  const FNV_OFFSET: nat := 14695981039346656037
  const FNV_PRIME: nat := 1099511628211

  /** `hashBytes`, FNV-1a. */
  function Hash(data: string): nat {
    if data == "" then FNV_OFFSET
    else Wire.Xor(Hash(data[..|data| - 1]), data[|data| - 1] as nat % 256) * FNV_PRIME % TWO64
  }

  method HashBytes(data: string) returns (hash: nat)
    ensures hash == Hash(data)
  {
    hash := FNV_OFFSET;
    var i := 0;
    while i < |data|
      invariant 0 <= i <= |data| && hash == Hash(data[..i])
    {
      assert data[..i + 1][..i] == data[..i];
      hash := Wire.Xor(hash, data[i] as nat % 256);
      hash := hash * FNV_PRIME % TWO64;
      i := i + 1;
    }
    assert data[..i] == data;
  }

  // ---------------------------------------------------------------------
  // Registration

  function KindOf(topic: Topic): Option<Kind> {
    match topic
    case TopicDepth => Some(DepthKind)
    case TopicOrder => Some(OrderKind)
    case OtherTopic => None
  }

  /** `Register`: refused for other topics and for an empty market. */
  function AfterRegister(s: State, id: TopicId, topic: Topic, market: string): State {
    match KindOf(topic)
    case None => s
    case Some(kind) =>
      if market == "" then s
      else
        var topics := s.topics[id := Meta(kind, market)];
        if kind == OrderKind then s.(topics := topics, order := s.order[Hash(market) := id])
        else s.(topics := topics, depth := s.depth[Hash(market) := id])
  }

  /** `Unregister`: forgets the id, and whatever stands under the hash of its
      market. */
  function AfterUnregister(s: State, id: TopicId): State {
    if id !in s.topics then s
    else
      var meta := s.topics[id];
      var topics := s.topics - {id};
      if meta.kind == OrderKind then s.(topics := topics, order := s.order - {Hash(meta.market)})
      else s.(topics := topics, depth := s.depth - {Hash(meta.market)})
  }

  function Lookup(s: State, kind: Kind, market: string): Option<TopicId> {
    var table := if kind == OrderKind then s.order else s.depth;
    if Hash(market) in table then Some(table[Hash(market)]) else None
  }

  // ---------------------------------------------------------------------
  // Decoding

  const KEY_ID: string := "\"id\""
  const KEY_METHOD: string := "\"method\""
  const KEY_RESULT: string := "\"result\""
  const KEY_STATUS: string := "\"status\""
  const KEY_MARKET: string := "\"market\""
  const DEPTH_UPDATE: string := "depth.update"
  const ORDER_UPDATE: string := "order.update"
  const SUCCESS: string := "success"

  /** `isAuthAck` */
  function IsAuthAck(s: State, payload: string): bool {
    && s.auth.Some?
    && UintField(payload, KEY_ID) == Some(s.auth.value.reqId)
    && match StringField(payload, KEY_STATUS)
       case Some(status) => status == SUCCESS
       case None => StringField(payload, KEY_RESULT) == Some(SUCCESS)
  }

  /** A topic or none, unless a slice bound panics. */
  datatype Decoded = Resolved(topic: Option<TopicId>) | Panicked

  /** `DecodeTopic`; `spare` is what the buffer holds behind the payload. */
  function Decode(s: State, payload: string, spare: string): Decoded {
    if IsAuthAck(s, payload) then Resolved(Some(s.auth.value.topic))
    else match StringField(payload, KEY_METHOD)
      case None => Resolved(None)
      case Some(m) =>
        if m == DEPTH_UPDATE then
          match Unquoted(Sliced(ParamsValue(payload, 2), spare))
          case Missed => Resolved(None)
          case Panics => Panicked
          case Got(market) => Resolved(Lookup(s, DepthKind, market))
        else if m == ORDER_UPDATE then
          match Sliced(ParamsValue(payload, 1), spare)
          case Missed => Resolved(None)
          case Panics => Panicked
          case Got(value) =>
            match StringField(value, KEY_MARKET)
            case None => Resolved(None)
            case Some(market) => Resolved(Lookup(s, OrderKind, market))
        else Resolved(None)
  }

  // ---------------------------------------------------------------------
  // Encoding

  /** What `EncodeSubscribe` appends: a request, the auth request, or nothing. */
  datatype Encoding = Request(text: string) | AuthRequest | NoSuchTopic

  const SUBSCRIBE_DEPTH: string := ",\"method\":\"depth.subscribe\",\"params\":[\""
  const SUBSCRIBE_ORDER: string := ",\"method\":\"order.subscribe\",\"params\":[\""

  function SubscribeText(id: TopicId, meta: Meta): string {
    "{" + (KEY_ID + (":" + (Decimals.Digits(id) + SubscribeBody(meta))))
  }

  function SubscribeBody(meta: Meta): string {
    if meta.kind == OrderKind then SUBSCRIBE_ORDER + (meta.market + "\"]}")
    else SUBSCRIBE_DEPTH + (meta.market + "\",20,\"0.00000001\"]}")
  }

  /** `EncodeSubscribe` */
  function Encode(s: State, id: TopicId): Encoding {
    if s.auth.Some? && s.auth.value.topic == id then AuthRequest
    else if id !in s.topics then NoSuchTopic
    else Request(SubscribeText(id, s.topics[id]))
  }

  const UNSUBSCRIBE_DEPTH: string := ",\"method\":\"depth.unsubscribe\",\"params\":[\""
  const UNSUBSCRIBE_ORDER: string := ",\"method\":\"order.unsubscribe\",\"params\":[\""

  function UnsubscribeText(id: TopicId, meta: Meta): string {
    "{" + (KEY_ID + (":" + (Decimals.Digits(id) + UnsubscribeBody(meta))))
  }

  function UnsubscribeBody(meta: Meta): string {
    (if meta.kind == OrderKind then UNSUBSCRIBE_ORDER else UNSUBSCRIBE_DEPTH) + (meta.market + "\"]}")
  }

  /** `EncodeUnsubscribe`, which knows the same topics. */
  function EncodeOff(s: State, id: TopicId): Encoding {
    if s.auth.Some? && s.auth.value.topic == id then Request("")
    else if id !in s.topics then NoSuchTopic
    else Request(UnsubscribeText(id, s.topics[id]))
  }

  /** The exchange's answer can be told by the id of the request: a subscribe
      request carries the topic's id where `ScanUintField` finds it. */
  lemma SubscribeCarriesId(id: TopicId, meta: Meta)
    requires id < TWO64
    ensures UintField(SubscribeText(id, meta), KEY_ID) == Some(id)
  {
    var body := SubscribeBody(meta);
    assert body != "" && body[0] == ',';
    IdStands(SubscribeText(id, meta), id, body);
  }

  lemma IdStands(text: string, id: TopicId, body: string)
    requires id < TWO64 && body != "" && body[0] == ','
    requires text == "{" + (KEY_ID + (":" + (Decimals.Digits(id) + body)))
    ensures UintField(text, KEY_ID) == Some(id)
  {
    var digits := Decimals.Digits(id);
    assert At(text, text, 0);
    AtSplit(text, "{", KEY_ID + (":" + (digits + body)), 0);
    AtSplit(text, KEY_ID, ":" + (digits + body), 1);
    NotAt(text, KEY_ID, 0, 0);
    assert IndexFrom(text, KEY_ID, 0) == 1;
    ColonDigits(text, 1 + |KEY_ID|, digits, body);
    Decimals.UintRoundTrip(text, KEY_ID, "", "", id);
  }

  lemma JoinsRequest(digits: string, body: string)
    ensures ("{" + KEY_ID + ":" + digits) + body == "{" + (KEY_ID + (":" + (digits + body)))
  {
  }

  lemma ColonDigits(text: string, i: nat, digits: string, body: string)
    requires At(text, ":" + (digits + body), i) && body != "" && body[0] == ','
    ensures At(text, "" + (":" + ("" + digits)), i) && At(text, digits, i + 1)
    ensures i + 1 + |digits| < |text| && text[i + 1 + |digits|] == ','
  {
    AtSplit(text, ":", digits + body, i);
    AtSplit(text, digits, body, i + 1);
    AtChar(text, body, i + 1 + |digits|, 0);
    AtSplit(text, ":", digits, i);
    assert "" + (":" + ("" + digits)) == ":" + digits;
  }

  /** `Codec` */
  class Codec {
    var topicsByID: map<TopicId, Meta>
    var depthLookup: map<nat, TopicId>
    var orderLookup: map<nat, TopicId>
    var auth: Option<Auth>

    function Abstract(): State
      reads this
    {
      State(topicsByID, depthLookup, orderLookup, auth)
    }

    constructor ()
      ensures Abstract() == State(map[], map[], map[], None)
    {
      topicsByID, depthLookup, orderLookup, auth := map[], map[], map[], None;
    }

    method Register(id: TopicId, topic: Topic, market: string) returns (ok: bool)
      modifies this
      ensures ok <==> topic != OtherTopic && market != ""
      ensures Abstract() == AfterRegister(old(Abstract()), id, topic, market)
    {
      var kind := KindOf(topic);
      if kind.None? { return false; }
      if |market| == 0 { return false; }
      topicsByID := topicsByID[id := Meta(kind.value, market)];
      var hash := HashBytes(market);
      match kind.value {
        case OrderKind => orderLookup := orderLookup[hash := id];
        case DepthKind => depthLookup := depthLookup[hash := id];
      }
      return true;
    }

    method Unregister(id: TopicId)
      modifies this
      ensures Abstract() == AfterUnregister(old(Abstract()), id)
    {
      if id in topicsByID {
        var meta := topicsByID[id];
        topicsByID := topicsByID - {id};
        var hash := HashBytes(meta.market);
        match meta.kind {
          case OrderKind => orderLookup := orderLookup - {hash};
          case DepthKind => depthLookup := depthLookup - {hash};
        }
      }
    }

    method EncodeSubscribe(id: TopicId) returns (r: Encoding)
      requires id < TWO64
      ensures r == Encode(Abstract(), id)
    {
      if auth.Some? && auth.value.topic == id { return AuthRequest; }
      if id !in topicsByID { return NoSuchTopic; }
      var meta := topicsByID[id];
      var dst := "{" + KEY_ID + ":";
      dst := Decimals.AppendUint(dst, id);
      match meta.kind {
        case OrderKind =>
          dst := dst + (SUBSCRIBE_ORDER + (meta.market + "\"]}"));
        case DepthKind =>
          dst := dst + (SUBSCRIBE_DEPTH + (meta.market + "\",20,\"0.00000001\"]}"));
      }
      JoinsRequest(Decimals.Digits(id), SubscribeBody(meta));
      return Request(dst);
    }

    method EncodeUnsubscribe(id: TopicId) returns (r: Encoding)
      requires id < TWO64
      ensures r == EncodeOff(Abstract(), id)
    {
      if auth.Some? && auth.value.topic == id { return Request(""); }
      if id !in topicsByID { return NoSuchTopic; }
      var meta := topicsByID[id];
      var dst := "{" + KEY_ID + ":";
      dst := Decimals.AppendUint(dst, id);
      match meta.kind {
        case OrderKind => dst := dst + (UNSUBSCRIBE_ORDER + (meta.market + "\"]}"));
        case DepthKind => dst := dst + (UNSUBSCRIBE_DEPTH + (meta.market + "\"]}"));
      }
      JoinsRequest(Decimals.Digits(id), UnsubscribeBody(meta));
      return Request(dst);
    }

    method AuthAck(payload: string) returns (ack: bool)
      ensures ack == IsAuthAck(Abstract(), payload)
    {
      if auth.None? { return false; }
      var id := ScanUintField(payload, KEY_ID);
      if id != Some(auth.value.reqId) { return false; }
      var status := ScanStringField(payload, KEY_STATUS);
      if status.Some? { return status.value == SUCCESS; }
      var result := ScanStringField(payload, KEY_RESULT);
      return result == Some(SUCCESS);
    }

    method DecodeTopic(payload: string, spare: string) returns (r: Decoded)
      ensures r == Decode(Abstract(), payload, spare)
    {
      var ack := AuthAck(payload);
      if ack { return Resolved(Some(auth.value.topic)); }
      var m := ScanStringField(payload, KEY_METHOD);
      if m.None? { return Resolved(None); }
      if m.value == DEPTH_UPDATE {
        var market := ScanParamsString(payload, spare, 2);
        if market.Panics? { return Panicked; }
        if market.Missed? { return Resolved(None); }
        var hash := HashBytes(market.text);
        return Resolved(if hash in depthLookup then Some(depthLookup[hash]) else None);
      }
      if m.value == ORDER_UPDATE {
        var value := ScanParamsValue(payload, spare, 1);
        if value.Panics? { return Panicked; }
        if value.Missed? { return Resolved(None); }
        var market := ScanStringField(value.text, KEY_MARKET);
        if market.None? { return Resolved(None); }
        var hash := HashBytes(market.value);
        return Resolved(if hash in orderLookup then Some(orderLookup[hash]) else None);
      }
      return Resolved(None);
    }
  }

  // ---------------------------------------------------------------------
  // Runs

  datatype Op = RegisterOp(id: TopicId, topic: Topic, market: string) | UnregisterOp(id: TopicId)

  function Apply(s: State, op: Op): State {
    match op
    case RegisterOp(id, topic, market) => AfterRegister(s, id, topic, market)
    case UnregisterOp(id) => AfterUnregister(s, id)
  }

  /** The id is new, or registered for the same, and nobody else has the market. */
  ghost predicate Registrable(s: State, id: TopicId, m: Meta) {
    && (id in s.topics ==> s.topics[id] == m)
    && forall other :: other in s.topics && other != id ==> s.topics[other] != m
  }

  /** The callers' discipline: ids are not reused for something else, and no
      market is registered under two ids at a time for one kind. */
  ghost predicate Disciplined(s: State, op: Op) {
    match op
    case RegisterOp(id, topic, market) =>
      KindOf(topic).Some? && market != "" ==> Registrable(s, id, Meta(KindOf(topic).value, market))
    case UnregisterOp(_) => true
  }

  ghost predicate DisciplinedRun(s: State, ops: seq<Op>)
    decreases |ops|
  {
    ops == [] || (Disciplined(s, ops[0]) && DisciplinedRun(Apply(s, ops[0]), ops[1..]))
  }

  function Run(s: State, ops: seq<Op>): State
    decreases |ops|
  {
    if ops == [] then s else Run(Apply(s, ops[0]), ops[1..])
  }

  /** The markets in play hash to different numbers. */
  ghost predicate NoCollision(markets: set<string>) {
    forall a, b :: a in markets && b in markets && Hash(a) == Hash(b) ==> a == b
  }

  ghost predicate MarketsWithin(ops: seq<Op>, markets: set<string>) {
    forall k :: 0 <= k < |ops| && ops[k].RegisterOp? ==> ops[k].market in markets
  }

  function Table(s: State, kind: Kind): map<nat, TopicId> {
    if kind == OrderKind then s.order else s.depth
  }

  ghost predicate TopicListed(s: State, markets: set<string>, id: TopicId)
    requires id in s.topics
  {
    var meta := s.topics[id];
    && meta.market in markets
    && Hash(meta.market) in Table(s, meta.kind) && Table(s, meta.kind)[Hash(meta.market)] == id
  }

  ghost predicate EntryNamesTopic(s: State, kind: Kind, h: nat)
    requires h in Table(s, kind)
  {
    var id := Table(s, kind)[h];
    id in s.topics && s.topics[id].kind == kind && Hash(s.topics[id].market) == h
  }

  /** The lookup tables are exactly the inverse of the registered topics. */
  ghost predicate Consistent(s: State, markets: set<string>) {
    && (forall id :: id in s.topics ==> TopicListed(s, markets, id))
    && (forall kind, h :: h in Table(s, kind) ==> EntryNamesTopic(s, kind, h))
  }

  /** Only the registration of a market occupies its hash. */
  lemma OccupiedByMarket(s: State, markets: set<string>, kind: Kind, market: string)
    requires Consistent(s, markets) && NoCollision(markets) && market in markets
    requires Hash(market) in Table(s, kind)
    ensures Meta(kind, market) in s.topics.Values
  {
    var other := Table(s, kind)[Hash(market)];
    assert EntryNamesTopic(s, kind, Hash(market)) && TopicListed(s, markets, other);
    assert s.topics[other] in s.topics.Values;
  }

  lemma EntriesAfterRegister(s: State, id: TopicId, topic: Topic, market: string, k: Kind, h: nat)
    requires id !in s.topics && h in Table(AfterRegister(s, id, topic, market), k)
    requires h in Table(s, k) ==> EntryNamesTopic(s, k, h)
    ensures EntryNamesTopic(AfterRegister(s, id, topic, market), k, h)
  {
    assert (KindOf(topic) == Some(k) && h == Hash(market)) || h in Table(s, k);
  }

  /** Registering again changes nothing. */
  lemma RegisterAgain(s: State, markets: set<string>, id: TopicId, topic: Topic, market: string)
    requires Consistent(s, markets) && market != "" && KindOf(topic).Some?
    requires id in s.topics && s.topics[id] == Meta(KindOf(topic).value, market)
    ensures AfterRegister(s, id, topic, market) == s
  {
    assert TopicListed(s, markets, id);
  }

  lemma RegisterNew(s: State, markets: set<string>, id: TopicId, topic: Topic, market: string)
    requires Consistent(s, markets) && market in markets && market != "" && KindOf(topic).Some?
    requires id !in s.topics && Hash(market) !in Table(s, KindOf(topic).value)
    ensures Consistent(AfterRegister(s, id, topic, market), markets)
  {
    var t := AfterRegister(s, id, topic, market);
    forall i | i in t.topics ensures TopicListed(t, markets, i) {
      if i != id { assert TopicListed(s, markets, i); }
    }
    forall k, h | h in Table(t, k) ensures EntryNamesTopic(t, k, h) {
      EntriesAfterRegister(s, id, topic, market, k, h);
    }
  }

  lemma RegistrableStays(s: State, markets: set<string>, id: TopicId, topic: Topic, market: string)
    requires Consistent(s, markets) && NoCollision(markets) && market in markets && market != ""
    requires KindOf(topic).Some? && Registrable(s, id, Meta(KindOf(topic).value, market))
    ensures Consistent(AfterRegister(s, id, topic, market), markets)
  {
    if id in s.topics {
      RegisterAgain(s, markets, id, topic, market);
    } else {
      if Hash(market) in Table(s, KindOf(topic).value) { OccupiedByMarket(s, markets, KindOf(topic).value, market); }
      RegisterNew(s, markets, id, topic, market);
    }
  }

  /** A second id for the market is not listed any more. */
  lemma SecondIdHides(s: State, markets: set<string>, id: TopicId, topic: Topic, market: string, other: TopicId)
    requires KindOf(topic).Some? && market != "" && other in s.topics && other != id
    requires s.topics[other] == Meta(KindOf(topic).value, market)
    ensures !Consistent(AfterRegister(s, id, topic, market), markets)
  {
    var t := AfterRegister(s, id, topic, market);
    assert t.topics[other] == s.topics[other];
    assert !TopicListed(t, markets, other);
  }

  /** An id registered for something else leaves a stale entry behind. */
  lemma OldEntryStays(s: State, markets: set<string>, id: TopicId, topic: Topic, market: string)
    requires Consistent(s, markets) && NoCollision(markets) && market in markets && market != ""
    requires KindOf(topic).Some? && id in s.topics && s.topics[id] != Meta(KindOf(topic).value, market)
    ensures !Consistent(AfterRegister(s, id, topic, market), markets)
  {
    var before := s.topics[id];
    var h := Hash(before.market);
    var t := AfterRegister(s, id, topic, market);
    assert TopicListed(s, markets, id);
    assert h in Table(t, before.kind) && Table(t, before.kind)[h] == id;
    assert !EntryNamesTopic(t, before.kind, h);
  }

  /** Registering keeps the tables exact if and only if the id is new, or
      registered for the same already, and nobody else has the market. */
  lemma RegisterKeepsConsistentExactly(s: State, markets: set<string>, id: TopicId, topic: Topic, market: string)
    requires Consistent(s, markets) && NoCollision(markets) && market in markets && market != ""
    requires KindOf(topic).Some?
    ensures Consistent(AfterRegister(s, id, topic, market), markets)
       <==> Registrable(s, id, Meta(KindOf(topic).value, market))
  {
    var m := Meta(KindOf(topic).value, market);
    if Registrable(s, id, m) {
      RegistrableStays(s, markets, id, topic, market);
    } else if id in s.topics && s.topics[id] != m {
      OldEntryStays(s, markets, id, topic, market);
    } else {
      var other :| other in s.topics && other != id && s.topics[other] == m;
      SecondIdHides(s, markets, id, topic, market, other);
    }
  }

  lemma RegisterKeepsConsistent(s: State, markets: set<string>, id: TopicId, topic: Topic, market: string)
    requires Consistent(s, markets) && NoCollision(markets) && market in markets
    requires Disciplined(s, RegisterOp(id, topic, market))
    ensures Consistent(AfterRegister(s, id, topic, market), markets)
  {
    if KindOf(topic).Some? && market != "" {
      RegisterKeepsConsistentExactly(s, markets, id, topic, market);
    }
  }

  lemma EntriesAfterUnregister(s: State, id: TopicId, k: Kind, h: nat)
    requires h in Table(AfterUnregister(s, id), k) && h in Table(s, k) && EntryNamesTopic(s, k, h)
    ensures EntryNamesTopic(AfterUnregister(s, id), k, h)
  {
  }

  lemma ListedAfterUnregister(s: State, markets: set<string>, id: TopicId, i: TopicId)
    requires Consistent(s, markets) && id in s.topics && i in AfterUnregister(s, id).topics
    ensures TopicListed(AfterUnregister(s, id), markets, i)
  {
    assert TopicListed(s, markets, i) && TopicListed(s, markets, id);
  }

  lemma UnregisterKeepsConsistent(s: State, markets: set<string>, id: TopicId)
    requires Consistent(s, markets)
    ensures Consistent(AfterUnregister(s, id), markets)
  {
    var t := AfterUnregister(s, id);
    if id in s.topics {
      assert TopicListed(s, markets, id);
      forall i | i in t.topics ensures TopicListed(t, markets, i) {
        ListedAfterUnregister(s, markets, id, i);
      }
      forall k, h | h in Table(t, k) ensures EntryNamesTopic(t, k, h) {
        EntriesAfterUnregister(s, id, k, h);
      }
    }
  }

  lemma {:induction false} RunKeepsConsistent(s: State, ops: seq<Op>, markets: set<string>)
    requires Consistent(s, markets) && NoCollision(markets) && MarketsWithin(ops, markets) && DisciplinedRun(s, ops)
    ensures Consistent(Run(s, ops), markets)
    decreases |ops|
  {
    if ops != [] {
      match ops[0] {
        case RegisterOp(id, topic, market) => RegisterKeepsConsistent(s, markets, id, topic, market);
        case UnregisterOp(id) => UnregisterKeepsConsistent(s, markets, id);
      }
      RunKeepsConsistent(Apply(s, ops[0]), ops[1..], markets);
    }
  }

  /** The id registered for a market, if any. */
  ghost predicate RegisteredAs(s: State, kind: Kind, market: string, id: TopicId) {
    id in s.topics && s.topics[id] == Meta(kind, market)
  }

  /** A lookup finds exactly the registered id. */
  lemma LookupExact(s: State, markets: set<string>, kind: Kind, market: string)
    requires Consistent(s, markets) && NoCollision(markets) && market in markets
    ensures forall id: TopicId :: Lookup(s, kind, market) == Some(id) <==> RegisteredAs(s, kind, market, id)
  {
    if Hash(market) in Table(s, kind) {
      var id := Table(s, kind)[Hash(market)];
      assert EntryNamesTopic(s, kind, Hash(market)) && TopicListed(s, markets, id);
    }
    forall id: TopicId | RegisteredAs(s, kind, market, id) ensures Lookup(s, kind, market) == Some(id) {
      assert TopicListed(s, markets, id);
    }
  }

  // ---------------------------------------------------------------------
  // Well-formed updates

  /** The first occurrence of `key` is followed by a colon, whitespace and the
      string `value`. */
  ghost predicate HasField(s: string, key: string, gap: string, space: string, value: string) {
    var p := IndexFrom(s, key, 0);
    && p >= 0 && key != ""
    && (forall k :: 0 <= k < |gap| ==> gap[k] != ':') && Blank(space)
    && (forall k :: 0 <= k < |value| ==> value[k] != '"')
    && At(s, gap + (":" + (space + ("\"" + (value + "\"")))), p + |key|)
  }

  lemma QuotedAt(s: string, i: nat, value: string)
    requires At(s, "\"" + (value + "\""), i) && forall k :: 0 <= k < |value| ==> value[k] != '"'
    ensures i + 1 + |value| < |s| && s[i] == '"' && Find(s, i + 1, '"') == i + 1 + |value|
    ensures s[i + 1..i + 1 + |value|] == value
  {
    AtSplit(s, "\"", value + "\"", i);
    AtSplit(s, value, "\"", i + 1);
    AtChar(s, "\"", i, 0);
    AtChar(s, "\"", i + 1 + |value|, 0);
    QuoteBehind(s, i + 1, value);
  }

  lemma QuoteBehind(s: string, i: nat, value: string)
    requires At(s, value, i) && i + |value| < |s| && s[i + |value|] == '"'
    requires forall k :: 0 <= k < |value| ==> value[k] != '"'
    ensures Find(s, i, '"') == i + |value|
  {
    forall k | i <= k < i + |value| ensures s[k] != '"' { AtChar(s, value, i, k - i); }
    FindUnique(s, i, i + |value|, '"');
  }

  lemma StringFieldAt(s: string, key: string, i: nat, value: string)
    requires ValueStart(s, key) == Some(i) && At(s, "\"" + (value + "\""), i)
    requires forall k :: 0 <= k < |value| ==> value[k] != '"'
    ensures StringField(s, key) == Some(value)
  {
    QuotedAt(s, i, value);
  }

  lemma StringFieldExact(s: string, key: string, gap: string, space: string, value: string)
    requires HasField(s, key, gap, space, value)
    ensures StringField(s, key) == Some(value)
  {
    ValueStartExact(s, key, gap, space, "\"" + (value + "\""));
    StringFieldAt(s, key, ValueStart(s, key).value, value);
  }

  /** A depth update: the method, and the market as third parameter. */
  ghost predicate IsDepthUpdate(payload: string, market: string) {
    && (exists gap: string, space: string :: HasField(payload, KEY_METHOD, gap, space, DEPTH_UPDATE))
    && (exists gap: string, space: string, blank: string, es: seq<Element>, items: seq<Item> ::
          && HasParams(payload, gap, space, blank, es) && |es| > 2 && es[2].value == Str(items)
          && ItemsText(items) == market)
  }

  /** An order update: the method, and as second parameter an object with a
      `market` field. */
  ghost predicate IsOrderUpdate(payload: string, market: string) {
    && (exists gap: string, space: string :: HasField(payload, KEY_METHOD, gap, space, ORDER_UPDATE))
    && (exists gap: string, space: string, blank: string, es: seq<Element>, gap2: string, space2: string ::
          && HasParams(payload, gap, space, blank, es) && |es| > 1 && es[1].value.Obj?
          && HasField(Text(es[1].value), KEY_MARKET, gap2, space2, market))
  }

  lemma NotAt(s: string, text: string, i: nat, k: nat)
    requires k < |text| && (i + k < |s| ==> s[i + k] != text[k])
    ensures !At(s, text, i)
  {
    if i + |text| <= |s| { assert s[i..i + |text|][k] == s[i + k]; }
  }

  lemma DepthUpdateLooksUp(s: State, payload: string, spare: string, market: string)
    requires IsDepthUpdate(payload, market) && !IsAuthAck(s, payload)
    ensures Decode(s, payload, spare) == Resolved(Lookup(s, DepthKind, market))
  {
    var g: string, sp: string :| HasField(payload, KEY_METHOD, g, sp, DEPTH_UPDATE);
    StringFieldExact(payload, KEY_METHOD, g, sp, DEPTH_UPDATE);
    var gap: string, space: string, blank: string, es: seq<Element>, items: seq<Item> :| HasParams(payload, gap, space, blank, es) && |es| > 2
                                        && es[2].value == Str(items) && ItemsText(items) == market;
    ParamsStringExact(payload, gap, space, blank, es, 2);
  }

  lemma YieldOfObject(e: Element)
    requires e.value.Obj?
    ensures Yield(e) == Text(e.value)
  {
    assert Trailing(e.value, e.after) == "";
  }

  lemma FieldOf(text: string, gap: string, space: string, market: string)
    requires HasField(text, KEY_MARKET, gap, space, market)
    ensures StringField(text, KEY_MARKET) == Some(market)
  {
    StringFieldExact(text, KEY_MARKET, gap, space, market);
  }

  /** What an order update yields as its second parameter holds the market. */
  lemma OrderMarket(payload: string, market: string)
    requires IsOrderUpdate(payload, market)
    ensures ParamsValue(payload, 1).Found? && StringField(ParamsValue(payload, 1).text, KEY_MARKET) == Some(market)
  {
    var gap: string, space: string, blank: string, es: seq<Element>, gap2: string, space2: string :|
      HasParams(payload, gap, space, blank, es) && |es| > 1 && es[1].value.Obj?
      && HasField(Text(es[1].value), KEY_MARKET, gap2, space2, market);
    ParamsValueExact(payload, gap, space, blank, es, 1);
    YieldOfObject(es[1]);
    FieldOf(Text(es[1].value), gap2, space2, market);
  }

  lemma OrderUpdateLooksUp(s: State, payload: string, spare: string, market: string)
    requires IsOrderUpdate(payload, market) && !IsAuthAck(s, payload)
    ensures Decode(s, payload, spare) == Resolved(Lookup(s, OrderKind, market))
  {
    var g: string, sp: string :| HasField(payload, KEY_METHOD, g, sp, ORDER_UPDATE);
    StringFieldExact(payload, KEY_METHOD, g, sp, ORDER_UPDATE);
    OrderMarket(payload, market);
    assert DEPTH_UPDATE[0] != ORDER_UPDATE[0];
  }

  /** Topic resolution end to end.  After any disciplined run of registrations
      and removals, an update that is not an auth acknowledgement decodes to the
      id its market is registered under for its kind, and to none if it is not
      registered, whatever the buffer holds behind it. */
  lemma UpdatesResolve(ops: seq<Op>, auth: Option<Auth>, markets: set<string>, payload: string, spare: string, market: string)
    requires DisciplinedRun(State(map[], map[], map[], auth), ops)
    requires NoCollision(markets) && MarketsWithin(ops, markets) && market in markets
    requires !IsAuthAck(Run(State(map[], map[], map[], auth), ops), payload)
    ensures var s := Run(State(map[], map[], map[], auth), ops);
            && (IsDepthUpdate(payload, market) ==>
                  && Decode(s, payload, spare).Resolved?
                  && forall id: TopicId :: Decode(s, payload, spare).topic == Some(id) <==> RegisteredAs(s, DepthKind, market, id))
            && (IsOrderUpdate(payload, market) ==>
                  && Decode(s, payload, spare).Resolved?
                  && forall id: TopicId :: Decode(s, payload, spare).topic == Some(id) <==> RegisteredAs(s, OrderKind, market, id))
  {
    var start := State(map[], map[], map[], auth);
    var s := Run(start, ops);
    RunKeepsConsistent(start, ops, markets);
    if IsDepthUpdate(payload, market) {
      DepthUpdateLooksUp(s, payload, spare, market);
      LookupExact(s, markets, DepthKind, market);
    }
    if IsOrderUpdate(payload, market) {
      OrderUpdateLooksUp(s, payload, spare, market);
      LookupExact(s, markets, OrderKind, market);
    }
  }

  // ---------------------------------------------------------------------
  // Payloads that break off

  /** The parameter an update of this method is looked up by. */
  function MarketParam(m: string): Option<nat> {
    if m == DEPTH_UPDATE then Some(2) else if m == ORDER_UPDATE then Some(1) else None
  }

  /** The parameter the market comes from breaks off, in a payload of either
      method. */
  ghost predicate MarketBreaksOff(payload: string) {
    var m := StringField(payload, KEY_METHOD);
    m.Some? && MarketParam(m.value).Some? && ParamBreaksOff(payload, MarketParam(m.value).value)
  }

  lemma DecodeOfDepth(s: State, payload: string, spare: string)
    requires !IsAuthAck(s, payload) && StringField(payload, KEY_METHOD) == Some(DEPTH_UPDATE)
    ensures Decode(s, payload, spare).Panicked? <==> Sliced(ParamsValue(payload, 2), spare).Panics?
  {
  }

  lemma DecodeOfOrder(s: State, payload: string, spare: string)
    requires !IsAuthAck(s, payload) && StringField(payload, KEY_METHOD) == Some(ORDER_UPDATE)
    ensures var value := Sliced(ParamsValue(payload, 1), spare);
            Decode(s, payload, spare)
            == match value
               case Missed => Resolved(None)
               case Panics => Panicked
               case Got(text) =>
                 if StringField(text, KEY_MARKET).None? then Resolved(None)
                 else Resolved(Lookup(s, OrderKind, StringField(text, KEY_MARKET).value))
  {
    assert DEPTH_UPDATE[0] != ORDER_UPDATE[0];
  }

  lemma DecodeOfOther(s: State, payload: string, spare: string)
    requires IsAuthAck(s, payload) || StringField(payload, KEY_METHOD).None?
             || MarketParam(StringField(payload, KEY_METHOD).value).None?
    ensures Decode(s, payload, spare).Resolved?
  {
  }

  /** When `DecodeTopic` panics, for every state, payload and buffer: exactly when
      that parameter breaks off and the payload fills its buffer. */
  lemma DecodePanicsExactly(s: State, payload: string, spare: string)
    ensures Decode(s, payload, spare).Panicked?
       <==> spare == "" && !IsAuthAck(s, payload) && MarketBreaksOff(payload)
  {
    var m := StringField(payload, KEY_METHOD);
    if IsAuthAck(s, payload) || m.None? || MarketParam(m.value).None? {
      DecodeOfOther(s, payload, spare);
    } else if m.value == DEPTH_UPDATE {
      DecodeOfDepth(s, payload, spare);
      ParamsPanicExactly(payload, spare, 2);
    } else {
      DecodeOfOrder(s, payload, spare);
      ParamsPanicExactly(payload, spare, 1);
    }
  }

  lemma FieldExtends(value: string, x: char, key: string, gap: string, space: string, text: string)
    requires HasField(value, key, gap, space, text)
    ensures HasField(value + [x], key, gap, space, text)
  {
    FirstStays(value, x, key);
    KeepsAt(value, x, gap + (":" + (space + ("\"" + (text + "\"")))), IndexFrom(value, key, 0) + |key|);
  }

  lemma FirstStays(value: string, x: char, key: string)
    requires IndexFrom(value, key, 0) >= 0
    ensures IndexFrom(value + [x], key, 0) == IndexFrom(value, key, 0)
  {
    KeepsAt(value, x, key, IndexFrom(value, key, 0));
    KeepsAt(value, x, key, IndexFrom(value + [x], key, 0));
  }

  lemma KeepsAt(value: string, x: char, text: string, i: nat)
    ensures At(value, text, i) ==> At(value + [x], text, i)
    ensures At(value + [x], text, i) && i + |text| <= |value| ==> At(value, text, i)
  {
    if i + |text| <= |value| { assert (value + [x])[i..i + |text|] == value[i..i + |text|]; }
  }

  /** An order update cut off inside its second parameter, behind the market, is
      looked up all the same, or panics. */
  lemma CutOffOrder(s: State, payload: string, spare: string, gap: string, space: string, blank: string, first: Element,
                    before: string, value: string, gap2: string, space2: string, market: string)
    requires StringField(payload, KEY_METHOD) == Some(ORDER_UPDATE) && !IsAuthAck(s, payload)
    requires HasBrokenParams(payload, gap, space, blank, [first], before, value)
    requires HasField(value, KEY_MARKET, gap2, space2, market)
    ensures Decode(s, payload, spare) == if spare == "" then Panicked else Resolved(Lookup(s, OrderKind, market))
  {
    BrokenParamsExact(payload, gap, space, blank, [first], before, value, 1);
    DecodeOfOrder(s, payload, spare);
    if spare != "" { FieldOfLonger(value, spare[0], gap2, space2, market); }
  }

  lemma FieldOfLonger(value: string, x: char, gap: string, space: string, market: string)
    requires HasField(value, KEY_MARKET, gap, space, market)
    ensures StringField(value + [x], KEY_MARKET) == Some(market)
  {
    FieldExtends(value, x, KEY_MARKET, gap, space, market);
    FieldOf(value + [x], gap, space, market);
  }

  /** Why the discipline is needed: with one market registered under two ids,
      removing the first makes the second unreachable. */
  lemma DoubleRegistrationBreaks(market: string)
    requires market != ""
    ensures var s0 := State(map[], map[], map[], None);
            var s := Run(s0, [RegisterOp(1, TopicDepth, market), RegisterOp(2, TopicDepth, market), UnregisterOp(1)]);
            RegisteredAs(s, DepthKind, market, 2) && Lookup(s, DepthKind, market) == None
  {
    var s0 := State(map[], map[], map[], None);
    var ops := [RegisterOp(1, TopicDepth, market), RegisterOp(2, TopicDepth, market), UnregisterOp(1)];
    var s1 := Apply(s0, ops[0]);
    var s2 := Apply(s1, ops[1]);
    var s3 := Apply(s2, ops[2]);
    assert ops[1..][1..] == [ops[2]] && [ops[2]][1..] == [];
    assert Run(s2, [ops[2]]) == s3;
  }
}
