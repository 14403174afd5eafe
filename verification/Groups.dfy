/** Subscriptions across the layers: the group of bundle/internal/ingest/usecase.go
    with its codec, its manager and its router, as one value.  `Usecases` holds
    the group that works in place.

    Calls are taken one after another.  Whether the manager still runs and
    whether a control frame could be queued are part of a call. */
module Groups {
  import opened Types
  import opened Placement
  import opened Routers
  import BtccCodec

  type Id = TopicId

  /** `adapter.Symbol`; different symbols may have the same `String`. */
  datatype Symbol = Symbol(base: string, quote: string) {
    function String(): string { base + quote }
  }

  /** `topicKey` */
  datatype Key = Key(topic: BtccCodec.Topic, arg: string)

  /** `topicState` */
  datatype Entry = Entry(key: Key, symbol: Symbol, refCount: int)

  /** A group: `topics`, `topicsByID`, codec, manager, router, and the counter
      all groups draw their ids from. */
  datatype Group = Group(ids: map<Key, Id>, entries: map<Id, Entry>, codec: BtccCodec.State,
                         book: Book, routes: Routes, counter: nat)

  datatype Reply = Joined | Left | Invalid | Unregistered | NotRunning | NotSent | Unknown

  datatype Op =
    | Sub(topic: BtccCodec.Topic, symbol: Symbol, consumer: Consumer, live: bool, sent: bool)
    | Unsub(topic: BtccCodec.Topic, symbol: Symbol, consumer: Consumer)
    | Tick  // another group, or an API key, draws an id

  function KeyOf(op: Op): Key
    requires !op.Tick?
  {
    Key(op.topic, op.symbol.String())
  }

  // ---------------------------------------------------------------------
  // One call

  /** `ensureTopic` for a new key, with the id already drawn. */
  function Introduce(g: Group, op: Op, max: nat): (Group, Reply)
    requires op.Sub?
  {
    var id := g.counter;
    var key := KeyOf(op);
    var registered := BtccCodec.AfterRegister(g.codec, id, op.topic, key.arg);
    if op.topic == BtccCodec.OtherTopic || key.arg == "" then (g, Unregistered)
    else if !op.live then (g.(codec := BtccCodec.AfterUnregister(registered, id)), NotRunning)
    else
      var book := AfterSubscribe(g.book, id, max);
      if !op.sent then (g.(codec := BtccCodec.AfterUnregister(registered, id), book := book), NotSent)
      else
        (g.(ids := g.ids[key := id], entries := g.entries[id := Entry(key, op.symbol, 0)],
            codec := registered, book := book), Joined)
  }

  /** `ensureTopic` */
  function Ensure(g: Group, op: Op, max: nat): (Group, Reply)
    requires op.Sub?
  {
    if KeyOf(op) in g.ids then (g, Joined) else Introduce(g.(counter := g.counter + 1), op, max)
  }

  /** `AddConsumer` and the reference count, on a topic that is there. */
  function Join(g: Group, id: Id, c: Consumer): Group
    requires id in g.entries
  {
    var e := g.entries[id];
    g.(routes := AfterAdd(g.routes, id, c), entries := g.entries[id := e.(refCount := e.refCount + 1)])
  }

  /** `Subscribe` */
  function AfterSub(g: Group, op: Op, max: nat): (Group, Reply)
    requires op.Sub?
  {
    if op.topic == BtccCodec.OtherTopic then (g, Invalid)
    else
      var (h, reply) := Ensure(g, op, max);
      if reply != Joined then (h, reply)
      else
        var id := h.ids[KeyOf(op)];
        if id !in h.book.home || id !in h.entries then (h, Unknown) else (Join(h, id, op.consumer), Joined)
  }

  /** `RemoveConsumer` and the reference count. */
  function Leave(g: Group, id: Id, c: Consumer): Group
    requires id in g.entries
  {
    g.(routes := AfterRemove(g.routes, id, c),
       entries := g.entries[id := g.entries[id].(refCount := g.entries[id].refCount - 1)])
  }

  /** What follows when a topic is no longer used. */
  function Drop(g: Group, id: Id, key: Key): Group {
    g.(ids := g.ids - {key}, entries := g.entries - {id}, codec := BtccCodec.AfterUnregister(g.codec, id),
       book := AfterUnsubscribe(g.book, id),
       routes := if id in g.book.home then g.routes - {id} else g.routes)
  }

  /** `Unsubscribe` */
  function AfterUnsub(g: Group, op: Op): (Group, Reply)
    requires op.Unsub?
  {
    if op.topic == BtccCodec.OtherTopic then (g, Invalid)
    else
      var key := KeyOf(op);
      if key !in g.ids then (g, Unknown)
      else
        var id := g.ids[key];
        if id !in g.book.home || id !in g.entries then (g, Unknown)
        else
          var h := Leave(g, id, op.consumer);
          (if h.entries[id].refCount <= 0 then Drop(h, id, key) else h, Left)
  }

  function Step(g: Group, op: Op, max: nat): (Group, Reply) {
    match op
    case Sub(_, _, _, _, _) => AfterSub(g, op, max)
    case Unsub(_, _, _) => AfterUnsub(g, op)
    case Tick => (g.(counter := g.counter + 1), Joined)
  }

  /** `Resolve` */
  function Resolve(g: Group, id: Id): Option<(BtccCodec.Topic, Symbol)> {
    if id in g.entries then Some((g.entries[id].key.topic, g.entries[id].symbol)) else None
  }

  // ---------------------------------------------------------------------
  // Agreement

  type Metas = map<Id, BtccCodec.Meta>

  function MetaOf(key: Key): BtccCodec.Meta
    requires key.topic != BtccCodec.OtherTopic
  {
    BtccCodec.Meta(BtccCodec.KindOf(key.topic).value, key.arg)
  }

  /** An id known to the group: mapped back by its key, registered in the codec
      for that market, subscribed in the manager. */
  ghost predicate Known(ids: map<Key, Id>, e: Entry, metas: Metas, home: set<Id>, id: Id) {
    && e.key in ids && ids[e.key] == id
    && e.symbol.String() == e.key.arg && e.key.arg != "" && e.key.topic != BtccCodec.OtherTopic
    && id in metas && metas[id] == MetaOf(e.key)
    && id in home
  }

  ghost predicate KeyKnown(ids: map<Key, Id>, entries: map<Id, Entry>, key: Key)
    requires key in ids
  {
    ids[key] in entries && entries[ids[key]].key == key
  }

  /** `topics` and `topicsByID` are inverse to each other, and codec and manager
      know their ids. */
  ghost predicate Linked(ids: map<Key, Id>, entries: map<Id, Entry>, metas: Metas, home: set<Id>) {
    && (forall id :: id in entries ==> Known(ids, entries[id], metas, home, id))
    && (forall key :: key in ids ==> KeyKnown(ids, entries, key))
    && metas.Keys == entries.Keys
  }

  ghost predicate Routed(routes: Routes, entries: map<Id, Entry>) {
    routes.Keys <= entries.Keys && RoutesOk(routes)
  }

  ghost predicate Below(home: set<Id>, counter: nat) {
    forall id :: id in home ==> 1 <= id <= counter
  }

  /** The layers agree. */
  ghost predicate Agree(g: Group, max: nat) {
    && Linked(g.ids, g.entries, g.codec.topics, g.book.home.Keys)
    && Routed(g.routes, g.entries)
    && max > 0 && Placed(g.book, max)
    && Below(g.book.home.Keys, g.counter)
  }

  lemma RegisterThenForget(s: BtccCodec.State, id: Id, topic: BtccCodec.Topic, market: string)
    requires id !in s.topics
    ensures BtccCodec.AfterUnregister(BtccCodec.AfterRegister(s, id, topic, market), id).topics == s.topics
    ensures topic != BtccCodec.OtherTopic && market != "" ==>
              BtccCodec.AfterRegister(s, id, topic, market).topics == s.topics[id := MetaOf(Key(topic, market))]
  {
  }

  lemma SubscribeHomes(b: Book, id: Id, max: nat)
    ensures AfterSubscribe(b, id, max).home.Keys == b.home.Keys + {id}
  {
  }

  /** The manager may keep more. */
  lemma HomeGrows(ids: map<Key, Id>, entries: map<Id, Entry>, metas: Metas, home: set<Id>, more: set<Id>)
    requires Linked(ids, entries, metas, home) && home <= more
    ensures Linked(ids, entries, metas, more)
  {
    forall i | i in entries ensures Known(ids, entries[i], metas, more, i) {
      assert Known(ids, entries[i], metas, home, i);
    }
  }

  lemma EntryAdded(ids: map<Key, Id>, entries: map<Id, Entry>, metas: Metas, home: set<Id>, id: Id, e: Entry)
    requires Linked(ids, entries, metas, home) && e.key !in ids && id !in entries && id in home
    requires e.symbol.String() == e.key.arg != "" && e.key.topic != BtccCodec.OtherTopic
    ensures Linked(ids[e.key := id], entries[id := e], metas[id := MetaOf(e.key)], home)
  {
    var ids', entries', metas' := ids[e.key := id], entries[id := e], metas[id := MetaOf(e.key)];
    forall i | i in entries' ensures Known(ids', entries'[i], metas', home, i) {
      if i != id { assert Known(ids, entries[i], metas, home, i); }
    }
    forall key | key in ids' ensures KeyKnown(ids', entries', key) {
      if key != e.key { assert KeyKnown(ids, entries, key); }
    }
  }

  lemma EntryDropped(ids: map<Key, Id>, entries: map<Id, Entry>, metas: Metas, home: set<Id>, id: Id)
    requires Linked(ids, entries, metas, home) && id in entries
    ensures Linked(ids - {entries[id].key}, entries - {id}, metas - {id}, home - {id})
  {
    var ids', entries', metas', home' := ids - {entries[id].key}, entries - {id}, metas - {id}, home - {id};
    assert Known(ids, entries[id], metas, home, id);
    forall i | i in entries' ensures Known(ids', entries'[i], metas', home', i) {
      assert Known(ids, entries[i], metas, home, i);
    }
    forall key | key in ids' ensures KeyKnown(ids', entries', key) {
      assert KeyKnown(ids, entries, key);
    }
  }

  lemma EntryCounted(ids: map<Key, Id>, entries: map<Id, Entry>, metas: Metas, home: set<Id>, id: Id, refCount: int)
    requires Linked(ids, entries, metas, home) && id in entries
    ensures Linked(ids, entries[id := entries[id].(refCount := refCount)], metas, home)
  {
    var entries' := entries[id := entries[id].(refCount := refCount)];
    forall i | i in entries' ensures Known(ids, entries'[i], metas, home, i) {
      assert Known(ids, entries[i], metas, home, i);
    }
    forall key | key in ids ensures KeyKnown(ids, entries', key) {
      assert KeyKnown(ids, entries, key);
    }
  }

  lemma IntroduceAgrees(g: Group, op: Op, max: nat)
    requires op.Sub? && Agree(g, max) && KeyOf(op) !in g.ids && g.counter !in g.entries && g.counter >= 1
    ensures Agree(Introduce(g, op, max).0, max)
  {
    var id := g.counter;
    var book := AfterSubscribe(g.book, id, max);
    SubscribeKeepsPlaced(g.book, id, max);
    SubscribeHomes(g.book, id, max);
    RegisterThenForget(g.codec, id, op.topic, op.symbol.String());
    HomeGrows(g.ids, g.entries, g.codec.topics, g.book.home.Keys, book.home.Keys);
    if op.topic != BtccCodec.OtherTopic && op.symbol.String() != "" {
      EntryAdded(g.ids, g.entries, g.codec.topics, book.home.Keys, id, Entry(KeyOf(op), op.symbol, 0));
    }
  }

  lemma TickAgrees(g: Group, max: nat)
    requires Agree(g, max)
    ensures Agree(g.(counter := g.counter + 1), max) && g.counter + 1 !in g.book.home && g.counter + 1 !in g.entries
  {
    EntriesAtHome(g, max);
  }

  lemma EntriesAtHome(g: Group, max: nat)
    requires Agree(g, max)
    ensures g.entries.Keys <= g.book.home.Keys
  {
    forall id | id in g.entries ensures id in g.book.home {
      assert Known(g.ids, g.entries[id], g.codec.topics, g.book.home.Keys, id);
    }
  }

  lemma EnsureAgrees(g: Group, op: Op, max: nat)
    requires op.Sub? && Agree(g, max)
    ensures Agree(Ensure(g, op, max).0, max)
    ensures Ensure(g, op, max).1 == Joined ==> KeyOf(op) in Ensure(g, op, max).0.ids
  {
    JoinedIsThere(g, op, max);
    EnsureIs(g, op, max);
    if KeyOf(op) !in g.ids { NewTopicAgrees(g, op, max); }
  }

  lemma EnsureIs(g: Group, op: Op, max: nat)
    requires op.Sub?
    ensures KeyOf(op) in g.ids ==> Ensure(g, op, max).0 == g
    ensures KeyOf(op) !in g.ids ==> Ensure(g, op, max).0 == Introduce(g.(counter := g.counter + 1), op, max).0
  {
  }

  lemma JoinedIsThere(g: Group, op: Op, max: nat)
    requires op.Sub?
    ensures Ensure(g, op, max).1 == Joined ==> KeyOf(op) in Ensure(g, op, max).0.ids
  {
    EnsureParts(g, op, max);
  }

  lemma NewTopicAgrees(g: Group, op: Op, max: nat)
    requires op.Sub? && Agree(g, max) && KeyOf(op) !in g.ids
    ensures Agree(Introduce(g.(counter := g.counter + 1), op, max).0, max)
  {
    TickAgrees(g, max);
    IntroduceAgrees(g.(counter := g.counter + 1), op, max);
  }

  lemma DropAgrees(g: Group, id: Id, max: nat)
    requires Agree(g, max) && id in g.entries
    ensures Agree(Drop(g, id, g.entries[id].key), max)
  {
    UnsubscribeKeepsPlaced(g.book, id, max);
    assert AfterUnsubscribe(g.book, id).home == g.book.home - {id};
    assert BtccCodec.AfterUnregister(g.codec, id).topics == g.codec.topics - {id};
    EntryDropped(g.ids, g.entries, g.codec.topics, g.book.home.Keys, id);
    assert Known(g.ids, g.entries[id], g.codec.topics, g.book.home.Keys, id);
  }

  /** Reference counts and routes may change, the topics staying. */
  lemma CountsAgree(g: Group, id: Id, refCount: int, h: Group, max: nat)
    requires Agree(g, max) && id in g.entries && RoutesOk(h.routes) && h.routes.Keys <= g.entries.Keys
    requires h.entries == g.entries[id := g.entries[id].(refCount := refCount)]
    requires h.ids == g.ids && h.codec == g.codec && h.book == g.book && h.counter == g.counter
    ensures Agree(h, max)
  {
    EntryCounted(g.ids, g.entries, g.codec.topics, g.book.home.Keys, id, refCount);
  }

  lemma JoinAgrees(g: Group, id: Id, c: Consumer, max: nat)
    requires Agree(g, max) && id in g.entries
    ensures Agree(Join(g, id, c), max)
  {
    AddKeepsRoutes(g.routes, id, c);
    CountsAgree(g, id, g.entries[id].refCount + 1, Join(g, id, c), max);
  }

  lemma LeaveAgrees(g: Group, id: Id, c: Consumer, max: nat)
    requires Agree(g, max) && id in g.entries
    ensures Agree(Leave(g, id, c), max)
  {
    RemoveKeepsRoutes(g.routes, id, c);
    CountsAgree(g, id, g.entries[id].refCount - 1, Leave(g, id, c), max);
  }

  lemma IdOfKey(g: Group, key: Key, max: nat)
    requires Agree(g, max) && key in g.ids
    ensures g.ids[key] in g.entries && g.ids[key] in g.book.home && g.entries[g.ids[key]].key == key
  {
    assert KeyKnown(g.ids, g.entries, key);
    assert Known(g.ids, g.entries[g.ids[key]], g.codec.topics, g.book.home.Keys, g.ids[key]);
  }

  /** Every call keeps the layers in agreement, whether it succeeds or fails. */
  lemma StepAgrees(g: Group, op: Op, max: nat)
    requires Agree(g, max)
    ensures Agree(Step(g, op, max).0, max)
  {
    match op {
      case Sub(_, _, c, _, _) =>
        EnsureAgrees(g, op, max);
        var (h, reply) := Ensure(g, op, max);
        if op.topic != BtccCodec.OtherTopic && reply == Joined {
          IdOfKey(h, KeyOf(op), max);
          JoinAgrees(h, h.ids[KeyOf(op)], c, max);
        }
      case Unsub(_, _, c) =>
        if op.topic != BtccCodec.OtherTopic && KeyOf(op) in g.ids {
          var id := g.ids[KeyOf(op)];
          IdOfKey(g, KeyOf(op), max);
          LeaveAgrees(g, id, c, max);
          DropAgrees(Leave(g, id, c), id, max);
        }
      case Tick => TickAgrees(g, max);
    }
  }

  // ---------------------------------------------------------------------
  // Reference counts and deliveries

  /** The reference count of a topic is the number of consumers its frames go
      to, and a topic nobody wants is gone. */
  ghost predicate Counted(g: Group) {
    forall id :: id in g.entries ==> g.entries[id].refCount == |Receivers(g.routes, id)| >= 1
  }

  /** Frames of the topic with this key go to `c`. */
  predicate Receives(g: Group, key: Key, c: Consumer) {
    key in g.ids && c in Receivers(g.routes, g.ids[key])
  }

  /** A call that subscribes nobody twice and unsubscribes only who is subscribed. */
  predicate Orderly(g: Group, op: Op) {
    match op
    case Sub(_, _, c, _, _) => !Receives(g, KeyOf(op), c)
    case Unsub(_, _, c) => KeyOf(op) in g.ids ==> Receives(g, KeyOf(op), c)
    case Tick => true
  }

  ghost predicate SameBut(g: Group, h: Group, key: Key, c: Consumer) {
    forall k, d :: k != key || d != c ==> (Receives(h, k, d) <==> Receives(g, k, d))
  }

  ghost predicate Injective(ids: map<Key, Id>) {
    forall a, b :: a in ids && b in ids && ids[a] == ids[b] ==> a == b
  }

  lemma LinkedIsInjective(g: Group, max: nat)
    requires Agree(g, max)
    ensures Injective(g.ids) && RoutesOk(g.routes)
    ensures forall key :: key in g.ids ==> key.topic != BtccCodec.OtherTopic
  {
    forall key | key in g.ids
      ensures g.ids[key] in g.entries && g.entries[g.ids[key]].key == key && key.topic != BtccCodec.OtherTopic
    {
      IdOfKey(g, key, max);
    }
  }

  lemma JoinDelivers(g: Group, key: Key, c: Consumer)
    requires Injective(g.ids) && RoutesOk(g.routes) && key in g.ids && g.ids[key] in g.entries
    ensures forall k, d :: Receives(Join(g, g.ids[key], c), k, d) <==> Receives(g, k, d) || (k == key && d == c)
  {
    AddReceives(g.routes, g.ids[key], c);
  }

  lemma LeaveDelivers(g: Group, key: Key, c: Consumer)
    requires Injective(g.ids) && RoutesOk(g.routes) && key in g.ids && g.ids[key] in g.entries
    ensures forall k, d :: Receives(Leave(g, g.ids[key], c), k, d) <==> Receives(g, k, d) && !(k == key && d == c)
  {
    RemoveForgets(g.routes, g.ids[key], c);
  }

  lemma DropDelivers(g: Group, key: Key)
    requires Injective(g.ids) && key in g.ids && g.ids[key] in g.book.home
    ensures forall k, d :: Receives(Drop(g, g.ids[key], key), k, d) <==> Receives(g, k, d) && k != key
  {
    var h := Drop(g, g.ids[key], key);
    assert h.ids == g.ids - {key} && h.routes == g.routes - {g.ids[key]};
    forall k | k in h.ids ensures Receivers(h.routes, h.ids[k]) == Receivers(g.routes, g.ids[k]) {
      OtherList(g.routes, g.ids[key], g.ids[k]);
    }
  }

  lemma OtherList(routes: Routes, id: Id, other: Id)
    requires other != id
    ensures Receivers(routes - {id}, other) == Receivers(routes, other)
  {
  }

  /** A topic just introduced has no receivers yet. */
  lemma EnsureDelivers(g: Group, op: Op, max: nat)
    requires op.Sub? && Agree(g, max)
    ensures var h := Ensure(g, op, max).0;
            && h.routes == g.routes && forall k, d :: Receives(h, k, d) <==> Receives(g, k, d)
  {
    TickAgrees(g, max);
    EnsureParts(g, op, max);
    NewTopicHasNoReceivers(g.routes, g.entries, g.counter + 1);
  }

  lemma NewTopicHasNoReceivers(routes: Routes, entries: map<Id, Entry>, id: Id)
    requires Routed(routes, entries) && id !in entries
    ensures Receivers(routes, id) == {}
  {
    assert ListOf(routes, id) == [];
  }

  /** What `Ensure` may change. */
  lemma EnsureParts(g: Group, op: Op, max: nat)
    requires op.Sub?
    ensures var (h, reply) := Ensure(g, op, max);
            && h.routes == g.routes
            && (h.ids, h.entries) == if reply == Joined && KeyOf(op) !in g.ids
                                     then (g.ids[KeyOf(op) := g.counter + 1],
                                           g.entries[g.counter + 1 := Entry(KeyOf(op), op.symbol, 0)])
                                     else (g.ids, g.entries)
  {
  }

  lemma JoinCounts(g: Group, key: Key, c: Consumer)
    requires RoutesOk(g.routes) && key in g.ids && g.ids[key] in g.entries
    requires var id := g.ids[key];
             && g.entries[id].refCount == |Receivers(g.routes, id)|
             && forall i :: i in g.entries && i != id ==> g.entries[i].refCount == |Receivers(g.routes, i)| >= 1
    ensures Counted(Join(g, g.ids[key], c)) <==> !Receives(g, key, c)
  {
    var id := g.ids[key];
    var h := Join(g, id, c);
    AddReceives(g.routes, id, c);
    assert Receivers(h.routes, id) == Receivers(g.routes, id) + {c};
    if Receives(g, key, c) {
      assert Receivers(h.routes, id) == Receivers(g.routes, id);
      assert h.entries[id].refCount != |Receivers(h.routes, id)|;
    }
  }

  lemma EnsureCounts(g: Group, op: Op, max: nat)
    requires op.Sub? && Agree(g, max) && Counted(g)
    ensures var (h, reply) := Ensure(g, op, max);
            if reply == Joined && KeyOf(op) !in g.ids then
              var id := g.counter + 1;
              && id in h.entries && h.ids[KeyOf(op)] == id && h.entries[id].refCount == 0 == |Receivers(h.routes, id)|
              && forall i :: i in h.entries && i != id ==> h.entries[i].refCount == |Receivers(h.routes, i)| >= 1
            else Counted(h)
  {
    TickAgrees(g, max);
    EnsureParts(g, op, max);
    NewTopicHasNoReceivers(g.routes, g.entries, g.counter + 1);
  }

  /** Subscribing keeps the counts exactly when it is orderly. */
  lemma SubCounts(g: Group, op: Op, max: nat)
    requires op.Sub? && Agree(g, max) && Counted(g)
    ensures Counted(AfterSub(g, op, max).0) <==> Orderly(g, op)
  {
    EnsureAgrees(g, op, max);
    EnsureDelivers(g, op, max);
    EnsureCounts(g, op, max);
    var (h, reply) := Ensure(g, op, max);
    LinkedIsInjective(h, max);
    if op.topic != BtccCodec.OtherTopic && reply == Joined {
      IdOfKey(h, KeyOf(op), max);
      JoinCounts(h, KeyOf(op), op.consumer);
    }
  }

  lemma SubDelivers(g: Group, op: Op, max: nat)
    requires op.Sub? && Agree(g, max)
    ensures SameBut(g, AfterSub(g, op, max).0, KeyOf(op), op.consumer)
  {
    EnsureAgrees(g, op, max);
    EnsureDelivers(g, op, max);
    var (h, reply) := Ensure(g, op, max);
    LinkedIsInjective(h, max);
    if op.topic != BtccCodec.OtherTopic && reply == Joined {
      IdOfKey(h, KeyOf(op), max);
      JoinDelivers(h, KeyOf(op), op.consumer);
    }
  }

  lemma DropCounts(g: Group, id: Id, key: Key)
    requires id in g.book.home
    requires forall i :: i in g.entries && i != id ==> g.entries[i].refCount == |Receivers(g.routes, i)| >= 1
    ensures Counted(Drop(g, id, key))
  {
    var h := Drop(g, id, key);
    assert h.routes == g.routes - {id} && h.entries == g.entries - {id};
    forall i | i in h.entries ensures h.entries[i].refCount == |Receivers(h.routes, i)| >= 1 {
      OtherList(g.routes, id, i);
    }
  }

  lemma LeaveCounts(g: Group, id: Id, c: Consumer)
    requires RoutesOk(g.routes) && Counted(g) && id in g.entries
    ensures var h := Leave(g, id, c);
            && Receivers(h.routes, id) == Receivers(g.routes, id) - {c}
            && (h.entries[id].refCount == |Receivers(h.routes, id)| <==> c in Receivers(g.routes, id))
            && forall i :: i in h.entries && i != id ==> h.entries[i].refCount == |Receivers(h.routes, i)| >= 1
  {
    RemoveForgets(g.routes, id, c);
    OneLess(Receivers(g.routes, id), c);
  }

  lemma OneLess<T>(a: set<T>, x: T)
    ensures |a - {x}| == |a| - (if x in a then 1 else 0)
  {
    if x in a { assert a == (a - {x}) + {x}; } else { assert a - {x} == a; }
  }

  /** An orderly unsubscribe keeps the counts and takes frames from nobody else.
      The last consumer takes the topic along. */
  lemma OrderlyUnsub(g: Group, op: Op, max: nat)
    requires op.Unsub? && Agree(g, max) && Counted(g) && Orderly(g, op)
    ensures var h := AfterUnsub(g, op).0;
            && Counted(h) && SameBut(g, h, KeyOf(op), op.consumer) && !Receives(h, KeyOf(op), op.consumer)
            && (KeyOf(op) in g.ids ==> AfterUnsub(g, op).1 == Left)
  {
    LinkedIsInjective(g, max);
    var key := KeyOf(op);
    if key in g.ids {
      var id := g.ids[key];
      var h := Leave(g, id, op.consumer);
      IdOfKey(g, key, max);
      UnsubParts(g, op);
      LeaveCounts(g, id, op.consumer);
      LeaveDelivers(g, key, op.consumer);
      if h.entries[id].refCount <= 0 { LastLeaves(h, id, key); }
    }
  }

  lemma UnsubParts(g: Group, op: Op)
    requires op.Unsub? && op.topic != BtccCodec.OtherTopic && KeyOf(op) in g.ids
    requires g.ids[KeyOf(op)] in g.book.home && g.ids[KeyOf(op)] in g.entries
    ensures var id := g.ids[KeyOf(op)];
            var h := Leave(g, id, op.consumer);
            AfterUnsub(g, op) == (if h.entries[id].refCount <= 0 then Drop(h, id, KeyOf(op)) else h, Left)
  {
  }

  lemma LastLeaves(h: Group, id: Id, key: Key)
    requires Injective(h.ids) && key in h.ids && h.ids[key] == id && id in h.entries && id in h.book.home
    requires h.entries[id].refCount == |Receivers(h.routes, id)| <= 0
    requires forall i :: i in h.entries && i != id ==> h.entries[i].refCount == |Receivers(h.routes, i)| >= 1
    ensures Counted(Drop(h, id, key))
    ensures forall k, d :: Receives(Drop(h, id, key), k, d) <==> Receives(h, k, d)
  {
    assert Receivers(h.routes, id) == {};
    DropCounts(h, id, key);
    DropDelivers(h, key);
  }

  /** A disorderly one breaks the count, or cuts off the topic's last consumer. */
  lemma DisorderlyUnsub(g: Group, op: Op, max: nat)
    requires op.Unsub? && Agree(g, max) && Counted(g) && !Orderly(g, op)
    ensures var h := AfterUnsub(g, op).0; !Counted(h) || !SameBut(g, h, KeyOf(op), op.consumer)
  {
    LinkedIsInjective(g, max);
    var key := KeyOf(op);
    var id := g.ids[key];
    var h := Leave(g, id, op.consumer);
    IdOfKey(g, key, max);
    LeaveCounts(g, id, op.consumer);
    if h.entries[id].refCount <= 0 {
      DropDelivers(h, key);
      var other :| other in Receivers(g.routes, id);
      assert Receives(g, key, other) && !Receives(AfterUnsub(g, op).0, key, other);
    } else {
      assert h.entries[id].refCount != |Receivers(h.routes, id)|;
    }
  }

  /** A call keeps the reference counts right and everybody else's frames coming
      exactly when it is orderly. */
  lemma OrderlyExactly(g: Group, op: Op, max: nat)
    requires Agree(g, max) && Counted(g) && !op.Tick?
    ensures var h := Step(g, op, max).0;
            Counted(h) && SameBut(g, h, KeyOf(op), op.consumer) <==> Orderly(g, op)
  {
    if op.Sub? {
      SubCounts(g, op, max);
      SubDelivers(g, op, max);
    } else if Orderly(g, op) {
      OrderlyUnsub(g, op, max);
    } else {
      DisorderlyUnsub(g, op, max);
    }
  }

  // ---------------------------------------------------------------------
  // Runs, as the consumers see them

  type Wishes = set<(Key, Consumer)>

  /** Who is subscribed to what, from the calls and their replies alone. */
  function NextWishes(w: Wishes, op: Op, reply: Reply): Wishes {
    match op
    case Sub(_, _, c, _, _) => if reply == Joined then w + {(KeyOf(op), c)} else w
    case Unsub(_, _, c) => if reply == Left then w - {(KeyOf(op), c)} else w
    case Tick => w
  }

  /** Nobody subscribes to a key twice, or unsubscribes from what it does not hold. */
  predicate Polite(w: Wishes, op: Op) {
    match op
    case Sub(_, _, c, _, _) => (KeyOf(op), c) !in w
    case Unsub(_, _, c) => (KeyOf(op), c) in w
    case Tick => true
  }

  datatype World = World(group: Group, wishes: Wishes, failed: nat)

  function Next(s: World, op: Op, max: nat): World {
    var (h, reply) := Step(s.group, op, max);
    World(h, NextWishes(s.wishes, op, reply), if reply == NotSent then s.failed + 1 else s.failed)
  }

  function Run(s: World, ops: seq<Op>, max: nat): World
    decreases |ops|
  {
    if ops == [] then s else Run(Next(s, ops[0], max), ops[1..], max)
  }

  ghost predicate PoliteRun(s: World, ops: seq<Op>, max: nat)
    decreases |ops|
  {
    ops == [] || (Polite(s.wishes, ops[0]) && PoliteRun(Next(s, ops[0], max), ops[1..], max))
  }

  ghost predicate Served(s: World) {
    forall k: Key, c: Consumer :: Receives(s.group, k, c) <==> (k, c) in s.wishes
  }

  lemma SubServes(s: World, op: Op, max: nat)
    requires op.Sub? && Agree(s.group, max) && Counted(s.group) && Served(s) && Polite(s.wishes, op)
    ensures Counted(Next(s, op, max).group) && Served(Next(s, op, max))
  {
    var g := s.group;
    assert !Receives(g, KeyOf(op), op.consumer);
    SubCounts(g, op, max);
    SubReceives(g, op, max);
  }

  lemma SubReceives(g: Group, op: Op, max: nat)
    requires op.Sub? && Agree(g, max)
    ensures forall k, d :: Receives(AfterSub(g, op, max).0, k, d) <==>
              Receives(g, k, d) || (AfterSub(g, op, max).1 == Joined && k == KeyOf(op) && d == op.consumer)
  {
    EnsureAgrees(g, op, max);
    EnsureDelivers(g, op, max);
    var (h, reply) := Ensure(g, op, max);
    LinkedIsInjective(h, max);
    if op.topic != BtccCodec.OtherTopic && reply == Joined {
      IdOfKey(h, KeyOf(op), max);
      JoinDelivers(h, KeyOf(op), op.consumer);
    }
  }

  lemma UnsubServes(s: World, op: Op, max: nat)
    requires op.Unsub? && Agree(s.group, max) && Counted(s.group) && Served(s) && Polite(s.wishes, op)
    ensures Counted(Next(s, op, max).group) && Served(Next(s, op, max))
  {
    var g := s.group;
    assert Receives(g, KeyOf(op), op.consumer);
    UnsubReceives(g, op, max);
    Withdrawn(s, AfterUnsub(g, op).0, KeyOf(op), op.consumer);
  }

  lemma Withdrawn(s: World, h: Group, key: Key, c: Consumer)
    requires Served(s)
    requires forall k, d :: Receives(h, k, d) <==> Receives(s.group, k, d) && !(k == key && d == c)
    ensures Served(World(h, s.wishes - {(key, c)}, s.failed))
  {
  }

  lemma UnsubReceives(g: Group, op: Op, max: nat)
    requires op.Unsub? && Agree(g, max) && Counted(g) && Receives(g, KeyOf(op), op.consumer)
    ensures AfterUnsub(g, op).1 == Left && Counted(AfterUnsub(g, op).0)
    ensures forall k, d :: Receives(AfterUnsub(g, op).0, k, d) <==>
              Receives(g, k, d) && !(k == KeyOf(op) && d == op.consumer)
  {
    OrderlyUnsub(g, op, max);
    var h := AfterUnsub(g, op).0;
    forall k: Key, d: Consumer
      ensures Receives(h, k, d) <==> Receives(g, k, d) && !(k == KeyOf(op) && d == op.consumer)
    {
      if k != KeyOf(op) || d != op.consumer { assert Receives(h, k, d) <==> Receives(g, k, d); }
    }
  }

  /** The group behind a fresh manager, for a connection with this auth. */
  function Fresh(auth: Option<BtccCodec.Auth>, counter: nat): World {
    World(Group(map[], map[], BtccCodec.State(map[], map[], map[], auth), EMPTY, map[], counter), {}, 0)
  }

  lemma {:induction false} RunServes(s: World, ops: seq<Op>, max: nat)
    requires Agree(s.group, max) && Counted(s.group) && Served(s) && PoliteRun(s, ops, max)
    ensures Agree(Run(s, ops, max).group, max) && Counted(Run(s, ops, max).group) && Served(Run(s, ops, max))
    decreases |ops|
  {
    if ops != [] {
      var op := ops[0];
      StepAgrees(s.group, op, max);
      match op {
        case Sub(_, _, _, _, _) => SubServes(s, op, max);
        case Unsub(_, _, _) => UnsubServes(s, op, max);
        case Tick => assert Next(s, op, max).wishes == s.wishes;
      }
      RunServes(Next(s, op, max), ops[1..], max);
    }
  }

  /** Cross-layer agreement.  After every polite run, with any mix of failed
      subscribes, the layers agree, and exactly the consumers that subscribed to
      a key and have not left receive its frames; the reference count is the
      length of the router's list of them. */
  lemma LayersAgree(auth: Option<BtccCodec.Auth>, counter: nat, ops: seq<Op>, max: nat)
    requires max > 0 && PoliteRun(Fresh(auth, counter), ops, max)
    ensures var s := Run(Fresh(auth, counter), ops, max);
            && Agree(s.group, max)
            && (forall id :: id in s.group.entries ==>
                  s.group.entries[id].refCount == |ListOf(s.group.routes, id)| >= 1)
            && (forall key, c: Consumer :: Receives(s.group, key, c) <==> (key, c) in s.wishes)
  {
    var s := Fresh(auth, counter);
    assert Served(s) && Counted(s.group);
    RunServes(s, ops, max);
    CountIsLength(Run(s, ops, max).group);
  }

  lemma CountIsLength(g: Group)
    requires RoutesOk(g.routes) && Counted(g)
    ensures forall id :: id in g.entries ==> g.entries[id].refCount == |ListOf(g.routes, id)| >= 1
  {
    forall id | id in g.entries ensures g.entries[id].refCount == |ListOf(g.routes, id)| >= 1 {
      DistinctCount(ListOf(g.routes, id));
    }
  }

  /** Without politeness the layers still agree on which topics there are. */
  lemma {:induction false} RunAgrees(s: World, ops: seq<Op>, max: nat)
    requires Agree(s.group, max)
    ensures Agree(Run(s, ops, max).group, max)
    decreases |ops|
  {
    if ops != [] {
      StepAgrees(s.group, ops[0], max);
      RunAgrees(Next(s, ops[0], max), ops[1..], max);
    }
  }

  // ---------------------------------------------------------------------
  // Topics left behind

  /** Topics the manager keeps subscribing to although the group gave them up. */
  function Leaked(g: Group): set<Id> {
    g.book.home.Keys - g.entries.Keys
  }

  /** Joining changes neither the codec, nor the manager, nor which ids there are. */
  lemma JoinTouches(g: Group, op: Op, max: nat)
    requires op.Sub? && op.topic != BtccCodec.OtherTopic && Agree(g, max)
    ensures var h := Ensure(g, op, max).0;
            var r := AfterSub(g, op, max);
            && r.0.codec == h.codec && r.0.book == h.book && r.0.entries.Keys == h.entries.Keys
            && (r.1 == NotSent <==> Ensure(g, op, max).1 == NotSent)
  {
    EnsureAgrees(g, op, max);
    var (h, reply) := Ensure(g, op, max);
    if reply == Joined { JoinKeeps(h, h.ids[KeyOf(op)], op.consumer); }
  }

  lemma JoinKeeps(g: Group, id: Id, c: Consumer)
    ensures id in g.entries ==>
              var h := Join(g, id, c); h.codec == g.codec && h.book == g.book && h.entries.Keys == g.entries.Keys
  {
  }

  lemma EnsureHome(g: Group, op: Op, max: nat, t: Id)
    requires op.Sub? && Agree(g, max) && t in g.book.home
    ensures t in Ensure(g, op, max).0.book.home && Ensure(g, op, max).0.book.home[t] == g.book.home[t]
  {
    EnsureBook(g, op, max);
    PlaceHome(g.book, g.counter + 1, max, t);
  }

  lemma EnsureBook(g: Group, op: Op, max: nat)
    requires op.Sub?
    ensures var (h, reply) := Ensure(g, op, max);
            h.book == if (reply == Joined && KeyOf(op) !in g.ids) || reply == NotSent
                      then AfterSubscribe(g.book, g.counter + 1, max) else g.book
  {
  }

  lemma EnsureLeaks(g: Group, op: Op, max: nat)
    requires op.Sub? && op.topic != BtccCodec.OtherTopic
    requires g.counter + 1 !in g.entries && g.counter + 1 !in g.book.home
    ensures var (h, reply) := Ensure(g, op, max);
            Leaked(h) == Leaked(g) + (if reply == NotSent then {g.counter + 1} else {})
  {
    EnsureBook(g, op, max);
    EnsureParts(g, op, max);
    SubscribeHomes(g.book, g.counter + 1, max);
  }

  lemma DropLeaks(g: Group, id: Id, key: Key)
    requires id in g.entries
    ensures Leaked(Drop(g, id, key)) == Leaked(g)
  {
    assert AfterUnsubscribe(g.book, id).home == g.book.home - {id};
  }

  lemma LeaveLeaks(g: Group, id: Id, c: Consumer)
    requires id in g.entries
    ensures Leaked(Leave(g, id, c)) == Leaked(g)
  {
    assert Leave(g, id, c).entries.Keys == g.entries.Keys;
  }

  /** A call leaves a topic behind exactly when the manager could not send its
      subscribe frame; no call takes one back. */
  lemma StepLeaks(g: Group, op: Op, max: nat)
    requires Agree(g, max)
    ensures Leaked(Step(g, op, max).0)
         == Leaked(g) + (if Step(g, op, max).1 == NotSent then {g.counter + 1} else {})
  {
    match op {
      case Sub(_, _, _, _, _) =>
        TickAgrees(g, max);
        if op.topic != BtccCodec.OtherTopic {
          JoinTouches(g, op, max);
          EnsureLeaks(g, op, max);
        }
      case Unsub(_, _, c) => UnsubLeaks(g, op, max);
      case Tick =>
    }
  }

  lemma UnsubLeaks(g: Group, op: Op, max: nat)
    requires op.Unsub? && Agree(g, max)
    ensures Leaked(AfterUnsub(g, op).0) == Leaked(g)
  {
    if op.topic != BtccCodec.OtherTopic && KeyOf(op) in g.ids {
      var id := g.ids[KeyOf(op)];
      IdOfKey(g, KeyOf(op), max);
      LeaveLeaks(g, id, op.consumer);
      DropLeaks(Leave(g, id, op.consumer), id, KeyOf(op));
    }
  }

  lemma DropHome(g: Group, id: Id, key: Key, t: Id)
    requires t in g.book.home && t != id
    ensures t in Drop(g, id, key).book.home && Drop(g, id, key).book.home[t] == g.book.home[t]
  {
  }

  lemma PlaceHome(b: Book, id: Id, max: nat, t: Id)
    requires t in b.home && t != id
    ensures t in AfterSubscribe(b, id, max).home && AfterSubscribe(b, id, max).home[t] == b.home[t]
  {
  }

  lemma SubHome(g: Group, op: Op, max: nat, t: Id)
    requires op.Sub? && Agree(g, max) && t in g.book.home
    ensures t in AfterSub(g, op, max).0.book.home && AfterSub(g, op, max).0.book.home[t] == g.book.home[t]
  {
    if op.topic != BtccCodec.OtherTopic {
      JoinTouches(g, op, max);
      EnsureHome(g, op, max, t);
    }
  }

  lemma UnsubHome(g: Group, op: Op, max: nat, t: Id)
    requires op.Unsub? && Agree(g, max) && t in Leaked(g)
    ensures t in AfterUnsub(g, op).0.book.home && AfterUnsub(g, op).0.book.home[t] == g.book.home[t]
  {
    if op.topic != BtccCodec.OtherTopic && KeyOf(op) in g.ids {
      var id := g.ids[KeyOf(op)];
      IdOfKey(g, KeyOf(op), max);
      DropHome(Leave(g, id, op.consumer), id, KeyOf(op), t);
    }
  }

  /** A topic left behind keeps its session. */
  lemma HomeStays(g: Group, op: Op, max: nat, t: Id)
    requires Agree(g, max) && t in Leaked(g)
    ensures t in Step(g, op, max).0.book.home && Step(g, op, max).0.book.home[t] == g.book.home[t]
  {
    match op {
      case Sub(_, _, _, _, _) => SubHome(g, op, max, t);
      case Unsub(_, _, _) => UnsubHome(g, op, max, t);
      case Tick =>
    }
  }

  /** The auth topic, drawn from the same counter, is no subscription. */
  ghost predicate AuthApart(g: Group) {
    g.codec.auth.Some? ==> g.codec.auth.value.topic <= g.counter && g.codec.auth.value.topic !in g.book.home
  }

  lemma DropTouchesHome(g: Group, id: Id, key: Key)
    ensures Drop(g, id, key).book.home.Keys <= g.book.home.Keys && Drop(g, id, key).codec.auth == g.codec.auth
    ensures Drop(g, id, key).counter == g.counter
  {
  }

  lemma StepAuthApart(g: Group, op: Op, max: nat)
    requires Agree(g, max) && AuthApart(g)
    ensures AuthApart(Step(g, op, max).0) && Step(g, op, max).0.codec.auth == g.codec.auth
  {
    match op {
      case Sub(topic, _, _, _, _) =>
        if topic != BtccCodec.OtherTopic {
          JoinTouches(g, op, max);
          EnsureAuthApart(g, op, max);
        }
      case Unsub(_, _, c) =>
        if op.topic != BtccCodec.OtherTopic && KeyOf(op) in g.ids {
          IdOfKey(g, KeyOf(op), max);
          DropTouchesHome(Leave(g, g.ids[KeyOf(op)], c), g.ids[KeyOf(op)], KeyOf(op));
        }
      case Tick =>
    }
  }

  lemma EnsureAuthApart(g: Group, op: Op, max: nat)
    requires op.Sub? && AuthApart(g)
    ensures AuthApart(Ensure(g, op, max).0) && Ensure(g, op, max).0.codec.auth == g.codec.auth
  {
    SubscribeHomes(g.book, g.counter + 1, max);
  }

  /** The codec can encode the subscribe frames of all topics of session `i`, as
      every reconnect of it requires. */
  ghost predicate Reconnects(g: Group, i: nat)
    requires i < |g.book.slots|
  {
    forall t :: t in g.book.slots[i].topics ==> !BtccCodec.Encode(g.codec, t).NoSuchTopic?
  }

  /** A session can come back exactly when none of its topics was left behind. */
  lemma ReconnectsExactly(g: Group, max: nat, i: nat)
    requires Agree(g, max) && AuthApart(g) && i < |g.book.slots|
    ensures Reconnects(g, i) <==> g.book.slots[i].topics !! Leaked(g)
  {
    assert SlotOk(g.book, max, i);
    if !Reconnects(g, i) {
      var t :| t in g.book.slots[i].topics && BtccCodec.Encode(g.codec, t).NoSuchTopic?;
      assert t in Leaked(g);
    }
  }

  lemma {:induction false} RunLeaks(s: World, ops: seq<Op>, max: nat)
    requires Agree(s.group, max) && AuthApart(s.group)
    requires (s.failed == 0) <==> (Leaked(s.group) == {})
    ensures var r := Run(s, ops, max);
            AuthApart(r.group) && ((r.failed == 0) <==> (Leaked(r.group) == {}))
    decreases |ops|
  {
    if ops != [] {
      StepAgrees(s.group, ops[0], max);
      StepLeaks(s.group, ops[0], max);
      StepAuthApart(s.group, ops[0], max);
      RunLeaks(Next(s, ops[0], max), ops[1..], max);
    }
  }

  /** After any run, every session can reconnect exactly when no subscribe of the
      run failed to be sent. */
  lemma FailedSendBlocksReconnect(auth: Option<BtccCodec.Auth>, counter: nat, ops: seq<Op>, max: nat)
    requires max > 0 && (auth.Some? ==> auth.value.topic <= counter)
    ensures var s := Run(Fresh(auth, counter), ops, max);
            s.failed == 0 <==> forall i :: 0 <= i < |s.group.book.slots| ==> Reconnects(s.group, i)
  {
    var start := Fresh(auth, counter);
    RunAgrees(start, ops, max);
    RunLeaks(start, ops, max);
    var g := Run(start, ops, max).group;
    PlacedPartitions(g.book, max);
    forall i | 0 <= i < |g.book.slots| ensures Reconnects(g, i) <==> g.book.slots[i].topics !! Leaked(g) {
      ReconnectsExactly(g, max, i);
    }
    if Leaked(g) != {} {
      var t :| t in Leaked(g);
      var i :| 0 <= i < |g.book.slots| && t in g.book.slots[i].topics;
      assert !Reconnects(g, i);
    }
  }

  // ---------------------------------------------------------------------
  // From payload to consumers

  ghost predicate SymbolsWithin(ops: seq<Op>, markets: set<string>) {
    forall k :: 0 <= k < |ops| && !ops[k].Tick? ==> KeyOf(ops[k]).arg in markets
  }

  /** The group never registers a market twice. */
  lemma MarketIsFree(g: Group, key: Key, max: nat)
    requires Agree(g, max) && key !in g.ids && key.topic != BtccCodec.OtherTopic
    ensures MetaOf(key) !in g.codec.topics.Values
  {
    forall id | id in g.codec.topics ensures g.codec.topics[id] != MetaOf(key) {
      assert Known(g.ids, g.entries[id], g.codec.topics, g.book.home.Keys, id);
    }
  }

  lemma EnsureCodec(g: Group, op: Op, max: nat)
    requires op.Sub?
    ensures var c := Ensure(g, op, max).0.codec;
            var id := g.counter + 1;
            var registered := BtccCodec.AfterRegister(g.codec, id, op.topic, KeyOf(op).arg);
            c == g.codec
            || (KeyOf(op) !in g.ids && (c == registered || c == BtccCodec.AfterUnregister(registered, id)))
  {
  }

  lemma EnsureConsistent(g: Group, op: Op, max: nat, markets: set<string>)
    requires op.Sub? && op.topic != BtccCodec.OtherTopic && KeyOf(op).arg in markets
    requires g.counter + 1 !in g.codec.topics
    requires KeyOf(op) !in g.ids ==> MetaOf(KeyOf(op)) !in g.codec.topics.Values
    requires BtccCodec.Consistent(g.codec, markets) && BtccCodec.NoCollision(markets)
    ensures BtccCodec.Consistent(Ensure(g, op, max).0.codec, markets)
  {
    EnsureCodec(g, op, max);
    var id := g.counter + 1;
    if KeyOf(op) !in g.ids {
      ReRegisterConsistent(g.codec, markets, id, KeyOf(op));
    }
  }

  lemma FreeIsRegistrable(s: BtccCodec.State, id: Id, key: Key)
    requires key.topic != BtccCodec.OtherTopic && id !in s.topics && MetaOf(key) !in s.topics.Values
    ensures BtccCodec.Disciplined(s, BtccCodec.RegisterOp(id, key.topic, key.arg))
  {
    forall other | other in s.topics ensures s.topics[other] != MetaOf(key) {
      assert s.topics[other] in s.topics.Values;
    }
  }

  lemma ReRegisterConsistent(s: BtccCodec.State, markets: set<string>, id: Id, key: Key)
    requires key.topic != BtccCodec.OtherTopic && key.arg in markets && id !in s.topics
    requires MetaOf(key) !in s.topics.Values
    requires BtccCodec.Consistent(s, markets) && BtccCodec.NoCollision(markets)
    ensures var registered := BtccCodec.AfterRegister(s, id, key.topic, key.arg);
            BtccCodec.Consistent(registered, markets)
            && BtccCodec.Consistent(BtccCodec.AfterUnregister(registered, id), markets)
  {
    FreeIsRegistrable(s, id, key);
    BtccCodec.RegisterKeepsConsistent(s, markets, id, key.topic, key.arg);
    var registered := BtccCodec.AfterRegister(s, id, key.topic, key.arg);
    BtccCodec.UnregisterKeepsConsistent(registered, markets, id);
  }

  lemma UnsubCodec(g: Group, op: Op)
    requires op.Unsub?
    ensures var c := AfterUnsub(g, op).0.codec;
            c == g.codec || (KeyOf(op) in g.ids && c == BtccCodec.AfterUnregister(g.codec, g.ids[KeyOf(op)]))
  {
  }

  lemma StepConsistent(g: Group, op: Op, max: nat, markets: set<string>)
    requires Agree(g, max) && BtccCodec.Consistent(g.codec, markets) && BtccCodec.NoCollision(markets)
    requires !op.Tick? ==> KeyOf(op).arg in markets
    ensures BtccCodec.Consistent(Step(g, op, max).0.codec, markets)
  {
    match op {
      case Sub(topic, _, _, _, _) =>
        TickAgrees(g, max);
        if topic != BtccCodec.OtherTopic {
          if KeyOf(op) !in g.ids { MarketIsFree(g, KeyOf(op), max); }
          JoinTouches(g, op, max);
          EnsureConsistent(g, op, max, markets);
        }
      case Unsub(_, _, _) =>
        UnsubCodec(g, op);
        if KeyOf(op) in g.ids { BtccCodec.UnregisterKeepsConsistent(g.codec, markets, g.ids[KeyOf(op)]); }
      case Tick =>
    }
  }

  lemma {:induction false} RunConsistent(s: World, ops: seq<Op>, max: nat, markets: set<string>)
    requires Agree(s.group, max) && BtccCodec.Consistent(s.group.codec, markets)
    requires BtccCodec.NoCollision(markets) && SymbolsWithin(ops, markets)
    ensures BtccCodec.Consistent(Run(s, ops, max).group.codec, markets)
    decreases |ops|
  {
    if ops != [] {
      StepAgrees(s.group, ops[0], max);
      StepConsistent(s.group, ops[0], max, markets);
      RunConsistent(Next(s, ops[0], max), ops[1..], max, markets);
    }
  }

  lemma RegisteredIsKnown(g: Group, kind: BtccCodec.Kind, key: Key, id: Id, max: nat)
    requires Agree(g, max) && key.topic != BtccCodec.OtherTopic && kind == MetaOf(key).kind
    ensures BtccCodec.RegisteredAs(g.codec, kind, key.arg, id) <==> key in g.ids && g.ids[key] == id
  {
    if BtccCodec.RegisteredAs(g.codec, kind, key.arg, id) {
      assert Known(g.ids, g.entries[id], g.codec.topics, g.book.home.Keys, id);
    }
    if key in g.ids {
      IdOfKey(g, key, max);
      assert Known(g.ids, g.entries[g.ids[key]], g.codec.topics, g.book.home.Keys, g.ids[key]);
    }
  }

  /** What a lookup of `key` in the codec leads to: the topic and symbol `Resolve`
      gives, and exactly the consumers subscribed to the key. */
  ghost predicate LeadsTo(s: World, found: Option<Id>, key: Key) {
    && (found.Some? <==> exists c: Consumer :: (key, c) in s.wishes)
    && (found.Some? ==>
          && Resolve(s.group, found.value).Some?
          && Resolve(s.group, found.value).value.0 == key.topic
          && Resolve(s.group, found.value).value.1.String() == key.arg
          && forall c: Consumer :: c in Receivers(s.group.routes, found.value) <==> (key, c) in s.wishes)
  }

  lemma KeyLeadsTo(s: World, key: Key, max: nat)
    requires Agree(s.group, max) && Counted(s.group) && Served(s) && key in s.group.ids
    ensures LeadsTo(s, Some(s.group.ids[key]), key)
  {
    var g := s.group;
    var id := g.ids[key];
    ResolvesToKey(g, key, max);
    SomebodyReceives(g, id);
    ReceiversWish(s, key);
    var c :| c in Receivers(g.routes, id);
    assert (key, c) in s.wishes;
  }

  lemma ResolvesToKey(g: Group, key: Key, max: nat)
    requires Agree(g, max) && key in g.ids
    ensures g.ids[key] in g.entries && Resolve(g, g.ids[key]).Some?
    ensures Resolve(g, g.ids[key]).value.0 == key.topic && Resolve(g, g.ids[key]).value.1.String() == key.arg
  {
    IdOfKey(g, key, max);
    assert Known(g.ids, g.entries[g.ids[key]], g.codec.topics, g.book.home.Keys, g.ids[key]);
  }

  lemma ReceiversWish(s: World, key: Key)
    requires Served(s) && key in s.group.ids
    ensures forall d: Consumer :: d in Receivers(s.group.routes, s.group.ids[key]) <==> (key, d) in s.wishes
  {
    forall d: Consumer ensures d in Receivers(s.group.routes, s.group.ids[key]) <==> (key, d) in s.wishes {
      assert Receives(s.group, key, d) <==> d in Receivers(s.group.routes, s.group.ids[key]);
    }
  }

  lemma SomebodyReceives(g: Group, id: Id)
    requires Counted(g) && id in g.entries
    ensures exists c :: c in Receivers(g.routes, id)
  {
    assert |Receivers(g.routes, id)| >= 1;
    if Receivers(g.routes, id) == {} { assert false; }
  }

  lemma NoKeyLeadsNowhere(s: World, key: Key)
    requires Served(s) && key !in s.group.ids
    ensures LeadsTo(s, None, key)
  {
    forall c: Consumer ensures (key, c) !in s.wishes { assert !Receives(s.group, key, c); }
  }

  lemma LookupLeadsTo(s: World, found: Option<Id>, kind: BtccCodec.Kind, key: Key, max: nat)
    requires Agree(s.group, max) && Counted(s.group) && Served(s)
    requires key.topic != BtccCodec.OtherTopic && kind == MetaOf(key).kind
    requires forall id: Id :: found == Some(id) <==> BtccCodec.RegisteredAs(s.group.codec, kind, key.arg, id)
    ensures LeadsTo(s, found, key)
  {
    var g := s.group;
    if key in g.ids {
      RegisteredIsKnown(g, kind, key, g.ids[key], max);
      KeyLeadsTo(s, key, max);
    } else {
      if found.Some? { RegisteredIsKnown(g, kind, key, found.value, max); }
      NoKeyLeadsNowhere(s, key);
    }
  }

  /** From the wire to the consumers.  After any polite run, a depth or order
      update for a market (not an auth acknowledgement) decodes to an id exactly
      when somebody is subscribed to that topic and market; the id resolves to
      them, and its frames go to exactly the subscribed consumers. */
  lemma UpdatesReachSubscribers(auth: Option<BtccCodec.Auth>, counter: nat, ops: seq<Op>, max: nat,
                                markets: set<string>, payload: string, spare: string, market: string)
    requires max > 0 && PoliteRun(Fresh(auth, counter), ops, max)
    requires BtccCodec.NoCollision(markets) && SymbolsWithin(ops, markets) && market in markets
    requires !BtccCodec.IsAuthAck(Run(Fresh(auth, counter), ops, max).group.codec, payload)
    ensures var s := Run(Fresh(auth, counter), ops, max);
            var found := BtccCodec.Decode(s.group.codec, payload, spare);
            && (BtccCodec.IsDepthUpdate(payload, market) ==>
                  found.Resolved? && LeadsTo(s, found.topic, Key(BtccCodec.TopicDepth, market)))
            && (BtccCodec.IsOrderUpdate(payload, market) ==>
                  found.Resolved? && LeadsTo(s, found.topic, Key(BtccCodec.TopicOrder, market)))
  {
    var start := Fresh(auth, counter);
    var s := Run(start, ops, max);
    assert Served(start) && Counted(start.group);
    RunServes(start, ops, max);
    RunConsistent(start, ops, max, markets);
    if BtccCodec.IsDepthUpdate(payload, market) {
      BtccCodec.DepthUpdateLooksUp(s.group.codec, payload, spare, market);
      BtccCodec.LookupExact(s.group.codec, markets, BtccCodec.DepthKind, market);
      LookupLeadsTo(s, BtccCodec.Lookup(s.group.codec, BtccCodec.DepthKind, market), BtccCodec.DepthKind,
                    Key(BtccCodec.TopicDepth, market), max);
    }
    if BtccCodec.IsOrderUpdate(payload, market) {
      BtccCodec.OrderUpdateLooksUp(s.group.codec, payload, spare, market);
      BtccCodec.LookupExact(s.group.codec, markets, BtccCodec.OrderKind, market);
      LookupLeadsTo(s, BtccCodec.Lookup(s.group.codec, BtccCodec.OrderKind, market), BtccCodec.OrderKind,
                    Key(BtccCodec.TopicOrder, market), max);
    }
  }

  // ---------------------------------------------------------------------
  // Runs that show the failures

  /** One consumer subscribing twice is counted twice, and listed once. */
  lemma DoubleSubscribeMiscounts(symbol: Symbol, c: Consumer, max: nat)
    requires symbol.String() != "" && max > 0
    ensures var op := Op.Sub(BtccCodec.TopicDepth, symbol, c, true, true);
            var g := Run(Fresh(None, 0), [op, op], max).group;
            !Counted(g) && 1 in g.entries && g.entries[1].refCount == 2 && Receivers(g.routes, 1) == {c}
  {
    var op := Op.Sub(BtccCodec.TopicDepth, symbol, c, true, true);
    var s0 := Fresh(None, 0);
    FirstSubscribe(symbol, c, max);
    var g := Next(s0, op, max).group;
    assert Agree(s0.group, max);
    StepAgrees(s0.group, op, max);
    AddReceives(g.routes, 1, c);
    SubscribeAgain(g, op, max);
    TwoSteps(s0, op, max);
    assert |{c}| == 1;
  }

  lemma SubscribeAgain(g: Group, op: Op, max: nat)
    requires op.Sub? && op.topic != BtccCodec.OtherTopic && KeyOf(op) in g.ids
    requires g.ids[KeyOf(op)] in g.entries && g.ids[KeyOf(op)] in g.book.home
    ensures Step(g, op, max).0 == Join(g, g.ids[KeyOf(op)], op.consumer)
  {
  }

  lemma TwoSteps(s: World, op: Op, max: nat)
    ensures Run(s, [op, op], max) == Next(Next(s, op, max), op, max)
  {
    assert [op, op][1..] == [op] && [op][1..] == [];
    var t := Next(s, op, max);
    assert Run(t, [op], max) == Run(Next(t, op, max), [], max);
  }

  lemma FirstSubscribe(symbol: Symbol, c: Consumer, max: nat)
    requires symbol.String() != "" && max > 0
    ensures var op := Op.Sub(BtccCodec.TopicDepth, symbol, c, true, true);
            var g := Next(Fresh(None, 0), op, max).group;
            && KeyOf(op) in g.ids && g.ids[KeyOf(op)] == 1 && 1 in g.entries && 1 in g.book.home
            && g.entries[1].refCount == 1 && Receivers(g.routes, 1) == {c}
  {
    var op := Op.Sub(BtccCodec.TopicDepth, symbol, c, true, true);
    var g0 := Fresh(None, 0).group;
    SubscribeHomes(EMPTY, 1, max);
    var h := Ensure(g0, op, max).0;
    assert h.ids == map[KeyOf(op) := 1] && h.entries == map[1 := Entry(KeyOf(op), symbol, 0)];
    assert ListOf(h.routes, 1) == [] && ListOf(AfterAdd(h.routes, 1, c), 1) == [] + [c];
  }

  /** One call whose frame cannot be sent leaves a session that cannot
      reconnect. */
  lemma FailedSendLeaks(symbol: Symbol, c: Consumer, max: nat)
    requires symbol.String() != "" && max > 0
    ensures var s := Run(Fresh(None, 0), [Op.Sub(BtccCodec.TopicDepth, symbol, c, true, false)], max);
            s.failed == 1 && Leaked(s.group) == {1} && s.group.ids == map[]
  {
    var op := Op.Sub(BtccCodec.TopicDepth, symbol, c, true, false);
    var s0 := Fresh(None, 0);
    assert Agree(s0.group, max);
    StepLeaks(s0.group, op, max);
    assert Leaked(s0.group) == {};
    assert [op][1..] == [] && Run(Next(s0, op, max), [], max) == Next(s0, op, max);
  }
}
