/** The group of bundle/internal/ingest/usecase.go in place: two maps over shared
    topic states, the codec, the manager.  Every call is tied to its step in
    `Groups`. */
module Usecases {
  import opened Types
  import opened Groups
  import Managers
  import BtccCodec
  import Placement
  import Routers

  /** `topicState`; one object stands in both maps. */
  class TopicState {
    const key: Key
    const symbol: Symbol
    const topicID: Id
    var refCount: int

    constructor (key: Key, symbol: Symbol, topicID: Id)
      ensures this.key == key && this.symbol == symbol && this.topicID == topicID && refCount == 0
    {
      this.key, this.symbol, this.topicID, refCount := key, symbol, topicID, 0;
    }
  }

  /** The counter of `Usecase`. */
  class Usecase {
    var currTopicID: nat

    method NextTopicID() returns (id: Id)
      modifies this
      ensures id == currTopicID == old(currTopicID) + 1
    {
      currTopicID := currTopicID + 1;
      id := currTopicID;
    }
  }

  ghost predicate Shows(e: Entry, t: TopicState)
    reads t
  {
    e == Entry(t.key, t.symbol, t.refCount)
  }

  ghost predicate SameIds(entries: map<Id, Entry>, topicsByID: map<Id, TopicState>) {
    forall id :: id in entries <==> id in topicsByID
  }

  /** Both maps hold the same objects; `ids` names their ids. */
  ghost predicate Shared(ids: map<Key, Id>, topics: map<Key, TopicState>, topicsByID: map<Id, TopicState>) {
    && (forall k :: k in ids <==> k in topics)
    && forall k :: k in topics ==> topics[k].topicID == ids[k] && ids[k] in topicsByID && topicsByID[ids[k]] == topics[k]
  }

  lemma SharedAdded(ids: map<Key, Id>, topics: map<Key, TopicState>, topicsByID: map<Id, TopicState>, key: Key, id: Id, t: TopicState)
    requires Shared(ids, topics, topicsByID) && key !in topics && id !in topicsByID && t.topicID == id
    ensures Shared(ids[key := id], topics[key := t], topicsByID[id := t])
  {
  }

  /** What a new topic leaves in the codec, by the reply. */
  function CodecAfter(s: BtccCodec.State, id: Id, key: Key, r: Reply): BtccCodec.State {
    var registered := BtccCodec.AfterRegister(s, id, key.topic, key.arg);
    match r
    case Joined => registered
    case Unregistered => s
    case _ => BtccCodec.AfterUnregister(registered, id)
  }

  /** And in the manager. */
  function BookAfter(b: Placement.Book, id: Id, r: Reply, max: nat): Placement.Book {
    if r == Joined || r == NotSent then Placement.AfterSubscribe(b, id, max) else b
  }

  /** And in the group. */
  function GroupAfter(g: Group, key: Key, symbol: Symbol, r: Reply, max: nat): Group {
    var id := g.counter + 1;
    var codec := CodecAfter(g.codec, id, key, r);
    var book := BookAfter(g.book, id, r, max);
    if r == Joined then Group(g.ids[key := id], g.entries[id := Entry(key, symbol, 0)], codec, book, g.routes, id)
    else Group(g.ids, g.entries, codec, book, g.routes, id)
  }

  /** `d` is the group with the id drawn. */
  lemma GroupAfterIs(g: Group, d: Group, key: Key, symbol: Symbol, r: Reply, max: nat, h: Group)
    requires d == g.(counter := g.counter + 1)
    requires h.ids == (if r == Joined then d.ids[key := d.counter] else d.ids)
    requires h.entries == (if r == Joined then d.entries[d.counter := Entry(key, symbol, 0)] else d.entries)
    requires h.codec == CodecAfter(d.codec, d.counter, key, r) && h.book == BookAfter(d.book, d.counter, r, max)
    requires h.routes == d.routes && h.counter == d.counter
    ensures h == GroupAfter(g, key, symbol, r, max)
  {
  }

  function Counting(entries: map<Id, Entry>, id: Id, delta: int): map<Id, Entry>
    requires id in entries
  {
    entries[id := entries[id].(refCount := entries[id].refCount + delta)]
  }

  lemma JoinIs(g: Group, id: Id, c: Routers.Consumer, h: Group)
    requires id in g.entries && h.routes == Routers.AfterAdd(g.routes, id, c)
    requires h.entries == Counting(g.entries, id, 1)
    requires h.ids == g.ids && h.codec == g.codec && h.book == g.book && h.counter == g.counter
    ensures h == Join(g, id, c)
  {
  }

  lemma LeaveIs(g: Group, id: Id, c: Routers.Consumer, h: Group)
    requires id in g.entries && h.routes == Routers.AfterRemove(g.routes, id, c)
    requires h.entries == Counting(g.entries, id, -1)
    requires h.ids == g.ids && h.codec == g.codec && h.book == g.book && h.counter == g.counter
    ensures h == Leave(g, id, c)
  {
  }

  lemma DropIs(g: Group, id: Id, key: Key, h: Group)
    requires h.ids == g.ids - {key} && h.entries == g.entries - {id} && h.counter == g.counter
    requires h.codec == BtccCodec.AfterUnregister(g.codec, id) && h.book == Placement.AfterUnsubscribe(g.book, id)
    requires h.routes == if id in g.book.home then g.routes - {id} else g.routes
    ensures h == Drop(g, id, key)
  {
  }

  lemma OnlyKey(g: Group, key: Key, max: nat)
    requires Agree(g, max) && key in g.ids
    ensures forall k :: k in g.ids && g.ids[k] == g.ids[key] ==> k == key
  {
    LinkedIsInjective(g, max);
  }

  lemma UnsubIs(g: Group, op: Op, max: nat)
    requires Agree(g, max) && op.Unsub? && op.topic != BtccCodec.OtherTopic && KeyOf(op) in g.ids
    ensures var id := g.ids[KeyOf(op)];
            AfterUnsub(g, op) ==
            if id !in g.book.home || id !in g.entries then (g, Unknown)
            else
              var h := Leave(g, id, op.consumer);
              (if h.entries[id].refCount <= 0 then Drop(h, id, KeyOf(op)) else h, Left)
    ensures Agree(AfterUnsub(g, op).0, max)
  {
    StepAgrees(g, op, max);
  }

  lemma NotJoinedIs(g: Group, op: Op, max: nat)
    requires op.Sub? && op.topic != BtccCodec.OtherTopic && Ensure(g, op, max).1 != Joined
    ensures AfterSub(g, op, max) == Ensure(g, op, max)
  {
  }

  lemma JoinedIs(g: Group, op: Op, max: nat, ensured: Group)
    requires op.Sub? && op.topic != BtccCodec.OtherTopic && Ensure(g, op, max) == (ensured, Joined)
    requires KeyOf(op) in ensured.ids && ensured.ids[KeyOf(op)] in ensured.entries
    ensures var id := ensured.ids[KeyOf(op)];
            AfterSub(g, op, max)
            == if id in ensured.book.home then (Join(ensured, id, op.consumer), Joined) else (ensured, Unknown)
  {
  }

  lemma OffAfterUnregister(s: BtccCodec.State, id: Id)
    requires s.auth.Some? ==> s.auth.value.topic != id
    ensures BtccCodec.EncodeOff(BtccCodec.AfterUnregister(s, id), id).NoSuchTopic?
  {
  }

  /** Which reply a new topic may get. */
  predicate Answers(r: Reply, key: Key, live: bool) {
    if key.topic == BtccCodec.OtherTopic || key.arg == "" then r == Unregistered
    else if live then r == NotSent || r == Joined
    else r == NotRunning
  }

  lemma NewTopicIs(g: Group, op: Op, r: Reply, max: nat)
    requires op.Sub? && KeyOf(op) !in g.ids && Answers(r, KeyOf(op), op.live) && op.sent == (r != NotSent)
    ensures (GroupAfter(g, KeyOf(op), op.symbol, r, max), r) == Ensure(g, op, max)
  {
  }

  /** `wsGroup` */
  class WsGroup {
    const manager: Managers.Manager
    const codec: BtccCodec.Codec
    var topics: map<Key, TopicState>
    var topicsByID: map<Id, TopicState>

    ghost var ids: map<Key, Id>
    ghost var entries: map<Id, Entry>

    ghost var Repr: set<TopicState>

    /** The maps share their objects, and `entries` shows them. */
    ghost predicate Mirrors()
      reads this, Repr
    {
      && SameIds(entries, topicsByID)
      && (forall id :: id in topicsByID ==> topicsByID[id] in Repr && topicsByID[id].topicID == id)
      && (forall id :: id in topicsByID ==> Shows(entries[id], topicsByID[id]))
      && Shared(ids, topics, topicsByID)
    }

    /** The group as a value. */
    ghost function Value(use: Usecase): Group
      reads this, use, manager, manager.router, codec
    {
      Group(ids, entries, codec.Abstract(), manager.book, manager.router.topics, use.currTopicID)
    }

    ghost predicate Valid(use: Usecase)
      reads this, Repr, use, manager, manager.Repr, manager.router, codec
    {
      Mirrors() && manager.Valid() && Agree(Value(use), manager.max)
    }

    constructor (manager: Managers.Manager, codec: BtccCodec.Codec, use: Usecase)
      requires manager.Valid() && manager.book == Placement.EMPTY && manager.router.topics == map[]
      requires codec.topicsByID == map[] && codec.depthLookup == map[] && codec.orderLookup == map[]
      ensures Valid(use) && Value(use) == Fresh(codec.auth, use.currTopicID).group
      ensures this.manager == manager && this.codec == codec
    {
      this.manager, this.codec := manager, codec;
      topics, topicsByID, ids, entries, Repr := map[], map[], map[], map[], {};
    }

    /** A change to the codec that the manager does not notice. */
    method ForgetTopic(id: Id)
      requires manager.Valid()
      modifies codec
      ensures manager.Valid() && codec.Abstract() == BtccCodec.AfterUnregister(old(codec.Abstract()), id)
    {
      codec.Unregister(id);
    }

    method RegisterTopic(id: Id, key: Key) returns (ok: bool)
      requires manager.Valid()
      modifies codec
      ensures manager.Valid() && (ok <==> key.topic != BtccCodec.OtherTopic && key.arg != "")
      ensures codec.Abstract() == BtccCodec.AfterRegister(old(codec.Abstract()), id, key.topic, key.arg)
    {
      ok := codec.Register(id, key.topic, key.arg);
    }

    /** The manager's answer for a topic it does not have. */
    method SubscribeTopic(id: Id, sent: bool) returns (r: Reply)
      requires manager.Valid() && id !in manager.book.home
      modifies manager, manager.Repr, manager.Members`running, manager.Members`cancel
      ensures manager.Valid() && manager.ctx == old(manager.ctx)
      ensures r == NotRunning || r == Joined || r == NotSent
      ensures (r == NotRunning <==> manager.ctx == Managers.Done) && (sent ==> r != NotSent)
      ensures manager.book == BookAfter(old(manager.book), id, r, manager.max)
    {
      var m := manager.Subscribe(id, sent);
      return if m == Managers.Ok then Joined else if m == Managers.NotRunning then NotRunning else NotSent;
    }

    /** The calls of `ensureTopic` on the codec and the manager. */
    method Announce(id: Id, key: Key, sent: bool) returns (r: Reply)
      requires manager.Valid() && id !in manager.book.home
      modifies manager, manager.Repr, manager.Members`running, manager.Members`cancel, codec
      ensures sent ==> r != NotSent
      ensures manager.Valid() && manager.ctx == old(manager.ctx)
      ensures Answers(r, key, manager.ctx != Managers.Done)
      ensures manager.book == BookAfter(old(manager.book), id, r, manager.max)
      ensures codec.Abstract() == CodecAfter(old(codec.Abstract()), id, key, r)
    {
      var ok := RegisterTopic(id, key);
      if !ok { return Unregistered; }
      r := SubscribeTopic(id, sent);
      if r != Joined { ForgetTopic(id); }
    }

    method DrawID(use: Usecase) returns (id: Id)
      requires Mirrors() && manager.Valid()
      modifies use
      ensures Mirrors() && manager.Valid() && manager.ctx == old(manager.ctx)
      ensures id == old(use.currTopicID) + 1
      ensures Value(use) == old(Value(use)).(counter := id)
    {
      id := use.NextTopicID();
    }

    method AddState(key: Key, symbol: Symbol, id: Id) returns (state: TopicState)
      requires Mirrors() && key !in topics && id !in topicsByID
      modifies this`topics, this`topicsByID, this`ids, this`entries, this`Repr
      ensures Mirrors() && fresh(state) && fresh(Repr - old(Repr))
      ensures ids == old(ids)[key := id] && entries == old(entries)[id := Entry(key, symbol, 0)]
      ensures key in topics && topics[key] == state
    {
      state := new TopicState(key, symbol, id);
      assert forall i :: i in topicsByID ==> old(Shows(entries[i], topicsByID[i]));
      SharedAdded(ids, topics, topicsByID, key, id, state);
      topics := topics[key := state];
      topicsByID := topicsByID[id := state];
      ids, entries := ids[key := id], entries[id := Entry(key, symbol, 0)];
      Repr := Repr + {state};
    }

    /** The manager does not notice. */
    method EnterState(key: Key, symbol: Symbol, id: Id) returns (state: TopicState)
      requires manager.Valid() && Mirrors() && key !in topics && id !in topicsByID
      modifies this`topics, this`topicsByID, this`ids, this`entries, this`Repr
      ensures manager.Valid() && Mirrors() && fresh(state) && fresh(Repr - old(Repr))
      ensures ids == old(ids)[key := id] && entries == old(entries)[id := Entry(key, symbol, 0)]
      ensures key in topics && topics[key] == state
    {
      state := AddState(key, symbol, id);
    }

    /** `ensureTopic`, for a key that is not there, with the id drawn. */
    method NewTopic(id: Id, key: Key, symbol: Symbol, sent: bool) returns (r: Reply, state: TopicState?)
      requires Mirrors() && manager.Valid() && key !in topics && id !in manager.book.home && id !in entries
      modifies this`topics, this`topicsByID, this`ids, this`entries, this`Repr,
               manager, manager.Repr, manager.Members`running, manager.Members`cancel, codec
      ensures sent ==> r != NotSent
      ensures Mirrors()
      ensures manager.Valid() && manager.ctx == old(manager.ctx)
      ensures Answers(r, key, manager.ctx != Managers.Done)
      ensures manager.book == BookAfter(old(manager.book), id, r, manager.max)
      ensures codec.Abstract() == CodecAfter(old(codec.Abstract()), id, key, r)
      ensures manager.router.topics == old(manager.router.topics)
      ensures ids == if r == Joined then old(ids)[key := id] else old(ids)
      ensures entries == if r == Joined then old(entries)[id := Entry(key, symbol, 0)] else old(entries)
      ensures r == Joined <==> state != null
      ensures state != null ==> state in old(Repr) || fresh(state)
      ensures state != null ==> key in topics && state == topics[key]
    {
      r := Announce(id, key, sent);
      assert Mirrors() by {
        assert forall i :: i in topicsByID ==> old(Shows(entries[i], topicsByID[i]));
      }
      state := null;
      if r == Joined { state := EnterState(key, symbol, id); }
    }

    /** `ensureTopic`, for a key that is not there. */
    method IntroduceTopic(use: Usecase, key: Key, symbol: Symbol, sent: bool) returns (r: Reply, state: TopicState?)
      requires Mirrors() && manager.Valid() && key !in topics
      requires use.currTopicID + 1 !in manager.book.home && use.currTopicID + 1 !in entries
      modifies this`topics, this`topicsByID, this`ids, this`entries, this`Repr, use,
               manager, manager.Repr, manager.Members`running, manager.Members`cancel, codec
      ensures sent ==> r != NotSent
      ensures Mirrors()
      ensures manager.Valid() && manager.ctx == old(manager.ctx)
      ensures Answers(r, key, manager.ctx != Managers.Done)
      ensures Value(use) == GroupAfter(old(Value(use)), key, symbol, r, manager.max)
      ensures r == Joined <==> state != null
      ensures state != null ==> state in old(Repr) || fresh(state)
      ensures state != null ==> key in topics && state == topics[key]
    {
      ghost var before := Value(use);
      var id := DrawID(use);
      ghost var drawn := Value(use);
      r, state := NewTopic(id, key, symbol, sent);
      ghost var after := Value(use);
      GroupAfterIs(before, drawn, key, symbol, r, manager.max, after);
    }

    /** `ensureTopic` */
    method EnsureTopic(use: Usecase, topic: BtccCodec.Topic, symbol: Symbol, ghost consumer: Routers.Consumer, sent: bool)
      returns (r: Reply, state: TopicState?)
      requires Mirrors() && manager.Valid() && use.currTopicID + 1 !in manager.book.home && use.currTopicID + 1 !in entries
      modifies this`topics, this`topicsByID, this`ids, this`entries, this`Repr, use,
               manager, manager.Repr, manager.Members`running, manager.Members`cancel, codec
      ensures sent ==> r != NotSent
      ensures Mirrors()
      ensures manager.Valid() && manager.ctx == old(manager.ctx)
      ensures var op := Sub(topic, symbol, consumer, manager.ctx != Managers.Done, r != NotSent);
              (Value(use), r) == Ensure(old(Value(use)), op, manager.max)
      ensures r == Joined <==> state != null
      ensures state != null ==> state in old(Repr) || fresh(state)
      ensures state != null ==>
                Key(topic, symbol.String()) in topics && state == topics[Key(topic, symbol.String())]
    {
      var key := Key(topic, symbol.String());
      if key in topics { return Joined, topics[key]; }
      ghost var before := Value(use);
      r, state := IntroduceTopic(use, key, symbol, sent);
      NewTopicIs(before, Sub(topic, symbol, consumer, manager.ctx != Managers.Done, r != NotSent), r, manager.max);
    }

    /** `refCount` of a shared state, in both maps at once. */
    method Count(state: TopicState, delta: int)
      requires manager.Valid() && Mirrors() && state.topicID in topicsByID && topicsByID[state.topicID] == state
      modifies state, this`entries
      ensures manager.ctx == old(manager.ctx) && manager.Valid() && Mirrors() && state.refCount == entries[state.topicID].refCount
      ensures entries == Counting(old(entries), state.topicID, delta)
    {
      assert forall i :: i in topicsByID ==> old(Shows(entries[i], topicsByID[i]));
      state.refCount := state.refCount + delta;
      entries := entries[state.topicID := entries[state.topicID].(refCount := state.refCount)];
    }

    /** The second half of `Subscribe`. */
    method JoinTopic(use: Usecase, state: TopicState, consumer: Routers.Consumer) returns (ok: bool)
      requires Mirrors() && manager.Valid() && state.topicID in topicsByID && topicsByID[state.topicID] == state
      modifies state, this`entries, manager.router
      ensures Mirrors() && manager.Valid() && manager.ctx == old(manager.ctx)
      ensures ok <==> state.topicID in manager.book.home
      ensures Value(use) == if ok then Join(old(Value(use)), state.topicID, consumer) else old(Value(use))
    {
      ghost var before := Value(use);
      var m := manager.AddConsumer(state.topicID, consumer);
      ok := m == Managers.Ok;
      if ok {
        Count(state, 1);
        JoinIs(before, state.topicID, consumer, Value(use));
      }
    }

    /** `Subscribe`, after the check of the topic. */
    method SubscribeTo(use: Usecase, topic: BtccCodec.Topic, symbol: Symbol, consumer: Routers.Consumer, sent: bool)
      returns (r: Reply)
      requires Mirrors() && manager.Valid() && topic != BtccCodec.OtherTopic
      requires use.currTopicID + 1 !in manager.book.home && use.currTopicID + 1 !in entries
      modifies this`topics, this`topicsByID, this`ids, this`entries, this`Repr, Repr, use,
               manager, manager.Repr, manager.Members`running, manager.Members`cancel, manager.router, codec
      ensures sent ==> r != NotSent
      ensures Mirrors() && manager.Valid() && manager.ctx == old(manager.ctx)
      ensures var op := Sub(topic, symbol, consumer, manager.ctx != Managers.Done, r != NotSent);
              (Value(use), r) == AfterSub(old(Value(use)), op, manager.max)
    {
      ghost var before := Value(use);
      var state;
      r, state := EnsureTopic(use, topic, symbol, consumer, sent);
      ghost var op := Sub(topic, symbol, consumer, manager.ctx != Managers.Done, r != NotSent);
      if state == null {
        NotJoinedIs(before, op, manager.max);
      } else {
        ghost var ensured := Value(use);
        var ok := JoinTopic(use, state, consumer);
        if !ok { r := Unknown; }
        JoinedIs(before, op, manager.max, ensured);
      }
    }

    /** `Subscribe` */
    method Subscribe(use: Usecase, topic: BtccCodec.Topic, symbol: Symbol, consumer: Routers.Consumer, sent: bool)
      returns (r: Reply)
      requires Valid(use)
      modifies this`topics, this`topicsByID, this`ids, this`entries, this`Repr, Repr, use,
               manager, manager.Repr, manager.Members`running, manager.Members`cancel, manager.router, codec
      ensures sent ==> r != NotSent
      ensures Valid(use)
      ensures var op := Sub(topic, symbol, consumer, manager.ctx != Managers.Done, r != NotSent);
              (Value(use), r) == AfterSub(old(Value(use)), op, manager.max)
    {
      ghost var before := Value(use);
      if topic == BtccCodec.OtherTopic { return Invalid; }
      TickAgrees(before, manager.max);
      r := SubscribeTo(use, topic, symbol, consumer, sent);
      StepAgrees(before, Sub(topic, symbol, consumer, manager.ctx != Managers.Done, r != NotSent), manager.max);
    }

    /** The first half of `Unsubscribe`. */
    method LeaveTopic(use: Usecase, state: TopicState, consumer: Routers.Consumer) returns (ok: bool)
      requires Mirrors() && manager.Valid() && state.topicID in topicsByID && topicsByID[state.topicID] == state
      modifies state, this`entries, manager.router
      ensures Mirrors() && manager.Valid() && manager.ctx == old(manager.ctx)
      ensures ok <==> state.topicID in manager.book.home
      ensures Value(use) == if ok then Leave(old(Value(use)), state.topicID, consumer) else old(Value(use))
    {
      ghost var before := Value(use);
      var m := manager.RemoveConsumer(state.topicID, consumer);
      ok := m == Managers.Ok;
      if ok {
        Count(state, -1);
        LeaveIs(before, state.topicID, consumer, Value(use));
      }
    }

    method RemoveState(key: Key, id: Id)
      requires manager.Valid() && Mirrors() && key in topics && ids[key] == id
      requires forall k :: k in ids && ids[k] == id ==> k == key
      modifies this`topics, this`topicsByID, this`ids, this`entries
      ensures manager.Valid() && Mirrors()
      ensures ids == old(ids) - {key} && entries == old(entries) - {id}
    {
      DeleteEntries(key, id);
    }

    /** The two deletions. */
    method DeleteEntries(key: Key, id: Id)
      requires Mirrors() && key in topics && ids[key] == id
      requires forall k :: k in ids && ids[k] == id ==> k == key
      modifies this`topics, this`topicsByID, this`ids, this`entries
      ensures Mirrors()
      ensures ids == old(ids) - {key} && entries == old(entries) - {id}
    {
      assert forall i :: i in topicsByID ==> Shows(entries[i], topicsByID[i]);
      topics := topics - {key};
      topicsByID := topicsByID - {id};
      ids, entries := ids - {key}, entries - {id};
    }

    /** The calls of `Unsubscribe` on the codec and the manager.  The codec has
        forgotten the topic when the session asks it for the unsubscribe frame. */
    method Retire(id: Id, sent: bool)
      requires manager.Valid() && Mirrors()
      modifies codec, manager, manager.Repr, manager.Members`cancel, manager.router
      ensures manager.Valid() && Mirrors()
      ensures codec.Abstract() == BtccCodec.AfterUnregister(old(codec.Abstract()), id)
      ensures manager.book == Placement.AfterUnsubscribe(old(manager.book), id)
      ensures manager.router.topics
           == if id in old(manager.book).home then old(manager.router.topics) - {id} else old(manager.router.topics)
      ensures (codec.auth.Some? ==> codec.auth.value.topic != id) && id in old(manager.book).home ==>
                var s := old(manager.subscriptions[id]);
                s.connected ==> s.cancel == old(s.cancel)
    {
      if codec.auth.Some? ==> codec.auth.value.topic != id { OffAfterUnregister(codec.Abstract(), id); }
      UnregisterTopic(id);
      var off := BtccCodec.EncodeOff(codec.Abstract(), id);
      WithdrawTopic(id, sent && !off.NoSuchTopic?);
    }

    /** Nor do the maps. */
    method UnregisterTopic(id: Id)
      requires manager.Valid() && Mirrors()
      modifies codec
      ensures manager.Valid() && Mirrors() && codec.Abstract() == BtccCodec.AfterUnregister(old(codec.Abstract()), id)
    {
      ForgetTopic(id);
      assert forall i :: i in topicsByID ==> old(Shows(entries[i], topicsByID[i]));
    }

    method WithdrawTopic(id: Id, sent: bool)
      requires manager.Valid() && Mirrors()
      modifies manager, manager.Repr, manager.Members`cancel, manager.router
      ensures manager.Valid() && Mirrors()
      ensures manager.book == Placement.AfterUnsubscribe(old(manager.book), id)
      ensures manager.router.topics
           == if id in old(manager.book).home then old(manager.router.topics) - {id} else old(manager.router.topics)
      ensures !sent && id in old(manager.book).home ==>
                var s := old(manager.subscriptions[id]);
                s.connected ==> s.cancel == old(s.cancel)
    {
      var _ := manager.Unsubscribe(id, sent);
      assert forall i :: i in topicsByID ==> old(Shows(entries[i], topicsByID[i]));
    }

    /** The second half of `Unsubscribe`, for a topic no longer used; whatever
        becomes of the unsubscribe frame. */
    method DropTopic(use: Usecase, key: Key, id: Id, sent: bool)
      requires manager.Valid() && Mirrors() && key in topics && ids[key] == id
      requires forall k :: k in ids && ids[k] == id ==> k == key
      modifies this`topics, this`topicsByID, this`ids, this`entries, codec,
               manager, manager.Repr, manager.Members`cancel, manager.router
      ensures manager.Valid() && Mirrors()
      ensures Value(use) == Drop(old(Value(use)), id, key)
    {
      ghost var before := Value(use);
      RemoveState(key, id);
      Retire(id, sent);
      DropIs(before, id, key, Value(use));
    }

    /** `Unsubscribe`, for a key that is there. */
    method UnsubscribeFrom(use: Usecase, key: Key, consumer: Routers.Consumer, sent: bool) returns (r: Reply)
      requires Mirrors() && manager.Valid() && key in topics
      requires forall k :: k in ids && ids[k] == ids[key] ==> k == key
      modifies this`topics, this`topicsByID, this`ids, this`entries, Repr, codec,
               manager, manager.Repr, manager.Members`cancel, manager.router
      ensures Mirrors() && manager.Valid()
      ensures var g, id := old(Value(use)), old(ids[key]);
              if id !in g.book.home || id !in g.entries then Value(use) == g && r == Unknown
              else
                var h := Leave(g, id, consumer);
                r == Left && Value(use) == if h.entries[id].refCount <= 0 then Drop(h, id, key) else h
    {
      var state := topics[key];
      var ok := LeaveTopic(use, state, consumer);
      if !ok { return Unknown; }
      assert Shows(entries[state.topicID], topicsByID[state.topicID]);
      if state.refCount <= 0 { DropTopic(use, key, state.topicID, sent); }
      return Left;
    }

    /** `Unsubscribe` */
    method Unsubscribe(use: Usecase, topic: BtccCodec.Topic, symbol: Symbol, consumer: Routers.Consumer, sent: bool)
      returns (r: Reply)
      requires Valid(use)
      modifies this`topics, this`topicsByID, this`ids, this`entries, Repr, codec,
               manager, manager.Repr, manager.Members`cancel, manager.router
      ensures Valid(use)
      ensures (Value(use), r) == AfterUnsub(old(Value(use)), Unsub(topic, symbol, consumer))
    {
      ghost var before := Value(use);
      if topic == BtccCodec.OtherTopic { return Invalid; }
      var key := Key(topic, symbol.String());
      if key !in topics { return Unknown; }
      OnlyKey(before, key, manager.max);
      r := UnsubscribeFrom(use, key, consumer, sent);
      UnsubIs(before, Unsub(topic, symbol, consumer), manager.max);
    }

    /** `Resolve` */
    method ResolveTopic(use: Usecase, id: Id) returns (r: Option<(BtccCodec.Topic, Symbol)>)
      requires Valid(use)
      ensures r == Resolve(Value(use), id)
    {
      if id !in topicsByID { return None; }
      var state := topicsByID[id];
      assert Shows(entries[id], state);
      return Some((state.key.topic, state.symbol));
    }
  }
}
