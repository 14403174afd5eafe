/** The manager of libs/shared/websocket/manager.go and the subscription sets of
    subscriptions.go, in place.  Each call is tied to `Placement` and `Routers`.

    What only the connection can tell, whether a control frame could be queued,
    is a parameter. */
module Managers {
  import opened Types
  import opened Placement
  import opened Routers

  /** `subscriptions` */
  class Subscriptions {
    var desired: set<TopicId>
    var active: set<TopicId>

    constructor ()
      ensures desired == {} && active == {}
    {
      desired, active := {}, {};
    }

    method Add(topic: TopicId) returns (added: bool)
      modifies this
      ensures added <==> topic !in old(desired)
      ensures desired == old(desired) + {topic} && active == old(active)
    {
      added := topic !in desired;
      if added { desired := desired + {topic}; }
    }

    method Remove(topic: TopicId) returns (removed: bool)
      modifies this
      ensures removed <==> topic in old(desired)
      ensures desired == old(desired) - {topic}
      ensures active == if removed then old(active) - {topic} else old(active)
    {
      removed := topic in desired;
      if removed { desired, active := desired - {topic}, active - {topic}; }
    }

    method MarkActive(topic: TopicId)
      modifies this`active
      ensures active == old(active) + {topic} && desired == old(desired)
    {
      active := active + {topic};
    }

    method ClearActive()
      modifies this`active
      ensures active == {} && desired == old(desired)
    {
      active := {};
    }

    /** `Desired`: every topic once, in any order. */
    method Desired() returns (list: seq<TopicId>)
      ensures forall t :: t in list <==> t in desired
      ensures |list| == |desired|
    {
      list := [];
      var rest := desired;
      while rest != {}
        invariant rest <= desired && |list| + |rest| == |desired|
        invariant forall t :: t in list <==> t in desired - rest
        decreases |rest|
      {
        var t :| t in rest;
        list := list + [t];
        rest := rest - {t};
      }
    }

    method Count() returns (n: nat)
      ensures n == |desired|
    {
      n := |desired|;
    }
  }

  /** `cancel`: a session never started has none. */
  datatype Cancel = Unset | Armed | Called

  /** `session`, as far as the manager knows it.  Its loop, which also sets
      `connected`, is in `Reconnect`. */
  class Session {
    const id: nat
    const subscriptions: Subscriptions
    var connected: bool
    var running: bool
    var cancel: Cancel

    constructor (id: nat)
      ensures this.id == id && fresh(subscriptions) && !connected && !running && cancel == Unset
      ensures subscriptions.desired == {} && subscriptions.active == {}
    {
      this.id := id;
      subscriptions := new Subscriptions();
      connected, running, cancel := false, false, Unset;
    }

    /** `start` */
    method Start(ctx: Context)
      modifies this`running, this`cancel
      ensures running == (old(running) || ctx != NoContext)
      ensures cancel == if ctx == NoContext || old(running) then old(cancel) else Armed
    {
      if ctx == NoContext { return; }
      if running { return; }
      running := true;
      cancel := Armed;
    }

    /** `stop` */
    method Stop()
      modifies this`cancel
      ensures cancel == if old(cancel) == Unset then Unset else Called
    {
      if cancel != Unset { cancel := Called; }
    }

    /** `subscribe`: only a connected session sends; `sent` tells whether the
        frame could be encoded and queued. */
    method Subscribe(topic: TopicId, sent: bool) returns (ok: bool)
      modifies subscriptions
      ensures ok <==> !connected || sent
      ensures subscriptions.desired == old(subscriptions.desired)
      ensures subscriptions.active
           == if connected && sent then old(subscriptions.active) + {topic} else old(subscriptions.active)
    {
      if !connected { return true; }
      if !sent { return false; }
      subscriptions.MarkActive(topic);
      return true;
    }
  }

  datatype Context = NoContext | Live | Done

  datatype Status = Ok | NotRunning | AlreadyRunning | AlreadySubscribed | UnknownTopic | NotSent

  ghost predicate Shows(slot: Slot, s: Session)
    reads s.subscriptions
  {
    slot == Slot(s.id, s.subscriptions.desired)
  }

  lemma SwapRemoveShows(slots: seq<Slot>, sessions: seq<Session>, at: nat)
    requires at < |slots| == |sessions|
    requires forall k :: 0 <= k < |sessions| && k != at ==> Shows(slots[k], sessions[k])
    ensures forall k :: 0 <= k < |sessions| - 1 ==> Shows(SwapRemove(slots, at)[k], SwapRemove(sessions, at)[k])
  {
  }

  /** Every session has subscriptions of its own. */
  ghost predicate Apart(sessions: seq<Session>, repr: set<Subscriptions>) {
    && (forall i :: 0 <= i < |sessions| ==> sessions[i].subscriptions in repr)
    && forall i, j :: 0 <= i < j < |sessions| ==> sessions[i].subscriptions != sessions[j].subscriptions
  }

  ghost predicate Known(sessions: seq<Session>, members: set<Session>) {
    forall i :: 0 <= i < |sessions| ==> sessions[i] in members
  }

  lemma SwapRemoveApart(sessions: seq<Session>, repr: set<Subscriptions>, at: nat)
    requires at < |sessions| && Apart(sessions, repr)
    ensures Apart(SwapRemove(sessions, at), repr) && forall s :: s in SwapRemove(sessions, at) ==> s in sessions
  {
    var r := SwapRemove(sessions, at);
    assert forall k :: 0 <= k < |r| ==> r[k] == sessions[Before(|sessions|, at, k)];
  }

  lemma SwapRemoveGone(sessions: seq<Session>, repr: set<Subscriptions>, at: nat)
    requires at < |sessions| && Apart(sessions, repr)
    ensures sessions[at] !in SwapRemove(sessions, at)
  {
    var r := SwapRemove(sessions, at);
    assert forall k :: 0 <= k < |r| ==> r[k] == sessions[Before(|sessions|, at, k)];
  }

  lemma AppendApart(sessions: seq<Session>, repr: set<Subscriptions>, s: Session)
    requires Apart(sessions, repr) && s.subscriptions !in repr
    ensures Apart(sessions + [s], repr + {s.subscriptions})
  {
  }

  lemma AttachedIsPlaced(b: Book, topic: TopicId, max: nat)
    ensures var at := FirstFit(b.slots, max, 0);
            var slots := if at < |b.slots| then b.slots else b.slots + [Slot(b.next + 1, {})];
            Place(b, topic, max) == Placement.Book(slots[at := Slot(slots[at].id, slots[at].topics + {topic})],
                                                   b.home[topic := slots[at].id],
                                                   if at < |b.slots| then b.next else b.next + 1)
  {
    assert {} + {topic} == {topic};
    assert (b.slots + [Slot(b.next + 1, {})])[|b.slots| := Slot(b.next + 1, {topic})] == b.slots + [Slot(b.next + 1, {topic})];
  }

  ghost predicate HomesShow(home: map<TopicId, nat>, subscriptions: map<TopicId, Session>, sessions: seq<Session>) {
    && home.Keys == subscriptions.Keys
    && forall t :: t in subscriptions ==> subscriptions[t] in sessions && subscriptions[t].id == home[t]
  }

  /** When a session goes with its last topic, the others keep their sessions. */
  lemma OthersStay(book: Book, max: nat, at: nat, topic: TopicId,
                   subscriptions: map<TopicId, Session>, was: seq<Session>)
    requires at < |book.slots| == |was| && SlotOk(book, max, at) && book.slots[at].topics <= {topic}
    requires forall i :: 0 <= i < |was| ==> was[i].id == book.slots[i].id
    requires forall t :: t in subscriptions ==>
               t != topic && subscriptions[t] in was && t in book.home && subscriptions[t].id == book.home[t]
    ensures forall t :: t in subscriptions ==> subscriptions[t] in SwapRemove(was, at)
  {
    forall t | t in subscriptions ensures subscriptions[t] in SwapRemove(was, at) {
      var k :| 0 <= k < |was| && was[k] == subscriptions[t];
      assert t !in book.slots[at].topics;
      assert k != at;
      assert SwapRemove(was, at)[if k == |was| - 1 then at else k] == was[k];
    }
  }

  /** `Manager` */
  class Manager {
    const max: nat
    const router: Router
    var sessions: seq<Session>
    var subscriptions: map<TopicId, Session>
    var nextSessionID: nat
    var ctx: Context

    /** The state as a value. */
    ghost var book: Book

    ghost var Repr: set<Subscriptions>

    /** All sessions there have been. */
    ghost var Members: set<Session>

    /** `book` shows what the fields hold. */
    ghost predicate Mirrors()
      reads this, Repr
    {
      && max > 0
      && Apart(sessions, Repr) && Known(sessions, Members)
      && book.next == nextSessionID && |book.slots| == |sessions|
      && (forall i :: 0 <= i < |sessions| ==> Shows(book.slots[i], sessions[i]))
      && HomesShow(book.home, subscriptions, sessions)
    }

    ghost predicate Valid()
      reads this, Repr
    {
      Mirrors() && Placed(book, max)
    }

    constructor (max: nat)
      requires max > 0
      ensures Valid() && book == EMPTY && router.topics == map[] && this.max == max
      ensures fresh(router) && ctx == NoContext && sessions == []
    {
      this.max := max;
      router := new Router();
      sessions, subscriptions, nextSessionID, ctx := [], map[], 0, NoContext;
      book, Repr, Members := EMPTY, {}, {};
    }

    /** Under a running manager every session has been started. */
    ghost predicate Started()
      reads this, sessions
    {
      ctx == Live ==> forall i :: 0 <= i < |sessions| ==> sessions[i].running
    }

    /** `Run`, up to its wait for the context. */
    method Run() returns (r: Status)
      requires Valid()
      modifies this`ctx, sessions
      ensures Valid() && r == if old(ctx) == NoContext then Ok else AlreadyRunning
      ensures r == Ok ==> ctx == Live && Started()
      ensures r != Ok ==> ctx == old(ctx) && forall s :: s in sessions ==> s.running == old(s.running) && s.cancel == old(s.cancel)
      ensures forall s :: s in sessions ==> s.connected == old(s.connected)
    {
      if ctx != NoContext { return AlreadyRunning; }
      ctx := Live;
      var i := 0;
      while i < |sessions|
        invariant 0 <= i <= |sessions| && ctx == Live && forall k :: 0 <= k < i ==> sessions[k].running
        invariant forall s :: s in sessions ==> s.connected == old(s.connected)
      {
        sessions[i].Start(ctx);
        i := i + 1;
      }
      return Ok;
    }

    /** The loop of `pickSessionLocked`. */
    method FirstWithRoom() returns (k: nat)
      requires Mirrors()
      ensures k == FirstFit(book.slots, max, 0)
    {
      k := 0;
      while k < |sessions|
        invariant 0 <= k <= |book.slots| && FirstFit(book.slots, max, 0) == FirstFit(book.slots, max, k)
      {
        assert Shows(book.slots[k], sessions[k]);
        var count := sessions[k].subscriptions.Count();
        if count < max { return; }
        k := k + 1;
      }
    }

    /** `pickSessionLocked`: the first session with room, or a new one. */
    method PickSession() returns (s: Session, ghost at: nat)
      requires Mirrors()
      modifies this
      ensures Mirrors() && subscriptions == old(subscriptions) && ctx == old(ctx)
      ensures at == FirstFit(old(book).slots, max, 0) < |sessions| && sessions[at] == s
      ensures fresh(Repr - old(Repr)) && fresh(Members - old(Members))
      ensures sessions == if at < |old(book).slots| then old(sessions) else old(sessions) + [s]
      ensures s !in old(sessions) ==> fresh(s) && !s.connected && !s.running && s.cancel == Unset
      ensures book == if at < |old(book).slots| then old(book)
                      else Placement.Book(old(book).slots + [Slot(old(book).next + 1, {})], old(book).home, old(book).next + 1)
    {
      var k := FirstWithRoom();
      at := k;
      if k < |sessions| {
        s := sessions[k];
      } else {
        s := AppendSession();
      }
    }

    method AppendSession() returns (s: Session)
      requires Mirrors()
      modifies this`sessions, this`nextSessionID, this`book, this`Repr, this`Members
      ensures fresh(Members - old(Members)) && !s.connected && !s.running && s.cancel == Unset
      ensures Mirrors() && subscriptions == old(subscriptions) && ctx == old(ctx)
      ensures fresh(s) && fresh(s.subscriptions) && sessions == old(sessions) + [s] && Repr == old(Repr) + {s.subscriptions}
      ensures book == Placement.Book(old(book).slots + [Slot(old(book).next + 1, {})], old(book).home, old(book).next + 1)
    {
      nextSessionID := nextSessionID + 1;
      s := new Session(nextSessionID);
      assert forall k :: 0 <= k < |sessions| ==> old(Shows(book.slots[k], sessions[k]));
      AppendApart(sessions, Repr, s);
      sessions := sessions + [s];
      Repr, Members := Repr + {s.subscriptions}, Members + {s};
      book := Placement.Book(book.slots + [Slot(nextSessionID, {})], book.home, nextSessionID);
    }

    /** The registration of a new topic. */
    method Insert(topic: TopicId) returns (s: Session)
      requires Mirrors() && topic !in subscriptions
      modifies this, Repr
      ensures Mirrors() && ctx == old(ctx) && fresh(Repr - old(Repr)) && fresh(Members - old(Members))
      ensures book == Place(old(book), topic, max)
      ensures s in sessions && topic in subscriptions && subscriptions[topic] == s
      ensures sessions == old(sessions) || sessions == old(sessions) + [s]
      ensures s !in old(sessions) ==> fresh(s) && !s.connected && !s.running && s.cancel == Unset
    {
      ghost var at;
      s, at := PickSession();
      Attach(topic, s, at);
      AttachedIsPlaced(old(book), topic, max);
    }

    method Attach(topic: TopicId, s: Session, ghost at: nat)
      requires Mirrors() && topic !in subscriptions && at < |sessions| && sessions[at] == s
      modifies this`subscriptions, this`book, s.subscriptions
      ensures Mirrors() && topic in subscriptions && subscriptions[topic] == s
      ensures sessions == old(sessions) && ctx == old(ctx) && Repr == old(Repr) && Members == old(Members)
      ensures book == Placement.Book(old(book).slots[at := Slot(s.id, old(book).slots[at].topics + {topic})],
                                     old(book).home[topic := s.id], old(book).next)
      ensures s.id == old(book).slots[at].id
    {
      assert Shows(book.slots[at], s);
      assert forall k :: 0 <= k < |sessions| ==> old(Shows(book.slots[k], sessions[k]));
      var _ := s.subscriptions.Add(topic);
      subscriptions := subscriptions[topic := s];
      book := Placement.Book(book.slots[at := Slot(s.id, book.slots[at].topics + {topic})], book.home[topic := s.id], book.next);
    }

    /** What follows the lock of `Subscribe`. */
    method Open(s: Session, topic: TopicId, sent: bool) returns (ok: bool)
      requires Mirrors() && s in sessions
      modifies s`running, s`cancel, s.subscriptions
      ensures Mirrors() && (ok <==> !s.connected || sent)
      ensures s.running == (old(s.running) || ctx != NoContext)
      ensures s.cancel == if ctx == NoContext || old(s.running) then old(s.cancel) else Armed
    {
      s.Start(ctx);
      ok := s.Subscribe(topic, sent);
      assert forall k :: 0 <= k < |sessions| ==> old(Shows(book.slots[k], sessions[k])) && Shows(book.slots[k], sessions[k]);
    }

    /** A new topic, on a session that is running if the manager is. */
    method Introduce(topic: TopicId, sent: bool) returns (ok: bool)
      requires Mirrors() && topic !in subscriptions && ctx != Done
      modifies this, Repr, Members`running, Members`cancel
      ensures Mirrors() && ctx == old(ctx) && fresh(Repr - old(Repr)) && fresh(Members - old(Members))
      ensures book == Place(old(book), topic, max)
      ensures topic in subscriptions && (ok <==> !subscriptions[topic].connected || sent)
      ensures ctx == Live ==> subscriptions[topic].running
      ensures old(Started()) ==> Started()
      ensures forall s :: s in old(sessions) ==>
                if s == subscriptions[topic] && ctx == Live && !old(s.running) then s.running && s.cancel == Armed
                else s.running == old(s.running) && s.cancel == old(s.cancel)
    {
      var s := Insert(topic);
      ok := Open(s, topic, sent);
    }

    /** `Subscribe`.  A topic whose frame could not be sent stays subscribed. */
    method Subscribe(topic: TopicId, sent: bool) returns (r: Status)
      requires Valid()
      modifies this, Repr, Members`running, Members`cancel
      ensures Valid() && ctx == old(ctx) && fresh(Repr - old(Repr)) && fresh(Members - old(Members))
      ensures r == NotRunning <==> ctx == Done
      ensures ctx != Done ==> (r == AlreadySubscribed <==> topic in old(book).home)
      ensures r == NotRunning || r == AlreadySubscribed || r == Ok || r == NotSent
      ensures r == Ok || r == NotSent ==>
                && topic in subscriptions && (r == NotSent <==> subscriptions[topic].connected && !sent)
                && (ctx == Live ==> subscriptions[topic].running)
                && forall s :: s in old(sessions) ==>
                     if s == subscriptions[topic] && ctx == Live && !old(s.running) then s.running && s.cancel == Armed
                     else s.running == old(s.running) && s.cancel == old(s.cancel)
      ensures old(Started()) ==> Started()
      ensures sent ==> r != NotSent
      ensures book == if ctx == Done then old(book) else AfterSubscribe(old(book), topic, max)
    {
      if ctx == Done { return NotRunning; }
      if topic in subscriptions { return AlreadySubscribed; }
      SubscribeKeepsPlaced(book, topic, max);
      var ok := Introduce(topic, sent);
      return if ok then Ok else NotSent;
    }

    /** `removeSessionLocked` */
    method RemoveSession(target: Session, ghost at: nat)
      requires at < |sessions| && sessions[at] == target
      requires forall k :: 0 <= k < at ==> sessions[k] != target
      modifies this`sessions
      ensures sessions == SwapRemove(old(sessions), at)
    {
      var i := 0;
      while i < |sessions|
        invariant 0 <= i <= at && sessions == old(sessions)
      {
        if sessions[i] == target {
          sessions := sessions[i := sessions[|sessions| - 1]];
          sessions := sessions[..|sessions| - 1];
          return;
        }
        i := i + 1;
      }
    }

    /** Forgets a topic of the session at `at`, which may stay behind empty. */
    method Detach(topic: TopicId, s: Session, ghost at: nat) returns (count: nat)
      requires Mirrors() && at < |sessions| && sessions[at] == s
      modifies this`subscriptions, s.subscriptions
      ensures subscriptions == old(subscriptions) - {topic}
      ensures ctx == old(ctx) && sessions == old(sessions) && book == old(book)
      ensures Repr == old(Repr) && Members == old(Members) && (old(Started()) ==> Started())
      ensures count == |s.subscriptions.desired| && s.subscriptions.desired == old(s.subscriptions.desired) - {topic}
      ensures forall k :: 0 <= k < |sessions| && k != at ==> Shows(book.slots[k], sessions[k])
    {
      subscriptions := subscriptions - {topic};
      var _ := s.subscriptions.Remove(topic);
      count := s.subscriptions.Count();
      assert forall k :: 0 <= k < |sessions| && k != at ==> old(Shows(book.slots[k], sessions[k]));
    }

    method DropSession(topic: TopicId, s: Session, ghost at: nat)
      requires max > 0 && at < |book.slots| == |sessions| && sessions[at] == s && book.next == nextSessionID
      requires Apart(sessions, Repr) && Known(sessions, Members)
      requires forall k :: 0 <= k < |sessions| && k != at ==> Shows(book.slots[k], sessions[k])
      requires HomesShow(book.home - {topic}, subscriptions, SwapRemove(sessions, at))
      modifies this`sessions, this`book
      ensures Mirrors() && s !in sessions && (old(Started()) ==> Started())
      ensures book == Placement.Book(SwapRemove(old(book).slots, at), old(book).home - {topic}, old(book).next)
    {
      SwapRemoveShows(book.slots, sessions, at);
      SwapRemoveApart(sessions, Repr, at);
      SwapRemoveGone(sessions, Repr, at);
      RemoveSession(s, at);
      book := Placement.Book(SwapRemove(book.slots, at), book.home - {topic}, book.next);
    }

    ghost method KeepSession(topic: TopicId, s: Session, at: nat)
      requires max > 0 && at < |book.slots| == |sessions| && sessions[at] == s && book.next == nextSessionID
      requires Apart(sessions, Repr) && Known(sessions, Members)
      requires forall k :: 0 <= k < |sessions| && k != at ==> Shows(book.slots[k], sessions[k])
      requires HomesShow(book.home - {topic}, subscriptions, sessions)
      modifies this`book
      ensures Mirrors() && (old(Started()) ==> Started())
      ensures book == Placement.Book(old(book).slots[at := Slot(s.id, s.subscriptions.desired)],
                                     old(book).home - {topic}, old(book).next)
    {
      book := Placement.Book(book.slots[at := Slot(s.id, s.subscriptions.desired)], book.home - {topic}, book.next);
    }

    /** Forgets a topic, and its session with the last of them. */
    method Forget(topic: TopicId, s: Session, ghost at: nat) returns (empty: bool)
      requires Mirrors() && topic in subscriptions && at < |sessions| && sessions[at] == s
      requires SlotOk(book, max, at) && Position(book.slots, book.home[topic], 0) == at
      modifies this, Repr
      ensures Mirrors() && ctx == old(ctx) && Repr == old(Repr) && Members == old(Members)
      ensures book == AfterUnsubscribe(old(book), topic)
      ensures empty <==> s.subscriptions.desired == {}
      ensures s in sessions <==> !empty
      ensures old(Started()) ==> Started()
    {
      assert Shows(book.slots[at], sessions[at]);
      var count := Detach(topic, s, at);
      empty := count == 0;
      if empty {
        OthersStay(book, max, at, topic, subscriptions, sessions);
        DropSession(topic, s, at);
      } else {
        KeepSession(topic, s, at);
      }
    }

    /** `Unsubscribe` */
    method Unsubscribe(topic: TopicId, sent: bool) returns (r: Status)
      requires Valid()
      modifies this, router, Repr, Members`cancel
      ensures Valid() && ctx == old(ctx) && Repr == old(Repr) && Members == old(Members)
      ensures r == UnknownTopic <==> topic !in old(book).home
      ensures r != UnknownTopic ==>
                var s := old(subscriptions[topic]);
                && (r == NotSent <==> s.connected && !sent)
                && (s in sessions <==> s.subscriptions.desired != {})
                && s.cancel == (if s !in sessions && r == Ok && old(s.cancel) != Unset then Called else old(s.cancel))
                && forall t :: t in old(sessions) && t != s ==> t.cancel == old(t.cancel)
      ensures r == UnknownTopic ==> forall t :: t in sessions ==> t.cancel == old(t.cancel)
      ensures old(Started()) ==> Started()
      ensures r == UnknownTopic || r == Ok || r == NotSent
      ensures book == AfterUnsubscribe(old(book), topic)
      ensures router.topics == if r == UnknownTopic then old(router.topics) else old(router.topics) - {topic}
    {
      if topic !in subscriptions { return UnknownTopic; }
      UnsubscribeKeepsPlaced(book, topic, max);
      var s; ghost var at;
      s, at := SessionOf(topic);
      r := Withdraw(topic, s, at, sent);
    }

    /** The rest of `Unsubscribe`, for a topic of session `at`. */
    method Withdraw(topic: TopicId, s: Session, ghost at: nat, sent: bool) returns (r: Status)
      requires Mirrors() && topic in subscriptions && at < |sessions| && sessions[at] == s
      requires SlotOk(book, max, at) && Position(book.slots, book.home[topic], 0) == at
      modifies this, router, Repr, s`cancel
      ensures Mirrors() && ctx == old(ctx) && Repr == old(Repr) && Members == old(Members)
      ensures book == AfterUnsubscribe(old(book), topic) && router.topics == old(router.topics) - {topic}
      ensures r == if s.connected && !sent then NotSent else Ok
      ensures s in sessions <==> s.subscriptions.desired != {}
      ensures s.cancel == (if s !in sessions && r == Ok && old(s.cancel) != Unset then Called else old(s.cancel))
      ensures old(Started()) ==> Started()
    {
      var empty := Forget(topic, s, at);
      r := Finish(topic, s, empty, sent);
    }

    method SessionOf(topic: TopicId) returns (s: Session, ghost at: nat)
      requires Valid() && topic in subscriptions
      ensures at < |sessions| && sessions[at] == s == subscriptions[topic]
      ensures SlotOk(book, max, at) && Position(book.slots, book.home[topic], 0) == at
    {
      s := subscriptions[topic];
      at :| 0 <= at < |sessions| && sessions[at] == s;
      assert Shows(book.slots[at], s) && SlotOk(book, max, at);
      PositionIs(book.slots, at);
    }

    /** What follows the lock of `Unsubscribe`: an emptied session is stopped, but
        not when its frame could not be sent. */
    method Finish(topic: TopicId, s: Session, empty: bool, sent: bool) returns (r: Status)
      requires Mirrors()
      modifies router, s`cancel
      ensures ctx == old(ctx) && (old(Started()) ==> Started())
      ensures Mirrors() && router.topics == old(router.topics) - {topic}
      ensures r == if s.connected && !sent then NotSent else Ok
      ensures s.cancel == if empty && r == Ok && old(s.cancel) != Unset then Called else old(s.cancel)
    {
      router.RemoveTopic(topic);
      if s.connected && !sent { return NotSent; }
      if empty { s.Stop(); }
      return Ok;
    }

    /** `AddConsumer` */
    method AddConsumer(topic: TopicId, consumer: Consumer) returns (r: Status)
      requires Valid()
      modifies router
      ensures Valid() && r == if topic in book.home then Ok else UnknownTopic
      ensures router.topics
           == if r == Ok then AfterAdd(old(router.topics), topic, consumer) else old(router.topics)
    {
      if topic !in subscriptions { return UnknownTopic; }
      router.AddConsumer(topic, consumer);
      return Ok;
    }

    /** `RemoveConsumer` */
    method RemoveConsumer(topic: TopicId, consumer: Consumer) returns (r: Status)
      requires Valid()
      modifies router
      ensures Valid() && r == if topic in book.home then Ok else UnknownTopic
      ensures router.topics
           == if r == Ok then AfterRemove(old(router.topics), topic, consumer) else old(router.topics)
    {
      if topic !in subscriptions { return UnknownTopic; }
      router.RemoveConsumer(topic, consumer);
      return Ok;
    }
  }
}
