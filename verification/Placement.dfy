/** Which session serves which topic: the placement of
    libs/shared/websocket/manager.go as a value, and what every run of
    subscribes and unsubscribes keeps.  `Managers` holds the manager that
    works in place. */
module Placement {
  import opened Types

  /** A session with its desired topics. */
  datatype Slot = Slot(id: nat, topics: set<TopicId>)

  /** The sessions in order, the session of every subscribed topic, and the last
      session id given out. */
  datatype Book = Book(slots: seq<Slot>, home: map<TopicId, nat>, next: nat)

  const EMPTY: Book := Book([], map[], 0)

  /** The first session from `from` on that has room, or the number of sessions. */
  function FirstFit(slots: seq<Slot>, max: nat, from: nat): (i: nat)
    requires from <= |slots|
    ensures from <= i <= |slots|
    ensures i < |slots| ==> |slots[i].topics| < max
    ensures forall k :: from <= k < i ==> |slots[k].topics| >= max
    decreases |slots| - from
  {
    if from == |slots| || |slots[from].topics| < max then from else FirstFit(slots, max, from + 1)
  }

  /** `pickSessionLocked` and the insertion behind it. */
  function Place(b: Book, topic: TopicId, max: nat): Book {
    var i := FirstFit(b.slots, max, 0);
    if i < |b.slots| then
      var s := b.slots[i];
      Book(b.slots[i := Slot(s.id, s.topics + {topic})], b.home[topic := s.id], b.next)
    else
      Book(b.slots + [Slot(b.next + 1, {topic})], b.home[topic := b.next + 1], b.next + 1)
  }

  /** `Subscribe`, once the context is live; a known topic is refused. */
  function AfterSubscribe(b: Book, topic: TopicId, max: nat): Book {
    if topic in b.home then b else Place(b, topic, max)
  }

  /** The position of the session with this id, or the number of sessions. */
  function Position(slots: seq<Slot>, id: nat, from: nat): (i: nat)
    requires from <= |slots|
    ensures from <= i <= |slots|
    ensures i < |slots| ==> slots[i].id == id
    ensures forall k :: from <= k < i ==> slots[k].id != id
    decreases |slots| - from
  {
    if from == |slots| || slots[from].id == id then from else Position(slots, id, from + 1)
  }

  /** `removeSessionLocked`: the last session takes the place. */
  function SwapRemove<T>(slots: seq<T>, i: nat): (r: seq<T>)
    requires i < |slots|
    ensures |r| == |slots| - 1
  {
    slots[i := slots[|slots| - 1]][..|slots| - 1]
  }

  /** `Unsubscribe`: an emptied session goes. */
  function AfterUnsubscribe(b: Book, topic: TopicId): Book {
    if topic !in b.home then b
    else
      var i := Position(b.slots, b.home[topic], 0);
      if i == |b.slots| then b.(home := b.home - {topic})
      else
        var left := b.slots[i].topics - {topic};
        Book(if left == {} then SwapRemove(b.slots, i) else b.slots[i := Slot(b.slots[i].id, left)],
             b.home - {topic}, b.next)
  }

  // ---------------------------------------------------------------------
  // The invariant

  /** Session `i` holds exactly the topics whose home it is, between one and
      `max` of them. */
  ghost predicate SlotOk(b: Book, max: nat, i: nat)
    requires i < |b.slots|
  {
    && 1 <= |b.slots[i].topics| <= max
    && 1 <= b.slots[i].id <= b.next
    && forall t :: t in b.slots[i].topics <==> t in b.home && b.home[t] == b.slots[i].id
  }

  ghost predicate DistinctIds(slots: seq<Slot>) {
    forall i, j :: 0 <= i < j < |slots| ==> slots[i].id != slots[j].id
  }

  ghost predicate Placed(b: Book, max: nat) {
    && DistinctIds(b.slots)
    && (forall i :: 0 <= i < |b.slots| ==> SlotOk(b, max, i))
    && (forall t :: t in b.home ==> Position(b.slots, b.home[t], 0) < |b.slots|)
  }

  /** What the invariant means: the desired sets partition the subscribed topics. */
  lemma PlacedPartitions(b: Book, max: nat)
    requires Placed(b, max)
    ensures forall t :: t in b.home <==> exists i :: 0 <= i < |b.slots| && t in b.slots[i].topics
    ensures forall i, j :: 0 <= i < j < |b.slots| ==> b.slots[i].topics !! b.slots[j].topics && b.slots[i].id != b.slots[j].id
  {
    forall t | t in b.home ensures exists i :: 0 <= i < |b.slots| && t in b.slots[i].topics {
      var i := Position(b.slots, b.home[t], 0);
      assert SlotOk(b, max, i) && t in b.slots[i].topics;
    }
    forall i, j | 0 <= i < j < |b.slots| ensures b.slots[i].topics !! b.slots[j].topics {
      assert SlotOk(b, max, i) && SlotOk(b, max, j);
    }
    forall i, t | 0 <= i < |b.slots| && t in b.slots[i].topics ensures t in b.home {
      assert SlotOk(b, max, i);
    }
  }

  lemma PositionIs(slots: seq<Slot>, i: nat)
    requires DistinctIds(slots) && i < |slots|
    ensures Position(slots, slots[i].id, 0) == i
  {
    var p := Position(slots, slots[i].id, 0);
    assert p <= i;
  }

  lemma PositionExists(slots: seq<Slot>, id: nat, i: nat)
    requires i < |slots| && slots[i].id == id
    ensures Position(slots, id, 0) < |slots|
  {
  }

  lemma PlaceOld(b: Book, topic: TopicId, max: nat)
    requires Placed(b, max) && topic !in b.home && FirstFit(b.slots, max, 0) < |b.slots|
    ensures Placed(Place(b, topic, max), max)
  {
    var i := FirstFit(b.slots, max, 0);
    var c := Place(b, topic, max);
    forall k | 0 <= k < |c.slots| ensures SlotOk(c, max, k) {
      assert SlotOk(b, max, k) && SlotOk(b, max, i);
      assert c.slots[k].id == b.slots[k].id;
      if k == i { assert topic !in b.slots[i].topics && |c.slots[i].topics| == |b.slots[i].topics| + 1; }
    }
    forall t | t in c.home ensures Position(c.slots, c.home[t], 0) < |c.slots| {
      if t == topic {
        PositionExists(c.slots, c.home[t], i);
      } else {
        PositionExists(c.slots, c.home[t], Position(b.slots, b.home[t], 0));
      }
    }
  }

  lemma HomesBelow(b: Book, max: nat)
    requires Placed(b, max)
    ensures forall t :: t in b.home ==> b.home[t] <= b.next
  {
    forall t | t in b.home ensures b.home[t] <= b.next {
      assert SlotOk(b, max, Position(b.slots, b.home[t], 0));
    }
  }

  lemma PlaceNew(b: Book, topic: TopicId, max: nat)
    requires Placed(b, max) && topic !in b.home && FirstFit(b.slots, max, 0) == |b.slots| && max > 0
    ensures Placed(Place(b, topic, max), max)
  {
    var n := |b.slots|;
    var c := Place(b, topic, max);
    HomesBelow(b, max);
    forall k | 0 <= k < n ensures c.slots[k] == b.slots[k] && c.slots[k].id <= b.next && SlotOk(c, max, k) {
      assert SlotOk(b, max, k);
    }
    assert c.slots[n] == Slot(b.next + 1, {topic}) && SlotOk(c, max, n);
    forall t | t in c.home ensures Position(c.slots, c.home[t], 0) < |c.slots| {
      PositionExists(c.slots, c.home[t], if t == topic then n else Position(b.slots, b.home[t], 0));
    }
  }

  lemma SubscribeKeepsPlaced(b: Book, topic: TopicId, max: nat)
    requires Placed(b, max) && max > 0
    ensures Placed(AfterSubscribe(b, topic, max), max)
  {
    if topic !in b.home {
      if FirstFit(b.slots, max, 0) < |b.slots| { PlaceOld(b, topic, max); } else { PlaceNew(b, topic, max); }
    }
  }

  /** Where the session at position `k` after the removal of `i` stood. */
  function Before(n: nat, i: nat, k: nat): nat
    requires n > 0
  {
    if k == i then n - 1 else k
  }

  lemma SwapRemoveAt<T>(slots: seq<T>, i: nat, k: nat)
    requires i < |slots| && k < |slots| - 1
    ensures SwapRemove(slots, i)[k] == slots[if k == i then |slots| - 1 else k]
  {
  }

  lemma RemoveTopic(b: Book, topic: TopicId, max: nat)
    requires Placed(b, max) && topic in b.home
    requires var i := Position(b.slots, b.home[topic], 0); i < |b.slots| && b.slots[i].topics != {topic}
    ensures Placed(AfterUnsubscribe(b, topic), max)
  {
    var i := Position(b.slots, b.home[topic], 0);
    var c := AfterUnsubscribe(b, topic);
    assert SlotOk(b, max, i);
    assert b.slots[i].topics == (b.slots[i].topics - {topic}) + {topic};
    forall k | 0 <= k < |c.slots| ensures SlotOk(c, max, k) {
      assert SlotOk(b, max, k) && c.slots[k].id == b.slots[k].id;
      if k == i { assert |c.slots[k].topics| == |b.slots[k].topics| - 1 && c.slots[k].topics != {}; }
    }
    forall t | t in c.home ensures Position(c.slots, c.home[t], 0) < |c.slots| {
      PositionExists(c.slots, c.home[t], Position(b.slots, b.home[t], 0));
    }
  }

  lemma RemoveSession(b: Book, topic: TopicId, max: nat)
    requires Placed(b, max) && topic in b.home
    requires var i := Position(b.slots, b.home[topic], 0); i < |b.slots| && b.slots[i].topics == {topic}
    ensures Placed(AfterUnsubscribe(b, topic), max)
  {
    var i := Position(b.slots, b.home[topic], 0);
    var c := AfterUnsubscribe(b, topic);
    var n := |b.slots|;
    forall k | 0 <= k < n - 1 ensures c.slots[k] == b.slots[Before(n, i, k)] && SlotOk(c, max, k) {
      SlotStays(b, topic, max, i, k);
    }
    forall t | t in c.home ensures Position(c.slots, c.home[t], 0) < |c.slots| {
      HomeFound(b, topic, max, i, t);
    }
  }

  lemma SlotStays(b: Book, topic: TopicId, max: nat, i: nat, k: nat)
    requires Placed(b, max) && topic in b.home && i < |b.slots| && k < |b.slots| - 1
    requires i == Position(b.slots, b.home[topic], 0) && b.slots[i].topics == {topic}
    ensures AfterUnsubscribe(b, topic).slots[k] == b.slots[Before(|b.slots|, i, k)]
    ensures SlotOk(AfterUnsubscribe(b, topic), max, k)
  {
    SwapRemoveAt(b.slots, i, k);
    assert SlotOk(b, max, i) && SlotOk(b, max, Before(|b.slots|, i, k)) && Before(|b.slots|, i, k) != i;
  }

  lemma HomeFound(b: Book, topic: TopicId, max: nat, i: nat, t: TopicId)
    requires Placed(b, max) && topic in b.home && t in b.home && t != topic && i < |b.slots|
    requires i == Position(b.slots, b.home[topic], 0) && b.slots[i].topics == {topic}
    ensures Position(SwapRemove(b.slots, i), b.home[t], 0) < |b.slots| - 1
  {
    var n, p := |b.slots|, Position(b.slots, b.home[t], 0);
    assert SlotOk(b, max, i);
    assert p != i;
    var q := if p == n - 1 then i else p;
    SwapRemoveAt(b.slots, i, q);
    PositionExists(SwapRemove(b.slots, i), b.home[t], q);
  }

  lemma UnsubscribeKeepsPlaced(b: Book, topic: TopicId, max: nat)
    requires Placed(b, max)
    ensures Placed(AfterUnsubscribe(b, topic), max)
  {
    if topic in b.home {
      if b.slots[Position(b.slots, b.home[topic], 0)].topics == {topic} {
        RemoveSession(b, topic, max);
      } else {
        RemoveTopic(b, topic, max);
      }
    }
  }

  // ---------------------------------------------------------------------
  // How many sessions

  function Total(slots: seq<Slot>): nat {
    if slots == [] then 0 else Total(slots[..|slots| - 1]) + |slots[|slots| - 1].topics|
  }

  function Topics(slots: seq<Slot>): (r: set<TopicId>)
    ensures forall t :: t in r <==> exists i :: 0 <= i < |slots| && t in slots[i].topics
  {
    if slots == [] then {}
    else
      var rest := slots[..|slots| - 1];
      var last := slots[|slots| - 1];
      assert forall i :: 0 <= i < |slots| ==> if i < |rest| then rest[i] == slots[i] else slots[i] == last;
      Topics(rest) + last.topics
  }

  lemma {:induction false} TotalCounts(slots: seq<Slot>)
    requires forall i, j :: 0 <= i < j < |slots| ==> slots[i].topics !! slots[j].topics
    ensures |Topics(slots)| == Total(slots)
  {
    if slots != [] {
      var rest := slots[..|slots| - 1];
      TotalCounts(rest);
      assert Topics(rest) !! slots[|slots| - 1].topics;
    }
  }

  lemma PlacedTotal(b: Book, max: nat)
    requires Placed(b, max)
    ensures Total(b.slots) == |b.home.Keys|
  {
    PlacedPartitions(b, max);
    TotalCounts(b.slots);
    assert Topics(b.slots) == b.home.Keys;
  }

  lemma {:induction false} TotalBetween(slots: seq<Slot>, low: nat, high: nat)
    requires forall i :: 0 <= i < |slots| ==> low <= |slots[i].topics| <= high
    ensures |slots| * low <= Total(slots) <= |slots| * high
  {
    if slots != [] {
      TotalBetween(slots[..|slots| - 1], low, high);
      assert |slots| * low == (|slots| - 1) * low + low;
      assert |slots| * high == (|slots| - 1) * high + high;
    }
  }

  datatype Op = Sub(topic: TopicId) | Unsub(topic: TopicId)

  function Apply(b: Book, op: Op, max: nat): Book {
    match op
    case Sub(t) => AfterSubscribe(b, t, max)
    case Unsub(t) => AfterUnsubscribe(b, t)
  }

  function Run(b: Book, ops: seq<Op>, max: nat): Book
    decreases |ops|
  {
    if ops == [] then b else Run(Apply(b, ops[0], max), ops[1..], max)
  }

  /** The largest number of topics subscribed at any point of the run. */
  function Peak(b: Book, ops: seq<Op>, max: nat): nat
    decreases |ops|
  {
    var now := |b.home.Keys|;
    if ops == [] then now
    else
      var later := Peak(Apply(b, ops[0], max), ops[1..], max);
      if now > later then now else later
  }

  function CeilDiv(n: nat, m: nat): nat
    requires m > 0
  {
    (n + m - 1) / m
  }

  lemma ProductMonotone(a: int, b: int, m: nat)
    ensures a <= b ==> a * m <= b * m
  {
  }

  lemma CeilDivBetween(n: nat, m: nat, k: nat)
    requires m > 0 && n <= k * m
    ensures CeilDiv(n, m) <= k
  {
    assert CeilDiv(n, m) * m <= n + m - 1;
    assert (k + 1) * m == k * m + m;
    ProductMonotone(k + 1, CeilDiv(n, m), m);
  }

  lemma CeilDivAbove(n: nat, m: nat, k: nat)
    requires m > 0 && (k > 0 ==> (k - 1) * m < n)
    ensures k <= CeilDiv(n, m)
  {
    assert n + m - 1 < (CeilDiv(n, m) + 1) * m;
    assert k * m == (k - 1) * m + m;
    ProductMonotone(CeilDiv(n, m) + 1, k, m);
  }

  /** A session was opened only when all others were full. */
  ghost predicate OpenedFor(b: Book, max: nat, peak: nat) {
    |b.home.Keys| <= peak && (|b.slots| > 0 ==> (|b.slots| - 1) * max < peak)
  }

  lemma HomeGrows(b: Book, topic: TopicId, max: nat)
    requires topic !in b.home
    ensures |AfterSubscribe(b, topic, max).home.Keys| == |b.home.Keys| + 1
  {
    assert AfterSubscribe(b, topic, max).home.Keys == b.home.Keys + {topic};
  }

  lemma HomeShrinks(b: Book, topic: TopicId)
    ensures |AfterUnsubscribe(b, topic).home.Keys| <= |b.home.Keys|
    ensures |AfterUnsubscribe(b, topic).slots| <= |b.slots|
  {
    if topic in b.home {
      assert AfterUnsubscribe(b, topic).home.Keys == b.home.Keys - {topic};
    }
  }

  lemma SubscribeOpens(b: Book, topic: TopicId, max: nat, peak: nat)
    requires Placed(b, max) && OpenedFor(b, max, peak) && topic !in b.home && max > 0
    requires |b.home.Keys| + 1 <= peak
    ensures OpenedFor(AfterSubscribe(b, topic, max), max, peak)
  {
    HomeGrows(b, topic, max);
    if FirstFit(b.slots, max, 0) == |b.slots| {
      forall i | 0 <= i < |b.slots| ensures max <= |b.slots[i].topics| <= max { assert SlotOk(b, max, i); }
      TotalBetween(b.slots, max, max);
      PlacedTotal(b, max);
    }
  }

  lemma SubKeeps(b: Book, t: TopicId, max: nat, peak: nat)
    requires Placed(b, max) && max > 0 && OpenedFor(b, max, peak) && |AfterSubscribe(b, t, max).home.Keys| <= peak
    ensures Placed(AfterSubscribe(b, t, max), max) && OpenedFor(AfterSubscribe(b, t, max), max, peak)
  {
    SubscribeKeepsPlaced(b, t, max);
    if t !in b.home {
      HomeGrows(b, t, max);
      SubscribeOpens(b, t, max, peak);
    }
  }

  lemma UnsubKeeps(b: Book, t: TopicId, max: nat, peak: nat)
    requires Placed(b, max) && max > 0 && OpenedFor(b, max, peak)
    ensures Placed(AfterUnsubscribe(b, t), max) && OpenedFor(AfterUnsubscribe(b, t), max, peak)
  {
    UnsubscribeKeepsPlaced(b, t, max);
    HomeShrinks(b, t);
    ProductMonotone(|AfterUnsubscribe(b, t).slots| - 1, |b.slots| - 1, max);
  }

  lemma StepKeeps(b: Book, op: Op, max: nat, peak: nat)
    requires Placed(b, max) && max > 0 && OpenedFor(b, max, peak) && |Apply(b, op, max).home.Keys| <= peak
    ensures Placed(Apply(b, op, max), max) && OpenedFor(Apply(b, op, max), max, peak)
  {
    match op {
      case Sub(t) => SubKeeps(b, t, max, peak);
      case Unsub(t) => UnsubKeeps(b, t, max, peak);
    }
  }

  lemma {:induction false} RunKeeps(b: Book, ops: seq<Op>, max: nat, peak: nat)
    requires Placed(b, max) && max > 0 && OpenedFor(b, max, peak) && Peak(b, ops, max) <= peak
    ensures Placed(Run(b, ops, max), max) && OpenedFor(Run(b, ops, max), max, peak)
    decreases |ops|
  {
    if ops != [] {
      var c := Apply(b, ops[0], max);
      assert |c.home.Keys| <= Peak(c, ops[1..], max) <= peak;
      StepKeeps(b, ops[0], max, peak);
      RunKeeps(c, ops[1..], max, peak);
    }
  }

  /** Session placement.  After every run the desired sets partition the
      subscribed topics, every session has between one and `max` of them, and the
      sessions number at least what the topics need and at most what they needed
      at their peak. */
  lemma PlacementHolds(ops: seq<Op>, max: nat)
    requires max > 0
    ensures var b := Run(EMPTY, ops, max);
            && Placed(b, max)
            && CeilDiv(|b.home.Keys|, max) <= |b.slots| <= CeilDiv(Peak(EMPTY, ops, max), max)
  {
    var peak := Peak(EMPTY, ops, max);
    RunKeeps(EMPTY, ops, max, peak);
    var b := Run(EMPTY, ops, max);
    PlacedTotal(b, max);
    forall i | 0 <= i < |b.slots| ensures 0 <= |b.slots[i].topics| <= max { assert SlotOk(b, max, i); }
    TotalBetween(b.slots, 0, max);
    CeilDivBetween(|b.home.Keys|, max, |b.slots|);
    CeilDivAbove(peak, max, |b.slots|);
  }

  lemma {:induction false} SubscribeOnlyPeak(b: Book, ops: seq<Op>, max: nat)
    requires forall k :: 0 <= k < |ops| ==> ops[k].Sub?
    ensures Peak(b, ops, max) == |Run(b, ops, max).home.Keys| >= |b.home.Keys|
    decreases |ops|
  {
    if ops != [] {
      if ops[0].topic !in b.home { HomeGrows(b, ops[0].topic, max); }
      SubscribeOnlyPeak(Apply(b, ops[0], max), ops[1..], max);
    }
  }

  /** A run of subscribes alone opens exactly as many sessions as its topics need. */
  lemma SubscribeOnlyIsTight(ops: seq<Op>, max: nat)
    requires max > 0 && forall k :: 0 <= k < |ops| ==> ops[k].Sub?
    ensures var b := Run(EMPTY, ops, max); |b.slots| == CeilDiv(|b.home.Keys|, max)
  {
    PlacementHolds(ops, max);
    SubscribeOnlyPeak(EMPTY, ops, max);
  }
}
