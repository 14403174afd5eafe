/** Who receives a topic: the consumer lists of
    libs/shared/websocket/router.go.  A consumer stands for its address. */
module Routers {
  import opened Types

  type Consumer = nat
  type Routes = map<TopicId, seq<Consumer>>

  function ListOf(routes: Routes, topic: TopicId): seq<Consumer> {
    if topic in routes then routes[topic] else []
  }

  /** `addConsumer`: a consumer is listed once. */
  function AfterAdd(routes: Routes, topic: TopicId, c: Consumer): Routes {
    if c in ListOf(routes, topic) then routes else routes[topic := ListOf(routes, topic) + [c]]
  }

  /** The first position of `c` from `from` on, or the length. */
  function IndexOf(list: seq<Consumer>, c: Consumer, from: nat): (i: nat)
    requires from <= |list|
    ensures from <= i <= |list|
    ensures i < |list| ==> list[i] == c
    ensures forall k :: from <= k < i ==> list[k] != c
    decreases |list| - from
  {
    if from == |list| || list[from] == c then from else IndexOf(list, c, from + 1)
  }

  /** `removeConsumer`: the last one takes the place; an empty list goes. */
  function AfterRemove(routes: Routes, topic: TopicId, c: Consumer): Routes {
    var list := ListOf(routes, topic);
    var i := IndexOf(list, c, 0);
    if i == |list| then routes
    else if |list| == 1 then routes - {topic}
    else routes[topic := list[i := list[|list| - 1]][..|list| - 1]]
  }

  ghost predicate NoDuplicates(list: seq<Consumer>) {
    forall i, j :: 0 <= i < j < |list| ==> list[i] != list[j]
  }

  /** Lists are non-empty and name nobody twice. */
  ghost predicate RoutesOk(routes: Routes) {
    forall t :: t in routes ==> routes[t] != [] && NoDuplicates(routes[t])
  }

  /** The consumers a frame of `topic` goes to. */
  function Receivers(routes: Routes, topic: TopicId): set<Consumer> {
    Elements(ListOf(routes, topic))
  }

  lemma AddReceives(routes: Routes, topic: TopicId, c: Consumer)
    requires RoutesOk(routes)
    ensures RoutesOk(AfterAdd(routes, topic, c))
    ensures forall t :: Receivers(AfterAdd(routes, topic, c), t)
                        == if t == topic then Receivers(routes, t) + {c} else Receivers(routes, t)
  {
    forall t ensures Receivers(AfterAdd(routes, topic, c), t)
                     == if t == topic then Receivers(routes, t) + {c} else Receivers(routes, t)
    {
      if t != topic { assert ListOf(AfterAdd(routes, topic, c), t) == ListOf(routes, t); }
    }
  }

  lemma Dropped(list: seq<Consumer>, c: Consumer)
    requires NoDuplicates(list) && c in list
    ensures var i := IndexOf(list, c, 0);
            && i < |list|
            && NoDuplicates(list[i := list[|list| - 1]][..|list| - 1])
            && Elements(list[i := list[|list| - 1]][..|list| - 1]) == Elements(list) - {c}
  {
    var i := IndexOf(list, c, 0);
    var n := |list|;
    var r := list[i := list[n - 1]][..n - 1];
    assert forall k :: 0 <= k < n - 1 ==> r[k] == if k == i then list[n - 1] else list[k];
    forall x | x in Elements(list) - {c} ensures x in Elements(r) {
      var k :| 0 <= k < n && list[k] == x;
      assert r[if k == n - 1 then i else k] == x;
    }
  }

  /** Consumers keep their order; the one removed leaves its place to the last. */
  lemma ListOrder(routes: Routes, topic: TopicId, c: Consumer)
    requires RoutesOk(routes)
    ensures c !in ListOf(routes, topic) ==>
              && ListOf(AfterAdd(routes, topic, c), topic) == ListOf(routes, topic) + [c]
              && AfterRemove(routes, topic, c) == routes
    ensures c in ListOf(routes, topic) ==>
              var was, now := ListOf(routes, topic), ListOf(AfterRemove(routes, topic, c), topic);
              && AfterAdd(routes, topic, c) == routes
              && |now| == |was| - 1
              && forall k :: 0 <= k < |now| ==> now[k] == if was[k] == c then was[|was| - 1] else was[k]
  {
    var list := ListOf(routes, topic);
    if c in list { Dropped(list, c); }
  }

  lemma RemoveForgets(routes: Routes, topic: TopicId, c: Consumer)
    requires RoutesOk(routes)
    ensures RoutesOk(AfterRemove(routes, topic, c))
    ensures forall t :: Receivers(AfterRemove(routes, topic, c), t)
                        == if t == topic then Receivers(routes, t) - {c} else Receivers(routes, t)
  {
    var list := ListOf(routes, topic);
    if c in list { Dropped(list, c); }
    forall t ensures Receivers(AfterRemove(routes, topic, c), t)
                     == if t == topic then Receivers(routes, t) - {c} else Receivers(routes, t)
    {
      if t != topic { assert ListOf(AfterRemove(routes, topic, c), t) == ListOf(routes, t); }
    }
  }

  lemma AddKeepsRoutes(routes: Routes, topic: TopicId, c: Consumer)
    requires RoutesOk(routes)
    ensures RoutesOk(AfterAdd(routes, topic, c)) && AfterAdd(routes, topic, c).Keys <= routes.Keys + {topic}
  {
    AddReceives(routes, topic, c);
  }

  lemma RemoveKeepsRoutes(routes: Routes, topic: TopicId, c: Consumer)
    requires RoutesOk(routes)
    ensures RoutesOk(AfterRemove(routes, topic, c)) && AfterRemove(routes, topic, c).Keys <= routes.Keys
  {
    RemoveForgets(routes, topic, c);
  }

  lemma {:induction false} DistinctCount(list: seq<Consumer>)
    requires NoDuplicates(list)
    ensures |Elements(list)| == |list|
  {
    if list != [] {
      var rest := list[..|list| - 1];
      DistinctCount(rest);
      assert Elements(list) == Elements(rest) + {list[|list| - 1]};
    }
  }

  /** `router` */
  class Router {
    var topics: Routes

    constructor ()
      ensures topics == map[]
    {
      topics := map[];
    }

    method AddConsumer(topic: TopicId, consumer: Consumer)
      modifies this
      ensures topics == AfterAdd(old(topics), topic, consumer)
    {
      var list := ListOf(topics, topic);
      var i := 0;
      while i < |list|
        invariant 0 <= i <= |list| && consumer !in list[..i]
      {
        if list[i] == consumer { return; }
        i := i + 1;
      }
      topics := topics[topic := list + [consumer]];
    }

    method RemoveConsumer(topic: TopicId, consumer: Consumer)
      modifies this
      ensures topics == AfterRemove(old(topics), topic, consumer)
    {
      var list := ListOf(topics, topic);
      var i := 0;
      while i < |list|
        invariant 0 <= i <= |list| && IndexOf(list, consumer, 0) == IndexOf(list, consumer, i)
        invariant topics == old(topics)
      {
        if list[i] == consumer {
          list := list[i := list[|list| - 1]];
          list := list[..|list| - 1];
          if |list| == 0 {
            topics := topics - {topic};
          } else {
            topics := topics[topic := list];
          }
          return;
        }
        i := i + 1;
      }
    }

    method RemoveTopic(topic: TopicId)
      modifies this
      ensures topics == old(topics) - {topic}
    {
      topics := topics - {topic};
    }
  }
}
