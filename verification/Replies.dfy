/** What a call of the use case answers, and which topic and symbol an id
    resolves to afterwards. */
module Replies {
  import opened Types
  import opened Routers
  import opened Groups
  import BtccCodec

  // ---------------------------------------------------------------------
  // Answers

  /** A subscription succeeds exactly for a topic the group has, or a proper one
      that the running manager could ask for. */
  lemma SubscribeReplies(g: Group, op: Op, max: nat)
    requires Agree(g, max) && op.Sub?
    ensures var reply, known := Step(g, op, max).1, KeyOf(op) in g.ids;
            && (reply == Joined <==> op.topic != BtccCodec.OtherTopic
                                     && (known || (op.symbol.String() != "" && op.live && op.sent)))
            && (reply == Invalid <==> op.topic == BtccCodec.OtherTopic)
            && (reply == Unregistered <==> op.topic != BtccCodec.OtherTopic && !known && op.symbol.String() == "")
            && (reply == NotRunning <==> op.topic != BtccCodec.OtherTopic && !known && op.symbol.String() != "" && !op.live)
            && (reply == NotSent <==> op.topic != BtccCodec.OtherTopic && !known && op.symbol.String() != ""
                                      && op.live && !op.sent)
            && reply != Unknown && reply != Left
  {
    LinkedIsInjective(g, max);
    EnsureAgrees(g, op, max);
    EnsureReplies(g, op, max);
    var (h, reply) := Ensure(g, op, max);
    if op.topic != BtccCodec.OtherTopic && reply == Joined { IdOfKey(h, KeyOf(op), max); }
  }

  lemma EnsureReplies(g: Group, op: Op, max: nat)
    requires op.Sub?
    ensures Ensure(g, op, max).1
         == if KeyOf(op) in g.ids then Joined
            else if op.topic == BtccCodec.OtherTopic || op.symbol.String() == "" then Unregistered
            else if !op.live then NotRunning
            else if !op.sent then NotSent
            else Joined
  {
  }

  /** An unsubscription succeeds exactly for a topic the group has. */
  lemma UnsubscribeReplies(g: Group, op: Op, max: nat)
    requires Agree(g, max) && op.Unsub?
    ensures var reply := Step(g, op, max).1;
            && (reply == Left <==> KeyOf(op) in g.ids)
            && (reply == Invalid <==> op.topic == BtccCodec.OtherTopic)
            && (reply == Unknown <==> op.topic != BtccCodec.OtherTopic && KeyOf(op) !in g.ids)
  {
    LinkedIsInjective(g, max);
    if KeyOf(op) in g.ids { IdOfKey(g, KeyOf(op), max); }
  }

  /** The market a request is registered under is base and quote in a row. */
  lemma MarketOfSymbol(op: Op)
    requires !op.Tick?
    ensures var market, base := KeyOf(op).arg, op.symbol.base;
            && |market| == |base| + |op.symbol.quote|
            && market[..|base|] == base && market[|base|..] == op.symbol.quote
    ensures KeyOf(op).topic == op.topic
  {
  }

  /** Ids are drawn for topics the group does not have, one for each attempt,
      whether or not it succeeds, and never twice. */
  lemma IdsAreDrawn(g: Group, op: Op, max: nat)
    ensures Step(g, op, max).0.counter
         == if op.Tick? || (op.Sub? && op.topic != BtccCodec.OtherTopic && KeyOf(op) !in g.ids)
            then g.counter + 1 else g.counter
  {
  }

  // ---------------------------------------------------------------------
  // Topics and symbols

  /** The call that gives the group a topic with this id. */
  predicate Introduces(g: Group, op: Op, id: Id) {
    && op.Sub? && KeyOf(op) !in g.ids && op.topic != BtccCodec.OtherTopic && op.symbol.String() != ""
    && op.live && op.sent && id == g.counter + 1
  }

  lemma EnsureResolves(g: Group, op: Op, max: nat, id: Id)
    requires op.Sub? && op.topic != BtccCodec.OtherTopic
    ensures var h := Ensure(g, op, max).0;
            Resolve(h, id) == if Introduces(g, op, id) then Some((op.topic, op.symbol)) else Resolve(g, id)
  {
    EnsureReplies(g, op, max);
    EnsureParts(g, op, max);
  }

  lemma JoinResolves(g: Group, i: Id, c: Consumer, id: Id)
    requires i in g.entries
    ensures Resolve(Join(g, i, c), id) == Resolve(g, id) && Resolve(Leave(g, i, c), id) == Resolve(g, id)
  {
  }

  /** What an id resolves to comes from the call that introduced it, and stays
      until the topic is dropped. */
  lemma StepResolves(g: Group, op: Op, max: nat, id: Id)
    requires Agree(g, max)
    ensures var h := Step(g, op, max).0;
            && (Introduces(g, op, id) ==> Resolve(h, id) == Some((op.topic, op.symbol)))
            && (!Introduces(g, op, id) && !op.Unsub? ==> Resolve(h, id) == Resolve(g, id))
            && (op.Unsub? ==> Resolve(h, id) == None || Resolve(h, id) == Resolve(g, id))
            && (op.Unsub? && Resolve(h, id) != Resolve(g, id) ==> KeyOf(op) in g.ids && g.ids[KeyOf(op)] == id)
  {
    match op {
      case Sub(_, _, c, _, _) => SubResolves(g, op, max, id);
      case Unsub(_, _, c) => UnsubResolves(g, op, max, id);
      case Tick =>
    }
  }

  lemma SubResolves(g: Group, op: Op, max: nat, id: Id)
    requires Agree(g, max) && op.Sub?
    ensures Resolve(AfterSub(g, op, max).0, id)
         == if Introduces(g, op, id) then Some((op.topic, op.symbol)) else Resolve(g, id)
  {
    if op.topic != BtccCodec.OtherTopic {
      EnsureResolves(g, op, max, id);
      EnsureAgrees(g, op, max);
      var (h, reply) := Ensure(g, op, max);
      if reply == Joined {
        IdOfKey(h, KeyOf(op), max);
        JoinResolves(h, h.ids[KeyOf(op)], op.consumer, id);
      }
    }
  }

  lemma UnsubResolves(g: Group, op: Op, max: nat, id: Id)
    requires Agree(g, max) && op.Unsub?
    ensures var h := AfterUnsub(g, op).0;
            && (Resolve(h, id) == None || Resolve(h, id) == Resolve(g, id))
            && (Resolve(h, id) != Resolve(g, id) ==> KeyOf(op) in g.ids && g.ids[KeyOf(op)] == id)
  {
    if op.topic != BtccCodec.OtherTopic && KeyOf(op) in g.ids {
      IdOfKey(g, KeyOf(op), max);
      UnsubParts(g, op);
      JoinResolves(g, g.ids[KeyOf(op)], op.consumer, id);
    }
  }

  /** Call `k` of the run introduces the id. */
  ghost predicate IntroducedAt(s: World, ops: seq<Op>, max: nat, id: Id, k: nat) {
    k < |ops| && Introduces(Run(s, ops[..k], max).group, ops[k], id)
  }

  lemma {:induction false} RunTail(s: World, op: Op, ops: seq<Op>, max: nat, k: nat)
    requires k <= |ops|
    ensures Run(s, ([op] + ops)[..k + 1], max) == Run(Next(s, op, max), ops[..k], max)
  {
    assert ([op] + ops)[..k + 1][1..] == ops[..k];
  }

  lemma Later(s: World, ops: seq<Op>, max: nat, id: Id, k: nat)
    requires ops != [] && IntroducedAt(Next(s, ops[0], max), ops[1..], max, id, k)
    ensures IntroducedAt(s, ops, max, id, k + 1)
  {
    assert [ops[0]] + ops[1..] == ops;
    RunTail(s, ops[0], ops[1..], max, k);
  }

  /** Over any run: an id resolves to the topic and symbol given by a call that
      introduced it, unless it resolved to the same before the run. */
  lemma {:induction false} RunResolves(s: World, ops: seq<Op>, max: nat, id: Id) returns (k: nat)
    requires Agree(s.group, max) && Resolve(Run(s, ops, max).group, id).Some?
    ensures var r := Resolve(Run(s, ops, max).group, id);
            r == Resolve(s.group, id) || (IntroducedAt(s, ops, max, id, k) && r == Some((ops[k].topic, ops[k].symbol)))
    decreases |ops|
  {
    k := 0;
    if ops != [] {
      var t := Next(s, ops[0], max);
      StepAgrees(s.group, ops[0], max);
      StepResolves(s.group, ops[0], max, id);
      var j := RunResolves(t, ops[1..], max, id);
      if Resolve(Run(s, ops, max).group, id) == Resolve(t.group, id) {
        if Introduces(s.group, ops[0], id) { assert IntroducedAt(s, ops, max, id, 0); }
      } else {
        Later(s, ops, max, id, j);
        k := j + 1;
      }
    }
  }

  /** From a fresh group, every id resolves to what the call that introduced it
      asked for, base and quote apart. */
  lemma SymbolIsTheIntroducers(auth: Option<BtccCodec.Auth>, counter: nat, ops: seq<Op>, max: nat, id: Id) returns (k: nat)
    requires max > 0 && Resolve(Run(Fresh(auth, counter), ops, max).group, id).Some?
    ensures IntroducedAt(Fresh(auth, counter), ops, max, id, k)
    ensures Resolve(Run(Fresh(auth, counter), ops, max).group, id) == Some((ops[k].topic, ops[k].symbol))
  {
    k := RunResolves(Fresh(auth, counter), ops, max, id);
  }
}
