/** The connection loop of a session: `run` and `resubscribe` of
    libs/shared/websocket/session.go, with the desired and active topics of
    subscriptions.go and the writer.

    What the network, OnConnect and the encoder do in each round is a parameter;
    subscriptions do not change while the loop is at it. */
module Reconnect {
  import opened Types
  import opened Wire
  import opened BufferPools
  import opened Outbound
  import opened Managers

  /** One round: the dial fails, or OnConnect sends these frames and perhaps
      fails. */
  datatype Attempt = DialFails | Dials(greeting: seq<Message>, refused: bool)

  type Encoder = TopicId -> Encoded

  lemma WholePrefix<T>(s: seq<T>)
    ensures s[..|s|] == s
  {
  }

  lemma GreetingNext(greeting: seq<Message>, i: nat, n: nat)
    requires n > 0 && i < |greeting|
    ensures var sent := Newest(greeting[..i], n);
            Newest(greeting[..i + 1], n) == (if i < n then sent else sent[1..]) + [greeting[i]]
  {
    NewestNext(greeting[..i], greeting[i], n);
    assert greeting[..i + 1] == greeting[..i] + [greeting[i]];
  }

  /** The subscribe frames of `topics`, in order. */
  function Subscribes(encode: Encoder, topics: seq<TopicId>): seq<Message> {
    if topics == [] then []
    else
      var last := topics[|topics| - 1];
      Subscribes(encode, topics[..|topics| - 1])
      + (match encode(last) case EncodeError => [] case Bytes(data) => [Message(Text, data)])
  }

  /** The list names every topic of the set once. */
  ghost predicate Lists(list: seq<TopicId>, topics: set<TopicId>) {
    (forall t :: t in list <==> t in topics) && |list| == |topics|
  }

  /** How an attempt to restore a connection goes: it comes through, it is given
      up, it waits for good, since the loop that empties the queue has not begun,
      or it panics, since a frame finds no memory. */
  datatype Progress = Through | Failed | Stuck | Died

  /** Whether the queue takes `n` frames one after another. */
  predicate Fits(policy: Policy, capacity: nat, n: nat) {
    policy == DropOldest || n <= capacity
  }

  /** `session`, with its writer. */
  class SessionLoop {
    const session: Session
    const writer: Writer

    ghost predicate Valid()
      reads session, writer, writer.pool, writer.Held()
    {
      writer.Valid() && writer.connected == session.connected
    }

    /** Between connections nothing is queued. */
    ghost predicate Idle()
      reads session, writer, writer.pool, writer.Held()
    {
      Valid() && !session.connected && writer.queue == []
    }

    constructor (session: Session, writer: Writer)
      requires writer.Valid() && writer.queue == [] && !writer.connected && !session.connected
      ensures Idle() && this.session == session && this.writer == writer
    {
      this.session, this.writer := session, writer;
    }

    ghost predicate Takes(n: nat)
      reads writer
    {
      Fits(writer.policy, writer.capacity, n)
    }

    /** A frame more than the queue holds waits under the blocking policy. */
    ghost predicate Blocks(n: nat)
      reads writer
    {
      writer.policy == Block && n > writer.capacity
    }

    /** A buffer for `n` bytes can be allocated. */
    predicate Makes(n: nat)
      requires writer.pool.sizes != [] && StrictlyIncreasing(writer.pool.sizes)
    {
      n == 0 || writer.pool.memory.Holds(writer.pool.Capacity(n))
    }

    ghost predicate MakesAll(messages: seq<Message>)
      requires writer.pool.sizes != [] && StrictlyIncreasing(writer.pool.sizes)
    {
      forall m :: m in messages ==> Makes(|m.data|)
    }

    /** And for the subscribe frames of these topics. */
    ghost predicate MakesFrames(encode: Encoder, topics: set<TopicId>)
      requires writer.pool.sizes != [] && StrictlyIncreasing(writer.pool.sizes)
    {
      && writer.pool.memory.Holds(writer.pool.sizes[0])
      && forall t :: t in topics && encode(t).Bytes? ==> Makes(|encode(t).data|)
    }

    lemma MoreFrames(encode: Encoder, list: seq<TopicId>, i: nat)
      requires writer.pool.sizes != [] && StrictlyIncreasing(writer.pool.sizes) && i < |list|
      ensures MakesFrames(encode, Elements(list)) ==> MakesFrames(encode, {list[i]})
    {
      assert list[i] in Elements(list);
    }

    /** The first `i` frames of the greeting are on their way. */
    ghost predicate Greeted(greeting: seq<Message>, i: nat)
      requires i <= |greeting|
      reads writer
    {
      writer.messages == Newest(greeting[..i], writer.capacity) && Takes(i)
    }

    /** `before` are the buffers there were when the greeting began. */
    method SendGreeting(greeting: seq<Message>, i: nat, ghost before: set<array<byte>>)
      returns (r: Progress, ghost hand: set<array<byte>>)
      requires Valid() && session.connected && i < |greeting| && Greeted(greeting, i) && writer.Kept(before)
      modifies writer`queue, writer`messages, writer.pool, writer.pool.Free()
      ensures Valid() && writer.Kept(before - hand) && fresh(writer.Buffers() - old(writer.Buffers()))
      ensures r == Stuck ==> |writer.queue| == writer.capacity
      ensures r != Stuck ==> hand == {}
      ensures r == Died ==> !MakesAll(greeting)
      ensures r != Died ==> r == if Takes(i + 1) then Through else if Blocks(i + 1) then Stuck else Failed
      ensures r == Through ==> Greeted(greeting, i + 1)
      ensures r == Failed || r == Stuck ==> !Takes(|greeting|) && (r == Stuck <==> Blocks(|greeting|))
    {
      assert greeting[i] in greeting;
      GreetingNext(greeting, i, writer.capacity);
      var d, panics;
      d, panics, hand := writer.Send(greeting[i].msgType, greeting[i].data);
      if panics { return Died, hand; }
      match d {
        case Accepted => return Through, hand;
        case Rejected => return Failed, hand;
        case Waits => return Stuck, hand;
      }
    }

    /** The frames of OnConnect, up to the first that is refused. */
    method SendFrames(greeting: seq<Message>) returns (r: Progress, ghost hand: set<array<byte>>)
      requires Valid() && session.connected && Greeted(greeting, 0)
      modifies writer`queue, writer`messages, writer.pool, writer.Buffers()
      ensures Valid() && writer.Kept(old(writer.Buffers()) - hand) && fresh(writer.Buffers() - old(writer.Buffers()))
      ensures r == Stuck ==> |writer.queue| == writer.capacity
      ensures r != Stuck ==> hand == {}
      ensures r == Died ==> !MakesAll(greeting)
      ensures r != Died ==> (r == Through <==> Takes(|greeting|)) && (r == Stuck <==> Blocks(|greeting|))
      ensures r == Through ==> Greeted(greeting, |greeting|)
    {
      ghost var before := writer.Buffers();
      var i := 0;
      while i < |greeting|
        invariant i <= |greeting| && Valid() && Greeted(greeting, i)
        invariant writer.Kept(before) && fresh(writer.Buffers() - before)
      {
        r, hand := SendGreeting(greeting, i, before);
        if r != Through { return; }
        i := i + 1;
      }
      return Through, {};
    }

    /** OnConnect: sends its greeting frame by frame and gives up on the first
        that is refused. */
    method Greet(greeting: seq<Message>, refused: bool) returns (r: Progress, ghost hand: set<array<byte>>)
      requires Valid() && session.connected && writer.queue == []
      modifies writer`queue, writer`messages, writer.pool, writer.pool.Free()
      ensures Valid() && writer.Kept(old(writer.Buffers()) - hand) && fresh(writer.Buffers() - old(writer.Buffers()))
      ensures r == Stuck ==> |writer.queue| == writer.capacity
      ensures r != Stuck ==> hand == {}
      ensures r == Died ==> !MakesAll(greeting)
      ensures r != Died ==> (r == Through <==> !refused && Takes(|greeting|)) && (r == Stuck <==> Blocks(|greeting|))
      ensures r == Through ==> writer.messages == Newest(greeting, writer.capacity)
    {
      WholePrefix(greeting);
      r, hand := SendFrames(greeting);
      if r == Through && refused { r := Failed; }
    }

    /** The first `i` topics of `list` are resubscribed, behind `base`. */
    ghost predicate Resubscribed(encode: Encoder, base: seq<Message>, list: seq<TopicId>, i: nat)
      requires i <= |list|
      reads writer, session.subscriptions
    {
      && writer.messages == Newest(base + Subscribes(encode, list[..i]), writer.capacity)
      && AllEncode(encode, list[..i]) && |Subscribes(encode, list[..i])| == i && Takes(|base| + i)
      && session.subscriptions.active == Elements(list[..i])
    }

    /** `sendSubscribe` for one topic, and its mark. */
    method SendSubscribe(encode: Encoder, ghost base: seq<Message>, list: seq<TopicId>, i: nat, ghost before: set<array<byte>>)
      returns (r: Progress, ghost hand: set<array<byte>>)
      requires Valid() && session.connected && i < |list| && Resubscribed(encode, base, list, i) && writer.Kept(before)
      modifies writer`queue, writer`messages, writer.pool, writer.pool.Free(), session.subscriptions`active
      ensures Valid() && writer.Kept(before - hand) && fresh(writer.Buffers() - old(writer.Buffers()))
      ensures r == Stuck ==> |writer.queue| == writer.capacity
      ensures r != Stuck ==> hand == {}
      ensures r == Died ==> !MakesFrames(encode, {list[i]})
      ensures r != Died ==> r == if encode(list[i]).EncodeError? then Failed else if Takes(|base| + i + 1) then Through
                                 else if Blocks(|base| + i + 1) then Stuck else Failed
      ensures r == Through ==> Resubscribed(encode, base, list, i + 1)
    {
      var t := list[i];
      SubscribesNext(encode, list, i, base, writer.capacity);
      var status;
      status, hand := writer.SendControl(Text, encode(t), encode(t));
      if status == Sent { session.subscriptions.MarkActive(t); }
      return
        match status {
          case Sent => Through
          case Blocked => Stuck
          case Exhausted => Died
          case _ => Failed
        }, hand;
    }

    /** One round of that loop; unless it comes through, it is the last. */
    method SendNext(encode: Encoder, ghost base: seq<Message>, list: seq<TopicId>, i: nat, ghost before: set<array<byte>>)
      returns (r: Progress, ghost hand: set<array<byte>>)
      requires Valid() && session.connected && i < |list| && Resubscribed(encode, base, list, i) && writer.Kept(before)
      modifies writer`queue, writer`messages, writer.pool, writer.pool.Free(), session.subscriptions`active
      ensures Valid() && writer.Kept(before - hand) && fresh(writer.Buffers() - old(writer.Buffers()))
      ensures r == Stuck ==> |writer.queue| == writer.capacity
      ensures r != Stuck ==> hand == {}
      ensures r == Died ==> !MakesFrames(encode, Elements(list))
      ensures r == Through ==> Resubscribed(encode, base, list, i + 1)
      ensures r == Failed || r == Stuck ==> Resumes(writer.policy, writer.capacity, encode, |base|, list, r)
    {
      r, hand := SendSubscribe(encode, base, list, i, before);
      MoreFrames(encode, list, i);
      if r == Failed || r == Stuck { StopsHere(writer.policy, writer.capacity, encode, |base|, list, i, r); }
    }

    /** `resubscribe`, behind the frames `base` of OnConnect: when it comes through
        and when it waits for good. */
    method Resubscribe(encode: Encoder, ghost base: seq<Message>)
      returns (r: Progress, order: seq<TopicId>, ghost hand: set<array<byte>>)
      requires Valid() && session.connected && writer.messages == Newest(base, writer.capacity)
      requires session.subscriptions.active == {} && Takes(|base|)
      modifies writer`queue, writer`messages, writer.pool, writer.Buffers(), session.subscriptions`active
      ensures Valid() && writer.Kept(old(writer.Buffers()) - hand) && fresh(writer.Buffers() - old(writer.Buffers()))
      ensures r == Stuck ==> |writer.queue| == writer.capacity
      ensures r != Stuck ==> hand == {}
      ensures Lists(order, session.subscriptions.desired)
      ensures r == Died ==> !MakesFrames(encode, session.subscriptions.desired)
      ensures r != Died ==> Resumes(writer.policy, writer.capacity, encode, |base|, order, r)
      ensures r == Through ==> Resubscribed(encode, base, order, |order|)
    {
      order := session.subscriptions.Desired();
      assert order[..0] == [] && base + [] == base;
      r, hand := SendAll(encode, base, order);
    }

    /** The loop of `resubscribe`. */
    method SendAll(encode: Encoder, ghost base: seq<Message>, list: seq<TopicId>)
      returns (r: Progress, ghost hand: set<array<byte>>)
      requires Valid() && session.connected && Resubscribed(encode, base, list, 0)
      modifies writer`queue, writer`messages, writer.pool, writer.Buffers(), session.subscriptions`active
      ensures Valid() && writer.Kept(old(writer.Buffers()) - hand) && fresh(writer.Buffers() - old(writer.Buffers()))
      ensures r == Stuck ==> |writer.queue| == writer.capacity
      ensures r != Stuck ==> hand == {}
      ensures r == Died ==> !MakesFrames(encode, Elements(list))
      ensures r != Died ==> Resumes(writer.policy, writer.capacity, encode, |base|, list, r)
      ensures r == Through ==> Resubscribed(encode, base, list, |list|)
    {
      ghost var before := writer.Buffers();
      var i := 0;
      while i < |list|
        invariant i <= |list| && Valid() && Resubscribed(encode, base, list, i)
        invariant writer.Kept(before) && fresh(writer.Buffers() - before)
      {
        r, hand := SendNext(encode, base, list, i, before);
        if r != Through { return; }
        i := i + 1;
      }
      AllSent(writer.policy, writer.capacity, encode, |base|, list);
      return Through, {};
    }

    /** `connected` on both sides, and an emptied queue. */
    method Disconnect()
      requires Valid()
      modifies session`connected, writer`connected, writer`queue, writer`messages, writer.pool
      ensures Idle() && writer.Kept(old(writer.Buffers())) && fresh(writer.Buffers() - old(writer.Buffers()))
    {
      session.connected := false;
      writer.connected := false;
      writer.Drain();
    }

    /** What holds on entry to `runSession`: the active topics are the desired
        ones, and the queue holds the greeting and one subscribe frame per desired
        topic behind it, or the newest of them if there are more than fit. */
    ghost predicate Restored(greeting: seq<Message>, encode: Encoder, order: seq<TopicId>)
      reads writer, session.subscriptions
    {
      && session.subscriptions.active == session.subscriptions.desired && Lists(order, session.subscriptions.desired)
      && writer.messages == Newest(greeting + Subscribes(encode, order), writer.capacity)
      && |Subscribes(encode, order)| == |session.subscriptions.desired|
    }

    /** One round of `run`, up to the entry to `runSession`. */
    method Connect(attempt: Attempt, encode: Encoder)
      returns (r: Progress, ghost order: seq<TopicId>, ghost hand: set<array<byte>>)
      requires Idle()
      modifies session`connected, writer, writer.pool, writer.pool.Free(), session.subscriptions`active
      ensures Valid() && writer.Kept(old(writer.Buffers()) - hand) && fresh(writer.Buffers() - old(writer.Buffers()))
      ensures r == Stuck ==> |writer.queue| == writer.capacity
      ensures r != Stuck ==> hand == {}
      ensures r == Died ==> attempt.Dials? && !(MakesAll(attempt.greeting) && MakesFrames(encode, session.subscriptions.desired))
      ensures r != Died ==>
                (r == Through <==> Succeeds(attempt, encode, writer.policy, writer.capacity, session.subscriptions.desired))
      ensures r == Through ==> session.connected && Restored(attempt.greeting, encode, order)
      ensures r == Failed ==> Idle()
      ensures r != Died ==> (r == Stuck <==>
                && attempt.Dials?
                && (Blocks(|attempt.greeting|) || (!attempt.refused && Overruns(writer.policy, writer.capacity, encode, |attempt.greeting|, order))))
      ensures Lists(order, session.subscriptions.desired) || r == Died || attempt.DialFails? || attempt.refused || !Takes(|attempt.greeting|)
      ensures r == Stuck ==> session.connected
    {
      order, hand := [], {};
      if attempt.DialFails? { return Failed, [], {}; }
      r, hand := Welcome(attempt.greeting, attempt.refused);
      if r == Through {
        session.subscriptions.ClearActive();
        r, order, hand := Restore(attempt.greeting, encode);
      }
    }

    /** Up to OnConnect's return. */
    method Welcome(greeting: seq<Message>, refused: bool) returns (r: Progress, ghost hand: set<array<byte>>)
      requires Idle()
      modifies session`connected, writer, writer.pool, writer.pool.Free()
      ensures Valid() && writer.Kept(old(writer.Buffers()) - hand) && fresh(writer.Buffers() - old(writer.Buffers()))
      ensures r == Stuck ==> |writer.queue| == writer.capacity
      ensures r != Stuck ==> hand == {}
      ensures r == Died ==> !MakesAll(greeting)
      ensures r != Died ==> (r == Through <==> !refused && Takes(|greeting|)) && (r == Stuck <==> Blocks(|greeting|))
      ensures r == Through ==> writer.messages == Newest(greeting, writer.capacity)
      ensures if r == Failed then Idle() else session.connected
    {
      session.connected := true;
      writer.connected := true;
      r, hand := Greet(greeting, refused);
      if r == Failed { Disconnect(); }
    }

    /** `resubscribe`, and the end of the connection when it fails. */
    method Restore(greeting: seq<Message>, encode: Encoder)
      returns (r: Progress, ghost order: seq<TopicId>, ghost hand: set<array<byte>>)
      requires Valid() && session.connected && writer.messages == Newest(greeting, writer.capacity)
      requires session.subscriptions.active == {} && Takes(|greeting|)
      modifies session`connected, writer, writer.pool, writer.pool.Free(), writer.Held(), session.subscriptions`active
      ensures Valid() && writer.Kept(old(writer.Buffers()) - hand) && fresh(writer.Buffers() - old(writer.Buffers()))
      ensures r == Stuck ==> |writer.queue| == writer.capacity
      ensures r != Stuck ==> hand == {}
      ensures Lists(order, session.subscriptions.desired)
      ensures r == Died ==> !MakesFrames(encode, session.subscriptions.desired)
      ensures r != Died ==> Resumes(writer.policy, writer.capacity, encode, |greeting|, order, r)
      ensures r == Through ==> Restored(greeting, encode, order)
      ensures if r == Failed then Idle() else session.connected
    {
      r, order, hand := Resubscribe(encode, greeting);
      assert order[..|order|] == order;
      if r == Failed { Disconnect(); }
    }

    /** `runSession`: writes frames until the connection ends, here after at most
        `writes` of them. */
    method RunSession(writes: nat) returns (wire: seq<Message>)
      requires Valid()
      modifies writer`queue, writer`messages, writer.pool
      ensures Valid() && writer.Kept(old(writer.Buffers())) && fresh(writer.Buffers() - old(writer.Buffers()))
      ensures |wire| <= |old(writer.messages)| && wire == old(writer.messages)[..|wire|]
      ensures |wire| == writes || |wire| == |old(writer.messages)|
    {
      ghost var before := writer.Buffers();
      wire := [];
      while |wire| < writes && writer.queue != []
        invariant Valid() && |wire| <= writes && |wire| + |writer.messages| == |old(writer.messages)|
        invariant wire == old(writer.messages)[..|wire|] && writer.messages == old(writer.messages)[|wire|..]
        invariant writer.Kept(before) && writer.Buffers() <= before
        decreases writes - |wire|
      {
        var m := writer.WriteNext();
        wire := wire + [m];
      }
    }

    /** `run`, with what the world does in each round.  Every connection starts
        out restored: its entry in `log` has all desired topics active and the
        greeting with one subscribe frame per topic queued, and what it writes is
        a first part of that.  Connections are made in exactly the rounds that
        succeed, up to a round that waits for good or dies: there is none unless a
        round has more frames than the queue holds, or one that finds no memory. */
    method Run(rounds: seq<Round>, encode: Encoder)
      returns (end: Progress, ghost log: seq<Entry>, ghost n: nat, ghost hand: set<array<byte>>)
      requires Idle()
      modifies session`connected, writer, writer.pool, writer.pool.Free(), session.subscriptions`active
      ensures n <= |rounds| && Valid() && writer.Kept(old(writer.Buffers()) - hand)
      ensures forall e :: e in log ==> e.Sound(encode, session.subscriptions.desired, writer.capacity)
      ensures |log| == Successes(rounds, encode, writer.policy, writer.capacity, session.subscriptions.desired, n)
      ensures end == Through <==> n == |rounds| || session.subscriptions.desired == {}
      ensures end == Through ==> Idle() && hand == {}
      ensures end != Through ==>
                if end == Died
                then rounds[n].attempt.Dials? && !(MakesAll(rounds[n].attempt.greeting) && MakesFrames(encode, session.subscriptions.desired))
                else && session.connected && |writer.queue| == writer.capacity
                     && Overfull(rounds[n].attempt, writer.policy, writer.capacity, session.subscriptions.desired)
      ensures forall k :: 0 <= k < n ==>
                !Hangs(rounds[k].attempt, encode, writer.policy, writer.capacity, session.subscriptions.desired)
    {
      ghost var before := writer.Buffers();
      end, log, n, hand := Through, [], 0, {};
      var i := 0;
      while i < |rounds|
        invariant i <= |rounds| && n == i && hand == {} && end == Through
        invariant Idle() && writer.Kept(before) && fresh(writer.Buffers() - before)
        invariant forall e :: e in log ==> e.Sound(encode, session.subscriptions.desired, writer.capacity)
        invariant |log| == Successes(rounds, encode, writer.policy, writer.capacity, session.subscriptions.desired, i)
        invariant forall k :: 0 <= k < i ==>
                    !Hangs(rounds[k].attempt, encode, writer.policy, writer.capacity, session.subscriptions.desired)
      {
        var count := session.subscriptions.Count();
        if count == 0 { return; }
        var r; ghost var e;
        r, e, hand := RunRound(rounds[i], encode);
        if r == Stuck || r == Died { return r, log, n, hand; }
        log := log + e;
        i := i + 1;
        n := i;
      }
    }

    method RunRound(round: Round, encode: Encoder)
      returns (r: Progress, ghost log: seq<Entry>, ghost hand: set<array<byte>>)
      requires Idle()
      modifies session`connected, writer, writer.pool, writer.pool.Free(), session.subscriptions`active
      ensures Valid() && writer.Kept(old(writer.Buffers()) - hand) && fresh(writer.Buffers() - old(writer.Buffers()))
      ensures r == Stuck ==> |writer.queue| == writer.capacity
      ensures r != Stuck ==> hand == {}
      ensures r == Through || r == Failed ==> Idle()
      ensures r == Died ==> round.attempt.Dials? && !(MakesAll(round.attempt.greeting) && MakesFrames(encode, session.subscriptions.desired))
      ensures r == Stuck ==>
                && session.connected && Overfull(round.attempt, writer.policy, writer.capacity, session.subscriptions.desired)
      ensures Hangs(round.attempt, encode, writer.policy, writer.capacity, session.subscriptions.desired) ==> r == Stuck || r == Died
      ensures r == Died ==> log == []
      ensures r != Died ==> |log| == if Succeeds(round.attempt, encode, writer.policy, writer.capacity, session.subscriptions.desired) then 1 else 0
      ensures forall e :: e in log ==> e.Sound(encode, session.subscriptions.desired, writer.capacity)
    {
      log := [];
      ghost var order;
      r, order, hand := Connect(round.attempt, encode);
      if r == Through {
        ghost var active, queued := session.subscriptions.active, writer.messages;
        var wire := RunSession(round.writes);
        log := [Entry(round.attempt.greeting, order, active, queued, wire)];
        assert wire <= queued;
        Disconnect();
      }
    }
  }

  /** Whether a round gets through to `runSession`. */
  ghost predicate Succeeds(attempt: Attempt, encode: Encoder, policy: Policy, capacity: nat, desired: set<TopicId>) {
    && attempt.Dials? && !attempt.refused
    && Fits(policy, capacity, |attempt.greeting| + |desired|)
    && forall t :: t in desired ==> encode(t).Bytes?
  }

  /** A dialled connection with more frames than a blocking queue holds. */
  ghost predicate Overfull(attempt: Attempt, policy: Policy, capacity: nat, desired: set<TopicId>) {
    attempt.Dials? && policy == Block && |attempt.greeting| + |desired| > capacity
  }

  /** One whose frames are all there. */
  ghost predicate Hangs(attempt: Attempt, encode: Encoder, policy: Policy, capacity: nat, desired: set<TopicId>) {
    && Overfull(attempt, policy, capacity, desired)
    && (|attempt.greeting| > capacity || (!attempt.refused && forall t :: t in desired ==> encode(t).Bytes?))
  }

  /** The rounds among the first `n` that do. */
  ghost function Successes(rounds: seq<Round>, encode: Encoder, policy: Policy, capacity: nat, desired: set<TopicId>, n: nat): nat
    requires n <= |rounds|
  {
    if n == 0 then 0
    else
      Successes(rounds, encode, policy, capacity, desired, n - 1)
      + (if Succeeds(rounds[n - 1].attempt, encode, policy, capacity, desired) then 1 else 0)
  }

  datatype Round = Round(attempt: Attempt, writes: nat)

  /** A connection as it began, and what it wrote. */
  datatype Entry = Entry(greeting: seq<Message>, order: seq<TopicId>, active: set<TopicId>, queued: seq<Message>, wire: seq<Message>) {
    ghost predicate Sound(encode: Encoder, desired: set<TopicId>, capacity: nat) {
      && active == desired && Lists(order, desired)
      && queued == Newest(greeting + Subscribes(encode, order), capacity) && |Subscribes(encode, order)| == |desired|
      && wire <= queued
    }
  }

  ghost predicate AllEncode(encode: Encoder, topics: seq<TopicId>) {
    forall t :: t in topics ==> encode(t).Bytes?
  }

  /** A blocking queue overflows behind `base` frames: those that fit and the
      first that does not can all be encoded. */
  ghost predicate Overruns(policy: Policy, capacity: nat, encode: Encoder, base: nat, list: seq<TopicId>) {
    policy == Block && base <= capacity < base + |list| && AllEncode(encode, list[..capacity - base + 1])
  }

  /** When `resubscribe` comes through, behind `base` frames, and when it waits
      for good. */
  ghost predicate Resumes(policy: Policy, capacity: nat, encode: Encoder, base: nat, list: seq<TopicId>, r: Progress) {
    && (r == Through <==> AllEncode(encode, list) && Fits(policy, capacity, base + |list|))
    && (r == Stuck <==> Overruns(policy, capacity, encode, base, list))
  }

  /** The first frame that cannot be encoded or queued decides. */
  lemma StopsHere(policy: Policy, capacity: nat, encode: Encoder, base: nat, list: seq<TopicId>, i: nat, r: Progress)
    requires i < |list| && AllEncode(encode, list[..i]) && Fits(policy, capacity, base + i)
    requires encode(list[i]).EncodeError? || !Fits(policy, capacity, base + i + 1)
    requires r != Through
    requires r == Stuck <==> encode(list[i]).Bytes? && policy == Block && base + i + 1 > capacity
    ensures Resumes(policy, capacity, encode, base, list, r)
  {
    assert list[i] in list;
    if policy == Block && base + |list| > capacity {
      var n := capacity - base + 1;
      if encode(list[i]).Bytes? {
        assert list[..n] == list[..i] + [list[i]];
      } else {
        assert list[i] == list[..n][i];
      }
    }
  }

  lemma AllSent(policy: Policy, capacity: nat, encode: Encoder, base: nat, list: seq<TopicId>)
    requires AllEncode(encode, list[..|list|]) && Fits(policy, capacity, base + |list|)
    ensures Resumes(policy, capacity, encode, base, list, Through)
  {
    WholePrefix(list);
  }

  lemma SubscribesNext(encode: Encoder, list: seq<TopicId>, i: nat, base: seq<Message>, capacity: nat)
    requires i < |list| && capacity > 0
    ensures Elements(list[..i + 1]) == Elements(list[..i]) + {list[i]}
    ensures AllEncode(encode, list[..i + 1]) <==> AllEncode(encode, list[..i]) && encode(list[i]).Bytes?
    ensures encode(list[i]).Bytes? ==>
            var m := Message(Text, encode(list[i]).data);
            var before := base + Subscribes(encode, list[..i]);
            && Subscribes(encode, list[..i + 1]) == Subscribes(encode, list[..i]) + [m]
            && Newest(base + Subscribes(encode, list[..i + 1]), capacity)
               == (if |before| < capacity then Newest(before, capacity) else Newest(before, capacity)[1..]) + [m]
  {
    assert list[..i + 1][..i] == list[..i];
    assert list[..i + 1] == list[..i] + [list[i]];
    if encode(list[i]).Bytes? {
      var m := Message(Text, encode(list[i]).data);
      assert base + (Subscribes(encode, list[..i]) + [m]) == (base + Subscribes(encode, list[..i])) + [m];
      NewestNext(base + Subscribes(encode, list[..i]), m, capacity);
    }
  }
}
