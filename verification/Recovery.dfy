/** What a topic left behind means for its session: the use case's state against
    the connection loop of libs/shared/websocket/session.go. */
module Recovery {
  import opened Types
  import opened Groups
  import opened Reconnect
  import BtccCodec
  import Outbound
  import Placement
  import Wire

  /** The encoder of a session is its codec: it fails exactly where the codec
      knows no such topic. */
  ghost predicate EncodesWith(encode: Encoder, codec: BtccCodec.State) {
    forall t: TopicId :: encode(t).EncodeError? <==> BtccCodec.Encode(codec, t).NoSuchTopic?
  }

  /** What a round needs apart from the encoder. */
  ghost predicate Reaches(attempt: Attempt, policy: Policy, capacity: nat, topics: nat) {
    && attempt.Dials? && !attempt.refused
    && Fits(policy, capacity, |attempt.greeting| + topics)
  }

  /** A round that reaches the exchange gets its session through to the data
      exactly when none of the session's topics was left behind. */
  lemma RoundSucceedsExactly(g: Group, max: nat, i: nat, encode: Encoder, attempt: Attempt,
                             policy: Policy, capacity: nat)
    requires Agree(g, max) && AuthApart(g) && i < |g.book.slots| && EncodesWith(encode, g.codec)
    ensures var topics := g.book.slots[i].topics;
            Succeeds(attempt, encode, policy, capacity, topics)
            <==> Reaches(attempt, policy, capacity, |topics|) && topics !! Leaked(g)
  {
    ReconnectsExactly(g, max, i);
  }

  /** A session with a topic left behind never gets through again, however often
      it is dialled. */
  lemma {:induction false} LeakedSessionNeverConnects(g: Group, max: nat, i: nat, encode: Encoder, rounds: seq<Round>,
                                                      policy: Policy, capacity: nat, n: nat)
    requires Agree(g, max) && AuthApart(g) && i < |g.book.slots| && EncodesWith(encode, g.codec)
    requires !(g.book.slots[i].topics !! Leaked(g)) && n <= |rounds|
    ensures Successes(rounds, encode, policy, capacity, g.book.slots[i].topics, n) == 0
    decreases n
  {
    if n > 0 {
      RoundSucceedsExactly(g, max, i, encode, rounds[n - 1].attempt, policy, capacity);
      LeakedSessionNeverConnects(g, max, i, encode, rounds, policy, capacity, n - 1);
    }
  }

  /** `Unsubscribe` takes a topic from the codec before the session asks for the
      unsubscribe frame.  So of the topics there were, the session can unsubscribe
      from exactly those that stay: no frame is ever sent for one that goes. */
  lemma UnsubscribesOnlyWhatStays(g: Group, op: Op, max: nat, t: TopicId)
    requires Agree(g, max) && AuthApart(g) && t in g.entries
    ensures var h := Step(g, op, max).0;
            BtccCodec.EncodeOff(h.codec, t).NoSuchTopic? <==> t !in h.entries
  {
    StepAgrees(g, op, max);
    StepAuthApart(g, op, max);
  }

  // ---------------------------------------------------------------------
  // Calls between the rounds

  /** A call of the use case, or a round of the connection loop of one session. */
  datatype Event = Call(op: Op) | Dial(attempt: Attempt)

  /** The encoder that the codec is at the moment; `data` are its texts. */
  function EncoderOf(codec: BtccCodec.State, data: TopicId -> seq<Wire.byte>): Encoder {
    (t: TopicId) =>
      if BtccCodec.Encode(codec, t).NoSuchTopic? then Outbound.EncodeError else Outbound.Bytes(data(t))
  }

  /** The topics of the session that serves `t`. */
  function TopicsWith(g: Group, t: TopicId): set<TopicId> {
    if t !in g.book.home then {}
    else
      var i := Placement.Position(g.book.slots, g.book.home[t], 0);
      if i < |g.book.slots| then g.book.slots[i].topics else {}
  }

  /** How often that session gets through, with the codec, the topics and the
      sessions as the calls in between leave them. */
  ghost function Breakthroughs(s: World, events: seq<Event>, t: TopicId, data: TopicId -> seq<Wire.byte>,
                               policy: Policy, capacity: nat, max: nat): nat
    decreases |events|
  {
    if events == [] then 0
    else match events[0]
      case Call(op) => Breakthroughs(Groups.Next(s, op, max), events[1..], t, data, policy, capacity, max)
      case Dial(attempt) =>
        (if Succeeds(attempt, EncoderOf(s.group.codec, data), policy, capacity, TopicsWith(s.group, t)) then 1 else 0)
        + Breakthroughs(s, events[1..], t, data, policy, capacity, max)
  }

  /** A topic left behind stays behind, on the session it was placed on. */
  lemma LeakStays(g: Group, op: Op, max: nat, t: TopicId)
    requires Agree(g, max) && AuthApart(g) && t in Leaked(g)
    ensures var h := Step(g, op, max).0;
            Agree(h, max) && AuthApart(h) && t in Leaked(h) && h.book.home[t] == g.book.home[t]
  {
    StepAgrees(g, op, max);
    StepAuthApart(g, op, max);
    StepLeaks(g, op, max);
    HomeStays(g, op, max, t);
  }

  /** No round of a session with a topic left behind ever gets through, whatever
      is subscribed and unsubscribed in between. */
  lemma {:induction false} LeakedForGood(s: World, events: seq<Event>, t: TopicId, data: TopicId -> seq<Wire.byte>,
                                         policy: Policy, capacity: nat, max: nat)
    requires Agree(s.group, max) && AuthApart(s.group) && t in Leaked(s.group)
    ensures Breakthroughs(s, events, t, data, policy, capacity, max) == 0
    decreases |events|
  {
    if events != [] {
      match events[0] {
        case Call(op) =>
          LeakStays(s.group, op, max, t);
          LeakedForGood(Groups.Next(s, op, max), events[1..], t, data, policy, capacity, max);
        case Dial(attempt) =>
          LeakedRoundFails(s.group, max, t, data, attempt, policy, capacity);
          LeakedForGood(s, events[1..], t, data, policy, capacity, max);
      }
    }
  }

  lemma LeakedRoundFails(g: Group, max: nat, t: TopicId, data: TopicId -> seq<Wire.byte>, attempt: Attempt,
                         policy: Policy, capacity: nat)
    requires Agree(g, max) && AuthApart(g) && t in Leaked(g)
    ensures !Succeeds(attempt, EncoderOf(g.codec, data), policy, capacity, TopicsWith(g, t))
  {
    var i := Placement.Position(g.book.slots, g.book.home[t], 0);
    assert Placement.SlotOk(g.book, max, i);
    assert t in g.book.slots[i].topics;
    RoundSucceedsExactly(g, max, i, EncoderOf(g.codec, data), attempt, policy, capacity);
  }
}
