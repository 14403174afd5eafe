/** The reading half of a session: `readLoop` and `tryGrowReadBuffer` of
    libs/shared/websocket/session.go over the connection and the buffer pool. */
module SessionReaders {
  import opened Types
  import opened Wire
  import opened Reading
  import opened Streams
  import opened Connection
  import opened BufferPools
  import opened GrowingReader
  import opened Exhaustion

  /** A frame given to the router. */
  datatype Routed = Routed(topic: TopicId, data: seq<byte>)

  /** A message is routed if the decoder recognises its topic. */
  function RouteOne(decode: seq<byte> -> Option<TopicId>, d: Delivery): seq<Routed> {
    match decode(d.data)
    case None => []
    case Some(topic) => [Routed(topic, d.data)]
  }

  function RouteAll(decode: seq<byte> -> Option<TopicId>, delivered: seq<Delivery>): seq<Routed> {
    if delivered == [] then []
    else RouteAll(decode, delivered[..|delivered| - 1]) + RouteOne(decode, delivered[|delivered| - 1])
  }

  /** The data that the decoder recognises. */
  function Recognised(decode: seq<byte> -> Option<TopicId>, delivered: seq<Delivery>): seq<seq<byte>> {
    if delivered == [] then []
    else
      (if decode(delivered[0].data) == None then [] else [delivered[0].data]) + Recognised(decode, delivered[1..])
  }

  function DataOf(routed: seq<Routed>): (data: seq<seq<byte>>)
    ensures |data| == |routed| && forall k :: 0 <= k < |routed| ==> data[k] == routed[k].data
  {
    seq(|routed|, k requires 0 <= k < |routed| => routed[k].data)
  }

  lemma {:induction false} RecognisedAppend(decode: seq<byte> -> Option<TopicId>, a: seq<Delivery>, d: Delivery)
    ensures Recognised(decode, a + [d]) == Recognised(decode, a) + (if decode(d.data) == None then [] else [d.data])
    decreases |a|
  {
    if a == [] {
      assert [d][1..] == [] && [] + [d] == [d];
    } else {
      RecognisedAppend(decode, a[1..], d);
      assert (a + [d])[1..] == a[1..] + [d];
    }
  }

  /** What is routed: exactly the delivered data that the decoder recognises, in
      order, each under the topic it decodes to. */
  lemma {:induction false} RoutedExactly(decode: seq<byte> -> Option<TopicId>, delivered: seq<Delivery>)
    ensures DataOf(RouteAll(decode, delivered)) == Recognised(decode, delivered)
    ensures forall r :: r in RouteAll(decode, delivered) ==> decode(r.data) == Some(r.topic)
    decreases |delivered|
  {
    if delivered != [] {
      var n := |delivered| - 1;
      RoutedExactly(decode, delivered[..n]);
      RecognisedAppend(decode, delivered[..n], delivered[n]);
      assert delivered == delivered[..n] + [delivered[n]];
    }
  }

  /** From the wire to the router: on a stream of messages that fit the buckets
      which can be allocated, what is routed is the data of the non-empty messages
      that the decoder recognises, in order, under their topics. */
  lemma StreamIsRouted(memory: Memory, sizes: seq<nat>, u: nat, k: nat, s: Stream, decode: seq<byte> -> Option<TopicId>)
    requires Ascending(sizes) && Usable(memory, sizes, u) && k < u
    requires ValidStream(s) && FitsIn(s.messages, sizes[u - 1])
    ensures var routed := RouteAll(decode, ReadIn(memory, sizes, k, None, Bytes(s)).delivered);
            && DataOf(routed) == Recognised(decode, Messages(s.messages))
            && forall r :: r in routed ==> decode(r.data) == Some(r.topic)
  {
    StreamIsDeliveredIn(memory, sizes, u, k, s);
    RoutedExactly(decode, Messages(s.messages));
  }

  lemma RouteAppend(decode: seq<byte> -> Option<TopicId>, delivered: seq<Delivery>, d: Delivery)
    ensures RouteAll(decode, delivered + [d]) == RouteAll(decode, delivered) + RouteOne(decode, d)
  {
    assert (delivered + [d])[..|delivered|] == delivered;
  }

  /** How a round of `readLoop` ends. */
  datatype ReadTurn = GoesOn | Stops(ending: Ending)

  class SessionReader {
    const conn: WsConn
    const pool: BufferPool
    var frameSize: int
    var routed: seq<Routed>

    constructor (conn: WsConn, pool: BufferPool)
      requires pool.Valid()
      ensures this.conn == conn && this.pool == pool
      ensures frameSize == pool.sizes[0] && routed == []
    {
      this.conn := conn;
      this.pool := pool;
      frameSize := pool.sizes[0];
      routed := [];
    }

    /** `tryGrowReadBuffer` */
    method TryGrow(currentLen: int, bucketCap: int) returns (ok: bool)
      requires pool.Valid()
      modifies this`frameSize
      ensures ok <==> currentLen > 0 && (bucketCap > currentLen || 0 < bucketCap < pool.Largest())
      ensures var next := if bucketCap > currentLen then bucketCap else pool.NextBucketSize(bucketCap);
              frameSize == if ok && next > old(frameSize) then next else old(frameSize)
    {
      if currentLen <= 0 { return false; }
      var next := 0;
      if bucketCap > currentLen {
        next := bucketCap;
      } else {
        next := pool.NextBucketSize(bucketCap);
        if next == 0 { return false; }
      }
      if next > frameSize { frameSize := next; }
      return true;
    }

    /** One round of `readLoop`: a message is routed or dropped, or the frame
        size grows, or the loop ends.  `did` is what the round contributes to the
        run, `k2` the bucket it leaves. */
    method ReadOnce(decode: seq<byte> -> Option<TopicId>, ghost k: nat)
      returns (round: ReadTurn, ghost did: Prefix, ghost frames: seq<Frame>, ghost k2: nat)
      requires pool.Valid() && pool.Bounded() && k < |pool.sizes| && frameSize == pool.sizes[k]
      modifies this, conn, pool, pool.Free()
      ensures pool.Valid() && pool.Bounded() && fresh(pool.Free() - old(pool.Free()))
      ensures k2 < |pool.sizes| && frameSize == pool.sizes[k2]
      ensures ArePongs(frames, did.pongs) && conn.sent == old(conn.sent) + frames
      ensures routed == old(routed) + RouteAll(decode, did.delivered)
      ensures Turns(pool.memory, Buckets(pool.sizes), k, old(conn.pending), old(conn.input), round, did,
                    k2, conn.pending, conn.input)
      ensures round.Stops? ==> did.delivered == []
    {
      k2, round, did, frames := k, Stops(OutOfMemory), Prefix([], [], 0, false), [];
      CapacityOfBucket(k);
      var buf, panics := pool.Get(frameSize);
      if panics { return; }
      round, did, frames, k2 := ReadInto(decode, buf, k);
    }

    lemma CapacityOfBucket(k: nat)
      requires pool.Valid() && k < |pool.sizes|
      ensures pool.Capacity(pool.sizes[k]) == pool.sizes[k] > 0
    {
    }

    /** The round with its buffer. */
    method ReadInto(decode: seq<byte> -> Option<TopicId>, buf: array<byte>, ghost k: nat)
      returns (round: ReadTurn, ghost did: Prefix, ghost frames: seq<Frame>, ghost k2: nat)
      requires pool.Valid() && pool.Bounded() && k < |pool.sizes| && frameSize == pool.sizes[k] == buf.Length
      requires buf !in pool.Free() && pool.memory.Holds(buf.Length)
      modifies this, conn, pool, buf
      ensures pool.Valid() && pool.Bounded() && pool.Free() <= old(pool.Free()) + {buf}
      ensures k2 < |pool.sizes| && frameSize == pool.sizes[k2]
      ensures ArePongs(frames, did.pongs) && conn.sent == old(conn.sent) + frames
      ensures routed == old(routed) + RouteAll(decode, did.delivered)
      ensures Turns(pool.memory, Buckets(pool.sizes), k, old(conn.pending), old(conn.input), round, did,
                    k2, conn.pending, conn.input)
      ensures round.Stops? ==> did.delivered == []
    {
      ghost var sizes := Buckets(pool.sizes);
      ghost var r := Reading.Read(sizes[k], conn.pending, conn.input);
      ghost var pending, input := conn.pending, conn.input;
      k2, round := k, GoesOn;
      var n, msgType, failed;
      n, msgType, failed, frames := conn.Read(buf, frameSize);
      if failed.Some? {
        var grown := Retry(failed.value, buf, k);
        if grown {
          did, k2 := Prefix([], r.pongs, 1, r.outcome.Failed?), k + 1;
        } else {
          did, round := Prefix([], r.pongs, 0, r.outcome == Failed(TooLarge)), Stops(Ended(failed.value));
        }
        ErrorTurns(pool.memory, sizes, k, pending, input, r, round, did, k2);
        return;
      }
      did := Prefix(Deliver(r.outcome.msgType, r.outcome.data), r.pongs, 0, false);
      MessageTurns(pool.memory, sizes, k, pending, input, r);
      Dispatch(decode, buf, n, msgType);
    }

    /** The error branch of `readLoop`: give the buffer back and, if it was too
        small, go on with the next bucket when there is one. */
    method Retry(failed: ReadError, buf: array<byte>, ghost k: nat) returns (grown: bool)
      requires pool.Valid() && k < |pool.sizes| && frameSize == pool.sizes[k] == buf.Length
      modifies this`frameSize, pool
      ensures pool.Valid() && pool.Free() == old(pool.Free()) + {buf}
      ensures old(pool.Bounded()) && pool.memory.Holds(buf.Length) ==> pool.Bounded()
      ensures grown <==> failed == TooLarge && k + 1 < |pool.sizes|
      ensures frameSize == pool.sizes[if grown then k + 1 else k]
    {
      pool.Put(buf);
      grown := false;
      if failed == TooLarge {
        grown := TryGrow(frameSize, buf.Length);
        if grown { NextBucket(pool.sizes, k, pool.NextBucketSize(pool.sizes[k])); }
      }
    }

    /** A message of `n` bytes at the start of `buf`: empty messages and unknown
        topics give the buffer back, the rest goes to the router. */
    method Dispatch(decode: seq<byte> -> Option<TopicId>, buf: array<byte>, n: nat, msgType: MessageType)
      requires pool.Valid() && n <= buf.Length
      modifies this`routed, pool
      ensures pool.Valid()
      ensures routed == old(routed) + RouteAll(decode, Deliver(msgType, buf[..n]))
      ensures pool.Free() == old(pool.Free()) || pool.Free() == old(pool.Free()) + {buf}
      ensures old(pool.Bounded()) && pool.memory.Holds(buf.Length) ==> pool.Bounded()
    {
      if n <= 0 {
        pool.Put(buf);
        return;
      }
      var data := buf[..n];
      RouteAppend(decode, [], Delivery(msgType, data));
      assert [] + [Delivery(msgType, data)] == [Delivery(msgType, data)];
      var topic := decode(data);
      if topic.None? {
        pool.Put(buf);
        return;
      }
      assert RouteAll(decode, []) + [Routed(topic.value, data)] == [Routed(topic.value, data)];
      routed := routed + [Routed(topic.value, data)];
    }

    /** `readLoop`, until it reports an error or panics for want of memory.  What
        it hands to the router, how it ends, and the pongs it sends are those of
        `ReadIn` from the current bucket. */
    method ReadLoop(decode: seq<byte> -> Option<TopicId>, ghost k0: nat)
      returns (ending: Ending, ghost frames: seq<Frame>)
      requires pool.Valid() && pool.Bounded() && k0 < |pool.sizes| && frameSize == pool.sizes[k0]
      modifies this, conn, pool, pool.Free()
      ensures pool.Valid() && pool.Bounded()
      ensures var r := ReadIn(pool.memory, Buckets(pool.sizes), k0, old(conn.pending), old(conn.input));
              && ending == r.ending
              && routed == old(routed) + RouteAll(decode, r.delivered)
              && ArePongs(frames, r.pongs) && conn.sent == old(conn.sent) + frames
    {
      ghost var sizes := Buckets(pool.sizes);
      ghost var goal := ReadIn(pool.memory, sizes, k0, conn.pending, conn.input);
      ghost var k: nat, run := k0, Prefix([], [], 0, false);
      frames := [];
      run.Starts(goal);
      while true
        invariant pool.Valid() && pool.Bounded() && k < |sizes| && frameSize == sizes[k]
        invariant fresh(pool.Free() - old(pool.Free()))
        invariant goal == run.On(ReadIn(pool.memory, sizes, k, conn.pending, conn.input))
        invariant routed == old(routed) + RouteAll(decode, run.delivered)
        invariant ArePongs(frames, run.pongs) && conn.sent == old(conn.sent) + frames
        decreases |conn.input|, if conn.pending.Some? then 1 else 0, |sizes| - k
      {
        ghost var did, sent, k2;
        var round;
        round, did, sent, k2 := ReadOnce(decode, k);
        PongsAppend(frames, run.pongs, sent, did.pongs);
        AppendAssociates(old(conn.sent), frames, sent);
        frames := frames + sent;
        if round.Stops? {
          run.Ends(did.pongs, round.ending, did.oversize);
          AppendAssociates(old(routed), RouteAll(decode, run.delivered), []);
          return round.ending, frames;
        }
        run.More(did, ReadIn(pool.memory, sizes, k2, conn.pending, conn.input));
        RouteConcat(decode, run.delivered, did.delivered);
        AppendAssociates(old(routed), RouteAll(decode, run.delivered), RouteAll(decode, did.delivered));
        run, k := run.Then(did), k2;
      }
    }
  }

  /** What a round makes of the run, and that it makes progress. */
  ghost predicate Turns(memory: Memory, sizes: seq<nat>, k: nat, pending: Option<Pending>, input: seq<byte>,
                        round: ReadTurn, did: Prefix, k2: nat, pending2: Option<Pending>, input2: seq<byte>)
  {
    && k < |sizes| && k2 < |sizes|
    && ReadIn(memory, sizes, k, pending, input)
       == (match round
           case GoesOn => did.On(ReadIn(memory, sizes, k2, pending2, input2))
           case Stops(ending) => BoundedRun([], did.pongs, ending, 0, did.oversize))
    && (round.GoesOn? ==> Progress(|input|, pending.Some?, k, |input2|, pending2.Some?, k2))
  }

  lemma ErrorTurns(memory: Memory, sizes: seq<nat>, k: nat, pending: Option<Pending>, input: seq<byte>, r: ReadResult,
                   round: ReadTurn, did: Prefix, k2: nat)
    requires k < |sizes| && memory.Holds(sizes[k]) && r == Read(sizes[k], pending, input) && !r.outcome.Message?
    requires if Grows(r) && k + 1 < |sizes|
             then round == GoesOn && did == Prefix([], r.pongs, 1, r.outcome.Failed?) && k2 == k + 1
             else round == Stops(Ended(if r.outcome.Failed? then r.outcome.error else TooLarge))
                  && did == Prefix([], r.pongs, 0, r.outcome == Failed(TooLarge)) && k2 == k
    ensures Turns(memory, sizes, k, pending, input, round, did, k2, Stash(r), r.rest)
  {
    RoundIs(memory, sizes, k, pending, input, r);
    ReadShrinks(sizes[k], pending, input);
  }

  lemma MessageTurns(memory: Memory, sizes: seq<nat>, k: nat, pending: Option<Pending>, input: seq<byte>, r: ReadResult)
    requires k < |sizes| && memory.Holds(sizes[k]) && r == Read(sizes[k], pending, input) && r.outcome.Message?
    ensures Turns(memory, sizes, k, pending, input, GoesOn,
                  Prefix(Deliver(r.outcome.msgType, r.outcome.data), r.pongs, 0, false), k, None, r.rest)
  {
    RoundIs(memory, sizes, k, pending, input, r);
    ReadShrinks(sizes[k], pending, input);
  }

  /** The order in which the rounds of `readLoop` make progress. */
  ghost predicate Progress(input1: nat, pending1: bool, k1: nat, input2: nat, pending2: bool, k2: nat) {
    || input2 < input1
    || (input2 == input1 && pending1 && !pending2)
    || (input2 == input1 && pending1 == pending2 && k2 > k1)
  }

  lemma NextBucket(sizes: seq<int>, k: nat, next: int)
    requires StrictlyIncreasing(sizes) && k < |sizes|
    requires next in sizes && next > sizes[k] && forall i :: 0 <= i < |sizes| && sizes[i] > sizes[k] ==> next <= sizes[i]
    ensures k + 1 < |sizes| && next == sizes[k + 1]
  {
    var i :| 0 <= i < |sizes| && sizes[i] == next;
    assert i > k;
  }

  lemma {:induction false} RouteConcat(decode: seq<byte> -> Option<TopicId>, a: seq<Delivery>, b: seq<Delivery>)
    ensures RouteAll(decode, a + b) == RouteAll(decode, a) + RouteAll(decode, b)
  {
    if b == [] {
      assert a + b == a;
    } else {
      var n := |b| - 1;
      RouteConcat(decode, a, b[..n]);
      RouteAppend(decode, a + b[..n], b[n]);
      AppendAssociates(RouteAll(decode, a), RouteAll(decode, b[..n]), RouteOne(decode, b[n]));
      LastApart(a, b);
    }
  }

  lemma LastApart<T>(a: seq<T>, b: seq<T>)
    requires b != []
    ensures (a + b[..|b| - 1]) + [b[|b| - 1]] == a + b
  {
  }

  ghost function Buckets(sizes: seq<int>): (s: seq<nat>)
    requires StrictlyIncreasing(sizes) && (sizes != [] ==> sizes[0] > 0)
    ensures s == sizes
  {
    seq(|sizes|, i requires 0 <= i < |sizes| => sizes[i])
  }

  /** What a run has done so far. */
  datatype Prefix = Prefix(delivered: seq<Delivery>, pongs: seq<seq<byte>>, retries: nat, oversize: bool)
  {
    function On(r: BoundedRun): BoundedRun {
      Behind(delivered, pongs, retries, oversize, r)
    }

    function Then(p: Prefix): Prefix {
      Prefix(delivered + p.delivered, pongs + p.pongs, retries + p.retries, oversize || p.oversize)
    }

    lemma Starts(r: BoundedRun)
      ensures Prefix([], [], 0, false).On(r) == r
    {
      assert [] + r.delivered == r.delivered && [] + r.pongs == r.pongs;
    }

    lemma More(p: Prefix, r: BoundedRun)
      ensures On(p.On(r)) == Then(p).On(r)
    {
      AppendAssociates(delivered, p.delivered, r.delivered);
      AppendAssociates(pongs, p.pongs, r.pongs);
    }

    lemma Ends(p: seq<seq<byte>>, e: Ending, o: bool)
      ensures On(BoundedRun([], p, e, 0, o)) == BoundedRun(delivered, pongs + p, e, retries, oversize || o)
    {
      assert delivered + [] == delivered;
    }
  }
}
