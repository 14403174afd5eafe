/** The sending half of a session: `encodeControl` and `sendSubscribe` of
    libs/shared/websocket/session.go over the writer of writer.go and the buffer
    pool.  Every buffer taken from the pool ends in the queue, on the wire, or
    back in the pool. */
module Outbound {
  import opened Types
  import opened Wire
  import opened BufferPools

  datatype Message = Message(msgType: MessageType, data: seq<byte>)

  /** `outboundFrame`: the first `len` bytes of a buffer; a nil buffer is an
      empty payload. */
  datatype OutFrame = OutFrame(msgType: MessageType, buf: array?<byte>, len: nat)

  ghost predicate Shows(f: OutFrame, m: Message)
    reads if f.buf == null then {} else {f.buf}
  {
    && f.msgType == m.msgType
    && if f.buf == null then m.data == [] else f.len <= f.buf.Length && f.buf[..f.len] == m.data
  }

  /** An encoder's answer: an error, or the bytes it appends. */
  datatype Encoded = EncodeError | Bytes(data: seq<byte>)

  datatype ControlResult = Control(buf: array<byte>, len: nat) | EncodeFailed | FrameTooLarge | NoMemory

  /** The pool affords the buffers for what the encoder gives first. */
  ghost predicate AffordsControl(pool: BufferPool, first: Encoded)
    requires pool.sizes != [] && StrictlyIncreasing(pool.sizes)
    reads pool
  {
    && pool.Affords(pool.sizes[0])
    && (first.Bytes? && |first.data| > pool.sizes[0] ==> pool.Affords(|first.data|))
  }

  /** `encodeControl`.  The encoder may be asked twice.  On success its bytes
      stand in one buffer that has left the pool, on failure none has; either
      way nothing else is missing from the pool.  An encoder that repeats itself
      is never too large.  `NoMemory` is the panic of a buffer that cannot be
      had. */
  method EncodeControl(pool: BufferPool, first: Encoded, second: Encoded) returns (r: ControlResult)
    requires pool.Valid()
    modifies pool, pool.Free()
    ensures pool.Valid() && fresh(pool.Free() - old(pool.Free()))
    ensures r.Control? ==>
              && r.len <= r.buf.Length && r.buf !in pool.Free() && (fresh(r.buf) || r.buf in old(pool.Free()))
              && (first == Bytes(r.buf[..r.len]) || second == Bytes(r.buf[..r.len]))
    ensures old(pool.Free()) - (if r.Control? then {r.buf} else {}) <= pool.Free()
    ensures r == NoMemory <==> !old(AffordsControl(pool, first))
    ensures first == second && r != NoMemory ==> r != FrameTooLarge && (r == EncodeFailed <==> first == EncodeError)
    ensures first == second && first.Bytes? && r != NoMemory ==> r.Control? && r.buf[..r.len] == first.data
  {
    FirstBucket(pool);
    var buf, panics := pool.Get(pool.sizes[0]);
    if panics { return NoMemory; }
    if first.EncodeError? {
      pool.Put(buf);
      return EncodeFailed;
    }
    if |first.data| <= buf.Length {
      CopyTo(buf, first.data);
      return Control(buf, |first.data|);
    }
    // The encoder's append has moved to an array of its own.
    pool.Put(buf);
    r := EncodeLarger(pool, |first.data|, second);
  }

  lemma FirstBucket(pool: BufferPool)
    requires pool.Valid()
    ensures pool.Capacity(pool.sizes[0]) == pool.sizes[0] > 0
    ensures forall n: int :: n > pool.sizes[0] ==> pool.Capacity(n) > pool.sizes[0]
  {
  }

  /** The second attempt, with a buffer for what the first one gave. */
  method EncodeLarger(pool: BufferPool, size: nat, second: Encoded) returns (r: ControlResult)
    requires pool.Valid() && size > 0
    modifies pool, pool.Free()
    ensures pool.Valid() && fresh(pool.Free() - old(pool.Free()))
    ensures r.Control? ==>
              && r.len <= r.buf.Length && r.buf !in pool.Free() && (fresh(r.buf) || r.buf in old(pool.Free()))
              && second == Bytes(r.buf[..r.len])
    ensures old(pool.Free()) - (if r.Control? then {r.buf} else {}) <= pool.Free()
    ensures r == NoMemory <==> !old(pool.Affords(size))
    ensures r != NoMemory ==> (r == EncodeFailed <==> second == EncodeError)
    ensures second.Bytes? && |second.data| <= size && r != NoMemory ==> r.Control?
  {
    var larger, panics := pool.Get(size);
    if panics { return NoMemory; }
    if second.EncodeError? {
      pool.Put(larger);
      return EncodeFailed;
    }
    if |second.data| > larger.Length {
      pool.Put(larger);
      return FrameTooLarge;
    }
    CopyTo(larger, second.data);
    return Control(larger, |second.data|);
  }

  /** `writer` */
  class Writer {
    const pool: BufferPool
    const capacity: nat
    const policy: Policy
    var queue: seq<OutFrame>
    var connected: bool

    /** What the queued buffers hold. */
    ghost var messages: seq<Message>

    constructor (pool: BufferPool, capacity: int, policy: Policy)
      requires pool.Valid()
      ensures Valid() && messages == [] && !connected && this.pool == pool && this.policy == policy
      ensures this.capacity == if capacity <= 0 then 1 else capacity
    {
      this.pool, this.policy := pool, policy;
      this.capacity := if capacity <= 0 then 1 else capacity;
      queue, messages, connected := [], [], false;
    }

    /** The buffers in the queue. */
    ghost function Held(): set<array<byte>>
      reads this
    {
      set f | f in queue && f.buf != null :: f.buf
    }

    /** All buffers, free or queued. */
    ghost function Buffers(): set<array<byte>>
      reads this, pool
    {
      pool.Free() + Held()
    }

    ghost predicate Apart(f: OutFrame, g: OutFrame) {
      f.buf == null || f.buf != g.buf
    }

    /** No buffer is queued twice, or queued and free. */
    ghost predicate Owned()
      reads this, pool
    {
      && (forall i, j :: 0 <= i < j < |queue| ==> Apart(queue[i], queue[j]))
      && (forall i :: 0 <= i < |queue| && queue[i].buf != null ==> queue[i].buf !in pool.Free())
    }

    ghost predicate Valid()
      reads this, pool, Held()
    {
      && pool.Valid() && 1 <= capacity && |queue| <= capacity && |messages| == |queue|
      && Owned()
      && forall i :: 0 <= i < |queue| ==> Shows(queue[i], messages[i])
    }

    /** A pooled buffer, or nothing. */
    function Recyclable(buf: array?<byte>): set<array<byte>> {
      if buf != null && buf.Length in pool.sizes then {buf} else {}
    }

    /** `outboundFrame.Release`.  A buffer that is free already must not come back
        again. */
    method Release(f: OutFrame)
      requires pool.Valid() && (f.buf != null ==> f.buf !in pool.Free())
      modifies pool
      ensures pool.Valid() && pool.Free() == old(pool.Free()) + Recyclable(f.buf)
    {
      if f.buf != null { pool.Put(f.buf); }
    }

    /** A frame that is nobody else's. */
    ghost predicate Offered(f: OutFrame, m: Message)
      reads this, pool, if f.buf == null then {} else {f.buf}
    {
      Shows(f, m) && (f.buf != null ==> f.buf !in pool.Free()) && forall i :: 0 <= i < |queue| ==> Apart(f, queue[i])
    }

    /** `w.queue <- frame`, when there is room. */
    method Append(f: OutFrame, ghost m: Message)
      requires Valid() && |queue| < capacity && Offered(f, m)
      modifies this`queue, this`messages
      ensures Valid() && queue == old(queue) + [f] && messages == old(messages) + [m]
    {
      queue := queue + [f];
      messages := messages + [m];
    }

    /** `<-w.queue`, and the frame's release. */
    method ReleaseOldest()
      requires Valid() && queue != []
      modifies this`queue, this`messages, pool
      ensures Valid() && queue == old(queue)[1..] && messages == old(messages)[1..]
      ensures pool.Free() == old(pool.Free()) + Recyclable(old(queue)[0].buf)
    {
      var f := queue[0];
      queue := queue[1..];
      messages := messages[1..];
      Release(f);
    }

    /** Whether queueing a frame pushes out the oldest one. */
    ghost predicate Evicts()
      reads this
    {
      connected && |queue| == capacity && policy == DropOldest
    }

    /** What the policy decides about one more frame. */
    ghost function Decides(): Decision
      reads this
    {
      if !connected then Rejected
      else if |queue| < capacity || policy == DropOldest then Accepted
      else if policy == Block then Waits
      else Rejected
    }

    /** `Enqueue`.  Under the blocking policy a full queue makes the caller wait,
        with nothing changed.  A frame not accepted stays with the caller; an
        evicted one is released. */
    method Enqueue(f: OutFrame, ghost m: Message) returns (d: Decision)
      requires Valid() && Offered(f, m)
      modifies this`queue, this`messages, pool
      ensures Valid() && d == old(Decides())
      ensures d == Waits <==> old(connected && |queue| == capacity && policy == Block)
      ensures d == Accepted <==> old(connected && (|queue| < capacity || policy == DropOldest))
      ensures messages == Queued(old(messages), m, d == Accepted, old(Evicts()))
      ensures Held() == old(Held()) - (if old(Evicts()) then BufferOf(old(queue)[0]) else {})
                        + (if d == Accepted then BufferOf(f) else {})
      ensures pool.Free() == old(pool.Free()) + (if old(Evicts()) then Recyclable(old(queue)[0].buf) else {})
      ensures d != Accepted ==> Offered(f, m)
    {
      if !connected { return Rejected; }
      match policy {
        case Block =>
          if |queue| == capacity { return Waits; }
          Append(f, m);
          return Accepted;
        case DropOldest =>
          MakeRoom(f, m);
          Append(f, m);
          return Accepted;
        case DropNewest =>
          if |queue| == capacity { return Rejected; }
          Append(f, m);
          return Accepted;
      }
    }

    /** The loop of DropOldest, up to the send that succeeds. */
    method MakeRoom(ghost f: OutFrame, ghost m: Message)
      requires Valid() && Offered(f, m)
      modifies this`queue, this`messages, pool
      ensures Valid() && Offered(f, m) && |queue| < capacity
      ensures old(|queue|) < capacity ==> queue == old(queue) && messages == old(messages) && pool.Free() == old(pool.Free())
      ensures old(|queue|) == capacity ==>
                && queue == old(queue)[1..] && messages == old(messages)[1..]
                && pool.Free() == old(pool.Free()) + Recyclable(old(queue)[0].buf)
    {
      ghost var evicted := false;
      while |queue| == capacity
        invariant Valid() && Offered(f, m)
        invariant evicted <==> old(|queue|) == capacity && |queue| < capacity
        invariant !evicted ==> queue == old(queue) && messages == old(messages) && pool.Free() == old(pool.Free())
        invariant evicted ==> queue == old(queue)[1..] && messages == old(messages)[1..]
        invariant evicted ==> pool.Free() == old(pool.Free()) + Recyclable(old(queue)[0].buf)
        decreases |queue|
      {
        ReleaseOldest();
        evicted := true;
      }
    }

    /** Every buffer of a bucket's size that was free or queued still is. */
    ghost predicate Kept(before: set<array<byte>>)
      reads this, pool
    {
      forall b :: b in before && b.Length in pool.sizes ==> b in Buffers()
    }

    /** `Enqueue`, and the release of a refused frame, as all its callers do.  A
        caller that has to wait keeps the frame in hand. */
    method EnqueueOrRelease(f: OutFrame, ghost m: Message) returns (d: Decision)
      requires Valid() && Offered(f, m)
      modifies this`queue, this`messages, pool
      ensures Valid() && d == old(Decides())
      ensures messages == Queued(old(messages), m, d == Accepted, old(Evicts()))
      ensures Kept(old(Buffers()) + (if d == Waits then {} else BufferOf(f)))
      ensures Buffers() <= old(Buffers()) + BufferOf(f)
      ensures d == Waits ==> Offered(f, m)
    {
      d := Enqueue(f, m);
      if d == Rejected { Release(f); }
    }

    /** `Send`: a copy of the payload in a buffer of its own; an empty payload
        needs none.  `hand` is the buffer of a caller that has to wait.  It panics
        when there is no memory for the copy. */
    method Send(msgType: MessageType, payload: seq<byte>) returns (d: Decision, panics: bool, ghost hand: set<array<byte>>)
      requires Valid()
      modifies this`queue, this`messages, pool, pool.Free()
      ensures fresh(Buffers() - old(Buffers()))
      ensures Valid() && Kept(old(Buffers()) - hand) && (d != Waits ==> hand == {}) && hand !! Buffers()
      ensures panics <==> connected && !old(pool.Affords(|payload|))
      ensures d == if panics then Rejected else old(Decides())
      ensures messages == Queued(old(messages), Message(msgType, payload), d == Accepted, !panics && old(Evicts()))
    {
      hand := {};
      if !connected { return Rejected, false, {}; }
      var buf;
      buf, panics := pool.Get(|payload|);
      if panics { return Rejected, true, {}; }
      var f := OutFrame(msgType, buf, |payload|);
      if buf != null { FillApart(buf, payload); }
      d := EnqueueOrRelease(f, Message(msgType, payload));
      if d == Waits { hand := BufferOf(f); }
    }

    /** Writing to a buffer that is not queued leaves the queue intact. */
    method FillApart(buf: array<byte>, data: seq<byte>)
      requires Valid() && |data| <= buf.Length && buf !in Held()
      modifies buf
      ensures Valid() && buf[..|data|] == data
    {
      CopyTo(buf, data);
    }

    /** `sendSubscribe` and `sendUnsubscribe` with what the encoder answers. */
    method SendControl(msgType: MessageType, first: Encoded, second: Encoded)
      returns (r: ControlStatus, ghost hand: set<array<byte>>)
      requires Valid()
      modifies this`queue, this`messages, pool, pool.Free()
      ensures fresh(Buffers() - old(Buffers()))
      ensures Valid() && Kept(old(Buffers()) - hand) && (r != Blocked ==> hand == {}) && hand !! Buffers()
      ensures r == Sent || r == QueueFull || r == Blocked ==>
                r == (match old(Decides()) case Accepted => Sent case Rejected => QueueFull case Waits => Blocked)
      ensures r != Sent ==> messages == old(messages)
      ensures r == Sent ==>
                exists data :: (first == Bytes(data) || second == Bytes(data))
                  && messages == Queued(old(messages), Message(msgType, data), true, old(Evicts()))
      ensures r == Exhausted <==> !old(AffordsControl(pool, first))
      ensures first == second && r != Exhausted ==> r != Oversized && (r == NotEncoded <==> first == EncodeError)
    {
      hand := {};
      var c := EncodeControl(pool, first, second);
      match c {
        case EncodeFailed => return NotEncoded, {};
        case FrameTooLarge => return Oversized, {};
        case NoMemory => return Exhausted, {};
        case Control(buf, len) =>
          var f := OutFrame(msgType, buf, len);
          var d := EnqueueOrRelease(f, Message(msgType, buf[..len]));
          match d {
            case Accepted => return Sent, {};
            case Rejected => return QueueFull, {};
            case Waits => return Blocked, BufferOf(f);
          }
      }
    }

    /** The writing branch of `runSession`: what reaches `conn.Write` is what was
        queued first, and its buffer goes back whether or not the write fails. */
    method WriteNext() returns (m: Message)
      requires Valid() && queue != []
      modifies this`queue, this`messages, pool
      ensures Valid() && Kept(old(Buffers()))
      ensures m == old(messages)[0] && messages == old(messages)[1..] && Buffers() <= old(Buffers())
    {
      var f := queue[0];
      m := Message(f.msgType, if f.buf == null then [] else f.buf[..f.len]);
      ReleaseOldest();
    }

    /** `Drain` */
    method Drain()
      requires Valid()
      modifies this`queue, this`messages, pool
      ensures fresh(Buffers() - old(Buffers()))
      ensures Valid() && queue == [] && Kept(old(Buffers()))
    {
      while queue != []
        invariant Valid() && Kept(old(Buffers())) && Buffers() <= old(Buffers())
        decreases |queue|
      {
        ReleaseOldest();
      }
    }
  }

  /** `Blocked` is a caller that waits for room, `Exhausted` a panic for want of
      memory. */
  datatype ControlStatus = Sent | NotEncoded | Oversized | QueueFull | Blocked | Exhausted

  function BufferOf(f: OutFrame): set<array<byte>> {
    if f.buf == null then {} else {f.buf}
  }

  function Queued(messages: seq<Message>, m: Message, ok: bool, evicts: bool): seq<Message>
    requires evicts ==> messages != []
  {
    (if evicts then messages[1..] else messages) + (if ok then [m] else [])
  }
}
