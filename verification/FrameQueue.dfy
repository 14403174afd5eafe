/** The bounded queue of a consumer: `frameQueue` of
    libs/shared/websocket/consumer.go.

    `PushResult` and `PopResult` say what one critical section does to an
    abstract bounded queue.  The class below is the ring buffer, updated in
    place, and refines them; a thread that would wait on a condition variable
    leaves the critical section with `Waits` and enters it again when woken. */
module FrameQueues {
  import opened Types

  datatype Queue<T> = Queue(capacity: nat, policy: Policy, contents: seq<T>, closed: bool)

  /** The queue afterwards, what the caller is told, and the frames evicted. */
  datatype PushOutcome<T> = PushOutcome(queue: Queue<T>, decision: Decision, evicted: seq<T>)

  function PushResult<T>(q: Queue<T>, frame: T): PushOutcome<T>
    requires q.capacity > 0
  {
    if q.closed then PushOutcome(q, Rejected, [])
    else if |q.contents| < q.capacity then PushOutcome(q.(contents := q.contents + [frame]), Accepted, [])
    else match q.policy
      case Block => PushOutcome(q, Waits, [])
      case DropNewest => PushOutcome(q, Rejected, [])
      case DropOldest => PushOutcome(q.(contents := q.contents[1..] + [frame]), Accepted, q.contents[..1])
  }

  datatype PopOutcome<T> = PopOutcome(queue: Queue<T>, decision: Decision, frame: Option<T>)

  function PopResult<T>(q: Queue<T>): PopOutcome<T> {
    if q.contents != [] then PopOutcome(q.(contents := q.contents[1..]), Accepted, Some(q.contents[0]))
    else PopOutcome(q, if q.closed then Rejected else Waits, None)
  }

  function CloseResult<T>(q: Queue<T>): Queue<T> {
    if q.closed then q else q.(contents := [], closed := true)
  }

  // ---------------------------------------------------------------------
  // What the abstract queue guarantees

  ghost predicate Full<T>(q: Queue<T>) {
    |q.contents| >= q.capacity
  }

  /** What every push does: who is refused and who waits, that neither changes
      anything, and what a frame taken in leaves in the queue. */
  lemma PushExactly<T>(q: Queue<T>, frame: T)
    requires q.capacity > 0
    ensures var r := PushResult(q, frame);
            && (r.decision == Rejected <==> q.closed || (Full(q) && q.policy == DropNewest))
            && (r.decision == Waits <==> !q.closed && Full(q) && q.policy == Block)
            && (r.decision != Accepted ==> r.queue == q && r.evicted == [])
            && (r.decision == Accepted && !Full(q) ==>
                  r.queue == Queue(q.capacity, q.policy, q.contents + [frame], q.closed) && r.evicted == [])
            && (r.decision == Accepted && Full(q) ==>
                  r.queue == Queue(q.capacity, q.policy, q.contents[1..] + [frame], q.closed) && r.evicted == [q.contents[0]])
  {
  }

  /** What every pop does. */
  lemma PopExactly<T>(q: Queue<T>)
    ensures var r := PopResult(q);
            && (q.contents != [] ==>
                  && r.decision == Accepted && r.frame == Some(q.contents[0])
                  && r.queue == Queue(q.capacity, q.policy, q.contents[1..], q.closed))
            && (q.contents == [] ==>
                  r.decision == (if q.closed then Rejected else Waits) && r.frame == None && r.queue == q)
  {
  }

  /** The lock-granular steps of one queue. */
  datatype Op<T> = PushOp(frame: T) | PopOp | CloseOp

  /** A queue together with everything it accepted and everything that left it,
      in order: popped, evicted, or released by Close. */
  datatype History<T> = History(queue: Queue<T>, accepted: seq<T>, removed: seq<T>)

  function Apply<T>(h: History<T>, op: Op<T>): History<T>
    requires h.queue.capacity > 0
  {
    match op
    case PushOp(frame) =>
      var r := PushResult(h.queue, frame);
      History(r.queue, h.accepted + (if r.decision == Accepted then [frame] else []), h.removed + r.evicted)
    case PopOp =>
      var r := PopResult(h.queue);
      History(r.queue, h.accepted, h.removed + (if r.frame.Some? then [r.frame.value] else []))
    case CloseOp =>
      History(CloseResult(h.queue), h.accepted, h.removed + (if h.queue.closed then [] else h.queue.contents))
  }

  function Run<T>(h: History<T>, ops: seq<Op<T>>): (r: History<T>)
    requires h.queue.capacity > 0
    ensures r.queue.capacity == h.queue.capacity
    decreases |ops|
  {
    if ops == [] then h else Run(Apply(h, ops[0]), ops[1..])
  }

  ghost predicate Consistent<T>(h: History<T>) {
    && 0 < h.queue.capacity && |h.queue.contents| <= h.queue.capacity
    && (h.queue.closed ==> h.queue.contents == [])
    && h.accepted == h.removed + h.queue.contents
  }

  lemma ApplyConsistent<T>(h: History<T>, op: Op<T>)
    requires Consistent(h)
    ensures Consistent(Apply(h, op))
  {
    var q := h.queue.contents;
    match op {
      case PushOp(frame) =>
        var r := PushResult(h.queue, frame);
        if r.decision == Accepted {
          assert r.evicted + r.queue.contents == q + [frame];
          Regroup(h.removed, r.evicted, r.queue.contents, q, [frame]);
        } else {
          assert h.accepted + [] == h.accepted && h.removed + [] == h.removed;
        }
      case PopOp =>
        assert h.removed + [] == h.removed;
        if q != [] {
          assert [q[0]] + q[1..] == q + [];
          Regroup(h.removed, [q[0]], q[1..], q, []);
          assert (h.removed + q) + [] == h.removed + q;
        }
      case CloseOp =>
        assert h.removed + [] == h.removed && (h.removed + q) + [] == h.removed + q;
    }
  }

  lemma Regroup<T>(a: seq<T>, b: seq<T>, c: seq<T>, d: seq<T>, e: seq<T>)
    requires b + c == d + e
    ensures (a + b) + c == (a + d) + e
  {
    assert (a + b) + c == a + (b + c);
    assert (a + d) + e == a + (d + e);
  }

  /** In every run from an empty queue, what was accepted is exactly what left
      the queue, in that order, followed by what is still in it. */
  lemma {:induction false} FirstInFirstOut<T>(h: History<T>, ops: seq<Op<T>>)
    requires Consistent(h)
    ensures Consistent(Run(h, ops))
    decreases |ops|
  {
    if ops != [] {
      ApplyConsistent(h, ops[0]);
      FirstInFirstOut(Apply(h, ops[0]), ops[1..]);
    }
  }

  /** The frames offered in a run. */
  function Offered<T>(ops: seq<Op<T>>): seq<T> {
    if ops == [] then [] else (if ops[0].PushOp? then [ops[0].frame] else []) + Offered(ops[1..])
  }

  ghost predicate KeepsOpen<T>(h: History<T>, ops: seq<Op<T>>) {
    Consistent(h) && h.queue.policy == DropOldest && !h.queue.closed && forall op :: op in ops ==> !op.CloseOp?
  }

  lemma DropOldestStep<T>(h: History<T>, op: Op<T>)
    requires KeepsOpen(h, [op])
    ensures var r := Apply(h, op);
            && KeepsOpen(r, []) && r.queue.capacity == h.queue.capacity
            && r.accepted == h.accepted + (if op.PushOp? then [op.frame] else [])
            && (op.PushOp? ==> r.queue.contents == Newest(h.queue.contents + [op.frame], h.queue.capacity))
  {
    assert op in [op];
    ApplyConsistent(h, op);
    assert h.accepted + [] == h.accepted;
  }

  lemma NewestOfNewest<T>(a: seq<T>, b: seq<T>, n: nat)
    ensures Newest(Newest(a, n) + b, n) == Newest(a + b, n)
  {
  }

  /** With DropOldest an open queue takes every frame offered to it, and loses the
      oldest first: in every run, what left it and what is in it are all frames
      offered, in order; after a run of pushes it holds the newest `capacity`. */
  lemma {:induction false} DropOldestKeepsNewest<T>(h: History<T>, ops: seq<Op<T>>)
    requires KeepsOpen(h, ops)
    ensures var r := Run(h, ops);
            && r.accepted == r.removed + r.queue.contents == h.accepted + Offered(ops)
            && ((forall op :: op in ops ==> op.PushOp?) ==>
                  r.queue.contents == Newest(h.queue.contents + Offered(ops), h.queue.capacity))
    decreases |ops|
  {
    if ops == [] {
      assert h.accepted + [] == h.accepted && h.queue.contents + [] == h.queue.contents;
    } else {
      var op, rest := ops[0], ops[1..];
      assert op in ops && forall x :: x in rest ==> x in ops;
      DropOldestStep(h, op);
      DropOldestKeepsNewest(Apply(h, op), rest);
      var taken := if op.PushOp? then [op.frame] else [];
      AppendAssociates(h.accepted, taken, Offered(rest));
      AppendAssociates(h.queue.contents, taken, Offered(rest));
      NewestOfNewest(h.queue.contents + taken, Offered(rest), h.queue.capacity);
    }
  }

  ghost predicate NeverCloses<T>(ops: seq<Op<T>>) {
    forall op :: op in ops ==> !op.CloseOp?
  }

  lemma OpKeepsPolicy<T>(h: History<T>, op: Op<T>)
    requires Consistent(h)
    ensures var r := Apply(h, op);
            && Consistent(r) && r.queue.policy == h.queue.policy && r.queue.capacity == h.queue.capacity
            && (!op.CloseOp? ==> r.queue.closed == h.queue.closed)
  {
    ApplyConsistent(h, op);
  }

  /** Under the blocking policy no push on an open queue is ever refused: after
      any run without Close, the next one is taken, or waits if the queue is
      full. */
  lemma {:induction false} BlockNeverRejects<T>(h: History<T>, ops: seq<Op<T>>, frame: T)
    requires Consistent(h) && h.queue.policy == Block && !h.queue.closed && NeverCloses(ops)
    ensures var q := Run(h, ops).queue;
            PushResult(q, frame).decision == if |q.contents| < q.capacity then Accepted else Waits
    decreases |ops|
  {
    if ops != [] {
      assert ops[0] in ops && forall x :: x in ops[1..] ==> x in ops;
      OpKeepsPolicy(h, ops[0]);
      BlockNeverRejects(Apply(h, ops[0]), ops[1..], frame);
    }
  }

  /** The oldest `n` of the frames. */
  function Oldest<T>(frames: seq<T>, n: nat): seq<T> {
    if |frames| <= n then frames else frames[..n]
  }

  lemma OldestOfOldest<T>(a: seq<T>, b: seq<T>, n: nat)
    ensures Oldest(Oldest(a, n) + b, n) == Oldest(a + b, n)
  {
  }

  lemma DropNewestStep<T>(h: History<T>, op: Op<T>)
    requires Consistent(h) && h.queue.policy == DropNewest && !h.queue.closed && op.PushOp?
    ensures var r := Apply(h, op);
            r.queue.contents == Oldest(h.queue.contents + [op.frame], h.queue.capacity) && r.removed == h.removed
  {
    PushExactly(h.queue, op.frame);
    assert h.removed + [] == h.removed;
  }

  /** With DropNewest a run of pushes keeps the oldest `capacity` frames and evicts
      nothing. */
  lemma {:induction false} DropNewestKeepsOldest<T>(h: History<T>, ops: seq<Op<T>>)
    requires Consistent(h) && h.queue.policy == DropNewest && !h.queue.closed
    requires forall op :: op in ops ==> op.PushOp?
    ensures var r := Run(h, ops);
            r.queue.contents == Oldest(h.queue.contents + Offered(ops), h.queue.capacity) && r.removed == h.removed
    decreases |ops|
  {
    if ops == [] {
      assert h.queue.contents + [] == h.queue.contents;
    } else {
      var op, rest := ops[0], ops[1..];
      assert op in ops && forall x :: x in rest ==> x in ops;
      OpKeepsPolicy(h, op);
      DropNewestStep(h, op);
      DropNewestKeepsOldest(Apply(h, op), rest);
      AppendAssociates(h.queue.contents, [op.frame], Offered(rest));
      OldestOfOldest(h.queue.contents + [op.frame], Offered(rest), h.queue.capacity);
    }
  }

  /** How often a run pops. */
  function Pops<T>(ops: seq<Op<T>>): nat {
    if ops == [] then 0 else (if ops[0].PopOp? then 1 else 0) + Pops(ops[1..])
  }

  /** Outside DropOldest nothing is evicted: only pops take frames out, one each at
      most. */
  lemma {:induction false} OnlyPopsRemove<T>(h: History<T>, ops: seq<Op<T>>)
    requires Consistent(h) && h.queue.policy != DropOldest && NeverCloses(ops)
    ensures h.removed <= Run(h, ops).removed && |Run(h, ops).removed| <= |h.removed| + Pops(ops)
    decreases |ops|
  {
    if ops != [] {
      assert ops[0] in ops && forall x :: x in ops[1..] ==> x in ops;
      OpKeepsPolicy(h, ops[0]);
      if ops[0].PushOp? { PushExactly(h.queue, ops[0].frame); }
      OnlyPopsRemove(Apply(h, ops[0]), ops[1..]);
    }
  }

  // ---------------------------------------------------------------------
  // The ring buffer

  lemma WrapAround(x: nat, capacity: nat)
    requires x < 2 * capacity
    ensures x % capacity == if x < capacity then x else x - capacity
  {
    if x >= capacity {
      var q, r := x / capacity, x % capacity;
      assert x == q * capacity + r;
      if q >= 2 {
        Grows(2, q, capacity);
        assert false;
      }
    }
  }

  /** `(head + i) % len(q.buf)` */
  function RingIndex(head: nat, i: nat, capacity: nat): (r: nat)
    requires head < capacity && i <= capacity
    ensures r == if head + i < capacity then head + i else head + i - capacity
    ensures r < capacity
  {
    WrapAround(head + i, capacity);
    (head + i) % capacity
  }

  lemma Grows(a: nat, b: nat, c: nat)
    requires a <= b
    ensures a * c <= b * c
  {
  }

  /** `frameQueue`.  `released` is the sequence of frames it called `Release`
      on. */
  class FrameQueue<T> {
    const buf: array<Option<T>>
    const policy: Policy
    var head: nat
    var tail: nat
    var size: nat
    var closed: bool
    var released: seq<T>
    ghost var contents: seq<T>
    ghost var accepted: seq<T>
    ghost var removed: seq<T>

    /** The `i`-th slot of the window that starts at `head`. */
    function Slot(i: nat): (j: nat)
      requires head < buf.Length && i <= buf.Length
      reads this`head
      ensures j < buf.Length
    {
      if head + i < buf.Length then head + i else head + i - buf.Length
    }

    /** Slots in the window hold the contents, all others are nil. */
    ghost predicate Window()
      reads this, buf
    {
      && buf.Length > 0 && head < buf.Length && size <= buf.Length && tail == Slot(size)
      && |contents| == size
      && (forall i :: 0 <= i < size ==> buf[Slot(i)] == Some(contents[i]))
      && (forall j :: 0 <= j < buf.Length && !InWindow(j) ==> buf[j] == None)
    }

    ghost predicate Valid()
      reads this, buf
    {
      Window() && (closed ==> size == 0) && accepted == removed + contents
    }

    predicate InWindow(j: nat)
      reads this`head, this`size
    {
      if j >= head then j < head + size else j + buf.Length < head + size
    }

    ghost function Abstract(): Queue<T>
      reads this
    {
      Queue(buf.Length, policy, contents, closed)
    }

    /** `newFrameQueue` */
    constructor (capacity: int, policy: Policy)
      ensures Valid() && fresh(buf)
      ensures Abstract() == Queue(if capacity <= 0 then 1 else capacity, policy, [], false)
      ensures accepted == [] && removed == [] && released == []
    {
      var n := if capacity <= 0 then 1 else capacity;
      buf := new Option<T>[n](_ => None);
      this.policy := policy;
      head, tail, size, closed := 0, 0, 0, false;
      released, contents, accepted, removed := [], [], [], [];
    }

    /** The slot at `tail` takes a frame. */
    method Put(frame: T)
      requires Valid() && size < buf.Length && !closed
      modifies this`tail, this`size, this`contents, this`accepted, buf
      ensures Valid() && contents == old(contents) + [frame]
      ensures accepted == old(accepted) + [frame]
    {
      buf[tail] := Some(frame);
      tail := RingIndex(tail, 1, buf.Length);
      size := size + 1;
      contents, accepted := contents + [frame], accepted + [frame];
    }

    /** The slot at `head` gives up its frame and becomes nil. */
    method Take() returns (frame: T)
      requires Valid() && size > 0
      modifies this`head, this`size, this`contents, this`removed, buf
      ensures Valid() && frame == old(contents)[0] && contents == old(contents)[1..]
      ensures removed == old(removed) + [frame]
    {
      assert Slot(0) == head;
      frame := buf[head].value;
      buf[head] := None;
      head := RingIndex(head, 1, buf.Length);
      size := size - 1;
      removed, contents := removed + [frame], contents[1..];
    }

    /** One critical section of `Push`.  It refines `PushResult`, evicted frames
        are released, and the loop runs at most twice. */
    method Push(frame: T) returns (decision: Decision, ghost rounds: nat)
      requires Valid()
      modifies this, buf
      ensures Valid() && rounds <= 2
      ensures decision == Rejected <==> old(closed) || (old(size) == buf.Length && policy == DropNewest)
      ensures decision == Waits <==> !old(closed) && old(size) == buf.Length && policy == Block
      ensures decision != Accepted ==> contents == old(contents) && released == old(released)
      ensures decision == Accepted ==>
                if old(size) < buf.Length then contents == old(contents) + [frame] && released == old(released)
                else contents == old(contents)[1..] + [frame] && released == old(released) + [old(contents)[0]]
      ensures var r := PushResult(old(Abstract()), frame);
              && Abstract() == r.queue && decision == r.decision
              && released == old(released) + r.evicted && removed == old(removed) + r.evicted
              && accepted == old(accepted) + (if decision == Accepted then [frame] else [])
    {
      rounds := 0;
      ghost var before := contents;
      while true
        invariant Valid() && rounds <= 1 && closed == old(closed) && accepted == old(accepted)
        invariant rounds == 0 ==> contents == before && released == old(released) && removed == old(removed)
        invariant rounds == 1 ==> !closed && policy == DropOldest && |before| == buf.Length && size < buf.Length
                                  && contents == before[1..]
                                  && released == old(released) + before[..1] && removed == old(removed) + before[..1]
        decreases 2 - rounds
      {
        rounds := rounds + 1;
        if closed { return Rejected, rounds; }
        if size < buf.Length {
          Put(frame);
          return Accepted, rounds;
        }
        match policy {
          case Block => return Waits, rounds;
          case DropNewest => return Rejected, rounds;
          case DropOldest =>
            var oldest := Take();
            released := released + [oldest];
        }
      }
    }

    /** One critical section of `Pop`. */
    method Pop() returns (decision: Decision, frame: Option<T>)
      requires Valid()
      modifies this, buf
      ensures Valid() && closed == old(closed)
      ensures old(contents) != [] ==>
                decision == Accepted && frame == Some(old(contents)[0]) && contents == old(contents)[1..]
      ensures old(contents) == [] ==> decision == (if closed then Rejected else Waits) && frame == None && contents == []
      ensures var r := PopResult(old(Abstract()));
              && Abstract() == r.queue && decision == r.decision && frame == r.frame
              && removed == old(removed) + (if frame.Some? then [frame.value] else [])
      ensures accepted == old(accepted) && released == old(released)
    {
      if size > 0 {
        var f := Take();
        return Accepted, Some(f);
      }
      return if closed then Rejected else Waits, None;
    }

    /** `Close`: everything still queued is released, in order, once. */
    method Close()
      requires Valid()
      modifies this, buf
      ensures Valid() && Abstract() == CloseResult(old(Abstract())) && closed && contents == []
      ensures var left := if old(closed) then [] else old(contents);
              released == old(released) + left && removed == old(removed) + left
      ensures accepted == old(accepted)
    {
      if closed { return; }
      ghost var left := contents;
      closed := true;
      ReleaseAll();
      removed, contents := removed + left, [];
      size, head, tail := 0, 0, 0;
    }

    /** The loop of `Close`. */
    method ReleaseAll()
      requires Window()
      modifies this`released, buf
      ensures forall j :: 0 <= j < buf.Length ==> buf[j].None?
      ensures released == old(released) + contents
    {
      var i := 0;
      while i < size
        invariant 0 <= i <= size
        invariant forall j :: 0 <= j < i ==> buf[Slot(j)].None?
        invariant forall j :: i <= j < size ==> buf[Slot(j)] == Some(contents[j])
        invariant forall j :: 0 <= j < buf.Length && !InWindow(j) ==> buf[j].None?
        invariant released == old(released) + contents[..i]
      {
        var index := RingIndex(head, i, buf.Length);
        if buf[index].Some? {
          released := released + [buf[index].value];
          buf[index] := None;
        }
        assert contents[..i + 1] == contents[..i] + [contents[i]];
        i := i + 1;
      }
      assert contents[..i] == contents;
      AllNil();
    }

    lemma AllNil()
      requires head < buf.Length && size <= buf.Length
      requires forall j :: 0 <= j < size ==> buf[Slot(j)].None?
      requires forall j :: 0 <= j < buf.Length && !InWindow(j) ==> buf[j].None?
      ensures forall j :: 0 <= j < buf.Length ==> buf[j].None?
    {
      forall j | 0 <= j < buf.Length && InWindow(j) ensures buf[j].None? {
        var i := if j >= head then j - head else j + buf.Length - head;
        assert Slot(i) == j;
      }
    }

    /** `Len` */
    method Len() returns (n: nat)
      requires Valid()
      ensures n == |Abstract().contents|
    {
      n := size;
    }
  }
}
