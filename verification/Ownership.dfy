/** Who owns a frame and its buffer: the reference counts of
    libs/shared/websocket/frame.go, the fan-out of libs/shared/websocket/router.go
    and the consumer queues, as a state machine whose steps are the atomic
    operations and critical sections of the source.

    A call of `Release` is two steps: the frame is put into `limbo` when the call
    is made, and the counter is decremented later.  Recycling a frame whose
    counter reached zero is two more.  Everything else may happen in between. */
module Ownership {
  import opened Types
  import opened FrameQueues

  type FrameId = nat
  type BufferId = nat

  /** A frame object: its counter and its buffer. */
  datatype Cell = Cell(ref: int, buf: Option<BufferId>)

  /** Where a reading session is: between messages, reading into a buffer,
      holding a new frame, delivering the shared frame to the consumers in
      `todo`, copying it for them, or about to deliver the copy `g` to the
      first of them. */
  datatype Reader =
    | Idle
    | Reading(b: BufferId)
    | Holding(f: FrameId)
    | Sharing(f: FrameId, todo: seq<nat>)
    | Copying(f: FrameId, todo: seq<nat>)
    | CopyReady(f: FrameId, todo: seq<nat>, g: FrameId)

  datatype State = State(
    frames: seq<Cell>,                // every frame object there is
    buffers: nat,                     // buffers 0 .. buffers-1 exist
    queues: seq<Queue<FrameId>>,      // one per consumer
    readers: seq<Reader>,             // one per session
    held: multiset<FrameId>,          // popped, or retained, and not yet released
    limbo: multiset<FrameId>,         // Release called, counter not yet decremented
    dying: multiset<FrameId>,         // counter reached zero
    emptied: multiset<FrameId>,       // buffer given back
    idle: multiset<FrameId>,          // in the frame pool
    free: multiset<BufferId>)         // in the buffer pool

  // ---------------------------------------------------------------------
  // Claims on frames and places of buffers

  function One(same: bool): nat { if same then 1 else 0 }

  function ReaderClaims(r: Reader, f: FrameId): nat {
    match r
    case Idle => 0
    case Reading(_) => 0
    case Holding(g) => One(f == g)
    case Sharing(g, todo) => if f == g then |todo| else 0
    case Copying(g, _) => One(f == g)
    case CopyReady(g, _, h) => One(f == g) + One(f == h)
  }

  function Occurrences(q: Queue<FrameId>, f: FrameId): nat {
    multiset(q.contents)[f]
  }

  function QueueClaims(qs: seq<Queue<FrameId>>, f: FrameId): nat {
    if qs == [] then 0 else Occurrences(qs[0], f) + QueueClaims(qs[1..], f)
  }

  function ReadersClaims(rs: seq<Reader>, f: FrameId): nat {
    if rs == [] then 0 else ReaderClaims(rs[0], f) + ReadersClaims(rs[1..], f)
  }

  /** Everything that still counts on `f`: queue slots, popped holders, copies
      not yet delivered, and releases on their way. */
  function Claims(s: State, f: FrameId): nat {
    QueueClaims(s.queues, f) + ReadersClaims(s.readers, f) + s.held[f] + s.limbo[f]
  }

  function CellPlaces(c: Cell, b: BufferId): nat {
    One(c.buf == Some(b))
  }

  function FramePlaces(cs: seq<Cell>, b: BufferId): nat {
    if cs == [] then 0 else CellPlaces(cs[0], b) + FramePlaces(cs[1..], b)
  }

  function ReaderPlaces(r: Reader, b: BufferId): nat {
    One(r == Reading(b))
  }

  function ReadersPlaces(rs: seq<Reader>, b: BufferId): nat {
    if rs == [] then 0 else ReaderPlaces(rs[0], b) + ReadersPlaces(rs[1..], b)
  }

  /** Where `b` is: in the pool, in a frame, or with a reader. */
  function Places(s: State, b: BufferId): nat {
    s.free[b] + FramePlaces(s.frames, b) + ReadersPlaces(s.readers, b)
  }

  /** How often `f` is on its way to the frame pool, or in it. */
  function Parked(s: State, f: FrameId): nat {
    s.dying[f] + s.emptied[f] + s.idle[f]
  }

  // ---------------------------------------------------------------------
  // The invariant

  /** The counter is the number of claims.  A frame without claims is on its way
      to the pool, or there, exactly once, and one with claims is not.  It has
      its buffer exactly while it is claimed or has just died. */
  ghost predicate FrameOk(s: State, f: FrameId) {
    if f < |s.frames| then
      && s.frames[f].ref == Claims(s, f)
      && Parked(s, f) == One(s.frames[f].ref == 0)
      && (s.frames[f].buf.Some? <==> s.frames[f].ref > 0 || s.dying[f] > 0)
    else Claims(s, f) == 0 && Parked(s, f) == 0
  }

  /** Every buffer is in exactly one place. */
  ghost predicate BufferOk(s: State, b: BufferId) {
    Places(s, b) == One(b < s.buffers)
  }

  ghost predicate QueueOk(s: State, c: nat) {
    c < |s.queues| ==> 0 < s.queues[c].capacity
  }

  ghost predicate Inv(s: State) {
    && (forall f :: FrameOk(s, f))
    && (forall b :: BufferOk(s, b))
    && (forall c :: QueueOk(s, c))
  }

  // ---------------------------------------------------------------------
  // Steps

  datatype Action =
    | GetBuffer(r: nat, b: BufferId)
    | PutBuffer(r: nat)
    | NewFrame(r: nat, f: FrameId)
    | Drop(r: nat)
    | Share(r: nat, consumers: seq<nat>)
    | Deliver(r: nat)
    | StartCopying(r: nat, consumers: seq<nat>)
    | CopyFrame(r: nat, b: BufferId, g: FrameId)
    | SkipConsumer(r: nat)
    | DeliverCopy(r: nat)
    | EndCopying(r: nat)
    | Pop(c: nat)
    | Release(f: FrameId)
    | Retain(f: FrameId)
    | Close(c: nat)
    | Decrement(f: FrameId)
    | RecycleBuffer(f: FrameId)
    | RecycleFrame(f: FrameId)

  /** `sync.Pool.Get` for buffers: a pooled one, or a new one. */
  predicate BufferAvailable(s: State, b: BufferId) {
    b in s.free || b == s.buffers
  }

  function TakeBuffer(s: State, b: BufferId): State
    requires BufferAvailable(s, b)
  {
    if b in s.free then s.(free := s.free - multiset{b}) else s.(buffers := s.buffers + 1)
  }

  predicate FrameAvailable(s: State, f: FrameId) {
    (f in s.idle && f < |s.frames|) || f == |s.frames|
  }

  /** `framePool.New` */
  function MakeFrame(s: State, f: FrameId, b: BufferId): State
    requires FrameAvailable(s, f)
  {
    if f == |s.frames| then s.(frames := s.frames + [Cell(1, Some(b))])
    else s.(frames := s.frames[f := Cell(1, Some(b))], idle := s.idle - multiset{f})
  }

  predicate Is(s: State, r: nat) { r < |s.readers| }

  /** `consumer.enqueue(frame)`; a missing consumer rejects. */
  function Enqueue(s: State, c: nat, f: FrameId): PushOutcome<FrameId>
    requires c < |s.queues| ==> 0 < s.queues[c].capacity
  {
    if c < |s.queues| then PushResult(s.queues[c], f) else PushOutcome(Queue(1, Block, [], true), Rejected, [])
  }

  /** The frame goes into the queue, evicting others, or into limbo. */
  function Hand(s: State, c: nat, f: FrameId): State
    requires c < |s.queues| ==> 0 < s.queues[c].capacity
  {
    var o := Enqueue(s, c, f);
    if o.decision == Accepted && c < |s.queues| then
      s.(queues := s.queues[c := o.queue], limbo := s.limbo + multiset(o.evicted))
    else s.(limbo := s.limbo + multiset{f})
  }

  predicate Enabled(s: State, a: Action) {
    match a
    case GetBuffer(r, b) => Is(s, r) && s.readers[r] == Idle && BufferAvailable(s, b)
    case PutBuffer(r) => Is(s, r) && s.readers[r].Reading?
    case NewFrame(r, f) => Is(s, r) && s.readers[r].Reading? && FrameAvailable(s, f)
    case Drop(r) => Is(s, r) && s.readers[r].Holding?
    case Share(r, cs) => Is(s, r) && s.readers[r].Holding? && s.readers[r].f < |s.frames| && cs != []
    case Deliver(r) => Is(s, r) && s.readers[r].Sharing? && s.readers[r].todo != []
                       && Ready(s, s.readers[r].todo[0], s.readers[r].f)
    case StartCopying(r, cs) => Is(s, r) && s.readers[r].Holding?
    case CopyFrame(r, b, g) => Is(s, r) && s.readers[r].Copying? && s.readers[r].todo != [] && s.readers[r].todo[0] < |s.queues|
                               && BufferAvailable(s, b) && FrameAvailable(s, g)
    case SkipConsumer(r) => Is(s, r) && s.readers[r].Copying? && s.readers[r].todo != [] && s.readers[r].todo[0] >= |s.queues|
    case DeliverCopy(r) => Is(s, r) && s.readers[r].CopyReady? && s.readers[r].todo != []
                           && Ready(s, s.readers[r].todo[0], s.readers[r].g)
    case EndCopying(r) => Is(s, r) && s.readers[r].Copying? && s.readers[r].todo == []
    case Pop(c) => c < |s.queues| && s.queues[c].contents != []
    case Release(f) => f in s.held
    case Retain(f) => f in s.held && f < |s.frames|
    case Close(c) => c < |s.queues|
    case Decrement(f) => f in s.limbo && f < |s.frames|
    case RecycleBuffer(f) => f in s.dying && f < |s.frames| && s.frames[f].buf.Some?
    case RecycleFrame(f) => f in s.emptied
  }

  /** The push does not have to wait for a free slot. */
  predicate Ready(s: State, c: nat, f: FrameId) {
    c < |s.queues| ==> 0 < s.queues[c].capacity && PushResult(s.queues[c], f).decision != Waits
  }

  function SetReader(s: State, r: nat, pc: Reader): State
    requires Is(s, r)
  {
    s.(readers := s.readers[r := pc])
  }

  function Next(s: State, a: Action): State
    requires Enabled(s, a)
  {
    match a
    case GetBuffer(r, b) => SetReader(TakeBuffer(s, b), r, Reading(b))
    case PutBuffer(r) => SetReader(s.(free := s.free + multiset{s.readers[r].b}), r, Idle)
    case NewFrame(r, f) => SetReader(MakeFrame(s, f, s.readers[r].b), r, Holding(f))
    case Drop(r) => SetReader(s.(limbo := s.limbo + multiset{s.readers[r].f}), r, Idle)
    case Share(r, cs) =>
      var f := s.readers[r].f;
      SetReader(s.(frames := s.frames[f := s.frames[f].(ref := |cs|)]), r, Sharing(f, cs))
    case Deliver(r) =>
      var pc := s.readers[r];
      SetReader(Hand(s, pc.todo[0], pc.f), r, if |pc.todo| == 1 then Idle else Sharing(pc.f, pc.todo[1..]))
    case StartCopying(r, cs) => SetReader(s, r, Copying(s.readers[r].f, cs))
    case CopyFrame(r, b, g) =>
      var pc := s.readers[r];
      SetReader(MakeFrame(TakeBuffer(s, b), g, b), r, CopyReady(pc.f, pc.todo, g))
    case SkipConsumer(r) => SetReader(s, r, Copying(s.readers[r].f, s.readers[r].todo[1..]))
    case DeliverCopy(r) =>
      var pc := s.readers[r];
      SetReader(Hand(s, pc.todo[0], pc.g), r, Copying(pc.f, pc.todo[1..]))
    case EndCopying(r) => SetReader(s.(limbo := s.limbo + multiset{s.readers[r].f}), r, Idle)
    case Pop(c) =>
      s.(queues := s.queues[c := PopResult(s.queues[c]).queue], held := s.held + multiset{s.queues[c].contents[0]})
    case Release(f) => s.(held := s.held - multiset{f}, limbo := s.limbo + multiset{f})
    case Retain(f) => s.(frames := s.frames[f := s.frames[f].(ref := s.frames[f].ref + 1)], held := s.held + multiset{f})
    case Close(c) =>
      var left := if s.queues[c].closed then [] else s.queues[c].contents;
      s.(queues := s.queues[c := CloseResult(s.queues[c])], limbo := s.limbo + multiset(left))
    case Decrement(f) =>
      var n := s.frames[f].ref - 1;
      s.(frames := s.frames[f := s.frames[f].(ref := n)], limbo := s.limbo - multiset{f},
         dying := if n == 0 then s.dying + multiset{f} else s.dying)
    case RecycleBuffer(f) =>
      s.(free := s.free + multiset{s.frames[f].buf.value}, frames := s.frames[f := s.frames[f].(buf := None)],
         dying := s.dying - multiset{f}, emptied := s.emptied + multiset{f})
    case RecycleFrame(f) => s.(emptied := s.emptied - multiset{f}, idle := s.idle + multiset{f})
  }

  // ---------------------------------------------------------------------
  // How the sums change

  lemma {:induction false} QueueClaimsUpdate(qs: seq<Queue<FrameId>>, i: nat, q: Queue<FrameId>, f: FrameId)
    requires i < |qs|
    ensures QueueClaims(qs[i := q], f) == QueueClaims(qs, f) - Occurrences(qs[i], f) + Occurrences(q, f)
  {
    if i == 0 {
      assert qs[i := q][1..] == qs[1..];
    } else {
      QueueClaimsUpdate(qs[1..], i - 1, q, f);
      assert qs[i := q][1..] == qs[1..][i - 1 := q];
    }
  }

  lemma {:induction false} ReaderClaimsUpdate(rs: seq<Reader>, i: nat, r: Reader, f: FrameId)
    requires i < |rs|
    ensures ReadersClaims(rs[i := r], f) == ReadersClaims(rs, f) - ReaderClaims(rs[i], f) + ReaderClaims(r, f)
  {
    if i == 0 {
      assert rs[i := r][1..] == rs[1..];
    } else {
      ReaderClaimsUpdate(rs[1..], i - 1, r, f);
      assert rs[i := r][1..] == rs[1..][i - 1 := r];
    }
  }

  lemma {:induction false} ReaderPlacesUpdate(rs: seq<Reader>, i: nat, r: Reader, b: BufferId)
    requires i < |rs|
    ensures ReadersPlaces(rs[i := r], b) == ReadersPlaces(rs, b) - ReaderPlaces(rs[i], b) + ReaderPlaces(r, b)
  {
    if i == 0 {
      assert rs[i := r][1..] == rs[1..];
    } else {
      ReaderPlacesUpdate(rs[1..], i - 1, r, b);
      assert rs[i := r][1..] == rs[1..][i - 1 := r];
    }
  }

  lemma {:induction false} FramePlacesUpdate(cs: seq<Cell>, i: nat, c: Cell, b: BufferId)
    requires i < |cs|
    ensures FramePlaces(cs[i := c], b) == FramePlaces(cs, b) - CellPlaces(cs[i], b) + CellPlaces(c, b)
  {
    if i == 0 {
      assert cs[i := c][1..] == cs[1..];
    } else {
      FramePlacesUpdate(cs[1..], i - 1, c, b);
      assert cs[i := c][1..] == cs[1..][i - 1 := c];
    }
  }

  lemma {:induction false} FramePlacesAppend(cs: seq<Cell>, c: Cell, b: BufferId)
    ensures FramePlaces(cs + [c], b) == FramePlaces(cs, b) + CellPlaces(c, b)
  {
    if cs == [] {
      assert cs + [c] == [c] && [c][1..] == [];
    } else {
      FramePlacesAppend(cs[1..], c, b);
      assert (cs + [c])[1..] == cs[1..] + [c];
    }
  }

  /** A push moves the frame's claim into the queue and the evicted ones out. */
  lemma PushMovesClaims(q: Queue<FrameId>, f: FrameId, g: FrameId)
    requires 0 < q.capacity && PushResult(q, f).decision == Accepted
    ensures var o := PushResult(q, f);
            && Occurrences(o.queue, g) + multiset(o.evicted)[g] == Occurrences(q, g) + One(f == g)
            && o.queue.capacity == q.capacity
  {
    var o := PushResult(q, f);
    if o.evicted != [] {
      assert q.contents == [q.contents[0]] + q.contents[1..];
      assert q.contents[..1] == [q.contents[0]];
    }
  }

  lemma HandMovesClaims(s: State, c: nat, f: FrameId, g: FrameId)
    requires Ready(s, c, f) && Inv(s)
    ensures var t := Hand(s, c, f);
            && QueueClaims(t.queues, g) + t.limbo[g] == QueueClaims(s.queues, g) + s.limbo[g] + One(f == g)
            && t == s.(queues := t.queues, limbo := t.limbo)
            && forall i :: QueueOk(t, i)
  {
    assert QueueOk(s, c);
    var t := Hand(s, c, f);
    if c < |s.queues| && PushResult(s.queues[c], f).decision == Accepted {
      PushMovesClaims(s.queues[c], f, g);
      QueueClaimsUpdate(s.queues, c, PushResult(s.queues[c], f).queue, g);
    }
    forall i ensures QueueOk(t, i) {
      assert QueueOk(s, i);
    }
  }

  // ---------------------------------------------------------------------
  // Every step keeps the invariant.  `g` and `b` stand for any frame and any
  // buffer.

  ghost predicate Ok(s: State, g: FrameId, b: BufferId, c: nat) {
    FrameOk(s, g) && BufferOk(s, b) && QueueOk(s, c)
  }

  lemma TakeBufferPlaces(s: State, x: BufferId, b: BufferId)
    requires Inv(s) && BufferAvailable(s, x)
    ensures var t := TakeBuffer(s, x);
            Places(t, b) + One(x == b) == One(b < t.buffers)
  {
    assert BufferOk(s, b) && BufferOk(s, x);
  }

  lemma MakeFrameOk(s: State, f: FrameId, x: BufferId, g: FrameId, b: BufferId)
    requires FrameAvailable(s, f) && FrameOk(s, f) && FrameOk(s, g)
    ensures var t := MakeFrame(s, f, x);
            && t == s.(frames := t.frames, idle := t.idle)
            && FramePlaces(t.frames, b) == FramePlaces(s.frames, b) + One(x == b)
            && f < |t.frames|
            && (g == f ==> Claims(s, f) == 0 && t.frames[f] == Cell(1, Some(x)) && Parked(t, f) == 0)
            && (g != f ==> Parked(t, g) == Parked(s, g) && (g < |t.frames| <==> g < |s.frames|)
                           && (g < |s.frames| ==> t.frames[g] == s.frames[g]))
  {
    if f == |s.frames| {
      FramePlacesAppend(s.frames, Cell(1, Some(x)), b);
    } else {
      FramePlacesUpdate(s.frames, f, Cell(1, Some(x)), b);
    }
  }

  lemma StepGetBuffer(s: State, r: nat, x: BufferId, g: FrameId, b: BufferId, c: nat)
    requires Inv(s) && Enabled(s, GetBuffer(r, x))
    ensures Ok(Next(s, GetBuffer(r, x)), g, b, c)
  {
    assert FrameOk(s, g) && QueueOk(s, c);
    TakeBufferPlaces(s, x, b);
    ReaderClaimsUpdate(s.readers, r, Reading(x), g);
    ReaderPlacesUpdate(s.readers, r, Reading(x), b);
  }

  lemma StepReader(s: State, a: Action, g: FrameId, b: BufferId, c: nat)
    requires Inv(s) && Enabled(s, a)
    requires a.PutBuffer? || a.Drop? || a.StartCopying? || a.SkipConsumer? || a.EndCopying?
    ensures Ok(Next(s, a), g, b, c)
  {
    if a.PutBuffer? || a.Drop? || a.EndCopying? { StepIdle(s, a, g, b, c); } else { StepCopying(s, a, g, b, c); }
  }

  lemma StepIdle(s: State, a: Action, g: FrameId, b: BufferId, c: nat)
    requires Inv(s) && Enabled(s, a) && (a.PutBuffer? || a.Drop? || a.EndCopying?)
    ensures Ok(Next(s, a), g, b, c)
  {
    assert FrameOk(s, g) && BufferOk(s, b) && QueueOk(s, c);
    ReaderClaimsUpdate(s.readers, a.r, Idle, g);
    ReaderPlacesUpdate(s.readers, a.r, Idle, b);
  }

  lemma StepCopying(s: State, a: Action, g: FrameId, b: BufferId, c: nat)
    requires Inv(s) && Enabled(s, a) && (a.StartCopying? || a.SkipConsumer?)
    ensures Ok(Next(s, a), g, b, c)
  {
    assert FrameOk(s, g) && BufferOk(s, b) && QueueOk(s, c);
    var t := Next(s, a);
    ReaderClaimsUpdate(s.readers, a.r, t.readers[a.r], g);
    ReaderPlacesUpdate(s.readers, a.r, t.readers[a.r], b);
  }

  lemma StepNewFrame(s: State, r: nat, f: FrameId, g: FrameId, b: BufferId, c: nat)
    requires Inv(s) && Enabled(s, NewFrame(r, f))
    ensures Ok(Next(s, NewFrame(r, f)), g, b, c)
  {
    assert FrameOk(s, f) && FrameOk(s, g) && BufferOk(s, b) && QueueOk(s, c);
    MakeFrameOk(s, f, s.readers[r].b, g, b);
    ReaderClaimsUpdate(s.readers, r, Holding(f), g);
    ReaderPlacesUpdate(s.readers, r, Holding(f), b);
  }

  lemma StepCopyFrame(s: State, r: nat, x: BufferId, f: FrameId, g: FrameId, b: BufferId, c: nat)
    requires Inv(s) && Enabled(s, CopyFrame(r, x, f))
    ensures Ok(Next(s, CopyFrame(r, x, f)), g, b, c)
  {
    assert QueueOk(s, c);
    CopyFrameClaims(s, r, x, f, g);
    CopyFramePlaces(s, r, x, f, b);
  }

  lemma CopyFrameClaims(s: State, r: nat, x: BufferId, f: FrameId, g: FrameId)
    requires Inv(s) && Enabled(s, CopyFrame(r, x, f))
    ensures FrameOk(Next(s, CopyFrame(r, x, f)), g)
  {
    var taken := TakeBuffer(s, x);
    TakeBufferKeepsFrame(s, x, f);
    TakeBufferKeepsFrame(s, x, g);
    MakeFrameOk(taken, f, x, g, 0);
    var made := MakeFrame(taken, f, x);
    var pc := CopyReady(s.readers[r].f, s.readers[r].todo, f);
    assert ReaderClaims(pc, g) == ReaderClaims(s.readers[r], g) + One(f == g);
    ReaderClaimsUpdate(s.readers, r, pc, g);
    NewClaim(taken, made, r, pc, f, g, x);
  }

  lemma TakeBufferKeepsFrame(s: State, x: BufferId, g: FrameId)
    requires Inv(s) && BufferAvailable(s, x)
    ensures FrameOk(TakeBuffer(s, x), g) && TakeBuffer(s, x).readers == s.readers
  {
    assert FrameOk(s, g);
  }

  /** A fresh frame `f` with one claim, that of reader `r`. */
  lemma NewClaim(s: State, made: State, r: nat, pc: Reader, f: FrameId, g: FrameId, x: BufferId)
    requires Is(s, r) && made == s.(frames := made.frames, idle := made.idle)
    requires FrameOk(s, g) && f < |made.frames|
    requires ReadersClaims(s.readers[r := pc], g) == ReadersClaims(s.readers, g) + One(f == g)
    requires g == f ==> Claims(s, f) == 0 && made.frames[f] == Cell(1, Some(x)) && Parked(made, f) == 0
    requires g != f ==> Parked(made, g) == Parked(s, g) && (g < |made.frames| <==> g < |s.frames|)
    requires g != f && g < |s.frames| ==> made.frames[g] == s.frames[g]
    ensures FrameOk(SetReader(made, r, pc), g)
  {
    assert Claims(SetReader(made, r, pc), g) == Claims(s, g) + One(f == g);
  }

  lemma CopyFramePlaces(s: State, r: nat, x: BufferId, f: FrameId, b: BufferId)
    requires Inv(s) && Enabled(s, CopyFrame(r, x, f))
    ensures BufferOk(Next(s, CopyFrame(r, x, f)), b)
  {
    var taken := TakeBuffer(s, x);
    TakeBufferPlaces(s, x, b);
    assert FrameOk(s, f) && FrameOk(taken, f);
    MakeFrameOk(taken, f, x, f, b);
    ReaderPlacesUpdate(s.readers, r, CopyReady(s.readers[r].f, s.readers[r].todo, f), b);
  }

  lemma {:induction false} TwoReaders(rs: seq<Reader>, r: nat, q: nat, f: FrameId)
    requires r < q < |rs|
    ensures ReaderClaims(rs[r], f) + ReaderClaims(rs[q], f) <= ReadersClaims(rs, f)
  {
    if r > 0 {
      TwoReaders(rs[1..], r - 1, q - 1, f);
    } else {
      ReaderHasClaim(rs[1..], q - 1, f);
    }
  }

  /** A claim of reader `r` is one of the claims on the frame. */
  lemma {:induction false} ReaderHasClaim(rs: seq<Reader>, r: nat, f: FrameId)
    requires r < |rs|
    ensures ReaderClaims(rs[r], f) <= ReadersClaims(rs, f)
  {
    if r > 0 {
      ReaderHasClaim(rs[1..], r - 1, f);
    }
  }

  lemma {:induction false} QueueHasClaim(qs: seq<Queue<FrameId>>, c: nat, f: FrameId)
    requires c < |qs|
    ensures Occurrences(qs[c], f) <= QueueClaims(qs, f)
  {
    if c > 0 {
      QueueHasClaim(qs[1..], c - 1, f);
    }
  }

  lemma StepShare(s: State, r: nat, cs: seq<nat>, g: FrameId, b: BufferId, c: nat)
    requires Inv(s) && Enabled(s, Share(r, cs)) && s.frames[s.readers[r].f].ref == 1
    ensures Ok(Next(s, Share(r, cs)), g, b, c)
  {
    assert FrameOk(s, g) && BufferOk(s, b) && QueueOk(s, c);
    var f := s.readers[r].f;
    var t := Next(s, Share(r, cs));
    ReaderClaimsUpdate(s.readers, r, Sharing(f, cs), g);
    ReaderPlacesUpdate(s.readers, r, Sharing(f, cs), b);
    FramePlacesUpdate(s.frames, f, t.frames[f], b);
  }

  lemma StepDeliver(s: State, r: nat, g: FrameId, b: BufferId, c: nat)
    requires Inv(s) && Enabled(s, Deliver(r))
    ensures Ok(Next(s, Deliver(r)), g, b, c)
  {
    assert FrameOk(s, g) && BufferOk(s, b);
    var pc := s.readers[r];
    var t := Next(s, Deliver(r));
    HandMovesClaims(s, pc.todo[0], pc.f, g);
    assert QueueOk(Hand(s, pc.todo[0], pc.f), c);
    ReaderClaimsUpdate(s.readers, r, t.readers[r], g);
    ReaderPlacesUpdate(s.readers, r, t.readers[r], b);
  }

  lemma StepDeliverCopy(s: State, r: nat, g: FrameId, b: BufferId, c: nat)
    requires Inv(s) && Enabled(s, DeliverCopy(r))
    ensures Ok(Next(s, DeliverCopy(r)), g, b, c)
  {
    assert FrameOk(s, g) && BufferOk(s, b);
    var pc := s.readers[r];
    var t := Next(s, DeliverCopy(r));
    HandMovesClaims(s, pc.todo[0], pc.g, g);
    assert QueueOk(Hand(s, pc.todo[0], pc.g), c);
    ReaderClaimsUpdate(s.readers, r, t.readers[r], g);
    ReaderPlacesUpdate(s.readers, r, t.readers[r], b);
  }

  lemma StepPop(s: State, a: Action, g: FrameId, b: BufferId, c: nat)
    requires Inv(s) && Enabled(s, a) && a.Pop?
    ensures Ok(Next(s, a), g, b, c)
  {
    assert FrameOk(s, g) && BufferOk(s, b) && QueueOk(s, c) && QueueOk(s, a.c);
    QueueClaimsUpdate(s.queues, a.c, Next(s, a).queues[a.c], g);
    var q := s.queues[a.c].contents;
    assert q == [q[0]] + q[1..];
  }

  lemma StepClose(s: State, a: Action, g: FrameId, b: BufferId, c: nat)
    requires Inv(s) && Enabled(s, a) && a.Close?
    ensures Ok(Next(s, a), g, b, c)
  {
    assert FrameOk(s, g) && BufferOk(s, b) && QueueOk(s, c) && QueueOk(s, a.c);
    QueueClaimsUpdate(s.queues, a.c, Next(s, a).queues[a.c], g);
  }

  lemma StepRelease(s: State, a: Action, g: FrameId, b: BufferId, c: nat)
    requires Inv(s) && Enabled(s, a) && a.Release?
    ensures Ok(Next(s, a), g, b, c)
  {
    assert FrameOk(s, g) && BufferOk(s, b) && QueueOk(s, c);
  }

  lemma StepRetain(s: State, a: Action, g: FrameId, b: BufferId, c: nat)
    requires Inv(s) && Enabled(s, a) && a.Retain?
    ensures Ok(Next(s, a), g, b, c)
  {
    assert FrameOk(s, g) && FrameOk(s, a.f) && BufferOk(s, b) && QueueOk(s, c);
    FramePlacesUpdate(s.frames, a.f, Next(s, a).frames[a.f], b);
  }

  lemma StepDecrement(s: State, a: Action, g: FrameId, b: BufferId, c: nat)
    requires Inv(s) && Enabled(s, a) && a.Decrement?
    ensures Ok(Next(s, a), g, b, c)
  {
    assert FrameOk(s, g) && FrameOk(s, a.f) && BufferOk(s, b) && QueueOk(s, c);
    FramePlacesUpdate(s.frames, a.f, Next(s, a).frames[a.f], b);
  }

  lemma StepRecycleBuffer(s: State, a: Action, g: FrameId, b: BufferId, c: nat)
    requires Inv(s) && Enabled(s, a) && a.RecycleBuffer?
    ensures Ok(Next(s, a), g, b, c)
  {
    RecycledFrame(s, a, g);
    assert FrameOk(s, a.f) && BufferOk(s, b) && QueueOk(s, c);
    FramePlacesUpdate(s.frames, a.f, Next(s, a).frames[a.f], b);
  }

  lemma RecycledFrame(s: State, a: Action, g: FrameId)
    requires Inv(s) && Enabled(s, a) && a.RecycleBuffer?
    ensures FrameOk(Next(s, a), g)
  {
    assert FrameOk(s, g) && FrameOk(s, a.f);
  }

  lemma StepRecycleFrame(s: State, a: Action, g: FrameId, b: BufferId, c: nat)
    requires Inv(s) && Enabled(s, a) && a.RecycleFrame?
    ensures Ok(Next(s, a), g, b, c)
  {
    assert FrameOk(s, g) && FrameOk(s, a.f) && BufferOk(s, b) && QueueOk(s, c);
  }
}
