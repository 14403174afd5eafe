/** Ownership over whole runs, and what it means for frames and buffers. */
module OwnershipRuns {
  import opened Types
  import opened FrameQueues
  import opened Ownership

  /** A frame that a reader has just made and not yet routed has no other claim,
      so the router may overwrite its counter. */
  ghost predicate Private(s: State, r: nat) {
    r < |s.readers| && s.readers[r].Holding? ==>
      s.readers[r].f < |s.frames| && s.frames[s.readers[r].f].ref == 1
  }

  ghost predicate Sound(s: State) {
    Inv(s) && forall r :: Private(s, r)
  }

  lemma StepKeepsInv(s: State, a: Action)
    requires Sound(s) && Enabled(s, a)
    ensures Inv(Next(s, a))
  {
    var t := Next(s, a);
    forall g: FrameId, b: BufferId, c: nat
      ensures Ok(t, g, b, c)
    {
      match a {
        case GetBuffer(r, x) => StepGetBuffer(s, r, x, g, b, c);
        case NewFrame(r, f) => StepNewFrame(s, r, f, g, b, c);
        case CopyFrame(r, x, f) => StepCopyFrame(s, r, x, f, g, b, c);
        case Share(r, cs) =>
          assert Private(s, r);
          StepShare(s, r, cs, g, b, c);
        case Deliver(r) => StepDeliver(s, r, g, b, c);
        case DeliverCopy(r) => StepDeliverCopy(s, r, g, b, c);
        case Pop(_) => StepPop(s, a, g, b, c);
        case Close(_) => StepClose(s, a, g, b, c);
        case Release(_) => StepRelease(s, a, g, b, c);
        case Retain(_) => StepRetain(s, a, g, b, c);
        case Decrement(_) => StepDecrement(s, a, g, b, c);
        case RecycleBuffer(_) => StepRecycleBuffer(s, a, g, b, c);
        case RecycleFrame(_) => StepRecycleFrame(s, a, g, b, c);
        case PutBuffer(_) => StepReader(s, a, g, b, c);
        case Drop(_) => StepReader(s, a, g, b, c);
        case StartCopying(_, _) => StepReader(s, a, g, b, c);
        case SkipConsumer(_) => StepReader(s, a, g, b, c);
        case EndCopying(_) => StepReader(s, a, g, b, c);
      }
    }
    forall g ensures FrameOk(t, g) { assert Ok(t, g, 0, 0); }
    forall b ensures BufferOk(t, b) { assert Ok(t, 0, b, 0); }
    forall c ensures QueueOk(t, c) { assert Ok(t, 0, 0, c); }
  }

  /** A frame with a single claim, that of a reader, is in nobody else's hands. */
  lemma PrivateFrame(s: State, q: nat)
    requires Sound(s) && q < |s.readers| && s.readers[q].Holding?
    ensures var f := s.readers[q].f;
            && f < |s.frames| && s.frames[f].ref == 1
            && s.held[f] == 0 && s.limbo[f] == 0 && s.idle[f] == 0
            && forall r :: 0 <= r < |s.readers| && r != q ==> s.readers[r] != Holding(f)
  {
    var f := s.readers[q].f;
    assert Private(s, q) && FrameOk(s, f);
    ReaderHasClaim(s.readers, q, f);
    forall r | 0 <= r < |s.readers| && r != q ensures s.readers[r] != Holding(f) {
      if r < q { TwoReaders(s.readers, r, q, f); } else { TwoReaders(s.readers, q, r, f); }
    }
  }

  /** Nobody else touches a frame somebody holds privately. */
  lemma OthersKeepCounter(s: State, a: Action, f: FrameId)
    requires Enabled(s, a) && f < |s.frames| && s.held[f] == 0 && s.limbo[f] == 0 && s.idle[f] == 0
    requires a.Share? ==> s.readers[a.r] != Holding(f)
    ensures f < |Next(s, a).frames| && Next(s, a).frames[f].ref == s.frames[f].ref
  {
    match a {
      case CopyFrame(r, b, g) => MakingKeepsCounter(TakeBuffer(s, b), f, g, b);
      case NewFrame(r, g) => MakingKeepsCounter(s, f, g, s.readers[r].b);
      case Deliver(r) => HandingKeepsFrames(s, s.readers[r].todo[0], s.readers[r].f);
      case DeliverCopy(r) => HandingKeepsFrames(s, s.readers[r].todo[0], s.readers[r].g);
      case _ =>
    }
  }

  lemma MakingKeepsCounter(s: State, f: FrameId, g: FrameId, b: BufferId)
    requires FrameAvailable(s, g) && f < |s.frames| && s.idle[f] == 0
    ensures f < |MakeFrame(s, g, b).frames| && MakeFrame(s, g, b).frames[f] == s.frames[f]
  {
  }

  lemma HandingKeepsFrames(s: State, c: nat, f: FrameId)
    requires Ready(s, c, f)
    ensures Hand(s, c, f).frames == s.frames && Hand(s, c, f).readers == s.readers
  {
  }

  /** A step moves one reader or none, and only `NewFrame` makes it hold a frame. */
  lemma ReadersMove(s: State, a: Action) returns (r: nat, pc: Reader)
    requires Enabled(s, a)
    ensures Next(s, a).readers != s.readers ==>
              && r < |s.readers| && Next(s, a).readers == s.readers[r := pc]
              && (pc.Holding? ==> a == NewFrame(r, pc.f))
  {
    r, pc := 0, Idle;
    match a {
      case GetBuffer(q, b) => r, pc := q, Reading(b);
      case PutBuffer(q) => r := q;
      case NewFrame(q, f) => r, pc := q, Holding(f);
      case Drop(q) => r := q;
      case Share(q, cs) => r, pc := q, Sharing(s.readers[q].f, cs);
      case Deliver(q) => r := q; pc := DeliverMoves(s, q);
      case StartCopying(q, cs) => r, pc := q, Copying(s.readers[q].f, cs);
      case CopyFrame(q, b, g) => r, pc := q, CopyReady(s.readers[q].f, s.readers[q].todo, g);
      case SkipConsumer(q) => r, pc := q, Copying(s.readers[q].f, s.readers[q].todo[1..]);
      case DeliverCopy(q) =>
        HandingKeepsFrames(s, s.readers[q].todo[0], s.readers[q].g);
        r, pc := q, Copying(s.readers[q].f, s.readers[q].todo[1..]);
      case EndCopying(q) => r := q;
      case _ =>
    }
  }

  lemma DeliverMoves(s: State, r: nat) returns (pc: Reader)
    requires Enabled(s, Deliver(r))
    ensures !pc.Holding? && Next(s, Deliver(r)).readers == s.readers[r := pc]
  {
    var was := s.readers[r];
    HandingKeepsFrames(s, was.todo[0], was.f);
    pc := if |was.todo| == 1 then Idle else Sharing(was.f, was.todo[1..]);
  }

  lemma StepKeepsPrivate(s: State, a: Action, q: nat)
    requires Sound(s) && Enabled(s, a)
    ensures Private(Next(s, a), q)
  {
    var t := Next(s, a);
    var r, pc := ReadersMove(s, a);
    if q < |s.readers| && t.readers[q].Holding? {
      if a.NewFrame? && a.r == q {
        assert t.frames[a.f] == Cell(1, Some(s.readers[q].b));
      } else {
        assert t.readers[q] == s.readers[q];
        PrivateFrame(s, q);
        OthersKeepCounter(s, a, s.readers[q].f);
      }
    }
  }

  /** A queue for every consumer, no frames, no buffers, all readers idle. */
  ghost predicate Initial(s: State) {
    && s.frames == [] && s.buffers == 0
    && (forall c :: QueueOk(s, c)) && (forall c :: 0 <= c < |s.queues| ==> s.queues[c].contents == [])
    && (forall r :: 0 <= r < |s.readers| ==> s.readers[r] == Idle)
    && s.held == multiset{} && s.limbo == multiset{} && s.dying == multiset{}
    && s.emptied == multiset{} && s.idle == multiset{} && s.free == multiset{}
  }

  lemma {:induction false} NoClaims(qs: seq<Queue<FrameId>>, rs: seq<Reader>, f: FrameId, b: BufferId)
    requires forall c :: 0 <= c < |qs| ==> qs[c].contents == []
    requires forall r :: 0 <= r < |rs| ==> rs[r] == Idle
    ensures QueueClaims(qs, f) == 0 && ReadersClaims(rs, f) == 0 && ReadersPlaces(rs, b) == 0
    decreases |qs| + |rs|
  {
    if qs != [] { NoClaims(qs[1..], rs, f, b); }
    else if rs != [] { NoClaims(qs, rs[1..], f, b); }
  }

  lemma InitialSound(s: State)
    requires Initial(s)
    ensures Sound(s)
  {
    forall f ensures FrameOk(s, f) { NoClaims(s.queues, s.readers, f, 0); }
    forall b ensures BufferOk(s, b) { NoClaims(s.queues, s.readers, 0, b); }
  }

  ghost predicate Follows(s: State, t: State) {
    exists a :: Enabled(s, a) && Next(s, a) == t
  }

  ghost predicate IsRun(states: seq<State>) {
    && states != [] && Initial(states[0])
    && forall i :: 0 < i < |states| ==> Follows(states[i - 1], states[i])
  }

  /** In every interleaving of routing, delivery, eviction, popping, retaining,
      releasing, closing and recycling, counters and claims agree, and every
      buffer is in exactly one place. */
  lemma {:induction false} OwnershipHolds(states: seq<State>)
    requires IsRun(states)
    ensures Sound(states[|states| - 1])
    decreases |states|
  {
    var n := |states| - 1;
    if n == 0 {
      InitialSound(states[0]);
    } else {
      OwnershipHolds(states[..n]);
      assert Follows(states[n - 1], states[n]);
      var a :| Enabled(states[n - 1], a) && Next(states[n - 1], a) == states[n];
      StepKeepsInv(states[n - 1], a);
      forall q ensures Private(states[n], q) { StepKeepsPrivate(states[n - 1], a, q); }
    }
  }

  // ---------------------------------------------------------------------
  // What it means

  lemma {:induction false} FrameHasPlace(cs: seq<Cell>, f: FrameId, b: BufferId)
    requires f < |cs|
    ensures CellPlaces(cs[f], b) <= FramePlaces(cs, b)
  {
    if f > 0 {
      FrameHasPlace(cs[1..], f - 1, b);
    }
  }

  lemma {:induction false} TwoFrames(cs: seq<Cell>, f: FrameId, g: FrameId, b: BufferId)
    requires f < g < |cs|
    ensures CellPlaces(cs[f], b) + CellPlaces(cs[g], b) <= FramePlaces(cs, b)
  {
    if f > 0 {
      TwoFrames(cs[1..], f - 1, g - 1, b);
    } else {
      FrameHasPlace(cs[1..], g - 1, b);
    }
  }

  /** A frame in a queue, popped, or still to be delivered is alive: it has its
      buffer, which is not in the pool, not with a reader and not in any other
      frame, and the frame itself is not in the frame pool. */
  lemma ClaimedFrameIsIntact(s: State, f: FrameId)
    requires Inv(s) && Claims(s, f) > 0
    ensures f < |s.frames| && s.frames[f].ref == Claims(s, f) && s.frames[f].buf.Some?
    ensures f !in s.idle && f !in s.dying && f !in s.emptied
    ensures var b := s.frames[f].buf.value;
            && b < s.buffers && b !in s.free
            && (forall g :: 0 <= g < |s.frames| && g != f ==> s.frames[g].buf != Some(b))
            && (forall r :: 0 <= r < |s.readers| ==> s.readers[r] != Reading(b))
  {
    assert FrameOk(s, f);
    var b := s.frames[f].buf.value;
    assert BufferOk(s, b);
    FrameHasPlace(s.frames, f, b);
    forall g | 0 <= g < |s.frames| && g != f ensures s.frames[g].buf != Some(b) {
      if g < f { TwoFrames(s.frames, g, f, b); } else { TwoFrames(s.frames, f, g, b); }
    }
    forall r | 0 <= r < |s.readers| ensures s.readers[r] != Reading(b) {
      ReaderHasPlace(s.readers, r, b);
    }
  }

  lemma {:induction false} ReaderHasPlace(rs: seq<Reader>, r: nat, b: BufferId)
    requires r < |rs|
    ensures ReaderPlaces(rs[r], b) <= ReadersPlaces(rs, b)
  {
    if r > 0 {
      ReaderHasPlace(rs[1..], r - 1, b);
    }
  }

  /** The claims counted are the real ones. */
  lemma UsersHaveClaims(s: State, f: FrameId)
    ensures (exists c :: 0 <= c < |s.queues| && f in s.queues[c].contents) ==> Claims(s, f) > 0
    ensures f in s.held ==> Claims(s, f) > 0
    ensures (exists r :: 0 <= r < |s.readers| && ReaderClaims(s.readers[r], f) > 0) ==> Claims(s, f) > 0
  {
    if c :| 0 <= c < |s.queues| && f in s.queues[c].contents {
      QueueHasClaim(s.queues, c, f);
    }
    if r :| 0 <= r < |s.readers| && ReaderClaims(s.readers[r], f) > 0 {
      ReaderHasClaim(s.readers, r, f);
    }
  }

  lemma HandingKeepsFree(s: State, c: nat, f: FrameId)
    requires Ready(s, c, f)
    ensures Hand(s, c, f).free == s.free
  {
  }

  lemma TakingAddsNone(s: State, x: BufferId, b: BufferId)
    requires BufferAvailable(s, x)
    ensures TakeBuffer(s, x).free[b] <= s.free[b]
  {
  }

  lemma OthersAddNone(s: State, a: Action, b: BufferId)
    requires Enabled(s, a) && !a.PutBuffer? && !a.RecycleBuffer?
    ensures Next(s, a).free[b] <= s.free[b]
  {
    match a {
      case GetBuffer(_, x) => TakingAddsNone(s, x, b);
      case CopyFrame(_, x, _) => TakingAddsNone(s, x, b);
      case Deliver(r) => HandingKeepsFree(s, s.readers[r].todo[0], s.readers[r].f);
      case DeliverCopy(r) => HandingKeepsFree(s, s.readers[r].todo[0], s.readers[r].g);
      case _ =>
    }
  }

  /** The two steps that put a buffer back. */
  lemma WhoReturns(s: State, a: Action, b: BufferId)
    requires Enabled(s, a) && Next(s, a).free[b] > s.free[b]
    ensures Next(s, a).free[b] == s.free[b] + 1
    ensures (a.PutBuffer? && s.readers[a.r].b == b) || (a.RecycleBuffer? && s.frames[a.f].buf == Some(b))
  {
    if !a.PutBuffer? && !a.RecycleBuffer? { OthersAddNone(s, a, b); }
  }

  /** A buffer enters the pool only from a reader that kept it to itself, or when
      its frame is recycled; then nothing has a claim on the frame any more, and
      the buffer was not in the pool already. */
  lemma BufferReturnsOnce(s: State, a: Action, b: BufferId)
    requires Inv(s) && Enabled(s, a) && Next(s, a).free[b] > s.free[b]
    ensures s.free[b] == 0 && Next(s, a).free[b] == 1
    ensures a.PutBuffer? || (a.RecycleBuffer? && s.frames[a.f].buf == Some(b) && Claims(s, a.f) == 0)
  {
    WhoReturns(s, a, b);
    assert BufferOk(s, b);
    if a.PutBuffer? {
      ReaderHasPlace(s.readers, a.r, b);
    } else {
      FrameHasPlace(s.frames, a.f, b);
      assert FrameOk(s, a.f);
    }
  }

  /** When the last claim goes, the frame is due for recycling exactly once. */
  lemma LastReleaseRecycles(s: State, f: FrameId)
    requires Inv(s) && Enabled(s, Decrement(f))
    ensures var t := Next(s, Decrement(f));
            if Claims(s, f) == 1 then Enabled(t, RecycleBuffer(f)) && t.dying[f] == 1
            else t.dying[f] == 0 && t.frames[f].ref > 0
  {
    assert FrameOk(s, f);
  }

  /** Nothing leaks: once every claim is gone and recycling is done, every
      buffer is back in the pool, once, and every frame in the frame pool. */
  lemma NothingLeaks(s: State)
    requires Inv(s) && s.dying == multiset{} && s.emptied == multiset{}
    requires forall f :: Claims(s, f) == 0
    requires forall r :: 0 <= r < |s.readers| ==> !s.readers[r].Reading?
    ensures forall b :: 0 <= b < s.buffers ==> s.free[b] == 1
    ensures forall f :: 0 <= f < |s.frames| ==> s.idle[f] == 1
  {
    forall f | 0 <= f < |s.frames|
      ensures s.frames[f].buf == None && s.idle[f] == 1
    {
      assert FrameOk(s, f) && Claims(s, f) == 0;
    }
    forall b | 0 <= b < s.buffers ensures s.free[b] == 1 {
      assert BufferOk(s, b);
      NoBuffersHeld(s.frames, s.readers, b);
    }
  }

  lemma {:induction false} NoBuffersHeld(cs: seq<Cell>, rs: seq<Reader>, b: BufferId)
    requires forall f :: 0 <= f < |cs| ==> cs[f].buf == None
    requires forall r :: 0 <= r < |rs| ==> !rs[r].Reading?
    ensures FramePlaces(cs, b) == 0 && ReadersPlaces(rs, b) == 0
    decreases |cs| + |rs|
  {
    if cs != [] { NoBuffersHeld(cs[1..], rs, b); }
    else if rs != [] { NoBuffersHeld(cs, rs[1..], b); }
  }
}
