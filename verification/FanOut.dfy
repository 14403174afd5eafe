/** What routing a frame does to the queues of its consumers: `routeShared` and
    `routeCopy` of libs/shared/websocket/router.go, as steps of `Ownership`. */
module FanOut {
  import opened Types
  import opened FrameQueues
  import opened Ownership

  // ---------------------------------------------------------------------
  // One consumer

  /** The steps that offer a frame to a consumer. */
  predicate Offers(a: Action) {
    a.Deliver? || a.DeliverCopy?
  }

  /** The consumer it goes to, and the frame: the shared one, or the copy. */
  function TargetOf(s: State, r: nat): nat
    requires r < |s.readers| && (s.readers[r].Sharing? || s.readers[r].CopyReady?) && s.readers[r].todo != []
  {
    s.readers[r].todo[0]
  }

  function FrameOf(s: State, r: nat): FrameId
    requires r < |s.readers| && (s.readers[r].Sharing? || s.readers[r].CopyReady?)
  {
    if s.readers[r].Sharing? then s.readers[r].f else s.readers[r].g
  }

  /** A queue that takes the frame at its end. */
  ghost predicate Takes(before: Queue<FrameId>, after: Queue<FrameId>, contents: seq<FrameId>) {
    after == Queue(before.capacity, before.policy, contents, before.closed)
  }

  /** Offering a frame, for every state: an open queue with room takes it at its
      end; one that evicts loses its oldest frame to a release; a closed or full
      one that drops the newest, or no queue at all, leaves the frame to be
      released.  No other queue changes. */
  lemma OfferExactly(s: State, a: Action)
    requires Enabled(s, a) && Offers(a)
    ensures var c, f, t := TargetOf(s, a.r), FrameOf(s, a.r), Next(s, a);
            && |t.queues| == |s.queues| && (forall d :: 0 <= d < |s.queues| && d != c ==> t.queues[d] == s.queues[d])
            && (c >= |s.queues| ==> t.queues == s.queues && t.limbo == s.limbo + multiset{f})
            && (c < |s.queues| ==>
                  var q := s.queues[c];
                  && (q.closed || (Full(q) && q.policy == DropNewest) ==>
                        t.queues[c] == q && t.limbo == s.limbo + multiset{f})
                  && (!q.closed && !Full(q) ==> Takes(q, t.queues[c], q.contents + [f]) && t.limbo == s.limbo)
                  && (!q.closed && Full(q) && q.policy == DropOldest ==>
                        Takes(q, t.queues[c], q.contents[1..] + [f]) && t.limbo == s.limbo + multiset{q.contents[0]}))
  {
    var c := TargetOf(s, a.r);
    if c < |s.queues| { PushExactly(s.queues[c], FrameOf(s, a.r)); }
  }

  /** The reader waits for a slot. */
  predicate WaitsForSlot(s: State, r: nat)
    requires r < |s.readers| && (s.readers[r].Sharing? || s.readers[r].CopyReady?) && s.readers[r].todo != []
  {
    var c := TargetOf(s, r);
    c < |s.queues| && !s.queues[c].closed && s.queues[c].policy == Block && |s.queues[c].contents| >= s.queues[c].capacity
  }

  /** A reader can always go on, except while it waits for a slot of an open
      blocking queue: at every point of its work the step the source takes next
      is enabled. */
  lemma ReaderGoesOn(s: State, r: nat, cs: seq<nat>)
    requires r < |s.readers| && forall c :: QueueOk(s, c)
    ensures match s.readers[r]
            case Idle => Enabled(s, GetBuffer(r, s.buffers)) && forall b :: b in s.free ==> Enabled(s, GetBuffer(r, b))
            case Reading(_) => Enabled(s, PutBuffer(r)) && Enabled(s, NewFrame(r, |s.frames|))
            case Holding(f) => Enabled(s, Drop(r)) && Enabled(s, StartCopying(r, cs))
                               && (f < |s.frames| && cs != [] ==> Enabled(s, Share(r, cs)))
            case Sharing(_, todo) => todo != [] ==> (Enabled(s, Deliver(r)) <==> !WaitsForSlot(s, r))
            case Copying(_, todo) =>
              if todo == [] then Enabled(s, EndCopying(r))
              else if todo[0] < |s.queues| then Enabled(s, CopyFrame(r, s.buffers, |s.frames|))
              else Enabled(s, SkipConsumer(r))
            case CopyReady(_, todo, _) => todo != [] ==> (Enabled(s, DeliverCopy(r)) <==> !WaitsForSlot(s, r))
  {
    var pc := s.readers[r];
    if (pc.Sharing? || pc.CopyReady?) && pc.todo != [] {
      var c := pc.todo[0];
      assert QueueOk(s, c);
      if c < |s.queues| { PushExactly(s.queues[c], FrameOf(s, r)); }
    }
  }

  /** Consumers can always take, close and let go, and what they take is the
      oldest frame, now theirs to release. */
  lemma ConsumersGoOn(s: State, c: nat)
    requires c < |s.queues|
    ensures Enabled(s, Close(c))
    ensures s.queues[c].closed ==> Next(s, Close(c)).queues == s.queues && Next(s, Close(c)).limbo == s.limbo
    ensures !s.queues[c].closed ==>
              var t := Next(s, Close(c));
              && t.queues[c].contents == [] && t.queues[c].closed
              && t.limbo == s.limbo + multiset(s.queues[c].contents)
    ensures s.queues[c].contents != [] ==>
              && Enabled(s, Pop(c))
              && var t := Next(s, Pop(c));
                 && Takes(s.queues[c], t.queues[c], s.queues[c].contents[1..])
                 && t.held == s.held + multiset{s.queues[c].contents[0]} && t.limbo == s.limbo
  {
    PopExactly(s.queues[c]);
  }

  /** A held frame can be released or retained, a released one counted down, and a
      dead one recycled.  Retaining adds a claim that its holder can release,
      releasing keeps the claim until the counter goes down, and recycling gives
      back the buffer and then the frame. */
  lemma FramesGoOn(s: State, f: FrameId)
    requires f < |s.frames|
    ensures f in s.held ==>
              && Enabled(s, Release(f)) && Enabled(s, Retain(f))
              && (var t := Next(s, Release(f));
                  t.held == s.held - multiset{f} && t.limbo == s.limbo + multiset{f} && Claims(t, f) == Claims(s, f))
              && (var t := Next(s, Retain(f)); t.held == s.held + multiset{f} && Claims(t, f) == Claims(s, f) + 1)
    ensures f in s.limbo ==> Enabled(s, Decrement(f)) && Claims(Next(s, Decrement(f)), f) == Claims(s, f) - 1
    ensures f in s.dying && s.frames[f].buf.Some? ==>
              && Enabled(s, RecycleBuffer(f))
              && var t, b := Next(s, RecycleBuffer(f)), s.frames[f].buf.value;
                 t.free == s.free + multiset{b} && t.frames[f].buf == None && f in t.emptied
    ensures f in s.emptied ==> Enabled(s, RecycleFrame(f)) && Next(s, RecycleFrame(f)).idle == s.idle + multiset{f}
  {
  }

  /** A reader takes a buffer for its own, or gives it back. */
  lemma ReaderKeepsBuffer(s: State, r: nat, b: BufferId)
    requires r < |s.readers|
    ensures Enabled(s, GetBuffer(r, b)) ==>
              && Next(s, GetBuffer(r, b)).readers[r] == Reading(b)
              && Next(s, GetBuffer(r, b)).free == (if b in s.free then s.free - multiset{b} else s.free)
    ensures s.readers[r] == Reading(b) ==>
              Next(s, PutBuffer(r)).readers[r] == Idle && Next(s, PutBuffer(r)).free == s.free + multiset{b}
  {
  }

  /** It makes its buffer a frame that only it claims. */
  lemma ReaderMakesFrame(s: State, r: nat, b: BufferId, f: FrameId)
    requires Enabled(s, NewFrame(r, f)) && s.readers[r] == Reading(b)
    ensures var t := Next(s, NewFrame(r, f));
            t.readers[r] == Holding(f) && f < |t.frames| && t.frames[f] == Cell(1, Some(b))
  {
  }

  /** A copy is such a frame, in a buffer of its own. */
  lemma ReaderCopies(s: State, r: nat, b: BufferId, g: FrameId)
    requires Enabled(s, CopyFrame(r, b, g))
    ensures var t := Next(s, CopyFrame(r, b, g));
            && t.readers[r] == CopyReady(s.readers[r].f, s.readers[r].todo, g)
            && g < |t.frames| && t.frames[g] == Cell(1, Some(b))
  {
  }

  /** It lets go of what it does not route, or has copied for everybody. */
  lemma ReaderLetsGo(s: State, r: nat)
    requires r < |s.readers|
    ensures s.readers[r].Holding? ==>
              var t := Next(s, Drop(r)); t.readers[r] == Idle && t.limbo == s.limbo + multiset{s.readers[r].f}
    ensures s.readers[r].Copying? && s.readers[r].todo == [] ==>
              var t := Next(s, EndCopying(r)); t.readers[r] == Idle && t.limbo == s.limbo + multiset{s.readers[r].f}
  {
  }

  // ---------------------------------------------------------------------
  // All consumers of a frame

  ghost predicate AllEnabled(s: State, steps: seq<Action>)
    decreases |steps|
  {
    steps == [] || (Enabled(s, steps[0]) && AllEnabled(Next(s, steps[0]), steps[1..]))
  }

  function After(s: State, steps: seq<Action>): State
    requires AllEnabled(s, steps)
    decreases |steps|
  {
    if steps == [] then s else After(Next(s, steps[0]), steps[1..])
  }

  datatype Offer = Offer(consumer: nat, frame: FrameId)

  function OfferOf(s: State, a: Action, r: nat): seq<Offer>
    requires Enabled(s, a)
  {
    if Offers(a) && a.r == r then [Offer(TargetOf(s, r), FrameOf(s, r))] else []
  }

  /** What reader `r` offers to whom, in order. */
  function Offered(s: State, steps: seq<Action>, r: nat): seq<Offer>
    requires AllEnabled(s, steps)
    decreases |steps|
  {
    if steps == [] then [] else OfferOf(s, steps[0], r) + Offered(Next(s, steps[0]), steps[1..], r)
  }

  /** The frame for each of the consumers. */
  function Listed(f: FrameId, consumers: seq<nat>): (offers: seq<Offer>)
    ensures |offers| == |consumers| && forall k :: 0 <= k < |consumers| ==> offers[k] == Offer(consumers[k], f)
  {
    seq(|consumers|, k requires 0 <= k < |consumers| => Offer(consumers[k], f))
  }

  /** Reader `r` does not begin with another message. */
  ghost predicate SameMessage(steps: seq<Action>, r: nat) {
    forall a :: a in steps ==> !(a.GetBuffer? && a.r == r)
  }

  /** The steps of reader `r`. */
  predicate StepOf(a: Action, r: nat) {
    match a
    case GetBuffer(q, _) => q == r
    case PutBuffer(q) => q == r
    case NewFrame(q, _) => q == r
    case Drop(q) => q == r
    case Share(q, _) => q == r
    case Deliver(q) => q == r
    case StartCopying(q, _) => q == r
    case CopyFrame(q, _, _) => q == r
    case SkipConsumer(q) => q == r
    case DeliverCopy(q) => q == r
    case EndCopying(q) => q == r
    case _ => false
  }

  /** Steps of others leave a reader alone, and no step adds or takes a queue. */
  lemma OthersStay(s: State, a: Action, r: nat)
    requires Enabled(s, a) && r < |s.readers| && !StepOf(a, r)
    ensures r < |Next(s, a).readers| && Next(s, a).readers[r] == s.readers[r]
  {
    if Offers(a) {
      HandKeepsReaders(s, TargetOf(s, a.r), FrameOf(s, a.r));
    } else if OfReader(a) {
      var _ := ReaderStep(s, a);
    }
  }

  /** A step of a reader. */
  predicate OfReader(a: Action) {
    || Offers(a) || a.GetBuffer? || a.PutBuffer? || a.NewFrame? || a.Drop? || a.Share? || a.StartCopying?
    || a.CopyFrame? || a.SkipConsumer? || a.EndCopying?
  }

  lemma ReaderStep(s: State, a: Action) returns (pc: Reader)
    requires Enabled(s, a) && OfReader(a) && !Offers(a)
    ensures a.r < |s.readers| && Next(s, a).readers == s.readers[a.r := pc]
  {
    pc := Idle;
    match a {
      case GetBuffer(_, b) => pc := Reading(b);
      case PutBuffer(_) =>
      case NewFrame(_, f) => pc := Holding(f);
      case Drop(_) =>
      case Share(r, cs) => pc := Sharing(s.readers[r].f, cs);
      case StartCopying(r, cs) => pc := Copying(s.readers[r].f, cs);
      case CopyFrame(r, _, g) => pc := CopyReady(s.readers[r].f, s.readers[r].todo, g);
      case SkipConsumer(r) => pc := Copying(s.readers[r].f, s.readers[r].todo[1..]);
      case EndCopying(_) =>
    }
  }

  lemma QueuesStay(s: State, a: Action)
    requires Enabled(s, a)
    ensures |Next(s, a).queues| == |s.queues|
  {
    if Offers(a) { HandKeepsReaders(s, TargetOf(s, a.r), FrameOf(s, a.r)); }
  }

  /** What one step does to a reader that shares: it delivers, or others move. */
  lemma SharingMoves(s: State, a: Action, r: nat)
    requires Enabled(s, a) && r < |s.readers| && !(a.GetBuffer? && a.r == r)
    requires s.readers[r].Sharing? || s.readers[r] == Idle
    ensures r < |Next(s, a).readers|
    ensures Offers(a) && a.r == r ==>
              && s.readers[r].Sharing? && s.readers[r].todo != []
              && Next(s, a).readers[r] == (if |s.readers[r].todo| == 1 then Idle
                                           else Sharing(s.readers[r].f, s.readers[r].todo[1..]))
    ensures !(Offers(a) && a.r == r) ==> Next(s, a).readers[r] == s.readers[r]
  {
    if Offers(a) && a.r == r {
      HandKeepsReaders(s, TargetOf(s, a.r), FrameOf(s, a.r));
    } else {
      assert !StepOf(a, r);
      OthersStay(s, a, r);
    }
  }

  lemma HandKeepsReaders(s: State, c: nat, f: FrameId)
    requires c < |s.queues| ==> 0 < s.queues[c].capacity
    ensures Hand(s, c, f).readers == s.readers && |Hand(s, c, f).queues| == |s.queues|
  {
  }

  lemma {:induction false} IdleOffersNothing(s: State, steps: seq<Action>, r: nat)
    requires AllEnabled(s, steps) && r < |s.readers| && SameMessage(steps, r) && s.readers[r] == Idle
    ensures Offered(s, steps, r) == []
    ensures r < |After(s, steps).readers| && After(s, steps).readers[r] == Idle
    decreases |steps|
  {
    if steps != [] {
      assert steps[0] in steps && forall x :: x in steps[1..] ==> x in steps;
      SharingMoves(s, steps[0], r);
      IdleOffersNothing(Next(s, steps[0]), steps[1..], r);
    }
  }

  /** How far the sharing has come: what has been offered, and what is left. */
  ghost predicate Shared(offered: seq<Offer>, pc: Reader, f: FrameId, todo: seq<nat>) {
    || (pc == Idle && offered == Listed(f, todo))
    || (pc.Sharing? && pc.f == f && pc.todo != [] && offered + Listed(f, pc.todo) == Listed(f, todo))
  }

  lemma SharedNext(offered: seq<Offer>, pc: Reader, f: FrameId, todo: seq<nat>)
    requires todo != [] && Shared(offered, pc, f, todo[1..])
    ensures Shared([Offer(todo[0], f)] + offered, pc, f, todo)
  {
    if pc.Sharing? {
      assert ([Offer(todo[0], f)] + offered) + Listed(f, pc.todo) == [Offer(todo[0], f)] + (offered + Listed(f, pc.todo));
    }
  }

  lemma NothingLeft(f: FrameId)
    ensures Shared([], Idle, f, [])
  {
  }

  /** Shared fan-out, in every interleaving with everything else.  Until the reader
      begins with another message, the offers made and those still to come are the
      routed frame for each listed consumer, once and in order; when the reader is
      done, all have been made. */
  lemma {:induction false} SharedFanOut(s: State, steps: seq<Action>, r: nat, f: FrameId, todo: seq<nat>)
    requires AllEnabled(s, steps) && r < |s.readers| && SameMessage(steps, r)
    requires s.readers[r] == Sharing(f, todo) && todo != []
    ensures r < |After(s, steps).readers| && Shared(Offered(s, steps, r), After(s, steps).readers[r], f, todo)
    decreases |steps|
  {
    if steps == [] {
      assert [] + Listed(f, todo) == Listed(f, todo);
    } else {
      var a, t, rest := steps[0], Next(s, steps[0]), steps[1..];
      assert a in steps && forall x :: x in rest ==> x in steps;
      SharingMoves(s, a, r);
      if Offers(a) && a.r == r {
        if |todo| == 1 {
          IdleOffersNothing(t, rest, r);
          assert todo[1..] == [];
          NothingLeft(f);
        } else {
          SharedFanOut(t, rest, r, f, todo[1..]);
        }
        SharedNext(Offered(t, rest, r), After(t, rest).readers[r], f, todo);
      } else {
        SharedFanOut(t, rest, r, f, todo);
        assert [] + Offered(t, rest, r) == Offered(t, rest, r);
      }
    }
  }

  /** So from the step that hands the frame to its consumers on. */
  lemma RouteShared(s: State, r: nat, consumers: seq<nat>, steps: seq<Action>)
    requires Enabled(s, Share(r, consumers)) && AllEnabled(Next(s, Share(r, consumers)), steps) && SameMessage(steps, r)
    ensures var t := Next(s, Share(r, consumers));
            && r < |After(t, steps).readers|
            && Shared(Offered(t, steps, r), After(t, steps).readers[r], s.readers[r].f, consumers)
  {
    SharedFanOut(Next(s, Share(r, consumers)), steps, r, s.readers[r].f, consumers);
  }

  // ---------------------------------------------------------------------
  // Copies

  function ConsumersOf(offers: seq<Offer>): (cs: seq<nat>)
    ensures |cs| == |offers| && forall k :: 0 <= k < |cs| ==> cs[k] == offers[k].consumer
  {
    seq(|offers|, k requires 0 <= k < |offers| => offers[k].consumer)
  }

  /** The consumers there are, of those listed. */
  function Present(consumers: seq<nat>, n: nat): seq<nat> {
    if consumers == [] then [] else (if consumers[0] < n then [consumers[0]] else []) + Present(consumers[1..], n)
  }

  predicate Copies(pc: Reader, f: FrameId, todo: seq<nat>, n: nat) {
    || pc == Copying(f, todo)
    || (pc.CopyReady? && pc.f == f && pc.todo == todo && todo != [] && todo[0] < n)
  }

  /** How far the copying has come. */
  ghost predicate Copied(offered: seq<nat>, pc: Reader, f: FrameId, todo: seq<nat>, n: nat) {
    || (pc == Idle && offered == Present(todo, n))
    || exists rest :: Copies(pc, f, rest, n) && offered + Present(rest, n) == Present(todo, n)
  }

  /** What one step does to a reader that copies: for the consumer at hand a copy
      is made and then offered, or it is passed over if there is none; the reader
      is done when none is left. */
  lemma CopyingMoves(s: State, a: Action, r: nat, f: FrameId, todo: seq<nat>)
    requires Enabled(s, a) && r < |s.readers| && Copies(s.readers[r], f, todo, |s.queues|)
    ensures r < |Next(s, a).readers|
    ensures var pc, n := Next(s, a).readers[r], |s.queues|;
            if Offers(a) && a.r == r then todo != [] && todo[0] < n && pc == Copying(f, todo[1..])
            else || Copies(pc, f, todo, n)
                 || (todo != [] && todo[0] >= n && pc == Copying(f, todo[1..]))
                 || (todo == [] && pc == Idle)
  {
    if Offers(a) && a.r == r {
      HandKeepsReaders(s, TargetOf(s, a.r), FrameOf(s, a.r));
    } else if !StepOf(a, r) {
      OthersStay(s, a, r);
    }
  }

  lemma CopiedNext(first: seq<nat>, offered: seq<nat>, pc: Reader, f: FrameId, todo: seq<nat>, rest: seq<nat>, n: nat)
    requires Copied(offered, pc, f, rest, n) && Present(todo, n) == first + Present(rest, n)
    ensures Copied(first + offered, pc, f, todo, n)
  {
    if !(pc == Idle && offered == Present(rest, n)) {
      var left :| Copies(pc, f, left, n) && offered + Present(left, n) == Present(rest, n);
      assert (first + offered) + Present(left, n) == first + (offered + Present(left, n));
    }
  }

  lemma ConsumersAppend(a: seq<Offer>, b: seq<Offer>)
    ensures ConsumersOf(a + b) == ConsumersOf(a) + ConsumersOf(b)
  {
  }

  /** Copying fan-out: every consumer there is gets one offer, of a copy, in the
      order of the list. */
  lemma {:induction false} CopyFanOut(s: State, steps: seq<Action>, r: nat, f: FrameId, todo: seq<nat>)
    requires AllEnabled(s, steps) && r < |s.readers| && SameMessage(steps, r) && Copies(s.readers[r], f, todo, |s.queues|)
    ensures r < |After(s, steps).readers|
    ensures Copied(ConsumersOf(Offered(s, steps, r)), After(s, steps).readers[r], f, todo, |s.queues|)
    decreases |steps|
  {
    var n := |s.queues|;
    if steps == [] {
      assert [] + Present(todo, n) == Present(todo, n);
    } else {
      var a, t, rest := steps[0], Next(s, steps[0]), steps[1..];
      assert a in steps && forall x :: x in rest ==> x in steps;
      QueuesStay(s, a);
      CopyingMoves(s, a, r, f, todo);
      ConsumersAppend(OfferOf(s, a, r), Offered(t, rest, r));
      var left := CopyRest(s, a, r, f, todo);
      if t.readers[r] == Idle {
        IdleOffersNothing(t, rest, r);
        assert Copied([], Idle, f, [], n);
      } else {
        CopyFanOut(t, rest, r, f, left);
      }
      CopiedNext(ConsumersOf(OfferOf(s, a, r)), ConsumersOf(Offered(t, rest, r)), After(t, rest).readers[r], f, todo, left, n);
    }
  }

  lemma OfferConsumer(s: State, a: Action, r: nat)
    requires Enabled(s, a)
    ensures ConsumersOf(OfferOf(s, a, r)) == if Offers(a) && a.r == r then [TargetOf(s, r)] else []
  {
  }

  /** The consumers left behind a step. */
  lemma CopyRest(s: State, a: Action, r: nat, f: FrameId, todo: seq<nat>) returns (left: seq<nat>)
    requires Enabled(s, a) && r < |s.readers| && Copies(s.readers[r], f, todo, |s.queues|)
    ensures r < |Next(s, a).readers|
    ensures if Next(s, a).readers[r] == Idle then left == [] else Copies(Next(s, a).readers[r], f, left, |s.queues|)
    ensures Present(todo, |s.queues|) == ConsumersOf(OfferOf(s, a, r)) + Present(left, |s.queues|)
  {
    CopyingMoves(s, a, r, f, todo);
    OfferConsumer(s, a, r);
    left := RestOf(Next(s, a).readers[r], f, todo, |s.queues|, Offers(a) && a.r == r);
  }

  lemma RestOf(pc: Reader, f: FrameId, todo: seq<nat>, n: nat, offers: bool) returns (left: seq<nat>)
    requires if offers then todo != [] && todo[0] < n && pc == Copying(f, todo[1..])
             else || Copies(pc, f, todo, n)
                  || (todo != [] && todo[0] >= n && pc == Copying(f, todo[1..]))
                  || (todo == [] && pc == Idle)
    ensures if pc == Idle then left == [] else Copies(pc, f, left, n)
    ensures Present(todo, n) == (if offers then [todo[0]] else []) + Present(left, n)
  {
    if !offers && Copies(pc, f, todo, n) {
      left := todo;
      assert [] + Present(left, n) == Present(left, n);
    } else if todo == [] {
      left := [];
    } else {
      left := todo[1..];
      PresentNext(todo, n);
    }
  }

  lemma PresentNext(consumers: seq<nat>, n: nat)
    requires consumers != []
    ensures Present(consumers, n) == (if consumers[0] < n then [consumers[0]] else []) + Present(consumers[1..], n)
  {
  }

  /** So from the step that starts copying on. */
  lemma RouteCopy(s: State, r: nat, consumers: seq<nat>, steps: seq<Action>)
    requires Enabled(s, StartCopying(r, consumers)) && SameMessage(steps, r)
    requires AllEnabled(Next(s, StartCopying(r, consumers)), steps)
    ensures var t := Next(s, StartCopying(r, consumers));
            && r < |After(t, steps).readers|
            && Copied(ConsumersOf(Offered(t, steps, r)), After(t, steps).readers[r], s.readers[r].f, consumers, |s.queues|)
  {
    CopyFanOut(Next(s, StartCopying(r, consumers)), steps, r, s.readers[r].f, consumers);
  }
}
