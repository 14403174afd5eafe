/** The retry loop around `Read`: `readLoop` and `tryGrowReadBuffer` of
    libs/shared/websocket/session.go.

    `Loop` is the loop itself, as a function of the bucket sizes.  With a single
    bucket it never retries, so `Loop([limit], 0, ...)` is the reader that had
    the largest buffer all along, and the main results compare the two. */
module GrowingReader {
  import opened Types
  import opened Wire
  import opened Reading
  import opened Streams

  /** A message handed to the decoder. */
  datatype Delivery = Delivery(msgType: MessageType, data: seq<byte>)

  /** Everything a run of the loop does until it gives up: the messages handed
      on, the pings answered, the final error, the number of retries with a
      larger buffer, and whether a header announced more than `maxPayloadLen`. */
  datatype LoopResult = LoopResult(delivered: seq<Delivery>, pongs: seq<seq<byte>>, error: ReadError,
                                   retries: nat, oversize: bool)

  function Prefixed(delivered: seq<Delivery>, pongs: seq<seq<byte>>, retries: nat, oversize: bool, r: LoopResult): LoopResult {
    LoopResult(delivered + r.delivered, pongs + r.pongs, r.error, retries + r.retries, oversize || r.oversize)
  }

  /** Empty messages are dropped. */
  function Deliver(t: MessageType, data: seq<byte>): seq<Delivery> {
    if data == [] then [] else [Delivery(t, data)]
  }

  /** The loop with the `k`-th bucket as its current frame size.  A header that
      announces too much is retried like a message that does not fit, although
      nothing was stashed. */
  function Loop(sizes: seq<nat>, k: nat, pending: Option<Pending>, input: seq<byte>): LoopResult
    requires k < |sizes|
    decreases |input|, if pending.Some? then 1 else 0, |sizes| - k
  {
    ReadShrinks(sizes[k], pending, input);
    var r := Read(sizes[k], pending, input);
    match r.outcome
    case Message(t, data) => Prefixed(Deliver(t, data), r.pongs, 0, false, Loop(sizes, k, None, r.rest))
    case Stashed(p) =>
      if k + 1 < |sizes| then Prefixed([], r.pongs, 1, false, Loop(sizes, k + 1, Some(p), r.rest))
      else LoopResult([], r.pongs, TooLarge, 0, false)
    case Failed(e) =>
      if e == TooLarge && k + 1 < |sizes| then Prefixed([], r.pongs, 1, true, Loop(sizes, k + 1, None, r.rest))
      else LoopResult([], r.pongs, e, 0, e == TooLarge)
  }

  lemma ReadShrinks(limit: nat, pending: Option<Pending>, input: seq<byte>)
    ensures var r := Read(limit, pending, input);
            && |r.rest| <= |input|
            && (pending.None? && !r.outcome.Failed? ==> |r.rest| < |input|)
  {
    StashMeansTooSmall(limit, pending, input);
    if pending.None? {
      StashMeansTooSmallFrom(limit, input, [], NoType);
    }
  }

  /** Over a whole run the frame size grows at most once per remaining bucket,
      so the retries of all messages together are bounded by the bucket count. */
  lemma {:induction false} RetriesBounded(sizes: seq<nat>, k: nat, pending: Option<Pending>, input: seq<byte>)
    requires k < |sizes|
    ensures Loop(sizes, k, pending, input).retries < |sizes| - k
    decreases |input|, if pending.Some? then 1 else 0, |sizes| - k
  {
    ReadShrinks(sizes[k], pending, input);
    var r := Read(sizes[k], pending, input);
    match r.outcome {
      case Message(_, _) => RetriesBounded(sizes, k, None, r.rest);
      case Stashed(p) => if k + 1 < |sizes| { RetriesBounded(sizes, k + 1, Some(p), r.rest); }
      case Failed(e) => if e == TooLarge && k + 1 < |sizes| { RetriesBounded(sizes, k + 1, None, r.rest); }
    }
  }

  /** Two runs that differ at most in the number of retries. */
  ghost predicate SameRun(a: LoopResult, b: LoopResult) {
    a.delivered == b.delivered && a.pongs == b.pongs && a.error == b.error && a.oversize == b.oversize
  }

  lemma PrefixedPongs(d: seq<Delivery>, p: seq<seq<byte>>, q: seq<seq<byte>>, r: LoopResult)
    ensures Prefixed([], p, 0, false, Prefixed(d, q, 0, false, r)) == Prefixed(d, p + q, 0, false, r)
  {
    AppendAssociates(p, q, r.pongs);
    assert [] + (d + r.delivered) == d + r.delivered;
  }

  /** A single-bucket run that starts by answering some pings. */
  lemma LoopAfterPongs(limit: nat, pending: Option<Pending>, input: seq<byte>,
                       pongs: seq<seq<byte>>, pending2: Option<Pending>, input2: seq<byte>)
    requires Read(limit, pending, input) == After(pongs, Read(limit, pending2, input2))
    ensures Loop([limit], 0, pending, input) == Prefixed([], pongs, 0, false, Loop([limit], 0, pending2, input2))
  {
    var r := Read(limit, pending2, input2);
    match r.outcome {
      case Message(t, data) =>
        PrefixedPongs(Deliver(t, data), pongs, r.pongs, Loop([limit], 0, None, r.rest));
      case Stashed(_) =>
      case Failed(_) =>
    }
  }

  lemma SameRunPrefixed(d: seq<Delivery>, p: seq<seq<byte>>, m: nat, n: nat, a: LoopResult, b: LoopResult)
    requires SameRun(a, b)
    ensures SameRun(Prefixed(d, p, m, false, a), Prefixed(d, p, n, false, b))
  {
  }

  /** A larger buffer reads the same, or resumes what the smaller one stashed. */
  lemma LargerReads(small: nat, large: nat, pending: Option<Pending>, input: seq<byte>)
    requires small <= large
    ensures var r := Read(small, pending, input);
            Read(large, pending, input)
            == if r.outcome.Stashed? then After(r.pongs, Read(large, Some(r.outcome.pending), r.rest)) else r
  {
    StashIsTransparent(small, large, pending, input);
  }

  /** Growing is invisible: starting from any bucket, the retrying reader does
      exactly what a reader with the largest bucket does, on every byte stream
      on which that reader meets no header above `maxPayloadLen`. */
  lemma {:induction false} GrowingIsInvisible(sizes: seq<nat>, k: nat, last: nat, pending: Option<Pending>, input: seq<byte>)
    requires k < |sizes| && last == sizes[|sizes| - 1] && forall i :: 0 <= i < |sizes| ==> sizes[i] <= last
    requires !Loop([last], 0, pending, input).oversize
    ensures SameRun(Loop(sizes, k, pending, input), Loop([last], 0, pending, input))
    decreases |input|, if pending.Some? then 1 else 0, |sizes| - k
  {
    ReadShrinks(sizes[k], pending, input);
    LargerReads(sizes[k], last, pending, input);
    var r := Read(sizes[k], pending, input);
    if r.outcome.Message? {
      GrowingIsInvisible(sizes, k, last, None, r.rest);
      SameRunPrefixed(Deliver(r.outcome.msgType, r.outcome.data), r.pongs, 0, 0,
                      Loop(sizes, k, None, r.rest), Loop([last], 0, None, r.rest));
    } else if r.outcome.Stashed? && k + 1 < |sizes| {
      var p := Some(r.outcome.pending);
      LoopAfterPongs(last, pending, input, r.pongs, p, r.rest);
      GrowingIsInvisible(sizes, k + 1, last, p, r.rest);
      SameRunPrefixed([], r.pongs, 1, 0, Loop(sizes, k + 1, p, r.rest), Loop([last], 0, p, r.rest));
    }
  }

  // ---------------------------------------------------------------------
  // Headers above maxPayloadLen

  /** The bytes left where the run with a single buffer stops: after an oversize
      header, what stands behind its length field. */
  function Cut(limit: nat, pending: Option<Pending>, input: seq<byte>): seq<byte>
    decreases |input|, if pending.Some? then 1 else 0
  {
    ReadShrinks(limit, pending, input);
    var r := Read(limit, pending, input);
    if r.outcome.Message? then Cut(limit, None, r.rest) else r.rest
  }

  /** The bucket the growing reader has reached at that point. */
  function BucketAt(sizes: seq<nat>, k: nat, pending: Option<Pending>, input: seq<byte>): (j: nat)
    requires k < |sizes|
    ensures k <= j < |sizes|
    decreases |input|, if pending.Some? then 1 else 0, |sizes| - k
  {
    ReadShrinks(sizes[k], pending, input);
    var r := Read(sizes[k], pending, input);
    match r.outcome
    case Message(_, _) => BucketAt(sizes, k, None, r.rest)
    case Stashed(p) => if k + 1 < |sizes| then BucketAt(sizes, k + 1, Some(p), r.rest) else k
    case Failed(_) => k
  }

  /** What the growing reader does after an oversize header met with bucket `j`:
      it goes on behind the length field while a larger bucket is left. */
  function Onward(sizes: seq<nat>, j: nat, cut: seq<byte>): LoopResult
    requires j < |sizes|
  {
    if j + 1 < |sizes| then Prefixed([], [], 1, true, Loop(sizes, j + 1, None, cut))
    else LoopResult([], [], TooLarge, 0, true)
  }

  lemma PrefixedTwice(d: seq<Delivery>, p: seq<seq<byte>>, m: nat, e: seq<Delivery>, q: seq<seq<byte>>, n: nat, r: LoopResult)
    ensures SameRun(Prefixed(d, p, m, false, Prefixed(e, q, n, false, r)), Prefixed(d + e, p + q, m + n, false, r))
  {
    AppendAssociates(d, e, r.delivered);
    AppendAssociates(p, q, r.pongs);
  }

  lemma SameRunTransitive(a: LoopResult, b: LoopResult, c: LoopResult)
    requires SameRun(a, b) && SameRun(b, c)
    ensures SameRun(a, c)
  {
  }

  /** The single run's own part of a run that goes on with `onward`. */
  function WithOnward(single: LoopResult, onward: LoopResult): LoopResult {
    Prefixed(single.delivered, single.pongs, 0, false, onward)
  }

  lemma WithOnwardPrefixed(d: seq<Delivery>, p: seq<seq<byte>>, m: nat, a: LoopResult, single: LoopResult, onward: LoopResult)
    requires SameRun(a, WithOnward(single, onward))
    ensures SameRun(Prefixed(d, p, m, false, a), WithOnward(Prefixed(d, p, 0, false, single), onward))
  {
    SameRunPrefixed(d, p, m, 0, a, WithOnward(single, onward));
    PrefixedTwice(d, p, 0, single.delivered, single.pongs, 0, onward);
    SameRunTransitive(Prefixed(d, p, m, false, a), Prefixed(d, p, 0, false, WithOnward(single, onward)),
                      WithOnward(Prefixed(d, p, 0, false, single), onward));
  }

  lemma CutAfterPongs(limit: nat, pending: Option<Pending>, input: seq<byte>,
                      pongs: seq<seq<byte>>, pending2: Option<Pending>, input2: seq<byte>)
    requires Read(limit, pending, input) == After(pongs, Read(limit, pending2, input2))
    ensures Cut(limit, pending, input) == Cut(limit, pending2, input2)
  {
  }

  /** What `OversizeIsResumedInside` says. */
  ghost predicate ResumedInside(sizes: seq<nat>, k: nat, last: nat, pending: Option<Pending>, input: seq<byte>)
    requires k < |sizes|
  {
    SameRun(Loop(sizes, k, pending, input),
            WithOnward(Loop([last], 0, pending, input),
                       Onward(sizes, BucketAt(sizes, k, pending, input), Cut(last, pending, input))))
  }

  /** The case of a message read with the bucket at hand. */
  lemma ResumedBehindMessage(sizes: seq<nat>, k: nat, last: nat, pending: Option<Pending>, input: seq<byte>, r: ReadResult)
    requires k < |sizes| && r.outcome.Message?
    requires Read(sizes[k], pending, input) == r && Read(last, pending, input) == r
    requires ResumedInside(sizes, k, last, None, r.rest)
    ensures ResumedInside(sizes, k, last, pending, input)
  {
    ReadShrinks(sizes[k], pending, input);
    var d := Deliver(r.outcome.msgType, r.outcome.data);
    var onward := Onward(sizes, BucketAt(sizes, k, None, r.rest), Cut(last, None, r.rest));
    WithOnwardPrefixed(d, r.pongs, 0, Loop(sizes, k, None, r.rest), Loop([last], 0, None, r.rest), onward);
  }

  lemma StashGrows(sizes: seq<nat>, k: nat, pending: Option<Pending>, input: seq<byte>, r: ReadResult)
    requires k + 1 < |sizes| && r.outcome.Stashed? && Read(sizes[k], pending, input) == r
    ensures var p := Some(r.outcome.pending);
            && Loop(sizes, k, pending, input) == Prefixed([], r.pongs, 1, false, Loop(sizes, k + 1, p, r.rest))
            && BucketAt(sizes, k, pending, input) == BucketAt(sizes, k + 1, p, r.rest)
  {
    ReadShrinks(sizes[k], pending, input);
  }

  /** The case of a message stashed for the next bucket. */
  lemma ResumedBehindStash(sizes: seq<nat>, k: nat, last: nat, pending: Option<Pending>, input: seq<byte>, r: ReadResult)
    requires k + 1 < |sizes| && r.outcome.Stashed? && Read(sizes[k], pending, input) == r
    requires Read(last, pending, input) == After(r.pongs, Read(last, Some(r.outcome.pending), r.rest))
    requires ResumedInside(sizes, k + 1, last, Some(r.outcome.pending), r.rest)
    ensures ResumedInside(sizes, k, last, pending, input)
  {
    var p := Some(r.outcome.pending);
    StashGrows(sizes, k, pending, input, r);
    LoopAfterPongs(last, pending, input, r.pongs, p, r.rest);
    CutAfterPongs(last, pending, input, r.pongs, p, r.rest);
    var onward := Onward(sizes, BucketAt(sizes, k + 1, p, r.rest), Cut(last, p, r.rest));
    WithOnwardPrefixed([], r.pongs, 1, Loop(sizes, k + 1, p, r.rest), Loop([last], 0, p, r.rest), onward);
  }

  lemma LoopFails(sizes: seq<nat>, k: nat, pending: Option<Pending>, input: seq<byte>, r: ReadResult)
    requires k < |sizes| && r.outcome == Failed(TooLarge) && Read(sizes[k], pending, input) == r
    ensures Loop(sizes, k, pending, input)
         == if k + 1 < |sizes| then Prefixed([], r.pongs, 1, true, Loop(sizes, k + 1, None, r.rest))
            else LoopResult([], r.pongs, TooLarge, 0, true)
    ensures BucketAt(sizes, k, pending, input) == k && Cut(sizes[k], pending, input) == r.rest
  {
    ReadShrinks(sizes[k], pending, input);
  }

  /** The case of the oversize header itself. */
  lemma ResumedAtHeader(sizes: seq<nat>, k: nat, last: nat, pending: Option<Pending>, input: seq<byte>, r: ReadResult)
    requires k < |sizes| && r.outcome == Failed(TooLarge)
    requires Read(sizes[k], pending, input) == r && Read(last, pending, input) == r
    ensures ResumedInside(sizes, k, last, pending, input)
  {
    LoopFails(sizes, k, pending, input, r);
    LoopFails([last], 0, pending, input, r);
    if k + 1 < |sizes| {
      StopAndGoOn(r.pongs, Loop(sizes, k + 1, None, r.rest));
    } else {
      assert r.pongs + [] == r.pongs;
    }
  }

  lemma StopAndGoOn(pongs: seq<seq<byte>>, next: LoopResult)
    ensures SameRun(Prefixed([], pongs, 1, true, next),
                    WithOnward(LoopResult([], pongs, TooLarge, 0, true), Prefixed([], [], 1, true, next)))
  {
    assert [] + next.delivered == next.delivered && [] + next.pongs == next.pongs;
  }

  lemma SingleOversize(limit: nat, pending: Option<Pending>, input: seq<byte>)
    requires Loop([limit], 0, pending, input).oversize
    ensures var r := Read(limit, pending, input);
            match r.outcome
            case Message(_, _) => Loop([limit], 0, None, r.rest).oversize
            case Stashed(_) => false
            case Failed(e) => e == TooLarge
  {
    ReadShrinks(limit, pending, input);
  }

  lemma StashGoesOn(small: nat, last: nat, pending: Option<Pending>, input: seq<byte>)
    requires small <= last && Read(small, pending, input).outcome.Stashed?
    requires Loop([last], 0, pending, input).oversize
    ensures var r := Read(small, pending, input);
            && small < last && Loop([last], 0, Some(r.outcome.pending), r.rest).oversize
            && Read(last, pending, input) == After(r.pongs, Read(last, Some(r.outcome.pending), r.rest))
  {
    var r := Read(small, pending, input);
    LargerReads(small, last, pending, input);
    SingleOversize(last, pending, input);
    LoopAfterPongs(last, pending, input, r.pongs, Some(r.outcome.pending), r.rest);
  }

  /** Where the reader with the largest buffer meets an oversize header, the
      growing one has done the same so far and then goes on behind the length
      field, whatever stands there, at any place in the stream. */
  lemma {:induction false} OversizeIsResumedInside(sizes: seq<nat>, k: nat, last: nat, pending: Option<Pending>, input: seq<byte>)
    requires k < |sizes| && last == sizes[|sizes| - 1] && forall i :: 0 <= i < |sizes| ==> sizes[i] <= last
    requires Loop([last], 0, pending, input).oversize
    ensures ResumedInside(sizes, k, last, pending, input)
    decreases |input|, if pending.Some? then 1 else 0, |sizes| - k
  {
    ReadShrinks(sizes[k], pending, input);
    LargerReads(sizes[k], last, pending, input);
    SingleOversize(last, pending, input);
    var r := Read(sizes[k], pending, input);
    if r.outcome.Message? {
      OversizeIsResumedInside(sizes, k, last, None, r.rest);
      ResumedBehindMessage(sizes, k, last, pending, input, r);
    } else if r.outcome.Stashed? {
      StashGoesOn(sizes[k], last, pending, input);
      assert k + 1 < |sizes|;
      OversizeIsResumedInside(sizes, k + 1, last, Some(r.outcome.pending), r.rest);
      ResumedBehindStash(sizes, k, last, pending, input, r);
    } else {
      ResumedAtHeader(sizes, k, last, pending, input, r);
    }
  }

  /** A run that stops at once, as the single buffer does at an oversize header. */
  ghost predicate StopsThere(r: LoopResult) {
    r.delivered == [] && r.pongs == [] && r.error == TooLarge
  }

  lemma WithOnwardSame(single: LoopResult, onward: LoopResult)
    requires single.oversize && single.error == TooLarge && onward.oversize
    ensures SameRun(WithOnward(single, onward), single) <==> StopsThere(onward)
  {
    assert onward.delivered == [] ==> single.delivered + onward.delivered == single.delivered;
    assert onward.pongs == [] ==> single.pongs + onward.pongs == single.pongs;
    assert |single.delivered + onward.delivered| == |single.delivered| + |onward.delivered|;
    assert |single.pongs + onward.pongs| == |single.pongs| + |onward.pongs|;
  }

  lemma {:induction false} OversizeEnds(limit: nat, pending: Option<Pending>, input: seq<byte>)
    requires Loop([limit], 0, pending, input).oversize
    ensures Loop([limit], 0, pending, input).error == TooLarge
    decreases |input|, if pending.Some? then 1 else 0
  {
    ReadShrinks(limit, pending, input);
    var r := Read(limit, pending, input);
    if r.outcome.Message? { OversizeEnds(limit, None, r.rest); }
  }

  /** When growing is invisible, for every byte stream and every bucket: exactly
      when no header above `maxPayloadLen` is met, or what stands behind its
      length field gives the growing reader nothing to do but fail too.
      `OnwardStops` says when that is. */
  lemma GrowingIsInvisibleExactly(sizes: seq<nat>, k: nat, last: nat, pending: Option<Pending>, input: seq<byte>)
    requires k < |sizes| && last == sizes[|sizes| - 1] && forall i :: 0 <= i < |sizes| ==> sizes[i] <= last
    ensures SameRun(Loop(sizes, k, pending, input), Loop([last], 0, pending, input))
       <==> !Loop([last], 0, pending, input).oversize
            || StopsThere(Onward(sizes, BucketAt(sizes, k, pending, input), Cut(last, pending, input)))
  {
    if Loop([last], 0, pending, input).oversize {
      var onward := Onward(sizes, BucketAt(sizes, k, pending, input), Cut(last, pending, input));
      OversizeIsResumedInside(sizes, k, last, pending, input);
      OversizeEnds(last, pending, input);
      OnwardStops(sizes, BucketAt(sizes, k, pending, input), Cut(last, pending, input));
      OnwardDecides(Loop(sizes, k, pending, input), Loop([last], 0, pending, input), onward);
    } else {
      GrowingIsInvisible(sizes, k, last, pending, input);
    }
  }

  lemma OnwardDecides(a: LoopResult, single: LoopResult, onward: LoopResult)
    requires SameRun(a, WithOnward(single, onward))
    requires single.oversize && single.error == TooLarge && onward.oversize
    ensures SameRun(a, single) <==> StopsThere(onward)
  {
    WithOnwardSame(single, onward);
  }

  /** The growing reader fails too when no larger bucket is left, or when it
      makes nothing of the bytes behind the length field. */
  lemma OnwardStops(sizes: seq<nat>, j: nat, cut: seq<byte>)
    requires j < |sizes|
    ensures Onward(sizes, j, cut).oversize
    ensures StopsThere(Onward(sizes, j, cut)) <==> j + 1 == |sizes| || StopsThere(Loop(sizes, j + 1, None, cut))
  {
    if j + 1 < |sizes| {
      var r := Loop(sizes, j + 1, None, cut);
      assert [] + r.delivered == r.delivered && [] + r.pongs == r.pongs;
    }
  }

  // ---------------------------------------------------------------------
  // Well-formed streams

  /** What a message says: its data as text or as binary, by the opcode of its
      first frame (section 5.6 of RFC 6455); an empty one says nothing. */
  function MessageOf(m: seq<Part>): seq<Delivery> {
    var data := MessageData(m);
    if m == [] || data == [] then []
    else if m[0].frame.opcode == 0x1 then [Delivery(Text, data)]
    else if m[0].frame.opcode == 0x2 then [Delivery(Binary, data)]
    else []
  }

  /** The messages, in order. */
  function Messages(ms: seq<seq<Part>>): seq<Delivery> {
    if ms == [] then [] else MessageOf(ms[0]) + Messages(ms[1..])
  }

  /** The loop hands on what the message says. */
  lemma DeliverExactly(m: seq<Part>)
    requires ValidMessage(m)
    ensures Deliver(OpcodeToMessageType(m[0].frame.opcode), MessageData(m)) == MessageOf(m)
  {
  }

  ghost predicate ValidMessages(ms: seq<seq<Part>>) {
    forall m :: m in ms ==> ValidMessage(m)
  }

  ghost predicate FitsIn(ms: seq<seq<Part>>, limit: nat) {
    forall m :: m in ms ==> |MessageData(m)| <= limit
  }

  /** A single buffer reads the messages that fit, and goes on behind them. */
  lemma {:induction false} SingleBucketReads(limit: nat, ms: seq<seq<Part>>, tail: seq<byte>)
    requires ValidMessages(ms) && FitsIn(ms, limit)
    ensures Loop([limit], 0, None, MessagesThen(ms, tail))
         == Prefixed(Messages(ms), AllPings(ms), 0, false, Loop([limit], 0, None, tail))
    decreases |ms|
  {
    var r := Loop([limit], 0, None, tail);
    if ms == [] {
      assert [] + r.delivered == r.delivered && [] + r.pongs == r.pongs;
    } else {
      var m, rest := ms[0], ms[1..];
      assert m in ms && forall x :: x in rest ==> x in ms;
      ReadsMessage(limit, m, MessagesThen(rest, tail));
      SingleBucketReads(limit, rest, tail);
      DeliverExactly(m);
      AppendAssociates(MessageOf(m), Messages(rest), r.delivered);
      AppendAssociates(MessagePings(m), AllPings(rest), r.pongs);
    }
  }

  lemma SingleBucketReadsStream(limit: nat, s: Stream)
    requires ValidStream(s) && FitsIn(s.messages, limit)
    ensures Loop([limit], 0, None, Bytes(s)) == LoopResult(Messages(s.messages), StreamPings(s), Eof, 0, false)
  {
    SingleBucketReads(limit, s.messages, FramesThen(s.trailing, []));
    ReadsTrailing(limit, s.trailing);
    assert Messages(s.messages) + [] == Messages(s.messages);
  }

  /** Resumable reading refines unbounded reading.  Whatever the bucket sizes,
      a stream of messages in fragments with pings and pongs between them is
      delivered as exactly its non-empty messages, in order, with the type of
      the first fragment and the concatenated unmasked data; each ping is
      answered with its own data, in order; the loop ends at the end of input;
      and it retries less often than there are buckets. */
  lemma StreamIsDelivered(sizes: seq<nat>, k: nat, s: Stream)
    requires k < |sizes| && forall i :: 0 <= i < |sizes| ==> sizes[i] <= sizes[|sizes| - 1]
    requires ValidStream(s) && FitsIn(s.messages, sizes[|sizes| - 1])
    ensures var r := Loop(sizes, k, None, Bytes(s));
            && r.delivered == Messages(s.messages)
            && r.pongs == StreamPings(s)
            && r.error == Eof
            && r.retries < |sizes| - k
  {
    SingleBucketReadsStream(sizes[|sizes| - 1], s);
    GrowingIsInvisible(sizes, k, sizes[|sizes| - 1], None, Bytes(s));
    RetriesBounded(sizes, k, None, Bytes(s));
  }

  /** The converse: the first message above the largest bucket, in whatever
      fragments, ends the run with `ErrFrameTooLarge`, after everything before
      it was delivered and answered, and its own pings up to the fragment that
      is too much. */
  lemma TooLargeMessageEndsRun(sizes: seq<nat>, k: nat, ms: seq<seq<Part>>, m: seq<Part>, tail: seq<byte>)
    requires k < |sizes| && forall i :: 0 <= i < |sizes| ==> sizes[i] <= sizes[|sizes| - 1]
    requires ValidMessages(ms) && FitsIn(ms, sizes[|sizes| - 1])
    requires ValidMessage(m) && |MessageData(m)| > sizes[|sizes| - 1]
    ensures var r := Loop(sizes, k, None, MessagesThen(ms, PartsThen(m, tail)));
            && r.delivered == Messages(ms)
            && r.pongs == AllPings(ms) + PingsUntil(m, sizes[|sizes| - 1])
            && r.error == TooLarge && r.retries < |sizes| - k
  {
    var last, input := sizes[|sizes| - 1], MessagesThen(ms, PartsThen(m, tail));
    SingleBucketReads(last, ms, PartsThen(m, tail));
    ReadsTooLarge(last, m, tail);
    assert Messages(ms) + [] == Messages(ms);
    GrowingIsInvisible(sizes, k, last, None, input);
    RetriesBounded(sizes, k, None, input);
  }

  // ---------------------------------------------------------------------
  // Streams with an oversize header

  /** A header that announces more than `maxPayloadLen`, with any FIN bit, opcode
      and mask bit. */
  ghost predicate Oversize(first: byte, second: byte, ext: seq<byte>) {
    && !ReservedBits(first) && LowSeven(second) == 127
    && |ext| == 8 && !TopBit(ext[0]) && DecodeBE(ext) > MAX_PAYLOAD
  }

  lemma OversizeHeader(first: byte, second: byte, ext: seq<byte>, tail: seq<byte>)
    requires Oversize(first, second, ext)
    ensures ParseHeader([first, second] + (ext + tail)) == HeaderErr(TooLarge, tail)
  {
    ReadFullSplit([first, second], ext + tail);
    ReadFullSplit(ext, tail);
  }

  /** The bytes of a stream up to and behind an oversize header. */
  function OversizeInput(ms: seq<seq<Part>>, open: seq<Part>, controls: seq<Frame>,
                         first: byte, second: byte, ext: seq<byte>, tail: seq<byte>): seq<byte> {
    MessagesThen(ms, PartsThen(open, FramesThen(controls, [first, second] + (ext + tail))))
  }

  /** Behind any messages, any fragments of the next one and any control frames,
      a single buffer stops at an oversize header, right behind its length. */
  lemma SingleBucketStops(limit: nat, ms: seq<seq<Part>>, open: seq<Part>, controls: seq<Frame>,
                          first: byte, second: byte, ext: seq<byte>, tail: seq<byte>)
    requires ValidMessages(ms) && FitsIn(ms, limit)
    requires ValidOpen(open) && |MessageData(open)| <= limit && ValidControls(controls) && Oversize(first, second, ext)
    ensures var input := OversizeInput(ms, open, controls, first, second, ext, tail);
            && Loop([limit], 0, None, input)
               == LoopResult(Messages(ms), AllPings(ms) + (MessagePings(open) + Pings(controls)), TooLarge, 0, true)
            && Cut(limit, None, input) == tail
  {
    var header := [first, second] + (ext + tail);
    var rest := PartsThen(open, FramesThen(controls, header));
    OversizeHeader(first, second, ext, tail);
    ReadsOpen(limit, open, FramesThen(controls, header));
    ReadsControls(limit, controls, header, MessageData(open), OpenType(open));
    var stop := ReadFrom(limit, header, MessageData(open), OpenType(open));
    assert stop == ReadResult(Failed(TooLarge), tail, []);
    AfterAfter(MessagePings(open), Pings(controls), stop);
    var pongs := MessagePings(open) + Pings(controls);
    assert pongs + [] == pongs;
    assert Read(limit, None, rest) == ReadResult(Failed(TooLarge), tail, pongs);
    SingleBucketReads(limit, ms, rest);
    assert Messages(ms) + [] == Messages(ms);
    CutBehindMessages(limit, ms, rest);
  }

  lemma {:induction false} CutBehindMessages(limit: nat, ms: seq<seq<Part>>, tail: seq<byte>)
    requires ValidMessages(ms) && FitsIn(ms, limit)
    ensures Cut(limit, None, MessagesThen(ms, tail)) == Cut(limit, None, tail)
    decreases |ms|
  {
    if ms != [] {
      var rest := ms[1..];
      assert ms[0] in ms && forall x :: x in rest ==> x in ms;
      ReadsMessage(limit, ms[0], MessagesThen(rest, tail));
      CutBehindMessages(limit, rest, tail);
    }
  }

  /** The growing reader takes no larger bucket than the one that suffices. */
  lemma {:induction false} BucketSuffices(sizes: seq<nat>, k: nat, j: nat, pending: Option<Pending>, input: seq<byte>)
    requires Ascending(sizes) && k <= j < |sizes| && Loop([sizes[j]], 0, pending, input).oversize
    ensures BucketAt(sizes, k, pending, input) <= j
    decreases |input|, if pending.Some? then 1 else 0, |sizes| - k
  {
    ReadShrinks(sizes[k], pending, input);
    LargerReads(sizes[k], sizes[j], pending, input);
    SingleOversize(sizes[j], pending, input);
    var r := Read(sizes[k], pending, input);
    if r.outcome.Message? {
      BucketSuffices(sizes, k, j, None, r.rest);
    } else if r.outcome.Stashed? {
      StashGoesOn(sizes[k], sizes[j], pending, input);
      assert k < j;
      BucketSuffices(sizes, k + 1, j, Some(r.outcome.pending), r.rest);
    }
  }

  /** And the bucket it has reached suffices for everything before the header. */
  lemma {:induction false} BucketReached(sizes: seq<nat>, k: nat, last: nat, pending: Option<Pending>, input: seq<byte>)
    requires Ascending(sizes) && k < |sizes| && last == sizes[|sizes| - 1] && Loop([last], 0, pending, input).oversize
    ensures Loop([sizes[BucketAt(sizes, k, pending, input)]], 0, pending, input).oversize
    decreases |input|, if pending.Some? then 1 else 0, |sizes| - k
  {
    var j := BucketAt(sizes, k, pending, input);
    ReadShrinks(sizes[k], pending, input);
    LargerReads(sizes[k], last, pending, input);
    LargerReads(sizes[k], sizes[j], pending, input);
    SingleOversize(last, pending, input);
    var r := Read(sizes[k], pending, input);
    if r.outcome.Message? {
      BucketReached(sizes, k, last, None, r.rest);
    } else if r.outcome.Stashed? {
      StashGoesOn(sizes[k], last, pending, input);
      assert k + 1 < |sizes|;
      var p := Some(r.outcome.pending);
      BucketReached(sizes, k + 1, last, p, r.rest);
      LoopAfterPongs(sizes[j], pending, input, r.pongs, p, r.rest);
    }
  }

  /** A single buffer gets as far as the header exactly when everything before it
      fits. */
  lemma {:induction false} StopsExactly(limit: nat, ms: seq<seq<Part>>, open: seq<Part>, controls: seq<Frame>,
                                        first: byte, second: byte, ext: seq<byte>, tail: seq<byte>)
    requires ValidMessages(ms) && ValidOpen(open) && ValidControls(controls) && Oversize(first, second, ext)
    ensures Loop([limit], 0, None, OversizeInput(ms, open, controls, first, second, ext, tail)).oversize
       <==> FitsIn(ms, limit) && |MessageData(open)| <= limit
    decreases |ms|
  {
    var rest := PartsThen(open, FramesThen(controls, [first, second] + (ext + tail)));
    if FitsIn(ms, limit) && |MessageData(open)| <= limit {
      SingleBucketStops(limit, ms, open, controls, first, second, ext, tail);
    } else if ms == [] {
      ReadsTooLargeOpen(limit, open, FramesThen(controls, [first, second] + (ext + tail)));
    } else {
      assert ms[0] in ms && (forall x :: x in ms[1..] ==> x in ms) && forall x :: x in ms ==> x == ms[0] || x in ms[1..];
      if |MessageData(ms[0])| > limit {
        ReadsTooLarge(limit, ms[0], MessagesThen(ms[1..], rest));
      } else {
        StopsExactly(limit, ms[1..], open, controls, first, second, ext, tail);
        ReadsMessage(limit, ms[0], MessagesThen(ms[1..], rest));
      }
    }
  }

  /** A larger bucket is left at the header exactly when the run does not start in
      the last one and everything before the header fits the last but one. */
  lemma LargerBucketIsLeft(sizes: seq<nat>, k: nat, ms: seq<seq<Part>>, open: seq<Part>, controls: seq<Frame>,
                           first: byte, second: byte, ext: seq<byte>, tail: seq<byte>)
    requires Ascending(sizes) && k < |sizes|
    requires ValidMessages(ms) && FitsIn(ms, sizes[|sizes| - 1])
    requires ValidOpen(open) && |MessageData(open)| <= sizes[|sizes| - 1]
    requires ValidControls(controls) && Oversize(first, second, ext)
    ensures var input := OversizeInput(ms, open, controls, first, second, ext, tail);
            BucketAt(sizes, k, None, input) + 1 < |sizes|
            <==> k + 1 < |sizes| && FitsIn(ms, sizes[|sizes| - 2]) && |MessageData(open)| <= sizes[|sizes| - 2]
  {
    var j := FitsWhereItStops(sizes, k, ms, open, controls, first, second, ext, tail);
    StopsBeforeLast(sizes, k, j, ms, open, controls, first, second, ext, tail);
    LastButOne(sizes, k, j, ms, open);
  }

  /** Everything up to the header fits a buffer of this size. */
  ghost predicate Suits(ms: seq<seq<Part>>, open: seq<Part>, limit: nat) {
    FitsIn(ms, limit) && |MessageData(open)| <= limit
  }

  ghost predicate LastButOneSuits(sizes: seq<nat>, k: nat, ms: seq<seq<Part>>, open: seq<Part>) {
    k + 1 < |sizes| && Suits(ms, open, sizes[|sizes| - 2])
  }

  lemma StopsBeforeLast(sizes: seq<nat>, k: nat, j: nat, ms: seq<seq<Part>>, open: seq<Part>, controls: seq<Frame>,
                        first: byte, second: byte, ext: seq<byte>, tail: seq<byte>)
    requires Ascending(sizes) && k < |sizes|
    requires ValidMessages(ms) && ValidOpen(open) && ValidControls(controls) && Oversize(first, second, ext)
    requires j == BucketAt(sizes, k, None, OversizeInput(ms, open, controls, first, second, ext, tail))
    ensures LastButOneSuits(sizes, k, ms, open) ==> j + 1 < |sizes|
  {
    var i := |sizes| - 2;
    if LastButOneSuits(sizes, k, ms, open) { StopsWhereItFits(sizes, k, i, j, ms, open, controls, first, second, ext, tail); }
  }

  lemma FitsWhereItStops(sizes: seq<nat>, k: nat, ms: seq<seq<Part>>, open: seq<Part>, controls: seq<Frame>,
                         first: byte, second: byte, ext: seq<byte>, tail: seq<byte>) returns (j: nat)
    requires Ascending(sizes) && k < |sizes|
    requires ValidMessages(ms) && FitsIn(ms, sizes[|sizes| - 1])
    requires ValidOpen(open) && |MessageData(open)| <= sizes[|sizes| - 1]
    requires ValidControls(controls) && Oversize(first, second, ext)
    ensures k <= j < |sizes| && j == BucketAt(sizes, k, None, OversizeInput(ms, open, controls, first, second, ext, tail))
    ensures Suits(ms, open, sizes[j])
  {
    var last, input := sizes[|sizes| - 1], OversizeInput(ms, open, controls, first, second, ext, tail);
    j := BucketAt(sizes, k, None, input);
    SingleBucketStops(last, ms, open, controls, first, second, ext, tail);
    BucketReached(sizes, k, last, None, input);
    StopsExactly(sizes[j], ms, open, controls, first, second, ext, tail);
  }

  lemma StopsWhereItFits(sizes: seq<nat>, k: nat, i: nat, j: nat, ms: seq<seq<Part>>, open: seq<Part>, controls: seq<Frame>,
                         first: byte, second: byte, ext: seq<byte>, tail: seq<byte>)
    requires Ascending(sizes) && k <= i < |sizes|
    requires ValidMessages(ms) && ValidOpen(open) && ValidControls(controls) && Oversize(first, second, ext)
    requires j == BucketAt(sizes, k, None, OversizeInput(ms, open, controls, first, second, ext, tail))
    ensures Suits(ms, open, sizes[i]) ==> j <= i
  {
    var input := OversizeInput(ms, open, controls, first, second, ext, tail);
    StopsExactly(sizes[i], ms, open, controls, first, second, ext, tail);
    if Loop([sizes[i]], 0, None, input).oversize { BucketSuffices(sizes, k, i, None, input); }
  }

  lemma LastButOne(sizes: seq<nat>, k: nat, j: nat, ms: seq<seq<Part>>, open: seq<Part>)
    requires Ascending(sizes) && k <= j < |sizes| && Suits(ms, open, sizes[j])
    requires LastButOneSuits(sizes, k, ms, open) ==> j + 1 < |sizes|
    ensures j + 1 < |sizes| <==> LastButOneSuits(sizes, k, ms, open)
  {
    assert j + 1 < |sizes| ==> sizes[j] <= sizes[|sizes| - 2];
  }

  /** The failing family: at every position of a stream, for every header above
      `maxPayloadLen` and whatever bytes follow, the growing reader delivers the
      messages before it and then, while a larger bucket is left, whatever the
      payload reads as. */
  lemma OversizePayloadIsReadAsFrames(sizes: seq<nat>, k: nat, ms: seq<seq<Part>>, open: seq<Part>, controls: seq<Frame>,
                                      first: byte, second: byte, ext: seq<byte>, tail: seq<byte>)
    requires k < |sizes| && forall i :: 0 <= i < |sizes| ==> sizes[i] <= sizes[|sizes| - 1]
    requires ValidMessages(ms) && FitsIn(ms, sizes[|sizes| - 1])
    requires ValidOpen(open) && |MessageData(open)| <= sizes[|sizes| - 1]
    requires ValidControls(controls) && Oversize(first, second, ext)
    ensures var input := OversizeInput(ms, open, controls, first, second, ext, tail);
            var onward := Onward(sizes, BucketAt(sizes, k, None, input), tail);
            var r := Loop(sizes, k, None, input);
            && r.delivered == Messages(ms) + onward.delivered
            && r.pongs == AllPings(ms) + (MessagePings(open) + Pings(controls)) + onward.pongs
            && r.error == onward.error
  {
    var last := sizes[|sizes| - 1];
    var input := OversizeInput(ms, open, controls, first, second, ext, tail);
    SingleBucketStops(last, ms, open, controls, first, second, ext, tail);
    OversizeIsResumedInside(sizes, k, last, None, input);
  }

  /** In particular a payload made of frames is delivered as messages. */
  lemma OversizePayloadIsDelivered(sizes: seq<nat>, k: nat, first: byte, second: byte, ext: seq<byte>, s: Stream)
    requires k + 1 < |sizes| && forall i :: 0 <= i < |sizes| ==> sizes[i] <= sizes[|sizes| - 1]
    requires Oversize(first, second, ext) && ValidStream(s) && FitsIn(s.messages, sizes[|sizes| - 1])
    ensures var input := [first, second] + (ext + Bytes(s));
            && Loop([sizes[|sizes| - 1]], 0, None, input) == LoopResult([], [], TooLarge, 0, true)
            && Loop(sizes, k, None, input).delivered == Messages(s.messages)
            && Loop(sizes, k, None, input).error == Eof
  {
    var last := sizes[|sizes| - 1];
    OversizeHeader(first, second, ext, Bytes(s));
    SingleBucketReadsStream(last, s);
    GrowingIsInvisible(sizes, k + 1, last, None, Bytes(s));
  }
}
