/** `readLoop` of libs/shared/websocket/session.go where not every bucket can be
    allocated.  Before each read it takes a buffer of the current bucket, which
    panics when there is no room for one; nothing recovers, so the run ends.

    `Loop` of `GrowingReader` says what the loop does as long as this does not
    happen. */
module Exhaustion {
  import opened Types
  import opened Wire
  import opened Reading
  import opened Streams
  import opened GrowingReader
  import BufferPools

  datatype Ending = Ended(error: ReadError) | OutOfMemory

  /** As `LoopResult`, with how the run ends. */
  datatype BoundedRun = BoundedRun(delivered: seq<Delivery>, pongs: seq<seq<byte>>, ending: Ending, retries: nat, oversize: bool)

  function Behind(delivered: seq<Delivery>, pongs: seq<seq<byte>>, retries: nat, oversize: bool, r: BoundedRun): BoundedRun {
    BoundedRun(delivered + r.delivered, pongs + r.pongs, r.ending, retries + r.retries, oversize || r.oversize)
  }

  const DEAD := BoundedRun([], [], OutOfMemory, 0, false)

  /** The loop from the `k`-th bucket on. */
  function ReadIn(memory: Memory, sizes: seq<nat>, k: nat, pending: Option<Pending>, input: seq<byte>): BoundedRun
    requires k < |sizes|
    decreases |input|, if pending.Some? then 1 else 0, |sizes| - k
  {
    if !memory.Holds(sizes[k]) then DEAD
    else
      ReadShrinks(sizes[k], pending, input);
      var r := Read(sizes[k], pending, input);
      match r.outcome
      case Message(t, data) => Behind(Deliver(t, data), r.pongs, 0, false, ReadIn(memory, sizes, k, None, r.rest))
      case Stashed(p) =>
        if k + 1 < |sizes| then Behind([], r.pongs, 1, false, ReadIn(memory, sizes, k + 1, Some(p), r.rest))
        else BoundedRun([], r.pongs, Ended(TooLarge), 0, false)
      case Failed(e) =>
        if e == TooLarge && k + 1 < |sizes| then Behind([], r.pongs, 1, true, ReadIn(memory, sizes, k + 1, None, r.rest))
        else BoundedRun([], r.pongs, Ended(e), 0, e == TooLarge)
  }

  /** Whether a read makes the loop grow, and the stash it leaves. */
  predicate Grows(r: ReadResult) {
    r.outcome == Failed(TooLarge) || r.outcome.Stashed?
  }

  function Stash(r: ReadResult): Option<Pending> {
    if r.outcome.Stashed? then Some(r.outcome.pending) else None
  }

  /** One round: a message, a growth, or the end. */
  lemma RoundIs(memory: Memory, sizes: seq<nat>, k: nat, pending: Option<Pending>, input: seq<byte>, r: ReadResult)
    requires k < |sizes| && memory.Holds(sizes[k]) && r == Read(sizes[k], pending, input)
    ensures r.outcome.Message? ==>
              ReadIn(memory, sizes, k, pending, input)
              == Behind(Deliver(r.outcome.msgType, r.outcome.data), r.pongs, 0, false, ReadIn(memory, sizes, k, None, r.rest))
    ensures Grows(r) && k + 1 < |sizes| ==>
              ReadIn(memory, sizes, k, pending, input)
              == Behind([], r.pongs, 1, r.outcome.Failed?, ReadIn(memory, sizes, k + 1, Stash(r), r.rest))
    ensures r.outcome.Failed? && !(Grows(r) && k + 1 < |sizes|) ==>
              ReadIn(memory, sizes, k, pending, input)
              == BoundedRun([], r.pongs, Ended(r.outcome.error), 0, r.outcome.error == TooLarge)
    ensures r.outcome.Stashed? && k + 1 == |sizes| ==>
              ReadIn(memory, sizes, k, pending, input) == BoundedRun([], r.pongs, Ended(TooLarge), 0, false)
  {
    ReadShrinks(sizes[k], pending, input);
  }

  /** The loop comes to bucket `end`, and the run dies exactly if that bucket
      cannot be allocated. */
  ghost predicate DiesAt(memory: Memory, sizes: seq<nat>, k: nat, pending: Option<Pending>, input: seq<byte>, end: nat)
    requires k < |sizes|
  {
    && end < |sizes| && end == k + Loop(sizes, k, pending, input).retries
    && (ReadIn(memory, sizes, k, pending, input).ending == OutOfMemory <==> !memory.Holds(sizes[end]))
  }

  lemma DiesBehindMessage(memory: Memory, sizes: seq<nat>, k: nat, pending: Option<Pending>, input: seq<byte>, r: ReadResult, end: nat)
    requires k < |sizes| && memory.Holds(sizes[k]) && r == Read(sizes[k], pending, input) && r.outcome.Message?
    requires DiesAt(memory, sizes, k, None, r.rest, end)
    ensures DiesAt(memory, sizes, k, pending, input, end)
  {
    ReadShrinks(sizes[k], pending, input);
  }

  lemma DiesBehindGrowth(memory: Memory, sizes: seq<nat>, k: nat, pending: Option<Pending>, input: seq<byte>,
                         r: ReadResult, end: nat)
    requires k + 1 < |sizes| && memory.Holds(sizes[k]) && r == Read(sizes[k], pending, input) && Grows(r)
    requires DiesAt(memory, sizes, k + 1, Stash(r), r.rest, end)
    ensures DiesAt(memory, sizes, k, pending, input, end)
  {
    ReadShrinks(sizes[k], pending, input);
  }

  lemma DiesAtOnce(memory: Memory, sizes: seq<nat>, k: nat, pending: Option<Pending>, input: seq<byte>)
    requires Ascending(sizes) && k < |sizes| && !memory.Holds(sizes[k])
    ensures DiesAt(memory, sizes, k, pending, input, k + Loop(sizes, k, pending, input).retries)
  {
    RetriesBounded(sizes, k, pending, input);
    assert sizes[k] <= sizes[k + Loop(sizes, k, pending, input).retries];
  }

  /** When the run panics: exactly when the loop would come to a bucket that
      cannot be allocated.  `retries` counts how often it grows. */
  lemma {:induction false} DiesExactly(memory: Memory, sizes: seq<nat>, k: nat, pending: Option<Pending>, input: seq<byte>)
    requires Ascending(sizes) && k < |sizes|
    ensures var end := k + Loop(sizes, k, pending, input).retries;
            end < |sizes| && (ReadIn(memory, sizes, k, pending, input).ending == OutOfMemory <==> !memory.Holds(sizes[end]))
  {
    var end := DiesSomewhere(memory, sizes, k, pending, input);
    assert end == k + Loop(sizes, k, pending, input).retries;
  }

  lemma {:induction false} DiesSomewhere(memory: Memory, sizes: seq<nat>, k: nat, pending: Option<Pending>, input: seq<byte>)
    returns (end: nat)
    requires Ascending(sizes) && k < |sizes|
    ensures DiesAt(memory, sizes, k, pending, input, end)
    decreases |input|, if pending.Some? then 1 else 0, |sizes| - k
  {
    ReadShrinks(sizes[k], pending, input);
    var r := Read(sizes[k], pending, input);
    if !memory.Holds(sizes[k]) {
      end := k + Loop(sizes, k, pending, input).retries;
      DiesAtOnce(memory, sizes, k, pending, input);
    } else if r.outcome.Message? {
      end := DiesSomewhere(memory, sizes, k, None, r.rest);
      DiesBehindMessage(memory, sizes, k, pending, input, r, end);
    } else if k + 1 < |sizes| && Grows(r) {
      end := DiesSomewhere(memory, sizes, k + 1, Stash(r), r.rest);
      DiesBehindGrowth(memory, sizes, k, pending, input, r, end);
    } else {
      end := k;
      DiesNowhere(memory, sizes, k, pending, input, r);
    }
  }

  lemma DiesNowhere(memory: Memory, sizes: seq<nat>, k: nat, pending: Option<Pending>, input: seq<byte>, r: ReadResult)
    requires k < |sizes| && memory.Holds(sizes[k]) && r == Read(sizes[k], pending, input) && !r.outcome.Message?
    requires k + 1 == |sizes| || (r.outcome.Failed? && r.outcome.error != TooLarge)
    ensures DiesAt(memory, sizes, k, pending, input, k)
  {
  }

  /** The first `u` buckets are those that can be allocated. */
  ghost predicate Usable(memory: Memory, sizes: seq<nat>, u: nat) {
    && u <= |sizes|
    && (forall i :: 0 <= i < u ==> memory.Holds(sizes[i]))
    && (u < |sizes| ==> !memory.Holds(sizes[u]))
  }

  /** A run of the loop over the usable buckets only, the error of the last of
      them turned into a panic when there are more. */
  function Cutoff(r: LoopResult, more: bool): BoundedRun {
    if r.error == TooLarge && more then BoundedRun(r.delivered, r.pongs, OutOfMemory, r.retries + 1, r.oversize)
    else BoundedRun(r.delivered, r.pongs, Ended(r.error), r.retries, r.oversize)
  }

  lemma CutoffBehind(d: seq<Delivery>, p: seq<seq<byte>>, n: nat, o: bool, r: LoopResult, more: bool)
    ensures Cutoff(Prefixed(d, p, n, o, r), more) == Behind(d, p, n, o, Cutoff(r, more))
  {
  }

  ghost predicate AreUsable(memory: Memory, sizes: seq<nat>, usable: seq<nat>) {
    usable <= sizes && Usable(memory, sizes, |usable|)
  }

  ghost predicate IsCutOff(memory: Memory, sizes: seq<nat>, usable: seq<nat>, k: nat, pending: Option<Pending>, input: seq<byte>)
    requires k < |usable| <= |sizes|
  {
    ReadIn(memory, sizes, k, pending, input) == Cutoff(Loop(usable, k, pending, input), |usable| < |sizes|)
  }

  lemma CutOffBehindMessage(memory: Memory, sizes: seq<nat>, usable: seq<nat>, k: nat, pending: Option<Pending>, input: seq<byte>, r: ReadResult)
    requires AreUsable(memory, sizes, usable) && k < |usable| && r == Read(sizes[k], pending, input) && r.outcome.Message?
    requires IsCutOff(memory, sizes, usable, k, None, r.rest)
    ensures IsCutOff(memory, sizes, usable, k, pending, input)
  {
    ReadShrinks(sizes[k], pending, input);
    CutoffBehind(Deliver(r.outcome.msgType, r.outcome.data), r.pongs, 0, false,
                 Loop(usable, k, None, r.rest), |usable| < |sizes|);
  }

  lemma CutOffBehindGrowth(memory: Memory, sizes: seq<nat>, usable: seq<nat>, k: nat, pending: Option<Pending>, input: seq<byte>,
                           r: ReadResult)
    requires AreUsable(memory, sizes, usable) && k + 1 < |usable| && r == Read(sizes[k], pending, input) && Grows(r)
    requires IsCutOff(memory, sizes, usable, k + 1, Stash(r), r.rest)
    ensures IsCutOff(memory, sizes, usable, k, pending, input)
  {
    ReadShrinks(sizes[k], pending, input);
    CutoffBehind([], r.pongs, 1, r.outcome.Failed?, Loop(usable, k + 1, Stash(r), r.rest), |usable| < |sizes|);
  }

  lemma CutOffAtLast(memory: Memory, sizes: seq<nat>, usable: seq<nat>, pending: Option<Pending>, input: seq<byte>,
                     r: ReadResult)
    requires usable != [] && AreUsable(memory, sizes, usable) && r == Read(sizes[|usable| - 1], pending, input) && Grows(r)
    ensures IsCutOff(memory, sizes, usable, |usable| - 1, pending, input)
  {
    ReadShrinks(sizes[|usable| - 1], pending, input);
    assert r.pongs + [] == r.pongs;
  }

  lemma {:induction false} AllIsCutOff(memory: Memory, sizes: seq<nat>, usable: seq<nat>, k: nat, pending: Option<Pending>, input: seq<byte>)
    requires AreUsable(memory, sizes, usable) && k < |usable|
    ensures IsCutOff(memory, sizes, usable, k, pending, input)
    decreases |input|, if pending.Some? then 1 else 0, |sizes| - k
  {
    ReadShrinks(sizes[k], pending, input);
    var r := Read(sizes[k], pending, input);
    if r.outcome.Message? {
      AllIsCutOff(memory, sizes, usable, k, None, r.rest);
      CutOffBehindMessage(memory, sizes, usable, k, pending, input, r);
    } else if Grows(r) && k + 1 < |usable| {
      AllIsCutOff(memory, sizes, usable, k + 1, Stash(r), r.rest);
      CutOffBehindGrowth(memory, sizes, usable, k, pending, input, r);
    } else if Grows(r) {
      CutOffAtLast(memory, sizes, usable, pending, input, r);
    } else {
      CutOffAtError(memory, sizes, usable, k, pending, input, r);
    }
  }

  lemma CutOffAtError(memory: Memory, sizes: seq<nat>, usable: seq<nat>, k: nat, pending: Option<Pending>, input: seq<byte>, r: ReadResult)
    requires AreUsable(memory, sizes, usable) && k < |usable| && r == Read(sizes[k], pending, input)
    requires r.outcome.Failed? && r.outcome.error != TooLarge
    ensures IsCutOff(memory, sizes, usable, k, pending, input)
  {
  }

  /** All results about `Loop` carry over: the run is that of the loop with the
      usable buckets alone, but where that one gives up with `ErrFrameTooLarge`
      it grows once more, and panics. */
  lemma RunIsCutOff(memory: Memory, sizes: seq<nat>, u: nat, k: nat, pending: Option<Pending>, input: seq<byte>)
    requires Usable(memory, sizes, u) && k < u
    ensures ReadIn(memory, sizes, k, pending, input) == Cutoff(Loop(sizes[..u], k, pending, input), u < |sizes|)
  {
    AllIsCutOff(memory, sizes, sizes[..u], k, pending, input);
  }

  lemma LargestUsable(sizes: seq<nat>, u: nat)
    requires Ascending(sizes) && 0 < u <= |sizes|
    ensures |sizes[..u]| == u && sizes[..u][u - 1] == sizes[u - 1] && forall i :: 0 <= i < u ==> sizes[..u][i] <= sizes[u - 1]
  {
  }

  lemma CarriesOver(memory: Memory, sizes: seq<nat>, u: nat, k: nat, input: seq<byte>, r: LoopResult)
    requires Usable(memory, sizes, u) && k < u && r == Loop(sizes[..u], k, None, input)
    ensures ReadIn(memory, sizes, k, None, input) == Cutoff(r, u < |sizes|)
  {
    RunIsCutOff(memory, sizes, u, k, None, input);
  }

  /** Where some bucket cannot be allocated, `ErrFrameTooLarge` never comes
      back. */
  lemma NeverTooLarge(memory: Memory, sizes: seq<nat>, u: nat, k: nat, pending: Option<Pending>, input: seq<byte>)
    requires Usable(memory, sizes, u) && u < |sizes| && k <= u
    ensures ReadIn(memory, sizes, k, pending, input).ending != Ended(TooLarge)
  {
    if k < u { RunIsCutOff(memory, sizes, u, k, pending, input); }
  }

  /** Streams whose messages fit the usable buckets are delivered as if there
      were no limit. */
  lemma StreamIsDeliveredIn(memory: Memory, sizes: seq<nat>, u: nat, k: nat, s: Stream)
    requires Ascending(sizes) && Usable(memory, sizes, u) && k < u
    requires ValidStream(s) && FitsIn(s.messages, sizes[u - 1])
    ensures var r := ReadIn(memory, sizes, k, None, Bytes(s));
            r.delivered == Messages(s.messages) && r.pongs == StreamPings(s) && r.ending == Ended(Eof)
  {
    LargestUsable(sizes, u);
    StreamIsDelivered(sizes[..u], k, s);
    CarriesOver(memory, sizes, u, k, Bytes(s), Loop(sizes[..u], k, None, Bytes(s)));
  }

  /** A message above the largest usable bucket, in any fragments, ends the run:
      with a panic if there are larger buckets. */
  lemma TooLargeMessageDies(memory: Memory, sizes: seq<nat>, u: nat, k: nat, ms: seq<seq<Part>>, m: seq<Part>, tail: seq<byte>)
    requires Ascending(sizes) && Usable(memory, sizes, u) && k < u
    requires ValidMessages(ms) && FitsIn(ms, sizes[u - 1])
    requires ValidMessage(m) && |MessageData(m)| > sizes[u - 1]
    ensures var r := ReadIn(memory, sizes, k, None, MessagesThen(ms, PartsThen(m, tail)));
            && r.delivered == Messages(ms)
            && r.pongs == AllPings(ms) + PingsUntil(m, sizes[u - 1])
            && r.ending == if u < |sizes| then OutOfMemory else Ended(TooLarge)
  {
    var input := MessagesThen(ms, PartsThen(m, tail));
    LargestUsable(sizes, u);
    TooLargeMessageEndsRun(sizes[..u], k, ms, m, tail);
    CarriesOver(memory, sizes, u, k, input, Loop(sizes[..u], k, None, input));
  }

  // ---------------------------------------------------------------------
  // Oversize headers in a row

  /** The first two bytes of an oversize header and its length field. */
  datatype Announced = Announced(first: byte, second: byte, ext: seq<byte>)

  function HeadersThen(hs: seq<Announced>, tail: seq<byte>): seq<byte> {
    if hs == [] then tail else [hs[0].first, hs[0].second] + (hs[0].ext + HeadersThen(hs[1..], tail))
  }

  ghost predicate AllOversize(hs: seq<Announced>) {
    forall h :: h in hs ==> Oversize(h.first, h.second, h.ext)
  }

  lemma HeaderGrows(memory: Memory, sizes: seq<nat>, k: nat, input: seq<byte>, rest: seq<byte>)
    requires k + 1 < |sizes| && memory.Holds(sizes[k]) && ParseHeader(input) == HeaderErr(TooLarge, rest)
    ensures ReadIn(memory, sizes, k, None, input) == Behind([], [], 1, true, ReadIn(memory, sizes, k + 1, None, rest))
  {
    assert Read(sizes[k], None, input) == ReadResult(Failed(TooLarge), rest, []);
    ReadShrinks(sizes[k], None, input);
  }

  /** The run dies after `n` retries that bring nothing. */
  ghost predicate DiesAfter(memory: Memory, sizes: seq<nat>, k: nat, input: seq<byte>, n: nat)
    requires k < |sizes|
  {
    ReadIn(memory, sizes, k, None, input) == BoundedRun([], [], OutOfMemory, n, n > 0)
  }

  /** An oversize header costs a bucket, and nothing else happens. */
  lemma HeaderCosts(memory: Memory, sizes: seq<nat>, k: nat, h: Announced, rest: seq<byte>, n: nat)
    requires k + 1 < |sizes| && memory.Holds(sizes[k]) && Oversize(h.first, h.second, h.ext)
    requires DiesAfter(memory, sizes, k + 1, rest, n)
    ensures DiesAfter(memory, sizes, k, [h.first, h.second] + (h.ext + rest), n + 1)
  {
    OversizeHeader(h.first, h.second, h.ext, rest);
    HeaderGrows(memory, sizes, k, [h.first, h.second] + (h.ext + rest), rest);
  }

  /** As many oversize headers as there are usable buckets left, whatever follows
      them, end the run with a panic. */
  lemma {:induction false} HeadersDie(memory: Memory, sizes: seq<nat>, u: nat, k: nat, hs: seq<Announced>, tail: seq<byte>)
    requires Usable(memory, sizes, u) && u < |sizes| && k + |hs| == u && AllOversize(hs)
    ensures ReadIn(memory, sizes, k, None, HeadersThen(hs, tail)) == BoundedRun([], [], OutOfMemory, |hs|, hs != [])
    decreases |hs|
  {
    if hs == [] {
      DeadAtOnce(memory, sizes, k, tail);
    } else {
      assert hs[0] in hs && forall x :: x in hs[1..] ==> x in hs;
      HeadersDie(memory, sizes, u, k + 1, hs[1..], tail);
      HeaderCosts(memory, sizes, k, hs[0], HeadersThen(hs[1..], tail), |hs| - 1);
    }
  }

  lemma DeadAtOnce(memory: Memory, sizes: seq<nat>, k: nat, input: seq<byte>)
    requires k < |sizes| && !memory.Holds(sizes[k])
    ensures ReadIn(memory, sizes, k, None, input) == DEAD
  {
  }

  lemma {:induction false} HeadersLength(hs: seq<Announced>, tail: seq<byte>)
    requires AllOversize(hs)
    ensures |HeadersThen(hs, tail)| == 10 * |hs| + |tail|
    decreases |hs|
  {
    if hs != [] {
      assert hs[0] in hs && forall x :: x in hs[1..] ==> x in hs;
      HeadersLength(hs[1..], tail);
    }
  }

  /** A header that announces 2^31 bytes. */
  const HEADER := Announced(0x82, 127, [0, 0, 0, 0, 0x80, 0, 0, 0])

  lemma HeaderIsOversize()
    ensures Oversize(HEADER.first, HEADER.second, HEADER.ext)
  {
    var e := HEADER.ext;
    DecodePrefix(e, 0);
    DecodePrefix(e, 1);
    DecodePrefix(e, 2);
    DecodePrefix(e, 3);
    DecodePrefix(e, 4);
    DecodePrefix(e, 5);
    DecodePrefix(e, 6);
    DecodePrefix(e, 7);
    assert e[..8] == e;
  }

  /** With the default buckets, five of them, fifty bytes, are enough, however
      large the memory is. */
  lemma FiveHeadersDie(memory: Memory, tail: seq<byte>)
    requires memory.Holds(BufferPools.DEFAULT_BUCKETS[4]) && !memory.Holds(BufferPools.MAX_INT64)
    ensures var hs := seq(5, _ => HEADER);
            && |HeadersThen(hs, [])| == 50
            && ReadIn(memory, BufferPools.DEFAULT_BUCKETS, 0, None, HeadersThen(hs, tail)).ending == OutOfMemory
  {
    var hs := seq(5, _ => HEADER);
    HeaderIsOversize();
    HeadersLength(hs, []);
    HeadersDie(memory, BufferPools.DEFAULT_BUCKETS, 5, 0, hs, tail);
  }
}
