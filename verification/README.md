# Verification of the market-data pipeline

A Dafny model, with proofs, of the path a market-data byte takes: from the
WebSocket framing through the retrying reader, the shared frames and bounded
queues, the subscription layers and the exchange codec, to the scanners and
decimals that read a payload. The model follows the source in
`libs/shared/websocket`, `libs/shared/scanner`, `libs/adapter` and
`bundle/internal/ingest`.

State that the source updates in place is a class whose methods are proved
against a function of the old state; what that function guarantees is then
proved as lemmas, most of them over every run or every reachable state.

`dafny verify dfyconfig.toml` checks the project.

| file | component |
|---|---|
| `Types.dfy` | what several components share |
| `Wire.dfy` | headers, lengths, masking and mask keys of RFC 6455, sections 5.2 and 5.3 |
| `Reading.dfy` | one call of `Read` as a function of bytes, buffer size and stash |
| `Connection.dfy` | `wsConn` in place |
| `RawFrames.dfy` | the same frames byte by byte, in plain numbers |
| `Streams.dfy` | fragmented messages with control frames between them, RFC 6455, sections 5.4 and 5.5 |
| `GrowingReader.dfy` | the stash, grow and retry loop against a reader with the largest buffer |
| `Exhaustion.dfy` | the same loop where not every bucket can be allocated |
| `BufferPool.dfy`, `SessionReader.dfy` | buckets of buffers; `readLoop` in place over connection and pool |
| `FrameQueue.dfy` | the ring buffer with its three overflow policies |
| `Wakeups.dfy` | its condition variables, as a state machine over threads |
| `Ownership.dfy`, `OwnershipRuns.dfy` | reference counts, fan-out, queues and pools, as a state machine over atomic steps; what holds over its runs |
| `FanOut.dfy` | which queues a routed frame reaches |
| `Outbound.dfy`, `Reconnect.dfy` | control frames and the outbound queue; the connection loop |
| `Placement.dfy`, `Managers.dfy`, `Routers.dfy` | topics on sessions; the manager in place; consumer lists |
| `BtccCodec.dfy`, `SentUpdates.dfy` | topic registration and `DecodeTopic`; the update messages it is meant for |
| `Requests.dfy`, `Fields.dfy` | the requests and answers as JSON; what the scanners find and when they find nothing |
| `Groups.dfy`, `Replies.dfy`, `Usecases.dfy` | use case, codec, manager and router together; what each call answers; the group in place |
| `Recovery.dfy` | what failed subscribes and dropped topics mean for the sessions |
| `Scan.dfy`, `Skipper.dfy`, `Params.dfy` | byte scanners, the JSON skipper against the grammar of RFC 8259, params arrays |
| `Truncation.dfy` | payloads that break off, where the skipper leaves them |
| `Decimals.dfy`, `DecimalLaws.dfy`, `DecimalText.dfy`, `DecimalForms.dfy` | fixed-point decimals |
| `DepthLadder.dfy`, `BadLadders.dfy` | the price ladder, whole and broken |

## What the proofs found

Properties one might expect that do not hold of the code. Each has its exact
condition in the model, and inputs that fail.

- A 64-bit length above 2^31-1 is reported as too large without a stash, but the
  loop retries it like a message that did not fit and reads on behind the length
  field (`GrowingReader.OversizeIsResumedInside`). Growing is invisible exactly when
  no such header is met, no larger bucket is left there, or nothing readable follows
  (`GrowingReader.GrowingIsInvisibleExactly`, `GrowingReader.OnwardStops`,
  `GrowingReader.LargerBucketIsLeft`). Otherwise its payload is delivered as frames
  (`GrowingReader.OversizePayloadIsDelivered`).
- The default pool's last bucket is 2^63-1 bytes, which `make` cannot allocate: it
  panics, and nothing recovers. A run ends this way exactly when the loop grows into
  a bucket above what can be allocated (`Exhaustion.DiesExactly`,
  `Exhaustion.RunIsCutOff`). There `ErrFrameTooLarge` never comes back
  (`Exhaustion.NeverTooLarge`); a message above the largest usable bucket, or as many
  oversize headers as there are usable buckets left, end the process
  (`Exhaustion.TooLargeMessageDies`, `Exhaustion.HeadersDie`): with the default
  buckets five headers, 50 bytes (`Exhaustion.FiveHeadersDie`).
- `writeFrame` writes what `readHeader` refuses: control frames above 125 bytes and
  payloads above 2^31-1 bytes. All others read back
  (`Streams.WrittenFrameReadsBack`).
- A payload that breaks off behind an unpaired backslash makes the element's slice
  end one byte behind it. The slice panics when the payload fills its buffer, and
  takes a stale byte otherwise; a panic ends `DecodeTopic`
  (`BtccCodec.DecodePanicsExactly`, `Truncation.ParamsPanicExactly`,
  `Truncation.StringBreaksOff`). So does every depth or order message that breaks off
  there (`SentUpdates.BrokenDepthPanics`, `SentUpdates.BrokenOrderPanics`), such as
  the one in `SentUpdates.OnePanics`. With the stale byte an order update cut off in
  this way is looked up (`SentUpdates.CutOrderIsLookedUp`).
- `parseDecimal` does not check the sum of whole part and fraction, so
  `9.999999999999999999` is accepted and comes out negative
  (`DecimalLaws.ParseWraps`; exactly when, in `DecimalLaws.ParseDenotes`).
- `decimalSub` answers zero when a side does not rescale, which is right only for
  equal numbers (`DecimalLaws.SubDenotes`, `DecimalLaws.SubLoses`).
- The smallest int64 at scale 0 prints but does not parse
  (`DecimalText.PrintParse`).
- Registering a market under a second id, or an id for a second market, breaks the
  codec's tables (`BtccCodec.RegisterKeepsConsistentExactly`,
  `BtccCodec.DoubleRegistrationBreaks`). The use case never does it
  (`Groups.StepConsistent`).
- A consumer that subscribes twice, or leaves without being subscribed, makes the
  reference count wrong or cuts off the others (`Groups.OrderlyExactly`,
  `Groups.DoubleSubscribeMiscounts`).
- A subscribe whose control frame cannot be sent is undone in the codec but not in
  the manager. The topic stays desired, can no longer be encoded, and from then on
  every reconnect of its session fails, whatever else is called in between
  (`Groups.FailedSendBlocksReconnect`, `Groups.FailedSendLeaks`,
  `Recovery.LeakedForGood`). The use case leaves the overflow policy at blocking,
  under which a frame is refused only by a disconnected writer, so there the
  connection has to end between the session's check of `connected` and the
  writer's.
- `Unsubscribe` takes a topic out of the codec before the session asks the codec for
  the unsubscribe frame. No frame is ever sent for a dropped topic
  (`Recovery.UnsubscribesOnlyWhatStays`), and since the encoder's error comes back
  first, a connected session that has lost its last topic is not stopped
  (`Usecases.WsGroup.Retire`).
- Under the blocking policy, a connection whose greeting and subscribe frames are
  more than the outbound queue holds waits for good: the loop that empties the
  queue has not begun (`Reconnect.SessionLoop.Connect`,
  `Reconnect.SessionLoop.Run`).

## Model

| member | source | states |
|---|---|---|
| `Wire.BigEndianRoundTrip` | libs/shared/websocket/dialer.go:275-290 | big-endian decoding undoes encoding for every number that fits the field |
| `Wire.BigEndianBytes` | libs/shared/websocket/dialer.go:275-290 | encoding undoes decoding, so a length field is determined by its value |
| `Wire.MaskInvolution` | libs/shared/websocket/dialer.go:307-320 | unmasking with the key of masking restores every payload, of any length |
| `Wire.MaskStaysNonZero` | libs/shared/websocket/dialer.go:358-366 | the mask generator never falls back to zero from a non-zero 32-bit state |
| `Wire.ParseEncodedHeader` | libs/shared/websocket/dialer.go:253-305 | reading any valid header in any of the three length forms gives that header and leaves exactly what follows |
| `Wire.ParsedHeaderIsEncoded` | libs/shared/websocket/dialer.go:253-305 | the converse: an accepted header is the encoding of what was read, so nothing else is accepted |
| `Reading.StashIsTransparent` | libs/shared/websocket/dialer.go:147-237 | reading with a small buffer and resuming the stash with a larger one equals reading with the larger one at once, on every byte stream, malformed ones included |
| `Reading.StashMeansTooSmall` | libs/shared/websocket/dialer.go:204-213 | a message is stashed only when the buffer cannot hold it, and a returned message fits |
| `Connection.WsConn.constructor` | libs/shared/websocket/dialer.go:103-145 | a fresh connection has sent nothing and stashed nothing |
| `Connection.WsConn.ReadHeader` | libs/shared/websocket/dialer.go:253-305 | consumes exactly the header `ParseHeader` reads, with its errors |
| `Connection.WsConn.ReadPayload` | libs/shared/websocket/dialer.go:307-320 | the bytes land unmasked in their part of the buffer, the rest of it unchanged |
| `Connection.WsConn.WriteFrame` | libs/shared/websocket/dialer.go:322-348 | sends a final frame with the given opcode and payload under the next mask key, masking the payload in the caller's buffer and nothing behind it |
| `Connection.WsConn.HandleControl` | libs/shared/websocket/dialer.go:178-193 | a ping is answered by a pong with the same data, a pong is skipped, a close ends the stream |
| `Connection.WsConn.ReadFrame` | libs/shared/websocket/dialer.go:172-217 | one round of the loop agrees with the reading function, whether it goes on or returns |
| `Connection.WsConn.ReadPending` | libs/shared/websocket/dialer.go:152-171 | a stash is resumed when the buffer is large enough and kept untouched otherwise |
| `Connection.WsConn.Read` | libs/shared/websocket/dialer.go:147-237 | outcome, buffer, stash, remaining bytes and pongs are those of the reading function |
| `Connection.BuildLengthHeader` | libs/shared/websocket/dialer.go:413-432 | writes the shortest length form with the mask bit and key, all within 14 bytes |
| `RawFrames.WrittenBytes` | libs/shared/websocket/dialer.go:322-348 | every byte `writeFrame` sends, in plain numbers: first byte, length field of section 5.2 of RFC 6455, four key bytes, and behind them payload byte i XOR the key byte that stands at place i % 4 of that header |
| `RawFrames.MaskedByte` | libs/shared/websocket/dialer.go:307-320 | masking is byte by byte with key byte i % 4, for every key and data, stated without the masking function |
| `RawFrames.XorBits` | libs/shared/websocket/dialer.go:315-318 | the XOR used is exclusive-or of every bit |
| `RawFrames.MaskedBits` | libs/shared/websocket/dialer.go:315-318 | for bytes too |
| `RawFrames.KeyIsMask` | libs/shared/websocket/dialer.go:331-332 | the key bytes are the mask, lowest byte first |
| `RawFrames.MaskBits` | libs/shared/websocket/dialer.go:358-366 | the next mask, bit by bit: shifts by 13, 17 and 5 in 32 bits |
| `RawFrames.WrittenTypes` | libs/shared/websocket/dialer.go:397-411 | text, binary, close, ping and pong are sent with first bytes 0x81, 0x82, 0x88, 0x89 and 0x8A |
| `RawFrames.FirstByteDecides` | libs/shared/websocket/dialer.go:147-218 | what each of the 256 first bytes means to a read, in the middle of a message or not: 0x81 and 0x82 are returned, 0x80 and 0x00 go on, 0x88 ends the stream, 0x89 is answered with its data, 0x8A is skipped, and all others are refused |
| `RawFrames.PongBytes` | libs/shared/websocket/dialer.go:186-188 | an answer begins with 0x8A and carries the data of its ping under the mask |
| `RawFrames.TextIsStashed` | libs/shared/websocket/dialer.go:204-213 | a message too large for the buffer is stashed with what its header says, its payload unread |
| `RawFrames.HeaderRefusals` | libs/shared/websocket/dialer.go:253-305 | reserved bits and lengths above 2^63-1 and 2^31-1 are refused, by the bytes |
| `RawFrames.HeaderAccepts` | libs/shared/websocket/dialer.go:253-305 | the headers taken, by the bytes: FIN, opcode, length in each form, and the key behind it |
| `RawFrames.HeaderBreaksOff` | libs/shared/websocket/dialer.go:253-305 | a stream that ends in a header is reported as ended in front of the length or the key and as broken within them |
| `RawFrames.ReadBreaksOff` | libs/shared/websocket/dialer.go:172-176 | and what a read makes of it |
| `RawFrames.PayloadBreaksOff` | libs/shared/websocket/dialer.go:194-218 | and so within a payload, for data and control frames |
| `Streams.WrittenFrameReadsBack` | libs/shared/websocket/dialer.go:253-348 | for every opcode, key and payload, what `writeFrame` emits reads back as a final frame with that opcode and payload if and only if the payload has at most 2^31-1 bytes, and at most 125 in a control frame |
| `Streams.WrittenMessageReadsBack` | libs/shared/websocket/dialer.go:239-348 | the same through `Read` for text and binary messages |
| `Streams.ReadsMessage` | libs/shared/websocket/dialer.go:147-218 | a message in any fragments, with pings and pongs between them, reads as its concatenated data with the first fragment's type, answering each ping in order |
| `GrowingReader.GrowingIsInvisible` | libs/shared/websocket/session.go:286-343 | the retrying reader delivers, answers and fails exactly like one that had the largest buffer all along, on every byte stream where that one meets no header above 2^31-1 |
| `GrowingReader.StreamIsDelivered` | libs/shared/websocket/session.go:286-343 | from every bucket, every stream of fragmented messages with interleaved control frames is delivered as exactly its non-empty messages, in order, each ping answered with its data, with fewer retries than buckets left |
| `GrowingReader.DeliverExactly` | libs/shared/websocket/session.go:303-308 | for every message: its data if there is any, as text behind a first opcode 1 and as binary behind a 2 |
| `GrowingReader.RetriesBounded` | libs/shared/websocket/session.go:323-343 | over a whole run, on any bytes, the reader retries less often than there are buckets left |
| `GrowingReader.GrowingIsInvisibleExactly` | libs/shared/websocket/session.go:286-343 | on every byte stream, from every bucket: the same run if and only if no header above 2^31-1 is met, or the run onward from behind its length field does nothing but fail |
| `GrowingReader.OnwardStops` | libs/shared/websocket/session.go:291-302 | that is: no larger bucket is left, or the bytes there give no message and no ping before a too-large error |
| `GrowingReader.OversizeIsResumedInside` | libs/shared/websocket/dialer.go:286-289 | at any place in any stream, the growing reader does what the largest buffer does up to an oversize header, and then reads on behind its length field |
| `GrowingReader.LargerBucketIsLeft` | libs/shared/websocket/session.go:323-343 | from every bucket, a larger one is left at the header if and only if the run does not start in the last and everything before the header fits the last but one |
| `GrowingReader.TooLargeMessageEndsRun` | libs/shared/websocket/session.go:291-302 | from every bucket, the first message above the largest one, in whatever fragments and whatever follows, ends the run with the too-large error, after exactly the messages before it were delivered, their pings answered, and its own pings up to the fragment that is too much; what memory makes of it is in `Exhaustion.TooLargeMessageDies` |
| `GrowingReader.OversizePayloadIsReadAsFrames` | libs/shared/websocket/dialer.go:286-289 | from every bucket, for every oversize header with any FIN, opcode and mask bits, behind any messages and fragments that fit, the run is that of the messages before it followed by what its payload reads as, as long as buckets can be allocated |
| `GrowingReader.OversizePayloadIsDelivered` | libs/shared/websocket/dialer.go:286-289 | so a payload made of messages is delivered as those messages, where a single buffer ends |
| `Exhaustion.DiesExactly` | libs/shared/websocket/session.go:286-343 | on every byte stream, from every bucket: the run panics if and only if the bucket the loop grows to is above what can be allocated |
| `Exhaustion.RunIsCutOff` | libs/shared/websocket/session.go:286-343 | deliveries, pongs and ending are those of the loop with the usable buckets alone, its too-large error turned into the panic when there are more buckets; so all results about the loop carry over |
| `Exhaustion.NeverTooLarge` | libs/shared/websocket/session.go:294-299 | where some bucket cannot be allocated, the too-large error is never returned |
| `Exhaustion.StreamIsDeliveredIn` | libs/shared/websocket/session.go:286-343 | streams whose messages fit the usable buckets are delivered as without a limit |
| `Exhaustion.TooLargeMessageDies` | libs/shared/websocket/session.go:286-343 | a message above the largest usable bucket panics behind exactly the deliveries and pongs before it, or returns the too-large error when there is no larger bucket |
| `Exhaustion.HeadersDie` | libs/shared/websocket/session.go:323-343 | any oversize headers in a row, as many as usable buckets are left, end the run with the panic, whatever follows |
| `Exhaustion.FiveHeadersDie` | libs/shared/websocket/buffer_pool.go:8-15 | with the default buckets five of them, 50 bytes, are enough for every memory below 2^63-1 |
| `BufferPools.BufferPool.constructor` | libs/shared/websocket/buffer_pool.go:22-46 | the usable sizes among those given, or the default ones when there are none |
| `BufferPools.DefaultBuckets` | libs/shared/websocket/buffer_pool.go:8-15 | the default sizes, in increasing order |
| `BufferPools.NormalizeBucketSizes` | libs/shared/websocket/buffer_pool.go:127-152 | strictly increasing, and exactly the distinct inputs in range |
| `BufferPools.Dedup` | libs/shared/websocket/buffer_pool.go:141-151 | deduplication inside the array being read loses and adds nothing |
| `BufferPools.BufferPool.BucketIndex` | libs/shared/websocket/buffer_pool.go:95-101 | the smallest bucket that holds the size, or none exactly when all are smaller |
| `BufferPools.BufferPool.NextBucketSize` | libs/shared/websocket/buffer_pool.go:103-115 | the smallest bucket above the size; zero exactly from the largest bucket on and for sizes of zero and below |
| `BufferPools.BufferPool.Get` | libs/shared/websocket/buffer_pool.go:54-69 | a buffer with the capacity of the smallest sufficient bucket, new or taken out of the pool; panics exactly when none is free and none can be allocated |
| `BufferPools.BufferPool.Put` | libs/shared/websocket/buffer_pool.go:71-82 | kept exactly when the capacity is a bucket's |
| `SessionReaders.SessionReader.TryGrow` | libs/shared/websocket/session.go:323-343 | grows to the next bucket, never shrinks, fails exactly past the last bucket or without a current length |
| `SessionReaders.SessionReader.ReadLoop` | libs/shared/websocket/session.go:286-321 | what is routed, the final error or panic and the pongs are those of the retry loop within the memory there is, from the current bucket, over the real pool and connection |
| `SessionReaders.RoutedExactly` | libs/shared/websocket/session.go:309-319 | of any deliveries, the router gets in order exactly the data the decoder recognises, each under the topic decoded from it |
| `SessionReaders.StreamIsRouted` | libs/shared/websocket/session.go:286-321 | so on every stream of messages that fit the usable buckets: from the bytes on the wire to what is routed |
| `FrameQueues.DropOldestKeepsNewest` | libs/shared/websocket/consumer.go:76-106 | in every run without Close, DropOldest accepts all frames offered; what left the queue and what is in it are those frames in order, and after pushes alone it holds the newest `capacity` of them |
| `FrameQueues.PushExactly` | libs/shared/websocket/consumer.go:76-106 | refused if and only if closed, or full under DropNewest; waits if and only if open, full and blocking; neither changes anything; a frame taken in stands last, behind all others or all but the oldest |
| `FrameQueues.PopExactly` | libs/shared/websocket/consumer.go:108-126 | the oldest frame, a wait, or nothing from a closed queue, and what stays |
| `FrameQueues.BlockNeverRejects` | libs/shared/websocket/consumer.go:76-106 | over runs: under the blocking policy no push on an open queue is refused |
| `FrameQueues.DropNewestKeepsOldest` | libs/shared/websocket/consumer.go:76-106 | over runs of pushes: DropNewest keeps the oldest `capacity` frames offered |
| `FrameQueues.OnlyPopsRemove` | libs/shared/websocket/consumer.go:76-126 | over runs: outside DropOldest nothing leaves an open queue but by a pop |
| `FrameQueues.FirstInFirstOut` | libs/shared/websocket/consumer.go:76-148 | in every run, the frames accepted are those that left, in removal order, followed by those still queued |
| `FrameQueues.FrameQueue.Push` | libs/shared/websocket/consumer.go:76-106 | the ring buffer decides, evicts and releases as the bounded sequence does, in at most two rounds, slots outside the window nil |
| `FrameQueues.FrameQueue.Pop` | libs/shared/websocket/consumer.go:108-126 | the oldest frame leaves and its slot becomes nil |
| `FrameQueues.FrameQueue.Close` | libs/shared/websocket/consumer.go:128-149 | everything queued is released once, in order |
| `FrameQueues.FrameQueue.Len` | libs/shared/websocket/consumer.go:151-156 | the number of queued frames |
| `Wakeups.StepKeepsInv` | libs/shared/websocket/consumer.go:76-148 | every enabled step keeps: sleeping poppers are covered by woken ones for each queued frame, sleeping pushers for each free slot, nobody sleeps after Close |
| `Wakeups.NoLostWakeup` | libs/shared/websocket/consumer.go:76-148 | that holds in every reachable state, for any threads, policy and choice of whom to wake |
| `Wakeups.WokenCanRun` | libs/shared/websocket/consumer.go:76-126 | a woken thread always has an enabled step |
| `Wakeups.SleepersAreServed` | libs/shared/websocket/consumer.go:76-148 | no popper sleeps beside a frame, and no pusher beside a free slot, without another on its way |
| `Wakeups.PushServed` | libs/shared/websocket/consumer.go:76-106 | a pusher, called or woken, is gone with its frame queued, gone refused, or asleep with its frame exactly when the open queue blocks |
| `Wakeups.PopServed` | libs/shared/websocket/consumer.go:108-149 | a popper likewise; Close wakes everybody |
| `Wakeups.CallsPossible` | libs/shared/websocket/consumer.go:76-149 | a thread that is not waiting can push, pop and close in every reachable state |
| `OwnershipRuns.OwnershipHolds` | libs/shared/websocket/frame.go:22-74 | in every interleaving, each counter is the number of claims on its frame and each buffer is in exactly one place |
| `OwnershipRuns.StepKeepsInv` | libs/shared/websocket/router.go:52-107 | each atomic step of routing, delivery, eviction, popping, retaining, releasing, closing and recycling keeps that |
| `OwnershipRuns.StepKeepsPrivate` | libs/shared/websocket/router.go:73-80 | overwriting the counter in `routeShared` is safe, because the routed frame has the reader as its only claim |
| `OwnershipRuns.ClaimedFrameIsIntact` | libs/shared/websocket/frame.go:27-74 | a queued, popped or undelivered frame has its buffer, which is neither pooled nor anyone else's |
| `OwnershipRuns.UsersHaveClaims` | libs/shared/websocket/consumer.go:76-148 | being queued, popped or undelivered is a claim |
| `OwnershipRuns.BufferReturnsOnce` | libs/shared/websocket/frame.go:27-74 | a buffer enters the pool only when nothing claims its frame, and was not there already |
| `OwnershipRuns.LastReleaseRecycles` | libs/shared/websocket/frame.go:27-44 | the release that drops the last claim, and no other, recycles the frame |
| `OwnershipRuns.NothingLeaks` | libs/shared/websocket/frame.go:55-74 | when all claims are gone every buffer and every frame is pooled exactly once |
| `FanOut.OfferExactly` | libs/shared/websocket/router.go:73-96 | offering a frame, shared or copied: an open queue with room has it at its end, an evicting one loses its oldest frame to a release, a closed or refusing one leaves it to be released, and no other queue changes |
| `FanOut.RouteShared` | libs/shared/websocket/router.go:73-80 | over runs, whatever happens in between: the shared frame is offered to every listed consumer exactly once, in list order |
| `FanOut.RouteCopy` | libs/shared/websocket/router.go:82-96 | a copy is offered to every consumer there is on the list, exactly once and in order |
| `FanOut.ReaderGoesOn` | libs/shared/websocket/router.go:52-107 | a reader can always take its next step, except while an open blocking queue is full |
| `FanOut.ConsumersGoOn` | libs/shared/websocket/consumer.go:108-149 | a consumer can always take its oldest frame, which is then its own to release, and close its queue |
| `FanOut.FramesGoOn` | libs/shared/websocket/frame.go:22-74 | retaining adds a claim, releasing passes it on until the counter goes down, and a dead frame gives back its buffer and then itself |
| `FanOut.ReaderKeepsBuffer` | libs/shared/websocket/session.go:286-305 | a reader takes a buffer for its own, or gives it back |
| `FanOut.ReaderMakesFrame` | libs/shared/websocket/frame.go:55-74 | it makes it a frame that only it claims |
| `FanOut.ReaderCopies` | libs/shared/websocket/router.go:98-107 | a copy is such a frame, in a buffer of its own |
| `FanOut.ReaderLetsGo` | libs/shared/websocket/router.go:52-71 | a frame without consumers, or copied for all of them, is released |
| `Outbound.EncodeControl` | libs/shared/websocket/session.go:209-243 | on success the encoder's bytes stand in one buffer out of the pool; on every error path no buffer is missing; panics exactly when the pool has no buffer for it; a deterministic encoder is never too large and fails only by its own error |
| `Outbound.Writer.Enqueue` | libs/shared/websocket/writer.go:98-133 | accepts, refuses, evicts or waits by connection and policy; an evicted frame's buffer goes back, and a caller who waits has changed nothing |
| `Outbound.Writer.Send` | libs/shared/websocket/writer.go:136-147 | queues a copy in a buffer of its own, leaving queued messages intact and no buffer behind but the one in a waiting caller's hand; panics exactly when connected and without memory for the copy |
| `Outbound.Writer.SendControl` | libs/shared/websocket/session.go:179-207 | queues exactly the encoder's bytes, or returns the buffer; an encoded frame is queued, refused or waits exactly as the writer decides; panics exactly as `EncodeControl` does |
| `Outbound.Writer.WriteNext` | libs/shared/websocket/session.go:268-279 | what is written is what was queued first, unchanged, and its buffer goes back |
| `Outbound.Writer.Release` | libs/shared/websocket/writer.go:27-37 | a buffer is returned only while it is out, so never twice |
| `Outbound.Writer.Drain` | libs/shared/websocket/writer.go:160-171 | empties the queue and returns every buffer |
| `Reconnect.SubscribesNext` | libs/shared/websocket/session.go:170-175 | each step of `resubscribe` adds exactly one frame, for the next topic |
| `Reconnect.SessionLoop.Resubscribe` | libs/shared/websocket/session.go:162-177 | marks exactly the desired topics active and queues one frame for each; comes through exactly when all topics encode and their frames fit, and waits for good exactly when a blocking queue overflows before an encoding fails; or a frame that cannot be allocated panics |
| `Reconnect.SessionLoop.Connect` | libs/shared/websocket/session.go:102-143 | unless a frame cannot be allocated, a round enters `runSession` exactly when dial, OnConnect and every encoding succeed and the frames fit; then active equals desired and the queue holds OnConnect's frames and one subscribe frame per desired topic; when it hangs; otherwise nothing is queued and nothing connected |
| `Reconnect.SessionLoop.Run` | libs/shared/websocket/session.go:102-160 | over any sequence of failures and disconnects, every connection starts restored, connections are made in exactly the rounds that succeed, no buffer is lost, and the loop hangs at the latest in the first round whose frames all encode and overfill a blocking queue, and only in one that overfills it, or dies in one with a frame that cannot be allocated |
| `Placement.PlacedPartitions` | libs/shared/websocket/manager.go:190-253 | the invariant means that the desired sets partition the subscribed topics and ids are distinct |
| `Placement.SubscribeKeepsPlaced` | libs/shared/websocket/manager.go:190-223 | first-fit placement keeps it |
| `Placement.UnsubscribeKeepsPlaced` | libs/shared/websocket/manager.go:226-253 | removal with swap-remove of an emptied session keeps it |
| `Placement.PlacementHolds` | libs/shared/websocket/manager.go:350-370 | after every run: partition, 1 to `MaxTopicsPerConn` topics each, and between ceil(n/max) and ceil(peak/max) sessions |
| `Placement.SubscribeOnlyIsTight` | libs/shared/websocket/manager.go:350-360 | subscribe-only runs open exactly ceil(n/max) sessions |
| `Managers.Subscriptions.Add` | libs/shared/websocket/subscriptions.go:27-35 | adds the topic and tells whether it was new |
| `Managers.Subscriptions.Remove` | libs/shared/websocket/subscriptions.go:39-48 | forgets it in both sets, only if it was desired |
| `Managers.Subscriptions.Desired` | libs/shared/websocket/subscriptions.go:67-79 | lists every desired topic once |
| `Managers.Manager.PickSession` | libs/shared/websocket/manager.go:350-360 | the first session with room, or a new one with the next id |
| `Managers.Manager.RemoveSession` | libs/shared/websocket/manager.go:362-370 | the last session takes the removed one's place |
| `Managers.Manager.Run` | libs/shared/websocket/manager.go:160-176 | refused when running, otherwise every session is started |
| `Managers.Manager.Subscribe` | libs/shared/websocket/manager.go:190-223 | refuses known topics and a finished context, otherwise places the topic by first fit, starts its session under a running manager and no other, and keeps the topic even if its frame could not be sent |
| `Managers.Manager.Unsubscribe` | libs/shared/websocket/manager.go:226-253 | removes the topic, its consumers, and its session with the last topic, whatever the encoder answers; cancels that session exactly when it was started and, if connected, the frame was sent |
| `Managers.Manager.AddConsumer` | libs/shared/websocket/manager.go:256-268 | lists the consumer exactly for subscribed topics |
| `Managers.Manager.RemoveConsumer` | libs/shared/websocket/manager.go:271-283 | the counterpart |
| `Routers.AddReceives` | libs/shared/websocket/router.go:109-119 | adds one receiver of one topic and keeps lists free of duplicates |
| `Routers.RemoveForgets` | libs/shared/websocket/router.go:121-137 | swap-remove takes away that receiver only |
| `Routers.ListOrder` | libs/shared/websocket/router.go:109-137 | a new consumer stands last; a removed one leaves its place to the last |
| `Routers.Router.AddConsumer` | libs/shared/websocket/router.go:109-119 | in place, as the function says |
| `Routers.Router.RemoveConsumer` | libs/shared/websocket/router.go:121-137 | in place, dropping an emptied list |
| `BtccCodec.Codec.Register` | bundle/internal/ingest/btcc/codec.go:112-134 | refused exactly for unknown topics and empty markets, otherwise entered in all tables |
| `BtccCodec.Codec.Unregister` | bundle/internal/ingest/btcc/codec.go:137-153 | removes the id and what stands under the hash of its market |
| `BtccCodec.Codec.DecodeTopic` | bundle/internal/ingest/btcc/codec.go:156-187 | auth acknowledgement first, then method, params and lookup, with every miss, and the panic of a slice past the buffer |
| `BtccCodec.Codec.EncodeSubscribe` | bundle/internal/ingest/btcc/codec.go:190-213 | the auth request for the auth topic, an error exactly for unknown topics, otherwise the request for id and market |
| `BtccCodec.Codec.EncodeUnsubscribe` | bundle/internal/ingest/btcc/codec.go:216-239 | nothing to say for the auth topic, an error for exactly the same unknown topics, otherwise the request |
| `BtccCodec.SubscribeCarriesId` | bundle/internal/ingest/btcc/codec.go:190-213 | a subscribe request carries its topic id where the field scanner finds it |
| `Requests.SubscribeAsks` | bundle/internal/ingest/btcc/codec.go:190-213 | for every market that can stand in a JSON string, a subscribe request is the text of a valid JSON object whose scanned method is `depth.subscribe` or `order.subscribe` by kind, whose first parameter is the market, with 20 and `0.00000001` behind it for depth alone |
| `Requests.UnsubscribeAsks` | bundle/internal/ingest/btcc/codec.go:216-239 | an unsubscribe request likewise, with its own two methods and the market as single parameter |
| `Requests.RegisteredAsks` | bundle/internal/ingest/btcc/codec.go:112-239 | both requests of an id just registered are those of its topic and market |
| `Requests.EncodesExactly` | bundle/internal/ingest/btcc/codec.go:190-239 | the authentication topic has a request of its own and needs no unsubscribe; the codec refuses an id if and only if it is another one and unknown |
| `Requests.AnswerDecodes` | bundle/internal/ingest/btcc/codec.go:289-309 | a payload decodes to the authentication topic if it has the request id and its status, or without a status its result, is `success`; every other one decodes as without authentication |
| `Requests.StatusDecides` | bundle/internal/ingest/btcc/codec.go:302-304 | of printed answers with a status in front of any text, that text decides |
| `Requests.ResultDecides` | bundle/internal/ingest/btcc/codec.go:305-308 | and the result when there is no status |
| `BtccCodec.HashBytes` | bundle/internal/ingest/btcc/payload.go:743-752 | 64-bit FNV-1a over the bytes |
| `Fields.HashOfEmpty` | bundle/internal/ingest/btcc/payload.go:743-751 | the FNV offset for the empty text |
| `Fields.HashNext` | bundle/internal/ingest/btcc/payload.go:743-751 | one byte more: exclusive-or of every bit, times the FNV prime, modulo 2^64 |
| `BtccCodec.RegisterKeepsConsistentExactly` | bundle/internal/ingest/btcc/codec.go:112-134 | in a consistent state, registering keeps the lookup tables the exact inverse of the registered topics if and only if the id is new or registered for this market already, and no other id has the market |
| `BtccCodec.RegisterKeepsConsistent` | bundle/internal/ingest/btcc/codec.go:112-134 | in particular under the discipline of `UpdatesResolve`, refused registrations included |
| `BtccCodec.UnregisterKeepsConsistent` | bundle/internal/ingest/btcc/codec.go:137-153 | the same for removal |
| `BtccCodec.LookupExact` | bundle/internal/ingest/btcc/codec.go:248-260 | a lookup finds an id exactly if the market is registered under it |
| `BtccCodec.DepthUpdateLooksUp` | bundle/internal/ingest/btcc/codec.go:168-173 | a depth update decodes to the lookup of the market printed as its third parameter |
| `BtccCodec.OrderUpdateLooksUp` | bundle/internal/ingest/btcc/codec.go:174-183 | an order update decodes to the lookup of the market inside its second parameter |
| `Fields.DecodesExactly` | bundle/internal/ingest/btcc/codec.go:156-187 | without authentication a payload decodes to an id if and only if it is an update, of a market looked up as this id |
| `SentUpdates.SentDepthUpdate` | bundle/internal/ingest/btcc/codec.go:168-173 | every printed depth message, with any elements and any text behind it, is such an update |
| `SentUpdates.SentOrderUpdate` | bundle/internal/ingest/btcc/codec.go:174-183 | so is every printed order message whose object has a market member and no earlier `"market"` in its text |
| `BtccCodec.DecodePanicsExactly` | bundle/internal/ingest/btcc/codec.go:156-187 | `DecodeTopic` panics if and only if the payload fills its buffer, is no acknowledgement, and breaks off behind an unpaired backslash in the parameter its method looks at |
| `BtccCodec.CutOffOrder` | bundle/internal/ingest/btcc/codec.go:174-183 | an order update that breaks off so, behind its market, is looked up with a byte to spare and panics without |
| `SentUpdates.BrokenDepthPanics` | bundle/internal/ingest/btcc/codec.go:168-173 | every depth message that breaks off in its third parameter, behind any two elements, panics when it fills its buffer |
| `SentUpdates.BrokenOrderPanics` | bundle/internal/ingest/btcc/codec.go:174-183 | so does every order message that breaks off in its second one |
| `SentUpdates.OnePanics` | bundle/internal/ingest/btcc/payload.go:449-462 | one such payload, byte by byte |
| `SentUpdates.CutOrderIsLookedUp` | bundle/internal/ingest/btcc/codec.go:174-183 | an order message cut off in its object behind any market is looked up with a byte to spare and panics without |
| `BtccCodec.UpdatesResolve` | bundle/internal/ingest/btcc/codec.go:112-187 | after every run that registers no market twice, updates decode to exactly the registered id, and to none if there is none |
| `BtccCodec.DoubleRegistrationBreaks` | bundle/internal/ingest/btcc/codec.go:137-153 | a reachable failing run for every market: removing one of its two ids hides the other |
| `Groups.StepAgrees` | bundle/internal/ingest/usecase.go:85-160 | every call, successful or failing, keeps use case, codec, manager and router in agreement |
| `Groups.LayersAgree` | bundle/internal/ingest/usecase.go:85-160 | after every polite run the maps are inverse, every id is registered and subscribed, reference counts are the lengths of the router's consumer lists, and exactly those who subscribed and did not leave receive frames |
| `Groups.OrderlyExactly` | bundle/internal/ingest/usecase.go:105-158 | a call keeps the counts right and everyone else served if and only if nobody subscribes twice or leaves unsubscribed |
| `Groups.DoubleSubscribeMiscounts` | bundle/internal/ingest/usecase.go:105-112 | a reachable failing run: the same consumer twice is counted twice and listed once |
| `Groups.StepLeaks` | bundle/internal/ingest/usecase.go:337-340 | a topic is left behind in the manager exactly when its subscribe frame could not be sent, and is never taken back |
| `Groups.ReconnectsExactly` | bundle/internal/ingest/btcc/codec.go:190-213 | a session can encode all its topics, as every reconnect needs, exactly when none of them was left behind |
| `Groups.StepAuthApart` | bundle/internal/ingest/usecase.go:192-226 | the id drawn for authentication is never a subscribed topic |
| `Recovery.RoundSucceedsExactly` | libs/shared/websocket/session.go:111-145 | a round that reaches the exchange enters `runSession` exactly when none of the session's topics was left behind |
| `Recovery.LeakedSessionNeverConnects` | libs/shared/websocket/session.go:102-160 | a session with a topic left behind never gets there again, in any sequence of rounds |
| `Recovery.LeakedForGood` | libs/shared/websocket/session.go:102-160 | nor with any calls of the use case between the rounds |
| `Recovery.UnsubscribesOnlyWhatStays` | bundle/internal/ingest/usecase.go:150-158 | in every state of agreement, after every call, the codec can encode the unsubscribe frame of a topic there was if and only if the topic is still there |
| `Groups.FailedSendBlocksReconnect` | bundle/internal/ingest/usecase.go:316-353 | after any run, all sessions can reconnect if and only if no subscribe failed to be sent |
| `Groups.FailedSendLeaks` | bundle/internal/ingest/usecase.go:337-340 | a reachable failing run of one call |
| `Groups.StepConsistent` | bundle/internal/ingest/usecase.go:316-353 | the use case never registers a market twice, so the codec's tables stay exact through failed subscribes too |
| `Groups.UpdatesReachSubscribers` | bundle/internal/ingest/usecase.go:85-179 | from payload to consumers: an update decodes to an id exactly when somebody is subscribed to its topic and market, the id resolves to them, and its frames go to exactly the subscribers |
| `Replies.SubscribeReplies` | bundle/internal/ingest/usecase.go:85-114 | in every state of agreement, when a subscribe succeeds, and which of its failures is reported, if and only if |
| `Replies.UnsubscribeReplies` | bundle/internal/ingest/usecase.go:117-160 | the same for an unsubscribe |
| `Replies.MarketOfSymbol` | libs/adapter/symbol.go:75-107 | the market is base and quote in a row |
| `Replies.IdsAreDrawn` | bundle/internal/ingest/usecase.go:316-335 | one id for each attempt at a topic the group does not have, and for no other call |
| `Replies.StepResolves` | bundle/internal/ingest/usecase.go:164-179 | what an id resolves to is set by the call that introduces it and stays until the unsubscribe that drops the topic |
| `Replies.SymbolIsTheIntroducers` | bundle/internal/ingest/usecase.go:164-179 | after every run, each id resolves to the topic and the symbol, base and quote apart, of the call of that run which introduced it |
| `Usecases.WsGroup.EnsureTopic` | bundle/internal/ingest/usecase.go:316-353 | in place: an existing topic is found; a new one is registered and subscribed, or undone in the codec, by the manager's answer |
| `Usecases.WsGroup.Subscribe` | bundle/internal/ingest/usecase.go:85-114 | in place over both maps, codec, manager and router, with the reply of each failure |
| `Usecases.WsGroup.Unsubscribe` | bundle/internal/ingest/usecase.go:117-160 | in place, dropping the topic with its last reference |
| `Usecases.WsGroup.Retire` | bundle/internal/ingest/usecase.go:155-158 | the calls on codec and manager for a dropped topic; its session, if connected, is not stopped |
| `Usecases.WsGroup.ResolveTopic` | bundle/internal/ingest/usecase.go:164-179 | topic and symbol of a known id, none otherwise |
| `Scan.IndexOfFrom` | libs/shared/scanner/bytes.go:60-74 | the first occurrence of the key, or -1 exactly when there is none |
| `Scan.ScanStringField` | libs/shared/scanner/bytes.go:30-58 | the text between the quotes of the value behind the first occurrence of the key |
| `Scan.ScanUintField` | libs/shared/scanner/bytes.go:3-28 | the digits behind the key, modulo 2^64 |
| `Fields.StringFieldFound` | libs/shared/scanner/bytes.go:30-58 | the string scanner finds a text if and only if the first occurrence of the key is followed by a colon, whitespace and that text in quotes |
| `Fields.UintFieldFound` | libs/shared/scanner/bytes.go:3-28 | the number scanner finds a number if and only if a run of digits stands there that denotes it modulo 2^64 |
| `Skipper.SkipString` | bundle/internal/ingest/btcc/payload.go:449-462 | ends behind the first quote that no backslash escapes |
| `Skipper.SkipNested` | bundle/internal/ingest/btcc/payload.go:464-500 | counts one kind of bracket outside strings |
| `Skipper.SkipValue` | bundle/internal/ingest/btcc/payload.go:425-447 | dispatches on the first byte, scalars up to a delimiter |
| `Skipper.OverValue` | bundle/internal/ingest/btcc/payload.go:464-500 | counting only one kind of bracket passes over any JSON value and is back at its depth |
| `Skipper.ValueEndExact` | bundle/internal/ingest/btcc/payload.go:425-500 | on every JSON value with any nesting, escapes and whitespace, before a delimiter, the skipper stops at the value's end |
| `Params.ScanParamsValue` | bundle/internal/ingest/btcc/payload.go:350-391 | the element loop in place |
| `Params.ParamsValueExact` | bundle/internal/ingest/btcc/payload.go:350-391 | on a params array it yields exactly the text of the element asked for, and nothing past the last |
| `Params.ScanParamsString` | bundle/internal/ingest/btcc/payload.go:393-415 | the same for strings, in place |
| `Params.ParamsStringExact` | bundle/internal/ingest/btcc/payload.go:393-415 | a string element comes out as what stands between its quotes, escapes untouched |
| `Fields.NoStringParam` | bundle/internal/ingest/btcc/payload.go:393-415 | any other element, or none, gives no string |
| `Fields.UnquotedExactly` | bundle/internal/ingest/btcc/payload.go:393-415 | of any text taken, a string comes out if and only if string items between two quotes stand at the beginning of it, behind whitespace |
| `Fields.TrimExactly` | bundle/internal/ingest/btcc/payload.go:509-519 | trimming takes away the whitespace at both ends and nothing else |
| `Fields.ScalarStops` | bundle/internal/ingest/btcc/payload.go:437-446 | a scalar ends at the first comma or closing bracket, whatever it is made of |
| `Fields.ParamsNeedArray` | bundle/internal/ingest/btcc/payload.go:350-371 | nothing is found without an opening bracket behind the first `"params"` |
| `Truncation.StringBreaksOff` | bundle/internal/ingest/btcc/payload.go:449-462 | for every text: the string skipper runs past the end if and only if what is left is string items and one unpaired backslash |
| `Truncation.NestedBreaksOff` | bundle/internal/ingest/btcc/payload.go:464-500 | the bracket counters do if and only if the brackets stay open up to a string that breaks off so |
| `Truncation.ValueBreaksOff` | bundle/internal/ingest/btcc/payload.go:425-447 | the same for the whole skipper |
| `Truncation.ParamsPanicExactly` | bundle/internal/ingest/btcc/payload.go:350-391 | `scanParamsValue` panics if and only if the element asked for breaks off and the payload fills its buffer; with a byte to spare it is taken in, and otherwise the buffer does not matter |
| `Truncation.BrokenParamsExact` | bundle/internal/ingest/btcc/payload.go:350-391 | behind any complete elements, which come out exactly, a broken one reaches past the payload, and nothing comes after it |
| `Decimals.AppendUint` | bundle/internal/ingest/btcc/payload.go:754-766 | prints every uint64 within its 20 bytes |
| `Decimals.DigitsValue` | bundle/internal/ingest/btcc/payload.go:754-766 | the printed digits mean the number |
| `DecimalForms.DigitsStart` | bundle/internal/ingest/btcc/payload.go:754-766 | without a leading zero |
| `Decimals.UintRoundTrip` | libs/shared/scanner/bytes.go:3-28 | what is printed behind a key scans back to the same uint64, whatever follows the digits |
| `Decimals.Power` | bundle/internal/ingest/binance/payload.go:393-399 | the power of ten, refused exactly above 18 |
| `Decimals.ParseDecimal` | bundle/internal/ingest/binance/payload.go:351-409 | one pass over the text with its overflow checks, proved against the parts of the text |
| `Decimals.MagnitudeDropsDot` | bundle/internal/ingest/binance/payload.go:363-404 | the value computed is that of the digits with the dot left out |
| `DecimalLaws.ParseExact` | bundle/internal/ingest/binance/payload.go:351-409 | when the digits without the dot fit int64, parsing succeeds exactly up to 18 fraction digits and denotes exactly the number |
| `DecimalLaws.ParseDenotes` | bundle/internal/ingest/binance/payload.go:400-407 | an accepted text denotes its number if and only if the sum stays in int64, or is 2^63 behind a minus sign |
| `DecimalLaws.ParseWraps` | bundle/internal/ingest/binance/payload.go:400-403 | a positive text that is accepted and comes out negative |
| `DecimalForms.WellFormedExactly` | bundle/internal/ingest/binance/payload.go:351-409 | the texts with the right characters are a minus sign or none, digits, and perhaps a dot and digits, except the empty text; no others |
| `DecimalForms.ParseOfWritten` | bundle/internal/ingest/binance/payload.go:351-409 | which of these are accepted, if and only if, and the decimal they give |
| `DecimalLaws.RescaleDecimal` | bundle/internal/ingest/binance/payload.go:427-442 | succeeds exactly when power of ten and product are in range |
| `DecimalForms.RescalableExactly` | bundle/internal/ingest/binance/payload.go:427-442 | that is, up to 18 places and up to 2^63-1 in magnitude |
| `DecimalLaws.RescaledValue` | bundle/internal/ingest/binance/payload.go:427-442 | rescaling does not change the number |
| `DecimalLaws.DecimalSub` | bundle/internal/ingest/binance/payload.go:411-425 | in place of both operands' common scale, with its zero answers |
| `DecimalLaws.SubDenotes` | bundle/internal/ingest/binance/payload.go:411-425 | denotes the difference if and only if both sides rescale and the difference fits, or the numbers are equal |
| `DecimalLaws.SubLoses` | bundle/internal/ingest/binance/payload.go:411-425 | a failing input: the largest integer minus 0.1 comes out as zero |
| `DecimalLaws.SubExact` | bundle/internal/ingest/binance/payload.go:411-425 | exact and without overflow for non-negative decimals that rescale |
| `DecimalText.AppendScaledInt` | libs/adapter/common.go:22-56 | sign, digits and dot, with padding, for every int64 and scale |
| `DecimalText.PrintParse` | libs/adapter/common.go:18-56 | printing and parsing are inverse if and only if the scale is 0 to 18 and the decimal is not the smallest integer at scale 0 |
| `DecimalText.PrintDenotes` | libs/adapter/common.go:22-56 | the printed text spells exactly the decimal, at every scale from 0 up |
| `DecimalForms.PrintWhole` | libs/adapter/common.go:22-30 | at no or a negative scale the integer alone |
| `DepthLadder.ScanNextString` | bundle/internal/ingest/binance/payload.go:238-258 | the text between the next two quotes |
| `DepthLadder.ScanDepthSide` | bundle/internal/ingest/binance/payload.go:177-236 | fills the caller's array from the front and leaves the rest of it alone |
| `DepthLadder.LadderExact` | bundle/internal/ingest/binance/payload.go:177-258 | on every ladder it yields exactly the rows in order, up to the room there is or the first text that is no decimal |
| `DepthLadder.LadderReadsBack` | bundle/internal/ingest/binance/payload.go:177-258 | a ladder of printed decimals comes back exactly, its first min(n, rows) rows |
| `BadLadders.RowTakesFour` | bundle/internal/ingest/binance/payload.go:238-258 | a row is read if and only if four quotes are left |
| `BadLadders.BrokenRowFails` | bundle/internal/ingest/binance/payload.go:205-217 | otherwise the scan fails with exactly the rows before it |
| `BadLadders.OpenRowIsLast` | bundle/internal/ingest/binance/payload.go:209-234 | a row without a bracket behind it is taken, and is the last |
| `BadLadders.JunkIsPassed` | bundle/internal/ingest/binance/payload.go:205-208 | a byte that is neither bracket is passed over |
| `BadLadders.OpenListEnds` | bundle/internal/ingest/binance/payload.go:198-204 | a ladder that breaks off between rows ends well |
| `BadLadders.NoListNoLadder` | bundle/internal/ingest/binance/payload.go:177-195 | without a list behind the first occurrence of the key there are no rows |

## Left out

- Sockets, TLS, the HTTP handshake, SHA-1 and base64, deadlines, tickers and
  signals: the byte stream is a sequence, dial outcomes and lost connections are
  parameters.
- Write errors of a connection and the write lock that interleaves pongs with data
  frames: a pong is sent when its ping is read.
- `seedMask`: every non-zero start of the mask generator is covered, and pong keys
  are whatever the generator gives.
- Two branches that cannot be taken: `Read`'s own length check on control frames,
  which `readHeader` has already made, and `Get`'s check of a pooled buffer's
  capacity, which its bucket guarantees.
- GrowingIsInvisible: one direction; `GrowingReader.GrowingIsInvisibleExactly` has
  both.
- Allocation outside the buffer pool, such as the copy a stash makes, always succeeds.
  The largest size that can be allocated is a parameter, `Memory`; sizes below it are
  always to be had.
- GrowingReader.TooLargeMessageEndsRun: like everything about `Loop`, it leaves memory
  aside; `Exhaustion` says what becomes of it.
- SessionReaders.SessionReader.ReadLoop: no free buffer is larger than what can be
  allocated, since it has been allocated.
- Reconnect.SessionLoop.Connect: a panic needs a frame that cannot be allocated; the
  converse is not stated, as a free buffer may spare the allocation.
- StreamIsDelivered: streams in which a new data opcode appears inside a message are
  not in its grammar; the code accepts them, and `StashIsTransparent` and
  `GrowingIsInvisible` cover them.
- ParamsValueExact: speaks of payloads that hold a whole params array; the others
  are in `Truncation`. `Got` with a stale byte stands for whatever byte the buffer
  holds there, which is a parameter.
- UpdatesResolve: needs the markets in play to have different FNV hashes, since the
  code compares hashes only. `Groups.UpdatesReachSubscribers` needs the same.
- LayersAgree: for calls one after another. The use case's calls are not atomic
  across layers, so it says nothing about two of them interleaved.
- Usecases.WsGroup.Subscribe: its contract does not name the objects it adds as new;
  runs of calls are stated on the values in `Groups`.
- Nil receivers, nil consumers and unknown platforms, which every call refuses at
  once.
- Managers.Manager.Subscribe: session ids are unbounded, as if the 64-bit counter
  never wrapped; the topic counter of `Usecases` likewise stands for 32 bits.
- Managers.Manager.Unsubscribe: `Stop` records the call of `cancel`; that the
  session's goroutine then ends, and clears `running`, is not modelled.
- Reconnect.SessionLoop.Run: no subscribe and no outside `Send` during the loop, and no
  OnDisconnect callback; cancellation is the end of the given rounds.
- Outbound.Writer.Enqueue: sequential. The give-up branch of DropOldest, which needs
  another goroutine to empty the queue in between, is not reached. Frame objects
  are values, so only their buffers are tracked.
- OwnershipRuns.OwnershipHolds: buffers and frames are numbers; consumers release each
  popped or retained frame once, as the source demands of them.
- FanOut.RouteCopy: frames are numbers here, so it does not say that a copy holds the
  bytes, topic and time of its original; a router without a frame pool, which copies
  nothing, is not modelled.
- Wakeups.NoLostWakeup: a safety property with the next step always enabled; it
  assumes nothing about the fairness of the scheduler.
- `sort.Ints`, `sort.SearchInts`, `strconv.AppendInt` and `strconv.AppendUint` are
  given by what they compute; `sync.Pool` may hand out any buffer it holds or a new
  one.
- The text of the auth request and its hash, Binance's codec (its depth and order
  topics share one lookup entry), and the several groups of a use case
  beyond the ids they draw from the common counter.
- The BTCC ladder, `scanNumberField`, JSON timestamps and backoff, which use floats
  or do not skip the comma between price and quantity.
- Binance's `scanUintField` and `scanStringField`, which retry at a later key.
- Order delegator, order worker, UDS, Postgres, metrics, `main` programs, and the
  generated and `unsafe` codecs.
