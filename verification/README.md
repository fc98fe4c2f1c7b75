# Verification model of the AppGL Metal backend

This project models six pieces of logic of the repository and proves what they are for.

- **Command-buffer submission** (`SubmissionProtocol`, `SubmissionSafety`, `DrainProgress`, `CommitWait`,
  `CallsAlone`, `CompletionOrder`, `BusyStamp`, `RetainedLedger`, `LedgerHistory`, `CommandBufferLease`).  A bounded
  semaphore, an in-flight counter, move-only leases, completion handlers and drains as a step system over single
  atomic operations, for any number of threads; when a drain or a wait can still end; what each call does as a whole;
  what the submitted and completed counts may be used for; the retained-object ledgers as a second step system, down
  to the attempts of compare-exchange loops; and the lease objects themselves as classes with shared references,
  where aliasing after a commit shows.
- **S3TC encoder** (`Numerals`, `S3TCColor`, `S3TCAlpha`, `BlockLayout`, `S3TCImage`).  The encoder writes its
  buffers in place and is proved against pure functions; those are proved against the decoder of the same
  repository: round trips, projections, tight error bounds, nearest colours, layout, padding and punch-through.
- **Residency classification and heap bucketing** (`ResidencyClasses`, `HeapSegmentation`, `HeapSummary`).  The
  streaming, truncating group-by equals grouping and counting the whole record sequence at once.
- **Memory pressure** (`MemoryPressure`).  The four-state machine equals three Schmitt triggers, exactly when its
  watermarks allow it, and does not chatter over runs of any length.
- **Coverage store** (`CoverageLattice` in `CoverageStore.dfy`, `CoverageInterleaving`, `CoverageProgress`,
  `CoverageVersion`).  Every interleaving of marks with the lock-free fast path equals a sequential execution that
  always takes the lock, and every mark can return.
- **Mip arithmetic** (`MipLevels`).  The shift loop and the level sizes against section 8.14.3 of the OpenGL 4.6
  specification.

`dafny verify dfyconfig.toml` checks everything.

## Where the code differs from what is said about it

- The constant-zero DXT5 tile is meant to hold index 6 sixteen times (src/context/S3TCEncode.h:208-212).  The fill
  byte 0xdb is not that 3-bit stream: four texels decode to full opacity.  The model follows the code;
  `S3TCAlpha.AlphaProjectionIff` says for exactly which tiles encoding is a projection.
- A lease keeps its reference to the record of retained objects after its commit
  (src/context/MetalCommandSubmission.h:74-83).  What is adopted through it before the completion handler has released
  the record is released; what is adopted afterwards never is.  `CommandBufferLease.Lifecycle` gives the exact leak
  of one life, `RetainedLedger.QuiescentBalance` that of every interleaving.
  A caller that adopts only before the commit is always safe.
- The completed count is called a valid busy test because the queue is serial
  (src/context/MetalCommandSubmission.h:603-606).  A first-in first-out queue is not enough: the test is exact if and
  only if no commit is enqueued while one recorded earlier is still between recordSubmitted and the Metal commit
  (`CompletionOrder.ExactIffNoOvertaking`).  `CompletionOrder.OverlappingCommitsBreakWatermark` is a run that does it;
  one commit at a time is enough to exclude it (`CompletionOrder.CommitsApartSuffice`).
- The ordinal stamped on a buffer bound for the open command buffer (src/context/MetalFrameGraph.mm:20192-20202, read
  in src/context/GLContext.mm:23785-23790) is that of the open command buffer if and only if no other one is recorded
  as submitted first (`BusyStamp.StampIff`).  `BusyStamp.StampMisleads` is a run in which it is not.
- Two overlapping drains can each hold permits and wait for the other, with nothing in flight
  (src/context/MetalCommandSubmission.h:743-748); only the timeout ends this.  `DrainProgress.CanSucceedIff` says that
  it is the only obstacle to a drain.

## Reading the model

- A step system has a total function `Next`; a disabled action leaves the state as it is.  Theorems quantify over
  all sequences of actions.  Timeouts, failed allocations and spurious exchange failures are the argument `ok` of a
  step.  Interleavings are sequentially consistent.
- The bitwise or of disjoint bits is addition, and shifts are multiplication and division.
- Bytes, 565 codes, index words and 64-bit ratios are bounded as in the source; diagnostic counters are unbounded.
- Class methods state the new state through specification functions; the lemmas about those functions carry the
  properties.

## Model

| member | source | states |
|---|---|---|
| `SubmissionProtocol.Conservation` | src/context/MetalCommandSubmission.h:816-879 | In every interleaving of any number of threads, leases, handlers and drains, six laws balance: permits, in-flight tokens, outstanding submissions, and the holder of each token, each retained record and each submission |
| `SubmissionSafety.AssertionsNeverFire` | src/context/MetalCommandSubmission.h:494-510 | No assertion about the bound, a double release or an underflow fails in any run, the nil-buffer path included |
| `SubmissionSafety.CountersBounded` | src/context/MetalCommandSubmission.h:607-616 | semaphore + inFlight + permits held part-way through a call = bound; 0 <= submitted - completed <= inFlight <= bound; 0 <= semaphore <= bound |
| `SubmissionSafety.NothingLeaks` | src/context/MetalCommandSubmission.h:36-69 | Once every call, handler and lease is at rest, all permits are back and every token, record and submission is done |
| `SubmissionSafety.ExclusiveOwnership` | src/context/MetalCommandSubmission.h:115-152 | Each unreleased token, unreleased record and incomplete submission has exactly one holder, each released one none |
| `SubmissionSafety.ReleasedExactlyOnce` | src/context/MetalCommandSubmission.h:494-510 | Over a whole run the releasing exchange on a token is executed once if the token is released, and never otherwise |
| `SubmissionSafety.SecondCallIsNoOp` | src/context/MetalCommandSubmission.h:55-69 | A commit or abandon of a lease that no longer owns a token changes no token, counter or permit |
| `SubmissionSafety.CommitAndWaitIsLast` | src/context/MetalCommandSubmission.h:1113-1125 | When commitAndWait sees its semaphore signalled, that token and that record have been released |
| `CommitWait.NoWaitIsForgotten` | src/context/MetalCommandSubmission.h:1113-1140 | In every reachable state what a commitAndWait waits for has been signalled, or a handler that will signal it is still there |
| `CommitWait.WaitEndsAfterHandler` | src/context/MetalCommandSubmission.h:1113-1140 | Once that handler is gone, the wait ends at its next step and the lease keeps its fields |
| `CommitWait.WaitCanReturn` | src/context/MetalCommandSubmission.h:1113-1140 | From every reachable state a wait can return without a timeout, and then token and record of that command buffer have been released |
| `SubmissionSafety.DrainSawPipelineEmpty` | src/context/MetalCommandSubmission.h:723-752 | A drain that returns true, early or from its loop, had an instant inside the call with nothing in flight and every token acquired before the call released, with other drains and allocations running; from its loop, with every permit in its hands |
| `SubmissionSafety.RecordedDrainAcquires` | src/context/MetalCommandSubmission.h:728-731 | A drain that is to be recorded when idle never returns early, in any continuation of any run |
| `SubmissionSafety.DrainReturnsWhatItTook` | src/context/MetalCommandSubmission.h:736-751 | On success and on timeout a drain signals as often as it waited successfully; it reports success iff it took every permit |
| `DrainProgress.CanSucceedIff` | src/context/MetalCommandSubmission.h:740-752 | In every reachable state a drain that waits for permits can still succeed without a timeout iff at most one waiting drain holds any: leases in use, completions and failed allocations are no obstacle |
| `DrainProgress.TwoHoldersBlock` | src/context/MetalCommandSubmission.h:743-748 | Two waiting drains that each hold a permit stay where they are, whatever happens short of a timeout, and so does every other waiting drain |
| `DrainProgress.TwoDrainsBlock` | src/context/MetalCommandSubmission.h:743-748 | For every bound of at least 2 such a state is reached with nothing in flight |
| `DrainProgress.SmallBoundNeverBlocks` | src/context/MetalCommandSubmission.h:743-748 | With a bound of 0 or 1 a waiting drain can always succeed |
| `DrainProgress.TimeoutUnblocks` | src/context/MetalCommandSubmission.h:744-751 | When two waiting drains hold permits, a timeout of one lets the other succeed |
| `CallsAlone.MakeAlone` | src/context/MetalCommandSubmission.h:816-879 | Uninterrupted, a make call that times out returns an empty lease and changes nothing; with a permit and a buffer it returns a live lease of a fresh token for one permit and one count |
| `CallsAlone.NilBufferAlone` | src/context/MetalCommandSubmission.h:850-855 | Uninterrupted, a nil command buffer gives permit and count back and the lease is empty |
| `CallsAlone.AbandonAlone` | src/context/MetalCommandSubmission.h:55-69 | Uninterrupted, abandon and the destructor give back permit, count, token and record of a live lease and nothing of any other |
| `CallsAlone.MoveAssignAlone` | src/context/MetalCommandSubmission.h:40-46 | Uninterrupted, the target gives back what it held and then has all fields of the source, which is empty |
| `CallsAlone.MoveConstructAlone` | src/context/MetalCommandSubmission.h:282-294 | The new lease has all fields of the source, which is empty; nothing else changes |
| `CallsAlone.CommitAlone` | src/context/MetalCommandSubmission.h:115-152 | Uninterrupted, a commit records one submission and starts the one handler that will complete it and release that token; commitAndWait then waits for it |
| `CallsAlone.HandlerAlone` | src/context/MetalCommandSubmission.h:131-140 | Uninterrupted, a handler counts one completion, gives back one permit and one count, releases token and record, and signals done if it is waited for |
| `CallsAlone.DrainAlone` | src/context/MetalCommandSubmission.h:723-752 | Uninterrupted, a drain returns true at once iff it need not be recorded and nothing is in flight; otherwise it takes what permits there are, reports whether those are all, and gives them back |
| `CompletionOrder.WatermarkIffInOrder` | src/context/MetalCommandSubmission.h:392-400 | A completion count answers "has submission k completed" for every k iff completions arrived in submission order |
| `CompletionOrder.BusyTestIffInOrder` | src/context/MetalCommandSubmission.h:607-616 | The same on the counters of every run of the protocol |
| `CompletionOrder.SerialQueueKeepsOrder` | src/context/MetalCommandSubmission.h:604-606 | On a first-in first-out queue the busy test is exact in every state of a run in which no commit is enqueued while one recorded earlier is not |
| `CompletionOrder.CommitsApartSuffice` | src/context/MetalCommandSubmission.h:130-146 | If no two commits are between recordSubmitted and commit at once, no enqueue overtakes |
| `CompletionOrder.OvertakingBreaks` | src/context/MetalCommandSubmission.h:130-146 | After any enqueue that overtakes, completing what is queued, oldest first, leads to a state in which the busy test is wrong |
| `CompletionOrder.ExactIffNoOvertaking` | src/context/MetalCommandSubmission.h:604-616 | On a first-in first-out queue the busy test is exact at every point of a run, and whatever the queue completes from there, iff no enqueue of the run overtakes |
| `CompletionOrder.OverlappingCommitsBreakWatermark` | src/context/MetalCommandSubmission.h:130-146 | A concrete run of a first-in first-out queue: two overlapping commits, the later one is enqueued first and completes, and its completion is attributed to the other |
| `BusyStamp.OnlyRecordingCounts` | src/context/MetalCommandSubmission.h:392-400 | submittedCount moves by one at each recordSubmitted and by nothing else |
| `BusyStamp.CompleteUpTo` | src/context/MetalCommandSubmission.h:604-606 | From any orderly state the submissions can be completed in order up to any one of them |
| `BusyStamp.StampIff` | src/context/MetalFrameGraph.mm:20192-20202 | A stamp submittedCount() + 1 tells, in every orderly continuation, exactly whether the command buffer open at the stamp has completed, iff no other one is recorded as submitted in between |
| `BusyStamp.StampMisleads` | src/context/MetalFrameGraph.mm:20192-20202 | A concrete orderly run: another submission is recorded and completes after the stamp, the stamp is reached, and the stamped command buffer has not been enqueued |
| `RetainedLedger.Conservation` | src/context/MetalCommandSubmission.h:303-390 | In every interleaving of single atomics and compare-exchange attempts, live and adopted - released equal what the records hold minus what is still to be done |
| `RetainedLedger.SubtractNeverClamps` | src/context/MetalCommandSubmission.h:310-324 | boundedSubtract always sees, and replaces, at least the amount: its clamp to 0 is never taken |
| `RetainedLedger.QuiescentBalance` | src/context/MetalCommandSubmission.h:326-390 | With no call part-way through, live is the content of the unreleased records plus what was adopted into records after their release, and adopted = released + live, for objects, bytes and command buffers |
| `RetainedLedger.LateIsHeld` | src/context/MetalCommandSubmission.h:74-83 | In every run what was adopted into released records is still in them: nothing ever releases it |
| `RetainedLedger.NothingLiveIffNoneLate` | src/context/MetalCommandSubmission.h:355-390 | Once every record has been released, with no call part-way through, no object is live iff none was adopted late, in every interleaving |
| `LedgerHistory.RecordsAreHistory` | src/context/MetalCommandSubmission.h:74-83 | At every point of every run the records contain exactly what the calls adopted and did not release |
| `LedgerHistory.CountersAreHistory` | src/context/MetalCommandSubmission.h:326-390 | With no call part-way through, adopted, released and live are sums over the calls of the run: one command buffer for each lease, one object and its size for each adoption, the whole record for each release |
| `LedgerHistory.EverythingCanBeReleased` | src/context/MetalCommandSubmission.h:355-390 | From every reachable state calls can end and every record be released; live is then exactly what had been adopted late |
| `RetainedLedger.PeakIsRunningMaximum` | src/context/MetalCommandSubmission.h:303-308 | With no call part-way through, peak is the running maximum of live, despite racing compare-exchange loops |
| `CommandBufferLease.LedgerCells.UpdatePeak` | src/context/MetalCommandSubmission.h:303-308 | The loop ends with the maximum, however often the weak exchange fails |
| `CommandBufferLease.LedgerCells.BoundedSubtract` | src/context/MetalCommandSubmission.h:310-324 | The loop ends with the bounded difference, however often the weak exchange fails |
| `CommandBufferLease.ReleaseToken` | src/context/MetalCommandSubmission.h:494-510 | Releases once: a second call, or a null argument, changes no counter |
| `CommandBufferLease.ReleaseRetainedObjects` | src/context/MetalCommandSubmission.h:355-390 | Empties the record and, if the shared state is still there, moves exactly its content from live to released on all three accounts; a null record is ignored |
| `CommandBufferLease.Lease.Abandon` | src/context/MetalCommandSubmission.h:55-69 | A live lease gives back token and record, any other touches nothing but itself; the lease ends empty |
| `CommandBufferLease.Lease.MoveFrom` | src/context/MetalCommandSubmission.h:282-294 | Live, spent and empty leases move as they are and leave an empty lease behind |
| `CommandBufferLease.Lease.AdoptRetainedObject` | src/context/MetalCommandSubmission.h:74-83 | The record grows by the object and the ledgers by its size; nil and an empty lease are ignored |
| `CommandBufferLease.Lease.Commit` | src/context/MetalCommandSubmission.h:115-152 | A live lease hands token and record to one handler; any other lease commits nothing |
| `CommandBufferLease.MoveAssign` | src/context/MetalCommandSubmission.h:40-46 | The token, record and ledger shares of a live overwritten lease are given back, a spent or empty one touches nothing shared; the other lease arrives as it was; self-assignment changes nothing |
| `CommandBufferLease.Handler.Run` | src/context/MetalCommandSubmission.h:131-140 | The completion handler releases token and record and counts one completion |
| `CommandBufferLease.DrainAllOutstanding` | src/context/MetalCommandSubmission.h:723-752 | Run alone, it succeeds iff every permit is there and leaves the semaphore as it was |
| `CommandBufferLease.LifeUntilCompleted` | src/context/MetalCommandSubmission.h:131-140 | Whatever is adopted before the commit, or after it while the buffer runs, is released by the completion handler |
| `CommandBufferLease.Lifecycle` | src/context/MetalCommandSubmission.h:74-83 | Over a whole life of a lease exactly the objects adopted after the completion handler has released the record stay live for ever: the ledgers return to their start iff there are none; adopted, released and the object peak are given too |
| `Numerals.DigitOfPacked` | src/context/S3TCEncode.h:160-178 | A packed index is read back by shifting and masking |
| `Numerals.BytesRoundTrip` | src/context/S3TCEncode.h:86-96 | Reading the little-endian bytes of a word gives the word |
| `Numerals.PackedIndices` | src/context/S3TCEncode.h:160-178 | Indices packed into a word and written as bytes are read back from the bytes, for 2-bit and 3-bit indices |
| `Numerals.IndexInByte` | src/context/S3TCEncode.h:173-178 | 2-bit index 4y + x of a packed word is bits 2x and 2x + 1 of its byte y |
| `Numerals.IndexInHalf` | src/context/S3TCEncode.h:239-243 | 3-bit index 8h + i of a packed word is bits 3i to 3i + 2 of its three-byte half h |
| `S3TCColor.CodeFields` | src/context/S3TCEncode.h:71-78 | Red is the top five bits of a 565 code, green the middle six, blue the low five |
| `S3TCColor.PackExpand` | src/context/S3TCEncode.h:71-84 | pack565(expand565(c)) = c for every 16-bit code |
| `S3TCColor.ExpandPackBounds` | src/context/S3TCEncode.h:71-84 | expand565(pack565(x)) - x lies in [-5, 4] for red and blue and [-2, 2] for green, after clamping |
| `S3TCColor.ExpandPackBoundsTight` | src/context/S3TCEncode.h:71-84 | Each of these bounds is reached |
| `S3TCColor.PackMonotone` | src/context/S3TCEncode.h:71-78 | A colour that is below another in every channel has the lower or an equal code |
| `S3TCColor.EncodeColorBlock` | src/context/S3TCEncode.h:98-179 | In place: exactly eight bytes change, to the block the specification functions give |
| `S3TCColor.BlockReadsBack` | src/context/S3TCEncode.h:98-179 | The decoder reads from a block the endpoints and the index the encoder chose |
| `S3TCColor.EndpointsAreCorners` | src/context/S3TCEncode.h:104-131 | In both modes the stored endpoints are the packed corners of the tile: lo and hi bound every contributing texel and are reached in every channel; lo is first in punch-through mode, hi otherwise |
| `S3TCColor.CornersExist` | src/context/S3TCEncode.h:104-124 | Every tile with a contributing texel has such corners |
| `S3TCColor.TransparentTile` | src/context/S3TCEncode.h:113-124 | A punch-through tile without an opaque texel has black endpoints and index 3 everywhere |
| `S3TCColor.BlockPlaces` | src/context/GLContextTexture.inc.mm:2469-2511 | Two little-endian codes, then one byte of four indices per row, the leftmost texel lowest |
| `S3TCColor.TableSpacing` | src/context/GLContextTexture.inc.mm:2469-2511 | The decoder table divides the segment between the endpoints in thirds, or halves it with black as fourth entry |
| `S3TCColor.IndexIsFirstNearest` | src/context/S3TCEncode.h:156-174 | The stored index is the first of the nearest ones |
| `S3TCColor.EndpointsCarryMode` | src/context/S3TCEncode.h:125-157 | The stored order c0 <= c1 or c0 >= c1 carries the mode; with equal endpoints outside punch-through every index is 0, so the 3-colour reading does no harm |
| `S3TCColor.DecodedIsNearest` | src/context/S3TCEncode.h:125-178 | Each opaque texel decodes to an opaque entry of least squared error of the table the decoder itself builds, each transparent one to (0,0,0,0) |
| `S3TCColor.FlatTile` | src/context/S3TCEncode.h:98-179 | A flat opaque tile decodes flat within the bounds, exactly iff its colour is the expansion of some code, and re-encodes to the same block |
| `S3TCColor.PunchBlock` | src/context/S3TCEncode.h:355-368 | The per-texel punch-through pass changes neither the mode nor a byte of the block |
| `S3TCAlpha.EncodeExplicitAlpha` | src/context/S3TCEncode.h:183-190 | In place: exactly eight bytes change, to the nibbles of the sixteen alphas |
| `S3TCAlpha.ExplicitAlphaProjection` | src/context/GLContextTexture.inc.mm:2512-2521 | DXT3 alpha is off by at most 8, and re-encoding what was decoded gives the same bytes |
| `S3TCAlpha.ExplicitPlaces` | src/context/S3TCEncode.h:183-190 | Four rows of sixteen bits, the leftmost texel lowest; each four bits give the multiple of 17 closest to the alpha |
| `S3TCAlpha.EncodeInterpolatedAlpha` | src/context/S3TCEncode.h:195-244 | In place: exactly eight bytes change, the constant-zero fill included |
| `S3TCAlpha.AlphaPlaces` | src/context/GLContextTexture.inc.mm:2522-2553 | Eight 3-bit indices to three bytes, the first texel lowest |
| `S3TCAlpha.ExtremesStored` | src/context/S3TCEncode.h:197-219 | The first two bytes of a non-constant tile are its highest and lowest alpha |
| `S3TCAlpha.AlphaIndexIsFirstClosest` | src/context/S3TCEncode.h:214-244 | The stored index is the first of those whose decoded value is closest |
| `S3TCAlpha.DecoderTableSpacing` | src/context/GLContextTexture.inc.mm:2522-2553 | The value table divides the range in sevenths, or in fifths with 0 and 255 added |
| `S3TCAlpha.ConstantBytes` | src/context/S3TCEncode.h:202-216 | The eight bytes of every constant tile |
| `S3TCAlpha.VaryingTileProjection` | src/context/S3TCEncode.h:214-244 | encode(decode(encode(tile))) = encode(tile) byte for byte for a non-constant tile, and its extreme alphas survive exactly |
| `S3TCAlpha.VaryingTileBound` | src/context/GLContextTexture.inc.mm:2522-2553 | 14 * abs(a - decoded a) <= (hi - lo) + 6 at every texel of a non-constant tile |
| `S3TCAlpha.VaryingTileBoundTight` | src/context/S3TCEncode.h:214-244 | The bound is reached |
| `S3TCAlpha.ConstantTile` | src/context/S3TCEncode.h:195-213 | A constant tile other than 0 is reproduced exactly |
| `S3TCAlpha.ZeroTileDecodes` | src/context/S3TCEncode.h:208-212 | The constant-zero tile decodes to 255 at texels 2, 5, 10 and 13 and to 0 elsewhere: the fill byte 0xdb is not sixteen times index 6 |
| `S3TCAlpha.IntendedZeroFill` | src/context/S3TCEncode.h:208-212 | Sixteen times index 6 is b6 6d db twice, decodes to 0 everywhere, and differs from the fill |
| `S3TCAlpha.AlphaProjectionIff` | src/context/S3TCEncode.h:195-244 | Encoding is a projection on a tile iff the tile is not constantly 0; then extremes and bound hold as well |
| `BlockLayout.GridHasBlock` | src/context/S3TCEncode.h:278-320 | In rows and slices joined end to end every block is found at its offset |
| `BlockLayout.OffsetIsComputed` | src/context/S3TCEncode.h:279-309 | That offset is the product formula encoder and decoder compute |
| `BlockLayout.SliceProduct` | src/context/S3TCEncode.h:276-279 | The joined length is the product the encoder allocates |
| `BlockLayout.BlocksDisjoint` | src/context/S3TCEncode.h:278-320 | Two different blocks never overlap |
| `S3TCImage.EncodedLayout` | src/context/S3TCEncode.h:256-327 | The output has the allocated length, and the bytes at each block offset encode the clamped 4x4 neighbourhood of that block |
| `S3TCImage.PixelIsComputed` | src/context/S3TCEncode.h:278-294 | Texel (x, y) of slice z is number z * (height * width) + y * width + x |
| `S3TCImage.TileIsNeighbourhood` | src/context/S3TCEncode.h:282-301 | A tile is the one loaded for block (col, row) iff entry 4ty + tx is the four bytes r, g, b, a of the texel at min(4row + ty, height - 1), min(4col + tx, width - 1) |
| `S3TCImage.EncodedFromBytes` | src/context/S3TCEncode.h:256-320 | Bytes in, bytes out: at offset z * across * down * b + (row * across + col) * b the output encodes that neighbourhood of the input |
| `S3TCImage.LoadTile` | src/context/S3TCEncode.h:282-301 | The texel loop reads in bounds and yields the edge-replicated tile |
| `S3TCImage.EncodeBlockInPlace` | src/context/S3TCEncode.h:303-320 | Per format: punch-through decision, alpha half, colour half |
| `S3TCImage.EncodeSlice` | src/context/S3TCEncode.h:278-320 | Writes one slice and nothing else |
| `S3TCImage.EncodeImage` | src/context/S3TCEncode.h:256-327 | Refused inputs give false and leave the output as it was; otherwise it is replaced by the pure map from blocks to encoded tiles |
| `S3TCImage.PaddingEncodesSame` | src/context/S3TCEncode.h:282-301 | Encoding an image equals encoding it padded by replication to multiples of 4 |
| `S3TCImage.SlicesConcatenate` | src/context/S3TCEncode.h:276-320 | The encoding of stacked images is the concatenation of their encodings |
| `S3TCImage.DecodeFindsTexel` | src/context/GLContextTexture.inc.mm:2555-2617 | The decoder finds, for every texel, the block it was encoded in and its place in it |
| `S3TCImage.ApplyDXT1PunchThrough` | src/context/S3TCEncode.h:355-368 | In place: the first texelCount texels are thresholded, other formats and other bytes are untouched |
| `S3TCImage.PunchThroughEncodesSame` | src/context/S3TCEncode.h:303-310 | encodeImage(applyDXT1PunchThrough(image)) = encodeImage(image) byte for byte, for any size |
| `S3TCImage.PunchThroughDecodes` | src/context/S3TCEncode.h:331-354 | The decoded image has exactly the alpha the pass writes: 255 where alpha was at least 128, and (0,0,0,0) where it was below |
| `S3TCImage.DecodedAlpha` | src/context/GLContextTexture.inc.mm:2606-2613 | At every texel of an image, DXT1 without alpha decodes opaque and DXT3 alpha is off by at most 8 |
| `S3TCImage.InterpolatedAlpha` | src/context/GLContextTexture.inc.mm:2522-2553 | At every texel of an image, DXT5 alpha is within the bound of its tile unless the tile is constantly 0 |
| `S3TCImage.DecodedColorIsNearest` | src/context/GLContextTexture.inc.mm:2469-2511 | At every texel of an image, in every format, the decoded colour is a nearest opaque entry of the table of its block |
| `S3TCImage.ReencodedAlpha` | src/context/S3TCEncode.h:183-244 | Encoding the decoded image again reproduces every DXT3 alpha half, and a DXT5 alpha half iff its tile is not constantly 0 or the block holds one column, or two columns and one row, of the image |
| `ResidencyClasses.SizeBucketIsCeilLog2` | src/context/MetalResourceResidency.h:757-768 | bytes <= 2^b iff the size bucket is at most b |
| `ResidencyClasses.SizeBucketForBytes` | src/context/MetalResourceResidency.h:757-768 | The shift loop returns the least b with bytes <= 2^b, and 0 for 0 |
| `ResidencyClasses.LifetimeOnlyCools` | src/context/MetalResourceResidency.h:770-791 | As boundaries pass a record goes from hot to warm to cold, never back, and not from hot to cold within six boundaries |
| `ResidencyClasses.LifetimeIff` | src/context/MetalResourceResidency.h:770-791 | Each lifetime in the fields of the record: hot up to 2 boundaries after a known last use, warm up to 8, then cold |
| `ResidencyClasses.CompatibilityOnlyNarrows` | src/context/MetalResourceResidency.h:968-972 | No value of the compatibility fields makes or unmakes a candidate; it only moves a record between eligible and incompatible |
| `ResidencyClasses.EligibleIff` | src/context/MetalResourceResidency.h:973-1044 | A record is offered to the buckets iff its kind, owner, heap and authority are none of the excluded ones, it has Metal bytes, is not in flight, and its last use and compatibility are known, all in the fields themselves |
| `ResidencyClasses.OutcomeIff` | src/context/MetalResourceResidency.h:973-1044 | Each of the ten outcomes in the fields of the record, with the order in which the rules are tried |
| `ResidencyClasses.ScopeIff` | src/context/MetalResourceResidency.h:1070-1096 | Each eviction scope in the fields of the record |
| `ResidencyClasses.BothWithinDryRun` | src/context/MetalResourceResidency.h:1070-1096 | R8 candidates and R5 eviction scopes lie within the dry run's reconstructable class; candidates are exactly those neither transient nor sparse |
| `ResidencyClasses.OrderingIsTotal` | src/context/MetalResourceResidency.h:1102-1119 | The eviction order is irreflexive, transitive and total on records with different ids |
| `ResidencyClasses.OrderingPrefers` | src/context/MetalResourceResidency.h:1102-1119 | Known last use goes before unknown, older before newer by serial and then frame, larger before smaller, lower id before higher |
| `ResidencyClasses.DryRunConserves` | src/context/MetalResourceResidency.h:1214-1277 | Every record is kept or refused, and purgeable is within kept, in records and in bytes |
| `ResidencyClasses.KeptBytesByHeap` | src/context/MetalResourceResidency.h:1242-1267 | The kept bytes are spread over the seven heap classes |
| `ResidencyClasses.ExcludedAreRefused` | src/context/MetalResourceResidency.h:1224-1236 | Transient, sparse and unknown records together are within the refused ones |
| `ResidencyClasses.CountsAdd` | src/context/MetalResourceResidency.h:1214-1277 | The counts of two sequences of records add up, counter by counter |
| `ResidencyClasses.CountsOfOne` | src/context/MetalResourceResidency.h:1214-1277 | What one record adds to each of the counters, in its fields |
| `ResidencyClasses.DryRun.Accumulate` | src/context/MetalResourceResidency.h:1214-1277 | After any sequence every dry-run counter equals the count over all records seen |
| `HeapSegmentation.KeysComplete` | src/context/MetalResourceResidency.h:814-830 | The bucket keys are exactly the keys of the rows |
| `HeapSegmentation.KeyOfIff` | src/context/MetalResourceResidency.h:814-830 | Two rows have the same key iff all twelve compatibility fields and the lifetime agree and no power of two separates their Metal sizes |
| `HeapSegmentation.SameGroupIff` | src/context/MetalResourceResidency.h:1046-1055 | Two eligible rows of a sequence share a group iff that holds |
| `HeapSegmentation.FirstAppearance` | src/context/MetalResourceResidency.h:933-955 | Of two keys the earlier one has a row before any row of the later one |
| `HeapSegmentation.ProvenAreGrouped` | src/context/MetalResourceResidency.h:1046-1055 | Every eligible row reaches the group of its key |
| `HeapSegmentation.AppendedIsBatch` | src/context/MetalResourceResidency.h:933-955 | Appending a row to the buckets of a sequence gives the buckets of the longer sequence; it is accepted iff its key is among the first limit distinct keys |
| `HeapSegmentation.AggregateMeans` | src/context/MetalResourceResidency.h:854-872 | A bucket holds the number of its rows, their byte sums, and the minimum and maximum of their last uses, attained; its in-flight count is 0 |
| `HeapSegmentation.BucketsMean` | src/context/MetalResourceResidency.h:832-872 | There are min(limit, distinct keys) buckets, in order of first appearance, numbered from 1, each holding all eligible rows of its key |
| `HeapSegmentation.BucketedAreProven` | src/context/MetalResourceResidency.h:968-1044 | Of every bucketed row, in its fields: kind, owner, heap and authority are none of the excluded ones, it has Metal bytes, is not in flight, and last use and compatibility are known |
| `HeapSegmentation.BucketsAndTruncatedAreAll` | src/context/MetalResourceResidency.h:944-948 | Bucketed and truncated rows together are all eligible rows, in number and in Metal bytes |
| `HeapSummary.RowsConserved` | src/context/MetalResourceResidency.h:874-931 | rowsSeen and the bytes seen = sum over authorities = sum over heaps = five exclusions + candidates |
| `HeapSummary.OccupancyCounts` | src/context/MetalResourceResidency.h:874-931 | Which authority and heap counters one more row moves, in its fields |
| `HeapSummary.ExclusionCounts` | src/context/MetalResourceResidency.h:973-1000 | Which exclusion counter it moves |
| `HeapSummary.CandidateCounts` | src/context/MetalResourceResidency.h:1002-1044 | Which candidate, age and unbucketed counters it moves |
| `HeapSummary.CandidatesConserved` | src/context/MetalResourceResidency.h:1002-1055 | candidates = unbucketed + bucketed + truncated; hot + warm + cold = incompatible + bucketed + truncated; bucket bytes = purgeable bytes; bucket and truncated bytes are the eligible Metal bytes |
| `HeapSummary.TruncationBounded` | src/context/MetalResourceResidency.h:1057-1068 | Comparing the truncation share with any threshold is exact; it is at most 10000, and 10000 iff nothing was bucketed |
| `HeapSummary.Segmentation.RecordOccupancy` | src/context/MetalResourceResidency.h:874-931 | One authority and one heap counter grow by the record |
| `HeapSummary.Segmentation.AppendBucketRecord` | src/context/MetalResourceResidency.h:933-955 | The linear search accumulates, opens a bucket or truncates, as the specification function says |
| `HeapSummary.Segmentation.Accumulate` | src/context/MetalResourceResidency.h:958-1055 | After any sequence of calls every counter and every bucket is what grouping and counting the whole sequence at once gives |
| `HeapSummary.Segmentation.Finalize` | src/context/MetalResourceResidency.h:1057-1068 | Sets the bucket count and, if any row was considered, the truncation share |
| `MemoryPressure.PermyriadExact` | src/context/MetalMemoryPressure.h:200-213 | permyriad(n, d) >= t iff 10000 * n >= t * d for d > 0, saturation included |
| `MemoryPressure.ThreeTriggersIff` | src/context/MetalMemoryPressure.h:255-304 | Without an OS level the machine is three independent Schmitt triggers iff both watermark sequences rise and no lower exit exceeds a higher target |
| `MemoryPressure.TriggersWithOverride` | src/context/MetalMemoryPressure.h:238-304 | Each level of the next state in terms of its own trigger and the OS level |
| `MemoryPressure.HighestTestWins` | src/context/MetalMemoryPressure.h:255-304 | For any watermarks, rising or not, the next state is the highest level whose test passes |
| `MemoryPressure.StableIff` | src/context/MetalMemoryPressure.h:255-304 | For rising watermarks: monotone in state, ratio and OS level iff exit <= target at every level; idempotent under constant input iff the same |
| `MemoryPressure.ShippedTables` | src/context/MetalMemoryPressure.h:155-198 | Every shipped table rises and has at least 800 permyriad of hysteresis at every level |
| `MemoryPressure.SampleDecides` | src/context/MetalMemoryPressure.h:307-327 | What a sample decides, in exact ratios of byte counts |
| `MemoryPressure.ShippedSample` | src/context/MetalMemoryPressure.h:155-198 | With the shipped watermarks, in bytes: each level is on after a sample iff the OS says so or 100 * allocated is at least the shipped percentage of the recommended working set, for working sets below 8 GiB, from 24 GiB on, and between |
| `MemoryPressure.UnknownRatioSample` | src/context/MetalMemoryPressure.h:155-170 | Without a usable recommendation only the OS level counts, and the watermarks are the middle ones |
| `MemoryPressure.WorkingSetRatioExact` | src/context/MetalMemoryPressure.h:307-341 | The displayed ratio times the recommendation is the allocation |
| `MemoryPressure.Machine.RecordTransition` | src/context/MetalMemoryPressure.h:215-236 | For any two states: counts nothing if they are equal, otherwise the transition and the state entered |
| `MemoryPressure.Machine.Sample` | src/context/MetalMemoryPressure.h:307-341 | New state and counters, and the snapshot with inputs, watermarks and both ratios, as the specification functions give |
| `MemoryPressure.CountersCountChanges` | src/context/MetalMemoryPressure.h:215-236 | Over any run the counters count exactly the state changes, in total and by state entered |
| `MemoryPressure.NoChatter` | src/context/MetalMemoryPressure.h:255-303 | Any run, however long, with known ratios and a constant non-critical OS level and no crossing pair of a level the ratio decides makes at most three transitions; under a warning level 1 may be crossed |
| `MemoryPressure.NarrowWindowIsQuiet` | src/context/MetalMemoryPressure.h:173-198 | For every shipped table any window of ratios at most 800 permyriad wide makes at most three |
| `MemoryPressure.CrossingChatters` | src/context/MetalMemoryPressure.h:255-303 | At either OS level, two inputs that cross a level the ratio decides make every sample of their alternation a transition |
| `CoverageLattice.CoversIff` | src/debug/CoverageStore.cpp:291-299 | A mark leaves an entry unchanged iff the entry covers it |
| `CoverageLattice.ApplyMeans` | src/debug/CoverageStore.cpp:23-96 | What a mark leaves: the higher level, the first test ID, and the new note iff it came with a higher level or fills an empty one |
| `CoverageLattice.CoveredForGood` | src/debug/CoverageStore.cpp:23-96 | A covered mark stays covered; states never fall, test IDs and notes are never lost |
| `CoverageLattice.FastPathIff` | src/debug/CoverageStore.cpp:274-306 | On a settled entry the fast path skips iff the locked path would leave the whole entry as it is |
| `CoverageLattice.Store.MarkImplemented` | src/debug/CoverageStore.cpp:23-36 | Fast path and all, the store changes exactly as if the lock were always taken |
| `CoverageLattice.Store.MarkSmokeTested` | src/debug/CoverageStore.cpp:38-55 | As if the lock were always taken, keeping the first test ID |
| `CoverageLattice.Store.MarkScenarioTested` | src/debug/CoverageStore.cpp:57-81 | As if the lock were always taken, keeping the first test ID |
| `CoverageLattice.Store.MarkStubbed` | src/debug/CoverageStore.cpp:83-96 | As if the lock were always taken |
| `CoverageLattice.Store.SnapshotStatuses` | src/debug/CoverageStore.cpp:260-268 | All guarded fields, the benchmark ID included, and both counters of every function, in order |
| `CoverageInterleaving.Reachable` | src/debug/CoverageStore.cpp:23-96 | The invariant between log, lock, atomics and entries holds in every reachable state of every interleaving |
| `CoverageInterleaving.ReaderSeesReplay` | src/debug/CoverageStore.cpp:242-268 | A reader holding the lock sees exactly the sequential, always-locked execution of all calls logged so far |
| `CoverageInterleaving.LoggedOnce` | src/debug/CoverageStore.cpp:23-96 | Each call that has decided is in the log once, others not at all |
| `CoverageInterleaving.LogKeepsRealTime` | src/debug/CoverageStore.cpp:23-96 | A call that returned before another one started is earlier in the log: with ReaderSeesReplay, the store is linearizable |
| `CoverageInterleaving.SkipIsNoOp` | src/debug/CoverageStore.cpp:274-289 | Whenever the fast path skips, the locked path run then or at any later time leaves the entry unchanged |
| `CoverageInterleaving.SkippingIsInvisible` | src/debug/CoverageStore.cpp:23-96 | The store equals the sequential execution of only the calls that took the lock |
| `CoverageInterleaving.StatesGrow` | src/debug/CoverageStore.cpp:270-272 | Coverage states never fall over a run |
| `CoverageProgress.StoreMeans` | src/debug/CoverageStore.cpp:23-96 | In every interleaving a reader finds the highest level marked so far, the test ID of the first test, and a note brought with the highest level |
| `CoverageProgress.EveryCallCanReturn` | src/debug/CoverageStore.cpp:23-96 | From every reachable state every call can return and the lock can be free |
| `CoverageProgress.ReturnedIsCovered` | src/debug/CoverageStore.cpp:23-96 | A mark that has returned has taken effect, whether it took the lock or skipped it |
| `CoverageProgress.MarkTakesEffect` | src/debug/CoverageStore.cpp:23-96 | Every admitted mark can be called at any time, return, and be in effect |
| `CoverageProgress.SkipsIffCovered` | src/debug/CoverageStore.cpp:274-289 | With the lock free, a call by itself skips it iff the entry covers the mark, after at most two loads |
| `CoverageVersion.CheckRule` | src/debug/CoverageStore.cpp:137-153 | The inner loop decides whether every entry point up to a version is implemented and smoke-tested |
| `CoverageVersion.AtMostIff` | src/debug/CoverageStore.cpp:137-144 | The comparison of versions is dictionary order |
| `CoverageVersion.AtMostTotal` | src/debug/CoverageStore.cpp:137-144 | It is total and antisymmetric |
| `CoverageVersion.FullyImplementedVersion` | src/debug/CoverageStore.cpp:123-167 | The walk from the highest rule reports the highest version that qualifies, or the sentinel |
| `CoverageVersion.RankIff` | src/debug/CoverageStore.cpp:123-167 | The versions are nested: one qualifies iff it or a higher one does |
| `CoverageVersion.ReportedIff` | src/debug/CoverageStore.cpp:123-167 | The reported version is at least version k iff every entry point up to k is smoke-tested |
| `CoverageVersion.ClaimIff` | src/debug/CoverageStore.cpp:123-167 | Each of the six strings is reported iff everything up to its version is smoke-tested and not everything up to the next |
| `CoverageVersion.VersionNeverDecreases` | src/debug/CoverageStore.cpp:119-121 | Over any run of concurrent marks the reported version never decreases |
| `MipLevels.LevelsAreLog2` | src/context/TextureMipLevels.h:22-33 | 2^(levels-1) <= largest dimension < 2^levels |
| `MipLevels.MipLevelCountForDimensions` | src/context/TextureMipLevels.h:22-33 | The shift loop returns floor(log2) of the largest dimension plus one, at least 1 |
| `MipLevels.SizeIsSpecified` | src/context/TextureMipLevels.h:35-48 | The cut-off at the width of the type cannot be seen: every level is max(1, floor(n / 2^level)) |
| `MipLevels.LevelsCompose` | src/context/TextureMipLevels.h:35-48 | Level j of level i is level i + j, negative bases included |
| `MipLevels.TailIffAllOne` | src/context/TextureMipLevels.h:54-63 | level >= tail offset iff all three dimensions are 1 |
| `MipLevels.NoLevelBelowOne` | src/context/TextureMipLevels.h:72-83 | Every requested level but the last has a dimension above 1 |
| `MipLevels.LevelGivenIff` | src/context/TextureMipLevels.h:56-83 | Level l is asked for iff it is requested and is 0 or has a dimension of at least 2^l; exactly one level for targets that can have no more |

## Left out

- Objective-C and Metal objects, queue creation, dispatch timeouts and environment parsing: an allocation or a wait
  may fail at any time.
- Labels, per-reason counters, wait timing, profiling output, totalAllocated, totalCompleted and the release maxima:
  they do not influence the protocol.  peakInFlight uses the same loop as the ledger peaks.
- The pressure-flush callback, its reserve and its soft cap: what the callback does to leases, the step system
  allows at any time.
- Memory orders weaker than sequential consistency.
- Sharing one lease between threads: a lease is used by one thread at a time, and the plain field writes of a commit
  are one step with the enqueueing.
- An adoption that overlaps the completion handler of its own record: the plain fields of a record are used by one
  call at a time, so the two are ordered.
- The ledger step system and the token step system are separate: they touch different atomics.
- CommandBufferLease.DrainAllOutstanding: runs without other threads; the concurrent drain is in the step system.
- The decode loop of the S3TC decoder is modelled texel by texel as a function, not as a loop that fills a buffer.
- Products in the image methods: offsets are added up as repeated sums, which `BlockLayout.OffsetIsComputed` equates
  with the products of the source.
- Other texture formats and the sub-image paths of the texture code.
- The export of residency rows, raw row limits, the R5 ordering summary, touch counters, the eviction pass and its
  policies.
- 64-bit wrap-around of residency and coverage counters.
- The rounding of the double-valued ratio of a pressure snapshot, and the sampled process statistics, which the
  machine does not read.
- recordCall and recordUnimplementedHit in interleavings: single atomic increments of independent counters.
- The assertions of the coverage store on golden paths and files; that a test ID is not empty is a precondition of
  the two marks that assert it.
- JSON snapshots, the call census and the advertised version string, which does not depend on coverage.
- mipDimensionAtLevel is instantiated by its bit width; a right shift of a negative base rounds down.
