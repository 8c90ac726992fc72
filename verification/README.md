# Verified models of the wallium core

This project models the parts of the wallium imageboard whose correctness rests on interleavings,
index arithmetic or restructuring of data, and proves what those parts keep. It is plain Dafny 4.11:
`dafny verify dfyconfig.toml` checks everything.

| file | models |
|---|---|
| `VoteCache.dfy` | the Redis keys of one entity and the atomic cast script |
| `VoteFlush.dfy` | the flush protocol as single commands that casts and failures interleave with, and its invariant |
| `FlushWorker.dfy` | the same worker as it runs, on fields updated in place; every command is logged as a step of `VoteFlush` |
| `RegenQueue.dfy` | the LMOVE-based regeneration queue: step system with crashes and recovery, and the worker's loops on the two lists |
| `Pipeline.dfy` | the download/process pipeline with its bounded channel, counters, in-flight map and duplicate check |
| `PipelineOutcomes.dfy` | what becomes of a batch's posts and rows: who is imported, what is written, in which order |
| `PHash.dfy` | median threshold, bit packing and Hamming distance of the perceptual hash |
| `Yuv.dfy` | RGB to YUV 4:2:0 in fixed point, 8-alignment and plane repacking |
| `SmartCrop.dfy` | Sobel energy and the search for the square crop |
| `Feed.dfy` | keyset queries, page trimming, the two-ended client list |
| `Sse.dfy` | the server-sent-event printer and the two incremental parsers |
| `Comments.dfy` | the comment forest |
| `Conversations.dfy` | the grouping of private messages into conversations |
| `Prelude.dfy` | shared vocabulary |

**How the parts are modelled.** A protocol is a `State`, an `Event` type, `Enabled` and `Apply`, and `Run` over a
sequence of events; a theorem about `Run` covers every interleaving. Code that updates fields, lists or buffers is
a class or a method over arrays whose contract states the whole new state. Where a class carries a ghost `log`, its
`Valid()` says that the log is a possible run of the step system and that the fields are the state it ends in, so a
statement about all runs applies to the class.

**Words used below.** *Agree*: the database rows of an entity equal its votes hash and the score column equals the
score key. *Fresh*: worker idle, nothing dirty or lost, every entity agrees, no stored zero,
votes and deleted set disjoint, votes adding up to 0 where the score key is missing. *Lost*: the worker's command
to mark an entity again failed, or the process ended before it, and no cast has changed the entity's score since.
*Base*: the score minus the sum of the votes. *Outstanding*: the items pushed and not yet acknowledged or discarded,
in push order. *Finished*: an undeleted image finalized since the start of the run. *Plane(w, h, f)*: the row-major
buffer with sample f(r, c) in row r, column c.

**Where the code and its comments disagree** the model follows the code.

- `src/frontend/src/stores/postStore.js:87-88` promises scrolling in both directions; but the row cut off a full newer
  page (`src/backend/db/store.go:113`, `src/backend/api/post.go:237`) is the post nearest to the cursor, so that
  direction has gaps. `NewerPageGapFreeIff` says exactly when.
- `src/worker/src/processing.rs:440` makes the dimensions even, but slices a buffer whose rows still have the odd
  width, or are padded beyond it. `NativePathRightIff` says exactly when the planes handed on are those decoded.
- `src/frontend/src/components/InlinePost.jsx:20` promises insertion order; an object with numeric keys is visited in
  ascending order, which is what the model does. `InsertionOrderIff` says when the two are the same.
- `src/backend/cache/flush.go:153` and `185` promise a retry after a failure, but the error of that very command is
  ignored. `LostRemarkExample` is a run in which the retry never comes.
- `src/frontend/src/stores/postStore.js:89-104` clears the loading flags although requests are still under way.
  `SafeIff` says exactly when the list can no longer be spoiled.
- `src/worker/src/avif.rs:265-266` gives 0 to 255 as the range of full-range chroma; the unclamped value can be 256.
  `ChromaClampActsIff` says for which two colours.
- `src/backend/cache/flush.go:64-66` seeds scores "so the first requests see correct scores"; on a cold Redis the
  votes behind the score are not seeded, and the database score drifts. `ColdPreloadDrift` says by how much.

## Model

| member | source | states |
|---|---|---|
| VoteCache.CastConservesBase | src/backend/cache/vote.go:36-61 | every cast, from any keys, leaves score minus sum of votes unchanged |
| VoteCache.CastsRefineLastWrite | src/backend/cache/vote.go:28-83 | after any list of casts each user's stored vote is the last one they asked for, zero meaning absent; score = base + sum; votes and deleted set stay disjoint; no earlier voter leaves both |
| VoteCache.CastsCommute | src/backend/cache/vote.go:36-61 | casts by different users give the same keys in either order |
| VoteCache.ScoreBoundedByVoters | src/backend/cache/vote.go:64-83 | from empty keys and votes in {-1, 0, 1} the absolute score is at most the number of current voters |
| VoteFlush.CleanEntitiesAgree | src/backend/cache/flush.go:119-202 | in every state any interleaving of casts, preloads, flush commands, failures, lost re-marks and process deaths reaches from a fresh start, an entity that is neither dirty nor in the unfinished part of the batch has equal votes and score in Redis and database, torn reads included, unless its re-mark was lost or never sent and no cast has changed its score since |
| VoteFlush.MarkedRunsAgree | src/backend/cache/flush.go:119-202 | in every run from a fresh start without a lost re-mark and without the end of the process, failed reads and failed transactions included, every clean finished entity agrees, unconditionally |
| VoteFlush.NothingLost | src/backend/cache/flush.go:152-189 | in such a run, from any start with nothing lost, nothing is lost |
| VoteFlush.LostGrowsOnly | src/backend/cache/flush.go:152-189 | only a lost re-mark or the end of the process loses an entity, and then one of the batch in hand that is not dirty |
| VoteFlush.UnfinishedIff | src/backend/cache/flush.go:177-200 | the unfinished part of a batch is all of it while reading, the current entity and those behind it while writing, only those behind it while acknowledging |
| VoteFlush.NoOrphanRows | src/backend/cache/flush.go:191-199 | in every such state, lost re-marks included, votes and deleted set are disjoint, and a row whose user has no vote is listed for deletion |
| VoteFlush.StepKeepsInv | src/backend/cache/flush.go:119-202 | the invariant behind both, for every entity at once: kept by each of the fourteen kinds of steps, from any state that has it |
| VoteFlush.LostStays | src/backend/cache/flush.go:152-155 | an entity whose re-mark was lost stays unmarked and its row untouched in every step, until a cast changes its score |
| VoteFlush.LostRemarkExample | src/backend/cache/flush.go:152-155 | the shortest failing run: one vote, a failed read, a lost re-mark; the worker rests, nothing is dirty and the row is missing |
| VoteFlush.AgreementIff | src/backend/cache/flush.go:119-202 | from an idle start with nothing marked, all clean finished entities agree in every run if and only if at the start every entity agrees, stores no zero, has no user in both sets, and has votes adding up to 0 if its score key is missing |
| VoteFlush.CastKeepsCell | src/backend/cache/vote.go:46-58 | a cast landing at any point of the worker's batch keeps the entity's part of the invariant: a re-vote or re-retract moves the user between the two sets, so a stale read stays covered |
| VoteFlush.CommitKeepsCell | src/backend/cache/flush.go:220-250 | writing a snapshot leaves no row of a deleted user, keeps every other row accounted for, and makes the row agree if no cast has come since |
| VoteFlush.PreloadIsIdle | src/backend/cache/flush.go:67-107 | from a fresh start a preload changes no vote, no deletion and no score as read, and no dirty or grabbed entity lacks a score key, so the missing-key reply the pipeline tolerates does not occur |
| VoteFlush.BatchOrderIrrelevant | src/backend/cache/flush.go:222-248 | whatever order the votes map and the deleted set are iterated in, executing the batch one statement after the other gives rows + votes - deleted and the snapshot's score |
| VoteFlush.FlushAgreesIff | src/backend/cache/flush.go:206-250 | flushing an untorn snapshot makes the rows equal the votes if and only if votes and deleted set are disjoint and every row's user is in one of them |
| VoteFlush.ColdPreloadDrift | src/backend/cache/flush.go:67-107 | with rows in the database, empty votes and a preloaded score: after any casts and a flush, score minus sum of rows is exactly the old votes of the users who have cast again |
| VoteFlush.ColdPreloadExample | src/backend/cache/flush.go:67-107 | the shortest drift: one row, the same vote cast again, a flush; the row adds up to 1 and the score is 2 |
| FlushWorker.VoteBuffer.CastVote | src/backend/cache/vote.go:28-83 | the script command by command: it returns the change of the user's vote, marks the entity exactly if that is not 0, sets the vote, the deleted set and the score accordingly, touches no other entity, and is one cast step |
| FlushWorker.VoteBuffer.GetUserVote | src/backend/cache/vote.go:106-118 | the stored vote, 0 for a user or entity that is absent |
| FlushWorker.VoteBuffer.PreloadScores | src/backend/cache/flush.go:67-107 | exactly the entities with rows and no score key get one, the sum of their rows; live scores, votes and deleted sets are untouched |
| FlushWorker.VoteBuffer.QueueBatch | src/backend/cache/flush.go:220-236 | whatever order the map and the set are iterated in, executing the queued statements one after the other on any row leaves rows + votes - deleted and the score of the snapshot |
| FlushWorker.VoteBuffer.WriteEntityTx | src/backend/cache/flush.go:206-250 | row = rows + votes - deleted with the snapshot's score if the transaction was applied, unchanged otherwise; the worker then marks the entity again after an error, acknowledges if there are deletions, or goes on |
| FlushWorker.VoteBuffer.Remark | src/backend/cache/flush.go:184-189 | after a failed transaction the entity is dirty again, or counted as lost if that command fails too and no cast has marked it meanwhile |
| FlushWorker.VoteBuffer.RemarkBatch | src/backend/cache/flush.go:152-155 | the same for a whole batch after a failed read pipeline |
| FlushWorker.VoteBuffer.ReadSnapshots | src/backend/cache/flush.go:144-150 | three separate reads per entity with casts landing before each; the log stays a run; without arrivals each snapshot shows its entity as it is |
| FlushWorker.VoteBuffer.Collect | src/backend/cache/flush.go:127-156 | unmark, then read; after a failed pipeline the worker marks the batch again, which may itself fail, and rests |
| FlushWorker.VoteBuffer.Acknowledge | src/backend/cache/flush.go:191-199 | removes from the entity's deleted set exactly the users of the snapshot, votes and scores untouched; a lost command changes nothing |
| FlushWorker.VoteBuffer.FlushEntityType | src/backend/cache/flush.go:119-202 | for any arrivals and faults, those of the four commands whose errors are ignored included, one flush is a run of the step system without the end of the process, from idle to idle; with none from now on it succeeds, empties the dirty set and the deleted sets of the entities flushed, loses nothing and leaves votes and scores in Redis as they were |
| FlushWorker.DrainedAgrees | src/backend/cache/flush.go:119-202 | in any reachable idle state with nothing dirty, every entity whose re-mark was not lost agrees |
| FlushWorker.FlushAll | src/backend/cache/flush.go:111-117 | flushing the buffers in turn drains every quiet one, loses nothing there and leaves its database equal to Redis for every entity not lost before, whatever happens to the others |
| RegenQueue.ReliableQueue | src/worker/src/queue.rs:948-1097 | for every run with pushes, pops, acknowledgements in any order, lost replies, crashes and recoveries: processing ++ queue is exactly the outstanding items in push order, and pushes = those plus the removals as multisets |
| RegenQueue.StepKeepsInv | src/worker/src/queue.rs:948-1097 | each step keeps that equation and that what a worker holds is still in the processing list |
| RegenQueue.CrashThenRecoverAll | src/worker/src/queue.rs:1051-1097 | whatever happened before a crash, recovery can run to its end, and then the queue is all outstanding items, oldest first, and processing is empty |
| RegenQueue.RoundsAgree | src/worker/src/queue.rs:1001-1040 | popping in rounds and discarding after each leaves the same processing list as popping everything and discarding then |
| RegenQueue.RoundsJoin | src/worker/src/queue.rs:1001-1040 | whatever is removed after each round may as well be removed after all of them |
| RegenQueue.GoodAndBad | src/worker/src/queue.rs:1022-1036 | the strings of any list split, as multisets, into those of the parsed items and those that do not parse |
| RegenQueue.ParseAllInOrder | src/worker/src/queue.rs:1022-1036 | each string that parses gives its item with the string itself attached, each other one is listed as bad, both in the order of the queue |
| RegenQueue.FinishPermutes | src/worker/src/queue.rs:861-973 | whatever order concurrent items finish in, exactly the popped items are acknowledged |
| RegenQueue.RegenRedis.MoveToProcessing | src/worker/src/queue.rs:1005-1012 | one pop step, or nothing when the queue is empty or the command fails; the reply may be lost after the move |
| RegenQueue.RegenRedis.LRem | src/worker/src/queue.rs:962 | removes the first occurrence and nothing else |
| RegenQueue.RegenRedis.Remove | src/worker/src/queue.rs:948-972 | removes one held item's string from processing as an acknowledge or discard step; a lost command leaves it there and the worker forgets it |
| RegenQueue.RegenRedis.MoveBatch | src/worker/src/queue.rs:1002-1017 | moves a front part of the queue in order, at most 500; without an error fewer only if the queue is then empty; on an error the replies are lost and nothing more is held |
| RegenQueue.RegenRedis.PopRegenItems | src/worker/src/queue.rs:998-1043 | ends for every queue length; without an error returns exactly the parseable items in queue order and leaves the queue empty; on an error everything moved stays in processing; what is gone from processing did not parse; with no failures processing = old contents plus the items as multisets |
| RegenQueue.RegenRedis.RecoverProcessingList | src/worker/src/queue.rs:1051-1097 | processing ++ queue is unchanged and what stays in processing is its oldest part; empty if no command fails, connection and length query included |
| RegenQueue.RegenRedis.DrainRegen | src/worker/src/queue.rs:826-982 | whatever fails, what was popped and is not gone is in processing, and nothing else is; with no failures the queue is empty and processing is as before, as a multiset, whatever order the items finish in |
| RegenQueue.RegenRedis.RPush | src/backend/api/admin.go:457 | one push step: the item is the last of the queue |
| Pipeline.StepKeepsInv | src/worker/src/queue.rs:216-335 | each of the 26 kinds of steps keeps: active, pending, total, processed, imported and failed count the posts in their stages, pending and active 0 between batches; workers and downloads within their limits; the channel holds exactly the queued posts, once, within its capacity; the in-flight map holds exactly the posts between download start and count; and the duplicate-check facts below |
| Pipeline.StepDecreases | src/worker/src/queue.rs:349-399 | every step of the pipeline makes the batch's measure smaller |
| Pipeline.StepsBounded | src/worker/src/queue.rs:216-335 | in any run until the next batch, with any changes elsewhere, the pipeline takes at most as many steps as the batch's measure |
| Pipeline.BatchIsShort | src/worker/src/queue.rs:216-335 | from the start of a batch to the next one the pipeline takes at most 13 steps for each post |
| Pipeline.Progress | src/worker/src/queue.rs:254-317 | in every state with the invariant and an unfinished post some step of the pipeline can be taken: the bounded channel never deadlocks the two stages |
| Pipeline.DoneIsEmpty | src/worker/src/queue.rs:295-296 | when all posts are resolved or dropped, channel and in-flight map are empty |
| Pipeline.BatchComplete | src/worker/src/queue.rs:319-334 | when every post is resolved active is 0, processed = imported + failed, total = processed + dropped downloads, which are what is still pending until the end of the batch clears it |
| Pipeline.ProcessedSplits | src/worker/src/queue.rs:286-311 | at every moment processed = imported + failed + the workers between their two updates; 0 <= active <= concurrency; pending >= 0 |
| Pipeline.Drain | src/worker/src/queue.rs:216-335 | whatever enabled step is chosen each time and whatever rows are created, deleted or soft-deleted in between, a batch ends within its measure with everything resolved and everything empty, pending and active 0 |
| Pipeline.CleanRowsStay | src/worker/src/db.rs:93-99 | no step, failure paths included, removes or dirties a finalized row or changes its hash |
| Pipeline.CheckPassed | src/worker/src/queue.rs:536-550 | with nothing found, the hash is at distance 50 or more from every undeleted row that was clean before; PipelineOutcomes.CheckDecides says what follows from it |
| Pipeline.DedupSafety | src/worker/src/queue.rs:531-599 | in every run, two finished images at distance below 50 were each checked strictly before the other was written; PipelineOutcomes.ImportedRow says that images are finished |
| Pipeline.SingleWorkerDedup | src/worker/src/queue.rs:531-599 | with one worker all finished images are pairwise at distance 50 or more |
| Pipeline.FarFromStart | src/worker/src/db.rs:102-134 | with any number of workers a finished image is at distance 50 or more from every undeleted row that was clean at the start |
| Pipeline.VideoClashIff | src/worker/src/queue.rs:641-658 | a video's zero hash makes an image a duplicate exactly when fewer than 50 of its bits are set |
| PipelineOutcomes.CheckDecides | src/worker/src/queue.rs:531-583 | a check sends the post to deletion if another clean, undeleted row is at distance below 50, and otherwise on to be finalized with its hash; it changes no row |
| PipelineOutcomes.FinalizeWrites | src/worker/src/db.rs:57-91 | an executed finalize, its reply lost or not, leaves the row clean with the kind and hash of its stage and its soft-delete flag as it was, never brings a row back, and touches no other |
| PipelineOutcomes.DeleteClears | src/worker/src/db.rs:93-99 | an executed delete leaves no dirty row of the post, keeps a row that is clean after all, and touches no other |
| PipelineOutcomes.ImportedIff | src/worker/src/queue.rs:271-311 | when a batch is done, its imported posts are exactly those that no step of the run has failed: no failed download, decode, encode, check, video or finalize, no duplicate found; the others are failed or dropped |
| PipelineOutcomes.ImportedRow | src/worker/src/queue.rs:507-658 | a post that no step fails and whose row nobody deletes ends imported with its row clean: an image with the hash it was encoded to, a video with the zero hash |
| PipelineOutcomes.BatchLeavesNothingDirty | src/worker/src/queue.rs:216-335 | if none of its deletes is lost, a finished batch leaves none of the rows dirty that were dirty and undeleted when it began |
| PipelineOutcomes.SoftDeletedIsLeftAlone | src/worker/src/db.rs:41-55 | a soft-deleted dirty row is not taken up: whatever happens to the batch the row stays as it is, unless it is deleted elsewhere |
| PipelineOutcomes.ChannelIsFifo | src/worker/src/queue.rs:249-269 | in every run the posts begun, followed by what is in the channel, are what was in the channel at first followed by the posts sent, in order |
| PipelineOutcomes.CountersMeaning | src/worker/src/queue.rs:271-311 | active, processed, imported and failed are the numbers of posts in the stages named |
| PipelineOutcomes.PendingMeaning | src/worker/src/queue.rs:272-273 | pending is the number of posts that no worker has begun, dropped downloads included |
| PipelineOutcomes.InFlightMeaning | src/worker/src/queue.rs:275-283 | a post is in the in-flight map from the start of its download until its worker has come back or the download has failed |
| PipelineOutcomes.CountsAreOutcomes | src/worker/src/queue.rs:319-334 | when a batch is done imported, failed and pending are the numbers of imported, failed and dropped posts |
| PipelineOutcomes.WaitsIff | src/worker/src/queue.rs:249-269 | a downloaded post waits exactly while the channel holds twice the larger limit, a queued one while all workers are busy, a download while its slots are taken or an earlier one has not started |
| PHash.HashBalance | src/worker/src/processing.rs:1204-1222 | at most 128 bits are set, exactly 128 if and only if the two middle coefficients differ |
| PHash.SortPermutes | src/worker/src/processing.rs:1240-1245 | the sorted values behind the median are a permutation of the coefficients |
| PHash.HashScaleInvariant | src/worker/src/processing.rs:1204-1222 | scaling all coefficients by a positive real and shifting them leaves every bit as it was |
| PHash.PackBits | src/worker/src/processing.rs:1208-1222 | the packing loop returns four 64-bit words: coefficient i is above the median exactly if bit 63 - i % 64 of word i / 64 is set |
| PHash.BitMeaning | src/worker/src/processing.rs:1208-1222 | bit b of a word is its binary digit of weight 2^b |
| PHash.UnpackInjective | src/worker/src/processing.rs:1208-1222 | hashes with the same bits are equal: packing loses nothing |
| PHash.HammingCountsDifferingBits | src/worker/src/db.rs:113-122 | the four XOR popcounts add up to the number of differing bits |
| PHash.HammingMeaning | src/worker/src/db.rs:113-122 | the distance is the number of the 256 positions in which the hashes differ |
| PHash.HammingIsMetric | src/worker/src/db.rs:113-122 | symmetric, zero only for equal hashes, triangle inequality; even between hashes with equally many set bits |
| Yuv.ClampsIdle | src/worker/src/avif.rs:296-381 | for every colour the limited-range clamps and the full-range luma clamp change nothing |
| Yuv.ChromaClampActsIff | src/worker/src/avif.rs:323-329 | unclamped full-range chroma lies in 1..256; the clamp acts only for pure blue (Cb) and pure red (Cr) |
| Yuv.GreyIsNeutral | src/worker/src/avif.rs:296-402 | greys have chroma 128 in both ranges and keep their value in full range |
| Yuv.LumaError | src/worker/src/avif.rs:296-298 | full-range luma is within 1 of 0.299 R + 0.587 G + 0.114 B (ITU-R BT.601, section 2.5.1) |
| Yuv.ChromaError | src/worker/src/avif.rs:323-329 | full-range Cb and Cr are within 0.7 of 128 - 0.168736 R - 0.331264 G + 0.5 B and 128 + 0.5 R - 0.418688 G - 0.081312 B |
| Yuv.LimitedError | src/worker/src/avif.rs:334-402 | limited-range Y, Cb and Cr are each within 1 of the documented real-valued weights |
| Yuv.LumaSample | src/worker/src/avif.rs:288-300 | sample (r, c) of the luma plane is the luma of bytes 3(rw + c), the next and the one after it, as red, green and blue |
| Yuv.ChromaSample | src/worker/src/avif.rs:302-331 | sample (cy, cx) of both chroma planes is made of the rounded-down means of the red, green and blue bytes of the four pixels of rows 2cy, 2cy + 1 and columns 2cx, 2cx + 1 |
| Yuv.RgbToYuv420 | src/worker/src/avif.rs:272-409 | every index is in bounds; the result is the three planes that LumaSample and ChromaSample describe byte by byte and the error lemmas tie to the standard weights |
| Yuv.FillLuma | src/worker/src/avif.rs:288-300 | the luma loop fills the array with exactly that plane |
| Yuv.FillChroma | src/worker/src/avif.rs:302-331 | the chroma loops fill both arrays with exactly the planes ChromaSample describes |
| Yuv.RepackPlane | src/worker/src/avif.rs:609-616 | every slice is in bounds; the result has sample (r, c) of the strided buffer in row r, column c |
| Yuv.RepackIsCrop | src/worker/src/avif.rs:604-616 | repacking a plane to a smaller size keeps exactly the samples of its top-left corner |
| Yuv.AlignBelow | src/worker/src/avif.rs:155-160 | aligned sizes are multiples of 8, at most the size and less than 8 below it, and fit the chroma planes |
| Yuv.CropConvertIsConvertRepack | src/worker/src/avif.rs:155-194 | for every image of even width, cropping to the aligned size and converting gives exactly the planes of converting and then repacking each plane, all slices in bounds |
| Yuv.AlignPlanes | src/worker/src/avif.rs:639-666 | the aligned sizes and the planes handed to the encoder, with and without repacking |
| Yuv.AlignedIsRepacked | src/worker/src/avif.rs:645-649 | planes of exactly their size that are passed on unchanged because both sides are aligned are what repacking would have given |
| Yuv.NativePathRightIff | src/worker/src/processing.rs:439-485 | for any row lengths of the decoder, at least the width, and any extra rows: the sliced planes encode the decoded picture for all samples if and only if the rows are exactly the even width (half of it for chroma) or a side is below 8 |
| Yuv.NativeNeedsEvenWidth | src/worker/src/processing.rs:545-568 | for rows of w bytes, and for rows padded to an even length, that condition is that w is even |
| SmartCrop.RegionGradientEnergy | src/worker/src/processing.rs:1424-1455 | the loops add up the squared Sobel gradients, both horizontal and vertical, of the region's samples, as pinned on pixel values by the five members below; the result is at most samples * 1300500 |
| SmartCrop.EnergyIsGridSum | src/worker/src/processing.rs:1431-1453 | that energy is the double sum of the sample energies over the grid of points `step` apart from the corner |
| SmartCrop.SlopeEnergy | src/worker/src/processing.rs:1437-1450 | where the picture is an even slope of a levels per column and b per row, a sample measures 64 (a^2 + b^2) |
| SmartCrop.SpotEnergy | src/worker/src/processing.rs:1437-1450 | a single bright pixel v counts 2 v^2 at a corner of a sample, 4 v^2 beside it and nothing elsewhere |
| SmartCrop.TransposedEnergy | src/worker/src/processing.rs:1424-1455 | exchanging rows and columns of a picture exchanges them for the energy of every region |
| SmartCrop.MaxIsReached | src/worker/src/processing.rs:1437-1450 | the bound 1020^2 + 510^2 is reached by a picture of nine pixels |
| SmartCrop.ClampIsNearest | src/worker/src/processing.rs:1434-1439 | a neighbour outside the picture is read as the nearest pixel of its row or column |
| SmartCrop.SampleEnergyBound | src/worker/src/processing.rs:1437-1450 | no sample exceeds 1020^2 + 510^2, whatever the nine pixels |
| SmartCrop.EnergyBound | src/worker/src/processing.rs:1424-1455 | a region's energy is between 0 and the number of its samples times that |
| SmartCrop.SamplesOfTwo | src/worker/src/processing.rs:1378-1379 | at step 2 the samples on one axis are half the pixels, rounded up |
| SmartCrop.SamplesCover | src/worker/src/processing.rs:1431-1453 | at any step the samples on one axis are its pixels over the step, rounded up |
| SmartCrop.FindWindow | src/worker/src/processing.rs:1378-1411 | the window lies inside; it has the most energy, in the sense of RegionGradientEnergy, of the whole step-2 grid, the first in row-major order on ties, the centre if all are 0 |
| SmartCrop.Crop | src/worker/src/processing.rs:1342-1420 | the crop lies inside the source, is the whole picture if that is small enough, and otherwise a square of the shorter side, or a region of another shape, placed where the best window maps to |
| Feed.OlderThanMeaning | src/backend/db/store.go:72-78 | an id is in the older query's result exactly if it is visible, below the cursor, and among the `limit` nearest such ids |
| Feed.OlderPageIsNextBlock | src/backend/api/post.go:212-224 | the trimmed page is the next 50 visible ids below the cursor, newest first, and has_more says whether any are left |
| Feed.NewerPageGapFreeIff | src/backend/db/store.go:83-94 | the newer page contains every visible id between the cursor and its own newest post if and only if at most 50 are above the cursor |
| Feed.NewerPageMeaning | src/backend/db/store.go:83-94 | has_more says whether more than 50 visible ids are above the cursor; if so the page leaves out the nearest and holds the 50 after it, otherwise it holds all of them |
| Feed.ReverseInPlace | src/backend/db/store.go:92 | the array holds its old contents reversed |
| Feed.GetPostsCursor | src/backend/api/post.go:192-244 | which page each parameter gives, and the error when neither is present |
| Feed.GetPostsAround | src/backend/db/store.go:100-148 | strictly descending; it shows an id exactly if it is the visible post itself, is visible below it among the 50 nearest, or is visible above it and in the newer page, each from what is visible to its own query; has_older and has_newer say whether more than 50 are below and above |
| Feed.WindowMeaning | src/backend/db/store.go:100-148 | the same as a fact about the window the client steps use |
| Feed.PositionPointsAtPost | src/backend/api/post.go:124-146 | a visible post's offset is its index in the full newest-first list, and the page number is the page that index is on |
| Feed.ListStaysDescending | src/frontend/src/stores/postStore.js:89-161 | under every interleaving of older, newer and window loads, any number in flight, each answered from whatever is visible then, the list stays strictly descending, so without duplicates, as long as each window that arrives leaves a safe state |
| Feed.SafeIff | src/frontend/src/stores/postStore.js:89-161 | safe is exact: every run up to the next window keeps the list descending if and only if it is descending, at most one request is in flight each way, none can be overtaken because a window cleared its loading flag, the list lies between the cursors, and two answers to an empty list cannot cross |
| Feed.StepKeepsSafe | src/frontend/src/stores/postStore.js:113-161 | each request, answer and failure keeps a safe state safe |
| Feed.WindowWhileIdle | src/frontend/src/stores/postStore.js:89-109 | a window that arrives while no load is in flight leaves a safe state |
| Feed.PatientListDescends | src/frontend/src/stores/postStore.js:89-161 | if no request follows an unanswered one the same way, it is enough that each window fits every cursor in flight when it arrives |
| Feed.ImpatientClientBreaks | src/frontend/src/stores/postStore.js:96-104 | without that, a window that fits every cursor and clears the loading flag still leaves a run in which a second request overtakes the first and the list breaks |
| Feed.StaleOlderPage | src/frontend/src/stores/postStore.js:113-135 | appending an older answer keeps the list descending whatever the answer contains if and only if the list, as it is then, is empty or ends at or above the cursor |
| Feed.StaleNewerPage | src/frontend/src/stores/postStore.js:139-161 | prepending a newer answer does whatever it contains if and only if the list is empty or begins at or below the cursor |
| Feed.StaleOlderPageExample | src/frontend/src/stores/postStore.js:89-135 | a run of two answers on four posts: a window replaces the list, the older answer under way comes after it, and three posts appear twice |
| Feed.PostStore.FetchAroundPost | src/frontend/src/stores/postStore.js:89-109 | the list becomes the window around the post, with the same account of its members and of both flags |
| Feed.PostStore.LoadOlderPosts | src/frontend/src/stores/postStore.js:113-135 | appends the page below the smallest id, or does nothing if there is none to load |
| Feed.PostStore.LoadNewerPosts | src/frontend/src/stores/postStore.js:139-161 | prepends the page above the largest id, or does nothing |
| Feed.LoadsAreSteps | src/frontend/src/stores/postStore.js:89-161 | a request followed by its answer is the corresponding load or fetch of the store, flags included, and one followed by its failure changes nothing |
| Feed.PostStore.LoadAllOlder | src/frontend/src/stores/postStore.js:113-135 | with a fixed visible set, repeating older loads until has_more is false ends and appends every visible older post exactly once, newest first |
| Sse.SseWriter.WriteSSE | src/backend/api/import.go:121-125 | writes `data: `, the payload and an empty line; what is written is always the print of a list of frames, the premise of the three reader results below |
| Sse.SseWriter.WriteHeartbeat | src/backend/api/admin.go:621-625 | the same for one comment frame (HTML Living Standard, section 9.2.6) |
| Sse.PrintSnoc | src/backend/api/import.go:121-125 | appending one frame to a printed stream prints the longer list of frames |
| Sse.SplitIsScan | src/frontend/src/utils/api.js:84-85 | splitting the kept text plus a chunk gives the pieces a character-by-character scan cuts, with the scan's pending text as last piece |
| Sse.SplitJoins | src/frontend/src/utils/api.js:84-85 | the pieces joined with the separator are the text, and no piece contains it |
| Sse.ScanConcat | src/frontend/src/utils/api.js:80-97 | scanning two pieces one after the other is scanning them joined, for any cut of the stream, inside a separator too |
| Sse.PrintedStreamParses | src/backend/api/import.go:121-125 | for any frames without line feeds, data and heartbeats mixed, the block parser takes exactly the payloads in order, the line parser their trimmed texts, and both keep nothing back |
| Sse.ParsersAgreeIff | src/frontend/src/utils/api.js:87-90 | the two parsers take the same from a printed stream if and only if no payload begins or ends with white space |
| Sse.TrimMeaning | src/frontend/src/utils/api.js:88 | trimming cuts off exactly the white space at both ends |
| Sse.FirstDataMeaning | src/frontend/src/stores/postStore.js:384-389 | of a block the first line that begins with `data: ` counts, and a block without one gives nothing |
| Sse.NoSpaceAfterColon | src/frontend/src/utils/api.js:87-88 | a line with no space after `data:` counts for the line parser and not for the block parser |
| Sse.PartialStreamParses | src/frontend/src/stores/postStore.js:374-405 | after any part of any stream each parser has taken a prefix of what it takes in the end |
| Sse.LineReader.Read | src/frontend/src/utils/api.js:80-97 | after each chunk the callback has seen exactly the parseable payloads of the stream so far, `last` is the newest, the buffer is the unfinished line |
| Sse.LineReader.ReadAll | src/frontend/src/utils/api.js:75-99 | the same for a whole stream, whatever its chunks |
| Sse.LastIsNewest | src/frontend/src/utils/api.js:90-99 | `last` is nothing before the first message and the newest after each |
| Sse.ImportReader.Read | src/frontend/src/stores/postStore.js:374-405 | the same with blocks: events up to the first error, the last "done" event, the unfinished block |
| Sse.ImportReader.ReadAll | src/frontend/src/stores/postStore.js:369-412 | the same for a whole stream, or up to the chunk that carries an error |
| Sse.LineReaderSeesAll | src/frontend/src/utils/api.js:75-99 | fed what a writer wrote, in any chunks, the callback sees every trimmed payload that parses, in order, and the buffer ends empty |
| Sse.ImportReaderSeesAll | src/frontend/src/stores/postStore.js:369-412 | the same, untrimmed, up to the first error message |
| Sse.ReadersAgree | src/frontend/src/stores/postStore.js:369-412 | two readers fed what a writer wrote, in different chunks, deliver the same messages, unless one is an error, if white space around a payload does not change what it parses to |
| Comments.BuildCommentTree | src/frontend/src/components/InlinePost.jsx:23-39 | a comment whose id no later one repeats is a root exactly if its parent is not positive or not in the list, and otherwise among the replies of that parent and no other; every list is in ascending id |
| Comments.ExactlyOnePlace | src/frontend/src/components/InlinePost.jsx:29-37 | for any list each comment is in exactly one list, there once; siblings ascend |
| Comments.InsertionOrderIff | src/frontend/src/components/InlinePost.jsx:17-37 | siblings are in the order of the list if and only if that order ascends, which it does for a list sorted by id |
| Comments.PreorderMembers | src/frontend/src/components/InlinePost.jsx:23-39 | for any list, cycles included, reading the forest in preorder ends, meets nothing twice, and meets exactly the comments that hang below a root |
| Comments.PreorderCoversIff | src/frontend/src/components/InlinePost.jsx:23-39 | the forest holds every comment if and only if no comment is its own ancestor |
| Comments.PreorderParentsFirst | src/frontend/src/components/InlinePost.jsx:23-39 | reading the forest one meets every comment after the comment it answers |
| Comments.PreorderIsPermutation | src/frontend/src/components/InlinePost.jsx:23-39 | if resolvable parents have smaller ids, reading the forest in preorder meets every comment exactly once |
| Conversations.GroupByPartner | src/backend/api/message.go:47-76 | the loop's map holds each partner's folded summary and `order` the named partners by first appearance |
| Conversations.BuildConversations | src/backend/api/message.go:46-88 | the result is newest-first and a permutation of the summaries of the named partners |
| Conversations.PartnersMeaning | src/backend/api/message.go:50-65 | the partners, each once, are exactly the non-empty names that sent a message to me or got one that was not to me |
| Conversations.SummaryMeaning | src/backend/api/message.go:67-76 | for a newest-first list with non-zero times a summary has the body and time of the newest message exchanged with the partner, and the number of messages from them to me that are not read |
| Conversations.FoldTimes | src/backend/api/message.go:67-72 | zero times are passed over: the first message with a time gives time and body; without one the time is zero and the last body shows |
| Conversations.EachPartnerOnce | src/backend/api/message.go:46-88 | in the result every named partner has exactly one entry and nobody else has any |
| Conversations.InboxMeaning | src/backend/api/message.go:46-88 | the unread counts add up to the number of messages to me with a sender that are not read; for a newest-first list each position keeps its time through the final sort |
| Conversations.GroupingIsSorted | src/backend/api/message.go:79-83 | for a newest-first list the summaries are in order before the sort |
| Conversations.SortKeepsTimes | src/backend/api/message.go:84-86 | sorting a list that is newest-first already moves only entries with equal times |

## Left out

- More than one flush worker. Cancellation in mid-flush is the failure of every later command of that flush.
- The parent row of every entity is taken to exist.
- VoteFlush.CleanEntitiesAgree: promises nothing for an entity whose re-mark was lost, and starts where Redis and the database agree; LostRemarkExample and AgreementIff show that both are needed. MarkedRunsAgree covers the runs without such a loss.
- GetScore and SeedScore on their own (`src/backend/cache/vote.go:88-101`): plain reads and a set-if-absent like the preload's.
- Votes and ids have no machine width; the sums stay far below 64 bits.
- The pipeline is modelled on values, as steps: the counters and the in-flight map are not updated in place, and the phases shown for active posts are not kept. The second, idempotent delete of a rejected duplicate is one delete.
- Decoding, encoding, resizing, downloading and the file system are outcomes the next step chooses. `dct1d_partial` and the resizing behind a hash are arbitrary real coefficients, so rounding and NaN are not modelled.
- SmartCrop.Crop: the scaled sides, the sides of a region that is not square and the mapping back to the source are arbitrary naturals before the limits the code puts on them, so nothing rests on 32-bit floats; the image library's crop is taken to clamp to the picture.
- Hash words are unsigned values; the source stores the same bits as signed 64-bit integers.
- Regeneration: one worker; what an item does, its 30-second limit and the progress counters of `src/backend/api/admin.go:475-632` are not modelled.
- `src/backend/api/jobs.go`: terminal states are not absorbing there, and the rest is easy.
- Feed: visible posts are their ids; filters, users and SQL are the choice of the visible set. Page-wise loading, search, filter changes and the removal of single posts, which also replace the list, are not steps of the client.
- Server-sent events: chunks are text, so a character split across chunks is the decoder's matter; JSON.parse is an arbitrary partial function, and a callback that throws is not modelled.
- Comments: nodes are named by id, not shared by reference.
- Conversations: the final sort is an insertion sort standing for the library's; only its contract is used.
- HTTP handlers, sessions, logging, connection handling, optimistic vote updates in the client stores, role and filter helpers, and all rendering.
