# Jisa: a verified model of the telemetry engine's core

Jisa ingests market and sensor feeds, passes ticks through lock-free rings to four layers of
detectors, records and replays streams, injects labelled faults to score the detectors, and
delivers alerts to subscribers. This project models the parts of it whose correctness is decided
by the code alone, in Dafny, and proves what they promise. `dafny verify dfyconfig.toml` checks it.

| files | what they model |
|---|---|
| `MpscRing`, `MpscWords`, `SpscProtocol`, `SpscRing` | the two rings: every atomic step of concurrent threads as a state machine, and the single-threaded view of the SPSC ring as a class |
| `Cusum`, `Conformal`, `Bocpd`, `BocpdExact`, `BocpdDrop` | the detectors, as classes that update their per-stream state, against batch definitions |
| `Message`, `RecordFormat`, `Replay`, `Checksum` | the recording format byte for byte, recorder, replayer and digest |
| `SplitMix`, `FaultInjection`, `FaultLabels`, `Evaluation` | the seeded fault injector, its labels file, and the scoring that reads it |
| `Hex`, `KnownValues` | published values of the generator and of the hash, worked out digit by digit |
| `FeedHandler`, `Ingest`, `Calendar`, `Rfc3339` | gap tracking in front of the ring, alone and with the consumer running, and feed timestamps |
| `PoolAllocator` | the intrusive free list |
| `LiveSync` | the JSONL tailer that fills SQLite |
| `Dedupe`, `Server`, `Dispatcher`, `Sidecar` | the delivery sidecar: its parts as classes, and the whole as a state machine |
| `WordArith`, `WindowArith`, `Sequences`, `Decimal`, `Wrappers` | 64-bit words, modular arithmetic, sequences, decimal digits, options |

Doubles are reals, except in recordings and faults, where they are opaque 64-bit patterns and the
arithmetic on them is a parameter. `sqrt`, the predictive density, SHA-256 and JSON decoding are
parameters too. Unsigned machine arithmetic is written out modulo 2^32 or 2^64.

## What the code does not promise

Each of these is proved: the exact condition under which the code is right, and an input on which it
is not.

* The MPSC ring accepts a capacity of 1, where "published" and "recycled" are the same number; a
  second push then overwrites an item nobody has popped. The protocol is safe exactly from 2 slots
  on (`MpscRing.SafeIffTwoSlots`, `MpscRing.OneSlotLosesItems`).
* Whether CUSUM notices a jump after a constant stretch is decided by alpha, k and h alone
  exactly when the slack k is not negative, or so negative that every sample fires; otherwise
  the length of the stretch decides (`Cusum.Config.OnlyParametersDecideIff`,
  `Cusum.LongerStretchFires`). The constructor accepts a negative slack.
* A malformed line is "never fatal" (`python/api/live.py:131`) only for three kinds of exception.
  An infinite number, an integer SQLite cannot hold, a lone surrogate or over-deep nesting raises
  another one; the transaction is rolled back and every later refresh stops at the same line
  (`LiveSync.World.BlockedForever`, `LiveSync.InfinityStopsImports`). Otherwise, and only
  otherwise, the table catches up (`LiveSync.ScheduleDoesNotMatter`).
* The timestamp parser reads the local clock and ignores a numeric offset, so it returns the
  instant exactly when the offset is zero (`Rfc3339.ParsedIsInstantIff`,
  `Rfc3339.OffsetIsIgnored`). Parsing keeps the order of all earlier timestamps at one offset and
  later ones at another exactly when the first offset is at most the second
  (`Rfc3339.KeepsOrderIff`, `Rfc3339.OrderIsSwapped`).
* The pool's constructor does not check `stride * count`; all blocks fit into the storage exactly
  when that product does not wrap (`PoolAllocator.BlocksFitIff`, `PoolAllocator.WrappedPool`). A
  product that wraps to 0 gives a sound pool without blocks, like a failed allocation.
* A drift reaches its magnitude at its last affected sample, as the comment at
  `include/replay/fault_injector.hpp:8-9` says, exactly when the end of the stream does not cut it
  short (`FaultInjection.DriftCompletesIff`, `FaultInjection.ClippedDrift`).
* BOCPD's second trigger is documented as a drop "by more than half"
  (`python/research/bocpd.py:170-171`). The code also fires on a drop of exactly half rounded
  down that is large enough; that is the only difference
  (`Bocpd.Readout.TriggersAsDocumentedIff`). With all defaults and one positive predictive
  density, the stream of 61 zeros and a one is reported at its end, where the most probable run
  length falls from 61 to 31, though nothing in it is a documented trigger
  (`BocpdDrop.HalfIsEnough`).
* The MPSC ring compares sequence numbers by a signed 64-bit difference. A push takes the right
  branch exactly while its slot is less than 2^63 positions ahead of the position it holds;
  further on it takes the ring for full, even an empty one (`MpscWords.BranchAgreesIff`,
  `MpscWords.EmptyRingRefuses`). The comment about `write_cursor_ - read_cursor_`
  (`include/core/ring_buffer.hpp:99-100`) describes a check the code does not make: fullness is
  read off the slot's sequence, and `MpscRing.Ring.RefusalsAreExact` says when that refuses.

## Model

| member | source | states |
|---|---|---|
| `MpscRing.Ring.SequenceMeaning` | include/core/ring_buffer.hpp:138-163 | what a slot's sequence tells a producer: below its position only when every position of the ring is claimed and unrecycled |
| `MpscRing.Ring.StepInv` | include/core/ring_buffer.hpp:136-181 | every atomic step of any producer or the consumer, stale cursor loads and spurious CAS failures included, keeps the slot protocol |
| `MpscRing.Ring.RefusalsAreExact` | include/core/ring_buffer.hpp:138-174 | a push is refused only when, at its sequence load, all positions are claimed and unrecycled; a pop exactly when the item at the read position is unpublished |
| `MpscRing.Ring.RunsAreSafe` | include/core/ring_buffer.hpp:136-181 | for two or more slots and every interleaving: popped values are the claimed ones whole and in order, each producer's order is kept, and no slot is written and read, or written twice, at once |
| `MpscRing.Ring.RealTimeOrder` | include/core/ring_buffer.hpp:136-181 | a push that has returned lies before every push called later by any producer, and is popped before it |
| `MpscRing.Ring.DrainedMeansEverythingPopped` | include/core/ring_buffer.hpp:136-181 | when all producers are out and a pop would be refused, every pushed item has been popped: none is lost |
| `MpscRing.Ring.ClaimsAreCalls` | include/core/ring_buffer.hpp:136-163 | what a producer claims are the items of some of its own calls, whole, each once and in the order of the calls; inside a call it holds that call's item |
| `MpscRing.Ring.PopsAreCalls` | include/core/ring_buffer.hpp:136-181 | so every push that returned true, and every popped item, is the item a call was made with |
| `MpscRing.Ring.PushesAreAnswered` | include/core/ring_buffer.hpp:136-163 | every call of try_push has returned true, has returned false on finding the ring full at an up-to-date position, or is under way; a failed compare-exchange ends none |
| `MpscRing.Ring.PopsAreAnswered` | include/core/ring_buffer.hpp:167-181 | every call of try_pop has returned an item, has found none published, or is under way |
| `MpscRing.Ring.SoloPush` | include/core/ring_buffer.hpp:136-163 | from any reachable state, wherever the others stand still, a push running alone ends within width + 5 steps, true exactly when the ring has room |
| `MpscRing.Ring.SoloPop` | include/core/ring_buffer.hpp:167-181 | and a pop within width + 3 steps, with an item exactly when the next one is published |
| `MpscRing.OneSlotLosesItems` | include/core/ring_buffer.hpp:104-106 | a run of a one-slot ring in which two pushes succeed and the first item is overwritten |
| `MpscRing.SafeIffTwoSlots` | include/core/ring_buffer.hpp:104-106 | all runs are safe if and only if the capacity is at least 2 |
| `MpscWords.BranchAgreesIff` | include/core/ring_buffer.hpp:138-163 | the signed difference of the wrapped numbers decides as the unbounded one if and only if the slot is less than 2^63 ahead |
| `MpscWords.StepAgrees` | include/core/ring_buffer.hpp:136-181 | with wrapped counters and masked slots every step leads to the wrapped state that the unbounded step leads to |
| `MpscWords.WordsRunAlike` | include/core/ring_buffer.hpp:136-181 | as long as no step looks at a slot 2^63 ahead of its position, or compares a position with a cursor 2^64 ahead, the wrapped ring has exactly the runs of the unbounded one |
| `MpscWords.PromptIsInReach` | include/core/ring_buffer.hpp:136-181 | no step does while every producer's position lags the write cursor by at most 2^63 - capacity |
| `MpscWords.ShortRunsStayInReach` | include/core/ring_buffer.hpp:136-181 | which holds of itself for the first 2^63 - capacity pushes |
| `MpscWords.EmptyRingRefuses` | include/core/ring_buffer.hpp:138-163 | a run after which a producer that stalled for 2^63 pushes and pops takes the empty ring for full |
| `MpscWords.WordRunsAreSafe` | include/core/ring_buffer.hpp:136-181 | so the wrapped ring pops the claimed items whole and in order and keeps each producer's order |
| `MpscWords.WordPopsAreCalls` | include/core/ring_buffer.hpp:136-181 | and what it returns and pops are the items of calls |
| `SpscRing.SlotOfCount` | include/core/ring_buffer.hpp:35-47 | masking a 64-bit counter gives the slot of the unbounded count, before and after it wraps |
| `SpscRing.SpscRingBuffer.TryPush` | include/core/ring_buffer.hpp:41-51 | appends exactly when fewer than `Capacity` items are queued, and changes nothing otherwise |
| `SpscRing.SpscRingBuffer.TryPop` | include/core/ring_buffer.hpp:54-64 | removes the oldest item exactly when there is one, and leaves the caller's value otherwise |
| `SpscProtocol.Ring.StepInv` | include/core/ring_buffer.hpp:41-64 | every load, word store, copy and publication keeps the invariant, with views of the other cursor as stale as coherence allows and counters modulo 2^64 |
| `SpscProtocol.Ring.RunsAreSafe` | include/core/ring_buffer.hpp:41-64 | in every run popped is a prefix of pushed, the two threads never touch one slot at once, and refusals agree with the view that was read |
| `SpscProtocol.Ring.StepsRefineFifo` | include/core/ring_buffer.hpp:41-64 | each step is one operation of a bounded FIFO or none |
| `SpscProtocol.Ring.CallsAreAnswered` | include/core/ring_buffer.hpp:41-64 | every push has gone in, was refused at a pop count at which the ring was full, or is under way; likewise every pop |
| `SpscProtocol.Ring.SoloPush` | include/core/ring_buffer.hpp:41-51 | wherever the consumer has stopped, a push ends within width + 3 steps, in exactly when the ring has room |
| `SpscProtocol.Ring.SoloPop` | include/core/ring_buffer.hpp:54-64 | wherever the producer has stopped, a pop ends within width + 2 steps, with an item exactly when there is one |
| `Cusum.Config.SumsAreSuffixExtremes` | include/detect/cusum.hpp:67-74 | the two running sums are the extreme suffix sums of the residuals since the last alarm |
| `Cusum.Config.FiresIffSomeSuffix` | include/detect/cusum.hpp:67-74 | with h >= 0 a sample fires exactly when some suffix since the last alarm has sum(r - k) > h or sum(r + k) < -h |
| `Cusum.Config.SumsArePaidFor` | include/detect/cusum.hpp:67-74 | alarms times h plus what the sums hold is at most the sum of max(0, abs(r) - k) |
| `Cusum.Config.FiresArePaidFor` | include/detect/cusum.hpp:67-74 | over any run, alarms times h is at most the sum of max(0, abs(r) - k) |
| `Cusum.Config.SustainedShiftFires` | include/detect/cusum.hpp:67-74 | residuals all at least k + d, or all at most -(k + d), fire within floor(h / d) + 1 samples whatever came before |
| `Cusum.Config.DecisionsIgnoreScale` | include/detect/cusum.hpp:48-76 | rescaling and shifting a stream, even with a negative factor, changes no decision |
| `Cusum.Config.MomentsAreAverages` | include/detect/cusum.hpp:39-65 | for any stream, with q = 1 - alpha, the mean is q^(n-1) x_0 plus the sum of alpha q^(n-1-i) x_i, and the variance the same average of the squared distances from the means before, 0 for the seed |
| `Cusum.Config.WeightsAreAverage` | include/detect/cusum.hpp:63-65 | those weights add up to 1 |
| `Cusum.Config.JumpMoments` | include/detect/cusum.hpp:63-65 | j samples after a constant stream jumps, the mean lags by q^j of the jump and the variance is D^2 q^(j-1) (1 - q^j) |
| `Cusum.Config.JumpResidual` | include/detect/cusum.hpp:60-65 | the squared residual is then q^(j+1) / (1 - q^j) and its sign is the jump's |
| `Cusum.Config.JumpSizeIsIrrelevant` | include/detect/cusum.hpp:48-76 | whether such a jump fires does not depend on its size, direction or origin |
| `Cusum.Config.JumpFiresIff` | include/detect/cusum.hpp:48-76 | with k >= 0 the constant stretch leaves no trace: the jump fires j samples later exactly when its own residuals fire |
| `Cusum.Config.JumpDecision` | include/detect/cusum.hpp:48-76 | so does a unit jump from 0, which has neither the stretch's level or length nor the size in it |
| `Cusum.Config.UnitResiduals` | include/detect/cusum.hpp:60-65 | the residuals of that jump: 0, then the roots of q^(i+1) / (1 - q^i) |
| `Cusum.Config.OnlyParametersDecideIff` | include/detect/cusum.hpp:48-76 | all stretches past warm-up and all jumps give the same decision j samples later, for every j, if and only if k >= 0 or h + k < 0 |
| `Cusum.LongerStretchFires` | include/detect/cusum.hpp:48-76 | with k = -1 and h = 2 a jump after three zeros fires at once and after one zero does not |
| `Cusum.CusumDetector.UpdateAndCheck` | include/detect/cusum.hpp:35-77 | the per-stream state tracks exactly the samples of that stream, and the call fires exactly as the batch definition over them says |
| `Conformal.SortedCounts` | include/detect/conformal.hpp:76-76 | sorting changes no count of scores at or below a value |
| `Conformal.QuantileMeaning` | include/detect/conformal.hpp:66-87 | for alpha >= 0 the threshold is a window score v with at least (1 - alpha) n scores at or below it and at most alpha n above, and every smaller score u has fewer than (1 - alpha) n at or below it |
| `Conformal.NegativeAlpha` | include/detect/conformal.hpp:78-86 | a negative alpha asks for more than all scores and gets the largest |
| `Conformal.LastOfMeaning` | include/detect/conformal.hpp:44-60 | the window is the last W scores: min(n, W) of them, in order |
| `Conformal.QuantileAntitone` | include/detect/conformal.hpp:66-87 | a larger alpha never raises the threshold |
| `Conformal.AtMostBudgetFlagged` | include/detect/conformal.hpp:66-97 | of any n + 1 scores, each tested against the threshold of the others, at most alpha n + 1 are flagged |
| `Conformal.ConformalThreshold.Update` | include/detect/conformal.hpp:44-60 | the in-place ring of a stream holds its last W scores in arrival order, and no other stream changes |
| `Conformal.ConformalThreshold.SortWindow` | include/detect/conformal.hpp:73-76 | the scratch buffer gets the window in ascending order |
| `Conformal.ConformalThreshold.Threshold` | include/detect/conformal.hpp:66-87 | the in-place computation returns the order statistic of the window, infinite when it is empty |
| `Conformal.ConformalThreshold.IsAnomalous` | include/detect/conformal.hpp:94-97 | a score is flagged exactly when it exceeds that threshold |
| `Bocpd.AbsorbMoments` | python/research/bocpd.py:126-131 | a conjugate update adds the sample to kappa mu and its square to 2 beta + kappa mu^2 |
| `Bocpd.PosteriorIsUnique` | python/research/bocpd.py:126-131 | the four batch equations determine the statistics |
| `Bocpd.Model.PosteriorIsDistribution` | python/research/bocpd.py:112-122 | before truncation the probabilities are positive, sum to 1, and give run length 0 exactly the hazard |
| `Bocpd.Model.TruncationIsDistribution` | python/research/bocpd.py:137-142 | truncating and rescaling leaves a distribution in which no probability fell and none but the first is below the cutoff |
| `Bocpd.Model.ObserveUpdates` | python/research/bocpd.py:106-147 | what an update keeps: run length 0 always, and r + 1 exactly when its share, probability times density times 1 - hazard over the total, reaches the cutoff; each new probability times the kept total is the share, and each kept run absorbs the sample |
| `Bocpd.Model.BeliefIsFaithful` | python/research/bocpd.py:123-146 | after any samples and truncations every retained run length r carries the batch Normal-Gamma posterior of the last r samples, the probabilities sum to 1 and P(r = 0) is at least the hazard |
| `Bocpd.Model.FewRunLengths` | python/research/bocpd.py:137-142 | at most 1 + 1 / trunc_thresh run lengths are retained |
| `BocpdExact.PosteriorIsBayes` | python/research/bocpd.py:106-147 | without truncation the reported probability of each run length is its share of the joint density: the sum over all histories of changepoints that end in it, each weighed as a product, over the sum for all histories |
| `BocpdExact.HistoriesAreAll` | python/research/bocpd.py:106-120 | the histories summed over are each sequence of continued and ended runs, once |
| `BocpdExact.WaysIsSum` | python/research/bocpd.py:106-120 | the backward recursion over the samples to come equals the sum over all their histories |
| `BocpdExact.RunsPartition` | python/research/bocpd.py:116-122 | the joint densities of the run lengths add up to the density of the samples |
| `Bocpd.DetectionsAscend` | python/research/bocpd.py:180-197 | detections are increasing sample indices |
| `Bocpd.DetectsExactly` | python/research/bocpd.py:180-197 | a sample is reported exactly when it is past warm-up, no earlier report is within min_gap, and the mass exceeds the threshold or the run length falls by at least map_drop_min and prev // 2 |
| `Bocpd.ReadoutMeaning` | python/research/bocpd.py:149-155 | what `detect` reads after a sample: the sum of the probabilities of run lengths up to the window, a run length of the largest probability and the first such in the array, and the one read before |
| `Bocpd.RecentIsSum` | python/research/bocpd.py:153-155 | masking and adding is adding with zeros for the others |
| `Bocpd.Readout.TriggersAsDocumentedIff` | python/research/bocpd.py:167-192 | the coded triggers and the documented ones agree exactly unless the drop is half rounded down, at least `map_drop_min`, and the mass criterion is silent |
| `BocpdDrop.HalfIsEnough` | python/research/bocpd.py:157-197 | with the default arguments `detect` reports exactly the last sample of 61 zeros and a one, a fall from 61 to 31, and no sample past warm-up is a documented trigger |
| `Bocpd.BOCPD.Create` | python/research/bocpd.py:58-72 | a hazard_lambda of 1 or less is refused, and nothing else |
| `Bocpd.BOCPD.Reset` | python/research/bocpd.py:74-84 | forgets every sample |
| `Bocpd.BOCPD.Update` | python/research/bocpd.py:106-147 | rebinds the arrays to what `ObserveUpdates` says of the arrays before, and they stay faithful and calibrated |
| `Bocpd.BOCPD.Detect` | python/research/bocpd.py:157-197 | returns the detections of the readouts of the whole stream |
| `Message.BytesRoundTrip` | include/replay/record_format.hpp:36-62 | a number is the value of its little-endian bytes |
| `RecordFormat.PutU32` | include/replay/record_format.hpp:36-41 | writes the little-endian bytes of a value and no others |
| `RecordFormat.PutU64` | include/replay/record_format.hpp:43-47 | the same for 8 bytes |
| `RecordFormat.GetU32` | include/replay/record_format.hpp:49-54 | or-ing the shifted bytes gives their value |
| `RecordFormat.GetU64` | include/replay/record_format.hpp:56-62 | the same for 8 bytes |
| `RecordFormat.EncodeRecord` | include/replay/record_format.hpp:65-71 | overwrites the buffer with the message's 64-byte record, padding zeroed |
| `RecordFormat.DecodeRecord` | include/replay/record_format.hpp:75-80 | reads the message a record says, whatever its padding |
| `RecordFormat.DecodeRecordOf` | include/replay/record_format.hpp:65-80 | decoding an encoded message gives it back bit for bit |
| `RecordFormat.RecordLayout` | include/replay/record_format.hpp:8-14 | each of the 64 bytes: which field, which byte of it, or zero |
| `RecordFormat.StatusMeaning` | include/replay/replayer.hpp:27-48 | a file passes exactly when it starts with 54 52 45 43 01 00 00 00; the magic number is at fault exactly when the first four differ or eight bytes are not there |
| `RecordFormat.CutReplaysWholeRecords` | include/replay/replayer.hpp:52-66 | a recording cut at L >= 8 bytes replays exactly its first floor((L - 8) / 64) messages |
| `Replay.StreamRecorder.Write` | include/replay/recorder.hpp:40-48 | true exactly when the whole record was written; the file then is the recording of the accepted messages |
| `Replay.RecordingSurvivesFailure` | include/replay/recorder.hpp:40-48 | wherever the device failed, the file replays exactly the messages whose write returned true |
| `Replay.StreamReplayer.constructor` | include/replay/replayer.hpp:27-48 | the status is that of the header |
| `Replay.StreamReplayer.Next` | include/replay/replayer.hpp:52-66 | returns the messages in order; at the end truncation is reported exactly when bytes are left over |
| `Replay.StreamReplayer.Drain` | include/replay/fault_injector.hpp:110-115 | pulling until dry gives all whole messages and the truncation flag |
| `Replay.RecordCutReplay` | include/replay/replayer.hpp:27-66 | record, cut anywhere, replay: inside the header a bad magic number and nothing else, from there on the first floor((L - 8) / 64) messages, truncated iff (L - 8) mod 64 is not 0 |
| `Checksum.StreamChecksum.Update` | include/replay/checksum.hpp:21-31 | the state is the digest of all messages so far |
| `Checksum.FoldIsBijective` | include/replay/checksum.hpp:27-30 | folding a byte is a bijection of the 64-bit state |
| `Checksum.UpdateIsBijective` | include/replay/checksum.hpp:21-31 | so is folding any byte string |
| `Checksum.FoldSeparatesBytes` | include/replay/checksum.hpp:27-30 | from one state different bytes lead to different states |
| `Checksum.OneByteChangesDigest` | include/replay/checksum.hpp:21-38 | streams whose contents differ in exactly one byte have different digests, wherever it is and whatever follows |
| `Checksum.ContentIsRecord` | include/replay/checksum.hpp:22-26 | the 28 bytes folded are those of the record without its padding |
| `Checksum.ContentsAreInjective` | include/replay/checksum.hpp:22-26 | different streams have different contents |
| `Checksum.OneFieldByteChangesDigest` | include/replay/checksum.hpp:21-38 | two streams that differ in one byte of one field of one message have different digests |
| `KnownValues.HashOfA` | include/replay/checksum.hpp:27-38 | the hash of the letter a is AF63DC4C8601EC8C, as published for 64-bit FNV-1a |
| `FaultInjection.FaultInjector.NextRand` | include/replay/fault_injector.hpp:206-212 | the generator step and its output are functions of the 64-bit state alone |
| `SplitMix.ShiftXorInjective` | include/replay/fault_injector.hpp:209-211 | xor with its own right shift determines a word |
| `SplitMix.MixedIsInjective` | include/replay/fault_injector.hpp:206-212 | different states give different draws |
| `SplitMix.DrawsNeverRepeat` | include/replay/fault_injector.hpp:206-212 | 2^64 successive draws from a seed are all different |
| `SplitMix.SeedsDiffer` | include/replay/fault_injector.hpp:206-212 | different seeds give different draws at every turn |
| `SplitMix.MixedReaches` | include/replay/fault_injector.hpp:206-212 | every word is the mix of some state |
| `SplitMix.DrawReaches` | include/replay/fault_injector.hpp:206-212 | every word is the n-th draw from some seed |
| `KnownValues.FirstDraw` | include/replay/fault_injector.hpp:206-212 | the first draw from seed 0 is E220A8397B1DCDAF, as published for SplitMix64 |
| `FaultInjection.FaultInjector.FindIndices` | include/replay/fault_injector.hpp:130-134 | finds the global indices of a stream, whatever faults were applied before |
| `FaultInjection.FaultInjector.PickOnset` | include/replay/fault_injector.hpp:138-143 | a given onset is kept and draws nothing, an automatic one is the draw `OnsetIsDrawn` speaks of |
| `FaultInjection.OneDrawPerOpenOnset` | include/replay/fault_injector.hpp:136-143 | the generator advances once for each automatic spec with samples and a duration, and never otherwise |
| `FaultInjection.OnsetIsDrawn` | include/replay/fault_injector.hpp:136-143 | the k-th such spec starts at the k-th draw modulo one more than the last onset at which it fits |
| `FaultInjection.EveryOnsetIsDrawn` | include/replay/fault_injector.hpp:138-143 | each of those onsets is drawn from some seed |
| `FaultInjection.FaultInjector.OpenWindow` | include/replay/fault_injector.hpp:145-154 | where a fault ends, modulo 2^64 and clipped to the stream, with the times of its first and last sample |
| `FaultInjection.FaultInjector.ApplyWindow` | include/replay/fault_injector.hpp:156-175 | changes exactly the covered samples, each from its original value |
| `FaultInjection.FaultInjector.ApplySpec` | include/replay/fault_injector.hpp:129-176 | one spec in place gives what the windows so far make of the input |
| `FaultInjection.FaultInjector.Inject` | include/replay/fault_injector.hpp:118-187 | output, labels and generator state are functions of input, specs and seed |
| `FaultInjection.ValueIsLastOverwrite` | include/replay/fault_injector.hpp:156-175 | a sample's value is that of the last non-dropout window covering it, applied to the original value |
| `FaultInjection.UntouchedValue` | include/replay/fault_injector.hpp:156-175 | with no such window it is the original, bit for bit |
| `FaultInjection.OutputMeaning` | include/replay/fault_injector.hpp:182-185 | the written samples are those no dropout covers, in order, with stream, time and sequence number unchanged |
| `FaultInjection.NoFaultsNoChange` | include/replay/fault_injector.hpp:118-187 | no specs, no change |
| `FaultInjection.DriftCompletesIff` | include/replay/fault_injector.hpp:145-166 | the last drift step is the full duration exactly when the stream does not end first; an end that wraps around leaves no step |
| `FaultInjection.DriftClimbs` | include/replay/fault_injector.hpp:6-9 | a drift adds step 1, 2, ... of `duration` to the original values, and its last step is all of the magnitude exactly when the stream does not end before |
| `FaultInjection.ClippedDrift` | include/replay/fault_injector.hpp:144-175 | a drift over four samples that meets the end of the stream after two gets to step 2 of 4 and no further |
| `FaultInjection.WindowsRealiseSpecs` | include/replay/fault_injector.hpp:129-152 | each spec that finds a sample at its onset has exactly one window and label, in order: of its kind and stream, at the onset asked for or a drawn one at which the whole fault fits if it can, for its duration or to the end of the stream |
| `FaultInjection.InjectFile` | include/replay/fault_injector.hpp:103-202 | from file to files: fails exactly on a bad header, an unopenable or full output or an unwritable labels file, and otherwise writes the recording of the faulted samples and the text of their labels |
| `FaultInjection.FaultedFilesReadBack` | include/replay/fault_injector.hpp:178-199 | both files read back to what was written |
| `FaultLabels.TakenApartIff` | include/replay/fault_injector.hpp:241-252 | a line splits into four fields exactly when it is they with bars between, none in the first three |
| `FaultLabels.LineLabelIff` | include/replay/fault_injector.hpp:239-265 | a line is accepted exactly when it is four well-formed fields in range |
| `FaultLabels.WriteLabels` | include/replay/fault_injector.hpp:193-196 | writes one line per label |
| `FaultLabels.FileLine` | include/replay/fault_injector.hpp:64-72 | each label adds its stream number, spike, drift, stuck_at_value or dropout, and its two times, between bars |
| `Decimal.SomeNumbers` | include/replay/fault_injector.hpp:193-196 | numbers are written in decimal, the highest digit first and a minus sign before |
| `FaultLabels.ReadLabels` | include/replay/fault_injector.hpp:234-267 | the loop returns the labels of the lines that are good, none if the file does not open |
| `FaultLabels.LabelsRoundTrip` | include/replay/fault_injector.hpp:193-267 | writing any labels and reading the file gives them back |
| `FaultLabels.BadLineIsSkipped` | include/replay/fault_injector.hpp:231-233 | a bad line anywhere costs only itself |
| `Evaluation.MatchMeaning` | python/agent/evaluate.py:55-68 | an alert gets the type of the earliest-starting label holding it, first in file order on ties; a false alarm exactly when none holds it |
| `Evaluation.LabelHoldsIff` | python/agent/evaluate.py:61-65 | with strictly increasing times per stream, a label holds a sample exactly when its fault covers it |
| `Evaluation.FaultsAreNeverFalseAlarms` | python/agent/evaluate.py:55-68 | with non-decreasing times per stream, no changed or removed sample is ever a false alarm, for any specs and seed |
| `Evaluation.FalseAlarmIff` | python/agent/evaluate.py:55-68 | with strictly increasing times a sample is a false alarm exactly when no fault covers it |
| `Evaluation.SoleFaultIsNamed` | python/agent/evaluate.py:66-68 | and a sample that one fault covers gets that fault's type |
| `FeedHandler.AcceptedAscend` | include/feed/handler.hpp:105-120 | accepted sequence numbers are strictly increasing |
| `FeedHandler.AcceptedAndGapsTile` | include/feed/handler.hpp:105-120 | accepted numbers and reported open gaps cover each number from first to last exactly once |
| `FeedHandler.AcceptedIff` | include/feed/handler.hpp:105-120 | a number is accepted exactly when it was larger than all that had arrived |
| `FeedHandler.GapsIff` | include/feed/handler.hpp:105-120 | a gap is reported exactly between two accepted numbers in a row that are not adjacent |
| `FeedHandler.FeedHandler.AcceptSeq` | include/feed/handler.hpp:105-120 | acceptance, the new last number and the reported gap |
| `FeedHandler.FeedHandler.Reset` | include/feed/handler.hpp:97-98 | forgets all streams |
| `FeedHandler.FeedHandler.Handle` | include/feed/handler.hpp:72-90 | pushes exactly the fresh ticks the ring has room for; heartbeats only count as arrivals; anything else leaves no trace |
| `FeedHandler.IngestPath.Arrive` | include/feed/handler.hpp:72-90 | one message through handler and ring: pushed exactly when it is a fresh tick and there is room |
| `FeedHandler.IngestPath.Reconnect` | include/feed/handler.hpp:96-98 | a reconnect starts a new session and leaves the ring as it is |
| `FeedHandler.IngestPath.PoppedTicksIncrease` | include/feed/handler.hpp:72-120 | between resets the ticks popped from the ring are strictly increasing per stream, even when a full ring dropped some |
| `SpscProtocol.Ring.PushesAreCalls` | include/core/ring_buffer.hpp:41-51 | what is pushed are the items of some of the calls, each once and in order |
| `Ingest.AttemptsIncrease` | include/feed/handler.hpp:72-120 | the ticks the handler tries to push increase per stream between two reconnects, whatever arrives |
| `Ingest.FreshMeaning` | include/feed/handler.hpp:72-120 | fresh means larger than every number the stream has brought, as a tick or a heartbeat, since the last reconnect |
| `Ingest.FreshTicksAreAttempted` | include/feed/handler.hpp:72-120 | exactly the fresh ticks are pushed, in order |
| `Ingest.ConcurrentTicksIncrease` | include/feed/handler.hpp:72-120 | for every interleaving of the feed thread and the consumer, stale views and refused pushes included, the popped ticks are accepted ones, whole, once, in order, and increase per stream and session |
| `Calendar.DaysMeaning` | include/feed/coinbase.hpp:39-46 | the 32-bit formula counts days from 1 March by Gregorian leap-year arithmetic, for all years |
| `Calendar.NextDayIsOneMore` | include/feed/coinbase.hpp:39-46 | the day number goes up by exactly one per valid day, negative years included |
| `Calendar.DaysKeepOrder` | include/feed/coinbase.hpp:39-46 | day numbers order dates, and are distinct |
| `Calendar.EpochIsZero` | include/feed/coinbase.hpp:39-46 | 1970-01-01 is day 0 |
| `Rfc3339.ReadUint` | include/feed/coinbase.hpp:48-64 | reads exactly `count` digits or moves nothing |
| `Rfc3339.ReadFraction` | include/feed/coinbase.hpp:84-99 | the loops compute the first nine fraction digits, padded |
| `Rfc3339.ParseRfc3339Ns` | include/feed/coinbase.hpp:68-103 | the index-driven parser computes the function of the text the lemmas are about |
| `Rfc3339.ParsedIff` | include/feed/coinbase.hpp:68-103 | a text is parsed exactly when its first nineteen characters are digits and separators in their places, the month is 1 to 12 and the day 1 to 31 |
| `Rfc3339.LeadingIsFloor` | include/feed/coinbase.hpp:84-99 | those digits are the fraction in nanoseconds, rounded down |
| `Rfc3339.ParsedIsLocal` | include/feed/coinbase.hpp:68-103 | printing any valid timestamp of section 5.6 of RFC 3339 and parsing it gives its local clock in nanoseconds |
| `Rfc3339.ParsedIsInstantIff` | include/feed/coinbase.hpp:68-103 | that is the instant rounded down exactly when the offset is zero |
| `Rfc3339.OffsetIsIgnored` | include/feed/coinbase.hpp:84-103 | a timestamp at +05:30 the parser gets wrong |
| `Rfc3339.ParsedFits` | include/feed/coinbase.hpp:68-103 | in the years 1678 to 2261 the result fits int64 |
| `Rfc3339.ParsedKeepsOrder` | include/feed/coinbase.hpp:68-103 | parsing keeps the order of two instants if the first one's offset is at most the second one's |
| `Rfc3339.KeepsOrderIff` | include/feed/coinbase.hpp:68-103 | for two offsets parsing keeps the order of all instants if and only if the first is at most the second |
| `Rfc3339.OrderIsSwapped` | include/feed/coinbase.hpp:84-103 | 17:30+05:30 comes before 13:00Z and is parsed as later |
| `Rfc3339.ShortFractionsAreExact` | include/feed/coinbase.hpp:84-99 | with at most nine fraction digits nothing is rounded |
| `PoolAllocator.StrideIsLeast` | include/core/pool_allocator.hpp:29-33 | the masked rounding gives the least aligned size that holds the block and a pointer |
| `PoolAllocator.BlocksFitIff` | include/core/pool_allocator.hpp:36-61 | all blocks lie in the storage exactly when stride times count does not wrap, whatever the sizes |
| `PoolAllocator.WrappedPool` | include/core/pool_allocator.hpp:36-44 | for every block size that is a power of two from 16 on, a block count whose byte count wraps to the size of one block |
| `PoolAllocator.BlocksFromSpread` | include/core/pool_allocator.hpp:57-61 | the blocks are `count` aligned addresses, in bounds |
| `PoolAllocator.PoolAllocator.ListIsAcyclic` | include/core/pool_allocator.hpp:54-61 | following the list meets every free block once and ends |
| `PoolAllocator.PoolAllocator.constructor` | include/core/pool_allocator.hpp:23-62 | builds the list of all blocks by address, aligned, in bounds and disjoint, or an empty pool when allocation fails or the byte count is or wraps to 0 |
| `PoolAllocator.PoolAllocator.Allocate` | include/core/pool_allocator.hpp:75-80 | returns a block that was not live, and null exactly when all are |
| `PoolAllocator.PoolAllocator.Deallocate` | include/core/pool_allocator.hpp:84-88 | a live block goes to the head of the list; null is ignored |
| `PoolAllocator.PoolAllocator.ClientWrite` | include/core/pool_allocator.hpp:75-88 | what clients write into live blocks cannot break the list |
| `LiveSync.SplitsAtNewline` | python/api/live.py:119-124 | splitting a chunk at its last newline changes no line |
| `LiveSync.SplitOfText` | python/api/live.py:124-124 | lines written with any mix of the three line ends split back into those lines |
| `LiveSync.TextOfSplit` | python/api/live.py:124-124 | and every text is its lines with such ends between |
| `LiveSync.GoodRowIff` | python/api/live.py:127-134 | which lines give a row, and its five fields |
| `LiveSync.FatalIff` | python/api/live.py:127-134 | which lines raise what nothing catches |
| `LiveSync.TruncatesTowardZero` | python/api/live.py:127-127 | a number that is not whole loses its fraction, whatever its sign |
| `LiveSync.LastNewline` | python/api/live.py:119-122 | the last newline, or none |
| `LiveSync.LiveEngineSource.InsertLines` | python/api/live.py:124-134 | the loop inserts the rows of the good lines in order, skips the bad ones, and raises on the rest |
| `LiveSync.LiveEngineSource.SyncAlerts` | python/api/live.py:99-143 | rows and offset move together or not at all |
| `LiveSync.World.StepKeepsInv` | python/api/live.py:99-143 | appends, file size, offset, read, commit and crash, in any order, keep the table exact |
| `LiveSync.TableIsExact` | python/api/live.py:99-143 | in every schedule the table is the well-formed complete lines before the offset, once each and in order, and the offset is the start of a line |
| `LiveSync.World.RefreshCatchesUpIff` | python/api/live.py:99-143 | an undisturbed refresh reaches the last complete line exactly when no complete line raises |
| `LiveSync.ScheduleDoesNotMatter` | python/api/live.py:99-143 | the table is then a function of the file, however it was appended; exactly when no complete line raises |
| `LiveSync.World.BlockedForever` | python/api/live.py:124-134 | past a line that raises nothing is ever imported |
| `LiveSync.InfinityStopsImports` | python/api/live.py:127-131 | one line with an infinite number ends all imports |
| `Dedupe.Dedupe.constructor` | go/delivery/dedupe.go:17-22 | a capacity below 1 becomes 1 |
| `Dedupe.Dedupe.Check` | go/delivery/dedupe.go:27-42 | a key among the newest `max` acceptances gets its own id and is a duplicate; any other is accepted |
| `Dedupe.Dedupe.Len` | go/delivery/dedupe.go:45-49 | the map holds min(max, accepted) keys |
| `Dedupe.AcceptKeepsSpread` | go/delivery/dedupe.go:31-41 | two acceptances of a key are more than `max` acceptances apart |
| `Dedupe.AcceptHolds` | go/delivery/dedupe.go:34-41 | evicting the oldest keeps queue and map equal to the newest acceptances |
| `Server.Server.HandleAlerts` | go/delivery/server.go:58-103 | a bad request changes nothing; the key is the header's, or derived when it is empty; a remembered key gets the id first issued and is not dispatched; any other is dispatched once |
| `Server.Server.DispatchesAreSpread` | go/delivery/server.go:85-100 | equal keys are dispatched more than `max` acceptances apart |
| `Dispatcher.OneResult` | go/delivery/dispatcher.go:96-137 | replies and clock admit one result |
| `Dispatcher.ResultInNumbers` | go/delivery/dispatcher.go:113-162 | attempts are repeated after 429, 5xx and failures in a live context; 200 to 299 is delivered; any other status is final |
| `Dispatcher.Dispatcher.constructor` | go/delivery/dispatcher.go:52-66 | fewer than one attempt becomes one |
| `Dispatcher.Dispatcher.DeliverOne` | go/delivery/dispatcher.go:96-137 | exactly one of delivered and dead-lettered, after 1 to MaxAttempts attempts, all but the last worth repeating; the dead letter counts the attempts made |
| `Dispatcher.Dispatcher.Deliver` | go/delivery/dispatcher.go:86-94 | every subscriber gets one result; the error returned is that of the first that failed, none if all were delivered |
| `Sidecar.Sidecar.CountersStep` | go/delivery/dispatcher.go:96-137 | every atomic step keeps each counter equal to what it counts |
| `Sidecar.Sidecar.TracesStep` | go/delivery/dispatcher.go:96-195 | and the requests and dead letters equal to the results |
| `Sidecar.Sidecar.ResultsAreFinal` | go/delivery/dispatcher.go:86-94 | a result, once reached, never changes |
| `Sidecar.Sidecar.PostMeaning` | go/delivery/server.go:85-100 | a post is a duplicate exactly when one of the last dedupeMax accepted alerts has its key |
| `Sidecar.Sidecar.PostsAreAnswered` | go/delivery/server.go:85-100 | in every run each post is one accepted alert or one duplicate |
| `Sidecar.Sidecar.WorkDecreases` | go/delivery/dispatcher.go:96-137 | every step but a post brings the end nearer, whatever the subscribers answer |
| `Sidecar.Sidecar.QuietOrEnabled` | go/delivery/server.go:85-100 | some step is possible until everything has settled |
| `Sidecar.Sidecar.SettlesWithin` | go/delivery/dispatcher.go:96-137 | without further posts everything settles after a bounded number of steps |
| `Sidecar.EveryPairSettlesOnce` | go/delivery/dispatcher.go:86-137 | for every interleaving: once settled, delivered + dead-lettered = accepted x subscribers, and each pair has one result, 1 to MaxAttempts requests and, iff it failed, one dead letter with that number |
| `Sidecar.InterleavingDoesNotMatter` | go/delivery/dispatcher.go:86-137 | in every interleaving each result is the one `DeliverOne` gives for that subscriber and clock alone |
| `Sidecar.RetainedKeyIsNotDispatchedTwice` | go/delivery/dedupe.go:27-42 | under concurrent posts a key still retained is never dispatched again |
| `WordArith.MaskIsMod` | include/core/ring_buffer.hpp:35-47 | masking with a power of two minus one is the remainder |
| `WordArith.MaskAcrossWrap` | include/core/ring_buffer.hpp:35-60 | and agrees with the unbounded counter across wrap-around |
| `WordArith.PowerOfTwoCheck` | include/core/ring_buffer.hpp:31-33 | `(c & (c - 1)) == 0` with c > 0 holds exactly for powers of two |
| `WordArith.HighMaskRoundsDown` | include/core/pool_allocator.hpp:33-33 | `& ~(2^k - 1)` rounds down to a multiple of 2^k |

## Left out

- JSON parsing, WebSocket and HTTP clients, FastAPI routes, bindings, benchmarks, deployment: input and output, and foreign libraries. The models start from parsed values, bytes and replies.
- HMAC signing and SHA-256: `DeriveKey` and `deliveryID` are arbitrary functions.
- The rules and baseline layers, `Backoff`, the ADS-B and GridRadar adapters: they would only add easy members or repeat the ones here.
- The triage agent and memo scoring: prompt plumbing.
- MpscWords.WordRunsAreSafe: is about runs that stay in reach; beyond, `BranchAgreesIff` says which branch a push takes, not what the run does then. The signed difference is taken in two's complement; the source's subtraction overflows where a position crosses 2^63. Slot-sequence loads see the current value; the acquire/release pairing behind that is taken as given, and cursor loads may be stale.
- The MPSC ring and the SPSC protocol are modelled on values, since their threads interleave inside a call; the class `SpscRingBuffer` is the sequential view of the SPSC ring.
- MpscRing.Ring.SoloPush: under contention a producer may be overtaken without end, in the source too; that some producer always gets on is not stated.
- Floating-point rounding, NaN and infinities in the detectors; BOCPD's `total <= 0` branch cannot be reached with a positive density, and overflow to it is not modelled.
- BocpdExact.PosteriorIsBayes: is about trunc_thresh <= 0, because truncation is an approximation; what stays exact through truncation is in `BeliefIsFaithful`, and what one update keeps in `ObserveUpdates`.
- BocpdDrop.HalfIsEnough: is about one density that peaks at a single sample and run length; which streams do this to the source's Student-t density is not modelled, since that density is a parameter.
- Ingest.ConcurrentTicksIncrease: a tick is four payload words; the handler is the function of its arrivals that `FeedHandler.FeedHandler.Handle` and `FeedHandler.FeedHandler.Reset` compute.
- `std::sort` is modelled by its unique result.
- Replay.StreamRecorder.Write: the device takes a number of bytes and then fails; buffering inside ofstream is not modelled.
- FaultInjection.InjectFile: exceptions from allocation, which the source turns into a failure, are not modelled.
- Rfc3339.ParsedIsInstantIff: leap seconds and out-of-range hours, minutes and seconds, which the parser accepts, are not among the valid timestamps.
- Rfc3339.ParseRfc3339Ns: does not model int64 overflow, which needs years before 1678 or after 2261; inside them `ParsedFits` excludes it.
- PoolAllocator.PoolAllocator.constructor: takes `alignof(std::max_align_t)` as 16 and `sizeof(void*)` as 8, and memory as a map from addresses of pointers; freeing a foreign or dead block is undefined in the source and excluded.
- Concurrent `refresh()` calls: nothing in the source serialises them, and the model has one refresh at a time. A failed SQLite statement counts as a crash.
- Dispatcher.Dispatcher.DeliverOne: an attempt whose request cannot be built counts as a request, as in the source's own attempt count; a dead letter that cannot be marshalled or written is not modelled, and the time and body in it are left out.
- The sidecar state machine models a configured dead-letter writer and not the `retried` counter, which `DeliverOne` covers; deliveries in flight when the process dies are lost, as the source documents.
