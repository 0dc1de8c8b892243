# Verified model of the MEC fusion system

A Dafny 4.11 model of the core of a roadside multi-sensor fusion system, with machine-checked proofs.
`dafny verify dfyconfig.toml` checks the whole project. Nothing was executed: every claim below is a proof obligation.

The model follows the code. Objects that the code updates in place are classes with arrays and loops, each method is
proved against a function on values, and the properties are proved about those functions and carried over all runs.

| files | component | what is modelled |
|---|---|---|
| Sums, Indices, Matrices, MatrixArrays | matrix routines | the row-major triple loop, in-place addition, the 2x2 inverse, and the algebra of matrices of any size |
| QuadraticForms, KalmanAlgebra | Kalman update | positive definiteness and the measurement update in any dimensions |
| FilterModel, AxisModel, FilterRuns, PredictionComposition, KalmanState | the six-state filter | constants, prediction, update, gating distance, all runs, and the filter object |
| TrackTable, Maintenance, MeasuredTracks, TableRuns, Extrapolation, FusionProcessor | track table | association, what a measurement makes of a track, batches, the swap-with-last maintenance pass, all interleavings, how far passes extrapolate, and the processor object |
| TrackList, BoundedFifo, MessageQueue, QueuedLists, QueueProtocol | queue and shared lists | reference counts, the ring buffer object with its wait loop, lists edited while queued, and the mutex and condition variable as a step system |
| Bytes, RadarFrames, RadarReader | radar reader | the byte automaton with state kept between calls, and an independent reading of the stream |
| PoolAllocator | allocator | two pools with heap fallback over an address-indexed memory |
| RsmCodec, PublishedMessages | broadcast message | the encoder, a decoder written for the proof, and the path from a pass to the message |

`hide` statements only keep function bodies out of individual proofs, mostly real multiplication.

## Main results

* **Filter, any size.** The covariance `(I - K*H)*P` the code computes is the Joseph form, stays symmetric positive
  definite, and never grows in any direction. Any other gain L would leave more, by exactly `(L-K)*S*(L-K)^T`, so the
  gain of the code is optimal. This holds for every state dimension, observation and noise.
* **Filter, every run.** Every state reachable from initialisation by predictions and updates has a symmetric positive
  definite covariance. It is one 3x3 block repeated on the two axes, so the filter is two independent three-state
  filters, and the block never depends on measured values. The innovation determinant exceeds 0.01, so the singularity
  test never fires. An update leaves position variances below 0.1 and shrinks residuals by exactly `0.1/(v + 0.1)`.
* **Gating distance.** The code calls its distance simplified. It is the exact Mahalanobis distance for every residual if
  and only if the two positions are uncorrelated, and on every reachable filter they are.
* **Track table.** The in-place pass processes every track exactly once. Its survivors are, as a multiset, the processed
  tracks that are young and confident enough. Ids are distinct and never reused. An unmeasured track lives exactly as
  long as its age and confidence allow and is then exactly the track processed at the times of the passes. Over a batch, measurements that update
  nothing create as many tracks as there are free slots, and only the rest is dropped. A fused track moves to the
  measured position by the exact weight of its variance; a new track is published just as it was measured.
* **Queue.** Messages come out in order, none lost or duplicated, and every list's reference count is exact at each step.
  Queued lists are alive, and after shutdown each list was freed exactly once. No wake-up is lost in any run
  if and only if at most one consumer ever waits or none ever waits with a timeout.
* **Radar.** Detections depend only on the concatenated byte stream, not on how it is split over calls. They are
  exactly the frames an independent reading finds. Changing one payload or check byte loses that frame and no other.
* **Allocator.** Free indices and live blocks are complements, live blocks are disjoint, a pool pointer never reaches the
  system's `free`, and reallocation keeps the common prefix and every other block.
* **Message.** The list published by a pass always fits the 2048-byte buffer, and the message decodes to every track.

## Where the code does not do what one might expect

Each of these has a failing input and an exact condition.

* **Lost wake-ups.** The pthreads standard lets `pthread_cond_timedwait` time out and still consume a signal
  (POSIX.1-2017, `pthread_cond_timedwait`), and `mec_queue_pop` then returns without looking at the queue
  (`src/common/queue.c:122-125`). For any two consumers, one of which waits with a timeout, and any capacity,
  `LostWakeUp` gives a run that ends with a queued message, a sleeping consumer and nobody woken. `NoLostWakeUpIff`: with
  given consumers that ever wait, every run is free of this if and only if there is at most one of them or none waits
  with a timeout; consumers that only poll do not matter. The single consumer of `src/main.c` is safe
  (`OneConsumerWakes`).
* **Stale time.** Creating a track does not set its `last_update` (`src/fusion/fusion_processor.c:274-280`); it keeps
  whatever the slot held, and the first pass predicts by the time since then. `CreatedTrackPrediction`: the filter is
  right, covariance and all, if and only if that time is the time of the measurement or both lie ahead of the pass; its
  state vector alone is also right for a target measured without speed (`CreatedStatePrediction`). On a new processor the
  slots are zeroed, so the first track is extrapolated from the epoch (`FirstPassFromEpoch`): in `StaleTimeExample` it is
  put at 1001 instead of 1, in `StaleVarianceExample` a variance is 15.01 instead of 5.01. The covariance gates the next
  association: `FirstPassGate` says exactly which measurements are then fused into that track, namely those whose
  squared distance is below the squared threshold times about 1.25 times the fourth power of the time since the epoch.
* **Prediction horizon.** A pass takes the elapsed time from `last_update`, which predictions never advance
  (`src/fusion/fusion_processor.c:305-308`), so every pass predicts by the whole time again. `IdleTrackHorizon`: the filter
  of an unmeasured track is what its last pass should make of it if and only if no earlier pass came after the last
  update; its state vector alone is also right when velocity and acceleration are zero (`IdleStateHorizon`).
  `IdleTrackOnRun` says both of every run of the table.
* **Queue contents.** `include/mec_queue.h:41` speaks of a deep copy; the code retains the pointer. `PushEditPop`: the
  consumer gets the list as its owner left it, which is what was pushed if and only if no append took effect since, or the
  list was emptied and the same was appended again. `SnapshotExample` appends one track.
* **Byte order.** `src/common/v2x_codec.c:8` says the message is big-endian; the timestamp is copied in host order, least
  significant byte first here. `TimestampByteOrder`: read in network order it is the time if and only if its eight bytes
  are the same in both directions. `ByteOrderExample`: one millisecond reads as 2 to the 56.
* **Count byte.** The encoder writes the count before it knows how many participants fit. `CountTruthfulIff` says exactly
  when the message decodes to all it holds; `TruncationExample` truncates 103 tracks to 101.
* **Radar check.** The comment says sum; the code uses exclusive or, and so does the model. A stray 0xAA directly before a
  frame loses it (`StrayHeaderLosesFrame`); `FrameRecognisedIff` says exactly when a frame is recognised.
* **Shared parser.** The parser state is static in `radar_read_data` (`src/radar/radar_processor.c:179-182`), so all radar
  processors share it. `OtherProcessorLosesFrame`: one processor that read a lone 0xAA costs another a correct frame; by
  `FrameRecognisedIff` a frame is recognised if and only if the parser, whoever fed it last, is idle at its first byte.
* **Type codes.** The encoder copies the number of the target type (`src/common/v2x_codec.c:46`), which
  `include/mec_v2x.h:33` gives other meanings: a pedestrian goes out as a large car. `TypeCodesDiffer`: no type keeps its
  meaning.
* **Empty capacity.** A list created with capacity zero cannot grow: the first addition frees the buffer the list goes on
  referring to (`src/common/track_list.c:50-54`, `src/common/memory_new.c:206-209`). `TrackList.Add` says so, and that it
  happens at no other capacity.

## Model

| member | source | states |
|---|---|---|
| MatrixArrays.MatMul | src/fusion/fusion_processor.c:17-26 | for all sizes, the triple loop leaves in C the matrix product of A and B |
| MatrixArrays.MatAdd | src/fusion/fusion_processor.c:29-31 | adds B to the first cells of A and leaves the others |
| MatrixArrays.MatInv2x2 | src/fusion/fusion_processor.c:34-43 | refuses exactly a determinant of magnitude below 1e-12, otherwise writes the inverse |
| MatrixArrays.Inverse2Correct | src/fusion/fusion_processor.c:34-43 | what it writes is a two-sided inverse |
| Matrices.MulAssoc | src/fusion/fusion_processor.c:17-26 | the product is associative for all sizes |
| Matrices.TransposeMul | src/fusion/fusion_processor.c:17-26 | the transpose of a product is the product of the transposes, reversed |
| QuadraticForms.PredictSpd | src/fusion/fusion_processor.c:146-158 | F*P*F^T + q*I is symmetric positive definite for every F, every such P and every q > 0 |
| KalmanAlgebra.JosephIdentity | src/fusion/fusion_processor.c:182-218 | (I - K*H)*P equals A*P*A^T + K*R*K^T with A = I - K*H, in all dimensions |
| KalmanAlgebra.PosteriorSpd | src/fusion/fusion_processor.c:182-218 | the updated covariance is symmetric positive definite, in all dimensions |
| KalmanAlgebra.UpdateNeverIncreases | src/fusion/fusion_processor.c:207-218 | v^T P' v <= v^T P v for every vector v, in all dimensions |
| KalmanAlgebra.ExcessOfGain | src/fusion/fusion_processor.c:192-218 | what any gain L leaves exceeds what the gain K of the code leaves by (L - K)*S*(L - K)^T, in all dimensions |
| KalmanAlgebra.GainIsOptimal | src/fusion/fusion_processor.c:192-218 | in every direction no gain leaves less variance, and one that leaves as little corrects that direction in the same way |
| FilterModel.InitialCovarianceSpd | src/fusion/fusion_processor.c:111-117 | the initial covariance is symmetric positive definite |
| FilterModel.InnovationEntries | src/fusion/fusion_processor.c:182-190 | H*P*H^T + R is the position block of P with 0.1 on the diagonal |
| FilterModel.NeverRejects | src/fusion/fusion_processor.c:34-43 | on a positive definite covariance the innovation determinant exceeds 0.01, so the inverse is never refused |
| FilterRuns.UpdateIsJosephForm | src/fusion/fusion_processor.c:207-218 | every accepted update of the code is the Joseph form |
| FilterRuns.UpdateShrinks | src/fusion/fusion_processor.c:207-218 | an accepted update never increases the variance in any direction |
| FilterRuns.UpdateIsOptimal | src/fusion/fusion_processor.c:192-218 | the update of the code leaves at most the variance that any other gain leaves in the Joseph form |
| FilterRuns.StepSound | src/fusion/fusion_processor.c:129-222 | a prediction with any dt or an update with any measurement keeps the covariance symmetric positive definite |
| FilterRuns.RunSound | src/fusion/fusion_processor.c:96-222 | so does every run |
| FilterRuns.RunPairs | src/fusion/fusion_processor.c:112-218 | the six-state filter refines two three-state filters that share one covariance block, over every run |
| FilterRuns.ReachableDecoupled | src/fusion/fusion_processor.c:96-222 | every reachable covariance is one block on the even and the odd indices and zero across |
| FilterRuns.CovarianceIgnoresMeasurements | src/fusion/fusion_processor.c:129-222 | runs with the same schedule have the same covariance, whatever was measured |
| FilterRuns.UpdateContracts | src/fusion/fusion_processor.c:175-218 | a reachable filter accepts the update; position variances end equal and below 0.1, residuals shrink by 0.1/(v + 0.1) |
| FilterRuns.SimplifiedExactIff | src/fusion/fusion_processor.c:228-247 | the simplified squared distance is y^T S^-1 y for all residuals if and only if the positions are uncorrelated |
| FilterRuns.SimplifiedExactWhenReachable | src/fusion/fusion_processor.c:228-247 | on every reachable filter it is y^T S^-1 y with the S of the update |
| AxisModel.PredictEmbedded | src/fusion/fusion_processor.c:133-158 | prediction of a decoupled covariance is prediction of its block |
| AxisModel.UpdateEmbedded | src/fusion/fusion_processor.c:182-218 | update of a decoupled covariance is the scalar-measurement update of its block |
| AxisModel.UpdateInterleaved | src/fusion/fusion_processor.c:178-205 | update of the state is the scalar update of each axis |
| PredictionComposition.TransitionCompose | src/fusion/fusion_processor.c:133-139 | F(b)*F(a) = F(a + b) |
| PredictionComposition.StateCompose | src/fusion/fusion_processor.c:141-144 | predicting the state by a then b is predicting it by a + b |
| PredictionComposition.CovarianceCompose | src/fusion/fusion_processor.c:146-158 | the two covariances differ by exactly 0.01*a*(F(b)*F(b)^T - I) |
| PredictionComposition.PredictionsCompose | src/fusion/fusion_processor.c:129-160 | a run of predictions by any dts moves the state as one prediction by the total of those that are positive |
| PredictionComposition.SamePrediction | src/fusion/fusion_processor.c:129-160 | two predictions leave the same state vector if and only if they move it by the same time or its velocities and accelerations are zero |
| PredictionComposition.SameFilter | src/fusion/fusion_processor.c:129-160 | two predictions leave the same filter, covariance included, if and only if they move it by the same time |
| KalmanFilter.KalmanState.Initialize | src/fusion/fusion_processor.c:96-122 | the buffers end as the initial filter of the measurement |
| KalmanFilter.KalmanState.Predict | src/fusion/fusion_processor.c:129-160 | refuses dt <= 0, otherwise the buffers end as F*X and F*P*F^T + Q |
| KalmanFilter.KalmanState.Update | src/fusion/fusion_processor.c:166-222 | refuses an uninitialised filter or a singular S, otherwise the buffers end as X + K*y and (I - K*H)*P |
| KalmanFilter.KalmanState.BuildInnovation | src/fusion/fusion_processor.c:169-190 | the observation matrix and H*P*H^T + R |
| KalmanFilter.KalmanState.BuildGain | src/fusion/fusion_processor.c:192-200 | the gain P*H^T*S^-1, unless S is singular |
| KalmanFilter.KalmanState.CorrectState | src/fusion/fusion_processor.c:202-205 | X becomes X + K*y |
| KalmanFilter.KalmanState.CorrectCovariance | src/fusion/fusion_processor.c:207-218 | P becomes (I - K*H)*P |
| TrackTable.Nearest | src/fusion/fusion_processor.c:258-267 | the first index of the least distance strictly below the threshold, or -1 when there is none |
| TrackTable.ClosestUnique | src/fusion/fusion_processor.c:258-267 | that description determines the index |
| TrackTable.SameComparison | src/fusion/fusion_processor.c:246-262 | comparing distances with each other and with the threshold is comparing their squares |
| TrackTable.AddOneEffect | src/fusion/fusion_processor.c:255-282 | a measurement updates one track, creates one with the next id, or is dropped by a full table; nothing else changes |
| TrackTable.AddOneInv | src/fusion/fusion_processor.c:255-282 | distinct ids below the next one, at most 100 tracks, and reachable filters are kept |
| MeasuredTracks.FusedIs | src/fusion/fusion_processor.c:287-293 | both position residuals shrink by 0.1/(v + 0.1), both variances become v*0.1/(v + 0.1), three tenths of the confidence are the new one's, age is zero, and the next pass predicts from the measured time |
| MeasuredTracks.MeasurementFused | src/fusion/fusion_processor.c:269-271 | so it is of the associated track in the table, whose sensors gain the one that measured |
| MeasuredTracks.MeasurementCreates | src/fusion/fusion_processor.c:272-281 | the new last track has the next id, the measured type, confidence and position, one sensor and the old last_update of its slot |
| MeasuredTracks.InitialDistance | src/fusion/fusion_processor.c:96-122 | the squared gating distance from a new track is that from where it was measured over 0.6, so a repeated measurement is at distance zero |
| MeasuredTracks.PublishedAsMeasured | src/fusion/fusion_processor.c:102-326 | a track just created is published with the position, speed, heading, type and confidence it was measured with |
| TableRuns.BatchGrowth | src/fusion/fusion_processor.c:251-285 | over a batch updates, creations and drops account for every measurement; count and next id grow by the creations, which are as many as free slots allow; ids and types of existing tracks stay |
| TableRuns.RunTable | src/fusion/fusion_processor.c:251-333 | every interleaving of batches and passes keeps the invariant of the table |
| TableRuns.IdsNeverReused | src/fusion/fusion_processor.c:275 | an id given out and removed never comes back, over every run |
| TableRuns.ConfidencesStayUnit | src/fusion/fusion_processor.c:277-289 | confidences stay in [0, 1] when measured ones are |
| TableRuns.PassDecides | src/fusion/fusion_processor.c:308-315 | a track is still there after a pass exactly when its age plus one is within the maximum and its confidence is at least the threshold |
| TableRuns.UnmeasuredLifetime | src/fusion/fusion_processor.c:308-315 | a track no measurement reaches is live after a run exactly when there was no pass, or its confidence suffices and its age plus the passes is within the maximum; it is then the track processed at the times of the passes |
| TableRuns.PassOfTrack | src/fusion/fusion_processor.c:303-315 | a live track leaves the pass processed, or its id is gone |
| Extrapolation.IdleTrackHorizon | src/fusion/fusion_processor.c:305-308 | after any passes the filter of an unmeasured track is that of one prediction to the last pass if and only if no earlier pass came after the last update |
| Extrapolation.IdleStateHorizon | src/fusion/fusion_processor.c:305-308 | its state vector is that of one prediction by the sum of the times, and of one to the last pass also when nothing moves |
| Extrapolation.IdleTrackOnRun | src/fusion/fusion_processor.c:302-315 | both, of the live track after every run of the table that misses it |
| Extrapolation.CreatedTrackPrediction | src/fusion/fusion_processor.c:274-307 | the first pass leaves the right filter of a created track if and only if the slot's old last_update is the measured time or both lie ahead of the pass |
| Extrapolation.CreatedStatePrediction | src/fusion/fusion_processor.c:274-307 | it leaves the right state vector also when the target was measured without speed, and only then |
| Extrapolation.FirstPassFromEpoch | src/fusion/fusion_processor.c:56-307 | on a new processor the first pass predicts the first filter by the time since the epoch, and exactly when that filter and its state vector are right |
| Extrapolation.StaleTimeExample | src/fusion/fusion_processor.c:56-307 | a target moving by one a second, passed one second after it was measured at second 1000, is put at 1001 instead of 1 |
| Extrapolation.StaleVarianceExample | src/fusion/fusion_processor.c:56-307 | without speed the state vector is right and the variance of the acceleration is 15.01 instead of 5.01 |
| Extrapolation.FirstPassGate | src/fusion/fusion_processor.c:228-270 | exactly which measurements are fused into the first track after the first pass, in terms of where and how fast it was measured |
| Maintenance.SweepSurvivors | src/fusion/fusion_processor.c:303-315 | despite the swaps every remaining track is processed exactly once |
| Maintenance.PassSurvivors | src/fusion/fusion_processor.c:303-315 | the survivors are as a multiset the processed tracks that meet the test, which `TableRuns.PassDecides` spells out |
| Maintenance.ProcessAllKeeps | src/fusion/fusion_processor.c:305-309 | passes age a track by one each and leave its id, type, confidence, sensors and last_update alone |
| Maintenance.PassInv | src/fusion/fusion_processor.c:303-315 | the pass keeps the invariant, and every survivor has an age within the maximum and a confidence of at least the threshold |
| FusionProcessing.FusedTrack.CopyFrom | src/fusion/fusion_processor.c:312 | struct assignment copies every field and both buffers |
| FusionProcessing.FusedTrack.StartTrack | src/fusion/fusion_processor.c:274-280 | the slot becomes the new track, keeping its old last_update |
| FusionProcessing.FusedTrack.FuseMeasurement | src/fusion/fusion_processor.c:287-293 | filter update, weighted confidence, age zero, new last_update |
| FusionProcessing.FusedTrack.PredictAndAge | src/fusion/fusion_processor.c:305-308 | predicts by the time since last_update and adds one to the age |
| FusionProcessing.FusedTrack.Distance | src/fusion/fusion_processor.c:228-247 | the gating distance, of every filter for which no divisor is zero |
| FusionProcessing.FusionProcessor.constructor | src/fusion/fusion_processor.c:53-63 | 100 separate zeroed slots, no track, next id 1, an empty output or none |
| FusionProcessing.CreateProcessor | src/fusion/fusion_processor.c:47-67 | no processor without memory, otherwise a new one, whose output is null when there was no memory for it |
| FusionProcessing.FusionProcessor.FindNearest | src/fusion/fusion_processor.c:258-267 | the loop finds the association choice |
| FusionProcessing.FusionProcessor.AddMeasurement | src/fusion/fusion_processor.c:256-281 | the slots end as the table after one measurement |
| FusionProcessing.FusionProcessor.AddTracks | src/fusion/fusion_processor.c:251-285 | refuses a null list, otherwise the slots end as the table after the batch |
| FusionProcessing.FusionProcessor.RunPass | src/fusion/fusion_processor.c:298-328 | the slots end as the table after the pass; output entry k describes survivor k; the output buffer is never reallocated |
| FusionProcessing.FusionProcessor.DeleteSlot | src/fusion/fusion_processor.c:311-315 | swap-with-last deletion |
| TrackLists.CreateList | src/common/track_list.c:3-20 | no list without memory or for a negative capacity, otherwise an empty list with one reference |
| TrackLists.TrackList.Retain | src/common/track_list.c:22-27 | one more reference |
| TrackLists.TrackList.Release | src/common/track_list.c:29-45 | one reference fewer; freed exactly when none is left |
| TrackLists.TrackList.Add | src/common/track_list.c:47-63 | appends, doubling a full buffer; on a failed reallocation nothing changes, except that a capacity of zero loses the buffer |
| TrackLists.TrackList.Clear | src/common/track_list.c:65-69 | empties the list |
| MessageQueues.CreateQueue | src/common/queue.c:20-44 | no queue for a capacity that is not positive or without memory, otherwise an empty one |
| MessageQueues.MecQueue.Push | src/common/queue.c:68-96 | refuses a missing list or a full queue, otherwise appends and takes one reference |
| MessageQueues.MecQueue.Pop | src/common/queue.c:98-141 | the call with its wait loop does what PopCall says, given what happens in each wait |
| MessageQueues.PopReturns | src/common/queue.c:104-127 | when a waiting call sleeps on, and that it is refused exactly when its time is up first, even if messages have arrived |
| MessageQueues.PopTakesOldest | src/common/queue.c:129-134 | a call that gets a message takes the oldest of the queue it finds after some of its waits, and nothing else |
| MessageQueues.MecQueue.Destroy | src/common/queue.c:46-66 | each list loses one reference per occurrence and is freed exactly when none is left |
| QueuedLists.PushEditPop | src/common/queue.c:79-86 | behind whatever was queued the consumer gets the list as edited since it was pushed, and what was pushed if and only if that was undone |
| QueuedLists.SnapshotIff | src/common/queue.c:79-86 | edits of a list leave its contents if and only if nothing was appended, or the same again since it was emptied |
| BoundedFifo.RingAppend | src/common/queue.c:84-89 | writing at the tail slot appends to the ring |
| BoundedFifo.RingRemove | src/common/queue.c:130-134 | advancing the head removes the oldest |
| QueueProtocol.StepCounts | src/common/track_list.c:22-45 | at every step each list's count is its holders plus its occurrences in the queue, and it is freed once, at zero |
| QueueProtocol.RunFifo | src/common/queue.c:68-141 | over every run what was sent is what was received, dropped at destruction and queued, in order |
| QueueProtocol.StepWakes | src/common/queue.c:88-138 | a step without a swallowed signal keeps: if a consumer is blocked, the queue is no longer than the woken consumers |
| QueueProtocol.RunWakes | src/common/queue.c:88-138 | so no wake-up is lost over every run without a swallowed signal, with spurious wake-ups, timeouts and stealing |
| QueueProtocol.NoLostWakeUpIff | src/common/queue.c:88-138 | for every capacity, all runs with given waiting consumers are free of lost wake-ups if and only if there is at most one of them or none waits with a timeout |
| QueueProtocol.LostWakeUp | src/common/queue.c:122-125 | for any two consumers, one waiting with a timeout, and any capacity a run that loses a wake-up |
| QueueProtocol.OneConsumerWakes | src/main.c:195-224 | with one waiting consumer no wake-up is lost, whatever the timeouts consume |
| QueueProtocol.QueuedListsAlive | src/common/queue.c:80-86 | a queued list was never freed |
| QueueProtocol.ShutdownFreesEachOnce | src/main.c:285-297 | after destruction and all releases each list was freed exactly once and no message is unaccounted for |
| RadarFrames.FeedIsParse | src/radar/radar_processor.c:184-225 | the automaton recognises exactly the frames an independent reading of the stream finds |
| RadarFrames.XorConcat | src/radar/radar_processor.c:205-206 | the check of two parts is the exclusive or of their checks, so that of no bytes is zero |
| RadarFrames.ParseSound | src/radar/radar_processor.c:184-225 | every recognised frame is a contiguous window AA 55 d0..d13 xor(d); the windows are disjoint and in order |
| RadarFrames.ChunkingIrrelevant | src/radar/radar_processor.c:176-228 | arrivals and calls in any interleaving leave the detections of the concatenated stream |
| RadarFrames.SameStreamSameDetections | src/radar/radar_processor.c:176-228 | two sessions that read the same stream to its end have the same detections and state |
| RadarFrames.StreamDecodes | src/radar/radar_processor.c:184-225 | of frames separated by junk without 0xAA exactly those with the right check byte are recognised |
| RadarFrames.OneByteCorrupted | src/radar/radar_processor.c:205-222 | changing one payload or check byte of a correct frame makes its check byte wrong |
| RadarFrames.CorruptionLosesOneFrame | src/radar/radar_processor.c:184-225 | so in a stream of frames and junk without 0xAA it removes exactly that payload from the detections |
| RadarFrames.SixteenBytesResynchronise | src/radar/radar_processor.c:184-225 | sixteen bytes other than 0xAA bring every state to idle, and fifteen may not |
| RadarFrames.FrameRecognisedIff | src/radar/radar_processor.c:186-208 | a correct frame completes a detection if and only if the parser is idle at its first byte |
| RadarFrames.StrayHeaderLosesFrame | src/radar/radar_processor.c:189-196 | a 0xAA directly before a frame loses it |
| RadarFrames.OtherProcessorLosesFrame | src/radar/radar_processor.c:179-196 | a lone 0xAA read for one processor loses a correct frame read for another |
| RadarFrames.ReadOneFeeds | src/radar/radar_processor.c:184-227 | one call does to the stream what feeding the bytes it consumed does |
| RadarReading.RadarReader.Consume | src/radar/radar_processor.c:185-224 | one byte moves the object as it moves the automaton; the index stays within 14 |
| RadarReading.RadarReader.ReadData | src/radar/radar_processor.c:173-228 | a call for any processor reads to its first complete frame, which it stamps, or the end, keeping the one state for the next call of any |
| RadarReading.DecodePayload | src/radar/radar_processor.c:210-214 | decoding a payload gives back the words it carries, scaled |
| RadarReading.WordValue | src/radar/radar_processor.c:210-214 | a word is its high byte times 256 plus its low byte, scaled by a tenth |
| RadarReading.FrameExample | src/radar/radar_processor.c:184-220 | a literal frame of seventeen bytes is read and decoded to literal values |
| Pools.InitPool | src/common/memory_new.c:25-53 | every index is free, or -1 and a pool without blocks when a system call fails |
| PoolAllocation.InitMemory | src/common/memory_new.c:55-67 | two pools with nothing in use; one that could not be initialised is left without blocks |
| Pools.Pool.Acquire | src/common/memory_new.c:101-103 | pops a free index, which is no longer free |
| Pools.Pool.GiveBack | src/common/memory_new.c:155-157 | an index in use always finds room and becomes free; free indices stay distinct |
| PoolAllocation.Allocator.Malloc | src/common/memory_new.c:95-140 | a new block from the pool of the size class, marked with -1, or from the system, large enough; other blocks keep their bytes |
| PoolAllocation.Allocator.Free | src/common/memory_new.c:142-190 | a live pool pointer returns to its own pool; every other pointer, also one not allocated here, goes to the system |
| PoolAllocation.Allocator.Realloc | src/common/memory_new.c:201-240 | it succeeds exactly when the pool of the new size has a free block or the system gives one; the common prefix moves, every other block keeps its bytes, and failure changes nothing |
| PoolAllocation.Allocator.LiveApart | src/common/memory_new.c:102-115 | live blocks are pairwise disjoint and at least as large as requested |
| PoolAllocation.ComplementTake | src/common/memory_new.c:101-106 | taking a block keeps live blocks the complement of the free ones |
| PoolAllocation.ComplementGive | src/common/memory_new.c:150-163 | giving back a block keeps them complements |
| RsmCodec.EncodeRsm | src/common/v2x_codec.c:11-66 | every byte of the buffer: header, count, as many participants as fit, padding and the rest untouched; and the refusals |
| RsmCodec.DecodesWritten | src/common/v2x_codec.c:17-62 | a message decodes to as many tracks as its count byte says, with sender and time, or is malformed when fewer were written |
| RsmCodec.MessageRoundTrip | src/common/v2x_codec.c:17-62 | a message holding all of at most 255 tracks decodes to the sender, the time and each of them, in order |
| RsmCodec.TimestampByteOrder | src/common/v2x_codec.c:26-30 | the timestamp reads back in host order, and in network order if and only if its bytes are a palindrome |
| RsmCodec.WithinOneQuantum | src/common/v2x_codec.c:45-59 | each field its wire width can represent comes back within one quantum |
| RsmCodec.MessageExample | src/common/v2x_codec.c:11-66 | the 37 bytes of a message of one track, literally |
| RsmCodec.TypeCodesDiffer | src/common/v2x_codec.c:46 | the type number that is copied never has the meaning the interface gives it, and which it has instead |
| RsmCodec.CountTruthfulIff | src/common/v2x_codec.c:34-40 | exactly when the encoded message decodes to all the participants it holds |
| RsmCodec.TruncationExample | src/common/v2x_codec.c:34-40 | 103 tracks in 2048 bytes: 101 written, count byte 103, malformed |
| PublishedMessages.Broadcast | src/main.c:239-250 | a list within the table capacity is never truncated by the 2048-byte buffer |
| PublishedMessages.PassAndBroadcast | src/main.c:239-250 | a list that is there and not empty gives a message with one participant per live track, in table order; otherwise nothing is sent |

## Left out

- Floating point: arithmetic is over the reals, so rounding, overflow, infinities and NaN are not modelled.
- Mathematics library: `sin`, `cos`, `atan2` and pi are parameters. `PublishedAsMeasured` assumes of them what it needs at the measured heading (`Polar`); nothing else is claimed about the published speed and heading.
- Square roots: `TakesRoots` says of `sqrt` that it takes square roots of numbers that are not negative, without rounding; a processor is made with such a library.
- TrackTable.Create: the sensor mask is the set of sensor ids whose bits are set; ids outside the width of the mask, for which the shift is undefined, are not distinguished.
- Null pointers: arguments are non-null by their types, except where the source's refusal is observable (`AddTracks`, `Push`, `EncodeRsm`).
- Time: wall-clock reads are inputs, and a time is one real number of seconds.
- Threads: sleeping, creating and joining threads are left out; every locked section is one atomic step. The main loop reads the published list without the lock (`src/main.c:239-247`), so `PassAndBroadcast` speaks of a list published between passes.
- MessageQueues.MecQueue.Pop: what other threads do in each wait, and whether its time is up, are parameters; the condition variable itself is in QueueProtocol, which uses the same queue functions.
- QueueProtocol.StepWakes: the condition `not_full` is signalled but never waited on and is left out.
- Allocator: statistics, `mec_calloc` and the older allocator in `src/common/memory.c` are left out.
- PoolAllocation.Allocator.Malloc: what the system allocator returns is a parameter, limited to memory that no live block or pool covers.
- RsmCodec.EncodeRsm: a value outside the range of its wire type, for which C leaves the conversion undefined, is reduced modulo the width; `WithinOneQuantum` claims nothing about such values, and a negative heading is one.
- Integer widths: ids, counters and capacities are unbounded; overflow of `next_global_id` and of capacity doubling is not modelled.
- RadarReading.Detection: the polar conversion is left out.
- Configuration, logging, metrics, error strings, the monitor socket, serial setup, simulator playback and video are left out: input and output with only easy properties. A reloaded configuration changes a local variable of the main function only (`src/main.c:198-219`), so the processor's configuration is constant here too.
