# Verification of the surveillance platform's hard core

A Dafny model of the parts of the platform in which state, arithmetic or interleaving
make it hard to see what is guaranteed:

- **Re-identification** (`Vectors`, `Gallery`, `Stability`, `Associator`, `TrackIdentity`): the gallery of
  persons with its sliding windows of embeddings, the geometry behind "the same embedding
  is recognised again", and the associator whose calls interleave at its locks.
- **Box suppression** (`Boxes`, `Nms`, `SoftNms`): the three IoU formulas, greedy NMS and
  Soft-NMS.
- **Identity tables** (`IdentityTables`, `Retention`, `RetentionRaces`, `Ingestion`): persons and tracking
  rows under ingestion, retention jobs and camera deletion, with the foreign-key actions.
- **Consumers** (`DetectionConsumer`, `AlertConsumer`, `Pipeline`): attempts, dead letters, manual
  commits, crashes and restarts.
- **Gateway** (`SlidingWindow`, `SharedInstants`, `RateLimiter`, `LoginLockout`): both rate-limit
  branches, the one-way switch between them, the eviction, and the login lockout.
- **Browser** (`WebSocketProtocol`, `WebSocketRuns`, `WebSocketRecovery`, `WebSocketClient`, `RequestRetry`):
  the shared websocket client with its timers and suspended calls, the retry policy and the token
  refresh.

`Reals`, `Collections` and `Wrappers` hold the arithmetic, counting and option types they share.

Each component has a specification on values (a function, or a machine of atomic steps), a
class or method in the form of the code proved against it, and theorems about the
specification for all inputs or all runs. The modules can be checked together with
`dafny verify dfyconfig.toml`.

## What turned out not to hold

Where the code does not meet a property one would expect of it, the model keeps the code as
it is and proves the exact condition, or a concrete run that breaks the property:

- A person with a full window of ten samples can be forgotten: the eleventh sample is
  recognised, and the very same embedding right after it is registered as a new person
  (`FullWindowForgets`; `FullWindowRepeat` says exactly when).
- Two calls for one track that both miss the cache can register two persons for it
  (`RaceSplitsTrack`); `SecondPersonExactly` says exactly when a store replaces the person a
  track is cached with, `TrackKeepsPerson` how that is avoided.
- A retention run that overlaps with ingestion can erase a person seen after the cutoff and
  leave its fresh row without a person (`DisturbedRetentionUnlinksFreshRow`; exactly when:
  `UnlinkedRowsInRuns`, `FreshErasuresExactly` and, in terms of rows, `FreshErasuresInRuns`).
- Dead letters are produced without a delivery callback, although
  `packages/shared/messaging/kafka.py:22-24` expects deliveries to fail, and the result of
  `flush(5.0)` is not looked at: the offset is committed whether the letter was delivered, is
  still queued or was dropped, and a message whose outcomes are all undelivered letters is
  lost (`UndeliveredLetterLosesMessage`; exactly when: `LostExactlyUndelivered`).
- An exception in the notification loop skips its alert, which is lost as soon as a later one
  is committed (`ExceptionLosesAlert`; exactly when: `CoveredExactlyWithoutOvertaking`, in one
  session `CoveredExactlyWithoutSkips`).
- Requests at one instant share one member of the Redis sorted set and are all admitted
  (`SameInstantIsUnlimited`). With at most m requests an instant, a window comes to hold up to
  m * (limit - 1) + 1 (`SharedInstantsBound`, `RedisBoundExactly`), so the limit holds exactly
  if m <= 1 or limit <= 1 (`RedisLimitHoldsExactly`).
- The Redis lockout starts from zero when it expires, so the pacing of the in-memory one does
  not carry over to it (`RedisForgivesAfterExpiry`; `RedisPacesExactly` gives the guard,
  `InMemoryPaceExactly` the only n for which it does, `RedisPace` what holds instead).
- A connect that resumes while a reconnect timer is registered does not clear it; if its socket
  then closes, the status says 'closed' although the timer will reconnect
  (`OvertakenTimerSaysClosed`; exactly when: `LossReconnects`).
- Two calls suspended in `connect` can leak a socket (`TwoSuspendedConnectsLeakSocket`; exactly
  when: `LeaksExactly`).
- A commit whose acknowledgement is lost, and a crash between the commit to the tables and the
  commit of the offset, both make the consumer repeat a sighting, which is then counted once
  more (`CrashAppliesTwice`; exactly how often: `OvercountExactly`, `OutcomesAreConserved`).

The comment at the head of `mtmc_association.py` says that a person matches when the
similarity is greater than the threshold; the code, and the model, use "at least".

## Model

| member | source | states |
|---|---|---|
| Vectors.CombinationNorm | apps/ai-service/src/utils/embedding.py:21-25 | the squared length of a linear combination, by which the dot product behaves as a metric's inner product |
| Vectors.CauchySchwarz | apps/ai-service/src/utils/embedding.py:21-25 | for any two embeddings of one length, (a.b)^2 <= (a.a)(b.b), without roots |
| Vectors.NormalizedIsUnit | apps/ai-service/src/utils/embedding.py:10-18 | a vector of norm at least 1e-12 becomes a unit vector, and normalising again changes nothing |
| Vectors.NormScale | apps/ai-service/src/utils/embedding.py:28-39 | scaling by k >= 0, as the mean does, scales the norm by k |
| Vectors.CosineInRange | apps/ai-service/src/utils/embedding.py:21-25 | the cosine of a unit vector and one no longer than that is in [-1, 1] |
| Vectors.MeanAt | apps/ai-service/src/utils/embedding.py:28-35 | each element of the mean is the samples' elements added up and divided by their number |
| Vectors.AverageAt | apps/ai-service/src/utils/embedding.py:34-39 | each element of the average is that of the mean, divided by the norm of the mean unless that is below 1e-12 |
| Vectors.DotAt | apps/ai-service/src/utils/embedding.py:21-25 | changing one element by x changes the dot product by x times the other vector's element |
| Gallery.BestIsFirstMaximum | apps/ai-service/src/reid/mtmc_association.py:47-55 | the scan ends on the earliest-inserted person of maximal similarity, or on nobody exactly when none exceeds -1 |
| Gallery.NewExactlyWhenNobodyReaches | apps/ai-service/src/reid/mtmc_association.py:57-74 | a call registers a new person if and only if nobody both reaches the threshold and exceeds -1 |
| Gallery.MatchedIsClosest | apps/ai-service/src/reid/mtmc_association.py:47-65 | whoever is matched is of maximal similarity, the earliest of those, and reaches the threshold |
| Gallery.StepWellFormed | apps/ai-service/src/reid/mtmc_association.py:57-74 | a call keeps windows between 1 and 10 samples, ids distinct, everybody in place, and grows the gallery by one exactly when it reports a new person |
| Gallery.StepRefines | apps/ai-service/src/reid/mtmc_association.py:57-74 | each window stays the last ten of all embeddings ever assigned to its person |
| Gallery.PersonGallery.FindBest | apps/ai-service/src/reid/mtmc_association.py:47-55 | the loop computes the first maximum and its similarity |
| Gallery.PersonGallery.MatchOrCreate | apps/ai-service/src/reid/mtmc_association.py:40-74 | the append-then-pop on the dictionary is the specified step, its answer included, and extends the history by this assignment |
| Stability.SimilarityReaches | apps/ai-service/src/reid/mtmc_association.py:51-57 | for a unit embedding, "similarity of the normalised mean >= threshold" is equivalent to a condition on dot products without roots or divisions |
| Stability.SimilarityInRange | apps/ai-service/src/reid/mtmc_association.py:51-52 | the similarity a unit embedding is compared by is in [-1, 1], short means included |
| Stability.AppendingPulls | apps/ai-service/src/reid/mtmc_association.py:57-61 | a sample pulls the mean towards it: appending a unit embedding to any window below ten samples never lowers its similarity to it, short means included |
| Stability.NewPersonIsReached | apps/ai-service/src/reid/mtmc_association.py:66-69 | the lone unit sample of a new person is at similarity 1 from itself |
| Stability.RepeatIsRecognised | apps/ai-service/src/reid/mtmc_association.py:46-74 | repeat stability: after a call that made a new person or matched a window below ten samples, the same embedding is answered with that same person and not reported new |
| Stability.FullWindowRepeat | apps/ai-service/src/reid/mtmc_association.py:57-65 | with a full window the repeat is reported new if and only if neither the nine youngest samples with the new one, nor anybody else, reach |
| Stability.FullWindowSamePerson | apps/ai-service/src/reid/mtmc_association.py:57-65 | and it is answered with the same person if and only if the slid window reaches, is closer than everybody before it and at least as close as everybody after it |
| Stability.FullWindowForgets | apps/ai-service/src/reid/mtmc_association.py:25-65 | a run from the empty gallery at the default threshold in which that happens |
| Associator.StepKeepsInv | apps/ai-service/src/reid/mtmc_association.py:107-138 | every atomic part of a call, and cleanup, keeps cached ids known, the gallery well formed and growing, and reports + pending reports = persons |
| Associator.EveryInterleavingIsSafe | apps/ai-service/src/reid/mtmc_association.py:107-138 | over every interleaving of any number of threads: cached persons exist, nobody is lost, and at rest the calls that reported "new" number the persons |
| Associator.RaceSplitsTrack | apps/ai-service/src/reid/mtmc_association.py:120-131 | a run in which one track gets two persons |
| TrackIdentity.SecondPersonExactly | apps/ai-service/src/reid/mtmc_association.py:120-131 | in every run, a store replaces the person its track is cached with if and only if, between the call's own lookup and that store, another call was the last to store a different person for the track and no cleanup has forgotten it since |
| TrackIdentity.TrackKeepsPerson | apps/ai-service/src/reid/mtmc_association.py:120-138 | if no lookup is ever taken while a call for the same track is suspended, a cached track keeps its person until a cleanup forgets it |
| Associator.MTMCAssociator.Associate | apps/ai-service/src/reid/mtmc_association.py:107-131 | an uninterrupted call is its three atomic parts in turn; a cached track is answered from the cache; the answer is cached and known |
| Associator.MTMCAssociator.CleanupLostTracks | apps/ai-service/src/reid/mtmc_association.py:133-138 | exactly the inactive tracks are forgotten |
| Boxes.ExactFormsAgree | packages/domain/entities/tracking_event.py:19-31 | the entity's IoU equals the corner form on its corners, for all boxes, inverted ones included |
| Boxes.BboxIouIsRatio | apps/ai-service/src/utils/bbox.py:21-36 | the early exit and the union guard together compute intersection over union, 0 for an empty union |
| Boxes.IntersectsExactly | apps/ai-service/src/utils/nms.py:45-51 | the clamped intersection is positive if and only if some point lies strictly inside both boxes |
| Boxes.ContainedIsIntersection | apps/ai-service/src/utils/nms.py:45-51 | the intersection of a box with one that contains it is its own area |
| Boxes.IouSymmetric | apps/ai-service/src/utils/bbox.py:21-36 | the order of the boxes does not matter |
| Boxes.IouInUnitInterval | apps/ai-service/src/utils/bbox.py:21-36 | between 0 and 1 for well-formed boxes |
| Boxes.IouOneIsEquality | apps/ai-service/src/utils/bbox.py:21-36 | 1 exactly for a box of positive size and itself |
| Boxes.NmsIouSymmetric | apps/ai-service/src/utils/nms.py:44-53 | the ratio with the 1e-9 is symmetric, so suppression is |
| Boxes.SuppressionIsExact | apps/ai-service/src/utils/nms.py:53-54 | a suppressed pair exceeds the threshold exactly; a pair the exact ratio would suppress is spared precisely when its intersection lies between t * union and t * (union + 1e-9) |
| Nms.Nms | apps/ai-service/src/utils/nms.py:37-57 | the loop over the shrinking work list terminates with the greedy answer; no two kept boxes intersect in more than the threshold's share of their union plus 1e-9, and each dropped box does so with a kept one of at least its score |
| Nms.GreedyIsSound | apps/ai-service/src/utils/nms.py:37-57 | valid duplicate-free indices in non-increasing score order; no kept pair overlaps; every dropped index is suppressed by a kept one of at least its score; ties allowed |
| Nms.KeptAreApart | apps/ai-service/src/utils/nms.py:44-55 | the same in terms of areas alone; the dropped box's exact IoU with that kept box exceeds a non-negative threshold, too |
| Nms.KeptSetUnique | apps/ai-service/src/utils/nms.py:37-57 | at most one set is independent and dominates all others by strictly higher scores |
| Nms.NmsComputesTheKeptSet | apps/ai-service/src/utils/nms.py:37-57 | with distinct scores, a set is that set if and only if it is what nms keeps, for every sorted order |
| Nms.KeptSetByOverlap | apps/ai-service/src/utils/nms.py:37-57 | with distinct scores, what nms keeps is the only set whose boxes have ratios of at most the threshold while each other box has a greater one with a member of higher score |
| Nms.NmsFollowsPermutation | apps/ai-service/src/utils/nms.py:37-57 | permuting the input permutes the output, element by element |
| Nms.NmsIsIdempotent | apps/ai-service/src/utils/nms.py:37-57 | a second pass over the survivors keeps all of them, ties or not, whatever order they are sorted in; with distinct scores, in the order they are in |
| SoftNms.ArgMax | apps/ai-service/src/utils/nms.py:77 | the first position of the largest score |
| SoftNms.DecayAll | apps/ai-service/src/utils/nms.py:82-93 | the inner loop leaves in the list exactly the indices whose decayed score is not below the floor, with those scores in the array |
| SoftNms.SoftNms | apps/ai-service/src/utils/nms.py:71-95 | in-place decays accumulated over the run equal scores recomputed from the original ones; the loop terminates |
| SoftNms.ScoreIsProduct | apps/ai-service/src/utils/nms.py:82-91 | after any picks a score is the detection's own confidence times the product of the decays for its overlap with each pick |
| SoftNms.FirstPickIsBest | apps/ai-service/src/utils/nms.py:76-79 | the first pick is the first of the most confident detections |
| SoftNms.TwoBoxes | apps/ai-service/src/utils/nms.py:76-93 | of two boxes the better comes first, and the other follows if and only if its confidence times the decay of their overlap reaches the floor |
| SoftNms.UntouchedIsKept | apps/ai-service/src/utils/nms.py:84-93 | where no overlap means no decay, a box that meets no other pick is kept if and only if it is the first pick or its confidence reaches the floor |
| SoftNms.PicksAreBest | apps/ai-service/src/utils/nms.py:76-79 | every pick is the best of all detections neither picked nor below the floor by then |
| SoftNms.SoftIsSound | apps/ai-service/src/utils/nms.py:76-95 | from any point of a run: picks are distinct, maximal when picked, never below the floor before, and what is not picked fell below it |
| SoftNms.SoftNmsGuarantee | apps/ai-service/src/utils/nms.py:71-95 | the same for whole calls: each index at most once; every pick maximal among later picks; a kept index never below the floor; a dropped one below it after some pick |
| SoftNms.PickScoresNeverIncrease | apps/ai-service/src/utils/nms.py:76-95 | scores at pick time never increase along the output |
| IdentityTables.IngestKeepsTables | apps/analytics-service/src/application/use_cases/process_tracking_event.py:87-122 | ingesting under any id keeps foreign keys, sighting intervals and the appearance bound |
| IdentityTables.UnmatchedCreatesPerson | apps/analytics-service/src/application/use_cases/process_tracking_event.py:74-110 | without an embedding of 512 numbers, or without a match, a person is created and nobody else changed |
| IdentityTables.MatchedCreatesNobody | apps/analytics-service/src/application/use_cases/process_tracking_event.py:77-99 | a match is one more sighting of the id found; nobody is created if the tables know it |
| IdentityTables.PurgeKeepsTables | apps/scheduler-service/src/jobs/cleanup_job.py:113-139 | deleting any rows and any persons, with SET NULL, keeps them too |
| IdentityTables.DropCameraKeepsTables | database/postgres/schema.sql:89-92 | so does deleting a camera with its cascade, which leaves persons and other cameras' rows as they are |
| IdentityTables.FetchPersonsIsSound | apps/scheduler-service/src/jobs/cleanup_job.py:51-74 | the person select spares the persons of rows the row select spared, even when rows were committed in between |
| IdentityTables.StepKeepsInv | apps/scheduler-service/src/jobs/cleanup_job.py:51-142 | every step of ingestion, any retention job in flight and camera changes keeps the tables coherent and the jobs' fetched sets meaningful |
| Retention.EveryRunIsCoherent | apps/analytics-service/src/application/use_cases/process_tracking_event.py:74-122 | in every run, whatever ids the vector store answers and however retention jobs interleave: a row's person exists, first_seen <= timestamp <= last_seen, rows <= total_appearances |
| Retention.OnlyLateRowsAreUnlinked | apps/scheduler-service/src/jobs/cleanup_job.py:51-139 | a job deletes no row at or after its cutoff, and changes a surviving row if and only if its first select did not see it and it belongs to a person the job deletes |
| Retention.NobodyIsHollowedOut | apps/scheduler-service/src/jobs/cleanup_job.py:70-139 | without camera deletions every surviving person owns a row at its last_seen, in every interleaving |
| Retention.AppearancesAreConserved | packages/domain/entities/person.py:14-20 | while nothing is deleted, total_appearances is the number of rows, and first_seen and last_seen are the exact minimum and maximum of their timestamps |
| Retention.AtomicRetention | apps/scheduler-service/src/jobs/cleanup_job.py:51-142 | an undisturbed job leaves exactly the unexpired rows and persons, all unchanged |
| Retention.DisturbedRetentionUnlinksFreshRow | apps/scheduler-service/src/jobs/cleanup_job.py:70-139 | a run in which a disturbed job erases a person seen after the cutoff |
| RetentionRaces.ErasedThoughSeenExactly | apps/scheduler-service/src/jobs/cleanup_job.py:70-139 | of the persons a job erases, exactly those with an unseen row at or after the cutoff were last seen that late |
| RetentionRaces.UnlinkedRowsInRuns | apps/scheduler-service/src/jobs/cleanup_job.py:51-139 | in every run, a row that survives a job is changed by it if and only if it was ingested between the job's first select and its deletes and is linked to a person the job selected |
| RetentionRaces.FreshErasuresInRuns | apps/scheduler-service/src/jobs/cleanup_job.py:51-139 | in every run without camera deletions, an erased person was last seen at or after the cutoff if and only if a sighting that late was ingested for it between the first select and the deletes |
| RetentionRaces.FreshErasuresExactly | apps/scheduler-service/src/jobs/cleanup_job.py:70-139 | in every run, camera deletions included, an erased person was last seen at or after the cutoff if and only if, between the person select and the deletes, a sighting that late was filed under that person, who has existed since |
| Ingestion.PersonEntity.UpdateAppearance | packages/domain/entities/person.py:14-20 | widens the interval to the sighting and counts it |
| Ingestion.PersonRepository.GetById | apps/analytics-service/src/infrastructure/persistence/sqlalchemy_person_repo.py:13-22 | a fresh entity for a known id, nothing for an unknown one |
| Ingestion.PersonRepository.UpsertPerson | apps/analytics-service/src/infrastructure/persistence/sqlalchemy_person_repo.py:24-52 | a later read of this id finds the person as it is now, of any other id what it found before; rows are untouched |
| Ingestion.TrackingRepository.SaveEvent | apps/analytics-service/src/infrastructure/persistence/sqlalchemy_tracking_repo.py:14-31 | the person has exactly one more row, at that time; every other row, and every other person's rows, are as before |
| Ingestion.ProcessTrackingEventUseCase.HandlePersonDetection | apps/analytics-service/src/application/use_cases/process_tracking_event.py:64-122 | match, desync fallback and new identity all have the one effect of the table step; raises exactly when the vector store does |
| Ingestion.ProcessTrackingEventUseCase.Execute | apps/analytics-service/src/application/use_cases/process_tracking_event.py:27-62 | one alert for fire or smoke, one table step for a person, nothing otherwise |
| Ingestion.HandledFiles | apps/analytics-service/src/application/use_cases/process_tracking_event.py:64-122 | a person's detection is filed as one more sighting of the match, or of a new person; any other message changes no table |
| Ingestion.AttemptSucceedsExactly | apps/analytics-service/src/main.py:55-76 | exactly when an attempt at a message succeeds, in terms of the message and the outside world |
| Ingestion.ProcessMessage | apps/analytics-service/src/main.py:55-76 | all of an attempt's writes are committed or none, in each of the consumer's three outcomes: success, a raise without effect, and a raise behind a commit that took effect; the tables stay coherent; a fire alert is out in any case |
| Ingestion.ExecuteCleanup | apps/scheduler-service/src/jobs/cleanup_job.py:45-150 | a run leaves exactly what is not expired if its commit takes effect, and everything if not; it raises exactly when a statement or the commit does |
| DetectionConsumer.StepKeepsCovered | apps/analytics-service/src/infrastructure/messaging/kafka_consumer.py:53-96 | each step keeps everything below the committed offset handled, and never takes that offset back |
| DetectionConsumer.EveryRunIsCovered | apps/analytics-service/src/infrastructure/messaging/kafka_consumer.py:53-96 | over every run, crashes and restarts included, each offset below the committed one was applied, or a dead letter was produced for it, delivered or not |
| DetectionConsumer.NoLossWhenDelivered | apps/analytics-service/src/infrastructure/messaging/kafka_consumer.py:27-42 | in every run that leaves no dead letter undelivered, everything below the committed offset was applied or is in the dead-letter topic |
| DetectionConsumer.NoLossWithoutFailures | apps/analytics-service/src/infrastructure/messaging/kafka_consumer.py:27-42 | so it is in runs in which no flush times out and no delivery fails |
| DetectionConsumer.OutcomesAreConserved | apps/analytics-service/src/infrastructure/messaging/kafka_consumer.py:71-96 | over every run: transactions + dead letters, whatever became of them, = 1 + commits that took effect but raised + stops between an outcome and its offset commit |
| DetectionConsumer.ExactlyOnce | apps/analytics-service/src/infrastructure/messaging/kafka_consumer.py:71-96 | over every run: applied exactly once and not dead-lettered, or the reverse, if and only if there was no such commit and no such stop |
| DetectionConsumer.LostExactlyUndelivered | apps/analytics-service/src/infrastructure/messaging/kafka_consumer.py:27-42 | over every run: a committed message is in neither the tables nor the dead-letter topic if and only if all its outcomes are undelivered dead letters |
| DetectionConsumer.WithinSession | apps/analytics-service/src/infrastructure/messaging/kafka_consumer.py:27-96 | without restarts only unacknowledged commits add outcomes, and a message is lost if and only if its dead letter is undelivered and no attempt committed behind an exception |
| DetectionConsumer.UndeliveredLetterLosesMessage | apps/analytics-service/src/infrastructure/messaging/kafka_consumer.py:36-41 | runs that lose a message, by a flush that times out and by a delivery that fails |
| DetectionConsumer.CrashAppliesTwice | apps/analytics-service/src/infrastructure/messaging/kafka_consumer.py:71-96 | a run that applies a message twice although every commit in it was acknowledged |
| DetectionConsumer.KafkaEventConsumer.Attempts | apps/analytics-service/src/infrastructure/messaging/kafka_consumer.py:71-87 | the message is processed if and only if one of the first max_attempts attempts succeeds, and is applied once for that and once for each earlier attempt that committed and raised |
| DetectionConsumer.KafkaEventConsumer.SendToDlq | apps/analytics-service/src/infrastructure/messaging/kafka_consumer.py:27-42 | one dead letter, delivered, still queued or dropped, unnoticed in any case, or the loop ends |
| DetectionConsumer.KafkaEventConsumer.Handle | apps/analytics-service/src/infrastructure/messaging/kafka_consumer.py:63-94 | how often a message is applied; that one dead letter is produced exactly when it does not parse or no attempt succeeds and the broker takes it, and what becomes of it; when its offset is committed; and that only the broker ends the loop |
| DetectionConsumer.ListenEndsExactly | apps/analytics-service/src/infrastructure/messaging/kafka_consumer.py:44-96 | over every script, the loop ends if and only if some poll is a broker error, its commit raises, or its failed message's dead letter is not taken |
| DetectionConsumer.KafkaEventConsumer.StartListening | apps/analytics-service/src/infrastructure/messaging/kafka_consumer.py:44-96 | the loop's whole run is the one its script asks for; it ends if and only if a poll, a dead letter or a commit fails; nothing below the committed offset is passed over |
| Pipeline.RowsCountTransactions | apps/analytics-service/src/main.py:55-76 | consumer and tables together, over every run with unacknowledged commits, crashes and restarts: an offset has exactly as many tracking rows as committed transactions, each with its message's camera and time, and each person's counter is the number of its rows |
| Pipeline.OvercountExactly | apps/analytics-service/src/infrastructure/messaging/kafka_consumer.py:71-96 | over every run, the rows and dead letters of a committed sighting number one, plus its commits behind an exception, plus the stops between its outcome and its offset commit |
| Pipeline.OvercountInSession | apps/analytics-service/src/infrastructure/messaging/kafka_consumer.py:71-96 | without restarts, only the commits behind an exception add to them |
| AlertConsumer.EveryRunIsAccounted | apps/notification-service/src/main.py:58-135 | over every run, each offset below the committed one was handled or skipped by an exception |
| AlertConsumer.SessionIsExclusive | apps/notification-service/src/main.py:131-135 | in one session a skipped message is never handled later |
| AlertConsumer.CoveredExactlyWithoutSkips | apps/notification-service/src/main.py:58-135 | in one session everything below the committed offset was handled if and only if nothing below it was skipped |
| AlertConsumer.CoveredExactlyWithoutOvertaking | apps/notification-service/src/main.py:58-135 | over every run, restarts included, everything below the committed offset was handled if and only if no commit passed over an offset that was not |
| AlertConsumer.ExceptionLosesAlert | apps/notification-service/src/main.py:103-135 | a run that loses an alert |
| AlertConsumer.AlertForwarder.Forward | apps/notification-service/src/main.py:102-113 | forwarded if and only if the first of three replies that is not another status is a 200, left by an exception if and only if it is one |
| AlertConsumer.AlertForwarder.Handle | apps/notification-service/src/main.py:73-135 | which of forwarded, dead-lettered and skipped a message ends as, and when its offset is committed, in terms of the replies |
| AlertConsumer.AlertForwarder.ConsumeAlerts | apps/notification-service/src/main.py:58-135 | the loop's whole run is the one its script asks for, and takes every message before a cancellation, whatever raises; covered exactly without skips |
| SlidingWindow.MemoryStepSound | apps/gateway/src/middleware/rate_limiter.py:91-101 | the pruned log still decides as the full history of admissions would, and keeps every window within the limit |
| SlidingWindow.RedisStepSound | apps/gateway/src/middleware/rate_limiter.py:66-82 | the sorted set holds every recent admission, and no window gets more than the limit of distinct admission times |
| SlidingWindow.RedisDecidesExactly | apps/gateway/src/middleware/rate_limiter.py:66-82 | after any arrivals a request is admitted if and only if fewer than the limit of distinct instants later than 60 s ago saw one, denied ones included |
| SlidingWindow.MemoryDecidesExactly | apps/gateway/src/middleware/rate_limiter.py:91-101 | after any arrivals a request is admitted if and only if fewer than the limit of requests later than 60 s ago were admitted |
| SlidingWindow.RedisHoldsRecent | apps/gateway/src/middleware/rate_limiter.py:66-74 | the sorted set holds exactly the instants of the arrivals later than 60 s before the last, and expires 65 s after it |
| SlidingWindow.SlowRequestsPass | apps/gateway/src/middleware/rate_limiter.py:66-101 | requests at least 60 s apart are never denied by either branch |
| SlidingWindow.MemoryNeverExceeds | apps/gateway/src/middleware/rate_limiter.py:91-101 | over all arrival sequences, at most the limit in any interval (t-60, t] |
| SlidingWindow.RedisNeverExceeds | apps/gateway/src/middleware/rate_limiter.py:66-82 | at most the limit of distinct instants, and of requests when the clock strictly increases |
| SlidingWindow.SameInstantIsUnlimited | apps/gateway/src/middleware/rate_limiter.py:72 | with a limit above one, any number of requests at one instant is admitted |
| SharedInstants.SharedInstantsBound | apps/gateway/src/middleware/rate_limiter.py:66-82 | when at most m requests share an instant, no interval (t-60, t] gets more than m * (limit - 1) + 1, and none at limit 0 |
| SharedInstants.RedisBoundExactly | apps/gateway/src/middleware/rate_limiter.py:66-82 | all such runs stay within b requests a window if and only if b is at least that number |
| SharedInstants.RedisLimitHoldsExactly | apps/gateway/src/middleware/rate_limiter.py:66-82 | all such runs stay within the limit if and only if m <= 1 or limit <= 1 |
| SharedInstants.RedisLimitHoldsForAllExactly | apps/gateway/src/middleware/rate_limiter.py:66-82 | all runs, however many requests share an instant, stay within the limit if and only if limit <= 1 |
| SlidingWindow.SwitchNeverExceedsTwice | apps/gateway/src/middleware/rate_limiter.py:63-101 | a run with the one-way switch admits at most twice the limit |
| SlidingWindow.SwitchBoundIsTight | apps/gateway/src/middleware/rate_limiter.py:63-101 | for every limit there are strictly increasing arrivals and an interval (t-60, t] in which twice the limit is admitted |
| SlidingWindow.ExpiryIsHarmless | apps/gateway/src/middleware/rate_limiter.py:74 | the 65-second expiry drops nothing pruning would keep |
| SlidingWindow.RedisAdmitsLess | apps/gateway/src/middleware/rate_limiter.py:66-101 | on the same strictly increasing arrivals, whatever Redis admits the in-memory log admits |
| RateLimiter.EvictsTheOlderHalf | apps/gateway/src/middleware/rate_limiter.py:37-51 | above 10000 clients the table is halved, and no evicted client asked later than a kept one |
| RateLimiter.EvictedAskedEarlier | apps/gateway/src/middleware/rate_limiter.py:43-49 | no request of an evicted client is later than all requests of a kept one |
| RateLimiter.RateLimiter.GarbageCollect | apps/gateway/src/middleware/rate_limiter.py:37-51 | the deletion loop removes exactly those clients |
| RateLimiter.RateLimiter.CheckRedis | apps/gateway/src/middleware/rate_limiter.py:63-85 | the pipeline is the Redis step for this client and leaves all others alone; an exception gives Redis up for good |
| RateLimiter.RateLimiter.CheckMemory | apps/gateway/src/middleware/rate_limiter.py:87-101 | eviction, then the in-memory step for this client |
| RateLimiter.RateLimiter.CheckRateLimit | apps/gateway/src/middleware/rate_limiter.py:53-101 | which branch decides, that it is the specified step, that Redis never comes back, and that requests each later than the one before keep Redis admissions strictly increasing |
| RateLimiter.RateLimiter.WindowBound | apps/gateway/src/middleware/rate_limiter.py:53-101 | at any point of any run of any clients: the limit per branch, and with requests each later than the one before twice the limit across the switch, for a client that lost no counted request to an eviction |
| LoginLockout.MemoryRunPaced | apps/gateway/src/main.py:252-261 | the counter is the number of failures in a row, and from the sixth on each comes 900 s after the one before |
| LoginLockout.FailuresArePaced | apps/gateway/src/main.py:309-336 | the n-th failure in a row, n >= 5, comes no earlier than 900 * (n-5) s after the fifth |
| LoginLockout.MemoryRefusesExactly | apps/gateway/src/main.py:252-261 | after any logins, one is refused if and only if five failures in a row precede it, the last one less than 900 s ago; an accepted one clears them |
| LoginLockout.FailuresPaceIsTight | apps/gateway/src/main.py:309-336 | for every n >= 5 there are logins whose n-th failure comes exactly 900 * (n-5) s after the fifth |
| LoginLockout.RedisFailuresAreSpread | apps/gateway/src/main.py:238-251 | with Redis any six failures in a row take at least 900 s |
| LoginLockout.RedisRefusesExactly | apps/gateway/src/main.py:236-251 | with Redis one is refused if and only if the last five failures have no pause of 900 s between them or since the last |
| LoginLockout.RedisForgivesAfterExpiry | apps/gateway/src/main.py:320-329 | logins in which the seventh failure follows right after the sixth |
| LoginLockout.RedisPacesExactly | apps/gateway/src/main.py:238-251 | after any logins, every login that adds a recorded failure is answered 900 s after the last one if and only if the counter stands at five or more or those 900 s are over |
| LoginLockout.RedisPace | apps/gateway/src/main.py:320-329 | the n-th failure in a row, n >= 5, comes no earlier than 900 * floor((n-5)/5) s after the fifth |
| LoginLockout.RedisPaceIsTight | apps/gateway/src/main.py:320-329 | for every n there are logins that attain it |
| LoginLockout.InMemoryPaceExactly | apps/gateway/src/main.py:309-336 | the pace 900 * (n-5) of the in-memory counter holds for the n-th failure of every Redis run if and only if n = 5 |
| LoginLockout.RecordedExactly | apps/gateway/src/main.py:238-329 | a further login adds a recorded failure if and only if its password is wrong and the counter lets it through |
| LoginLockout.SwitchIsSpread | apps/gateway/src/main.py:238-336 | across the one-way switch, after which the in-memory counter starts from zero, any eleven failures in a row take at least 900 s |
| LoginLockout.SwitchAllowsTen | apps/gateway/src/main.py:238-336 | logins of which ten fail at one instant, five before the switch and five after it |
| LoginLockout.LockoutTable.HandleLogin | apps/gateway/src/main.py:252-336 | refused exactly after five failures in a row of that address, the last less than 900 s ago; the entry afterwards; no other address is touched |
| WebSocketProtocol.StepKeepsInv | apps/web/src/shared/hooks/useWebSocket.ts:65-246 | every callback and every part of `connect` keeps timers unique, identities unused, the status honest and the delays a backoff |
| WebSocketProtocol.EveryRunKeepsInv | apps/web/src/shared/hooks/useWebSocket.ts:65-272 | so every interleaving does |
| WebSocketProtocol.BackoffShape | apps/web/src/shared/hooks/useWebSocket.ts:208-211 | the delays are 1, 2, 4, 8, 16 s and a jitter below 250 ms, then 30 s; so within [1000, 30000] and non-decreasing |
| WebSocketProtocol.EveryInterleaving | apps/web/src/shared/hooks/useWebSocket.ts:65-272 | after any run: at most one reconnect timer and one heartbeat; a heartbeat or 'open' implies a socket; with paired subscriptions at most one deferred close, and only without subscribers; a client nothing will move says 'closed' or 'error'; the delays back off |
| WebSocketProtocol.PairedExactly | apps/web/src/shared/hooks/useWebSocket.ts:284-289 | no removal goes unmatched if and only if at no point more subscribers have left than come, which is how the hook pairs them; the count is then additions minus removals |
| WebSocketRecovery.LossReconnects | apps/web/src/shared/hooks/useWebSocket.ts:171-190 | after any run, a close of the current socket with subscribers and a code other than 1000 and 4001 leaves exactly one reconnect timer; unless one was registered already, the next attempt, its delay and the status 'reconnecting' with it |
| WebSocketRecovery.OvertakenTimerSaysClosed | apps/web/src/shared/hooks/useWebSocket.ts:148-206 | a reachable client whose socket closes with the status 'closed' while a timer will reconnect it |
| WebSocketRecovery.ExpiredTokenRefreshes | apps/web/src/shared/hooks/useWebSocket.ts:177-185 | code 4001 leaves one more refresh awaited and sets no timer |
| WebSocketRecovery.RefreshReconnects | apps/web/src/shared/hooks/useWebSocket.ts:178-184 | a refreshed token then leads to exactly one reconnect timer if there are subscribers; none ends everything |
| WebSocketRecovery.NormalClosureIsFinal | apps/web/src/shared/hooks/useWebSocket.ts:171-176 | code 1000 leads to neither |
| WebSocketRecovery.StrandedExactly | apps/web/src/shared/hooks/useWebSocket.ts:118-272 | after any run, a client with subscribers has no socket, timer, suspended connect or refresh if and only if a normal closure, an unusable address, a missing token or a logout came when nothing else was under way, and nobody has subscribed since |
| WebSocketRecovery.OpenResets | apps/web/src/shared/hooks/useWebSocket.ts:150-155 | an open resets the attempts and leaves exactly one heartbeat |
| WebSocketRecovery.TimerConnects | apps/web/src/shared/hooks/useWebSocket.ts:213-216 | a fired timer is spent, and starts a connect if there are subscribers and no usable socket |
| WebSocketRecovery.ConnectOpensSocket | apps/web/src/shared/hooks/useWebSocket.ts:141-150 | a resumed connect with a token, an address and subscribers opens one new socket |
| WebSocketRecovery.ConnectGivesUp | apps/web/src/shared/hooks/useWebSocket.ts:130-146 | without a token it ends everything, without subscribers it does nothing, with an unusable address it shows an error |
| WebSocketRecovery.SubscriberConnects | apps/web/src/shared/hooks/useWebSocket.ts:65-69 | a new subscriber cancels the deferred close and connects unless a usable socket is there |
| WebSocketRecovery.LastLeaverDefersClose | apps/web/src/shared/hooks/useWebSocket.ts:71-81 | the last subscriber to leave, and no other, defers a close |
| WebSocketRecovery.DeferredCloseEnds | apps/web/src/shared/hooks/useWebSocket.ts:75-79 | a deferred close ends everything if nobody has come back, and nothing otherwise |
| WebSocketRecovery.NoIdleConnection | apps/web/src/shared/hooks/useWebSocket.ts:65-81 | after any run, a client without subscribers that still has a socket, heartbeat or reconnect timer has a deferred close registered |
| WebSocketRuns.PairedClosesFireAlone | apps/web/src/shared/hooks/useWebSocket.ts:75-79 | in such runs a deferred close fires only while nobody subscribes, and disconnects |
| WebSocketRuns.SupersededForGood | apps/web/src/shared/hooks/useWebSocket.ts:150-171 | in every run, a socket that is not the current one never is again |
| WebSocketRuns.StrayEventsDoNothing | apps/web/src/shared/hooks/useWebSocket.ts:152-171 | taking every open, error and close of superseded sockets out of a run leaves a possible run and every field of the client as it was, but for the states of sockets it no longer refers to |
| WebSocketRuns.StepLeaksExactly | apps/web/src/shared/hooks/useWebSocket.ts:118-150 | a step leaves a live socket without a reference if and only if it is a connect that resumes with a token, a valid address and subscribers while a socket is in use |
| WebSocketRuns.LeaksExactly | apps/web/src/shared/hooks/useWebSocket.ts:118-191 | a run never leaves one if and only if no resumed connect of it finds a socket in use |
| WebSocketRuns.OneConnectLeaksNothing | apps/web/src/shared/hooks/useWebSocket.ts:118-150 | with at most one call suspended in `connect` at a time none ever does, and no socket leaks |
| WebSocketRuns.TwoSuspendedConnectsLeakSocket | apps/web/src/shared/hooks/useWebSocket.ts:130-150 | a run with two suspended calls that leaves an open socket behind |
| WebSocketClient.SharedWebSocketClient.ResumeConnect | apps/web/src/shared/hooks/useWebSocket.ts:130-150 | the part of `connect` after its await, in all four outcomes, the doubled disconnect included, is one step of the protocol |
| WebSocketClient.SharedWebSocketClient.ClosedBy | apps/web/src/shared/hooks/useWebSocket.ts:171-191 | a close is one step of the protocol; of the current socket, with subscribers and a code other than 1000 and 4001, it leaves a reconnect timer |
| WebSocketClient.SharedWebSocketClient.Guarantees | apps/web/src/shared/hooks/useWebSocket.ts:45-272 | whatever calls and callbacks the client has run: one reconnect timer, one heartbeat, 'open' implies a socket, paired deferred closes, no idle connection without one, delays that back off; every callback keeps the client in a state some run leads to |
| RequestRetry.BudgetBoundsSends | apps/web/src/shared/utils/axiosInstance.ts:116-150 | from any marks, the sends still to come are bounded by what the marks leave, and so are the replies until the caller is answered |
| RequestRetry.SendsExactly | apps/web/src/shared/utils/axiosInstance.ts:33-53 | a request is sent more than k times if and only if each of the first k replies is the first 401 with a token refreshed, or a transient failure within the retries of a repeatable request; the first other reply is what the caller gets |
| RequestRetry.OtherFailuresAreFinal | apps/web/src/shared/utils/axiosInstance.ts:33-53 | a cancellation, or a status other than 401 and the six, means one send and a rejection |
| RequestRetry.RequestsAreBounded | apps/web/src/shared/utils/axiosInstance.ts:33-53 | whatever the server answers, at most 2 + retries sends; at most two for an unsafe method without opt-in; the caller is answered by then |
| RequestRetry.BoundIsTight | apps/web/src/shared/utils/axiosInstance.ts:116-150 | for every request an expired token and any mix of missing responses and the six retryable codes use the bound up |
| RequestRetry.RefreshIsSingleFlight | apps/web/src/shared/utils/axiosInstance.ts:71-95 | in every run at most one refresh is posted, and each caller waits for it or has the result of the one it joined |
| RequestRetry.SettledAnswersJoined | apps/web/src/shared/utils/axiosInstance.ts:80-92 | a finished refresh answers everyone who joined it with its result, and changes no earlier answer |
| RequestRetry.TokenRefresher.RefreshAccessToken | apps/web/src/shared/utils/axiosInstance.ts:73-95 | joins the pending refresh, or posts one if there is none |
| RequestRetry.TokenRefresher.Settled | apps/web/src/shared/utils/axiosInstance.ts:81-92 | stores or clears the token, answers this refresh's callers and frees the slot |

## Left out

- Rounding: embeddings, boxes, scores and clocks are exact reals; the square root is a parameter of which only its law is used, the Gaussian decay any factor in (0, 1].
- Embeddings of different lengths in one gallery: the array routines demand one length, and so does the model.
- Boxes with x2 < x1 or y2 < y1 in `nms` and `soft_nms`, for which the code's denominator can be zero; the IoU forms themselves are compared on all boxes.
- The order in which equal scores are sorted: any order by descending score is covered.
- Random ids that collide: ids drawn for persons and rows are new.
- Columns of tracking rows other than person, camera and time; a CHECK on them that fails is a commit that fails.
- Fire events and alerts tables, object storage and vector deletions of the retention job, and the crop-path loop: they touch neither persons nor tracking rows.
- Interleaving inside one ingestion transaction: its row lock makes it one step, applied at commit.
- Interleaving between a retention job's two deletes and its commit: they are one step, as the deleted rows are locked until then.
- Ingestion.ExecuteCleanup: one run on a session of its own; its interleaving with other transactions is the subject of the `Retention` theorems.
- Kafka rebalancing and several partitions: one partition, whose committed offset a restart resumes from; that the alerts group starts at the end of its topic when nothing was ever committed is not modelled.
- DetectionConsumer.KafkaEventConsumer.StartListening: polls a finite script instead of forever; `stop` between polls is the end of the script.
- Sleeps and back-off between attempts, the `retry-after` header and all logging.
- Redis errors inside the lockout, which the code swallows, and logins of one address in flight at the same time.
- The hook itself: that its effect pairs every subscription with at most one removal is what `Paired` says of a run; `UnpairedRemovalLeaksTimer` shows what pairing prevents.
- A browser whose closing or closed sockets come to life again: the leak theorems leave it out.
- Pipeline.RowsCountTransactions: while nothing is deleted; what deletions do is the subject of `Retention` and `RetentionRaces`.
- Message handlers and payloads of the websocket client, the status handlers, and the React hook around it.
- Token contents, the auth store beyond the stored token and its logout, and the axios request interceptor.
- Spatial constraints, the persistent gallery and the vector-store wrapper: only the answers of a search matter, and those are arbitrary.
- The dashboards, CRUD routes, RTSP handling, the inference pipeline and the scheduler's clock.
