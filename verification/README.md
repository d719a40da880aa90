# Anduin: a Dafny model of the tracking pipeline

Anduin tracks satellites: a producer posts position samples, an ingest API puts
them on Kafka, a persister writes them to Postgres and Redis, a pass worker turns
elevations into pass events, and a query API serves tracks and live frames. This
project models the parts of it whose behaviour spans whole runs and proves what
those runs guarantee. `dafny verify dfyconfig.toml` checks everything.

| files | part of the system |
|---|---|
| `PersisterModel`, `PersisterFolds`, `PersisterInvariant`, `PersisterTheorems`, `PersisterRuns`, `PersisterNames`, `PersisterScores`, `PersisterRecovery`, `PersisterService` | the position persister with crashes and replay |
| `TrackQuery`, `TrackHealing`, `TrackExamples` | the track endpoint: Redis list against Postgres query, and when the persister makes them agree |
| `Passes`, `PassTheorems`, `PassArcs` | the pass detector |
| `PassWorker` | one detector per (satellite, observer) out of one map |
| `TokenBucket` | the Lua token bucket |
| `SchemaLoader`, `AvroCodec` | schema loading with references |
| `BulkScheduler` | the round-robin over bulk satellites |
| `WsModel`, `WsTheorems`, `WsHub` | the WebSocket fan-out |
| `TleParser` | the TLE file parser |
| `Seqs` | shared sequence vocabulary |

How the models are built:

- The persister and the fan-out are transition systems. A run is any list of
  events; an event that is not enabled changes nothing, so a statement about all
  event lists covers every interleaving, every batch boundary and a crash between
  any two writes. History values (`HistoryOf`, a client's `attempts` and `taken`)
  record what happened and are never read by the system.
- Where the program updates objects in place there is a class with the same
  fields. Its methods are proved to do to the fields what the specification
  functions say, so the theorems about runs apply to the objects. The ghost `trace`
  of the persister and of the WebSocket server is the list of events performed so
  far, and `Valid` says that the fields are in the state of that run.
- The `satellites` table may start with any rows, with or without a name and an
  epoch, as postgres/init/03-seed.sql:16-20 creates it. Every statement about names,
  epochs and membership is for an arbitrary seed.
- Tokens are counted in 1/60000 of a token, which makes the script's arithmetic
  exact (`ScalingIsExact`, `HintIsCeiling`). Elevations and sample times of the
  pass detector are reals. Times elsewhere are integer milliseconds.

Where code and documentation differ the code is modelled:

- A full client queue drops the new frame, although the comment at
  query-api/app/ws.py:64-65 speaks of older frames (`FullQueueDropsNewest`).
- The bulk list need not be cycled once per cadence, although
  tle-producer/app/main.py:51-52 says so (`SixTicksCanMiss`).
- The track endpoint falls back to Postgres only when the Redis list yields nothing,
  and not when the window exceeds what Redis retains, as
  query-api/app/main.py:157-158 says (`LongWindowIsCut`).

Properties that are false as one would first state them, with the input and the
exact condition:

- A satellite's name is not always the last non-null one ever upserted (or, without
  one, the seeded name): `NameStepsBack` is a run that brings an old name back during
  replay. In every run over given logs it is, if and only if the logs never give that
  satellite two different names (`NameAlwaysLastIff`).
- The `sats:active` score is not always the greatest time pushed: replaying steps it
  back (`ScoreStepsBack`). In every run over given logs it is, if and only if all
  sample times of the satellite are equal (`AlwaysGreatestIff`); in every run without
  a crash, if and only if they never decrease (`UncrashedGreatestIff`).
- rise_0 does not fire on every call from below to above the horizon:
  `GrazingHidesRise` is a sequence with a sample exactly on it. It fires exactly on
  the first such call since the satellite last set (`Rise0OnSamples`).
- A pass is not always reported as all five events: `CoarsePassMissesEvents` is one of
  three samples. It is exactly when it is `SampledFinely` (`FullPass`).
- The Redis answer is not always a prefix of the Postgres answer. `ReplayDuplicates`
  is a run that pushes one batch twice; `LaggingSkipsNewest` is one, without a crash,
  between the Postgres insert and the Redis push of a row. In every reachable state it
  is, for every cutoff, if and only if the list shows the top rows of the table
  (`EndpointFormsAgree`). For a list that shows the newest rows pushed this means that
  it is empty or that nothing of the satellite is inserted and not pushed
  (`LaggingAgreesIff`); and a crash and recovery keep it if and only if nothing of the
  satellite had been pushed but not committed, or recovery pushes at least 120 of its
  rows (`RecoveredAgreesIff`).
- A prefix need not be the whole answer: `LongWindowIsCut` is a run with 121 rows in
  the window. It is exactly unless `WindowOutgrows` holds.
- Admissions are not always bounded by net elapsed time: a clock that steps back and
  forth refills twice (`BackwardClockRefillsTwice`). The bound holds for every
  pattern of requests along a clock if and only if the clock never steps back
  (`ElapsedBoundIff`); `AdmissionsBounded` holds for every clock.
- The Retry-After header is not always long enough: `HeaderFailsBelow60` gives the
  request. It is exactly from 60 requests per minute up (`HeaderLongEnoughIff`).
- Schema loading, with stack to spare, completes exactly when everything the request
  reaches is registered and none of it lies on a reference cycle
  (`LoadCompletesIff`); `CycleNeverLoads` is a registry of two subjects.

## Model

| member | source | states |
|---|---|---|
| PersisterInvariant.NextInv | position-persister/app/main.py:73-168 | every event (append, poll, each of the four flush writes, commit, crash) keeps the invariant tying each satellite's buffered rows, table rows, name, epoch, track list and push history to offsets of its partition's log |
| PersisterTheorems.PositionsExactlyOnce | position-persister/app/main.py:78-98 | after any run `satellite_positions` is the table got by inserting each partition's log once, in order, up to the furthest offset ever inserted: an exactly-once effect from at-least-once delivery |
| PersisterTheorems.CrashesUnobservable | position-persister/app/main.py:78-98 | two runs over the same logs that inserted equally far have equal position tables, however often either crashed |
| PersisterTheorems.EpochIsGreatest | position-persister/app/main.py:100-112 | a satellite is in the table exactly when it was seeded or some row of it was ever upserted, and its `last_tle_epoch` is the greatest of the seeded epoch and those upserted |
| PersisterTheorems.NameIsLastWhenCaughtUp | position-persister/app/main.py:100-112 | when upserting has reached the furthest offset ever upserted, the name is the last non-null name of that log prefix, or the seeded one if there is none |
| PersisterTheorems.NameNeverOlderThanReplay | position-persister/app/main.py:100-112 | during replay the name is that of some log prefix between the replayed and the furthest offset, one with a name if the furthest has one, else the seeded name |
| PersisterNames.NamedStaysNamed | position-persister/app/main.py:103-106 | once a satellite has a name no later event takes it away |
| PersisterNames.NameAlwaysLastIff | position-persister/app/main.py:100-112 | the name is the last non-null one ever upserted, or else the seeded one, in every run over some logs if and only if the satellite's log never gives two different names |
| PersisterNames.NameStepsBack | position-persister/app/main.py:100-112 | a run with two names and a crash after which the older name is stored again |
| PersisterTheorems.CommittedIsDelivered | position-persister/app/main.py:73-131 | in every reachable state each decodable message below the committed offset has its row in both tables and has been pushed to Redis |
| PersisterTheorems.PushedInOrder | position-persister/app/main.py:114-131 | a satellite's push history contains its whole committed log in log order |
| PersisterTheorems.ScoreIsHeadOfTrack | position-persister/app/main.py:115-128 | the track list shows the newest 120 pushes, and the `sats:active` score exists exactly when the list is non-empty and is the time at its head |
| PersisterTheorems.EntryIsPushedRow | position-persister/app/main.py:120-128 | entry i of the list carries the time, position, speed and cell of the row pushed i pushes before the last |
| PersisterScores.AlwaysGreatestIff | position-persister/app/main.py:117-120 | the score is the greatest time ever pushed in every run over some logs if and only if all sample times of the satellite are equal |
| PersisterScores.UncrashedGreatestIff | position-persister/app/main.py:117-120 | it is in every run without a crash if and only if the satellite's sample times never decrease in its log |
| PersisterScores.ScoreStepsBack | position-persister/app/main.py:117-120 | over any log with an earlier and a later sample some run pushes the later one and ends with the score at the earlier |
| PersisterTheorems.TrackHeals | position-persister/app/main.py:115-128 | once the current incarnation has pushed 120 samples of a satellite its list is the last 120 log samples below the pushed offset, newest first |
| PersisterFolds.FirstColsIsFirst | position-persister/app/main.py:84-88 | insert-or-ignore keeps the row of the least index with that sample time |
| PersisterFolds.InsertAllAt | position-persister/app/main.py:82-98 | a batch insert keeps an existing row and otherwise stores the first row of the batch for that satellite and time, whatever other satellites the batch holds |
| PersisterFolds.LastNameIsLast | position-persister/app/main.py:104-105 | the last name is that of the greatest index that has one, and missing only if none has |
| PersisterFolds.UpsertAllAt | position-persister/app/main.py:100-112 | a batch upsert leaves the last non-null name, else the old one, and the greatest epoch of old and batch |
| PersisterFolds.PushAllShows | position-persister/app/main.py:115-128 | the pipeline keeps list and score showing the history extended by the batch's rows of that satellite, and touches neither table |
| PersisterRecovery.RecoveryRestoresPositions | position-persister/app/main.py:51-59 | from any reachable state a restart that polls to the end and flushes once leaves the position table of the whole logs inserted once |
| PersisterRecovery.RecoveryRestoresSatellite | position-persister/app/main.py:100-131 | the same restart leaves every satellite with the last name and greatest epoch of its whole log on top of its seeded row, all of it pushed in order |
| PersisterService.Persister.Drain | position-persister/app/main.py:141-162 | one partition's decodable rows go to the end of the buffer in order, the position advances past all messages, and one poll event is performed |
| PersisterService.Persister.Poll | position-persister/app/main.py:138-162 | every partition of the batch advances by its count, the others stay, and the buffer gains the decodable rows of those runs in the order of the batch |
| PersisterService.Persister.InsertPositions | position-persister/app/main.py:82-98 | the loop over the rows computes the insert-or-ignore fold |
| PersisterService.Persister.UpsertSatellites | position-persister/app/main.py:99-112 | the loop over the rows computes the upsert fold |
| PersisterService.Persister.PushHotState | position-persister/app/main.py:115-128 | the pipeline loop computes the ZADD, LPUSH, LTRIM fold |
| PersisterService.Persister.Flush | position-persister/app/main.py:73-133 | an empty buffer only resets the timer; otherwise all four writes of the buffered rows happen in order and the offsets are committed, or the first k of them and then a crash |
| PersisterService.Persister.Turn | position-persister/app/main.py:136-165 | one loop turn polls, flushes exactly if 500 rows are buffered or 500 ms have passed, and the rows flushed or kept are those buffered before followed by the decodable rows of the batch |
| PersisterService.Persister.Shutdown | position-persister/app/main.py:166-171 | the final flush commits everything buffered before the restart |
| TrackQuery.GetTrack | query-api/app/main.py:159-191 | the scan returns the entries before the first one older than the cutoff, and the Postgres rows when there are none |
| TrackQuery.ListingIsRecent | query-api/app/main.py:173-182 | the Postgres listing of increasing rows is the rows at or after the cutoff, latest first, and no other sequence is |
| TrackQuery.RecentIsListing | query-api/app/main.py:173-182 | and the rows at or after the cutoff, latest first, are such a listing |
| TrackQuery.FastAnswerRefinesQuery | query-api/app/main.py:159-182 | with strictly increasing times and a list of some of the newest rows without a gap the Redis answer is a prefix of the Postgres answer, empty only if that or the list is, and equal exactly unless the row just past the list is inside the window |
| TrackQuery.PrefixIff | query-api/app/main.py:159-182 | a list answers every cutoff with a prefix of the Postgres answer if and only if it shows the top rows of the table |
| TrackQuery.PrefixIffNewest | query-api/app/main.py:159-182 | a list with at least as many entries as there are rows, up to 120, answers every cutoff with a prefix of the Postgres answer if and only if it shows the newest rows |
| TrackHealing.EndpointFormsAgree | query-api/app/main.py:159-182 | with increasing sample times, in every reachable state, the Redis answer is a prefix for every cutoff if and only if the list shows the top rows of the table; then it is empty only if the other or the list is, and equal to the other exactly unless the window outgrows the list |
| TrackHealing.SettledFormsAgree | query-api/app/main.py:159-182 | when nothing of the satellite is inserted but not pushed, the condition is that the list shows the newest rows |
| TrackHealing.LaggingAgreesIff | position-persister/app/main.py:78-131 | when the list shows the newest rows pushed, the condition is that it is empty or nothing of the satellite is inserted but not pushed |
| TrackHealing.HealedShowsNewest | position-persister/app/main.py:115-128 | a list shows the newest rows when nothing was pushed twice, or when 120 samples were pushed since the restart |
| TrackHealing.CrashKeepsNewestIff | position-persister/app/main.py:115-131 | a list that shows the newest rows still does after a crash if and only if nothing of the satellite was pushed but not committed |
| TrackHealing.RecoveredAgreesIff | position-persister/app/main.py:115-131 | after a crash and recovery the Redis answer is a prefix for every cutoff if and only if that holds or recovery pushes at least 120 rows of the satellite |
| TrackHealing.NeverCrashedIsHealed | position-persister/app/main.py:115-128 | a run without a crash leaves no list in need of healing |
| TrackExamples.ReplayDuplicates | query-api/app/main.py:160-170 | a run that appends one row, pushes it, crashes before the commit and pushes it again, after which Redis answers it twice and Postgres once |
| TrackExamples.LaggingSkipsNewest | position-persister/app/main.py:78-131 | a run without a crash after which Redis answers one row and Postgres that row and the one inserted since |
| TrackExamples.LongWindowIsCut | query-api/app/main.py:159-182 | a run of 121 samples after which Redis answers 120 and Postgres 121 |
| Passes.PassState.Detect | pass-worker/app/passes.py:83-128 | the threshold loop and the peak test do to the fields and return what the call on values does |
| PassTheorems.Set0Exactly | pass-worker/app/passes.py:99-109 | set_0 fires on exactly the calls from above the horizon to it or below, for all samples |
| PassTheorems.Rise0Exactly | pass-worker/app/passes.py:92-98 | rise_0 fires on exactly the calls from below the horizon to it or above for which no earlier rise_0 awaits its set_0 |
| PassTheorems.Rise0OnSamples | pass-worker/app/passes.py:92-98 | on the samples alone: rise_0 fires on exactly the first upward call through the horizon since the satellite last set |
| PassTheorems.Rise10Exactly | pass-worker/app/passes.py:92-98 | rise_10 fires on exactly the first upward call through 10 degrees since then that is not itself a rise_0 |
| PassTheorems.Set10Exactly | pass-worker/app/passes.py:99-109 | set_10 fires on exactly the first downward call through 10 degrees since then that ends above the horizon |
| PassTheorems.CulminationExactly | pass-worker/app/passes.py:111-128 | a culmination fires exactly when the previous sample, above 10 degrees, is higher than this and than the remembered one, the call reports no setting, and none is pending; which sample is remembered is given by the earlier calls |
| PassTheorems.CulminationOnSamples | pass-worker/app/passes.py:111-128 | on the samples alone: a culmination fires on exactly the first peak call since the satellite last set, one whose previous sample is above 10 degrees and above both this sample and the remembered one |
| PassTheorems.HorizonCrossings | pass-worker/app/passes.py:92-109 | with no sample on the horizon rise_0 and set_0 fire on exactly the upward and downward crossings |
| PassTheorems.NothingPendingBelow | pass-worker/app/passes.py:103-108 | with no sample on the horizon `emitted` is empty whenever the last sample is below it |
| PassTheorems.HorizonAlternates | pass-worker/app/passes.py:92-109 | two rise_0 always have a set_0 between them, and two set_0 a rise_0 if no sample is on the horizon |
| PassTheorems.OncePerPass | pass-worker/app/passes.py:24-25 | no kind but set_0 fires twice without a set_0 in between |
| PassTheorems.GrazingHidesRise | pass-worker/app/passes.py:95-98 | a sample exactly on the horizon makes the detector miss the next rise_0 |
| PassTheorems.CulminationIsPeak | pass-worker/app/passes.py:111-125 | every culmination names a sample above 10 degrees whose true predecessor and successor are both lower, with its own time and elevation |
| PassTheorems.PeakIsRecorded | pass-worker/app/passes.py:103-125 | the recorded peak is that of the culmination a call reports, none after a set_0, and otherwise what it was |
| PassTheorems.CrossingIsOnTheLine | pass-worker/app/passes.py:36-43 | on a segment neither flat nor instantaneous the line through both samples is at the threshold at the returned time |
| PassTheorems.CrossingEventIsOnTheLine | pass-worker/app/passes.py:92-102 | every rise and set event carries its threshold as elevation and the time at which the line through its two samples is there; a nearly flat or instantaneous segment gives the new sample's time |
| PassTheorems.EventTimesNeverDecrease | pass-worker/app/passes.py:36-43 | samples in time order give events in time order |
| PassArcs.ArcReports | pass-worker/app/passes.py:83-128 | for every rising-then-falling arc, from every detector between passes, exactly which kinds are reported, and that the detector is between passes again exactly unless the peak is on the horizon |
| PassArcs.FullPass | pass-worker/app/passes.py:83-128 | all five events in order exactly when the arc has samples between the thresholds on both sides, peak and next sample above 10 degrees and a remembered predecessor |
| PassArcs.CoarsePassMissesEvents | pass-worker/app/passes.py:83-128 | a pass to 20 degrees seen in three samples is reported as rise_0 and set_0 only |
| PassArcs.NoFlatStepNoCulmination | pass-worker/app/passes.py:111-125 | a fresh detector never reports the culmination of an arc none of whose rising steps crosses nothing, however high it climbs |
| PassArcs.DayReports | pass-worker/app/passes.py:103-108 | a sequence of arcs is reported arc by arc, none disturbing the next |
| PassArcs.FullDay | pass-worker/app/passes.py:83-128 | n finely sampled passes are reported as n times the five events |
| PassWorker.PassWorker.Consume | pass-worker/app/main.py:90-120 | a message refreshes the observers if due, is skipped without observers or when undecodable, and otherwise leaves each observer's pair with that observer's own sample of it |
| PassWorker.MessageReachesObservers | pass-worker/app/main.py:112-119 | a decodable message gives each observer in force the elevation at its own site and the message's time, and touches no other pair |
| PassWorker.MessagePublishesInOrder | pass-worker/app/main.py:112-133 | the events of one message are published in the order of the observer list, at most one each |
| PassWorker.LastRefreshInForce | pass-worker/app/main.py:80-91 | the observers in force are those of the last refresh |
| PassWorker.PairHears | pass-worker/app/main.py:89-119 | over a stream a pair's samples are exactly, in order, its satellite's decodable messages received while its observer is in force, each with that observer's elevation and the message's time |
| PassWorker.PassWorker.ConsumeAll | pass-worker/app/main.py:71-133 | the worker with its mutable detectors ends as handling all visits of the stream in order would leave it |
| PassWorker.PairsAreIsolated | pass-worker/app/main.py:112-119 | for any interleaving and changing observers each pair is published exactly what an isolated detector reports on its own samples |
| PassWorker.PairTimesNeverDecrease | pass-worker/app/main.py:112-133 | with a pair's samples in time order its published event times never go backwards |
| TokenBucket.RateLimiter.EvalScript | ingest-api/app/ratelimit.py:21-50 | the script's steps write back and answer as the bucket function says, for every capacity and clock |
| TokenBucket.RateLimiter.Check | ingest-api/app/ratelimit.py:66-86 | one check charges the key exactly once, also when the script cache was flushed, and touches no other key |
| TokenBucket.RateLimiter.CheckAll | ingest-api/app/ratelimit.py:66-86 | over checks of many keys in any order each key's entry and answers are those of its own requests alone |
| TokenBucket.ScalingIsExact | ingest-api/app/ratelimit.py:25-36 | the scaled refill is the script's formula over real tokens |
| TokenBucket.HintIsCeiling | ingest-api/app/ratelimit.py:46-47 | the scaled hint is the script's ceiling |
| TokenBucket.AdmissionsBounded | ingest-api/app/ratelimit.py:35-40 | in any window after any run, admissions are at most the capacity plus the refill of the clock's forward movement |
| TokenBucket.AdmissionsBoundedByElapsed | ingest-api/app/ratelimit.py:35-40 | with a clock that never steps back, at most capacity + elapsed * capacity / 60000 |
| TokenBucket.ElapsedBoundIff | ingest-api/app/ratelimit.py:35-40 | that bound holds for every pattern of requests along a clock, after any earlier requests, if and only if the clock never steps back |
| TokenBucket.BackwardClockRefillsTwice | ingest-api/app/ratelimit.py:35-40 | for every capacity, a clock that steps back far enough to refill one token and forth again admits more than the capacity while no net time elapses |
| TokenBucket.GreedyIsOptimal | ingest-api/app/ratelimit.py:35-49 | on every prefix of any run no other choice that keeps the bucket non-negative admits more, whatever the clock and the capacities |
| TokenBucket.GreedyIsFeasible | ingest-api/app/ratelimit.py:38-49 | the script's own choice is among those and leads to its own bucket |
| TokenBucket.ExpiryUnobservable | ingest-api/app/ratelimit.py:27-45 | dropping keys after a minute or more without a request, the script waiting two, changes no answer and no later entry, also when the capacity changes |
| TokenBucket.ExpiryUnobservableIff | ingest-api/app/ratelimit.py:27-45 | dropping idle keys is unobservable in every run if and only if it waits at least a minute |
| TokenBucket.DeniedLeaveNoTrace | ingest-api/app/ratelimit.py:43-48 | erasing any of the denied requests from a run changes no other answer, retry hints included |
| TokenBucket.RetryIsLeastWait | ingest-api/app/ratelimit.py:43-48 | after a denial a request is admitted exactly if it waits at least `retry_ms` |
| TokenBucket.HeaderLongEnoughIff | ingest-api/app/main.py:95-101 | waiting the Retry-After seconds is always enough exactly for capacities of at least 60 |
| TokenBucket.HeaderIsWholeSeconds | ingest-api/app/main.py:100 | the Retry-After header is the hint's whole seconds, at least one |
| TokenBucket.RateLimiter.Admit | ingest-api/app/main.py:95-101 | the check before a request charges the key once, and exactly a denial carries that header |
| SchemaLoader.LoadCorrect | ingest-api/app/avro_codec.py:37-65 | a completed fetch has cached exactly the subjects the request reaches, requested each once, and inserted each after all it references transitively |
| SchemaLoader.LoadCompletesIff | ingest-api/app/avro_codec.py:53-65 | with one more stack frame than subjects, loading completes exactly when everything the request reaches is registered and lies on no cycle |
| SchemaLoader.MissingIsReported | ingest-api/app/avro_codec.py:53-65 | a load that reports a missing subject names one that the request reaches and the registry lacks, and with frames to spare it overruns the stack only on a cycle in reach |
| SchemaLoader.CycleNeverLoads | ingest-api/app/avro_codec.py:53-65 | two subjects that refer to each other never load, however deep the stack |
| SchemaLoader.CompletedIsAcyclic | ingest-api/app/avro_codec.py:53-65 | with a cycle in reach no stack is deep enough |
| AvroCodec.Codec.FetchWithRefs | ingest-api/app/avro_codec.py:53-65 | the recursion that fills the shared dict computes the depth-first fetch, including its failures |
| AvroCodec.Codec.ParseAll | ingest-api/app/avro_codec.py:43-51 | parsing in insertion order never meets an unknown reference; it registers every subject with the registry's id, stopping only at one an earlier load has registered |
| AvroCodec.Codec.Load | ingest-api/app/avro_codec.py:35-51 | a load succeeds exactly if the fetch completes and reaches no subject registered before; it then registers exactly the reachable subjects and keeps the others, and it changes nothing when the fetch fails |
| BulkScheduler.TicksAreOneWindow | tle-producer/app/main.py:94-101 | consecutive ticks emit one unbroken window of the ring |
| BulkScheduler.Fair | tle-producer/app/main.py:94-101 | over any run of ticks each satellite is emitted the mean number of times, rounded down or up |
| BulkScheduler.CountsDifferByAtMostOne | tle-producer/app/main.py:94-101 | over any run of ticks any two emission counts differ by at most one |
| BulkScheduler.CoversIff | tle-producer/app/main.py:94-101 | a run of ticks reaches every satellite exactly if ticks times slice is at least their number |
| BulkScheduler.EmittedWithin | tle-producer/app/main.py:53-57 | every satellite is emitted within any ceil(n/slice) consecutive ticks, which is at most ceil(1000/r) |
| BulkScheduler.AtMostOncePerTick | tle-producer/app/main.py:53-57 | with a tick no longer than the cadence no satellite is emitted twice in a tick |
| BulkScheduler.SliceIsLeast | tle-producer/app/main.py:53-57 | the slice is empty only for an empty list and otherwise the least that covers the tick's share, at least one |
| BulkScheduler.SixTicksCanMiss | tle-producer/app/main.py:51-57 | with 5 s ticks and a 30 s cadence six ticks miss part of a list of 1000 and seven do not |
| BulkScheduler.Scheduler.Tick | tle-producer/app/main.py:94-101 | a tick emits the slice at the cursor with all indices in range, also when a refresh left the cursor past the end |
| BulkScheduler.Scheduler.Ticks | tle-producer/app/main.py:82-101 | the loop over ticks emits the window the lemmas speak of |
| WsTheorems.DeliveryAccounts | query-api/app/ws.py:67-87 | for every client in every interleaving: offered = taken + queued + dropped, at most 1024 queued, taken and queued are the frames due, in order, less exactly those due while 1024 were waiting, and each data frame matched the subscription in force |
| WsTheorems.FanOutIsExact | query-api/app/ws.py:131-146 | a client is offered exactly the frames due by its last subscribe message, pings and acknowledgements, in order |
| WsTheorems.PumpedIsOffered | query-api/app/ws.py:74-81 | a pumped frame is offered exactly if the client's last subscribe message asked for its topic, one of the three, and for no ids or for its id |
| WsTheorems.AcknowledgedAndPinged | query-api/app/ws.py:238-263 | a subscribe message is acknowledged with the known topics it asked for, a ping sends a ping frame, and nothing else is offered |
| WsTheorems.BadFilterKeepsIds | query-api/app/ws.py:252-256 | a filter that cannot be read leaves the new topics and the old ids |
| WsTheorems.ClientsAreIsolated | query-api/app/ws.py:144-146 | each client's state depends only on the events while it is registered that concern it |
| WsTheorems.FullQueueDropsNewest | query-api/app/ws.py:83-87 | in any run the frame offered by an act, under the subscription then in force, was refused if and only if 1024 frames were waiting, and those stay |
| WsTheorems.NothingDropped | query-api/app/ws.py:226-236 | everything due is taken or queued, in order, if and only if no frame was offered while 1024 were waiting |
| WsHub.WsClient.Offer | query-api/app/ws.py:83-87 | a put without waiting: the frame goes to the end of a queue shorter than 1024, else it is counted as dropped |
| WsHub.WsClient.OnSubscribe | query-api/app/ws.py:252-258 | a subscribe message replaces topics and filter and acknowledges; a bad filter leaves the new topics and stops the receiver |
| WsHub.WsClient.TakeNext | query-api/app/ws.py:232-236 | the sender takes the oldest queued frame |
| WsHub.WsHub.Fan | query-api/app/ws.py:144-146 | the loop appends the frame to the queue of exactly the clients that asked for its topic and id and have room, counts a drop for those without, and changes no subscription, in whatever order clients are listed |
| WsHub.Server.Pump | query-api/app/ws.py:131-146 | the server's objects stay in the state of the run of its trace, here extended by a pumped message |
| WsHub.Server.Receive | query-api/app/ws.py:238-263 | the same for a subscribe message of one connection |
| WsHub.Server.SendNext | query-api/app/ws.py:232-236 | the same for the sender, which takes the oldest frame the run has queued |
| TleParser.ParseKept | tle-producer/app/sources/fixture.py:15-41 | the loop terminates and returns the scanned records |
| TleParser.ParseTleFile | tle-producer/app/sources/fixture.py:13-41 | the same from raw lines, blank ones dropped and trailing space stripped |
| TleParser.ParseExactly | tle-producer/app/sources/fixture.py:17-40 | for any lines the records are, in file order and without overlap, exactly the adjacent pairs of a "1 " and a "2 " line that have a line before them and do not directly follow an emitted pair |
| TleParser.RoundTrip | tle-producer/app/sources/fixture.py:13-41 | any concatenation of well-formed three-line records parses back to those records |
| TleParser.PaddedRoundTrip | tle-producer/app/sources/fixture.py:14 | the same with white space appended to any of the lines |
| TleParser.RecordFields | tle-producer/app/sources/fixture.py:27-39 | in such a file each parsed record carries its lines, its stripped name and the catalogue number from columns 3 to 7, or what a shorter line has of them |
| TleParser.BlankLinesIgnored | tle-producer/app/sources/fixture.py:14 | blank lines anywhere make no difference |

## Left out

- Kafka, Redis, Postgres and the schema registry are modelled by their visible effect only: logs with offsets, insert-or-ignore and upsert tables, capped lists. Each `executemany` and the Redis pipeline is atomic; there is no rebalancing and no failure but a crash.
- Decoding is a fixed partial function and nothing throws while a decoded row is being buffered (position-persister/app/main.py:148-162); an exception there would make the final flush commit past that row.
- `updated_at`, `created_at`, logging and the `satellites.classification` column.
- The rounding of `timestamp() * 1000`: sample times are whole milliseconds and the Redis score is that number.
- PersisterService.Persister.Append: the partitioner is an arbitrary function of the satellite, because Kafka's hash does not matter to any property.
- `_parse_window` and the current time: the cutoff is a parameter of the track query. JSON encoding of track entries.
- Floating-point rounding in the pass detector's interpolation and in Lua; capacity zero answers an infinite hint, which no property speaks about.
- Look angles, propagation and healpix cells are floating-point trigonometry or not implemented; elevations are an arbitrary function of observer and position. `detect_pass_event` only raises.
- The other fields of a published pass event, and delivery to the ingest API.
- The wall clock behind the observer refresh and the TLE refresh: whether a refresh happens is an input.
- TokenBucket.RateLimiter.Check: does not model a second failure of the script call, which the program lets propagate.
- TokenBucket.DeniedLeaveNoTrace: speaks of retry hints only for capacities of at least zero; a negative capacity makes a bucket lose tokens over time, and then erasing a first request does change later hints. Admissions are covered for every capacity.
- SchemaLoader.LoadCompletesIff: counts one stack frame per recursive call, because other frames on the interpreter's stack only lower the available depth. The registry does not change during a load.
- AvroCodec.Codec.Parse: a subject defines one name, which its referrers use; a schema that defines further names, and what fastavro leaves behind after an unknown reference (which `ParseAll` never meets), are not modelled.
- `encode` and `decode` wrap fastavro's body encoding in a five-byte header; the encoding itself is library code.
- BulkScheduler.Scheduler.Tick: the ratio in thousandths is a parameter, because its floating-point rounding is not modelled. Watchlist satellites are emitted every tick and share no id with the bulk list; posting them is not part of this model.
- Redis caching of pass events by the hub, heartbeat timing, idle close, authentication and a pump that dies on a Redis error. A frame counts as taken when the sender has removed it from the queue.
- TleParser.ParseTleFile: the text arrives already split into lines; the epoch is an arbitrary partial function of line 1.
- query-api/app/ratelimit.py runs the same script on the query side. The other services' codec copies decode single messages; the API-key cache, configuration, metrics and request schemas have no behaviour across calls that the models here depend on. The frontend and deployment files are not part of this model.
