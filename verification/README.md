# sqtseries: fast answers equal slow ones

sqtseries stores samples in one table per month and keeps an hourly rollup beside them. An
aggregate query is answered from the rollup when it can be, and from the raw samples
otherwise. This project models the parts that decide whether the two agree, and the bounded
plumbing around them, and proves what every run and every call keeps. `dafny verify
dfyconfig.toml` checks the whole project.

Values are reals, timestamps are unbounded integers of nanoseconds (the 64-bit range of a
SQLite INTEGER is written out where a row is stored), and clock readings, transaction
outcomes and thread schedules are parameters or events.

## How the modules fit together

- `Calendar`: months, month starts, hours, partition keys and partition names.
- `Aggregates`: the commutative monoid of count, sum, min and max, folds over finite sets,
  and GROUP BY. Every answer path is a way of computing one such fold.
- `Tables`: the stored state, and what it means for a rollup row to be right (`Agrees`).
- `WritePath`: the write transaction, which routes rows to months and rewinds the watermark.
- `Rollup`: rolling one partition, and one whole pass with nothing beside it.
- `RollupRuns`: the pass as a step system, interleaved with writes and retention in any
  order, and what every step keeps. `Agreement` says that each live hour below the watermark
  is exact.
- `RollupAgreement`: a step loses agreement if and only if it is one of those described by
  `Breaks`, and what follows for whole runs.
- `RollupPasses`: consequences of the step system: the outcome of a settle, the skew window,
  the undisturbed pass as one run, rebuilding a month.
- `Witnesses`: concrete inputs on which the code does less than its comments say.
- `Scan`, `Partials`, `Downsample`, `FastPath`, `Queries`: the read paths, from pruning and
  ordered scans up to `QueryAggregate`, all against one `Reference`.
- `Retention`: dropping expired months with their rollup rows.
- `ReaderPool`, `Ingest`, `SeriesCache`: step systems over all interleavings.
- `Fanout`, `QueryCache`, `ServerClock`: classes whose fields the code updates in place, each
  with a ghost history that its invariant ties to the fields.
- `Sink`: the retrying sink, with counters that account for every row ever offered.
- `Percentiles`: interpolated percentiles and the median.

## Where the code and its comments differ

The model follows the code. Each case has its exact condition as a lemma.

- A write that commits during a pass, into an hour the pass has already aggregated, is not
  rewound when the stored watermark still is the one the pass began from. Settling then
  skips it. The skew window excludes such writes only if no write that commits during a pass
  is older than the pass's cutoff (`StepKeepsAgreement`, `PunctualRunsKeepAgreement`,
  `LateWriteIsLost`), which follows if every write commits within the skew of its timestamps
  and the clock does not run backwards (`SkewWindowKeepsAgreement`).
- The rollup's hour key truncates toward zero. A roll is exact if and only if every row it
  reads is at or after the epoch or on an hour boundary (`RollExactWhen`); hour by hour, if
  and only if no row is misfiled into or out of the hour (`RollGroupExactWhen`), which never
  happens to a positive hour. A misfiled sample is counted twice (`OldSampleCountsTwice`).
- The bucket of a rolled hour truncates too. Over exact hours the fast path is exact if and
  only if no rolled hour it reads lies strictly inside a bucket before the epoch
  (`FastPartialsExactWhen`, `EarlyHourInWrongBucket`).
- The first pass starts at the epoch and settles above everything before it, so samples from
  before the epoch that were stored by then are never rolled (`Breaks`,
  `FirstPassSkipsEarlyHours`).
- Rebuilding a month deletes up to the cutoff, not to the month's end, so later months lose
  their rolled rows (`RebuildKeepsAgreementWhen`, `RebuildClearsLaterMonth`).
- Retention lists the partitions twice. A month that appears between the listings is dropped
  even when it is not expired (`DropsOnlyExpiredWhen`). Samples that enter a month between
  the two delete transactions lose their rollup rows (`Breaks`).
- The series caches are filled inside the transaction and kept on rollback, while the id
  counter is not (`RollbackCoherentWhen`, `RolledBackSeriesSharesItsId`).
- A reader open that fails after a slot was taken loses the slot (`SlotsReturnUnlessOpenFails`).
- Cancelling a wait for a credit loses the parsed rows (`RowsAccountedWhen`), and a batch the
  sink dropped is still published (`PublishOnlyAfterSink`).
- Without an `end` the fast path stops at the clock and the raw path does not
  (`OpenEndAgreesWhen`); for a whole-window query the fast path ignores `limit`
  (`FastEqualsRaw`); over an empty window `aggregate` answers a count or sum that is not
  spelled in lower case differently on the two paths (`SpellingMattersWhen`).
- The store takes any `order` string. Other than `asc` and `desc` it visits months oldest
  first and reads each newest first: a descending read if and only if the samples lie in one
  month (`OtherOrderDescendsWhen`), and a whole window is then anchored at its oldest sample
  if and only if that sample's month holds no later one (`QueryRaw`).
- A negative `limit` makes `query_time_range` yield one row, because the countdown is tested
  after each row (`Budget`).

## Model

| member | source | states |
|---|---|---|
| Calendar.KeyMonthIsMonth | src/sqtseries/engine/schema.py:50-58 | the key computed through microseconds and datetime cycles is the month found by walking the calendar from 1970-01, for every integer timestamp |
| Calendar.PartitionLaw | src/sqtseries/engine/schema.py:50-58 | a timestamp's partition is a given month if and only if it lies in that month's half-open interval |
| Calendar.HourAligned | src/sqtseries/partition/rollup.py:302-310 | every month starts on an hour boundary |
| Calendar.HourInOnePartition | src/sqtseries/partition/rollup.py:152-176 | the start of a sample's hour has the sample's partition, so an hour is never split over partitions |
| Calendar.MonthBoundsExactAsFloat | src/sqtseries/partition/rollup.py:302-310 | the floating-point product for a month bound is exact: the bound is a power of two times an integer of at most 53 bits |
| Calendar.NameOfMarch2026 | src/sqtseries/engine/schema.py:46-47 | the name of a month, spelled out |
| Calendar.NameRoundTrip | src/sqtseries/engine/schema.py:46-67 | parsing the name of a year and month gives both back, whether the month exists or not |
| Calendar.ParseRoundTrip | src/sqtseries/engine/schema.py:46-67 | every name that parses is the name of what it parses to |
| Calendar.NameOrderIsTimeOrder | src/sqtseries/engine/store.py:489-502 | string order of partition names, order of month starts and calendar order are one order |
| Calendar.StorableHasPartition | src/sqtseries/engine/schema.py:50-58 | every 64-bit timestamp has a month that datetime can name, and so has the following month |
| Tables.KeysUniqueOverall | src/sqtseries/engine/schema.py:26-38 | no two rows of the store share series and timestamp, whatever tables they are in |
| Tables.AggRowsMeaning | src/sqtseries/partition/rollup.py:152-158 | the aggregate of a set of rows is empty only for no rows, counts them, has tight bounds, and its sum is the sum of their values |
| WritePath.InsertMany | src/sqtseries/engine/store.py:157-226 | a batch is stored as a whole or refused as a whole; it is refused exactly when a timestamp does not fit, a key is repeated or taken, or a table is missing and may not be created; the watermark moves in the same step |
| WritePath.AcceptsWhen | src/sqtseries/engine/store.py:200-215 | a batch is stored if and only if its timestamps are 64-bit integers, no two of its rows share series and timestamp, and none shares both with a stored row |
| WritePath.RewindsToEarliestHour | src/sqtseries/partition/rollup.py:104-120 | a write leaves the watermark unless some row's hour lies below it, and then moves it to the earliest hour of the batch, neither further nor less far |
| WritePath.AcceptsByMonth | src/sqtseries/engine/store.py:180-215 | routing by month loses no key conflict: a batch is acceptable if and only if each month's share is acceptable to its table |
| WritePath.InsertKeepsValid | src/sqtseries/engine/store.py:180-215 | an accepted batch keeps every row in its month's table and leaves no two rows with the same series and timestamp |
| Rollup.TruncHourExactWhen | src/sqtseries/partition/rollup.py:152-158 | the SQL hour key is the true hour if and only if the timestamp is non-negative or an hour boundary |
| Rollup.SqlMultiple | src/sqtseries/partition/rollup.py:260 | SQL truncation to a multiple is the floor, except strictly inside a span before zero, where it is the next multiple |
| Rollup.RollGroupExactWhen | src/sqtseries/partition/rollup.py:152-158 | one partition's GROUP BY holds exactly an hour's samples under its key, or nothing outside its month and range, if and only if no row it reads is misfiled into or out of that hour |
| Rollup.RollExactWhen | src/sqtseries/partition/rollup.py:152-158 | a roll is exact for every hour if and only if each row it reads is at or after the epoch or on an hour boundary |
| Rollup.RollGroup | src/sqtseries/partition/rollup.py:152-158 | an hour no stored row is misfiled into or out of, in particular every positive one, is seen whole by its month and not at all by another |
| Rollup.RollCell | src/sqtseries/partition/rollup.py:159-177 | rolling a partition makes each covered hour with samples exact and leaves every other rollup row as it was |
| Rollup.RollupPartition | src/sqtseries/partition/rollup.py:123-179 | the whole new state after rolling one partition, with and without replace, the number of rollup rows written, the empty range, and exactly when a dropped table raises |
| Rollup.ListingCovers | src/sqtseries/partition/rollup.py:288-299 | the partition listing of a pass misses no partition with a sample in the range |
| Rollup.ListedMeetsRange | src/sqtseries/partition/rollup.py:288-299 | a listed partition's month meets the range, or ends where it starts |
| Rollup.RollupNewHours | src/sqtseries/partition/rollup.py:182-230 | an undisturbed pass rolls the listed partitions in name order from the watermark it read to the cutoff and settles on the cutoff, returning the number of rows written; otherwise it changes nothing |
| Rollup.InterruptedThenFull | src/sqtseries/partition/rollup.py:197-230 | a pass stopped after any number of partitions, followed by a full pass with its own listing and the same or a later cutoff, gives what that full pass alone gives |
| Rollup.RepeatedPass | src/sqtseries/partition/rollup.py:197-230 | a repeated pass changes nothing, and a pass that runs moves the watermark strictly up |
| RollupRuns.StepKeepsInv | src/sqtseries/partition/rollup.py:89-230 | each step of a pass, each write and each retention transaction, in any order, keeps: an hour that is not stale is exact, and a stale one is strictly behind its samples |
| RollupRuns.AgreementIsNoStaleBelow | src/sqtseries/partition/rollup.py:76-86 | every live hour below the watermark is exact if and only if no such hour was written since it was aggregated |
| RollupAgreement.StepKeepsAgreement | src/sqtseries/partition/rollup.py:211-228 | a step keeps agreement if and only if it is neither a settle over a late write that did not rewind, nor the first settle over a written hour before the epoch, nor a rollup cleanup of a month refilled below the watermark |
| RollupAgreement.RollCatchesUp | src/sqtseries/partition/rollup.py:143-177 | a partition is rolled from the watermark stored at that moment, so hours a write rewound to since the pass began become exact too |
| RollupAgreement.StepLeaves | src/sqtseries/partition/rollup.py:89-230 | which of tables, rollup rows and watermark each transaction leaves alone; reading and giving up change nothing |
| RollupAgreement.WatermarkMoves | src/sqtseries/partition/rollup.py:89-230 | the watermark moves up only by a settle, to the cutoff, and down only by a write behind it, to the hour of one of its rows |
| RollupAgreement.MisfiledExactly | src/sqtseries/partition/rollup.py:152-158 | the misfiled hours of a batch are, for each sample before the epoch and off the hour boundaries, its own hour and the next, and no others |
| RollupAgreement.EveryRunIsExact | src/sqtseries/partition/rollup.py:89-230 | over every run, a live hour's rollup row is exact if and only if the hour was not written since it was last aggregated |
| RollupAgreement.EveryRunKeepsAgreement | src/sqtseries/partition/rollup.py:182-230 | agreement holds at every point of a run if and only if no step of the run breaks it |
| RollupPasses.AlwaysPossible | src/sqtseries/partition/rollup.py:182-230 | writes and retention may come, and a pass may be given up, between any two of its transactions |
| RollupPasses.SettleOutcome | src/sqtseries/partition/rollup.py:211-228 | a settle ends on the cutoff, strictly above the watermark the pass began from, unless the stored one moved below that, which is then kept |
| RollupPasses.PunctualRunsKeepAgreement | src/sqtseries/partition/rollup.py:187-192 | if no write that commits during a pass is older than the pass's cutoff, every run keeps agreement however it interleaves |
| RollupPasses.SkewWindowKeepsAgreement | src/sqtseries/partition/rollup.py:182-205 | from the empty store, if writes commit at most the skew after their timestamps, the clock does not run backwards, and each pass takes the hour that ended the skew before its clock reading, every run keeps agreement |
| RollupPasses.UndisturbedPassIsRun | src/sqtseries/partition/rollup.py:197-230 | the sequential pass is one run of the step system, with the same result |
| RollupPasses.DroppedMonthIsTwoSteps | src/sqtseries/partition/retention.py:82-102 | dropping a month is the two retention steps of the step system, with the same result |
| RollupPasses.RebuildKeepsAgreementWhen | src/sqtseries/partition/rollup.py:145-165 | rebuilding a month keeps agreement if and only if no later month has a rolled sample before the cutoff |
| Witnesses.LateWriteIsLost | src/sqtseries/partition/rollup.py:104-115 | in every state about to settle, an accepted write into a covered hour at or above the watermark ends in a settled watermark above an inexact hour |
| Witnesses.SomeRunLosesAWrite | src/sqtseries/partition/rollup.py:197-228 | such a run exists from the empty store |
| Witnesses.OldSampleCountsTwice | src/sqtseries/partition/rollup.py:152-158 | after a run from the empty store, one sample before the epoch is counted twice by an eligible whole window, and an hourly answer shows a bucket without samples |
| Witnesses.EarlyHourInWrongBucket | src/sqtseries/partition/rollup.py:260 | after a run from the empty store all hours are exact and an eligible query in two-hour buckets is answered wrong |
| Witnesses.FirstPassSkipsEarlyHours | src/sqtseries/partition/rollup.py:201-228 | a sample before the epoch stored before the first pass is below the watermark and not rolled |
| Witnesses.OtherOrderMisleads | src/sqtseries/engine/store.py:260-279 | over two months the first row in another order is not the newest, and over two samples of a month the window is not anchored at the oldest |
| Witnesses.RebuildClearsLaterMonth | src/sqtseries/partition/rollup.py:145-165 | rebuilding January up to the end of February loses February's rollup |
| Scan.PruningKeepsRows | src/sqtseries/engine/store.py:456-487 | a selected row's partition survives pruning and the row matches there |
| Scan.KeptMeetsWindow | src/sqtseries/engine/store.py:456-487 | unless no bound is given, a partition that is kept holds an instant of the window |
| Scan.PartitionsForRange | src/sqtseries/engine/store.py:456-487 | the partitions visited are exactly the unpruned ones, in time order or its reverse |
| Scan.QueryTimeRange | src/sqtseries/engine/store.py:228-300 | the rows are the first `limit` of the whole window in the chosen order, for asc, desc and any other string: ordered, no repeats, as many as exist up to the limit, nothing left out before anything taken |
| Scan.ScanIsDetermined | src/sqtseries/engine/store.py:228-300 | any two such results have the same timestamps, so the limit is global whatever the order among ties |
| Scan.OtherOrderDescendsWhen | src/sqtseries/engine/store.py:260-279 | a read in another order than asc and desc is a descending read if and only if it yields nothing or the samples lie in one month |
| Scan.CountInRange | src/sqtseries/engine/store.py:414-454 | per-partition counts add up to the number of rows in the window |
| Scan.FirstSampleTs | src/sqtseries/engine/store.py:375-412 | the result is the oldest timestamp of the window, or none for an empty window |
| Scan.Fetch | src/sqtseries/query/builder.py:277-317 | it raises if and only if the cap is positive, the window is larger, and the limit is absent or larger than the cap; otherwise it returns the first rows untruncated |
| Scan.FetchForAggregate | src/sqtseries/query/builder.py:193-210 | the count precheck refuses exactly the windows whose fetch would raise |
| Partials.AnswersAgree | src/sqtseries/query/builder.py:552-563 | the partials of the buckets determine the answer list |
| Partials.MergePartsIsMerge | src/sqtseries/query/builder.py:534-549 | merging a list of parts into a dict is the key-wise merge in the monoid |
| Partials.MergePartials | src/sqtseries/query/builder.py:534-549 | the dict loop computes the merge of all groups in order |
| Partials.GroupSamples | src/sqtseries/query/builder.py:515-527 | the running partials per bucket are the folds of each bucket's samples in list order |
| Partials.SeqGroupIsGroupBy | src/sqtseries/query/builder.py:515-527 | for samples listed once each, in any order, grouping the list is grouping the set |
| Downsample.BucketPartials | src/sqtseries/query/builder.py:502-531 | the parts returned are exactly the partials of the samples given, per bucket or for the whole window |
| Downsample.FinalizeBuckets | src/sqtseries/query/builder.py:552-563 | buckets by increasing start with their values, then a Python slice by the limit |
| Downsample.ListFuncIsValue | src/sqtseries/query/agg.py:62-73 | avg, sum, min, max and count of a list of values equal the values computed from its partial |
| Downsample.DownsampleSamples | src/sqtseries/query/agg.py:124-146 | Python downsampling lists every bucket with samples, by increasing start, with its value over the reference partials |
| Downsample.SqlBucketIsFloor | src/sqtseries/engine/store.py:324-331 | the CASE expression is floor division for every timestamp of either sign |
| Downsample.DownsampleSqlite | src/sqtseries/engine/store.py:302-373 | per-partition SQL partials merged over partitions equal grouping all selected rows at once |
| Downsample.DownsampleSql | src/sqtseries/query/builder.py:230-266 | it raises exactly when there are more buckets than a positive cap; otherwise it is the same answer as Python downsampling of the rows in range |
| FastPath.CellKeyExactWhen | src/sqtseries/partition/rollup.py:260 | the SQL bucket of an hour is its bucket if and only if the hour is not strictly inside a bucket before the epoch |
| FastPath.RollupPartialExactWhen | src/sqtseries/partition/rollup.py:233-285 | over exact hours, stored partials grouped by SQL bucket equal the partials of the samples if and only if no hour read lies strictly inside a bucket before the epoch |
| FastPath.UsuallySafe | src/sqtseries/partition/rollup.py:233-285 | windows from the epoch on, whole windows and hourly buckets never read such an hour |
| FastPath.EligibleWhen | src/sqtseries/query/builder.py:346-364 | a query is eligible if and only if its buckets are whole hours, something was rolled, it reads at least one rolled hour, and every hour it reads lies below the watermark |
| FastPath.WindowSplit | src/sqtseries/query/builder.py:440-478 | the window is the disjoint union of the left edge, the right edge and the middle hours |
| FastPath.FastPartialsExactWhen | src/sqtseries/query/builder.py:423-487 | over exact hours, an eligible query merges to the exact partials of its window if and only if no rolled hour it reads lies strictly inside a bucket before the epoch |
| FastPath.FastPartialsShape | src/sqtseries/query/builder.py:423-487 | whatever the rollup holds, the merged partials are nonempty and keyed by bucket starts, or by the whole window alone |
| Queries.QueryRollupPartial | src/sqtseries/partition/rollup.py:233-285 | the rows returned are the grouped stored partials of the wanted series and hours |
| Queries.RollupWindowPartials | src/sqtseries/query/builder.py:423-487 | it raises exactly when an edge hour has more rows than a positive cap; otherwise it returns the merge of the three sources |
| Queries.QueryRollup | src/sqtseries/query/builder.py:366-407 | the answer read off the merged partials, the limit applied to buckets only, the whole-window value anchored at the oldest sample |
| Queries.FastAnswerIsRight | src/sqtseries/query/builder.py:366-407 | over a sound rollup the fast answer is the answer of the samples in the window |
| Queries.QueryRaw | src/sqtseries/query/builder.py:106-154 | the raw paths give the answer of the samples in the window, sliced by the limit, if and only if there are buckets, or the order is asc or desc, or the oldest sample's month holds no later one; they raise exactly when the cap is exceeded |
| Queries.QueryAggregate | src/sqtseries/query/builder.py:68-154 | whichever path runs, the entries are those of the samples in the window, under the exact condition of that path; and when each path raises |
| Queries.AggregateOne | src/sqtseries/query/builder.py:173-211 | each function of `aggregate` has the value of the samples in the window on either path, including the empty window and the row cap |
| Queries.RollupWholeWindow | src/sqtseries/query/builder.py:409-421 | over a sound rollup the value is that of the samples in the window, zero for an empty count or sum |
| Queries.WindowCounts | src/sqtseries/query/agg.py:62-96 | the count and sum of a window, in lower case, are the number and the sum of its samples, zero for none |
| Queries.EmptyWindowValues | src/sqtseries/query/agg.py:88-95 | over no samples avg, min and max have no value, nor have count and sum in another spelling |
| Queries.WindowMeasures | src/sqtseries/query/agg.py:62-96 | over some samples the count, the sum, the mean and the tight bounds, in any spelling |
| Queries.SpellingMattersWhen | src/sqtseries/query/agg.py:76-96 | the two paths of `aggregate` agree except for a count or sum in other than lower case over an empty window |
| Queries.RightAnswerIsUnique | src/sqtseries/query/builder.py:68-154 | the samples in the window determine the answer |
| Queries.FastEqualsRaw | src/sqtseries/query/builder.py:366-407 | fast and raw answers are equal; with a limit they differ exactly for a whole window with a limit below one over samples |
| Queries.OpenEndAgreesWhen | src/sqtseries/query/builder.py:439-442 | without an end the two paths' partials agree, for every bucket width, if and only if no wanted sample lies past the clock |
| Queries.AgreementMakesExact | src/sqtseries/query/builder.py:346-364 | rollup agreement and eligibility make the hours the query reads exact, if it reads no misfiled hour and no month awaiting cleanup |
| Queries.LateWindowsAreClean | src/sqtseries/query/builder.py:346-364 | a window that starts at or after the epoch reads no misfiled hour |
| Queries.EveryRunAnswersExactly | src/sqtseries/query/builder.py:366-487 | after every run of writes, passes and retention in which no step breaks agreement, an eligible query gets the exact partials of its window if and only if no rolled hour it reads lies strictly inside a bucket before the epoch |
| Retention.PartitionsToRetain | src/sqtseries/partition/retention.py:59-69 | exactly the months whose last day does not begin before the horizon are kept |
| Retention.Run | src/sqtseries/partition/retention.py:71-102 | the expired months, and only those, lose their table and their rollup rows, in time order, and nothing else changes |
| Retention.RetentionBound | src/sqtseries/partition/retention.py:59-86 | no sample from a day after the horizon on is deleted, and no expired partition stays |
| Retention.DroppedMonthsAreEmpty | src/sqtseries/partition/retention.py:82-102 | a dropped month has neither samples nor rollup rows |
| Retention.RetentionKeepsAgreement | src/sqtseries/partition/retention.py:71-102 | a run keeps every hour's rollup row exact |
| Retention.DropsOnlyExpiredWhen | src/sqtseries/partition/retention.py:76-83 | with the two listings apart, only expired months are dropped if and only if each month new in the second is expired |
| ReaderPool.EveryRunIsBounded | src/sqtseries/engine/db.py:296-316 | under every interleaving, pooled handles, slot-owned handles and opens in progress stay within the pool size, every handle ever opened is in exactly one place, and transient handles never reach the pool |
| ReaderPool.NeverFull | src/sqtseries/engine/db.py:509-528 | the queue-full branch of a check-in is unreachable, an unbroken handle is pooled again while the pool is open, and a release never overfills the semaphore |
| ReaderPool.DeadHandlesStayOut | src/sqtseries/engine/db.py:509-528 | a handle checked in broken, or into a disposed pool, is closed and never pooled or held again in any continuation |
| ReaderPool.DisposedPoolCloses | src/sqtseries/engine/db.py:392-412 | from disposal on every checked-in handle is closed |
| ReaderPool.LastInFirstOut | src/sqtseries/engine/db.py:493-528 | a handle put back is the next one taken |
| ReaderPool.EveryThreadCanMove | src/sqtseries/engine/db.py:296-316 | a checkout is never stuck, and gets a slot unless all are owned or lost |
| ReaderPool.SlotsReturnUnlessOpenFails | src/sqtseries/engine/db.py:296-316 | all slots are free again if and only if no open of a slot owner failed |
| Ingest.EveryRunConserves | src/sqtseries/messaging/ingress.py:162-187 | free credits and outstanding batches make up the bound, batches are taken in queue order, and each received row is accounted for |
| Ingest.NoDeadlock | src/sqtseries/messaging/ingress.py:162-187 | until the persister exits, a waiting producer can get a credit or a batch that holds one can move on |
| Ingest.RowsAccountedWhen | src/sqtseries/messaging/ingress.py:172-176 | rows go missing if and only if a cancellation hits a wait for a credit |
| Ingest.PublishOnlyAfterSink | src/sqtseries/messaging/ingress.py:291-313 | batches are published in queue order, after their sink call returned, and never if it raised |
| Ingest.EveryReturnedBatchIsPublishedWhen | src/sqtseries/messaging/ingress.py:264-313 | every batch whose sink call returned is published if and only if the publisher never raised |
| Ingest.EveryRunCountsFates | src/sqtseries/messaging/ingress.py:264-289 | the stored, dropped and failed counters are the rows of the batches the sink stored, dropped and raised on |
| Ingest.SinkOutcomeIsFinal | src/sqtseries/messaging/ingress.py:291-313 | a batch whose sink call raised is never published and counts as failed; one whose call returned is stored or dropped for good |
| Ingest.FlushMeansHandled | src/sqtseries/messaging/ingress.py:189-205 | once the dispatch counter reaches a captured queue counter, every batch queued by then has been handled |
| Ingest.DrainIsCompleteWhen | src/sqtseries/messaging/ingress.py:207-234 | the persister exits having handled exactly the batches queued before the sentinel, which are all of them if and only if no batch is put afterwards |
| Sink.Service.Sink | src/sqtseries/service.py:360-411 | for every sequence of transient errors, other errors and completed transactions, at most four attempts, and either every row is stored once and counted as persisted or none is and all are counted as dropped |
| Sink.StoredOnce | src/sqtseries/service.py:376-388 | an accepted batch adds exactly its rows, each once |
| Sink.ResentIsRefused | src/sqtseries/engine/schema.py:26-38 | a stored batch that is sent again is refused as a whole |
| Fanout.MatchesBySegments | src/sqtseries/messaging/fanout.py:33-50 | a pattern other than `*` that does not end in a dot matches if and only if its segments are a prefix of the topic's |
| Fanout.WildcardsMatch | src/sqtseries/messaging/fanout.py:44-47 | `*` matches every topic, and a pattern ending in a dot exactly the topics below its segments |
| Fanout.EveryHistoryAccounted | src/sqtseries/messaging/fanout.py:125-186 | pending bytes are the queued payload sizes and stay within the budget or the largest frame; matching frames are received, queued or dropped; what is received is a subsequence in order |
| Fanout.RoomMeansDelivered | src/sqtseries/messaging/fanout.py:125-157 | as long as all matching frames together fit the budget, each is received or queued, in order, and none is dropped |
| Fanout.EmptyTakesAny | src/sqtseries/messaging/fanout.py:125-157 | a subscriber with nothing pending takes a frame of any size |
| Fanout.OfferAll | src/sqtseries/messaging/fanout.py:125-157 | each subscriber gets the frame offered independently, and the counts are those who accept and those who drop |
| Fanout.FanoutHub.Attach | src/sqtseries/messaging/fanout.py:94-100 | a fresh subscriber with an empty queue under the id, replacing any other; its history starts empty |
| Fanout.FanoutHub.Detach | src/sqtseries/messaging/fanout.py:102-107 | the subscriber and its history go, and no other |
| Fanout.FanoutHub.Deliver | src/sqtseries/messaging/fanout.py:125-157 | the hub's new state, histories and counters after one frame; every subscriber's history stays accounted for |
| Fanout.FanoutHub.Recv | src/sqtseries/messaging/fanout.py:161-186 | the oldest frame is taken and its bytes given back; closed and empty queues are told apart |
| Fanout.FanoutHub.Stop | src/sqtseries/messaging/fanout.py:190-195 | every queue gets the close sentinel behind its frames, and the histories stay accounted for |
| QueryCache.Evict | src/sqtseries/messaging/query_cache.py:134-140 | entries go from the least recently used end, no more than the two bounds demand, and a last entry that fits stays |
| QueryCache.QueryResultCache.Get | src/sqtseries/messaging/query_cache.py:96-115 | a hit happens exactly for a fresh entry of the key, returns a stored result no older than the time to live, and becomes most recently used while the others keep their order; an expired entry goes |
| QueryCache.QueryResultCache.Put | src/sqtseries/messaging/query_cache.py:117-140 | oversize results are skipped, others replace their key's entry and survive their own eviction loop; the weight stays the sum of the weights and both bounds hold |
| QueryCache.QueryResultCache.Clear | src/sqtseries/messaging/query_cache.py:142-145 | no entry and no weight stays, and the counters do |
| QueryCache.QueryResultCache.Serve | src/sqtseries/service.py:428-487 | a fresh entry answers with a result stored under an equal key within its time to live; otherwise the computed answer is returned and stored with a later clock reading, unless it is an error or oversize |
| QueryCache.RemovedKeys | src/sqtseries/messaging/query_cache.py:106-129 | removing a key removes its entry and its weight and nothing else |
| QueryCache.RemovedInPlace | src/sqtseries/messaging/query_cache.py:106-129 | removing an entry keeps the order of the others |
| SeriesCache.RollbackCoherentWhen | src/sqtseries/engine/store.py:83-120 | a rollback keeps the caches coherent if and only if no series the transaction created is still cached |
| SeriesCache.EveryCleanRunIsCoherent | src/sqtseries/engine/store.py:47-135 | over every run without such a rollback, under any eviction, the caches agree with the table and no two series share an id |
| SeriesCache.CachedIsUncached | src/sqtseries/engine/store.py:83-120 | a cached resolve gives the id an uncached one would |
| SeriesCache.CommittedSurvives | src/sqtseries/engine/store.py:83-120 | a committed series keeps its id in every continuation, whatever is rolled back later |
| SeriesCache.CachesFollow | src/sqtseries/engine/store.py:47-135 | what a missed resolve, a metadata load and an eviction do to the two caches |
| SeriesCache.RolledBackSeriesSharesItsId | src/sqtseries/engine/store.py:112-120 | after a rollback of a new series, the next new series gets its id and the first resolves to it from the cache |
| ServerClock.Clock.Assign | src/sqtseries/messaging/protocol.py:95-98 | the assigned timestamp is later than the last one and not earlier than the reading |
| ServerClock.StrictlyIncreasing | src/sqtseries/messaging/protocol.py:88-98 | assigned timestamps strictly increase for every sequence of clock readings |
| ServerClock.DriftBounded | src/sqtseries/messaging/protocol.py:88-98 | the n-th timestamp is ahead of the largest reading so far by less than n nanoseconds |
| Percentiles.OrderStatistics | src/sqtseries/query/agg.py:34-59 | minimum, median, p95, p99 and maximum are ordered, and none depends on the order of the samples |
| Percentiles.PercentileMonotone | src/sqtseries/query/agg.py:46-59 | the interpolated percentile grows with the rank |
| Percentiles.PercentileOfProgression | src/sqtseries/query/agg.py:46-59 | of values in equal steps, the percentile at q lies at the fraction q from the first to the last |
| Percentiles.AtRankBetween | src/sqtseries/query/agg.py:46-59 | an interpolated value lies between its two neighbours |
| Percentiles.PercentileEnds | src/sqtseries/query/agg.py:46-59 | the 0 and 1 percentiles are the least and the greatest value |
| Percentiles.MedianIsHalf | src/sqtseries/query/agg.py:34-59 | the median equals the interpolated 0.5 percentile |

## Left out

- RollupAgreement.EveryRunIsExact: claims nothing about an hour once an unaligned sample from before the epoch was misfiled into or out of it, nor about a month between the two delete transactions of retention; a crash between them leaves the month there.
- WritePath.InsertMany: rows carry their series id; the resolution of metric and tags inside the transaction is the subject of `SeriesCache`.
- Calendar.ParseRoundTrip: ASCII digits only; the pattern in the code also takes other decimal digits and a final line break.
- Ingest.DrainIsCompleteWhen: the flush timeout, after which the persister is cancelled, is not part of this model.
- Queries.QueryAggregate: a query reads the database and the clock once; the code reads them several times.
- Sink.Service.Sink: the outcome of each attempt is given; that `begin` raises only when nothing was committed is taken from src/sqtseries/engine/db.py:318-360, not derived.
- ReaderPool, Ingest and SeriesCache are state machines over values, with one event per point at which threads or tasks can interleave, rather than classes with locks.
- The writer connection, its quarantine, and disposal racing a check-in.
- The partition-list cache of the store and its invalidation.
- Floating-point rounding, infinities and NaN as stored values; `int(now - skew_s * 1e9)` is an arbitrary hour boundary here.
- Aggregations outside count, sum, min, max and avg on the query paths (first, last, median, p95 and p99 run over the fetched rows); the percentiles themselves are modelled over reals.
- Gap filling, interval and time-to-live parsing, ISO timestamps, tag canonicalisation, and how the cache key is built from a query.
- SQLite itself: transactions are atomic and serialised, primary keys reject duplicates, and SUM, MIN, MAX and COUNT are exact.
- ZeroMQ, FastAPI, WebSocket and asyncio internals, configuration, logging, the command line and the dashboard.
- Rate limiting, port allocation, the connection registry and subscription tracking, which would add only short claims.
