# Models of the Cloud Monitoring tools for Kubernetes

This project models the stateful cores of three programs of the repository and
proves what they are for, over every input and every run.

- **cloud-monitoring-proxy** polls Cloud Monitoring in overlapping windows and
  serves Prometheus metrics. `DeltaLog` is the theory of the per-series
  accumulator that turns DELTA points into counters and histograms,
  `TranslateSpec` the translation of one response, and `Translators` the objects
  that do it in place. `CacheSpec`, `CacheRuns`, `PlainStore` and `Cache` are the
  store with its interned labels. `PollManager` is a step system of pollers, a
  sweeper and rewires in which fetching is separate from the locked
  translate-and-apply; `Counters`, `Skew` and `Staleness` are its theorems,
  with runs put together by `Polling`.
  `GapFree` sets the lookback against the gap between polls, `Overlap` does so
  for overlapping polls that commit in any order, `Pipeline` carries it
  through the running manager, and `ServedExactly` to what is served.
  `LostCounts` and `LostRun` are about when a counter falls. `Exposition` and
  `Served` are the scrape. `ConfigStore`, `ConfigWatch` and `Presets` are the
  configuration.
- **event-exporter** batches log entries: `Sink` is a step system, `SinkObject`
  the object with the loop `Run`, which lets a script of what the other
  goroutines and the clock do happen as it goes.
- **prometheus-to-sd** turns scraped histograms into distributions
  (`PromConvert`, with `Histograms` its inverse in the proxy) and keeps metric
  descriptors (`Descriptors`).

Functions that compute are specifications; the loops and objects of the source
are methods and classes proved against them. Times are integers in nanoseconds
since the year 1, the zero of Go's `time.Time`; values, sums and means are reals;
conversions between `int64` and `uint64` wrap as in Go. The order in which Go
visits a map is an arbitrary choice. The label hash is a parameter: the pool,
the store and the scrape need nothing of it, the plain map needs it injective.

Where the code and what it says of itself differ, the model follows the code:

- The config store reads its file before it watches it (store.go:60 and 99), so
  an edit in between is not noticed until the next event.
  `ConfigWatch.NoEditIsLost` says exactly when the last read is what the file
  holds.
- A sample is documented to carry a histogram exactly in histogram families
  (translate.go:51). `TranslateSpec.HistIffDistribution` says when that holds.
- A counter served for a DELTA metric can fall: a poll stamps its accumulators
  and the cached series with two readings of the clock (manager.go:248-249), and
  a sweep whose cutoff lies between them drops the one and keeps the other.
  `LostCounts.CounterCanFallIff` says exactly which sweeps let it fall,
  `LostRun.SkewLosesTheCount` is a whole run in which it does, and
  `Skew.StillClockIsSkewFree` and `Staleness.ServedCounterIsMonotone` give two
  ways of never getting there.

Timers behave as from Go 1.23 on, which `event-exporter/go.mod` selects: resetting
one discards a tick not yet received.

## Model

| member | source | states |
|---|---|---|
| `Histograms.DistBounds` | cloud-monitoring-proxy/internal/translate/hist.go:33-54 | the loops compute the finite bounds of each bucket layout; no supported layout is the missing one |
| `Histograms.BoundsOfLayout` | cloud-monitoring-proxy/internal/translate/hist.go:37-50 | n finite buckets have n + 1 bounds; linear ones start at the offset and are a width apart, exponential ones start at the scale and grow by the factor |
| `Histograms.BoundsAscend` | cloud-monitoring-proxy/internal/translate/hist.go:33-54 | a supported layout has a bound, and linear and exponential layouts with sensible parameters have strictly increasing bounds |
| `Histograms.RawBucketCounts` | cloud-monitoring-proxy/internal/translate/hist.go:59-68 | the array holds the distribution's counts, cut or padded with zeros to the number of buckets |
| `Histograms.CumulativeCounts` | cloud-monitoring-proxy/internal/translate/hist.go:89-93 | the running total of the loop is the sum of the buckets up to each bound, in an array of its own |
| `Histograms.DistToHistogram` | cloud-monitoring-proxy/internal/translate/hist.go:73-95 | null exactly for a missing distribution or unsupported layout; otherwise a new histogram with the distribution's count, mean times count, bounds and cumulative counts |
| `Histograms.ConsistentIsWellFormed` | cloud-monitoring-proxy/internal/translate/hist.go:73-95 | a distribution whose bucket counts add up to its count gives counts that never fall and never exceed the total |
| `Histograms.CumulativeCountsOf` | cloud-monitoring-proxy/internal/translate/hist.go:56-93 | the first cumulative count is the first bucket's, each further one is larger by the next bucket's, and they stay level where empty buckets were cut off |
| `Histograms.RawCountsAddUp` | cloud-monitoring-proxy/internal/translate/hist.go:56-68 | with the empty buckets filled in, non-negative bucket counts still add up to their plain sum |
| `Histograms.TrailingZerosDoNotMatter` | cloud-monitoring-proxy/internal/translate/hist.go:56-68 | an empty bucket written out where it could be cut off changes nothing |
| `Basics.ConversionsWrap` | cloud-monitoring-proxy/internal/translate/hist.go:64-66 | conversions between int64 and uint64 differ from the number converted only by whole turns of 64 bits |
| `PromConvert.ConvertToDistributionValue` | prometheus-to-sd/translator/translator.go:357-407 | the loop computes count, mean, sum of squared deviations, finite bounds and per-bucket differences, with the +Inf bucket made explicit only when it was left out and not empty |
| `PromConvert.RoundTrip` | prometheus-to-sd/translator/translator.go:357-407 | converting a scraped histogram to a distribution and back gives the same bounds, cumulative counts, count and sum; refused exactly when there is no finite bucket |
| `PromConvert.RoundTripSum` | prometheus-to-sd/translator/translator.go:359-366 | the sum comes back if something, and no more than an int64 holds, was observed, and is 0 otherwise |
| `PromConvert.RoundTripBack` | cloud-monitoring-proxy/internal/translate/hist.go:73-95 | a consistent distribution served as a histogram, scraped with or without its +Inf bucket and converted comes back with the same bounds, counts up to trailing zeros, count and mean |
| `PromConvert.CountsAddUp` | prometheus-to-sd/translator/translator.go:371-393 | the bucket counts written, overflow included, are non-negative and add up to the count, also of a histogram without a finite bucket |
| `PromConvert.DeviationIsZeroIff` | prometheus-to-sd/translator/translator.go:367-385 | the sum of squared deviations is a number unless a bucket follows a +Inf bucket, never negative, and zero exactly if every bucket that holds a value has its middle at the mean |
| `PromConvert.DeviationByMoments` | prometheus-to-sd/translator/translator.go:367-385 | for any mean the deviation is the sum of squares, less twice the mean times the sum, plus the squared mean times the number of values, every value taken in the middle of its bucket, all computed from bounds and cumulative counts |
| `PromConvert.DeviationShifts` | prometheus-to-sd/translator/translator.go:367-385 | what a shift of the mean does to it; so it is least at the true mean |
| `PromConvert.DeviationOfThree` | prometheus-to-sd/translator/translator.go:379-381 | a case in numbers: two values up to 4 and one up to 8 deviate from their mean 4 by 12 |
| `DeltaLog.TakenMember` | cloud-monitoring-proxy/internal/translate/translate.go:198-210 | only readable points of the response that end after the watermark are counted |
| `DeltaLog.TakenAscending` | cloud-monitoring-proxy/internal/translate/translate.go:198-210 | within a response points are counted at strictly increasing ends |
| `DeltaLog.CleanExhausts` | cloud-monitoring-proxy/internal/translate/translate.go:198-210 | unless an unreadable point stops it, no point of the response is left beyond the new watermark |
| `DeltaLog.FoldScalarFollowsLog` | cloud-monitoring-proxy/internal/translate/translate.go:195-211 | after a response the sum is the total, and the watermark the last end, of all points counted so far |
| `DeltaLog.FoldDistFollowsLog` | cloud-monitoring-proxy/internal/translate/hist.go:107-133 | after a response the running histogram is the replay of all distributions counted so far |
| `DeltaLog.ResetsFollowLog` | cloud-monitoring-proxy/internal/translate/hist.go:120-125 | the bucket resets a response counts are the changes of layout it adds |
| `DeltaLog.PublishedIsPointwiseSum` | cloud-monitoring-proxy/internal/translate/hist.go:107-149 | count, sum and every cumulative count returned are the sums over exactly the points counted since the last change of bucket layout |
| `DeltaLog.SinceLayoutChangeIsSuffix` | cloud-monitoring-proxy/internal/translate/hist.go:120-125 | those points are the longest run at the end of the log with one layout |
| `DeltaLog.CountedAtMostOnce` | cloud-monitoring-proxy/internal/translate/translate.go:195-211 | over any sequence of responses, in any order, the ends counted strictly increase: none is counted twice |
| `DeltaLog.CountedWereReturned` | cloud-monitoring-proxy/internal/translate/translate.go:195-211 | everything counted is a readable point some response returned |
| `DeltaLog.ScalarAccumulatorFollowsLog` | cloud-monitoring-proxy/internal/translate/translate.go:195-211 | over any sequence of responses the accumulator is the total of what was counted |
| `DeltaLog.DistAccumulatorFollowsLog` | cloud-monitoring-proxy/internal/translate/hist.go:107-133 | over any sequence of responses the running histogram is the replay of what was counted, and the resets are its layout changes |
| `DeltaLog.NonNegativeNeverFalls` | cloud-monitoring-proxy/internal/translate/translate.go:195-211 | non-negative increments never lower the sum or the watermark |
| `TranslateSpec.SeriesCommits` | cloud-monitoring-proxy/internal/translate/translate.go:111-128 | a considered DELTA series commits its response to the accumulator of its metric type and labels; nothing else happens to any accumulator |
| `TranslateSpec.SeriesAccountedFor` | cloud-monitoring-proxy/internal/translate/translate.go:111-128 | a series gives a sample or counts as dropped or empty, never two of these, and neither only for a delta distribution with nothing accumulated yet |
| `TranslateSpec.OnlyDeltasRemember` | cloud-monitoring-proxy/internal/translate/translate.go:187-219 | other series show value or histogram and end of their newest point, which does not depend on any accumulator and leaves all of them alone |
| `TranslateSpec.ScalarShows` | cloud-monitoring-proxy/internal/translate/translate.go:187-219 | a scalar series that is not a DELTA shows its newest value: a double as it is, an integer as that number, true as 1 and false as 0; any other value gives no sample and counts as dropped |
| `TranslateSpec.DistributionShows` | cloud-monitoring-proxy/internal/translate/translate.go:187-219 | a distribution series that is not a DELTA shows its newest distribution, with mean times count as its sum, if its layout is explicit with bounds, linear or exponential, and is dropped otherwise |
| `TranslateSpec.OthersAreSkipped` | cloud-monitoring-proxy/internal/translate/translate.go:111-128 | a series of any other type is dropped and one without points counted as empty, and neither touches an accumulator |
| `TranslateSpec.OneNewPointCounts` | cloud-monitoring-proxy/internal/translate/translate.go:195-211 | a DELTA series with one point not yet counted raises the sum by exactly that double, integer or truth value and shows the new sum; a value that is none of these adds nothing and is dropped |
| `TranslateSpec.DeltaShows` | cloud-monitoring-proxy/internal/translate/translate.go:171-211 | whatever the response, a DELTA series shows what it has accumulated, with its own end, unless an unreadable point stopped the walk, which counts as dropped; the resets are those of the walk |
| `TranslateSpec.TranslateCounts` | cloud-monitoring-proxy/internal/translate/translate.go:99-128 | the statistics of a response are the numbers of its series without points and of those dropped, and the resets of all; the samples are as many as the series that show one |
| `TranslateSpec.SamplesInOrder` | cloud-monitoring-proxy/internal/translate/translate.go:99-128 | and they are the samples of those series, in the order of the response |
| `TranslateSpec.FamilyKindOf` | cloud-monitoring-proxy/internal/translate/translate.go:143-153 | a family is a histogram exactly if its descriptor says distribution, and a counter exactly if it does not and is CUMULATIVE or DELTA |
| `TranslateSpec.HistIffDistribution` | cloud-monitoring-proxy/internal/translate/translate.go:51-51 | a sample has a histogram exactly if its series is a distribution; that this agrees with the family's kind holds exactly unless the series states a value type that disagrees with the descriptor |
| `TranslateSpec.HistogramFamilyWithoutHistogram` | cloud-monitoring-proxy/internal/translate/translate.go:51-51 | and an input on which they disagree: a series of doubles under a descriptor of distributions |
| `TranslateSpec.TranslateFrame` | cloud-monitoring-proxy/internal/translate/translate.go:99-128 | no accumulator disappears and those of other metric types are untouched |
| `TranslateSpec.SamplesHaveCountPerBound` | cloud-monitoring-proxy/internal/translate/hist.go:137-147 | every histogram produced has one count per bound |
| `Translators.DeltaState.AddScalars` | cloud-monitoring-proxy/internal/translate/translate.go:198-210 | the loop from the oldest point updates sum and watermark as the specification folds them, and fails at the first unreadable point |
| `Translators.HistAccum.Add` | cloud-monitoring-proxy/internal/translate/hist.go:126-131 | one distribution is added to the counts in place |
| `Translators.HistAccum.Publish` | cloud-monitoring-proxy/internal/translate/hist.go:137-148 | the histogram returned has a new count array that accumulates the buckets at each bound |
| `Translators.DeltaState.AddDists` | cloud-monitoring-proxy/internal/translate/hist.go:109-133 | the loop over the response folds the distributions in place, starting over at a change of layout and counting it |
| `Translators.Translator.State` | cloud-monitoring-proxy/internal/translate/translate.go:230-239 | the accumulator of a key, created on first sight and marked as seen now; all others keep their value and their memory |
| `Translators.Translator.constructor` | cloud-monitoring-proxy/internal/translate/translate.go:93-95 | owns no accumulator |
| `Translators.DeltaState.constructor` | cloud-monitoring-proxy/internal/translate/translate.go:231-236 | a new accumulator has counted nothing |
| `Translators.Translator.TranslateOne` | cloud-monitoring-proxy/internal/translate/translate.go:171-221 | each of the four cases of a series gives the sample, statistics and accumulators of the specification |
| `Translators.Translator.AccumulateDeltaDist` | cloud-monitoring-proxy/internal/translate/hist.go:107-149 | folds a response into the key's running histogram and returns the histogram it then publishes, in memory of its own |
| `Translators.Translator.Translate` | cloud-monitoring-proxy/internal/translate/translate.go:99-128 | name, help, kind, samples, statistics and every accumulator are those of the specification; all histograms returned are new memory outside the translator |
| `Translators.Translator.SweepStale` | cloud-monitoring-proxy/internal/translate/translate.go:132-141 | exactly the accumulators unseen since the cutoff go, and their number is returned, whatever the order of the map |
| `Translators.HistogramsHandedOutStay` | cloud-monitoring-proxy/internal/translate/hist.go:137-148 | a histogram handed out earlier keeps its contents under any later translation |
| `GapFree.GapFreeExactlyOnce` | cloud-monitoring-proxy/internal/poll/manager.go:224-231 | with polls at most lookback less ingest delay apart, what has been counted is every point visible to the last poll that ended after the first window opened, each once and in order |
| `GapFree.AutomaticLookbackIsGapFree` | cloud-monitoring-proxy/internal/poll/manager.go:261-272 | with the automatic lookback and gaps of at most the sample period and 30 seconds the counter is the sum of all those points |
| `GapFree.AutomaticLookbackIsGapFreeForDistributions` | cloud-monitoring-proxy/internal/poll/manager.go:261-272 | the same for delta distributions: the running histogram replays all those points, and the resets are their layout changes |
| `GapFree.LookbackInSeconds` | cloud-monitoring-proxy/internal/poll/manager.go:261-272 | a lookback of an entry's own is taken as it is; a descriptor without timing gives 300 seconds; any other gives ingest delay, sample period and 30 seconds |
| `GapFree.DefaultLookbackIsGapFree` | cloud-monitoring-proxy/internal/poll/manager.go:269-269 | with the 300 seconds of a descriptor without timing, polls at most that less the actual delay apart count every visible point once |
| `GapFree.LongerGapLosesAPoint` | cloud-monitoring-proxy/internal/poll/manager.go:261-272 | the bound is tight: for every larger gap some stream has a point that is visible to the later poll's time and never counted |
| `Overlap.OverlappingPollsAreGapFree` | cloud-monitoring-proxy/internal/poll/manager.go:224-250 | for responses of overlapping polls committed in any order, none asking more than the gap after the latest before it, the points counted from the first window on are exactly those shown to the query that sees most, each once |
| `Overlap.CountedIsReached` | cloud-monitoring-proxy/internal/poll/manager.go:224-250 | a point after the first window is counted exactly if some committed query was answered when it could be seen |
| `GapFree.ShownExactly` | cloud-monitoring-proxy/internal/poll/manager.go:225-231 | what counts as visible is exactly the points inside the window that could be queried by then |
| `CacheSpec.InsertKeepsInv` | cloud-monitoring-proxy/internal/cache/cache.go:121-128 | adding a series keeps reference counts and labels of the pool right and caches exactly one more series |
| `CacheSpec.EvictKeepsInv` | cloud-monitoring-proxy/internal/cache/cache.go:139-145 | evicting a series keeps the pool right and caches exactly that one less |
| `CacheSpec.PoolDetermined` | cloud-monitoring-proxy/internal/cache/cache.go:190-205 | the label pool is a function of the families |
| `CacheSpec.PoolEmptyWithoutSeries` | cloud-monitoring-proxy/internal/cache/cache.go:190-205 | no series, no pool entries |
| `CacheRuns.ApplySamplesEffect` | cloud-monitoring-proxy/internal/cache/cache.go:107-129 | a known series shows the last sample for it and keeps its labels; one not mentioned stays as it was |
| `CacheRuns.ApplyAccounts` | cloud-monitoring-proxy/internal/cache/cache.go:90-131 | rejected exactly on a name owned by another metric type, and then nothing changes; otherwise added, updated and dropped samples are all the samples, series grow by those added, other families and all owners stay |
| `CacheRuns.ApplyCounts` | cloud-monitoring-proxy/internal/cache/cache.go:107-129 | over the samples and the series cached before and after: updated are the samples whose series was cached or had entered with an earlier sample, dropped are those whose series did not get in, which happens only if the family ends at its limit and whoever got in came earlier, and added are the series more |
| `CacheRuns.SweepKeepsTheLive` | cloud-monitoring-proxy/internal/cache/cache.go:135-152 | after a sweep exactly the series seen at or after the cutoff remain, unchanged |
| `CacheRuns.SweepKeepsInv` | cloud-monitoring-proxy/internal/cache/cache.go:135-152 | a sweep keeps the pool right |
| `CacheRuns.SweepIsDetermined` | cloud-monitoring-proxy/internal/cache/cache.go:138-150 | whatever order the maps are visited in, the result is the same state |
| `CacheRuns.RunAccounts` | cloud-monitoring-proxy/internal/cache/cache.go:90-152 | over any run the pool agrees with the families, and the series cached are those added less those evicted |
| `CacheRuns.OwnersStay` | cloud-monitoring-proxy/internal/cache/cache.go:95-104 | a family keeps its owner as long as it exists |
| `CacheRuns.LimitHolds` | cloud-monitoring-proxy/internal/cache/cache.go:116-119 | with one limit throughout, no family ever exceeds it |
| `PlainStore.ApplyRefines` | cloud-monitoring-proxy/internal/cache/cache.go:90-131 | with an injective hash, an update acts as on a plain map from name and labels to the latest sample, with the same statistics |
| `PlainStore.SweepRefines` | cloud-monitoring-proxy/internal/cache/cache.go:135-152 | and so does a sweep |
| `PlainStore.RunRefines` | cloud-monitoring-proxy/internal/cache/cache.go:90-152 | after any run the store is the plain map |
| `Cache.Store.Intern` | cloud-monitoring-proxy/internal/cache/cache.go:190-197 | shares the pooled labels and counts one more reference |
| `Cache.Store.Release` | cloud-monitoring-proxy/internal/cache/cache.go:199-205 | drops one reference, and the entry with the last |
| `Cache.Store.constructor` | cloud-monitoring-proxy/internal/cache/cache.go:80-85 | an empty store |
| `Cache.Store.ApplyOne` | cloud-monitoring-proxy/internal/cache/cache.go:107-129 | a known series is updated in place, a new one enters with shared labels unless the family is at its limit |
| `Cache.Store.SweepFamily` | cloud-monitoring-proxy/internal/cache/cache.go:139-145 | the stale series of one family go, their labels are released, and their number is returned |
| `Cache.Store.Apply` | cloud-monitoring-proxy/internal/cache/cache.go:90-131 | the loop leaves the state and statistics of the specification and keeps the pool invariant |
| `Cache.Store.Sweep` | cloud-monitoring-proxy/internal/cache/cache.go:135-152 | the nested loops, in any order, leave the swept state and return the numbers evicted |
| `PollManager.EarlierGenerationsAreGone` | cloud-monitoring-proxy/internal/poll/manager.go:132-156 | after a rewire no worker of an earlier generation acts on the cache or an accumulator again |
| `PollManager.GenerationsInRun` | cloud-monitoring-proxy/internal/poll/manager.go:132-156 | at any time all workers alive belong to the generation started last |
| `PollManager.RewiredConfigIsUsed` | cloud-monitoring-proxy/internal/poll/manager.go:130-156 | until the next rewire every fetch serves an entry of this one's configuration, every update carries that entry's rename and is applied within its limit, and every sweep of store or accumulators uses its staleness bound counted back from after the rewire |
| `PollManager.RewiredCrewFits` | cloud-monitoring-proxy/internal/poll/manager.go:139-154 | all workers alive since the rewire were given its configuration and act within it |
| `PollManager.StartedCrew` | cloud-monitoring-proxy/internal/poll/manager.go:139-154 | a rewire starts one idle poller for each entry and one sweeper, all with the new configuration and nobody else |
| `PollManager.CrewStays` | cloud-monitoring-proxy/internal/poll/manager.go:132-156 | that crew stays complete, and nobody joins it, until it is cancelled |
| `PollManager.CancelBetweenStarts` | cloud-monitoring-proxy/internal/poll/manager.go:132-138 | between two rewires the first crew is cancelled |
| `PollManager.TranslatedIsApplied` | cloud-monitoring-proxy/internal/poll/manager.go:135-138 | what has been counted is not lost to a rewire: an update translated stays with its poller until that poller applies it, before the next crew starts |
| `PollManager.StepFrame` | cloud-monitoring-proxy/internal/poll/manager.go:206-356 | nothing changes but what a step is for: the store by applying and sweeping, accumulators by translating and sweeping, the crew by a start, and otherwise only the worker that acts, which leaves only by its exit |
| `PollManager.WhatAPollerFetches` | cloud-monitoring-proxy/internal/poll/manager.go:186-204 | a poller fetches exactly the type of its entry, or if it has none any type with its prefix, and names the family by the rename of an entry for one type |
| `PollManager.TranslatesItsOwn` | cloud-monitoring-proxy/internal/poll/manager.go:309-318 | translating with the accumulators of all metric types is what the translator of the one metric type does with its own |
| `PollManager.SweepsItsOwn` | cloud-monitoring-proxy/internal/poll/manager.go:348-352 | and so is sweeping them |
| `Staleness.RewireKeepsAccumulators` | cloud-monitoring-proxy/internal/poll/manager.go:130-156 | from the cancellation of one set of workers to the start of the next a key no sweep drops keeps its accumulator, polls under way still count, and the start touches no accumulator and no cached series |
| `Staleness.UndroppedStays` | cloud-monitoring-proxy/internal/poll/manager.go:130-156 | over any stretch of a run in which no sweep drops it, rewires included, an accumulator is kept and what is counted in it only grows |
| `Staleness.OnlySweepsDrop` | cloud-monitoring-proxy/internal/poll/manager.go:348-352 | a step drops an accumulator exactly if it is a sweep of its metric type with a cutoff after it was last seen |
| `Counters.StepIsSafe` | cloud-monitoring-proxy/internal/poll/manager.go:246-250 | every step keeps what holds whatever is swept; one that drops no accumulator of a cached series keeps the invariant that no cached value exceeds its accumulator and no update in progress is below the cache, and no value shown falls |
| `Counters.ApplyIsSafe` | cloud-monitoring-proxy/internal/poll/manager.go:246-250 | applying a translated update under the lock never lowers a value shown |
| `LostCounts.CounterCanFallIff` | cloud-monitoring-proxy/internal/poll/manager.go:206-356 | exactly when a sweep lets a served counter fall: it drops the accumulator of a series that is still cached with a positive value; then the poller that names the family, idle or as soon as it is through with a response that does not concern the series, makes the value shown fall by a response inside its window; otherwise no run without another such sweep does |
| `Counters.SweepTypeIsSafe` | cloud-monitoring-proxy/internal/poll/manager.go:348-352 | a sweep of accumulators keeps the invariant if and only if it does not drop the accumulator of a series that is still cached |
| `Counters.CounterNeverFalls` | cloud-monitoring-proxy/internal/poll/manager.go:224-250 | under every interleaving of polls, sweeps and rewires, what is served of a DELTA series never falls while it is cached, also when an older response commits later, if no sweep since a time at which it was not cached dropped its accumulator under it: the value of a non-negative scalar, and the count and every cumulative count of a histogram while its bucket layout stays |
| `Skew.StillClockIsSkewFree` | cloud-monitoring-proxy/internal/poll/manager.go:248-249 | the condition holds for every DELTA series in every run in which the clock stands still between the two readings of a poll |
| `LostRun.SkewLosesTheCount` | cloud-monitoring-proxy/internal/poll/manager.go:248-249 | it does happen: a run from the start with an accepted configuration, every fetch answered by one valid stream and every family named by its metric type, in which the two readings of a poll are a nanosecond apart, a cutoff falls between them, and the value served falls from 5 to 0 while the series stays cached |
| `LostCounts.MutexInRun` | cloud-monitoring-proxy/internal/poll/manager.go:246-250 | in every reachable state at most one worker is between translating and applying a response of a metric type |
| `Staleness.AccumulatorFollowsRun` | cloud-monitoring-proxy/internal/poll/manager.go:224-250 | under every interleaving an accumulator is what the responses committed to it since it was last dropped make of it |
| `Staleness.EndsCountedOnce` | cloud-monitoring-proxy/internal/poll/manager.go:224-250 | so a scalar DELTA counts each point end at most once and its sum is the total of what it counted |
| `Staleness.DistributionsCountedOnce` | cloud-monitoring-proxy/internal/poll/manager.go:224-250 | and a delta distribution publishes count, sum and cumulative counts summed over the points counted since its last layout change |
| `Pipeline.GapInSeconds` | cloud-monitoring-proxy/internal/poll/manager.go:261-272 | the gap polls may leave: the sample period and 30 seconds, 300 seconds if the descriptor has no timing, or what a lookback of the entries' own exceeds the ingest delay by |
| `Pipeline.PipelineIsGapFree` | cloud-monitoring-proxy/internal/poll/manager.go:206-272 | if fetches are answered from a stream at some time between request and arrival, and no poll asks more than that gap after the latest committed before it, the accumulator in the running manager is the total, or the replay, of exactly the points visible to the query that sees most, whatever happens between fetch and commit and in whatever order polls commit |
| `Pipeline.PollsAreAnswers` | cloud-monitoring-proxy/internal/poll/manager.go:224-250 | what has been committed to a key is what the stream answered to the queries behind it, in commit order |
| `ServedExactly.ServedIsHeld` | cloud-monitoring-proxy/internal/poll/manager.go:246-250 | whenever an update for the series has been applied and the series is served, what is served is exactly what the accumulator holds, whatever else runs at the time |
| `ServedExactly.ServedIsExact` | cloud-monitoring-proxy/internal/poll/manager.go:206-272 | from the service to the scrape: after such an update the value or histogram served is the total, or what is published of the replay, of exactly the points visible to the query that sees most, each once, under the schedule of PipelineIsGapFree |
| `Staleness.AccumulatorStays` | cloud-monitoring-proxy/internal/poll/manager.go:337-356 | a DELTA series that responses show at most staleAfter apart keeps its accumulator, and what is counted in it only grows |
| `Staleness.SeriesStays` | cloud-monitoring-proxy/internal/poll/manager.go:337-356 | a cached series refreshed at most staleAfter apart is never evicted |
| `Staleness.SeenOftenIsSkewFree` | cloud-monitoring-proxy/internal/poll/manager.go:337-356 | no sweep drops the accumulator of a cached series whose last response is at most staleAfter old |
| `Staleness.AccumulatorsWereSeen` | cloud-monitoring-proxy/internal/translate/translate.go:230-239 | in every reachable state an accumulator was seen no earlier than by the last response that showed its key |
| `Staleness.ServedCounterIsMonotone` | cloud-monitoring-proxy/internal/poll/manager.go:206-356 | so what is served of a DELTA series, scalar or histogram, that since it last came into the cache was seen and refreshed at most staleAfter apart stays cached and never falls, under every interleaving |
| `Staleness.PoolAgreesInRun` | cloud-monitoring-proxy/internal/cache/cache.go:190-205 | the label pool agrees with the families in every reachable state of the manager |
| `Ordering.LabelsOrder` | cloud-monitoring-proxy/internal/cache/cache.go:174-176 | label sets are strictly and totally ordered |
| `Ordering.LabelsInOrder` | cloud-monitoring-proxy/internal/cache/cache.go:174-176 | label sets are ordered by their first different label, by name and then by value, a prefix first |
| `Ordering.StringsInOrder` | cloud-monitoring-proxy/internal/cache/cache.go:164-164 | strings are ordered by their first different character, a prefix first |
| `Exposition.SortedSeries` | cloud-monitoring-proxy/internal/cache/cache.go:169-178 | each series of the family once, in label order, whatever order the map gives |
| `Exposition.SortedFamilies` | cloud-monitoring-proxy/internal/cache/cache.go:156-164 | each family once, in name order |
| `Exposition.HistogramToDto` | cloud-monitoring-proxy/internal/export/gatherer.go:103-119 | one bucket per bound, and an empty histogram for a missing one |
| `Exposition.FamilyMetrics` | cloud-monitoring-proxy/internal/export/gatherer.go:58-72 | one metric per series, in label order, with the value its family's kind asks for and a timestamp only if wanted and known |
| `Exposition.Gather` | cloud-monitoring-proxy/internal/export/gatherer.go:47-90 | every family with a series, once, in name order, announced as what it is stored as and with a metric that says what is stored for each of its series |
| `Exposition.ExpositionSays` | cloud-monitoring-proxy/internal/export/gatherer.go:47-119 | a family is announced as counter, histogram or gauge exactly if it is stored as that; its metrics carry the stored values, or count, sum and buckets of the stored histograms, and if asked for the milliseconds since 1970 of the newest point |
| `Exposition.ExpositionIsUnique` | cloud-monitoring-proxy/internal/export/gatherer.go:47-79 | a store has one exposition: no map order shows |
| `Exposition.InvSeparatesLabels` | cloud-monitoring-proxy/internal/cache/cache.go:121-128 | no two series of a family have the same labels |
| `Served.ScrapesNeverOverrun` | cloud-monitoring-proxy/internal/export/gatherer.go:107-113 | in every reachable state every histogram cached has a count for every bound it is indexed by |
| `Served.ServedHistogramsAreWellFormed` | cloud-monitoring-proxy/internal/export/gatherer.go:103-119 | if the distributions polled are consistent, every histogram cached has counts that never fall and never exceed the total |
| `Sink.InvInRun` | event-exporter/sinks/stackdriver/sink.go:70-156 | in every reachable state the batches, the one in hand, the buffer and the channel concatenate to what was accepted; what is delivered and in flight is what the batches hold; all bounds hold; the timer is live |
| `Sink.BatchesInOrder` | event-exporter/sinks/stackdriver/sink.go:100-131 | what has left is a prefix of what was accepted, in batches within the limit, with at most MaxConcurrency writes at a time |
| `Sink.StopsWhenTold` | event-exporter/sinks/stackdriver/sink.go:113-121 | it stops taking entries only after the stop signal |
| `Sink.UnwrittenIsBounded` | event-exporter/sinks/stackdriver/sink.go:52-68 | entries accepted and not written never exceed MaxBufferSize times MaxConcurrency + 2 |
| `Sink.ReturnedIsQuiet` | event-exporter/sinks/stackdriver/sink.go:115-121 | when Run has returned nothing is in flight, all batches are delivered, and what is left is at most 2 MaxBufferSize - 1 of the newest entries |
| `Sink.NothingStranded` | event-exporter/sinks/stackdriver/sink.go:100-156 | an entry buffered for the flush delay has an expired timer about to flush it |
| `Sink.NeverStuck` | event-exporter/sinks/stackdriver/sink.go:115-131 | whenever Run waits for a token, it can get one or some write can go on |
| `Sink.OneWriterDeliversInOrder` | event-exporter/sinks/stackdriver/sink.go:126-141 | with MaxConcurrency 1 entries are delivered in the order accepted |
| `SinkObject.SdSink.constructor` | event-exporter/sinks/stackdriver/sink.go:52-68 | empty channel and buffer, no timer, no token out |
| `SinkObject.SdSink.Run` | event-exporter/sinks/stackdriver/sink.go:100-124 | the loop, choosing freely among the ready cases while the rest of the world goes on: what was added is, in order, batches sent, the one in hand, the buffer and the channel; when it returns every send is done and delivered and less than two full buffers are left; when it is blocked at its select nothing is ready or overdue |
| `SinkObject.SdSink.ReceiveEntry` | event-exporter/sinks/stackdriver/sink.go:104-111 | takes the oldest entry of the channel into the buffer, which is sent whole when full, and comes back to the select or is stuck with it in hand |
| `SinkObject.SdSink.ReceiveHandoff` | event-exporter/sinks/stackdriver/sink.go:104-111 | the same for an entry handed over by a waiting sender when the channel has no space of its own |
| `SinkObject.SdSink.TimerExpired` | event-exporter/sinks/stackdriver/sink.go:112-114 | an expired timer sends exactly what is buffered, or keeps it in hand, and is not looked at again |
| `SinkObject.SdSink.FlushBuffer` | event-exporter/sinks/stackdriver/sink.go:126-131 | empties the buffer: all of it is the batch sent once there is a token, or the batch kept in hand with nothing more to wait for |
| `SinkObject.SdSink.Await` | event-exporter/sinks/stackdriver/sink.go:129-129 | waits until the concurrency channel has room, or nothing more can happen |
| `SinkObject.SdSink.TakeAllTokens` | event-exporter/sinks/stackdriver/sink.go:115-121 | after the stop signal all tokens are taken, or one is still held by a send with nothing more to happen |
| `SinkObject.SdSink.LetHappen` | event-exporter/sinks/stackdriver/sink.go:70-82 | the next event of the script happens: it is the step of module Sink for it, and with a finished send a token comes back; clock, additions, stop signal, deliveries and the status of every send are always those the script so far makes them |
| `SinkObject.SdSink.ReleaseToken` | event-exporter/sinks/stackdriver/sink.go:138-138 | a finished send is done and gives its token back |
| `SinkObject.SdSink.CompleteWrite` | event-exporter/sinks/stackdriver/sink.go:133-136 | a write that completes delivers its whole batch |
| `ConfigStore.Store.Reload` | cloud-monitoring-proxy/internal/config/store.go:138-174 | a failed read or parse keeps the config, marks it stale and counts; unchanged content is skipped unless stale; new content is parsed, shown and told to subscribers |
| `ConfigStore.Store.constructor` | cloud-monitoring-proxy/internal/config/store.go:59-71 | starts with the parse of the content it was given |
| `ConfigStore.ReloadRefinesReparse` | cloud-monitoring-proxy/internal/config/store.go:138-174 | for any attempts the store shows what always parsing would show; its config is the parse of the last content that parsed and the one subscribers last heard of |
| `ConfigStore.ErrorsAreFailures` | cloud-monitoring-proxy/internal/config/store.go:138-161 | the error count is the number of attempts that could not be read or did not parse, and the store is stale exactly while the last attempt is one of them |
| `ConfigStore.SkippedNotificationsAreRepeats` | cloud-monitoring-proxy/internal/config/store.go:148-154 | the notifications skipped carry the config already current |
| `ConfigStore.CollisionHidesAnEdit` | cloud-monitoring-proxy/internal/config/store.go:148-154 | for two contents that parse differently the refinement fails exactly if their hashes collide |
| `ConfigWatch.NoEditIsLost` | cloud-monitoring-proxy/internal/config/store.go:91-135 | unless an event, timer, callback, token or reload is still to come, the last read gave what the file holds if and only if an event has come since the watch began or the file had not been edited before it |
| `ConfigWatch.EveryEditIsFollowedByARead` | cloud-monitoring-proxy/internal/config/store.go:103-135 | after every edit, also one that puts back what was there, a read has happened or is still to come |
| `ConfigWatch.QuietRunSettles` | cloud-monitoring-proxy/internal/config/store.go:103-135 | once edits stop the loop comes to rest within a number of steps bounded by what is pending |
| `ConfigWatch.LoopGoesOn` | cloud-monitoring-proxy/internal/config/store.go:103-135 | until then some step of the loop can be taken |
| `ConfigWatch.StateIsHistory` | cloud-monitoring-proxy/internal/config/store.go:103-135 | the state of the loop is what its history makes it: events, callbacks and reads still to come are those that have come less those dealt with, a token is there exactly if a callback has left one since one was last taken, and there is a timer exactly if an event has come since, each first event making a new one |
| `ConfigWatch.ArmedExactly` | cloud-monitoring-proxy/internal/config/store.go:116-125 | a timer runs exactly if an event has set it and it has not expired since |
| `ConfigWatch.AtRestTheStoreReflectsTheFile` | cloud-monitoring-proxy/internal/config/store.go:59-174 | at rest the store shows the parse of the file, or is stale with the last config that parsed; only an edit between first load and watch that no event follows goes unseen, and then it shows the first load |
| `Presets.ValidateEntries` | cloud-monitoring-proxy/internal/config/config.go:150-175 | the loop finds the problems of each entry in order |
| `Presets.NoProblemsIffValid` | cloud-monitoring-proxy/internal/config/config.go:150-175 | it finds none exactly if every entry is valid |
| `Presets.ProblemsFound` | cloud-monitoring-proxy/internal/config/config.go:150-175 | which problem is reported of which entry: naming none or several of preset, type and prefix; an interval under a minute; a rename without a type; an unknown preset |
| `Presets.ProblemsInOrder` | cloud-monitoring-proxy/internal/config/config.go:150-175 | problems are listed by entry and within one in a fixed order, none twice |
| `Presets.Deduplicate` | cloud-monitoring-proxy/internal/config/config.go:217-231 | the loop with the index map leaves one entry per key, the last with that key, in order of first occurrence |
| `Presets.Resolve` | cloud-monitoring-proxy/internal/config/config.go:201-217 | the loop replaces presets by their members, types before prefixes, which inherit interval, lookback and filter |
| `Presets.ExpandPresets` | cloud-monitoring-proxy/internal/config/config.go:200-234 | presets become their members, then duplicates go; an unknown preset fails |
| `Presets.ResolvesOne` | cloud-monitoring-proxy/internal/config/config.go:201-217 | a preset becomes its types and then its prefixes in order, each with the interval, lookback and filter of the entry and nothing else; another entry stays as it is; an unknown preset fails |
| `Presets.ResolvesInParts` | cloud-monitoring-proxy/internal/config/config.go:201-217 | and a list resolves entry by entry |
| `Presets.SlotsAreMetrics` | cloud-monitoring-proxy/internal/config/config.go:219-223 | two entries share a slot exactly if they name the same prefix, or no prefix and the same type |
| `Presets.DeduplicatedList` | cloud-monitoring-proxy/internal/config/config.go:217-231 | of each metric the last entry about it stays, and the metrics are in the order in which they first come up |
| `Presets.ExpansionIsClean` | cloud-monitoring-proxy/internal/config/config.go:197-234 | unique keys, no presets, every key of the resolved list |
| `Presets.ExpansionIsIdempotent` | cloud-monitoring-proxy/internal/config/config.go:197-234 | expanding an expanded list changes nothing |
| `Presets.LaterEntriesWin` | cloud-monitoring-proxy/internal/config/config.go:197-199 | an entry at the end of the list is in the result, whatever came before it |
| `Presets.ValidListsExpand` | cloud-monitoring-proxy/internal/config/config.go:209-212 | a list that passes validation expands, and the result passes validation again |
| `Descriptors.ExtractAllLabels` | prometheus-to-sd/translator/translator.go:455-481 | the loops with the label set collect the labels as the specification joins them |
| `Descriptors.MergedLabels` | prometheus-to-sd/translator/translator.go:455-481 | no key twice, and exactly the keys of the family's own labels and of the stored descriptor |
| `Descriptors.FindLabelSetChanged` | prometheus-to-sd/translator/metric_descriptor_cache.go:159-174 | the nested search finds a label the stored descriptor lacks exactly if there is one |
| `Descriptors.LabelsChangeIffNew` | prometheus-to-sd/translator/metric_descriptor_cache.go:159-174 | after merging, that is exactly a label of the family the stored descriptor lacks |
| `Descriptors.SecondPresentation` | prometheus-to-sd/translator/metric_descriptor_cache.go:127-137 | presenting a family again changes nothing, and writes again exactly if the service refused the write |
| `Descriptors.NeedsWriteExactly` | prometheus-to-sd/translator/metric_descriptor_cache.go:127-137 | presenting a family leads to a write exactly if there is no descriptor, the help text differs, it is cumulative and the descriptor is not or the other way round, or a metric has a label the descriptor lacks |
| `Descriptors.WrittenExactly` | prometheus-to-sd/translator/metric_descriptor_cache.go:99-123 | so a scrape writes exactly the families that are listed, or all if nothing is, and need it |
| `Descriptors.WhatIsWritten` | prometheus-to-sd/translator/translator.go:421-453 | a write stores help text, metric type, kind, and the value type there was or the one of the family's type; one refused marks the family broken |
| `Descriptors.LabelsMerged` | prometheus-to-sd/translator/translator.go:455-481 | of the labels merged the family's own say only their name, and those only the stored descriptor has are as they were |
| `Descriptors.FirstOccurrenceFirst` | prometheus-to-sd/translator/translator.go:455-481 | labels come in the order in which they first occur, the family's own before those only stored |
| `Descriptors.PresentOnlyGrows` | prometheus-to-sd/translator/metric_descriptor_cache.go:127-137 | presenting a family touches only its name and loses no descriptor, label key, broken mark or value type |
| `Descriptors.UpdatesDetermined` | prometheus-to-sd/translator/metric_descriptor_cache.go:99-110 | the state a scrape leaves does not depend on the order of its families |
| `Descriptors.ScrapeIsIdempotent` | prometheus-to-sd/translator/metric_descriptor_cache.go:99-110 | the same scrape again changes nothing |
| `Descriptors.CheckMarksChanges` | prometheus-to-sd/translator/metric_descriptor_cache.go:73-96 | validation marks a family exactly if it has a label its stored descriptor lacks or another kind |
| `Descriptors.OnlyRefreshForgets` | prometheus-to-sd/translator/metric_descriptor_cache.go:186-193 | between successful refreshes broken marks persist, descriptors stay, their labels only grow and their value types stay |
| `Descriptors.MetricDescriptorCache.UpdateMetricDescriptors` | prometheus-to-sd/translator/metric_descriptor_cache.go:99-110 | only while fresh; the state and the writes are those of presenting each listed family, in any order |
| `Descriptors.MetricDescriptorCache.ValidateMetricDescriptors` | prometheus-to-sd/translator/metric_descriptor_cache.go:73-96 | only while fresh; marks the listed families that differ from what is stored |
| `Descriptors.MetricDescriptorCache.Refresh` | prometheus-to-sd/translator/metric_descriptor_cache.go:186-193 | a successful refresh replaces the descriptors, clears the marks and makes the cache fresh; a failed one changes nothing |
| `Descriptors.MetricDescriptorCache.MarkStale` | prometheus-to-sd/translator/metric_descriptor_cache.go:66-68 | nothing is looked at until the next successful refresh |
| `Descriptors.MetricDescriptorCache.UpdateIfStale` | prometheus-to-sd/translator/metric_descriptor_cache.go:127-137 | writes exactly if the family needs it, stores what the service took, marks what it refused |
| `Descriptors.MetricDescriptorCache.CheckFamily` | prometheus-to-sd/translator/metric_descriptor_cache.go:83-95 | marks the family if labels or kind differ from what is stored |
| `Descriptors.MetricDescriptorCache.IsMetricBroken` | prometheus-to-sd/translator/metric_descriptor_cache.go:51-54 | true exactly for marked names |
| `Descriptors.MetricDescriptorCache.constructor` | prometheus-to-sd/translator/metric_descriptor_cache.go:40-48 | empty and not fresh |
| `Descriptors.IsWhitelisted` | prometheus-to-sd/translator/metric_descriptor_cache.go:112-123 | an empty list lists every metric |

## Left out

- Clients of the cloud services and of Kubernetes, HTTP, YAML, protocol buffers, logging and self-metrics: I/O; responses, scrapes, file contents and the service's answers are parameters.
- Failed polls, selector text, request paging, scoping and hooks: a failed poll commits nothing, and the rest does not touch the state modelled.
- Label flattening, Prometheus naming and the label hash: given functions.
- Rounding of floating-point numbers, NaN, infinite bounds other than +Inf, and overflow of the `uint64` accumulators.
- Negative `NumFiniteBuckets` of a bucket layout.
- Entries for one metric type with different lookbacks, or a rewire that changes one: `Pipeline` has one window for all polls of a stream, automatic or an override.
- `Ready` and the poll statistics of the manager, and the jitter and tickers that pace its loops: workers act at any time.
- The manager's own fields as an object: its workers, mutexes and map of translators are the state of `PollManager`, whose steps use the same specifications as the `Translators` and `Cache` objects.
- Pointers from the store's maps to families and series: they are values in those maps, so a reader that kept a pointer beyond its lock is not modelled.
- `sort.Slice`: a library; any sorting gives the same result here, since the keys are distinct.
- `OnList` of the sink, which writes one message directly, `FromEvent`, and the retry loop of the writer: a write is one step that completes.
- A steady stream of file events postpones the reload without bound; `ConfigWatch.QuietRunSettles` speaks of when they stop.
- LostCounts.CounterCanFallIff: the poller holds no response that concerns the series and no negative lookback, because committing such a response can restore the count and a window of negative length shows nothing.
- Presets.ValidateEntries: models the checks of the metric list, not those of the polling and limits sections, which are single comparisons.
- Defaults of the configuration, selector syntax and the bundled presets: tables.
- The LRU wrappers, kubelet fields and other translations of prometheus-to-sd, resource labels, and the tools under hack/.
