# Load-test driver and bulkhead worker: a verified model

This project models two parts of a workshop toolkit.

- **The load-test driver** (`pkg/driver/runner.go`). It fires requests at a target at a fixed rate and stores every result. Once a second it samples a timeseries point. At the end it reduces the results into a run report. The report holds the request, success and failure counts, the status-code distribution, and the p50/p95/p99/max/avg latency in milliseconds.
- **The bulkhead worker demo** (`pkg/worker/dispatcher.go`). It accepts batches of "fast" and "slow" jobs under sequential ids. It records each finished job and answers status lookups with per-type p95 latencies and a `complete` flag.

Modules:

- `Sorting` (sorting.dfy). The ascending sort used before every percentile. It is a verified insertion sort: the result is sorted and a permutation of the input. The module also covers counting samples at or below a bound, and sums.
- `NearestRankPercentile` (percentile.dfy). The index rule `ceil(pct*n) - 1` clamped to `[0, n-1]`. The percentile fraction is written as an integer number of percent `k`. The module proves that the selected value is the nearest-rank percentile, characterised without reference to sorting:
  - at least k% of the samples are at or below it;
  - fewer than k% are strictly below it;
  - exactly one value has these two properties.
- `Tally` (tally.dfy). A map from key to count, incremented as with Go's `m[k]++`. Its counts add up to the number of increments.
- `Durations` (duration.dfy). `Duration.Milliseconds()`, which truncates nanoseconds to whole milliseconds.
- `Driver` (driver.dfy). Configuration defaults; the `Runner` class with its append-only result store, the recent-window p95 and the final aggregation; the `Sampler` class holding the timeseries and the last-seen counters.
- `Worker` (worker.dfy). The type-filtered percentile; the `Batch` class, whose `RecordResult` appends and counts; decimal batch ids; the `Registry` class holding the id-to-batch map and the sequence counter.

Concurrency, time and I/O are removed. The sampler's inputs become parameters: the elapsed seconds and the cumulative sent and error counters read at a tick.

Because the index is a ceiling, the p95 of the ten samples 10, 20, …, 100 ms is 100, the tenth sample. The index is `ceil(0.95 * 10) - 1 = ceil(9.5) - 1 = 9`, and the product `0.95 * 10` is exactly 9.5 in Go's float64 as well. The lemma `Driver.LatencyStatsExample` proves the whole report for this sample: p50 = 50, p95 = 100, p99 = 100, max = 100, avg = 55.

The worker accepts a batch when either count is positive, so a negative count passes validation. `Total` is then smaller than the number of jobs the batch starts. For example, fast = -5 and slow = 3 starts three slow jobs, yet the batch reports `complete` while none are done. The model keeps this behaviour of the code (`Worker.CompleteBeforeJobsFinish`).

## Model

| member | source | states |
|---|---|---|
| Sorting.Sort | pkg/driver/runner.go:233 | the sorted sample has the input's length and the same multiset of values (it is a permutation) |
| Sorting.SortSorted | pkg/driver/runner.go:233 | the sorted sample is ascending |
| Sorting.SortOfSorted | pkg/driver/runner.go:233 | sorting an already ascending sample returns it unchanged |
| Sorting.SortExtremes | pkg/driver/runner.go:243 | the first sorted element is the minimum of the sample and the last is its maximum, and both are samples |
| Sorting.CountAtMostSort | pkg/driver/runner.go:233 | sorting does not change how many samples lie at or below any bound |
| Sorting.SumSort | pkg/driver/runner.go:235-238 | the sum over the sorted sample equals the sum over the input |
| Sorting.SumBounds | pkg/driver/runner.go:244 | n samples between lo and hi add up to a value between n·lo and n·hi |
| NearestRankPercentile.PercentileIdx | pkg/driver/runner.go:248-257 | the index lies in [0, n-1] for n >= 1; for n <= 0 the final clamp yields n - 1 |
| NearestRankPercentile.PercentileIdxRank | pkg/driver/runner.go:248-257 | for 0 < k <= 100 no clamp applies: the index i satisfies i·100 < k·n <= (i+1)·100, i.e. i = ceil(k·n/100) - 1 |
| NearestRankPercentile.PercentileIdxEnds | pkg/driver/runner.go:248-257 | the 0th percentile selects index 0 and the 100th or above selects n - 1 |
| NearestRankPercentile.PercentileIdxMonotone | pkg/driver/runner.go:248-257 | a larger percentile never selects an earlier index |
| NearestRankPercentile.NearestRank | pkg/driver/runner.go:239-241 | the percentile read off the sorted sample is one of the samples |
| NearestRankPercentile.SortPositionRank | pkg/driver/runner.go:233 | position i of the sorted sample has at least i+1 samples at or below it and at most i strictly below it |
| NearestRankPercentile.NearestRankIsRank | pkg/driver/runner.go:239-241 | at least k% of the samples are at or below the percentile and fewer than k% are strictly below it |
| NearestRankPercentile.NearestRankUnique | pkg/driver/runner.go:239-241 | any value with that rank property is the percentile, so the result does not depend on the sort algorithm |
| NearestRankPercentile.NearestRankMonotone | pkg/driver/runner.go:239-241 | a larger percentile of the same sample is never smaller, so p50 <= p95 <= p99 |
| NearestRankPercentile.NearestRankWithinRange | pkg/driver/runner.go:239-242 | every percentile lies between the minimum and the maximum sample |
| Tally.Bump | pkg/driver/runner.go:152-158 | an increment adds the key, sets its count to the old count (0 when missing) plus one, and leaves every other key's count unchanged |
| Tally.TotalBump | pkg/driver/runner.go:152-158 | every increment raises the sum of all counts by exactly one |
| Tally.SumOverRemove | pkg/driver/runner.go:143 | the sum of the counts does not depend on the order in which keys are taken |
| Durations.Millis | pkg/driver/runner.go:148 | reference definition of `Duration.Milliseconds()` for non-negative durations: nanoseconds divided by 10^6, truncated (its properties are stated by the two lemmas below) |
| Durations.MillisTruncates | pkg/driver/runner.go:148 | Millis(ns) is the whole number of milliseconds m with m·10^6 <= ns < (m+1)·10^6 |
| Durations.MillisMonotone | pkg/driver/runner.go:148 | a longer duration never has fewer whole milliseconds |
| Driver.WithDefaults | pkg/driver/runner.go:45-53 | an empty method becomes "GET" and any other is kept; a non-positive concurrency becomes the RPS and a positive one is kept; every other field is unchanged; the result has a non-empty method and, when RPS > 0, a positive concurrency |
| Driver.WithDefaultsIdempotent | pkg/driver/runner.go:45-53 | applying the defaults to an already defaulted configuration changes nothing |
| Driver.TickIntervalNs | pkg/driver/runner.go:64 | for a rate the ticker accepts (1 to 10^9 per second) the dispatch interval d is at least 1 ns and is one second divided by the RPS, truncated: d·rps <= 10^9 < (d+1)·rps |
| Driver.LatenciesMs | pkg/driver/runner.go:148 | the latency sample has one entry per result, in order, each the result's latency in whole milliseconds |
| Driver.RecentWindow | pkg/driver/runner.go:213-216 | the window holds min(50, n) results and is the suffix of the stored results |
| Driver.RecentP95Of | pkg/driver/runner.go:206-227 | reference definition of the live p95: 0 with no results, otherwise the nearest-rank 95th percentile of the recent window's millisecond latencies (its properties are stated by RecentP95InWindow) |
| Driver.RecentP95InWindow | pkg/driver/runner.go:206-227 | the live p95 is 0 with no results; otherwise it is the millisecond latency of one of the last min(50, n) results, with at least 95% of that window at or below it and fewer than 95% strictly below it |
| Driver.LatencyStatsOf | pkg/driver/runner.go:229-246 | reference definition of the latency statistics: all zero for no samples, otherwise p50, p95 and p99 by nearest rank, the last sorted sample as max and the mean as avg (its properties are stated by the lemmas below) |
| Driver.Mean | pkg/driver/runner.go:244 | reference definition of the average: the exact sum divided by the number of samples |
| Driver.MeanTimesCount | pkg/driver/runner.go:235-244 | the average times the number of samples is their sum |
| Driver.MeanWithin | pkg/driver/runner.go:244 | the average of samples that all lie in [lo, hi] lies in [lo, hi] |
| Driver.LatencyStatsOrdered | pkg/driver/runner.go:229-246 | for a non-empty sample p50, p95 and p99 are samples, max is the largest sample, and p50 <= p95 <= p99 <= max |
| Driver.LatencyStatsAverage | pkg/driver/runner.go:235-244 | the average lies between the smallest sample and the reported max |
| Driver.LatencyStatsExample | pkg/driver/runner.go:229-257 | for the samples 10, 20, …, 100 the report is p50 = 50, p95 = 100, p99 = 100, max = 100, avg = 55 |
| Driver.ComputeLatencyStats | pkg/driver/runner.go:229-246 | the sort-then-sum loop returns all zeros for an empty sample, and otherwise the statistics that the other rows characterise |
| Driver.IsFailure | pkg/driver/runner.go:149 | reference definition of a failure: a transport error or an HTTP status of 400 or above |
| Driver.StatusKey | pkg/driver/runner.go:151-158 | reference definition of a result's key in the status distribution: 0 for a transport error, otherwise its status code |
| Driver.CountFailures | pkg/driver/runner.go:149-150 | the number of failures is at most the number of results |
| Driver.CountFailuresExtremes | pkg/driver/runner.go:149-150 | no failure is counted iff every result succeeded; all results are counted iff every result failed (transport error or status >= 400) |
| Driver.Histogram | pkg/driver/runner.go:143-160 | reference definition of the status distribution: the empty map incremented at each result's key, in order |
| Driver.CountKey | pkg/driver/runner.go:151-158 | the number of results filed under a key, at most the number of results |
| Driver.HistogramCount | pkg/driver/runner.go:143-160 | every key of the distribution maps to exactly the number of results filed under it, and a key that is absent has no results |
| Driver.HistogramTotal | pkg/driver/runner.go:143-160 | the counts of the status distribution add up to the number of results |
| Driver.HistogramKeys | pkg/driver/runner.go:143-160 | the distribution's keys are exactly the status codes of the results, with 0 standing for a transport error |
| Driver.HistogramUniform | pkg/driver/runner.go:143-160 | when every result has the same key, the distribution maps that key to the number of results and holds nothing else |
| Driver.RunDataOf | pkg/driver/runner.go:162-179 | reference definition of the report: the configuration echo, the number of results, successes and failures, the latency statistics, the status distribution and the timeseries |
| Driver.RunDataCounts | pkg/driver/runner.go:143-177 | in the report, successes + failures = requests = number of results; the distribution's counts add up to the number of results; its keys are the results' keys; and each key's count is the number of results filed under it |
| Driver.Aggregate | pkg/driver/runner.go:143-178 | the classification loop produces exactly the report of the results: counts, distribution, latency statistics, the configuration echo and the timeseries |
| Driver.IntervalErrorRate | pkg/driver/runner.go:93-96 | reference definition of the interval error rate: errors over requests when requests are positive, otherwise 0 |
| Driver.IntervalErrorRateNonNegative | pkg/driver/runner.go:93-96 | an interval with a non-negative error count has a non-negative error rate |
| Driver.IntervalErrorRateFraction | pkg/driver/runner.go:91-96 | the interval error rate is 0 when no request was counted, and otherwise errors/requests, which lies in [0, 1] when errors <= requests |
| Driver.Runner.constructor | pkg/driver/runner.go:45-53 | a new runner keeps the defaulted configuration and no results |
| Driver.Runner.Record | pkg/driver/runner.go:128-130 | storing a result appends exactly it after the earlier ones, which are unchanged; the configuration is untouched |
| Driver.Runner.Snapshot | pkg/driver/runner.go:138-141 | the copy equals the stored results |
| Driver.Runner.RecentLatencies | pkg/driver/runner.go:209-220 | the loop collects the millisecond latencies of the last min(50, n) results, in order |
| Driver.Runner.RecentP95 | pkg/driver/runner.go:206-227 | the method, which raises the index to 0 but never lowers it, returns the live p95 of the stored results |
| Driver.Runner.Finish | pkg/driver/runner.go:138-178 | the report is the aggregate of a copy of the stored results, with the runner's configuration |
| Driver.Sampler.constructor | pkg/driver/runner.go:75-77 | sampling starts with no points and both last-seen counters at zero |
| Driver.Sampler.Tick | pkg/driver/runner.go:87-105 | a tick appends one point: the given elapsed time, the counter delta as the interval's requests, the runner's live p95, and the interval error rate. It then stores the new counters. Given counters that have not decreased since the last tick, as the source's add-only atomics guarantee, it keeps the invariant that the points' request counts add up to the last-seen sent counter and that no point has a negative request count or error rate |
| Worker.DurationsOf | pkg/worker/dispatcher.go:165-170 | the durations of one job type, in whole milliseconds and in result order, are no more than the results |
| Worker.DurationsOfAppend | pkg/worker/dispatcher.go:165-170 | filtering by type distributes over concatenation of result lists |
| Worker.DurationsOfMembers | pkg/worker/dispatcher.go:165-170 | a value is among the filtered durations iff some result of the requested type has that millisecond duration |
| Worker.PercentileOf | pkg/worker/dispatcher.go:164-183 | the percentile is 0 when no result has the type, and otherwise one of that type's durations |
| Worker.PercentileIsDurationOfType | pkg/worker/dispatcher.go:164-183 | a percentile over a non-empty type is the duration of some result of that type |
| Worker.PercentileWithinRange | pkg/worker/dispatcher.go:164-183 | the percentile lies between the shortest and the longest duration of the type |
| Worker.PercentileIgnoresOtherTypes | pkg/worker/dispatcher.go:165-170 | inserting a result of another type anywhere does not change the percentile |
| Worker.Percentile | pkg/worker/dispatcher.go:164-183 | the filter loop with sort and both clamps returns the percentile specified above |
| Worker.Acceptable | pkg/worker/dispatcher.go:67 | reference definition of validation: a submission is accepted unless both counts are at most 0 |
| Worker.IsComplete | pkg/worker/dispatcher.go:157 | reference definition of the `complete` flag: done has reached total |
| Worker.JobsStarted | pkg/worker/dispatcher.go:104-125 | the jobs a batch starts number at least fast + slow, and exactly fast + slow iff neither count is negative |
| Worker.CompleteAfterAllJobs | pkg/worker/dispatcher.go:157 | once a batch has recorded as many results as it started jobs, its done counter has reached its total, so its status reports it complete |
| Worker.CompleteBeforeJobsFinish | pkg/worker/dispatcher.go:67-76 | fast = -5, slow = 3 is accepted and starts 3 jobs, yet the batch is complete with none done |
| Worker.Batch.constructor | pkg/worker/dispatcher.go:72-78 | a new batch has the given id and counts, Total = fast + slow, no results and Done = 0 |
| Worker.Batch.RecordResult | pkg/worker/dispatcher.go:129-134 | exactly one result with the given type and duration is appended after the unchanged earlier ones, and Done rises by exactly 1 |
| Worker.Batch.Status | pkg/worker/dispatcher.go:145-159 | the status echoes id, Total and Done; `complete` holds iff Done >= Total; and it gives the p95 of the fast and the slow results |
| Worker.FormatInt | pkg/worker/dispatcher.go:71 | the id is a non-empty string of decimal digits, a single digit exactly for numbers below 10, and its last digit is n mod 10 |
| Worker.FormatIntInjective | pkg/worker/dispatcher.go:71 | distinct sequence numbers give distinct ids |
| Worker.NextIdFresh | pkg/worker/dispatcher.go:71 | the next id differs from every id issued before |
| Worker.Registry.constructor | pkg/worker/dispatcher.go:35-39 | the registry starts empty with the sequence counter at zero |
| Worker.Registry.Submit | pkg/worker/dispatcher.go:67-81 | a submission is rejected iff fast <= 0 and slow <= 0, and then nothing changes. Otherwise the counter rises by one, the id is its decimal form, the id was not registered before, and the new batch (Total = fast + slow) is registered under it with nothing else changed |
| Worker.Registry.Lookup | pkg/worker/dispatcher.go:138-143 | a lookup finds nothing iff the id is not registered; otherwise it returns the registered batch |
| Worker.Registry.StatusOf | pkg/worker/dispatcher.go:136-161 | an unregistered id gives not-found; a registered one gives that batch's status, with `complete` iff Done >= Total |

## Left out

- Goroutines, the semaphore and wait group, tickers, context cancellation and mutexes are not modelled. Every operation is modelled as one atomic step, in the order a single thread would run it (pkg/driver/runner.go:56-134, pkg/worker/dispatcher.go:94-127).
- The two separately synchronised updates in `recordResult` (the mutex-guarded append and the atomic increment) are one step here. A reader that interleaves between them, seeing Done one behind the results, is not modelled.
- `doRequest` is not modelled. It performs the HTTP call, and its results enter the model as `RequestResult` values. The run id (clock and random number), `StartedAt`, `Duration`, `Scenario`, `Score` and the optional DB/HPA/batch snapshots of the report are also left out.
- Driver.TickIntervalNs: a rate of 0 (division by zero), a negative rate (negative interval refused by the ticker) or one above 10^9 per second (zero interval refused by the ticker) stops the run with a panic; the model requires a rate in between and does not model the panic.
- Driver.IntervalErrorRateFraction: the [0, 1] bound needs errors <= requests in the interval, which the code does not guarantee. The sampler reads `sent` before `totalErrors` (pkg/driver/runner.go:89-90), and a request finishing between the two reads is counted in the errors but not the requests, so one interval's rate can exceed 1.
- Driver.Sampler.Tick: the elapsed seconds and the two cumulative counters (`sent`, `totalErrors`) are parameters. Clocks and atomics are not part of this model. The source's counters only grow (pkg/driver/runner.go:124-126), so Tick requires each counter to be at least its last-seen value.
- Floating point: percentile fractions are exact integers of percent. The average and the error rate are exact reals, with no float64 rounding. Latencies and `RPS` in a timeseries point are integers rather than float64.
- Sorting.Sort: `sort.Float64s` sorts the caller's slice in place. The model sorts a value and leaves the caller's sequence as it was; no caller reads that slice afterwards.
- Worker.Batch.RecordResult: `Done` is a 32-bit atomic counter in the source. The model counts without bound, so wrap-around past 2^31 - 1 is not modelled.
- Worker.Registry.Submit: `batchSeq` is a 64-bit counter. The model counts without bound, so its overflow is not modelled. Also, `Fast + Slow` is computed without Go's 64-bit `int` wrap-around.
- HTTP handlers, JSON encoding and decoding, `Run`/`envOr`, and the wall-clock `elapsed_ms` of a status reply are not modelled (pkg/worker/dispatcher.go:42-92, 152-161).
- `processBatch` is not modelled. Its worker pools and sleeps only produce `recordResult` calls; its loop counts are kept as `Worker.JobsStarted`.
- Report rendering and file output (pkg/report) are not part of this model.
