/**
 * The measurement-and-reduction core of the load-test driver
 * (pkg/driver/runner.go): configuration defaults, the append-only result
 * store, the recent-window p95 and the per-second timeseries sample taken
 * while a run is in progress, and the reduction of all results into the run
 * report (success/failure split, status-code distribution, latency
 * percentiles).
 *
 * Latencies are whole nanoseconds (`time.Duration`); every statistic is taken
 * over their whole-millisecond values. Averages and error rates are exact
 * rationals (`real`).
 */
module Driver {
  import opened Sorting
  import opened NearestRankPercentile
  import opened Tally
  import opened Durations
  const NanosPerSecond: nat := 1_000_000_000

  /** The live p95 looks at this many most recently appended results. */
  const RecentWindowSize: nat := 50

  /** Run parameters as the caller supplies them. */
  datatype RunConfig = RunConfig(
    targetUrl: string,
    httpMethod: string,
    body: string,
    rps: int,
    durationNs: int,
    concurrency: int)

  /**
   * Outcome of one request: the HTTP status (0 when none was received), the
   * round-trip latency, whether the request failed in transport, and the
   * dispatch time.
   */
  datatype RequestResult = RequestResult(
    statusCode: int,
    latencyNs: nat,
    transportError: bool,
    timestampNs: int)

  /** Full-run latency statistics in milliseconds. */
  datatype LatencyStats = LatencyStats(p50: nat, p95: nat, p99: nat, max: nat, avg: real)

  /** One sample of the live timeseries. */
  datatype TimeseriesDP = TimeseriesDP(elapsed: real, rps: int, latencyP95: nat, errorRate: real)

  /** The part of the configuration echoed into the report. */
  datatype ReportConfig = ReportConfig(targetUrl: string, rps: int, durationNs: int, concurrency: int)

  /** The computed part of a run report. */
  datatype RunData = RunData(
    config: ReportConfig,
    requests: nat,
    successes: nat,
    failures: nat,
    latencies: LatencyStats,
    statusDist: map<int, nat>,
    timeseries: seq<TimeseriesDP>)

  // ---------------------------------------------------------------------------
  // Configuration

  /** The configuration a new runner keeps: method and concurrency filled in when unset. */
  function WithDefaults(cfg: RunConfig): (c: RunConfig)
    ensures cfg.httpMethod == "" ==> c.httpMethod == "GET"
    ensures cfg.httpMethod != "" ==> c.httpMethod == cfg.httpMethod
    ensures cfg.concurrency <= 0 ==> c.concurrency == cfg.rps
    ensures cfg.concurrency > 0 ==> c.concurrency == cfg.concurrency
    ensures c.targetUrl == cfg.targetUrl && c.body == cfg.body
    ensures c.rps == cfg.rps && c.durationNs == cfg.durationNs
    ensures c.httpMethod != ""
    ensures cfg.rps > 0 ==> c.concurrency > 0
  {
    var c := if cfg.httpMethod == "" then cfg.(httpMethod := "GET") else cfg;
    if c.concurrency <= 0 then c.(concurrency := c.rps) else c
  }

  /** Applying the defaults twice changes nothing more. */
  lemma WithDefaultsIdempotent(cfg: RunConfig)
    ensures WithDefaults(WithDefaults(cfg)) == WithDefaults(cfg)
  {
  }

  /**
   * Spacing of the dispatch ticks: one second divided by the rate, truncated
   * to whole nanoseconds. A rate of zero divides by zero and a rate above
   * 10^9 gives a zero interval, which the ticker refuses; both stop the run.
   */
  function TickIntervalNs(cfg: RunConfig): (d: nat)
    requires 0 < cfg.rps <= NanosPerSecond
    ensures d >= 1
    ensures d * cfg.rps <= NanosPerSecond < (d + 1) * cfg.rps
  {
    NanosPerSecond / cfg.rps
  }

  // ---------------------------------------------------------------------------
  // Latencies and the recent window

  /** Millisecond latencies of the results, in order. */
  function LatenciesMs(rs: seq<RequestResult>): (lats: seq<nat>)
    ensures |lats| == |rs|
    ensures forall i :: 0 <= i < |rs| ==> lats[i] == Millis(rs[i].latencyNs)
  {
    seq(|rs|, i requires 0 <= i < |rs| => Millis(rs[i].latencyNs))
  }

  /** The last min(50, n) results, in append order. */
  function RecentWindow(rs: seq<RequestResult>): (w: seq<RequestResult>)
    ensures |w| == if |rs| < RecentWindowSize then |rs| else RecentWindowSize
    ensures rs == rs[..|rs| - |w|] + w
  {
    if |rs| < RecentWindowSize then rs else rs[|rs| - RecentWindowSize..]
  }

  /** The live p95: the nearest-rank 95th percentile of the recent window, 0 when nothing has completed. */
  function RecentP95Of(rs: seq<RequestResult>): nat
  {
    if rs == [] then 0 else NearestRank(LatenciesMs(RecentWindow(rs)), 95)
  }

  /**
   * The live p95 is 0 before any result, and otherwise the millisecond
   * latency of one of the last min(50, n) results, with at least 95% of the
   * window at or below it and fewer than 95% strictly below it.
   */
  lemma RecentP95InWindow(rs: seq<RequestResult>)
    ensures rs == [] ==> RecentP95Of(rs) == 0
    ensures rs != [] ==>
      exists i :: |rs| - |RecentWindow(rs)| <= i < |rs| && Millis(rs[i].latencyNs) == RecentP95Of(rs)
    ensures rs != [] ==>
      var lats := LatenciesMs(RecentWindow(rs));
      && CountAtMost(lats, RecentP95Of(rs)) * 100 >= 95 * |lats|
      && CountBelow(lats, RecentP95Of(rs)) * 100 < 95 * |lats|
  {
    if rs != [] {
      var w := RecentWindow(rs);
      var lats := LatenciesMs(w);
      var p := RecentP95Of(rs);
      assert p in lats;
      var j :| 0 <= j < |lats| && lats[j] == p;
      var start := |rs| - |w|;
      assert rs[start..] == w;
      assert w[j] == rs[start + j];
      NearestRankIsRank(lats, 95);
    }
  }

  /** The live p95 read off the sorted recent latencies. */
  lemma RecentP95Sorted(rs: seq<RequestResult>, lats: seq<nat>)
    requires rs != [] && lats == LatenciesMs(RecentWindow(rs))
    ensures RecentP95Of(rs) == Sort(lats)[PercentileIdx(|lats|, 95)]
  {
  }

  // ---------------------------------------------------------------------------
  // Full-run latency statistics

  /** Statistics of a sample: all zero when empty, else three nearest-rank percentiles, the largest sample and the mean. */
  function LatencyStatsOf(lats: seq<nat>): LatencyStats
  {
    if lats == [] then LatencyStats(0, 0, 0, 0, 0.0)
    else
      LatencyStats(
        NearestRank(lats, 50),
        NearestRank(lats, 95),
        NearestRank(lats, 99),
        Sort(lats)[|lats| - 1],
        Mean(lats))
  }

  /** Arithmetic mean of a non-empty sample. */
  function Mean(lats: seq<nat>): real
    requires |lats| > 0
  {
    Sum(lats) as real / |lats| as real
  }

  /** The mean times the number of samples is their sum. */
  lemma MeanTimesCount(lats: seq<nat>)
    requires |lats| > 0
    ensures Mean(lats) * |lats| as real == Sum(lats) as real
  {
    QuotientTimesDivisor(Sum(lats) as real, |lats| as real);
  }

  lemma QuotientTimesDivisor(x: real, n: real)
    requires n > 0.0
    ensures x / n * n == x
  {
  }

  /** A number whose n-fold is between n*lo and n*hi lies between lo and hi. */
  lemma AverageBetween(avg: real, n: nat, lo: nat, sum: nat, hi: nat)
    requires n > 0 && avg * n as real == sum as real
    requires n * lo <= sum <= n * hi
    ensures lo as real <= avg <= hi as real
  {
    assert (n * lo) as real == n as real * lo as real;
    assert (n * hi) as real == n as real * hi as real;
  }

  /** The mean of samples that all lie between lo and hi lies between lo and hi. */
  lemma MeanWithin(lats: seq<nat>, lo: nat, hi: nat)
    requires |lats| > 0
    requires forall x :: x in lats ==> lo <= x <= hi
    ensures lo as real <= Mean(lats) <= hi as real
  {
    SumBounds(lats, lo, hi);
    MeanTimesCount(lats);
    AverageBetween(Mean(lats), |lats|, lo, Sum(lats), hi);
  }

  /**
   * The percentiles and the maximum of a non-empty sample are samples, they
   * are ordered p50 <= p95 <= p99 <= max, and max is the largest sample.
   */
  lemma LatencyStatsOrdered(lats: seq<nat>)
    requires |lats| > 0
    ensures var st := LatencyStatsOf(lats);
      && st.p50 in lats && st.p95 in lats && st.p99 in lats
      && IsMax(st.max, lats)
      && st.p50 <= st.p95 <= st.p99 <= st.max
  {
    NearestRankMonotone(lats, 50, 95);
    NearestRankMonotone(lats, 95, 99);
    NearestRankWithinRange(lats, 99);
  }

  /**
   * The average of a non-empty sample lies between the smallest sample and
   * the reported maximum.
   */
  lemma LatencyStatsAverage(lats: seq<nat>)
    requires |lats| > 0
    ensures Sort(lats)[0] as real <= LatencyStatsOf(lats).avg <= LatencyStatsOf(lats).max as real
  {
    var st := LatencyStatsOf(lats);
    assert st.avg == Mean(lats) && st.max == Sort(lats)[|lats| - 1];
    SortExtremes(lats);
    MeanWithin(lats, Sort(lats)[0], st.max);
  }

  /**
   * The example [10, 20, ..., 100] ms: p50 = 50 (index 5 - 1), p95 = 100 and
   * p99 = 100 (index ceil(9.5) - 1 = ceil(9.9) - 1 = 9), max = 100, mean 55.
   */
  lemma LatencyStatsExample(s: seq<nat>)
    requires |s| == 10 && forall i :: 0 <= i < |s| ==> s[i] == 10 * (i + 1)
    ensures LatencyStatsOf(s) == LatencyStats(50, 100, 100, 100, 55.0)
  {
    assert Sorted(s);
    SortOfSorted(s);
    ProgressionSum(s, 10);
    assert PercentileIdx(10, 50) == 4;
    assert PercentileIdx(10, 95) == 9;
    assert PercentileIdx(10, 99) == 9;
    MeanTimesCount(s);
    assert Mean(s) * 10.0 == 550.0;
  }

  /** The samples c, 2c, ..., nc add up to c n (n + 1) / 2. */
  lemma {:induction false} ProgressionSum(s: seq<nat>, c: nat)
    requires forall i :: 0 <= i < |s| ==> s[i] == c * (i + 1)
    ensures 2 * Sum(s) == c * |s| * (|s| + 1)
  {
    if s != [] {
      var n := |s|;
      var init := s[..n - 1];
      assert s == init + [s[n - 1]];
      SumAppend(init, [s[n - 1]]);
      assert forall i :: 0 <= i < |init| ==> init[i] == s[i];
      ProgressionSum(init, c);
      assert c * n * (n + 1) == c * (n - 1) * n + 2 * (c * n);
    }
  }

  /** The statistics read off the sorted sample and its sum. */
  lemma LatencyStatsFromSorted(lats: seq<nat>, sum: nat)
    requires |lats| > 0 && sum == Sum(lats)
    ensures var sorted, n := Sort(lats), |lats|;
      LatencyStatsOf(lats) == LatencyStats(
        sorted[PercentileIdx(n, 50)],
        sorted[PercentileIdx(n, 95)],
        sorted[PercentileIdx(n, 99)],
        sorted[n - 1],
        sum as real / n as real)
  {
  }

  /** Reduces a sample to its statistics: sorts, accumulates the sum, reads the percentiles off the sorted sample. */
  method ComputeLatencyStats(latencies: seq<nat>) returns (stats: LatencyStats)
    ensures stats == LatencyStatsOf(latencies)
  {
    if |latencies| == 0 {
      return LatencyStats(0, 0, 0, 0, 0.0);
    }
    var sorted := Sort(latencies);
    var n := |sorted|;
    var sum := 0;
    for i := 0 to n
      invariant sum == Sum(sorted[..i])
    {
      assert sorted[..i + 1] == sorted[..i] + [sorted[i]];
      SumAppend(sorted[..i], [sorted[i]]);
      sum := sum + sorted[i];
    }
    assert sorted[..n] == sorted;
    SumSort(latencies);
    LatencyStatsFromSorted(latencies, sum);
    stats := LatencyStats(
      sorted[PercentileIdx(n, 50)],
      sorted[PercentileIdx(n, 95)],
      sorted[PercentileIdx(n, 99)],
      sorted[n - 1],
      sum as real / n as real);
  }

  // ---------------------------------------------------------------------------
  // End-of-run aggregation

  /** A request failed when it had a transport error or an HTTP status of 400 or above. */
  predicate IsFailure(r: RequestResult)
  {
    r.transportError || r.statusCode >= 400
  }

  /** Key of a result in the status distribution: 0 for a transport error, else its status. */
  function StatusKey(r: RequestResult): int
  {
    if r.transportError then 0 else r.statusCode
  }

  /** Number of failed results. */
  function CountFailures(rs: seq<RequestResult>): (c: nat)
    ensures c <= |rs|
  {
    if rs == [] then 0
    else CountFailures(rs[..|rs| - 1]) + (if IsFailure(rs[|rs| - 1]) then 1 else 0)
  }

  /** No failure is counted exactly when every result succeeded, and all are counted exactly when every result failed. */
  lemma {:induction false} CountFailuresExtremes(rs: seq<RequestResult>)
    ensures CountFailures(rs) == 0 <==> forall i :: 0 <= i < |rs| ==> !IsFailure(rs[i])
    ensures CountFailures(rs) == |rs| <==> forall i :: 0 <= i < |rs| ==> IsFailure(rs[i])
  {
    if rs != [] {
      var init := rs[..|rs| - 1];
      CountFailuresExtremes(init);
      assert forall i :: 0 <= i < |init| ==> init[i] == rs[i];
    }
  }

  /** Status distribution of the results, built one result at a time in order. */
  function Histogram(rs: seq<RequestResult>): map<int, nat>
  {
    if rs == [] then map[] else Bump(Histogram(rs[..|rs| - 1]), StatusKey(rs[|rs| - 1]))
  }

  /** The counts of the status distribution add up to the number of results. */
  lemma {:induction false} HistogramTotal(rs: seq<RequestResult>)
    ensures Total(Histogram(rs)) == |rs|
  {
    if rs == [] {
      TotalEmpty();
    } else {
      HistogramTotal(rs[..|rs| - 1]);
      TotalBump(Histogram(rs[..|rs| - 1]), StatusKey(rs[|rs| - 1]));
    }
  }

  /** The keys of the status distribution are exactly the keys of the results. */
  lemma {:induction false} HistogramKeys(rs: seq<RequestResult>)
    ensures Histogram(rs).Keys == set r | r in rs :: StatusKey(r)
  {
    if rs != [] {
      var init, last := rs[..|rs| - 1], rs[|rs| - 1];
      HistogramKeys(init);
      assert rs == init + [last];
      assert (set r | r in rs :: StatusKey(r)) == (set r | r in init :: StatusKey(r)) + {StatusKey(last)};
    }
  }

  /** When every result has the same key, the distribution holds that one key with the count of results. */
  lemma {:induction false} HistogramUniform(rs: seq<RequestResult>, key: int)
    requires |rs| > 0
    requires forall i :: 0 <= i < |rs| ==> StatusKey(rs[i]) == key
    ensures Histogram(rs) == map[key := |rs|]
  {
    var init := rs[..|rs| - 1];
    if init != [] {
      assert forall i :: 0 <= i < |init| ==> init[i] == rs[i];
      HistogramUniform(init, key);
    }
  }

  /** Number of results filed under `key` in the status distribution. */
  function CountKey(rs: seq<RequestResult>, key: int): (c: nat)
    ensures c <= |rs|
  {
    if rs == [] then 0
    else CountKey(rs[..|rs| - 1], key) + (if StatusKey(rs[|rs| - 1]) == key then 1 else 0)
  }

  /**
   * Each key of the status distribution holds exactly the number of results
   * filed under it (transport errors under 0, the rest under their status),
   * and a key that is absent has no results.
   */
  lemma {:induction false} HistogramCount(rs: seq<RequestResult>, key: int)
    ensures key in Histogram(rs) ==> Histogram(rs)[key] == CountKey(rs, key)
    ensures key !in Histogram(rs) ==> CountKey(rs, key) == 0
  {
    if rs != [] {
      HistogramCount(rs[..|rs| - 1], key);
    }
  }

  /** The report computed from the results and the collected timeseries. */
  function RunDataOf(cfg: RunConfig, results: seq<RequestResult>, timeseries: seq<TimeseriesDP>): RunData
  {
    RunData(
      ReportConfig(cfg.targetUrl, cfg.rps, cfg.durationNs, cfg.concurrency),
      |results|,
      |results| - CountFailures(results),
      CountFailures(results),
      LatencyStatsOf(LatenciesMs(results)),
      Histogram(results),
      timeseries)
  }

  /**
   * The totals of a report add up: successes and failures partition the
   * requests, the requests are the results, and the status distribution
   * counts every result once, under its own key.
   */
  lemma RunDataCounts(cfg: RunConfig, results: seq<RequestResult>, timeseries: seq<TimeseriesDP>)
    ensures var d := RunDataOf(cfg, results, timeseries);
      && d.successes + d.failures == d.requests == |results|
      && Total(d.statusDist) == |results|
      && d.statusDist.Keys == (set r | r in results :: StatusKey(r))
      && forall key :: key in d.statusDist ==> d.statusDist[key] == CountKey(results, key)
  {
    HistogramTotal(results);
    HistogramKeys(results);
    forall key | key in Histogram(results)
      ensures Histogram(results)[key] == CountKey(results, key)
    {
      HistogramCount(results, key);
    }
  }

  /** Extending the results by one extends each running aggregate by that result alone. */
  lemma AggregateStep(rs: seq<RequestResult>, i: nat)
    requires i < |rs|
    ensures LatenciesMs(rs[..i + 1]) == LatenciesMs(rs[..i]) + [Millis(rs[i].latencyNs)]
    ensures CountFailures(rs[..i + 1]) == CountFailures(rs[..i]) + (if IsFailure(rs[i]) then 1 else 0)
    ensures Histogram(rs[..i + 1]) == Bump(Histogram(rs[..i]), StatusKey(rs[i]))
  {
    assert rs[..i + 1][..i] == rs[..i];
  }

  /** Classifies every result, counts successes and failures, and builds the status distribution and the latency sample. */
  method Aggregate(cfg: RunConfig, results: seq<RequestResult>, timeseries: seq<TimeseriesDP>)
    returns (data: RunData)
    ensures data == RunDataOf(cfg, results, timeseries)
  {
    var statusDist: map<int, nat> := map[];
    var latencies: seq<nat> := [];
    var successes, failures := 0, 0;
    for i := 0 to |results|
      invariant latencies == LatenciesMs(results[..i])
      invariant failures == CountFailures(results[..i])
      invariant successes + failures == i
      invariant statusDist == Histogram(results[..i])
    {
      var res := results[i];
      AggregateStep(results, i);
      latencies := latencies + [Millis(res.latencyNs)];
      if res.transportError || res.statusCode >= 400 {
        failures := failures + 1;
        if res.transportError {
          statusDist := Bump(statusDist, 0);
        } else {
          statusDist := Bump(statusDist, res.statusCode);
        }
      } else {
        successes := successes + 1;
        statusDist := Bump(statusDist, res.statusCode);
      }
    }
    assert results[..|results|] == results;
    var stats := ComputeLatencyStats(latencies);
    data := RunData(
      ReportConfig(cfg.targetUrl, cfg.rps, cfg.durationNs, cfg.concurrency),
      |results|, successes, failures, stats, statusDist, timeseries);
  }

  // ---------------------------------------------------------------------------
  // Timeseries sampling

  /** Error rate of one sampling interval: errors over requests, 0 when no request was counted. */
  function IntervalErrorRate(reqs: int, errs: int): real
  {
    if reqs > 0 then errs as real / reqs as real else 0.0
  }

  /**
   * The interval error rate is 0 for an interval without requests, else the
   * fraction of its requests that failed, a value in [0, 1] whenever the
   * error count does not exceed the request count.
   */
  lemma IntervalErrorRateFraction(reqs: int, errs: int)
    ensures reqs <= 0 ==> IntervalErrorRate(reqs, errs) == 0.0
    ensures reqs > 0 ==> IntervalErrorRate(reqs, errs) * reqs as real == errs as real
    ensures 0 <= errs <= reqs ==> 0.0 <= IntervalErrorRate(reqs, errs) <= 1.0
  {
    if reqs > 0 {
      FractionFacts(errs as real, reqs as real);
    }
  }

  /** An interval without negative error count has a non-negative error rate. */
  lemma IntervalErrorRateNonNegative(reqs: int, errs: int)
    requires errs >= 0
    ensures IntervalErrorRate(reqs, errs) >= 0.0
  {
  }

  lemma FractionFacts(x: real, n: real)
    requires n > 0.0
    ensures x / n * n == x
    ensures 0.0 <= x <= n ==> 0.0 <= x / n <= 1.0
  {
  }

  /** Sum of the per-interval request counts of a timeseries. */
  function TotalRps(ts: seq<TimeseriesDP>): int
  {
    if ts == [] then 0 else TotalRps(ts[..|ts| - 1]) + ts[|ts| - 1].rps
  }

  /** Appending a point adds its request count to the total. */
  lemma TotalRpsSnoc(ts: seq<TimeseriesDP>, p: TimeseriesDP)
    ensures TotalRps(ts + [p]) == TotalRps(ts) + p.rps
  {
    assert (ts + [p])[..|ts|] == ts;
  }

  /** A load-test runner: its configuration and the results appended so far. */
  class Runner {
    var config: RunConfig
    var results: seq<RequestResult>

    constructor (cfg: RunConfig)
      ensures config == WithDefaults(cfg)
      ensures results == []
    {
      config := WithDefaults(cfg);
      results := [];
    }

    /** Stores one completed request after those already stored. */
    method Record(result: RequestResult)
      modifies this`results
      ensures results == old(results) + [result]
    {
      results := results + [result];
    }

    /** A copy of every stored result, in append order. */
    method Snapshot() returns (copy: seq<RequestResult>)
      ensures copy == results
    {
      copy := results;
    }

    /** The millisecond latencies of the last min(50, n) stored results, in append order. */
    method RecentLatencies() returns (lats: seq<nat>)
      ensures lats == LatenciesMs(RecentWindow(results))
    {
      var rs := results;
      var n := |rs|;
      var start := n - RecentWindowSize;
      if start < 0 {
        start := 0;
      }
      lats := [];
      var i := start;
      while i < n
        invariant start <= i <= n
        invariant |lats| == i - start
        invariant forall j :: 0 <= j < |lats| ==> lats[j] == Millis(rs[start + j].latencyNs)
      {
        lats := lats + [Millis(rs[i].latencyNs)];
        i := i + 1;
      }
      assert rs[start..] == RecentWindow(rs);
    }

    /**
     * The live p95 over the last min(50, n) stored results: 0 when nothing is
     * stored, else sorts their millisecond latencies and reads index
     * ceil(0.95 m) - 1, raised to 0 but never lowered (it is always below m).
     */
    method RecentP95() returns (p95: nat)
      ensures p95 == RecentP95Of(results)
    {
      if |results| == 0 {
        return 0;
      }
      var lats := RecentLatencies();
      var sorted := Sort(lats);
      var m := |sorted|;
      var idx := (95 * m + 99) / 100 - 1;
      if idx < 0 {
        idx := 0;
      }
      assert idx == PercentileIdx(m, 95);
      RecentP95Sorted(results, lats);
      p95 := sorted[idx];
    }

    /** Copies the stored results and reduces them, with the collected timeseries, into the report. */
    method Finish(timeseries: seq<TimeseriesDP>) returns (data: RunData)
      ensures data == RunDataOf(config, results, timeseries)
    {
      var snapshot := Snapshot();
      data := Aggregate(config, snapshot, timeseries);
    }
  }

  /**
   * The sampler's state during a run: the points emitted so far and the
   * cumulative sent and error counters seen at the previous sample.
   */
  class Sampler {
    var timeseries: seq<TimeseriesDP>
    var lastCount: int
    var lastErrors: int

    /**
     * The interval request counts of the emitted points add up to the last
     * cumulative count seen, and no point has a negative request count or
     * error rate.
     */
    ghost predicate Valid()
      reads this
    {
      && TotalRps(timeseries) == lastCount
      && forall p :: p in timeseries ==> p.rps >= 0 && p.errorRate >= 0.0
    }

    constructor ()
      ensures Valid()
      ensures timeseries == [] && lastCount == 0 && lastErrors == 0
    {
      timeseries := [];
      lastCount := 0;
      lastErrors := 0;
    }

    /**
     * One sampling tick, given the seconds since the run started and the
     * cumulative sent and error counters read now: appends one point with
     * the interval's request count, the live p95 and the interval's error
     * rate, then remembers the counters. Both counters only ever grow.
     */
    method Tick(runner: Runner, elapsed: real, currentTotal: int, currentErrors: int)
      requires Valid()
      requires currentTotal >= lastCount && currentErrors >= lastErrors
      modifies this
      ensures Valid()
      ensures timeseries == old(timeseries) + [TimeseriesDP(
        elapsed,
        currentTotal - old(lastCount),
        RecentP95Of(runner.results),
        IntervalErrorRate(currentTotal - old(lastCount), currentErrors - old(lastErrors)))]
      ensures lastCount == currentTotal && lastErrors == currentErrors
    {
      var intervalReqs := currentTotal - lastCount;
      var intervalErrs := currentErrors - lastErrors;
      var errRate := IntervalErrorRate(intervalReqs, intervalErrs);
      IntervalErrorRateNonNegative(intervalReqs, intervalErrs);
      var p95 := runner.RecentP95();
      var point := TimeseriesDP(elapsed, intervalReqs, p95, errRate);
      TotalRpsSnoc(timeseries, point);
      timeseries := timeseries + [point];
      lastCount := currentTotal;
      lastErrors := currentErrors;
      assert TotalRps(timeseries) == lastCount;
    }
  }
}
