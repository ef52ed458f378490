/**
 * The nearest-rank percentile used by the load driver (full-run and
 * recent-window statistics) and by the worker demo's per-type latency report.
 * A percentile fraction `pct` is written as an integer number of percent `k`
 * (0.50, 0.95 and 0.99 become 50, 95 and 99), and `ceil(pct * n)` is computed
 * exactly as `ceil(k * n / 100)`.
 */
module NearestRankPercentile {
  import opened Sorting

  /**
   * Index into the ascending samples: `ceil(k * n / 100) - 1`, raised to 0 when
   * negative and then lowered to `n - 1` when at or past the end.
   */
  function PercentileIdx(n: int, k: nat): (idx: int)
    ensures n >= 1 ==> 0 <= idx < n
    ensures n <= 0 ==> idx == n - 1
  {
    var rank := (k * n + 99) / 100;
    var idx := if rank - 1 < 0 then 0 else rank - 1;
    if idx >= n then n - 1 else idx
  }

  /** Multiplying by a non-negative factor keeps the order. */
  lemma {:induction false} MulMonotone(a: int, b: int, n: int)
    requires a <= b && n >= 0
    ensures a * n <= b * n
    decreases n
  {
    if n > 0 {
      MulMonotone(a, b, n - 1);
      assert a * n == a * (n - 1) + a;
      assert b * n == b * (n - 1) + b;
    }
  }

  lemma CeilMonotone(x: int, y: int)
    requires x <= y
    ensures (x + 99) / 100 <= (y + 99) / 100
  {
  }

  /** `(x + 99) / 100` is the ceiling of x / 100. */
  lemma CeilHundredth(x: int)
    ensures ((x + 99) / 100 - 1) * 100 < x <= (x + 99) / 100 * 100
  {
  }

  /**
   * For 0 < k <= 100 no clamp applies: the index is the 0-based nearest
   * rank, the one position i with i < k n / 100 <= i + 1.
   */
  lemma PercentileIdxRank(n: int, k: nat)
    requires n >= 1 && 0 < k <= 100
    ensures PercentileIdx(n, k) * 100 < k * n <= (PercentileIdx(n, k) + 1) * 100
  {
    MulMonotone(1, k, n);
    MulMonotone(k, 100, n);
    CeilHundredth(k * n);
  }

  /** The 0th percentile selects the first sample and the 100th or above the last. */
  lemma PercentileIdxEnds(n: int, k: nat)
    requires n >= 1
    ensures k == 0 ==> PercentileIdx(n, k) == 0
    ensures k >= 100 ==> PercentileIdx(n, k) == n - 1
  {
    if k >= 100 {
      MulMonotone(100, k, n);
    }
  }

  /** A larger percentile never selects an earlier index. */
  lemma PercentileIdxMonotone(n: int, k1: nat, k2: nat)
    requires k1 <= k2
    ensures PercentileIdx(n, k1) <= PercentileIdx(n, k2)
  {
    if n >= 1 {
      MulMonotone(k1, k2, n);
      CeilMonotone(k1 * n, k2 * n);
    }
  }

  /** The nearest-rank k-th percentile of a non-empty sample. */
  function NearestRank(s: seq<nat>, k: nat): (p: nat)
    requires |s| > 0
    ensures p in s
  {
    var t := Sort(s);
    var p := t[PercentileIdx(|s|, k)];
    assert p in multiset(t);
    p
  }

  /** Position i of the sorted sample has at least i+1 samples at or below it and at most i strictly below. */
  lemma SortPositionRank(s: seq<nat>, i: nat)
    requires i < |s|
    ensures CountAtMost(s, Sort(s)[i]) >= i + 1
    ensures CountBelow(s, Sort(s)[i]) <= i
  {
    var t := Sort(s);
    SortSorted(s);
    SortedRankAtMost(t, i);
    SortedRankBelow(t, i);
    CountAtMostSort(s, t[i]);
    CountBelowSort(s, t[i]);
  }

  /**
   * The defining property of the nearest-rank percentile, stated without any
   * reference to sorting: at least k% of the samples are at most p, and fewer
   * than k% are strictly below p.
   */
  lemma NearestRankIsRank(s: seq<nat>, k: nat)
    requires |s| > 0 && 0 < k <= 100
    ensures CountAtMost(s, NearestRank(s, k)) * 100 >= k * |s|
    ensures CountBelow(s, NearestRank(s, k)) * 100 < k * |s|
  {
    var i := PercentileIdx(|s|, k);
    PercentileIdxRank(|s|, k);
    var p := NearestRank(s, k);
    assert p == Sort(s)[i];
    SortPositionRank(s, i);
    var atMost, below := CountAtMost(s, p), CountBelow(s, p);
    ScaleRank(i, k * |s|, atMost, below);
  }

  lemma ScaleRank(i: int, target: int, atMost: int, below: int)
    requires i * 100 < target <= (i + 1) * 100
    requires atMost >= i + 1 && below <= i
    ensures atMost * 100 >= target && below * 100 < target
  {
  }

  /** Exactly one value has the rank property, so the percentile does not depend on the sort used. */
  lemma NearestRankUnique(s: seq<nat>, k: nat, q: nat)
    requires |s| > 0 && 0 < k <= 100
    requires CountAtMost(s, q) * 100 >= k * |s|
    requires CountBelow(s, q) * 100 < k * |s|
    ensures q == NearestRank(s, k)
  {
    var p := NearestRank(s, k);
    NearestRankIsRank(s, k);
    if q < p {
      CountAtMostMonotone(s, q, p as int - 1);
    } else if p < q {
      CountAtMostMonotone(s, p, q as int - 1);
    }
  }

  /** A larger percentile of the same sample is never smaller. */
  lemma NearestRankMonotone(s: seq<nat>, k1: nat, k2: nat)
    requires |s| > 0 && k1 <= k2
    ensures NearestRank(s, k1) <= NearestRank(s, k2)
  {
    PercentileIdxMonotone(|s|, k1, k2);
    SortSorted(s);
  }

  /** Every percentile lies between the minimum and the maximum sample. */
  lemma NearestRankWithinRange(s: seq<nat>, k: nat)
    requires |s| > 0
    ensures IsMin(Sort(s)[0], s) && Sort(s)[0] <= NearestRank(s, k)
    ensures IsMax(Sort(s)[|s| - 1], s) && NearestRank(s, k) <= Sort(s)[|s| - 1]
  {
    SortExtremes(s);
  }
}
