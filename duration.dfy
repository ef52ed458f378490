/**
 * Go's `time.Duration` is a count of nanoseconds; both the driver and the
 * worker demo report durations as `Duration.Milliseconds()`, the whole
 * number of milliseconds, truncated.
 */
module Durations {

  const NanosPerMilli: nat := 1_000_000

  /** Whole milliseconds of a non-negative duration in nanoseconds, truncated. */
  function Millis(ns: nat): nat
  {
    ns / NanosPerMilli
  }

  /** Millis(ns) is the number of whole milliseconds in ns: the one m with m ms <= ns < (m + 1) ms. */
  lemma MillisTruncates(ns: nat)
    ensures Millis(ns) * NanosPerMilli <= ns < (Millis(ns) + 1) * NanosPerMilli
  {
  }

  /** A longer duration never has fewer whole milliseconds. */
  lemma MillisMonotone(a: nat, b: nat)
    requires a <= b
    ensures Millis(a) <= Millis(b)
  {
  }
}
