/**
 * The bookkeeping of the worker bulkhead demo (pkg/worker/dispatcher.go):
 * per-type latency percentiles over a batch's job results, a batch that
 * records finished jobs, and the registry that hands out sequential batch
 * ids and answers status lookups.
 *
 * Job durations are whole nanoseconds (`time.Duration`); percentiles are
 * taken over their whole-millisecond values.
 */
module Worker {
  import opened Sorting
  import opened NearestRankPercentile
  import opened Durations

  /** Completion record of one job: its type ("fast" or "slow") and how long it ran. */
  datatype JobResult = JobResult(jobType: string, durationNs: nat)

  /** What a status lookup reports about a batch. */
  datatype BatchStatus = BatchStatus(
    batchId: string,
    total: int,
    done: int,
    complete: bool,
    fastP95: nat,
    slowP95: nat)

  /** Answer to a status lookup: the batch's status, or not found. */
  datatype StatusReply = NotFound | Found(status: BatchStatus)

  /** The percentile reported per job type. */
  const StatusPercentile: nat := 95

  // ---------------------------------------------------------------------------
  // Per-type percentile

  /** Millisecond durations of the results of type `t`, in result order. */
  function DurationsOf(rs: seq<JobResult>, t: string): (ds: seq<nat>)
    ensures |ds| <= |rs|
  {
    if rs == [] then []
    else
      var last := rs[|rs| - 1];
      DurationsOf(rs[..|rs| - 1], t) + (if last.jobType == t then [Millis(last.durationNs)] else [])
  }

  /** Filtering distributes over concatenation. */
  lemma {:induction false} DurationsOfAppend(a: seq<JobResult>, b: seq<JobResult>, t: string)
    ensures DurationsOf(a + b, t) == DurationsOf(a, t) + DurationsOf(b, t)
    decreases |b|
  {
    if b == [] {
      assert a + b == a;
    } else {
      var init := b[..|b| - 1];
      assert (a + b)[..|a + b| - 1] == a + init;
      DurationsOfAppend(a, init, t);
    }
  }

  /** A value is a filtered duration exactly when some result of type `t` has it. */
  lemma {:induction false} DurationsOfMembers(rs: seq<JobResult>, t: string, d: nat)
    ensures d in DurationsOf(rs, t) <==>
      exists i :: 0 <= i < |rs| && rs[i].jobType == t && Millis(rs[i].durationNs) == d
  {
    if rs != [] {
      var init, last := rs[..|rs| - 1], rs[|rs| - 1];
      DurationsOfMembers(init, t, d);
      if d in DurationsOf(rs, t) && d !in DurationsOf(init, t) {
        assert rs[|rs| - 1].jobType == t && Millis(rs[|rs| - 1].durationNs) == d;
      }
      if exists i :: 0 <= i < |rs| && rs[i].jobType == t && Millis(rs[i].durationNs) == d {
        var i :| 0 <= i < |rs| && rs[i].jobType == t && Millis(rs[i].durationNs) == d;
        if i < |init| {
          assert init[i] == rs[i];
        }
      }
    }
  }

  /** The k-th percentile of the durations of type `t`: 0 when there are none, else their nearest rank. */
  function PercentileOf(rs: seq<JobResult>, t: string, k: nat): (p: nat)
    ensures DurationsOf(rs, t) == [] ==> p == 0
    ensures DurationsOf(rs, t) != [] ==> p in DurationsOf(rs, t)
  {
    var ds := DurationsOf(rs, t);
    if ds == [] then 0 else NearestRank(ds, k)
  }

  /** A non-zero-sample percentile is the duration of some result of the requested type. */
  lemma PercentileIsDurationOfType(rs: seq<JobResult>, t: string, k: nat)
    requires DurationsOf(rs, t) != []
    ensures exists i :: 0 <= i < |rs| && rs[i].jobType == t && Millis(rs[i].durationNs) == PercentileOf(rs, t, k)
  {
    DurationsOfMembers(rs, t, PercentileOf(rs, t, k));
  }

  /** The percentile lies between the shortest and the longest duration of the requested type. */
  lemma PercentileWithinRange(rs: seq<JobResult>, t: string, k: nat)
    requires DurationsOf(rs, t) != []
    ensures forall d :: d in DurationsOf(rs, t) ==> Sort(DurationsOf(rs, t))[0] <= d
    ensures Sort(DurationsOf(rs, t))[0] <= PercentileOf(rs, t, k) <= Sort(DurationsOf(rs, t))[|DurationsOf(rs, t)| - 1]
    ensures forall d :: d in DurationsOf(rs, t) ==> d <= Sort(DurationsOf(rs, t))[|DurationsOf(rs, t)| - 1]
  {
    NearestRankWithinRange(DurationsOf(rs, t), k);
  }

  /** Inserting a result of another type anywhere leaves the percentile of type `t` unchanged. */
  lemma PercentileIgnoresOtherTypes(a: seq<JobResult>, r: JobResult, b: seq<JobResult>, t: string, k: nat)
    requires r.jobType != t
    ensures PercentileOf(a + [r] + b, t, k) == PercentileOf(a + b, t, k)
  {
    assert [r][..0] == [];
    assert DurationsOf([r], t) == [];
    DurationsOfAppend(a, [r], t);
    assert DurationsOf(a + [r], t) == DurationsOf(a, t);
    DurationsOfAppend(a + [r], b, t);
    DurationsOfAppend(a, b, t);
    assert DurationsOf(a + [r] + b, t) == DurationsOf(a + b, t);
  }

  /**
   * Collects the millisecond durations of type `jobType`, returns 0 when
   * there are none, else sorts them and reads index ceil(k n / 100) - 1,
   * raised to 0 and lowered to n - 1.
   */
  method Percentile(results: seq<JobResult>, jobType: string, k: nat) returns (p: nat)
    ensures p == PercentileOf(results, jobType, k)
  {
    var durations: seq<nat> := [];
    for i := 0 to |results|
      invariant durations == DurationsOf(results[..i], jobType)
    {
      assert results[..i + 1][..i] == results[..i];
      if results[i].jobType == jobType {
        durations := durations + [Millis(results[i].durationNs)];
      }
    }
    assert results[..|results|] == results;
    if |durations| == 0 {
      return 0;
    }
    var sorted := Sort(durations);
    var n := |sorted|;
    var idx := (k * n + 99) / 100 - 1;
    if idx < 0 {
      idx := 0;
    }
    if idx >= n {
      idx := n - 1;
    }
    assert idx == PercentileIdx(n, k);
    p := sorted[idx];
  }

  // ---------------------------------------------------------------------------
  // Batches

  /** Validation of a submission: rejected when neither count is positive. */
  predicate Acceptable(fast: int, slow: int)
  {
    !(fast <= 0 && slow <= 0)
  }

  /** A batch is reported complete once its done counter reaches its total. */
  predicate IsComplete(done: int, total: int)
  {
    done >= total
  }

  /** Jobs the batch actually starts: its fast loop and its slow loop each run count times, none for a count below one. */
  function JobsStarted(fast: int, slow: int): (n: nat)
    ensures n >= fast + slow
    ensures n == fast + slow <==> fast >= 0 && slow >= 0
  {
    (if fast > 0 then fast else 0) + (if slow > 0 then slow else 0)
  }


  /**
   * A negative count is accepted when the other is positive, and then the
   * total is below the number of jobs started, so the batch is reported
   * complete before its last jobs finish: fast = -5, slow = 3 starts three
   * slow jobs but is complete with none done.
   */
  lemma CompleteBeforeJobsFinish()
    ensures Acceptable(-5, 3)
    ensures JobsStarted(-5, 3) == 3
    ensures IsComplete(0, -5 + 3)
  {
  }

  /** A submitted batch: its counts, the results recorded so far and the done counter. */
  class Batch {
    const id: string
    const fast: int
    const slow: int
    const total: int
    var results: seq<JobResult>
    var done: int

    /** Every recorded result has been counted once, and the total is the sum of the counts. */
    ghost predicate Valid()
      reads this
    {
      done == |results| && total == fast + slow
    }

    constructor (id: string, fast: int, slow: int)
      ensures this.id == id && this.fast == fast && this.slow == slow
      ensures total == fast + slow
      ensures results == [] && done == 0
      ensures Valid()
    {
      this.id := id;
      this.fast := fast;
      this.slow := slow;
      this.total := fast + slow;
      results := [];
      done := 0;
    }

    /** Appends one job's result after the earlier ones and counts it. */
    method RecordResult(jobType: string, durationNs: nat)
      requires Valid()
      modifies this
      ensures Valid()
      ensures results == old(results) + [JobResult(jobType, durationNs)]
      ensures done == old(done) + 1
    {
      results := results + [JobResult(jobType, durationNs)];
      done := done + 1;
    }

    /** The batch's status: its counts, whether it is complete, and the p95 of each job type. */
    method Status() returns (s: BatchStatus)
      ensures s.batchId == id && s.total == total && s.done == done
      ensures s.complete <==> done >= total
      ensures s.fastP95 == PercentileOf(results, "fast", StatusPercentile)
      ensures s.slowP95 == PercentileOf(results, "slow", StatusPercentile)
    {
      var d := done;
      var snapshot := results;
      var fastP95 := Percentile(snapshot, "fast", StatusPercentile);
      var slowP95 := Percentile(snapshot, "slow", StatusPercentile);
      s := BatchStatus(id, total, d, IsComplete(d, total), fastP95, slowP95);
    }
  }

  /** Once every job the batch started has been recorded, its status reports it complete. */
  lemma CompleteAfterAllJobs(b: Batch)
    requires b.Valid()
    requires |b.results| >= JobsStarted(b.fast, b.slow)
    ensures IsComplete(b.done, b.total)
  {
  }

  // ---------------------------------------------------------------------------
  // Batch ids

  /** The decimal digit character for 0 <= d < 10. */
  function DigitChar(d: nat): (c: char)
    requires d < 10
    ensures '0' <= c <= '9'
    ensures c as int - '0' as int == d
  {
    (d + '0' as int) as char
  }

  /** Decimal representation of a natural number, without leading zeros. */
  function FormatInt(n: nat): (s: string)
    ensures |s| >= 1
    ensures n < 10 <==> |s| == 1
    ensures forall i :: 0 <= i < |s| ==> '0' <= s[i] <= '9'
    ensures s[|s| - 1] as int - '0' as int == n % 10
  {
    if n < 10 then [DigitChar(n)] else FormatInt(n / 10) + [DigitChar(n % 10)]
  }

  /** Distinct numbers have distinct decimal representations. */
  lemma {:induction false} FormatIntInjective(a: nat, b: nat)
    requires FormatInt(a) == FormatInt(b)
    ensures a == b
  {
    if a >= 10 && b >= 10 {
      var sa, sb := FormatInt(a), FormatInt(b);
      assert sa[..|sa| - 1] == FormatInt(a / 10);
      assert sb[..|sb| - 1] == FormatInt(b / 10);
      FormatIntInjective(a / 10, b / 10);
    }
  }

  /** The ids handed out once the sequence counter has reached n. */
  ghost function IssuedIds(n: int): set<string>
  {
    set j | 1 <= j <= n :: FormatInt(j)
  }

  /** The next id is not among those already issued. */
  lemma NextIdFresh(n: nat)
    ensures FormatInt(n + 1) !in IssuedIds(n)
  {
    if FormatInt(n + 1) in IssuedIds(n) {
      var j :| 1 <= j <= n && FormatInt(j) == FormatInt(n + 1);
      FormatIntInjective(j, n + 1);
    }
  }

  /** The batch registry: batches by id, and the counter the ids are drawn from. */
  class Registry {
    var batches: map<string, Batch>
    var batchSeq: nat

    /** Every registered id is an issued id, and each batch is registered under its own id. */
    ghost predicate Valid()
      reads this
    {
      && batches.Keys <= IssuedIds(batchSeq)
      && forall id :: id in batches ==> batches[id].id == id
    }

    constructor ()
      ensures Valid()
      ensures batches == map[] && batchSeq == 0
    {
      batches := map[];
      batchSeq := 0;
    }

    /**
     * Submits a batch of `fast` and `slow` jobs. Rejected (null) when neither
     * count is positive, and then nothing changes; otherwise the counter
     * advances, its new value in decimal is the batch's id, which was not
     * registered before, and the new batch is registered under it.
     */
    method Submit(fast: int, slow: int) returns (b: Batch?)
      requires Valid()
      modifies this
      ensures Valid()
      ensures b == null <==> !Acceptable(fast, slow)
      ensures b == null ==> batches == old(batches) && batchSeq == old(batchSeq)
      ensures b != null ==>
        && fresh(b)
        && batchSeq == old(batchSeq) + 1
        && b.id == FormatInt(batchSeq)
        && b.id !in old(batches)
        && batches == old(batches)[b.id := b]
        && b.fast == fast && b.slow == slow && b.total == fast + slow
        && b.results == [] && b.done == 0
    {
      if !Acceptable(fast, slow) {
        return null;
      }
      NextIdFresh(batchSeq);
      batchSeq := batchSeq + 1;
      var id := FormatInt(batchSeq);
      b := new Batch(id, fast, slow);
      batches := batches[id := b];
    }

    /** The batch registered under `id`, or null when there is none. */
    method Lookup(id: string) returns (b: Batch?)
      ensures b == null <==> id !in batches
      ensures b != null ==> b == batches[id]
    {
      if id in batches {
        b := batches[id];
      } else {
        b := null;
      }
    }

    /** Status lookup: not found for an unregistered id, else the batch's status. */
    method StatusOf(id: string) returns (reply: StatusReply)
      requires Valid()
      ensures reply == NotFound <==> id !in batches
      ensures reply.Found? ==>
        var b := batches[id];
        && reply.status.batchId == id
        && reply.status.total == b.total
        && reply.status.done == b.done
        && (reply.status.complete <==> b.done >= b.total)
        && reply.status.fastP95 == PercentileOf(b.results, "fast", StatusPercentile)
        && reply.status.slowP95 == PercentileOf(b.results, "slow", StatusPercentile)
    {
      var b := Lookup(id);
      if b == null {
        return NotFound;
      }
      var s := b.Status();
      reply := Found(s);
    }
  }
}
