/**
 * Ascending sort of latency samples and counting of samples at or below a
 * bound. Both percentile computations of the load driver sort their samples
 * with the standard library's float sort before indexing; here that sort is
 * a pure insertion sort whose result is proved sorted and a permutation of
 * its input, so any other correct sort yields the same sequence.
 */
module Sorting {

  /** Every element is at most every later element. */
  predicate Sorted(s: seq<nat>)
  {
    forall i, j :: 0 <= i <= j < |s| ==> s[i] <= s[j]
  }

  /** Inserts `x` into `t` before the first element not smaller than it. */
  function Insert(x: nat, t: seq<nat>): (r: seq<nat>)
    ensures |r| == |t| + 1
    ensures multiset(r) == multiset(t) + multiset{x}
  {
    if t == [] then [x]
    else if x <= t[0] then [x] + t
    else
      assert t == [t[0]] + t[1..];
      [t[0]] + Insert(x, t[1..])
  }

  /** Putting an element no larger than any element in front of a sorted sequence keeps it sorted. */
  lemma SortedCons(h: nat, r: seq<nat>)
    requires Sorted(r)
    requires forall y :: y in r ==> h <= y
    ensures Sorted([h] + r)
  {
    var s := [h] + r;
    forall i, j | 0 <= i <= j < |s| ensures s[i] <= s[j] {
      if i == 0 {
        if j > 0 {
          assert s[j] == r[j - 1];
          assert r[j - 1] in r;
        }
      } else {
        assert s[i] == r[i - 1] && s[j] == r[j - 1];
      }
    }
  }

  /** Inserting into a sorted sequence keeps it sorted. */
  lemma {:induction false} InsertSorted(x: nat, t: seq<nat>)
    requires Sorted(t)
    ensures Sorted(Insert(x, t))
  {
    if t == [] {
    } else if x <= t[0] {
      forall y | y in t ensures x <= y {
        var k :| 0 <= k < |t| && t[k] == y;
      }
      SortedCons(x, t);
    } else {
      var rest := Insert(x, t[1..]);
      assert Sorted(t[1..]);
      InsertSorted(x, t[1..]);
      forall y | y in rest ensures t[0] <= y {
        assert y in multiset(rest);
        if y != x {
          assert y in multiset(t[1..]);
          var k :| 0 <= k < |t[1..]| && t[1..][k] == y;
          assert t[k + 1] == y;
        }
      }
      SortedCons(t[0], rest);
    }
  }

  /** Ascending insertion sort. */
  function Sort(s: seq<nat>): (r: seq<nat>)
    ensures |r| == |s|
    ensures multiset(r) == multiset(s)
  {
    if s == [] then []
    else
      assert s == [s[0]] + s[1..];
      Insert(s[0], Sort(s[1..]))
  }

  /** The result of Sort is ascending. */
  lemma {:induction false} SortSorted(s: seq<nat>)
    ensures Sorted(Sort(s))
  {
    if s != [] {
      SortSorted(s[1..]);
      InsertSorted(s[0], Sort(s[1..]));
    }
  }

  /** Sorting an already ascending sequence gives it back unchanged. */
  lemma {:induction false} SortOfSorted(s: seq<nat>)
    requires Sorted(s)
    ensures Sort(s) == s
  {
    if s != [] {
      assert Sorted(s[1..]);
      SortOfSorted(s[1..]);
      assert s == [s[0]] + s[1..];
    }
  }

  /** In a sorted non-empty sequence the first element is the minimum and the last the maximum. */
  lemma SortedEnds(s: seq<nat>)
    requires Sorted(s) && |s| > 0
    ensures forall x :: x in s ==> s[0] <= x <= s[|s| - 1]
  {
  }

  /** `x` is an element of `s` and no element of `s` exceeds it. */
  predicate IsMax(x: nat, s: seq<nat>)
  {
    x in s && forall y :: y in s ==> y <= x
  }

  /** `x` is an element of `s` and no element of `s` is below it. */
  predicate IsMin(x: nat, s: seq<nat>)
  {
    x in s && forall y :: y in s ==> x <= y
  }

  /** The last element of the sorted sequence is the maximum of the input, the first the minimum. */
  lemma SortExtremes(s: seq<nat>)
    requires |s| > 0
    ensures IsMin(Sort(s)[0], s) && IsMax(Sort(s)[|s| - 1], s)
  {
    var t := Sort(s);
    SortSorted(s);
    SortedEnds(t);
    forall y | y in s ensures y in t {
      assert y in multiset(s);
    }
    assert t[0] in multiset(s) && t[|s| - 1] in multiset(s);
  }

  /** Number of elements of `s` that are at most `v`. */
  function CountAtMost(s: seq<nat>, v: int): (c: nat)
    ensures c <= |s|
  {
    if s == [] then 0
    else (if s[0] <= v then 1 else 0) + CountAtMost(s[1..], v)
  }

  /** Number of elements of `s` strictly below `v`. */
  function CountBelow(s: seq<nat>, v: nat): (c: nat)
  {
    CountAtMost(s, v as int - 1)
  }

  lemma {:induction false} CountAtMostAppend(a: seq<nat>, b: seq<nat>, v: int)
    ensures CountAtMost(a + b, v) == CountAtMost(a, v) + CountAtMost(b, v)
  {
    if a != [] {
      assert (a + b)[0] == a[0] && (a + b)[1..] == a[1..] + b;
      CountAtMostAppend(a[1..], b, v);
    } else {
      assert a + b == b;
    }
  }

  /** A larger bound never counts fewer elements. */
  lemma {:induction false} CountAtMostMonotone(s: seq<nat>, v: int, w: int)
    requires v <= w
    ensures CountAtMost(s, v) <= CountAtMost(s, w)
  {
    if s != [] {
      CountAtMostMonotone(s[1..], v, w);
    }
  }

  lemma {:induction false} CountAtMostAll(s: seq<nat>, v: int)
    requires forall x :: x in s ==> x <= v
    ensures CountAtMost(s, v) == |s|
  {
    if s != [] {
      assert s[0] in s;
      assert forall x :: x in s[1..] ==> x in s;
      CountAtMostAll(s[1..], v);
    }
  }

  lemma {:induction false} CountAtMostNone(s: seq<nat>, v: int)
    requires forall k :: 0 <= k < |s| ==> v < s[k]
    ensures CountAtMost(s, v) == 0
  {
    if s != [] {
      assert forall k :: 0 <= k < |s[1..]| ==> s[1..][k] == s[k + 1];
      CountAtMostNone(s[1..], v);
    }
  }

  lemma {:induction false} CountAtMostInsert(x: nat, t: seq<nat>, v: int)
    ensures CountAtMost(Insert(x, t), v) == CountAtMost(t, v) + (if x <= v then 1 else 0)
  {
    if t != [] && x > t[0] {
      CountAtMostInsert(x, t[1..], v);
      assert t == [t[0]] + t[1..];
    }
  }

  /** Sorting does not change how many samples lie at or below any bound. */
  lemma {:induction false} CountAtMostSort(s: seq<nat>, v: int)
    ensures CountAtMost(Sort(s), v) == CountAtMost(s, v)
  {
    if s != [] {
      CountAtMostSort(s[1..], v);
      CountAtMostInsert(s[0], Sort(s[1..]), v);
    }
  }

  /** Sorting does not change how many samples lie strictly below any bound. */
  lemma CountBelowSort(s: seq<nat>, v: nat)
    ensures CountBelow(Sort(s), v) == CountBelow(s, v)
  {
    CountAtMostSort(s, v as int - 1);
  }

  /** In a sorted sequence, at least i+1 elements are at most s[i]. */
  lemma SortedRankAtMost(s: seq<nat>, i: nat)
    requires Sorted(s) && i < |s|
    ensures CountAtMost(s, s[i]) >= i + 1
  {
    var lower, upper := s[..i + 1], s[i + 1..];
    assert s == lower + upper;
    forall x | x in lower ensures x <= s[i] {
      var k :| 0 <= k < |lower| && lower[k] == x;
      assert s[k] == x;
    }
    CountAtMostAppend(lower, upper, s[i]);
    CountAtMostAll(lower, s[i]);
  }

  /** In a sorted sequence, at most i elements are strictly below s[i]. */
  lemma SortedRankBelow(s: seq<nat>, i: nat)
    requires Sorted(s) && i < |s|
    ensures CountBelow(s, s[i]) <= i
  {
    var v := s[i] as int - 1;
    var before, after := s[..i], s[i..];
    assert s == before + after;
    forall k | 0 <= k < |after| ensures v < after[k] {
      assert after[k] == s[i + k];
      assert s[i] <= s[i + k];
    }
    CountAtMostAppend(before, after, v);
    CountAtMostNone(after, v);
  }

  /** Sum of the samples. */
  function Sum(s: seq<nat>): (total: nat)
  {
    if s == [] then 0 else s[0] + Sum(s[1..])
  }

  lemma {:induction false} SumAppend(a: seq<nat>, b: seq<nat>)
    ensures Sum(a + b) == Sum(a) + Sum(b)
  {
    if a != [] {
      assert (a + b)[0] == a[0] && (a + b)[1..] == a[1..] + b;
      SumAppend(a[1..], b);
    } else {
      assert a + b == b;
    }
  }

  lemma {:induction false} SumInsert(x: nat, t: seq<nat>)
    ensures Sum(Insert(x, t)) == x + Sum(t)
  {
    if t != [] && x > t[0] {
      SumInsert(x, t[1..]);
    }
  }

  /** Sorting does not change the sum. */
  lemma {:induction false} SumSort(s: seq<nat>)
    ensures Sum(Sort(s)) == Sum(s)
  {
    if s != [] {
      SumSort(s[1..]);
      SumInsert(s[0], Sort(s[1..]));
    }
  }

  /** A sum of n samples, each between lo and hi, lies between n*lo and n*hi. */
  lemma {:induction false} SumBounds(s: seq<nat>, lo: nat, hi: nat)
    requires forall x :: x in s ==> lo <= x <= hi
    ensures |s| * lo <= Sum(s) <= |s| * hi
  {
    if s != [] {
      var t := s[1..];
      assert s[0] in s;
      assert forall x :: x in t ==> x in s;
      SumBounds(t, lo, hi);
      MulSucc(|t|, lo);
      MulSucc(|t|, hi);
    }
  }

  lemma MulSucc(n: nat, x: nat)
    ensures (n + 1) * x == n * x + x
  {
  }
}
