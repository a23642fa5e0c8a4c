/** Sliding latency windows and their percentiles: metrics/latency_tracker.cpp. */
module LatencyTracking {
  import opened Sequences

  datatype Category =
    | Exchange | Parsing | Normalization | Processing | Broadcast | Serialization | SocketSend | General

  function AllCategories(): set<Category> {
    {Exchange, Parsing, Normalization, Processing, Broadcast, Serialization, SocketSend, General}
  }

  lemma InAllCategories(c: Category)
    ensures c in AllCategories()
  {
    match c
    case Exchange | Parsing | Normalization | Processing | Broadcast | Serialization | SocketSend | General =>
  }

  datatype LatencyStats = LatencyStats(
    average: real, min: real, max: real, p50: real, p95: real, p99: real, count: nat)
  {
    predicate Ordered() {
      min <= p50 <= p95 <= p99 <= max && min <= average <= max
    }
  }

  const NO_STATS := LatencyStats(0.0, 0.0, 0.0, 0.0, 0.0, 0.0, 0)

  // ----- Sorting -----

  predicate Sorted(s: seq<real>) {
    forall i, j :: 0 <= i < j < |s| ==> s[i] <= s[j]
  }

  function Insert(s: seq<real>, x: real): (r: seq<real>)
    requires Sorted(s)
    ensures Sorted(r) && multiset(r) == multiset(s) + multiset{x}
  {
    if s == [] || s[|s| - 1] <= x then s + [x]
    else
      var r := Insert(s[..|s| - 1], x);
      InsertStep(s, x, r);
      r + [s[|s| - 1]]
  }

  lemma InsertStep(s: seq<real>, x: real, r: seq<real>)
    requires Sorted(s) && s != [] && x < s[|s| - 1]
    requires Sorted(r) && multiset(r) == multiset(s[..|s| - 1]) + multiset{x}
    ensures Sorted(r + [s[|s| - 1]]) && multiset(r + [s[|s| - 1]]) == multiset(s) + multiset{x}
  {
    var last := s[|s| - 1];
    assert s == s[..|s| - 1] + [last];
    forall i | 0 <= i < |r|
      ensures r[i] <= last
    {
      var y := r[i];
      assert y in multiset(r);
      if y != x {
        assert y in multiset(s[..|s| - 1]);
        assert y in s[..|s| - 1];
      }
    }
  }

  /** What std::sort leaves behind. */
  function Sort(s: seq<real>): (r: seq<real>)
    ensures Sorted(r) && multiset(r) == multiset(s) && |r| == |s|
  {
    if s == [] then []
    else
      assert s == s[..|s| - 1] + [s[|s| - 1]];
      var r := Insert(Sort(s[..|s| - 1]), s[|s| - 1]);
      assert |multiset(r)| == |multiset(s)|;
      r
  }

  /** Reordering moves every element of one sequence to some index of the other. */
  lemma SameMembers(s: seq<real>, t: seq<real>, k: nat) returns (i: nat)
    requires multiset(s) == multiset(t) && k < |t|
    ensures i < |s| && s[i] == t[k]
  {
    assert t[k] in multiset(t);
    assert t[k] in multiset(s);
    assert t[k] in s;
    i :| i < |s| && s[i] == t[k];
  }

  /** A multiset has one sorted listing, so any correct sort computes `Sort`. */
  lemma {:induction false} SortedUnique(s: seq<real>, t: seq<real>)
    requires Sorted(s) && Sorted(t) && multiset(s) == multiset(t)
    ensures s == t
  {
    assert |s| == |multiset(s)| == |multiset(t)| == |t|;
    if s != [] {
      var n := |s| - 1;
      var i := SameMembers(s, t, n);
      var j := SameMembers(t, s, n);
      assert s[n] == t[n];
      PrefixMultiset(s, t);
      SortedUnique(s[..n], t[..n]);
      assert s == s[..n] + [s[n]] && t == t[..n] + [t[n]];
    }
  }

  lemma PrefixMultiset(s: seq<real>, t: seq<real>)
    requires |s| == |t| > 0 && s[|s| - 1] == t[|t| - 1] && multiset(s) == multiset(t)
    ensures multiset(s[..|s| - 1]) == multiset(t[..|t| - 1])
  {
    var n := |s| - 1;
    assert s == s[..n] + [s[n]] && t == t[..n] + [t[n]];
    assert multiset(s[..n]) == multiset(s) - multiset{s[n]};
    assert multiset(t[..n]) == multiset(t) - multiset{t[n]};
  }

  // ----- Interpolated percentiles -----

  function Ceiling(x: real): (c: int)
    ensures c as real - 1.0 < x <= c as real
  {
    if x.Floor as real == x then x.Floor else x.Floor + 1
  }

  /** The interpolation indices stay within a non-empty window. */
  lemma IndicesInBounds(n: nat, index: real)
    requires 0.0 <= index <= n as real - 1.0
    ensures 0 <= index.Floor <= Ceiling(index) <= index.Floor + 1 && Ceiling(index) < n
  {
    assert (Ceiling(index) as real) < n as real;
  }

  /** The sample at a fractional index, interpolated between its two neighbours. */
  function Interpolated(sorted: seq<real>, index: real): real
    requires 0.0 <= index <= |sorted| as real - 1.0
  {
    IndicesInBounds(|sorted|, index);
    var lower, upper := index.Floor, Ceiling(index);
    if lower == upper then sorted[lower]
    else sorted[lower] + (index - lower as real) * (sorted[upper] - sorted[lower])
  }

  lemma Fraction(p: real, top: real)
    requires top >= 0.0 && 0.0 <= p <= 1.0
    ensures 0.0 <= p * top <= top
  {
    MulNonNegative(p, top);
    MulNonNegative(1.0 - p, top);
    assert (1.0 - p) * top == top - p * top;
  }

  /** The fractional index of rank `p` among samples whose last index is `top`. */
  function Rank(p: real, top: real): (index: real)
    requires top >= 0.0 && 0.0 <= p <= 1.0
    ensures 0.0 <= index <= top
  {
    Fraction(p, top);
    p * top
  }

  lemma RankMonotone(p: real, q: real, top: real)
    requires top >= 0.0 && 0.0 <= p <= q <= 1.0
    ensures Rank(p, top) <= Rank(q, top)
  {
    MulNonNegative(q - p, top);
    assert Rank(q, top) - Rank(p, top) == (q - p) * top;
  }

  function Percentile(sorted: seq<real>, p: real): real
    requires sorted != [] && 0.0 <= p <= 1.0
  {
    Interpolated(sorted, Rank(p, |sorted| as real - 1.0))
  }

  lemma ScaleMonotone(a: real, b: real, f: real, g: real)
    requires a <= b && f <= g
    ensures a + f * (b - a) <= a + g * (b - a)
  {
    MulMonotone(f, g, b - a);
  }

  /** The interpolated value lies between the two samples it interpolates. */
  lemma InterpolatedBetween(sorted: seq<real>, index: real)
    requires Sorted(sorted) && 0.0 <= index <= |sorted| as real - 1.0
    ensures 0 <= index.Floor <= Ceiling(index) < |sorted|
    ensures sorted[index.Floor] <= Interpolated(sorted, index) <= sorted[Ceiling(index)]
  {
    IndicesInBounds(|sorted|, index);
    var lower, upper := index.Floor, Ceiling(index);
    if lower != upper {
      ScaleMonotone(sorted[lower], sorted[upper], 0.0, index - lower as real);
      ScaleMonotone(sorted[lower], sorted[upper], index - lower as real, 1.0);
    }
  }

  lemma InterpolatedMonotone(sorted: seq<real>, i: real, j: real)
    requires Sorted(sorted) && 0.0 <= i <= j <= |sorted| as real - 1.0
    ensures Interpolated(sorted, i) <= Interpolated(sorted, j)
  {
    InterpolatedBetween(sorted, i);
    InterpolatedBetween(sorted, j);
    if j.Floor < Ceiling(i) {
      assert i.Floor == j.Floor && Ceiling(i) == Ceiling(j) == i.Floor + 1;
      ScaleMonotone(sorted[i.Floor], sorted[Ceiling(i)], i - i.Floor as real, j - j.Floor as real);
    }
  }

  /** Percentiles grow with the requested rank. */
  lemma PercentileMonotone(sorted: seq<real>, p: real, q: real)
    requires sorted != [] && Sorted(sorted) && 0.0 <= p <= q <= 1.0
    ensures Percentile(sorted, p) <= Percentile(sorted, q)
  {
    var top := |sorted| as real - 1.0;
    RankMonotone(p, q, top);
    InterpolatedMonotone(sorted, Rank(p, top), Rank(q, top));
  }

  lemma PercentileInRange(sorted: seq<real>, p: real)
    requires sorted != [] && Sorted(sorted) && 0.0 <= p <= 1.0
    ensures sorted[0] <= Percentile(sorted, p) <= sorted[|sorted| - 1]
  {
    InterpolatedBetween(sorted, Rank(p, |sorted| as real - 1.0));
  }

  /** Between two neighbours the value is their average, weighted by the distance to the other one. */
  lemma InterpolatedIsWeighted(sorted: seq<real>, f: nat, x: real)
    requires f + 1 < |sorted| && f as real <= x <= f as real + 1.0
    ensures Interpolated(sorted, x) == (f as real + 1.0 - x) * sorted[f] + (x - f as real) * sorted[f + 1]
  {
    if x == f as real + 1.0 {
      assert x.Floor == f + 1;
    } else {
      assert x.Floor == f;
    }
  }

  /** Samples in arithmetic progression, from `a` in steps of `d`. */
  function Progression(n: nat, a: real, d: real): (s: seq<real>)
    ensures |s| == n
  {
    seq(n, i requires 0 <= i < n => Point(a, d, i as real))
  }

  /** The point at (possibly fractional) index `x` of a progression. */
  function Point(a: real, d: real, x: real): real {
    a + x * d
  }

  /** Interpolation is exact on a progression, also between its members. */
  lemma InterpolatedProgression(n: nat, a: real, d: real, x: real)
    requires 0.0 <= x <= n as real - 1.0
    ensures Interpolated(Progression(n, a, d), x) == Point(a, d, x)
  {
    IndicesInBounds(n, x);
    var s, f := Progression(n, a, d), x.Floor;
    if Ceiling(x) == f {
      assert x == f as real;
    } else {
      assert s[f + 1] - s[f] == d by {
        Distribute(f as real + 1.0, f as real, d);
      }
      Distribute(x, f as real, d);
    }
  }

  lemma Distribute(x: real, y: real, d: real)
    ensures (x - y) * d == x * d - y * d
  {
  }

  lemma PercentileOfProgression(n: nat, a: real, d: real, p: real)
    requires n > 0 && 0.0 <= p <= 1.0
    ensures Percentile(Progression(n, a, d), p) == Point(a, d, Rank(p, n as real - 1.0))
  {
    InterpolatedProgression(n, a, d, Rank(p, n as real - 1.0));
  }

  // ----- Window statistics -----

  function Average(samples: seq<real>): real
    requires samples != []
  {
    Sum(samples) / |samples| as real
  }

  /** The statistics of a window, as a function of the samples alone. */
  function StatsOf(samples: seq<real>): LatencyStats {
    if samples == [] then NO_STATS
    else
      var sorted := Sort(samples);
      LatencyStats(Average(samples), Min(samples), Max(samples),
                   Percentile(sorted, 0.5), Percentile(sorted, 0.95), Percentile(sorted, 0.99), |samples|)
  }

  /** What the statistics of a non-empty window are, member by member. */
  ghost predicate AreStats(x: LatencyStats, samples: seq<real>)
    requires samples != []
  {
    && x.count == |samples|
    && IsMean(x.average, samples)
    && x.min in samples && x.max in samples && (forall y :: y in samples ==> x.min <= y <= x.max)
    && (forall a: real, d: real :: Spread(samples, a, d) ==> AreRanks(x, |samples| as real - 1.0, a, d))
  }

  predicate IsMean(average: real, samples: seq<real>) {
    average * |samples| as real == Sum(samples)
  }

  /** The samples are evenly spread, from `a` in steps of `d`, in any order. */
  predicate Spread(samples: seq<real>, a: real, d: real) {
    d >= 0.0 && multiset(samples) == multiset(Progression(|samples|, a, d))
  }

  predicate AreRanks(x: LatencyStats, top: real, a: real, d: real) {
    x.p50 == Point(a, d, 0.50 * top) && x.p95 == Point(a, d, 0.95 * top) && x.p99 == Point(a, d, 0.99 * top)
  }

  lemma ProgressionSorted(n: nat, a: real, d: real)
    requires d >= 0.0
    ensures Sorted(Progression(n, a, d))
  {
    var s := Progression(n, a, d);
    forall i, j | 0 <= i < j < |s|
      ensures s[i] <= s[j]
    {
      MulMonotone(i as real, j as real, d);
    }
  }

  lemma RanksOfSpread(samples: seq<real>, a: real, d: real)
    requires samples != [] && Spread(samples, a, d)
    ensures AreRanks(StatsOf(samples), |samples| as real - 1.0, a, d)
  {
    hide *;
    StatsPercentiles(samples);
    SortOfSpread(samples, a, d);
    var top := |samples| as real - 1.0;
    PercentileOfProgression(|samples|, a, d, 0.5);
    PercentileOfProgression(|samples|, a, d, 0.95);
    PercentileOfProgression(|samples|, a, d, 0.99);
    RanksAre(StatsOf(samples), top, a, d);
  }

  lemma StatsPercentiles(samples: seq<real>)
    requires samples != []
    ensures StatsOf(samples).p50 == Percentile(Sort(samples), 0.5)
    ensures StatsOf(samples).p95 == Percentile(Sort(samples), 0.95)
    ensures StatsOf(samples).p99 == Percentile(Sort(samples), 0.99)
  {
    hide Percentile, Sort, Average, Min, Max;
  }

  lemma RanksAre(x: LatencyStats, top: real, a: real, d: real)
    requires top >= 0.0 && x.p50 == Point(a, d, Rank(0.5, top))
    requires x.p95 == Point(a, d, Rank(0.95, top)) && x.p99 == Point(a, d, Rank(0.99, top))
    ensures AreRanks(x, top, a, d)
  {
  }

  lemma SortOfSpread(samples: seq<real>, a: real, d: real)
    requires Spread(samples, a, d)
    ensures Sort(samples) == Progression(|samples|, a, d)
  {
    ProgressionSorted(|samples|, a, d);
    hide Sort, Progression;
    SortedUnique(Sort(samples), Progression(|samples|, a, d));
  }

  lemma MeanTimesCount(samples: seq<real>)
    requires samples != []
    ensures IsMean(StatsOf(samples).average, samples)
  {
    hide Percentile, Sort, Sum, Min, Max;
  }

  /** Every window: count, mean, least and greatest sample, and the three ranks of evenly spread samples. */
  lemma StatsAreStats(samples: seq<real>)
    requires samples != []
    ensures AreStats(StatsOf(samples), samples)
  {
    ExtremaBound(samples);
    MeanTimesCount(samples);
    hide Percentile, Sort, Sum, Min, Max, AreRanks, Spread, IsMean;
    assert StatsOf(samples).min == Min(samples) && StatsOf(samples).max == Max(samples);
    assert StatsOf(samples).count == |samples|;
    hide StatsOf;
    forall a: real, d: real | Spread(samples, a, d)
      ensures AreRanks(StatsOf(samples), |samples| as real - 1.0, a, d)
    {
      RanksOfSpread(samples, a, d);
    }
  }

  /** The samples 0 to 100 in any order have the percentiles 50, 95 and 99; 10 and 20 have the median 15. */
  lemma FamiliarRanks(samples: seq<real>)
    ensures multiset(samples) == multiset(Progression(101, 0.0, 1.0)) ==>
              var x := StatsOf(samples); x.p50 == 50.0 && x.p95 == 95.0 && x.p99 == 99.0 && x.count == 101
    ensures StatsOf([10.0, 20.0]).p50 == 15.0
    ensures StatsOf([]) == LatencyStats(0.0, 0.0, 0.0, 0.0, 0.0, 0.0, 0)
  {
    if multiset(samples) == multiset(Progression(101, 0.0, 1.0)) {
      assert |samples| == |multiset(samples)| == |multiset(Progression(101, 0.0, 1.0))| == 101;
      hide Percentile, Sort, Sum, Min, Max, Progression;
      RanksOfSpread(samples, 0.0, 1.0);
    }
    assert Progression(2, 10.0, 10.0) == [10.0, 20.0];
    hide Percentile, Sort, Sum, Min, Max, Progression, Interpolated;
    RanksOfSpread([10.0, 20.0], 10.0, 10.0);
  }

  /** Equal multisets have equal extrema. */
  lemma ExtremaOfMultiset(s: seq<real>, t: seq<real>)
    requires s != [] && t != [] && multiset(s) == multiset(t)
    ensures Min(s) == Min(t) && Max(s) == Max(t)
  {
    ExtremaAtLeastAsWide(s, t);
    ExtremaAtLeastAsWide(t, s);
  }

  lemma ExtremaAtLeastAsWide(s: seq<real>, t: seq<real>)
    requires s != [] && t != [] && multiset(s) == multiset(t)
    ensures Min(s) <= Min(t) && Max(t) <= Max(s)
  {
    ExtremaBound(s);
    ExtremaBound(t);
    var i :| 0 <= i < |t| && t[i] == Min(t);
    var j :| 0 <= j < |t| && t[j] == Max(t);
    var i' := SameMembers(s, t, i);
    var j' := SameMembers(s, t, j);
    assert s[i'] in s && s[j'] in s;
  }

  lemma {:induction false} SortedExtrema(s: seq<real>)
    requires Sorted(s) && s != []
    ensures Min(s) == s[0] && Max(s) == s[|s| - 1]
  {
    if |s| > 1 {
      SortedExtrema(s[..|s| - 1]);
    }
  }

  lemma AverageBetween(samples: seq<real>)
    requires samples != []
    ensures Min(samples) <= Sum(samples) / |samples| as real <= Max(samples)
  {
    ExtremaBound(samples);
    MeanBetween(samples, Min(samples), Max(samples));
  }

  /** min <= p50 <= p95 <= p99 <= max and min <= average <= max, for every window. */
  lemma StatsOrdered(samples: seq<real>)
    ensures StatsOf(samples).Ordered()
  {
    if samples != [] {
      var sorted := Sort(samples);
      SortedExtrema(sorted);
      ExtremaOfMultiset(samples, sorted);
      AverageBetween(samples);
      PercentileMonotone(sorted, 0.5, 0.95);
      PercentileMonotone(sorted, 0.95, 0.99);
      PercentileInRange(sorted, 0.5);
      PercentileInRange(sorted, 0.99);
    }
  }

  lemma {:induction false} SumOfInsert(s: seq<real>, x: real)
    requires Sorted(s)
    ensures Sum(Insert(s, x)) == Sum(s) + x
  {
    if s == [] || s[|s| - 1] <= x {
      SumSnoc(s, x);
    } else {
      SumOfInsert(s[..|s| - 1], x);
      SumSnoc(Insert(s[..|s| - 1], x), s[|s| - 1]);
    }
  }

  lemma {:induction false} SumOfSort(s: seq<real>)
    ensures Sum(Sort(s)) == Sum(s)
  {
    if s != [] {
      SumOfSort(s[..|s| - 1]);
      SumOfInsert(Sort(s[..|s| - 1]), s[|s| - 1]);
    }
  }

  /** The statistics, and so the percentiles, depend only on the multiset of samples. */
  lemma StatsDependOnMultiset(s: seq<real>, t: seq<real>)
    requires multiset(s) == multiset(t)
    ensures StatsOf(s) == StatsOf(t)
  {
    assert |s| == |multiset(s)| == |multiset(t)| == |t|;
    SortedUnique(Sort(s), Sort(t));
    SumOfSort(s);
    SumOfSort(t);
    if s != [] {
      ExtremaOfMultiset(s, t);
    }
  }

  // ----- The tracker -----

  /** A window after the latencies `recorded`: the circular buffer, its counters and its running sum. */
  ghost predicate WindowInvariant(buf: seq<real>, head: nat, total: nat, sum: real, recorded: seq<real>) {
    && Remembers(buf, head, recorded)
    && total == |recorded|
    && sum == Sum(LastN(recorded, |buf|))
  }

  /** Adding the newest sample and subtracting the evicted one keeps the running sum exact. */
  lemma SlidingSum(history: seq<real>, x: real, n: nat)
    requires n > 0
    ensures |history| < n ==> Sum(LastN(history + [x], n)) == Sum(LastN(history, n)) + x
    ensures |history| >= n ==>
              Sum(LastN(history + [x], n)) == Sum(LastN(history, n)) + (x - LastN(history, n)[0])
  {
    LastNSnoc(history, x, n);
    var window := LastN(history, n);
    if |history| < n {
      SumSnoc(window, x);
    } else {
      SumUncons(window);
      SumSnoc(window[1..], x);
    }
  }

  lemma WindowStep(buf: seq<real>, head: nat, total: nat, sum: real, recorded: seq<real>, x: real)
    requires WindowInvariant(buf, head, total, sum, recorded)
    ensures WindowInvariant(buf[head := x], WrapOnce(head + 1, |buf|), total + 1,
                            if total + 1 > |buf| then sum + (x - buf[head]) else sum + x, recorded + [x])
  {
    RemembersWrite(buf, head, recorded, x);
    SlidingSum(recorded, x, |buf|);
  }

  lemma EmptyWindow(buf: seq<real>)
    requires buf != []
    ensures WindowInvariant(buf, 0, 0, 0.0, [])
  {
  }

  /** The next slot to overwrite is the number of recorded latencies modulo the window size. */
  lemma HeadIsTotalModulo(buf: seq<real>, head: nat, total: nat, sum: real, recorded: seq<real>)
    requires WindowInvariant(buf, head, total, sum, recorded)
    ensures head == total % |buf|
  {
    PositionIsRemainder(total, |buf|);
  }

  /** One category's window: a circular buffer with a running sum. */
  class LatencyWindow {
    const latencies: array<real>
    var head: nat
    var totalCount: nat
    var sumLatency: real
    /** Every latency recorded since the last clear. */
    ghost var recorded: seq<real>

    /** A window of size 0 never records anything. */
    ghost predicate Valid()
      reads this, latencies
    {
      if latencies.Length == 0 then head == 0 && totalCount == 0 && recorded == []
      else WindowInvariant(latencies[..], head, totalCount, sumLatency, recorded)
    }

    constructor (windowSize: nat)
      ensures Valid() && recorded == [] && latencies.Length == windowSize && fresh(latencies)
    {
      latencies := new real[windowSize](_ => 0.0);
      head, totalCount, sumLatency := 0, 0, 0.0;
      recorded := [];
    }

    /** The source takes a remainder by the window size, so a window of size 0 cannot record. */
    method Record(latency: real)
      requires Valid() && latencies.Length > 0
      modifies this, latencies
      ensures Valid() && recorded == old(recorded) + [latency]
    {
      WindowStep(latencies[..], head, totalCount, sumLatency, recorded, latency);
      var oldVal := latencies[head];
      Store(latencies, head, latency);
      head := Modulo(head + 1, latencies.Length);
      totalCount := totalCount + 1;
      if totalCount > latencies.Length {
        sumLatency := sumLatency + (latency - oldVal);
      } else {
        sumLatency := sumLatency + latency;
      }
      recorded := recorded + [latency];
    }

    method Stats() returns (stats: LatencyStats)
      requires Valid()
      ensures stats == StatsOf(LastN(recorded, latencies.Length))
      ensures LastN(recorded, latencies.Length) != [] ==> AreStats(stats, LastN(recorded, latencies.Length))
    {
      hide Sort, Percentile, AreStats;
      ghost var window := LastN(recorded, latencies.Length);
      if window != [] {
        StatsAreStats(window);
      }
      var validCount := if totalCount < latencies.Length then totalCount else latencies.Length;
      if validCount == 0 {
        return NO_STATS;
      }
      var samples := ReadCircular(latencies, head, validCount);
      var minVal, maxVal := Extrema(samples);
      var average := sumLatency / validCount as real;
      var sorted := Sort(samples);
      stats := LatencyStats(average, minVal, maxVal,
                            Percentile(sorted, 0.5), Percentile(sorted, 0.95), Percentile(sorted, 0.99), validCount);
    }

    method Clear()
      requires Valid()
      modifies this, latencies
      ensures Valid() && recorded == []
    {
      head, totalCount, sumLatency := 0, 0, 0.0;
      forall i | 0 <= i < latencies.Length {
        latencies[i] := 0.0;
      }
      if latencies.Length > 0 {
        EmptyWindow(latencies[..]);
      }
      recorded := [];
    }
  }

  /** The scan for the smallest and the largest sample. */
  method Extrema(samples: seq<real>) returns (minVal: real, maxVal: real)
    requires samples != []
    ensures minVal == Min(samples) && maxVal == Max(samples)
  {
    minVal, maxVal := samples[0], samples[0];
    for i := 0 to |samples|
      invariant i == 0 ==> minVal == maxVal == samples[0]
      invariant i > 0 ==> minVal == Min(samples[..i]) && maxVal == Max(samples[..i])
    {
      assert samples[..i + 1] == samples[..i] + [samples[i]];
      ExtremaSnoc(samples[..i], samples[i]);
      var val := samples[i];
      if val < minVal {
        minVal := val;
      }
      if val > maxVal {
        maxVal := val;
      }
    }
    assert samples[..|samples|] == samples;
  }

  /** A new window for each of the given categories. */
  method FreshWindows(windowSize: nat, categories: set<Category>) returns (windows: map<Category, LatencyWindow>)
    ensures windows.Keys == categories
    ensures forall c :: c in windows ==>
              && fresh(windows[c]) && fresh(windows[c].latencies)
              && windows[c].Valid() && windows[c].recorded == [] && windows[c].latencies.Length == windowSize
    ensures forall c, d :: c in windows && d in windows && c != d ==>
              windows[c] != windows[d] && windows[c].latencies != windows[d].latencies
  {
    hide LatencyWindow.Valid;
    windows := map[];
    var todo := categories;
    while todo != {}
      invariant todo <= categories && windows.Keys == categories - todo
      invariant forall c :: c in windows ==>
                  && fresh(windows[c]) && fresh(windows[c].latencies)
                  && windows[c].Valid() && windows[c].recorded == [] && windows[c].latencies.Length == windowSize
      invariant forall c, d :: c in windows && d in windows && c != d ==>
                  windows[c] != windows[d] && windows[c].latencies != windows[d].latencies
      decreases todo
    {
      var c :| c in todo;
      var window := new LatencyWindow(windowSize);
      windows := windows[c := window];
      todo := todo - {c};
    }
  }

  /** One window per category; every category has a window from construction on. */
  class LatencyTracker {
    const windowSize: nat
    const windows: map<Category, LatencyWindow>

    ghost predicate Valid()
      reads this, windows.Values, set w <- windows.Values :: w.latencies
    {
      && (forall c: Category :: c in windows)
      && (forall c: Category :: windows[c].latencies.Length == windowSize)
      && (forall c: Category, d: Category :: c != d ==>
            windows[c] != windows[d] && windows[c].latencies != windows[d].latencies)
      && (forall c: Category :: windows[c].Valid())
    }

    /** The latencies recorded for a category since it was last cleared. */
    ghost function History(c: Category): seq<real>
      requires c in windows
      reads this, windows[c]
    {
      windows[c].recorded
    }

    constructor (windowSize: nat)
      ensures Valid() && this.windowSize == windowSize
      ensures forall c: Category :: History(c) == [] && fresh(windows[c]) && fresh(windows[c].latencies)
    {
      hide LatencyWindow.Valid;
      this.windowSize := windowSize;
      var created := FreshWindows(windowSize, AllCategories());
      forall c: Category
        ensures c in created
      {
        InAllCategories(c);
      }
      windows := created;
    }

    method EndLatencyMeasurement(latency: real, category: Category)
      requires Valid() && windowSize > 0
      modifies windows[category], windows[category].latencies
      ensures Valid()
      ensures History(category) == old(History(category)) + [latency]
      ensures forall c: Category :: c != category ==> History(c) == old(History(c))
    {
      hide LatencyWindow.Valid;
      windows[category].Record(latency);
    }

    method GetLatencyStats(category: Category) returns (stats: LatencyStats)
      requires Valid()
      ensures stats == StatsOf(LastN(History(category), windowSize))
      ensures LastN(History(category), windowSize) != [] ==> AreStats(stats, LastN(History(category), windowSize))
    {
      stats := windows[category].Stats();
    }

    /** Every category is present in the result, also one without samples. */
    method GetAllLatencyStats() returns (all: map<Category, LatencyStats>)
      requires Valid()
      ensures forall c: Category :: c in all && all[c] == StatsOf(LastN(History(c), windowSize))
      ensures forall c: Category :: all[c].Ordered()
      ensures forall c: Category :: LastN(History(c), windowSize) != [] ==>
                AreStats(all[c], LastN(History(c), windowSize))
    {
      hide AreStats;
      all := map[];
      var todo := windows.Keys;
      while todo != {}
        invariant forall c: Category :: c !in todo ==>
                    c in all && all[c] == StatsOf(LastN(History(c), windowSize))
        decreases todo
      {
        var c :| c in todo;
        var stats := windows[c].Stats();
        all := all[c := stats];
        todo := todo - {c};
      }
      forall c: Category
        ensures all[c].Ordered()
        ensures LastN(History(c), windowSize) != [] ==> AreStats(all[c], LastN(History(c), windowSize))
      {
        StatsOrdered(LastN(History(c), windowSize));
        if LastN(History(c), windowSize) != [] {
          StatsAreStats(LastN(History(c), windowSize));
        }
      }
    }

    method Clear(category: Category)
      requires Valid()
      modifies windows[category], windows[category].latencies
      ensures Valid()
      ensures History(category) == []
      ensures forall c: Category :: c != category ==> History(c) == old(History(c))
    {
      windows[category].Clear();
    }

    method ClearAll()
      requires Valid()
      modifies windows.Values, set w <- windows.Values :: w.latencies
      ensures Valid()
      ensures forall c: Category :: History(c) == []
    {
      hide LatencyWindow.Valid;
      var todo := windows.Keys;
      while todo != {}
        invariant Valid()
        invariant forall c: Category :: c !in todo ==> History(c) == []
        decreases todo
      {
        var c :| c in todo;
        assert windows[c] in windows.Values;
        windows[c].Clear();
        todo := todo - {c};
      }
    }
  }
}
