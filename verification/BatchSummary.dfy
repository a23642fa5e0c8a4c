/**
 What a summary of an interval means: each member as a statistic of that member's column in the interval's
 snapshots, independently of any running state.
 */
module BatchSummaries {
  import opened Sequences
  import opened LatencyTracking
  import opened Snapshots

  // ----- Columns -----

  function RealColumn(h: seq<Snapshot>, f: nat): seq<real>
    requires f < REAL_FIELDS
  {
    seq(|h|, i requires 0 <= i < |h| => h[i].reals[f])
  }

  function NatColumn(h: seq<Snapshot>, f: nat): seq<nat>
    requires f < NAT_FIELDS
  {
    seq(|h|, i requires 0 <= i < |h| => h[i].nats[f])
  }

  function FlagColumn(h: seq<Snapshot>, backpressure: bool): seq<bool> {
    seq(|h|, i requires 0 <= i < |h| => if backpressure then h[i].backpressure else h[i].staleFeed)
  }

  function HealthColumn(h: seq<Snapshot>, status: HealthStatus): seq<bool> {
    seq(|h|, i requires 0 <= i < |h| => h[i].health == status)
  }

  /** The statistics of a category, in the snapshots that carry it. */
  function LatencyColumn(h: seq<Snapshot>, c: Category): seq<LatencyStats> {
    if h == [] then []
    else
      var last := h[|h| - 1];
      LatencyColumn(h[..|h| - 1], c) + if c in last.latency then [last.latency[c]] else []
  }

  function ExchangeColumn(h: seq<Snapshot>, name: string): seq<ExchangeStats> {
    if h == [] then []
    else
      var last := h[|h| - 1];
      ExchangeColumn(h[..|h| - 1], name) + if name in last.exchanges then [last.exchanges[name]] else []
  }

  function ExchangeNames(h: seq<Snapshot>): set<string> {
    set i, name | 0 <= i < |h| && name in h[i].exchanges :: name
  }

  datatype LatencyPart = Average | Minimum | Maximum | P50 | P95 | P99

  function Part(stats: LatencyStats, part: LatencyPart): real {
    match part
    case Average => stats.average
    case Minimum => stats.min
    case Maximum => stats.max
    case P50 => stats.p50
    case P95 => stats.p95
    case P99 => stats.p99
  }

  function Parts(col: seq<LatencyStats>, part: LatencyPart): seq<real> {
    seq(|col|, i requires 0 <= i < |col| => Part(col[i], part))
  }

  function Counts(col: seq<LatencyStats>): seq<nat> {
    seq(|col|, i requires 0 <= i < |col| => col[i].count)
  }

  function GaugeColumn(col: seq<ExchangeStats>, f: nat): seq<real>
    requires f < EXCHANGE_GAUGES
  {
    seq(|col|, i requires 0 <= i < |col| => col[i].gauges[f])
  }

  function CounterColumn(col: seq<ExchangeStats>, f: nat): seq<nat>
    requires f < EXCHANGE_COUNTERS
  {
    seq(|col|, i requires 0 <= i < |col| => col[i].counters[f])
  }

  function ExchangeFlags(col: seq<ExchangeStats>, connected: bool): seq<bool> {
    seq(|col|, i requires 0 <= i < |col| => if connected then col[i].connected else col[i].stale)
  }

  // ----- Statistics -----

  function Mean(s: seq<real>): real
    requires s != []
  {
    Sum(s) / |s| as real
  }

  function FloorMean(s: seq<nat>): nat
    requires s != []
  {
    SumNat(s) / |s|
  }

  /** More than half of the values are true. */
  predicate StrictMajority(s: seq<bool>) {
    2 * CountTrue(s) > |s|
  }

  /** The most frequent status; of several most frequent ones, the healthiest. */
  ghost predicate IsPlurality(h: seq<Snapshot>, r: HealthStatus) {
    forall o: HealthStatus :: o != r ==>
      var n, m := CountTrue(HealthColumn(h, r)), CountTrue(HealthColumn(h, o));
      m < n || (m == n && r.Severity() < o.Severity())
  }

  function Plurality(h: seq<Snapshot>): (r: HealthStatus)
    ensures IsPlurality(h, r)
  {
    var n := CountTrue(HealthColumn(h, Healthy));
    var d := CountTrue(HealthColumn(h, Degraded));
    var c := CountTrue(HealthColumn(h, Critical));
    if d <= n && c <= n then Healthy else if c <= d then Degraded else Critical
  }

  lemma PluralityUnique(h: seq<Snapshot>, r: HealthStatus)
    requires IsPlurality(h, r)
    ensures r == Plurality(h)
  {
    assert IsPlurality(h, Plurality(h));
  }

  /** The latency summary divides by the number of snapshots, also when some lack the category. */
  function LatencySummary(col: seq<LatencyStats>, n: nat): LatencyStats
    requires col != [] && n > 0
  {
    LatencyStats(Sum(Parts(col, Average)) / n as real,
                 Min(Parts(col, Minimum)), Max(Parts(col, Maximum)),
                 Sum(Parts(col, P50)) / n as real, Sum(Parts(col, P95)) / n as real, Sum(Parts(col, P99)) / n as real,
                 SumNat(Counts(col)) / n)
  }

  function ExchangeSummary(col: seq<ExchangeStats>): ExchangeStats
    requires col != []
  {
    ExchangeStats(StrictMajority(ExchangeFlags(col, true)), StrictMajority(ExchangeFlags(col, false)),
                  seq(EXCHANGE_GAUGES, f requires 0 <= f < EXCHANGE_GAUGES => Mean(GaugeColumn(col, f))),
                  seq(EXCHANGE_COUNTERS, f requires 0 <= f < EXCHANGE_COUNTERS => FloorMean(CounterColumn(col, f))))
  }

  /** Means of 32-bit values fit in 32 bits. */
  function NatMeans(h: seq<Snapshot>): Nats
    requires h != []
  {
    MeanFits(h, THREAD_COUNT);
    MeanFits(h, FEED_HEALTH_SCORE);
    seq(NAT_FIELDS, f requires 0 <= f < NAT_FIELDS => FloorMean(NatColumn(h, f)))
  }

  lemma MeanFits(h: seq<Snapshot>, f: nat)
    requires h != [] && (f == THREAD_COUNT || f == FEED_HEALTH_SCORE)
    ensures FloorMean(NatColumn(h, f)) < U32
  {
    var col := NatColumn(h, f);
    forall x | x in col
      ensures x <= U32 - 1
    {
      var i :| 0 <= i < |col| && col[i] == x;
      assert h[i].nats[f] < U32;
    }
    SumNatAtMost(col, U32 - 1);
    FloorAtMost(SumNat(col), |col|, U32 - 1);
  }

  lemma FloorAtMost(x: nat, n: nat, hi: nat)
    requires n > 0 && x <= n * hi
    ensures x / n <= hi
  {
    var q := x / n;
    assert n * q <= x;
    if hi < q {
      MulAtLeast(q - hi, n);
      MulDistributes(q, hi, n);
    }
  }

  function BatchLatency(h: seq<Snapshot>): map<Category, LatencyStats>
    requires h != []
  {
    map c: Category | LatencyColumn(h, c) != [] :: LatencySummary(LatencyColumn(h, c), |h|)
  }

  function BatchReals(h: seq<Snapshot>): Reals
    requires h != []
  {
    seq(REAL_FIELDS, f requires 0 <= f < REAL_FIELDS => Mean(RealColumn(h, f)))
  }

  function BatchExchanges(h: seq<Snapshot>): map<string, ExchangeStats> {
    map name | name in ExchangeNames(h) && ExchangeColumn(h, name) != [] :: ExchangeSummary(ExchangeColumn(h, name))
  }

  function BatchSummary(h: seq<Snapshot>): Snapshot {
    if h == [] then Blank()
    else
      Snapshot(BatchLatency(h), BatchReals(h), NatMeans(h), h[|h| - 1].totals,
               StrictMajority(FlagColumn(h, true)), StrictMajority(FlagColumn(h, false)),
               Plurality(h), BatchExchanges(h))
  }

  // ----- What every member of a summary is -----

  predicate IsMeanOf(mean: real, column: seq<real>, n: nat) {
    mean * n as real == Sum(column)
  }

  /** The mean of unsigned values, rounded down. */
  predicate IsFloorMeanOf(mean: nat, column: seq<nat>, n: nat) {
    mean * n <= SumNat(column) < (mean + 1) * n
  }

  /** There are more true than false values. */
  predicate MostlyTrue(column: seq<bool>) {
    multiset(column)[true] > multiset(column)[false]
  }

  ghost predicate IsLeast(x: real, column: seq<real>) {
    x in column && forall y :: y in column ==> x <= y
  }

  ghost predicate IsGreatest(x: real, column: seq<real>) {
    x in column && forall y :: y in column ==> y <= x
  }

  ghost predicate IsLatencySummary(x: LatencyStats, col: seq<LatencyStats>, n: nat) {
    && IsMeanOf(x.average, Parts(col, Average), n)
    && IsMeanOf(x.p50, Parts(col, P50), n) && IsMeanOf(x.p95, Parts(col, P95), n) && IsMeanOf(x.p99, Parts(col, P99), n)
    && IsLeast(x.min, Parts(col, Minimum)) && IsGreatest(x.max, Parts(col, Maximum))
    && IsFloorMeanOf(x.count, Counts(col), n)
  }

  ghost predicate IsExchangeSummary(x: ExchangeStats, col: seq<ExchangeStats>) {
    && (forall f :: 0 <= f < EXCHANGE_GAUGES ==> IsMeanOf(x.gauges[f], GaugeColumn(col, f), |col|))
    && (forall f :: 0 <= f < EXCHANGE_COUNTERS ==> IsFloorMeanOf(x.counters[f], CounterColumn(col, f), |col|))
    && (x.connected <==> MostlyTrue(ExchangeFlags(col, true)))
    && (x.stale <==> MostlyTrue(ExchangeFlags(col, false)))
  }

  /** What a summary says about the snapshots of its interval, member by member. */
  ghost predicate IsSummary(x: Snapshot, h: seq<Snapshot>)
    requires h != []
  {
    && (forall f :: 0 <= f < REAL_FIELDS ==> IsMeanOf(x.reals[f], RealColumn(h, f), |h|))
    && (forall f :: 0 <= f < NAT_FIELDS ==> IsFloorMeanOf(x.nats[f], NatColumn(h, f), |h|))
    && x.totals == h[|h| - 1].totals
    && (x.backpressure <==> MostlyTrue(FlagColumn(h, true)))
    && (x.staleFeed <==> MostlyTrue(FlagColumn(h, false)))
    && IsPlurality(h, x.health)
    && (forall c: Category :: c in x.latency <==> exists i :: 0 <= i < |h| && c in h[i].latency)
    && (forall c: Category :: c in x.latency ==> IsLatencySummary(x.latency[c], LatencyColumn(h, c), |h|))
    && (forall name :: name in x.exchanges <==> exists i :: 0 <= i < |h| && name in h[i].exchanges)
    && (forall name :: name in x.exchanges ==> IsExchangeSummary(x.exchanges[name], ExchangeColumn(h, name)))
  }

  lemma QuotientIsMean(column: seq<real>, n: nat)
    requires n > 0
    ensures IsMeanOf(Sum(column) / n as real, column, n)
  {
    hide Sum;
  }

  lemma QuotientIsFloorMean(column: seq<nat>, n: nat)
    requires n > 0
    ensures IsFloorMeanOf(SumNat(column) / n, column, n)
  {
    hide SumNat;
    var q := SumNat(column) / n;
    FloorIs(SumNat(column), n, q);
    MulDistributes(q + 1, q, n);
  }

  lemma {:induction false} CountsOfFlags(column: seq<bool>)
    ensures multiset(column)[true] == CountTrue(column)
    ensures multiset(column)[false] == |column| - CountTrue(column)
  {
    if column != [] {
      CountsOfFlags(column[..|column| - 1]);
      assert column == column[..|column| - 1] + [column[|column| - 1]];
    }
  }

  lemma MajorityIsMost(column: seq<bool>)
    ensures StrictMajority(column) <==> MostlyTrue(column)
  {
    CountsOfFlags(column);
    hide CountTrue;
  }

  lemma LatencySummaryIs(col: seq<LatencyStats>, n: nat)
    requires col != [] && n > 0
    ensures IsLatencySummary(LatencySummary(col, n), col, n)
  {
    ExtremaBound(Parts(col, Minimum));
    ExtremaBound(Parts(col, Maximum));
    QuotientIsMean(Parts(col, Average), n);
    QuotientIsMean(Parts(col, P50), n);
    QuotientIsMean(Parts(col, P95), n);
    QuotientIsMean(Parts(col, P99), n);
    QuotientIsFloorMean(Counts(col), n);
    hide Parts, Counts, IsMeanOf, IsFloorMeanOf, Sum, SumNat, Min, Max;
  }

  lemma ExchangeSummaryIs(col: seq<ExchangeStats>)
    requires col != []
    ensures IsExchangeSummary(ExchangeSummary(col), col)
  {
    hide IsMeanOf, IsFloorMeanOf, Sum, SumNat, StrictMajority, MostlyTrue;
    forall f | 0 <= f < EXCHANGE_GAUGES
      ensures IsMeanOf(ExchangeSummary(col).gauges[f], GaugeColumn(col, f), |col|)
    {
      QuotientIsMean(GaugeColumn(col, f), |col|);
    }
    forall f | 0 <= f < EXCHANGE_COUNTERS
      ensures IsFloorMeanOf(ExchangeSummary(col).counters[f], CounterColumn(col, f), |col|)
    {
      QuotientIsFloorMean(CounterColumn(col, f), |col|);
    }
    MajorityIsMost(ExchangeFlags(col, true));
    MajorityIsMost(ExchangeFlags(col, false));
  }

  lemma {:induction false} LatencyPresent(h: seq<Snapshot>, c: Category)
    ensures LatencyColumn(h, c) != [] <==> exists i :: 0 <= i < |h| && c in h[i].latency
  {
    if h != [] {
      var n := |h| - 1;
      LatencyPresent(h[..n], c);
      assert forall i :: 0 <= i < n ==> h[..n][i] == h[i];
    }
  }

  lemma {:induction false} ExchangePresent(h: seq<Snapshot>, name: string)
    ensures ExchangeColumn(h, name) != [] <==> exists i :: 0 <= i < |h| && name in h[i].exchanges
  {
    if h != [] {
      var n := |h| - 1;
      ExchangePresent(h[..n], name);
      assert forall i :: 0 <= i < n ==> h[..n][i] == h[i];
    }
  }

  lemma ScalarsAre(h: seq<Snapshot>)
    requires h != []
    ensures forall f :: 0 <= f < REAL_FIELDS ==> IsMeanOf(BatchReals(h)[f], RealColumn(h, f), |h|)
    ensures forall f :: 0 <= f < NAT_FIELDS ==> IsFloorMeanOf(NatMeans(h)[f], NatColumn(h, f), |h|)
  {
    hide IsMeanOf, IsFloorMeanOf, Sum, SumNat;
    forall f | 0 <= f < REAL_FIELDS
      ensures IsMeanOf(BatchReals(h)[f], RealColumn(h, f), |h|)
    {
      QuotientIsMean(RealColumn(h, f), |h|);
    }
    forall f | 0 <= f < NAT_FIELDS
      ensures IsFloorMeanOf(NatMeans(h)[f], NatColumn(h, f), |h|)
    {
      QuotientIsFloorMean(NatColumn(h, f), |h|);
    }
  }

  /** Every member of the batch summary is what it should be. */
  lemma BatchSummaryIsSummary(h: seq<Snapshot>)
    requires h != []
    ensures IsSummary(BatchSummary(h), h)
  {
    hide BatchReals, NatMeans, StrictMajority, MostlyTrue, Plurality, IsPlurality, LatencySummary, ExchangeSummary;
    hide IsLatencySummary, IsExchangeSummary, IsMeanOf, IsFloorMeanOf, LatencyColumn, ExchangeColumn;
    ScalarsAre(h);
    MajorityIsMost(FlagColumn(h, true));
    MajorityIsMost(FlagColumn(h, false));
    forall c: Category
      ensures c in BatchSummary(h).latency <==> exists i :: 0 <= i < |h| && c in h[i].latency
      ensures c in BatchSummary(h).latency ==> IsLatencySummary(BatchSummary(h).latency[c], LatencyColumn(h, c), |h|)
    {
      LatencyPresent(h, c);
      if LatencyColumn(h, c) != [] {
        LatencySummaryIs(LatencyColumn(h, c), |h|);
      }
    }
    forall name: string
      ensures name in BatchSummary(h).exchanges <==> exists i :: 0 <= i < |h| && name in h[i].exchanges
      ensures name in BatchSummary(h).exchanges ==>
                IsExchangeSummary(BatchSummary(h).exchanges[name], ExchangeColumn(h, name))
    {
      ExchangePresent(h, name);
      if ExchangeColumn(h, name) != [] {
        ExchangeSummaryIs(ExchangeColumn(h, name));
      }
    }
  }

  /** A category that every snapshot has: its column lists the values in order. */
  lemma {:induction false} FullLatencyColumn(h: seq<Snapshot>, c: Category)
    requires forall i :: 0 <= i < |h| ==> c in h[i].latency
    ensures |LatencyColumn(h, c)| == |h|
    ensures forall i :: 0 <= i < |h| ==> LatencyColumn(h, c)[i] == h[i].latency[c]
  {
    if h != [] {
      FullLatencyColumn(h[..|h| - 1], c);
    }
  }

  /** An exchange that every snapshot has: the same. */
  lemma {:induction false} FullExchangeColumn(h: seq<Snapshot>, name: string)
    requires forall i :: 0 <= i < |h| ==> name in h[i].exchanges
    ensures |ExchangeColumn(h, name)| == |h|
    ensures forall i :: 0 <= i < |h| ==> ExchangeColumn(h, name)[i] == h[i].exchanges[name]
  {
    if h != [] {
      FullExchangeColumn(h[..|h| - 1], name);
    }
  }

  /** Of equally frequent states, the healthier one. */
  lemma TiesGoToTheHealthier(a: Snapshot, b: Snapshot)
    requires (a.health == Healthy && b.health != Healthy) || (a.health == Degraded && b.health == Critical)
    ensures BatchSummary([a, b]).health == BatchSummary([b, a]).health == a.health
  {
    HealthPair(a, b);
    HealthPair(b, a);
    hide BatchLatency, BatchReals, NatMeans, StrictMajority, BatchExchanges, HealthColumn;
  }

  lemma HealthPair(a: Snapshot, b: Snapshot)
    ensures forall r :: CountTrue(HealthColumn([a, b], r)) ==
                          (if a.health == r then 1 else 0) + (if b.health == r then 1 else 0)
  {
    forall r
      ensures CountTrue(HealthColumn([a, b], r)) == (if a.health == r then 1 else 0) + (if b.health == r then 1 else 0)
    {
      assert HealthColumn([a, b], r) == [] + [a.health == r] + [b.health == r];
      CountTrueSnoc([], a.health == r);
      CountTrueSnoc([] + [a.health == r], b.health == r);
      assert CountTrue([]) == 0;
    }
  }

  // ----- A steady system -----

  predicate AllAre<T(==)>(column: seq<T>, v: T) {
    forall i :: 0 <= i < |column| ==> column[i] == v
  }

  lemma MeanOfCopies(column: seq<real>, v: real)
    requires column != [] && AllAre(column, v)
    ensures Sum(column) / |column| as real == v
  {
    MeanBetween(column, v, v);
  }

  lemma {:induction false} SumNatOfCopies(column: seq<nat>, v: nat)
    requires AllAre(column, v)
    ensures SumNat(column) == |column| * v
  {
    if column != [] {
      var n := |column| - 1;
      SumNatOfCopies(column[..n], v);
      assert |column| * v == n * v + v;
    }
  }

  lemma FloorMeanOfCopies(column: seq<nat>, v: nat)
    requires column != [] && AllAre(column, v)
    ensures SumNat(column) / |column| == v
  {
    hide SumNat, AllAre;
    SumNatOfCopies(column, v);
    QuotientOfProduct(v, |column|);
  }

  lemma QuotientOfProduct(v: nat, n: nat)
    requires n > 0
    ensures n * v / n == v
  {
    DivModUnique(n * v, n, v, 0);
  }

  lemma {:induction false} CountOfCopies(column: seq<bool>, v: bool)
    requires AllAre(column, v)
    ensures CountTrue(column) == if v then |column| else 0
  {
    if column != [] {
      CountOfCopies(column[..|column| - 1], v);
    }
  }

  lemma MajorityOfCopies(column: seq<bool>, v: bool)
    requires column != [] && AllAre(column, v)
    ensures StrictMajority(column) == v
  {
    CountOfCopies(column, v);
  }

  lemma LatencySummaryOfCopies(col: seq<LatencyStats>, x: LatencyStats)
    requires col != [] && AllAre(col, x)
    ensures LatencySummary(col, |col|) == x
  {
    hide Sum, SumNat, Min, Max;
    MeanOfCopies(Parts(col, Average), x.average);
    MeanOfCopies(Parts(col, P50), x.p50);
    MeanOfCopies(Parts(col, P95), x.p95);
    MeanOfCopies(Parts(col, P99), x.p99);
    ExtremaBound(Parts(col, Minimum));
    ExtremaBound(Parts(col, Maximum));
    FloorMeanOfCopies(Counts(col), x.count);
  }

  lemma ExchangeSummaryOfCopies(col: seq<ExchangeStats>, x: ExchangeStats)
    requires col != [] && AllAre(col, x)
    ensures ExchangeSummary(col) == x
  {
    hide Sum, SumNat, StrictMajority;
    forall f | 0 <= f < EXCHANGE_GAUGES
      ensures ExchangeSummary(col).gauges[f] == x.gauges[f]
    {
      MeanOfCopies(GaugeColumn(col, f), x.gauges[f]);
    }
    forall f | 0 <= f < EXCHANGE_COUNTERS
      ensures ExchangeSummary(col).counters[f] == x.counters[f]
    {
      FloorMeanOfCopies(CounterColumn(col, f), x.counters[f]);
    }
    MajorityOfCopies(ExchangeFlags(col, true), x.connected);
    MajorityOfCopies(ExchangeFlags(col, false), x.stale);
  }

  lemma SteadyScalars(h: seq<Snapshot>, s: Snapshot)
    requires h != [] && AllAre(h, s)
    ensures BatchReals(h) == s.reals && NatMeans(h) == s.nats
    ensures StrictMajority(FlagColumn(h, true)) == s.backpressure
    ensures StrictMajority(FlagColumn(h, false)) == s.staleFeed
  {
    hide Sum, SumNat, StrictMajority;
    forall f | 0 <= f < REAL_FIELDS
      ensures BatchReals(h)[f] == s.reals[f]
    {
      MeanOfCopies(RealColumn(h, f), s.reals[f]);
    }
    forall f | 0 <= f < NAT_FIELDS
      ensures NatMeans(h)[f] == s.nats[f]
    {
      FloorMeanOfCopies(NatColumn(h, f), s.nats[f]);
    }
    MajorityOfCopies(FlagColumn(h, true), s.backpressure);
    MajorityOfCopies(FlagColumn(h, false), s.staleFeed);
  }

  lemma SteadyHealth(h: seq<Snapshot>, s: Snapshot)
    requires h != [] && AllAre(h, s)
    ensures Plurality(h) == s.health
  {
    hide Plurality, CountTrue;
    forall r: HealthStatus
      ensures CountTrue(HealthColumn(h, r)) == if r == s.health then |h| else 0
    {
      CountOfCopies(HealthColumn(h, r), r == s.health);
    }
    PluralityUnique(h, s.health);
  }

  lemma SteadyLatency(h: seq<Snapshot>, s: Snapshot)
    requires h != [] && AllAre(h, s)
    ensures BatchLatency(h) == s.latency
  {
    hide LatencyColumn, LatencySummary;
    forall c: Category
      ensures LatencyColumn(h, c) != [] <==> c in s.latency
      ensures c in s.latency ==> LatencySummary(LatencyColumn(h, c), |h|) == s.latency[c]
    {
      LatencyPresent(h, c);
      assert h[0] == s;
      if c in s.latency {
        FullLatencyColumn(h, c);
        LatencySummaryOfCopies(LatencyColumn(h, c), s.latency[c]);
      }
    }
  }

  lemma SteadyExchanges(h: seq<Snapshot>, s: Snapshot)
    requires h != [] && AllAre(h, s)
    ensures BatchExchanges(h) == s.exchanges
  {
    hide ExchangeColumn, ExchangeSummary;
    forall name: string
      ensures name in ExchangeNames(h) && ExchangeColumn(h, name) != [] <==> name in s.exchanges
      ensures name in s.exchanges ==> ExchangeSummary(ExchangeColumn(h, name)) == s.exchanges[name]
    {
      ExchangePresent(h, name);
      assert h[0] == s;
      if name in s.exchanges {
        FullExchangeColumn(h, name);
        ExchangeSummaryOfCopies(ExchangeColumn(h, name), s.exchanges[name]);
      }
    }
  }

  /** An interval in which nothing changes is summarized by its snapshot: every member by itself. */
  lemma SteadySummary(h: seq<Snapshot>, s: Snapshot)
    requires h != [] && AllAre(h, s)
    ensures BatchSummary(h) == s
  {
    hide BatchLatency, BatchReals, NatMeans, Plurality, BatchExchanges, StrictMajority;
    SteadyScalars(h, s);
    SteadyHealth(h, s);
    SteadyLatency(h, s);
    SteadyExchanges(h, s);
  }

  // ----- What the latency summary promises -----

  lemma {:induction false} PresentInAll(h: seq<Snapshot>, c: Category)
    ensures |LatencyColumn(h, c)| <= |h|
    ensures |LatencyColumn(h, c)| == |h| <==> forall i :: 0 <= i < |h| ==> c in h[i].latency
    ensures (forall i :: 0 <= i < |h| && c in h[i].latency ==> h[i].latency[c].Ordered()) ==>
              forall x :: x in LatencyColumn(h, c) ==> x.Ordered()
  {
    if h != [] {
      var n := |h| - 1;
      PresentInAll(h[..n], c);
      assert forall i :: 0 <= i < n ==> h[..n][i] == h[i];
    }
  }

  /**
   What is published of an averaged part is the mean of what was observed exactly when the category was in every
   snapshot, or the values sum to zero.
   */
  lemma LatencyPartIsMean(h: seq<Snapshot>, c: Category, part: LatencyPart)
    requires LatencyColumn(h, c) != [] && part != Minimum && part != Maximum
    ensures c in BatchSummary(h).latency
    ensures Part(BatchSummary(h).latency[c], part) == Mean(Parts(LatencyColumn(h, c), part)) <==>
              (forall i :: 0 <= i < |h| ==> c in h[i].latency) || Sum(Parts(LatencyColumn(h, c), part)) == 0.0
  {
    PresentInAll(h, c);
    SummaryOfColumn(h, c);
    hide BatchSummary, LatencyColumn;
    QuotientsDiffer(Sum(Parts(LatencyColumn(h, c), part)), |h| as real, |LatencyColumn(h, c)| as real);
  }

  /** The published count is the floored mean exactly when the total reaches that mean for every snapshot. */
  lemma LatencyCountIsMean(h: seq<Snapshot>, c: Category)
    requires LatencyColumn(h, c) != []
    ensures c in BatchSummary(h).latency
    ensures var counts := Counts(LatencyColumn(h, c));
            BatchSummary(h).latency[c].count == FloorMean(counts) <==> |h| * FloorMean(counts) <= SumNat(counts)
  {
    PresentInAll(h, c);
    SummaryOfColumn(h, c);
    hide BatchSummary, LatencyColumn;
    var col := LatencyColumn(h, c);
    FloorsDiffer(SumNat(Counts(col)), |h|, |col|);
  }

  lemma SummaryOfColumn(h: seq<Snapshot>, c: Category)
    requires LatencyColumn(h, c) != []
    ensures c in BatchSummary(h).latency && h != []
    ensures BatchSummary(h).latency[c] == LatencySummary(LatencyColumn(h, c), |h|)
  {
    hide LatencySummary, BatchReals, NatMeans, BatchExchanges, Plurality, StrictMajority;
  }

  lemma FloorIs(x: nat, n: nat, q: nat)
    requires n > 0
    ensures x / n == q <==> q * n <= x < q * n + n
  {
    if q * n <= x < q * n + n {
      DivModUnique(x, n, q, x - q * n);
    }
  }

  lemma FloorsDiffer(x: nat, n: nat, m: nat)
    requires n >= m > 0
    ensures x / n == x / m <==> n * (x / m) <= x
  {
    var q := x / m;
    FloorIs(x, m, q);
    FloorIs(x, n, q);
    MulDistributes(n, m, q);
    Product(n - m, q);
  }

  lemma Product(a: nat, b: nat)
    ensures a * b >= 0
  {
  }

  /** What the collector puts into a snapshot: ordered statistics for every category. */
  ghost predicate Collected(s: Snapshot) {
    forall c: Category :: c in s.latency && s.latency[c].Ordered()
  }

  /** The collector copies the tracker's statistics into the snapshot. */
  method CollectLatency(tracker: LatencyTracker, s: Snapshot) returns (r: Snapshot)
    requires tracker.Valid()
    ensures Collected(r) && r == s.(latency := r.latency)
    ensures forall c: Category :: r.latency[c] == StatsOf(LastN(tracker.History(c), tracker.windowSize))
  {
    var all := tracker.GetAllLatencyStats();
    r := s.(latency := all);
  }

  /** Collected snapshots are summarized by ordered means. */
  lemma CollectedGiveMeans(h: seq<Snapshot>, c: Category, part: LatencyPart)
    requires h != [] && forall i :: 0 <= i < |h| ==> Collected(h[i])
    requires part != Minimum && part != Maximum
    ensures LatencyColumn(h, c) != [] && c in BatchSummary(h).latency
    ensures Part(BatchSummary(h).latency[c], part) == Mean(Parts(LatencyColumn(h, c), part))
    ensures BatchSummary(h).latency[c].count == FloorMean(Counts(LatencyColumn(h, c)))
    ensures BatchSummary(h).latency[c].Ordered()
  {
    hide BatchSummary, LatencyColumn, LatencyStats.Ordered;
    assert forall i :: 0 <= i < |h| ==> c in h[i].latency && h[i].latency[c].Ordered();
    PresentInAll(h, c);
    LatencyPartIsMean(h, c, part);
    SummaryOfColumn(h, c);
    SummaryKeepsOrder(h, c);
  }

  /** A snapshot with an average of 1, followed by one without the category, is published as 0.5. */
  lemma MissingCategoryHalves()
    ensures var x := Blank().(latency := map[General := NO_STATS.(average := 1.0)]);
            var h := [x, Blank()];
            && LatencyColumn(h, General) != [] && Mean(Parts(LatencyColumn(h, General), Average)) == 1.0
            && General in BatchSummary(h).latency && BatchSummary(h).latency[General].average == 0.5
  {
    var x := Blank().(latency := map[General := NO_STATS.(average := 1.0)]);
    var h := [x, Blank()];
    assert h[..1] == [x] && h[..1][..0] == [];
    var col := LatencyColumn(h, General);
    assert LatencyColumn([x], General) == [NO_STATS.(average := 1.0)];
    assert col == [NO_STATS.(average := 1.0)];
    assert Parts(col, Average) == [1.0] && [1.0][..0] == [];
    SummaryOfColumn(h, General);
    hide BatchSummary, LatencyColumn;
  }

  lemma QuotientsDiffer(x: real, n: real, m: real)
    requires n > 0.0 && m > 0.0
    ensures x / n == x / m <==> n == m || x == 0.0
  {
    var q := x / n;
    assert q * n == x;
    if q == x / m {
      assert q * m == x;
      assert q * (n - m) == 0.0;
    }
  }

  /** Averaging keeps the order min <= p50 <= p95 <= p99 <= max and min <= average <= max. */
  lemma SummaryKeepsOrder(h: seq<Snapshot>, c: Category)
    requires h != [] && forall i :: 0 <= i < |h| ==> c in h[i].latency && h[i].latency[c].Ordered()
    ensures c in BatchSummary(h).latency && BatchSummary(h).latency[c].Ordered()
  {
    var col, n := LatencyColumn(h, c), |h| as real;
    PresentInAll(h, c);
    forall i | 0 <= i < |col|
      ensures col[i].Ordered()
    {
      assert col[i] in col;
    }
    PartBetween(col, Average);
    PartBetween(col, P50);
    PartBetween(col, P99);
    MeansOrdered(col, P50, P95);
    MeansOrdered(col, P95, P99);
  }

  lemma PartBetween(col: seq<LatencyStats>, part: LatencyPart)
    requires col != [] && forall i :: 0 <= i < |col| ==> col[i].Ordered()
    requires part != Minimum && part != Maximum
    ensures Min(Parts(col, Minimum)) <= Mean(Parts(col, part)) <= Max(Parts(col, Maximum))
  {
    var lo, hi, values := Min(Parts(col, Minimum)), Max(Parts(col, Maximum)), Parts(col, part);
    ExtremaBound(Parts(col, Minimum));
    ExtremaBound(Parts(col, Maximum));
    forall x | x in values
      ensures lo <= x <= hi
    {
      var i :| 0 <= i < |values| && values[i] == x;
      assert col[i].Ordered();
      assert Parts(col, Minimum)[i] in Parts(col, Minimum);
      assert Parts(col, Maximum)[i] in Parts(col, Maximum);
    }
    MeanBetween(values, lo, hi);
  }

  lemma MeansOrdered(col: seq<LatencyStats>, low: LatencyPart, high: LatencyPart)
    requires col != [] && forall i :: 0 <= i < |col| ==> Part(col[i], low) <= Part(col[i], high)
    ensures Mean(Parts(col, low)) <= Mean(Parts(col, high))
  {
    SumMonotone(Parts(col, low), Parts(col, high));
    DivMonotone(Sum(Parts(col, low)), Sum(Parts(col, high)), |col| as real);
  }

  lemma DivMonotone(x: real, y: real, n: real)
    requires n > 0.0 && x <= y
    ensures x / n <= y / n
  {
    assert n * (y / n) == y;
    DivBetween(x, n, x / n, y / n);
  }
}
