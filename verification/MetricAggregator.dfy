/** Running statistics over an interval: metrics/metric_aggregator.cpp. */
module MetricAggregation {
  import opened Sequences
  import opened LatencyTracking
  import opened Snapshots
  import opened BatchSummaries

  /**
   The initialization flags, by the members they guard; the throughput rates and the feed health are accumulated
   without one.
   */
  datatype Group = System | Queue | Session | Network | Database

  function GroupOf(f: nat): Option<Group> {
    if f < CPU_USAGE_PERCENT then None
    else if f < QUEUE_WAIT_TIME_MS then Some(System)
    else if f < AVERAGE_SESSION_DURATION_MS then Some(Queue)
    else if f < SOCKET_RTT_MS then Some(Session)
    else if f < INSERT_LATENCY_MS then Some(Network)
    else Some(Database)
  }

  function NatGroupOf(f: nat): Option<Group> {
    if f < INCOMING_QUEUE_DEPTH then Some(System)
    else if f < ACTIVE_CLIENTS then Some(Queue)
    else if f < ACTIVE_DB_CONNECTIONS then Some(Session)
    else if f < FEED_HEALTH_SCORE then Some(Database)
    else None
  }

  type NatSums = v: seq<nat> | |v| == NAT_FIELDS witness seq(NAT_FIELDS, _ => 0)

  datatype LatencyRunning = LatencyRunning(
    sumAvg: real, sumMin: real, sumMax: real, sumP50: real, sumP95: real, sumP99: real, sumCount: nat,
    minMin: real, maxMax: real, minP50: real, maxP50: real, minP95: real, maxP95: real, minP99: real, maxP99: real)

  datatype ExchangeRunning = ExchangeRunning(
    gaugeSums: Gauges, counterSums: Counters, connectedCount: nat, staleCount: nat, sampleCount: nat,
    lastConnected: bool, lastStale: bool)

  function NoExchange(): ExchangeRunning {
    ExchangeRunning(seq(EXCHANGE_GAUGES, _ => 0.0), seq(EXCHANGE_COUNTERS, _ => 0), 0, 0, 0, false, false)
  }

  datatype Flags = Flags(backpressure: nat, stale: nat, healthy: nat, degraded: nat, critical: nat)

  const RATE_FLAGS := 10

  /** Running extrema of the rates, with the flags that say whether a rate was seen since the last reset. */
  datatype RateVectors = RateVectors(mins: seq<real>, maxs: seq<real>, flags: seq<bool>)

  type RateExtrema = e: RateVectors | |e.mins| == RATES && |e.maxs| == RATES && |e.flags| == RATE_FLAGS
    witness NoExtrema()

  function NoExtrema(): RateVectors {
    RateVectors(seq(RATES, _ => 0.0), seq(RATES, _ => 0.0), seq(RATE_FLAGS, _ => false))
  }

  /** Messages, bytes and packets share one flag between the received and the sent rate. */
  function FlagOf(i: nat): nat {
    if i < TICKS_PER_SEC then i / 2 else i - 3
  }

  /** The first of the rates that a flag guards. */
  predicate Leads(i: nat) {
    i >= TICKS_PER_SEC || i % 2 == 0
  }

  datatype SystemExtrema = SystemExtrema(minCpu: real, maxCpu: real, minRss: nat, maxRss: nat)

  // ----- One snapshot -----

  function AddLatency(running: map<Category, LatencyRunning>, c: Category, x: LatencyStats): LatencyRunning {
    if c !in running then
      LatencyRunning(x.average, x.min, x.max, x.p50, x.p95, x.p99, x.count,
                     x.min, x.max, x.p50, x.p50, x.p95, x.p95, x.p99, x.p99)
    else
      var r := running[c];
      LatencyRunning(r.sumAvg + x.average, r.sumMin + x.min, r.sumMax + x.max,
                     r.sumP50 + x.p50, r.sumP95 + x.p95, r.sumP99 + x.p99, r.sumCount + x.count,
                     Lesser(r.minMin, x.min), Greater(r.maxMax, x.max),
                     Lesser(r.minP50, x.p50), Greater(r.maxP50, x.p50),
                     Lesser(r.minP95, x.p95), Greater(r.maxP95, x.p95),
                     Lesser(r.minP99, x.p99), Greater(r.maxP99, x.p99))
  }

  function Lesser(a: real, b: real): real {
    if b < a then b else a
  }

  function Greater(a: real, b: real): real {
    if b > a then b else a
  }

  function AddGauges(a: Gauges, b: Gauges): Gauges {
    seq(EXCHANGE_GAUGES, f requires 0 <= f < EXCHANGE_GAUGES => a[f] + b[f])
  }

  function AddCounters(a: Counters, b: Counters): Counters {
    seq(EXCHANGE_COUNTERS, f requires 0 <= f < EXCHANGE_COUNTERS => a[f] + b[f])
  }

  function AddExchange(running: map<string, ExchangeRunning>, name: string, x: ExchangeStats): ExchangeRunning {
    var r := if name in running then running[name] else NoExchange();
    ExchangeRunning(AddGauges(r.gaugeSums, x.gauges), AddCounters(r.counterSums, x.counters),
                    r.connectedCount + (if x.connected then 1 else 0),
                    r.staleCount + (if x.stale then 1 else 0),
                    r.sampleCount + 1, x.connected, x.stale)
  }

  function AddLatencies(running: map<Category, LatencyRunning>, s: Snapshot): map<Category, LatencyRunning> {
    map c | c in running.Keys + s.latency.Keys ::
      if c in s.latency then AddLatency(running, c, s.latency[c]) else running[c]
  }

  function AddExchanges(running: map<string, ExchangeRunning>, s: Snapshot): map<string, ExchangeRunning> {
    map name | name in running.Keys + s.exchanges.Keys ::
      if name in s.exchanges then AddExchange(running, name, s.exchanges[name]) else running[name]
  }

  function AddReals(sums: Reals, initialized: set<Group>, s: Snapshot): Reals {
    seq(REAL_FIELDS, f requires 0 <= f < REAL_FIELDS =>
      var group := GroupOf(f);
      if group.Some? && group.value !in initialized then s.reals[f] else sums[f] + s.reals[f])
  }

  function AddNats(sums: NatSums, initialized: set<Group>, s: Snapshot): NatSums {
    seq(NAT_FIELDS, f requires 0 <= f < NAT_FIELDS =>
      var group := NatGroupOf(f);
      if group.Some? && group.value !in initialized then s.nats[f] else sums[f] + s.nats[f])
  }

  function AddFlags(flags: Flags, initialized: set<Group>, s: Snapshot): Flags {
    Flags(if Queue !in initialized then (if s.backpressure then 1 else 0)
          else if s.backpressure then flags.backpressure + 1 else flags.backpressure,
          if s.staleFeed then flags.stale + 1 else flags.stale,
          if s.health == Healthy then flags.healthy + 1 else flags.healthy,
          if s.health == Degraded then flags.degraded + 1 else flags.degraded,
          if s.health == Critical then flags.critical + 1 else flags.critical)
  }

  function AccumRate(e: RateExtrema, i: nat, val: real): RateExtrema
    requires i < RATES
  {
    if !e.flags[FlagOf(i)] then
      RateVectors(e.mins[i := val], e.maxs[i := val], e.flags[FlagOf(i) := true])
    else
      e.(mins := e.mins[i := Lesser(e.mins[i], val)], maxs := e.maxs[i := Greater(e.maxs[i], val)])
  }

  /** The first `n` of the calls of accum_rate. */
  function AccumRates(e: RateExtrema, s: Snapshot, n: nat): RateExtrema
    requires n <= RATES
  {
    if n == 0 then e else AccumRate(AccumRates(e, s, n - 1), n - 1, s.reals[n - 1])
  }

  function AddSystem(e: SystemExtrema, initialized: set<Group>, s: Snapshot): SystemExtrema {
    var cpu, rss := s.reals[CPU_USAGE_PERCENT], s.nats[MEMORY_RSS];
    if System !in initialized then SystemExtrema(cpu, cpu, rss, rss)
    else
      SystemExtrema(Lesser(e.minCpu, cpu), Greater(e.maxCpu, cpu),
                    if rss < e.minRss then rss else e.minRss, if rss > e.maxRss then rss else e.maxRss)
  }

  // ----- The running values are the folds of the columns -----

  /** A flag is raised by the first snapshot of an interval. */
  ghost predicate TracksInitialized(initialized: set<Group>, h: seq<Snapshot>) {
    forall g: Group :: g in initialized <==> h != []
  }

  ghost predicate TracksReals(sums: Reals, h: seq<Snapshot>) {
    forall f :: 0 <= f < REAL_FIELDS ==> sums[f] == Sum(RealColumn(h, f))
  }

  ghost predicate TracksNats(sums: NatSums, h: seq<Snapshot>) {
    forall f :: 0 <= f < NAT_FIELDS ==> sums[f] == SumNat(NatColumn(h, f))
  }

  ghost predicate TracksFlags(flags: Flags, h: seq<Snapshot>) {
    && flags.backpressure == CountTrue(FlagColumn(h, true))
    && flags.stale == CountTrue(FlagColumn(h, false))
    && flags.healthy == CountTrue(HealthColumn(h, Healthy))
    && flags.degraded == CountTrue(HealthColumn(h, Degraded))
    && flags.critical == CountTrue(HealthColumn(h, Critical))
  }

  ghost predicate TracksLatency(r: LatencyRunning, col: seq<LatencyStats>) {
    && col != []
    && r.sumAvg == Sum(Parts(col, Average))
    && r.sumMin == Sum(Parts(col, Minimum)) && r.sumMax == Sum(Parts(col, Maximum))
    && r.sumP50 == Sum(Parts(col, P50)) && r.sumP95 == Sum(Parts(col, P95)) && r.sumP99 == Sum(Parts(col, P99))
    && r.sumCount == SumNat(Counts(col))
    && r.minMin == Min(Parts(col, Minimum)) && r.maxMax == Max(Parts(col, Maximum))
    && r.minP50 == Min(Parts(col, P50)) && r.maxP50 == Max(Parts(col, P50))
    && r.minP95 == Min(Parts(col, P95)) && r.maxP95 == Max(Parts(col, P95))
    && r.minP99 == Min(Parts(col, P99)) && r.maxP99 == Max(Parts(col, P99))
  }

  ghost predicate TracksLatencies(running: map<Category, LatencyRunning>, h: seq<Snapshot>) {
    forall c: Category ::
      && (c in running <==> LatencyColumn(h, c) != [])
      && (c in running ==> TracksLatency(running[c], LatencyColumn(h, c)))
  }

  ghost predicate TracksExchange(r: ExchangeRunning, col: seq<ExchangeStats>) {
    && (forall f :: 0 <= f < EXCHANGE_GAUGES ==> r.gaugeSums[f] == Sum(GaugeColumn(col, f)))
    && (forall f :: 0 <= f < EXCHANGE_COUNTERS ==> r.counterSums[f] == SumNat(CounterColumn(col, f)))
    && r.connectedCount == CountTrue(ExchangeFlags(col, true))
    && r.staleCount == CountTrue(ExchangeFlags(col, false))
    && r.sampleCount == |col|
    && (col != [] ==> r.lastConnected == col[|col| - 1].connected && r.lastStale == col[|col| - 1].stale)
  }

  ghost predicate TracksExchanges(running: map<string, ExchangeRunning>, h: seq<Snapshot>) {
    forall name ::
      && (name in running <==> ExchangeColumn(h, name) != [])
      && (name in running ==> TracksExchange(running[name], ExchangeColumn(h, name)))
      && (name in running ==> name in ExchangeNames(h))
  }

  /** The extremum of a rate: the second of two rates that share a flag never forgets the value before the reset. */
  function RateMin(stale: real, leads: bool, col: seq<real>): real {
    if col == [] then stale else if leads then Min(col) else Lesser(stale, Min(col))
  }

  function RateMax(stale: real, leads: bool, col: seq<real>): real {
    if col == [] then stale else if leads then Max(col) else Greater(stale, Max(col))
  }

  /** `stale` holds the extrema at the last reset. */
  ghost predicate TracksRates(e: RateExtrema, stale: RateExtrema, h: seq<Snapshot>) {
    && (forall f :: 0 <= f < RATE_FLAGS ==> (e.flags[f] <==> h != []))
    && (forall i :: 0 <= i < RATES ==>
          && e.mins[i] == RateMin(stale.mins[i], Leads(i), RealColumn(h, i))
          && e.maxs[i] == RateMax(stale.maxs[i], Leads(i), RealColumn(h, i)))
  }

  ghost predicate TracksSystem(e: SystemExtrema, h: seq<Snapshot>) {
    h != [] ==>
      var cpu, rss := RealColumn(h, CPU_USAGE_PERCENT), NatColumn(h, MEMORY_RSS);
      && e.minCpu == Min(cpu) && e.maxCpu == Max(cpu)
      && e.minRss == MinNat(rss) && e.maxRss == MaxNat(rss)
  }

  lemma AllInitialized(h: seq<Snapshot>)
    requires h != []
    ensures TracksInitialized({System, Queue, Session, Network, Database}, h)
  {
    var all := {System, Queue, Session, Network, Database};
    forall g: Group
      ensures g in all
    {
      match g
      case System | Queue | Session | Network | Database =>
    }
  }

  lemma AddRealsTracks(sums: Reals, initialized: set<Group>, h: seq<Snapshot>, s: Snapshot)
    requires TracksReals(sums, h) && TracksInitialized(initialized, h)
    ensures TracksReals(AddReals(sums, initialized, s), h + [s])
  {
    hide Sum, RealColumn;
    NoReals(h);
    forall f | 0 <= f < REAL_FIELDS
      ensures AddReals(sums, initialized, s)[f] == Sum(RealColumn(h + [s], f))
    {
      RealSumSnoc(h, s, f);
    }
  }

  lemma RealSumSnoc(h: seq<Snapshot>, s: Snapshot, f: nat)
    requires f < REAL_FIELDS
    ensures Sum(RealColumn(h + [s], f)) == Sum(RealColumn(h, f)) + s.reals[f]
  {
    assert RealColumn(h + [s], f) == RealColumn(h, f) + [s.reals[f]];
    SumSnoc(RealColumn(h, f), s.reals[f]);
  }

  lemma NoReals(h: seq<Snapshot>)
    ensures h == [] ==> forall f :: 0 <= f < REAL_FIELDS ==> Sum(RealColumn(h, f)) == 0.0
  {
  }

  /** How many flags the first `n` rates raise. */
  function FlagCount(n: nat): nat {
    if n <= TICKS_PER_SEC then (n + 1) / 2 else n - 3
  }

  /** When its turn comes, a leading rate finds its flag as the reset left it; a following one finds it raised. */
  lemma FlagAtTurn(i: nat)
    requires i < RATES
    ensures FlagOf(i) < RATE_FLAGS
    ensures if Leads(i) then FlagOf(i) == FlagCount(i) && FlagCount(i + 1) == FlagOf(i) + 1
            else FlagOf(i) < FlagCount(i) && FlagCount(i + 1) == FlagCount(i)
  {
  }

  predicate AllFlags(e: RateExtrema, up: bool) {
    forall f :: 0 <= f < RATE_FLAGS ==> e.flags[f] == up
  }

  lemma {:induction false} AccumRatesFlags(e: RateExtrema, s: Snapshot, n: nat, up: bool)
    requires n <= RATES && AllFlags(e, up)
    ensures forall f :: 0 <= f < RATE_FLAGS ==> (AccumRates(e, s, n).flags[f] <==> up || f < FlagCount(n))
  {
    if n > 0 {
      FlagAtTurn(n - 1);
      hide FlagOf, FlagCount, Leads;
      AccumRatesFlags(e, s, n - 1, up);
    }
  }

  lemma AccumRateAt(e: RateExtrema, i: nat, val: real, j: nat)
    requires i < RATES && j < RATES && FlagOf(i) < RATE_FLAGS
    ensures var r := AccumRate(e, i, val);
            && r.mins[j] == (if i != j then e.mins[j] else if !e.flags[FlagOf(i)] then val else Lesser(e.mins[j], val))
            && r.maxs[j] == (if i != j then e.maxs[j] else if !e.flags[FlagOf(i)] then val else Greater(e.maxs[j], val))
  {
  }

  /** From flags that are all up or all down, each leading rate starts afresh or all rates go on. */
  lemma {:induction false} AccumRatesAt(e: RateExtrema, s: Snapshot, n: nat, up: bool, i: nat)
    requires i < RATES && n <= RATES && AllFlags(e, up)
    ensures var r, anew := AccumRates(e, s, n), !up && Leads(i);
            && r.mins[i] == (if n <= i then e.mins[i] else if anew then s.reals[i] else Lesser(e.mins[i], s.reals[i]))
            && r.maxs[i] == (if n <= i then e.maxs[i] else if anew then s.reals[i] else Greater(e.maxs[i], s.reals[i]))
  {
    if n > 0 {
      FlagAtTurn(n - 1);
      hide Lesser, Greater, FlagOf, FlagCount, Leads, AccumRate, AllFlags;
      AccumRatesAt(e, s, n - 1, up, i);
      AccumRatesFlags(e, s, n - 1, up);
      AccumRateAt(AccumRates(e, s, n - 1), n - 1, s.reals[n - 1], i);
    }
  }

  lemma RateColumnSnoc(h: seq<Snapshot>, s: Snapshot, i: nat, smallest: real, greatest: real)
    requires i < RATES
    ensures var col, val := RealColumn(h, i), s.reals[i];
            var after := RealColumn(h + [s], i);
            && RateMin(smallest, Leads(i), after) ==
               (if h == [] && Leads(i) then val else Lesser(RateMin(smallest, Leads(i), col), val))
            && RateMax(greatest, Leads(i), after) ==
               (if h == [] && Leads(i) then val else Greater(RateMax(greatest, Leads(i), col), val))
  {
    assert RealColumn(h + [s], i) == RealColumn(h, i) + [s.reals[i]];
    ExtremaSnoc(RealColumn(h, i), s.reals[i]);
  }

  lemma AccumRatesTracks(e: RateExtrema, stale: RateExtrema, h: seq<Snapshot>, s: Snapshot)
    requires TracksRates(e, stale, h)
    ensures TracksRates(AccumRates(e, s, RATES), stale, h + [s])
  {
    hide AccumRates, RateMin, RateMax, Lesser, Greater, RealColumn;
    assert AllFlags(e, h != []);
    AccumRatesFlags(e, s, RATES, h != []);
    forall i | 0 <= i < RATES
      ensures RateMin(stale.mins[i], Leads(i), RealColumn(h + [s], i)) == AccumRates(e, s, RATES).mins[i]
      ensures RateMax(stale.maxs[i], Leads(i), RealColumn(h + [s], i)) == AccumRates(e, s, RATES).maxs[i]
    {
      AccumRatesAt(e, s, RATES, h != [], i);
      RateColumnSnoc(h, s, i, stale.mins[i], stale.maxs[i]);
    }
  }

  lemma AddSystemTracks(e: SystemExtrema, initialized: set<Group>, h: seq<Snapshot>, s: Snapshot)
    requires TracksSystem(e, h) && TracksInitialized(initialized, h)
    ensures TracksSystem(AddSystem(e, initialized, s), h + [s])
  {
    assert RealColumn(h + [s], CPU_USAGE_PERCENT) == RealColumn(h, CPU_USAGE_PERCENT) + [s.reals[CPU_USAGE_PERCENT]];
    assert NatColumn(h + [s], MEMORY_RSS) == NatColumn(h, MEMORY_RSS) + [s.nats[MEMORY_RSS]];
    ExtremaSnoc(RealColumn(h, CPU_USAGE_PERCENT), s.reals[CPU_USAGE_PERCENT]);
    NatExtremaSnoc(NatColumn(h, MEMORY_RSS), s.nats[MEMORY_RSS]);
    assert System in initialized <==> h != [];
  }

  /**
   The running minimum of a rate that follows another under the same flag is the true one exactly when nothing
   smaller was left behind by the last reset.
   */
  lemma FollowingRateMin(e: RateExtrema, stale: RateExtrema, h: seq<Snapshot>, i: nat)
    requires TracksRates(e, stale, h) && h != [] && i < RATES
    ensures e.mins[i] == Min(RealColumn(h, i)) <==> Leads(i) || Min(RealColumn(h, i)) <= stale.mins[i]
    ensures e.maxs[i] == Max(RealColumn(h, i)) <==> Leads(i) || Max(RealColumn(h, i)) >= stale.maxs[i]
  {
    assert RealColumn(h, i) != [];
  }

  /** One snapshot with 5 messages sent per second leaves a running minimum of 0. */
  lemma FollowingRateMinFails()
    ensures var s := Blank().(reals := Blank().reals[MESSAGES_SENT_PER_SEC := 5.0]);
            && AccumRates(NoExtrema(), s, RATES).mins[MESSAGES_SENT_PER_SEC] == 0.0
            && Min(RealColumn([s], MESSAGES_SENT_PER_SEC)) == 5.0
  {
    var s := Blank().(reals := Blank().reals[MESSAGES_SENT_PER_SEC := 5.0]);
    AccumRatesAt(NoExtrema(), s, RATES, false, MESSAGES_SENT_PER_SEC);
  }

  lemma AddNatsTracks(sums: NatSums, initialized: set<Group>, h: seq<Snapshot>, s: Snapshot)
    requires TracksNats(sums, h) && TracksInitialized(initialized, h)
    ensures TracksNats(AddNats(sums, initialized, s), h + [s])
  {
    hide SumNat, NatColumn;
    NoNats(h);
    forall f | 0 <= f < NAT_FIELDS
      ensures AddNats(sums, initialized, s)[f] == SumNat(NatColumn(h + [s], f))
    {
      NatSumSnoc(h, s, f);
    }
  }

  lemma NatSumSnoc(h: seq<Snapshot>, s: Snapshot, f: nat)
    requires f < NAT_FIELDS
    ensures SumNat(NatColumn(h + [s], f)) == SumNat(NatColumn(h, f)) + s.nats[f]
  {
    assert NatColumn(h + [s], f) == NatColumn(h, f) + [s.nats[f]];
    SumNatSnoc(NatColumn(h, f), s.nats[f]);
  }

  lemma NoNats(h: seq<Snapshot>)
    ensures h == [] ==> forall f :: 0 <= f < NAT_FIELDS ==> SumNat(NatColumn(h, f)) == 0
  {
  }

  lemma AddFlagsTracks(flags: Flags, initialized: set<Group>, h: seq<Snapshot>, s: Snapshot)
    requires TracksFlags(flags, h) && TracksInitialized(initialized, h)
    ensures TracksFlags(AddFlags(flags, initialized, s), h + [s])
  {
    FlagsSnoc(h, s);
    HealthSnoc(h, s, Healthy);
    HealthSnoc(h, s, Degraded);
    HealthSnoc(h, s, Critical);
    assert Queue in initialized <==> h != [];
    assert h == [] ==> flags.backpressure == 0;
  }

  lemma FlagsSnoc(h: seq<Snapshot>, s: Snapshot)
    ensures CountTrue(FlagColumn(h + [s], true)) == CountTrue(FlagColumn(h, true)) + if s.backpressure then 1 else 0
    ensures CountTrue(FlagColumn(h + [s], false)) == CountTrue(FlagColumn(h, false)) + if s.staleFeed then 1 else 0
  {
    assert FlagColumn(h + [s], true) == FlagColumn(h, true) + [s.backpressure];
    assert FlagColumn(h + [s], false) == FlagColumn(h, false) + [s.staleFeed];
    CountTrueSnoc(FlagColumn(h, true), s.backpressure);
    CountTrueSnoc(FlagColumn(h, false), s.staleFeed);
  }

  lemma HealthSnoc(h: seq<Snapshot>, s: Snapshot, status: HealthStatus)
    ensures CountTrue(HealthColumn(h + [s], status)) ==
              CountTrue(HealthColumn(h, status)) + if s.health == status then 1 else 0
  {
    assert HealthColumn(h + [s], status) == HealthColumn(h, status) + [s.health == status];
    CountTrueSnoc(HealthColumn(h, status), s.health == status);
  }

  lemma PartsSnoc(col: seq<LatencyStats>, x: LatencyStats, part: LatencyPart)
    ensures Sum(Parts(col + [x], part)) == Sum(Parts(col, part)) + Part(x, part)
    ensures Min(Parts(col + [x], part)) ==
              if col == [] then Part(x, part) else Lesser(Min(Parts(col, part)), Part(x, part))
    ensures Max(Parts(col + [x], part)) ==
              if col == [] then Part(x, part) else Greater(Max(Parts(col, part)), Part(x, part))
  {
    assert Parts(col + [x], part) == Parts(col, part) + [Part(x, part)];
    SumSnoc(Parts(col, part), Part(x, part));
    ExtremaSnoc(Parts(col, part), Part(x, part));
  }

  lemma AddLatencyTracks(running: map<Category, LatencyRunning>, c: Category, col: seq<LatencyStats>, x: LatencyStats)
    requires if c in running then TracksLatency(running[c], col) else col == []
    ensures TracksLatency(AddLatency(running, c, x), col + [x])
  {
    hide Parts, Counts, Sum, SumNat, Min, Max, Lesser, Greater;
    PartsSnoc(col, x, Average);
    PartsSnoc(col, x, P50);
    PartsSnoc(col, x, P95);
    PartsSnoc(col, x, P99);
    PartsSnoc(col, x, Minimum);
    PartsSnoc(col, x, Maximum);
    CountsSnoc(col, x);
    NoParts(c !in running, col);
  }

  lemma CountsSnoc(col: seq<LatencyStats>, x: LatencyStats)
    ensures SumNat(Counts(col + [x])) == SumNat(Counts(col)) + x.count
  {
    assert Counts(col + [x]) == Counts(col) + [x.count];
    SumNatSnoc(Counts(col), x.count);
  }

  lemma NoParts(none: bool, col: seq<LatencyStats>)
    requires none ==> col == []
    ensures none ==> SumNat(Counts(col)) == 0 && forall part :: Sum(Parts(col, part)) == 0.0
  {
  }

  lemma AddLatenciesTracks(running: map<Category, LatencyRunning>, h: seq<Snapshot>, s: Snapshot)
    requires TracksLatencies(running, h)
    ensures TracksLatencies(AddLatencies(running, s), h + [s])
  {
    assert (h + [s])[..|h|] == h;
    var after := AddLatencies(running, s);
    forall c: Category
      ensures c in after <==> LatencyColumn(h + [s], c) != []
      ensures c in after ==> TracksLatency(after[c], LatencyColumn(h + [s], c))
    {
      if c in s.latency {
        AddLatencyTracks(running, c, LatencyColumn(h, c), s.latency[c]);
      } else {
        assert LatencyColumn(h + [s], c) == LatencyColumn(h, c);
      }
    }
  }

  lemma GaugesSnoc(col: seq<ExchangeStats>, x: ExchangeStats)
    ensures forall f :: 0 <= f < EXCHANGE_GAUGES ==>
              Sum(GaugeColumn(col + [x], f)) == Sum(GaugeColumn(col, f)) + x.gauges[f]
    ensures forall f :: 0 <= f < EXCHANGE_COUNTERS ==>
              SumNat(CounterColumn(col + [x], f)) == SumNat(CounterColumn(col, f)) + x.counters[f]
  {
    forall f | 0 <= f < EXCHANGE_GAUGES
      ensures Sum(GaugeColumn(col + [x], f)) == Sum(GaugeColumn(col, f)) + x.gauges[f]
    {
      assert GaugeColumn(col + [x], f) == GaugeColumn(col, f) + [x.gauges[f]];
      SumSnoc(GaugeColumn(col, f), x.gauges[f]);
    }
    forall f | 0 <= f < EXCHANGE_COUNTERS
      ensures SumNat(CounterColumn(col + [x], f)) == SumNat(CounterColumn(col, f)) + x.counters[f]
    {
      assert CounterColumn(col + [x], f) == CounterColumn(col, f) + [x.counters[f]];
      SumNatSnoc(CounterColumn(col, f), x.counters[f]);
    }
  }

  lemma AddExchangeTracks(running: map<string, ExchangeRunning>, name: string,
                          col: seq<ExchangeStats>, x: ExchangeStats)
    requires if name in running then TracksExchange(running[name], col) else col == []
    ensures TracksExchange(AddExchange(running, name, x), col + [x])
  {
    GaugesSnoc(col, x);
    ExchangeFlagsSnoc(col, x);
    if name !in running {
      NoExchangeTracks();
    }
  }

  lemma NoExchangeTracks()
    ensures TracksExchange(NoExchange(), [])
  {
  }

  lemma ExchangeFlagsSnoc(col: seq<ExchangeStats>, x: ExchangeStats)
    ensures CountTrue(ExchangeFlags(col + [x], true)) ==
              CountTrue(ExchangeFlags(col, true)) + if x.connected then 1 else 0
    ensures CountTrue(ExchangeFlags(col + [x], false)) ==
              CountTrue(ExchangeFlags(col, false)) + if x.stale then 1 else 0
  {
    assert ExchangeFlags(col + [x], true) == ExchangeFlags(col, true) + [x.connected];
    assert ExchangeFlags(col + [x], false) == ExchangeFlags(col, false) + [x.stale];
    CountTrueSnoc(ExchangeFlags(col, true), x.connected);
    CountTrueSnoc(ExchangeFlags(col, false), x.stale);
  }

  lemma AddExchangesTracks(running: map<string, ExchangeRunning>, h: seq<Snapshot>, s: Snapshot)
    requires TracksExchanges(running, h)
    ensures TracksExchanges(AddExchanges(running, s), h + [s])
  {
    assert (h + [s])[..|h|] == h;
    var after := AddExchanges(running, s);
    assert (h + [s])[|h|] == s;
    forall name: string
      ensures name in after <==> ExchangeColumn(h + [s], name) != []
      ensures name in after ==> TracksExchange(after[name], ExchangeColumn(h + [s], name))
      ensures name in after ==> name in ExchangeNames(h + [s])
    {
      if name in s.exchanges {
        AddExchangeTracks(running, name, ExchangeColumn(h, name), s.exchanges[name]);
      } else {
        assert ExchangeColumn(h + [s], name) == ExchangeColumn(h, name);
        if name in running {
          var i :| 0 <= i < |h| && name in h[i].exchanges;
          assert (h + [s])[i] == h[i];
        }
      }
    }
  }

  // ----- The summary -----

  function LatencySummaryOf(r: LatencyRunning, count: nat): LatencyStats
    requires count > 0
  {
    var n := count as real;
    LatencyStats(r.sumAvg / n, r.minMin, r.maxMax, r.sumP50 / n, r.sumP95 / n, r.sumP99 / n, r.sumCount / count)
  }

  function Quotient(x: nat, n: nat): nat
    requires n > 0
  {
    x / n
  }

  function ExchangeSummaryOf(r: ExchangeRunning): ExchangeStats
    requires r.sampleCount > 0
  {
    ExchangeStats(
      r.connectedCount > r.sampleCount / 2, r.staleCount > r.sampleCount / 2,
      seq(EXCHANGE_GAUGES, f requires 0 <= f < EXCHANGE_GAUGES => r.gaugeSums[f] / r.sampleCount as real),
      seq(EXCHANGE_COUNTERS, f requires 0 <= f < EXCHANGE_COUNTERS => Quotient(r.counterSums[f], r.sampleCount)))
  }

  /** Integer means; the two 32-bit members are truncated on assignment. */
  function NatMeansOf(sums: NatSums, count: nat): Nats
    requires count > 0
  {
    seq(NAT_FIELDS, f requires 0 <= f < NAT_FIELDS =>
      var mean := sums[f] / count;
      if f == THREAD_COUNT || f == FEED_HEALTH_SCORE then mean % U32 else mean)
  }

  function HealthOf(flags: Flags): HealthStatus {
    if flags.healthy >= flags.degraded && flags.healthy >= flags.critical then Healthy
    else if flags.degraded >= flags.critical then Degraded
    else Critical
  }

  function LatencySummariesOf(running: map<Category, LatencyRunning>, count: nat): map<Category, LatencyStats>
    requires count > 0
  {
    map c | c in running :: LatencySummaryOf(running[c], count)
  }

  function RealMeansOf(sums: Reals, count: nat): Reals
    requires count > 0
  {
    seq(REAL_FIELDS, f requires 0 <= f < REAL_FIELDS => sums[f] / count as real)
  }

  function ExchangeSummariesOf(running: map<string, ExchangeRunning>): map<string, ExchangeStats>
    requires forall name :: name in running ==> running[name].sampleCount > 0
  {
    map name | name in running :: ExchangeSummaryOf(running[name])
  }

  lemma SameLatencySummary(r: LatencyRunning, col: seq<LatencyStats>, n: nat)
    requires TracksLatency(r, col) && n > 0
    ensures LatencySummaryOf(r, n) == LatencySummary(col, n)
  {
  }

  lemma LatencySummaries(running: map<Category, LatencyRunning>, h: seq<Snapshot>)
    requires h != [] && TracksLatencies(running, h)
    ensures LatencySummariesOf(running, |h|) == BatchLatency(h)
  {
    hide LatencySummaryOf, LatencySummary, TracksLatency, LatencyColumn;
    forall c: Category | c in running
      ensures LatencyColumn(h, c) != [] && LatencySummaryOf(running[c], |h|) == LatencySummary(LatencyColumn(h, c), |h|)
    {
      SameLatencySummary(running[c], LatencyColumn(h, c), |h|);
    }
  }

  lemma SameExchangeSummary(r: ExchangeRunning, col: seq<ExchangeStats>)
    requires TracksExchange(r, col) && col != []
    ensures r.sampleCount > 0
    ensures ExchangeSummaryOf(r) == ExchangeSummary(col)
  {
    assert ExchangeSummaryOf(r).gauges == ExchangeSummary(col).gauges;
    assert ExchangeSummaryOf(r).counters == ExchangeSummary(col).counters;
  }

  lemma SampleCountsPositive(running: map<string, ExchangeRunning>, h: seq<Snapshot>)
    requires TracksExchanges(running, h)
    ensures forall name :: name in running ==> running[name].sampleCount > 0
  {
  }

  lemma ExchangeSummaries(running: map<string, ExchangeRunning>, h: seq<Snapshot>)
    requires TracksExchanges(running, h)
    requires forall name :: name in running ==> running[name].sampleCount > 0
    ensures ExchangeSummariesOf(running) == BatchExchanges(h)
  {
    hide ExchangeSummaryOf, ExchangeSummary, TracksExchange, ExchangeColumn;
    forall name | name in running
      ensures ExchangeSummaryOf(running[name]) == ExchangeSummary(ExchangeColumn(h, name))
    {
      SameExchangeSummary(running[name], ExchangeColumn(h, name));
    }
  }

  lemma NatSummaries(sums: NatSums, h: seq<Snapshot>)
    requires h != [] && TracksNats(sums, h)
    ensures NatMeansOf(sums, |h|) == NatMeans(h)
  {
    forall f | 0 <= f < NAT_FIELDS
      ensures NatMeansOf(sums, |h|)[f] == NatMeans(h)[f]
    {
      hide NatColumn, SumNat;
      assert sums[f] / |h| == FloorMean(NatColumn(h, f)) by {
        ColumnLength(h, f);
      }
      if f == THREAD_COUNT || f == FEED_HEALTH_SCORE {
        MeanFits(h, f);
        hide FloorMean;
        SmallRemainder(FloorMean(NatColumn(h, f)));
      }
    }
    hide NatColumn, SumNat, FloorMean;
  }

  lemma ColumnLength(h: seq<Snapshot>, f: nat)
    requires f < NAT_FIELDS
    ensures |NatColumn(h, f)| == |h|
  {
  }

  lemma SmallRemainder(x: nat)
    requires x < U32
    ensures x % U32 == x
  {
  }

  lemma RealSummaries(sums: Reals, h: seq<Snapshot>)
    requires h != [] && TracksReals(sums, h)
    ensures RealMeansOf(sums, |h|) == BatchReals(h)
  {
  }

  lemma FlagSummaries(flags: Flags, h: seq<Snapshot>)
    requires TracksFlags(flags, h)
    ensures (flags.backpressure > |h| / 2) == StrictMajority(FlagColumn(h, true))
    ensures (flags.stale > |h| / 2) == StrictMajority(FlagColumn(h, false))
    ensures HealthOf(flags) == Plurality(h)
  {
  }

  // ----- The aggregator -----

  /** Everything the aggregator holds. */
  datatype Running = Running(
    count: nat, latency: map<Category, LatencyRunning>, rates: RateExtrema, system: SystemExtrema,
    realSums: Reals, natSums: NatSums, initialized: set<Group>, lastTotals: Totals, flags: Flags,
    exchanges: map<string, ExchangeRunning>)

  ghost predicate Tracks(r: Running, stale: RateExtrema, h: seq<Snapshot>) {
    && r.count == |h|
    && TracksLatencies(r.latency, h)
    && TracksRates(r.rates, stale, h)
    && TracksSystem(r.system, h)
    && TracksReals(r.realSums, h)
    && TracksNats(r.natSums, h)
    && TracksInitialized(r.initialized, h)
    && (h != [] ==> r.lastTotals == h[|h| - 1].totals)
    && TracksFlags(r.flags, h)
    && TracksExchanges(r.exchanges, h)
  }

  function Add(r: Running, s: Snapshot): Running {
    Running(r.count + 1, AddLatencies(r.latency, s), AccumRates(r.rates, s, RATES),
            AddSystem(r.system, r.initialized, s), AddReals(r.realSums, r.initialized, s),
            AddNats(r.natSums, r.initialized, s), {System, Queue, Session, Network, Database}, s.totals,
            AddFlags(r.flags, r.initialized, s), AddExchanges(r.exchanges, s))
  }

  /** Adding a snapshot keeps every running value the fold of its column. */
  lemma AddTracks(r: Running, stale: RateExtrema, h: seq<Snapshot>, s: Snapshot)
    requires Tracks(r, stale, h)
    ensures Tracks(Add(r, s), stale, h + [s])
  {
    hide TracksLatencies, TracksReals, TracksNats, TracksInitialized, TracksFlags, TracksExchanges, TracksRates;
    hide TracksSystem, AddLatencies, AddReals, AddNats, AddFlags, AddExchanges, AccumRates, AddSystem;
    AddLatenciesTracks(r.latency, h, s);
    AccumRatesTracks(r.rates, stale, h, s);
    AddSystemTracks(r.system, r.initialized, h, s);
    AddRealsTracks(r.realSums, r.initialized, h, s);
    AddNatsTracks(r.natSums, r.initialized, h, s);
    AddFlagsTracks(r.flags, r.initialized, h, s);
    AddExchangesTracks(r.exchanges, h, s);
    AllInitialized(h + [s]);
  }

  function Lowered(rates: RateExtrema): (r: RateExtrema)
    ensures r.mins == rates.mins && r.maxs == rates.maxs && AllFlags(r, false)
  {
    rates.(flags := seq(RATE_FLAGS, _ => false))
  }

  /** What a reset leaves: the rates keep their extrema, and the system gauges keep the extrema of the memory. */
  function Cleared(rates: RateExtrema, minRss: nat, maxRss: nat): Running {
    Running(0, map[], Lowered(rates), SystemExtrema(0.0, 0.0, minRss, maxRss),
            Blank().reals, Blank().nats, {}, Blank().totals, Flags(0, 0, 0, 0, 0), map[])
  }

  /** A cleared aggregator has seen nothing, whatever extrema it still holds. */
  lemma ClearedTracks(rates: RateExtrema, minRss: nat, maxRss: nat)
    ensures var r := Cleared(rates, minRss, maxRss); Tracks(r, r.rates, [])
  {
    hide TracksExchange, TracksLatency;
  }

  function SummaryOf(r: Running): Snapshot
    requires r.count > 0 && forall name :: name in r.exchanges ==> r.exchanges[name].sampleCount > 0
  {
    Snapshot(LatencySummariesOf(r.latency, r.count), RealMeansOf(r.realSums, r.count), NatMeansOf(r.natSums, r.count),
             r.lastTotals, r.flags.backpressure > r.count / 2, r.flags.stale > r.count / 2, HealthOf(r.flags),
             ExchangeSummariesOf(r.exchanges))
  }

  /** The running values determine the batch summary. */
  lemma SummaryIsBatch(r: Running, stale: RateExtrema, h: seq<Snapshot>)
    requires Tracks(r, stale, h) && h != []
    ensures forall name :: name in r.exchanges ==> r.exchanges[name].sampleCount > 0
    ensures SummaryOf(r) == BatchSummary(h)
  {
    hide TracksLatencies, TracksReals, TracksNats, TracksInitialized, TracksFlags, TracksExchanges, TracksRates;
    hide TracksSystem, LatencySummariesOf, RealMeansOf, NatMeansOf, HealthOf, ExchangeSummariesOf;
    hide BatchLatency, BatchReals, NatMeans, StrictMajority, Plurality, BatchExchanges;
    LatencySummaries(r.latency, h);
    SampleCountsPositive(r.exchanges, h);
    ExchangeSummaries(r.exchanges, h);
    NatSummaries(r.natSums, h);
    RealSummaries(r.realSums, h);
    FlagSummaries(r.flags, h);
  }

  class MetricAggregator {
    var count: nat
    var latencyRunning: map<Category, LatencyRunning>
    var rates: RateExtrema
    var system: SystemExtrema
    var realSums: Reals
    var natSums: NatSums
    var initialized: set<Group>
    var lastTotals: Totals
    var flags: Flags
    var exchangeRunning: map<string, ExchangeRunning>
    /** The snapshots added since the last reset. */
    ghost var since: seq<Snapshot>
    /** The extrema of the rates at the last reset, which nothing clears. */
    ghost var stale: RateExtrema

    ghost function State(): Running
      reads this
    {
      Running(count, latencyRunning, rates, system, realSums, natSums, initialized, lastTotals, flags, exchangeRunning)
    }

    ghost predicate Valid()
      reads this
    {
      Tracks(State(), stale, since)
    }

    constructor ()
      ensures Valid() && since == [] && stale == NoExtrema()
    {
      hide Tracks;
      ClearedTracks(NoExtrema(), 0, 0);
      count := 0;
      latencyRunning := map[];
      rates, stale := NoExtrema(), NoExtrema();
      system := SystemExtrema(0.0, 0.0, 0, 0);
      realSums, natSums := Blank().reals, Blank().nats;
      initialized := {};
      lastTotals := Blank().totals;
      flags := Flags(0, 0, 0, 0, 0);
      exchangeRunning := map[];
      since := [];
      new;
      assert State() == Cleared(NoExtrema(), 0, 0);
    }

    method AddSnapshot(s: Snapshot)
      requires Valid()
      modifies this
      ensures Valid() && since == old(since) + [s] && stale == old(stale)
    {
      hide Tracks, AddLatencies, AddReals, AddNats, AddFlags, AddExchanges, AccumRates, AddSystem;
      AddTracks(State(), stale, since, s);
      var latency := AccumulateLatency(latencyRunning, s);
      var exchanges := AccumulateExchanges(exchangeRunning, s);
      var extrema := AccumulateRates(rates, s);
      AddScalars(s);
      count := count + 1;
      latencyRunning, exchangeRunning, rates := latency, exchanges, extrema;
      since := since + [s];
      assert State() == Add(old(State()), s);
    }

    /** The part of addSnapshot without loops: sums, latest totals, flags and system extrema. */
    method AddScalars(s: Snapshot)
      modifies this`system, this`realSums, this`natSums, this`lastTotals, this`flags, this`initialized
      ensures system == AddSystem(old(system), old(initialized), s)
      ensures realSums == AddReals(old(realSums), old(initialized), s)
      ensures natSums == AddNats(old(natSums), old(initialized), s)
      ensures flags == AddFlags(old(flags), old(initialized), s)
      ensures lastTotals == s.totals && initialized == {System, Queue, Session, Network, Database}
    {
      hide AddReals, AddNats, AddFlags, AddSystem;
      system := AddSystem(system, initialized, s);
      realSums := AddReals(realSums, initialized, s);
      natSums := AddNats(natSums, initialized, s);
      lastTotals := s.totals;
      flags := AddFlags(flags, initialized, s);
      initialized := {System, Queue, Session, Network, Database};
    }

    method ProduceSummary() returns (out: Snapshot)
      requires Valid()
      ensures out == BatchSummary(since)
      ensures since != [] ==> IsSummary(out, since)
    {
      assert count == |since|;
      if since != [] {
        BatchSummaryIsSummary(since);
      }
      hide IsSummary;
      hide Tracks, LatencySummariesOf, RealMeansOf, NatMeansOf, HealthOf, ExchangeSummariesOf;
      if count == 0 {
        return Blank();
      }
      hide BatchSummary;
      SummaryIsBatch(State(), stale, since);
      out := Snapshot(
        LatencySummariesOf(latencyRunning, count),
        RealMeansOf(realSums, count),
        NatMeansOf(natSums, count),
        lastTotals,
        flags.backpressure > count / 2,
        flags.stale > count / 2,
        HealthOf(flags),
        ExchangeSummariesOf(exchangeRunning));
      assert out == SummaryOf(State());
    }

    /** Lowers the flags of the rates and leaves their extrema as they are. */
    method Reset()
      modifies this
      ensures Valid() && since == []
      ensures stale.mins == rates.mins == old(rates.mins) && stale.maxs == rates.maxs == old(rates.maxs)
    {
      hide Tracks, Blank, NoExtrema;
      ClearedTracks(rates, system.minRss, system.maxRss);
      ResetScalars();
      count := 0;
      latencyRunning, exchangeRunning := map[], map[];
      rates := Lowered(rates);
      stale, since := rates, [];
      assert State() == Cleared(old(rates), old(system).minRss, old(system).maxRss);
    }

    method ResetScalars()
      modifies this`system, this`realSums, this`natSums, this`lastTotals, this`flags, this`initialized
      ensures system == SystemExtrema(0.0, 0.0, old(system).minRss, old(system).maxRss)
      ensures realSums == Blank().reals && natSums == Blank().nats && lastTotals == Blank().totals
      ensures flags == Flags(0, 0, 0, 0, 0) && initialized == {}
    {
      hide Blank;
      system := system.(minCpu := 0.0, maxCpu := 0.0);
      realSums, natSums := Blank().reals, Blank().nats;
      lastTotals := Blank().totals;
      flags := Flags(0, 0, 0, 0, 0);
      initialized := {};
    }
  }

  /** The thirteen calls of accum_rate. */
  method AccumulateRates(e: RateExtrema, s: Snapshot) returns (after: RateExtrema)
    ensures after == AccumRates(e, s, RATES)
  {
    after := e;
    for i := 0 to RATES
      invariant after == AccumRates(e, s, i)
    {
      after := AccumRate(after, i, s.reals[i]);
    }
  }

  /** One step depends on the running value of its own category only. */
  lemma AddLatencyLocal(a: map<Category, LatencyRunning>, b: map<Category, LatencyRunning>,
                        c: Category, x: LatencyStats)
    requires c in a <==> c in b
    requires c in a ==> a[c] == b[c]
    ensures AddLatency(a, c, x) == AddLatency(b, c, x)
  {
  }

  lemma AddExchangeLocal(a: map<string, ExchangeRunning>, b: map<string, ExchangeRunning>,
                         name: string, x: ExchangeStats)
    requires name in a <==> name in b
    requires name in a ==> a[name] == b[name]
    ensures AddExchange(a, name, x) == AddExchange(b, name, x)
  {
  }

  /** The loop over the categories of one snapshot. */
  method AccumulateLatency(running: map<Category, LatencyRunning>, s: Snapshot)
    returns (after: map<Category, LatencyRunning>)
    ensures after == AddLatencies(running, s)
  {
    hide AddLatency;
    after := running;
    var todo := s.latency.Keys;
    while todo != {}
      invariant todo <= s.latency.Keys
      invariant after.Keys == running.Keys + (s.latency.Keys - todo)
      invariant forall c :: c in after ==>
                  after[c] == if c in s.latency && c !in todo then AddLatency(running, c, s.latency[c]) else running[c]
      decreases todo
    {
      var c :| c in todo;
      AddLatencyLocal(after, running, c, s.latency[c]);
      after := after[c := AddLatency(after, c, s.latency[c])];
      todo := todo - {c};
    }
  }

  /** The loop over the exchanges of one snapshot. */
  method AccumulateExchanges(running: map<string, ExchangeRunning>, s: Snapshot)
    returns (after: map<string, ExchangeRunning>)
    ensures after == AddExchanges(running, s)
  {
    hide AddExchange;
    after := running;
    var todo := s.exchanges.Keys;
    while todo != {}
      invariant todo <= s.exchanges.Keys
      invariant after.Keys == running.Keys + (s.exchanges.Keys - todo)
      invariant forall name :: name in after ==>
                  after[name] ==
                    if name in s.exchanges && name !in todo then AddExchange(running, name, s.exchanges[name])
                    else running[name]
      decreases todo
    {
      var name :| name in todo;
      AddExchangeLocal(after, running, name, s.exchanges[name]);
      after := after[name := AddExchange(after, name, s.exchanges[name])];
      todo := todo - {name};
    }
  }

  /** Folding snapshots in one at a time and summarizing gives the batch summary of the sequence. */
  method Summarize(block: seq<Snapshot>) returns (out: Snapshot)
    ensures out == BatchSummary(block)
    ensures block != [] ==> IsSummary(out, block)
  {
    hide Tracks, BatchSummary, NoExtrema, IsSummary;
    var a := new MetricAggregator();
    for i := 0 to |block|
      invariant a.Valid() && a.since == block[..i] && fresh(a)
    {
      a.AddSnapshot(block[i]);
    }
    assert block[..|block|] == block;
    out := a.ProduceSummary();
  }

  /**
   Whatever the aggregator has seen, after a reset it summarizes a block as a new aggregator would, although it
   still holds the old extrema of the rates.
   */
  method SummarizeAfterReset(a: MetricAggregator, block: seq<Snapshot>) returns (out: Snapshot)
    requires a.Valid()
    modifies a
    ensures a.Valid() && a.since == block
    ensures a.stale.mins == old(a.rates.mins) && a.stale.maxs == old(a.rates.maxs)
    ensures out == BatchSummary(block)
    ensures block != [] ==> IsSummary(out, block)
  {
    hide Tracks, BatchSummary, IsSummary;
    a.Reset();
    for i := 0 to |block|
      invariant a.Valid() && a.since == block[..i]
      invariant a.stale.mins == old(a.rates.mins) && a.stale.maxs == old(a.rates.maxs)
    {
      a.AddSnapshot(block[i]);
    }
    assert block[..|block|] == block;
    out := a.ProduceSummary();
  }

  /** After a reset the state can differ from a new aggregator's, and every summary is the same all the same. */
  lemma ResetIsNotFresh(r: Running, stale: RateExtrema, h: seq<Snapshot>, s: Snapshot)
    requires Tracks(r, stale, h + [s])
    ensures var kept, anew := Cleared(r.rates, r.system.minRss, r.system.maxRss), Cleared(NoExtrema(), 0, 0);
            Min(RealColumn(h + [s], MESSAGES_RECEIVED_PER_SEC)) != 0.0 ==> kept != anew
  {
    assert r.rates.mins[0] == RateMin(stale.mins[0], true, RealColumn(h + [s], 0));
  }
}
