/** Week-aligned windows, each rolled up once: metrics/weekly_rollup.cpp. Times are seconds since the epoch, UTC. */
module WeeklyRollups {
  import opened Sequences

  const DAY := 86400
  const WEEK := 7 * DAY
  /** 1970-01-05, the first Monday after the epoch. */
  const FIRST_MONDAY := 4 * DAY

  // ----- Calendar arithmetic -----

  /**
   A broken-down time. `monthStart` is the day number of the first of its month, which stands for the year and
   the month; `mday` counts from 1 and may leave the month before normalization; `wday` counts from Sunday.
   */
  datatype Tm = Tm(monthStart: int, mday: int, hour: int, min: int, sec: int, wday: int)

  /** Day arithmetic of section 4.16 of the XBD volume of POSIX.1-2017, linear in the day of the month. */
  function Timegm(tm: Tm): int {
    (tm.monthStart + tm.mday - 1) * DAY + tm.hour * 3600 + tm.min * 60 + tm.sec
  }

  /** What gmtime_r delivers for `t`; day 0 was a Thursday. */
  predicate BreaksDown(tm: Tm, t: int) {
    && Timegm(tm) == t
    && 0 <= tm.hour < 24 && 0 <= tm.min < 60 && 0 <= tm.sec < 60
    && 0 <= tm.wday < 7 && tm.wday == (tm.monthStart + tm.mday - 1 + 4) % 7
  }

  /** The start of the current week, as the source computes it. */
  function CurrentWeekStart(tm: Tm): int {
    var daysSinceMonday := (tm.wday + 6) % 7;
    Timegm(tm.(mday := tm.mday - daysSinceMonday, hour := 0, min := 0, sec := 0))
  }

  /** The number of the week `t` lies in, week 0 being the one that starts on the first Monday. */
  function WeekIndex(t: int): int {
    (t - FIRST_MONDAY) / WEEK
  }

  /** The Monday at 00:00 on or before `t`. */
  function WeekStart(t: int): int {
    FIRST_MONDAY + WEEK * WeekIndex(t)
  }

  lemma WeekStartIsMonday(t: int)
    ensures WeekStart(t) % DAY == 0 && (WeekStart(t) / DAY + 4) % 7 == 1
    ensures WeekStart(t) <= t < WeekStart(t) + WEEK
  {
    assert WeekStart(t) == DAY * (4 + 7 * WeekIndex(t));
  }

  lemma WeekStartUnique(t: int, w: int)
    requires w % DAY == 0 && (w / DAY + 4) % 7 == 1 && w <= t < w + WEEK
    ensures w == WeekStart(t)
  {
    var d := w / DAY;
    assert w == DAY * d;
    assert (d - 4) % 7 == 0;
    var k := (d - 4) / 7;
    assert d == 4 + 7 * k;
    assert w == FIRST_MONDAY + WEEK * k;
  }

  /** The computed start is the Monday 00:00 of the week that contains `t`. */
  lemma CurrentWeekStartCorrect(tm: Tm, t: int)
    requires BreaksDown(tm, t)
    ensures CurrentWeekStart(tm) == WeekStart(t)
  {
    var day := tm.monthStart + tm.mday - 1;
    var back := (tm.wday + 6) % 7;
    DaysBack(day, tm.wday);
    WholeDays(day - back);
    assert CurrentWeekStart(tm) == (day - back) * DAY;
    hide WeekStart, CurrentWeekStart;
    WeekStartUnique(t, (day - back) * DAY);
  }

  lemma WholeDays(d: int)
    ensures (d * DAY) % DAY == 0 && (d * DAY) / DAY == d
  {
  }

  lemma DaysBack(day: int, wday: int)
    requires 0 <= wday < 7 && wday == (day + 4) % 7
    ensures 0 <= (wday + 6) % 7 < 7
    ensures (day - (wday + 6) % 7 + 4) % 7 == 1
  {
  }

  /** The week of 1 January 2024, a Monday, in seconds. */
  lemma FirstWeekOf2024(t: int)
    ensures WeekStart(t) == 1_704_067_200 <==> 1_704_067_200 <= t < 1_704_067_200 + 604_800
  {
  }

  // ----- The summary of a window -----

  function Present<T>(rows: seq<Option<T>>): seq<T> {
    if rows == [] then []
    else
      Present(rows[..|rows| - 1]) + if rows[|rows| - 1].Some? then [rows[|rows| - 1].value] else []
  }

  lemma PresentSnoc<T>(rows: seq<Option<T>>, i: nat)
    requires i < |rows|
    ensures Present(rows[..i + 1]) == if rows[i].Some? then Present(rows[..i]) + [rows[i].value] else Present(rows[..i])
  {
    assert rows[..i + 1][..i] == rows[..i];
  }

  function SumInt(s: seq<int>): int {
    if s == [] then 0 else SumInt(s[..|s| - 1]) + s[|s| - 1]
  }

  /** Signed division, truncating toward zero. */
  function TruncatingDiv(x: int, n: nat): (q: int)
    requires n > 0
    ensures if x >= 0 then q * n <= x < q * n + n else q * n - n < x <= q * n
  {
    if x >= 0 then x / n else -((-x) / n)
  }

  lemma SumIntSnoc(s: seq<int>, x: int)
    ensures SumInt(s + [x]) == SumInt(s) + x
  {
    assert (s + [x])[..|s|] == s;
  }

  function MeanReal(present: seq<real>): Option<real> {
    if present == [] then None else Some(Sum(present) / |present| as real)
  }

  function MeanInt(present: seq<int>): Option<int> {
    if present == [] then None else Some(TruncatingDiv(SumInt(present), |present|))
  }

  function Latest(present: seq<int>): Option<int> {
    if present == [] then None else Some(present[|present| - 1])
  }

  lemma {:induction false} PresentConcat<T>(a: seq<Option<T>>, b: seq<Option<T>>)
    ensures Present(a + b) == Present(a) + Present(b)
  {
    if b == [] {
      assert a + b == a;
    } else {
      var n := |b| - 1;
      PresentConcat(a, b[..n]);
      assert (a + b)[..|a| + n] == a + b[..n];
    }
  }

  lemma PresentOne<T>(x: Option<T>)
    ensures Present([x]) == if x.Some? then [x.value] else []
  {
    assert [x][..0] == [];
  }

  // ----- What the members of a summary are -----

  /** The number of rows that hold the member. */
  function Held<T>(column: seq<Option<T>>): (n: nat)
    ensures n == 0 <==> forall i :: 0 <= i < |column| ==> column[i].None?
  {
    if column == [] then 0
    else Held(column[..|column| - 1]) + if column[|column| - 1].Some? then 1 else 0
  }

  function Total(column: seq<Option<real>>): real {
    if column == [] then 0.0
    else
      var last := column[|column| - 1];
      Total(column[..|column| - 1]) + if last.Some? then last.value else 0.0
  }

  function TotalInt(column: seq<Option<int>>): int {
    if column == [] then 0
    else
      var last := column[|column| - 1];
      TotalInt(column[..|column| - 1]) + if last.Some? then last.value else 0
  }

  /** The mean over the rows that hold the member; nothing when none does. */
  predicate IsMean(avg: Option<real>, column: seq<Option<real>>) {
    && (avg.None? <==> forall i :: 0 <= i < |column| ==> column[i].None?)
    && (avg.Some? ==> avg.value * Held(column) as real == Total(column))
  }

  /** The same in integers: the mean without its fraction, so rounded toward zero. */
  predicate IsIntMean(avg: Option<int>, column: seq<Option<int>>) {
    var n, total := Held(column), TotalInt(column);
    && (avg.None? <==> forall i :: 0 <= i < |column| ==> column[i].None?)
    && (avg.Some? && total >= 0 ==> avg.value * n <= total < (avg.value + 1) * n)
    && (avg.Some? && total < 0 ==> (avg.value - 1) * n < total <= avg.value * n)
  }

  /** The value of the last row that holds the member; nothing when none does. */
  predicate IsLatest(val: Option<int>, column: seq<Option<int>>) {
    if val.None? then forall i :: 0 <= i < |column| ==> column[i].None?
    else
      exists i :: 0 <= i < |column| && column[i] == val && forall j :: i < j < |column| ==> column[j].None?
  }

  lemma {:induction false} HeldIsPresent<T>(column: seq<Option<T>>)
    ensures Held(column) == |Present(column)|
  {
    if column != [] {
      HeldIsPresent(column[..|column| - 1]);
    }
  }

  lemma {:induction false} TotalIsSum(column: seq<Option<real>>)
    ensures Total(column) == Sum(Present(column))
  {
    if column != [] {
      var init, last := column[..|column| - 1], column[|column| - 1];
      TotalIsSum(init);
      if last.Some? {
        SumSnoc(Present(init), last.value);
      } else {
        assert Present(init) + [] == Present(init);
      }
    }
  }

  lemma {:induction false} TotalIntIsSum(column: seq<Option<int>>)
    ensures TotalInt(column) == SumInt(Present(column))
  {
    if column != [] {
      var init, last := column[..|column| - 1], column[|column| - 1];
      TotalIntIsSum(init);
      if last.Some? {
        SumIntSnoc(Present(init), last.value);
      } else {
        assert Present(init) + [] == Present(init);
      }
    }
  }

  lemma MeanRealIsMean(column: seq<Option<real>>)
    ensures IsMean(MeanReal(Present(column)), column)
  {
    hide Present, Held, Total, Sum;
    HeldIsPresent(column);
    TotalIsSum(column);
    var present := Present(column);
    if present != [] {
      TimesCount(Sum(present), |present| as real);
    }
  }

  lemma TimesCount(x: real, n: real)
    requires n != 0.0
    ensures x / n * n == x
  {
  }

  lemma MeanIntIsMean(column: seq<Option<int>>)
    ensures IsIntMean(MeanInt(Present(column)), column)
  {
    hide Present, Held, TotalInt, SumInt, TruncatingDiv;
    HeldIsPresent(column);
    TotalIntIsSum(column);
    var present := Present(column);
    if present != [] {
      Distribute(TruncatingDiv(SumInt(present), |present|), |present|);
    }
  }

  lemma Distribute(q: int, n: int)
    ensures (q + 1) * n == q * n + n && (q - 1) * n == q * n - n
  {
  }

  lemma {:induction false} LatestIsLatest(column: seq<Option<int>>)
    ensures IsLatest(Latest(Present(column)), column)
  {
    hide IsLatest;
    if column == [] {
      LatestOfNone();
    } else {
      var init, last := column[..|column| - 1], column[|column| - 1];
      LatestIsLatest(init);
      LatestSnoc(init, last, Latest(Present(init)));
      assert column == init + [last];
      assert last.None? ==> Present(column) == Present(init);
    }
  }

  lemma LatestOfNone()
    ensures IsLatest(None, [])
  {
  }

  lemma LatestSnoc(init: seq<Option<int>>, last: Option<int>, val: Option<int>)
    requires IsLatest(val, init)
    ensures IsLatest(if last.Some? then last else val, init + [last])
  {
    var column := init + [last];
    if last.Some? {
      assert column[|init|] == last;
    } else if val.Some? {
      var i :| 0 <= i < |init| && init[i] == val && forall j :: i < j < |init| ==> init[j].None?;
      assert column[i] == val;
    }
  }

  method AvgDouble(rows: seq<Option<real>>) returns (avg: Option<real>)
    ensures avg == MeanReal(Present(rows)) && IsMean(avg, rows)
  {
    MeanRealIsMean(rows);
    hide IsMean;
    var sum, count := 0.0, 0;
    for i := 0 to |rows|
      invariant count == |Present(rows[..i])| && sum == Sum(Present(rows[..i]))
    {
      PresentSnoc(rows, i);
      if rows[i].Some? {
        SumSnoc(Present(rows[..i]), rows[i].value);
        sum := sum + rows[i].value;
        count := count + 1;
      }
    }
    assert rows[..|rows|] == rows;
    if count == 0 {
      return None;
    }
    avg := Some(sum / count as real);
  }

  method AvgInt64(rows: seq<Option<int>>) returns (avg: Option<int>)
    ensures avg == MeanInt(Present(rows)) && IsIntMean(avg, rows)
  {
    MeanIntIsMean(rows);
    hide IsIntMean;
    var sum, count := 0, 0;
    for i := 0 to |rows|
      invariant count == |Present(rows[..i])| && sum == SumInt(Present(rows[..i]))
    {
      PresentSnoc(rows, i);
      if rows[i].Some? {
        SumIntSnoc(Present(rows[..i]), rows[i].value);
        sum := sum + rows[i].value;
        count := count + 1;
      }
    }
    assert rows[..|rows|] == rows;
    if count == 0 {
      return None;
    }
    avg := Some(TruncatingDiv(sum, count));
  }

  method LatestInt64(rows: seq<Option<int>>) returns (val: Option<int>)
    ensures val == Latest(Present(rows)) && IsLatest(val, rows)
  {
    LatestIsLatest(rows);
    hide IsLatest;
    val := None;
    for i := 0 to |rows|
      invariant val == Latest(Present(rows[..i]))
    {
      PresentSnoc(rows, i);
      if rows[i].Some? {
        val := rows[i];
      }
    }
    assert rows[..|rows|] == rows;
  }

  /**
   The members averaged as floating-point numbers: p50, p95, p99 and average latency, CPU usage, the percentiles of
   the exchange and parsing latencies, messages, packets, ticks and trades per second, round trip time, bandwidth,
   insertion and query latency, memory growth rate.
   */
  const DOUBLES := 20

  /**
   The members averaged as integers: memory usage, thread count, uptime, the two queue depths, active clients,
   sessions and subscriptions, peak resident, virtual and heap memory.
   */
  const GAUGES := 11

  /**
   The members of which the latest value is kept: total messages, packets, bytes and ticks, packet drops, duplicate
   and out-of-order packets, parse failures, reconnects, socket errors, successful and failed writes.
   */
  const COUNTERS := 12

  type Doubles = v: seq<Option<real>> | |v| == DOUBLES witness seq(DOUBLES, _ => None)
  type Gauges = v: seq<Option<int>> | |v| == GAUGES witness seq(GAUGES, _ => None)
  type Counters = v: seq<Option<int>> | |v| == COUNTERS witness seq(COUNTERS, _ => None)

  /** A stored 15-minute snapshot of this instance. */
  datatype Row = Row(measuredAt: int, doubles: Doubles, gauges: Gauges, counters: Counters)

  /** `weekStart` is in milliseconds. */
  datatype Summary = Summary(weekStart: int, sampleCount: nat, doubles: Doubles, gauges: Gauges, counters: Counters)

  /** The query: the rows measured in [start, end), in the order of the table. */
  function InWindow(table: seq<Row>, start: int, end: int): seq<Row> {
    if table == [] then []
    else
      var last := table[|table| - 1];
      InWindow(table[..|table| - 1], start, end) + if start <= last.measuredAt < end then [last] else []
  }

  function DoubleColumn(rows: seq<Row>, f: nat): seq<Option<real>>
    requires f < DOUBLES
  {
    seq(|rows|, i requires 0 <= i < |rows| => rows[i].doubles[f])
  }

  function GaugeColumn(rows: seq<Row>, f: nat): seq<Option<int>>
    requires f < GAUGES
  {
    seq(|rows|, i requires 0 <= i < |rows| => rows[i].gauges[f])
  }

  function CounterColumn(rows: seq<Row>, f: nat): seq<Option<int>>
    requires f < COUNTERS
  {
    seq(|rows|, i requires 0 <= i < |rows| => rows[i].counters[f])
  }

  function SummaryOf(start: int, rows: seq<Row>): Summary {
    Summary(start * 1000, |rows|,
            seq(DOUBLES, f requires 0 <= f < DOUBLES => MeanReal(Present(DoubleColumn(rows, f)))),
            seq(GAUGES, f requires 0 <= f < GAUGES => MeanInt(Present(GaugeColumn(rows, f)))),
            seq(COUNTERS, f requires 0 <= f < COUNTERS => Latest(Present(CounterColumn(rows, f)))))
  }

  /** What a summary of these rows is, member by member. */
  ghost predicate IsWeekly(summary: Summary, start: int, rows: seq<Row>) {
    && summary.weekStart == 1000 * start && summary.sampleCount == |rows|
    && (forall f :: 0 <= f < 20 ==>
          IsMean(summary.doubles[f], seq(|rows|, i requires 0 <= i < |rows| => rows[i].doubles[f])))
    && (forall f :: 0 <= f < 11 ==>
          IsIntMean(summary.gauges[f], seq(|rows|, i requires 0 <= i < |rows| => rows[i].gauges[f])))
    && (forall f :: 0 <= f < 12 ==>
          IsLatest(summary.counters[f], seq(|rows|, i requires 0 <= i < |rows| => rows[i].counters[f])))
  }

  lemma SummaryIsWeekly(start: int, rows: seq<Row>)
    ensures IsWeekly(SummaryOf(start, rows), start, rows)
  {
    hide IsMean, IsIntMean, IsLatest, MeanReal, MeanInt, Latest, Present;
    var summary := SummaryOf(start, rows);
    forall f | 0 <= f < 20
      ensures IsMean(summary.doubles[f], seq(|rows|, i requires 0 <= i < |rows| => rows[i].doubles[f]))
    {
      MeanRealIsMean(DoubleColumn(rows, f));
      assert seq(|rows|, i requires 0 <= i < |rows| => rows[i].doubles[f]) == DoubleColumn(rows, f);
    }
    forall f | 0 <= f < 11
      ensures IsIntMean(summary.gauges[f], seq(|rows|, i requires 0 <= i < |rows| => rows[i].gauges[f]))
    {
      MeanIntIsMean(GaugeColumn(rows, f));
      assert seq(|rows|, i requires 0 <= i < |rows| => rows[i].gauges[f]) == GaugeColumn(rows, f);
    }
    forall f | 0 <= f < 12
      ensures IsLatest(summary.counters[f], seq(|rows|, i requires 0 <= i < |rows| => rows[i].counters[f]))
    {
      LatestIsLatest(CounterColumn(rows, f));
      assert seq(|rows|, i requires 0 <= i < |rows| => rows[i].counters[f]) == CounterColumn(rows, f);
    }
  }

  method SummarizeRows(start: int, rows: seq<Row>) returns (summary: Summary)
    ensures summary == SummaryOf(start, rows) && IsWeekly(summary, start, rows)
  {
    SummaryIsWeekly(start, rows);
    hide IsWeekly, IsMean, IsIntMean, IsLatest;
    hide MeanReal, MeanInt, Latest, Present;
    var doubles: seq<Option<real>> := [];
    for f := 0 to DOUBLES
      invariant |doubles| == f && forall g :: 0 <= g < f ==> doubles[g] == MeanReal(Present(DoubleColumn(rows, g)))
    {
      var avg := AvgDouble(DoubleColumn(rows, f));
      doubles := doubles + [avg];
    }
    var gauges: seq<Option<int>> := [];
    for f := 0 to GAUGES
      invariant |gauges| == f && forall g :: 0 <= g < f ==> gauges[g] == MeanInt(Present(GaugeColumn(rows, g)))
    {
      var avg := AvgInt64(GaugeColumn(rows, f));
      gauges := gauges + [avg];
    }
    var counters: seq<Option<int>> := [];
    for f := 0 to COUNTERS
      invariant |counters| == f && forall g :: 0 <= g < f ==> counters[g] == Latest(Present(CounterColumn(rows, g)))
    {
      var val := LatestInt64(CounterColumn(rows, f));
      counters := counters + [val];
    }
    summary := Summary(start * 1000, |rows|, doubles, gauges, counters);
  }

  // ----- The windows of a run -----

  const RETENTION := 90 * DAY

  /**
   One pass of the check loop: the observed time, whether the database is connected, the rows it holds then, whether
   an insertion succeeds, and the time read for the retention delete.
   */
  datatype Check = Check(t: int, connected: bool, table: seq<Row>, stored: bool, deleteAt: int)

  /**
   A window [start, end) whose turn came. Without a connection it is skipped, and whatever stored no summary is never
   retried. After a summary is stored, the rows measured before `deletedBefore` are deleted.
   */
  datatype Attempt = Attempt(
    start: int, end: int, processed: bool, summary: Option<Summary>, deletedBefore: Option<int>)

  datatype State = State(hasLastWeek: bool, lastWeekStart: int, attempts: seq<Attempt>)

  /** What processing a window stores: nothing without a connection, without rows, or when the insertion fails. */
  function AttemptOf(c: Check, end: int): Attempt {
    var start := end - WEEK;
    var rows := InWindow(c.table, start, end);
    if c.connected && rows != [] && c.stored then
      Attempt(start, end, true, Some(SummaryOf(start, rows)), Some(c.deleteAt - RETENTION))
    else Attempt(start, end, c.connected, None, None)
  }

  lemma AttemptSpan(c: Check, end: int)
    ensures AttemptOf(c, end).start == end - WEEK && AttemptOf(c, end).end == end
  {
  }

  function Step(s: State, c: Check): State {
    var w := WeekStart(c.t);
    if !s.hasLastWeek then s.(hasLastWeek := true, lastWeekStart := w)
    else if w > s.lastWeekStart then State(true, w, s.attempts + [AttemptOf(c, w)])
    else s
  }

  function Exec(checks: seq<Check>): State {
    if checks == [] then State(false, 0, []) else Step(Exec(checks[..|checks| - 1]), checks[|checks| - 1])
  }

  /** The latest week seen so far. */
  function LatestWeek(checks: seq<Check>): int
    requires checks != []
  {
    var w := WeekStart(checks[|checks| - 1].t);
    if |checks| == 1 then w
    else
      var before := LatestWeek(checks[..|checks| - 1]);
      if w > before then w else before
  }

  /** No check jumps past the week after the latest one seen. */
  predicate NoSkip(checks: seq<Check>) {
    |checks| <= 1 ||
    (NoSkip(checks[..|checks| - 1]) &&
     WeekStart(checks[|checks| - 1].t) <= LatestWeek(checks[..|checks| - 1]) + WEEK)
  }

  lemma {:induction false} LastIsLatest(checks: seq<Check>)
    requires checks != []
    ensures Exec(checks).hasLastWeek && Exec(checks).lastWeekStart == LatestWeek(checks)
    ensures LatestWeek(checks) >= WeekStart(checks[0].t)
    ensures exists k :: LatestWeek(checks) == FIRST_MONDAY + WEEK * k
  {
    if |checks| > 1 {
      LastIsLatest(checks[..|checks| - 1]);
    }
    var w := WeekStart(checks[|checks| - 1].t);
    assert w == FIRST_MONDAY + WEEK * WeekIndex(checks[|checks| - 1].t);
  }

  /** Two distinct week starts are at least a week apart. */
  lemma WeeksApart(t: int, latest: int)
    requires WeekStart(t) > latest && exists k :: latest == FIRST_MONDAY + WEEK * k
    ensures WeekStart(t) - WEEK >= latest
  {
    var k :| latest == FIRST_MONDAY + WEEK * k;
    assert WeekIndex(t) >= k + 1;
  }

  /**
   In every run, also when the clock steps back: each window is one aligned week that had ended when its turn came,
   and the windows are pairwise disjoint and increasing.
   */
  lemma {:induction false} WindowsDisjointIncreasing(checks: seq<Check>)
    ensures var a := Exec(checks).attempts;
            && (forall i :: 0 <= i < |a| ==> a[i].end == a[i].start + WEEK && a[i].end == WeekStart(a[i].end))
            && (forall i, j :: 0 <= i < j < |a| ==> a[i].end <= a[j].start)
            && (checks != [] ==> forall i :: 0 <= i < |a| ==>
                  WeekStart(checks[0].t) <= a[i].start && a[i].end <= LatestWeek(checks))
  {
    hide AttemptOf;
    if |checks| == 1 {
      assert checks[..0] == [];
    } else if checks != [] {
      var prefix, c := checks[..|checks| - 1], checks[|checks| - 1];
      WindowsDisjointIncreasing(prefix);
      LastIsLatest(prefix);
      var w := WeekStart(c.t);
      WeekStartIsMonday(c.t);
      AttemptSpan(c, w);
      assert WeekStart(w) == w;
      if w > LatestWeek(prefix) {
        WeeksApart(c.t, LatestWeek(prefix));
      }
      assert prefix[0] == checks[0];
    }
  }

  /** The windows are exactly the consecutive weeks from the first one seen to the latest one. */
  ghost predicate Covers(a: seq<Attempt>, first: int, latest: int) {
    && |a| * WEEK == latest - first
    && forall i :: 0 <= i < |a| ==> a[i].start == first + i * WEEK
  }

  /** Every week from the first to the latest gets its window if and only if no check skips a week. */
  lemma {:induction false} ContiguousIffNoSkip(checks: seq<Check>)
    requires checks != []
    ensures var a := Exec(checks).attempts;
            && |a| * WEEK <= LatestWeek(checks) - WeekStart(checks[0].t)
            && (Covers(a, WeekStart(checks[0].t), LatestWeek(checks)) <==> NoSkip(checks))
  {
    hide AttemptOf;
    if |checks| == 1 {
      assert checks[..0] == [];
    } else {
      var prefix, c := checks[..|checks| - 1], checks[|checks| - 1];
      ContiguousIffNoSkip(prefix);
      LastIsLatest(prefix);
      assert prefix[0] == checks[0];
      var first, before, w := WeekStart(checks[0].t), LatestWeek(prefix), WeekStart(c.t);
      var a, b := Exec(prefix).attempts, Exec(checks).attempts;
      AttemptSpan(c, w);
      if w > before {
        WeeksApart(c.t, before);
        assert b == a + [AttemptOf(c, w)];
        assert |b| * WEEK == |a| * WEEK + WEEK;
        if Covers(b, first, w) {
          assert Covers(a, first, before) by {
            forall i | 0 <= i < |a|
              ensures a[i].start == first + i * WEEK
            {
              assert b[i] == a[i];
            }
          }
        }
      }
    }
  }

  /** Checks at non-decreasing times no more than seven days apart skip nothing. */
  lemma {:induction false} RegularChecksSkipNothing(checks: seq<Check>)
    requires forall i :: 0 < i < |checks| ==> checks[i - 1].t <= checks[i].t <= checks[i - 1].t + WEEK
    ensures NoSkip(checks)
    ensures checks != [] ==> LatestWeek(checks) == WeekStart(checks[|checks| - 1].t)
  {
    if |checks| > 1 {
      var n := |checks| - 1;
      RegularChecksSkipNothing(checks[..n]);
      WeekAtMostOneLater(checks[n - 1].t, checks[n].t);
    }
  }

  lemma WeekAtMostOneLater(t: int, u: int)
    requires t <= u <= t + WEEK
    ensures WeekStart(t) <= WeekStart(u) <= WeekStart(t) + WEEK
  {
  }

  /** After fifteen silent days a week is never rolled up. */
  lemma LongGapSkipsAWeek()
    ensures var checks := [Check(0, true, [], true, 0), Check(15 * DAY, true, [], true, 0)];
            !NoSkip(checks) && !Covers(Exec(checks).attempts, WeekStart(0), LatestWeek(checks))
  {
    var checks := [Check(0, true, [], true, 0), Check(15 * DAY, true, [], true, 0)];
    assert checks[..1] == [checks[0]] && checks[..1][..0] == [];
    assert WeekIndex(0) == -1 && WeekIndex(15 * DAY) == 1;
    ContiguousIffNoSkip(checks);
  }

  // ----- What each attempt of a run is -----

  lemma {:induction false} InWindowConcat(a: seq<Row>, b: seq<Row>, start: int, end: int)
    ensures InWindow(a + b, start, end) == InWindow(a, start, end) + InWindow(b, start, end)
  {
    if b == [] {
      assert a + b == a;
    } else {
      hide InWindow;
      var init, last := b[..|b| - 1], b[|b| - 1];
      InWindowConcat(a, init, start, end);
      Associative(a, init, [last]);
      assert b == init + [last];
      InWindowSnoc(a + init, last, start, end);
      InWindowSnoc(init, last, start, end);
      Associative(InWindow(a, start, end), InWindow(init, start, end),
                  if start <= last.measuredAt < end then [last] else []);
    }
  }

  lemma Associative(a: seq<Row>, b: seq<Row>, c: seq<Row>)
    ensures (a + b) + c == a + (b + c)
  {
  }

  lemma InWindowSnoc(rows: seq<Row>, r: Row, start: int, end: int)
    ensures InWindow(rows + [r], start, end) ==
              InWindow(rows, start, end) + if start <= r.measuredAt < end then [r] else []
  {
    assert (rows + [r])[..|rows|] == rows;
  }

  lemma InWindowOne(r: Row, start: int, end: int)
    ensures InWindow([r], start, end) == if start <= r.measuredAt < end then [r] else []
  {
    assert [r][..0] == [];
  }

  lemma {:induction false} InWindowAll(rows: seq<Row>, start: int, end: int)
    requires forall r :: r in rows ==> start <= r.measuredAt < end
    ensures InWindow(rows, start, end) == rows
  {
    if rows != [] {
      InWindowAll(rows[..|rows| - 1], start, end);
    }
  }

  /** What a window's turn leaves behind, in terms of the rows measured in it. */
  ghost predicate IsAttempt(a: Attempt, c: Check, end: int) {
    var rows := InWindow(c.table, end - 604_800, end);
    && a.end == end && a.start == end - 604_800
    && a.processed == c.connected
    && (a.summary.Some? <==> c.connected && c.stored && rows != [])
    && (a.summary.Some? ==> IsWeekly(a.summary.value, a.start, rows))
    && a.deletedBefore == if a.summary.Some? then Some(c.deleteAt - 7_776_000) else None
  }

  lemma AttemptIs(c: Check, end: int)
    ensures IsAttempt(AttemptOf(c, end), c, end)
  {
    hide IsWeekly, SummaryOf, InWindow;
    SummaryIsWeekly(end - WEEK, InWindow(c.table, end - WEEK, end));
  }

  /** An attempt depends on the rows of its window only: the rest of the table can be cut away. */
  lemma TableCutDown(c: Check, end: int)
    ensures AttemptOf(c.(table := InWindow(c.table, end - 604_800, end)), end) == AttemptOf(c, end)
  {
    hide SummaryOf, InWindow;
    InWindowTwice(c.table, end - 604_800, end);
  }

  lemma InWindowTwice(table: seq<Row>, start: int, end: int)
    ensures InWindow(InWindow(table, start, end), start, end) == InWindow(table, start, end)
  {
    hide InWindow;
    InWindowRows(table, start, end);
    InWindowAll(InWindow(table, start, end), start, end);
  }

  /** Check `k` is the first one in its week or later, and not the first check of all. */
  predicate Opens(checks: seq<Check>, k: nat) {
    0 < k < |checks| && forall i :: 0 <= i < k ==> WeekStart(checks[i].t) < WeekStart(checks[k].t)
  }

  /** Check `k` opens a new week, and the attempt is what it leaves behind. */
  ghost predicate OpenedBy(a: Attempt, checks: seq<Check>, k: nat) {
    Opens(checks, k) && IsAttempt(a, checks[k], WeekStart(checks[k].t))
  }

  lemma {:induction false} LatestIsGreatest(checks: seq<Check>)
    requires checks != []
    ensures forall i :: 0 <= i < |checks| ==> WeekStart(checks[i].t) <= LatestWeek(checks)
    ensures exists i :: 0 <= i < |checks| && WeekStart(checks[i].t) == LatestWeek(checks)
  {
    hide WeekStart;
    var n := |checks| - 1;
    if n > 0 {
      LatestIsGreatest(checks[..n]);
      assert forall i :: 0 <= i < n ==> checks[..n][i] == checks[i];
      if LatestWeek(checks) != WeekStart(checks[n].t) {
        var i :| 0 <= i < n && WeekStart(checks[..n][i].t) == LatestWeek(checks[..n]);
        assert WeekStart(checks[i].t) == LatestWeek(checks);
      }
    } else {
      assert WeekStart(checks[n].t) == LatestWeek(checks);
    }
  }

  lemma OpensLast(checks: seq<Check>)
    requires |checks| > 1
    ensures var n := |checks| - 1;
            Opens(checks, n) <==> WeekStart(checks[n].t) > LatestWeek(checks[..n])
  {
    hide WeekStart, LatestWeek;
    var n := |checks| - 1;
    LatestIsGreatest(checks[..n]);
    assert forall i :: 0 <= i < n ==> checks[..n][i] == checks[i];
    var j :| 0 <= j < n && WeekStart(checks[..n][j].t) == LatestWeek(checks[..n]);
    assert WeekStart(checks[j].t) == LatestWeek(checks[..n]);
  }

  lemma OpensInPrefix(checks: seq<Check>, k: nat)
    requires checks != [] && k < |checks| - 1
    ensures Opens(checks[..|checks| - 1], k) <==> Opens(checks, k)
  {
    var prefix := checks[..|checks| - 1];
    assert forall i :: 0 <= i <= k ==> prefix[i] == checks[i];
  }

  /** One more check adds its attempt exactly when it opens a new week. */
  lemma AttemptsStep(checks: seq<Check>)
    requires checks != []
    ensures var n := |checks| - 1;
            Exec(checks).attempts == Exec(checks[..n]).attempts +
              if Opens(checks, n) then [AttemptOf(checks[n], WeekStart(checks[n].t))] else []
  {
    hide AttemptOf, WeekStart, LatestWeek, Opens;
    if |checks| == 1 {
      assert checks[..0] == [];
      NothingOpens(checks);
    } else {
      LastIsLatest(checks[..|checks| - 1]);
      OpensLast(checks);
    }
  }

  /** Every attempt of a run is what a check that opened a new week left behind. */
  lemma {:induction false} EveryAttemptIsOpened(checks: seq<Check>, a: Attempt) returns (k: nat)
    requires a in Exec(checks).attempts
    ensures OpenedBy(a, checks, k)
  {
    hide IsAttempt, AttemptOf, WeekStart, Opens;
    assert checks != [];
    var n := |checks| - 1;
    AttemptsStep(checks);
    AttemptIs(checks[n], WeekStart(checks[n].t));
    hide Exec;
    if a in Exec(checks[..n]).attempts {
      k := EveryAttemptIsOpened(checks[..n], a);
      OpensBounds(checks[..n], k);
      OpensInPrefix(checks, k);
    } else {
      k := n;
    }
  }

  /** Every check that opens a new week leaves an attempt behind. */
  lemma {:induction false} EveryOpeningIsAttempted(checks: seq<Check>, k: nat) returns (a: Attempt)
    requires Opens(checks, k)
    ensures a in Exec(checks).attempts && OpenedBy(a, checks, k)
  {
    OpensBounds(checks, k);
    hide IsAttempt, AttemptOf, WeekStart, Opens, Exec;
    var n := |checks| - 1;
    AttemptsStep(checks);
    if k < n {
      OpensInPrefix(checks, k);
      a := EveryOpeningIsAttempted(checks[..n], k);
    } else {
      AttemptIs(checks[n], WeekStart(checks[n].t));
      a := AttemptOf(checks[n], WeekStart(checks[n].t));
    }
  }

  /**
   The attempts of a run are those of the checks that open a new week: each attempt is what such a check leaves
   behind, and each such check leaves one.
   */
  lemma AttemptsOfRun(checks: seq<Check>)
    ensures forall a :: a in Exec(checks).attempts ==> exists k: nat :: OpenedBy(a, checks, k)
    ensures forall k: nat :: Opens(checks, k) ==> exists a :: a in Exec(checks).attempts && OpenedBy(a, checks, k)
  {
    hide OpenedBy, Opens, Exec;
    forall a | a in Exec(checks).attempts
      ensures exists k: nat :: OpenedBy(a, checks, k)
    {
      var k := EveryAttemptIsOpened(checks, a);
    }
    forall k: nat | Opens(checks, k)
      ensures exists a :: a in Exec(checks).attempts && OpenedBy(a, checks, k)
    {
      var a := EveryOpeningIsAttempted(checks, k);
    }
  }

  lemma OpensBounds(checks: seq<Check>, k: nat)
    requires Opens(checks, k)
    ensures 0 < k < |checks|
  {
  }

  lemma NothingOpens(checks: seq<Check>)
    requires |checks| <= 1
    ensures forall k: nat :: !Opens(checks, k)
  {
  }

  // ----- Which weeks are really summarized -----

  /** The attempts with some property, such as having stored a summary. */
  function Those(attempts: seq<Attempt>, p: Attempt -> bool): seq<Attempt> {
    if attempts == [] then []
    else
      var last := attempts[|attempts| - 1];
      Those(attempts[..|attempts| - 1], p) + if p(last) then [last] else []
  }

  predicate All(attempts: seq<Attempt>, p: Attempt -> bool) {
    forall i :: 0 <= i < |attempts| ==> p(attempts[i])
  }

  lemma AllSnoc(a: seq<Attempt>, last: Attempt, p: Attempt -> bool)
    ensures All(a + [last], p) <==> All(a, p) && p(last)
  {
    var b := a + [last];
    assert b[|a|] == last && forall i :: 0 <= i < |a| ==> b[i] == a[i];
  }

  lemma {:induction false} ThoseCount(a: seq<Attempt>, p: Attempt -> bool)
    ensures |Those(a, p)| <= |a|
    ensures |Those(a, p)| == |a| <==> All(a, p)
  {
    if a == [] {
      assert All(a, p);
    } else {
      hide All;
      var prefix, last := a[..|a| - 1], a[|a| - 1];
      ThoseCount(prefix, p);
      assert a == prefix + [last];
      AllSnoc(prefix, last, p);
    }
  }

  lemma {:induction false} ThoseIdentity(a: seq<Attempt>, p: Attempt -> bool)
    requires All(a, p)
    ensures Those(a, p) == a
  {
    if a != [] {
      var prefix, last := a[..|a| - 1], a[|a| - 1];
      assert p(last) && All(prefix, p);
      hide All;
      ThoseIdentity(prefix, p);
      assert Those(a, p) == prefix + [last];
    }
  }

  /** Every check that opens a new week has the property. */
  predicate AtNewWeeks(checks: seq<Check>, q: Check -> bool) {
    |checks| <= 1 ||
    (AtNewWeeks(checks[..|checks| - 1], q) &&
     (WeekStart(checks[|checks| - 1].t) > LatestWeek(checks[..|checks| - 1]) ==> q(checks[|checks| - 1])))
  }

  lemma {:induction false} AllIffAtNewWeeks(checks: seq<Check>, p: Attempt -> bool, q: Check -> bool)
    requires forall c: Check :: p(AttemptOf(c, WeekStart(c.t))) <==> q(c)
    ensures All(Exec(checks).attempts, p) <==> AtNewWeeks(checks, q)
  {
    if |checks| == 1 {
      assert checks[..0] == [];
    } else if checks != [] {
      hide WeekStart, LatestWeek, AttemptOf, All;
      var prefix, c := checks[..|checks| - 1], checks[|checks| - 1];
      AllIffAtNewWeeks(prefix, p, q);
      LastIsLatest(prefix);
      AllSnoc(Exec(prefix).attempts, AttemptOf(c, WeekStart(c.t)), p);
    }
  }

  lemma CoversThose(checks: seq<Check>, p: Attempt -> bool, q: Check -> bool)
    requires checks != [] && forall c: Check :: p(AttemptOf(c, WeekStart(c.t))) <==> q(c)
    ensures Covers(Those(Exec(checks).attempts, p), WeekStart(checks[0].t), LatestWeek(checks)) <==>
              NoSkip(checks) && AtNewWeeks(checks, q)
  {
    hide Exec, WeekStart, LatestWeek, NoSkip, AtNewWeeks, Those, All, AttemptOf;
    var a := Exec(checks).attempts;
    ContiguousIffNoSkip(checks);
    AllIffAtNewWeeks(checks, p, q);
    ThoseCount(a, p);
    if All(a, p) {
      ThoseIdentity(a, p);
    }
    assert |Those(a, p)| * WEEK == |a| * WEEK ==> |Those(a, p)| == |a|;
  }

  predicate WasProcessed(a: Attempt) {
    a.processed
  }

  predicate WasSummarized(a: Attempt) {
    a.summary.Some?
  }

  predicate Connected(c: Check) {
    c.connected
  }

  /** The database is connected, holds a row of the week before the check, and accepts the insertion. */
  predicate Stores(c: Check) {
    c.connected && c.stored && InWindow(c.table, WeekStart(c.t) - WEEK, WeekStart(c.t)) != []
  }

  /**
   Every week from the first to the latest is processed if and only if no check skips a week and every check that
   opens a new week finds the database connected.
   */
  lemma ProcessedIffRegularAndConnected(checks: seq<Check>)
    requires checks != []
    ensures Covers(Those(Exec(checks).attempts, WasProcessed), WeekStart(checks[0].t), LatestWeek(checks)) <==>
              NoSkip(checks) && AtNewWeeks(checks, Connected)
  {
    CoversThose(checks, WasProcessed, Connected);
  }

  /**
   Every week from the first to the latest gets its summary if and only if no check skips a week and every check that
   opens a new week finds the database connected, with rows of the week that ended, and accepting the insertion.
   */
  lemma SummarizedIffRegularAndStored(checks: seq<Check>)
    requires checks != []
    ensures Covers(Those(Exec(checks).attempts, WasSummarized), WeekStart(checks[0].t), LatestWeek(checks)) <==>
              NoSkip(checks) && AtNewWeeks(checks, Stores)
  {
    CoversThose(checks, WasSummarized, Stores);
  }

  lemma TwoChecks(first: Check, second: Check)
    requires first.t == 0 && second.t == WEEK
    ensures NoSkip([first, second])
    ensures LatestWeek([first, second]) == WeekStart(WEEK) == 4 * DAY && WeekStart(0) == -3 * DAY
    ensures forall q: Check -> bool :: AtNewWeeks([first, second], q) <==> q(second)
  {
    var checks := [first, second];
    assert WeekIndex(0) == -1 && WeekIndex(WEEK) == 0;
    assert checks[..1] == [first];
    assert LatestWeek([first]) == WeekStart(0);
    WeekAtMostOneLater(0, WEEK);
    forall q: Check -> bool
      ensures AtNewWeeks(checks, q) <==> q(second)
    {
      assert AtNewWeeks([first], q);
    }
  }

  /** A week whose turn comes while the database is disconnected is never processed, although no check skips it. */
  lemma DisconnectionLosesAWeek()
    ensures var checks := [Check(0, true, [], true, 0), Check(WEEK, false, [], true, 0)];
            && NoSkip(checks)
            && !Covers(Those(Exec(checks).attempts, WasProcessed), WeekStart(0), LatestWeek(checks))
  {
    var first, second := Check(0, true, [], true, 0), Check(WEEK, false, [], true, 0);
    TwoChecks(first, second);
    hide Exec, NoSkip, AtNewWeeks, Covers, Those, LatestWeek, WeekStart;
    ProcessedIffRegularAndConnected([first, second]);
  }

  /** A failed insertion loses the week as well, with the database connected and a row in the window. */
  lemma FailedInsertionLosesAWeek(r: Row)
    requires r.measuredAt == 0
    ensures var checks := [Check(0, true, [], true, 0), Check(WEEK, true, [r], false, 0)];
            && NoSkip(checks) && AtNewWeeks(checks, Connected)
            && r in InWindow([r], WeekStart(WEEK) - WEEK, WeekStart(WEEK))
            && !Covers(Those(Exec(checks).attempts, WasSummarized), WeekStart(0), LatestWeek(checks))
  {
    var first, second := Check(0, true, [], true, 0), Check(WEEK, true, [r], false, 0);
    TwoChecks(first, second);
    InWindowRows([r], WeekStart(WEEK) - WEEK, WeekStart(WEEK));
    hide Exec, NoSkip, AtNewWeeks, Covers, Those, LatestWeek, WeekStart, InWindow;
    SummarizedIffRegularAndStored([first, second]);
  }

  /** The retention delete of an attempt removes the row. */
  predicate Deletes(a: Attempt, r: Row) {
    a.deletedBefore.Some? && r.measuredAt < a.deletedBefore.value
  }

  /**
   Unless the clock jumps ahead by more than 76 days between the check and its delete, the delete spares every row of
   the window just summarized and of all later ones.
   */
  lemma RetentionSparesWindows(c: Check, r: Row)
    requires c.deleteAt <= c.t + 76 * DAY
    requires r.measuredAt >= AttemptOf(c, WeekStart(c.t)).start
    ensures !Deletes(AttemptOf(c, WeekStart(c.t)), r)
  {
    WeekStartIsMonday(c.t);
    hide WeekStart, SummaryOf, InWindow;
  }

  lemma {:induction false} InWindowRows(table: seq<Row>, start: int, end: int)
    ensures forall r :: r in InWindow(table, start, end) <==> r in table && start <= r.measuredAt < end
  {
    if table != [] {
      InWindowRows(table[..|table| - 1], start, end);
      assert table == table[..|table| - 1] + [table[|table| - 1]];
    }
  }

  /** No row enters two weekly summaries: the windows of the summaries of a run are disjoint and increasing. */
  lemma NoRowSummarizedTwice(checks: seq<Check>, i: nat, j: nat, table: seq<Row>, other: seq<Row>, r: Row)
    requires i < j < |Exec(checks).attempts|
    requires var a := Exec(checks).attempts; r in InWindow(table, a[i].start, a[i].end)
    ensures var a := Exec(checks).attempts; r !in InWindow(other, a[j].start, a[j].end)
  {
    hide Exec, WeekStart, LatestWeek;
    WindowsDisjointIncreasing(checks);
    var a := Exec(checks).attempts;
    InWindowRows(table, a[i].start, a[i].end);
    InWindowRows(other, a[j].start, a[j].end);
    assert a[i].end <= a[j].start;
  }

  // ----- The worker -----

  class WeeklyRollup {
    var lastWeekStart: int
    var hasLastWeek: bool
    var attempts: seq<Attempt>
    /** The checks made so far. */
    ghost var checks: seq<Check>

    ghost predicate Valid()
      reads this
    {
      State(hasLastWeek, lastWeekStart, attempts) == Exec(checks)
    }

    constructor ()
      ensures Valid() && checks == []
    {
      lastWeekStart, hasLastWeek, attempts := 0, false, [];
      checks := [];
    }

    method IsNewWeek(tm: Tm) returns (isNew: bool)
      modifies this`lastWeekStart, this`hasLastWeek
      ensures hasLastWeek
      ensures isNew == (old(hasLastWeek) && CurrentWeekStart(tm) > old(lastWeekStart))
      ensures lastWeekStart == if old(hasLastWeek) && !isNew then old(lastWeekStart) else CurrentWeekStart(tm)
    {
      var weekStart := CurrentWeekStart(tm);
      if !hasLastWeek {
        lastWeekStart := weekStart;
        hasLastWeek := true;
        return false;
      }
      if weekStart > lastWeekStart {
        lastWeekStart := weekStart;
        return true;
      }
      return false;
    }

    /** `check` holds what the database does in this pass. */
    method ProcessWeek(check: Check)
      modifies this`attempts
      ensures attempts == old(attempts) + [AttemptOf(check, lastWeekStart)]
      ensures IsAttempt(attempts[|attempts| - 1], check, lastWeekStart)
    {
      AttemptIs(check, lastWeekStart);
      hide IsAttempt, IsWeekly;
      var weekEnd := lastWeekStart;
      var weekStart := weekEnd - WEEK;
      if !check.connected {
        attempts := attempts + [Attempt(weekStart, weekEnd, false, None, None)];
        return;
      }
      var rows := InWindow(check.table, weekStart, weekEnd);
      if rows == [] {
        attempts := attempts + [Attempt(weekStart, weekEnd, true, None, None)];
        return;
      }
      var summary := SummarizeRows(weekStart, rows);
      if check.stored {
        var retentionStart := check.deleteAt - RETENTION;
        attempts := attempts + [Attempt(weekStart, weekEnd, true, Some(summary), Some(retentionStart))];
      } else {
        attempts := attempts + [Attempt(weekStart, weekEnd, true, None, None)];
      }
    }

    /** The check loop; `clock` holds the broken-down time of each check. */
    method Run(clock: seq<Tm>, upcoming: seq<Check>)
      requires Valid()
      requires |clock| == |upcoming|
      requires forall i :: 0 <= i < |clock| ==> BreaksDown(clock[i], upcoming[i].t)
      modifies this
      ensures Valid() && checks == old(checks) + upcoming
    {
      hide CurrentWeekStart, WeekStart, BreaksDown, AttemptOf, Exec;
      for i := 0 to |clock|
        invariant Valid() && checks == old(checks) + upcoming[..i]
      {
        CurrentWeekStartCorrect(clock[i], upcoming[i].t);
        ExecSnoc(checks, upcoming[i]);
        var isNew := IsNewWeek(clock[i]);
        if isNew {
          ProcessWeek(upcoming[i]);
        }
        checks := checks + [upcoming[i]];
      }
      assert upcoming[..|clock|] == upcoming;
    }
  }

  lemma ExecSnoc(checks: seq<Check>, c: Check)
    ensures Exec(checks + [c]) == Step(Exec(checks), c)
  {
    assert (checks + [c])[..|checks|] == checks;
  }
}
