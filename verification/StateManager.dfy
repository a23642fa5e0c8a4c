/** The one-second tick loop: metrics/state_manager.cpp. Times are steady-clock nanoseconds. */
module StateManagement {
  import opened Sequences
  import opened Snapshots
  import opened BatchSummaries
  import opened RingBuffers
  import opened MetricAggregation

  const SECOND := 1_000_000_000
  const MINUTE := 60 * SECOND
  const AGGREGATION_INTERVAL := 15
  const RING_CAPACITY := 900

  /**
   What the environment decides in one iteration: the snapshot, whether a summary callback is installed, and how
   long each part takes. Delays are arbitrary, so every steady clock and every oversleeping scheduler is covered.
   */
  datatype Iteration = Iteration(
    snapshot: Snapshot, callbackSet: bool, wakeToRead: nat, readToFlush: nat, flushToSleep: nat, oversleep: nat)

  /** A block that was summarized, and whether a callback received the summary. */
  datatype Flush = Flush(block: seq<Snapshot>, delivered: bool)

  function Concat(flushes: seq<Flush>): seq<Snapshot> {
    if flushes == [] then [] else Concat(flushes[..|flushes| - 1]) + flushes[|flushes| - 1].block
  }

  /** What the callbacks must have received: the batch summaries of the delivered blocks, in order. */
  function Delivered(flushes: seq<Flush>): seq<Snapshot> {
    if flushes == [] then []
    else
      var last := flushes[|flushes| - 1];
      Delivered(flushes[..|flushes| - 1]) + if last.delivered then [BatchSummary(last.block)] else []
  }

  lemma FlushesSnoc(flushes: seq<Flush>, f: Flush)
    ensures Concat(flushes + [f]) == Concat(flushes) + f.block
    ensures Delivered(flushes + [f]) == Delivered(flushes) + if f.delivered then [BatchSummary(f.block)] else []
  {
    hide BatchSummary;
    assert (flushes + [f])[..|flushes|] == flushes;
  }

  /** How the tick history, the cut blocks, the unflushed remainder and the outputs fit together. */
  ghost predicate Accounts(ticks: seq<Snapshot>, flushes: seq<Flush>, remainder: seq<Snapshot>,
                           persisted: seq<Snapshot>, pushed: seq<Option<Snapshot>>, latest: Option<Snapshot>)
  {
    && ticks == Concat(flushes) + remainder
    && (forall i :: 0 <= i < |flushes| ==> flushes[i].block != [])
    && persisted == Delivered(flushes)
    && pushed == Wrapped(ticks)
    && latest == (if ticks == [] then None else Some(ticks[|ticks| - 1]))
  }

  lemma AccountsTick(ticks: seq<Snapshot>, flushes: seq<Flush>, remainder: seq<Snapshot>, persisted: seq<Snapshot>,
                     pushed: seq<Option<Snapshot>>, latest: Option<Snapshot>, s: Snapshot)
    requires Accounts(ticks, flushes, remainder, persisted, pushed, latest)
    ensures Accounts(ticks + [s], flushes, remainder + [s], persisted, pushed + [Some(s)], Some(s))
  {
    assert Concat(flushes) + (remainder + [s]) == (Concat(flushes) + remainder) + [s];
    assert Wrapped(ticks + [s]) == Wrapped(ticks) + [Some(s)];
  }

  lemma AccountsFlush(ticks: seq<Snapshot>, flushes: seq<Flush>, block: seq<Snapshot>, persisted: seq<Snapshot>,
                      pushed: seq<Option<Snapshot>>, latest: Option<Snapshot>, delivered: bool)
    requires Accounts(ticks, flushes, block, persisted, pushed, latest) && block != []
    ensures Accounts(ticks, flushes + [Flush(block, delivered)], [],
                     if delivered then persisted + [BatchSummary(block)] else persisted, pushed, latest)
  {
    hide BatchSummary, Wrapped, Concat, Delivered;
    FlushesSnoc(flushes, Flush(block, delivered));
  }

  class StateManager {
    const ring: RingBuffer<Option<Snapshot>>
    const aggregator: MetricAggregator
    var latestSnapshot: Option<Snapshot>
    var intervalStart: int
    /** The summaries the callback was called with. */
    var persisted: seq<Snapshot>
    /** Every snapshot taken by a tick. */
    ghost var ticks: seq<Snapshot>
    /** The blocks cut so far. */
    ghost var flushes: seq<Flush>

    ghost predicate Valid()
      reads this, ring, ring.data, aggregator
    {
      && ring.Valid() && aggregator.Valid()
      && ring.data.Length == RING_CAPACITY
      && Accounts(ticks, flushes, aggregator.since, persisted, ring.pushed, latestSnapshot)
    }

    constructor (now: int)
      ensures Valid() && fresh(ring) && fresh(ring.data) && fresh(aggregator)
      ensures ticks == [] && flushes == [] && intervalStart == now
    {
      ring := new RingBuffer(RING_CAPACITY);
      aggregator := new MetricAggregator();
      latestSnapshot := None;
      intervalStart := now;
      persisted := [];
      ticks, flushes := [], [];
    }

    /** The live snapshot, the ring and the aggregator each take the tick's snapshot. */
    method Feed(s: Snapshot)
      requires Valid()
      modifies this, ring, ring.data, aggregator
      ensures Valid()
      ensures ticks == old(ticks) + [s] && flushes == old(flushes)
      ensures aggregator.since == old(aggregator.since) + [s]
      ensures intervalStart == old(intervalStart)
    {
      hide MetricAggregator.Valid, RingBuffer.Valid, Accounts;
      AccountsTick(ticks, flushes, aggregator.since, persisted, ring.pushed, latestSnapshot, s);
      latestSnapshot := Some(s);
      ring.Push(Some(s));
      aggregator.AddSnapshot(s);
      ticks := ticks + [s];
    }

    /** Summarizes and resets the aggregator; the ring and the live snapshot are not touched. */
    method Cut(clock: int, callbackSet: bool)
      requires Valid() && aggregator.since != []
      modifies this`intervalStart, this`persisted, this`flushes, aggregator
      ensures Valid()
      ensures flushes == old(flushes) + [Flush(old(aggregator.since), callbackSet)]
      ensures aggregator.since == [] && intervalStart == clock
    {
      hide MetricAggregator.Valid, RingBuffer.Valid, Accounts, BatchSummary;
      AccountsFlush(ticks, flushes, aggregator.since, persisted, ring.pushed, latestSnapshot, callbackSet);
      var summary := aggregator.ProduceSummary();
      flushes := flushes + [Flush(aggregator.since, callbackSet)];
      if callbackSet {
        persisted := persisted + [summary];
      }
      aggregator.Reset();
      intervalStart := clock;
    }

    /** One iteration up to the sleep. Returns the time at which it goes to sleep. */
    method Tick(now: int, it: Iteration) returns (asleep: int)
      requires Valid()
      modifies this, ring, ring.data, aggregator
      ensures Valid()
      ensures ticks == old(ticks) + [it.snapshot]
      ensures now - old(intervalStart) >= 900 * 1_000_000_000 ==>
                && flushes == old(flushes) + [Flush(old(aggregator.since) + [it.snapshot], it.callbackSet)]
                && aggregator.since == []
                && intervalStart == now + it.readToFlush
      ensures now - old(intervalStart) < 900 * 1_000_000_000 ==>
                && flushes == old(flushes)
                && aggregator.since == old(aggregator.since) + [it.snapshot]
                && intervalStart == old(intervalStart)
      ensures asleep == now + it.readToFlush + it.flushToSleep
    {
      hide Valid;
      Feed(it.snapshot);
      var clock := now + it.readToFlush;
      var elapsed := WholeMinutes(now - intervalStart);
      if elapsed >= AGGREGATION_INTERVAL {
        Cut(clock, it.callbackSet);
      }
      asleep := clock + it.flushToSleep;
    }

    /**
     The loop, for as many iterations as the manager keeps running. `starts` lists the clock value each tick
     started with: the due time, start + k seconds, or the end of the tick before if that is later, plus the delays.
     */
    method Run(start: int, iterations: seq<Iteration>) returns (starts: seq<int>)
      requires Valid()
      modifies this, ring, ring.data, aggregator
      ensures Valid()
      ensures Accounts(ticks, flushes, aggregator.since, persisted, ring.pushed, latestSnapshot)
      ensures ticks == old(ticks) + Inputs(iterations)
      ensures old(flushes) <= flushes
      ensures AreStarts(start, iterations, starts)
    {
      hide MetricAggregator.Valid, RingBuffer.Valid, Accounts;
      starts := [];
      var nextTick, clock := start, start;
      for k := 0 to |iterations|
        invariant Valid()
        invariant ticks == old(ticks) + Inputs(iterations[..k])
        invariant old(flushes) <= flushes
        invariant |starts| == k
        invariant nextTick == start + k * SECOND
        invariant clock == if k == 0 then start else Awake(start, iterations, starts, k - 1)
        invariant forall j :: 0 <= j < k ==> IsStart(start, iterations, starts, j)
      {
        var it := iterations[k];
        assert iterations[..k + 1] == iterations[..k] + [it];
        assert Inputs(iterations[..k + 1]) == Inputs(iterations[..k]) + [it.snapshot];
        var now := clock + it.wakeToRead;
        ghost var before := starts;
        starts := starts + [now];
        clock := Tick(now, it);
        nextTick := nextTick + SECOND;
        var sleepUntil := if nextTick > clock then nextTick else clock;
        clock := sleepUntil + it.oversleep;
        forall j | 0 <= j <= k
          ensures IsStart(start, iterations, starts, j)
        {
          assert j < k ==> IsStart(start, iterations, before, j);
        }
      }
      assert iterations[..|iterations|] == iterations;
    }

    /** The recent history that live views read: a flush leaves it alone. */
    method RecentHistory() returns (recent: seq<Option<Snapshot>>)
      requires Valid()
      ensures recent == Wrapped(LastN(ticks, 900))
    {
      recent := ring.ForEach();
    }

    method GetLiveSnapshot() returns (live: Snapshot)
      requires Valid()
      ensures live == if ticks == [] then Blank() else ticks[|ticks| - 1]
    {
      live := if latestSnapshot.Some? then latestSnapshot.value else Blank();
    }
  }

  /** Truncation of a duration to whole minutes, toward zero. */
  method WholeMinutes(d: int) returns (m: int)
    ensures d >= 0 ==> m >= 0 && m * MINUTE <= d < (m + 1) * MINUTE
    ensures d < 0 ==> m <= 0
  {
    m := if d >= 0 then d / MINUTE else -((-d) / MINUTE);
  }

  function Inputs(iterations: seq<Iteration>): seq<Snapshot> {
    seq(|iterations|, i requires 0 <= i < |iterations| => iterations[i].snapshot)
  }

  function Wrapped(h: seq<Snapshot>): seq<Option<Snapshot>> {
    seq(|h|, i requires 0 <= i < |h| => Some(h[i]))
  }

  // ----- When ticks start -----

  function Later(a: int, b: int): int {
    if a > b then a else b
  }

  /** When the loop wakes up after tick k: at the next due time, or when the tick ends if that is later. */
  function Awake(start: int, iterations: seq<Iteration>, starts: seq<int>, k: nat): int
    requires k < |starts| && k < |iterations|
  {
    var it := iterations[k];
    Later(start + (k + 1) * 1_000_000_000, starts[k] + it.readToFlush + it.flushToSleep) + it.oversleep
  }

  predicate IsStart(start: int, iterations: seq<Iteration>, starts: seq<int>, k: nat)
    requires k < |starts| <= |iterations|
  {
    starts[k] == (if k == 0 then start else Awake(start, iterations, starts, k - 1)) + iterations[k].wakeToRead
  }

  ghost predicate AreStarts(start: int, iterations: seq<Iteration>, starts: seq<int>) {
    |starts| == |iterations| && forall k :: 0 <= k < |starts| ==> IsStart(start, iterations, starts, k)
  }

  /** Whatever the delays, tick k never starts before start + k seconds, nor before the tick that precedes it. */
  lemma NeverEarly(start: int, iterations: seq<Iteration>, starts: seq<int>, k: nat)
    requires AreStarts(start, iterations, starts) && k < |starts|
    ensures starts[k] >= start + k * 1_000_000_000
    ensures k > 0 ==> starts[k] >= starts[k - 1]
  {
    assert IsStart(start, iterations, starts, k);
  }

  /** The work of a tick and what woke it up late fit into one second. */
  predicate Fits(iterations: seq<Iteration>, k: nat)
    requires k < |iterations|
  {
    var it := iterations[k];
    (if k == 0 then 0 else iterations[k - 1].oversleep) + it.wakeToRead + it.readToFlush + it.flushToSleep
      <= 1_000_000_000
  }

  /** As long as that is so, no delay accumulates: tick k starts at start + k seconds plus its own lateness. */
  lemma {:induction false} OnTime(start: int, iterations: seq<Iteration>, starts: seq<int>, k: nat)
    requires AreStarts(start, iterations, starts) && k < |starts|
    requires forall j: nat :: j < k ==> Fits(iterations, j)
    ensures starts[k] == start + k * 1_000_000_000 +
                         (if k == 0 then 0 else iterations[k - 1].oversleep) + iterations[k].wakeToRead
  {
    assert IsStart(start, iterations, starts, k);
    if k > 0 {
      OnTime(start, iterations, starts, k - 1);
      assert Fits(iterations, k - 1);
    }
  }

  /** How many ticks start within a duration. */
  function StartedWithin(start: int, starts: seq<int>, duration: nat): nat {
    if starts == [] then 0
    else
      StartedWithin(start, starts[..|starts| - 1], duration) +
      if starts[|starts| - 1] <= start + duration then 1 else 0
  }

  lemma {:induction false} AtMostAll(start: int, starts: seq<int>, duration: nat)
    ensures StartedWithin(start, starts, duration) <= |starts|
  {
    if starts != [] {
      AtMostAll(start, starts[..|starts| - 1], duration);
    }
  }

  /** At most floor(T) + 1 ticks start within a duration T. */
  lemma TickRate(start: int, iterations: seq<Iteration>, starts: seq<int>, duration: nat)
    requires AreStarts(start, iterations, starts)
    ensures StartedWithin(start, starts, duration) <= duration / 1_000_000_000 + 1
  {
    forall k | 0 <= k < |starts|
      ensures starts[k] >= start + k * SECOND
    {
      NeverEarly(start, iterations, starts, k);
    }
    TickRateOf(start, starts, duration);
  }

  lemma {:induction false} TickRateOf(start: int, starts: seq<int>, duration: nat)
    requires forall k :: 0 <= k < |starts| ==> starts[k] >= start + k * SECOND
    ensures StartedWithin(start, starts, duration) <= duration / SECOND + 1
  {
    if starts != [] {
      TickRateOf(start, starts[..|starts| - 1], duration);
      AtMostAll(start, starts, duration);
      assert starts[|starts| - 1] >= start + (|starts| - 1) * SECOND;
    }
  }
}
