/**
 Event counters, polled for totals and rates while other threads keep counting: metrics/throughput_tracker.cpp.
 A poll loads the counters one by one and a reset clears them one by one; both hold the mutex, the increments do
 not. Every atomic access is one step; a step that is not possible leaves the state alone.
 */
module ThroughputTracking {
  import opened Sequences

  const COUNTERS := 13
  const WORD := 0x1_0000_0000_0000_0000
  const NANO := 1_000_000_000.0
  const SHORTEST := 0.000000001

  // The counters, in the order in which a poll loads them.

  const MESSAGES_RECEIVED := 0
  const MESSAGES_SENT := 1
  const BYTES_RECEIVED := 2
  const BYTES_SENT := 3
  const PACKETS_RECEIVED := 4
  const PACKETS_SENT := 5
  const TICKS := 6
  const TRADES := 7
  const ORDERBOOK_UPDATES := 8
  const SUBSCRIPTIONS := 9
  const BROADCASTS := 10
  const DATABASE_WRITES := 11
  const DATABASE_READS := 12

  type Counter = c: nat | c < COUNTERS
  type Counters = v: seq<nat> | |v| == COUNTERS witness seq(COUNTERS, _ => 0)

  /** What the holder of the mutex is doing. */
  datatype Phase =
    | Unlocked
    | Polling(now: int, loaded: seq<nat>)
    | Resetting(cleared: nat)

  datatype Step =
    | Add(c: Counter, n: nat)
    | BeginPoll(now: int)
    | Load
    | EndPoll
    | BeginReset
    | Clear
    | EndReset(now: int)

  datatype State = State(counters: Counters, last: Counters, lastUpdate: int, phase: Phase)

  function Init(start: int): State {
    State(seq(COUNTERS, _ => 0), seq(COUNTERS, _ => 0), start, Unlocked)
  }

  predicate Enabled(s: State, step: Step) {
    match step
    case Add(_, _) => true
    case BeginPoll(_) => s.phase.Unlocked?
    case Load => s.phase.Polling? && |s.phase.loaded| < COUNTERS
    case EndPoll => s.phase.Polling? && |s.phase.loaded| == COUNTERS
    case BeginReset => s.phase.Unlocked?
    case Clear => s.phase.Resetting? && s.phase.cleared < COUNTERS
    case EndReset(_) => s.phase.Resetting? && s.phase.cleared == COUNTERS
  }

  function Next(s: State, step: Step): State {
    if !Enabled(s, step) then s
    else
      match step
      case Add(c, n) => s.(counters := s.counters[c := s.counters[c] + n])
      case BeginPoll(now) => s.(phase := Polling(now, []))
      case Load => s.(phase := Polling(s.phase.now, s.phase.loaded + [s.counters[|s.phase.loaded|]]))
      case EndPoll => s.(last := s.phase.loaded, lastUpdate := s.phase.now, phase := Unlocked)
      case BeginReset => s.(phase := Resetting(0))
      case Clear => s.(counters := s.counters[s.phase.cleared := 0], phase := Resetting(s.phase.cleared + 1))
      case EndReset(now) => s.(last := seq(COUNTERS, _ => 0), lastUpdate := now, phase := Unlocked)
  }

  function Exec(start: int, steps: seq<Step>): State {
    if steps == [] then Init(start) else Next(Exec(start, steps[..|steps| - 1]), steps[|steps| - 1])
  }

  // ----- What a poll reports -----

  /** Nanoseconds as seconds, clamped away from zero. */
  function Clamped(nanoseconds: int): (e: real)
    ensures e > 0.0
  {
    var e := nanoseconds as real / NANO;
    if e < SHORTEST then SHORTEST else e
  }

  /** Seconds since the last poll, clamped. */
  function Elapsed(s: State): (e: real)
    requires s.phase.Polling?
    ensures e > 0.0
  {
    Clamped(s.phase.now - s.lastUpdate)
  }

  /** The 64-bit unsigned difference. */
  function Difference(a: nat, b: nat): int {
    if a >= b then (a as int) - b else WORD + (a as int) - b
  }

  /** The rate that a completed poll returns for a counter. */
  function Rate(s: State, c: Counter): real
    requires Enabled(s, EndPoll)
  {
    Difference(s.phase.loaded[c], s.last[c]) as real / Elapsed(s)
  }

  /** The events that a counter's rates account for since the last reset: the sum of rate times elapsed time. */
  function Reported(start: int, steps: seq<Step>, c: Counter): real {
    if steps == [] then 0.0
    else
      var before, sofar := Exec(start, steps[..|steps| - 1]), Reported(start, steps[..|steps| - 1], c);
      match steps[|steps| - 1]
      case EndPoll => if Enabled(before, EndPoll) then sofar + Rate(before, c) * Elapsed(before) else sofar
      case EndReset(_) => if before.phase.Resetting? && before.phase.cleared == COUNTERS then 0.0 else sofar
      case _ => sofar
  }

  /** Every event ever counted. */
  function Added(steps: seq<Step>, c: Counter): nat {
    if steps == [] then 0
    else
      Added(steps[..|steps| - 1], c) +
      match steps[|steps| - 1]
      case Add(d, n) => if c == d then n else 0
      case _ => 0
  }

  /** The events that resets wiped out. */
  function Wiped(start: int, steps: seq<Step>, c: Counter): nat {
    if steps == [] then 0
    else
      var before := Exec(start, steps[..|steps| - 1]);
      Wiped(start, steps[..|steps| - 1], c) +
      if steps[|steps| - 1].Clear? && Enabled(before, Clear) && before.phase.cleared == c then before.counters[c] else 0
  }

  // ----- Invariants over every run -----

  /** Counters never fall behind the values a poll remembers, except for those a reset has just cleared. */
  ghost predicate Consistent(s: State, c: Counter) {
    match s.phase
    case Unlocked => s.last[c] <= s.counters[c]
    case Polling(_, loaded) =>
      |loaded| <= COUNTERS && s.last[c] <= s.counters[c] &&
      (c < |loaded| ==> s.last[c] <= loaded[c] <= s.counters[c])
    case Resetting(cleared) => cleared <= COUNTERS && (cleared <= c ==> s.last[c] <= s.counters[c])
  }

  lemma {:induction false} AlwaysConsistent(start: int, steps: seq<Step>, c: Counter)
    ensures Consistent(Exec(start, steps), c)
  {
    if steps != [] {
      AlwaysConsistent(start, steps[..|steps| - 1], c);
    }
  }

  lemma RateTimesElapsed(x: real, e: real)
    requires e > 0.0
    ensures x / e * e == x
  {
  }

  /**
   However increments interleave with the loads of a poll, each counter's rates times the clamped elapsed times
   add up to the total the last poll returned.
   */
  lemma {:induction false} RatesAccountForTotals(start: int, steps: seq<Step>, c: Counter)
    ensures Reported(start, steps, c) == Exec(start, steps).last[c] as real
  {
    if steps != [] {
      var before, step := Exec(start, steps[..|steps| - 1]), steps[|steps| - 1];
      RatesAccountForTotals(start, steps[..|steps| - 1], c);
      if step.EndPoll? && Enabled(before, EndPoll) {
        AlwaysConsistent(start, steps[..|steps| - 1], c);
        assert Consistent(before, c);
        RateTimesElapsed(Difference(before.phase.loaded[c], before.last[c]) as real, Elapsed(before));
      }
    }
  }

  /** No event is lost or counted twice: each is in the counter still, or was wiped by a reset. */
  lemma {:induction false} EventsConserved(start: int, steps: seq<Step>, c: Counter)
    ensures Added(steps, c) == Wiped(start, steps, c) + Exec(start, steps).counters[c]
  {
    if steps != [] {
      EventsConserved(start, steps[..|steps| - 1], c);
    }
  }

  /** The unsigned subtraction of a poll never wraps, so every rate is the true one and non-negative. */
  lemma RatesNeverWrap(start: int, steps: seq<Step>, c: Counter)
    requires Enabled(Exec(start, steps), EndPoll)
    ensures var s := Exec(start, steps);
            s.last[c] <= s.phase.loaded[c] <= s.counters[c] &&
            Rate(s, c) * Elapsed(s) == s.phase.loaded[c] as real - s.last[c] as real &&
            Rate(s, c) >= 0.0
  {
    AlwaysConsistent(start, steps, c);
    hide Exec;
    PollRate(Exec(start, steps), c);
  }

  lemma PollRate(s: State, c: Counter)
    requires Consistent(s, c) && Enabled(s, EndPoll)
    ensures s.last[c] <= s.phase.loaded[c] <= s.counters[c]
    ensures Rate(s, c) * Elapsed(s) == s.phase.loaded[c] as real - s.last[c] as real && Rate(s, c) >= 0.0
  {
    hide Elapsed;
    var gained := Difference(s.phase.loaded[c], s.last[c]) as real;
    RateTimesElapsed(gained, Elapsed(s));
    DivBetween(gained, Elapsed(s), 0.0, 0.0);
  }

  /** A second has 10^9 nanoseconds, and only a time that did not advance by one nanosecond is clamped. */
  lemma SecondsOf(d: int)
    ensures Clamped(1_000_000_000) == 1.0
    ensures d >= 1 ==> Clamped(d) * 1_000_000_000.0 == d as real
    ensures d <= 0 ==> Clamped(d) == 0.000000001
  {
  }

  /** The rate of a poll some whole number of seconds after the last one, times that number, is what was gained. */
  lemma RatePerSecond(start: int, steps: seq<Step>, c: Counter, seconds: nat)
    requires Enabled(Exec(start, steps), EndPoll) && seconds > 0
    requires Exec(start, steps).phase.now == Exec(start, steps).lastUpdate + seconds * 1_000_000_000
    ensures var s := Exec(start, steps);
            Rate(s, c) * seconds as real == s.phase.loaded[c] as real - s.last[c] as real
  {
    RatesNeverWrap(start, steps, c);
    hide Exec, Rate;
    assert Elapsed(Exec(start, steps)) == seconds as real;
  }

  predicate NoReset(steps: seq<Step>) {
    forall i :: 0 <= i < |steps| ==> !steps[i].BeginReset?
  }

  lemma {:induction false} NothingWiped(start: int, steps: seq<Step>, c: Counter)
    requires NoReset(steps)
    ensures Wiped(start, steps, c) == 0 && !Exec(start, steps).phase.Resetting?
  {
    if steps != [] {
      NothingWiped(start, steps[..|steps| - 1], c);
    }
  }

  /**
   Without a reset, what the polls have reported plus what they have yet to see is every event so far. The part
   yet to see is never negative.
   */
  lemma ReportedPlusPending(start: int, steps: seq<Step>, c: Counter)
    requires NoReset(steps)
    ensures var s := Exec(start, steps);
            s.last[c] <= s.counters[c] &&
            Reported(start, steps, c) + (s.counters[c] - s.last[c]) as real == Added(steps, c) as real
  {
    RatesAccountForTotals(start, steps, c);
    EventsConserved(start, steps, c);
    NothingWiped(start, steps, c);
    AlwaysConsistent(start, steps, c);
  }

  // ----- The tracker -----

  /** An increment that another thread makes while a poll or a reset is under way. */
  datatype Event = Event(c: Counter, n: nat)

  /** `phase` holds the local values of the poll or the reset that owns the mutex. */
  class ThroughputTracker {
    const start: int
    var counters: Counters
    var last: Counters
    var lastUpdate: int
    var phase: Phase
    /** Every atomic access so far. */
    ghost var steps: seq<Step>

    ghost function Now(): State
      reads this
    {
      State(counters, last, lastUpdate, phase)
    }

    ghost predicate Valid()
      reads this
    {
      Now() == Exec(start, steps)
    }

    constructor (now: int)
      ensures Valid() && phase.Unlocked? && steps == [] && start == now
    {
      start, lastUpdate := now, now;
      counters, last := seq(COUNTERS, _ => 0), seq(COUNTERS, _ => 0);
      phase := Unlocked;
      steps := [];
    }

    /** fetch_add on one counter. */
    method AddTo(c: Counter, n: nat)
      requires Valid()
      modifies this`counters, this`steps
      ensures Valid() && steps == old(steps) + [Add(c, n)]
    {
      hide Exec;
      ExecSnoc(start, steps, Add(c, n));
      counters := counters[c := counters[c] + n];
      steps := steps + [Add(c, n)];
    }

    method OnMessageReceived(bytes: nat, packets: nat)
      requires Valid()
      modifies this`counters, this`steps
      ensures Valid()
      ensures steps == old(steps) + [Add(MESSAGES_RECEIVED, 1)] +
                       (if bytes > 0 then [Add(BYTES_RECEIVED, bytes)] else []) +
                       (if packets > 0 then [Add(PACKETS_RECEIVED, packets)] else [])
    {
      AddTo(MESSAGES_RECEIVED, 1);
      if bytes > 0 {
        AddTo(BYTES_RECEIVED, bytes);
      }
      if packets > 0 {
        AddTo(PACKETS_RECEIVED, packets);
      }
    }

    method Interfere(events: seq<Event>)
      requires Valid()
      modifies this`counters, this`steps
      ensures Valid() && old(steps) <= steps
      ensures |counters| == COUNTERS && forall c: Counter :: old(counters[c]) <= counters[c]
    {
      for i := 0 to |events|
        invariant Valid() && old(steps) <= steps
        invariant forall c: Counter :: old(counters[c]) <= counters[c]
      {
        AddTo(events[i].c, events[i].n);
      }
    }

    method BeginPolling(now: int)
      requires Valid() && phase.Unlocked?
      modifies this`phase, this`steps
      ensures Valid() && phase == Polling(now, []) && steps == old(steps) + [BeginPoll(now)]
    {
      hide Exec;
      ExecSnoc(start, steps, BeginPoll(now));
      phase := Polling(now, []);
      steps := steps + [BeginPoll(now)];
    }

    method LoadNext()
      requires Valid() && phase.Polling? && |phase.loaded| < COUNTERS
      modifies this`phase, this`steps
      ensures Valid() && steps == old(steps) + [Load]
      ensures phase == Polling(old(phase).now, old(phase).loaded + [counters[|old(phase).loaded|]])
    {
      hide Exec;
      ExecSnoc(start, steps, Load);
      phase := Polling(phase.now, phase.loaded + [counters[|phase.loaded|]]);
      steps := steps + [Load];
    }

    /** The rates from the loaded values, and the update of the remembered ones. */
    method EndPolling() returns (totals: Counters, rates: seq<real>)
      requires Valid() && phase.Polling? && |phase.loaded| == COUNTERS
      modifies this`last, this`lastUpdate, this`phase, this`steps
      ensures Valid() && phase.Unlocked? && steps == old(steps) + [EndPoll]
      ensures totals == old(phase).loaded == last && lastUpdate == old(phase).now
      ensures |rates| == COUNTERS && forall c: Counter :: rates[c] == Rate(old(Now()), c)
    {
      hide Exec;
      ExecSnoc(start, steps, EndPoll);
      totals := phase.loaded;
      var elapsed := (phase.now - lastUpdate) as real / NANO;
      if elapsed < SHORTEST {
        elapsed := SHORTEST;
      }
      rates := [];
      for i := 0 to COUNTERS
        invariant |rates| == i && forall c: Counter :: c < i ==> rates[c] == Rate(Now(), c)
      {
        rates := rates + [Difference(totals[i], last[i]) as real / elapsed];
      }
      last, lastUpdate, phase := totals, phase.now, Unlocked;
      steps := steps + [EndPoll];
    }

    /**
     A poll. The other threads make `others(i)` before the load of counter i. Each rate times the clamped elapsed time
     is what the counter gained since the last poll, and the totals are what all polls together have accounted for.
     */
    method GetAndUpdateStats(now: int, others: nat -> seq<Event>) returns (totals: Counters, rates: seq<real>)
      requires Valid() && phase.Unlocked?
      modifies this`counters, this`last, this`lastUpdate, this`phase, this`steps
      ensures Valid() && phase.Unlocked? && old(steps) <= steps
      ensures last == totals && lastUpdate == now && |rates| == COUNTERS
      ensures forall c: Counter ::
                && old(last)[c] <= totals[c] <= counters[c]
                && rates[c] >= 0.0
                && rates[c] * Clamped(now - old(lastUpdate)) == totals[c] as real - old(last)[c] as real
                && (now - old(lastUpdate) == 1_000_000_000 ==> rates[c] == totals[c] as real - old(last)[c] as real)
                && Reported(start, steps, c) == totals[c] as real
    {
      hide Exec, Next, Reported, Rate;
      BeginPolling(now);
      for i := 0 to COUNTERS
        invariant Valid() && old(steps) <= steps
        invariant last == old(last) && lastUpdate == old(lastUpdate)
        invariant phase.Polling? && phase.now == now && |phase.loaded| == i
      {
        Interfere(others(i));
        LoadNext();
      }
      ghost var before := steps;
      SecondsOf(1_000_000_000);
      totals, rates := EndPolling();
      forall c: Counter
        ensures old(last)[c] <= totals[c] <= counters[c] && rates[c] >= 0.0
        ensures rates[c] * Clamped(now - old(lastUpdate)) == totals[c] as real - old(last)[c] as real
        ensures Reported(start, steps, c) == totals[c] as real
      {
        RatesNeverWrap(start, before, c);
        RatesAccountForTotals(start, steps, c);
      }
    }

    method BeginResetting()
      requires Valid() && phase.Unlocked?
      modifies this`phase, this`steps
      ensures Valid() && phase == Resetting(0) && steps == old(steps) + [BeginReset]
    {
      hide Exec;
      ExecSnoc(start, steps, BeginReset);
      phase := Resetting(0);
      steps := steps + [BeginReset];
    }

    method ClearNext()
      requires Valid() && phase.Resetting? && phase.cleared < COUNTERS
      modifies this`counters, this`phase, this`steps
      ensures Valid() && steps == old(steps) + [Clear] && phase == Resetting(old(phase).cleared + 1)
      ensures counters == old(counters)[old(phase).cleared := 0]
    {
      hide Exec;
      ExecSnoc(start, steps, Clear);
      counters := counters[phase.cleared := 0];
      phase := Resetting(phase.cleared + 1);
      steps := steps + [Clear];
    }

    method EndResetting(now: int)
      requires Valid() && phase.Resetting? && phase.cleared == COUNTERS
      modifies this`last, this`lastUpdate, this`phase, this`steps
      ensures Valid() && phase.Unlocked? && lastUpdate == now && steps == old(steps) + [EndReset(now)]
      ensures forall c: Counter :: last[c] == 0
    {
      hide Exec;
      ExecSnoc(start, steps, EndReset(now));
      last, lastUpdate, phase := seq(COUNTERS, _ => 0), now, Unlocked;
      steps := steps + [EndReset(now)];
    }

    /** Afterwards nothing is reported, and every event is in its counter still or was wiped by some reset. */
    method Reset(now: int, others: nat -> seq<Event>)
      requires Valid() && phase.Unlocked?
      modifies this`counters, this`last, this`lastUpdate, this`phase, this`steps
      ensures Valid() && phase.Unlocked? && lastUpdate == now && old(steps) <= steps
      ensures forall c: Counter ::
                && last[c] == 0 && Reported(start, steps, c) == 0.0
                && Added(steps, c) == Wiped(start, steps, c) + counters[c]
    {
      hide Exec, Next, Reported, Added, Wiped;
      BeginResetting();
      for i := 0 to COUNTERS
        invariant Valid() && old(steps) <= steps
        invariant phase == Resetting(i)
      {
        Interfere(others(i));
        ClearNext();
      }
      EndResetting(now);
      forall c: Counter
        ensures Reported(start, steps, c) == 0.0 && Added(steps, c) == Wiped(start, steps, c) + counters[c]
      {
        RatesAccountForTotals(start, steps, c);
        EventsConserved(start, steps, c);
      }
    }
  }

  lemma ExecSnoc(start: int, steps: seq<Step>, step: Step)
    ensures Exec(start, steps + [step]) == Next(Exec(start, steps), step)
  {
    assert (steps + [step])[..|steps|] == steps;
  }
}
