/**
 Lock-free depth gauges with high-water marks: metrics/queue_monitor.cpp. The source repeats the same code for
 the incoming, the outgoing and the serialization queue; the model is one of them. Every atomic access is one
 step, and steps of any number of threads interleave freely. A step that its thread cannot take leaves the
 state alone, so every sequence of steps is a run.
 */
module QueueMonitors {

  const WORD := 0x1_0000_0000_0000_0000

  type Thread = nat

  /** Where a thread stands, with its local variables. */
  datatype Pc =
    | Idle
    | Published(prev: nat)
    | Looping(prev: nat, max: nat)
    | Decrementing

  datatype Step =
    | Increment(t: Thread)
    | Set(t: Thread, depth: nat)
    | LoadMax(t: Thread)
    | Cas(t: Thread, spurious: bool)
    | DecrementLoad(t: Thread)
    | DecrementSub(t: Thread)

  datatype State = State(depth: nat, max: nat, pcs: map<Thread, Pc>) {
    function At(t: Thread): Pc {
      if t in pcs then pcs[t] else Idle
    }

    function Move(t: Thread, pc: Pc): State {
      this.(pcs := pcs[t := pc])
    }

    /** The loop test: the thread leaves as soon as its local maximum is high enough. */
    function Test(t: Thread, prev: nat, localMax: nat): State {
      Move(t, if prev > localMax then Looping(prev, localMax) else Idle)
    }
  }

  const INIT := State(0, 0, map[])

  predicate Enabled(s: State, step: Step) {
    match step
    case Increment(t) => s.At(t).Idle?
    case Set(t, _) => s.At(t).Idle?
    case LoadMax(t) => s.At(t).Published?
    case Cas(t, _) => s.At(t).Looping?
    case DecrementLoad(t) => s.At(t).Idle?
    case DecrementSub(t) => s.At(t).Decrementing?
  }

  function Next(s: State, step: Step): State {
    if !Enabled(s, step) then s
    else
      match step
      case Increment(t) => s.(depth := s.depth + 1).Move(t, Published(s.depth + 1))
      case Set(t, d) => s.(depth := d).Move(t, Published(d))
      case LoadMax(t) => s.Test(t, s.At(t).prev, s.max)
      case Cas(t, spurious) =>
        // A success stores the thread's value but leaves its local maximum as it was.
        if s.max == s.At(t).max && !spurious then s.(max := s.At(t).prev)
        else s.Test(t, s.At(t).prev, s.max)
      case DecrementLoad(t) => if s.depth > 0 then s.Move(t, Decrementing) else s
      case DecrementSub(t) => s.(depth := if s.depth > 0 then s.depth - 1 else WORD - 1).Move(t, Idle)
  }

  /** A run from any state. */
  function Run(s: State, steps: seq<Step>): State
    decreases |steps|
  {
    if steps == [] then s else Run(Next(s, steps[0]), steps[1..])
  }

  function Exec(steps: seq<Step>): State {
    if steps == [] then INIT else Next(Exec(steps[..|steps| - 1]), steps[|steps| - 1])
  }

  function Publishes(s: State, step: Step): seq<nat> {
    if !Enabled(s, step) then []
    else match step
      case Increment(_) => [s.depth + 1]
      case Set(_, d) => [d]
      case _ => []
  }

  /** The depths published by increments and sets, in order. */
  function PublishedBy(steps: seq<Step>): seq<nat> {
    if steps == [] then []
    else PublishedBy(steps[..|steps| - 1]) + Publishes(Exec(steps[..|steps| - 1]), steps[|steps| - 1])
  }

  ghost predicate Quiet(s: State) {
    forall t :: s.At(t).Idle? || s.At(t).Decrementing?
  }

  // ----- Safety of the high-water mark -----

  /** A thread in the loop holds a local maximum below its value and not above the shared one. */
  ghost predicate LocalsBelow(s: State) {
    forall t :: s.At(t).Looping? ==> s.At(t).max < s.At(t).prev && s.At(t).max <= s.max
  }

  /** A published depth is in the mark already, or some thread still carries it. */
  ghost predicate Carried(s: State, v: nat) {
    v <= s.max || exists t :: (s.At(t).Published? || s.At(t).Looping?) && s.At(t).prev == v
  }

  lemma StepInvariant(s: State, step: Step)
    requires LocalsBelow(s)
    ensures LocalsBelow(Next(s, step)) && s.max <= Next(s, step).max
  {
    var after := Next(s, step);
    forall t | after.At(t).Looping?
      ensures after.At(t).max < after.At(t).prev && after.At(t).max <= after.max
    {
      assert s.At(t).Looping? ==> s.At(t).max < s.At(t).prev && s.At(t).max <= s.max;
    }
  }

  lemma StepCarries(s: State, step: Step, v: nat)
    requires LocalsBelow(s) && Carried(s, v)
    ensures Carried(Next(s, step), v)
  {
    var after := Next(s, step);
    StepInvariant(s, step);
    if v > s.max {
      var t :| (s.At(t).Published? || s.At(t).Looping?) && s.At(t).prev == v;
      if step.t != t || !Enabled(s, step) {
        assert after.At(t) == s.At(t);
      } else {
        assert v <= after.max || after.At(t) == Looping(v, s.max) || after.At(t) == s.At(t);
      }
    }
  }

  predicate Carries(pc: Pc) {
    pc.Published? || pc.Looping?
  }

  /** A step moves only its own thread, which then carries what it carried before or what it has just published. */
  lemma StepMoves(s: State, step: Step, t: Thread)
    ensures step.t != t ==> Next(s, step).At(t) == s.At(t)
    ensures Carries(Next(s, step).At(t)) ==>
              || (Carries(s.At(t)) && Next(s, step).At(t).prev == s.At(t).prev)
              || Publishes(s, step) == [Next(s, step).At(t).prev]
    ensures Next(s, step).max == s.max || (Carries(s.At(step.t)) && Next(s, step).max == s.At(step.t).prev)
  {
  }

  lemma StepPublishes(s: State, step: Step)
    ensures Publishes(s, step) == [] || Publishes(s, step) == [Next(s, step).depth]
    ensures Publishes(s, step) != [] ==> Next(s, step).At(step.t) == Published(Next(s, step).depth)
  {
  }

  lemma {:induction false} MarkInvariant(steps: seq<Step>)
    ensures LocalsBelow(Exec(steps))
    ensures Exec(steps).max == 0 || Exec(steps).max in PublishedBy(steps)
    ensures forall t :: Carries(Exec(steps).At(t)) ==> Exec(steps).At(t).prev in PublishedBy(steps)
    ensures forall v :: v in PublishedBy(steps) ==> Carried(Exec(steps), v)
  {
    if steps != [] {
      var prefix, last := steps[..|steps| - 1], steps[|steps| - 1];
      var s, after := Exec(prefix), Exec(steps);
      MarkInvariant(prefix);
      StepInvariant(s, last);
      hide Next, LocalsBelow, Publishes;
      StepMoves(s, last, last.t);
      forall t | Carries(after.At(t))
        ensures after.At(t).prev in PublishedBy(steps)
      {
        StepMoves(s, last, t);
      }
      StepPublishes(s, last);
      forall v | v in PublishedBy(steps)
        ensures Carried(after, v)
      {
        if v in PublishedBy(prefix) {
          StepCarries(s, last, v);
        } else {
          assert after.At(last.t) == Published(v);
        }
      }
    }
  }

  lemma OneMoreStep(steps: seq<Step>, last: Step)
    ensures Exec(steps).max <= Exec(steps + [last]).max
  {
    MarkInvariant(steps);
    ExecSnoc(steps, last);
    StepInvariant(Exec(steps), last);
  }

  lemma ExecSnoc(steps: seq<Step>, last: Step)
    ensures Exec(steps + [last]) == Next(Exec(steps), last)
  {
    hide Next;
    assert (steps + [last])[..|steps|] == steps;
  }

  /** The high-water mark never decreases, whatever happens next. */
  lemma {:induction false} MarkNeverDecreases(steps: seq<Step>, more: seq<Step>)
    ensures Exec(steps).max <= Exec(steps + more).max
  {
    hide Exec;
    if more == [] {
      assert steps + more == steps;
    } else {
      var n := |more| - 1;
      MarkNeverDecreases(steps, more[..n]);
      OneMoreStep(steps + more[..n], more[n]);
      assert steps + more == (steps + more[..n]) + [more[n]];
    }
  }

  /** With no update in progress the mark is the greatest depth ever published, or 0 if there was none. */
  lemma QuiescentMarkIsMaximum(steps: seq<Step>)
    requires Quiet(Exec(steps))
    ensures forall v :: v in PublishedBy(steps) ==> v <= Exec(steps).max
    ensures if PublishedBy(steps) == [] then Exec(steps).max == 0 else Exec(steps).max in PublishedBy(steps)
  {
    var s := Exec(steps);
    MarkInvariant(steps);
    forall v | v in PublishedBy(steps)
      ensures v <= s.max
    {
      assert Carried(s, v);
    }
    if PublishedBy(steps) != [] {
      var first := PublishedBy(steps)[0];
      assert first in PublishedBy(steps) && first <= s.max;
    }
  }

  // ----- Termination of the loop -----

  /** A compare-exchange that fails although the mark held the expected value. */
  predicate FailsSpuriously(s: State, t: Thread, spurious: bool) {
    s.At(t).Looping? && s.max == s.At(t).max && spurious
  }

  /** How many more compare-exchanges a thread can still make, spurious failures aside. */
  function Budget(s: State, t: Thread): nat {
    match s.At(t)
    case Looping(prev, max) => if s.max >= prev || max >= prev then 1 else prev - max + 1
    case _ => 0
  }

  /** Own compare-exchanges use up budget; nothing any other thread does adds to it. */
  lemma BudgetStep(s: State, step: Step, t: Thread)
    requires LocalsBelow(s) && s.At(t).Looping?
    ensures step.t != t ==> Next(s, step).At(t) == s.At(t) && Budget(Next(s, step), t) <= Budget(s, t)
    ensures step.t == t && !step.Cas? ==> Next(s, step) == s
    ensures step.t == t && step.Cas? && FailsSpuriously(s, t, step.spurious) ==> Next(s, step) == s.Move(t, s.At(t))
    ensures step.t == t && step.Cas? && !FailsSpuriously(s, t, step.spurious) ==>
              Budget(Next(s, step), t) < Budget(s, t)
  {
    StepInvariant(s, step);
  }

  /** The compare-exchanges of `t` in a run, until it leaves the loop. */
  function CasCount(s: State, steps: seq<Step>, t: Thread): nat
    decreases |steps|
  {
    if steps == [] || !s.At(t).Looping? then 0
    else (if steps[0].Cas? && steps[0].t == t then 1 else 0) + CasCount(Next(s, steps[0]), steps[1..], t)
  }

  function SpuriousCount(s: State, steps: seq<Step>, t: Thread): nat
    decreases |steps|
  {
    if steps == [] || !s.At(t).Looping? then 0
    else
      (if steps[0].Cas? && steps[0].t == t && FailsSpuriously(s, t, steps[0].spurious) then 1 else 0) +
      SpuriousCount(Next(s, steps[0]), steps[1..], t)
  }

  lemma {:induction false} CasBounded(s: State, steps: seq<Step>, t: Thread)
    requires LocalsBelow(s)
    ensures CasCount(s, steps, t) <= Budget(s, t) + SpuriousCount(s, steps, t)
    decreases |steps|
  {
    if steps != [] && s.At(t).Looping? {
      BudgetStep(s, steps[0], t);
      StepInvariant(s, steps[0]);
      CasBounded(Next(s, steps[0]), steps[1..], t);
    }
  }

  /**
   Under any interference a thread that published `prev` and read `max` makes at most `prev - max + 1`
   compare-exchanges, not counting spurious failures.
   */
  lemma LoopTerminates(before: seq<Step>, steps: seq<Step>, t: Thread)
    requires Exec(before).At(t).Looping?
    ensures var pc := Exec(before).At(t);
            pc.max < pc.prev &&
            CasCount(Exec(before), steps, t) <= pc.prev - pc.max + 1 + SpuriousCount(Exec(before), steps, t)
  {
    MarkInvariant(before);
    CasBounded(Exec(before), steps, t);
  }

  /** A failure that was not spurious raises the thread's local maximum, or ends the loop. */
  lemma TrueFailureRaises(before: seq<Step>, t: Thread, spurious: bool)
    requires Exec(before).At(t).Looping? && Exec(before).max != Exec(before).At(t).max
    ensures var s, after := Exec(before), Next(Exec(before), Cas(t, spurious));
            after.max == s.max &&
            if s.max >= s.At(t).prev then after.At(t).Idle?
            else after.At(t) == Looping(s.At(t).prev, s.max) && s.max > s.At(t).max
  {
    MarkInvariant(before);
  }

  /**
   After a successful exchange the thread is still in the loop. Whatever the others do, its next
   compare-exchange fails, changes nothing, and leaves the loop.
   */
  lemma {:induction false} SuccessThenOneFailure(s: State, t: Thread, others: seq<Step>, spurious: bool)
    requires LocalsBelow(s) && s.At(t).Looping? && s.max == s.At(t).max
    requires forall i :: 0 <= i < |others| ==> others[i].t != t
    ensures var after := Run(Next(s, Cas(t, false)), others);
            && after.At(t) == s.At(t)
            && Next(after, Cas(t, spurious)) == after.Move(t, Idle)
  {
    var won := Next(s, Cas(t, false));
    StepInvariant(s, Cas(t, false));
    Interference(won, t, others);
  }

  lemma {:induction false} Interference(s: State, t: Thread, others: seq<Step>)
    requires LocalsBelow(s)
    requires forall i :: 0 <= i < |others| ==> others[i].t != t
    ensures Run(s, others).At(t) == s.At(t) && s.max <= Run(s, others).max
    decreases |others|
  {
    if others != [] {
      StepInvariant(s, others[0]);
      Interference(Next(s, others[0]), t, others[1..]);
    }
  }

  // ----- The guarded decrement -----

  /** Some decrement subtracted from an empty gauge. */
  predicate Underflows(steps: seq<Step>) {
    steps != [] &&
    var before, last := Exec(steps[..|steps| - 1]), steps[|steps| - 1];
    Underflows(steps[..|steps| - 1]) || (last.DecrementSub? && Enabled(before, last) && before.depth == 0)
  }

  /** The threads that have passed the check and have yet to subtract. */
  function Pending(s: State): set<Thread> {
    set t | t in s.pcs && s.pcs[t].Decrementing?
  }

  /** The gauge is deep enough for every subtraction that is under way. */
  predicate Room(s: State) {
    |Pending(s)| <= s.depth
  }

  /** A passing check finds more depth than subtractions under way, and a store leaves enough for them. */
  predicate Guarded(s: State, step: Step) {
    match step
    case DecrementLoad(_) => Enabled(s, step) && s.depth > 0 ==> |Pending(s)| < s.depth
    case Set(_, d) => Enabled(s, step) ==> |Pending(s)| <= d
    case _ => true
  }

  lemma PendingStep(s: State, step: Step)
    ensures Pending(Next(s, step)) ==
              if !Enabled(s, step) then Pending(s)
              else if step.DecrementLoad? && s.depth > 0 then Pending(s) + {step.t}
              else if step.DecrementSub? then Pending(s) - {step.t}
              else Pending(s)
    ensures step.t in Pending(s) <==> s.At(step.t).Decrementing?
  {
    var after := Next(s, step);
    assert forall t :: t != step.t ==> (t in after.pcs <==> t in s.pcs) && after.At(t) == s.At(t);
    assert forall t :: t in Pending(after) <==> after.At(t).Decrementing?;
    assert forall t :: t in Pending(s) <==> s.At(t).Decrementing?;
  }

  /** While there is room, a step leaves room exactly when it is guarded, and no subtraction finds an empty gauge. */
  lemma RoomStep(s: State, step: Step)
    requires Room(s)
    ensures Room(Next(s, step)) <==> Guarded(s, step)
    ensures step.DecrementSub? && Enabled(s, step) ==> s.depth > 0
  {
    PendingStep(s, step);
    hide Pending;
    if step.DecrementSub? && Enabled(s, step) {
      assert |Pending(s)| == |Pending(s) - {step.t}| + 1;
    }
  }

  ghost predicate GuardedRun(steps: seq<Step>) {
    steps == [] ||
    (GuardedRun(steps[..|steps| - 1]) && Guarded(Exec(steps[..|steps| - 1]), steps[|steps| - 1]))
  }

  lemma {:induction false} GuardedRunHasRoom(steps: seq<Step>)
    requires GuardedRun(steps)
    ensures Room(Exec(steps)) && !Underflows(steps)
  {
    hide Room, Guarded, Next;
    if steps == [] {
      EmptyHasRoom();
    } else {
      GuardedRunHasRoom(steps[..|steps| - 1]);
      RoomStep(Exec(steps[..|steps| - 1]), steps[|steps| - 1]);
    }
  }

  lemma EmptyHasRoom()
    ensures Room(INIT)
  {
    assert Pending(INIT) == {};
  }

  /** The run only completes subtractions that are under way. */
  predicate SubtractionsOnly(steps: seq<Step>) {
    forall i :: 0 <= i < |steps| ==> steps[i].DecrementSub?
  }

  lemma {:induction false} CompletionsAreSafe(steps: seq<Step>, more: seq<Step>)
    requires Room(Exec(steps)) && !Underflows(steps) && SubtractionsOnly(more)
    ensures Room(Exec(steps + more)) && !Underflows(steps + more)
  {
    if more == [] {
      assert steps + more == steps;
    } else {
      hide Room, Next;
      var n := |more| - 1;
      CompletionsAreSafe(steps, more[..n]);
      assert (steps + more)[..|steps| + n] == steps + more[..n];
      RoomStep(Exec(steps + more[..n]), more[n]);
    }
  }

  /** Without room, the subtractions under way reach an empty gauge. */
  lemma {:induction false} CompletionUnderflows(steps: seq<Step>) returns (more: seq<Step>)
    requires !Room(Exec(steps))
    ensures SubtractionsOnly(more) && Underflows(steps + more)
    decreases Exec(steps).depth
  {
    var s := Exec(steps);
    var t :| t in Pending(s);
    var step, next := DecrementSub(t), steps + [DecrementSub(t)];
    assert next[..|next| - 1] == steps;
    assert Enabled(s, step);
    if s.depth == 0 {
      more := [step];
    } else {
      PendingStep(s, step);
      assert |Pending(s)| == |Pending(s) - {t}| + 1;
      assert Exec(next) == Next(s, step);
      var rest := CompletionUnderflows(next);
      more := [step] + rest;
      assert steps + more == next + rest;
    }
  }

  /** Whatever point of the run is reached, completing the subtractions under way never finds an empty gauge. */
  ghost predicate NeverUnderflows(steps: seq<Step>) {
    forall k, more :: 0 <= k <= |steps| && SubtractionsOnly(more) ==> !Underflows(steps[..k] + more)
  }

  /**
   The check protects the subtractions exactly in the runs in which every passing check finds more depth than
   subtractions under way and every store leaves enough for them.
   */
  lemma {:induction false} GuardedIffNeverUnderflows(steps: seq<Step>)
    ensures GuardedRun(steps) <==> NeverUnderflows(steps)
  {
    if steps == [] {
      EmptyHasRoom();
      forall more | SubtractionsOnly(more)
        ensures !Underflows([] + more)
      {
        CompletionsAreSafe([], more);
      }
      assert NeverUnderflows([]);
    } else {
      var n := |steps| - 1;
      GuardedIffNeverUnderflows(steps[..n]);
      hide Underflows, Exec;
      if GuardedRun(steps) {
        GuardedRunHasRoom(steps);
        forall k, more | 0 <= k <= |steps| && SubtractionsOnly(more)
          ensures !Underflows(steps[..k] + more)
        {
          if k == |steps| {
            assert steps[..k] == steps;
            CompletionsAreSafe(steps, more);
          } else {
            assert steps[..k] == steps[..n][..k];
          }
        }
      } else if GuardedRun(steps[..n]) {
        UnguardedCanUnderflow(steps);
      } else if NeverUnderflows(steps) {
        NeverUnderflowsPrefix(steps);
      }
    }
  }

  lemma NeverUnderflowsPrefix(steps: seq<Step>)
    requires steps != [] && NeverUnderflows(steps)
    ensures NeverUnderflows(steps[..|steps| - 1])
  {
    hide Underflows;
    var n := |steps| - 1;
    forall k, more | 0 <= k <= n && SubtractionsOnly(more)
      ensures !Underflows(steps[..n][..k] + more)
    {
      assert steps[..k] == steps[..n][..k];
    }
  }

  /** The first unguarded step leaves too little room, so the subtractions then under way can underflow. */
  lemma UnguardedCanUnderflow(steps: seq<Step>)
    requires steps != [] && GuardedRun(steps[..|steps| - 1]) && !GuardedRun(steps)
    ensures !NeverUnderflows(steps)
  {
    GuardedRunHasRoom(steps[..|steps| - 1]);
    RoomStep(Exec(steps[..|steps| - 1]), steps[|steps| - 1]);
    hide Underflows, Room;
    var more := CompletionUnderflows(steps);
    assert steps[..|steps|] == steps;
  }

  /** No decrement starts, and no depth is set, between the check and the subtraction of a decrement. */
  ghost predicate Undisturbed(steps: seq<Step>) {
    steps == [] ||
    (Undisturbed(steps[..|steps| - 1]) &&
     (steps[|steps| - 1].Set? || steps[|steps| - 1].DecrementLoad? ==> Pending(Exec(steps[..|steps| - 1])) == {}))
  }

  /** Decrements that do not overlap each other or a store are always protected. */
  lemma {:induction false} UndisturbedNeverUnderflows(steps: seq<Step>)
    requires Undisturbed(steps)
    ensures GuardedRun(steps) && NeverUnderflows(steps) && !Underflows(steps)
  {
    if steps != [] {
      UndisturbedNeverUnderflows(steps[..|steps| - 1]);
    }
    GuardedIffNeverUnderflows(steps);
    GuardedRunHasRoom(steps);
  }

  /** Two overlapping decrements of a gauge at 1 wrap it around. */
  lemma OverlappingDecrementsUnderflow()
    ensures var steps := [Increment(0), DecrementLoad(1), DecrementLoad(2), DecrementSub(1), DecrementSub(2)];
            Underflows(steps) && Exec(steps).depth == 18_446_744_073_709_551_615
  {
    var steps := [Increment(0), DecrementLoad(1), DecrementLoad(2), DecrementSub(1), DecrementSub(2)];
    assert steps[..1][..0] == [] && steps[..2][..1] == steps[..1] && steps[..3][..2] == steps[..2];
    assert steps[..4][..3] == steps[..3] && steps[..5][..4] == steps[..4] && steps[..5] == steps;
    assert Exec(steps[..1]) == State(1, 0, map[0 := Published(1)]);
    assert Exec(steps[..2]) == State(1, 0, map[0 := Published(1), 1 := Decrementing]);
    assert Exec(steps[..3]) == State(1, 0, map[0 := Published(1), 1 := Decrementing, 2 := Decrementing]);
    assert Exec(steps[..4]) == State(0, 0, map[0 := Published(1), 1 := Idle, 2 := Decrementing]);
  }

  // ----- The code, one access at a time -----

  lemma {:induction false} RunConcat(s: State, first: seq<Step>, second: seq<Step>)
    ensures Run(s, first + second) == Run(Run(s, first), second)
    decreases |first|
  {
    if first == [] {
      assert first + second == second;
    } else {
      assert (first + second)[1..] == first[1..] + second;
      RunConcat(Next(s, first[0]), first[1..], second);
    }
  }

  lemma RunOne(s: State, steps: seq<Step>, last: Step)
    ensures Run(s, steps + [last]) == Next(Run(s, steps), last)
  {
    RunConcat(s, steps, [last]);
    assert [last][1..] == [];
  }

  lemma {:induction false} ExecThenRun(before: seq<Step>, steps: seq<Step>)
    ensures Exec(before + steps) == Run(Exec(before), steps)
  {
    if steps == [] {
      assert before + steps == before;
    } else {
      hide Exec, Next, Run;
      var prefix, last := steps[..|steps| - 1], steps[|steps| - 1];
      assert steps == prefix + [last];
      ExecThenRun(before, prefix);
      RunOne(Exec(before), prefix, last);
      ExecSnoc(before + prefix, last);
      assert before + steps == (before + prefix) + [last];
    }
  }

  lemma {:induction false} BudgetUnder(s: State, t: Thread, others: seq<Step>)
    requires LocalsBelow(s) && s.At(t).Looping?
    requires forall i :: 0 <= i < |others| ==> others[i].t != t
    ensures Budget(Run(s, others), t) <= Budget(s, t)
    decreases |others|
  {
    if others != [] {
      BudgetStep(s, others[0], t);
      StepInvariant(s, others[0]);
      BudgetUnder(Next(s, others[0]), t, others[1..]);
    }
  }

  lemma LoadEffect(s: State, t: Thread, prev: nat)
    requires s.At(t) == Published(prev)
    ensures var after := Next(s, LoadMax(t));
            after.max == s.max && after.At(t) == if prev > s.max then Looping(prev, s.max) else Idle
  {
  }

  lemma CasEffect(s: State, t: Thread, spurious: bool)
    requires LocalsBelow(s) && s.At(t).Looping?
    ensures var after, local := Next(s, Cas(t, spurious)),
                                if s.max == s.At(t).max && !spurious then s.At(t).max else s.max;
            && s.max <= after.max && local <= after.max
            && after.At(t) == if s.At(t).prev > local then Looping(s.At(t).prev, local) else Idle
  {
  }

  /**
   One gauge as the threads share it. Between two accesses of a thread the others take any steps: `env(k)` before
   the access number `k` that follows the update of the depth. `weak` says which exchanges fail spuriously.
   */
  class Gauge {
    var depth: nat
    var max: nat
    var pcs: map<Thread, Pc>
    /** Every access so far, of all threads. */
    ghost var steps: seq<Step>

    function Now(): State
      reads this
    {
      State(depth, max, pcs)
    }

    ghost predicate Valid()
      reads this
    {
      Now() == Exec(steps)
    }

    constructor ()
      ensures Valid() && Now() == INIT && steps == []
    {
      depth, max, pcs := 0, 0, map[];
      steps := [];
    }

    method Interfere(others: seq<Step>)
      requires Valid()
      modifies this
      ensures Valid() && steps == old(steps) + others && Now() == Run(old(Now()), others)
    {
      ExecThenRun(steps, others);
      var s := Run(Now(), others);
      depth, max, pcs := s.depth, s.max, s.pcs;
      steps := steps + others;
    }

    method FetchAdd(t: Thread) returns (prev: nat)
      requires Valid() && Now().At(t).Idle?
      modifies this
      ensures Valid() && steps == old(steps) + [Increment(t)]
      ensures Now() == Next(old(Now()), Increment(t)) && prev == depth
    {
      hide Exec;
      ExecSnoc(steps, Increment(t));
      depth := depth + 1;
      pcs := pcs[t := Published(depth)];
      prev := depth;
      steps := steps + [Increment(t)];
    }

    method StoreDepth(t: Thread, value: nat)
      requires Valid() && Now().At(t).Idle?
      modifies this
      ensures Valid() && steps == old(steps) + [Set(t, value)] && Now() == Next(old(Now()), Set(t, value))
    {
      hide Exec;
      ExecSnoc(steps, Set(t, value));
      depth := value;
      pcs := pcs[t := Published(value)];
      steps := steps + [Set(t, value)];
    }

    method LoadMaximum(t: Thread, prev: nat) returns (localMax: nat)
      requires Valid() && Now().At(t) == Published(prev)
      modifies this
      ensures Valid() && steps == old(steps) + [LoadMax(t)]
      ensures Now() == Next(old(Now()), LoadMax(t)) && localMax == old(max)
    {
      hide Exec;
      ExecSnoc(steps, LoadMax(t));
      localMax := max;
      pcs := pcs[t := if prev > localMax then Looping(prev, localMax) else Idle];
      steps := steps + [LoadMax(t)];
    }

    /** Returns the caller's `max` afterwards: a success leaves it alone, a failure overwrites it. */
    method CompareExchangeWeak(t: Thread, expected: nat, desired: nat, spurious: bool) returns (localMax: nat)
      requires Valid() && Now().At(t) == Looping(desired, expected)
      modifies this
      ensures Valid() && steps == old(steps) + [Cas(t, spurious)] && Now() == Next(old(Now()), Cas(t, spurious))
      ensures localMax == if old(max) == expected && !spurious then expected else old(max)
    {
      hide Exec;
      ExecSnoc(steps, Cas(t, spurious));
      if max == expected && !spurious {
        max := desired;
        localMax := expected;
      } else {
        localMax := max;
        pcs := pcs[t := if desired > localMax then Looping(desired, localMax) else Idle];
      }
      steps := steps + [Cas(t, spurious)];
    }

    /** One pass of the loop, after any steps of the other threads. Only a spurious failure leaves the budget alone. */
    method TryRaise(t: Thread, expected: nat, desired: nat, others: seq<Step>, spurious: bool)
      returns (localMax: nat, ghost run: seq<Step>)
      requires Valid() && Now().At(t) == Looping(desired, expected)
      requires forall i :: 0 <= i < |others| ==> others[i].t != t
      modifies this
      ensures Valid() && run == others + [Cas(t, spurious)] && steps == old(steps) + run
      ensures old(max) <= max && localMax <= max
      ensures Now().At(t) == if desired > localMax then Looping(desired, localMax) else Idle
      ensures !spurious ==> Budget(Now(), t) < Budget(old(Now()), t)
    {
      hide Next, Run, Exec, LocalsBelow, Budget;
      MarkInvariant(steps);
      Interference(Now(), t, others);
      BudgetUnder(Now(), t, others);
      Interfere(others);
      MarkInvariant(steps);
      BudgetStep(Now(), Cas(t, spurious), t);
      CasEffect(Now(), t, spurious);
      localMax := CompareExchangeWeak(t, expected, desired, spurious);
      run := others + [Cas(t, spurious)];
    }

    /**
     The loop of the source ends under any interference and finitely many spurious failures. It then leaves the mark
     at least as high as the published depth, and everything that happened belongs to the run of the machine.
     */
    method RaiseMax(t: Thread, prev: nat, env: nat -> seq<Step>, weak: seq<bool>) returns (ghost run: seq<Step>)
      requires Valid() && Now().At(t) == Published(prev)
      requires forall k, i :: 0 <= i < |env(k)| ==> env(k)[i].t != t
      modifies this
      ensures Valid() && steps == old(steps) + run
      ensures Now().At(t) == Idle && prev <= max && old(max) <= max
    {
      hide Next, Run, Exec, Budget;
      LoadEffect(Now(), t, prev);
      var localMax: nat := LoadMaximum(t, prev);
      run := [LoadMax(t)];
      var k: nat, left := 1, weak;
      while prev > localMax
        invariant Valid() && steps == old(steps) + run
        invariant old(max) <= max && localMax <= max
        invariant Now().At(t) == if prev > localMax then Looping(prev, localMax) else Idle
        decreases |left|, Budget(Now(), t)
      {
        ghost var pass;
        localMax, pass := TryRaise(t, localMax, prev, env(k), left != [] && left[0]);
        if left != [] {
          left := left[1..];
        }
        run := run + pass;
        k := k + 1;
      }
    }

    /**
     The whole increment. The mark covers the new depth and is a depth that some thread published; with no update in
     progress it is the greatest one.
     */
    method IncrementDepth(t: Thread, env: nat -> seq<Step>, weak: seq<bool>) returns (ghost run: seq<Step>)
      requires Valid() && Now().At(t).Idle?
      requires forall k, i :: 0 <= i < |env(k)| ==> env(k)[i].t != t
      modifies this
      ensures Valid() && steps == old(steps) + run && run != [] && run[0] == Increment(t)
      ensures Now().At(t) == Idle && old(depth) + 1 <= max && old(max) <= max
      ensures max in PublishedBy(steps)
      ensures Quiet(Now()) ==> forall v :: v in PublishedBy(steps) ==> v <= max
    {
      hide Next, Run, Exec, LocalsBelow, PublishedBy, Quiet;
      FetchEffect(Now(), t);
      var prev := FetchAdd(t);
      MarkInvariant(steps);
      Interference(Now(), t, env(0));
      Interfere(env(0));
      ghost var rest := RaiseMax(t, prev, env, weak);
      run := [Increment(t)] + env(0) + rest;
      MarkInvariant(steps);
      if Quiet(Now()) {
        QuiescentMarkIsMaximum(steps);
      }
    }

    /** The whole store. */
    method SetDepth(t: Thread, value: nat, env: nat -> seq<Step>, weak: seq<bool>) returns (ghost run: seq<Step>)
      requires Valid() && Now().At(t).Idle?
      requires forall k, i :: 0 <= i < |env(k)| ==> env(k)[i].t != t
      modifies this
      ensures Valid() && steps == old(steps) + run && run != [] && run[0] == Set(t, value)
      ensures Now().At(t) == Idle && value <= max && old(max) <= max
      ensures max == 0 || max in PublishedBy(steps)
      ensures Quiet(Now()) ==> forall v :: v in PublishedBy(steps) ==> v <= max
    {
      hide Next, Run, Exec, LocalsBelow, PublishedBy, Quiet;
      StoreEffect(Now(), t, value);
      StoreDepth(t, value);
      MarkInvariant(steps);
      Interference(Now(), t, env(0));
      Interfere(env(0));
      ghost var rest := RaiseMax(t, value, env, weak);
      run := [Set(t, value)] + env(0) + rest;
      MarkInvariant(steps);
      if Quiet(Now()) {
        QuiescentMarkIsMaximum(steps);
      }
    }

    /** The load and the test of a decrement. */
    method CheckDepth(t: Thread) returns (positive: bool)
      requires Valid() && Now().At(t).Idle?
      modifies this
      ensures Valid() && steps == old(steps) + [DecrementLoad(t)] && positive == (depth > 0)
      ensures Now() == Next(old(Now()), DecrementLoad(t))
    {
      hide Exec;
      ExecSnoc(steps, DecrementLoad(t));
      positive := depth > 0;
      if positive {
        pcs := pcs[t := Decrementing];
      }
      steps := steps + [DecrementLoad(t)];
    }

    /** The unsigned subtraction of a decrement, which wraps an empty gauge around. */
    method FetchSub(t: Thread)
      requires Valid() && Now().At(t) == Decrementing
      modifies this
      ensures Valid() && steps == old(steps) + [DecrementSub(t)] && Now() == Next(old(Now()), DecrementSub(t))
    {
      hide Exec;
      ExecSnoc(steps, DecrementSub(t));
      depth := if depth > 0 then depth - 1 else WORD - 1;
      pcs := pcs[t := Idle];
      steps := steps + [DecrementSub(t)];
    }

    /** The whole decrement. Nothing has wrapped around as long as the run so far is guarded. */
    method DecrementDepth(t: Thread, others: seq<Step>) returns (ghost run: seq<Step>)
      requires Valid() && Now().At(t).Idle?
      requires forall i :: 0 <= i < |others| ==> others[i].t != t
      modifies this
      ensures Valid() && steps == old(steps) + run && Now().At(t) == Idle
      ensures run == if old(depth) > 0 then [DecrementLoad(t)] + others + [DecrementSub(t)] else [DecrementLoad(t)]
      ensures GuardedRun(steps) ==> NeverUnderflows(steps) && !Underflows(steps)
    {
      hide Next, Run, Exec, GuardedRun, NeverUnderflows, Underflows, LocalsBelow;
      CheckEffect(Now(), t);
      var positive := CheckDepth(t);
      run := [DecrementLoad(t)];
      if positive {
        MarkInvariant(steps);
        Interference(Now(), t, others);
        Interfere(others);
        SubtractEffect(Now(), t);
        FetchSub(t);
        run := run + others + [DecrementSub(t)];
      }
      if GuardedRun(steps) {
        GuardedIffNeverUnderflows(steps);
        GuardedRunHasRoom(steps);
      }
    }
  }

  lemma CheckEffect(s: State, t: Thread)
    requires s.At(t).Idle?
    ensures Next(s, DecrementLoad(t)).depth == s.depth
    ensures Next(s, DecrementLoad(t)).At(t) == if s.depth > 0 then Decrementing else Idle
  {
  }

  lemma SubtractEffect(s: State, t: Thread)
    requires s.At(t) == Decrementing
    ensures Next(s, DecrementSub(t)).At(t) == Idle
  {
  }

  lemma FetchEffect(s: State, t: Thread)
    requires s.At(t).Idle?
    ensures var after := Next(s, Increment(t));
            after.max == s.max && after.depth == s.depth + 1 && after.At(t) == Published(s.depth + 1)
  {
  }

  lemma StoreEffect(s: State, t: Thread, value: nat)
    requires s.At(t).Idle?
    ensures var after := Next(s, Set(t, value)); after.max == s.max && after.At(t) == Published(value)
  {
  }
}
