/**
 The write side of one WebSocket session: send_message, do_write and on_write of server/server.cpp. The strand is
 a first-in first-out queue of closures, of which one runs at a time. A failed write reaches on_write as an error
 code. A step that is not possible leaves the pump alone, so every sequence of steps is a run.
 */
module WritePumps {

  type Message = string

  datatype Closure =
    | Send(msg: Message)
    | Written(ok: bool)

  /**
   `inFlight` holds the buffers handed to async_write that have not completed. The last three fields record the
   run: what was handed to async_write, what on_write popped, and whether on_write ever saw an error.
   */
  datatype Pump = Pump(
    strand: seq<Closure>,
    queue: seq<Message>,
    writing: bool,
    inFlight: seq<Message>,
    started: seq<Message>,
    completed: seq<Message>,
    failed: bool)

  const IDLE := Pump([], [], false, [], [], [], false)

  datatype Step =
    | Post(msg: Message)
    | RunStrand
    | IoDone(ok: bool)

  function DoWrite(p: Pump): Pump {
    if p.queue == [] then p.(writing := false)
    else p.(writing := true, inFlight := p.inFlight + [p.queue[0]], started := p.started + [p.queue[0]])
  }

  /** The closure that send_message posts. */
  function OnSend(p: Pump, msg: Message): Pump {
    var q := p.(queue := p.queue + [msg]);
    if q.writing then q else DoWrite(q)
  }

  /** `pop` of an empty queue is undefined in the source; `Inv` excludes it. */
  function OnWrite(p: Pump, ok: bool): Pump {
    if !ok || p.queue == [] then p.(failed := true)
    else DoWrite(p.(queue := p.queue[1..], completed := p.completed + [p.queue[0]]))
  }

  predicate Enabled(p: Pump, step: Step) {
    match step
    case Post(_) => true
    case RunStrand => p.strand != []
    case IoDone(_) => p.inFlight != []
  }

  function Next(p: Pump, step: Step): Pump {
    if !Enabled(p, step) then p
    else
      match step
      case Post(msg) => p.(strand := p.strand + [Send(msg)])
      case IoDone(ok) => p.(inFlight := p.inFlight[1..], strand := p.strand + [Written(ok)])
      case RunStrand =>
        var q := p.(strand := p.strand[1..]);
        match p.strand[0]
        case Send(msg) => OnSend(q, msg)
        case Written(ok) => OnWrite(q, ok)
  }

  /** A run from any state. */
  function Run(p: Pump, steps: seq<Step>): Pump {
    if steps == [] then p else Next(Run(p, steps[..|steps| - 1]), steps[|steps| - 1])
  }

  /** The messages given to send_message, in order. */
  function Posted(steps: seq<Step>): seq<Message> {
    if steps == [] then []
    else
      var last := steps[|steps| - 1];
      Posted(steps[..|steps| - 1]) + if last.Post? then [last.msg] else []
  }

  /** The messages of the closures that wait on the strand. */
  function Pending(strand: seq<Closure>): seq<Message> {
    if strand == [] then [] else (if strand[0].Send? then [strand[0].msg] else []) + Pending(strand[1..])
  }

  /** The number of completion handlers that wait on the strand. */
  function Handlers(strand: seq<Closure>): nat {
    if strand == [] then 0 else (if strand[0].Written? then 1 else 0) + Handlers(strand[1..])
  }

  lemma {:induction false} StrandSnoc(strand: seq<Closure>, c: Closure)
    ensures Pending(strand + [c]) == Pending(strand) + if c.Send? then [c.msg] else []
    ensures Handlers(strand + [c]) == Handlers(strand) + if c.Written? then 1 else 0
  {
    if strand == [] {
      assert strand + [c] == [c] && [c][1..] == [];
    } else {
      StrandSnoc(strand[1..], c);
      assert (strand + [c])[1..] == strand[1..] + [c];
    }
  }

  // ----- The protocol -----

  /** Writes whose completion handler has not run yet. */
  function Outstanding(p: Pump): nat {
    |p.inFlight| + Handlers(p.strand)
  }

  /**
   At most one write is outstanding, and one is exactly while `writing` holds and no write failed. The buffer being
   written is the front of the queue. A queue that is not empty is being written. What was handed to async_write is
   what completed, followed by the front of the queue.
   */
  predicate Inv(p: Pump) {
    && Outstanding(p) == (if p.writing && !p.failed then 1 else 0)
    && (p.inFlight != [] ==> p.queue != [] && p.inFlight == [p.queue[0]])
    && (p.queue != [] <==> p.writing)
    && p.started == p.completed + (if p.writing then p.queue[..1] else [])
    && (p.failed ==> p.writing)
  }

  /** Everything accepted so far, in the order in which it reaches the wire. */
  function Accepted(p: Pump): seq<Message> {
    p.completed + p.queue + Pending(p.strand)
  }

  lemma SendKeepsInv(p: Pump, msg: Message)
    requires Inv(p)
    ensures Inv(OnSend(p, msg))
  {
    hide Handlers;
    var queue := p.queue + [msg];
    assert p.queue != [] ==> queue[..1] == p.queue[..1] && queue[0] == p.queue[0];
    assert p.queue == [] ==> queue[..1] == [msg];
    assert p.inFlight == [] ==> p.inFlight + [msg] == [msg];
  }

  /** The handler of the only outstanding write runs. */
  lemma WrittenKeepsInv(p: Pump, ok: bool)
    requires Outstanding(p) == 0 && p.writing && !p.failed && p.queue != []
    requires p.started == p.completed + p.queue[..1]
    ensures Inv(OnWrite(p, ok))
  {
    hide Handlers;
    var rest := p.queue[1..];
    assert p.queue[..1] == [p.queue[0]];
    assert rest != [] ==> rest[..1] == [rest[0]] && p.inFlight + [rest[0]] == [rest[0]];
  }

  lemma StepKeepsInv(p: Pump, step: Step)
    requires Inv(p)
    ensures Inv(Next(p, step))
  {
    match step
    case Post(msg) =>
      StrandSnoc(p.strand, Send(msg));
    case IoDone(ok) =>
      StrandSnoc(p.strand, Written(ok));
    case RunStrand =>
      if p.strand != [] {
        var q := p.(strand := p.strand[1..]);
        hide OnSend, OnWrite;
        match p.strand[0]
        case Send(msg) => SendKeepsInv(q, msg);
        case Written(ok) => WrittenKeepsInv(q, ok);
      }
  }

  lemma MoveIn(done: seq<Message>, queue: seq<Message>, msg: Message, rest: seq<Message>)
    ensures done + (queue + [msg]) + rest == done + queue + ([msg] + rest)
  {
  }

  lemma MoveOut(done: seq<Message>, queue: seq<Message>, rest: seq<Message>)
    requires queue != []
    ensures (done + [queue[0]]) + queue[1..] + rest == done + queue + rest
    ensures done + queue + rest == (done + queue[..1]) + (queue[1..] + rest)
  {
  }

  lemma MoveBehind(done: seq<Message>, queue: seq<Message>, pending: seq<Message>, more: seq<Message>)
    ensures done + queue + (pending + more) == (done + queue + pending) + more
  {
  }

  lemma ClosureEffect(p: Pump, msg: Message, ok: bool)
    ensures var q := OnSend(p, msg); q.completed == p.completed && q.queue == p.queue + [msg] && q.strand == p.strand
    ensures var q := OnWrite(p, ok);
            && q.strand == p.strand
            && (if ok && p.queue != []
                then q.completed == p.completed + [p.queue[0]] && q.queue == p.queue[1..]
                else q.completed == p.completed && q.queue == p.queue)
  {
  }

  lemma TurnAccepts(p: Pump)
    requires p.strand != []
    ensures Accepted(Next(p, RunStrand)) == Accepted(p)
  {
    hide OnSend, OnWrite;
    var rest, q := Pending(p.strand[1..]), p.(strand := p.strand[1..]);
    ClosureEffect(q, if p.strand[0].Send? then p.strand[0].msg else "", p.strand[0].Written? && p.strand[0].ok);
    if p.strand[0].Send? {
      assert Pending(p.strand) == [p.strand[0].msg] + rest;
      MoveIn(p.completed, p.queue, p.strand[0].msg, rest);
    } else if p.queue != [] {
      MoveOut(p.completed, p.queue, rest);
    }
    hide Pending;
  }

  lemma StepAccepts(p: Pump, step: Step)
    ensures Accepted(Next(p, step)) == Accepted(p) + if step.Post? then [step.msg] else []
  {
    hide OnSend, OnWrite, Pending;
    match step
    case Post(msg) =>
      StrandSnoc(p.strand, Send(msg));
      MoveBehind(p.completed, p.queue, Pending(p.strand), [msg]);
    case IoDone(ok) =>
      StrandSnoc(p.strand, Written(ok));
    case RunStrand =>
      if p.strand != [] {
        hide Next, Accepted;
        TurnAccepts(p);
      }
  }

  lemma {:induction false} RunKeepsInv(p: Pump, steps: seq<Step>)
    requires Inv(p)
    ensures Inv(Run(p, steps))
    ensures Accepted(Run(p, steps)) == Accepted(p) + Posted(steps)
  {
    if steps != [] {
      RunKeepsInv(p, steps[..|steps| - 1]);
      hide Inv, Accepted, Next;
      StepKeepsInv(Run(p, steps[..|steps| - 1]), steps[|steps| - 1]);
      StepAccepts(Run(p, steps[..|steps| - 1]), steps[|steps| - 1]);
    }
  }

  /**
   In every run, what completed, what is queued and what waits on the strand are together exactly the posted
   messages in order; and what reaches the wire is a prefix of them, written one message at a time.
   */
  lemma Conservation(steps: seq<Step>)
    ensures var p := Run(IDLE, steps);
            && p.completed + p.queue + Pending(p.strand) == Posted(steps)
            && p.completed <= p.started
            && p.started <= Posted(steps)
            && |p.started| <= |p.completed| + 1
            && |p.inFlight| <= 1
  {
    RunKeepsInv(IDLE, steps);
    var p := Run(IDLE, steps);
    assert Posted(steps) == [] + Posted(steps);
    hide Run, Posted, Pending, Handlers;
    if p.writing {
      MoveOut(p.completed, p.queue, Pending(p.strand));
    }
  }

  /** While a write is in flight, no step changes the buffer it reads or starts another write. */
  lemma BufferStays(p: Pump, step: Step)
    requires Inv(p) && p.inFlight != []
    ensures var q := Next(p, step);
            && q.queue != [] && q.queue[0] == p.inFlight[0]
            && q.started == p.started
            && (q.inFlight == p.inFlight || (step.IoDone? && q.inFlight == []))
  {
    if step.RunStrand? && p.strand != [] {
      assert p.strand[0].Written? ==> Handlers(p.strand) >= 1;
    }
  }

  /** After a failed write the session never starts or completes another one. */
  lemma {:induction false} NothingAfterFailure(p: Pump, steps: seq<Step>)
    requires Inv(p) && p.failed
    ensures var q := Run(p, steps); q.failed && q.started == p.started && q.completed == p.completed
  {
    if steps != [] {
      NothingAfterFailure(p, steps[..|steps| - 1]);
      RunKeepsInv(p, steps[..|steps| - 1]);
      var before := Run(p, steps[..|steps| - 1]);
      if steps[|steps| - 1].RunStrand? && before.strand != [] {
        assert before.strand[0].Written? ==> Handlers(before.strand) >= 1;
      }
    }
  }

  // ----- Progress -----

  predicate Quiescent(p: Pump) {
    p.strand == [] && p.inFlight == []
  }

  /** Some write of the run completed with an error. */
  predicate WriteFailed(p: Pump, steps: seq<Step>) {
    steps != [] &&
    var before, last := steps[..|steps| - 1], steps[|steps| - 1];
    WriteFailed(p, before) || (last == IoDone(false) && Enabled(Run(p, before), last))
  }

  /** An error is on the strand until on_write sees it. */
  predicate FailureKnown(p: Pump) {
    p.failed || Written(false) in p.strand
  }

  lemma StepFails(p: Pump, step: Step)
    requires Inv(p)
    ensures FailureKnown(Next(p, step)) <==> FailureKnown(p) || (step == IoDone(false) && Enabled(p, step))
  {
    if step.RunStrand? && p.strand != [] {
      assert p.strand == [p.strand[0]] + p.strand[1..];
      assert p.strand[0].Written? ==> Handlers(p.strand) >= 1;
    }
  }

  lemma {:induction false} FailureIsKnown(p: Pump, steps: seq<Step>)
    requires Inv(p)
    ensures FailureKnown(Run(p, steps)) <==> FailureKnown(p) || WriteFailed(p, steps)
  {
    if steps != [] {
      hide Next, Inv, FailureKnown;
      var before := steps[..|steps| - 1];
      FailureIsKnown(p, before);
      RunKeepsInv(p, before);
      StepFails(Run(p, before), steps[|steps| - 1]);
    }
  }

  /** Once nothing is running, every posted message was written if and only if no write of the run failed. */
  lemma QuiescentIffDelivered(steps: seq<Step>)
    requires Quiescent(Run(IDLE, steps))
    ensures Run(IDLE, steps).completed == Posted(steps) <==> !WriteFailed(IDLE, steps)
  {
    RunKeepsInv(IDLE, steps);
    FailureIsKnown(IDLE, steps);
    var p := Run(IDLE, steps);
    assert Posted(steps) == [] + Posted(steps);
    assert p.completed + p.queue == Posted(steps);
    hide Run, Posted, WriteFailed;
    assert |p.completed + p.queue| == |p.completed| + |p.queue|;
  }

  /** One failed write, and a message posted later stays in the queue with nothing running. */
  lemma FailureStrandsMessages(first: Message, second: Message)
    ensures var p := Run(IDLE, [Post(first), RunStrand, IoDone(false), RunStrand, Post(second), RunStrand]);
            Quiescent(p) && p.writing && p.completed == [] && p.queue == [first, second]
  {
    var steps := [Post(first), RunStrand, IoDone(false), RunStrand, Post(second), RunStrand];
    assert steps[..1][..0] == [] && steps[..2][..1] == steps[..1] && steps[..3][..2] == steps[..2];
    assert steps[..4][..3] == steps[..3] && steps[..5][..4] == steps[..4] && steps[..6][..5] == steps[..5];
    assert steps[..6] == steps;
    assert Run(IDLE, steps[..1]) == IDLE.(strand := [Send(first)]);
    assert Run(IDLE, steps[..2]) == Pump([], [first], true, [first], [first], [], false);
    assert Run(IDLE, steps[..3]) == Pump([Written(false)], [first], true, [], [first], [], false);
    assert Run(IDLE, steps[..4]) == Pump([], [first], true, [], [first], [], true);
    assert Run(IDLE, steps[..5]) == Pump([Send(second)], [first], true, [], [first], [], true);
  }

  function Work(p: Pump): nat {
    5 * |Pending(p.strand)| + 2 * |p.queue| + 2 * |p.inFlight| + Handlers(p.strand)
  }

  /** Without new messages, every step that runs leaves less work, and some step runs until the pump is quiescent. */
  lemma WorkDecreases(p: Pump, step: Step)
    requires Inv(p) && !step.Post?
    ensures Enabled(p, step) ==> Work(Next(p, step)) < Work(p)
    ensures Quiescent(p) <==> !Enabled(p, RunStrand) && !Enabled(p, IoDone(true))
  {
    match step
    case IoDone(ok) => StrandSnoc(p.strand, Written(ok));
    case _ =>
  }

  /** No write has failed, and none of the waiting completions is a failure. */
  predicate Healthy(p: Pump) {
    !p.failed && forall c :: c in p.strand ==> c.Send? || c.ok
  }

  /** The step that a pump takes next when left alone with a socket that works. */
  function DrainStep(p: Pump): Step {
    if p.strand != [] then RunStrand else IoDone(true)
  }

  lemma DrainStepProgress(p: Pump)
    requires Inv(p) && Healthy(p) && !Quiescent(p)
    ensures var q := Next(p, DrainStep(p));
            && Enabled(p, DrainStep(p)) && Inv(q) && Healthy(q) && Work(q) < Work(p) && Accepted(q) == Accepted(p)
  {
    StepKeepsInv(p, DrainStep(p));
    StepAccepts(p, DrainStep(p));
    WorkDecreases(p, DrainStep(p));
    if p.strand != [] {
      assert p.strand[0] in p.strand;
      assert p.strand[0].Written? ==> Handlers(p.strand) >= 1;
      assert forall c :: c in p.strand[1..] ==> c in p.strand;
    }
    hide Accepted, Work;
  }

  lemma DrainedDelivers(p: Pump)
    requires Inv(p) && Healthy(p) && Quiescent(p)
    ensures p.completed == Accepted(p)
  {
  }

  /** Draining a pump whose writes all succeed delivers every message accepted before. */
  lemma {:induction false} DrainDelivers(p: Pump) returns (steps: seq<Step>)
    requires Inv(p) && Healthy(p)
    ensures |steps| <= Work(p) && Posted(steps) == []
    ensures var q := Run(p, steps); Quiescent(q) && !q.failed && q.completed == Accepted(p)
    decreases Work(p)
  {
    hide Inv, Accepted, Work, Next, Quiescent;
    if Quiescent(p) {
      steps := [];
      DrainedDelivers(p);
    } else {
      DrainStepProgress(p);
      var rest := DrainDelivers(Next(p, DrainStep(p)));
      steps := [DrainStep(p)] + rest;
      RunCons(p, DrainStep(p), rest);
    }
  }

  lemma RunSnoc(p: Pump, steps: seq<Step>, last: Step)
    ensures Run(p, []) == p && Posted([]) == []
    ensures Run(p, steps + [last]) == Next(Run(p, steps), last)
    ensures Posted(steps + [last]) == Posted(steps) + if last.Post? then [last.msg] else []
  {
    hide Next;
    assert (steps + [last])[..|steps|] == steps;
  }

  lemma {:induction false} RunCons(p: Pump, step: Step, rest: seq<Step>)
    ensures Run(p, [step] + rest) == Run(Next(p, step), rest)
    ensures Posted([step] + rest) == (if step.Post? then [step.msg] else []) + Posted(rest)
  {
    hide Next, Run, Posted;
    RunSnoc(p, [], step);
    RunSnoc(Next(p, step), [], step);
    if rest == [] {
      assert [step] + rest == [] + [step];
    } else {
      var before, last := rest[..|rest| - 1], rest[|rest| - 1];
      assert rest == before + [last];
      RunCons(p, step, before);
      RunSnoc(p, [step] + before, last);
      RunSnoc(Next(p, step), before, last);
      assert [step] + rest == ([step] + before) + [last];
    }
  }

  // ----- The session -----

  class WebsocketSession {
    var strand: seq<Closure>
    var writeQueue: seq<Message>
    var writing: bool
    var inFlight: seq<Message>
    ghost var started: seq<Message>
    ghost var completed: seq<Message>
    ghost var failed: bool

    ghost function State(): Pump
      reads this
    {
      Pump(strand, writeQueue, writing, inFlight, started, completed, failed)
    }

    constructor ()
      ensures State() == IDLE && Inv(State())
    {
      strand, writeQueue, writing, inFlight := [], [], false, [];
      started, completed, failed := [], [], false;
    }

    method SendMessage(msg: Message)
      requires Inv(State())
      modifies this
      ensures State() == Next(old(State()), Post(msg)) && Inv(State())
    {
      StepKeepsInv(State(), Post(msg));
      strand := strand + [Send(msg)];
    }

    method DoWriteNext()
      modifies this
      ensures State() == DoWrite(old(State()))
    {
      if writeQueue == [] {
        writing := false;
        return;
      }
      writing := true;
      inFlight := inFlight + [writeQueue[0]];
      started := started + [writeQueue[0]];
    }

    method OnWritten(ok: bool)
      requires ok ==> writeQueue != []
      modifies this
      ensures State() == OnWrite(old(State()), ok)
    {
      if !ok {
        failed := true;
        return;
      }
      completed := completed + [writeQueue[0]];
      writeQueue := writeQueue[1..];
      DoWriteNext();
    }

    /** The transport completes the write in flight. */
    method Complete(ok: bool)
      requires Inv(State()) && inFlight != []
      modifies this
      ensures State() == Next(old(State()), IoDone(ok)) && Inv(State())
    {
      StepKeepsInv(State(), IoDone(ok));
      inFlight := inFlight[1..];
      strand := strand + [Written(ok)];
    }

    /** The strand runs its first closure. */
    method RunNext()
      requires Inv(State())
      modifies this
      ensures State() == Next(old(State()), RunStrand) && Inv(State())
    {
      StepKeepsInv(State(), RunStrand);
      if strand != [] {
        assert strand[0].Written? ==> Handlers(strand) >= 1;
        var closure := strand[0];
        strand := strand[1..];
        match closure
        case Send(msg) =>
          writeQueue := writeQueue + [msg];
          if !writing {
            DoWriteNext();
          }
        case Written(ok) =>
          OnWritten(ok);
      }
    }
  }
}
