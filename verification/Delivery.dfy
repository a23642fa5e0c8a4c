/**
 The whole path of a message: the subscription index decides who is posted to, and each session's pump writes. A run
 interleaves connections, subscriptions, broadcasts, strand turns, completions of writes, and destructions in any
 order. A session is destroyed when no closure and no handler holds it any more.
 */
module Delivery {
  import opened Sequences
  import opened Subscriptions
  import W = WritePumps

  type Message = W.Message

  datatype Step =
    | Connect(s: Session)
    | Subscribe(s: Session, topics: seq<Topic>)
    | Unsubscribe(s: Session, topics: seq<Topic>)
    | Broadcast(topic: Topic, msg: Message)
    | BroadcastAll(msg: Message)
    | Direct(s: Session, msg: Message)
    | Turn(s: Session)
    | Completion(s: Session, ok: bool)
    | Destroy(s: Session)

  type Pumps = map<Session, W.Pump>

  datatype System = System(index: Index, pumps: Pumps)

  const START := System(NO_CLIENTS, map[])

  predicate Enabled(x: System, step: Step) {
    match step
    case Connect(s) => s !in x.index.clients
    case Subscribe(_, _) => true
    case Unsubscribe(_, _) => true
    case Broadcast(_, _) => true
    case BroadcastAll(_) => true
    case Direct(s, _) => s in x.pumps
    case Turn(s) => s in x.pumps && W.Enabled(x.pumps[s], W.RunStrand)
    case Completion(s, ok) => s in x.pumps && W.Enabled(x.pumps[s], W.IoDone(ok))
    case Destroy(s) => s in x.pumps && W.Quiescent(x.pumps[s])
  }

  function Drive(pumps: Pumps, s: Session, step: W.Step): (r: Pumps)
    ensures r.Keys == pumps.Keys
  {
    if s in pumps then pumps[s := W.Next(pumps[s], step)] else pumps
  }

  /** The loop over a subscriber list: one send_message for each entry. */
  function PostAll(pumps: Pumps, list: seq<Session>, msg: Message): (r: Pumps)
    ensures r.Keys == pumps.Keys
  {
    if list == [] then pumps
    else Drive(PostAll(pumps, list[..|list| - 1], msg), list[|list| - 1], W.Post(msg))
  }

  function NextIndex(x: Index, step: Step): Index {
    match step
    case Connect(s) => WithClient(x, s)
    case Subscribe(s, topics) => AddTopics(x, s, topics)
    case Unsubscribe(s, topics) => RemoveTopics(x, s, topics)
    case Destroy(s) => WithoutClient(x, s)
    case _ => x
  }

  function NextPumps(x: System, step: Step): Pumps {
    match step
    case Connect(s) => x.pumps[s := W.IDLE]
    case Broadcast(topic, msg) => PostAll(x.pumps, x.index.Of(topic), msg)
    case BroadcastAll(msg) => map s | s in x.pumps :: W.Next(x.pumps[s], W.Post(msg))
    case Direct(s, msg) => Drive(x.pumps, s, W.Post(msg))
    case Turn(s) => Drive(x.pumps, s, W.RunStrand)
    case Completion(s, ok) => Drive(x.pumps, s, W.IoDone(ok))
    case Destroy(s) => x.pumps - {s}
    case _ => x.pumps
  }

  function Next(x: System, step: Step): System {
    System(NextIndex(x.index, step), NextPumps(x, step))
  }

  function Exec(steps: seq<Step>): System {
    if steps == [] then START else Next(Exec(steps[..|steps| - 1]), steps[|steps| - 1])
  }

  /** Every step of the run was possible when it was taken. */
  predicate Possible(steps: seq<Step>) {
    steps == [] || (Possible(steps[..|steps| - 1]) && Enabled(Exec(steps[..|steps| - 1]), steps[|steps| - 1]))
  }

  // ----- What a run means, read off its steps alone -----

  predicate Live(steps: seq<Step>, s: Session) {
    steps != [] &&
    match steps[|steps| - 1]
    case Connect(u) => u == s || Live(steps[..|steps| - 1], s)
    case Destroy(u) => u != s && Live(steps[..|steps| - 1], s)
    case _ => Live(steps[..|steps| - 1], s)
  }

  /** The session subscribed to the topic, by name or through "all_", and has not unsubscribed from it since. */
  predicate Subscribed(steps: seq<Step>, s: Session, t: Topic) {
    steps != [] &&
    var before := steps[..|steps| - 1];
    match steps[|steps| - 1]
    case Connect(u) => u != s && Subscribed(before, s, t)
    case Destroy(u) => u != s && Subscribed(before, s, t)
    case Subscribe(u, topics) => Subscribed(before, s, t) || (u == s && Live(before, s) && Requested(topics, t))
    case Unsubscribe(u, topics) => Subscribed(before, s, t) && !(u == s && t in topics)
    case _ => Subscribed(before, s, t)
  }

  /** The messages meant for the session since it connected, in order, each once. */
  function Sent(steps: seq<Step>, s: Session): seq<Message> {
    if steps == [] then []
    else
      var before := steps[..|steps| - 1];
      match steps[|steps| - 1]
      case Connect(u) => if u == s then [] else Sent(before, s)
      case Broadcast(topic, msg) => Sent(before, s) + if Subscribed(before, s, topic) then [msg] else []
      case BroadcastAll(msg) => Sent(before, s) + [msg]
      case Direct(u, msg) => Sent(before, s) + if u == s then [msg] else []
      case _ => Sent(before, s)
  }

  /** The part of the run that the session's own pump goes through. */
  function PumpRun(steps: seq<Step>, s: Session): seq<W.Step> {
    if steps == [] then []
    else
      var before := steps[..|steps| - 1];
      match steps[|steps| - 1]
      case Connect(u) => if u == s then [] else PumpRun(before, s)
      case Broadcast(topic, msg) => PumpRun(before, s) + if Subscribed(before, s, topic) then [W.Post(msg)] else []
      case BroadcastAll(msg) => PumpRun(before, s) + [W.Post(msg)]
      case Direct(u, msg) => PumpRun(before, s) + if u == s then [W.Post(msg)] else []
      case Turn(u) => PumpRun(before, s) + if u == s then [W.RunStrand] else []
      case Completion(u, ok) => PumpRun(before, s) + if u == s then [W.IoDone(ok)] else []
      case _ => PumpRun(before, s)
  }

  /** Some write of the session failed since it connected. */
  predicate WriteFailed(steps: seq<Step>, s: Session) {
    steps != [] &&
    match steps[|steps| - 1]
    case Connect(u) => u != s && WriteFailed(steps[..|steps| - 1], s)
    case Completion(u, ok) => (u == s && !ok) || WriteFailed(steps[..|steps| - 1], s)
    case _ => WriteFailed(steps[..|steps| - 1], s)
  }

  // ----- The index follows the history -----

  lemma IndexStep(x: Index, step: Step)
    requires Inv(x) && (step.Connect? ==> step.s !in x.clients)
    ensures Inv(NextIndex(x, step))
  {
    hide Inv;
    match step
    case Connect(s) => WithClientInv(x, s);
    case Subscribe(s, topics) => AddTopicsInv(x, s, topics);
    case Unsubscribe(s, topics) => RemoveTopicsInv(x, s, topics);
    case Destroy(s) => WithoutClientInv(x, s);
    case _ =>
  }

  lemma StepKeys(x: System, step: Step)
    requires x.pumps.Keys == x.index.clients.Keys
    ensures Next(x, step).pumps.Keys == Next(x, step).index.clients.Keys
  {
    hide AddTopics, RemoveTopics, PostAll, Drive, W.Next;
  }

  lemma StartInv()
    ensures Inv(NO_CLIENTS)
  {
  }

  /** The invariant of the index holds in every run, and the pumps are exactly those of the registered sessions. */
  lemma {:induction false} IndexInvariant(steps: seq<Step>)
    requires Possible(steps)
    ensures Inv(Exec(steps).index)
    ensures Exec(steps).pumps.Keys == Exec(steps).index.clients.Keys
  {
    hide Inv, NextPumps, NextIndex;
    StartInv();
    if steps != [] {
      var before, last := Exec(steps[..|steps| - 1]), steps[|steps| - 1];
      IndexInvariant(steps[..|steps| - 1]);
      IndexStep(before.index, last);
      StepKeys(before, last);
    }
  }

  /** What one step does to the membership of one session. */
  lemma MemberStep(x: Index, step: Step, s: Session, t: Topic)
    requires Inv(x) && (step.Connect? ==> step.s !in x.clients)
    ensures s in NextIndex(x, step).Of(t) <==>
              match step
              case Connect(u) => u != s && s in x.Of(t)
              case Destroy(u) => u != s && s in x.Of(t)
              case Subscribe(u, topics) => s in x.Of(t) || (u == s && s in x.clients && Requested(topics, t))
              case Unsubscribe(u, topics) => s in x.Of(t) && !(u == s && t in topics)
              case _ => s in x.Of(t)
  {
    hide AddTopics, RemoveTopics, All, FanOut, Requested;
    assert Linked(x, s, t);
    match step
    case Connect(u) => WithClientInv(x, u);
    case Subscribe(u, topics) =>
      if u in x.clients {
        AddTopicsEffect(x, u, topics, t);
      } else {
        AddTopicsUnregistered(x, u, topics);
      }
    case Unsubscribe(u, topics) =>
      if u in x.clients {
        RemoveTopicsEffect(x, u, topics, t);
      } else {
        AddTopicsUnregistered(x, u, topics);
      }
    case Destroy(u) =>
      if u in x.clients {
        WithoutClientEffect(x, u, t);
      }
    case _ =>
  }

  /** In every run, a session is registered exactly while it lives and is listed exactly where it subscribed. */
  lemma {:induction false} IndexFollowsHistory(steps: seq<Step>, s: Session, t: Topic)
    requires Possible(steps)
    ensures s in Exec(steps).pumps <==> Live(steps, s)
    ensures s in Exec(steps).index.Of(t) <==> Subscribed(steps, s, t)
  {
    hide Inv, Requested, NextPumps;
    if steps != [] {
      var before, last := Exec(steps[..|steps| - 1]), steps[|steps| - 1];
      IndexFollowsHistory(steps[..|steps| - 1], s, t);
      IndexInvariant(steps[..|steps| - 1]);
      IndexInvariant(steps);
      MemberStep(before.index, last, s, t);
      ClientStep(before.index, last, s);
    }
  }

  lemma ClientStep(x: Index, step: Step, s: Session)
    ensures s in NextIndex(x, step).clients <==>
              match step
              case Connect(u) => u == s || s in x.clients
              case Destroy(u) => u != s && s in x.clients
              case _ => s in x.clients
  {
    hide AddTopics, RemoveTopics;
  }

  /** The number of steps after which the session joined the list of the topic that it is on. */
  function JoinedAt(steps: seq<Step>, s: Session, t: Topic): nat {
    if steps == [] then 0
    else if Subscribed(steps[..|steps| - 1], s, t) then JoinedAt(steps[..|steps| - 1], s, t)
    else |steps|
  }

  lemma {:induction false} JoinedBy(steps: seq<Step>, s: Session, t: Topic)
    ensures JoinedAt(steps, s, t) <= |steps|
  {
    if steps != [] {
      JoinedBy(steps[..|steps| - 1], s, t);
    }
  }

  /** The sessions of the list joined one after the other. */
  predicate InOrder(list: seq<Session>, steps: seq<Step>, t: Topic) {
    forall i, j :: 0 <= i < j < |list| ==> JoinedAt(steps, list[i], t) < JoinedAt(steps, list[j], t)
  }

  lemma {:induction false} WithoutInOrder(list: seq<Session>, s: Session, steps: seq<Step>, t: Topic)
    requires InOrder(list, steps, t)
    ensures InOrder(Without(list, s), steps, t)
  {
    hide JoinedAt;
    if list != [] {
      var prefix, last := list[..|list| - 1], list[|list| - 1];
      WithoutInOrder(prefix, s, steps, t);
      assert forall u :: u in prefix ==> JoinedAt(steps, u, t) < JoinedAt(steps, last, t);
    }
  }

  /** What one step does to a list: it takes one session out, or puts one at the end, or nothing. */
  lemma ListStep(x: Index, step: Step, t: Topic) returns (s: Session)
    requires Inv(x) && (step.Connect? ==> step.s !in x.clients)
    ensures var list, after := x.Of(t), NextIndex(x, step).Of(t);
            after == list || after == Without(list, s) || (after == list + [s] && s !in list)
  {
    hide AddTopics, RemoveTopics, All, FanOut, Requested, Without, Inv, WithoutClient;
    match step
    case Connect(u) =>
      WithClientInv(x, u);
      s := u;
    case Subscribe(u, topics) =>
      s := u;
      if u in x.clients {
        AddTopicsEffect(x, u, topics, t);
      } else {
        AddTopicsUnregistered(x, u, topics);
      }
    case Unsubscribe(u, topics) =>
      s := u;
      if u in x.clients {
        RemoveTopicsEffect(x, u, topics, t);
      } else {
        AddTopicsUnregistered(x, u, topics);
      }
    case Destroy(u) =>
      s := u;
      if u in x.clients {
        WithoutClientEffect(x, u, t);
      } else {
        WithoutNobody(x, u);
      }
    case _ =>
      s := 0;
  }

  lemma WithoutNobody(x: Index, s: Session)
    requires s !in x.clients
    ensures WithoutClient(x, s) == x
  {
  }

  /** The sessions that were listed joined when they did before; any other one joins now. */
  lemma JoinedStep(steps: seq<Step>, s: Session, t: Topic)
    requires Possible(steps) && steps != []
    ensures var prefix := steps[..|steps| - 1];
            if s in Exec(prefix).index.Of(t) then JoinedAt(steps, s, t) == JoinedAt(prefix, s, t) <= |prefix|
            else JoinedAt(steps, s, t) == |prefix| + 1
  {
    var prefix := steps[..|steps| - 1];
    IndexFollowsHistory(prefix, s, t);
    JoinedBy(prefix, s, t);
    hide Exec, Subscribed, Possible, Index.Of;
  }

  lemma OrderStep(list: seq<Session>, after: seq<Session>, s: Session, steps: seq<Step>, t: Topic)
    requires steps != [] && InOrder(list, steps[..|steps| - 1], t)
    requires after == list || after == Without(list, s) || (after == list + [s] && s !in list)
    requires forall u :: var prefix := steps[..|steps| - 1];
               if u in list then JoinedAt(steps, u, t) == JoinedAt(prefix, u, t) <= |prefix|
               else JoinedAt(steps, u, t) == |prefix| + 1
    ensures InOrder(after, steps, t)
  {
    hide Without, JoinedAt;
    assert forall i :: 0 <= i < |list| ==> list[i] in list;
    assert InOrder(list, steps, t);
    WithoutInOrder(list, s, steps, t);
  }

  /** In every run, each list holds its sessions in the order in which they subscribed. */
  lemma {:induction false} ListedInOrder(steps: seq<Step>, t: Topic)
    requires Possible(steps)
    ensures InOrder(Exec(steps).index.Of(t), steps, t)
  {
    hide Inv, Without, JoinedAt, Subscribed, NextPumps, NextIndex, InOrder, Index.Of;
    if steps == [] {
      NobodyListed(t);
      NobodyInOrder(steps, t);
    } else {
      var prefix, last := steps[..|steps| - 1], steps[|steps| - 1];
      ListedInOrder(prefix, t);
      IndexInvariant(prefix);
      var s := ListStep(Exec(prefix).index, last, t);
      forall u
        ensures var list := Exec(prefix).index.Of(t);
                if u in list then JoinedAt(steps, u, t) == JoinedAt(prefix, u, t) <= |prefix|
                else JoinedAt(steps, u, t) == |prefix| + 1
      {
        JoinedStep(steps, u, t);
      }
      OrderStep(Exec(prefix).index.Of(t), Exec(steps).index.Of(t), s, steps, t);
    }
  }

  lemma NobodyInOrder(steps: seq<Step>, t: Topic)
    ensures InOrder([], steps, t)
  {
  }

  lemma NobodyListed(t: Topic)
    ensures Exec([]).index.Of(t) == []
  {
  }

  // ----- Every session's pump goes through its own run -----

  lemma {:induction false} PostAllEffect(pumps: Pumps, list: seq<Session>, msg: Message, s: Session)
    requires NoDuplicates(list) && s in pumps
    ensures PostAll(pumps, list, msg)[s] == if s in list then W.Next(pumps[s], W.Post(msg)) else pumps[s]
  {
    hide W.Next;
    if list != [] {
      var prefix, last := list[..|list| - 1], list[|list| - 1];
      assert list == prefix + [last];
      PostAllEffect(pumps, prefix, msg, s);
    }
  }

  lemma PumpStep(x: System, step: Step, s: Session)
    requires Inv(x.index) && Enabled(x, step) && s in x.pumps && step != Destroy(s)
    requires x.pumps.Keys == x.index.clients.Keys
    ensures var after := Next(x, step).pumps;
            s in after && after[s] ==
              match step
              case Broadcast(topic, msg) =>
                if s in x.index.Of(topic) then W.Next(x.pumps[s], W.Post(msg)) else x.pumps[s]
              case BroadcastAll(msg) => W.Next(x.pumps[s], W.Post(msg))
              case Direct(u, msg) => if u == s then W.Next(x.pumps[s], W.Post(msg)) else x.pumps[s]
              case Turn(u) => if u == s then W.Next(x.pumps[s], W.RunStrand) else x.pumps[s]
              case Completion(u, ok) => if u == s then W.Next(x.pumps[s], W.IoDone(ok)) else x.pumps[s]
              case _ => x.pumps[s]
  {
    hide W.Next, NextIndex;
    match step
    case Broadcast(topic, msg) =>
      assert NoDuplicates(x.index.Of(topic));
      hide Inv;
      PostAllEffect(x.pumps, x.index.Of(topic), msg, s);
    case _ =>
  }

  /**
   In every run of the whole system, each live session's pump is in the state that its own pump reaches by the
   turns and completions of that session and one post for each message meant for it.
   */
  lemma {:induction false} SessionsRunAlone(steps: seq<Step>, s: Session)
    requires Possible(steps) && Live(steps, s)
    ensures s in Exec(steps).pumps && Exec(steps).pumps[s] == W.Run(W.IDLE, PumpRun(steps, s))
    ensures W.Posted(PumpRun(steps, s)) == Sent(steps, s)
  {
    hide Inv, Next, W.Next, W.Run, W.Posted;
    var prefix, last := steps[..|steps| - 1], steps[|steps| - 1];
    IndexFollowsHistory(steps, s, "");
    IndexFollowsHistory(prefix, s, if last.Broadcast? then last.topic else "");
    if last == Connect(s) {
      Connected(Exec(prefix), s);
    } else {
      SessionsRunAlone(prefix, s);
      IndexInvariant(prefix);
      PumpStep(Exec(prefix), last, s);
      var own, sent := PumpRun(prefix, s), Sent(prefix, s);
      assert own + [] == own && sent + [] == sent;
      match last
      case Broadcast(_, msg) => W.RunSnoc(W.IDLE, own, W.Post(msg));
      case BroadcastAll(msg) => W.RunSnoc(W.IDLE, own, W.Post(msg));
      case Direct(_, msg) => W.RunSnoc(W.IDLE, own, W.Post(msg));
      case Turn(_) => W.RunSnoc(W.IDLE, own, W.RunStrand);
      case Completion(_, ok) => W.RunSnoc(W.IDLE, own, W.IoDone(ok));
      case _ =>
    }
  }

  lemma Connected(x: System, s: Session)
    ensures s in Next(x, Connect(s)).pumps && Next(x, Connect(s)).pumps[s] == W.Run(W.IDLE, [])
    ensures W.Posted([]) == []
  {
  }

  // ----- Delivery -----

  /**
   In every run and for every live session: what it was sent is what it completed, followed by its write queue,
   followed by the closures on its strand. What reaches its socket is a prefix of that, one write at a time.
   */
  lemma DeliveredInOrder(steps: seq<Step>, s: Session)
    requires Possible(steps) && Live(steps, s)
    ensures s in Exec(steps).pumps
    ensures var p := Exec(steps).pumps[s];
            && p.completed + p.queue + W.Pending(p.strand) == Sent(steps, s)
            && p.completed <= p.started
            && p.started <= Sent(steps, s)
            && |p.inFlight| <= 1
            && (p.inFlight != [] ==> p.queue != [] && p.inFlight[0] == p.queue[0])
  {
    SessionsRunAlone(steps, s);
    W.Conservation(PumpRun(steps, s));
    W.RunKeepsInv(W.IDLE, PumpRun(steps, s));
    hide W.Run, W.Posted, PumpRun, Sent, Exec, Possible, Live, W.Pending, W.Handlers;
  }

  lemma FailedSnoc(p: W.Pump, steps: seq<W.Step>, step: W.Step)
    ensures W.WriteFailed(p, steps + [step]) <==>
              W.WriteFailed(p, steps) || (step == W.IoDone(false) && W.Enabled(W.Run(p, steps), step))
  {
    assert (steps + [step])[..|steps|] == steps;
  }

  /** The failures of a session's writes are the failures of its own pump's run. */
  lemma {:induction false} FailuresAreOwn(steps: seq<Step>, s: Session)
    requires Possible(steps) && Live(steps, s)
    ensures W.WriteFailed(W.IDLE, PumpRun(steps, s)) <==> WriteFailed(steps, s)
  {
    var prefix, last := steps[..|steps| - 1], steps[|steps| - 1];
    if last != Connect(s) {
      FailuresAreOwn(prefix, s);
      SessionsRunAlone(prefix, s);
      hide W.Run, W.Next, W.WriteFailed, Exec, Possible, Live, Subscribed;
      var own := PumpRun(prefix, s);
      assert own + [] == own;
      match last
      case Broadcast(_, msg) => FailedSnoc(W.IDLE, own, W.Post(msg));
      case BroadcastAll(msg) => FailedSnoc(W.IDLE, own, W.Post(msg));
      case Direct(_, msg) => FailedSnoc(W.IDLE, own, W.Post(msg));
      case Turn(_) => FailedSnoc(W.IDLE, own, W.RunStrand);
      case Completion(u, ok) =>
        FailedSnoc(W.IDLE, own, W.IoDone(ok));
        assert u == s ==> W.Enabled(Exec(prefix).pumps[s], W.IoDone(ok)) by {
          LastWasEnabled(steps);
        }
      case _ =>
    }
  }

  lemma LastWasEnabled(steps: seq<Step>)
    requires Possible(steps) && steps != []
    ensures Enabled(Exec(steps[..|steps| - 1]), steps[|steps| - 1])
  {
  }

  /** A session that can be destroyed has written everything it was sent, if and only if none of its writes failed. */
  lemma DestroyedIffDelivered(steps: seq<Step>, s: Session)
    requires Possible(steps) && Enabled(Exec(steps), Destroy(s))
    ensures Live(steps, s)
    ensures Exec(steps).pumps[s].completed == Sent(steps, s) <==> !WriteFailed(steps, s)
  {
    IndexFollowsHistory(steps, s, "");
    SessionsRunAlone(steps, s);
    FailuresAreOwn(steps, s);
    W.QuiescentIffDelivered(PumpRun(steps, s));
  }

  /** After a destruction the session is on no subscriber list, so no later broadcast reaches it. */
  lemma DestroyedIsUnlisted(steps: seq<Step>, s: Session)
    requires Possible(steps + [Destroy(s)])
    ensures var x := Exec(steps + [Destroy(s)]);
            s !in x.pumps && s !in x.index.clients && forall t :: s !in x.index.Of(t)
  {
    var all := steps + [Destroy(s)];
    assert all[..|all| - 1] == steps;
    IndexInvariant(all);
    IndexFollowsHistory(all, s, "");
    hide Exec;
    forall t
      ensures s !in Exec(all).index.Of(t)
    {
      assert Linked(Exec(all).index, s, t);
    }
  }

  /** The step of the whole system that takes a session's pump one step further. */
  function DrainStep(s: Session, p: W.Pump): Step {
    if W.DrainStep(p).RunStrand? then Turn(s) else Completion(s, true)
  }

  lemma DrainOne(steps: seq<Step>, s: Session)
    requires Possible(steps) && Live(steps, s) && s in Exec(steps).pumps
    requires W.Healthy(Exec(steps).pumps[s]) && !W.Quiescent(Exec(steps).pumps[s])
    ensures var p := Exec(steps).pumps[s];
            var next := steps + [DrainStep(s, p)];
            && Possible(next) && Live(next, s) && Sent(next, s) == Sent(steps, s)
            && s in Exec(next).pumps && W.Healthy(Exec(next).pumps[s]) && W.Work(Exec(next).pumps[s]) < W.Work(p)
  {
    hide W.Next, W.Run, W.Work, W.Healthy, W.Quiescent, W.Inv, NextPumps, NextIndex, Inv;
    var x, p := Exec(steps), Exec(steps).pumps[s];
    var step := DrainStep(s, p);
    var next := steps + [step];
    assert next[..|next| - 1] == steps;
    PumpInvariant(steps, s);
    W.DrainStepProgress(p);
    IndexInvariant(steps);
    PumpStep(x, step, s);
    assert Exec(next) == Next(x, step);
  }

  lemma PumpInvariant(steps: seq<Step>, s: Session)
    requires Possible(steps) && Live(steps, s)
    ensures s in Exec(steps).pumps && W.Inv(Exec(steps).pumps[s])
    ensures W.Accepted(Exec(steps).pumps[s]) == Sent(steps, s)
  {
    hide PumpRun, Sent, Exec, Possible, Live;
    SessionsRunAlone(steps, s);
    W.RunKeepsInv(W.IDLE, PumpRun(steps, s));
    hide W.Run, W.Posted, W.Pending;
  }

  /**
   Nothing is ever stuck: from any run, as long as no write fails, the session's own turns and completions alone
   lead to a state where it has written everything it was sent and can be destroyed.
   */
  lemma {:induction false} EventuallyDelivered(steps: seq<Step>, s: Session) returns (more: seq<Step>)
    requires Possible(steps) && Live(steps, s) && s in Exec(steps).pumps && W.Healthy(Exec(steps).pumps[s])
    ensures Possible(steps + more)
    ensures forall i :: 0 <= i < |more| ==> more[i] == Turn(s) || more[i] == Completion(s, true)
    ensures Enabled(Exec(steps + more), Destroy(s)) && Exec(steps + more).pumps[s].completed == Sent(steps, s)
    decreases W.Work(Exec(steps).pumps[s])
  {
    hide Exec, Possible, Live, Sent, W.Work, W.Healthy, W.Inv, W.Accepted, W.Quiescent;
    PumpInvariant(steps, s);
    var p := Exec(steps).pumps[s];
    if W.Quiescent(p) {
      more := [];
      assert steps + [] == steps;
      W.DrainedDelivers(p);
    } else {
      DrainOne(steps, s);
      var step := DrainStep(s, p);
      var rest := EventuallyDelivered(steps + [step], s);
      more := [step] + rest;
      assert steps + more == (steps + [step]) + rest;
    }
  }
}
