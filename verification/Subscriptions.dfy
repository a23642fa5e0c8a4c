/**
 The two-sided subscription index: session/session_manager.cpp. Each client lists its topics, and each topic
 lists its subscribers. A session is identified by its address.
 */
module Subscriptions {
  import opened Sequences

  type Session = nat
  type Topic = string

  function All(): Topic {
    "all_"
  }

  /** The topics that "all_" stands for, on the subscriber side only. */
  function FanOut(): seq<Topic> {
    ["price_", "bid_", "ask_", "quantity_", "time_"]
  }

  lemma AllIsNoTopic()
    ensures All() !in FanOut()
  {
    assert All()[0] == 'a' && All()[1] == 'l';
    assert forall t :: t in FanOut() ==> t[0] != 'a' || t[1] != 'l';
  }

  type Subscribers = map<Topic, seq<Session>>

  datatype Index = Index(clients: map<Session, seq<Topic>>, subs: Subscribers) {
    function Of(t: Topic): seq<Session> {
      Get(subs, t)
    }
  }

  const NO_CLIENTS := Index(map[], map[])

  // ----- The primitive updates -----

  function Get(subs: Subscribers, t: Topic): seq<Session> {
    if t in subs then subs[t] else []
  }

  /** push_back unless std::find succeeds. */
  function AppendIfAbsent<T(==,!new)>(s: seq<T>, x: T): (r: seq<T>)
    ensures forall y :: y in r <==> y in s || y == x
    ensures NoDuplicates(s) ==> NoDuplicates(r)
  {
    if x in s then s else s + [x]
  }

  /** erase of std::remove. */
  function Without<T(==,!new)>(s: seq<T>, x: T): (r: seq<T>)
    ensures forall y :: y in r <==> y in s && y != x
    ensures NoDuplicates(s) ==> NoDuplicates(r)
    ensures x !in s ==> r == s
  {
    if s == [] then []
    else
      var prefix, last := s[..|s| - 1], s[|s| - 1];
      assert s == prefix + [last];
      var r := Without(prefix, x);
      assert NoDuplicates(s) ==> last !in prefix;
      if last == x then r else r + [last]
  }

  function AddSub(subs: Subscribers, t: Topic, s: Session): Subscribers {
    subs[t := AppendIfAbsent(Get(subs, t), s)]
  }

  function RemoveSub(subs: Subscribers, t: Topic, s: Session): Subscribers {
    subs[t := Without(Get(subs, t), s)]
  }

  function AddSubs(subs: Subscribers, ts: seq<Topic>, s: Session): Subscribers {
    if ts == [] then subs else AddSub(AddSubs(subs, ts[..|ts| - 1], s), ts[|ts| - 1], s)
  }

  function RemoveSubs(subs: Subscribers, ts: seq<Topic>, s: Session): Subscribers {
    if ts == [] then subs else RemoveSub(RemoveSubs(subs, ts[..|ts| - 1], s), ts[|ts| - 1], s)
  }

  // ----- The operations -----

  function WithClient(x: Index, s: Session): Index {
    x.(clients := x.clients[s := []])
  }

  function WithoutClient(x: Index, s: Session): Index {
    if s !in x.clients then x
    else Index(x.clients - {s}, RemoveSubs(RemoveSubs(x.subs, x.clients[s], s), FanOut(), s))
  }

  function AddTopic(x: Index, s: Session, t: Topic): Index
    requires s in x.clients
  {
    Index(x.clients[s := AppendIfAbsent(x.clients[s], t)],
          if t == All() then AddSubs(x.subs, FanOut(), s) else AddSub(x.subs, t, s))
  }

  function AddTopics(x: Index, s: Session, ts: seq<Topic>): (r: Index)
    ensures r.clients.Keys == x.clients.Keys
  {
    if s !in x.clients || ts == [] then x else AddTopic(AddTopics(x, s, ts[..|ts| - 1]), s, ts[|ts| - 1])
  }

  function RemoveTopic(x: Index, s: Session, t: Topic): Index
    requires s in x.clients
  {
    Index(x.clients[s := Without(x.clients[s], t)], RemoveSub(x.subs, t, s))
  }

  function RemoveTopics(x: Index, s: Session, ts: seq<Topic>): (r: Index)
    ensures r.clients.Keys == x.clients.Keys
  {
    if s !in x.clients || ts == [] then x else RemoveTopic(RemoveTopics(x, s, ts[..|ts| - 1]), s, ts[|ts| - 1])
  }

  // ----- What the operations do to every subscriber list -----

  /** A subscription request reaches `t` by name, or through "all_". */
  predicate Requested(ts: seq<Topic>, t: Topic) {
    (t in ts && t != All()) || (All() in ts && t in FanOut())
  }

  lemma {:induction false} AddSubsEffect(subs: Subscribers, ts: seq<Topic>, s: Session, t: Topic)
    ensures Get(AddSubs(subs, ts, s), t) == if t in ts then AppendIfAbsent(Get(subs, t), s) else Get(subs, t)
  {
    if ts != [] {
      AddSubsEffect(subs, ts[..|ts| - 1], s, t);
      assert ts == ts[..|ts| - 1] + [ts[|ts| - 1]];
    }
  }

  lemma {:induction false} RemoveSubsEffect(subs: Subscribers, ts: seq<Topic>, s: Session, t: Topic)
    ensures Get(RemoveSubs(subs, ts, s), t) == if t in ts then Without(Get(subs, t), s) else Get(subs, t)
  {
    if ts != [] {
      RemoveSubsEffect(subs, ts[..|ts| - 1], s, t);
      assert ts == ts[..|ts| - 1] + [ts[|ts| - 1]];
    }
  }

  lemma AddTopicEffect(x: Index, s: Session, topic: Topic, t: Topic)
    requires s in x.clients
    ensures AddTopic(x, s, topic).Of(t) == if Requested([topic], t) then AppendIfAbsent(x.Of(t), s) else x.Of(t)
  {
    hide All, FanOut;
    AddSubsEffect(x.subs, FanOut(), s, t);
  }

  lemma RequestedSnoc(ts: seq<Topic>, last: Topic, t: Topic)
    ensures Requested(ts + [last], t) <==> Requested(ts, t) || Requested([last], t)
  {
    hide All, FanOut;
  }

  lemma AppendTwice(list: seq<Session>, s: Session)
    ensures AppendIfAbsent(AppendIfAbsent(list, s), s) == AppendIfAbsent(list, s)
  {
  }

  /** Subscribing appends the session once to each requested list and leaves every other list alone. */
  lemma {:induction false} AddTopicsEffect(x: Index, s: Session, ts: seq<Topic>, t: Topic)
    requires s in x.clients
    ensures AddTopics(x, s, ts).Of(t) == if Requested(ts, t) then AppendIfAbsent(x.Of(t), s) else x.Of(t)
  {
    hide All, FanOut, AppendIfAbsent, Get, Index.Of, AddTopic;
    if ts == [] {
      assert !Requested(ts, t);
    } else {
      hide Requested;
      var prefix, last := ts[..|ts| - 1], ts[|ts| - 1];
      AddTopicsEffect(x, s, prefix, t);
      AddTopicEffect(AddTopics(x, s, prefix), s, last, t);
      assert ts == prefix + [last];
      RequestedSnoc(prefix, last, t);
      AppendTwice(x.Of(t), s);
    }
  }

  lemma {:induction false} AddTopicsClients(x: Index, s: Session, ts: seq<Topic>)
    requires s in x.clients
    ensures var after := AddTopics(x, s, ts).clients;
            && (forall u :: u in x.clients && u != s ==> after[u] == x.clients[u])
            && (forall t :: t in after[s] <==> t in x.clients[s] || t in ts)
            && (NoDuplicates(x.clients[s]) ==> NoDuplicates(after[s]))
  {
    hide All, FanOut, AddSubs, AddSub, NoDuplicates, AppendIfAbsent;
    if ts != [] {
      AddTopicsClients(x, s, ts[..|ts| - 1]);
      assert ts == ts[..|ts| - 1] + [ts[|ts| - 1]];
    }
  }

  /** Unsubscribing takes the session out of exactly the named lists; "all_" names only itself. */
  lemma {:induction false} RemoveTopicsEffect(x: Index, s: Session, ts: seq<Topic>, t: Topic)
    requires s in x.clients
    ensures RemoveTopics(x, s, ts).Of(t) == if t in ts then Without(x.Of(t), s) else x.Of(t)
  {
    hide Without, NoDuplicates;
    if ts != [] {
      RemoveTopicsEffect(x, s, ts[..|ts| - 1], t);
      assert ts == ts[..|ts| - 1] + [ts[|ts| - 1]];
    }
  }

  lemma {:induction false} RemoveTopicsClients(x: Index, s: Session, ts: seq<Topic>)
    requires s in x.clients
    ensures var after := RemoveTopics(x, s, ts).clients;
            && (forall u :: u in x.clients && u != s ==> after[u] == x.clients[u])
            && (forall t :: t in after[s] <==> t in x.clients[s] && t !in ts)
            && (NoDuplicates(x.clients[s]) ==> NoDuplicates(after[s]))
  {
    hide RemoveSub, NoDuplicates, Without;
    if ts != [] {
      RemoveTopicsClients(x, s, ts[..|ts| - 1]);
      assert ts == ts[..|ts| - 1] + [ts[|ts| - 1]];
    }
  }

  // ----- The invariant -----

  /**
   A client's topics other than "all_" list the client. A listed session is registered, and holds the topic or the
   topic is one of the fan-out topics; nobody is listed under "all_" itself.
   */
  predicate Linked(x: Index, s: Session, t: Topic) {
    && (s in x.clients && t in x.clients[s] && t != All() ==> s in x.Of(t))
    && (s in x.Of(t) ==> s in x.clients && t != All() && (t in x.clients[s] || t in FanOut()))
  }

  /** The invariant of the index: no list has duplicates, and the two views are linked at every session and topic. */
  ghost predicate Inv(x: Index) {
    && (forall s :: s in x.clients ==> NoDuplicates(x.clients[s]))
    && (forall t :: NoDuplicates(x.Of(t)))
    && (forall s, t :: Linked(x, s, t))
  }

  lemma WithClientInv(x: Index, s: Session)
    requires Inv(x) && s !in x.clients
    ensures Inv(WithClient(x, s))
    ensures forall t :: WithClient(x, s).Of(t) == x.Of(t) && s !in x.Of(t)
  {
    hide All, FanOut;
    var y := WithClient(x, s);
    forall t
      ensures NoDuplicates(y.Of(t)) && y.Of(t) == x.Of(t) && s !in y.Of(t)
    {
      assert Linked(x, s, t) && NoDuplicates(x.Of(t));
    }
    MembershipInv(x, y, s);
  }

  /** One more pass of the merge and of the removal loop. */
  lemma TopicsSnoc(x: Index, s: Session, ts: seq<Topic>, i: nat)
    requires s in x.clients && i < |ts|
    ensures AddTopics(x, s, ts[..i + 1]) == AddTopic(AddTopics(x, s, ts[..i]), s, ts[i])
    ensures RemoveTopics(x, s, ts[..i + 1]) == RemoveTopic(RemoveTopics(x, s, ts[..i]), s, ts[i])
  {
    hide AddTopic, RemoveTopic;
    assert ts[..i + 1][..i] == ts[..i];
  }

  lemma TopicsNone(x: Index, s: Session, ts: seq<Topic>)
    ensures AddTopics(x, s, ts[..0]) == x && RemoveTopics(x, s, ts[..0]) == x
  {
  }

  /** The session is on no list but those of the fan-out topics. */
  ghost predicate OnlyFanOut(x: Index, s: Session) {
    forall t :: s in x.Of(t) ==> t in FanOut()
  }

  /** Registering keeps the invariant exactly when the session is on no list but those of the fan-out topics. */
  lemma WithClientInvIff(x: Index, s: Session)
    requires Inv(x)
    ensures Inv(WithClient(x, s)) <==> OnlyFanOut(x, s)
  {
    var y := WithClient(x, s);
    assert forall t :: y.Of(t) == x.Of(t);
    hide FanOut, All, Index.Of;
    if OnlyFanOut(x, s) {
      assert NoDuplicates(y.clients[s]);
      forall u, t
        ensures Linked(y, u, t)
      {
        assert Linked(x, u, t);
      }
    }
    if Inv(y) {
      forall t | s in x.Of(t)
        ensures t in FanOut()
      {
        assert Linked(y, s, t);
      }
    }
  }

  /** Membership in the lists carries over, apart from a session that is on none. */
  lemma MembershipInv(x: Index, y: Index, s: Session)
    requires Inv(x)
    requires forall u :: u in y.clients ==> NoDuplicates(y.clients[u])
    requires forall u :: u in y.clients && u != s ==> u in x.clients && y.clients[u] == x.clients[u]
    requires forall u :: u in x.clients && u != s ==> u in y.clients
    requires forall t :: NoDuplicates(y.Of(t)) && s !in y.Of(t)
    requires s in y.clients ==> y.clients[s] == []
    requires forall t, u :: u != s ==> (u in y.Of(t) <==> u in x.Of(t))
    ensures Inv(y)
  {
    hide All, FanOut, NoDuplicates, Index.Of;
    forall u, t
      ensures Linked(y, u, t)
    {
      assert Linked(x, u, t);
      assert s !in y.Of(t);
    }
  }

  lemma AddTopicsInv(x: Index, s: Session, ts: seq<Topic>)
    requires Inv(x)
    ensures Inv(AddTopics(x, s, ts))
  {
    AllIsNoTopic();
    hide AddTopics, AppendIfAbsent, All, FanOut;
    var after := AddTopics(x, s, ts);
    if s in x.clients {
      AddTopicsClients(x, s, ts);
      forall t: Topic
        ensures after.Of(t) == if Requested(ts, t) then AppendIfAbsent(x.Of(t), s) else x.Of(t)
      {
        AddTopicsEffect(x, s, ts, t);
      }
      forall t
        ensures Linked(after, s, t)
      {
        assert Linked(x, s, t);
      }
      EffectKeepsInv(x, after, s);
    } else {
      assert after == x by {
        AddTopicsUnregistered(x, s, ts);
      }
    }
  }

  lemma AddTopicsUnregistered(x: Index, s: Session, ts: seq<Topic>)
    requires s !in x.clients
    ensures AddTopics(x, s, ts) == x && RemoveTopics(x, s, ts) == x
  {
  }

  /** An update that touches one client's topics and its own membership of the lists keeps the invariant. */
  lemma EffectKeepsInv(x: Index, y: Index, s: Session)
    requires Inv(x) && s in x.clients && x.clients.Keys == y.clients.Keys
    requires forall u :: u in x.clients && u != s ==> y.clients[u] == x.clients[u]
    requires NoDuplicates(y.clients[s])
    requires forall t :: NoDuplicates(y.Of(t))
    requires forall t, u :: u != s ==> (u in y.Of(t) <==> u in x.Of(t))
    requires forall t :: Linked(y, s, t)
    ensures Inv(y)
  {
    hide All, FanOut, NoDuplicates, Index.Of;
    forall u
      ensures u in y.clients ==> NoDuplicates(y.clients[u])
    {
      assert u in y.clients ==> u in x.clients;
    }
    forall u, t
      ensures Linked(y, u, t)
    {
      assert Linked(x, u, t);
    }
  }

  lemma RemoveTopicsInv(x: Index, s: Session, ts: seq<Topic>)
    requires Inv(x)
    ensures Inv(RemoveTopics(x, s, ts))
  {
    hide RemoveTopics, Without, All, FanOut;
    var after := RemoveTopics(x, s, ts);
    if s in x.clients {
      RemoveTopicsClients(x, s, ts);
      forall t: Topic
        ensures after.Of(t) == if t in ts then Without(x.Of(t), s) else x.Of(t)
      {
        RemoveTopicsEffect(x, s, ts, t);
      }
      forall t
        ensures Linked(after, s, t)
      {
        assert Linked(x, s, t);
      }
      EffectKeepsInv(x, after, s);
    } else {
      assert after == x by {
        AddTopicsUnregistered(x, s, ts);
      }
    }
  }

  /** Removing a client takes it out of every subscriber list, and nobody else out of any. */
  lemma WithoutClientEffect(x: Index, s: Session, t: Topic)
    requires Inv(x) && s in x.clients
    ensures WithoutClient(x, s).Of(t) == Without(x.Of(t), s)
  {
    hide All, FanOut, Without, NoDuplicates, RemoveSubs;
    assert Linked(x, s, t);
    var between := RemoveSubs(x.subs, x.clients[s], s);
    RemoveSubsEffect(x.subs, x.clients[s], s, t);
    RemoveSubsEffect(between, FanOut(), s, t);
    WithoutTwice(x.Of(t), s);
  }

  lemma WithoutTwice(list: seq<Session>, s: Session)
    ensures Without(Without(list, s), s) == Without(list, s)
    ensures s !in list ==> Without(list, s) == list
  {
    hide Without;
  }

  lemma WithoutClientInv(x: Index, s: Session)
    requires Inv(x)
    ensures Inv(WithoutClient(x, s))
    ensures s !in WithoutClient(x, s).clients && forall t :: s !in WithoutClient(x, s).Of(t)
  {
    hide RemoveSubs, Without, All, FanOut, Index.Of;
    var after := WithoutClient(x, s);
    forall t
      ensures s !in x.clients ==> s !in x.Of(t)
    {
      assert Linked(x, s, t);
    }
    if s in x.clients {
      assert after.clients == x.clients - {s};
      hide WithoutClient;
      forall t: Topic
        ensures after.Of(t) == Without(x.Of(t), s)
      {
        WithoutClientEffect(x, s, t);
      }
      MembershipInv(x, after, s);
    }
  }

  // ----- When the two views agree -----

  /** The two views are the same relation: a session is on a list exactly when it holds the topic. */
  ghost predicate Exact(x: Index) {
    forall s, t :: s in x.Of(t) <==> Holds(x, s, t)
  }

  predicate Holds(x: Index, s: Session, t: Topic) {
    s in x.clients && t in x.clients[s]
  }

  /** Subscribing keeps the two views equal if and only if "all_" is not among the topics. */
  lemma AddTopicsExact(x: Index, s: Session, ts: seq<Topic>)
    requires Inv(x) && Exact(x) && s in x.clients
    ensures Exact(AddTopics(x, s, ts)) <==> All() !in ts
  {
    var after := AddTopics(x, s, ts);
    AddTopicsClients(x, s, ts);
    AddTopicsInv(x, s, ts);
    hide All, FanOut, AddTopics, AppendIfAbsent, Index.Of, NoDuplicates;
    if All() in ts {
      assert Linked(after, s, All()) && Holds(after, s, All());
    } else {
      forall u, t
        ensures u in after.Of(t) <==> Holds(after, u, t)
      {
        AddTopicsEffect(x, s, ts, t);
        assert u in x.Of(t) <==> Holds(x, u, t);
      }
    }
  }

  /** Every other operation keeps the two views equal. */
  lemma OthersExact(x: Index, s: Session, ts: seq<Topic>)
    requires Inv(x) && Exact(x)
    ensures s !in x.clients ==> Exact(WithClient(x, s))
    ensures s in x.clients ==> Exact(WithoutClient(x, s)) && Exact(RemoveTopics(x, s, ts))
  {
    hide All, FanOut, RemoveTopics, Without, RemoveSubs, NoDuplicates;
    if s !in x.clients {
      WithClientInv(x, s);
      var joined := WithClient(x, s);
      forall u, t
        ensures u in joined.Of(t) <==> Holds(joined, u, t)
      {
        assert u in x.Of(t) <==> Holds(x, u, t);
      }
    } else {
      var left, fewer := WithoutClient(x, s), RemoveTopics(x, s, ts);
      RemoveTopicsClients(x, s, ts);
      forall u, t
        ensures u in left.Of(t) <==> Holds(left, u, t)
        ensures u in fewer.Of(t) <==> Holds(fewer, u, t)
      {
        assert u in x.Of(t) <==> Holds(x, u, t);
        WithoutClientEffect(x, s, t);
        RemoveTopicsEffect(x, s, ts, t);
      }
    }
  }

  // ----- Unsubscribing what was subscribed -----

  /**
   Unsubscribing right after subscribing restores every list if and only if the session was on none of the named
   lists before, and "all_" was not used, or each fan-out topic was named as well or had listed the session before.
   For a session that is not registered neither has an effect.
   */
  lemma UnsubscribeUndoesSubscribe(x: Index, s: Session, ts: seq<Topic>)
    ensures (forall t :: RemoveTopics(AddTopics(x, s, ts), s, ts).Of(t) == x.Of(t)) <==>
              || s !in x.clients
              || ((forall t :: t in ts ==> s !in x.Of(t)) &&
                  (All() in ts ==> forall t :: t in FanOut() ==> t in ts || s in x.Of(t)))
  {
    var during := AddTopics(x, s, ts);
    if s in x.clients {
      forall t: Topic
        ensures RemoveTopics(during, s, ts).Of(t) == x.Of(t) <==>
                  if t in ts then s !in x.Of(t) else Requested(ts, t) ==> s in x.Of(t)
      {
        UndoOne(x, s, ts, t);
      }
      hide AddTopics, RemoveTopics, Index.Of, FanOut, All;
    } else {
      AddTopicsUnregistered(x, s, ts);
    }
  }

  lemma UndoOne(x: Index, s: Session, ts: seq<Topic>, t: Topic)
    requires s in x.clients
    ensures RemoveTopics(AddTopics(x, s, ts), s, ts).Of(t) == x.Of(t) <==>
              if t in ts then s !in x.Of(t) else Requested(ts, t) ==> s in x.Of(t)
  {
    AddTopicsEffect(x, s, ts, t);
    RemoveTopicsEffect(AddTopics(x, s, ts), s, ts, t);
    hide AddTopics, RemoveTopics, Index.Of, FanOut, All, Without;
    if s !in x.Of(t) {
      WithoutLast(x.Of(t), s);
    }
  }

  lemma WithoutLast<T(!new)>(s: seq<T>, x: T)
    requires x !in s
    ensures Without(s + [x], x) == s && Without(s, x) == s
  {
    assert (s + [x])[..|s|] == s;
  }

  /** Unsubscribing from "all_" alone leaves the session subscribed to all five topics. */
  lemma AllIsNotUndone(x: Index, s: Session)
    requires s in x.clients
    ensures forall t :: t in FanOut() ==> s in RemoveTopics(AddTopics(x, s, [All()]), s, [All()]).Of(t)
  {
    AllIsNoTopic();
    hide All, FanOut, AddTopics, RemoveTopics, Index.Of;
    forall t | t in FanOut()
      ensures s in RemoveTopics(AddTopics(x, s, [All()]), s, [All()]).Of(t)
    {
      AddTopicsEffect(x, s, [All()], t);
      RemoveTopicsEffect(AddTopics(x, s, [All()]), s, [All()], t);
    }
  }

  // ----- Where a session enters and leaves a list -----

  /** Asking for one topic puts a session that was not listed at the end of that list. */
  lemma SubscribesAtTheEnd(x: Index, s: Session, topic: Topic, t: Topic)
    requires s in x.clients && topic != "all_"
    ensures AddTopics(x, s, [topic]).Of(t) == if t == topic && s !in x.Of(t) then x.Of(t) + [s] else x.Of(t)
  {
    AddTopicsEffect(x, s, [topic], t);
  }

  /** Asking for "all_" does that for five topics, and for no other. */
  lemma AllReachesFive(x: Index, s: Session, t: Topic)
    requires s in x.clients
    ensures AddTopics(x, s, ["all_"]).Of(t) ==
              if t in {"price_", "bid_", "ask_", "quantity_", "time_"} && s !in x.Of(t) then x.Of(t) + [s] else x.Of(t)
  {
    hide AddTopics, Index.Of, All, FanOut;
    AddTopicsEffect(x, s, ["all_"], t);
    FanOutIsFive(t);
  }

  lemma FanOutIsFive(t: Topic)
    ensures t in FanOut() <==> t in {"price_", "bid_", "ask_", "quantity_", "time_"}
    ensures All() == "all_" && "all_" !in FanOut()
  {
    AllIsNoTopic();
  }

  // ----- The manager -----

  class SessionManager {
    var clients: map<Session, seq<Topic>>
    var topicSubscribers: Subscribers

    function State(): Index
      reads this
    {
      Index(clients, topicSubscribers)
    }

    constructor ()
      ensures State() == NO_CLIENTS && Inv(State())
    {
      clients, topicSubscribers := map[], map[];
    }

    /** Registering a session twice empties its topics and leaves the lists, which can break the invariant. */
    method AddClient(session: Session)
      requires Inv(State())
      modifies this
      ensures State() == WithClient(old(State()), session)
      ensures Inv(State()) <==> OnlyFanOut(old(State()), session)
      ensures session !in old(clients) ==> Inv(State())
    {
      WithClientInvIff(State(), session);
      if session !in clients {
        WithClientInv(State(), session);
      }
      clients := clients[session := []];
    }

    method RemoveClient(session: Session)
      requires Inv(State())
      modifies this
      ensures State() == WithoutClient(old(State()), session)
      ensures Inv(State()) && session !in clients && forall t :: session !in State().Of(t)
    {
      WithoutClientInv(State(), session);
      hide Inv, All, FanOut, RemoveSubs;
      if session in clients {
        Unlist(clients[session], session);
        Unlist(FanOut(), session);
        clients := clients - {session};
      }
    }

    /** Takes the session out of the list of each given topic. */
    method Unlist(topics: seq<Topic>, session: Session)
      modifies this`topicSubscribers
      ensures topicSubscribers == RemoveSubs(old(topicSubscribers), topics, session)
    {
      hide Without;
      for i := 0 to |topics|
        invariant topicSubscribers == RemoveSubs(old(topicSubscribers), topics[..i], session)
      {
        assert topics[..i + 1][..i] == topics[..i];
        topicSubscribers := topicSubscribers[topics[i] := Without(Get(topicSubscribers, topics[i]), session)];
      }
      assert topics[..|topics|] == topics;
    }

    method AddClientTopics(session: Session, topics: seq<Topic>)
      requires Inv(State())
      modifies this
      ensures State() == AddTopics(old(State()), session, topics)
      ensures Inv(State())
    {
      AddTopicsInv(State(), session, topics);
      hide Inv, All, FanOut, AddTopic, AddTopics, NoDuplicates;
      TopicsNone(State(), session, topics);
      if session !in clients {
        AddTopicsUnregistered(State(), session, topics);
        return;
      }
      for i := 0 to |topics|
        invariant session in clients
        invariant State() == AddTopics(old(State()), session, topics[..i])
      {
        TopicsSnoc(old(State()), session, topics, i);
        AddClientTopic(session, topics[i]);
      }
      assert topics[..|topics|] == topics;
    }

    /** One pass of the merge loop. */
    method AddClientTopic(session: Session, topic: Topic)
      requires session in clients
      modifies this
      ensures State() == AddTopic(old(State()), session, topic)
    {
      hide All, FanOut, AppendIfAbsent;
      var topics := clients[session];
      clients := clients[session := AppendIfAbsent(topics, topic)];
      if topic == All() {
        ghost var before := topicSubscribers;
        ghost var kept := clients;
        var allTopics := FanOut();
        for j := 0 to |allTopics|
          invariant clients == kept
          invariant topicSubscribers == AddSubs(before, allTopics[..j], session)
        {
          assert allTopics[..j + 1][..j] == allTopics[..j];
          Subscribe(allTopics[j], session);
        }
        assert allTopics[..|allTopics|] == allTopics;
      } else {
        Subscribe(topic, session);
      }
    }

    /** Lists the session under one topic unless it is there already. */
    method Subscribe(topic: Topic, session: Session)
      modifies this`topicSubscribers
      ensures topicSubscribers == AddSub(old(topicSubscribers), topic, session)
    {
      var subscribers := Get(topicSubscribers, topic);
      if session !in subscribers {
        subscribers := subscribers + [session];
      }
      topicSubscribers := topicSubscribers[topic := subscribers];
    }

    method RemoveClientTopics(session: Session, topics: seq<Topic>)
      requires Inv(State())
      modifies this
      ensures State() == RemoveTopics(old(State()), session, topics)
      ensures Inv(State())
    {
      RemoveTopicsInv(State(), session, topics);
      hide Inv, All, FanOut, RemoveTopic, RemoveTopics, NoDuplicates;
      TopicsNone(State(), session, topics);
      if session !in clients {
        AddTopicsUnregistered(State(), session, topics);
        return;
      }
      for i := 0 to |topics|
        invariant session in clients
        invariant State() == RemoveTopics(old(State()), session, topics[..i])
      {
        TopicsSnoc(old(State()), session, topics, i);
        RemoveClientTopic(session, topics[i]);
      }
      assert topics[..|topics|] == topics;
    }

    /** One pass of the removal loop. */
    method RemoveClientTopic(session: Session, topic: Topic)
      requires session in clients
      modifies this
      ensures State() == RemoveTopic(old(State()), session, topic)
    {
      hide Without;
      clients := clients[session := Without(clients[session], topic)];
      topicSubscribers := topicSubscribers[topic := Without(Get(topicSubscribers, topic), session)];
    }

    /** Returns the sessions whose send_message is called, in order: each subscriber once. */
    method BroadcastToTopic(topic: Topic) returns (posts: seq<Session>)
      requires Inv(State())
      ensures posts == State().Of(topic) && NoDuplicates(posts)
    {
      posts := [];
      if topic in topicSubscribers {
        var subscribers := topicSubscribers[topic];
        for i := 0 to |subscribers|
          invariant posts == subscribers[..i]
        {
          posts := posts + [subscribers[i]];
        }
      }
      assert posts == State().Of(topic);
    }

    /** Returns the sessions whose send_message is called: each registered client once. */
    method BroadcastAll() returns (posts: seq<Session>)
      ensures NoDuplicates(posts)
      ensures forall s :: s in posts <==> s in clients
    {
      posts := [];
      var todo := clients.Keys;
      while todo != {}
        invariant todo <= clients.Keys
        invariant NoDuplicates(posts)
        invariant forall s :: s in posts <==> s in clients && s !in todo
        decreases todo
      {
        var s :| s in todo;
        posts := posts + [s];
        todo := todo - {s};
      }
    }

    method GetSubscribers(topic: Topic) returns (subscribers: seq<Session>)
      ensures subscribers == State().Of(topic)
    {
      subscribers := if topic in topicSubscribers then topicSubscribers[topic] else [];
    }
  }
}
