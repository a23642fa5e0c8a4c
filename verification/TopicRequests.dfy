/**
 How a text message from a client turns into subscriptions: extract_topics and the last part of on_read in
 server/server.cpp.
 */
module TopicRequests {
  import opened Sequences
  import opened Subscriptions

  /** std::string::find succeeds. */
  predicate Contains(s: string, word: string) {
    exists i :: 0 <= i <= |s| - |word| && Occurs(s, word, i)
  }

  predicate Occurs(s: string, word: string, i: nat)
    requires i + |word| <= |s|
  {
    s[i..i + |word|] == word
  }

  /** The word stands somewhere in the string. */
  lemma ContainsIffSplit(s: string, word: string)
    ensures Contains(s, word) <==> exists a: string, b: string :: s == a + word + b
  {
    if Contains(s, word) {
      var i :| 0 <= i <= |s| - |word| && Occurs(s, word, i);
      assert s == s[..i] + word + s[i + |word|..];
    }
    forall a: string, b: string | s == a + word + b
      ensures Contains(s, word)
    {
      assert Occurs(s, word, |a|);
    }
  }

  /** The topics that a client can reach by a text message. */
  function Reachable(): seq<Topic> {
    ["ticker_", "price_", "bid_", "ask_",
     "dashboard", "metrics", "performance", "exchange", "system", "network", "feed", "queues"]
  }

  /** The word that asks for a topic is its name without the trailing underscore. */
  function Word(t: Topic): string {
    if t != "" && t[|t| - 1] == '_' then t[..|t| - 1] else t
  }

  predicate Asks(msg: string, t: Topic) {
    t in Reachable() && (Contains(msg, Word(t)) || Contains(msg, "all"))
  }

  /** The topics among `ts` whose word the message contains, in order. */
  function Named(msg: string, ts: seq<Topic>): seq<Topic> {
    if ts == [] then []
    else
      var last := ts[|ts| - 1];
      Named(msg, ts[..|ts| - 1]) + if Contains(msg, Word(last)) then [last] else []
  }

  lemma NamedSnoc(msg: string, ts: seq<Topic>, t: Topic)
    ensures Named(msg, ts + [t]) == Named(msg, ts) + if Contains(msg, Word(t)) then [t] else []
  {
    assert (ts + [t])[..|ts|] == ts;
  }

  lemma {:induction false} NamedMembers(msg: string, ts: seq<Topic>)
    ensures forall t :: t in Named(msg, ts) <==> t in ts && Contains(msg, Word(t))
  {
    if ts != [] {
      hide Contains, Word;
      NamedMembers(msg, ts[..|ts| - 1]);
      assert ts == ts[..|ts| - 1] + [ts[|ts| - 1]];
    }
  }

  lemma MarketWords()
    ensures Word("ticker_") == "ticker" && Word("price_") == "price" && Word("bid_") == "bid" && Word("ask_") == "ask"
  {
  }

  lemma MonitoringWords()
    ensures Word("dashboard") == "dashboard" && Word("metrics") == "metrics" && Word("performance") == "performance"
    ensures Word("exchange") == "exchange" && Word("system") == "system" && Word("network") == "network"
    ensures Word("feed") == "feed" && Word("queues") == "queues"
  {
  }

  predicate Says(msg: string, word: string) {
    Contains(msg, word) || Contains(msg, "all")
  }

  /** The twelve topics and the words that ask for them; "all" asks for each. */
  lemma TwelveTopics(msg: string, t: Topic)
    ensures |Reachable()| == 12
    ensures Asks(msg, t) <==>
              || (t == "ticker_" && Says(msg, "ticker")) || (t == "price_" && Says(msg, "price"))
              || (t == "bid_" && Says(msg, "bid")) || (t == "ask_" && Says(msg, "ask"))
              || (t == "dashboard" && Says(msg, "dashboard")) || (t == "metrics" && Says(msg, "metrics"))
              || (t == "performance" && Says(msg, "performance")) || (t == "exchange" && Says(msg, "exchange"))
              || (t == "system" && Says(msg, "system")) || (t == "network" && Says(msg, "network"))
              || (t == "feed" && Says(msg, "feed")) || (t == "queues" && Says(msg, "queues"))
  {
    hide Contains, Word;
    MarketWords();
    MonitoringWords();
  }

  /** One test of the message; `before` holds the topics tested so far. */
  method PushIfFound(msg: string, word: string, topic: Topic, topics: seq<Topic>, ghost before: seq<Topic>)
    returns (r: seq<Topic>, ghost after: seq<Topic>)
    requires topics == Named(msg, before) && word == Word(topic)
    ensures after == before + [topic] && r == Named(msg, after)
    ensures r == if Contains(msg, word) then topics + [topic] else topics
  {
    NamedSnoc(msg, before, topic);
    r, after := topics, before + [topic];
    if Contains(msg, word) {
      r := r + [topic];
    }
  }

  /** The topics named, in the order of the tests, followed by all twelve for "all", repeated or not. */
  method ExtractTopics(msg: string) returns (topics: seq<Topic>)
    ensures topics == Named(msg, Reachable()) + if Contains(msg, "all") then Reachable() else []
    ensures forall t :: t in topics <==> Asks(msg, t)
  {
    hide Word, Contains, Occurs, Named;
    MarketWords();
    MonitoringWords();
    NamedMembers(msg, Reachable());
    ghost var tested: seq<Topic> := [];
    NothingNamed(msg);
    topics := [];
    topics, tested := PushIfFound(msg, "ticker", "ticker_", topics, tested);
    topics, tested := PushIfFound(msg, "price", "price_", topics, tested);
    topics, tested := PushIfFound(msg, "bid", "bid_", topics, tested);
    topics, tested := PushIfFound(msg, "ask", "ask_", topics, tested);
    topics, tested := PushIfFound(msg, "dashboard", "dashboard", topics, tested);
    topics, tested := PushIfFound(msg, "metrics", "metrics", topics, tested);
    topics, tested := PushIfFound(msg, "performance", "performance", topics, tested);
    topics, tested := PushIfFound(msg, "exchange", "exchange", topics, tested);
    topics, tested := PushIfFound(msg, "system", "system", topics, tested);
    topics, tested := PushIfFound(msg, "network", "network", topics, tested);
    topics, tested := PushIfFound(msg, "feed", "feed", topics, tested);
    topics, tested := PushIfFound(msg, "queues", "queues", topics, tested);
    assert tested == Reachable();
    if Contains(msg, "all") {
      topics := topics + Reachable();
    }
  }

  lemma NothingNamed(msg: string)
    ensures Named(msg, []) == []
  {
  }

  lemma ReachableLengths()
    ensures forall t :: t in Reachable() ==> |t| != 5 && (|t| == 9 ==> t[0] == 'd')
  {
  }

  lemma ReachableLetters()
    ensures forall t :: t in Reachable() ==> |t| > 1 && t[1] != 'l'
  {
  }

  /** No message makes a client ask for "all_", nor for the two fan-out topics that no word stands for. */
  lemma NeverAsked(msg: string)
    ensures !Asks(msg, All()) && !Asks(msg, "quantity_") && !Asks(msg, "time_")
  {
    ReachableLengths();
    ReachableLetters();
    hide Contains, Word, Reachable;
    assert All()[1] == 'l' && |"time_"| == 5 && |"quantity_"| == 9 && "quantity_"[0] == 'q';
  }

  /** A message that says "unsubscribe" says "subscribe" too. */
  lemma UnsubscribeSubscribes(msg: string)
    requires Contains(msg, "unsubscribe")
    ensures Contains(msg, "subscribe")
  {
    var i: nat :| i <= |msg| - |"unsubscribe"| && Occurs(msg, "unsubscribe", i);
    assert "unsubscribe"[2..] == "subscribe";
    assert msg[i + 2..i + 11] == msg[i..i + 11][2..];
    assert Occurs(msg, "subscribe", i + 2);
  }

  /**
   The part of on_read for a plain message. Membership only grows: the sender joins each list it asks for, and
   nobody leaves one, whatever the message says. The two views of the index stay equal.
   */
  method OnText(manager: SessionManager, session: Session, msg: string)
    requires Inv(manager.State())
    modifies manager
    ensures Inv(manager.State()) && manager.clients.Keys == old(manager.clients.Keys)
    ensures forall u, t :: u in manager.State().Of(t) <==>
              u in old(manager.State()).Of(t) ||
              (u == session && u in manager.clients && Contains(msg, "subscribe") && Asks(msg, t))
    ensures Exact(old(manager.State())) ==> Exact(manager.State())
  {
    hide Inv, Contains, Asks, All, FanOut, Exact, AddTopics;
    ghost var before := manager.State();
    if Contains(msg, "subscribe") {
      var topics := ExtractTopics(msg);
      manager.AddClientTopics(session, topics);
      TextEffect(before, session, topics, msg);
    }
  }

  lemma TextEffect(x: Index, s: Session, topics: seq<Topic>, msg: string)
    requires Inv(x) && forall t :: t in topics <==> Asks(msg, t)
    ensures forall u, t :: u in AddTopics(x, s, topics).Of(t) <==>
              u in x.Of(t) || (u == s && s in x.clients && Asks(msg, t))
    ensures Exact(x) ==> Exact(AddTopics(x, s, topics))
  {
    hide Inv, Asks, All, FanOut, Exact, AddTopics, Index.Of;
    NeverAsked(msg);
    if s in x.clients {
      if Exact(x) {
        AddTopicsExact(x, s, topics);
      }
      forall u, t
        ensures u in AddTopics(x, s, topics).Of(t) <==> u in x.Of(t) || (u == s && Asks(msg, t))
      {
        AddTopicsEffect(x, s, topics, t);
      }
    } else {
      AddTopicsUnregistered(x, s, topics);
    }
  }
}
