# Verified model of the Datafeed Server core

A Dafny model of the parts of the Datafeed Server that carry state: who is subscribed to what, how messages reach
a WebSocket, the lock-free queue gauges, the streaming metrics, and the HTTP route compiler. Source paths below are
relative to the root of the repository.

| file | subject |
|---|---|
| `Subscriptions.dfy` | the two-sided subscription index of `session/session_manager.cpp` |
| `TopicRequests.dfy` | how a text message turns into subscriptions (`server/server.cpp`) |
| `WritePump.dfy` | the strand, the write queue and the completion handler of one session (`server/server.cpp`) |
| `Delivery.dfy` | index and pumps together: every run of the whole system |
| `QueueMonitor.dfy` | the depth gauges and their compare-exchange loops (`metrics/queue_monitor.cpp`) |
| `LatencyTracker.dfy` | sliding latency windows and percentiles (`metrics/latency_tracker.cpp`) |
| `RingBuffer.dfy` | the bounded history (`metrics/ring_buffer.h`) |
| `Snapshots.dfy`, `BatchSummary.dfy`, `MetricAggregator.dfy` | the streaming summary against a batch definition (`metrics/metric_aggregator.cpp`) |
| `StateManager.dfy` | the one-second tick loop (`metrics/state_manager.cpp`) |
| `ThroughputTracker.dfy` | delta counters polled under interference (`metrics/throughput_tracker.cpp`) |
| `WeeklyRollup.dfy` | week arithmetic and once-only windows (`metrics/weekly_rollup.cpp`) |
| `Router.dfy` | the route compiler, the meaning of the text it emits, and dispatch (`api/router/router.cpp`) |
| `Sequences.dfy` | facts about sequences, sums and circular indices that several components share |

`dafny verify dfyconfig.toml` checks the project.

## How to read it

- Components that update fields in place are classes. A ghost field holds the history (`pushed`, `recorded`, `since`,
  `ticks`, `checks`, `steps`), and the invariant `Valid` ties the real fields to a plain function of that history.
- Concurrency is a state machine in which every atomic access, strand turn or I/O completion is one step and the
  steps interleave freely. A run is a sequence of steps. The classes `QueueMonitors.Gauge` and
  `ThroughputTracking.ThroughputTracker` carry out the code of one thread, with arbitrary steps of the other threads
  between any two accesses, and each method is shown to be a run of its machine.
- `double` is `real`. Clocks, delays, I/O results, spurious failures and the order of threads are parameters.
- Folds recurse from the end of a sequence, because every component appends at the end.

## Main results

- Delivery: `DeliveredInOrder`, `IndexFollowsHistory`, `ListedInOrder`, `DestroyedIffDelivered`, `EventuallyDelivered`
- Subscriptions: `AddTopicsInv`, `WithoutClientInv`, `AddTopicsExact`, `UnsubscribeUndoesSubscribe`
- Write pump: `Conservation`, `NothingAfterFailure`, `QuiescentIffDelivered`
- Gauges: `QuiescentMarkIsMaximum`, `LoopTerminates`, `GuardedIffNeverUnderflows`
- Metrics: `StatsAreStats`, `StatsOrdered`, `StatsDependOnMultiset`, `Summarize`, `BatchSummaryIsSummary`,
  `SummarizeAfterReset`, `CollectedGiveMeans`, `StateManager.Run`, `OnTime`, `RatesAccountForTotals`
- Weeks: `WindowsDisjointIncreasing`, `AttemptsOfRun`, `SummarizedIffRegularAndStored`
- Routes: `CompiledLanguage`, `GroupText`, `RoundTrip`, `SafeIffFaithful`, `HandleRequest`

## What turned out not to hold

- The index and the clients' topic lists are not the same relation. Subscribing to `"all_"` puts the session on five
  lists without naming them, and unsubscribing from `"all_"` takes it off none of them
  (`session/session_manager.cpp:75-82`, `session/session_manager.cpp:96-109`). `AddTopicsExact` and
  `UnsubscribeUndoesSubscribe` give the exact conditions, `AllIsNotUndone` the failing case.
- `README.md:154-155` of the repository promises an `unsubscribe` action and `README.md:186-188` a subscription to
  `"all_"`. No code calls `remove_client_topics`, and a message that says "unsubscribe" contains "subscribe", so it
  subscribes (`server/server.cpp:661-665`). The text handler never asks for `"all_"` itself; "all" stands for twelve
  named topics (`server/server.cpp:531-546`). The model follows the code: `UnsubscribeSubscribes`, `NeverAsked`,
  `OnText`.
- Only `.` is escaped by the route compiler. A route behaves as its pattern says, on every path and with every regular
  expression library, if and only if no other special character appears outside a parameter (`SafeIffFaithful`); the
  emitted text then reads back as the pattern, and otherwise it does not (`ReadsBackIffSafe`). For texts made of
  characters, negated classes of one character, groups around one of these, and the quantifiers `*`, `+` and `?`, this
  holds with each single library.
  `UnsafePatternMisread` and `QuantifierMisread` are concrete cases.
- Overlapping decrements of a gauge can wrap it around (`OverlappingDecrementsUnderflow`). A run can never be completed
  into an underflow if and only if every passing check finds more depth than subtractions under way, and every store
  leaves at least that many (`GuardedIffNeverUnderflows`).
- What is published of an average or a percentile is the mean of the observed values exactly when the category is in
  every snapshot, or the values sum to zero (`LatencyPartIsMean`, `MissingCategoryHalves`). The collector puts every
  category into every snapshot (`metrics/metrics_collector.cpp:385-395`), so in the running server it always is the
  mean (`CollectedGiveMeans`); the failure needs another caller of `addSnapshot`.
- Of two rates that share an initialization flag, the second starts from the extrema that the last reset left behind,
  or from 0. Its running minimum is the true one exactly when nothing smaller was left (`FollowingRateMin`,
  `FollowingRateMinFails`). No summary shows it.
- A week is skipped when no check falls into it, and lost when the check that opens the next one finds the database
  disconnected, or when the insertion of its summary fails: the source has already advanced, and only logs the failure
  (`metrics/weekly_rollup.cpp:50`, `metrics/weekly_rollup.cpp:188-189`). Every week from the first to the latest gets
  its summary if and only if no check jumps past the week after the latest one seen, and every check that opens a new
  week finds the database connected, with rows of the week that ended, and accepting the insertion
  (`SummarizedIffRegularAndStored`; `LongGapSkipsAWeek`, `DisconnectionLosesAWeek`, `FailedInsertionLosesAWeek`).
- After a failed write `writing_` stays set, so the session accepts messages for good and never writes again
  (`NothingAfterFailure`, `FailureStrandsMessages`). When nothing is running, everything was written if and only if no
  write of the run failed (`QuiescentIffDelivered`).

One more condition is of no consequence today: registering a session twice would break the index invariant exactly when
the session is on a list other than those five (`WithClientInvIff`), but only the constructor calls `add_client`
(`server/server.cpp:435`).

## Model

| member | source | states |
|---|---|---|
| `Delivery.DeliveredInOrder` | session/session_manager.cpp:112-151 | in every run and for every live session: completed writes, then the write queue, then the closures on the strand are exactly the messages meant for it, in order, each once; the socket sees a prefix, one write at a time |
| `Delivery.SessionsRunAlone` | server/server.cpp:446-468 | every run of the system projects to a run of each session's own pump, with one post for each message meant for the session |
| `Delivery.IndexFollowsHistory` | session/session_manager.cpp:63-110 | in every run a session is registered exactly while it lives and is on a list exactly when it subscribed, by name or through "all_", and has not unsubscribed from that name since |
| `Delivery.IndexInvariant` | session/session_manager.cpp:6-110 | the index invariant holds in every run, and pumps exist exactly for registered sessions |
| `Delivery.ListedInOrder` | session/session_manager.cpp:75-88 | in every run each subscriber list, and with it the order of a broadcast, is the order in which the sessions subscribed |
| `Delivery.PumpStep` | session/session_manager.cpp:112-151 | what each step does to each session's pump: a broadcast posts once to each subscriber and to nobody else |
| `Delivery.DestroyedIffDelivered` | server/server.cpp:438-444 | a session that can be destroyed has written everything it was sent, if and only if none of its writes failed since it connected |
| `Delivery.DestroyedIsUnlisted` | server/server.cpp:438-444 | after a destruction the session is registered nowhere and on no list |
| `Delivery.EventuallyDelivered` | server/server.cpp:455-468 | from every run, as long as no write fails, the session's own turns and completions lead to a state in which it has written everything it was sent |
| `Subscriptions.SessionManager.AddClient` | session/session_manager.cpp:6-12 | registers a session with no topics; for a new session the invariant is kept, for a registered one exactly when it is on no list but the five of "all_" |
| `Subscriptions.SessionManager.RemoveClient` | session/session_manager.cpp:14-39 | computes the removal function, keeps the invariant, and leaves the session on no list at all |
| `Subscriptions.SessionManager.AddClientTopics` | session/session_manager.cpp:63-89 | computes the merge function and keeps the invariant; nothing happens for an unregistered session |
| `Subscriptions.SessionManager.RemoveClientTopics` | session/session_manager.cpp:91-110 | computes the removal of topics and keeps the invariant |
| `Subscriptions.SessionManager.BroadcastToTopic` | session/session_manager.cpp:112-133 | posts to the sessions on the list, in order, each once |
| `Subscriptions.SessionManager.BroadcastAll` | session/session_manager.cpp:144-151 | posts once to each registered session and to nobody else |
| `Subscriptions.SessionManager.GetSubscribers` | session/session_manager.cpp:135-142 | returns the list, or an empty one for an unknown topic |
| `Subscriptions.AddTopicsEffect` | session/session_manager.cpp:69-88 | subscribing appends the session once to exactly the requested lists and changes no other |
| `Subscriptions.RemoveTopicsEffect` | session/session_manager.cpp:96-109 | unsubscribing takes the session out of exactly the named lists and changes no other |
| `Subscriptions.SubscribesAtTheEnd` | session/session_manager.cpp:83-88 | asking for one topic puts a session that was not listed at the end of that list and changes no other |
| `Subscriptions.AllReachesFive` | session/session_manager.cpp:75-82 | asking for "all_" does that for "price_", "bid_", "ask_", "quantity_" and "time_", and for no other topic |
| `Subscriptions.AddTopicsInv` | session/session_manager.cpp:63-89 | subscribing keeps the invariant |
| `Subscriptions.RemoveTopicsInv` | session/session_manager.cpp:91-110 | unsubscribing keeps the invariant |
| `Subscriptions.WithoutClientInv` | session/session_manager.cpp:14-39 | removing keeps the invariant, and the session is on no list afterwards |
| `Subscriptions.WithClientInvIff` | session/session_manager.cpp:6-12 | registering keeps the invariant exactly when the session is on no list but the five of "all_" |
| `Subscriptions.AddTopicsExact` | session/session_manager.cpp:75-88 | subscribing keeps the two views equal if and only if "all_" is not among the topics |
| `Subscriptions.OthersExact` | session/session_manager.cpp:6-39 | every other operation keeps the two views equal |
| `Subscriptions.UnsubscribeUndoesSubscribe` | session/session_manager.cpp:63-110 | for every session: unsubscribing right after subscribing restores every list if and only if the session was on none of the named lists, and "all_" was not used or left nothing behind |
| `Subscriptions.AllIsNotUndone` | session/session_manager.cpp:91-110 | unsubscribing from "all_" leaves the session on all five lists |
| `TopicRequests.ExtractTopics` | server/server.cpp:498-547 | the topics whose word the message contains, in the order of the tests, followed by all twelve for "all", repetitions included |
| `TopicRequests.TwelveTopics` | server/server.cpp:502-546 | the twelve topics a message can ask for, each by its own word or by "all" |
| `TopicRequests.ContainsIffSplit` | server/server.cpp:503-530 | the test of a word succeeds exactly when the message is some text, the word and some text |
| `TopicRequests.OnText` | server/server.cpp:661-665 | the sender joins exactly the lists it asks for and nobody leaves any, whatever the text says; the two views stay equal |
| `TopicRequests.NeverAsked` | server/server.cpp:498-547 | no message asks for "all_", "quantity_" or "time_" |
| `TopicRequests.UnsubscribeSubscribes` | server/server.cpp:661-665 | a message that says "unsubscribe" passes the test for "subscribe" |
| `WritePumps.Conservation` | server/server.cpp:446-468 | in every run: completed, queued and pending messages are the posted ones in order; what reaches the wire is a prefix of them, and at most one write is outstanding (section 5.4 of RFC 6455) |
| `WritePumps.StepKeepsInv` | server/server.cpp:446-468 | one outstanding write exactly while writing without failure, its buffer is the queue front, and the queue is non-empty exactly while `writing_`: kept by every step |
| `WritePumps.BufferStays` | server/server.cpp:463-467 | while a write is in flight, no step moves its buffer from the queue front or starts another write |
| `WritePumps.NothingAfterFailure` | server/server.cpp:675-678 | after a failed write no write ever starts or completes |
| `WritePumps.QuiescentIffDelivered` | server/server.cpp:455-468 | when nothing is running, everything posted was written if and only if no write of the run failed |
| `WritePumps.FailureStrandsMessages` | server/server.cpp:671-678 | a concrete run: after one failed write, a later message stays queued with nothing running |
| `WritePumps.WorkDecreases` | server/server.cpp:446-468 | without new messages every step leaves less work, and some step is possible until the pump is quiescent |
| `WritePumps.DrainDelivers` | server/server.cpp:671-682 | a pump whose writes succeed delivers everything it has accepted within a bounded number of steps |
| `WritePumps.WebsocketSession.SendMessage` | server/server.cpp:446-453 | posts one closure to the strand |
| `WritePumps.WebsocketSession.Complete` | server/server.cpp:464-467 | the completion of the write in flight puts its handler on the strand |
| `WritePumps.WebsocketSession.RunNext` | server/server.cpp:446-453 | the strand runs its first closure; the new state is the machine's, and the invariant holds |
| `QueueMonitors.MarkNeverDecreases` | metrics/queue_monitor.cpp:19-25 | the high-water mark never decreases in any run |
| `QueueMonitors.MarkInvariant` | metrics/queue_monitor.cpp:19-40 | the mark is 0 or a published depth, and every published depth is covered by the mark or still carried by some thread |
| `QueueMonitors.QuiescentMarkIsMaximum` | metrics/queue_monitor.cpp:34-40 | with no update in progress the mark is the greatest depth ever published |
| `QueueMonitors.LoopTerminates` | metrics/queue_monitor.cpp:22-24 | under any interference a thread makes at most `prev - max + 1` exchanges, spurious failures aside |
| `QueueMonitors.TrueFailureRaises` | metrics/queue_monitor.cpp:22-24 | a failure that was not spurious raises the local maximum or ends the loop |
| `QueueMonitors.SuccessThenOneFailure` | metrics/queue_monitor.cpp:37-39 | after a success the thread's next exchange fails, changes nothing and leaves the loop, whatever the others do |
| `QueueMonitors.GuardedIffNeverUnderflows` | metrics/queue_monitor.cpp:27-40 | no point of a run can be completed by its pending subtractions into an underflow if and only if every passing check finds more depth than subtractions under way and every store leaves as many |
| `QueueMonitors.RoomStep` | metrics/queue_monitor.cpp:27-32 | one step leaves room for the pending subtractions exactly when it is guarded, and then no subtraction finds an empty gauge |
| `QueueMonitors.CompletionUnderflows` | metrics/queue_monitor.cpp:27-32 | without room the pending subtractions alone reach an underflow |
| `QueueMonitors.UndisturbedNeverUnderflows` | metrics/queue_monitor.cpp:27-32 | corollary: decrements that do not overlap each other or a store never underflow |
| `QueueMonitors.OverlappingDecrementsUnderflow` | metrics/queue_monitor.cpp:27-32 | two overlapping decrements of a gauge at 1 wrap it around |
| `QueueMonitors.Gauge.RaiseMax` | metrics/queue_monitor.cpp:21-24 | the loop ends under any interference and finitely many spurious failures, leaves the mark at least as high as the published depth, and extends the run of the machine |
| `QueueMonitors.Gauge.IncrementDepth` | metrics/queue_monitor.cpp:19-25 | the whole increment, with other threads between any two accesses: the mark covers the new depth, is a published depth, and is the greatest one once no update is in progress |
| `QueueMonitors.Gauge.SetDepth` | metrics/queue_monitor.cpp:34-40 | the whole store, with other threads between any two accesses, and the same about the mark |
| `QueueMonitors.Gauge.DecrementDepth` | metrics/queue_monitor.cpp:27-32 | the whole decrement, with other threads between the check and the subtraction; nothing wraps around while the run is guarded |
| `LatencyTracking.LatencyWindow.Record` | metrics/latency_tracker.cpp:43-55 | appends one latency to the history that the window represents |
| `LatencyTracking.LatencyWindow.Stats` | metrics/latency_tracker.cpp:58-101 | the statistics are those of the last min(n, W) recorded latencies: their count, mean, least and greatest value, and interpolated 50th, 95th and 99th percentiles, zeros for none |
| `LatencyTracking.StatsAreStats` | metrics/latency_tracker.cpp:78-100 | the count, mean, extrema and percentiles of a window, and for samples that are equally spaced in any order the percentile at rank p is the point p hundredths of the way from the least to the greatest |
| `LatencyTracking.InterpolatedIsWeighted` | metrics/latency_tracker.cpp:87-97 | a percentile is the weighted mean of its two neighbouring samples, by the distances to their ranks |
| `LatencyTracking.PercentileOfProgression` | metrics/latency_tracker.cpp:87-97 | on equally spaced samples every percentile is linear in its rank |
| `LatencyTracking.FamiliarRanks` | metrics/latency_tracker.cpp:99-100 | the samples 0 to 100 have percentiles 50, 95 and 99; 10 and 20 have the median 15; no sample gives zeros |
| `LatencyTracking.HeadIsTotalModulo` | metrics/latency_tracker.cpp:47-48 | head equals total_count modulo the window size |
| `LatencyTracking.StatsOrdered` | metrics/latency_tracker.cpp:78-100 | min <= p50 <= p95 <= p99 <= max and min <= average <= max for every window |
| `LatencyTracking.StatsDependOnMultiset` | metrics/latency_tracker.cpp:78-100 | the statistics depend only on the multiset of samples |
| `LatencyTracking.IndicesInBounds` | metrics/latency_tracker.cpp:89-91 | both interpolation indices are inside a non-empty window |
| `LatencyTracking.PercentileMonotone` | metrics/latency_tracker.cpp:87-97 | percentiles grow with the rank |
| `LatencyTracking.LatencyTracker.constructor` | metrics/latency_tracker.cpp:5-17 | every category has an empty window of its own |
| `LatencyTracking.LatencyTracker.EndLatencyMeasurement` | metrics/latency_tracker.cpp:31-56 | records in one category and leaves the others alone |
| `LatencyTracking.LatencyTracker.GetLatencyStats` | metrics/latency_tracker.cpp:103-106 | the statistics, as for one window, of the category's last min(n, W) latencies |
| `LatencyTracking.LatencyTracker.GetAllLatencyStats` | metrics/latency_tracker.cpp:108-117 | every category is present, each with its statistics, which are ordered |
| `LatencyTracking.LatencyTracker.Clear` | metrics/latency_tracker.cpp:119-130 | clears one category and leaves the others alone |
| `RingBuffers.RingBuffer.Push` | metrics/ring_buffer.h:15-22 | appends one item to the history that the buffer represents |
| `RingBuffers.RingBuffer.Clear` | metrics/ring_buffer.h:38-42 | the history becomes empty |
| `RingBuffers.RingBuffer.ForEach` | metrics/ring_buffer.h:44-52 | visits exactly the last min(n, Capacity) items pushed since the last clear, oldest first |
| `RingBuffers.RingBuffer.Latest` | metrics/ring_buffer.h:54-58 | the last item pushed since the last clear, or a value-initialized one |
| `MetricAggregation.Summarize` | metrics/metric_aggregator.cpp:223-366 | adding any sequence of snapshots one at a time and summarizing gives the batch summary, each member of which is the statistic of its column that it should be |
| `MetricAggregation.SummarizeAfterReset` | metrics/metric_aggregator.cpp:368-422 | after any history a reset aggregator summarizes like a new one, although it holds the old extrema of the rates |
| `MetricAggregation.AddTracks` | metrics/metric_aggregator.cpp:6-221 | one snapshot keeps every running value the fold of its column |
| `MetricAggregation.SummaryIsBatch` | metrics/metric_aggregator.cpp:223-366 | the running values determine the batch summary: means, extrema, latest totals, strict majorities and the plurality |
| `MetricAggregation.FollowingRateMin` | metrics/metric_aggregator.cpp:37-55 | the running extremum of the second of two rates with one flag is the true one exactly when the last reset left nothing beyond it |
| `MetricAggregation.FollowingRateMinFails` | metrics/metric_aggregator.cpp:37-44 | a concrete failing input: one snapshot with 5 messages sent per second leaves a minimum of 0 |
| `MetricAggregation.ResetIsNotFresh` | metrics/metric_aggregator.cpp:368-392 | the state after a reset differs from a new one whenever the least rate seen was not 0 |
| `MetricAggregation.MetricAggregator.AddSnapshot` | metrics/metric_aggregator.cpp:6-221 | every running sum, minimum, maximum, count and latest value stays the fold of its column over the snapshots since the last reset, up to the stale extrema of the rates |
| `MetricAggregation.MetricAggregator.ProduceSummary` | metrics/metric_aggregator.cpp:223-366 | the summary equals the batch summary of those snapshots, a blank one for none; each member is the mean, floored mean, extremum, majority, plurality or last value of its column |
| `MetricAggregation.MetricAggregator.Reset` | metrics/metric_aggregator.cpp:368-422 | leaves an aggregator that has seen nothing, whatever its state was, while the extrema of the rates stay as they were |
| `BatchSummaries.Plurality` | metrics/metric_aggregator.cpp:304-309 | the most frequent status; of several, the healthiest |
| `BatchSummaries.BatchSummaryIsSummary` | metrics/metric_aggregator.cpp:223-366 | what each member of a summary is: reals and gauges times the number of snapshots are their sums, unsigned members round that mean down, extrema are attained bounds, flags are true where true is more frequent, totals are the last ones, and categories and exchanges are those that occur |
| `BatchSummaries.SteadySummary` | metrics/metric_aggregator.cpp:223-366 | an interval in which nothing changes is summarized by its snapshot, every member by itself |
| `BatchSummaries.TiesGoToTheHealthier` | metrics/metric_aggregator.cpp:304-309 | of two equally frequent states the healthier one is published, in either order |
| `BatchSummaries.PluralityUnique` | metrics/metric_aggregator.cpp:304-309 | the characterization has no other solution |
| `BatchSummaries.LatencyPartIsMean` | metrics/metric_aggregator.cpp:229-239 | exactly when a published average or percentile is the mean of the observed ones |
| `BatchSummaries.LatencyCountIsMean` | metrics/metric_aggregator.cpp:229-239 | exactly when the published count is the floored mean of the observed ones |
| `BatchSummaries.CollectLatency` | metrics/metrics_collector.cpp:383-395 | a collected snapshot holds ordered statistics for every category |
| `BatchSummaries.CollectedGiveMeans` | metrics/metric_aggregator.cpp:229-239 | collected snapshots are summarized by means, and the order of the statistics is kept |
| `BatchSummaries.MissingCategoryHalves` | metrics/metric_aggregator.cpp:229-239 | a concrete failing input: an average of 1 is published as 0.5 |
| `BatchSummaries.SummaryKeepsOrder` | metrics/metric_aggregator.cpp:229-239 | summarizing keeps min <= p50 <= p95 <= p99 <= max and min <= average <= max |
| `StateManagement.StateManager.Run` | metrics/state_manager.cpp:35-80 | in every run the emitted summaries are the batch summaries of consecutive non-empty blocks that, with one unflushed remainder, are exactly the ticks; each tick starts at the later of start + k seconds and the end of the previous iteration, plus its delays |
| `StateManagement.StateManager.Tick` | metrics/state_manager.cpp:39-79 | a block is cut exactly when fifteen minutes have elapsed, and includes the current tick |
| `StateManagement.StateManager.Cut` | metrics/state_manager.cpp:60-73 | the flush emits the block's batch summary and touches neither the ring nor the live snapshot |
| `StateManagement.StateManager.RecentHistory` | metrics/state_manager.cpp:50-51 | the ring holds the last 900 ticks, across flushes |
| `StateManagement.StateManager.GetLiveSnapshot` | metrics/state_manager.cpp:25-28 | the last tick's snapshot, a blank one before the first |
| `StateManagement.TickRate` | metrics/state_manager.cpp:76-79 | at most floor(T) + 1 ticks start within T seconds |
| `StateManagement.NeverEarly` | metrics/state_manager.cpp:76-79 | tick k never starts before start + k seconds |
| `StateManagement.OnTime` | metrics/state_manager.cpp:76-79 | when each earlier iteration's work and the oversleep before it fit into one second, no delay accumulates: tick k starts at start + k seconds plus the oversleep just before it and its own wake-up delay |
| `ThroughputTracking.RatesAccountForTotals` | metrics/throughput_tracker.cpp:84-142 | rate times clamped elapsed time, summed over the polls since the last reset, is the last polled total, however increments interleave with the loads |
| `ThroughputTracking.EventsConserved` | metrics/throughput_tracker.cpp:36-82 | every event is in its counter still or was wiped by a reset |
| `ThroughputTracking.ReportedPlusPending` | metrics/throughput_tracker.cpp:84-142 | without a reset, what was reported plus what is pending is every event so far |
| `ThroughputTracking.RatesNeverWrap` | metrics/throughput_tracker.cpp:112-126 | the unsigned subtraction never wraps, so no rate is negative |
| `ThroughputTracking.SecondsOf` | metrics/throughput_tracker.cpp:86-92 | a second is 10^9 nanoseconds, and only a time that did not advance by one nanosecond is clamped, to one nanosecond |
| `ThroughputTracking.RatePerSecond` | metrics/throughput_tracker.cpp:86-126 | in every run the rate of a poll a whole number of seconds after the last one, times that number, is the gain |
| `ThroughputTracking.ThroughputTracker.GetAndUpdateStats` | metrics/throughput_tracker.cpp:84-172 | each rate times the clamped elapsed time is the counter's gain since the last poll, and after exactly one second the gain itself, with other threads before every load |
| `ThroughputTracking.ThroughputTracker.OnMessageReceived` | metrics/throughput_tracker.cpp:36-44 | one, two or three increments |
| `ThroughputTracking.ThroughputTracker.Reset` | metrics/throughput_tracker.cpp:174-204 | clears the counters one by one under interference; nothing is reported afterwards and no event is lost uncounted |
| `WeeklyRollups.CurrentWeekStartCorrect` | metrics/weekly_rollup.cpp:36-41 | the computed start is the Monday 00:00 UTC of the current week |
| `WeeklyRollups.WeekStartIsMonday` | metrics/weekly_rollup.cpp:36-41 | a week start is a Monday at 00:00 with start <= t < start + 7 days |
| `WeeklyRollups.FirstWeekOf2024` | metrics/weekly_rollup.cpp:36-41 | the week that starts at 1704067200, Monday 1 January 2024, holds exactly the 604800 seconds from there |
| `WeeklyRollups.WindowsDisjointIncreasing` | metrics/weekly_rollup.cpp:43-64 | in every run, also when the clock steps back, windows are aligned weeks, pairwise disjoint and increasing |
| `WeeklyRollups.AttemptsOfRun` | metrics/weekly_rollup.cpp:30-191 | in every run the attempts are those of the checks that open a new week: each such check leaves one, with a summary exactly when it is connected, has rows measured in the seven days before and the insertion succeeds; the summary counts exactly these rows, and its members are their means, truncated means and last values |
| `WeeklyRollups.TableCutDown` | metrics/weekly_rollup.cpp:59-84 | a stored summary depends on the rows of its window only: cutting the rest of the table away changes nothing |
| `WeeklyRollups.SummaryIsWeekly` | metrics/weekly_rollup.cpp:78-170 | what each member of a summary is in terms of the rows: count, week start in milliseconds, mean, truncated mean, and last present value |
| `WeeklyRollups.InWindowConcat` | metrics/weekly_rollup.cpp:66-70 | the rows of a window of a table in two parts are those of the first part followed by those of the second |
| `WeeklyRollups.InWindowRows` | metrics/weekly_rollup.cpp:66-70 | a row is in the window exactly when it is in the table and start <= measured_at < end |
| `WeeklyRollups.ContiguousIffNoSkip` | metrics/weekly_rollup.cpp:193-204 | every week from the first to the latest gets its turn if and only if no check skips a week |
| `WeeklyRollups.SummarizedIffRegularAndStored` | metrics/weekly_rollup.cpp:49-191 | every week from the first to the latest gets its summary if and only if no check skips a week and every check that opens a new week finds the database connected, with rows of the week that ended, and accepting the insertion |
| `WeeklyRollups.ProcessedIffRegularAndConnected` | metrics/weekly_rollup.cpp:49-57 | every week from the first to the latest gets past the connection test if and only if no check skips a week and every check that opens a new week finds the database connected |
| `WeeklyRollups.FailedInsertionLosesAWeek` | metrics/weekly_rollup.cpp:172-190 | a concrete failing run: connected, with a row in the window, and without a summary |
| `WeeklyRollups.DisconnectionLosesAWeek` | metrics/weekly_rollup.cpp:49-57 | a concrete failing run without a skip |
| `WeeklyRollups.NoRowSummarizedTwice` | metrics/weekly_rollup.cpp:59-70 | no stored row is in the windows of two weekly summaries |
| `WeeklyRollups.RetentionSparesWindows` | metrics/weekly_rollup.cpp:178-183 | the retention delete spares every row of the window just summarized and of all later ones, unless the clock jumps ahead by more than 76 days within the pass |
| `WeeklyRollups.RegularChecksSkipNothing` | metrics/weekly_rollup.cpp:193-204 | non-decreasing checks no more than seven days apart skip nothing |
| `WeeklyRollups.LongGapSkipsAWeek` | metrics/weekly_rollup.cpp:193-204 | a gap of fifteen days loses a week for good |
| `WeeklyRollups.AvgDouble` | metrics/weekly_rollup.cpp:87-95 | times the number of rows that hold the member it is their total; nothing when none does |
| `WeeklyRollups.AvgInt64` | metrics/weekly_rollup.cpp:98-106 | the same in integers, rounded toward zero |
| `WeeklyRollups.LatestInt64` | metrics/weekly_rollup.cpp:109-116 | the value of the last row that holds the member; nothing when none does |
| `WeeklyRollups.SummarizeRows` | metrics/weekly_rollup.cpp:78-170 | the summary of the rows of a window, each member as the statistic of the rows that it should be |
| `WeeklyRollups.WeeklyRollup.IsNewWeek` | metrics/weekly_rollup.cpp:30-54 | true exactly when a later week than the stored one has begun; the first call only stores |
| `WeeklyRollups.WeeklyRollup.ProcessWeek` | metrics/weekly_rollup.cpp:56-191 | the window is the seven days before the stored week start; with a connection, rows in the window and a successful insertion, the means and last values of exactly these rows are stored and the rows older than 90 days are deleted |
| `WeeklyRollups.WeeklyRollup.Run` | metrics/weekly_rollup.cpp:193-205 | the check loop makes exactly the attempts of the specification |
| `Routing.CompiledLanguage` | api/router/router.cpp:17-49 | for every safe pattern and every path, the compiled text, read character by character, matches, with given captures, exactly when the path matches segment by segment with these captures |
| `Routing.GroupText` | api/router/router.cpp:30 | the emitted group matches, and captures, exactly the strings that are not empty and have no slash |
| `Routing.StarGroupText` | api/router/router.cpp:30 | with a star for the plus it would match the empty string as well |
| `Routing.RepeatDenotes` | api/router/router.cpp:34-42 | what a character with `*`, `+` or `?` matches in an expression |
| `Routing.CompiledTexts` | api/router/router.cpp:17-49 | the compiled texts of ":id", "/api/v1/clients/:id" and "a.b", spelled out |
| `Routing.CompilesTo` | api/router/router.cpp:17-49 | the compiled text of any word followed by a parameter |
| `Routing.ClientById` | server/server.cpp:121 | the registered route for one client answers, with every library, exactly "/api/v1/clients/" followed by a non-empty value without a slash, and captures that value |
| `Routing.PrefixThenParam` | api/router/router.cpp:23-31 | the same for every word followed by a parameter, segment by segment |
| `Routing.SafeCharacters` | api/router/router.cpp:34-42 | the thirteen characters that make a pattern unsafe |
| `Routing.SafeIffFaithful` | api/router/router.cpp:34-42 | for every pattern: the route behaves as its pattern says, on every path and with every library, if and only if the pattern is safe; with each single library when the text uses only the modelled constructs |
| `Routing.UnsafeIsUnfaithful` | api/router/router.cpp:34-42 | for every unsafe pattern, a library that supports just the modelled constructs makes the route misbehave |
| `Routing.FaithfulIffSafe` | api/router/router.cpp:34-42 | remark: with one library, on the paths without special characters, the route behaves as its pattern says if and only if the pattern is safe or the route answers none of them |
| `Routing.ReadsBackIffSafe` | api/router/router.cpp:34-42 | the emitted text reads back as the pattern if and only if the pattern is safe |
| `Routing.UnsafeNeedsSpecial` | api/router/router.cpp:34-42 | a path that matches an unsafe pattern segment by segment contains a special character |
| `Routing.ReadableAnswersOrdinary` | api/router/router.cpp:34-42 | every such text answers some path without special characters |
| `Routing.QuantifierMisread` | api/router/router.cpp:34-42 | a character followed by a plus sign is compiled to a repetition: the route answers "aa" and not its own text |
| `Routing.UnsafePatternMisread` | api/router/router.cpp:34-42 | a pattern that spells out the parameter group is compiled to the same text as a parameter |
| `Routing.LanguageIsSegments` | api/router/router.cpp:23-46 | the atoms of a pattern match a path in at most one way, which is the segment-wise one |
| `Routing.SearchIsSegments` | api/router/router.cpp:69-70 | the backtracking search of ECMA-262 returns exactly the segment-wise match |
| `Routing.RoundTrip` | api/router/router.cpp:17-49 | filling a pattern with non-empty slash-free arguments gives a path that matches with exactly these captures, and every matched path refills to itself |
| `Routing.DifferentSlashesNeverBoth` | api/router/router.cpp:17-49 | patterns with different numbers of slashes never match one path |
| `Routing.PathToRegex` | api/router/router.cpp:17-49 | the loop appends exactly the specified text, which `CompiledTexts` spells out and `CompiledLanguage` gives its meaning |
| `Routing.Router.AddRoute` | api/router/router.cpp:7-15 | appends the route with the compiled text of its pattern; fails exactly when the library rejects the text, which never happens for a safe pattern |
| `Routing.Router.HandleRequest` | api/router/router.cpp:51-74 | strips the query string and runs the first registered route for the method whose expression matches, with its captures; none when no route does; safe patterns match segment by segment |

## Left out

- `set_client_mode`, `get_clients_by_mode` and the `mode` and `backtest_date` fields: one-line field updates.
- JSON handling, adapter sessions and mode commands of `on_read` (`server/server.cpp:566-659`): they call the broadcasts
  that are modelled.
- Object lifetime during destruction: a session is destroyed in one step, when no closure or handler is left. Raw
  pointers and `shared_from_this` are not modelled, and a session is identified by its address.
- Delivery: the composed system is a state machine on values; the classes `SessionManager` and `WebsocketSession` are
  tied to the same functions one by one, without a heap that holds both.
- Subscriptions.SessionManager.BroadcastToTopic: returns the sessions in posting order instead of calling them, and
  leaves out the log lines for ticker and price topics.
- WritePumps.OnWrite: `pop` of an empty queue, undefined in the source, is excluded by the invariant.
- `QueueMonitor::reset`, overflow and backpressure flags and the time fields: single stores. The statements about the
  high-water mark are about runs without a reset.
- QueueMonitors: the source repeats the code for three queues; the model is one of them. Relaxed memory order is
  interleaving of atomic steps, without stale reads, and the gauges do not reach 64 bits.
- ThroughputTracking: counters do not reach 64 bits; thirteen named counters are one vector with index constants, and
  the thirteen lines that load, subtract or clear them are a loop over it.
- Rounding of floating-point numbers, and overflow of 64-bit sums in the aggregator and the weekly averages.
- Snapshots: the members of a snapshot are grouped into vectors by how the aggregator treats them, with one index
  constant for each member.
- LatencyTracking.LatencyTracker.EndLatencyMeasurement: excludes a window size of 0, for which the source takes a
  remainder by zero; the latency is a parameter instead of a difference of clock values.
- StateManagement.StateManager.Run: the collector's snapshot, the delays and the presence of a callback are parameters;
  starting and stopping the thread are left out.
- WeeklyRollups.CurrentWeekStart: `gmtime_r` and `timegm` are the day arithmetic of POSIX.1-2017, with the first day of
  the month standing for year and month.
- WeeklyRollups.WeeklyRollup.ProcessWeek: the table holds the rows of this instance only, in the order in which the
  query returns them, and is a parameter of the pass, as is the success of the insertion. The table is
  not changed by the retention delete, which is recorded as the time before which rows go, and the history of the
  exchanges is left out. The members of a row are vectors.
- Routing.Library: what the regular expression library does with texts outside characters, `\.`, classes of everything
  but one character, a group around one of these, and the quantifiers `*`, `+`, `?` on one of these (alternatives, other
  classes, nested or quantified groups, lazy quantifiers) is an arbitrary parameter, including whether it accepts them.
- Routing.Router.HandleRequest: handlers are represented by the index of their route, and the response is left out.
- `ExchangeMonitor`: `getAllStats` takes a mutex that it already holds (`metrics/exchange_monitor.cpp:108-115`).
- Database layer, exchange clients, TLS, HTTP sessions, dashboard, logging, `snapshot_converter`, and the session,
  network, database, system and feed-health counters: I/O, SQL, or single-field updates.
