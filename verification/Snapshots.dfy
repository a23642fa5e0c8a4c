/**
 One metrics snapshot: metrics/metrics_collector.h:20-137. The scalar members are grouped by how the
 aggregator treats them; each group is a vector indexed by the constants below, so that a statement about
 every member of a group is one quantifier over its indices.
 */
module Snapshots {
  import opened LatencyTracking

  const U32 := 0x1_0000_0000

  // Floating-point members, averaged over an interval.

  const MESSAGES_RECEIVED_PER_SEC := 0
  const MESSAGES_SENT_PER_SEC := 1
  const BYTES_RECEIVED_PER_SEC := 2
  const BYTES_SENT_PER_SEC := 3
  const PACKETS_RECEIVED_PER_SEC := 4
  const PACKETS_SENT_PER_SEC := 5
  const TICKS_PER_SEC := 6
  const TRADES_PER_SEC := 7
  const ORDERBOOK_UPDATES_PER_SEC := 8
  const SUBSCRIPTIONS_PER_SEC := 9
  const BROADCASTS_PER_SEC := 10
  const DATABASE_WRITES_PER_SEC := 11
  const DATABASE_READS_PER_SEC := 12
  const RATES := 13
  const CPU_USAGE_PERCENT := 13
  const MEMORY_GROWTH_RATE := 14
  const UPTIME_SECONDS := 15
  const QUEUE_WAIT_TIME_MS := 16
  const QUEUE_PROCESSING_TIME_MS := 17
  const AVERAGE_SESSION_DURATION_MS := 18
  const LONGEST_SESSION_DURATION_MS := 19
  const SOCKET_RTT_MS := 20
  const NETWORK_BANDWIDTH_BPS := 21
  const INSERT_LATENCY_MS := 22
  const QUERY_LATENCY_MS := 23
  const WRITES_PER_SEC := 24
  const READS_PER_SEC := 25
  const REAL_FIELDS := 26

  // Unsigned gauges, averaged with integer division.

  const MEMORY_RSS := 0
  const PEAK_RSS := 1
  const VIRTUAL_MEMORY := 2
  const HEAP_USAGE := 3
  const THREAD_COUNT := 4
  const INCOMING_QUEUE_DEPTH := 5
  const OUTGOING_QUEUE_DEPTH := 6
  const SERIALIZATION_QUEUE_DEPTH := 7
  const MAX_INCOMING_QUEUE_DEPTH := 8
  const MAX_OUTGOING_QUEUE_DEPTH := 9
  const MAX_SERIALIZATION_QUEUE_DEPTH := 10
  const QUEUE_OVERFLOW_COUNT := 11
  const ACTIVE_CLIENTS := 12
  const ACTIVE_SESSIONS := 13
  const ACTIVE_SUBSCRIPTIONS := 14
  const ACTIVE_DB_CONNECTIONS := 15
  const DB_QUEUE_WAITING := 16
  const FEED_HEALTH_SCORE := 17
  const NAT_FIELDS := 18

  // Cumulative counters, of which a summary keeps the latest value.

  const TOTAL_MESSAGES_RECEIVED := 0
  const TOTAL_MESSAGES_SENT := 1
  const TOTAL_BYTES_RECEIVED := 2
  const TOTAL_BYTES_SENT := 3
  const TOTAL_PACKETS_RECEIVED := 4
  const TOTAL_PACKETS_SENT := 5
  const TOTAL_TICKS := 6
  const TOTAL_TRADES := 7
  const TOTAL_ORDERBOOK_UPDATES := 8
  const TOTAL_SUBSCRIPTIONS := 9
  const TOTAL_BROADCASTS := 10
  const TOTAL_DATABASE_WRITES := 11
  const TOTAL_DATABASE_READS := 12
  const PACKET_DROPS := 13
  const DUPLICATE_PACKETS := 14
  const OUT_OF_ORDER_PACKETS := 15
  const SEQUENCE_GAPS := 16
  const MISSING_TICKS := 17
  const INVALID_MESSAGES := 18
  const CORRUPTED_PACKETS := 19
  const PARSE_FAILURES := 20
  const TOTAL_CONNECTIONS := 21
  const TOTAL_DISCONNECTIONS := 22
  const RECONNECT_COUNT := 23
  const AUTHENTICATION_FAILURES := 24
  const TCP_RECONNECTS := 25
  const SOCKET_ERRORS := 26
  const READ_ERRORS := 27
  const WRITE_ERRORS := 28
  const TLS_HANDSHAKE_FAILURES := 29
  const BYTES_TRANSMITTED := 30
  const NETWORK_BYTES_RECEIVED := 31
  const CONNECTION_FAILURES := 32
  const SUCCESSFUL_WRITES := 33
  const FAILED_WRITES := 34
  const DB_CONNECTION_FAILURES := 35
  const TRANSACTION_COUNT := 36
  const TOTAL_FIELDS := 37

  // Per-exchange gauges and counters.

  const EXCHANGE_UPTIME_SECONDS := 0
  const FEED_LAG_MS := 1
  const EXCHANGE_LATENCY_MS := 2
  const EXCHANGE_GAUGES := 3

  const EXCHANGE_RECONNECT_COUNT := 0
  const HEARTBEAT_FAILURES := 1
  const WEBSOCKET_DISCONNECTS := 2
  const MESSAGES_RECEIVED := 3
  const MESSAGES_DROPPED := 4
  const PARSE_ERRORS := 5
  const EXCHANGE_COUNTERS := 6

  datatype HealthStatus = Healthy | Degraded | Critical {
    function Severity(): nat {
      match this
      case Healthy => 0
      case Degraded => 1
      case Critical => 2
    }
  }

  type Reals = v: seq<real> | |v| == REAL_FIELDS witness seq(REAL_FIELDS, _ => 0.0)

  /** The two 32-bit members keep their width. */
  type Nats = v: seq<nat> | |v| == NAT_FIELDS && v[THREAD_COUNT] < U32 && v[FEED_HEALTH_SCORE] < U32
    witness seq(NAT_FIELDS, _ => 0)

  type Totals = v: seq<nat> | |v| == TOTAL_FIELDS witness seq(TOTAL_FIELDS, _ => 0)

  type Gauges = v: seq<real> | |v| == EXCHANGE_GAUGES witness seq(EXCHANGE_GAUGES, _ => 0.0)

  type Counters = v: seq<nat> | |v| == EXCHANGE_COUNTERS witness seq(EXCHANGE_COUNTERS, _ => 0)

  datatype ExchangeStats = ExchangeStats(connected: bool, stale: bool, gauges: Gauges, counters: Counters)

  datatype Snapshot = Snapshot(
    latency: map<Category, LatencyStats>,
    reals: Reals,
    nats: Nats,
    totals: Totals,
    backpressure: bool,
    staleFeed: bool,
    health: HealthStatus,
    exchanges: map<string, ExchangeStats>)

  /** A value-initialized snapshot. */
  function Blank(): Snapshot {
    Snapshot(map[], seq(REAL_FIELDS, _ => 0.0), seq(NAT_FIELDS, _ => 0), seq(TOTAL_FIELDS, _ => 0),
             false, false, Healthy, map[])
  }
}
