/** The records shared by the statistics tracker, the breaker-protected
    repository and the input validation. */
module Models {
  import opened Wrappers

  /** The parameters of one FizzBuzz request. */
  datatype FizzBuzzInput = FizzBuzzInput(int1: int, int2: int, limit: int, str1: string, str2: string)

  /** A tracked parameter combination and how often it was requested. The
      database-only fields of the Go record (row id, parameter hash, creation
      and update times) are not part of the model. */
  datatype Entry = Entry(parameters: FizzBuzzInput, hits: int)

  /** The aggregate statistics summary of the store. Go's float64 average is
      carried as a `real`; the first and last request times are optional
      timestamps. */
  datatype StatsSummary = StatsSummary(
    totalUniqueRequests: int,
    totalRequests: int,
    avgHitsPerUniqueRequest: real,
    maxHits: int,
    firstRequestTime: Option<int>,
    lastRequestTime: Option<int>)

  /** Connection pool statistics of the store. */
  datatype PoolStats = PoolStats(
    totalConnections: int,
    idleConnections: int,
    activeConnections: int,
    constructingConnections: int,
    maxConnections: int,
    acquireCount: int,
    averageAcquireDurationMs: real,
    status: string,
    collectedAt: int)
}
