/** The statistics repository wrapped in a circuit breaker, with the small
    cache that answers reads while the store is unavailable.

    Every store operation goes through `CircuitBreaker.Call`. The wrapper
    installs two hooks on its breaker: the fallback answers the cached "most
    frequent" entry (and never fails), and the health probe asks the store.
    What the store and the probe answer at the moment of a call is passed in
    (`op` and `storeHealthy`). On the fallback sentinel, reads are answered from
    the cache or from fixed placeholders; the write (`Record`) is never faked. */
module BreakerRepository {
  import opened Wrappers
  import opened Models
  import CB = CircuitBreaker

  /** Cached data is served for five minutes after it was captured. */
  const CacheTTL: int := 5 * 60 * CB.Second

  datatype Cache = Cache(
    mostFrequent: Option<Entry>,
    lastRefresh: int,
    ttl: int,
    fallbackStats: StatsSummary,
    fallbackPoolStats: PoolStats)

  datatype Repo = Repo(breaker: CB.Breaker, cache: Cache)

  /** The answer of one repository operation together with the repository
      after it. */
  datatype Reply<+T, +E> = Reply(repo: Repo, result: Outcome<T, CB.BreakerError<E>>)

  /** The summary served while degraded: every count is zero. */
  function ZeroStats(): (s: StatsSummary)
    ensures s.totalUniqueRequests == 0 && s.totalRequests == 0 && s.maxHits == 0
    ensures s.avgHitsPerUniqueRequest == 0.0
    ensures s.firstRequestTime.None? && s.lastRequestTime.None?
  {
    StatsSummary(0, 0, 0.0, 0, None, None)
  }

  /** The pool summary served while degraded: no connections, status
      "unavailable". */
  function UnavailablePoolStats(collectedAt: int): (p: PoolStats)
    ensures p.status == "unavailable" && p.collectedAt == collectedAt
    ensures p.totalConnections == 0 && p.activeConnections == 0 && p.idleConnections == 0
    ensures p.constructingConnections == 0 && p.maxConnections == 0 && p.acquireCount == 0
    ensures p.averageAcquireDurationMs == 0.0
  {
    PoolStats(0, 0, 0, 0, 0, 0, 0.0, "unavailable", collectedAt)
  }

  /** A repository as constructed: a new breaker with the default
      configuration and an empty cache with the five-minute TTL and the
      placeholders. */
  function NewRepo(now: int): (r: Repo)
    ensures CB.Inv(r.breaker)
    ensures r.breaker.state == CB.Closed && r.breaker.failures == 0 && r.breaker.successes == 0
    ensures r.breaker.config == CB.DefaultConfig()
    ensures r.cache.mostFrequent.None? && r.cache.ttl == CacheTTL
    ensures r.cache.fallbackStats == ZeroStats()
    ensures r.cache.fallbackPoolStats.status == "unavailable"
    ensures r.cache.fallbackPoolStats == UnavailablePoolStats(now)
  {
    Repo(CB.NewBreaker(CB.DefaultConfig()),
         Cache(None, 0, CacheTTL, ZeroStats(), UnavailablePoolStats(now)))
  }

  // ----- cache layer -----------------------------------------------------------

  /** Stores `entry` (possibly none) as captured at `now`, and nothing else. */
  function UpdateMostFrequent(c: Cache, entry: Option<Entry>, now: int): (c': Cache)
    ensures c'.mostFrequent == entry && c'.lastRefresh == now
    ensures c'.ttl == c.ttl && c'.fallbackStats == c.fallbackStats
    ensures c'.fallbackPoolStats == c.fallbackPoolStats
  {
    c.(mostFrequent := entry, lastRefresh := now)
  }

  /** The cached entry while it is at most `ttl` old, none afterwards. An entry
      aged exactly `ttl` is still served. */
  function GetMostFrequentCached(c: Cache, now: int): (r: Option<Entry>)
    ensures now - c.lastRefresh <= c.ttl ==> r == c.mostFrequent
    ensures now - c.lastRefresh > c.ttl ==> r.None?
  {
    if now - c.lastRefresh > c.ttl then None else c.mostFrequent
  }

  function GetFallbackStats(c: Cache): (s: StatsSummary)
    ensures s == c.fallbackStats
  {
    c.fallbackStats
  }

  /** A copy of the pool placeholder stamped with the current time. */
  function GetFallbackPoolStats(c: Cache, now: int): (p: PoolStats)
    ensures p.collectedAt == now
    ensures p == c.fallbackPoolStats.(collectedAt := now)
  {
    c.fallbackPoolStats.(collectedAt := now)
  }

  // ----- repository operations ---------------------------------------------------

  /** The hooks installed at construction: a fallback that answers the cached
      entry with no error, and a probe that passes when the store is healthy. */
  function RepoHooks<E>(r: Repo, now: int, storeHealthy: bool): (h: CB.Hooks<Option<Entry>, E>)
    ensures h.fallback.Some? && h.fallback.value.Ok?
    ensures h.fallback.value.value == GetMostFrequentCached(r.cache, now)
    ensures h.probe.Some? && (h.probe.value <==> storeHealthy)
  {
    CB.Hooks(Some(Ok(GetMostFrequentCached(r.cache, now))), Some(storeHealthy))
  }

  /** The breaker step of one repository operation whose store answer is `op`. */
  function Guard<T, E>(r: Repo, now: int, storeHealthy: bool, op: Outcome<T, E>): CB.Step<T, Option<Entry>, E>
  {
    CB.Call(r.breaker, now, RepoHooks(r, now, storeHealthy), op)
  }

  /** A write. Every error from the breaker, including the fallback sentinel,
      is returned with no entry and the cache untouched; a stored entry becomes
      the cached one. */
  function Record<E>(r: Repo, now: int, storeHealthy: bool, op: Outcome<Entry, E>): (rep: Reply<Entry, E>)
    ensures rep.repo.breaker == Guard(r, now, storeHealthy, op).breaker
    ensures rep.result.Ok? ==> op == Ok(rep.result.value)
    ensures rep.result.Ok? ==>
              rep.repo.cache.mostFrequent == Some(rep.result.value) && rep.repo.cache.lastRefresh == now
    ensures rep.result.Err? ==> rep.repo.cache == r.cache
    ensures Guard(r, now, storeHealthy, op).response.Success? ==>
              && op.Ok? && rep.result == Ok(op.value)
              && rep.repo.cache == UpdateMostFrequent(r.cache, Some(op.value), now)
    ensures Guard(r, now, storeHealthy, op).response.Degraded? ==> rep.result == Err(CB.OpenWithFallback)
    ensures Guard(r, now, storeHealthy, op).response.Failure? ==>
              rep.result == Err(Guard(r, now, storeHealthy, op).response.error)
  {
    var s := Guard(r, now, storeHealthy, op);
    var r1 := r.(breaker := s.breaker);
    match s.response
    case Success(entry) => Reply(r1.(cache := UpdateMostFrequent(r1.cache, Some(entry), now)), Ok(entry))
    case Degraded(_) => Reply(r1, Err(CB.OpenWithFallback))
    case Failure(e) => Reply(r1, Err(e))
  }

  /** A read of the most frequent entry. On the fallback sentinel it answers
      the cache (possibly none) with no error; every other error, including
      "transitioning", is returned. A store answer becomes the cached one. */
  function GetMostFrequent<E>(r: Repo, now: int, storeHealthy: bool, op: Outcome<Option<Entry>, E>): (rep: Reply<Option<Entry>, E>)
    ensures rep.repo.breaker == Guard(r, now, storeHealthy, op).breaker
    ensures Guard(r, now, storeHealthy, op).response.Success? ==>
              && op.Ok? && rep.result == Ok(op.value)
              && rep.repo.cache == UpdateMostFrequent(r.cache, op.value, now)
    ensures Guard(r, now, storeHealthy, op).response.Degraded? ==>
              rep.result == Ok(GetMostFrequentCached(r.cache, now)) && rep.repo.cache == r.cache
    ensures Guard(r, now, storeHealthy, op).response.Failure? ==>
              rep.result == Err(Guard(r, now, storeHealthy, op).response.error)
    ensures rep.result.Err? ==>
              && rep.repo.cache == r.cache
              && rep.result.error != CB.OpenWithFallback
              && rep.result == Err(Guard(r, now, storeHealthy, op).response.error)
  {
    var s := Guard(r, now, storeHealthy, op);
    var r1 := r.(breaker := s.breaker);
    match s.response
    case Success(entry) => Reply(r1.(cache := UpdateMostFrequent(r1.cache, entry, now)), Ok(entry))
    case Degraded(_) => Reply(r1, Ok(GetMostFrequentCached(r1.cache, now)))
    case Failure(e) => Reply(r1, Err(e))
  }

  /** The `n` most frequent entries, as the store answers them. On the fallback
      sentinel: the cached entry alone if one is valid, otherwise nothing. The
      cache is never touched. */
  function GetTopN<E>(r: Repo, now: int, storeHealthy: bool, op: Outcome<seq<Entry>, E>): (rep: Reply<seq<Entry>, E>)
    ensures rep.repo.breaker == Guard(r, now, storeHealthy, op).breaker
    ensures rep.repo.cache == r.cache
    ensures Guard(r, now, storeHealthy, op).response.Success? ==> op.Ok? && rep.result == Ok(op.value)
    ensures Guard(r, now, storeHealthy, op).response.Degraded? ==>
              && rep.result.Ok?
              && (GetMostFrequentCached(r.cache, now).Some? ==>
                    rep.result.value == [GetMostFrequentCached(r.cache, now).value])
              && (GetMostFrequentCached(r.cache, now).None? ==> rep.result.value == [])
    ensures Guard(r, now, storeHealthy, op).response.Failure? ==>
              rep.result == Err(Guard(r, now, storeHealthy, op).response.error)
    ensures rep.result.Err? ==> rep.result == Err(Guard(r, now, storeHealthy, op).response.error)
  {
    var s := Guard(r, now, storeHealthy, op);
    var r1 := r.(breaker := s.breaker);
    match s.response
    case Success(entries) => Reply(r1, Ok(entries))
    case Degraded(_) =>
      var cached := GetMostFrequentCached(r1.cache, now);
      Reply(r1, Ok(if cached.Some? then [cached.value] else []))
    case Failure(e) => Reply(r1, Err(e))
  }

  /** The store's summary; the zeroed placeholder on the fallback sentinel. */
  function GetStats<E>(r: Repo, now: int, storeHealthy: bool, op: Outcome<StatsSummary, E>): (rep: Reply<StatsSummary, E>)
    ensures rep.repo.breaker == Guard(r, now, storeHealthy, op).breaker
    ensures rep.repo.cache == r.cache
    ensures Guard(r, now, storeHealthy, op).response.Success? ==> op.Ok? && rep.result == Ok(op.value)
    ensures Guard(r, now, storeHealthy, op).response.Degraded? ==> rep.result == Ok(r.cache.fallbackStats)
    ensures Guard(r, now, storeHealthy, op).response.Failure? ==>
              rep.result == Err(Guard(r, now, storeHealthy, op).response.error)
    ensures rep.result.Err? ==> rep.result == Err(Guard(r, now, storeHealthy, op).response.error)
  {
    var s := Guard(r, now, storeHealthy, op);
    var r1 := r.(breaker := s.breaker);
    match s.response
    case Success(stats) => Reply(r1, Ok(stats))
    case Degraded(_) => Reply(r1, Ok(GetFallbackStats(r1.cache)))
    case Failure(e) => Reply(r1, Err(e))
  }

  /** The store's pool statistics; on the fallback sentinel, the placeholder
      stamped with the current time. */
  function GetPoolStats<E>(r: Repo, now: int, storeHealthy: bool, op: Outcome<PoolStats, E>): (rep: Reply<PoolStats, E>)
    ensures rep.repo.breaker == Guard(r, now, storeHealthy, op).breaker
    ensures rep.repo.cache == r.cache
    ensures Guard(r, now, storeHealthy, op).response.Success? ==> op.Ok? && rep.result == Ok(op.value)
    ensures Guard(r, now, storeHealthy, op).response.Degraded? ==>
              rep.result == Ok(r.cache.fallbackPoolStats.(collectedAt := now))
    ensures Guard(r, now, storeHealthy, op).response.Failure? ==>
              rep.result == Err(Guard(r, now, storeHealthy, op).response.error)
    ensures rep.result.Err? ==> rep.result == Err(Guard(r, now, storeHealthy, op).response.error)
  {
    var s := Guard(r, now, storeHealthy, op);
    var r1 := r.(breaker := s.breaker);
    match s.response
    case Success(stats) => Reply(r1, Ok(stats))
    case Degraded(_) => Reply(r1, Ok(GetFallbackPoolStats(r1.cache, now)))
    case Failure(e) => Reply(r1, Err(e))
  }

  /** Closing goes straight to the store: its answer is returned and neither
      the breaker nor the cache changes, whatever the breaker's state. */
  function Close<E>(r: Repo, storeClose: Option<E>): (res: (Repo, Option<E>))
    ensures res.0 == r && res.1 == storeClose
  {
    (r, storeClose)
  }

  function GetCircuitBreakerStats(r: Repo): (st: CB.Stats)
    ensures st.state == r.breaker.state && st.failures == r.breaker.failures
    ensures st.successes == r.breaker.successes && st.lastFailTime == r.breaker.lastFailTime
  {
    CB.GetStats(r.breaker)
  }

  // ----- Properties -----------------------------------------------------------

  /** A cached entry captured at `t0` is served at any time up to and including
      `t0 + ttl`, and is absent afterwards. */
  lemma CacheWindow(c: Cache, e: Option<Entry>, t0: int, now: int)
    ensures var c' := UpdateMostFrequent(c, e, t0);
      GetMostFrequentCached(c', now) == (if now <= t0 + c.ttl then e else None)
  {
  }

  /** While the circuit is Open and recovery is not yet due, the store's answer
      is irrelevant and nothing changes: every read succeeds with cached or
      placeholder data, and the write fails with the fallback sentinel. */
  lemma DegradedWhileOpen<E>(r: Repo, now: int, healthy: bool,
                             w: Outcome<Entry, E>, m: Outcome<Option<Entry>, E>, t: Outcome<seq<Entry>, E>,
                             s: Outcome<StatsSummary, E>, p: Outcome<PoolStats, E>)
    requires r.breaker.state == CB.Open
    requires now - r.breaker.lastFailTime < r.breaker.config.recoveryTimeout
    ensures Record(r, now, healthy, w) == Reply(r, Err(CB.OpenWithFallback))
    ensures GetMostFrequent(r, now, healthy, m) == Reply(r, Ok(GetMostFrequentCached(r.cache, now)))
    ensures GetTopN(r, now, healthy, t).repo == r && GetTopN(r, now, healthy, t).result.Ok?
    ensures |GetTopN(r, now, healthy, t).result.value| <= 1
    ensures GetStats(r, now, healthy, s) == Reply(r, Ok(r.cache.fallbackStats))
    ensures GetPoolStats(r, now, healthy, p).result.Ok?
    ensures GetPoolStats(r, now, healthy, p).result.value.collectedAt == now
  {
    CB.OpenBeforeRecovery(r.breaker, now, RepoHooks<E>(r, now, healthy), w);
    CB.OpenBeforeRecovery(r.breaker, now, RepoHooks<E>(r, now, healthy), m);
    CB.OpenBeforeRecovery(r.breaker, now, RepoHooks<E>(r, now, healthy), t);
    CB.OpenBeforeRecovery(r.breaker, now, RepoHooks<E>(r, now, healthy), s);
    CB.OpenBeforeRecovery(r.breaker, now, RepoHooks<E>(r, now, healthy), p);
  }

  /** The call that finds recovery due while the store is healthy moves the
      breaker to HalfOpen and fails with "transitioning"; the read paths do not
      turn that error into cached data. */
  lemma TransitioningIsPropagated<E>(r: Repo, now: int, w: Outcome<Entry, E>, m: Outcome<Option<Entry>, E>,
                                     t: Outcome<seq<Entry>, E>)
    requires r.breaker.state == CB.Open
    requires now - r.breaker.lastFailTime >= r.breaker.config.recoveryTimeout
    ensures Record(r, now, true, w).result == Err(CB.Transitioning)
    ensures GetMostFrequent(r, now, true, m).result == Err(CB.Transitioning)
    ensures GetTopN(r, now, true, t).result == Err(CB.Transitioning)
    ensures GetMostFrequent(r, now, true, m).repo.breaker.state == CB.HalfOpen
  {
    CB.OpenRecovery(r.breaker, now, RepoHooks<E>(r, now, true), w);
    CB.OpenRecovery(r.breaker, now, RepoHooks<E>(r, now, true), m);
    CB.OpenRecovery(r.breaker, now, RepoHooks<E>(r, now, true), t);
  }

  /** An entry written at `t0` is what a read answers while the circuit is
      Open and the store is unhealthy, four minutes later and at exactly five
      minutes, but no longer at six. This holds whether or not recovery is due
      by then: a failing probe sends the call to the fallback either way. With
      a healthy store, a call that finds recovery due answers "transitioning"
      instead of the cached entry. */
  lemma WriteThenDegradedRead<E>(r: Repo, t0: int, e: Entry, later: Repo, m: Outcome<Option<Entry>, E>)
    requires r.breaker.state == CB.Closed && r.cache.ttl == CacheTTL
    requires later.cache == Record<E>(r, t0, true, Ok(e)).repo.cache
    requires later.breaker.state == CB.Open
    ensures GetMostFrequent(later, t0 + 4 * 60 * CB.Second, false, m).result == Ok(Some(e))
    ensures GetMostFrequent(later, t0 + CacheTTL, false, m).result == Ok(Some(e))
    ensures GetMostFrequent(later, t0 + 6 * 60 * CB.Second, false, m).result == Ok(None)
    ensures t0 + 4 * 60 * CB.Second - later.breaker.lastFailTime >= later.breaker.config.recoveryTimeout ==>
              GetMostFrequent(later, t0 + 4 * 60 * CB.Second, true, m).result == Err(CB.Transitioning)
  {
    var t4, t5, t6 := t0 + 4 * 60 * CB.Second, t0 + CacheTTL, t0 + 6 * 60 * CB.Second;
    assert later.cache.mostFrequent == Some(e) && later.cache.lastRefresh == t0;
    assert GetMostFrequentCached(later.cache, t4) == Some(e);
    assert GetMostFrequentCached(later.cache, t5) == Some(e);
    assert GetMostFrequentCached(later.cache, t6) == None;
  }

  /** The same scenario from a repository as constructed: its breaker has the
      default 30-second recovery, so when the circuit opened at most three and a
      half minutes after the write, it is past recovery at the four-minute read,
      and the unhealthy store still gets the cached entry. */
  lemma WriteThenDegradedReadFromNew<E>(t0: int, e: Entry, later: Repo, m: Outcome<Option<Entry>, E>)
    requires later.cache == Record<E>(NewRepo(t0), t0, true, Ok(e)).repo.cache
    requires later.breaker.state == CB.Open && later.breaker.config == CB.DefaultConfig()
    requires later.breaker.lastFailTime <= t0 + 4 * 60 * CB.Second - CB.DefaultConfig().recoveryTimeout
    ensures GetMostFrequent(later, t0 + 4 * 60 * CB.Second, false, m).result == Ok(Some(e))
    ensures GetMostFrequent(later, t0 + 4 * 60 * CB.Second, false, m).repo.breaker.state == CB.HalfOpen
    ensures GetMostFrequent(later, t0 + 6 * 60 * CB.Second, false, m).result == Ok(None)
    ensures GetMostFrequent(later, t0 + 4 * 60 * CB.Second, true, m).result == Err(CB.Transitioning)
  {
    WriteThenDegradedRead(NewRepo(t0), t0, e, later, m);
  }
}
