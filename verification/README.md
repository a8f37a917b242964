# FizzBuzz service core in Dafny

A Dafny model of the stateful and pure core of the FizzBuzz REST service:

- **Circuit breaker.** The three-state breaker (Closed, Open, HalfOpen) guards every call to the statistics store. It has failure and success counters, a last-failure time, a recovery timeout, an optional health probe and an optional fallback.
- **Breaker-protected repository.** It routes each store operation through the breaker. When the fallback is used, it answers reads from a five-minute cache of the "most frequent" entry or from fixed placeholders. Writes are never faked.
- **Rate-limiter registry.** The HTTP middleware keeps one limiter per client address, with lazy insertion, refresh on every lookup, age-based clean-up and a size count.
- **Client-address rule.** A request is limited under the first element of X-Forwarded-For, else X-Real-IP, else the connection address.
- **Statistics tracker.** It counts requests per parameter combination and keeps the most frequent one at hand.
- **FizzBuzz generator.** The parameterised generator, and the work split of its parallel variant.
- **Validators.** The field-keyed validator with its helpers, and the input rules for a FizzBuzz request.

Everything is sequential and pure: state is an immutable datatype, and time is an explicit integer clock `now` in nanoseconds. Anything the outside world decides at the moment of a call is passed in as a parameter. This covers:

- what the store operation, the fallback and the health probe answer;
- the CPU count;
- address parsing.

A call made while the circuit is Open never looks at the operation's answer. That is how "the operation is not invoked" reads here (`CircuitBreaker.OpenIgnoresOperation`).

Modules, one per source file, plus three that correspond to no source file (`Wrappers`, `Collections` and `Text`):

- `Wrappers`: `Option`, `Outcome`.
- `Collections`: the distinct values of a sequence, shared by the registry and tracker properties.
- `Text`: the Go string primitives used.
- `Models`: records.
- `CircuitBreaker`.
- `BreakerRepository`.
- `RateLimit`: the middleware.
- `Statistics`.
- `FizzBuzz`.
- `Validation`: the validator package.
- `InputValidation`: the handler's rules.

Behaviours of the code worth noting:

- **Cache expiry is inclusive.** The cache expires only when `now - lastRefresh > ttl`, so an entry aged exactly the TTL is still served.
- **The recovering call answers "transitioning".** The call that finds recovery due, when the probe passes, answers "transitioning". It is not served from the store or the fallback.
- **A HalfOpen failure reopens only at the threshold.** It reopens the circuit only when the incremented failure count reaches the threshold. It is not immediate.
- **No probe means the fallback.** When recovery is due and no probe is set, the call is served by the fallback path. It does not proceed as a HalfOpen call.

## Model

| member | source | states |
|---|---|---|
| CircuitBreaker.StateName | internal/data/circuit_breaker.go:25-36 | each state has its own name: "closed", "open", "half-open"; anything else is "unknown" |
| CircuitBreaker.StateNamesDistinct | internal/data/circuit_breaker.go:25-36 | two states with the same name are the same state |
| CircuitBreaker.DefaultConfig | internal/data/circuit_breaker.go:51-58 | positive thresholds; the recovery timeout exceeds the operation timeout, which is positive |
| CircuitBreaker.NewBreaker | internal/data/circuit_breaker.go:73-78 | a new breaker is Closed with zero counters, keeps its configuration, and satisfies the breaker invariant |
| CircuitBreaker.RecordFailure | internal/data/circuit_breaker.go:186-197 | one more failure, successes reset, failure time is now; Open exactly when already Open or the failures reached the threshold, otherwise the state is kept |
| CircuitBreaker.RecordSuccess | internal/data/circuit_breaker.go:200-206 | failures reset, one more success, state and failure time untouched |
| CircuitBreaker.TransitionToHalfOpen | internal/data/circuit_breaker.go:209-215 | HalfOpen with no successes; failures and failure time untouched |
| CircuitBreaker.TransitionToClosed | internal/data/circuit_breaker.go:218-225 | Closed with both counters reset |
| CircuitBreaker.FallbackResponse | internal/data/circuit_breaker.go:145-158 | never a success; the fallback result with the sentinel iff the fallback answers, the wrapped error iff it fails, "circuit open" iff none is set |
| CircuitBreaker.CallClosed | internal/data/circuit_breaker.go:115-125 | a success answers the operation's value, ends the failure streak and adds a success; a failure is returned unchanged, counted, stamped now, clears the successes, and opens the circuit exactly when the streak reaches the threshold |
| CircuitBreaker.CallOpen | internal/data/circuit_breaker.go:128-159 | never a success; before the recovery timeout nothing changes and the fallback answers; once it has elapsed the circuit is HalfOpen with no successes, the failures kept, and the answer is "transitioning" iff the probe is set and passes, else the fallback's |
| CircuitBreaker.CallHalfOpen | internal/data/circuit_breaker.go:162-183 | a success answers the operation's value, clears the failures, and closes the circuit with both counters reset exactly when the successes reach their threshold, else stays HalfOpen with one more success; a failure is counted as in Closed and reopens only at the failure threshold |
| CircuitBreaker.Call | internal/data/circuit_breaker.go:95-112 | keeps the invariant (named state, non-negative counters, Open implies failures at threshold); only allowed state edges; a success carries exactly the operation's value; in Closed and HalfOpen an error is returned unchanged and recorded as a failure, and a success is recorded as one (closing HalfOpen at the success threshold); an unknown state answers an error and changes nothing; the fallback sentinel never appears as a plain error |
| CircuitBreaker.GetStats | internal/data/circuit_breaker.go:235-245 | the snapshot equals the breaker's state, counters and failure time |
| CircuitBreaker.OpenIgnoresOperation | internal/data/circuit_breaker.go:128-159 | in Open the call's result and next breaker do not depend on the operation |
| CircuitBreaker.OpenBeforeRecovery | internal/data/circuit_breaker.go:128-159 | before the recovery timeout nothing changes and the answer is the fallback result, the wrapped fallback error, or "circuit open" |
| CircuitBreaker.OpenRecovery | internal/data/circuit_breaker.go:131-143 | once the timeout has elapsed the breaker is HalfOpen with zero successes and unchanged failures, whatever the probe says; "transitioning" exactly when a probe is set and passes, else the fallback path |
| CircuitBreaker.FirstHalfOpenFailureReopens | internal/data/circuit_breaker.go:186-215 | from a reachable Open breaker, the first failure after entering HalfOpen reopens the circuit |
| CircuitBreaker.HalfOpenFailureAfterSuccessStaysHalfOpen | internal/data/circuit_breaker.go:162-206 | after a success has reset the failures, a HalfOpen failure leaves the circuit HalfOpen |
| CircuitBreaker.OpensAtThreshold | internal/data/circuit_breaker.go:186-197 | from Closed with no failures, k failing calls (k at most the threshold) leave k failures and open the circuit iff k equals the threshold |
| CircuitBreaker.ClosesAtSuccessThreshold | internal/data/circuit_breaker.go:162-183 | from HalfOpen with no successes, k successful calls close the circuit, resetting both counters, iff k equals the success threshold, else count k successes |
| CircuitBreaker.DefaultOpensAfterFiveFailures | cmd/api/database_monitoring_test.go:34-45 | with the defaults four failures keep a new breaker Closed, five open it, and the next call without fallback answers "circuit open" |
| BreakerRepository.ZeroStats | internal/data/circuit_breaker_repository.go:41-46 | the degraded summary has every count zero and no request times |
| BreakerRepository.UnavailablePoolStats | internal/data/circuit_breaker_repository.go:47-50 | the degraded pool summary has status "unavailable", the given collection time, and every count and the average acquire time zero |
| BreakerRepository.NewRepo | internal/data/circuit_breaker_repository.go:35-77 | a Closed default breaker with zero counters, an empty cache with the five-minute TTL, the zeroed summary, and exactly the unavailable pool placeholder stamped at construction |
| BreakerRepository.UpdateMostFrequent | internal/data/circuit_breaker_repository.go:243-249 | the cache holds the given entry captured now; TTL and placeholders are unchanged |
| BreakerRepository.GetMostFrequentCached | internal/data/circuit_breaker_repository.go:252-262 | the stored entry while `now - lastRefresh <= ttl`, none afterwards |
| BreakerRepository.GetFallbackStats | internal/data/circuit_breaker_repository.go:265-270 | the stored placeholder summary |
| BreakerRepository.GetFallbackPoolStats | internal/data/circuit_breaker_repository.go:273-282 | the placeholder pool summary with the collection time set to now and nothing else changed |
| BreakerRepository.RepoHooks | internal/data/circuit_breaker_repository.go:60-74 | the fallback is set, never fails, and answers the cached entry; the probe is set and passes iff the store is healthy |
| BreakerRepository.Record | internal/data/circuit_breaker_repository.go:80-106 | a breaker success returns the stored entry and caches it, captured now; every breaker error is returned unchanged and the fallback sentinel as the sentinel error, with the cache untouched |
| BreakerRepository.GetMostFrequent | internal/data/circuit_breaker_repository.go:109-139 | a breaker success returns the store's answer and caches it as captured now, leaving the TTL and placeholders as they were; on the sentinel the cached value (possibly none) with no error; every breaker error, including "transitioning", is returned unchanged with the cache untouched |
| BreakerRepository.GetTopN | internal/data/circuit_breaker_repository.go:142-172 | a breaker success returns the store's answer; on the sentinel the valid cached entry alone, or nothing; every breaker error is returned unchanged; the cache is never touched |
| BreakerRepository.GetStats | internal/data/circuit_breaker_repository.go:175-200 | a breaker success returns the store's summary; on the sentinel the placeholder summary; every breaker error is returned unchanged; the cache is untouched |
| BreakerRepository.GetPoolStats | internal/data/circuit_breaker_repository.go:203-228 | a breaker success returns the store's answer; on the sentinel the placeholder stamped with now; every breaker error is returned unchanged; the cache is untouched |
| BreakerRepository.Close | internal/data/circuit_breaker_repository.go:231-233 | the store's answer is returned and neither breaker nor cache changes |
| BreakerRepository.GetCircuitBreakerStats | internal/data/circuit_breaker_repository.go:236-238 | the breaker's state, counters and failure time |
| BreakerRepository.CacheWindow | internal/data/circuit_breaker_repository.go:252-262 | an entry captured at t0 is served up to and including t0 + TTL, and absent afterwards |
| BreakerRepository.DegradedWhileOpen | internal/data/circuit_breaker_repository.go:80-228 | while Open before recovery nothing changes: reads succeed with cached or placeholder data, at most one entry for the top-N read, and the write fails with the sentinel |
| BreakerRepository.TransitioningIsPropagated | internal/data/circuit_breaker_repository.go:123-129 | the recovering call with a healthy store fails with "transitioning" on the write and read paths, and the breaker is HalfOpen |
| BreakerRepository.WriteThenDegradedRead | internal/data/circuit_breaker_repository.go:80-139 | an entry written at t0 is read back from the fallback while the circuit is Open and the store unhealthy, at t0 + 4 min and t0 + 5 min, whether or not recovery is due, and is absent at t0 + 6 min; with a healthy store a read that finds recovery due answers "transitioning" |
| BreakerRepository.WriteThenDegradedReadFromNew | internal/data/circuit_breaker_repository.go:35-74 | the same scenario on a repository as constructed (30-second recovery), for any opening failure up to 3.5 minutes after the write: the unhealthy read at t0 + 4 min moves the breaker to HalfOpen and still answers the cached entry; the healthy one answers "transitioning" |
| RateLimit.NewRegistry | cmd/api/middleware.go:31-37 | no entries, with the given rate and burst |
| RateLimit.GetLimiter | cmd/api/middleware.go:40-56 | an unknown address gets a fresh bucket with the registry's parameters; a known one keeps its bucket; either way it is marked seen now; every other entry is unchanged and the size grows by one exactly for a new address |
| RateLimit.Fresh | cmd/api/middleware.go:63-71 | an address is kept iff its entry is not stale, with its entry unchanged |
| RateLimit.CleanupOldEntries | cmd/api/middleware.go:59-74 | the registry without exactly the entries last seen before `now - maxAge`, and the count removed equals old size minus new size |
| RateLimit.GetStats | cmd/api/middleware.go:77-82 | the entry count with the construction-time rate and burst |
| RateLimit.ClientIP | cmd/api/middleware.go:86-112 | the trimmed first X-Forwarded-For element if the header is set and it is an IP; else X-Real-IP if it is set and an IP; else the host part of the connection address when it splits, and the connection address itself when it does not |
| RateLimit.ClientIPPrecedence | cmd/api/middleware.go:86-104 | requests that agree on an accepted X-Forwarded-For get its first element whatever else they carry; requests whose first level fails and that agree on an accepted X-Real-IP get that address |
| RateLimit.LookupsTrackDistinctClients | cmd/api/middleware.go:44-53 | after any sequence of lookups, one entry per distinct address is added, the others are kept, and rate and burst never change |
| RateLimit.ThreeDistinctClients | cmd/api/shutdown_test.go:237-243 | three distinct addresses give three entries with rate 1 and burst 2 |
| RateLimit.CleanupBoundary | cmd/api/middleware.go:63-67 | an entry seen exactly at the cut-off is kept; one seen just before is removed |
| Text.TrimSpace | cmd/api/middleware.go:92 | the middle slice of the input with only white space removed at both ends, and no white space left at either end |
| Text.TrimSpaceIdempotent | cmd/api/middleware.go:92 | trimming twice equals trimming once |
| Text.FirstField | cmd/api/middleware.go:91 | the prefix before the first comma, or all of the string when it has none |
| Text.Utf8Length | cmd/api/handlers.go:142-144 | byte length of the UTF-8 encoding, between one and four bytes per character, equal to the character count iff all are ASCII |
| Text.Itoa | internal/data/fizzbuzz.go:32 | a non-empty digit string with no leading zero |
| Text.DecimalRoundTrip | internal/data/fizzbuzz.go:32 | parsing the decimal rendering of a number gives the number back |
| Statistics.NewTracker | internal/data/statistics.go:42-46 | an empty tracker satisfying the invariant |
| Statistics.Record | internal/data/statistics.go:51-81 | keeps the invariant (mostFrequent carries the maximum hits); a new combination enters with one hit, a known one gains one, others unchanged, count grows exactly for new ones; the holder changes only to the input and only with strictly more hits |
| Statistics.GetMostFrequent | internal/data/statistics.go:87-118 | none iff nothing is tracked; otherwise a tracked entry with maximal hits, namely the cached holder |
| Statistics.GetStats | internal/data/statistics.go:122-138 | the same keys with the same parameters and hits |
| Statistics.EntryCount | internal/data/statistics.go:142-147 | the number of tracked combinations |
| Statistics.RecordAddsOneHit | internal/data/statistics.go:51-81 | each request adds exactly one hit to the total |
| Statistics.RecordAllFromNew | internal/data/statistics.go:51-81 | after any requests on a new tracker: invariant holds, hits sum to the number of requests, one entry per distinct combination |
| Statistics.TieKeepsFirst | internal/data/statistics.go:77-79 | with two combinations requested once each, the first stays the most frequent |
| Statistics.MostFrequentFollowsHits | internal/data/statistics_test.go:99-129 | after a, b, b the holder is b with 2 hits; after two more a it is a with 3 |
| FizzBuzz.FizzBuzz | internal/data/fizzbuzz.go:12-37 | length `limit`; element i-1 is str1+str2, str1, str2 or the decimal of i by divisibility |
| FizzBuzz.Workers | internal/data/fizzbuzz.go:48-51 | the CPU count, lowered to `limit` when that is smaller; so between 1 and `limit`, never more than the CPUs |
| FizzBuzz.StartIsProduct | internal/data/fizzbuzz.go:66 | worker w's range starts at w*chunk+1 |
| FizzBuzz.ChunksTile | internal/data/fizzbuzz.go:54-72 | chunk at least 1, remainder below the worker count, and the last range, extended by the remainder, ends at `limit` |
| FizzBuzz.ChunksOrdered | internal/data/fizzbuzz.go:62-72 | a worker's range ends before any later worker's range starts |
| FizzBuzz.OwnerFromCovers | internal/data/fizzbuzz.go:62-72 | a number from a worker's start up to `limit` lies in the range of that or a later worker |
| FizzBuzz.ChunksPartition | internal/data/fizzbuzz.go:62-72 | every number from 1 to `limit` lies in exactly one worker's range |
| FizzBuzz.ChunkWithinLimit | internal/data/fizzbuzz.go:66-72 | each worker's range lies within 1 to `limit` |
| FizzBuzz.Worker | internal/data/fizzbuzz.go:74-96 | writes the right element at each position of its range and leaves all others unchanged |
| FizzBuzz.ConcurrentFizzBuzz | internal/data/fizzbuzz.go:42-102 | empty for limit at most 0; otherwise the same sequence as `FizzBuzz` |
| FizzBuzz.NumbersReadBack | internal/data/fizzbuzz.go:32 | a number divisible by neither divisor appears as digits that parse back to it |
| FizzBuzz.Classic | internal/data/fizzbuzz_test.go:25-28 | 3, 5, "fizz", "buzz" up to 15 gives the classic sequence |
| Validation.New | internal/validator/validator.go:17-22 | valid, and its error map is absent |
| Validation.Valid | internal/validator/validator.go:24-27 | valid iff no field carries a message |
| Validation.AddError | internal/validator/validator.go:29-36 | the key gets the message, overwriting; other keys unchanged; no longer valid |
| Validation.Check | internal/validator/validator.go:38-44 | unchanged when the condition holds, else exactly `AddError` |
| Validation.ErrorMap | internal/validator/validator.go:46-58 | absent iff valid, otherwise equal to the messages |
| Validation.Clear | internal/validator/validator.go:60-64 | valid with no error map |
| Validation.Contains | internal/validator/validator.go:69 | true iff the value is in the list |
| Validation.PermittedValue | internal/validator/validator.go:66-70 | true iff some position of the list holds the value |
| Validation.In | internal/validator/validator.go:94-98 | true iff the value is in the list, and equal to `PermittedValue` |
| Validation.Unique | internal/validator/validator.go:81-92 | true iff no value occurs twice; the empty list is unique |
| Validation.FailedKeys | internal/validator/validator.go:38-44 | a key is included iff some check with that key failed |
| Validation.CheckAllKeys | internal/validator/validator.go:24-44 | from a new validator, the error keys are exactly the keys of failed checks, and it is valid iff every check passed |
| Validation.ClearThenAdd | internal/validator/validator.go:60-64 | a cleared validator then one error has exactly that error |
| InputValidation.CheckRange | cmd/api/handlers.go:132-133 | the two checks on a number leave the message of its first broken rule, or none |
| InputValidation.CheckText | cmd/api/handlers.go:141-142 | the two checks on a string leave "must be provided" or the length message, or none |
| InputValidation.ValidateFizzBuzzInput | cmd/api/handlers.go:128-147 | the errors are exactly one message per field breaking a rule, int1 reporting equal divisors first |
| InputValidation.ValidIffAcceptable | cmd/api/handlers.go:128-147 | valid iff both divisors are in 1..10,000 and different, the limit is in 1..100,000, and both strings are non-empty and at most 50 bytes; at most the five field keys, so at most 5 errors |
| InputValidation.FieldsAndMessages | cmd/api/handlers.go:132-144 | a field fails iff it breaks a rule, and carries that rule's message |
| InputValidation.Precedence | cmd/api/handlers.go:136 | equal divisors are reported on int1 even when int1 is out of range; an empty string is reported as missing |
| InputValidation.AllFieldsMissing | cmd/api/handlers_validation_test.go:229-245 | with every field bad, each field reports its first rule |
| InputValidation.TwoByteCharactersCountTwice | cmd/api/handlers.go:142 | 26 two-byte characters count 52 bytes and are rejected |
| InputValidation.PutAt | cmd/api/handlers.go:132-144 | setting a field's message touches that field only |

## Left out

- Locking: the mutexes of the breaker, the tracker and the registry. The model runs one call at a time.
- Goroutines: the worker goroutines of `ConcurrentFizzBuzz` run one after another. Each writes only its own positions, so the order does not matter.
- Timeouts: context deadlines (`context.WithTimeout`) are not modelled. A timed-out operation is one more `Err` answer.
- Wall-clock time: `time.Now` and `time.Since` are the parameter `now`. Go's zero initial failure time is 0.
- The token bucket (`rate.Limiter.Allow`) is an opaque library object. A `Bucket` records only the rate and burst it was created with.
- The rate-limiting middleware's retry-after arithmetic and its floating-point rate are not modelled.
- `net.ParseIP` and `net.SplitHostPort` are library calls, passed to `ClientIP` as functions.
- The tracker is keyed by the parameter record itself instead of `GenerateStatsKey` (SHA-256 over JSON). This is the injective key the tests rely on.
- `Matches` depends on the `regexp` package and is not modelled.
- The following are not part of this model:
  - the HTTP handlers and the JSON, routing and logging plumbing;
  - `StatisticsService`;
  - the PostgreSQL repository;
  - the rate-limiter background clean-up loop and its shutdown.
- The breaker's `Unknown` state stands for an out-of-range integer state. No transition produces it, and the invariant excludes it.
- The repositories' "unexpected result type" errors cannot occur in the typed model.
- BreakerRepository.Record: a store that answers a write with no entry and no error is not modelled, because the write's store answer is typed as an entry.
- BreakerRepository.GetTopN: the requested count `n` is not modelled. The store's answer is passed in, and the fallback answer does not depend on `n`.
- Database-only record fields (ids, hashes, timestamps) are not modelled. `PoolStats` and `StatsSummary` keep their floating-point averages as `real`.
- Go's `int` counters (failures, successes, hits, entry counts) and the int64 nanosecond `time.Duration` and clock are unbounded integers. No behaviour modelled here depends on their overflow.
- Strings are sequences of Unicode scalar values, so every string is valid UTF-8. Byte lengths are computed from the encoding.
- FizzBuzz.FizzBuzz: the Go function panics for a negative `limit` or a zero divisor. Those inputs are excluded by its precondition rather than modelled as a panic.
- FizzBuzz.ConcurrentFizzBuzz: the CPU count is a parameter, at least 1. A zero divisor with a positive limit panics in Go and is excluded by the precondition.
