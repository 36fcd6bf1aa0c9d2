# GoGateway, verified

A Dafny model of GoGateway's request path: the fixed-window rate limiter with its Redis back end and
its failover, the circuit breaker and its store, the load balancers, the metrics, the rewriting of
the request for the upstream, and `serveRoute`, which composes them for any number of requests in
flight. Check it with `dafny verify dfyconfig.toml`.

## How it is modelled

Objects the gateway updates in place under a mutex are classes whose methods are proved against
functions on their abstract value; the theorems are about runs of those functions. A mutex section is
one atomic step, and the clock is an argument of the steps that read it. `Gateway.dfy` holds
`serveRoute` as a state machine: a table of requests, each with a program counter, and the shared state
behind the locks. Routing, authentication, the client's name, what becomes of a call to Redis, other
replicas' calls to it and the upstream's final status are free choices of the run, so every theorem holds
for all of them and for every interleaving. An act whose turn it is not changes nothing;
`Gateway.NeverStuck` shows that this never keeps an unfinished request from going on.

| file | what it is about |
|---|---|
| Prelude | joined keys, sums, the arithmetic the proofs share |
| Windows | what any limiter that counts per window can allow in an interval |
| RateLimit, Bursts | the in-memory limiter, its cleanup, Retry-After; runs that reach the bound, sliding windows |
| Redis, Failover, FleetBursts | the Lua script over a keyspace with expiry; a fleet that falls back when Redis fails; runs that reach its bound |
| CircuitBreaker, WorstCase | the timed breaker; runs that reach its load bound; half-open admissions |
| Probes, BreakerStore | who decides a half-open phase; double-checked locking |
| Balancer, LeastConnections | round robin over a uint64 counter; least connections |
| Labels, SortedKeys, Metrics | label keys and text; the order of rendering; counters, gauge, cumulative histograms |
| Rewrite, Responses | path join, query merge, the director; the status recorder |
| Gateway | `serveRoute` and the shape of its reachable states |
| GatewayOrder, GatewayLimiter, GatewayBalancing, GatewayBreakers, GatewayMetrics | whole-run theorems about it |
| GatewayAnswers | what caused a request's status, and what its breaker is told of it |
| GatewayOutage | a run in which a breaker opens and requests are rejected |

## Where comments or documentation say more than the code does

- A route's `half_open_max_requests` (`internal/config/config.go:91`) is never read: half-open admits
  everything. A half-open phase is sure to stay within h admissions if and only if no more than h requests
  may be in flight at all: `WorstCase.HalfOpenLimitExactly`. The load bound therefore has the number of
  concurrent requests in it, once per timeout, and `WorstCase.LoadBoundIsReached` shows that it cannot be
  lowered.
- "The probe decides a half-open breaker" (`internal/middleware/circuitbreaker.go:37-42`) fails when a
  request admitted before the trip reports late. `Probes.ProbesDecideExactlyWhenDrained` gives the exact
  condition, that nothing is in flight right after the trip, and `Probes.StaleResultsHappen` shows that
  every configuration has runs in which something is.
- `Retry-After` is truncated to whole seconds and an entry expires only after its reset time, so waiting
  as told (compare section 10.2.3 of RFC 9110) is enough exactly when less than a second was left,
  whichever back end told and is asked again (`RateLimit.RetryAfterSuffices`,
  `Failover.RedisRetryAfterSuffices`); `RateLimit.WaitingAsToldCanFail` and
  `Failover.WaitingAtRedisCanFail` are runs in which it is not.
- Redis truncates the window to milliseconds; `Redis.AgreeExactlyWhen` says for which windows that makes
  no difference. Under a window below a millisecond the script forgets every call, so the limit is never
  enforced: `Redis.TinyWindowsNeverLimit`.
- The documents mention token buckets and sliding windows; the code counts in fixed windows anchored at
  a first request, and the interval bound is the one such windows allow. The limiter is a sliding window if
  and only if the limit is at most one or the window no longer than a tick: `Bursts.SlidingExactly`.
- Keys joined with `:` identify their parts if and only if no route ID, followed by `:`, is a prefix of
  another followed by it (`Gateway.ApartExactly`), which nothing checks; IDs without `:` are apart.
  Theorems that need it take it as a premise, and the route table is a map, which makes IDs unique.
- Label values are not escaped: printed labels can be read back if and only if no name has `=` in it and
  no value a quote (`Labels.TextRoundTrip`), so a route ID with a quote cannot. Different labels still
  print differently while only the first of them may have quotes (`Labels.FirstMayQuote`), which is the
  route's place; with quotes in later ones they need not (`Labels.QuotesConfuse`).

## Model

| member | source | states |
|---|---|---|
| Prelude.JoinKeyInjective | internal/middleware/ratelimit.go:111 | two joined keys are equal only if both parts are, when neither owner followed by the separator is a prefix of the other followed by it |
| Prelude.JoinKeyCollides | internal/middleware/circuitbreaker.go:157 | two owners admit colliding keys if and only if one followed by the separator is a prefix of the other followed by it |
| Gateway.ApartExactly | internal/middleware/circuitbreaker.go:157 | so keys tell routes apart, whatever they are joined with, if and only if no two route IDs are such prefixes |
| Windows.AllowedInInterval | internal/middleware/ratelimit.go:119-142 | any decisions that open a window only more than a width after the previous opening and allow the first `limit` of each hold at most (m + 1) * limit - 1 allowed ones in m widths |
| RateLimit.MemoryLimiter.Allow | internal/middleware/ratelimit.go:110-143 | the whole new map and the answer: an unexpired entry counts one more, anything else starts a new window; other keys untouched |
| RateLimit.MemoryLimiter.CleanExpired | internal/middleware/ratelimit.go:166-175 | exactly the expired entries are gone, whatever the order of the loop |
| RateLimit.AlikeStep | internal/middleware/ratelimit.go:110-175 | two maps with the same live entries answer a call alike and stay alike, and a cleanup of one keeps them alike |
| RateLimit.CleanupIsInvisible | internal/middleware/ratelimit.go:110-175 | two runs with the same calls, with cleanups inserted anywhere, give the same (allowed, remaining, reset) answers |
| RateLimit.CleanupBoundsMap | internal/middleware/ratelimit.go:164-175 | after a cleanup the map has no key, and so no more entries, than were called within the longest window before it |
| RateLimit.IntervalBound | internal/middleware/ratelimit.go:110-143 | for a key with one limit and window, any half-open interval of m windows contains at most (m + 1) * limit - 1 allowed calls, none if the limit is not positive |
| Bursts.BoundIsReached | internal/middleware/ratelimit.go:110-143 | that bound cannot be lowered: some run of the limiter reaches it, for every limit and number of windows below the window's ticks |
| Bursts.SlidingExactly | internal/middleware/ratelimit.go:110-143 | every run has at most the limit in any interval of the length of the window if and only if the limit is at most one or the window at most a tick |
| RateLimit.KeysAreIsolated | internal/middleware/ratelimit.go:111-143 | the answers to calls under one joined key are those of a limiter that sees no other key and no cleanup |
| RateLimit.RemainingIsExact | internal/middleware/ratelimit.go:126-142 | until the reset it was told has passed, the next call under a key is allowed if and only if fewer calls have been made since than `remaining` said, and is told what is left of both |
| RateLimit.ResetIsExact | internal/middleware/ratelimit.go:119-142 | after that reset the next call is answered as the very first |
| RateLimit.RetryAfterSuffices | internal/server/server.go:362-367 | a denied client that waits the Retry-After seconds, whatever other clients and cleanups do meanwhile, is served if and only if less than a second of the window was left |
| RateLimit.RetryAfterIsClose | internal/server/server.go:362-367 | a denied client that waits a second longer than told is always served |
| RateLimit.WaitingAsToldCanFail | internal/server/server.go:362-367 | a run from the empty map: allowed, denied and told two seconds, denied again two seconds later |
| Redis.Server.Script | internal/store/redis.go:62-83 | the keyspace and the triple the script leaves: count, expiry set on a count of one, time to live read back |
| Redis.Server.CheckRateLimit | internal/store/redis.go:56-101 | key prefix, window truncated to milliseconds, reset back in nanoseconds |
| Redis.BackEndsAgree | internal/store/redis.go:62-83 | on every run timed in whole milliseconds, with any mix of keys, limits and representable windows, Redis and the in-memory limiter give the same triples |
| Redis.AgreeExactlyWhen | internal/store/redis.go:58 | for a fixed limit and window they agree on every such run if and only if the window is negative, or a positive whole number of milliseconds, or zero with no calls to allow |
| Redis.TinyWindowsNeverLimit | internal/store/redis.go:58-70 | with windows of less than a millisecond every call of every run is allowed, with a reset of zero |
| Failover.RateLimiter.Allow | internal/middleware/ratelimit.go:37-61 | which back end answers and which states change, for a disabled limit, an answer, a call that never ran and a lost reply |
| Failover.CallIsItsSteps | internal/middleware/ratelimit.go:43-61 | the state a call leaves is that of its one or two atomic steps, and its whole answer what the last of them tells, in each of those cases |
| Failover.RedisIsolatesKeys | internal/store/redis.go:57-83 | what Redis decides about a key, and the triples it answers, do not depend on calls under other keys |
| Failover.RedisRemainingIsExact | internal/store/redis.go:62-98 | the same meaning of `remaining` and reset at Redis, after any calls at any times |
| Failover.RedisResetIsExact | internal/store/redis.go:62-98 | after that reset Redis answers the next call as the very first |
| Failover.RedisRetryAfterSuffices | internal/server/server.go:362-367 | after any calls at any times, one denied by Redis that waits the Retry-After seconds, whatever other calls there are meanwhile, is served by it if and only if less than a second was left |
| Failover.RedisRetryAfterIsClose | internal/server/server.go:362-367 | one denied by Redis that waits a second longer than told is always served by it |
| Failover.WaitingAtRedisCanFail | internal/server/server.go:362-367 | a run at Redis: allowed, denied and told two seconds, denied again two seconds later |
| Failover.FleetSplits | internal/middleware/ratelimit.go:37-61 | what a fleet lets through is at most what its Redis counter allows plus what each replica's own limiter allows |
| Failover.FailoverBound | internal/middleware/ratelimit.go:37-61 | N replicas over one Redis, failing in any way, let through at most N + 1 times the single-limiter bound in m whole-millisecond windows, for arbitrary call times |
| Failover.FailoverBoundOneWindow | internal/middleware/ratelimit.go:37-61 | over one window that is at most 2 * (N + 1) * limit |
| FleetBursts.AllAtOnce | internal/middleware/ratelimit.go:37-61 | what one limiter allows of a whole-millisecond run, Redis and N replicas put through it at once let through N + 1 times |
| FleetBursts.FailoverBoundIsReached | internal/middleware/ratelimit.go:37-61 | so the fleet's bound cannot be lowered: some possible run reaches it, for every limit, number of replicas, and window of more milliseconds than there are windows |
| CircuitBreaker.CircuitBreaker.Allow | internal/middleware/circuitbreaker.go:63-86 | the answer and the whole new state, the transition to half-open included |
| CircuitBreaker.CircuitBreaker.RecordFailure | internal/middleware/circuitbreaker.go:90-110 | the whole new state, both clock reads included |
| CircuitBreaker.CircuitBreaker.RecordSuccess | internal/middleware/circuitbreaker.go:115-129 | the whole new state; nothing while open |
| CircuitBreaker.RefinesHistory | internal/middleware/circuitbreaker.go:63-129 | after any run: closed means FailureCount is the trailing run of failures and below max(1, threshold), half-open that it is 0, open that it is positive; OpenTime is the latest trip, LastFailure the latest failure counted |
| CircuitBreaker.SnapshotTells | internal/middleware/circuitbreaker.go:132-140 | in every state: the count is the failures since the record was last cleared, LastFailure the latest of those that count for it or zero, OpenTime the latest trip or zero when closed |
| CircuitBreaker.Transitions | internal/middleware/circuitbreaker.go:63-129 | after any run: closed trips exactly on the failure that completes the threshold, open goes half-open exactly on a request a timeout after the trip, half-open closes on a success and trips on a failure |
| CircuitBreaker.Recovers | internal/middleware/circuitbreaker.go:115-129 | once it is not open, requests and successes never trip it, and one success closes it |
| CircuitBreaker.LateResultsWhileOpen | internal/middleware/circuitbreaker.go:107-128 | results arriving while open change neither State nor OpenTime |
| CircuitBreaker.TripSpacing | internal/middleware/circuitbreaker.go:71-110 | in every run trips are at least a timeout apart and nobody is admitted within a timeout after any of them |
| CircuitBreaker.TripsWithin | internal/middleware/circuitbreaker.go:71-110 | at most 1 + (to - from) / timeout trips in any stretch of time |
| CircuitBreaker.DeadUpstreamLoad | internal/middleware/circuitbreaker.go:63-110 | with at most K in flight and only failures, admissions never exceed (threshold + K - 1) + K * floor(elapsed since the first trip / timeout), and threshold + K - 1 before it |
| WorstCase.LoadBoundIsReached | internal/middleware/circuitbreaker.go:63-110 | for every threshold, timeout, K and number of timeouts some run puts exactly that load on the upstream |
| WorstCase.HalfOpenLimitExactly | internal/middleware/circuitbreaker.go:71-84 | under any configuration, every half-open phase of every run with at most K in flight, successes included, lets through at most h requests if and only if K <= h |
| Probes.ProbesDecideExactlyWhenDrained | internal/middleware/circuitbreaker.go:37-42 | after a trip, every continuation lets only a probe decide the next half-open phase if and only if no earlier request is still in flight |
| Probes.StaleResultsHappen | internal/middleware/circuitbreaker.go:37-42 | under every configuration some run from the beginning trips with a request in flight, after which a probe is not certain to decide |
| BreakerStore.BreakerStore.FindOrInsert | internal/middleware/circuitbreaker.go:166-176 | the write-locked section: the stored breaker and no change, or a fresh closed one inserted |
| BreakerStore.BreakerStore.GetOrCreate | internal/middleware/circuitbreaker.go:156-177 | one caller's view: the existing breaker, or a new one under the joined key |
| BreakerStore.BreakerStore.Snapshot | internal/middleware/circuitbreaker.go:180-190 | the state of every breaker, key by key |
| BreakerStore.FindIsReadSection | internal/middleware/circuitbreaker.go:159-164 | the object's read-locked lookup is the protocol's read section |
| BreakerStore.FindOrInsertIsWriteSection | internal/middleware/circuitbreaker.go:166-176 | the object's write-locked section is the protocol's write section |
| BreakerStore.OneBreakerPerKey | internal/middleware/circuitbreaker.go:156-177 | for any threads and interleavings of the two sections: no breaker is replaced, no key gets two, all callers of a key get the same one |
| BreakerStore.Linearizable | internal/middleware/circuitbreaker.go:156-177 | every interleaved run gives the answers and final store of the calls made one at a time |
| Balancer.RoundRobin.Next | internal/balancer/roundrobin.go:21-28 | the endpoint at counter modulo n, and the counter one further, wrapping at 2^64 |
| Balancer.FairUnwrapped | internal/balancer/roundrobin.go:21-28 | without a wrap every position gets between floor(k/n) and ceil(k/n) of k calls, so each once in n |
| Balancer.FairWithWraps | internal/balancer/roundrobin.go:21-28 | from any counter, for any number of calls, two positions' counts differ by at most one more than the wraps |
| Balancer.FairOverOneCycle | internal/balancer/roundrobin.go:21-28 | by at most two over up to 2^64 calls |
| Balancer.WrapUnnoticedExactly | internal/balancer/roundrobin.go:21-28 | counts stay within one over every run if and only if n divides 2^64 |
| LeastConn.Least | internal/balancer/leastconn.go:29-39 | the position found is least loaded, and the first such |
| LeastConn.LeastConnections.Next | internal/balancer/leastconn.go:25-43 | the scan picks that endpoint and its count alone goes up by one |
| LeastConn.LeastConnections.Done | internal/balancer/leastconn.go:47-55 | the count goes down by one, not below zero |
| LeastConn.CountsAreOutstanding | internal/balancer/leastconn.go:25-55 | with matched Dones each count is the endpoint's picks not yet reported done |
| LeastConn.ClampNeverFires | internal/balancer/leastconn.go:52-54 | with matched Dones the decrement never goes below zero |
| LeastConn.NeverBelowZero | internal/balancer/leastconn.go:47-55 | with any Dones, matched or not, no count goes below zero and one too many changes none |
| LeastConn.PeakLoad | internal/balancer/leastconn.go:25-55 | no count ever exceeds ceil(P / n), P the highest total concurrency so far |
| LeastConn.PeakLoadIsReached | internal/balancer/leastconn.go:25-43 | whenever the total is at its peak some endpoint carries exactly that share, which no assignment of the total to n endpoints undercuts |
| Labels.JoinSnoc | internal/metrics/prometheus.go:39 | a key is its labels in order with the separator between them |
| Labels.KeyRoundTrip | internal/metrics/prometheus.go:38-43 | splitting a joined key gives the labels back if and only if there is one and none contains the separator |
| Labels.FormatLabels | internal/metrics/prometheus.go:328-345 | the loop prints the block of all name-value pairs |
| Labels.MergeLabels | internal/metrics/prometheus.go:287-308 | it prints what formatting would with one more pair at the end |
| Labels.Looks | internal/metrics/prometheus.go:328-345 | the printed format, written out for two labels and for none |
| Labels.TextRoundTrip | internal/metrics/prometheus.go:328-345 | printed labels parse back if and only if no name contains `=` and no value a quote |
| Labels.FirstMayQuote | internal/metrics/prometheus.go:328-345 | under the same names, values of which only the first may hold quotes print the same only if they are the same |
| Labels.QuotesConfuse | internal/metrics/prometheus.go:338-341 | under any two label names, different values, one with a quote in it, print the same |
| Labels.LabelsSurvive | internal/metrics/prometheus.go:231-238 | from the labels counted, through key and text, the same labels are read |
| Metrics.CounterVec.Increment | internal/metrics/prometheus.go:38-43 | the joined key's count goes up by one and no other changes |
| SortedKeys.OneListing | internal/metrics/prometheus.go:310-326 | a set of keys has only one ascending listing, so the order a map is walked in makes no difference |
| Metrics.CounterVec.Render | internal/metrics/prometheus.go:231-240 | one line for each key in ascending order: the name, the text of its split labels, its value |
| Metrics.LinesAreDistinct | internal/metrics/prometheus.go:231-240 | after any increments with quotes in first labels only, no two rendered lines have the same label text |
| Metrics.RenderedCountersReadBack | internal/metrics/prometheus.go:231-240 | after any increments with clean labels, every rendered line reads back as labels that were counted and how often they were |
| Metrics.AllCountedAreRendered | internal/metrics/prometheus.go:231-240 | all labels counted have their line, quotes or not |
| Metrics.Registry.RecordRequest | internal/metrics/prometheus.go:163-166 | one count under route, method and status, one observation under route and method, nothing else |
| Metrics.HistogramVec.Observe | internal/metrics/prometheus.go:122-138 | the key's histogram alone gains the observation; others and their objects are untouched |
| Metrics.HistogramVec.Render | internal/metrics/prometheus.go:263-285 | for each key in ascending order: a bucket line for each bound in turn, then +Inf, sum and count, with their label text |
| Metrics.BucketsCount | internal/metrics/prometheus.go:131-137 | for any bounds and observations a bucket is the number of its key's observations at or below its bound, times how often the bound is listed; count and sum are those of its key's observations |
| Metrics.RenderedCumulative | internal/metrics/prometheus.go:269-281 | with ascending bounds every line of a key in full: buckets that do not decrease up to +Inf, then the sum and the number of all observations |
| Metrics.EveryKeyHasItsLines | internal/metrics/prometheus.go:267-282 | each key's lines stand at the place its order gives it, and there are no others |
| Rewrite.OneSlashAtTheSeam | internal/server/server.go:459-466 | the join keeps everything but the slashes at the seam and puts exactly one there |
| Rewrite.JoiningAssociative | internal/server/server.go:459-466 | joining is associative over all strings |
| Rewrite.MergeKeepsParams | internal/server/server.go:442-447 | the merged query has the target's parameters, then the request's |
| Rewrite.MergeMonoid | internal/server/server.go:442-447 | merging is associative with the empty query as identity |
| Rewrite.Request.Direct | internal/server/server.go:431-453 | every field of the outgoing request, and no change without a target |
| Responses.StatusRecorder.WriteHeader | internal/server/server.go:409-415 | the recorded status is the first status line ever sent on, and every line is sent on |
| Responses.StatusRecorder.Write | internal/server/server.go:417-422 | body bytes before any status count as 200 |
| Gateway.NeverStuck | internal/server/server.go:184-267 | in every reachable state every unfinished request has a next step |
| Gateway.InvAlways | internal/server/server.go:225-266 | in every reachable state keys and breakers correspond one to one, and every breaker a request holds is the one stored under its route and endpoint |
| Gateway.ReportsToItsOwnBreaker | internal/server/server.go:229-266 | the second lookup finds the breaker that admitted the request, and that one alone is told the result |
| GatewayAnswers.EveryAnswerHasItsCause | internal/server/server.go:197-251 | every request has its arrival's method and client; every answered one has a step that caused exactly its status: no match 404, no credentials 401, a call the limiter refused 429, no endpoints or an open breaker 503, or the upstream |
| GatewayAnswers.ResultsAreReported | internal/server/server.go:252-266 | what the upstream answered is the request's status, and its breaker hears of it if and only if there was one; never after an abort |
| GatewayAnswers.RecordTells | internal/server/server.go:257-265 | it hears a failure for 500 and above and a success for 1 to 499, which decides it if half-open; no other breaker hears anything |
| GatewayOrder.OnlyThroughEveryCheck | internal/server/server.go:201-251 | a request is sent upstream only after being matched, then authenticated, then let by the limiter, then given the endpoint whose turn it was, then admitted by that endpoint's breaker |
| GatewayOrder.RefusalsAreProper | internal/server/server.go:201-242 | a request that returned without an endpoint was answered 404 for no route, 401, 429, or 503 for no endpoint, and one its breaker refused 503 |
| GatewayLimiter.PassedAreAllowed | internal/server/server.go:212-215 | requests get past by way of memory exactly as often as a limiter that sees the projected calls allows |
| GatewayLimiter.PassedRedisAreAllowed | internal/middleware/ratelimit.go:43-56 | requests get past by way of Redis at most as often as a server that runs the projected scripts allows |
| GatewayLimiter.ClientBound | internal/server/server.go:345-384 | under every interleaving, failures of Redis and other replicas' calls, one client of one route gets at most (m + 1) * limit - 1 requests past in m windows by way of memory, and as many by way of Redis if windows are whole milliseconds |
| GatewayLimiter.UnlimitedNeverRefused | internal/middleware/ratelimit.go:38-40 | for a route without a limit, or with a disabled one, the limiter is never called and the gateway never answers 429 |
| GatewayLimiter.ClientsAreIsolated | internal/middleware/ratelimit.go:111-143 | with route IDs apart, both back ends give one client of one route the answers it would get if nobody else called |
| GatewayBalancing.SpreadAlways | internal/server/server.go:225-227 | each position of a route has exactly the requests a round robin counting from zero gives it |
| GatewayBalancing.SpreadSince | internal/server/server.go:225-227 | the same from any moment of a run on, counting from where the balancer was then |
| GatewayBalancing.CircuitOpenShare | internal/server/server.go:225-242 | if from some moment on exactly the breakers of f of n positions reject, of the k requests balanced since, between f * floor(k/n) and f * ceil(k/n) are answered CIRCUIT_OPEN or about to be: exactly those sent to the f |
| GatewayOutage.RejectionsHappen | internal/server/server.go:229-242 | a run with one of two breakers open from some moment on and one of the two requests balanced since answered CIRCUIT_OPEN |
| GatewayBreakers.BreakerProjection | internal/server/server.go:229-266 | each breaker's state is that of a breaker that sees only its own admissions and results |
| GatewayBreakers.AdmissionsAreAccountedFor | internal/server/server.go:229-266 | admissions are results plus requests let through and not reported, at every moment |
| GatewayBreakers.DeadUpstreamLoad | internal/server/server.go:229-266 | the dead-upstream bound for any breaker of the gateway whose upstream only answers 500 and above, whatever other routes do |
| GatewayBreakers.HealthyNeverTrips | internal/server/server.go:257-265 | a breaker whose requests are all answered below 500 hears no failure, never trips and is closed |
| GatewayBreakers.HalfOpenLoad | internal/server/server.go:229-266 | a half-open phase of any breaker of the gateway lets through no more requests than may be pending on it, whatever the upstream answers |
| GatewayBreakers.BreakersAreNotShared | internal/middleware/circuitbreaker.go:157 | with route IDs apart, requests share a breaker only if they share route and endpoint, and it has their route's configuration |
| GatewayMetrics.ActiveGauge | internal/server/server.go:187-192 | the gauge is the number of requests between its increment and its decrement |
| GatewayMetrics.TotalsPerStatus | internal/server/server.go:189-197 | for every label, method and status the total is the number of requests counted with exactly them, "unknown" standing for no route |
| GatewayMetrics.DigitsAreDecimal | internal/server/server.go:194 | the status label is the status in decimal without leading zeros |
| GatewayMetrics.TotalsMatchDurations | internal/metrics/prometheus.go:163-166 | for every route and method the totals over all statuses exceed the histogram count by the requests between the two recording steps, and equal it at quiescence |
| GatewayMetrics.DurationsTell | internal/server/server.go:189-197 | a label and method's histogram has the number, the sum and for each bound the count of the durations its requests observed |
| GatewayMetrics.RejectionsCounted | internal/server/server.go:375-380 | the rejection counter of a route is the number of its requests the gateway answered 429 |

## Left out

- Listener, transport, the reverse proxy's internals, shutdown, signals, logging and configuration loading: input and output. The upstream is a final status of its choosing or an abort.
- Responses with a 1xx status: the first status written is taken to be the final one.
- JWT and API-key validation, the key store and request IDs: authentication is a free yes or no.
- Route matching and the discovery registry: any choice of a configured route, and a fixed list of endpoints per route. (The code matches a pattern ending in `/*` as a bare string prefix, so `/api/*` also takes `/apiary`.)
- BreakerStore.BreakerStore.Snapshot: reads every breaker at one instant, as a method without interleaving does; the code locks the breakers one after the other (`internal/middleware/circuitbreaker.go:185-187`), so states of different moments can mix.
- A gateway without Redis is one that never calls it: the runs of the state machine include those. Other replicas are taken to have the same routes.
- `checkRateLimit`'s other headers: only Retry-After is modelled, as a number, and without the rounding of seconds held in floating point.
- Counts in counters, entries and histograms are unbounded: an overflow after 2^63 or 2^64 events and the loss of whole numbers in floating point above 2^53 are not modelled.
- Histogram sums and bounds are exact reals, and a bound's `%g` text is a parameter of the rendering and a value is not printed but left a number; HELP and TYPE lines are left out.
- The breaker-state gauge and its export loop: they overwrite a copy of the snapshot.
- Redis networking and clock drift between replicas: one clock, and a call that is answered, never ran, or ran with its reply lost.
- Weights, retries, the route timeout and `half_open_max_requests`: nothing reads them.
- Least connections inside the gateway: only round robin is ever created.
