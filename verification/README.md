# Verification of the shared-state core

A Dafny model of the parts of the backend in which several callers, processes or migrations
change the same state, with proofs of what the code promises about them.

| file | what it models |
|---|---|
| `SingleFlight.dfy`, `SingleFlightBudget.dfy`, `SingleFlightRecency.dfy` | the keyed lock table with LRU eviction (`AsyncSingleFlight`), how many keys it can bear, and what its orders mean |
| `CacheKeys.dfy`, `GenerationalCache.dfy` | the read-through cache whose keys carry a generation, for any number of processes |
| `CacheNamespaces.dfy` | several namespaces of that cache on one Redis |
| `CacheCoalescing.dfy`, `CacheLimits.dfy` | single flight inside that cache, and where its freshness ends |
| `InstallationTokens.dfy`, `InstallationTokensLife.dfy` | the installation-token cache, over the same lock table, and how long a token serves |
| `RedisLease.dfy` | the expiring lease with owner tokens and the singleton runner |
| `HttpClientPool.dfy`, `HttpClientPoolRecency.dfy` | the bounded pool of shared HTTP clients, and which one it evicts |
| `Pagination.dfy` | the cursor walk, on a fixed and on a changing table |
| `RateLimit.dfy` | the fixed-window counter |
| `Sessions.dfy`, `RefreshRace.dfy` | refresh sessions, run serially and with overlapping refreshes |
| `SessionCache.dfy` | the cached validity bit against the committed row |
| `RequestContext.dfy` | nested context binding and the header round trip |
| `SseStream.dfy` | what a live stream emits, and its slots |
| `WorkspaceMigration.dfy`, `SkillBackfill.dfy` | two data migrations |
| `Percentile.dfy`, `Rounding.dfy` | the timing summary |

Asynchronous code is a step relation: one event is the code between two suspension points, and a
run is any sequence of events of any number of callers, so every theorem about runs covers every
interleaving. Redis is a linearizable map with expiry and a clock, the database a committed table.
Objects that the source updates in place are classes. Their methods are proved to make the steps of
these relations, or to compute the functions from which the steps are built.

Where the code and its stated intention differ, the model follows the code and gives the exact
condition:

- the first bump of a fresh namespace does not change its effective generation
  (`BumpProtectsExactlyWhenStored`);
- two namespaces of the cache can share a name exactly when one is the other followed by what reads as
  a version of it, which the namespaces of the code never are (`CollideExactly`, `NamesApart`);
- single flight excludes two loaders of one key for all schedules only while there are at most
  `max_keys` keys (`ExclusionExactlyWithinBudget`);
- the setters that read the generation when they store can publish older data under the new
  generation, to later calls and to calls already under way (`LateStoreProtectsExactly`,
  `LateStoreServesOld`, `LateStoreServesWaiting`);
- the accounts of the client pool survive exactly the runs without a shutdown under a lease
  (`AccountedExactlyWhenCalm`);
- a caller that crashes between the two commands of the rate limiter can lock its key for good, and
  exactly the used-up counters without an expiry are locked (`LockedOutExactly`, `CrashCanLockOut`);
- each clear of a rate limit inside a window admits up to one more limit (`PerWindow`,
  `WindowBoundIsMet`);
- two overlapping refreshes of one token are both accepted (`SecondAcceptedExactly`);
- a password reset does not end the session of a refresh that is under way
  (`ActiveAfterResetExactly`);
- a token whose session expires at the very instant of a password reset can still be refreshed at
  that instant (`RefreshAfterReset`, `BoundaryTokenSurvivesReset`);
- a second run of the skill backfill can insert again when the database returns the agents in
  another order (`IdempotentExactly`, `ReorderedRunDuplicates`);
- sanitising twice, and so sending context through task headers, can drop a trailing space that the
  length limit exposed (`SanitizeTwice`, `HeadersRoundTrip`).

Check everything with `dafny verify dfyconfig.toml`.

## Model

| member | source | states |
|---|---|---|
| CacheKeys.DecimalRoundTrip | backend/core/cache.py:255-257 | the decimal text of a generation determines it |
| CacheKeys.VersionedKeyInjective | backend/core/cache.py:255-257 | two (generation, value) pairs of one namespace share an effective key only if they are equal, whatever the value contains |
| CacheKeys.CollideExactly | backend/core/cache.py:255-257 | two namespaces can share a name if and only if they are equal, or one is the other followed by what reads as a version of it |
| CacheKeys.NamesApart | backend/core/cache.py:255-257 | for namespaces in which ":v" does not occur two names are equal if and only if namespace, generation and value are |
| CacheKeys.CounterApart | backend/core/cache.py:231-257 | no entry shares its name with a generation counter, for namespaces that do not begin like one |
| SingleFlight.EvictIsOnePass | backend/core/cache.py:104-114 | the rescanning loop removes exactly the oldest idle locks, as many as the excess asks for, and keeps the survivors in order |
| SingleFlight.EvictOutcome | backend/core/cache.py:104-114 | when the loop stops the table is within the bound or every lock left is held; it never evicts below the bound; only idle locks are gone |
| SingleFlight.StepKeeps | backend/core/cache.py:116-129 | every atomic segment of `run`, and cancellation, keeps the table, the queues and the callers consistent |
| SingleFlight.RunKeeps | backend/core/cache.py:96-129 | the same over every run |
| SingleFlight.ExclusionUnlessOrphaned | backend/core/cache.py:104-129 | in every run two callers load one key together only while one of them refers to a lock that was evicted under a caller and is no longer in the table |
| SingleFlight.AdriftWasOrphaned | backend/core/cache.py:104-114 | a caller refers to a lock outside the table only after that lock was evicted under a caller |
| SingleFlight.QueueIsServed | backend/core/cache.py:123-129 | no lost wake-up: a queued caller always has a holder ahead that can leave, or a woken head that can take the lock |
| SingleFlightRecency.TableInCallOrder | backend/core/cache.py:116-123 | in every run the lock table is in the order of the last call for each key |
| SingleFlightRecency.EvictsLeastRecent | backend/core/cache.py:104-129 | a key that is evicted was idle, and its last call is older than that of every idle key that stays |
| SingleFlightRecency.QueuesInCallOrder | backend/core/cache.py:124-126 | in every run the callers queue for a lock in the order in which they came |
| SingleFlightRecency.FirstComeFirstServed | backend/core/cache.py:124-126 | a waiter takes its lock only before all those who queue for the same lock and came later |
| SingleFlightBudget.WithinBudgetNothingOrphaned | backend/core/cache.py:104-129 | with at most `max_keys` keys seen no referenced lock is ever evicted |
| SingleFlightBudget.ExclusionExactlyWithinBudget | backend/core/cache.py:99-129 | callers on a set of keys can never overlap, under any schedule, if and only if there are at most `max_keys` keys |
| SingleFlightBudget.IntruderOrphaned | backend/core/cache.py:109-123 | a new key that finds the table full of held locks loads under a lock that was evicted at once |
| SingleFlight.AsyncSingleFlight.constructor | backend/core/cache.py:99-102 | an empty table with a bound of at least 1 |
| SingleFlight.AsyncSingleFlight.OldestIdle | backend/core/cache.py:107-111 | the scan finds the least recently used unlocked lock |
| SingleFlight.AsyncSingleFlight.EvictUnlocked | backend/core/cache.py:104-114 | the loop over the fields does what `Evict` specifies |
| SingleFlight.AsyncSingleFlight.Begin | backend/core/cache.py:116-124 | everything `run` does up to its first suspension is one `Enter` step |
| SingleFlight.AsyncSingleFlight.Wake | backend/core/cache.py:124-126 | a woken waiter taking its lock is one `Resume` step |
| SingleFlight.AsyncSingleFlight.Finish | backend/core/cache.py:127-129 | evict while still holding the lock, then release it: one `Leave` step |
| GenerationalCache.NegativeRoundTrip | backend/core/cache.py:316-328 | a cached value, `None` included, is read back as it was, except the marker itself |
| GenerationalCache.BumpMovesGeneration | backend/core/cache.py:235-250 | INCR moves the effective generation by one exactly when a counter of at least 1 is stored |
| GenerationalCache.StepKeepsFresh | backend/core/cache.py:385-418 | every segment keeps each entry and each caller no older than the start of its generation |
| GenerationalCache.NeverOlderThanGeneration | backend/core/cache.py:385-418 | in every interleaving of any number of processes a finished call returns the source as it was at or after the start of the generation it read |
| GenerationalCache.FreshAfterBump | backend/core/cache.py:235-257 | after the bump of a stored counter no later call in any process returns a value from before the bump, whatever is in flight |
| GenerationalCache.LoadedIsAnswered | backend/core/cache.py:406-416 | a call answers what its own loader returned, and raises for a failing store exactly where the policy does not fail open |
| CacheNamespaces.OthersReadTheSame | backend/core/cache.py:255-257 | with any number of namespaces on one Redis: no store, late store or other event of one namespace, except dropping an entry, changes what a call of another reads |
| CacheNamespaces.VersionFreeSeparate | backend/core/cache.py:255-257 | namespaces without ":v" never share a name, which is what that needs |
| CacheNamespaces.StepKeeps | backend/core/cache.py:385-418 | every event of any namespace keeps the entries and calls of all of them no older than their generations |
| CacheNamespaces.FreshAfterBump | backend/core/cache.py:235-257 | so the bump of a stored counter protects the later calls of its namespace, whatever the other namespaces do on the same Redis and in the same lock tables |
| CacheLimits.BumpProtectsExactlyWhenStored | backend/core/cache.py:235-250 | that protection holds for all runs if and only if the counter was already stored (an absent one is read as 1 and incremented to 1) |
| CacheLimits.LateStoreProtectsExactly | backend/core/cache.py:441-453 | a setter that reads the generation only when it is about to store: every call of the key that is not decided at the store, whenever it began, is protected under every continuation if and only if either the source was not written and a stored counter then bumped between the reading of its data and of the generation, or a stored counter is bumped again before the store and at the store no call that may still look the key up holds the generation the setter read |
| CacheLimits.LateStoreServesOld | backend/core/cache.py:441-453 | and it happens: a reachable run in which a call begun after write, bump and store answers the value from before the write |
| CacheLimits.LateStoreServesWaiting | backend/core/cache.py:441-453 | also with a further bump before the store: a call that began after write and bump and read the same generation answers the value from before the write |
| CacheCoalescing.FlightIsARun | backend/core/cache.py:398-418 | the lock table of each process makes a run of its own, so the single-flight results apply to it |
| CacheCoalescing.StepKeepsFlight | backend/core/cache.py:385-418 | calls of the cache and callers in the lock table of their process correspond in every step |
| CacheCoalescing.ReachableFlightsOk | backend/core/cache.py:385-418 | and so in every reachable state |
| CacheCoalescing.WithinBudgetNeverAdrift | backend/core/cache.py:99-129 | in a process that met at most `max_keys` names no caller refers to an evicted lock |
| CacheCoalescing.Coalesced | backend/core/cache.py:398-418 | from any moment at which an entry is absent and nobody of a process loads it, as long as that entry is filled and stays: any number of calls of the process on it cause exactly one loader run and give the same answer from the same source version, whatever happens to other entries |
| GenerationalCache.RedisCache.BumpNamespaceGeneration | backend/core/cache.py:246-252 | INCR is one `Bump` step |
| GenerationalCache.RedisCache.TakeVersionedKey | backend/core/cache.py:235-257 | reading the generation is one step, and the name returned is the one the call uses from then on |
| GenerationalCache.RedisCache.GetJsonState | backend/core/cache.py:316-328 | finds an entry exactly when there is a decodable payload, and reads the marker as `None`; an empty or undecodable payload counts as absent |
| GenerationalCache.RedisCache.Look | backend/core/cache.py:396-398 | the first look is one step: a hit ends the call with the decoded value |
| GenerationalCache.RedisCache.LookAgain | backend/core/cache.py:400-405 | the second look, under the lock, is one step: a miss starts the loader |
| GenerationalCache.RedisCache.StoreLoaded | backend/core/cache.py:406-415 | the store is one step; `None` is stored as the marker |
| RedisLease.StepKeeps | backend/core/distributed_lock.py:36-46 | acquire, release, expiry, crash and clock steps keep the key and the holders consistent |
| RedisLease.RunKeeps | backend/core/distributed_lock.py:36-46 | the same over every run with crashes and expiry |
| RedisLease.OverlapOnlyAfterExpiry | backend/core/distributed_lock.py:13-46 | two operations under one key overlap only if the earlier one outlived its lease |
| RedisLease.SingletonWithinLease | backend/workers/orchestration.py:18-28 | if every operation finishes within `ttl_ms`, at most one runs at any time |
| RedisLease.OutlivingCanOverlap | backend/core/distributed_lock.py:36-46 | the bound is exact: one millisecond more is enough for an overlap, for every ttl |
| RedisLease.LeaseKeptWhileWorking | backend/core/distributed_lock.py:13-18 | until its lease runs out no other release or acquisition touches a worker's key |
| RedisLease.FreeAfterTtl | backend/core/distributed_lock.py:31-39 | after a crash the key can be acquired again one ttl later |
| RedisLease.HeldThroughout | backend/core/distributed_lock.py:13-46 | while less than the remaining lease passes the key stays the holder's, whatever others try, and its own release removes it |
| RedisLease.Lease.constructor | backend/core/distributed_lock.py:28-34 | a lease of at least one second, not acquired |
| RedisLease.Lease.Acquire | backend/core/distributed_lock.py:36-39 | SET NX PX: succeeds exactly on a free key, contention changes nothing |
| RedisLease.Lease.Release | backend/core/distributed_lock.py:41-46 | compare-and-delete, only after a successful acquisition |
| RedisLease.RunSingleton | backend/workers/orchestration.py:18-28 | runs the operation exactly when the lease was free and releases it on the way out |
| HttpClientPool.IndexOf | backend/core/http_clients.py:133-133 | the dictionary lookup |
| HttpClientPool.LruIdle | backend/core/http_clients.py:116-119 | the victim is the first of the least recently used idle entries; none exactly if all are in use |
| HttpClientPool.MakeRoomKeeps | backend/core/http_clients.py:140-144 | the eviction loop keeps the accounts and ends below the bound or with every entry in use |
| HttpClientPool.MakeRoomFails | backend/core/http_clients.py:140-144 | it fails exactly on a full pool of leased entries |
| HttpClientPool.RunKeeps | backend/core/http_clients.py:125-158 | the accounts hold over every run without shutdown under leases |
| HttpClientPool.PoolAccounts | backend/core/http_clients.py:115-176 | `in_use` equals the leases out, no leased client is closed, the bound holds, created minus closed is the number of entries |
| HttpClientPool.AccountedExactlyWhenCalm | backend/core/http_clients.py:115-168 | the accounts hold at every moment of a run if and only if the pool is never shut down while a lease is out |
| HttpClientPool.RejectedExactlyWhenAllLeased | backend/core/http_clients.py:125-149 | `acquire` refuses if and only if the key is new, the pool is full and every entry is leased; otherwise it gives an open client, shared if the key was there |
| HttpClientPoolRecency.LastUsedIsLastUse | backend/core/http_clients.py:125-158 | in every calm run the pool knows of each client when its key was last leased or given back |
| HttpClientPoolRecency.EvictsLeastRecentlyUsed | backend/core/http_clients.py:115-149 | `acquire` lets an entry go only for a key that has none in a full pool; then exactly one goes, without a lease out, and no idle entry that stays was last used before it |
| HttpClientPool.ShutdownWhileLeasedBreaksCounts | backend/core/http_clients.py:151-168 | `aclose` under a lease, then a late release, can also leave a leased client counted as idle, for every pool size |
| HttpClientPool.ExternalHttpClientPool.constructor | backend/core/http_clients.py:80-86 | an empty pool |
| HttpClientPool.ExternalHttpClientPool.LeastRecentlyUsedIdle | backend/core/http_clients.py:116-119 | the scan computes `LruIdle` |
| HttpClientPool.ExternalHttpClientPool.EvictIdleLru | backend/core/http_clients.py:115-123 | closes and removes that entry and counts it, or reports that nothing is idle |
| HttpClientPool.ExternalHttpClientPool.MakeSpace | backend/core/http_clients.py:140-144 | the loop over the objects does what `MakeRoom` specifies |
| HttpClientPool.ExternalHttpClientPool.AcquireClient | backend/core/http_clients.py:125-149 | shares, creates after eviction, or refuses, with the counters |
| HttpClientPool.ExternalHttpClientPool.ReleaseClient | backend/core/http_clients.py:151-158 | gives one use back, never below zero, and ignores an unknown key |
| HttpClientPool.ExternalHttpClientPool.Aclose | backend/core/http_clients.py:160-168 | empties the pool and counts every client as closed |
| Pagination.SortDescSorted | backend/core/pagination.py:117-118 | the scan is the table in descending order |
| Pagination.StrLessIsDictionaryOrder | backend/core/pagination.py:117-118 | the comparison of ids is dictionary order: a proper prefix is smaller, else the first differing character decides |
| Pagination.ScanIsNewestFirst | backend/core/pagination.py:117-118 | the scan has the rows by falling time, and those of one time by falling id in that order |
| Pagination.FetchIsNextPage | backend/core/pagination.py:31-45 | a page is the next `limit` rows after the cursor and has no next cursor exactly when nothing is left |
| Pagination.FilterIsSuffix | backend/core/pagination.py:60-71 | the cursor predicate selects a suffix of the sorted scan |
| Pagination.SimulateDescTimeIdPages | backend/core/pagination.py:104-145 | the loop computes the walk from the first row; it raises where the source does |
| Pagination.WalkIsScanExactlyWhenCutsClean | backend/core/pagination.py:104-145 | the pages are full except perhaps the last, and concatenate to the sorted scan if and only if no page is cut between rows the cursor cannot tell apart |
| Pagination.WalkIsScan | backend/core/pagination.py:104-145 | unique non-empty ids are enough |
| Pagination.WalkIsNewestFirst | backend/core/pagination.py:104-145 | the walk then emits every row once, strictly newest first |
| Pagination.WalkSucceedsExactly | backend/core/pagination.py:36-45 | the walk raises exactly for limits below 1, except limit 0 on an empty table |
| Pagination.FetchFacts | backend/core/pagination.py:31-71 | one fetch: rows strictly after the cursor, newest first; the rest of the table is strictly behind the page |
| Pagination.PageIsNewestFirst | backend/core/pagination.py:31-71 | the same spelled out: a page has rows older than the cursor, strictly newest first, and every other row older than the cursor is older than its last row, the next cursor |
| Pagination.ChangingWalk | backend/core/pagination.py:31-71 | while rows come and go between fetches: strictly descending, no row twice, and a completed walk emits every row present at every fetch |
| Pagination.ChangingWalkIsNewestFirst | backend/core/pagination.py:31-71 | what a walk over a changing table emits is strictly newest first, too |
| RateLimit.StepKeeps | backend/core/rate_limit.py:14-20 | INCR, EXPIRE and clock steps keep lifetimes a window apart and their counts right |
| RateLimit.RunKeeps | backend/core/rate_limit.py:14-20 | the same in every run in which nobody clears the key |
| RateLimit.PerLifetime | backend/core/rate_limit.py:14-20 | at most `max_attempts` admissions in a counter lifetime, whatever happens to the counter |
| RateLimit.StepWithinAllowance | backend/core/rate_limit.py:14-40 | every step, clears included, keeps the admissions of an interval within what the current counter and the clears so far allow |
| RateLimit.PerWindow | backend/core/rate_limit.py:14-40 | in every run a half-open interval of one window with k clears in it sees at most (k + 2) `max_attempts` - 1 admissions, for every interleaving, also if the caller owing the expiry crashes; so fewer than twice `max_attempts` while nobody clears the key |
| RateLimit.WindowBoundIsMet | backend/core/rate_limit.py:14-40 | that bound is met by some run and interval, for every limit, window and number of clears |
| RateLimit.ClearingLiftsBound | backend/core/rate_limit.py:39-40 | so no bound is independent of the clears: any number of calls can be admitted within one instant |
| RateLimit.LockedOut | backend/core/rate_limit.py:14-20 | if whoever owes the expiry crashed, a used-up counter admits no call ever again until a clear |
| RateLimit.LockedOutExactly | backend/core/rate_limit.py:14-20 | with crashed callers and without clears no call is admitted ever again if and only if the limit is used up and the counter has no expiry; every other key recovers by itself |
| RateLimit.CrashCanLockOut | backend/core/rate_limit.py:14-20 | and one crash between the two commands can lead there, for every limit and window |
| RateLimit.RecoversWithinWindow | backend/core/rate_limit.py:14-20 | in every run a key whose counter has an expiry, or that has none, admits a call again once a whole window has passed |
| RateLimit.NoWindowAdmitsAll | backend/core/rate_limit.py:14-20 | with a window of zero or less the expiry deletes the counter, so uninterrupted calls are all admitted |
| RateLimit.ClearUnlocks | backend/core/rate_limit.py:39-40 | a clear lets the next call through from every state, also from that one |
| RateLimit.EnforceLagsByOne | backend/core/rate_limit.py:14-29 | `enforce_rate_limit` and `check_rate_limit` disagree at exactly the limit and nowhere else |
| RateLimit.LimitedKey.CheckRateLimit | backend/core/rate_limit.py:14-20 | an uninterrupted call is its two steps, and is admitted exactly when the log of admissions grows |
| Sessions.RevokeActiveRows | backend/modules/identity_access/repository.py:62-77 | revoking all marks exactly the user's active sessions and nothing else |
| Sessions.StepLater | backend/modules/identity_access/service.py:116-199 | no operation undoes a revocation or changes owner or expiry of a session |
| Sessions.RunLater | backend/modules/identity_access/service.py:116-199 | the same over every serial run |
| Sessions.EachTokenAcceptedOnce | backend/modules/identity_access/service.py:160-191 | in every serial run each refresh token is accepted by `refresh` at most once |
| Sessions.RotationReplaces | backend/modules/identity_access/service.py:160-191 | an accepted refresh ends the old session, begins one for the same user and touches no other |
| Sessions.TokenGoodUntilExpiry | backend/modules/identity_access/service.py:160-191 | after a sign-in, over every continuation that does not end the session: `refresh` accepts the token and rotates it if and only if it is not past the expiry and the user is there, enabled and, where required, verified; otherwise the first failing check names the refusal |
| Sessions.SignInRefused | backend/modules/identity_access/service.py:116-151 | nobody is signed in with wrong credentials, unknown, disabled, or unverified where that is required |
| Sessions.EndedForGood | backend/modules/identity_access/service.py:160-199 | after its logout or its use a token is invalid in every run and its session never active |
| Sessions.LogoutEndsOne | backend/modules/identity_access/service.py:193-199 | a logout leaves every other session as it was |
| Sessions.ResetEndsSessions | backend/modules/identity_access/service.py:304-317 | after a reset no earlier session of the user is ever active again |
| Sessions.RefusedAfterReset | backend/modules/identity_access/service.py:164-167 | after a reset every run refuses an earlier token unless its session expired at the very instant of the reset, which is also now |
| Sessions.RefreshAfterReset | backend/modules/identity_access/service.py:164-167 | an earlier token can be accepted after a reset if and only if it was unrevoked and its session expired at that instant |
| Sessions.BoundaryTokenSurvivesReset | backend/modules/identity_access/service.py:164-167 | and the case is reached: sign in, let the session run out, reset, refresh |
| Sessions.IdentityService.RevokeAll | backend/modules/identity_access/repository.py:62-77 | select the active sessions, then mark them |
| Sessions.IdentityService.RefreshToken | backend/modules/identity_access/service.py:160-191 | the checks in order, then revoke, drop the cached bit and create |
| Sessions.IdentityService.LogoutToken | backend/modules/identity_access/service.py:193-199 | revokes whatever the token finds and drops its cached bit |
| Sessions.IdentityService.ResetUserPassword | backend/modules/identity_access/service.py:304-317 | revokes the user's sessions and drops all cached bits of the user |
| RefreshRace.StepKeeps | backend/modules/identity_access/service.py:160-191 | reading and committing a refresh are two steps, and every step keeps the log of acceptances consistent |
| RefreshRace.AcceptedTwiceOverlapped | backend/modules/identity_access/service.py:160-191 | in every run, two requests accepted for one token each read it before the other committed |
| RefreshRace.OverlappedBothAccepted | backend/modules/identity_access/service.py:160-191 | two requests that both read an acceptable token are both accepted, whatever happens before they commit |
| RefreshRace.SecondAcceptedExactly | backend/modules/identity_access/service.py:160-191 | a second request is accepted if and only if it reads an acceptable token before the first one commits |
| RefreshRace.RefreshSurvivesReset | backend/modules/identity_access/service.py:160-191 | a refresh that read its token before a password reset and commits after it, whatever happens in between: its new session belongs to the same user and is active exactly when sessions get a positive lifetime |
| RefreshRace.ActiveAfterResetExactly | backend/modules/identity_access/service.py:304-317 | after a reset some run without a new sign-in gives the user an active session if and only if lifetimes are positive and a refresh of the user was under way at the reset or an unrevoked session expired at that instant; chains of refreshes included |
| SessionCache.TtlMonotone | backend/core/cache.py:51-56 | `ttl_for` is at least 1 and monotone in the draw |
| SessionCache.TtlForBounds | backend/core/cache.py:51-56 | every draw lies between the two extreme draws |
| SessionCache.JitterCut | backend/core/cache.py:51-56 | the jitter ratio is cut to the nearest value between 0 and one half |
| SessionCache.TtlIsNearest | backend/core/cache.py:51-56 | the lifetime is the drawn one to the nearest second, and at least one second |
| SessionCache.SessionTtl | backend/core/cache.py:134-135 | with the shipped settings the session bit lives 57 to 63 seconds |
| SessionCache.StepKeeps | backend/api/deps/auth.py:39-45 | every step keeps each cached bit backed by a row that was valid when it was read |
| SessionCache.AcceptedWasValid | backend/api/deps/auth.py:39-45 | a session accepted at time t was committed, unrevoked, unexpired and the user's less than the longest lifetime plus the check-to-store gap before t |
| SessionCache.RevocationTakesEffect | backend/modules/identity_access/service.py:193-199 | after a committed revocation, acceptances stop before the longest lifetime plus the gap has passed, although the cache is invalidated before the commit |
| SessionCache.BoundIsMet | backend/core/cache.py:573-593 | that bound is met for every lifetime and gap |
| SessionCache.ShippedBound | backend/core/cache.py:134-135 | with the shipped settings the staleness bound is 63 seconds plus the gap |
| SessionCache.ShippedDrawsAllowed | backend/core/cache.py:51-56 | and every lifetime they can draw is covered by it |
| SessionCache.BitGoodForItsTtl | backend/core/cache.py:560-593 | a stored bit lets requests in for exactly its lifetime while nobody drops or stores it again |
| SessionCache.InvalidatedUntilStored | backend/core/cache.py:587-603 | after an invalidation of the session or its user no request is accepted on the bit until it is stored again; bits of other users stay |
| SessionCache.RowDecides | backend/api/deps/auth.py:39-45 | without a live bit a session is accepted for its own user from its commit until it expires, and not once its revocation is committed |
| SessionCache.UninterruptedOutcome | backend/api/deps/auth.py:39-45 | an uninterrupted request is accepted exactly on a live bit or a valid row, then the bit is live; otherwise it is dropped |
| SessionCache.SessionGate.GetCachedValid | backend/core/cache.py:560-570 | the cached bit is valid exactly while it is there and unexpired |
| SessionCache.SessionGate.CheckSession | backend/api/deps/auth.py:39-45 | the cached bit, then the row: the four steps of a request |
| SessionCache.SessionGate.Authenticate | backend/api/deps/auth.py:32-48 | an unknown or disabled user or a wrong token type is refused before the cache is touched; otherwise as the session part decides |
| InstallationTokens.TokenCache.Get | backend/modules/github/installation_token_cache.py:53-60 | answers exactly while the remaining life exceeds the margin and drops the entry otherwise |
| InstallationTokens.StepKeepsFlight | backend/modules/github/installation_token_cache.py:71-89 | callers and lock table correspond in every step |
| InstallationTokens.CachedAnswersUsable | backend/modules/github/installation_token_cache.py:53-89 | every answer was minted for this installation, and a cached answer had more life left than the margin when given |
| InstallationTokens.ReachableFlightOk | backend/modules/github/installation_token_cache.py:71-89 | and so in every reachable state |
| InstallationTokens.WithinBudgetNeverAdrift | backend/modules/github/installation_token_cache.py:71-89 | in a process that met at most `max_keys` installations no caller refers to an evicted lock |
| InstallationTokens.MintedExactlyOnce | backend/modules/github/installation_token_cache.py:71-89 | from any moment without a usable token for an installation, while nothing is invalidated for it, its mints succeed and outlive the margin and none of its callers refers to an evicted lock: exactly one mint, and every call that answers returns that token; other installations and waiters that give up do not matter |
| InstallationTokensLife.HandedOutUntilMargin | backend/modules/github/installation_token_cache.py:53-89 | after a mint, over every continuation that neither invalidates nor mints again: a new call gets that token at once if and only if it has more life left than a minute and than the configured margin |
| InstallationTokensLife.ServesUntilMargin | backend/modules/github/installation_token_cache.py:53-89 | so a token serves up to its margin before it expires |
| InstallationTokensLife.InvalidatedNeverAnswered | backend/modules/github/installation_token_cache.py:32-33 | after an invalidation every call that answers, also one that was waiting, answers a token whose mint ended after it |
| RequestContext.SanitizedShape | backend/core/request_context.py:98-105 | a sanitised value is printable, non-empty, at most 128 long and starts with no space |
| RequestContext.KeepPrintableConcat | backend/core/request_context.py:98-105 | the filter decides about each character on its own and keeps the order |
| RequestContext.SanitizeExactly | backend/core/request_context.py:98-105 | the result is what the printable characters have between their outer spaces, cut to 128; nothing if they are all spaces |
| RequestContext.SanitizeKeepsExactlyClean | backend/core/request_context.py:98-105 | a value is kept exactly when it is clean |
| RequestContext.SanitizeTwice | backend/core/request_context.py:98-105 | a second pass changes a value if and only if the stripped value is longer than the limit and has a space in the last place kept |
| RequestContext.SomeValueChangesTwice | backend/core/request_context.py:98-105 | and there are such values |
| RequestContext.RestoreUndoes | backend/core/request_context.py:131-133 | resetting in reverse puts the entry value back into every assigned field and no other, whatever happened in between |
| RequestContext.BindRestores | backend/core/request_context.py:120-133 | leaving a bind, also by an exception, restores the bound fields and leaves the others as the body left them; a failed bind changes nothing |
| RequestContext.AssignSucceeds | backend/core/request_context.py:112-117 | assigning succeeds exactly when every field is known |
| RequestContext.AssignSetsLast | backend/core/request_context.py:112-117 | each field named gets its sanitised value, the last one if it is named twice; the others keep theirs |
| RequestContext.AssignStopsAtUnknown | backend/core/request_context.py:112-117 | an unknown field raises after the fields before it were assigned |
| RequestContext.ExecInOrder | backend/core/request_context.py:120-133 | code runs in order up to the first exception |
| RequestContext.NothingAfterRaise | backend/core/request_context.py:120-133 | an exception leaves the variables as they were when it was raised, and nothing after it runs |
| RequestContext.HeadersRoundTrip | backend/core/request_context.py:89-144 | only header fields cross, unchanged if and only if none was cut right after a space |
| RequestContext.HeaderFieldCrosses | backend/core/request_context.py:89-144 | field by field: the worker has a header field if and only if the sender has a value for it, the same one unless it was cut right after a space |
| RequestContext.ContextVars.SetContext | backend/core/request_context.py:112-117 | assigns in order and stops at the first unknown field |
| RequestContext.ContextVars.Enter | backend/core/request_context.py:123-129 | the same, with a token for each assignment |
| RequestContext.ContextVars.Exit | backend/core/request_context.py:131-133 | resets the tokens in reverse |
| RequestContext.ContextVars.Run | backend/core/request_context.py:112-133 | any body of nested binds and sets behaves as `Exec` specifies |
| SseStream.EventStream | backend/core/sse_streams.py:38-64 | the loop emits the events of the run over its polls, so exactly the fitting payloads in time, repeats removed |
| SseStream.StaysClosed | backend/core/sse_streams.py:44-47 | once over, a stream emits nothing more |
| SseStream.OpenExactly | backend/core/sse_streams.py:44-47 | a stream is open if and only if every poll found the time not up and the client there |
| SseStream.SnapshotsExactly | backend/core/sse_streams.py:44-58 | the snapshot events show exactly the fitting payloads of the polls before the first one that ends the stream, in order, a payload that did not change shown once |
| SseStream.PayloadSize | backend/core/sse_streams.py:52-52 | the size of a payload is its length in UTF-8; for ASCII its number of characters |
| SseStream.EventsWellSpaced | backend/core/sse_streams.py:52-62 | consecutive snapshots differ, and a heartbeat comes at least an interval after the event before it |
| SseStream.ClientUpToDate | backend/core/sse_streams.py:44-62 | after a poll that fits, the client's last snapshot is the current one and it heard something less than an interval ago; after one that does not, nothing changed |
| SseStream.SlotsConserved | backend/core/sse_streams.py:16-70 | free slots, open streams and responses dropped before they started add up to the capacity |
| SseStream.RefusedExactlyWhenFull | backend/core/sse_streams.py:16-33 | a new connection is refused if and only if every slot is held or lost |
| Percentile.SortFacts | backend/tools/phase0_baseline.py:39-39 | sorting gives an ascending permutation |
| Percentile.Between | backend/tools/phase0_baseline.py:40-47 | an interpolated value lies between its neighbours |
| Percentile.PercentileAtRank | backend/tools/phase0_baseline.py:35-47 | at fraction k/(n-1) the percentile is the value of rank k |
| Percentile.PercentileIsLinear | backend/tools/phase0_baseline.py:35-47 | between two ranks the percentile is linear in the fraction |
| Percentile.PercentileMonotone | backend/tools/phase0_baseline.py:35-47 | a larger fraction never gives a smaller percentile |
| Percentile.SummaryOrdered | backend/tools/phase0_baseline.py:50-58 | min <= p50 <= p95 <= p99 <= max after rounding |
| Rounding.RoundMonotone | backend/tools/phase0_baseline.py:44-47 | rounding half to even is monotone |
| Rounding.RoundIsNearest | backend/tools/phase0_baseline.py:44-47 | it gives the nearest integer, and of two equally near ones the even one |
| WorkspaceMigration.DefaultOfFinds | backend/alembic/versions/h4b5c6d7e8f0_workspace_foundation.py:99-110 | the lookup finds a default workspace of the owner exactly when there is one |
| WorkspaceMigration.BootstrapSucceedsExactly | backend/alembic/versions/h4b5c6d7e8f0_workspace_foundation.py:96-149 | the bootstrap succeeds if and only if no user without a default workspace already owns one under the default slug |
| WorkspaceMigration.BootstrapFailure | backend/alembic/versions/h4b5c6d7e8f0_workspace_foundation.py:96-149 | a failure names the first user who is blocked |
| WorkspaceMigration.BootstrapAppends | backend/alembic/versions/h4b5c6d7e8f0_workspace_foundation.py:116-149 | existing rows stay, workspaces and owner memberships are added in pairs, one default an owner |
| WorkspaceMigration.BootstrapTwice | backend/alembic/versions/h4b5c6d7e8f0_workspace_foundation.py:101-113 | a second bootstrap, with the users in any order, inserts nothing |
| WorkspaceMigration.FreshBootstrap | backend/alembic/versions/h4b5c6d7e8f0_workspace_foundation.py:96-149 | from empty tables every user has exactly one workspace, the default one, and exactly one membership, its active owner |
| WorkspaceMigration.FreshDefault | backend/alembic/versions/h4b5c6d7e8f0_workspace_foundation.py:99-110 | and that workspace is the one the lookup finds |
| WorkspaceMigration.WorkspaceFkTargets | backend/modules/identity_access/workspace_fk_migration.py:17-28 | the loop computes the targets or raises for a missing owner column |
| WorkspaceMigration.TargetsExactly | backend/modules/identity_access/workspace_fk_migration.py:17-28 | it raises exactly when a top-level table other than `workspaces` has no owner column; otherwise the targets are exactly those tables |
| WorkspaceMigration.TargetsFailure | backend/modules/identity_access/workspace_fk_migration.py:17-28 | and names the first such table |
| WorkspaceMigration.NullCountZero | backend/modules/identity_access/workspace_fk_migration.py:43-44 | the count is zero exactly when no NULL is left |
| WorkspaceMigration.NullCountCounts | backend/modules/identity_access/workspace_fk_migration.py:43-44 | and is otherwise the number of rows without a workspace |
| WorkspaceMigration.PrepareExactly | backend/alembic/versions/i5c6d7e8f9a0_workspace_id_top_level.py:62-70 | the first loop passes exactly when every target table has its owner column, and only adds the new column |
| WorkspaceMigration.PrepareFailure | backend/alembic/versions/i5c6d7e8f9a0_workspace_id_top_level.py:62-70 | a failure names the first target that is not ready, and whether its table or its owner column is missing |
| WorkspaceMigration.FillExactly | backend/modules/identity_access/workspace_fk_migration.py:31-41 | the updates reach every target table once, through its own owner column, and nothing else |
| WorkspaceMigration.CheckExactly | backend/alembic/versions/i5c6d7e8f9a0_workspace_id_top_level.py:48-54 | the last loop passes exactly when no target table has a NULL left |
| WorkspaceMigration.CheckFailure | backend/alembic/versions/i5c6d7e8f9a0_workspace_id_top_level.py:48-54 | a failure names the first target with a NULL left and how many it has |
| WorkspaceMigration.UpgradeSucceedsExactly | backend/alembic/versions/i5c6d7e8f9a0_workspace_id_top_level.py:57-77 | the upgrade succeeds if and only if every target has its owner column and every row without a workspace has an owner with a default one |
| WorkspaceMigration.UpgradeEffect | backend/alembic/versions/i5c6d7e8f9a0_workspace_id_top_level.py:57-77 | then each row without a workspace has its owner's default one, and every other row and table is untouched |
| WorkspaceMigration.EndToEnd | backend/alembic/versions/i5c6d7e8f9a0_workspace_id_top_level.py:57-77 | bootstrap then upgrade from fresh workspace tables: never trips the check if and only if the owners of unassigned rows are users, and then every such row points at its owner's workspace |
| WorkspaceMigration.Database.BootstrapWorkspaces | backend/alembic/versions/h4b5c6d7e8f0_workspace_foundation.py:96-149 | the loop over the users is the specified fold; a violation rolls back |
| WorkspaceMigration.Database.UpgradeWorkspaceIds | backend/alembic/versions/i5c6d7e8f9a0_workspace_id_top_level.py:57-77 | add columns, update, check; any failure rolls back |
| WorkspaceMigration.Database.AddColumns | backend/alembic/versions/i5c6d7e8f9a0_workspace_id_top_level.py:62-70 | the first loop, with its two errors |
| WorkspaceMigration.Database.RunUpdates | backend/alembic/versions/i5c6d7e8f9a0_workspace_id_top_level.py:72-73 | the second loop |
| WorkspaceMigration.Database.AssertNoNulls | backend/alembic/versions/i5c6d7e8f9a0_workspace_id_top_level.py:75-77 | the third loop, with the count it reports |
| SkillBackfill.ReferencingStartsWithEarliest | backend/alembic/versions/e8a1c2d3f4b5_workforce_domain_foundation.py:622-638 | the first referencing owner is the owner of the earliest agent that names the slug |
| SkillBackfill.ModalIsMaximal | backend/alembic/versions/e8a1c2d3f4b5_workforce_domain_foundation.py:640-643 | the fallback owner exists when there is any agent and owns at least as many agents as anybody |
| SkillBackfill.ModalCameFirst | backend/alembic/versions/e8a1c2d3f4b5_workforce_domain_foundation.py:640-643 | of the owners with the most agents it is the one whose first agent comes first |
| SkillBackfill.BackfillIsTidy | backend/alembic/versions/e8a1c2d3f4b5_workforce_domain_foundation.py:656-743 | from empty tables: at most one skill a slug, owned by the chosen owner, its current version its own version 1 |
| SkillBackfill.SkillsCarryTheirPack | backend/alembic/versions/e8a1c2d3f4b5_workforce_domain_foundation.py:656-737 | from empty tables: each skill and its version carry the contents of the earliest pack with the slug, with empty texts and lists for missing ones |
| SkillBackfill.SkillsAfter | backend/alembic/versions/e8a1c2d3f4b5_workforce_domain_foundation.py:656-681 | exactly the packs with a chosen owner get a skill, beside what was there |
| SkillBackfill.NothingToDo | backend/alembic/versions/e8a1c2d3f4b5_workforce_domain_foundation.py:671-681 | a run changes nothing if and only if every pack with a chosen owner is there |
| SkillBackfill.IdempotentExactly | backend/alembic/versions/e8a1c2d3f4b5_workforce_domain_foundation.py:613-681 | a second run inserts nothing in whatever order it sees the rows if and only if for every pack all agents naming its slug have one owner, or none names it and one owner alone has the most agents |
| SkillBackfill.SecondRunInsertsNothingExactly | backend/alembic/versions/e8a1c2d3f4b5_workforce_domain_foundation.py:613-681 | for one given order: if and only if it chooses the same owner (or none) for every slug |
| SkillBackfill.SecondRunSameOrder | backend/alembic/versions/e8a1c2d3f4b5_workforce_domain_foundation.py:613-681 | which it does when it sees the agents in the same order |
| SkillBackfill.ReorderedRunDuplicates | backend/alembic/versions/e8a1c2d3f4b5_workforce_domain_foundation.py:617-681 | seen in the other order, two owners naming one slug end with two skills for it |
| SkillBackfill.RequestsAreNames | backend/alembic/versions/e8a1c2d3f4b5_workforce_domain_foundation.py:866-878 | the loops visit exactly the slugs that agents name |
| SkillBackfill.ResolvePrefersOwn | backend/alembic/versions/e8a1c2d3f4b5_workforce_domain_foundation.py:879-896 | a slug resolves to a skill of the agent's owner if there is one, else to any with the slug, else to none |
| SkillBackfill.AssignedAfter | backend/alembic/versions/e8a1c2d3f4b5_workforce_domain_foundation.py:898-925 | an agent is assigned exactly the skills its slugs resolve to, beside what it had |
| SkillBackfill.IdsStayFresh | backend/alembic/versions/e8a1c2d3f4b5_workforce_domain_foundation.py:898-925 | rows are only added, each with an identifier of its own |
| SkillBackfill.ExactlyOneAssignment | backend/alembic/versions/e8a1c2d3f4b5_workforce_domain_foundation.py:861-925 | from empty tables: exactly one assignment for each agent and named slug with a skill |
| SkillBackfill.OnlyNamedAssignments | backend/alembic/versions/e8a1c2d3f4b5_workforce_domain_foundation.py:861-925 | and no other assignment |
| SkillBackfill.SecondAssignmentRun | backend/alembic/versions/e8a1c2d3f4b5_workforce_domain_foundation.py:898-910 | with the skills in place a second run assigns nothing, in any order |
| SkillBackfill.Database.ScanAgents | backend/alembic/versions/e8a1c2d3f4b5_workforce_domain_foundation.py:622-638 | the first loop builds both dictionaries |
| SkillBackfill.AddReferences | backend/alembic/versions/e8a1c2d3f4b5_workforce_domain_foundation.py:632-636 | the inner loop adds the owner once to each named slug |
| SkillBackfill.Database.LargestCount | backend/alembic/versions/e8a1c2d3f4b5_workforce_domain_foundation.py:640-643 | the first key with the largest count |
| SkillBackfill.Database.MigratePack | backend/alembic/versions/e8a1c2d3f4b5_workforce_domain_foundation.py:656-681 | one pack: choose the owner, skip, or insert |
| SkillBackfill.Database.InsertSkill | backend/alembic/versions/e8a1c2d3f4b5_workforce_domain_foundation.py:683-743 | skill, version 1, then the current version |
| SkillBackfill.Database.AssignSlug | backend/alembic/versions/e8a1c2d3f4b5_workforce_domain_foundation.py:878-925 | one slug of one agent: own skill, any skill, insert if missing |
| SkillBackfill.Database.AssignAgent | backend/alembic/versions/e8a1c2d3f4b5_workforce_domain_foundation.py:866-925 | the inner loop over the list of one agent |
| SkillBackfill.Database.BackfillSkills | backend/alembic/versions/e8a1c2d3f4b5_workforce_domain_foundation.py:613-743 | the whole first part, nothing without users |
| SkillBackfill.Database.BackfillAssignments | backend/alembic/versions/e8a1c2d3f4b5_workforce_domain_foundation.py:861-925 | the whole third part |
| SkillBackfill.Database.Upgrade | backend/alembic/versions/e8a1c2d3f4b5_workforce_domain_foundation.py:613-925 | both parts in sequence |

## Left out

- GenerationalCache.FreshAfterBump: assumes that reading the generation never fails; on a Redis error the code falls back to generation 1.
- CacheCoalescing.Coalesced: speaks of the calls of one process, since single flight is process-local, with a lock table that only one namespace uses, and of values that survive JSON serialisation unchanged.
- RefreshRace.OverlappedBothAccepted: rows are read without locks and committed in any order, as under the default isolation level of PostgreSQL.
- CacheNamespaces.VersionFreeSeparate: takes the ids inside the namespaces to contain no ":v" and not to begin with "v", as UUIDs do not.
- SingleFlight.QueueIsServed: cancellation of a waiter is delivered at once, so a waiter that is cancelled after it was woken and before it runs hands on within the same event.
- SingleFlight.AsyncSingleFlight.Begin: the guard is never held across a suspension, so entering is one segment; lock objects are indices into a list of all locks ever made.
- RedisLease.FreeAfterTtl: errors of the release command, which the code logs and swallows, appear only as releases that never happen; tokens of different leases are taken to differ.
- HttpClientPool.PoolAccounts: assumes that closing a client raises no error.
- Pagination.WalkIsScan: ids are compared as Python compares strings; a database collation may order them differently.
- RateLimit.PerWindow: one key; the Retry-After value is not modelled.
- Sessions.EachTokenAcceptedOnce: serial runs; overlapping refreshes of one token are in `RefreshRace`.
- Sessions.IdentityService.RefreshToken: passwords, one-time codes, reset tokens and hashing are checked elsewhere and enter as parameters; cache commands of this class do not fail (in `SessionCache` they may).
- RequestContext.SanitizeKeepsExactlyClean: the printable characters are an arbitrary set, of which white space other than the space is taken not to be a member, as in Python.
- SseStream.SlotsConserved: the short wait for a slot is not modelled, a connection either finds a slot or not; metrics are left out.
- Percentile.PercentileMonotone: exact reals in place of floating point, fractions between 0 and 1.
- WorkspaceMigration.EndToEnd: table names of the inventory are distinct, as they are in the inventory; workspace names, timestamps and schema changes other than the new column are left out.
- WorkspaceMigration.BootstrapAppends: takes the partial unique index on default workspaces as given, since the migration creates it before the loop.
- SkillBackfill.RequestsAreNames: the entries of a skill list are strings, as the ORM model declares them; other JSON values in the list are not modelled.
- SkillBackfill.Database.InsertSkill: columns that are the same in every row and timestamps are left out; identifiers are fresh numbers in place of UUIDs.
- `CACHE_ENABLED` switched off: every cache function is then a pass-through.
- Keys without a namespace: they have no freshness promise to prove.
- The ascending and position cursors: the same argument with the order reversed.
- The seeding of native tool definitions in the workforce migration: a loop of independent existence checks.
- HTTP routes, schemas, ORM models, the workflow runtime and the frontend: field copying or code that is only called from the files above.
- Entry lifetimes of the generational cache: an entry may vanish at any moment, so expiry needs no clock there.
