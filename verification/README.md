# Verified model of the VOLQ-Auth backend

A Dafny model of the stateful core of the VOLQ-Auth Go backend: the in-memory cache and the replay
guard and rate limiter built on it, the client protocol from handshake to released variable, the
life of a licence, key batches, reseller credits, the keyed tables, the listings, the webhook
queue, and three formats (stored password, fingerprint digests, base64). Methods of the source that
change state are methods of classes here, each proved equal to a specification function; what the
source promises is then proved about those functions, mostly over whole runs: every interleaving of
requests, janitor sweeps, administrator operations and clock readings. Check it with
`dafny verify dfyconfig.toml`.

| file | models |
|---|---|
| `Basics.dfy` | options, results, Go's int64 wrap-around |
| `Cache.dfy` | `backend/internal/cache/cache.go`, one atomic step for each locked method |
| `ReplayGuard.dfy` | the clock-skew and nonce check of the client service |
| `RateLimiter.dfy` | the rate-limiting middleware, and the Redis counter beside the in-memory one |
| `Licenses.dfy`, `LicenseRuns.dfy` | licence records, their operations, and whole lives of a licence |
| `KeyGenerator.dfy` | licence keys from masks, one at a time and in batches |
| `CreditLedger.dfy` | reseller credits and the generation of licences that spends them |
| `KeyedTables.dfy` | the user and variable tables, scanned in Go's arbitrary map order |
| `Sessions.dfy`, `AuthService.dfy` | the client protocol: as steps on one world, and as the service's methods |
| `SessionEffects.dfy` | what each request gives its caller: answers, tokens and records, condition by condition |
| `SessionReplay.dfy` | the replay guard inside the protocol: how often one payload can succeed |
| `SessionExamples.dfy` | runs of the protocol that release a variable in the clear and sealed, and grant a payload twice |
| `PasswordHash.dfy` | the Argon2id string as printer and parser |
| `Fingerprint.dfy` | the multiply-and-mix hashes of the C++ and React SDKs |
| `Listings.dfy` | the security log and the paged licence list |
| `WebhookQueue.dfy` | the bounded webhook queue and its worker |

## Conventions

- Times are integers, in nanoseconds; the millisecond clock is their quotient by 1,000,000, rounded
  down. A zero time or a nil pointer of the source is `None`.
- Every cache and store method runs under one mutex, so each is one atomic step.
- Random UUIDs, salts, random letters, derived keys and the clock are parameters. Where the source
  relies on a UUID being new, that is a precondition: the IDs of rows and licences, and the session
  IDs of handshakes.
- Runs have one clock that does not go back. A replay-guard request reads it twice, as the code
  does, with any bounded delay in between; an authentication step reads it once.
- `TIER` is 1: `GetByKey` of the memory store reports every licence as tier 1.

## What the proofs found

- README.md:16 and the replay section of docs/CRYPTOGRAPHY.md promise that duplicates are rejected.
  A nonce and timestamp are accepted at most once exactly when the TTL is longer than twice the
  skew plus the millisecond's truncation and the delay. The code's 60 s is exactly twice its 30 s,
  so a pair can be accepted twice, at the two ends of its window, and never three times; one licence
  payload can so be granted twice (`SessionExamples.PayloadGrantedTwice`).
- README.md:14 promises that every exchange after the handshake is encrypted. A request that
  arrives as bare base64 JSON is answered bare: a released variable is sealed exactly when its
  request was, and `SessionExamples.ReleasedInTheClear` is a run in which one is not.
- A licence request or login may be addressed to a token instead of a session ID. Its answer is then
  sealed with the handshake's key, but the additional data name the token: they are those of the
  handshake exactly if its own session ID was addressed.
- The rate limiter's comment says sliding window; it is a fixed window. It is never stricter than a
  sliding log, and an interval of k windows admits up to (k + 1) · max − 1 requests, a bound that is
  reached.
- A device limit holds exactly when the allowance is already full: a rebinding replaces the bound
  device and nothing ever adds to the list, so a licence with room to spare never fills up.
- Two requests that both read a licence before either writes are both granted if each would be
  alone. Two first uses of different devices under the lock are so granted against the device limit
  exactly when the allowance is full and the second device is not in the list, or the deadline that
  the first sets has already passed.
- A ban or a pause set between the read and the write of a request is lost exactly when the request
  was granted and binds a device, or found the licence expired.
- Prices and durations are unchecked int64 products. A request for keys with no days and without the
  lifetime flag issues keys that never expire, for no credits; so does one for 128 keys of 2^57 days.
  With a minimum of one day, keys that never expire are paid for exactly up to a maximum of
  106,751,991,167,300 days; `CreditLedger.NeverExpiringPaidIff` has the condition for any limits.
- A request for a negative number of days pays the reseller: with no credits at all, one for −400
  days buys a lifetime key. So does one for 10,000 keys of 922,337,203,685,478 days, whose price
  wraps around, and with 5,000 credits it leaves a negative balance. Limits on the days keep
  resellers from issuing more than was granted exactly within 0 and 922,337,203,685,477 (or if they
  admit −2^63 alone, which only turns a balance negative or back), and from being overdrawn exactly
  within 0 and 922,337,203,685,477.
- Credits are conserved modulo 2^64 on every run, and exactly as long as no balance overflows.
- Keys are distinct within a batch only: two batches can hold one key, and a lookup by it then
  depends on the order of the scan.
- An extension between the read and the write of a request that binds keeps the duration and loses
  the deadline.
- A batch larger than the number of keys of its mask never ends, unless a read of the random source
  fails.
- The skew test in wrapping int64 and float64 arithmetic is the mathematical one exactly on clocks
  from −2^63 + 30000 up to, but not including, 2^63 − 30000 ms; outside, the far end of int64 passes.
- A deadline is the last activation plus the current duration modulo 2^64 ns on every run, and
  exactly so while all durations fit int64 nanoseconds, which for the dashboard's days means up to
  106751.

## Model

| member | source | states |
|---|---|---|
| Cache.MemoryCache.Sweep | backend/internal/cache/cache.go:144-157 | a pass of the janitor, in any order of the keys, drops exactly the items whose deadline has strictly passed |
| Cache.MemoryCache.Set | backend/internal/cache/cache.go:162-171 | replaces one slot; a TTL of zero or less never expires |
| Cache.MemoryCache.Get | backend/internal/cache/cache.go:173-192 | finds an item up to and at its deadline, and changes nothing |
| Cache.MemoryCache.Delete | backend/internal/cache/cache.go:194-199 | empties one slot |
| Cache.MemoryCache.SetNonce | backend/internal/cache/cache.go:201-215 | new exactly when no item of the nonce has its deadline strictly ahead; a known nonce keeps its deadline |
| Cache.MemoryCache.IncrementRateLimit | backend/internal/cache/cache.go:217-235 | counts on in a window whose deadline is strictly ahead, which keeps its deadline; otherwise opens one with count 1 |
| Cache.MemoryCache.StoreSession | backend/internal/cache/cache.go:237-242 | replaces the slot of a token by a session with a deadline |
| Cache.MemoryCache.GetSession | backend/internal/cache/cache.go:244-257 | the session of a token up to and at its deadline, or nothing |
| Cache.MemoryCache.DeleteSession | backend/internal/cache/cache.go:259-264 | empties the slot of a token |
| Cache.StepAt | backend/internal/cache/cache.go:144-264 | each method changes no slot but its own, and a sweep removes only stale slots |
| Cache.StepSimulates | backend/internal/cache/cache.go:144-264 | one step keeps two caches equal up to stale items, a sweep matching no step at all, and answers the same |
| Cache.JanitorSimulates | backend/internal/cache/cache.go:145-157 | along every run the swept cache is the lazily expiring one up to stale items, with the same answers |
| Cache.JanitorUnobservable | backend/internal/cache/cache.go:144-157 | two runs with the same calls give their callers the same answers wherever and however often each is swept |
| Cache.SetReadsBack | backend/internal/cache/cache.go:162-192 | whatever happens to other keys and however often the cache is swept, a value is read back up to and at its deadline, for ever without one, and not afterwards |
| Cache.SessionReadsBack | backend/internal/cache/cache.go:237-257 | so is a session, up to and at its deadline |
| Cache.DeletedReadsNothing | backend/internal/cache/cache.go:194-264 | nothing is read back after a deletion |
| ReplayGuard.ValidateNonceAndTimestamp | backend/internal/service/client_auth_service.go:475-488 | refuses outside 30 s of skew without touching the cache, and otherwise by the nonce held for 60 s |
| ReplayGuard.RoundingKeepsTolerance | backend/internal/service/client_auth_service.go:477-478 | rounding a difference to float64 never moves it across a tolerance below 2^53 |
| ReplayGuard.SkewOkIsExact | backend/internal/service/client_auth_service.go:475-480 | on clocks in range the wrapping, rounding test passes exactly when the true difference is within tolerance |
| ReplayGuard.SkewTestCorrectIff | backend/internal/service/client_auth_service.go:475-480 | the computed test is right for every int64 timestamp exactly on the clocks in range |
| ReplayGuard.AcceptedApart | backend/internal/cache/cache.go:201-215 | over every interleaving, two acceptances of one nonce are stored at least a TTL apart |
| ReplayGuard.AcceptedExactly | backend/internal/service/client_auth_service.go:475-488 | over every legal run, a request is accepted exactly when its timestamp is within the skew and its nonce was not accepted within the last TTL |
| ReplayGuard.AcceptancesBound | backend/internal/service/client_auth_service.go:475-488 | n acceptances of one nonce and timestamp fit n − 1 TTLs into the width of the skew window |
| ReplayGuard.ReplayLimit | backend/internal/service/client_auth_service.go:475-488 | for any skew, TTL and delay: no pair is ever accepted more than n times exactly when n TTLs exceed twice the skew, the truncation and the delay |
| ReplayGuard.CodeAcceptsTwiceAtMost | backend/internal/service/client_auth_service.go:475-488 | at the code's 30 s and 60 s, once is not guaranteed and twice is |
| ReplayGuard.CodeAcceptsTwiceOnlyAtTheEnds | backend/internal/service/client_auth_service.go:475-488 | a pair accepted twice is accepted at readings timestamp − 30000 and timestamp + 30000 ms |
| RateLimiter.Limit | backend/internal/middleware/rate_limiter.go:13-33 | counts the request in any case, and admits it exactly if the count is within the maximum |
| RateLimiter.CacheShowsWindow | backend/internal/cache/cache.go:217-235 | whatever else the cache does, a key's slot is the window that its own request times determine, or that window is over |
| RateLimiter.ReplyIsCount | backend/internal/cache/cache.go:217-235 | a request of a cache run is told the count that its own key's request times determine |
| RateLimiter.CountAtMostLater | backend/internal/cache/cache.go:217-235 | the count never exceeds the requests since the window was opened, less than a window ago |
| RateLimiter.NeverStricterThanSlidingLog | backend/internal/middleware/rate_limiter.go:12-33 | a request that is among the last maximum of the past window is admitted |
| RateLimiter.RunNeverStricterThanSlidingLog | backend/internal/middleware/rate_limiter.go:12-33 | the same in every cache run, with sweeps and other keys interleaved |
| RateLimiter.WithinBudget | backend/internal/cache/cache.go:217-235 | what an interval has admitted so far is paid for by the windows begun in it, and one less if the first began before it |
| RateLimiter.IntervalLimit | backend/internal/middleware/rate_limiter.go:13-33 | an interval of k windows, wherever it begins, admits at most (k + 1) · max − 1 requests of a key |
| RateLimiter.IntervalLimitExact | backend/internal/middleware/rate_limiter.go:13-33 | n bounds every such interval exactly when n is at least (k + 1) · max − 1 |
| RateLimiter.RunIntervalLimit | backend/internal/middleware/rate_limiter.go:13-33 | the bound holds in every cache run, with sweeps, nonces, sessions and other keys interleaved |
| RateLimiter.RedisAtLeastMemory | backend/internal/cache/cache.go:91-100 | for any common request times the Redis counter is at least the in-memory one, so Redis never admits what memory rejects |
| RateLimiter.RedisCountsExactly | backend/internal/cache/cache.go:91-100 | the Redis counter counts exactly the requests since the last pause of a window |
| RateLimiter.RedisNeverForgetsWithoutPause | backend/internal/cache/cache.go:91-100 | a caller that never pauses for a whole window is counted in Redis from its first request on |
| Licenses.NanosecondsExactIff | backend/internal/service/license_engine.go:77 | seconds in int64 nanoseconds are exact exactly up to 9223372036 either way |
| Licenses.DaysExactIff | backend/internal/handler/dashboard_handler.go:427-430 | any positive number of days leads to the exact deadline exactly up to 106751 |
| Licenses.MemoryLicenseRepo.BulkCreate | backend/internal/repository/memory_store.go:272-286 | adds exactly the batch, each under its own ID and with its creation time, and changes nothing else |
| Licenses.MemoryLicenseRepo.GetByKey | backend/internal/repository/memory_store.go:288-301 | whatever the scan order, a licence of that application and key if there is one |
| Licenses.MemoryLicenseRepo.Activate | backend/internal/repository/memory_store.go:346-360 | overwrites status, bound device, activation time and deadline of one licence, or fails |
| Licenses.MemoryLicenseRepo.ResetHWID | backend/internal/repository/memory_store.go:362-375 | clears the bound device and the list of one licence, or fails |
| Licenses.MemoryLicenseRepo.SetStatus | backend/internal/repository/memory_store.go:377-388 | sets any status and reason of one licence, or fails |
| Licenses.MemoryLicenseRepo.Extend | backend/internal/repository/memory_store.go:390-404 | adds to the duration and to a deadline that is set, in wrapping int64 arithmetic, or fails |
| Licenses.MemoryLicenseRepo.Delete | backend/internal/repository/memory_store.go:406-413 | removes one licence |
| Licenses.LookupDeterminedExactly | backend/internal/repository/memory_store.go:288-301 | every lookup has one answer whatever the scan order exactly when no two licences of an application have one key |
| Licenses.BatchKeepsUniqueExactly | backend/internal/repository/memory_store.go:272-286 | a batch of distinct keys keeps that so exactly when the store has none of its keys for its application yet |
| Licenses.TwoBatchesClash | backend/internal/repository/memory_store.go:272-301 | two batches of one key leave a lookup with two answers |
| LicenseRuns.DeadlineModulo | backend/internal/service/client_auth_service.go:239-250 | on every run, for every int64, a deadline is the last activation plus the current duration modulo 2^64 ns |
| LicenseRuns.DeadlineExact | backend/internal/repository/memory_store.go:346-404 | exactly so, through any mix of rebindings, resets, status changes and extensions, while all durations fit |
| LicenseRuns.ExpiryAbsorbing | backend/internal/service/client_auth_service.go:210-221 | past its deadline, a licence grants nothing and keeps the deadline until someone extends it |
| LicenseRuns.ExtendRevives | backend/internal/repository/memory_store.go:390-404 | after an extension by any int64, a request is granted exactly when the deadline, moved by the seconds in int64 nanoseconds, holds, the device is allowed and the licence is neither banned nor paused |
| LicenseRuns.OutcomeExactly | backend/internal/service/client_auth_service.go:204-250 | exactly which condition gives each answer of an authentication: banned, paused, expired, device missing, device refused, granted |
| LicenseRuns.RecordExactly | backend/internal/service/client_auth_service.go:211-250 | the record that a request leaves, field by field: expired ones are marked, a first use sets the deadline, a new device is bound with the deadline kept, and the answer carries the deadline of the record |
| LicenseRuns.StatusDecides | backend/internal/repository/memory_store.go:377-388 | a status takes effect at once: exactly when the next request is granted |
| LicenseRuns.DurationModulo | backend/internal/repository/memory_store.go:390-404 | with or without a deadline no extension is lost, and nothing else changes the duration, modulo 2^64 |
| LicenseRuns.DeviceLockStep | backend/internal/service/hwid_service.go:24-57 | with the allowance full, no event but a reset adds a device, and a success comes from an authorised one |
| LicenseRuns.DeviceLock | backend/internal/service/hwid_service.go:24-57 | between two resets, a bound licence with a full allowance never gains a device and grants only those it had |
| LicenseRuns.AuthorisedExactly | backend/internal/service/hwid_service.go:24-57 | with a full allowance a bound licence keeps exactly its devices through every event but a reset, except that the first use of a listed device drops an unlisted bound one |
| LicenseRuns.ResetFrees | backend/internal/repository/memory_store.go:362-375 | after a reset nobody is authorised, and a request succeeds exactly when the licence is usable and, under the lock, names a device |
| LicenseRuns.UnboundUntilSuccess | backend/internal/service/client_auth_service.go:224-250 | on every run, nothing but a success binds a licence |
| LicenseRuns.FirstSuccessBinds | backend/internal/service/client_auth_service.go:224-250 | however long an unbound licence waits and whatever administrators do, its first success under the lock binds it to that device |
| LicenseRuns.FirstSuccessLocks | backend/internal/service/hwid_service.go:24-57 | with a full allowance, every success of an unbound licence until a reset is from the device of the first or from the list |
| LicenseRuns.ResetLocksAnew | backend/internal/repository/memory_store.go:362-375 | after a reset, with an allowance of one, the first device to succeed under the lock is the only one until the next reset |
| LicenseRuns.DeviceLockExactly | backend/internal/service/hwid_service.go:24-57 | the lock holds exactly when the allowance is full; otherwise every device is let in |
| LicenseRuns.AllowanceUnchanged | backend/internal/repository/memory_store.go:346-360 | on every run without resets the allowance is as full at the end as at the beginning |
| LicenseRuns.AllowanceNeverFills | backend/internal/repository/memory_store.go:346-360 | an allowance with room keeps room on every run, resets included, and each request succeeds exactly when the licence is usable and, under the lock, names a device |
| LicenseRuns.SteadyStepIsAtomic | backend/internal/service/client_auth_service.go:204-250 | a request that finds the record at its write as it read it acts as one atomic step |
| LicenseRuns.UndisturbedRunsAreAtomic | backend/internal/service/client_auth_service.go:204-250 | a run of such requests, reads and writes interleaved, leaves what the run of atomic requests leaves |
| LicenseRuns.OverlapMattersExactly | backend/internal/service/client_auth_service.go:204-250 | of any two requests granted on one record, exactly when the second is also granted after the first |
| LicenseRuns.OverlappingFirstUses | backend/internal/service/client_auth_service.go:204-250 | two first uses of different devices that both read before either writes are both granted and leave the later device bound; one after the other, the second is refused exactly when the allowance is full without it in the list, or the fresh deadline has passed |
| LicenseRuns.BanLostExactly | backend/internal/service/client_auth_service.go:204-250 | a ban or pause between the read and the write of a request is overwritten exactly when the request was granted and binds, or found the licence expired |
| LicenseRuns.BanUndone | backend/internal/repository/memory_store.go:346-360 | a request that binds leaves a licence banned meanwhile active, and its device is granted again at once exactly if the fresh deadline holds |
| LicenseRuns.ExtensionLostExactly | backend/internal/repository/memory_store.go:346-404 | an extension between the read and the write of a request keeps the duration and loses the deadline exactly when the request was granted and binds |
| KeyGenerator.LettersAreCharset | backend/internal/service/license_engine.go:14 | the 32 letters of the charset and their positions |
| KeyGenerator.MaskExactly | backend/internal/service/license_engine.go:25-46 | the wildcards are x, X and the star; no mask stands for VOLQ and three groups of four letters |
| KeyGenerator.KeyAt | backend/internal/service/license_engine.go:25-46 | a key matches its mask position by position |
| KeyGenerator.GenerateKeyFromMask | backend/internal/service/license_engine.go:25-46 | the key of the next random letters, one for each wildcard, or a failure if a read fails |
| KeyGenerator.GenerateBatch | backend/internal/service/license_engine.go:49-69 | on return exactly count pairwise distinct keys of the mask, in the order first drawn; a bad count or a failing source is reported |
| KeyGenerator.Pigeonhole | backend/internal/service/license_engine.go:49-69 | distinct keys of a mask number at most 32^wildcards, and one is missing exactly if there are fewer |
| KeyGenerator.FairCollects | backend/internal/service/license_engine.go:57-67 | a source that yields an unseen key while one exists lets the loop collect any number of keys that the mask has |
| KeyGenerator.FairExactly | backend/internal/service/license_engine.go:57-67 | a source is fair exactly when it lets the loop collect every number of keys that the mask has |
| KeyGenerator.TerminatesExactly | backend/internal/service/license_engine.go:49-69 | from a fair source the loop ends exactly when the mask has as many keys as asked for, or a read fails on the way |
| KeyGenerator.TooManyNeverEnds | backend/internal/service/license_engine.go:49-69 | a batch larger than the mask's keys never ends while no read fails, whatever the source draws |
| CreditLedger.MemoryResellerRepo.Create | backend/internal/repository/memory_store.go:688-699 | stores a reseller under an ID |
| CreditLedger.MemoryResellerRepo.DeductCredits | backend/internal/repository/memory_store.go:738-751 | takes the amount exactly if the credits suffice, and changes nothing else |
| CreditLedger.MemoryResellerRepo.AddCredits | backend/internal/repository/memory_store.go:753-763 | adds the amount to one reseller, or fails |
| CreditLedger.PriceIsWorthExactly | backend/internal/handler/dashboard_handler.go:409-430 | a request is priced at what its licences are worth, for every number of them, exactly when it is for life or the seconds of its days fit an int64 |
| CreditLedger.NeverExpiringPaidIff | backend/internal/handler/dashboard_handler.go:409-430 | under any limits on the days, keys that never expire are paid for like lifetime keys exactly when the wrapped seconds of all days between the limits stay positive |
| CreditLedger.MaximumDaysPaid | backend/internal/handler/dashboard_handler.go:409-430 | with a minimum of one day, exactly up to a maximum of 106751991167300 |
| CreditLedger.FreeForever | backend/internal/handler/dashboard_handler.go:409-430 | 128 keys for 2^57 days each cost nothing and never expire |
| CreditLedger.NextAsked | backend/internal/handler/dashboard_handler.go:409-451 | no step creates or loses money on its way from payment to lost or stored; it grows by the requests let through only |
| CreditLedger.NextAccounts | backend/internal/handler/dashboard_handler.go:382-456 | every step of every request, grant and enrolment upsets an account by the wrap-around of the balance only |
| CreditLedger.CreditsConservedModulo | backend/internal/handler/dashboard_handler.go:382-456 | over every interleaving, for all numbers: balance, in flight, lost and stored add up to what was given modulo 2^64 |
| CreditLedger.CreditsConservedExactly | backend/internal/repository/memory_store.go:738-763 | they add up exactly, all along a run, exactly when no addition or subtraction of the run overflows the balance |
| CreditLedger.CreditsConserved | backend/internal/handler/dashboard_handler.go:382-456 | without overflow and with days whose seconds fit: balance, in flight, lost, and the days and lifetimes of all licences ever issued add up to what was given |
| CreditLedger.OverdrawnExactly | backend/internal/repository/memory_store.go:738-763 | with non-negative grants a balance stays non-negative all along a run exactly when nothing overflows, whatever is asked for |
| CreditLedger.NeverOverdrawn | backend/internal/repository/memory_store.go:738-763 | with grants that fit an int64 altogether and requests without a negative price, no run overdraws a reseller or upsets the account |
| CreditLedger.OverdrawsExactly | backend/internal/handler/dashboard_handler.go:409-419 | for any class of requests: no such run overdraws a reseller exactly when no request of the class has a negative computed price |
| CreditLedger.DaysNeverOverdrawExactly | backend/internal/handler/dashboard_handler.go:386-419 | limits on the days keep resellers from being overdrawn exactly within 0 and 922337203685477 |
| CreditLedger.OverdrawnByOverflow | backend/internal/handler/dashboard_handler.go:409-419 | with 5000 credits, a request for 10000 keys of 922337203685478 days leaves a negative balance |
| CreditLedger.NeverOverspent | backend/internal/handler/dashboard_handler.go:382-456 | even if grants overflow, a reseller whose requests take no less than they give and do not pay never issues more than was granted |
| CreditLedger.MintingOverspends | backend/internal/handler/dashboard_handler.go:409-419 | a request that pays the reseller and one that the money buys issue what was never granted |
| CreditLedger.OverspendsExactly | backend/internal/handler/dashboard_handler.go:386-419 | for any class of requests that holds one for life: no run overspends exactly when each takes no less than it gives and none has a negative price other than -2^63 |
| CreditLedger.DaysNeverOverspendExactly | backend/internal/handler/dashboard_handler.go:386-419 | limits on the days keep resellers from overspending exactly within 0 and 922337203685477, or if they admit -2^63 alone |
| CreditLedger.CreditsMinted | backend/internal/handler/dashboard_handler.go:409-419 | with no credits granted, a request for −400 days pays for a lifetime key |
| CreditLedger.CreditsMintedByOverflow | backend/internal/handler/dashboard_handler.go:409-419 | so does one for 10000 keys of 922337203685478 days, whose price wraps around |
| CreditLedger.UndisturbedLeaves | backend/internal/handler/dashboard_handler.go:409-450 | the three steps of one request in a row leave nothing in flight, charge the reseller, and issue or lose the batch |
| CreditLedger.DashboardHandler.GenerateLicenses | backend/internal/handler/dashboard_handler.go:382-456 | a refusal changes nothing; otherwise a reseller is charged the price, kept if the batch fails; a success leaves each of the distinct keys in the request's application as an unactivated licence without device or deadline, of the asked duration and allowance |
| CreditLedger.DashboardHandler.StoreKeys | backend/internal/handler/dashboard_handler.go:432-451 | stores one such licence for each key under its own ID, and nothing else |
| CreditLedger.PromisedActivates | backend/internal/handler/dashboard_handler.go:427-443 | the first authentication of such a licence is granted to any device and sets the deadline that its days promise, exactly for 1 to 106751 of them, or none for life |
| KeyedTables.Find | backend/internal/repository/memory_store.go:566-577 | a scan in any order finds a row of the key exactly if there is one |
| KeyedTables.VariableRepo.Create | backend/internal/repository/memory_store.go:543-564 | updates the one row of the name in place, or adds one: an upsert of the partial map |
| KeyedTables.VariableRepo.GetByKey | backend/internal/repository/memory_store.go:566-577 | the partial map's value |
| KeyedTables.VariableRepo.Delete | backend/internal/repository/memory_store.go:592-599 | removes the entry of an ID |
| KeyedTables.UserRepo.Create | backend/internal/repository/memory_store.go:444-461 | inserts exactly if the name is free |
| KeyedTables.UserRepo.GetByUsername | backend/internal/repository/memory_store.go:463-474 | the partial map's ID and value |
| KeyedTables.UserRepo.UpdateLogin | backend/internal/repository/memory_store.go:502-516 | sets address and time of one user, whose first device is kept, and nothing else |
| KeyedTables.UserRepo.SetBan | backend/internal/repository/memory_store.go:518-528 | sets the ban of one user and nothing else |
| KeyedTables.UserRepo.Delete | backend/internal/repository/memory_store.go:530-537 | removes the entry of an ID |
| KeyedTables.NextRefines | backend/internal/repository/memory_store.go:444-599 | every operation, whichever row its scan meets, is that operation of the partial map |
| KeyedTables.ApplyReads | backend/internal/repository/memory_store.go:444-599 | what the partial map holds after each operation, key by key |
| KeyedTables.TableRefinesMap | backend/internal/repository/memory_store.go:444-599 | under every sequence of operations and every scan order the table is the partial map they lead to |
| KeyedTables.ScanOrderIrrelevant | backend/internal/repository/memory_store.go:463-577 | two runs of the same operations have the same table whatever their scan orders, so that every lookup finds the same row or finds none in both |
| PasswordHash.Base64RoundTrip | backend/internal/crypto/password.go:47-48 | decoding inverts unpadded base64 encoding (sections 3.2 and 4 of RFC 4648), which never prints a dollar |
| PasswordHash.Base64Examples | backend/internal/crypto/password.go:47-48 | examples of section 10 of RFC 4648 without padding, and the two letters beyond the alphanumerical ones |
| PasswordHash.ScanUintPrint | backend/internal/crypto/password.go:75-78 | scanning a printed number of the field's width gives it back, with the rest left over |
| PasswordHash.SplitExactly | backend/internal/crypto/password.go:58 | splitting cuts at every dollar and nowhere else |
| PasswordHash.SplitEncoded | backend/internal/crypto/password.go:47-59 | the printed form splits into its six parts |
| PasswordHash.ParseCostRoundTrip | backend/internal/crypto/password.go:73-79 | memory, iterations and parallelism are recovered over their whole ranges |
| PasswordHash.ParseVersionRoundTrip | backend/internal/crypto/password.go:67-71 | every non-negative version is recovered |
| PasswordHash.ParseEncoded | backend/internal/crypto/password.go:47-91 | for all parameters, salts and hashes, parsing the printed form recovers every field |
| PasswordHash.HashedBegins | backend/internal/crypto/password.go:47-51 | a stored password reads $argon2id$v=19$m=65536,t=3,p=2$ and then salt and hash |
| PasswordHash.VerifyAnswers | backend/internal/crypto/password.go:57-101 | what does not parse is reported in the order of the parts; otherwise the comparison of the derived key decides |
| PasswordHash.VerifyExactly | backend/internal/crypto/password.go:32-102 | a candidate is accepted against a stored password exactly when their derived keys are equal |
| Fingerprint.StepInjective | sdks/cpp/include/volq_auth.hpp:145-148 | a step is a bijection of the state and injective in the character |
| Fingerprint.XorBits | sdks/cpp/include/volq_auth.hpp:145-148 | a bit of the exclusive or is set exactly if it differs in the two words |
| Fingerprint.MixSeparates | sdks/cpp/include/volq_auth.hpp:141-149 | inputs of one length that differ in one place never mix to the same word |
| Fingerprint.HexInjective | sdks/cpp/include/volq_auth.hpp:149-151 | fixed-width hexadecimal printing has that width and tells all words apart |
| Fingerprint.HexExactly | sdks/cpp/include/volq_auth.hpp:149-151 | hexadecimal is in lower case, most significant digit first, filled up with zeros |
| Fingerprint.SimpleHash | sdks/cpp/include/volq_auth.hpp:141-152 | the loop computes the two mixed words, printed in 16 digits each |
| Fingerprint.CppShort | sdks/cpp/include/volq_auth.hpp:141-152 | the digests of no and of one character: seeds, multipliers and halves in their places |
| Fingerprint.CppSeparates | sdks/cpp/include/volq_auth.hpp:141-152 | inputs that differ in exactly one character differ in both halves of the digest, with signed and unsigned chars |
| Fingerprint.FallbackHash | sdks/react/src/hwid.ts:98-109 | the loop computes the two mixed 32-bit words, printed in 8 digits each and repeated four times |
| Fingerprint.JsShort | sdks/react/src/hwid.ts:98-109 | the same for the browser fallback, and the four repetitions |
| Fingerprint.JsSeparates | sdks/react/src/hwid.ts:98-109 | inputs that differ in exactly one code unit differ in both words of the digest |
| Listings.MemoryLogRepo.Create | backend/internal/repository/memory_store.go:657-666 | puts the new entry in front, numbered by the length, and keeps the numbering |
| Listings.MemoryLogRepo.ListByApp | backend/internal/repository/memory_store.go:668-682 | the first limit entries of the application's log; a limit below 1 acts like 1 |
| Listings.FilterExactly | backend/internal/repository/memory_store.go:668-682 | a filtered list is exactly what is kept, each item once and in its order |
| Listings.ListedExactly | backend/internal/repository/memory_store.go:668-682 | it holds an entry exactly if the log does and the entry is the application's |
| Listings.NewestFirst | backend/internal/repository/memory_store.go:657-682 | in every reachable log an application's entries run from the newest down, each newer than all that a prefix leaves out |
| Listings.ListPage | backend/internal/repository/memory_store.go:314-344 | one page and the total of the filtered list, in one enumeration order |
| Listings.PageExactly | backend/internal/handler/dashboard_handler.go:358-363 | pages below the first are the first, and a page holds exactly the items from its offset on up to the limit |
| Listings.PagesTile | backend/internal/handler/dashboard_handler.go:358-363 | pages of at least one item concatenate to the filtered list, nothing dropped or repeated |
| Listings.PagesCompleteIff | backend/internal/handler/dashboard_handler.go:358-363 | some number of pages lists everything exactly when the limit is at least 1, or nothing is to be listed and the limit is 0 |
| WebhookQueue.WebhookService.Dispatch | backend/internal/service/webhook_service.go:45-60 | enqueues without blocking, drops on exactly 1000 waiting, ignores an empty URL |
| WebhookQueue.WebhookService.Take | backend/internal/service/webhook_service.go:62-70 | the worker takes the oldest waiting job |
| WebhookQueue.DispatchedAreJobs | backend/internal/service/webhook_service.go:45-60 | the dispatched jobs are exactly those of a run with an address, in order |
| WebhookQueue.DroppedAreRefused | backend/internal/service/webhook_service.go:45-70 | exactly the jobs that meet 1000 waiting are dropped, and a turn of the worker takes the oldest |
| WebhookQueue.OrderKept | backend/internal/service/webhook_service.go:31-70 | over every interleaving, taken then waiting jobs are an ordered selection of the dispatched, at most 1000 wait, and the rest is counted as dropped |
| WebhookQueue.LosslessExactly | backend/internal/service/webhook_service.go:45-60 | taken then waiting is all that was dispatched exactly when no dispatch meets a full queue |
| WebhookQueue.DroppedExactly | backend/internal/service/webhook_service.go:45-60 | nothing is dropped exactly when no dispatch meets a full queue |
| Sessions.InitKeeps | backend/internal/service/client_auth_service.go:74-144 | a handshake keeps every cached session traced to a handshake and, if it has a tier, to a grant |
| Sessions.LicenseKeeps | backend/internal/service/client_auth_service.go:147-310 | so does a licence request, granted or not |
| Sessions.LoginKeeps | backend/internal/service/client_auth_service.go:313-400 | so does a login, which gives no tier that the session did not have |
| Sessions.LogInExactly | backend/internal/service/client_auth_service.go:345-373 | a known user's login succeeds exactly when the replay guard lets it through, the user is not banned, and the password derives the key of the one that was stored |
| Sessions.NextKeeps | backend/internal/service/client_auth_service.go:74-400 | so does every step, including other cache use and arbitrary changes by administrators |
| Sessions.RunValid | backend/internal/service/client_auth_service.go:74-400 | in every world of every run, each session is traced to a handshake of the history and each tier to a grant |
| Sessions.GrantsComeFromRequests | backend/internal/service/client_auth_service.go:147-310 | every grant of the history is the work of one earlier licence request that was answered with success, for a licence of its own application |
| Sessions.HandshakesComeFromInits | backend/internal/service/client_auth_service.go:74-144 | every handshake of the history is the work of one earlier Init of the run, for its application and keys |
| Sessions.SessionsComeFromRequests | backend/internal/service/client_auth_service.go:74-310 | over whole runs, application, ID and keys of each cached session are those of one earlier Init, and its tier is one that an earlier licence request was granted in the same application and handshake |
| Sessions.ReleasedUnderHandshake | backend/internal/service/client_auth_service.go:403-472 | a variable is released under exactly one handshake of its application: sealed with its key and additional data exactly if the request was, bare exactly if it was bare |
| Sessions.ReleasedAfterGrant | backend/internal/service/client_auth_service.go:403-472 | a variable of tier 1 is released only after a granted licence request of the same application and handshake; one of a higher tier never is |
| SessionExamples.BareRequestAnsweredBare | backend/internal/service/client_auth_service.go:417-427 | in every world, the holder of a session who asks bare for a variable within its tier is answered bare |
| SessionExamples.ReleasedInTheClear | backend/internal/service/client_auth_service.go:403-472 | a run in which, after nothing but a handshake, a variable without a tier is released in the clear |
| SessionExamples.ReleasedForLicense | backend/internal/service/client_auth_service.go:403-472 | a run in which a variable of tier 1 is released, sealed, after a granted licence request |
| Sessions.NextPastDeadline | backend/internal/service/client_auth_service.go:210-221 | a step past a licence's deadline grants nothing for it and leaves the deadline |
| Sessions.ExpiredNeverGrantedAgain | backend/internal/service/client_auth_service.go:210-221 | through any requests and any administration that leaves the deadline alone, an expired licence is never granted again |
| SessionEffects.OpensExactly | backend/internal/service/client_auth_service.go:161-183 | an envelope opens exactly if it is sealed with the session's key and additional data around a JSON body, or is bare and names what its request is about; otherwise which error |
| SessionEffects.InitAnswers | backend/internal/service/client_auth_service.go:74-142 | exactly which answer a handshake gives on which condition |
| SessionEffects.InitOpensSession | backend/internal/service/client_auth_service.go:124-142 | a handshake opens for one hour a session of the application with the drawn keys and no tier, and changes nothing else |
| SessionEffects.LicenseAnswers | backend/internal/service/client_auth_service.go:147-310 | exactly which answer a licence request gives; a success, in the form of the request, names the token and the deadline that the licence then has |
| SessionEffects.LicenseOpensSession | backend/internal/service/client_auth_service.go:252-271 | the token of a granted request stands for two hours for the session of the handshake with licence, device and tier 1; only the licence changes besides |
| SessionEffects.CredentialsExactly | backend/internal/service/client_auth_service.go:352-364 | exactly what a name and a password are told |
| SessionEffects.LoginAnswers | backend/internal/service/client_auth_service.go:313-400 | exactly which answer a login gives, in the form of the request |
| SessionEffects.LoginOpensSession | backend/internal/service/client_auth_service.go:366-371 | the token of a login stands for two hours for the session of the handshake with its keys and tier, the user's ID and the device; the user's row carries address and time and keeps its first device; nothing else changes |
| SessionEffects.ValueExactly | backend/internal/service/client_auth_service.go:438-445 | what a session reads of a variable: its value exactly if it exists and its tier is within the session's |
| SessionEffects.VariableExactly | backend/internal/service/client_auth_service.go:403-472 | exactly which answer a request for a variable gives for every envelope, in the form of the request, and which error otherwise |
| SessionEffects.LicenseAnsweredUnderHandshake | backend/internal/service/client_auth_service.go:278-300 | over whole runs, a granted licence request is answered bare exactly if it came bare, and otherwise sealed with the key of the one handshake of its session for the ID addressed, which is the handshake's unless a token was |
| SessionEffects.LoginAnsweredUnderHandshake | backend/internal/service/client_auth_service.go:380-400 | so is every login that succeeds |
| SessionReplay.NextGuarded | backend/internal/service/client_auth_service.go:74-400 | every request that succeeds has passed the replay guard, and after it no request touches a nonce |
| SessionReplay.SuccessesApart | backend/internal/service/client_auth_service.go:74-400 | over whole runs, any two requests that succeed with one nonce, of whatever kinds and sessions, are a minute apart |
| SessionReplay.SucceedsTwiceOnlyAtTheEnds | backend/internal/service/client_auth_service.go:74-400 | one nonce and timestamp succeed twice only at readings timestamp − 30000 and timestamp + 30000 ms |
| SessionReplay.NeverThrice | backend/internal/service/client_auth_service.go:74-400 | and never a third time |
| SessionExamples.PayloadGrantedTwice | backend/internal/service/client_auth_service.go:147-310 | a run in which the very same licence payload is granted twice, a minute apart |
| AuthService.ClientAuthService.Validate | backend/internal/service/client_auth_service.go:475-488 | the replay guard with the code's constants |
| AuthService.ClientAuthService.Init | backend/internal/service/client_auth_service.go:74-144 | the new world and the answer are those of the handshake step |
| AuthService.ClientAuthService.AuthenticateLicense | backend/internal/service/client_auth_service.go:147-310 | those of the licence step, for a licence that the scan may come upon |
| AuthService.ClientAuthService.RedeemKey | backend/internal/service/client_auth_service.go:184-260 | those of the part of the step after the envelope is open |
| AuthService.ClientAuthService.Decide | backend/internal/service/client_auth_service.go:204-250 | outcome and record are those of one atomic authentication, in the order of the code's checks |
| AuthService.ClientAuthService.AuthenticateUser | backend/internal/service/client_auth_service.go:313-400 | those of the login step |
| AuthService.ClientAuthService.LogInUser | backend/internal/service/client_auth_service.go:348-371 | those of the part of the step after the envelope is open |
| AuthService.ClientAuthService.Identify | backend/internal/service/client_auth_service.go:352-364 | the user of that name exactly if unbanned and the password verifies, and otherwise the error in the order of the code's checks |
| AuthService.ClientAuthService.GetVariable | backend/internal/service/client_auth_service.go:403-472 | the answer of the step that reads a variable, and no change |

## Left out

- Cryptographic primitives: X25519, HKDF, AES-GCM, Ed25519 signatures and Argon2. An envelope opens under its own key and additional data alone; derived keys are inputs of a handshake; signing and encrypting an answer never fail; Argon2 is a function parameter, and its panics for zero rounds or threads are not modelled.
- SQL repositories, migrations and the Redis client, except the Redis counter's INCR and EXPIRE; the memory store carries the same operations. Cache errors, on which the rate limiter lets requests pass, do not occur in the memory cache.
- HTTP routing, JSON binding, JWT, CORS and the sending of webhooks; the JSON rendering of non-string values by the cache's Get; base64 of stored session keys.
- Security-event logging and webhook dispatch from inside the service methods, which do not affect their answers.
- Persistence to a file: treated as doing nothing. Logs loaded from a file are not numbered by this model.
- Frontend pages, the network methods of the SDKs and the collection of hardware IDs.
- CheckCooldown, CSV export and configuration: no caller or nothing to relate them to. Subscriptions, protected files and developers: more tables of the same kind.
- Record aliasing: licence, user, variable and reseller records are values in maps, so that two pointers to one record are not captured; the methods replace the record they change.
- Fields that no modelled operation reads: creation times of users and variables, notes, subscription names.
- Cache.MemoryCache.IncrementRateLimit: counts are unbounded; the int64 counter would wrap after 2^63 requests of one window.
- Listings.ListPage: page and offset arithmetic is unbounded, so overflow of the offset is not modelled.
- CreditLedger.CreditsConserved: assumes that a reseller's requests carry the reseller role, as the source's tokens do, and prices equal to worth; CreditsConservedModulo and CreditsConservedExactly need the role only.
- CreditLedger.OverspendsExactly: is about classes that hold a request for life, which the handler always accepts.
- CreditLedger.DashboardHandler.GenerateLicenses: requires that the batch of a request that can pay terminates, which KeyGenerator.TerminatesExactly decides, and that the drawn IDs are new.
- Sessions.RunValid: assumes that handshake UUIDs are new and that no caller stores sessions through the cache's Set; each request reads the clock once.
- SessionReplay.SuccessesApart: each request reads the clock once, and no other use of the cache touches a nonce; ReplayGuard.ReplayLimit allows two readings.
- Edits of an application's record are part of the arbitrary changes by administrators, not a table of their own.
