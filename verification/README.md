# Verified models of sessions, limits, caching, account linking and API keys

Models in Dafny 4.11 of the stateful parts of a FastAPI application, with proofs of what they promise
over whole runs. `dafny verify dfyconfig.toml` checks all of them.

## What is modelled

**Sessions.** `SessionModel` holds the session record and the manager's settings. The storages are
`MemoryStorage` (two dictionaries and lazy expiry), `RedisStorage` (session keys and a set per user)
and `MemcachedStorage` (session keys and a list per user that is read, changed and written back).
`SessionManagement` is the manager over the first, `IndexedSessionManagement` over the second, each a
class whose methods are proved to compute the functions of `SessionMachine` and `SessionBackends`.
`SessionReference` and `BackendReference` prove that all three storages show a client one and the same
map of sessions: two overlapping timers, lazy expiry, cleanup, deactivated records, indexes and the
eviction of sessions that had died anyway are all invisible. `StorageHistory` and `SessionRecords` say
what is stored all the while: each entry by the calls made on it, each session record by its create and
by what ended it. `SessionCap` and `BackendCap` bound the
active sessions of a user after creates that run alone, over memory and over the servers, and
`BackendFlight` takes creates apart into the steps between their awaits: `FlightCap` bounds the active
sessions while creates are in flight, `FlightRuns` says exactly when that bound holds, and `FlightAlone`
that steps with nothing in between make up the create the other modules are about. `Csrf` says when
a token is accepted, in terms of the run that led there.

**Limits.** `RateLimit` is the fixed-window limiter over Redis, `MemcachedLimiter` the one whose get and
set are separate steps (`LostUpdates` says what that does to a counter), `RateLimitProvider` the
fail-open override around an await, and `LoginThrottle` the login attempts counted per address and per
username.

**Caching.** `CacheDecorator` says exactly when the read-through cache cannot be noticed in sequential
runs, `CacheHistory` what each answer is when it can, `CacheStaleness` how old an answer can be when
requests overlap.

**Accounts and keys.** `OAuthAccounts` links identities to users, `ApiKeys` and `Text` cover the key and
hash formats, `UsageAnalytics` the four reports over usage records.

`Ordering`, `Dicts`, `Wrappers`, `Expiring` and `Servers` are the shared vocabulary: stable sorting,
dictionaries with insertion order, option and result types, and entries with deadlines.

## Modelling decisions

- Every call gets one reading `now` of a clock that never goes back between calls. Times are integers in
  the resolution of the clock. In memory an entry is alive up to and including its deadline, as
  `memory.py` compares; on a server it is alive strictly before it.
- Session ids, tokens, salts and random keys are inputs, drawn fresh where a statement says so.
- A Redis pipeline is one step. A manager method is one step except in `BackendFlight`, where every await
  of a create on the session storage ends one. An update is one step there too, and its rewriting of a
  Memcached list may come once more, in two steps, at any later time. Over the in-memory storage no method
  ever suspends, so there creates cannot interleave.
- The set of a Redis user is listed in an order the server chooses. The methods of
  `IndexedSessionManager` report the order that came up as a ghost result; the theorems hold for all.
- Key prefixes are dropped and key spaces taken as disjoint. Models stored as JSON come back equal.
- scrypt is a parameter of the model, as are the database and the endpoints behind the cache.
- Rate-limit periods are positive, as the schema of `app/models/rate_limit.py` demands.
- Microcents, tokens and counts are unbounded integers, as in Python.

## What turned out

- The Memcached list of a user's sessions is complete over all runs only for lifetimes of up to a day,
  because a delete gives it a fixed day to live (`MemcachedStorage.IndexCompleteExactly`). The manager
  itself never deletes sessions, so its runs do not meet the problem (`SessionBackends.StepInv`). An update
  that does not reset the expiration renews the session and not the list, so the list can be gone before
  the session (`MemcachedStorage.UnresetForgets`); the manager always resets.
- Overlapping calls that override the fail-open flag in opposite directions can leave it turned around
  (`RateLimitProvider.CrossedOverrides`); calls that agree cannot.
- The limiter promises its limit per aligned window; twice as many calls within one period are possible
  and nothing beyond (`RateLimit.SlidingBound`, `RateLimit.SlidingBoundReached`).
- Overlapping calls can pass a Memcached limit: it is kept over all runs exactly when calls on a window come
  one at a time, or when it allows nothing (`MemcachedLimiter.LimitKeptExactly`).
- The limit on sessions is passed by as many creates as are in flight beside the first
  (`FlightCap.CapInFlight`, `FlightRuns.CapReached`). On Memcached it is lost altogether once a create and
  another rewrite of the same user's list overlap, be it another create or the update of a validation:
  the list then misses a session for good (`FlightRuns.CapKeptExactly`, `FlightRuns.CapLost`).
- The same goes for the login throttle over Memcached (`LoginThrottle.MemcachedThrottleExactly`).
- A GET that is overtaken by a write can fill the cache with the old answer after the write's deletion, so
  with overlap staleness is only bounded (`CacheStaleness.StalenessReached`).
- Each login attempt gives its counters a new full window, so the throttle holds for as long as attempts
  keep coming, not for a fixed window (`LoginThrottle.UserThrottled`).

## Model

| member | source | states |
|---|---|---|
| `SessionReference.SessionsAreReference` | app/core/auth/session/manager.py:116-462 | Over every run of create, validate, terminate and cleanup on the in-memory storage, every validation answers as a plain dictionary does that knows only sessions created and not terminated or evicted, valid while idle no longer than the smaller of storage expiration and session timeout. No timer, lazy expiry, cleanup or deactivated record shows |
| `BackendReference.BackendsAreReference` | app/core/auth/session/manager.py:116-462 | Over every run from an empty Redis or Memcached, where the limit goes by the user index, every validation answers as a plain map does, and what the index lists for a create names every valid session of the user exactly once, so that the map takes from it only the order of equally idle ones |
| `BackendReference.StoragesInterchangeable` | app/core/auth/session/manager.py:323-349 | Over every run in which a user never has two equally idle valid sessions at a create, Redis, Memcached and memory give the same answers, memory with the lifetime one instant shorter |
| `SessionReference.StepRelated` | app/core/auth/session/manager.py:116-462 | One call leads storage and reference that agree on the valid sessions to such again, with the same answer |
| `SessionReference.SameLiveVictims` | app/core/auth/session/manager.py:351-357 | Counting timed-out sessions against the limit costs no valid session its place: a valid session is evicted exactly if it would be with the dead ones gone |
| `SessionReference.SeenAfterEnforce` | app/core/auth/session/manager.py:323-360 | Enforcing the limit on the storage and on the reference takes away the same valid sessions |
| `SessionReference.SeenAfterTerminate` | app/core/auth/session/manager.py:296-321 | Terminating takes exactly that session from the valid ones, whether it was there, expired or unknown |
| `SessionReference.SeenAfterClean` | app/core/auth/session/manager.py:413-432 | The cleanup loop takes no valid session away and adds none |
| `SessionReference.ValidateRelated` | app/core/auth/session/manager.py:167-206 | Validation finds a session exactly when the reference has it valid, returns the same data, and touches it alike |
| `SessionMachine.StepInv` | app/core/auth/session/backends/memory.py:116-202 | Every call keeps the key sets of `data` and `expiry` equal, every entry under its own id, and every active entry expiring one lifetime after its last activity |
| `SessionMachine.CleanupExactly` | app/core/auth/session/manager.py:403-462 | A due cleanup leaves exactly the unexpired entries: those active and idle for more than the session timeout ended as `session_timeout` with all else kept, all others untouched; an undue one changes nothing |
| `SessionBackends.CleanedAllExactly` | app/core/auth/session/manager.py:433-451 | The scan over a server ends exactly the live sessions it comes across that are active and idle for more than the session timeout, as `session_timeout` for one more lifetime, even when a key comes up twice |
| `SessionBackends.StepInv` | app/core/auth/session/manager.py:116-462 | Every manager call on Redis or Memcached keeps the index complete and honest and every active entry expiring one lifetime after its last activity, for any lifetime |
| `SessionBackends.MayListLists` | app/core/auth/session/backends/redis.py:304-323 | What the index may list for a user is, of the live sessions, exactly that user's, each once |
| `BackendReference.VictimsAgree` | app/core/auth/session/manager.py:334-357 | Without comparing owners, the index path evicts the valid sessions that the reference evicts |
| `BackendReference.StepAgrees` | app/core/auth/session/manager.py:116-462 | One call on either server keeps agreement with the reference and gives the same answer |
| `BackendReference.SameVictims` | app/core/auth/session/manager.py:351-357 | Without ties in last activity, the order in which sessions are listed does not decide who is evicted |
| `SessionRecords.MemoryStep` | app/core/auth/session/manager.py:116-462 | Field by field, what one call makes of every record in memory: a create stores exactly what it was given with this instant as creation and last activity; each live record is ended (inactive, marked with this instant and with `manual_termination` or `session_timeout`, all else kept), touched, or left alone, for the reason that applies to it; nothing else is stored or comes back |
| `SessionRecords.ServerStep` | app/core/auth/session/manager.py:116-462 | The same over Redis and Memcached, where only what the scan comes upon is cleaned, and on Memcached nothing |
| `SessionRecords.MemoryRecords` | app/core/auth/session/manager.py:116-462 | After every run, each stored record carries the user, id, origin and time of the last create under its id, and its metadata: unchanged while active, and once ended with only `terminated_at` and `termination_reason` added, living one lifetime from then |
| `SessionRecords.ServerRecords` | app/core/auth/session/manager.py:116-462 | The same after every run from an empty server, whatever it lists |
| `SessionRecords.MemoryAnswers` | app/core/auth/session/manager.py:167-206 | After every run, a session that validation answers is active and has the user, id, origin, creation time and metadata that the last create under its id was given |
| `SessionRecords.ServerAnswers` | app/core/auth/session/manager.py:167-206 | The same over Redis and Memcached |
| `SessionCap.CreateKeepsCap` | app/core/auth/session/manager.py:145-157 | A create that runs alone leaves the user with the new session and all the others while there is room, and otherwise with exactly max(1, max_sessions) active sessions, the new one among them |
| `FlightCap.CapInFlight` | app/core/auth/session/manager.py:145-157 | Over Redis, and over Memcached while no two rewrites of the user's list are open at a time: however the steps of creates (reading the index, each fetch, each termination, storing, and on Memcached reading and writing the list) interleave with each other and with all other calls, a user with at most k creates in flight never has more than max(1, max_sessions) - 1 + k active sessions, places made and not yet used included |
| `FlightRuns.CapKeptExactly` | app/core/auth/session/manager.py:145-157 | Over all runs with at most k creates of the user in flight, n rewrites of the user's list open, and t of these by updates, that bound on active sessions holds exactly when the server is Redis, or n <= 1, or k = 0, or k + t <= 1 |
| `FlightRuns.CapLost` | app/core/auth/session/backends/memcached.py:100-124 | Otherwise, on Memcached, some run passes any bound: a create whose list is written over by another create or by an update leaves a session that the limit never sees again |
| `FlightRuns.CapReached` | app/core/auth/session/manager.py:145-157 | For every k >= 1 and every limit some run attains the bound: k creates that all make room before any of them stores |
| `FlightAlone.AloneIsCreate` | app/core/auth/session/manager.py:145-157 | The steps of a create one after the other with nothing in between are the create of `SessionBackends.Step`, on Redis and on Memcached |
| `FlightAlone.AloneIsRewrite` | app/core/auth/session/backends/memcached.py:183-199 | Reading the list and writing it back at once is the list half of an update |
| `FlightAlone.CreateKeepsStart` | app/core/auth/session/manager.py:133-157 | However steps interleave, a create in flight keeps its user and the instant it began |
| `FlightAlone.StoreCarries` | app/core/auth/session/manager.py:133-157 | What it stores has what it was given, its creation dated at the storing and its last activity when the create began, and lives one lifetime from the storing |
| `SessionCap.CreateSparesOthers` | app/core/auth/session/manager.py:323-360 | A create leaves the active sessions of every other user alone |
| `SessionCap.VictimsCount` | app/core/auth/session/manager.py:351-357 | The victims are distinct active sessions of the user, exactly as many as must go for one more to fit |
| `SessionCap.VictimsAreOldest` | app/core/auth/session/manager.py:351-357 | No surviving session was used earlier than a victim, and of equally old ones the first created goes |
| `BackendCap.IndexedCreateKeepsCap` | app/core/auth/session/manager.py:334-360 | Going by the index of a server, a create keeps the same cap, evicts no more than it must, and leaves other users alone |
| `SessionManagement.SessionManager.CreateSession` | app/core/auth/session/manager.py:116-165 | Refuses a request without a client leaving both storages alone; otherwise makes room, stores the session, then issues a token; `SessionRecords.MemoryStep` says what the stored session carries |
| `SessionManagement.SessionManager.ValidateSession` | app/core/auth/session/manager.py:167-206 | Answer and storage are those of `SessionMachine.Validated`, the function that the reference theorem is about |
| `SessionManagement.SessionManager.TerminateSession` | app/core/auth/session/manager.py:296-321 | True exactly for an unexpired session, which is kept as ended |
| `SessionManagement.SessionManager.EnforceSessionLimit` | app/core/auth/session/manager.py:323-360 | The storage afterwards is that of `SessionMachine.Enforced` |
| `SessionManagement.SessionManager.GetActiveSessionsByScan` | app/core/auth/session/manager.py:375-386 | Lists exactly the user's active sessions in insertion order, and drops what has expired on the way |
| `SessionManagement.SessionManager.CleanupExpiredSessions` | app/core/auth/session/manager.py:408-432 | Storage and last cleanup time afterwards are those of `SessionMachine.Cleaned` |
| `SessionManagement.SessionManager.ValidateCsrfToken` | app/core/auth/session/manager.py:208-251 | Answer and token storage are those of `Csrf.CheckedToken`, the function that `Csrf.TokenAccepted` is about |
| `SessionManagement.SessionManager.GenerateCsrfToken` | app/core/auth/session/manager.py:269-294 | The token is stored with the session timeout both as recorded expiry and as storage lifetime |
| `IndexedSessionManagement.IndexedSessionManager.GetActiveSessionsByIndex` | app/core/auth/session/manager.py:334-344 | The loop over the index keeps exactly the listed sessions that are alive and active, in the order listed |
| `IndexedSessionManagement.IndexedSessionManager.EnforceSessionLimit` | app/core/auth/session/manager.py:323-360 | For some listing the server may give, the server afterwards is that of `SessionBackends.Enforced` |
| `IndexedSessionManagement.IndexedSessionManager.CreateSession` | app/core/auth/session/manager.py:145-157 | Makes room by the index, then stores the session and indexes it; `SessionRecords.ServerStep` says what the stored session carries |
| `IndexedSessionManagement.IndexedSessionManager.ValidateSession` | app/core/auth/session/manager.py:167-206 | Answer and server are those of `SessionBackends.Validated`, the function that the backend theorem is about |
| `IndexedSessionManagement.IndexedSessionManager.TerminateSession` | app/core/auth/session/manager.py:296-321 | True exactly for a live session, which is kept as ended with its index prolonged |
| `IndexedSessionManagement.IndexedSessionManager.CleanupExpiredSessions` | app/core/auth/session/manager.py:433-451 | Goes over every live key once, in an order the server chooses, and ends the timed-out ones |
| `Csrf.TokenAccepted` | app/core/auth/session/manager.py:208-294 | Over the in-memory token storage, after any run a token is accepted for a session exactly when its last issue was for that session at most one session timeout ago; checks, purges and other issues never matter |
| `Csrf.FreshTokenAccepted` | app/core/auth/session/manager.py:253-294 | Over the in-memory token storage, with tokens drawn afresh, exactly when some generate or regenerate step issued it for that session at most one timeout ago |
| `Csrf.ServerTokenAccepted` | app/core/auth/session/manager.py:208-294 | Over Redis or Memcached, the same with less than one timeout in place of at most one; validation never changes what is stored |
| `Csrf.ServerFreshTokenAccepted` | app/core/auth/session/manager.py:253-294 | Over Redis or Memcached, with tokens drawn afresh, exactly when some step issued it for that session less than one timeout ago |
| `MemoryStorage.LazyExpiryInvisible` | app/core/auth/session/backends/memory.py:189-202 | Dropping one expired entry shows at no later time |
| `MemoryStorage.ScanInvisible` | app/core/auth/session/backends/memory.py:164-187 | Nor does dropping all of them, and what is in view is what can be looked up |
| `StorageHistory.MemoryIsHistory` | app/core/auth/session/backends/memory.py:34-202 | After every run of calls with any lifetimes, looking an id up in memory gives the data last stored or updated there, up to and including the deadline last set; lazy expiry, scans and calls on other ids never show |
| `StorageHistory.RedisIsHistory` | app/core/auth/session/backends/redis.py:79-302 | The same on Redis, strictly before the deadline, whatever becomes of the index |
| `StorageHistory.MemcachedIsHistory` | app/core/auth/session/backends/memcached.py:81-316 | The same on Memcached, where every update sets a new deadline, asked to or not |
| `MemoryStorage.MemorySessionStorage.Create` | app/core/auth/session/backends/memory.py:34-59 | Value and deadline are written under the key and nothing else changes |
| `MemoryStorage.MemorySessionStorage.Get` | app/core/auth/session/backends/memory.py:61-86 | Finds exactly the unexpired entry; an expired one is dropped |
| `MemoryStorage.MemorySessionStorage.Update` | app/core/auth/session/backends/memory.py:88-114 | Rewrites exactly an unexpired entry, keeping its deadline unless told to reset it |
| `MemoryStorage.MemorySessionStorage.Delete` | app/core/auth/session/backends/memory.py:116-132 | Drops the entry, expired or not, and says whether there was one |
| `MemoryStorage.MemorySessionStorage.Extend` | app/core/auth/session/backends/memory.py:134-150 | Gives exactly an unexpired entry a new deadline |
| `MemoryStorage.MemorySessionStorage.Exists` | app/core/auth/session/backends/memory.py:152-162 | True exactly for an unexpired entry |
| `MemoryStorage.MemorySessionStorage.ScanIter` | app/core/auth/session/backends/memory.py:164-187 | Lists the unexpired keys in insertion order and leaves exactly those in the storage |
| `MemoryStorage.MemorySessionStorage.CheckExpiry` | app/core/auth/session/backends/memory.py:189-202 | Drops the entry exactly when its deadline has passed; both deletions find their key |
| `RedisStorage.IndexEqualsScan` | app/core/auth/session/backends/redis.py:79-281 | Over every run with one lifetime, unreused ids and updates that keep the owner, the index shows the active sessions that a full scan would, every live session is in its user's set, and the set outlives it by 3600 s |
| `RedisStorage.RunInv` | app/core/auth/session/backends/redis.py:79-281 | Along such a run the index is complete, names no session of another user, and no deadline is further off than one lifetime |
| `RedisStorage.SetStep` | app/core/auth/session/backends/redis.py:79-281 | A create adds its id to the owner's set and a delete that finds its session takes it away; creates, resetting updates and extensions give a live set one lifetime and 3600 s; no other call changes a live set |
| `RedisStorage.RedisSessionStorage.Create` | app/core/auth/session/backends/redis.py:79-118 | Session, set member and the set's deadline in one step |
| `RedisStorage.RedisSessionStorage.Update` | app/core/auth/session/backends/redis.py:152-202 | Rewrites exactly a live session; resetting also moves the deadline of the owner's set, not resetting keeps the remaining time |
| `RedisStorage.RedisSessionStorage.Delete` | app/core/auth/session/backends/redis.py:204-240 | Removes a live session and its id from the owner's set, and the set when it becomes empty |
| `RedisStorage.RedisSessionStorage.Extend` | app/core/auth/session/backends/redis.py:242-281 | Moves the deadlines of a live session and of its owner's set |
| `RedisStorage.RedisSessionStorage.GetUserSessions` | app/core/auth/session/backends/redis.py:304-323 | The ids in the user's unexpired set |
| `MemcachedStorage.IndexCompleteExactly` | app/core/auth/session/backends/memcached.py:81-298 | With updates that reset, the list names every live session of its user over all runs exactly when sessions live no longer than the 86400 s that a delete gives the list |
| `MemcachedStorage.ForgetfulRunForgets` | app/core/auth/session/backends/memcached.py:233-243 | With a longer lifetime, two creates and one delete make the list lose the other session |
| `MemcachedStorage.ListsAreSound` | app/core/auth/session/backends/memcached.py:81-298 | Up to that lifetime, lists have no duplicates and none expires before a session in it |
| `MemcachedStorage.ListStep` | app/core/auth/session/backends/memcached.py:81-298 | A create puts its id at the end of the owner's list unless it is there; creates, resetting updates and extensions give a live list one lifetime and 3600 s, a delete that finds its id there 86400 s; no other call changes a live list |
| `MemcachedStorage.DeleteStep` | app/core/auth/session/backends/memcached.py:233-243 | A delete takes out the first occurrence of its id and keeps the others in order |
| `MemcachedStorage.UpdateStep` | app/core/auth/session/backends/memcached.py:180-199 | An update leaves the ids of every live list; it gives the owner's list one lifetime and 3600 s exactly when it resets |
| `MemcachedStorage.UnresetForgets` | app/core/auth/session/backends/memcached.py:180-199 | For lifetimes of more than 3601 s an update that does not reset can let a session outlive its list |
| `MemcachedStorage.MemcachedSessionStorage.Create` | app/core/auth/session/backends/memcached.py:81-130 | Undisturbed, its three steps leave the session, and the list with the id once and an hour longer to live |
| `MemcachedStorage.MemcachedSessionStorage.SetSession` | app/core/auth/session/backends/memcached.py:101 | The first step of a create: the session with its deadline |
| `MemcachedStorage.MemcachedSessionStorage.SetList` | app/core/auth/session/backends/memcached.py:120-124 | The last step of a create: the list, an hour longer to live |
| `MemcachedStorage.MemcachedSessionStorage.Update` | app/core/auth/session/backends/memcached.py:160-205 | Rewrites exactly a live session with a full lifetime, and the owner's list only when resetting |
| `MemcachedStorage.MemcachedSessionStorage.Delete` | app/core/auth/session/backends/memcached.py:207-252 | Removes a live session and the first occurrence of its id; only then is the list given its day |
| `MemcachedStorage.MemcachedSessionStorage.Extend` | app/core/auth/session/backends/memcached.py:254-298 | Moves the deadlines of a live session and of its owner's list |
| `MemcachedStorage.MemcachedSessionStorage.GetUserSessions` | app/core/auth/session/backends/memcached.py:318-346 | The ids in the user's unexpired list, in order |
| `RateLimit.CountIsExact` | app/core/rate_limit/backends/redis.py:84-97 | The expiry never drops a counter inside its window: every call is told exactly how many calls its key has seen in the current window |
| `RateLimit.CounterLasts` | app/core/rate_limit/backends/redis.py:84-97 | A counter is kept until one period after the last call on it and no longer |
| `RateLimit.WindowAllowsFirst` | app/core/rate_limit/backends/redis.py:84-97 | Of n calls in an aligned window exactly min(n, limit) are allowed |
| `RateLimit.SlidingBound` | app/core/rate_limit/backends/redis.py:84-97 | Any half-open interval of L seconds allows at most limit * (floor((L-1)/period) + 2) calls, and one of a period at most twice the limit |
| `RateLimit.SlidingBoundReached` | app/core/rate_limit/backends/redis.py:84-97 | Twice the limit within one period does happen |
| `RateLimit.WindowTextInjective` | app/core/rate_limit/backends/redis.py:84-86 | Different keys or windows never share a stored counter, even when keys contain colons and digits |
| `RateLimit.RedisRateLimiter.IncrementAndCheck` | app/core/rate_limit/backends/redis.py:71-104 | Count and limit verdict, with the one counter of the window raised and given a new deadline |
| `RateLimit.RedisRateLimiter.Increment` | app/core/rate_limit/backends/redis.py:135-163 | The counter plus the amount, from zero if it had expired, with a new deadline |
| `RateLimit.RedisRateLimiter.Delete` | app/core/rate_limit/backends/redis.py:165-179 | The counter is gone; true if there was a live one |
| `LostUpdates.RefusedOnlyAboveLimit` | app/core/rate_limit/backends/memcached.py:77-90 | In every interleaving of gets and sets, whatever the clock does, a counter is at most the number of sets completed on it, so a call is refused only once more than its limit have completed theirs |
| `LostUpdates.KeptExactly` | app/core/rate_limit/backends/memcached.py:138-142 | Over all runs on a counter that no get finds expired, with at most n calls between get and set, at most the limit is allowed exactly when n <= 1 or the limit allows nothing |
| `MemcachedLimiter.LimitKeptExactly` | app/core/rate_limit/backends/memcached.py:77-90 | For one limit and period per key and a clock that never goes back, every run with at most n calls between get and set per window allows at most the limit there exactly when n <= 1 or the limit allows nothing |
| `MemcachedLimiter.OneAtATime` | app/core/rate_limit/backends/memcached.py:77-90 | With one call at a time on a window, of n calls completed there exactly min(n, limit) are allowed, even when sets come late |
| `MemcachedLimiter.LostUpdate` | app/core/rate_limit/backends/memcached.py:77-90 | For every limit from 1 on and every period there is a run, with never more than two calls open, in which limit + 1 calls of one window pass |
| `MemcachedLimiter.SequentialEqualsRedis` | app/core/rate_limit/backends/memcached.py:64-94 | Without overlap, counters and answers equal those of the Redis backend over every run |
| `MemcachedLimiter.MemcachedRateLimiter.IncrementAndCheck` | app/core/rate_limit/backends/memcached.py:64-94 | One undisturbed call does what the Redis limiter does |
| `MemcachedLimiter.MemcachedRateLimiter.Increment` | app/core/rate_limit/backends/memcached.py:125-147 | The stored value plus the amount, from zero if it had expired |
| `RateLimitProvider.OverrideRestored` | app/core/rate_limit/provider.py:307-318 | In every interleaving in which overlapping calls agree, at most one call holds an override, the flag is off its original only while it does, and is back once all calls ended |
| `RateLimitProvider.RestoredExactly` | app/core/rate_limit/provider.py:307-318 | Overlapping in every way never loses the flag exactly when no two of the calls ask for opposite values |
| `RateLimitProvider.CrossedOverrides` | app/core/rate_limit/provider.py:307-318 | Two calls asking for opposite values can leave the flag turned around for good |
| `RateLimitProvider.AloneOverride` | app/core/rate_limit/provider.py:307-318 | A call that nothing overlaps runs with the value it asked for, or else the standing one, and leaves the state as it was |
| `RateLimitProvider.IncrementAndCheck` | app/core/rate_limit/provider.py:266-318 | A call on its own: the override decides the answer to a failing store and leaves no trace |
| `RateLimitProvider.RateLimiterProvider.GetBackend` | app/core/rate_limit/provider.py:90-125 | The named backend, or the default for no or an empty name, or an error naming what was missing |
| `RateLimitProvider.RateLimiterProvider.RegisterBackend` | app/core/rate_limit/provider.py:51-88 | The first backend registered becomes the default; later ones only on request |
| `RateLimitProvider.RateLimiterProvider.SetDefaultBackend` | app/core/rate_limit/provider.py:127-150 | Changes the default to a registered backend, or refuses and changes nothing |
| `LoginThrottle.UserThrottled` | app/core/auth/session/manager.py:541-570 | Over the Redis limiter, a whole login at a time: while attempts for a username come less than the window apart and none logs in, at most login_max_attempts passwords are checked for it, from however many addresses, whatever others do in between |
| `LoginThrottle.AddressThrottled` | app/core/auth/session/manager.py:541-570 | The same per address, however many usernames are tried, again over the Redis limiter |
| `LoginThrottle.RefusedExactly` | app/core/auth/session/manager.py:541-570 | After any run, an attempt is refused exactly when login_max_attempts attempts on its username or on its address came in a row, each less than the window before the next and the last less than the window ago, with no login among them |
| `LoginThrottle.WindowEnds` | app/core/auth/session/manager.py:541-570 | By the clock alone: once no attempt on the username or from the address is less than the window old, the password is checked again |
| `LoginThrottle.MemcachedThrottleExactly` | app/core/auth/session/manager.py:541-570 | Over the Memcached limiter, while a counter neither expires nor is cleared between attempts, the bound per username and per address holds exactly when at most one attempt at a time is between get and set of that counter, or none is to be allowed |
| `LoginThrottle.RefusedOnlyWhenPressed` | app/core/auth/session/manager.py:541-570 | An attempt is refused only after login_max_attempts others for its username or from its address since a success cleared that count |
| `LoginThrottle.KeysDistinct` | app/core/auth/session/manager.py:542-543 | Address and username counters never share a key |
| `LoginThrottle.LoginManager.TrackLoginAttempt` | app/core/auth/session/manager.py:520-574 | Without a limiter everything is allowed; a success deletes both counters; an attempt raises both and is judged by the larger |
| `LoginThrottle.LoginManager.Login` | app/api/v1/auth.py:68-85 | The password is checked only after the throttle allowed the attempt, and only a correct one clears the counters |
| `CacheDecorator.TransparentExactly` | app/core/cache/decorator.py:86-120 | Over every sequential run, whatever expires when, the decorated endpoints answer as the undecorated ones exactly when cached values come back unchanged and every write deletes each cached key whose answer it changes |
| `CacheHistory.AnswersExactly` | app/core/cache/decorator.py:86-120 | Over every sequential run of any application, without mention of a cache: a read is answered by its handler, unless an earlier read of the key that was so answered is less than the expiration old, nothing has deleted the key since, and its result counts as true once reread, and then with that; a misused read is refused, and a write answered by its handler |
| `CacheHistory.OneServes` | app/core/cache/decorator.py:86-101 | At most one earlier read can answer a read, so that answer is determined |
| `CacheHistory.AgeBounded` | app/core/cache/decorator.py:86-101 | So over every sequential run each answer to a read is the handler's result now, or, reread, at an earlier request less than the expiration ago |
| `CacheDecorator.CachedApp.Inner` | app/core/cache/decorator.py:67-107 | One request: as undecorated without a backend or a resource id; otherwise read through and fill on GET, refuse a GET with keys to invalidate, and run and then delete all its keys for any other method |
| `CacheDecorator.CacheBackend.Get` | app/core/cache/backends/redis.py:60-77 | The value under the key while it is alive |
| `CacheDecorator.CacheBackend.Set` | app/core/cache/backends/redis.py:79-96 | The value with its deadline |
| `CacheDecorator.CacheBackend.Delete` | app/core/cache/backends/redis.py:98-104 | The key is gone |
| `CacheStaleness.StalenessBounded` | app/core/cache/decorator.py:86-101 | In every interleaving of GETs, writes and deletions, a value the cache returns at time t is the one that the last GET to store under the key put there, and was the handler's true answer at some instant later than t - expiration - (duration of that GET) |
| `CacheStaleness.StalenessReached` | app/core/cache/decorator.py:86-101 | That bound cannot be improved: a slow GET overtaken by a write and its deletion attains it |
| `CacheStaleness.ReadIsSteps` | app/core/cache/decorator.py:86-101 | A missing read that nothing overlaps is, step by step, what `CacheDecorator.Handled` does to the cache |
| `CacheStaleness.WriteIsSteps` | app/core/cache/decorator.py:103-108 | So is a write followed by its deletions |
| `OAuthAccounts.LinkingKeepsUnique` | app/core/auth/oauth/services.py:41-122 | Every call keeps id, username, email, google_id and github_id unique |
| `OAuthAccounts.LinkingIdempotent` | app/core/auth/oauth/services.py:41-62 | Repeating a successful call returns the same user with created = False and changes nothing |
| `OAuthAccounts.OAuthAccountService.GetOrCreateUser` | app/core/auth/oauth/services.py:27-62 | The user with the identity, else the user with the email address, with only that provider's id and the time of change rewritten, else a new user or a refusal for want of an email address |
| `OAuthAccounts.OAuthAccountService.CreateUserFromOAuth` | app/core/auth/oauth/services.py:64-122 | The new row with the first free username, or a refusal that changes nothing |
| `OAuthAccounts.OAuthAccountService.FreeUsername` | app/core/auth/oauth/services.py:89-99 | Finds the first free name of base, base1, base2, ... within as many rounds as there are names |
| `OAuthAccounts.TakenCandidates` | app/core/auth/oauth/services.py:88-99 | Pigeonhole: n candidates that are all taken need n taken names |
| `OAuthAccounts.CandidatesDistinct` | app/core/auth/oauth/services.py:88-99 | The candidates are pairwise different |
| `OAuthAccounts.FirstFreeUnique` | app/core/auth/oauth/services.py:83-99 | Both loops can only come to the same name |
| `OAuthAccounts.SlugExactly` | app/core/auth/oauth/services.py:86 | ASCII upper-case letters become lower-case, blanks become underscores, all else stays, and doing it again changes nothing |
| `OAuthAccounts.StripExactly` | app/core/auth/oauth/services.py:102 | Only blanks are stripped, and all of them at both ends |
| `OAuthAccounts.StripUnique` | app/core/auth/oauth/services.py:102 | There is only one way to do that |
| `OAuthAccounts.LocalPartExactly` | app/core/auth/oauth/services.py:84 | What is before the first at sign, or everything if there is none |
| `OAuthAccounts.BaseNameExactly` | app/core/auth/oauth/services.py:81-99 | The username asked for, or else the slug of the first that is given of first name, name and local part |
| `OAuthAccounts.DisplayNameExactly` | app/core/auth/oauth/services.py:102-104 | The name given, or else first and last name with a blank between and blanks stripped at both ends, or the local part if nothing is left |
| `ApiKeys.VerifyExactly` | app/services/api_key.py:72-115 | The hash stored for a key accepts exactly the keys that derive the same bytes from its salt, the key itself among them, for every key and salt |
| `ApiKeys.AcceptedExactly` | app/services/api_key.py:91-115 | Whatever text the hash column holds, it accepts a key exactly when it is six fields joined by the separator, the first of them `scrypt`, all readable, and the key derives the last from the others |
| `ApiKeys.PrefixRecovered` | app/services/api_key.py:306-313 | The prefix slice gives back the generated prefix for every raw key with one, underscores or not |
| `ApiKeys.PrefixExactly` | app/services/api_key.py:306-313 | A presented key has a prefix exactly when it begins with `fai_`, eight characters and an underscore |
| `ApiKeys.KeyTextInjective` | app/services/api_key.py:65-67 | Different raw keys give different key texts |
| `ApiKeys.CreatedKeyIsFound` | app/services/api_key.py:306-322 | A key handed out selects its own row wherever it stands, unless an earlier row has the same prefix and accepts it too |
| `ApiKeys.FirstMatchIsFirst` | app/services/api_key.py:318-322 | The candidate loop ends at the first row with the prefix whose hash accepts the key, and finds none only if there is none |
| `ApiKeys.ApiKeyService.ValidateApiKey` | app/services/api_key.py:288-371 | Without reference to the code: invalid exactly when no row has the prefix of the key and accepts it; otherwise it is the first such row that decides, as inactive, else expired if its expiry lies before now, else forbidden, else valid with its id, user, permissions and limits; the last use of that row is set exactly when valid, and no other field of any row changes |
| `ApiKeys.OneVerdict` | app/services/api_key.py:288-371 | The conditions of the verdicts shut each other out, so together they leave no choice |
| `ApiKeys.ApiKeyService.CreateApiKey` | app/services/api_key.py:117-155 | The stored row carries the prefix and the salted hash of the key returned |
| `Text.EncodeRoundTrip` | app/services/api_key.py:87-104 | Base64 (section 4 of RFC 4648) decodes to the bytes encoded and never contains the separator |
| `Text.EncodedLength` | app/services/api_key.py:87-88 | Every three bytes begun become four characters |
| `Text.SplitJoined` | app/services/api_key.py:89-94 | Splitting at the separator gives the joined fields back |
| `Text.SplitCuts` | app/services/api_key.py:91-96 | A bounded split cuts each part off before the first separator, until there is none or the cuts are used up |
| `Text.JoinSplit` | app/services/api_key.py:91-96 | Joining what any such cutting leaves gives the text back |
| `Text.SymbolInAlphabet` | app/services/api_key.py:87-88 | The symbols are those of table 1 in section 4 of RFC 4648 |
| `Text.DecimalRoundTrip` | app/services/api_key.py:89-102 | A number printed in decimal parses to itself |
| `UsageAnalytics.RankingCorrect` | app/models/api_key.py:410-419 | The ranking lists every endpoint once, by count descending and then by first appearance, and the counts add up to the number of records |
| `UsageAnalytics.TopEndpoints` | app/models/api_key.py:416-419 | An endpoint that is not among the first `limit` of the ranking is outranked by each of them, and then there are that many |
| `UsageAnalytics.EndpointsMerge` | app/models/api_key.py:410-414 | What is counted: for every record in order its endpoint, or the empty text, and nothing for an entry that is no record |
| `UsageAnalytics.CalculateEndpointUsage` | app/models/api_key.py:400-419 | The rows are the first `limit` of the ranking, or all but the last -limit for a negative one, each with the exact number of records of its endpoint |
| `UsageAnalytics.ErrorBreakdownCorrect` | app/models/api_key.py:422-437 | For every status from 400 on the count is the number of records with that status, and the counts add up to the number of records with a status from 400 on |
| `UsageAnalytics.ErrorKeysMerge` | app/models/api_key.py:430-435 | What is counted: for every record in order with a status from 400 on that status, printed |
| `UsageAnalytics.ErrorBreakdownPermutes` | app/models/api_key.py:422-437 | The counts do not depend on the order of the records |
| `UsageAnalytics.CalculateErrorBreakdown` | app/models/api_key.py:422-437 | The dictionary is the tally of the printed error statuses |
| `UsageAnalytics.MetricsMerge` | app/models/api_key.py:357-380 | The metrics of two lists together, in any order, are the sums of theirs |
| `UsageAnalytics.OneEntry` | app/models/api_key.py:357-380 | The metrics of one entry on its fields: one request, a success exactly for a record with 200 <= status < 300, its tokens and its cost, absent fields counting as zero; with `MetricsMerge` this fixes those of every list |
| `UsageAnalytics.CountsAreTotals` | app/models/api_key.py:366-368 | The filtered list has as many entries as succeeded, and the failed ones are the rest |
| `UsageAnalytics.CalculateDailyUsage` | app/models/api_key.py:440-481 | One row per day, dated by number, with exactly that day's requests, successes, failures, tokens and cost |
| `UsageAnalytics.OneDay` | app/models/api_key.py:440-481 | The rows of one entry on its fields: one row for a record with a usable date, with its success, tokens and cost, and none otherwise |
| `UsageAnalytics.RowsMerge` | app/models/api_key.py:468-479 | The row of a day over two lists together is the sum of their rows |
| `UsageAnalytics.DateTextOrder` | app/models/api_key.py:462-481 | Printed dates of four-digit years are equal, and sort as strings, as the date numbers that the model groups and sorts by |
| `UsageAnalytics.DatesIncrease` | app/models/api_key.py:481 | The rows' dates strictly increase and are exactly the days that occur |
| `UsageAnalytics.DailyConserves` | app/models/api_key.py:440-481 | When every record has a usable date, the columns of the rows returned add up to the basic metrics |
| `UsageAnalytics.DailyPermutes` | app/models/api_key.py:440-481 | Neither days nor rows depend on the order of the records |

## Left out

- HTTP, cookies, headers, dependency injection, settings, logging, background tasks and migrations.
- Errors of storages and swallowed exceptions: storage calls succeed, except for the failing store of
  `RateLimitProvider.RateLimiterBackend`.
- The user agent, device fields and the forwarded address of a session are one opaque `origin`.
- Interleavings inside `validate_session` and `terminate_session`, but for the list half of their updates
  on Memcached in `BackendFlight`, and what an update that stalls for an hour before that half does to the
  list's lifetime.
- Whole-run claims about Memcached outside `FlightCap`, `FlightRuns` and `LostUpdates` are about calls that
  do not overlap.
- The index entries that Redis and Memcached keep for CSRF tokens, which nothing reads.
- Pattern deletion on every storage, and the scan that Memcached does not offer.
- Custom lifetimes that differ between sessions, in the claims about indexes.
- Rounding of remaining lifetimes, and Memcached lifetimes beyond 30 days, which it reads as dates.
- `get_count` and `reset` of the limiters, which address a key without a window.
- md5 of Memcached window keys and the shortening of long Memcached keys: taken as collision-free.
- Cached strings and booleans, and how resource ids are inferred.
- FastCRUD: the user table is a list of rows, and updating a row is taken to return it.
- Validation of the fields of a new account, the password hash and `oauth_created_at`.
- Identity providers other than Google and GitHub, and linking calls that overlap.
- Permission lookup for API keys: a parameter tells for each key whether it passes.
- The texts of refusals.
- The average response time, and records whose `status_code` is present but not a number.
- scrypt parameters that scrypt itself refuses.
- OAuthAccounts.OAuthAccountService.CreateUserFromOAuth: lower-casing covers ASCII letters and stripping covers blanks only.
- Text.DecimalRoundTrip: `int()` also takes signs, blanks and underscores, which the parser here refuses; printed numbers have none.
- Text.EncodeRoundTrip: Python's decoder skips characters outside the alphabet, which the decoder here refuses; encoded text has none.
- Any claim about what the in-memory `delete` returns to a client: it also says yes to expired entries that are still stored.
- CacheDecorator.CachedApp.Inner: extra keys named by patterns are not deleted, because pattern deletion goes through one page of a scan only.
- MemcachedLimiter.MemcachedRateLimiter.IncrementAndCheck: speaks of an undisturbed call; overlapping calls are the subject of `MemcachedLimiter.LimitKeptExactly`.
- MemcachedLimiter.MemcachedRateLimiter.Increment: speaks of an undisturbed call; overlapping calls are the subject of `LostUpdates.KeptExactly`.
- MemcachedStorage.IndexCompleteExactly: its runs update with resetting only, as the manager does; `MemcachedStorage.UnresetForgets` shows why.
- MemcachedStorage.MemcachedSessionStorage.Create: speaks of an undisturbed call; overlapping creates are the subject of `FlightRuns.CapKeptExactly`.
- LoginThrottle.UserThrottled: speaks of whole logins over Redis; overlapping attempts over Memcached are the subject of `LoginThrottle.MemcachedThrottleExactly`, which leaves out clearing.
- LoginThrottle.AddressThrottled: the same.
- SessionManagement.SessionManager.CleanupExpiredSessions: without the cleanup of rate limits, which asks the limiters for a pattern deletion that they do not offer.
- UsageAnalytics.CalculateDailyUsage: rows carry the date as a number; how it prints is the subject of `UsageAnalytics.DateTextOrder`.
