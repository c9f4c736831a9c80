# Exchange-rate resolution: a Dafny model

This project models the core of a Go exchange-rate service and proves
properties of that model. The service answers "how many `target` per one
`base`" in tiers:

1. The cache (modelled: the in-process one), under the key `base_target`.
2. A cross rate derived from the two cached pivot rates `G_base` and
   `G_target`. G is the configured global base currency, for example USD.
3. The `rates` table: the row `(G, target)` when `base` is G, and otherwise a
   cross rate from the rows `(G, base)` and `(G, target)`.

Every derived rate, and every table answer, is written back into the cache
under `base_target`. A background job pushes each provider snapshot into the
cache and upserts it into the table.

Files, one Dafny module each:

- `wrappers.dfy`: `Option` and `Result`.
- `models.dfy`: `Rate`, `RateDto`, `NewRateDto`, and the pair key
  `base + "_" + target` with its injectivity lemmas.
- `memory_cache.dfy`: the in-process cache. It is the class
  `InMemoryCache`, with the read rule `Lookup` and lemmas about expiry.
  `Lookup` is a helper: what it says is the `Cache.InMemoryCache.Get` row,
  whose contract is stated through it.
- `open_exchange_adapter.dfy`: `Adapt`, a loop building the snapshot map. It
  is proved equal to the function `Snapshot`.
- `rate_table.dfy`: the `rates` table as the class `RateTable`. It is a map
  keyed by `(base, target)`, with `First` and the upsert `Upsert`.
- `rate_service.dfy`: the class `RateService`, whose methods follow the Go
  methods call for call. Each method is proved to agree with a function that
  says what it answers and which cache it leaves: `FromCache`, `FromDb`,
  `Resolve` and `FromSnapshot`.
- `service_properties.dfy`: lemmas about those functions. They cover which
  tier answers, what is written back, which currency an error names, that
  lookups are idempotent, and that the provider's keys are the keys the
  resolver reads.

Conventions:

- Rates are Dafny `real`.
- `utility.Round` is the uninterpreted parameter `round`.
- The clock is the explicit parameter `now`, in Unix seconds.
- A `time.Duration` is an `int` count of nanoseconds.
  `int64(expiry.Seconds())` is modelled by `WholeSeconds`, which truncates
  toward zero.
- The Go service divides by the pivot→base rate without checking it. So the
  model requires that divisor to be non-zero exactly where a division happens
  (`CacheDivisorOk`, `StoredDivisorOk`, `SnapshotDivisorOk`). For `GetRate`
  the table's divisor is constrained only when the cache step misses
  (`ResolveDivisorOk`), since a cache answer never reads the table. The code has no
  error path for a zero rate, such as an `InvalidRate` error, so the model has
  none either.

## Model

| member | source | states |
|---|---|---|
| Models.NewRateDto | models/rate_dto.go:12-19 | base, target and update time are copied unchanged; the rate is `round(rate, 2)` |
| Models.PairKey | service/rate_service.go:98 | the key is the base, one `_`, then the target, and nothing else |
| Models.PairKeyInjective | provider/open_exchange_adapter.go:18-20 | for one base, distinct codes get distinct keys, so no snapshot entry overwrites another |
| Models.PairKeyDeterminesPair | service/rate_service.go:98-109 | when neither base contains `_`, a key names exactly one (base, target) pair |
| Models.PairKeyBasesDiffer | service/rate_service.go:108-109 | keys with different bases (neither containing `_`) are different keys |
| Cache.WholeSeconds | cache/memory_cache.go:29 | `int64(expiry.Seconds())` truncates toward zero: the result is bracketed by whole seconds on the side of zero |
| Cache.InMemoryCache.constructor | cache/memory_cache.go:19-23 | a new cache has no entries |
| Cache.InMemoryCache.Get | cache/memory_cache.go:25-33 | found exactly when the key is present and `now - timestamp <= expiry seconds`; then the stored rate, else the zero rate; changes nothing |
| Cache.InMemoryCache.Set | cache/memory_cache.go:35-42 | the key's entry becomes (data, now); all other entries are unchanged |
| Cache.EmptyCacheMisses | cache/memory_cache.go:19-31 | a new cache misses every key |
| Cache.ExpiryBoundary | cache/memory_cache.go:29 | an entry exactly `expiry` seconds old is served; one second older it is not |
| Cache.FreshnessMonotone | cache/memory_cache.go:29 | an entry served at some time and expiry is served at every earlier time and every longer expiry |
| Cache.SetThenGet | cache/memory_cache.go:35-41 | after Set(k, d) at `now`, a read of k at `now` returns d for any expiry of at least zero whole seconds |
| Cache.SetLeavesOtherKeys | cache/memory_cache.go:38-41 | Set of one key leaves the answer for every other key unchanged |
| Provider.Snapshot | provider/open_exchange_adapter.go:16-27 | the key set is exactly `{base_code : code in payload}`; each entry is (base, code, payload[code]) at the one update time |
| Provider.Adapt | provider/open_exchange_adapter.go:11-28 | a value that is not an API response gives the error; otherwise the loop builds exactly `Snapshot(base, rates, now)` |
| Provider.SnapshotEntriesWellKeyed | provider/open_exchange_adapter.go:18-25 | every entry sits under the key of its own pair, has the payload base, a payload code and its rate, and the shared update time |
| Provider.EmptyPayloadEmptySnapshot | provider/open_exchange_adapter.go:17-27 | an empty rates payload gives an empty snapshot |
| RateStore.RateTable.First | service/rate_service.go:63 | the row for (base, target) when it exists, otherwise none |
| RateStore.RateTable.Upsert | service/rate_service.go:237-242 | an existing row for the pair gets the new rate and update time and keeps its id; a new pair is inserted under a fresh id; other rows are unchanged; ids stay unique |
| Service.CrossRate | service/rate_service.go:125-138 | the result is for (base, target); rate × pivot→base rate = pivot→target rate; update time is the later of the two inputs |
| Service.FromCache | service/rate_service.go:97-123 | a miss writes nothing; an answer is afterwards served by the cache under the direct key; the new cache is the old one, or the old one with just the answer written under the direct key |
| Service.FromDb | service/rate_service.go:57-95 | a failure writes nothing and names the base or the target; an answer leaves the cache unchanged or memoises it under the direct key |
| Service.Resolve | service/rate_service.go:22-55 | needs a non-zero table divisor only when the cache step misses; a failure leaves the cache unchanged and names the base or the target; an answer is afterwards served by the cache; the new cache is the old one, or the old one with just the answer written under the direct key |
| Service.FromSnapshot | service/rate_service.go:179-208 | fails, with RateNotFound(base, target), exactly when the direct key and one of the pivot keys are missing; a direct key is returned as is; otherwise the answer is the cross rate of the two pivot entries, written into the cache under `base_target` at `now` |
| Service.Remember | service/rate_service.go:140 | the memoised cache has the old keys plus `base_target`, which holds the rate stamped `now`; every other entry is unchanged |
| Service.Stamped | service/rate_service.go:227-229 | the entries syncToCache writes have exactly the snapshot's keys, each holding its snapshot rate stamped `now` |
| Service.RateService.CalculateCrossRateFromRates | service/rate_service.go:125-143 | returns the cross rate and caches it under `base_target` at `now` |
| Service.RateService.GetRateFromCache | service/rate_service.go:97-123 | answer and new cache are those of FromCache; a miss returns the zero rate |
| Service.RateService.GetRateFromDB | service/rate_service.go:57-95 | answer and new cache are those of FromDb |
| Service.RateService.GetRate | service/rate_service.go:22-55 | the new cache is that of Resolve; the result is the DTO of Resolve's answer, or its error |
| Service.RateService.CalculateCrossRate | service/rate_service.go:179-208 | answer and new cache are those of FromSnapshot |
| Service.RateService.SyncToCache | service/rate_service.go:225-231 | the cache becomes the old cache overridden by every snapshot entry stamped `now` |
| Service.RateService.SyncToDB | service/rate_service.go:233-245 | the table after upserting every snapshot value: snapshot pairs present with a snapshot value's rate and time, old ids kept, other rows untouched, nothing else inserted |
| Service.RateService.SyncToDBAndCache | service/rate_service.go:210-223 | a failed fetch changes nothing; a snapshot is synced into the cache and then the table |
| ServiceProperties.DirectCacheHit | service/rate_service.go:30-36 | a direct cache hit is the answer as stored and nothing is written; the table is never read, so any table (even one with a zero divisor) is accepted |
| ServiceProperties.CachedCrossRate | service/rate_service.go:108-118 | direct miss and both pivot keys cached: the answer is the cross rate of the cached pivots, written under `base_target`, whatever the table holds |
| ServiceProperties.PivotBaseNeverCrossesInCache | service/rate_service.go:108-111 | with the pivot as base, the cache step can only answer directly |
| ServiceProperties.StoreDirectRow | service/rate_service.go:60-69 | pivot as base, cache miss: the (base, target) row is the answer and is cached; if it is missing, the error names the target |
| ServiceProperties.StoreMissingBaseRow | service/rate_service.go:76-80 | other base, cache miss, no (pivot, base) row: the error names the base, whatever the target row is, and nothing is cached |
| ServiceProperties.StoreMissingTargetRow | service/rate_service.go:82-86 | other base, (pivot, base) present, (pivot, target) missing: the error names the target |
| ServiceProperties.StoreCrossRate | service/rate_service.go:76-94 | other base, both rows present: the answer is their cross rate, cached under `base_target` |
| ServiceProperties.ResolveIdempotent | service/rate_service.go:42-47 | a second lookup at the same second gives the same answer from the cache and writes nothing |
| ServiceProperties.EuroToPoundExample | service/rate_service.go:72-94 | empty cache and rows USD→EUR 0.90 and USD→GBP 0.80: EUR→GBP is 0.80/0.90 at t0, cached as `EUR_GBP`, shown as round(0.80/0.90, 2) |
| ServiceProperties.SnapshotResolvesCrossRate | service/rate_service.go:190-204 | on a snapshot of a pivot payload, two of its codes resolve to payload[target]/payload[base] at the snapshot time |
| ServiceProperties.DirectKeyNotInSnapshot | service/rate_service.go:183-185 | a pair whose base is not the snapshot's base (no `_` in either) has no direct key in the snapshot |
| ServiceProperties.SyncedSnapshotResolves | service/rate_service.go:225-231 | after a pivot snapshot is synced into the cache, a pair of its codes resolves from the cache to the payload cross rate |
| ServiceProperties.SyncedRowsMatchSnapshot | service/rate_service.go:233-245 | for a snapshot whose entries sit under their own pair keys, each entry's row holds exactly that entry's rate and time, whatever the upsert order |
| ServiceProperties.AdaptedSnapshotWellKeyed | provider/open_exchange_adapter.go:18-25 | Adapt's entries sit under their own pair keys |
| ServiceProperties.ResolveAnswersRequestedPair | service/rate_service.go:97-105 | over a cache and a table whose entries sit under their own keys, an answer is always for the pair asked, and the cache keeps that shape |
| ServiceProperties.SyncKeepsCacheWellKeyed | service/rate_service.go:225-231 | syncing a snapshot of a pivot without `_` keeps the cache's entries under their own keys |

## Left out

- The Redis cache (cache/redis_cache.go) is not part of this model. It is a network client whose expiry is the server's TTL, so only the in-process cache is modelled. The shipped wiring (setup/setup.go:32-35) builds the service over the Redis cache, with the in-process cache commented out, so the modelled `RateService` is the in-process configuration, not the one the program ships.
- HTTP and gRPC transport, configuration, bootstrapping, logging and the database connection are not part of this model. The table is a map keyed by (base, target), with no GORM.
- `OpenExchangeProvider.GetRates` is not modelled. It is an HTTP GET plus a JSON decode, and its mapping loop is the same as `Adapt`. Its outcome is the `fetched` parameter of `SyncToDBAndCache`.
- `getRateFromProvider` (service/rate_service.go:146-177) is not modelled. Nothing calls it, and its two fire-and-forget goroutines race with its own reply. The snapshot lookup it ends with is modelled as `CalculateCrossRate`.
- `StartBackgroundSync` is not modelled. Its ticker loop never ends; one tick is `SyncToDBAndCache`.
- Concurrency is not modelled: the cache's RWMutex, races between the sync and lookups, and `recover`. Every operation is one sequential step.
- Floating point is not modelled. Rates are exact reals, so there is no rounding error and no ±Inf or NaN.
- Division by zero: the Go code divides by a zero pivot→base rate and gets ±Inf or NaN. The model instead requires that divisor to be non-zero.
- `utility.Round` is not modelled; it is the uninterpreted parameter `round`.
- The clock: one `now` serves a whole `GetRate` call. In Go, each cache read and write reads the clock itself, so a second can pass between the two pivot reads.
- `WholeSeconds` ignores float64 rounding in `Duration.Seconds()`. That rounding only matters for expiries of months with a fractional-second part.
- The int64 wrap-around of `now - timestamp` is not modelled.
- `Adapt` does not model a typed nil `*apiResponse`. It passes the type check, and in Go it then panics on the nil dereference.
- Table errors other than "not found" are not modelled. The source reports them with the same "not supported" error.
- `RateTable.Upsert` ignores the incoming id and takes the next sequence value for a new row. It does not model the sequence value PostgreSQL consumes on a conflict. The snapshots the service upserts always carry id 0.
- The upsert errors that `syncToDB` ignores are not modelled.
