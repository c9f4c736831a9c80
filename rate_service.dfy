/** service/rate_service.go: resolving a (base, target) rate through the
    cache, then the rates table, deriving cross rates through the global base
    currency (the pivot), and pushing a provider snapshot into both stores.

    The functions below say, as values, what each step of the Go service
    answers and which cache it leaves behind; the methods of RateService do
    the same work step by step on the cache and table objects and are proved
    to agree with them. */
module Service {
  import opened Wrappers
  import opened Models
  import opened Cache
  import opened RateStore

  /** The errors the service reports. */
  datatype Error =
      /** "provided currency <currency> is currently not supported" */
    | CurrencyNotSupported(currency: string)
      /** "rate not found for <base>_<target>" */
    | RateNotFound(base: string, target: string)

  type Entries = map<string, CachedPrice>

  /** calculateCrossRateFromRates without its cache write: the base->target
      rate from the two pivot->currency rates. It is as fresh as the staler
      input, i.e. stamped with the later of the two update times. */
  function CrossRate(pivotToBase: Rate, pivotToTarget: Rate, base: string, target: string): (cross: Rate)
    requires pivotToBase.rate != 0.0
    ensures cross.base == base && cross.target == target && cross.id == 0
    ensures cross.rate * pivotToBase.rate == pivotToTarget.rate
    ensures cross.updatedAt >= pivotToBase.updatedAt && cross.updatedAt >= pivotToTarget.updatedAt
    ensures cross.updatedAt == pivotToBase.updatedAt || cross.updatedAt == pivotToTarget.updatedAt
  {
    var updatedAt :=
      if pivotToBase.updatedAt > pivotToTarget.updatedAt then pivotToBase.updatedAt else pivotToTarget.updatedAt;
    Rate(0, base, target, pivotToTarget.rate / pivotToBase.rate, updatedAt)
  }

  /** The cache after a derived or stored rate is memoised under its pair key. */
  function Remember(entries: Entries, base: string, target: string, rate: Rate, now: int): (after: Entries)
    ensures after.Keys == entries.Keys + {PairKey(base, target)}
    ensures after[PairKey(base, target)] == CachedPrice(rate, now)
    ensures forall key :: key in entries && key != PairKey(base, target) ==> after[key] == entries[key]
  {
    entries[PairKey(base, target) := CachedPrice(rate, now)]
  }

  /** The cache step divides only when the direct key misses and both pivot
      keys hit; the pivot->base rate it then divides by is non-zero. */
  predicate CacheDivisorOk(entries: Entries, pivot: string, expiry: Duration, now: int, base: string, target: string)
  {
    var toBase := Lookup(entries, PairKey(pivot, base), expiry, now);
    Lookup(entries, PairKey(base, target), expiry, now).None? && toBase.Some?
      && Lookup(entries, PairKey(pivot, target), expiry, now).Some?
    ==> toBase.value.rate != 0.0
  }

  /** The table step divides only for a non-pivot base with both pivot rows
      present; the (pivot, base) rate is then non-zero. */
  predicate StoredDivisorOk(rows: map<Pair, Rate>, pivot: string, base: string, target: string)
  {
    base != pivot && (pivot, base) in rows && (pivot, target) in rows ==> rows[(pivot, base)].rate != 0.0
  }

  /** The snapshot step divides only when the direct key is absent and both
      pivot keys are present; the pivot->base rate is then non-zero. */
  predicate SnapshotDivisorOk(rates: map<string, Rate>, pivot: string, base: string, target: string)
  {
    PairKey(base, target) !in rates && PairKey(pivot, base) in rates && PairKey(pivot, target) in rates
    ==> rates[PairKey(pivot, base)].rate != 0.0
  }

  /** getRateFromCache: the direct key, else a cross rate from the two pivot
      keys (memoised under the direct key), else a miss. */
  function FromCache(entries: Entries, pivot: string, expiry: Duration, now: int, base: string, target: string)
    : (out: (Option<Rate>, Entries))
    requires CacheDivisorOk(entries, pivot, expiry, now, base, target)
    ensures out.0.None? ==> out.1 == entries
    ensures out.0.Some? && -Second < expiry ==> Lookup(out.1, PairKey(base, target), expiry, now) == out.0
    ensures forall key :: key in entries && key != PairKey(base, target) ==> key in out.1 && out.1[key] == entries[key]
    ensures out.1 == entries || (out.0.Some? && out.1 == Remember(entries, base, target, out.0.value, now))
  {
    var direct := Lookup(entries, PairKey(base, target), expiry, now);
    if direct.Some? then
      (direct, entries)
    else
      var toBase := Lookup(entries, PairKey(pivot, base), expiry, now);
      var toTarget := Lookup(entries, PairKey(pivot, target), expiry, now);
      if toBase.Some? && toTarget.Some? then
        var cross := CrossRate(toBase.value, toTarget.value, base, target);
        (Some(cross), Remember(entries, base, target, cross, now))
      else
        (None, entries)
  }

  /** The divisions GetRate can reach: the cache step's, and the table
      step's only after the cache step has missed. Each divisor reached is
      non-zero; a table row the chain never reads is unconstrained. */
  predicate ResolveDivisorOk(entries: Entries, rows: map<Pair, Rate>, pivot: string, expiry: Duration, now: int,
                             base: string, target: string)
  {
    && CacheDivisorOk(entries, pivot, expiry, now, base, target)
    && (FromCache(entries, pivot, expiry, now, base, target).0.None? ==> StoredDivisorOk(rows, pivot, base, target))
  }

  /** getRateFromDB: for the pivot as base only the direct row is read; for
      any other base the rate is derived from the (pivot, base) and
      (pivot, target) rows, the base row checked first, and memoised. */
  function FromDb(rows: map<Pair, Rate>, entries: Entries, pivot: string, now: int, base: string, target: string)
    : (out: (Result<Rate, Error>, Entries))
    requires StoredDivisorOk(rows, pivot, base, target)
    ensures out.0.Failure? ==> out.1 == entries
    ensures out.0.Failure? ==> out.0.error == CurrencyNotSupported(base) || out.0.error == CurrencyNotSupported(target)
    ensures out.0.Success? ==> out.1 == entries || out.1 == Remember(entries, base, target, out.0.value, now)
  {
    if base == pivot then
      if (base, target) in rows then (Success(rows[(base, target)]), entries)
      else (Failure(CurrencyNotSupported(target)), entries)
    else if (pivot, base) !in rows then
      (Failure(CurrencyNotSupported(base)), entries)
    else if (pivot, target) !in rows then
      (Failure(CurrencyNotSupported(target)), entries)
    else
      var cross := CrossRate(rows[(pivot, base)], rows[(pivot, target)], base, target);
      (Success(cross), Remember(entries, base, target, cross, now))
  }

  /** GetRate: the cache, then the table; a table answer is memoised under
      the direct key. Only that key is ever written, a failure writes
      nothing, and an answer is afterwards served by the cache itself. */
  function Resolve(entries: Entries, rows: map<Pair, Rate>, pivot: string, expiry: Duration, now: int,
                   base: string, target: string): (out: (Result<Rate, Error>, Entries))
    requires ResolveDivisorOk(entries, rows, pivot, expiry, now, base, target)
    ensures out.0.Failure? ==> out.1 == entries
    ensures out.0.Failure? ==> out.0.error == CurrencyNotSupported(base) || out.0.error == CurrencyNotSupported(target)
    ensures out.0.Success? && -Second < expiry ==> Lookup(out.1, PairKey(base, target), expiry, now) == Some(out.0.value)
    ensures forall key :: key in entries && key != PairKey(base, target) ==> key in out.1 && out.1[key] == entries[key]
    ensures out.1 == entries || (out.0.Success? && out.1 == Remember(entries, base, target, out.0.value, now))
  {
    var (hit, afterCache) := FromCache(entries, pivot, expiry, now, base, target);
    if hit.Some? then
      (Success(hit.value), afterCache)
    else
      var (stored, afterDb) := FromDb(rows, afterCache, pivot, now, base, target);
      if stored.Success? then (stored, Remember(afterDb, base, target, stored.value, now))
      else (stored, afterDb)
  }

  /** calculateCrossRate over a provider snapshot: the direct key, else the
      cross rate from the two pivot keys (memoised in the cache), else
      RateNotFound. */
  function FromSnapshot(rates: map<string, Rate>, entries: Entries, pivot: string, now: int, base: string, target: string)
    : (out: (Result<Rate, Error>, Entries))
    requires SnapshotDivisorOk(rates, pivot, base, target)
    ensures out.0.Failure? <==> PairKey(base, target) !in rates && (PairKey(pivot, base) !in rates || PairKey(pivot, target) !in rates)
    ensures out.0.Failure? ==> out.0.error == RateNotFound(base, target) && out.1 == entries
    ensures PairKey(base, target) in rates ==> out == (Success(rates[PairKey(base, target)]), entries)
    ensures PairKey(base, target) !in rates && PairKey(pivot, base) in rates && PairKey(pivot, target) in rates ==>
      var cross := CrossRate(rates[PairKey(pivot, base)], rates[PairKey(pivot, target)], base, target);
      out == (Success(cross), Remember(entries, base, target, cross, now))
  {
    var pair := PairKey(base, target);
    if pair in rates then
      (Success(rates[pair]), entries)
    else if PairKey(pivot, base) !in rates || PairKey(pivot, target) !in rates then
      (Failure(RateNotFound(base, target)), entries)
    else
      var cross := CrossRate(rates[PairKey(pivot, base)], rates[PairKey(pivot, target)], base, target);
      (Success(cross), Remember(entries, base, target, cross, now))
  }

  /** The cache entries syncToCache writes: every snapshot key, stamped now. */
  function Stamped(rates: map<string, Rate>, now: int): (stamped: Entries)
    ensures stamped.Keys == rates.Keys
    ensures forall key :: key in rates ==> stamped[key] == CachedPrice(rates[key], now)
  {
    map key | key in rates :: CachedPrice(rates[key], now)
  }

  /** Loop state of syncToCache: `done` holds the snapshot entries already
      written, and the cache is the old one with those entries stamped. */
  ghost predicate CacheSyncedSoFar(before: Entries, rates: map<string, Rate>, remaining: set<string>,
                                   done: map<string, Rate>, entries: Entries, now: int)
  {
    && remaining <= rates.Keys
    && done.Keys <= rates.Keys
    && (forall key :: key in rates ==> (key in done <==> key !in remaining))
    && (forall key :: key in done ==> done[key] == rates[key])
    && entries == before + Stamped(done, now)
  }

  /** Writing one more snapshot entry into the cache keeps the loop state. */
  lemma CacheSyncStep(before: Entries, rates: map<string, Rate>, remaining: set<string>,
                      done: map<string, Rate>, now: int, key: string)
    requires CacheSyncedSoFar(before, rates, remaining, done, before + Stamped(done, now), now)
    requires key in remaining
    ensures CacheSyncedSoFar(before, rates, remaining - {key}, done[key := rates[key]],
                             (before + Stamped(done, now))[key := CachedPrice(rates[key], now)], now)
  {
    StampedInsert(done, key, rates[key], now);
    var stamped := Stamped(done, now);
    var entry := CachedPrice(rates[key], now);
    assert (before + stamped)[key := entry] == before + stamped[key := entry];
  }

  /** Stamping a snapshot with one more entry adds that entry, stamped. */
  lemma StampedInsert(rates: map<string, Rate>, key: string, rate: Rate, now: int)
    ensures Stamped(rates[key := rate], now) == Stamped(rates, now)[key := CachedPrice(rate, now)]
  {
    var bigger := Stamped(rates[key := rate], now);
    var updated := Stamped(rates, now)[key := CachedPrice(rate, now)];
    assert bigger.Keys == updated.Keys;
  }

  /** Once every snapshot entry is written the cache holds the old entries
      overridden by the stamped snapshot. */
  lemma CacheSyncDone(before: Entries, rates: map<string, Rate>, done: map<string, Rate>, entries: Entries, now: int)
    requires CacheSyncedSoFar(before, rates, {}, done, entries, now)
    ensures entries == before + Stamped(rates, now)
  {
    assert done == rates;
  }

  /** The (base, target) pairs of the snapshot entries named by `keys`. */
  function PairsOf(rates: map<string, Rate>, keys: set<string>): set<Pair>
    requires keys <= rates.Keys
  {
    set key | key in keys :: PairOf(rates[key])
  }

  /** The table after syncToDB has upserted the snapshot entries named by
      `keys`, in some order: every pair among them is present and carries the
      rate and update time of one of the entries for that pair (the last one
      upserted); rows that existed keep their id; no other row changes and no
      other row appears. */
  ghost predicate TableSynced(before: map<Pair, Rate>, after: map<Pair, Rate>, rates: map<string, Rate>, keys: set<string>)
    requires keys <= rates.Keys
  {
    && after.Keys == before.Keys + PairsOf(rates, keys)
    && (forall p :: p in before ==> after[p].id == before[p].id)
    && (forall p :: p in before && p !in PairsOf(rates, keys) ==> after[p] == before[p])
    && (forall p :: p in PairsOf(rates, keys) ==>
          exists key :: key in keys && PairOf(rates[key]) == p
                        && after[p].rate == rates[key].rate && after[p].updatedAt == rates[key].updatedAt)
  }

  /** One more upsert extends a synced table by one snapshot entry. */
  lemma TableSyncedStep(before: map<Pair, Rate>, mid: map<Pair, Rate>, after: map<Pair, Rate>,
                        rates: map<string, Rate>, keys: set<string>, key: string)
    requires keys <= rates.Keys && key in rates && key !in keys
    requires TableSynced(before, mid, rates, keys)
    requires Upserted(mid, after, rates[key])
    ensures TableSynced(before, after, rates, keys + {key})
  {
    var keys' := keys + {key};
    PairsOfInsert(rates, keys, key);
    assert after.Keys == before.Keys + PairsOf(rates, keys');
    assert forall p :: p in before ==> after[p].id == before[p].id;
    assert forall p :: p in before && p !in PairsOf(rates, keys') ==> after[p] == before[p];
    forall p | p in PairsOf(rates, keys + {key})
      ensures exists k :: k in keys + {key} && PairOf(rates[k]) == p
                          && after[p].rate == rates[k].rate && after[p].updatedAt == rates[k].updatedAt
    {
      TableSyncedStepPair(before, mid, after, rates, keys, key, p);
    }
  }

  /** Naming one more snapshot entry adds its pair to the pairs named. */
  lemma PairsOfInsert(rates: map<string, Rate>, keys: set<string>, key: string)
    requires keys <= rates.Keys && key in rates
    ensures PairsOf(rates, keys + {key}) == PairsOf(rates, keys) + {PairOf(rates[key])}
  {
  }

  /** After one more upsert, each synced pair still carries the rate of one
      of the entries upserted for it. */
  lemma TableSyncedStepPair(before: map<Pair, Rate>, mid: map<Pair, Rate>, after: map<Pair, Rate>,
                            rates: map<string, Rate>, keys: set<string>, key: string, p: Pair)
    requires keys <= rates.Keys && key in rates && key !in keys
    requires TableSynced(before, mid, rates, keys)
    requires Upserted(mid, after, rates[key])
    requires p in PairsOf(rates, keys) + {PairOf(rates[key])}
    ensures exists k :: k in keys + {key} && PairOf(rates[k]) == p
                        && after[p].rate == rates[k].rate && after[p].updatedAt == rates[k].updatedAt
  {
    if p == PairOf(rates[key]) {
      assert key in keys + {key};
    } else {
      var k :| k in keys && PairOf(rates[k]) == p
               && mid[p].rate == rates[k].rate && mid[p].updatedAt == rates[k].updatedAt;
      assert k in keys + {key};
    }
  }

  /** Before any upsert the table is trivially synced on no entries. */
  lemma TableSyncedNothing(rows: map<Pair, Rate>, rates: map<string, Rate>)
    ensures TableSynced(rows, rows, rates, {})
  {
    assert PairsOf(rates, {}) == {};
  }

  class RateService {
    const cache: InMemoryCache
    const store: RateTable
    const expiry: Duration
    const globalBaseCurrency: string

    constructor (cache: InMemoryCache, store: RateTable, expiry: Duration, globalBaseCurrency: string)
      ensures this.cache == cache && this.store == store
      ensures this.expiry == expiry && this.globalBaseCurrency == globalBaseCurrency
    {
      this.cache := cache;
      this.store := store;
      this.expiry := expiry;
      this.globalBaseCurrency := globalBaseCurrency;
    }

    /** calculateCrossRateFromRates: derive the cross rate and cache it under
        the pair key. */
    method CalculateCrossRateFromRates(usdToBase: Rate, usdToTarget: Rate, baseCode: string, targetCode: string, now: int)
      returns (rate: Rate)
      requires usdToBase.rate != 0.0
      modifies cache
      ensures rate == CrossRate(usdToBase, usdToTarget, baseCode, targetCode)
      ensures cache.entries == Remember(old(cache.entries), baseCode, targetCode, rate, now)
    {
      var crossRate := usdToTarget.rate / usdToBase.rate;
      var updatedAt := usdToTarget.updatedAt;
      if usdToBase.updatedAt > updatedAt {
        updatedAt := usdToBase.updatedAt;
      }
      var pair := PairKey(baseCode, targetCode);
      rate := Rate(0, baseCode, targetCode, crossRate, updatedAt);
      cache.Set(pair, rate, expiry, now);
    }

    /** getRateFromCache */
    method GetRateFromCache(base: string, target: string, now: int) returns (rate: Rate, found: bool)
      requires CacheDivisorOk(cache.entries, globalBaseCurrency, expiry, now, base, target)
      modifies cache
      ensures (if found then Some(rate) else None, cache.entries)
           == FromCache(old(cache.entries), globalBaseCurrency, expiry, now, base, target)
      ensures !found ==> rate == ZeroRate
    {
      var pair := PairKey(base, target);
      var direct, foundDirect := cache.Get(pair, expiry, now);
      if foundDirect {
        return direct, true;
      }
      var usdToBase, foundBase := cache.Get(PairKey(globalBaseCurrency, base), expiry, now);
      var usdToTarget, foundTarget := cache.Get(PairKey(globalBaseCurrency, target), expiry, now);
      if foundBase && foundTarget {
        rate := CalculateCrossRateFromRates(usdToBase, usdToTarget, base, target, now);
        return rate, true;
      }
      return ZeroRate, false;
    }

    /** getRateFromDB */
    method GetRateFromDB(base: string, target: string, now: int) returns (result: Result<Rate, Error>)
      requires StoredDivisorOk(store.rows, globalBaseCurrency, base, target)
      modifies cache
      ensures (result, cache.entries) == FromDb(store.rows, old(cache.entries), globalBaseCurrency, now, base, target)
    {
      if base == globalBaseCurrency {
        var row := store.First(base, target);
        if row.None? {
          return Failure(CurrencyNotSupported(target));
        }
        return Success(row.value);
      }
      var usdToBase := store.First(globalBaseCurrency, base);
      if usdToBase.None? {
        return Failure(CurrencyNotSupported(base));
      }
      var usdToTarget := store.First(globalBaseCurrency, target);
      if usdToTarget.None? {
        return Failure(CurrencyNotSupported(target));
      }
      var rate := CalculateCrossRateFromRates(usdToBase.value, usdToTarget.value, base, target, now);
      return Success(rate);
    }

    /** GetRate: resolve through cache and table, cache a table answer, and
        project the answer onto its external view. */
    method GetRate(base: string, target: string, now: int, round: (real, int) -> real)
      returns (result: Result<RateDto, Error>)
      requires ResolveDivisorOk(cache.entries, store.rows, globalBaseCurrency, expiry, now, base, target)
      modifies cache
      ensures var (answer, after) := Resolve(old(cache.entries), store.rows, globalBaseCurrency, expiry, now, base, target);
        && cache.entries == after
        && result == if answer.Success? then Success(NewRateDto(answer.value, round)) else Failure(answer.error)
    {
      var rate, found := GetRateFromCache(base, target, now);
      if found {
        return Success(NewRateDto(rate, round));
      }
      var stored := GetRateFromDB(base, target, now);
      if stored.Success? {
        var pair := PairKey(base, target);
        cache.Set(pair, stored.value, expiry, now);
        return Success(NewRateDto(stored.value, round));
      }
      return Failure(stored.error);
    }

    /** calculateCrossRate over a provider snapshot. */
    method CalculateCrossRate(rates: map<string, Rate>, base: string, target: string, now: int)
      returns (result: Result<Rate, Error>)
      requires SnapshotDivisorOk(rates, globalBaseCurrency, base, target)
      modifies cache
      ensures (result, cache.entries) == FromSnapshot(rates, old(cache.entries), globalBaseCurrency, now, base, target)
    {
      var pair := PairKey(base, target);
      if pair in rates {
        return Success(rates[pair]);
      }
      var usdToBaseKey := PairKey(globalBaseCurrency, base);
      var usdToTargetKey := PairKey(globalBaseCurrency, target);
      if usdToBaseKey !in rates || usdToTargetKey !in rates {
        return Failure(RateNotFound(base, target));
      }
      var rate := CalculateCrossRateFromRates(rates[usdToBaseKey], rates[usdToTargetKey], base, target, now);
      return Success(rate);
    }

    /** syncToCache: every snapshot entry is set under its own key at `now`;
        other keys keep their entries. */
    method SyncToCache(rates: map<string, Rate>, now: int)
      modifies cache
      ensures cache.entries == old(cache.entries) + Stamped(rates, now)
    {
      var remaining := rates.Keys;
      ghost var done: map<string, Rate> := map[];
      assert Stamped(done, now) == map[];
      while remaining != {}
        invariant CacheSyncedSoFar(old(cache.entries), rates, remaining, done, cache.entries, now)
        decreases remaining
      {
        var key :| key in remaining;
        cache.Set(key, rates[key], expiry, now);
        CacheSyncStep(old(cache.entries), rates, remaining, done, now, key);
        done := done[key := rates[key]];
        remaining := remaining - {key};
      }
      CacheSyncDone(old(cache.entries), rates, done, cache.entries, now);
    }

    /** syncToDB: upsert every snapshot entry by its own (base, target). */
    method SyncToDB(rates: map<string, Rate>)
      requires store.Valid()
      modifies store
      ensures store.Valid()
      ensures TableSynced(old(store.rows), store.rows, rates, rates.Keys)
    {
      var remaining := rates.Keys;
      ghost var done: set<string> := {};
      TableSyncedNothing(store.rows, rates);
      while remaining != {}
        invariant remaining <= rates.Keys && done <= rates.Keys
        invariant forall key :: key in rates ==> (key in done <==> key !in remaining)
        invariant store.Valid()
        invariant TableSynced(old(store.rows), store.rows, rates, done)
        decreases remaining
      {
        var key :| key in remaining;
        ghost var mid := store.rows;
        store.Upsert(rates[key]);
        TableSyncedStep(old(store.rows), mid, store.rows, rates, done, key);
        done := done + {key};
        remaining := remaining - {key};
      }
      assert done == rates.Keys;
    }

    /** syncToDBAndCache: with the provider's answer as a parameter, a failed
        fetch changes nothing; a snapshot goes to the cache, then the table. */
    method SyncToDBAndCache(fetched: Result<map<string, Rate>, string>, now: int)
      requires store.Valid()
      modifies cache, store
      ensures store.Valid()
      ensures fetched.Failure? ==> cache.entries == old(cache.entries) && store.rows == old(store.rows)
      ensures fetched.Success? ==>
        && cache.entries == old(cache.entries) + Stamped(fetched.value, now)
        && TableSynced(old(store.rows), store.rows, fetched.value, fetched.value.Keys)
    {
      if fetched.Failure? {
        return;
      }
      var rates := fetched.value;
      SyncToCache(rates, now);
      SyncToDB(rates);
    }
  }
}
