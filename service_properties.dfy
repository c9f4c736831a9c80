/** Properties of the resolution chain of service/rate_service.go, stated
    over the functions that the RateService methods are proved to follow:
    which tier answers, what is written back, which currency an error names,
    and that the provider's key scheme is the one the resolver reads. */
module ServiceProperties {
  import opened Wrappers
  import opened Models
  import opened Cache
  import opened RateStore
  import opened Provider
  import opened Service

  /** The cache step misses: no direct hit and not both pivot keys. */
  predicate CacheMisses(entries: Entries, pivot: string, expiry: Duration, now: int, base: string, target: string)
  {
    && Lookup(entries, PairKey(base, target), expiry, now).None?
    && !(Lookup(entries, PairKey(pivot, base), expiry, now).Some?
         && Lookup(entries, PairKey(pivot, target), expiry, now).Some?)
  }

  /** A direct cache hit is the answer as it is; nothing is written and the
      table is never read (the answer does not depend on `rows`). */
  lemma DirectCacheHit(entries: Entries, rows: map<Pair, Rate>, pivot: string, expiry: Duration, now: int,
                       base: string, target: string)
    requires Lookup(entries, PairKey(base, target), expiry, now).Some?
    ensures ResolveDivisorOk(entries, rows, pivot, expiry, now, base, target)
    ensures Resolve(entries, rows, pivot, expiry, now, base, target)
         == (Success(entries[PairKey(base, target)].data), entries)
  {
  }

  /** Direct key missed, both pivot keys hit: the answer is the cross rate
      of the two cached pivot rates, memoised under the direct key. */
  lemma CachedCrossRate(entries: Entries, rows: map<Pair, Rate>, pivot: string, expiry: Duration, now: int,
                        base: string, target: string, toBase: Rate, toTarget: Rate)
    requires Lookup(entries, PairKey(base, target), expiry, now).None?
    requires Lookup(entries, PairKey(pivot, base), expiry, now) == Some(toBase)
    requires Lookup(entries, PairKey(pivot, target), expiry, now) == Some(toTarget)
    requires toBase.rate != 0.0
    ensures ResolveDivisorOk(entries, rows, pivot, expiry, now, base, target)
    ensures var cross := CrossRate(toBase, toTarget, base, target);
      Resolve(entries, rows, pivot, expiry, now, base, target) == (Success(cross), Remember(entries, base, target, cross, now))
  {
  }

  /** With the pivot as base the pivot->target key is the direct key, so the
      cache step can only answer directly. */
  lemma PivotBaseNeverCrossesInCache(entries: Entries, pivot: string, expiry: Duration, now: int, target: string)
    ensures CacheDivisorOk(entries, pivot, expiry, now, pivot, target)
    ensures FromCache(entries, pivot, expiry, now, pivot, target)
         == (Lookup(entries, PairKey(pivot, target), expiry, now), entries)
  {
  }

  /** Table step, pivot as base: only the (base, target) row is read; its
      absence is reported against the target. A found row is cached. */
  lemma StoreDirectRow(entries: Entries, rows: map<Pair, Rate>, pivot: string, expiry: Duration, now: int,
                       target: string)
    requires Lookup(entries, PairKey(pivot, target), expiry, now).None?
    ensures ResolveDivisorOk(entries, rows, pivot, expiry, now, pivot, target)
    ensures Resolve(entries, rows, pivot, expiry, now, pivot, target)
         == if (pivot, target) in rows
            then (Success(rows[(pivot, target)]), Remember(entries, pivot, target, rows[(pivot, target)], now))
            else (Failure(CurrencyNotSupported(target)), entries)
  {
  }

  /** Table step, other base: a missing (pivot, base) row is reported against
      the base whatever the target row holds, and nothing is cached. */
  lemma StoreMissingBaseRow(entries: Entries, rows: map<Pair, Rate>, pivot: string, expiry: Duration, now: int,
                            base: string, target: string)
    requires CacheMisses(entries, pivot, expiry, now, base, target)
    requires base != pivot && (pivot, base) !in rows
    ensures ResolveDivisorOk(entries, rows, pivot, expiry, now, base, target)
    ensures Resolve(entries, rows, pivot, expiry, now, base, target) == (Failure(CurrencyNotSupported(base)), entries)
  {
  }

  /** Table step, other base: with the base row present, a missing
      (pivot, target) row is reported against the target. */
  lemma StoreMissingTargetRow(entries: Entries, rows: map<Pair, Rate>, pivot: string, expiry: Duration, now: int,
                              base: string, target: string)
    requires CacheMisses(entries, pivot, expiry, now, base, target)
    requires base != pivot && (pivot, base) in rows && (pivot, target) !in rows
    ensures ResolveDivisorOk(entries, rows, pivot, expiry, now, base, target)
    ensures Resolve(entries, rows, pivot, expiry, now, base, target) == (Failure(CurrencyNotSupported(target)), entries)
  {
  }

  /** Table step, other base, both rows present: the cross rate of the two
      rows, cached under the direct key. */
  lemma StoreCrossRate(entries: Entries, rows: map<Pair, Rate>, pivot: string, expiry: Duration, now: int,
                       base: string, target: string)
    requires CacheMisses(entries, pivot, expiry, now, base, target)
    requires base != pivot && (pivot, base) in rows && (pivot, target) in rows
    requires rows[(pivot, base)].rate != 0.0
    ensures ResolveDivisorOk(entries, rows, pivot, expiry, now, base, target)
    ensures var cross := CrossRate(rows[(pivot, base)], rows[(pivot, target)], base, target);
      Resolve(entries, rows, pivot, expiry, now, base, target) == (Success(cross), Remember(entries, base, target, cross, now))
  {
    var cross := CrossRate(rows[(pivot, base)], rows[(pivot, target)], base, target);
    assert FromCache(entries, pivot, expiry, now, base, target) == (None, entries);
    assert FromDb(rows, entries, pivot, now, base, target) == (Success(cross), Remember(entries, base, target, cross, now));
    assert Remember(Remember(entries, base, target, cross, now), base, target, cross, now)
        == Remember(entries, base, target, cross, now);
  }

  /** Two lookups of the same pair at the same second with no write in
      between give the same answer, the second one from the cache, and the
      second writes nothing. */
  lemma ResolveIdempotent(entries: Entries, rows: map<Pair, Rate>, pivot: string, expiry: Duration, now: int,
                          base: string, target: string)
    requires ResolveDivisorOk(entries, rows, pivot, expiry, now, base, target)
    requires -Second < expiry
    requires Resolve(entries, rows, pivot, expiry, now, base, target).0.Success?
    ensures ResolveDivisorOk(Resolve(entries, rows, pivot, expiry, now, base, target).1, rows, pivot, expiry, now, base, target)
    ensures var first := Resolve(entries, rows, pivot, expiry, now, base, target);
      Resolve(first.1, rows, pivot, expiry, now, base, target) == first
  {
    var first := Resolve(entries, rows, pivot, expiry, now, base, target);
    DirectCacheHit(first.1, rows, pivot, expiry, now, base, target);
  }

  /** The worked example: empty cache, table rows USD->EUR 0.90 and
      USD->GBP 0.80 at t0, pivot USD. EUR->GBP resolves to 0.80 / 0.90 at t0
      and is then cached under "EUR_GBP". */
  lemma EuroToPoundExample(expiry: Duration, now: int, t0: int, round: (real, int) -> real)
    ensures var rows := map[("USD", "EUR") := Rate(1, "USD", "EUR", 0.90, t0),
                            ("USD", "GBP") := Rate(2, "USD", "GBP", 0.80, t0)];
      var cross := Rate(0, "EUR", "GBP", 0.80 / 0.90, t0);
      && ResolveDivisorOk(map[], rows, "USD", expiry, now, "EUR", "GBP")
      && Resolve(map[], rows, "USD", expiry, now, "EUR", "GBP") == (Success(cross), map["EUR_GBP" := CachedPrice(cross, now)])
      && NewRateDto(cross, round) == RateDto("EUR", "GBP", round(0.80 / 0.90, 2), t0)
  {
    var rows := map[("USD", "EUR") := Rate(1, "USD", "EUR", 0.90, t0),
                    ("USD", "GBP") := Rate(2, "USD", "GBP", 0.80, t0)];
    assert PairKey("EUR", "GBP") == "EUR_GBP";
    StoreCrossRate(map[], rows, "USD", expiry, now, "EUR", "GBP");
  }

  /** The provider's key scheme is the one calculateCrossRate reads: for a
      snapshot built from a pivot payload, two codes of the payload resolve to
      their cross rate, stamped with the snapshot time. */
  lemma SnapshotResolvesCrossRate(pivot: string, payload: map<string, real>, updateTime: int,
                                  entries: Entries, now: int, base: string, target: string)
    requires '_' !in pivot && '_' !in base && base != pivot
    requires base in payload && target in payload && payload[base] != 0.0
    ensures SnapshotDivisorOk(Snapshot(pivot, payload, updateTime), pivot, base, target)
    ensures var cross := Rate(0, base, target, payload[target] / payload[base], updateTime);
      FromSnapshot(Snapshot(pivot, payload, updateTime), entries, pivot, now, base, target)
        == (Success(cross), Remember(entries, base, target, cross, now))
  {
    DirectKeyNotInSnapshot(pivot, payload, updateTime, base, target);
  }

  /** A pair whose base is not the snapshot's base has no key in it. */
  lemma DirectKeyNotInSnapshot(pivot: string, payload: map<string, real>, updateTime: int, base: string, target: string)
    requires '_' !in pivot && '_' !in base && base != pivot
    ensures PairKey(base, target) !in Snapshot(pivot, payload, updateTime)
  {
    forall code | code in payload
      ensures PairKey(pivot, code) != PairKey(base, target)
    {
      PairKeyBasesDiffer(pivot, code, base, target);
    }
  }

  /** The background sync writes the keys the resolver reads: after a
      snapshot of a pivot payload is pushed into the cache, a pair of its
      codes whose direct key was not served is resolved from the cache as
      the cross rate of the payload, stamped with the sync time. */
  lemma SyncedSnapshotResolves(pivot: string, payload: map<string, real>, entries: Entries, rows: map<Pair, Rate>,
                               expiry: Duration, now: int, base: string, target: string)
    requires '_' !in pivot && '_' !in base && base != pivot
    requires base in payload && target in payload && payload[base] != 0.0
    requires -Second < expiry
    requires Lookup(entries, PairKey(base, target), expiry, now).None?
    ensures ResolveDivisorOk(entries + Stamped(Snapshot(pivot, payload, now), now), rows, pivot, expiry, now, base, target)
    ensures Resolve(entries + Stamped(Snapshot(pivot, payload, now), now), rows, pivot, expiry, now, base, target).0
         == Success(Rate(0, base, target, payload[target] / payload[base], now))
  {
    var snapshot := Snapshot(pivot, payload, now);
    var synced := entries + Stamped(snapshot, now);
    DirectKeyNotInSnapshot(pivot, payload, now, base, target);
    assert Lookup(synced, PairKey(base, target), expiry, now) == Lookup(entries, PairKey(base, target), expiry, now);
    assert Lookup(synced, PairKey(pivot, base), expiry, now) == Some(Rate(0, pivot, base, payload[base], now));
    assert Lookup(synced, PairKey(pivot, target), expiry, now) == Some(Rate(0, pivot, target, payload[target], now));
    CachedCrossRate(synced, rows, pivot, expiry, now, base, target,
                    Rate(0, pivot, base, payload[base], now), Rate(0, pivot, target, payload[target], now));
  }

  /** Each snapshot entry is filed under the key of its own pair. */
  ghost predicate WellKeyedSnapshot(rates: map<string, Rate>)
  {
    forall key :: key in rates ==> PairKey(rates[key].base, rates[key].target) == key
  }

  /** When every snapshot entry is filed under its own pair key (as Adapt's
      are), no two entries share a pair, so after syncToDB each entry's row
      holds exactly that entry's rate and update time, whatever the order. */
  lemma SyncedRowsMatchSnapshot(before: map<Pair, Rate>, after: map<Pair, Rate>, rates: map<string, Rate>)
    requires WellKeyedSnapshot(rates)
    requires TableSynced(before, after, rates, rates.Keys)
    ensures forall key :: key in rates ==>
      && PairOf(rates[key]) in after
      && after[PairOf(rates[key])].rate == rates[key].rate
      && after[PairOf(rates[key])].updatedAt == rates[key].updatedAt
  {
    forall key | key in rates
      ensures PairOf(rates[key]) in after
      ensures after[PairOf(rates[key])].rate == rates[key].rate
      ensures after[PairOf(rates[key])].updatedAt == rates[key].updatedAt
    {
      var p := PairOf(rates[key]);
      assert p in PairsOf(rates, rates.Keys);
      var k :| k in rates.Keys && PairOf(rates[k]) == p
               && after[p].rate == rates[k].rate && after[p].updatedAt == rates[k].updatedAt;
      assert k == key;
    }
  }

  /** Adapt's snapshots are filed under their own pair keys. */
  lemma AdaptedSnapshotWellKeyed(base: string, payload: map<string, real>, updateTime: int)
    ensures WellKeyedSnapshot(Snapshot(base, payload, updateTime))
  {
    SnapshotEntriesWellKeyed(base, payload, updateTime);
  }

  /** Every cache entry is filed under its own pair key, and its base has no
      separator in it. */
  ghost predicate WellKeyedCache(entries: Entries)
  {
    forall key :: key in entries ==>
      PairKey(entries[key].data.base, entries[key].data.target) == key && '_' !in entries[key].data.base
  }

  /** Every table row sits under its own (base, target). */
  ghost predicate KeyedTable(rows: map<Pair, Rate>)
  {
    forall p :: p in rows ==> PairOf(rows[p]) == p
  }

  /** Over a well-keyed cache and table, an answer is always for the pair
      asked (never another pair sharing its key), and the cache stays
      well-keyed. */
  lemma ResolveAnswersRequestedPair(entries: Entries, rows: map<Pair, Rate>, pivot: string, expiry: Duration, now: int,
                                    base: string, target: string)
    requires WellKeyedCache(entries) && KeyedTable(rows) && '_' !in base
    requires ResolveDivisorOk(entries, rows, pivot, expiry, now, base, target)
    ensures var out := Resolve(entries, rows, pivot, expiry, now, base, target);
      && (out.0.Success? ==> out.0.value.base == base && out.0.value.target == target)
      && WellKeyedCache(out.1)
  {
    var key := PairKey(base, target);
    var direct := Lookup(entries, key, expiry, now);
    if direct.Some? {
      var v := entries[key].data;
      PairKeyDeterminesPair(v.base, v.target, base, target);
    }
  }

  /** Pushing an Adapt snapshot of a pivot without separator into a
      well-keyed cache keeps it well-keyed. */
  lemma SyncKeepsCacheWellKeyed(entries: Entries, pivot: string, payload: map<string, real>, now: int)
    requires WellKeyedCache(entries) && '_' !in pivot
    ensures WellKeyedCache(entries + Stamped(Snapshot(pivot, payload, now), now))
  {
    SnapshotEntriesWellKeyed(pivot, payload, now);
  }
}
