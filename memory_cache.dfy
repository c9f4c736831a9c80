/** cache/memory_cache.go: the in-process rate cache. A map from key to the
    rate and the second it was stored; an entry expires lazily, when a read
    finds it older than the expiry the caller passes. The RWMutex that guards
    the map is not modelled (every call here is one atomic step), and the
    clock is the explicit parameter `now` (Unix seconds). */
module Cache {
  import opened Wrappers
  import opened Models

  /** A Go time.Duration: a signed count of nanoseconds. */
  type Duration = int

  const Second: Duration := 1_000_000_000

  /** int64(d.Seconds()): the duration in whole seconds, truncated toward
      zero (Dafny's `/` rounds down, so negative durations are negated first). */
  function WholeSeconds(d: Duration): (s: int)
    ensures 0 <= d ==> 0 <= s && s * Second <= d < (s + 1) * Second
    ensures d < 0 ==> s <= 0 && (s - 1) * Second < d <= s * Second
  {
    if 0 <= d then d / Second else -((-d) / Second)
  }

  /** CachedPrice: a cached rate and the Unix second at which it was set. */
  datatype CachedPrice = CachedPrice(data: Rate, timestamp: int)

  /** The read rule of InMemoryCache.Get as a function of the map: the entry
      under `key`, provided it exists and is at most `expiry` old at `now`. */
  function Lookup(entries: map<string, CachedPrice>, key: string, expiry: Duration, now: int): Option<Rate>
  {
    if key in entries && now - entries[key].timestamp <= WholeSeconds(expiry)
    then Some(entries[key].data)
    else None
  }

  class InMemoryCache {
    var entries: map<string, CachedPrice>

    /** NewInMemoryCache: an empty cache. */
    constructor ()
      ensures entries == map[]
    {
      entries := map[];
    }

    /** Get answers the stored rate exactly when the key is present and the
        entry's age does not exceed the expiry in whole seconds; otherwise it
        answers the zero rate and false. It changes nothing: there is no
        eviction on read. */
    method Get(key: string, expiry: Duration, now: int) returns (rate: Rate, found: bool)
      ensures found <==> key in entries && now - entries[key].timestamp <= WholeSeconds(expiry)
      ensures found ==> rate == entries[key].data
      ensures !found ==> rate == ZeroRate
      ensures Lookup(entries, key, expiry, now) == if found then Some(rate) else None
    {
      if key !in entries {
        return ZeroRate, false;
      }
      var item := entries[key];
      if now - item.timestamp > WholeSeconds(expiry) {
        return ZeroRate, false;
      }
      return item.data, true;
    }

    /** Set overwrites the entry for `key` and stamps it with `now`; every
        other key keeps its entry. The expiry is not stored: it is supplied
        again on each read. */
    method Set(key: string, data: Rate, expiry: Duration, now: int)
      modifies this
      ensures entries == old(entries)[key := CachedPrice(data, now)]
    {
      entries := entries[key := CachedPrice(data, now)];
    }
  }

  /** A new cache misses every key. */
  lemma EmptyCacheMisses(key: string, expiry: Duration, now: int)
    ensures Lookup(map[], key, expiry, now) == None
  {
  }

  /** An entry whose age equals the expiry is still served; one second older
      and it is not. */
  lemma ExpiryBoundary(entries: map<string, CachedPrice>, key: string, expiry: Duration)
    requires key in entries
    ensures Lookup(entries, key, expiry, entries[key].timestamp + WholeSeconds(expiry)) == Some(entries[key].data)
    ensures Lookup(entries, key, expiry, entries[key].timestamp + WholeSeconds(expiry) + 1) == None
  {
  }

  /** Freshness only decays: an entry served at `now` with some expiry is
      served at every earlier moment and with every longer expiry. */
  lemma FreshnessMonotone(entries: map<string, CachedPrice>, key: string, expiry: Duration, now: int,
                          expiry': Duration, now': int)
    requires Lookup(entries, key, expiry, now).Some?
    requires expiry <= expiry' && now' <= now
    ensures Lookup(entries, key, expiry', now') == Lookup(entries, key, expiry, now)
  {
    assert WholeSeconds(expiry) <= WholeSeconds(expiry') by {
      WholeSecondsMonotone(expiry, expiry');
    }
  }

  lemma WholeSecondsMonotone(d: Duration, d': Duration)
    requires d <= d'
    ensures WholeSeconds(d) <= WholeSeconds(d')
  {
    var s, s' := WholeSeconds(d), WholeSeconds(d');
    if s' < s {
      assert false;
    }
  }

  /** Set followed by Get of the same key at the same second answers the value
      just set, for every expiry of at least zero whole seconds. */
  lemma SetThenGet(entries: map<string, CachedPrice>, key: string, data: Rate, expiry: Duration, now: int)
    requires -Second < expiry
    ensures Lookup(entries[key := CachedPrice(data, now)], key, expiry, now) == Some(data)
  {
  }

  /** Set of one key leaves what every other key answers unchanged. */
  lemma SetLeavesOtherKeys(entries: map<string, CachedPrice>, key: string, data: Rate, other: string,
                           expiry: Duration, now: int, readAt: int)
    requires other != key
    ensures Lookup(entries[key := CachedPrice(data, now)], other, expiry, readAt) == Lookup(entries, other, expiry, readAt)
  {
  }
}
