/** provider/open_exchange_adapter.go: turning a decoded Open Exchange Rates
    payload into the snapshot the service stores, one rate per currency code
    under the key "<payload base>_<code>", all stamped with one time. */
module Provider {
  import opened Wrappers
  import opened Models

  /** The untyped value Adapt receives: either the decoded API response
      (`*apiResponse`, whose own `timestamp` field Adapt does not use) or a
      value of any other type. */
  datatype RawData =
    | ApiResponse(rates: map<string, real>, base: string, timestamp: int)
    | OtherValue

  const InvalidDataType := "invalid data type for OpenExchangeAdapter"

  /** The snapshot built from a payload: one entry per code, keyed by the
      payload base and the code, stamped with `updateTime`. */
  function Snapshot(base: string, rates: map<string, real>, updateTime: int): (snapshot: map<string, Rate>)
    ensures snapshot.Keys == set code | code in rates :: PairKey(base, code)
    ensures forall code :: code in rates ==>
      snapshot[PairKey(base, code)] == Rate(0, base, code, rates[code], updateTime)
  {
    assert forall c1, c2 :: PairKey(base, c1) == PairKey(base, c2) ==> c1 == c2 by {
      forall c1, c2 ensures PairKey(base, c1) == PairKey(base, c2) ==> c1 == c2 {
        PairKeyInjective(base, c1, c2);
      }
    }
    map code | code in rates :: PairKey(base, code) := Rate(0, base, code, rates[code], updateTime)
  }

  /** Adding one code to the payload adds exactly its entry to the snapshot. */
  lemma SnapshotAddCode(base: string, rates: map<string, real>, code: string, rate: real, updateTime: int)
    requires code !in rates
    ensures Snapshot(base, rates[code := rate], updateTime)
         == Snapshot(base, rates, updateTime)[PairKey(base, code) := Rate(0, base, code, rate, updateTime)]
  {
    var bigger := Snapshot(base, rates[code := rate], updateTime);
    var updated := Snapshot(base, rates, updateTime)[PairKey(base, code) := Rate(0, base, code, rate, updateTime)];
    forall k | k in bigger ensures k in updated && bigger[k] == updated[k] {
      SnapshotAddCodeEntry(base, rates, code, rate, updateTime, k);
    }
    forall k | k in updated ensures k in bigger {
      SnapshotAddCodeKey(base, rates, code, rate, updateTime, k);
    }
    assert bigger.Keys == updated.Keys;
  }

  /** An entry of the larger snapshot is the new code's entry or an
      unchanged entry of the smaller one. */
  lemma SnapshotAddCodeEntry(base: string, rates: map<string, real>, code: string, rate: real, updateTime: int, k: string)
    requires code !in rates
    requires k in Snapshot(base, rates[code := rate], updateTime)
    ensures var updated := Snapshot(base, rates, updateTime)[PairKey(base, code) := Rate(0, base, code, rate, updateTime)];
      k in updated && Snapshot(base, rates[code := rate], updateTime)[k] == updated[k]
  {
    var c :| c in rates[code := rate] && PairKey(base, c) == k;
    if c != code {
      PairKeyInjective(base, c, code);
      assert c in rates;
    }
  }

  /** Every key of the smaller snapshot, and the new code's key, is a key of
      the larger one. */
  lemma SnapshotAddCodeKey(base: string, rates: map<string, real>, code: string, rate: real, updateTime: int, k: string)
    requires k in Snapshot(base, rates, updateTime)[PairKey(base, code) := Rate(0, base, code, rate, updateTime)]
    ensures k in Snapshot(base, rates[code := rate], updateTime)
  {
    if k != PairKey(base, code) {
      var c :| c in rates && PairKey(base, c) == k;
      assert c in rates[code := rate];
    }
  }

  /** OpenExchangeAdapter.Adapt: a payload of the wrong type is an error;
      otherwise the result is the snapshot of the payload stamped with the
      current time. */
  method Adapt(rawData: RawData, now: int) returns (result: Result<map<string, Rate>, string>)
    ensures rawData.OtherValue? ==> result == Failure(InvalidDataType)
    ensures rawData.ApiResponse? ==> result == Success(Snapshot(rawData.base, rawData.rates, now))
  {
    if !rawData.ApiResponse? {
      return Failure(InvalidDataType);
    }
    var data := rawData;
    var updateTime := now;
    var rates: map<string, Rate> := map[];
    var remaining := data.rates.Keys;
    ghost var done: map<string, real> := map[];
    EmptyPayloadEmptySnapshot(data.base, updateTime);
    while remaining != {}
      invariant AdaptedSoFar(data.base, data.rates, remaining, done, rates, updateTime)
      decreases remaining
    {
      var code :| code in remaining;
      AdaptStep(data.base, data.rates, remaining, done, rates, updateTime, code);
      rates := rates[PairKey(data.base, code) := Rate(0, data.base, code, data.rates[code], updateTime)];
      done := done[code := data.rates[code]];
      remaining := remaining - {code};
    }
    AdaptDone(data.base, data.rates, done, rates, updateTime);
    return Success(rates);
  }

  /** Loop state of Adapt: `done` holds the codes already converted, with
      their payload rates, and `rates` is their snapshot. */
  ghost predicate AdaptedSoFar(base: string, payload: map<string, real>, remaining: set<string>,
                               done: map<string, real>, rates: map<string, Rate>, updateTime: int)
  {
    && remaining <= payload.Keys
    && done.Keys <= payload.Keys
    && (forall code :: code in payload ==> (code in done <==> code !in remaining))
    && (forall code :: code in done ==> done[code] == payload[code])
    && rates == Snapshot(base, done, updateTime)
  }

  lemma AdaptStep(base: string, payload: map<string, real>, remaining: set<string>,
                  done: map<string, real>, rates: map<string, Rate>, updateTime: int, code: string)
    requires AdaptedSoFar(base, payload, remaining, done, rates, updateTime)
    requires code in remaining
    ensures AdaptedSoFar(base, payload, remaining - {code}, done[code := payload[code]],
                         rates[PairKey(base, code) := Rate(0, base, code, payload[code], updateTime)], updateTime)
  {
    SnapshotAddCode(base, done, code, payload[code], updateTime);
  }

  lemma AdaptDone(base: string, payload: map<string, real>, done: map<string, real>,
                  rates: map<string, Rate>, updateTime: int)
    requires AdaptedSoFar(base, payload, {}, done, rates, updateTime)
    ensures rates == Snapshot(base, payload, updateTime)
  {
    assert done == payload;
  }

  /** Every snapshot entry is filed under its own pair key, comes from the
      payload's base, and carries the one shared update time. */
  lemma SnapshotEntriesWellKeyed(base: string, rates: map<string, real>, updateTime: int)
    ensures forall key :: key in Snapshot(base, rates, updateTime) ==>
      var entry := Snapshot(base, rates, updateTime)[key];
      && PairKey(entry.base, entry.target) == key
      && entry.base == base
      && entry.target in rates
      && entry.rate == rates[entry.target]
      && entry.updatedAt == updateTime
  {
    var snapshot := Snapshot(base, rates, updateTime);
    forall key | key in snapshot
      ensures PairKey(snapshot[key].base, snapshot[key].target) == key
      ensures snapshot[key].base == base && snapshot[key].target in rates
      ensures snapshot[key].rate == rates[snapshot[key].target] && snapshot[key].updatedAt == updateTime
    {
      var code :| code in rates && PairKey(base, code) == key;
    }
  }

  /** An empty payload gives an empty snapshot. */
  lemma EmptyPayloadEmptySnapshot(base: string, updateTime: int)
    ensures Snapshot(base, map[], updateTime) == map[]
  {
  }
}
