/** The records of models/rate.go and models/rate_dto.go, and the
    "<base>_<target>" key under which a rate is cached and snapshotted. */
module Models {

  /** models.Rate: one stored or computed exchange rate. `id` is the primary
      key the store assigns; a rate built outside the store carries 0. Go's
      float64 rate is an ideal real here. */
  datatype Rate = Rate(id: nat, base: string, target: string, rate: real, updatedAt: int)

  /** The zero value `models.Rate{}` that the lookups return beside a miss. */
  const ZeroRate := Rate(0, "", "", 0.0, 0)

  /** models.RateDto: the external view of a rate (no id, rate rounded). */
  datatype RateDto = RateDto(base: string, target: string, rate: real, updatedAt: int)

  /** NewRateDto projects a rate onto its external view. `round` stands for
      utility.Round and is left uninterpreted. */
  function NewRateDto(rate: Rate, round: (real, int) -> real): (dto: RateDto)
    ensures dto.base == rate.base
    ensures dto.target == rate.target
    ensures dto.rate == round(rate.rate, 2)
    ensures dto.updatedAt == rate.updatedAt
  {
    RateDto(rate.base, rate.target, round(rate.rate, 2), rate.updatedAt)
  }

  /** The key `base + "_" + target` used by the cache, by the provider
      snapshot and by every lookup in the service. */
  function PairKey(base: string, target: string): (key: string)
    ensures |key| == |base| + 1 + |target|
    ensures key[..|base|] == base && key[|base|] == '_' && key[|base| + 1..] == target
  {
    base + "_" + target
  }

  /** For a fixed base the key determines the target. */
  lemma PairKeyInjective(base: string, t1: string, t2: string)
    ensures PairKey(base, t1) == PairKey(base, t2) ==> t1 == t2
  {
    if PairKey(base, t1) == PairKey(base, t2) {
      calc {
        t1;
        PairKey(base, t1)[|base| + 1..];
        PairKey(base, t2)[|base| + 1..];
        t2;
      }
    }
  }

  /** When neither base contains the separator, a key names exactly one
      (base, target) pair. Codes with '_' in them can collide:
      PairKey("A_B", "C") == PairKey("A", "B_C"). */
  lemma PairKeyDeterminesPair(b1: string, t1: string, b2: string, t2: string)
    requires '_' !in b1 && '_' !in b2
    requires PairKey(b1, t1) == PairKey(b2, t2)
    ensures b1 == b2 && t1 == t2
  {
    var key := PairKey(b1, t1);
    if |b1| < |b2| {
      assert false;
    } else if |b2| < |b1| {
      assert false;
    }
    assert b1 == key[..|b1|] == b2;
    PairKeyInjective(b1, t1, t2);
  }

  /** Two keys built from codes without the separator differ in the base. */
  lemma PairKeyBasesDiffer(b1: string, t1: string, b2: string, t2: string)
    requires '_' !in b1 && '_' !in b2 && b1 != b2
    ensures PairKey(b1, t1) != PairKey(b2, t2)
  {
    if PairKey(b1, t1) == PairKey(b2, t2) {
      PairKeyDeterminesPair(b1, t1, b2, t2);
    }
  }
}
