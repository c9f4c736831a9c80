/** The rates table the service reads and upserts (the `rates` table behind
    the global GORM handle). It is a map keyed by the unique (base, target)
    index; the serial primary key is a counter. */
module RateStore {
  import opened Wrappers
  import opened Models

  type Pair = (string, string)

  function PairOf(r: Rate): Pair
  {
    (r.base, r.target)
  }

  /** What an upsert of `rate` does to the table: its pair is present with
      the new rate and update time, an existing row for the pair keeps its id,
      and every other row is unchanged. */
  ghost predicate Upserted(before: map<Pair, Rate>, after: map<Pair, Rate>, rate: Rate)
  {
    && after.Keys == before.Keys + {PairOf(rate)}
    && after[PairOf(rate)].rate == rate.rate && after[PairOf(rate)].updatedAt == rate.updatedAt
    && (PairOf(rate) in before ==> after[PairOf(rate)].id == before[PairOf(rate)].id)
    && (forall p :: p in before && p != PairOf(rate) ==> after[p] == before[p])
  }

  class RateTable {
    var rows: map<Pair, Rate>
    /** The next value of the primary-key sequence. */
    var nextId: nat

    /** Each row sits under its own (base, target); primary keys are positive,
        issued by the sequence and never shared by two rows. */
    ghost predicate Valid()
      reads this
    {
      && 0 < nextId
      && (forall p :: p in rows ==> PairOf(rows[p]) == p && 0 < rows[p].id < nextId)
      && (forall p, q :: p in rows && q in rows && p != q ==> rows[p].id != rows[q].id)
    }

    constructor ()
      ensures Valid() && rows == map[]
    {
      rows := map[];
      nextId := 1;
    }

    /** `Where("base = ? AND target = ?", base, target).First(&rate)`: the row
        for the pair, or nothing (the "record not found" error). */
    method First(base: string, target: string) returns (row: Option<Rate>)
      ensures row.Some? <==> (base, target) in rows
      ensures row.Some? ==> row.value == rows[(base, target)]
    {
      if (base, target) in rows {
        return Some(rows[(base, target)]);
      }
      return None;
    }

    /** `Create` with `ON CONFLICT (base, target) DO UPDATE SET rate,
        updated_at`: an existing row for the pair takes the new rate and
        update time and keeps its id; a new pair is inserted under a fresh id;
        no other row changes. */
    method Upsert(rate: Rate)
      requires Valid()
      modifies this
      ensures Valid()
      ensures Upserted(old(rows), rows, rate)
    {
      var p := PairOf(rate);
      if p in rows {
        rows := rows[p := rows[p].(rate := rate.rate, updatedAt := rate.updatedAt)];
      } else {
        rows := rows[p := rate.(id := nextId)];
        nextId := nextId + 1;
      }
    }
  }
}
