/** The weather_forecasts table and its queries. */
module WeatherForecastRepositories {
  import opened Wrappers
  import opened Decimals
  import opened Clock
  import opened Ordering
  import opened Retention
  import opened Persistence
  import opened WeatherForecastEntities

  predicate Active(row: ForecastRow) {
    row.isActive == Some(true)
  }

  /** validFrom <= to AND validTo >= from: the forecast's validity overlaps [from, to]. */
  predicate Overlaps(row: ForecastRow, from: DateTime, to: DateTime) {
    row.validFrom <= to && row.validTo >= from
  }

  predicate AtCoordinates(row: ForecastRow, lat: Decimal, lon: Decimal) {
    ValueEq(row.latitude, lat) && ValueEq(row.longitude, lon)
  }

  /** ORDER BY validFrom. */
  function ByValidFrom(row: ForecastRow): Key {
    [row.validFrom]
  }

  predicate Ascending(r: seq<ForecastRow>) {
    forall i, j :: 0 <= i < j < |r| ==> r[i].validFrom <= r[j].validFrom
  }

  lemma SortedAscending(r: seq<ForecastRow>)
    requires SortedBy(r, ByValidFrom)
    ensures Ascending(r)
  {
    forall i, j | 0 <= i < j < |r| ensures r[i].validFrom <= r[j].validFrom {
      KeyLeSingle(r[i].validFrom, r[j].validFrom);
    }
  }

  /** The ordered answer to a query whose WHERE clause is p. */
  function Answer(rows: seq<ForecastRow>, p: ForecastRow -> bool): (r: seq<ForecastRow>)
    ensures forall x :: x in r <==> x in rows && p(x)
    ensures multiset(r) == multiset(Filter(rows, p))
    ensures forall x :: multiset(r)[x] == if p(x) then multiset(rows)[x] else 0
    ensures Ascending(r)
  {
    var r := Query(rows, p, ByValidFrom);
    SortedAscending(r);
    r
  }

  /** fetchedAt < cutoff AND isActive = true. */
  function StaleBefore(cutoff: DateTime): ForecastRow -> bool {
    (row: ForecastRow) => row.fetchedAt < cutoff && Active(row)
  }

  function OlderThan(cutoff: DateTime): ForecastRow -> bool {
    (row: ForecastRow) => row.fetchedAt < cutoff
  }

  function NotOlderThan(cutoff: DateTime): ForecastRow -> bool {
    (row: ForecastRow) => !(row.fetchedAt < cutoff)
  }

  /** SET isActive = false. */
  function Retired(row: ForecastRow): ForecastRow {
    row.(isActive := Some(false))
  }

  function Snapshots(es: seq<WeatherForecastEntity>): (r: seq<ForecastFields>)
    reads set e | e in es
    ensures |r| == |es| && forall i :: 0 <= i < |es| ==> r[i] == es[i].Snapshot()
  {
    seq(|es|, i reads set e | e in es requires 0 <= i < |es| => es[i].Snapshot())
  }

  /** What persisting one entity at now stores: the row after @PrePersist, unless it is rejected. */
  function Stored(now: DateTime): ForecastFields -> Option<ForecastRow> {
    (f: ForecastFields) => ToRow(Created(f, now))
  }

  class WeatherForecastRepository {
    var rows: seq<ForecastRow>

    constructor(initial: seq<ForecastRow>)
      ensures rows == initial
    {
      rows := initial;
    }

    /** persist(entity): the @PrePersist hook runs, then the INSERT, which the database may reject. */
    method Persist(e: WeatherForecastEntity, now: DateTime) returns (ok: bool)
      modifies this, e
      ensures e.Snapshot() == Created(old(e.Snapshot()), now)
      ensures ok == Insertable(e.Snapshot())
      ensures rows == if ok then old(rows) + [ToRow(e.Snapshot()).value] else old(rows)
    {
      e.OnCreate(now);
      var row := ToRow(e.Snapshot());
      ok := row.Some?;
      if ok {
        rows := rows + [row.value];
      }
    }

    /** One entity of persist(list), es[i], after the first i have been stored as the rows done. */
    method PersistNext(es: seq<WeatherForecastEntity>, i: nat, now: DateTime, ghost before: seq<ForecastFields>,
                       ghost start: seq<ForecastRow>, ghost done: seq<ForecastRow>)
      returns (ok: bool, ghost done': seq<ForecastRow>)
      requires i < |es| == |before|
      requires forall j :: i < j < |es| ==> es[j] != es[i]
      requires forall j :: i <= j < |es| ==> es[j].Snapshot() == before[j]
      requires InsertAll(before[..i], Stored(now)) == Some(done)
      requires rows == start + done
      modifies this, es[i]
      ensures forall j :: i < j < |es| ==> es[j].Snapshot() == before[j]
      ensures !ok ==> InsertAll(before, Stored(now)).None?
      ensures ok ==> InsertAll(before[..i + 1], Stored(now)) == Some(done')
      ensures ok ==> rows == start + done'
    {
      ghost var stored := Stored(now)(before[i]);
      assert stored == ToRow(Created(before[i], now));
      ok := Persist(es[i], now);
      done' := done;
      if ok {
        assert stored == Some(rows[|rows| - 1]);
        StoredPrefix(before, i, stored.value, Stored(now));
        done' := done + [stored.value];
      }
    }

    /** persist(list): each entity in turn, stopping at the first the database rejects. */
    method PersistAll(es: seq<WeatherForecastEntity>, now: DateTime) returns (ok: bool)
      requires forall i, j :: 0 <= i < j < |es| ==> es[i] != es[j]
      modifies this, set e | e in es
      ensures ok <==> InsertAll(old(Snapshots(es)), Stored(now)).Some?
      ensures ok ==> rows == old(rows) + InsertAll(old(Snapshots(es)), Stored(now)).value
    {
      ghost var before := Snapshots(es);
      ghost var start := rows;
      ghost var done: seq<ForecastRow> := [];
      assert before[..0] == [];
      var i := 0;
      while i < |es|
        invariant 0 <= i <= |es|
        invariant forall j :: i <= j < |es| ==> es[j].Snapshot() == before[j]
        invariant InsertAll(before[..i], Stored(now)) == Some(done)
        invariant rows == start + done
      {
        ok, done := PersistNext(es, i, now, before, start, done);
        if !ok {
          return;
        }
        i := i + 1;
      }
      assert before[..i] == before;
      ok := true;
    }

    /** deactivateOldForecasts: UPDATE SET isActive = false WHERE fetchedAt < cutoff AND isActive = true. */
    method DeactivateOldForecasts(cutoff: DateTime) returns (count: nat)
      modifies this
      ensures rows == Deactivated(old(rows), StaleBefore(cutoff), Retired)
      ensures count == Count(old(rows), StaleBefore(cutoff))
    {
      ghost var before := rows;
      var i := 0;
      count := 0;
      while i < |rows|
        invariant RetiredUpTo(rows, before, i, StaleBefore(cutoff), Retired)
        invariant count == Count(before[..i], StaleBefore(cutoff))
      {
        assert before[..i + 1] == before[..i] + [before[i]];
        CountAppend(before[..i], before[i], StaleBefore(cutoff));
        RetireStep(rows, before, i, StaleBefore(cutoff), Retired);
        assert StaleBefore(cutoff)(rows[i]) == (rows[i].fetchedAt < cutoff && Active(rows[i]));
        if rows[i].fetchedAt < cutoff && Active(rows[i]) {
          rows := rows[i := Retired(rows[i])];
          count := count + 1;
        }
        i := i + 1;
      }
      assert before[..i] == before;
      RetiredAll(rows, before, StaleBefore(cutoff), Retired);
    }

    /** deleteOldForecasts: DELETE WHERE fetchedAt < cutoff, active or not. */
    method DeleteOldForecasts(cutoff: DateTime) returns (count: nat)
      modifies this
      ensures rows == Filter(old(rows), NotOlderThan(cutoff))
      ensures count == Count(old(rows), OlderThan(cutoff))
    {
      FilterComplement(rows, OlderThan(cutoff), NotOlderThan(cutoff));
      count := |rows| - |Filter(rows, NotOlderThan(cutoff))|;
      rows := Filter(rows, NotOlderThan(cutoff));
    }

    /** findByLocation. */
    function FindByLocation(locationId: int): (r: seq<ForecastRow>)
      reads this
      ensures forall x :: x in r <==> x in rows && Active(x) && x.locationId == locationId
      ensures forall x :: multiset(r)[x] == if Active(x) && x.locationId == locationId then multiset(rows)[x] else 0
      ensures Ascending(r)
    {
      Answer(rows, x => Active(x) && x.locationId == locationId)
    }

    /** findByLocationAndTimeRange. */
    function FindByLocationAndTimeRange(locationId: int, from: DateTime, to: DateTime): (r: seq<ForecastRow>)
      reads this
      ensures forall x :: x in r <==> x in rows && Active(x) && x.locationId == locationId && Overlaps(x, from, to)
      ensures forall x :: multiset(r)[x] == if Active(x) && x.locationId == locationId && Overlaps(x, from, to) then multiset(rows)[x] else 0
      ensures Ascending(r)
    {
      Answer(rows, x => Active(x) && x.locationId == locationId && Overlaps(x, from, to))
    }

    /** findByCoordinates: numeric equality of both coordinates. */
    function FindByCoordinates(lat: Decimal, lon: Decimal): (r: seq<ForecastRow>)
      reads this
      ensures forall x :: x in r <==> x in rows && Active(x) && AtCoordinates(x, lat, lon)
      ensures forall x :: multiset(r)[x] == if Active(x) && AtCoordinates(x, lat, lon) then multiset(rows)[x] else 0
      ensures Ascending(r)
    {
      Answer(rows, x => Active(x) && AtCoordinates(x, lat, lon))
    }

    /** findByCoordinatesAndTimeRange. */
    function FindByCoordinatesAndTimeRange(lat: Decimal, lon: Decimal, from: DateTime, to: DateTime): (r: seq<ForecastRow>)
      reads this
      ensures forall x :: x in r <==> x in rows && Active(x) && AtCoordinates(x, lat, lon) && Overlaps(x, from, to)
      ensures forall x :: multiset(r)[x] == if Active(x) && AtCoordinates(x, lat, lon) && Overlaps(x, from, to) then multiset(rows)[x] else 0
      ensures Ascending(r)
    {
      Answer(rows, x => Active(x) && AtCoordinates(x, lat, lon) && Overlaps(x, from, to))
    }

    /** findBySource. */
    function FindBySource(source: string): (r: seq<ForecastRow>)
      reads this
      ensures forall x :: x in r <==> x in rows && Active(x) && x.source == source
      ensures forall x :: multiset(r)[x] == if Active(x) && x.source == source then multiset(rows)[x] else 0
      ensures Ascending(r)
    {
      Answer(rows, x => Active(x) && x.source == source)
    }

    /** findByTimeRange. */
    function FindByTimeRange(from: DateTime, to: DateTime): (r: seq<ForecastRow>)
      reads this
      ensures forall x :: x in r <==> x in rows && Active(x) && Overlaps(x, from, to)
      ensures forall x :: multiset(r)[x] == if Active(x) && Overlaps(x, from, to) then multiset(rows)[x] else 0
      ensures Ascending(r)
    {
      Answer(rows, x => Active(x) && Overlaps(x, from, to))
    }

    /** findCurrent: the forecasts of a location valid at now (validFrom <= now <= validTo). */
    function FindCurrent(locationId: int, now: DateTime): (r: seq<ForecastRow>)
      reads this
      ensures forall x :: x in r <==> x in rows && Active(x) && x.locationId == locationId && x.validFrom <= now <= x.validTo
      ensures forall x :: multiset(r)[x] == if Active(x) && x.locationId == locationId && x.validFrom <= now <= x.validTo then multiset(rows)[x] else 0
      ensures Ascending(r)
    {
      Answer(rows, x => Active(x) && x.locationId == locationId && Overlaps(x, now, now))
    }

    /** findCurrentByCoordinates. */
    function FindCurrentByCoordinates(lat: Decimal, lon: Decimal, now: DateTime): (r: seq<ForecastRow>)
      reads this
      ensures forall x :: x in r <==> x in rows && Active(x) && AtCoordinates(x, lat, lon) && x.validFrom <= now <= x.validTo
      ensures forall x :: multiset(r)[x] == if Active(x) && AtCoordinates(x, lat, lon) && x.validFrom <= now <= x.validTo then multiset(rows)[x] else 0
      ensures Ascending(r)
    {
      Answer(rows, x => Active(x) && AtCoordinates(x, lat, lon) && Overlaps(x, now, now))
    }
  }

  /** deactivateOldForecasts flips exactly the stale rows and leaves every other column alone. */
  lemma DeactivateChangesOnlyStaleRows(rows: seq<ForecastRow>, cutoff: DateTime, i: int)
    requires 0 <= i < |rows|
    ensures var d := Deactivated(rows, StaleBefore(cutoff), Retired);
      && (rows[i].fetchedAt < cutoff && Active(rows[i]) ==> d[i] == rows[i].(isActive := Some(false)))
      && (!(rows[i].fetchedAt < cutoff && Active(rows[i])) ==> d[i] == rows[i])
  {
  }

  /** A second deactivateOldForecasts with the same cutoff finds nothing to do. */
  lemma DeactivateTwiceCountsZero(rows: seq<ForecastRow>, cutoff: DateTime)
    ensures var d := Deactivated(rows, StaleBefore(cutoff), Retired);
      Count(d, StaleBefore(cutoff)) == 0 && Deactivated(d, StaleBefore(cutoff), Retired) == d
  {
    DeactivatedIdempotent(rows, StaleBefore(cutoff), Retired);
  }

  /** After deleteOldForecasts no row older than the cutoff is left, so a rerun deletes nothing. */
  lemma DeleteTwiceCountsZero(rows: seq<ForecastRow>, cutoff: DateTime)
    ensures Count(Filter(rows, NotOlderThan(cutoff)), OlderThan(cutoff)) == 0
  {
    NothingOldRemains(rows, OlderThan(cutoff), NotOlderThan(cutoff));
  }
}
