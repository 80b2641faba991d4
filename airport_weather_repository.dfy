/** The airport_weather table and its queries. */
module AirportWeatherRepositories {
  import opened Wrappers
  import opened Clock
  import opened Ordering
  import opened Retention
  import opened AirportWeatherEntities

  predicate Active(row: ReportRow) {
    row.isActive == Some(true)
  }

  /** observationTime >= from AND observationTime <= to. */
  predicate ObservedWithin(row: ReportRow, from: DateTime, to: DateTime) {
    from <= row.observationTime <= to
  }

  /** ORDER BY observationTime DESC. */
  function NewestKey(row: ReportRow): Key {
    [-row.observationTime]
  }

  predicate NewestFirst(r: seq<ReportRow>) {
    forall i, j :: 0 <= i < j < |r| ==> r[i].observationTime >= r[j].observationTime
  }

  /** WHERE p ORDER BY observationTime DESC. */
  function Newest(rows: seq<ReportRow>, p: ReportRow -> bool): (r: seq<ReportRow>)
    ensures forall x :: x in r <==> x in rows && p(x)
    ensures multiset(r) == multiset(Filter(rows, p))
    ensures forall x :: multiset(r)[x] == if p(x) then multiset(rows)[x] else 0
    ensures NewestFirst(r)
  {
    var r := Query(rows, p, NewestKey);
    forall i, j | 0 <= i < j < |r| ensures r[i].observationTime >= r[j].observationTime {
      KeyLeSingle(-r[i].observationTime, -r[j].observationTime);
    }
    r
  }

  /** WHERE p ORDER BY observationTime DESC, first result: a row of p no row of p is newer than. */
  function Latest(rows: seq<ReportRow>, p: ReportRow -> bool): (r: Option<ReportRow>)
    ensures r.Some? ==> r.value in rows && p(r.value)
    ensures r.Some? ==> forall y :: y in rows && p(y) ==> y.observationTime <= r.value.observationTime
    ensures r.None? <==> forall i :: 0 <= i < |rows| ==> !p(rows[i])
  {
    var all := Newest(rows, p);
    if all == [] then
      assert forall i :: 0 <= i < |rows| ==> !p(rows[i]) by {
        forall i | 0 <= i < |rows| ensures !p(rows[i]) {
          assert rows[i] in rows;
        }
      }
      None
    else
      NewestAtHead(all);
      Some(all[0])
  }

  /** The head of a newest-first sequence is at least as new as every element of it. */
  lemma NewestAtHead(r: seq<ReportRow>)
    requires NewestFirst(r) && r != []
    ensures forall y :: y in r ==> y.observationTime <= r[0].observationTime
  {
    forall y | y in r ensures y.observationTime <= r[0].observationTime {
      var j :| 0 <= j < |r| && r[j] == y;
    }
  }

  /** fetchedAt < cutoff AND isActive = true. */
  function StaleBefore(cutoff: DateTime): ReportRow -> bool {
    (row: ReportRow) => row.fetchedAt < cutoff && Active(row)
  }

  function OlderThan(cutoff: DateTime): ReportRow -> bool {
    (row: ReportRow) => row.fetchedAt < cutoff
  }

  function NotOlderThan(cutoff: DateTime): ReportRow -> bool {
    (row: ReportRow) => !(row.fetchedAt < cutoff)
  }

  /** SET isActive = false. */
  function Retired(row: ReportRow): ReportRow {
    row.(isActive := Some(false))
  }

  class AirportWeatherRepository {
    var rows: seq<ReportRow>

    constructor(initial: seq<ReportRow>)
      ensures rows == initial
    {
      rows := initial;
    }

    /** persist(entity): the @PrePersist hook runs, then the INSERT, which the database may reject. */
    method Persist(e: AirportWeatherEntity, now: DateTime) returns (ok: bool)
      modifies this, e
      ensures e.Snapshot() == Created(old(e.Snapshot()), now)
      ensures ok == Insertable(e.Snapshot())
      ensures rows == if ok then old(rows) + [ToRow(e.Snapshot()).value] else old(rows)
    {
      e.OnCreate(now);
      var row := ToRow(e.Snapshot());
      ok := row.Some?;
      if ok {
        rows := rows + [row.value];
      }
    }

    /** deactivateOldReports: UPDATE SET isActive = false WHERE fetchedAt < cutoff AND isActive = true. */
    method DeactivateOldReports(cutoff: DateTime) returns (count: nat)
      modifies this
      ensures rows == Deactivated(old(rows), StaleBefore(cutoff), Retired)
      ensures count == Count(old(rows), StaleBefore(cutoff))
    {
      ghost var before := rows;
      var i := 0;
      count := 0;
      while i < |rows|
        invariant RetiredUpTo(rows, before, i, StaleBefore(cutoff), Retired)
        invariant count == Count(before[..i], StaleBefore(cutoff))
      {
        assert before[..i + 1] == before[..i] + [before[i]];
        CountAppend(before[..i], before[i], StaleBefore(cutoff));
        RetireStep(rows, before, i, StaleBefore(cutoff), Retired);
        assert StaleBefore(cutoff)(rows[i]) == (rows[i].fetchedAt < cutoff && Active(rows[i]));
        if rows[i].fetchedAt < cutoff && Active(rows[i]) {
          rows := rows[i := Retired(rows[i])];
          count := count + 1;
        }
        i := i + 1;
      }
      assert before[..i] == before;
      RetiredAll(rows, before, StaleBefore(cutoff), Retired);
    }

    /** deleteOldReports: DELETE WHERE fetchedAt < cutoff, active or not. */
    method DeleteOldReports(cutoff: DateTime) returns (count: nat)
      modifies this
      ensures rows == Filter(old(rows), NotOlderThan(cutoff))
      ensures count == Count(old(rows), OlderThan(cutoff))
    {
      FilterComplement(rows, OlderThan(cutoff), NotOlderThan(cutoff));
      count := |rows| - |Filter(rows, NotOlderThan(cutoff))|;
      rows := Filter(rows, NotOlderThan(cutoff));
    }

    /** findByAirportCode. */
    function FindByAirportCode(code: string): (r: seq<ReportRow>)
      reads this
      ensures forall x :: x in r <==> x in rows && x.airportCode == code && Active(x)
      ensures forall x :: multiset(r)[x] == if x.airportCode == code && Active(x) then multiset(rows)[x] else 0
      ensures NewestFirst(r)
    {
      Newest(rows, (x: ReportRow) => x.airportCode == code && Active(x))
    }

    /** findLatestByAirportCode. */
    function FindLatestByAirportCode(code: string): (r: Option<ReportRow>)
      reads this
      ensures r.Some? ==> r.value in rows && r.value.airportCode == code && Active(r.value)
      ensures r.Some? ==> forall y :: y in rows && y.airportCode == code && Active(y) ==> y.observationTime <= r.value.observationTime
      ensures r.None? <==> forall i :: 0 <= i < |rows| ==> !(rows[i].airportCode == code && Active(rows[i]))
    {
      Latest(rows, (x: ReportRow) => x.airportCode == code && Active(x))
    }

    /** findLatestMetar. */
    function FindLatestMetar(code: string): (r: Option<ReportRow>)
      reads this
      ensures r.Some? ==> r.value in rows && r.value.airportCode == code && r.value.reportType == "METAR" && Active(r.value)
      ensures r.Some? ==> forall y :: y in rows && y.airportCode == code && y.reportType == "METAR" && Active(y) ==> y.observationTime <= r.value.observationTime
      ensures r.None? <==> forall i :: 0 <= i < |rows| ==> !(rows[i].airportCode == code && rows[i].reportType == "METAR" && Active(rows[i]))
    {
      Latest(rows, (x: ReportRow) => x.airportCode == code && x.reportType == "METAR" && Active(x))
    }

    /** findLatestTaf. */
    function FindLatestTaf(code: string): (r: Option<ReportRow>)
      reads this
      ensures r.Some? ==> r.value in rows && r.value.airportCode == code && r.value.reportType == "TAF" && Active(r.value)
      ensures r.Some? ==> forall y :: y in rows && y.airportCode == code && y.reportType == "TAF" && Active(y) ==> y.observationTime <= r.value.observationTime
      ensures r.None? <==> forall i :: 0 <= i < |rows| ==> !(rows[i].airportCode == code && rows[i].reportType == "TAF" && Active(rows[i]))
    {
      Latest(rows, (x: ReportRow) => x.airportCode == code && x.reportType == "TAF" && Active(x))
    }

    /** findByReportType. */
    function FindByReportType(reportType: string): (r: seq<ReportRow>)
      reads this
      ensures forall x :: x in r <==> x in rows && x.reportType == reportType && Active(x)
      ensures forall x :: multiset(r)[x] == if x.reportType == reportType && Active(x) then multiset(rows)[x] else 0
      ensures NewestFirst(r)
    {
      Newest(rows, (x: ReportRow) => x.reportType == reportType && Active(x))
    }

    /** findByFlightCategory. */
    function FindByFlightCategory(category: string): (r: seq<ReportRow>)
      reads this
      ensures forall x :: x in r <==> x in rows && x.flightCategory == Some(category) && Active(x)
      ensures forall x :: multiset(r)[x] == if x.flightCategory == Some(category) && Active(x) then multiset(rows)[x] else 0
      ensures NewestFirst(r)
    {
      Newest(rows, (x: ReportRow) => x.flightCategory == Some(category) && Active(x))
    }

    /** findByLocation. */
    function FindByLocation(locationId: int): (r: seq<ReportRow>)
      reads this
      ensures forall x :: x in r <==> x in rows && x.locationId == locationId && Active(x)
      ensures forall x :: multiset(r)[x] == if x.locationId == locationId && Active(x) then multiset(rows)[x] else 0
      ensures NewestFirst(r)
    {
      Newest(rows, (x: ReportRow) => x.locationId == locationId && Active(x))
    }

    /** findByTimeRange: inclusive at both ends. */
    function FindByTimeRange(from: DateTime, to: DateTime): (r: seq<ReportRow>)
      reads this
      ensures forall x :: x in r <==> x in rows && ObservedWithin(x, from, to) && Active(x)
      ensures forall x :: multiset(r)[x] == if ObservedWithin(x, from, to) && Active(x) then multiset(rows)[x] else 0
      ensures NewestFirst(r)
    {
      Newest(rows, (x: ReportRow) => ObservedWithin(x, from, to) && Active(x))
    }

    /** findByAirportCodeAndTimeRange: inclusive at both ends. */
    function FindByAirportCodeAndTimeRange(code: string, from: DateTime, to: DateTime): (r: seq<ReportRow>)
      reads this
      ensures forall x :: x in r <==> x in rows && x.airportCode == code && ObservedWithin(x, from, to) && Active(x)
      ensures forall x :: multiset(r)[x] == if x.airportCode == code && ObservedWithin(x, from, to) && Active(x) then multiset(rows)[x] else 0
      ensures NewestFirst(r)
    {
      Newest(rows, (x: ReportRow) => x.airportCode == code && ObservedWithin(x, from, to) && Active(x))
    }
  }

  /** deactivateOldReports flips exactly the stale rows and leaves every other column alone. */
  lemma DeactivateChangesOnlyStaleRows(rows: seq<ReportRow>, cutoff: DateTime, i: int)
    requires 0 <= i < |rows|
    ensures var d := Deactivated(rows, StaleBefore(cutoff), Retired);
      && (rows[i].fetchedAt < cutoff && Active(rows[i]) ==> d[i] == rows[i].(isActive := Some(false)))
      && (!(rows[i].fetchedAt < cutoff && Active(rows[i])) ==> d[i] == rows[i])
  {
  }

  /** A second deactivateOldReports with the same cutoff finds nothing to do. */
  lemma DeactivateTwiceCountsZero(rows: seq<ReportRow>, cutoff: DateTime)
    ensures var d := Deactivated(rows, StaleBefore(cutoff), Retired);
      Count(d, StaleBefore(cutoff)) == 0 && Deactivated(d, StaleBefore(cutoff), Retired) == d
  {
    DeactivatedIdempotent(rows, StaleBefore(cutoff), Retired);
  }

  /** After deleteOldReports no row older than the cutoff is left, so a rerun deletes nothing. */
  lemma DeleteTwiceCountsZero(rows: seq<ReportRow>, cutoff: DateTime)
    ensures Count(Filter(rows, NotOlderThan(cutoff)), OlderThan(cutoff)) == 0
  {
    NothingOldRemains(rows, OlderThan(cutoff), NotOlderThan(cutoff));
  }

  /** The latest METAR is among the airport's reports and none of them that is a METAR is newer. */
  lemma LatestMetarIsNewestMetar(repo: AirportWeatherRepository, code: string)
    requires repo.FindLatestMetar(code).Some?
    ensures repo.FindLatestMetar(code).value in repo.FindByAirportCode(code)
    ensures forall y :: y in repo.FindByAirportCode(code) && y.reportType == "METAR" ==>
      y.observationTime <= repo.FindLatestMetar(code).value.observationTime
  {
  }
}
