/**
 * Aviation weather ingestion: METAR and TAF reports for an airport become airport_weather rows,
 * one persist per report inside the call's transaction.
 */
module AirportWeatherServices {
  import opened Wrappers
  import opened Decimals
  import opened Clock
  import opened Ordering
  import opened Retention
  import opened Feeds
  import opened AirportWeatherEntities
  import opened AirportWeatherRepositories
  import LocationEntities
  import opened LocationRepositories

  /** A null Double stays null; a present one goes through BigDecimal.valueOf, which may throw. */
  function OptionalDecimal(n: Option<JsonNumber>): Option<Option<Decimal>> {
    if n.None? then Some(None)
    else
      var d := DecimalOfDouble(n.value);
      if d.None? then None else Some(d)
  }

  /** A coordinate of the report, or the location's where the report has none. */
  function Coordinate(n: Option<JsonNumber>, fallback: Decimal): Option<Decimal> {
    if n.None? then Some(fallback) else DecimalOfDouble(n.value)
  }

  /**
   * The entity storeMetarData builds, or None where building it throws: a NaN or infinite
   * coordinate, temperature, dewpoint, visibility or altimeter setting.
   */
  function MetarReport(location: LocationEntities.LocationRow, metar: MetarResponse, parse: string -> Option<DateTime>, now: DateTime): Option<ReportFields> {
    var lat := Coordinate(metar.lat, location.latitude);
    var lon := Coordinate(metar.lon, location.longitude);
    var temp := OptionalDecimal(metar.temp);
    var dewp := OptionalDecimal(metar.dewp);
    var visib := OptionalDecimal(metar.visib);
    var altim := OptionalDecimal(metar.altim);
    if lat.None? || lon.None? || temp.None? || dewp.None? || visib.None? || altim.None? then None
    else
      Some(NewReport.(
        locationId := Some(location.id),
        airportCode := if metar.icaoId.Some? then metar.icaoId else location.airportCode,
        latitude := lat,
        longitude := lon,
        reportType := Some("METAR"),
        fetchedAt := Some(now),
        rawText := metar.rawOb,
        observationTime := if metar.reportTime.Some? then Some(ParseIso8601(parse, metar.reportTime.value, now)) else None,
        temperatureCelsius := temp.value,
        dewpointCelsius := dewp.value,
        windSpeedKnots := metar.wspd,
        windDirection := metar.wdir,
        windGustKnots := metar.wgst,
        visibilityMiles := visib.value,
        altimeterInches := altim.value,
        flightCategory := metar.flightCategory,
        ceilingFeet := metar.ceil,
        skyCondition := metar.cover))
  }

  /** The entity storeTafData builds, or None where a NaN or infinite coordinate makes it throw. */
  function TafReport(location: LocationEntities.LocationRow, taf: TafResponse, parse: string -> Option<DateTime>, now: DateTime): Option<ReportFields> {
    var lat := Coordinate(taf.lat, location.latitude);
    var lon := Coordinate(taf.lon, location.longitude);
    if lat.None? || lon.None? then None
    else
      Some(NewReport.(
        locationId := Some(location.id),
        airportCode := if taf.icaoId.Some? then taf.icaoId else location.airportCode,
        latitude := lat,
        longitude := lon,
        reportType := Some("TAF"),
        fetchedAt := Some(now),
        rawText := taf.rawTaf,
        observationTime := if taf.issueTime.Some? then Some(ParseIso8601(parse, taf.issueTime.value, now)) else None))
  }

  /** The requests a fetch sends and, per report received, the entity built for it or None where building it throws. */
  datatype Plan = Plan(requests: seq<Request>, reports: seq<Option<ReportFields>>)

  /** fetchAndStoreMETAR up to the persists: an unknown airport sends nothing; a failed call or a null list stores nothing. */
  function MetarPlan(location: Option<LocationEntities.LocationRow>, code: string, up: Upstream, now: DateTime): Plan {
    if location.None? then Plan([], [])
    else
      match up.metar(code)
      case Threw => Plan([MetarRequest(code)], [])
      case Returned(list) =>
        if list.None? then Plan([MetarRequest(code)], [])
        else
          var ms := list.value;
          Plan([MetarRequest(code)], seq(|ms|, i requires 0 <= i < |ms| => MetarReport(location.value, ms[i], up.parse, now)))
  }

  /** fetchAndStoreTAF up to the persists. */
  function TafPlan(location: Option<LocationEntities.LocationRow>, code: string, up: Upstream, now: DateTime): Plan {
    if location.None? then Plan([], [])
    else
      match up.taf(code)
      case Threw => Plan([TafRequest(code)], [])
      case Returned(list) =>
        if list.None? then Plan([TafRequest(code)], [])
        else
          var ts := list.value;
          Plan([TafRequest(code)], seq(|ts|, i requires 0 <= i < |ts| => TafReport(location.value, ts[i], up.parse, now)))
  }

  /** What persisting one entity at now stores: the row after @PrePersist, unless it is rejected. */
  function Stored(f: ReportFields, now: DateTime): Option<ReportRow> {
    ToRow(Created(f, now))
  }

  /**
   * The reports persisted one after another: a report whose building throws ends the loop and
   * keeps the rows before it (the exception does not doom the transaction), while a row the
   * database rejects dooms the transaction, so nothing is kept (None).
   */
  function InsertUntilThrow(reports: seq<Option<ReportFields>>, now: DateTime): (r: Option<seq<ReportRow>>)
    ensures r.Some? ==> |r.value| <= |reports|
  {
    if reports == [] || reports[0].None? then Some([])
    else
      var row := Stored(reports[0].value, now);
      var rest := InsertUntilThrow(reports[1..], now);
      if row.None? || rest.None? then None else Some([row.value] + rest.value)
  }

  /** The rows p followed by those of r, unless r is a rollback. */
  function Prefixed(p: seq<ReportRow>, r: Option<seq<ReportRow>>): Option<seq<ReportRow>> {
    if r.None? then None else Some(p + r.value)
  }

  lemma PrefixedTwice(p: seq<ReportRow>, q: seq<ReportRow>, r: Option<seq<ReportRow>>)
    ensures Prefixed(p, Prefixed(q, r)) == Prefixed(p + q, r)
  {
    if r.Some? {
      assert p + (q + r.value) == (p + q) + r.value;
    }
  }

  /** What a fetch leaves in airport_weather. */
  function Outcome(rows: seq<ReportRow>, reports: seq<Option<ReportFields>>, now: DateTime, commitFails: bool): seq<ReportRow> {
    var stored := InsertUntilThrow(reports, now);
    if !commitFails && stored.Some? then rows + stored.value else rows
  }

  // ---------------------------------------------------------------------------
  // What the fetches store

  /**
   * A METAR converts exactly when every Double it carries is finite; its entity then is a METAR
   * of the location, with the report's station code and coordinates where it has them and the
   * location's otherwise, observed at the report time where there is one.
   */
  lemma MetarConverts(location: LocationEntities.LocationRow, metar: MetarResponse, parse: string -> Option<DateTime>, now: DateTime)
    ensures var f := MetarReport(location, metar, parse, now);
      && (f.Some? <==>
            && (metar.lat.Some? ==> metar.lat.value.Finite?) && (metar.lon.Some? ==> metar.lon.value.Finite?)
            && (metar.temp.Some? ==> metar.temp.value.Finite?) && (metar.dewp.Some? ==> metar.dewp.value.Finite?)
            && (metar.visib.Some? ==> metar.visib.value.Finite?) && (metar.altim.Some? ==> metar.altim.value.Finite?))
      && (f.Some? ==>
            && f.value.reportType == Some("METAR") && f.value.locationId == Some(location.id)
            && f.value.airportCode == (if metar.icaoId.Some? then metar.icaoId else location.airportCode)
            && (metar.lat.None? ==> f.value.latitude == Some(location.latitude))
            && (metar.lat.Some? ==> f.value.latitude == DecimalOfDouble(metar.lat.value))
            && (metar.lon.None? ==> f.value.longitude == Some(location.longitude))
            && (metar.lon.Some? ==> f.value.longitude == DecimalOfDouble(metar.lon.value))
            && (f.value.observationTime.Some? <==> metar.reportTime.Some?)
            && (metar.reportTime.Some? ==> f.value.observationTime == Some(ParseIso8601(parse, metar.reportTime.value, now)))
            && f.value.rawText == metar.rawOb
            && (f.value.temperatureCelsius.None? <==> metar.temp.None?)
            && (f.value.dewpointCelsius.None? <==> metar.dewp.None?)
            && (f.value.visibilityMiles.None? <==> metar.visib.None?)
            && (f.value.altimeterInches.None? <==> metar.altim.None?)
            && (metar.temp.Some? ==> f.value.temperatureCelsius == DecimalOfDouble(metar.temp.value))
            && (metar.dewp.Some? ==> f.value.dewpointCelsius == DecimalOfDouble(metar.dewp.value))
            && (metar.visib.Some? ==> f.value.visibilityMiles == DecimalOfDouble(metar.visib.value))
            && (metar.altim.Some? ==> f.value.altimeterInches == DecimalOfDouble(metar.altim.value))
            && f.value.windSpeedKnots == metar.wspd && f.value.windDirection == metar.wdir
            && f.value.windGustKnots == metar.wgst && f.value.ceilingFeet == metar.ceil
            && f.value.flightCategory == metar.flightCategory && f.value.skyCondition == metar.cover
            && f.value.isActive == Some(true) && f.value.fetchedAt == Some(now))
  {
  }

  /** A TAF converts exactly when its coordinates, where present, are finite; it then is a TAF of the location. */
  lemma TafConverts(location: LocationEntities.LocationRow, taf: TafResponse, parse: string -> Option<DateTime>, now: DateTime)
    ensures var f := TafReport(location, taf, parse, now);
      && (f.Some? <==> (taf.lat.Some? ==> taf.lat.value.Finite?) && (taf.lon.Some? ==> taf.lon.value.Finite?))
      && (f.Some? ==>
            && f.value.reportType == Some("TAF") && f.value.locationId == Some(location.id)
            && (f.value.observationTime.Some? <==> taf.issueTime.Some?)
            && (taf.issueTime.Some? ==> f.value.observationTime == Some(ParseIso8601(parse, taf.issueTime.value, now)))
            && f.value.rawText == taf.rawTaf
            && f.value.airportCode == (if taf.icaoId.Some? then taf.icaoId else location.airportCode)
            && (taf.lat.None? ==> f.value.latitude == Some(location.latitude))
            && (taf.lat.Some? ==> f.value.latitude == DecimalOfDouble(taf.lat.value))
            && (taf.lon.None? ==> f.value.longitude == Some(location.longitude))
            && (taf.lon.Some? ==> f.value.longitude == DecimalOfDouble(taf.lon.value))
            && f.value.temperatureCelsius.None? && f.value.dewpointCelsius.None?
            && f.value.visibilityMiles.None? && f.value.altimeterInches.None?
            && f.value.windSpeedKnots.None? && f.value.windDirection.None? && f.value.windGustKnots.None?
            && f.value.ceilingFeet.None? && f.value.flightCategory.None? && f.value.skyCondition.None?
            && f.value.isActive == Some(true) && f.value.fetchedAt == Some(now))
  {
  }

  /** When every report converts and is accepted, each is stored as one row, in order. */
  lemma {:induction false} EveryReportStored(reports: seq<Option<ReportFields>>, now: DateTime)
    requires forall i :: 0 <= i < |reports| ==> reports[i].Some? && Stored(reports[i].value, now).Some?
    ensures var r := InsertUntilThrow(reports, now);
      r.Some? && |r.value| == |reports| && forall i :: 0 <= i < |reports| ==> r.value[i] == Stored(reports[i].value, now).value
    decreases |reports|
  {
    if reports != [] {
      EveryReportStored(reports[1..], now);
    }
  }

  /**
   * When the k-th report throws and every report before it is accepted, exactly those k rows are
   * kept, in order.
   */
  lemma {:induction false} ThrowKeepsEarlierRows(reports: seq<Option<ReportFields>>, now: DateTime, k: nat)
    requires k < |reports| && reports[k].None?
    requires forall i :: 0 <= i < k ==> reports[i].Some? && Stored(reports[i].value, now).Some?
    ensures var r := InsertUntilThrow(reports, now);
      r.Some? && |r.value| == k && forall i :: 0 <= i < k ==> r.value[i] == Stored(reports[i].value, now).value
    decreases k
  {
    if k > 0 {
      ThrowKeepsEarlierRows(reports[1..], now, k - 1);
    }
  }

  /**
   * A report the database rejects, with no throwing report before it, discards the whole fetch,
   * rows already persisted included: a METAR without a report time or raw text is one.
   */
  lemma {:induction false} RejectionDiscardsFetch(reports: seq<Option<ReportFields>>, now: DateTime, k: nat)
    requires k < |reports| && reports[k].Some? && Stored(reports[k].value, now).None?
    requires forall i :: 0 <= i < k ==> reports[i].Some?
    ensures InsertUntilThrow(reports, now).None?
    decreases k
  {
    if k > 0 {
      RejectionDiscardsFetch(reports[1..], now, k - 1);
    }
  }

  /** A converted METAR without a report time has no observation time, which the column refuses. */
  lemma MetarWithoutTimeIsRejected(location: LocationEntities.LocationRow, metar: MetarResponse, parse: string -> Option<DateTime>, now: DateTime)
    requires metar.reportTime.None? && MetarReport(location, metar, parse, now).Some?
    ensures Stored(MetarReport(location, metar, parse, now).value, now).None?
  {
  }

  /** Whatever a fetch does, the rows already stored stay as they were. */
  lemma OutcomeOnlyAppends(rows: seq<ReportRow>, reports: seq<Option<ReportFields>>, now: DateTime, commitFails: bool)
    ensures var r := Outcome(rows, reports, now, commitFails);
      && |rows| <= |r| <= |rows| + |reports| && r[..|rows|] == rows
      && (commitFails ==> r == rows)
  {
  }

  // ---------------------------------------------------------------------------
  // The service

  class AirportWeatherService {
    const reports: AirportWeatherRepository
    const locations: LocationRepository

    constructor(reports: AirportWeatherRepository, locations: LocationRepository)
      ensures this.reports == reports && this.locations == locations
    {
      this.reports := reports;
      this.locations := locations;
    }

    /** getAirportWeather. */
    function GetAirportWeather(code: string): (r: seq<ReportRow>)
      reads reports
      ensures forall x :: x in r <==> x in reports.rows && x.airportCode == code && Active(x)
      ensures forall x :: multiset(r)[x] == if x.airportCode == code && Active(x) then multiset(reports.rows)[x] else 0
      ensures NewestFirst(r)
    {
      reports.FindByAirportCode(code)
    }

    /** getLatestMetar. */
    function GetLatestMetar(code: string): (r: Option<ReportRow>)
      reads reports
      ensures r.Some? ==> r.value in reports.rows && r.value.airportCode == code && r.value.reportType == "METAR" && Active(r.value)
      ensures r.Some? ==> forall y :: y in reports.rows && y.airportCode == code && y.reportType == "METAR" && Active(y) ==> y.observationTime <= r.value.observationTime
      ensures r.None? <==> forall i :: 0 <= i < |reports.rows| ==> !(reports.rows[i].airportCode == code && reports.rows[i].reportType == "METAR" && Active(reports.rows[i]))
    {
      reports.FindLatestMetar(code)
    }

    /** getLatestTaf. */
    function GetLatestTaf(code: string): (r: Option<ReportRow>)
      reads reports
      ensures r.Some? ==> r.value in reports.rows && r.value.airportCode == code && r.value.reportType == "TAF" && Active(r.value)
      ensures r.Some? ==> forall y :: y in reports.rows && y.airportCode == code && y.reportType == "TAF" && Active(y) ==> y.observationTime <= r.value.observationTime
      ensures r.None? <==> forall i :: 0 <= i < |reports.rows| ==> !(reports.rows[i].airportCode == code && reports.rows[i].reportType == "TAF" && Active(reports.rows[i]))
    {
      reports.FindLatestTaf(code)
    }

    /** The loop over the reports: storeMetarData or storeTafData for each, in order. */
    method StoreAll(built: seq<Option<ReportFields>>, now: DateTime) returns (ok: bool)
      modifies reports
      ensures ok <==> InsertUntilThrow(built, now).Some?
      ensures ok ==> reports.rows == old(reports.rows) + InsertUntilThrow(built, now).value
    {
      ghost var start := reports.rows;
      ghost var done: seq<ReportRow> := [];
      assert built[0..] == built;
      ghost var all := InsertUntilThrow(built, now);
      if all.Some? {
        assert done + all.value == all.value;
      }
      var i := 0;
      while i < |built|
        invariant 0 <= i <= |built|
        invariant reports.rows == start + done
        invariant InsertUntilThrow(built, now) == Prefixed(done, InsertUntilThrow(built[i..], now))
      {
        assert built[i..][0] == built[i] && built[i..][1..] == built[i + 1..];
        if built[i].None? {
          break;
        }
        ghost var row := Stored(built[i].value, now);
        var e := new AirportWeatherEntity.Of(built[i].value);
        ok := reports.Persist(e, now);
        if !ok {
          return;
        }
        assert reports.rows == start + done + [row.value];
        assert InsertUntilThrow(built[i..], now) == Prefixed([row.value], InsertUntilThrow(built[i + 1..], now));
        PrefixedTwice(done, [row.value], InsertUntilThrow(built[i + 1..], now));
        done := done + [row.value];
        i := i + 1;
      }
      ok := true;
    }

    /**
     * The call's transaction around the loop: a rejected row or a failing commit rolls back
     * everything; only the failing commit reaches the caller.
     */
    method Store(built: seq<Option<ReportFields>>, now: DateTime, commitFails: bool) returns (threw: bool)
      modifies reports
      ensures threw == commitFails
      ensures reports.rows == Outcome(old(reports.rows), built, now, commitFails)
    {
      var saved := reports.rows;
      var ok := StoreAll(built, now);
      if !ok || commitFails {
        reports.rows := saved;
      }
      threw := commitFails;
    }

    /** fetchAndStoreMETAR. */
    method FetchAndStoreMetar(code: string, up: Upstream, now: DateTime) returns (requests: seq<Request>, threw: bool)
      modifies reports
      ensures var plan := MetarPlan(locations.FindByAirportCode(code), code, up, now);
        && requests == plan.requests
        && threw == up.commitFails(MetarFetch(code))
        && reports.rows == Outcome(old(reports.rows), plan.reports, now, threw)
    {
      var plan := MetarPlan(locations.FindByAirportCode(code), code, up, now);
      requests := plan.requests;
      threw := Store(plan.reports, now, up.commitFails(MetarFetch(code)));
    }

    /** fetchAndStoreTAF. */
    method FetchAndStoreTaf(code: string, up: Upstream, now: DateTime) returns (requests: seq<Request>, threw: bool)
      modifies reports
      ensures var plan := TafPlan(locations.FindByAirportCode(code), code, up, now);
        && requests == plan.requests
        && threw == up.commitFails(TafFetch(code))
        && reports.rows == Outcome(old(reports.rows), plan.reports, now, threw)
    {
      var plan := TafPlan(locations.FindByAirportCode(code), code, up, now);
      requests := plan.requests;
      threw := Store(plan.reports, now, up.commitFails(TafFetch(code)));
    }

    /** deactivateOldReports in its own transaction. */
    method DeactivateOldReports(olderThan: DateTime, commitFails: bool) returns (count: nat, threw: bool)
      modifies reports
      ensures threw == commitFails
      ensures count == Count(old(reports.rows), StaleBefore(olderThan))
      ensures reports.rows == if threw then old(reports.rows) else Deactivated(old(reports.rows), StaleBefore(olderThan), Retired)
    {
      var saved := reports.rows;
      count := reports.DeactivateOldReports(olderThan);
      if commitFails {
        reports.rows := saved;
      }
      threw := commitFails;
    }
  }
}
