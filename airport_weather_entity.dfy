/** The airport_weather table: the entity object, its @PrePersist hook and its column constraints. */
module AirportWeatherEntities {
  import opened Wrappers
  import opened Decimals
  import opened Clock

  /**
   * Every field of an AirportWeatherEntity but the generated id; None is Java null. The
   * location reference is held as the id of the location it points to.
   */
  datatype ReportFields = ReportFields(
    locationId: Option<int>,
    airportCode: Option<string>,
    observationTime: Option<DateTime>,
    fetchedAt: Option<DateTime>,
    latitude: Option<Decimal>,
    longitude: Option<Decimal>,
    reportType: Option<string>,
    rawText: Option<string>,
    metarData: Option<string>,
    tafData: Option<string>,
    visibilityMiles: Option<Decimal>,
    ceilingFeet: Option<int>,
    windSpeedKnots: Option<int>,
    windDirection: Option<int>,
    windGustKnots: Option<int>,
    temperatureCelsius: Option<Decimal>,
    dewpointCelsius: Option<Decimal>,
    altimeterInches: Option<Decimal>,
    flightCategory: Option<string>,
    skyCondition: Option<string>,
    weatherConditions: Option<string>,
    isActive: Option<bool>,
    createdAt: Option<DateTime>)

  /** A stored airport_weather row: the NOT NULL columns are plain values. */
  datatype ReportRow = ReportRow(
    locationId: int,
    airportCode: string,
    observationTime: DateTime,
    fetchedAt: DateTime,
    latitude: Decimal,
    longitude: Decimal,
    reportType: string,
    rawText: string,
    metarData: Option<string>,
    tafData: Option<string>,
    visibilityMiles: Option<Decimal>,
    ceilingFeet: Option<int>,
    windSpeedKnots: Option<int>,
    windDirection: Option<int>,
    windGustKnots: Option<int>,
    temperatureCelsius: Option<Decimal>,
    dewpointCelsius: Option<Decimal>,
    altimeterInches: Option<Decimal>,
    flightCategory: Option<string>,
    skyCondition: Option<string>,
    weatherConditions: Option<string>,
    isActive: Option<bool>,
    createdAt: DateTime)

  const CodeLength: nat := 10
  const DefaultLength: nat := 255

  /** A new entity: every field null except isActive, which starts true. */
  const NewReport: ReportFields :=
    ReportFields(None, None, None, None, None, None, None, None, None, None, None, None,
                 None, None, None, None, None, None, None, None, None, Some(true), None)

  /** @PrePersist onCreate: createdAt becomes now; fetchedAt becomes now only when it is null. */
  function Created(f: ReportFields, now: DateTime): (r: ReportFields)
    ensures r.createdAt == Some(now)
    ensures f.fetchedAt.Some? ==> r.fetchedAt == f.fetchedAt
    ensures f.fetchedAt.None? ==> r.fetchedAt == Some(now)
    ensures r.(createdAt := f.createdAt, fetchedAt := f.fetchedAt) == f
  {
    f.(createdAt := Some(now), fetchedAt := if f.fetchedAt.None? then Some(now) else f.fetchedAt)
  }

  predicate FitsIn(s: Option<string>, n: nat) {
    s.None? || |s.value| <= n
  }

  /** What the database accepts: the NOT NULL columns present and the varchar lengths respected. */
  predicate Insertable(f: ReportFields) {
    && f.locationId.Some? && f.airportCode.Some? && f.observationTime.Some?
    && f.fetchedAt.Some? && f.latitude.Some? && f.longitude.Some? && f.reportType.Some?
    && f.rawText.Some? && f.createdAt.Some?
    && FitsIn(f.airportCode, CodeLength) && FitsIn(f.reportType, CodeLength)
    && FitsIn(f.flightCategory, CodeLength) && FitsIn(f.skyCondition, DefaultLength)
    && FitsIn(f.weatherConditions, DefaultLength)
  }

  /** The row an INSERT of the entity stores, or None where the database rejects it. */
  function ToRow(f: ReportFields): (r: Option<ReportRow>)
    ensures r.Some? <==> Insertable(f)
  {
    if !Insertable(f) then None
    else Some(ReportRow(
      f.locationId.value, f.airportCode.value, f.observationTime.value, f.fetchedAt.value,
      f.latitude.value, f.longitude.value, f.reportType.value, f.rawText.value, f.metarData,
      f.tafData, f.visibilityMiles, f.ceilingFeet, f.windSpeedKnots, f.windDirection,
      f.windGustKnots, f.temperatureCelsius, f.dewpointCelsius, f.altimeterInches,
      f.flightCategory, f.skyCondition, f.weatherConditions, f.isActive, f.createdAt.value))
  }

  /** The entity a row loads into. */
  function FieldsOf(row: ReportRow): ReportFields {
    ReportFields(
      Some(row.locationId), Some(row.airportCode), Some(row.observationTime), Some(row.fetchedAt),
      Some(row.latitude), Some(row.longitude), Some(row.reportType), Some(row.rawText),
      row.metarData, row.tafData, row.visibilityMiles, row.ceilingFeet, row.windSpeedKnots,
      row.windDirection, row.windGustKnots, row.temperatureCelsius, row.dewpointCelsius,
      row.altimeterInches, row.flightCategory, row.skyCondition, row.weatherConditions,
      row.isActive, Some(row.createdAt))
  }

  /** Storing loses nothing: the row loads back into the very entity that was inserted. */
  lemma ToRowLoadsBack(f: ReportFields)
    requires Insertable(f)
    ensures FieldsOf(ToRow(f).value) == f
  {
  }

  /** Every stored report has a code and a report type of at most ten characters. */
  lemma StoredCodesAreShort(f: ReportFields)
    requires ToRow(f).Some?
    ensures |ToRow(f).value.airportCode| <= CodeLength && |ToRow(f).value.reportType| <= CodeLength
  {
  }

  class AirportWeatherEntity {
    var locationId: Option<int>
    var airportCode: Option<string>
    var observationTime: Option<DateTime>
    var fetchedAt: Option<DateTime>
    var latitude: Option<Decimal>
    var longitude: Option<Decimal>
    var reportType: Option<string>
    var rawText: Option<string>
    var metarData: Option<string>
    var tafData: Option<string>
    var visibilityMiles: Option<Decimal>
    var ceilingFeet: Option<int>
    var windSpeedKnots: Option<int>
    var windDirection: Option<int>
    var windGustKnots: Option<int>
    var temperatureCelsius: Option<Decimal>
    var dewpointCelsius: Option<Decimal>
    var altimeterInches: Option<Decimal>
    var flightCategory: Option<string>
    var skyCondition: Option<string>
    var weatherConditions: Option<string>
    var isActive: Option<bool>
    var createdAt: Option<DateTime>

    function Snapshot(): ReportFields
      reads this
    {
      ReportFields(
        locationId, airportCode, observationTime, fetchedAt, latitude, longitude, reportType,
        rawText, metarData, tafData, visibilityMiles, ceilingFeet, windSpeedKnots,
        windDirection, windGustKnots, temperatureCelsius, dewpointCelsius, altimeterInches,
        flightCategory, skyCondition, weatherConditions, isActive, createdAt)
    }

    constructor()
      ensures Snapshot() == NewReport
    {
      locationId, airportCode, observationTime, fetchedAt := None, None, None, None;
      latitude, longitude, reportType, rawText := None, None, None, None;
      metarData, tafData, visibilityMiles, ceilingFeet := None, None, None, None;
      windSpeedKnots, windDirection, windGustKnots := None, None, None;
      temperatureCelsius, dewpointCelsius, altimeterInches := None, None, None;
      flightCategory, skyCondition, weatherConditions := None, None, None;
      isActive, createdAt := Some(true), None;
    }

    /** An entity whose fields hold f. */
    constructor Of(f: ReportFields)
      ensures Snapshot() == f
    {
      locationId, airportCode, observationTime, fetchedAt := f.locationId, f.airportCode, f.observationTime, f.fetchedAt;
      latitude, longitude, reportType, rawText := f.latitude, f.longitude, f.reportType, f.rawText;
      metarData, tafData, visibilityMiles, ceilingFeet := f.metarData, f.tafData, f.visibilityMiles, f.ceilingFeet;
      windSpeedKnots, windDirection, windGustKnots := f.windSpeedKnots, f.windDirection, f.windGustKnots;
      temperatureCelsius, dewpointCelsius, altimeterInches := f.temperatureCelsius, f.dewpointCelsius, f.altimeterInches;
      flightCategory, skyCondition, weatherConditions := f.flightCategory, f.skyCondition, f.weatherConditions;
      isActive, createdAt := f.isActive, f.createdAt;
    }

    /** @PrePersist. */
    method OnCreate(now: DateTime)
      modifies this
      ensures Snapshot() == Created(old(Snapshot()), now)
    {
      createdAt := Some(now);
      if fetchedAt.None? {
        fetchedAt := Some(now);
      }
    }
  }
}
