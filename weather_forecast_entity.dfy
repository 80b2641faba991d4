/** The weather_forecasts table: the entity object, its @PrePersist hook and its column constraints. */
module WeatherForecastEntities {
  import opened Wrappers
  import opened Decimals
  import opened Clock

  /** Every field of a WeatherForecastEntity but the generated id; None is Java null. */
  datatype ForecastFields = ForecastFields(
    locationId: Option<int>,
    source: Option<string>,
    forecastTime: Option<DateTime>,
    validFrom: Option<DateTime>,
    validTo: Option<DateTime>,
    fetchedAt: Option<DateTime>,
    latitude: Option<Decimal>,
    longitude: Option<Decimal>,
    forecastData: Option<string>,
    temperatureFahrenheit: Option<Decimal>,
    temperatureCelsius: Option<Decimal>,
    precipitationProbability: Option<int>,
    windSpeedMph: Option<Decimal>,
    windDirection: Option<int>,
    humidity: Option<int>,
    weatherDescription: Option<string>,
    weatherShortDescription: Option<string>,
    isActive: Option<bool>,
    createdAt: Option<DateTime>)

  /** A stored weather_forecasts row: the NOT NULL columns are plain values. */
  datatype ForecastRow = ForecastRow(
    locationId: int,
    source: string,
    forecastTime: DateTime,
    validFrom: DateTime,
    validTo: DateTime,
    fetchedAt: DateTime,
    latitude: Decimal,
    longitude: Decimal,
    forecastData: string,
    temperatureFahrenheit: Option<Decimal>,
    temperatureCelsius: Option<Decimal>,
    precipitationProbability: Option<int>,
    windSpeedMph: Option<Decimal>,
    windDirection: Option<int>,
    humidity: Option<int>,
    weatherDescription: Option<string>,
    weatherShortDescription: Option<string>,
    isActive: Option<bool>,
    createdAt: DateTime)

  const SourceLength: nat := 50
  const DefaultLength: nat := 255

  /** A new entity: every field null except isActive, which starts true. */
  const NewForecast: ForecastFields :=
    ForecastFields(None, None, None, None, None, None, None, None, None, None,
                   None, None, None, None, None, None, None, Some(true), None)

  /** @PrePersist onCreate: createdAt becomes now; fetchedAt becomes now only when it is null. */
  function Created(f: ForecastFields, now: DateTime): (r: ForecastFields)
    ensures r.createdAt == Some(now)
    ensures f.fetchedAt.Some? ==> r.fetchedAt == f.fetchedAt
    ensures f.fetchedAt.None? ==> r.fetchedAt == Some(now)
    ensures r.(createdAt := f.createdAt, fetchedAt := f.fetchedAt) == f
  {
    f.(createdAt := Some(now), fetchedAt := if f.fetchedAt.None? then Some(now) else f.fetchedAt)
  }

  /** Running the hook a second time, later, changes only createdAt. */
  lemma CreatedTwice(f: ForecastFields, now: DateTime, later: DateTime)
    ensures Created(Created(f, now), later) == Created(f, now).(createdAt := Some(later))
  {
  }

  predicate FitsIn(s: Option<string>, n: nat) {
    s.None? || |s.value| <= n
  }

  /** What the database accepts: the NOT NULL columns present and the varchar lengths respected. */
  predicate Insertable(f: ForecastFields) {
    && f.locationId.Some? && f.source.Some? && f.forecastTime.Some? && f.validFrom.Some?
    && f.validTo.Some? && f.fetchedAt.Some? && f.latitude.Some? && f.longitude.Some?
    && f.forecastData.Some? && f.createdAt.Some?
    && FitsIn(f.source, SourceLength) && FitsIn(f.weatherShortDescription, DefaultLength)
  }

  /** The row an INSERT of the entity stores, or None where the database rejects it. */
  function ToRow(f: ForecastFields): (r: Option<ForecastRow>)
    ensures r.Some? <==> Insertable(f)
  {
    if !Insertable(f) then None
    else Some(ForecastRow(
      f.locationId.value, f.source.value, f.forecastTime.value, f.validFrom.value,
      f.validTo.value, f.fetchedAt.value, f.latitude.value, f.longitude.value,
      f.forecastData.value, f.temperatureFahrenheit, f.temperatureCelsius,
      f.precipitationProbability, f.windSpeedMph, f.windDirection, f.humidity,
      f.weatherDescription, f.weatherShortDescription, f.isActive, f.createdAt.value))
  }

  /** The entity a row loads into. */
  function FieldsOf(row: ForecastRow): ForecastFields {
    ForecastFields(
      Some(row.locationId), Some(row.source), Some(row.forecastTime), Some(row.validFrom),
      Some(row.validTo), Some(row.fetchedAt), Some(row.latitude), Some(row.longitude),
      Some(row.forecastData), row.temperatureFahrenheit, row.temperatureCelsius,
      row.precipitationProbability, row.windSpeedMph, row.windDirection, row.humidity,
      row.weatherDescription, row.weatherShortDescription, row.isActive, Some(row.createdAt))
  }

  /** Storing loses nothing: the row loads back into the very entity that was inserted. */
  lemma ToRowLoadsBack(f: ForecastFields)
    requires Insertable(f)
    ensures FieldsOf(ToRow(f).value) == f
  {
  }

  /** Every row the database holds satisfies the column constraints. */
  lemma LoadedRowStores(row: ForecastRow)
    requires |row.source| <= SourceLength
    requires row.weatherShortDescription.None? || |row.weatherShortDescription.value| <= DefaultLength
    ensures ToRow(FieldsOf(row)) == Some(row)
  {
  }

  class WeatherForecastEntity {
    var locationId: Option<int>
    var source: Option<string>
    var forecastTime: Option<DateTime>
    var validFrom: Option<DateTime>
    var validTo: Option<DateTime>
    var fetchedAt: Option<DateTime>
    var latitude: Option<Decimal>
    var longitude: Option<Decimal>
    var forecastData: Option<string>
    var temperatureFahrenheit: Option<Decimal>
    var temperatureCelsius: Option<Decimal>
    var precipitationProbability: Option<int>
    var windSpeedMph: Option<Decimal>
    var windDirection: Option<int>
    var humidity: Option<int>
    var weatherDescription: Option<string>
    var weatherShortDescription: Option<string>
    var isActive: Option<bool>
    var createdAt: Option<DateTime>

    function Snapshot(): ForecastFields
      reads this
    {
      ForecastFields(
        locationId, source, forecastTime, validFrom, validTo, fetchedAt, latitude, longitude,
        forecastData, temperatureFahrenheit, temperatureCelsius, precipitationProbability,
        windSpeedMph, windDirection, humidity, weatherDescription, weatherShortDescription,
        isActive, createdAt)
    }

    constructor()
      ensures Snapshot() == NewForecast
    {
      locationId, source, forecastTime, validFrom, validTo := None, None, None, None, None;
      fetchedAt, latitude, longitude, forecastData := None, None, None, None;
      temperatureFahrenheit, temperatureCelsius, precipitationProbability := None, None, None;
      windSpeedMph, windDirection, humidity := None, None, None;
      weatherDescription, weatherShortDescription := None, None;
      isActive, createdAt := Some(true), None;
    }

    /** An entity whose fields hold f. */
    constructor Of(f: ForecastFields)
      ensures Snapshot() == f
    {
      locationId, source, forecastTime, validFrom, validTo := f.locationId, f.source, f.forecastTime, f.validFrom, f.validTo;
      fetchedAt, latitude, longitude, forecastData := f.fetchedAt, f.latitude, f.longitude, f.forecastData;
      temperatureFahrenheit, temperatureCelsius, precipitationProbability := f.temperatureFahrenheit, f.temperatureCelsius, f.precipitationProbability;
      windSpeedMph, windDirection, humidity := f.windSpeedMph, f.windDirection, f.humidity;
      weatherDescription, weatherShortDescription := f.weatherDescription, f.weatherShortDescription;
      isActive, createdAt := f.isActive, f.createdAt;
    }

    /** @PrePersist. */
    method OnCreate(now: DateTime)
      modifies this
      ensures Snapshot() == Created(old(Snapshot()), now)
    {
      createdAt := Some(now);
      if fetchedAt.None? {
        fetchedAt := Some(now);
      }
    }
  }
}
