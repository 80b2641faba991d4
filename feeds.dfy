/**
 * What the ingestion services read from outside: the upstream payloads, already parsed from JSON,
 * the requests the services issue, and the units of work the scheduler starts.
 *
 * Payload fields are optional exactly where the JSON may lack them; the Jackson defaults the
 * services rely on (a missing text reads as "", a missing int as 0, a missing double as 0.0)
 * are applied by AsText, AsInt and AsDouble.
 */
module Feeds {
  import opened Wrappers
  import opened Decimals
  import opened Clock

  /** A JSON number as asDouble reads it: finite (the decimal Double.toString prints) or NaN/Infinity. */
  datatype JsonNumber = Finite(value: Decimal) | NonFinite

  function AsText(field: Option<string>): string {
    field.GetOr("")
  }

  function AsInt(field: Option<int>): int {
    field.GetOr(0)
  }

  /** asDouble of a missing field is 0.0, which BigDecimal.valueOf renders as 0.0 (scale 1). */
  function AsDouble(field: Option<JsonNumber>): JsonNumber {
    field.GetOr(Finite(Decimal(0, 1)))
  }

  /** BigDecimal.valueOf(double): NaN and the infinities throw NumberFormatException. */
  function DecimalOfDouble(n: JsonNumber): (r: Option<Decimal>)
    ensures r.None? <==> n.NonFinite?
  {
    match n
    case Finite(d) => Some(d)
    case NonFinite => None
  }

  /** The outcome of a REST client call followed by readTree: it threw, or it gave a body. */
  datatype Call<T> = Threw | Returned(body: T)

  /** NOAA /points: properties.forecast. */
  datatype NoaaPoint = NoaaPoint(forecastUrl: Option<string>)

  /** One element of NOAA properties.periods, with its JSON text. */
  datatype NoaaPeriod = NoaaPeriod(
    json: string,
    temperature: Option<int>,
    windSpeed: Option<string>,
    windDirection: Option<string>,
    shortForecast: Option<string>,
    detailedForecast: Option<string>,
    startTime: Option<string>,
    endTime: Option<string>)

  /** NOAA forecast: properties.periods (a missing array iterates as empty). */
  datatype NoaaForecast = NoaaForecast(periods: seq<NoaaPeriod>)

  /** One element of an OpenWeatherMap item's weather array. */
  datatype OwmWeather = OwmWeather(main: Option<string>, description: Option<string>)

  /** One element of the OpenWeatherMap list, with its JSON text. */
  datatype OwmItem = OwmItem(
    json: string,
    temp: Option<JsonNumber>,
    humidity: Option<int>,
    windSpeed: Option<JsonNumber>,
    windDeg: Option<int>,
    weather: seq<OwmWeather>,
    dt: Option<int>)

  datatype OwmForecast = OwmForecast(items: seq<OwmItem>)

  /** An aviation weather METAR record; null fields are None. */
  datatype MetarResponse = MetarResponse(
    icaoId: Option<string>,
    lat: Option<JsonNumber>,
    lon: Option<JsonNumber>,
    rawOb: Option<string>,
    reportTime: Option<string>,
    temp: Option<JsonNumber>,
    dewp: Option<JsonNumber>,
    wspd: Option<int>,
    wdir: Option<int>,
    wgst: Option<int>,
    visib: Option<JsonNumber>,
    altim: Option<JsonNumber>,
    flightCategory: Option<string>,
    ceil: Option<int>,
    cover: Option<string>)

  /** An aviation weather TAF record; null fields are None. */
  datatype TafResponse = TafResponse(
    icaoId: Option<string>,
    lat: Option<JsonNumber>,
    lon: Option<JsonNumber>,
    rawTaf: Option<string>,
    issueTime: Option<string>)

  datatype NhcPosition = NhcPosition(lat: Option<JsonNumber>, lon: Option<JsonNumber>)

  datatype NhcMovement = NhcMovement(degrees: Option<int>, kts: Option<JsonNumber>, mph: Option<JsonNumber>)

  /** One element of the NHC activeStorms array, with its JSON text. */
  datatype NhcStorm = NhcStorm(
    json: string,
    id: Option<string>,
    name: Option<string>,
    binNumber: Option<string>,
    latestPosition: Option<NhcPosition>,
    intensityKts: Option<int>,
    pressureMb: Option<int>,
    classification: Option<string>,
    movement: Option<NhcMovement>,
    lastUpdate: Option<string>)

  /** NHC CurrentStorms: activeStorms is None when the field is missing or not an array. */
  datatype NhcResponse = NhcResponse(activeStorms: Option<seq<NhcStorm>>)

  /** A request a service sends upstream. */
  datatype Request =
    | PointRequest(lat: Decimal, lon: Decimal)
    | ForecastRequest(url: string)
    | OpenWeatherRequest(lat: Decimal, lon: Decimal, apiKey: string)
    | MetarRequest(code: string)
    | TafRequest(code: string)
    | StormsRequest

  /** One transactional service call the scheduler makes. */
  datatype Job =
    | NoaaFetch(locationId: int)
    | OpenWeatherFetch(locationId: int)
    | MetarFetch(code: string)
    | TafFetch(code: string)
    | StormFetch
    | ForecastRetirement
    | ReportRetirement
    | AdvisoryRetirement

  /**
   * Everything outside the model: the answers of the upstream services, LocalDateTime.parse with
   * ISO_DATE_TIME, and which transactions fail to commit (the only failure of a service call that
   * reaches its caller).
   */
  datatype Upstream = Upstream(
    noaaPoint: (Decimal, Decimal) -> Call<NoaaPoint>,
    noaaForecast: string -> Call<NoaaForecast>,
    openWeather: (Decimal, Decimal, string) -> Call<OwmForecast>,
    metar: string -> Call<Option<seq<MetarResponse>>>,
    taf: string -> Call<Option<seq<TafResponse>>>,
    nhc: Call<NhcResponse>,
    parse: string -> Option<DateTime>,
    commitFails: Job -> bool)
}
