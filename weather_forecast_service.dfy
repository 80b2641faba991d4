/**
 * Forecast ingestion: NOAA forecast periods and OpenWeatherMap forecast items become
 * weather_forecasts rows, together with the unit normalisers the conversion uses.
 */
module WeatherForecastServices {
  import opened Wrappers
  import opened Decimals
  import opened Clock
  import opened Text
  import opened Ordering
  import opened Retention
  import opened Persistence
  import opened Feeds
  import opened WeatherForecastEntities
  import opened WeatherForecastRepositories
  import opened LocationEntities
  import opened LocationRepositories

  // ---------------------------------------------------------------------------
  // Normalisers

  /**
   * fahrenheitToCelsius: (F - 32) * 5 / 9 at scale 2, rounded HALF_UP (ties away from zero);
   * null gives null. The hundredths u of the result are pinned down by the rounding bounds.
   */
  function FahrenheitToCelsius(fahrenheit: Option<Decimal>): (r: Option<Decimal>)
    ensures r.None? <==> fahrenheit.None?
    ensures r.Some? ==> r.value.scale == 2
    ensures r.Some? ==>
      var n := (Numerator(fahrenheit.value) - 32 * Denominator(fahrenheit.value)) * 500;
      var d := 9 * Denominator(fahrenheit.value);
      var u := r.value.unscaled;
      && (n >= 0 ==> u >= 0 && 2 * d * u <= 2 * n + d < 2 * d * (u + 1))
      && (n < 0 ==> u <= 0 && 2 * d * (u - 1) < 2 * n - d <= 2 * d * u)
  {
    match fahrenheit
    case None => None
    case Some(f) =>
      Some(Decimal(RoundHalfUp((Numerator(f) - 32 * Denominator(f)) * 500, 9 * Denominator(f)), 2))
  }

  lemma FreezingPoint()
    ensures FahrenheitToCelsius(Some(Decimal(32, 0))) == Some(Decimal(0, 2))
  {
  }

  lemma BoilingPoint()
    ensures FahrenheitToCelsius(Some(Decimal(212, 0))) == Some(Decimal(10000, 2))
  {
    assert Denominator(Decimal(212, 0)) == 1;
    var u := FahrenheitToCelsius(Some(Decimal(212, 0))).value.unscaled;
    assert 18 * u <= 2 * 90000 + 9 < 18 * (u + 1);
  }

  /** Half a hundredth above or below zero rounds away from zero: 32.009 °F and 31.991 °F. */
  lemma TiesRoundAwayFromZero()
    ensures FahrenheitToCelsius(Some(Decimal(32009, 3))) == Some(Decimal(1, 2))
    ensures FahrenheitToCelsius(Some(Decimal(31991, 3))) == Some(Decimal(-1, 2))
  {
    assert Denominator(Decimal(32009, 3)) == 1000;
    assert Denominator(Decimal(31991, 3)) == 1000;
    var up := FahrenheitToCelsius(Some(Decimal(32009, 3))).value.unscaled;
    assert 18000 * up <= 2 * 4500 + 9000 < 18000 * (up + 1);
    var down := FahrenheitToCelsius(Some(Decimal(31991, 3))).value.unscaled;
    assert 18000 * (down - 1) < 2 * -4500 - 9000 <= 18000 * down;
  }

  /** parseWindSpeed: the first space-separated token as a BigDecimal, or null. */
  function ParseWindSpeed(windSpeed: string): Option<Decimal> {
    var parts := Split(windSpeed, ' ');
    if parts == [] then None else ParseDecimal(parts[0])
  }

  /** "10 to 20 mph" and "10 mph" read as 10: any plain number followed by a space reads back. */
  lemma WindSpeedLeadingNumber(d: Decimal, rest: string)
    requires d.scale >= 0
    ensures ParseWindSpeed(PlainString(d) + " " + rest) == if d.scale <= MaxInt32 then Some(d) else None
  {
    PlainStringHasNoSpace(d);
    SplitFirst(PlainString(d), rest, ' ');
    assert PlainString(d) + " " + rest == PlainString(d) + [' '] + rest;
    ParsePlainString(d);
  }

  /** A token that is not a number reads as null, whatever follows it. */
  lemma WindSpeedNotANumber(token: string, rest: string)
    requires token != [] && ' ' !in token && ParseDecimal(token).None?
    ensures ParseWindSpeed(token + " " + rest).None?
  {
    SplitFirst(token, rest, ' ');
    assert token + " " + rest == token + [' '] + rest;
  }

  /** The sixteen compass points in clockwise order from north, 22.5 degrees apart. */
  const CompassPoints: seq<string> :=
    ["N", "NNE", "NE", "ENE", "E", "ESE", "SE", "SSE",
     "S", "SSW", "SW", "WSW", "W", "WNW", "NW", "NNW"]

  /** parseWindDirection: the compass point, upper-cased, to whole degrees; anything else to null. */
  function ParseWindDirection(direction: string): Option<int> {
    CompassDegrees(ToUpper(direction))
  }

  /** The switch over the upper-cased compass point. */
  function CompassDegrees(point: string): Option<int> {
    match point
    case "N" => Some(0)
    case "NNE" => Some(22)
    case "NE" => Some(45)
    case "ENE" => Some(67)
    case "E" => Some(90)
    case "ESE" => Some(112)
    case "SE" => Some(135)
    case "SSE" => Some(157)
    case "S" => Some(180)
    case "SSW" => Some(202)
    case "SW" => Some(225)
    case "WSW" => Some(247)
    case "W" => Some(270)
    case "WNW" => Some(292)
    case "NW" => Some(315)
    case "NNW" => Some(337)
    case _ => None
  }

  /** The table is the compass: point i is i × 22.5 degrees, rounded down; nothing else is known. */
  lemma WindDirectionIsCompassBearing(direction: string)
    ensures ParseWindDirection(direction).Some? <==> ToUpper(direction) in CompassPoints
    ensures forall i :: 0 <= i < |CompassPoints| && ToUpper(direction) == CompassPoints[i] ==>
      ParseWindDirection(direction) == Some(i * 45 / 2)
  {
    CompassKnown(ToUpper(direction));
    forall i | 0 <= i < |CompassPoints| && ToUpper(direction) == CompassPoints[i]
      ensures ParseWindDirection(direction) == Some(i * 45 / 2)
    {
      CompassBearing(i);
    }
  }

  lemma CompassKnown(point: string)
    ensures CompassDegrees(point).Some? <==> point in CompassPoints
  {
  }

  lemma CompassBearing(i: int)
    requires 0 <= i < |CompassPoints|
    ensures CompassDegrees(CompassPoints[i]) == Some(i * 45 / 2)
  {
  }

  /** Lower-casing a direction first makes no difference: the lookup ignores case. */
  lemma WindDirectionIgnoresCase(direction: string)
    ensures ParseWindDirection(ToLower(direction)) == ParseWindDirection(direction)
  {
    UpperOfLower(direction);
  }

  // ---------------------------------------------------------------------------
  // From payloads to entities

  /** The requests a fetch sends and the entities it hands to persist(list), in order. */
  datatype Plan = Plan(requests: seq<Request>, entities: seq<ForecastFields>)

  /** The entity fetchAndStoreNoaaForecast builds for one forecast period. */
  function NoaaEntity(location: LocationRow, parse: string -> Option<DateTime>, now: DateTime, period: NoaaPeriod): ForecastFields {
    var fahrenheit := Some(FromInt(AsInt(period.temperature)));
    NewForecast.(
      locationId := Some(location.id),
      source := Some("noaa"),
      latitude := Some(location.latitude),
      longitude := Some(location.longitude),
      forecastData := Some(period.json),
      fetchedAt := Some(now),
      temperatureFahrenheit := fahrenheit,
      temperatureCelsius := FahrenheitToCelsius(fahrenheit),
      windSpeedMph := ParseWindSpeed(AsText(period.windSpeed)),
      windDirection := ParseWindDirection(AsText(period.windDirection)),
      weatherShortDescription := Some(AsText(period.shortForecast)),
      weatherDescription := Some(AsText(period.detailedForecast)),
      validFrom := Some(ParseIso8601(parse, AsText(period.startTime), now)),
      validTo := Some(ParseIso8601(parse, AsText(period.endTime), now)),
      forecastTime := Some(now))
  }

  function NoaaEntities(location: LocationRow, periods: seq<NoaaPeriod>, parse: string -> Option<DateTime>, now: DateTime): (r: seq<ForecastFields>)
    ensures |r| == |periods| && forall i :: 0 <= i < |periods| ==> r[i] == NoaaEntity(location, parse, now, periods[i])
  {
    seq(|periods|, i requires 0 <= i < |periods| => NoaaEntity(location, parse, now, periods[i]))
  }

  /**
   * fetchAndStoreNoaaForecast up to persist: an unknown location sends nothing; the point lookup
   * gives the forecast URL, and an empty one stops there; every period of the forecast becomes
   * an entity. A failed call ends the attempt with nothing to store.
   */
  function NoaaPlan(location: Option<LocationRow>, up: Upstream, now: DateTime): Plan {
    if location.None? then Plan([], [])
    else
      var loc := location.value;
      var point := PointRequest(loc.latitude, loc.longitude);
      match up.noaaPoint(loc.latitude, loc.longitude)
      case Threw => Plan([point], [])
      case Returned(p) =>
        var url := AsText(p.forecastUrl);
        if url == "" then Plan([point], [])
        else
          match up.noaaForecast(url)
          case Threw => Plan([point, ForecastRequest(url)], [])
          case Returned(f) => Plan([point, ForecastRequest(url)], NoaaEntities(loc, f.periods, up.parse, now))
  }

  /** The first element of an item's weather array, if it has one. */
  function FirstWeather(weather: seq<OwmWeather>): Option<OwmWeather> {
    if weather == [] then None else Some(weather[0])
  }

  /**
   * The entity fetchAndStoreOpenWeatherForecast builds for one list item, or None where building
   * it throws: a NaN or infinite temperature or wind speed, or a dt (or dt plus three hours)
   * outside the LocalDateTime range.
   */
  function OpenWeatherEntity(location: LocationRow, now: DateTime, item: OwmItem): Option<ForecastFields> {
    var fahrenheit := DecimalOfDouble(AsDouble(item.temp));
    var wind := DecimalOfDouble(AsDouble(item.windSpeed));
    var validFrom := OfEpochSecond(AsInt(item.dt));
    if fahrenheit.None? || wind.None? || validFrom.None? then None
    else
      var validTo := PlusHours(validFrom.value, 3);
      if validTo.None? then None
      else
        var weather := FirstWeather(item.weather);
        Some(NewForecast.(
          locationId := Some(location.id),
          source := Some("openweathermap"),
          latitude := Some(location.latitude),
          longitude := Some(location.longitude),
          forecastData := Some(item.json),
          fetchedAt := Some(now),
          temperatureFahrenheit := fahrenheit,
          temperatureCelsius := FahrenheitToCelsius(fahrenheit),
          humidity := Some(AsInt(item.humidity)),
          windSpeedMph := wind,
          windDirection := Some(AsInt(item.windDeg)),
          weatherShortDescription := if weather.Some? then Some(AsText(weather.value.main)) else None,
          weatherDescription := if weather.Some? then Some(AsText(weather.value.description)) else None,
          validFrom := validFrom,
          validTo := validTo,
          forecastTime := Some(now)))
  }

  /** OpenWeatherEntity for every item of one response. */
  function OpenWeatherConversion(location: LocationRow, now: DateTime): OwmItem -> Option<ForecastFields> {
    (item: OwmItem) => OpenWeatherEntity(location, now, item)
  }

  /**
   * fetchAndStoreOpenWeatherForecast up to persist: without an API key or a known location
   * nothing is sent; an item that cannot be converted aborts the whole list.
   */
  function OpenWeatherPlan(apiKey: Option<string>, location: Option<LocationRow>, up: Upstream, now: DateTime): Plan {
    if apiKey.None? || location.None? then Plan([], [])
    else
      var loc := location.value;
      var request := OpenWeatherRequest(loc.latitude, loc.longitude, apiKey.value);
      match up.openWeather(loc.latitude, loc.longitude, apiKey.value)
      case Threw => Plan([request], [])
      case Returned(f) =>
        var entities := InsertAll(f.items, OpenWeatherConversion(loc, now));
        Plan([request], if entities.Some? then entities.value else [])
  }

  /**
   * What a fetch leaves in weather_forecasts: the planned rows appended, unless one is rejected
   * (the transaction is then rolled back) or the commit fails.
   */
  function Outcome(rows: seq<ForecastRow>, plan: Plan, now: DateTime, commitFails: bool): seq<ForecastRow> {
    var stored := InsertAll(plan.entities, Stored(now));
    if !commitFails && stored.Some? then rows + stored.value else rows
  }

  // ---------------------------------------------------------------------------
  // What the fetches store

  /**
   * A NOAA forecast is stored whole or not at all: every period gets a row exactly when every
   * shortForecast fits its column, and row i then carries period i's JSON and the location,
   * was fetched and created at now, is active, and has its Celsius derived from its Fahrenheit.
   */
  lemma NoaaStoresEveryPeriod(location: LocationRow, periods: seq<NoaaPeriod>, parse: string -> Option<DateTime>, now: DateTime)
    ensures var stored := InsertAll(NoaaEntities(location, periods, parse, now), Stored(now));
      && (stored.Some? <==> forall i :: 0 <= i < |periods| ==> |AsText(periods[i].shortForecast)| <= DefaultLength)
      && (stored.Some? ==> |stored.value| == |periods| && forall i :: 0 <= i < |periods| ==>
            var row := stored.value[i];
            && row.locationId == location.id && row.source == "noaa"
            && row.latitude == location.latitude && row.longitude == location.longitude
            && row.forecastData == periods[i].json
            && row.fetchedAt == now && row.createdAt == now && row.forecastTime == now
            && row.isActive == Some(true)
            && row.temperatureFahrenheit == Some(FromInt(AsInt(periods[i].temperature)))
            && row.temperatureCelsius == FahrenheitToCelsius(row.temperatureFahrenheit))
  {
    var es := NoaaEntities(location, periods, parse, now);
    forall i | 0 <= i < |periods|
      ensures NoaaRowOf(location, now, periods[i], Stored(now)(es[i]))
    {
      NoaaPeriodStored(location, parse, now, periods[i]);
    }
  }

  /** What storing one period's entity gives: a row exactly when its shortForecast fits, and which row. */
  predicate NoaaRowOf(location: LocationRow, now: DateTime, period: NoaaPeriod, stored: Option<ForecastRow>) {
    && (stored.Some? <==> |AsText(period.shortForecast)| <= DefaultLength)
    && (stored.Some? ==>
          var row := stored.value;
          && row.locationId == location.id && row.source == "noaa"
          && row.latitude == location.latitude && row.longitude == location.longitude
          && row.forecastData == period.json
          && row.fetchedAt == now && row.createdAt == now && row.forecastTime == now
          && row.isActive == Some(true)
          && row.temperatureFahrenheit == Some(FromInt(AsInt(period.temperature)))
          && row.temperatureCelsius == FahrenheitToCelsius(row.temperatureFahrenheit))
  }

  lemma NoaaPeriodStored(location: LocationRow, parse: string -> Option<DateTime>, now: DateTime, period: NoaaPeriod)
    ensures NoaaRowOf(location, now, period, Stored(now)(NoaaEntity(location, parse, now, period)))
  {
  }

  /**
   * An OpenWeatherMap item converts exactly when its temperature and wind speed are finite and its
   * three-hour window lies in the LocalDateTime range; the window then starts at dt.
   */
  lemma OpenWeatherItemConverts(location: LocationRow, now: DateTime, item: OwmItem)
    ensures var e := OpenWeatherEntity(location, now, item);
      && (e.Some? <==> && AsDouble(item.temp).Finite? && AsDouble(item.windSpeed).Finite?
                       && InRange(AsInt(item.dt)) && InRange(AsInt(item.dt) + 3 * SecondsPerHour))
      && (e.Some? ==> && e.value.validFrom == Some(AsInt(item.dt))
                      && e.value.validTo == Some(AsInt(item.dt) + 3 * SecondsPerHour))
  {
  }

  /**
   * A converted item is stored exactly when its weather text fits, and its row covers the three
   * hours from dt, comes from OpenWeatherMap, and keeps the Fahrenheit and Celsius consistent.
   */
  lemma OpenWeatherRowCoversThreeHours(location: LocationRow, now: DateTime, item: OwmItem)
    requires OpenWeatherEntity(location, now, item).Some?
    ensures var f := OpenWeatherEntity(location, now, item).value;
      var weather := FirstWeather(item.weather);
      && (Stored(now)(f).Some? <==> weather.None? || |AsText(weather.value.main)| <= DefaultLength)
      && (Stored(now)(f).Some? ==>
            var row := Stored(now)(f).value;
            && row.source == "openweathermap" && row.locationId == location.id
            && row.validTo - row.validFrom == 3 * SecondsPerHour
            && row.temperatureCelsius == FahrenheitToCelsius(row.temperatureFahrenheit))
  {
  }

  /** Whatever a fetch does, it only appends: the rows already stored stay as they were. */
  lemma OutcomeOnlyAppends(rows: seq<ForecastRow>, plan: Plan, now: DateTime, commitFails: bool)
    ensures var r := Outcome(rows, plan, now, commitFails);
      && |rows| <= |r| && r[..|rows|] == rows
      && (|r| == |rows| || |r| == |rows| + |plan.entities|)
      && (commitFails ==> r == rows)
  {
  }

  // ---------------------------------------------------------------------------
  // The service

  class WeatherForecastService {
    const forecasts: WeatherForecastRepository
    const locations: LocationRepository
    /** openweather.api.key, when configured. */
    const apiKey: Option<string>

    constructor(forecasts: WeatherForecastRepository, locations: LocationRepository, apiKey: Option<string>)
      ensures this.forecasts == forecasts && this.locations == locations && this.apiKey == apiKey
    {
      this.forecasts := forecasts;
      this.locations := locations;
      this.apiKey := apiKey;
    }

    /** getForecastsByLocation. */
    function GetForecastsByLocation(locationId: int): (r: seq<ForecastRow>)
      reads forecasts
      ensures forall x :: x in r <==> x in forecasts.rows && Active(x) && x.locationId == locationId
      ensures forall x :: multiset(r)[x] == if Active(x) && x.locationId == locationId then multiset(forecasts.rows)[x] else 0
      ensures Ascending(r)
    {
      forecasts.FindByLocation(locationId)
    }

    /** getForecastsByCoordinates. */
    function GetForecastsByCoordinates(lat: Decimal, lon: Decimal, from: DateTime, to: DateTime): (r: seq<ForecastRow>)
      reads forecasts
      ensures forall x :: x in r <==> x in forecasts.rows && Active(x) && AtCoordinates(x, lat, lon) && Overlaps(x, from, to)
      ensures forall x :: multiset(r)[x] == if Active(x) && AtCoordinates(x, lat, lon) && Overlaps(x, from, to) then multiset(forecasts.rows)[x] else 0
      ensures Ascending(r)
    {
      forecasts.FindByCoordinatesAndTimeRange(lat, lon, from, to)
    }

    /** getCurrentForecast. */
    function GetCurrentForecast(lat: Decimal, lon: Decimal, now: DateTime): (r: seq<ForecastRow>)
      reads forecasts
      ensures forall x :: x in r <==> x in forecasts.rows && Active(x) && AtCoordinates(x, lat, lon) && x.validFrom <= now <= x.validTo
      ensures forall x :: multiset(r)[x] == if Active(x) && AtCoordinates(x, lat, lon) && x.validFrom <= now <= x.validTo then multiset(forecasts.rows)[x] else 0
      ensures Ascending(r)
    {
      forecasts.FindCurrentByCoordinates(lat, lon, now)
    }

    /**
     * persist(list) inside the call's transaction: a rejected entity rolls back the rows already
     * inserted, and so does a failing commit, which alone reaches the caller.
     */
    method Store(es: seq<WeatherForecastEntity>, ghost plan: Plan, now: DateTime, commitFails: bool) returns (threw: bool)
      requires forall i, j :: 0 <= i < j < |es| ==> es[i] != es[j]
      requires Snapshots(es) == plan.entities
      modifies forecasts, set e | e in es
      ensures threw == commitFails
      ensures forecasts.rows == Outcome(old(forecasts.rows), plan, now, commitFails)
    {
      var saved := forecasts.rows;
      var ok := forecasts.PersistAll(es, now);
      if !ok || commitFails {
        forecasts.rows := saved;
      }
      threw := commitFails;
    }

    /** The loop that news up one entity per record, in order, each a distinct object. */
    method NewEntities(fs: seq<ForecastFields>) returns (es: seq<WeatherForecastEntity>)
      ensures forall e :: e in es ==> fresh(e)
      ensures forall j, k :: 0 <= j < k < |es| ==> es[j] != es[k]
      ensures Snapshots(es) == fs
    {
      es := [];
      var i := 0;
      while i < |fs|
        invariant 0 <= i <= |fs|
        invariant forall e :: e in es ==> fresh(e)
        invariant forall j, k :: 0 <= j < k < |es| ==> es[j] != es[k]
        invariant |es| == i && forall k :: 0 <= k < i ==> es[k].Snapshot() == fs[k]
      {
        var e := new WeatherForecastEntity.Of(fs[i]);
        es := es + [e];
        i := i + 1;
      }
      assert Snapshots(es) == fs;
    }

    /** The loop over the periods: one new entity per period, in order. */
    method BuildNoaaEntities(location: LocationRow, periods: seq<NoaaPeriod>, parse: string -> Option<DateTime>, now: DateTime)
      returns (es: seq<WeatherForecastEntity>)
      ensures forall e :: e in es ==> fresh(e)
      ensures forall j, k :: 0 <= j < k < |es| ==> es[j] != es[k]
      ensures Snapshots(es) == NoaaEntities(location, periods, parse, now)
    {
      es := NewEntities(NoaaEntities(location, periods, parse, now));
    }

    /** The loop over the list items: one new entity per item, or none once an item throws. */
    method BuildOpenWeatherEntities(location: LocationRow, items: seq<OwmItem>, now: DateTime)
      returns (es: seq<WeatherForecastEntity>)
      ensures forall e :: e in es ==> fresh(e)
      ensures forall j, k :: 0 <= j < k < |es| ==> es[j] != es[k]
      ensures var all := InsertAll(items, OpenWeatherConversion(location, now));
        Snapshots(es) == if all.Some? then all.value else []
    {
      var fs := ConvertItems(location, items, now);
      if fs.None? {
        return [];
      }
      es := NewEntities(fs.value);
    }

    /** The conversions of that loop, item by item, up to the first item that throws. */
    method ConvertItems(location: LocationRow, items: seq<OwmItem>, now: DateTime) returns (fs: Option<seq<ForecastFields>>)
      ensures fs == InsertAll(items, OpenWeatherConversion(location, now))
    {
      ghost var convert := OpenWeatherConversion(location, now);
      var acc := [];
      var i := 0;
      while i < |items|
        invariant 0 <= i <= |items|
        invariant InsertAll(items[..i], convert) == Some(acc)
      {
        var f := OpenWeatherEntity(location, now, items[i]);
        if f.None? {
          assert convert(items[i]).None?;
          return None;
        }
        StoredPrefix(items, i, f.value, convert);
        acc := acc + [f.value];
        i := i + 1;
      }
      assert items[..i] == items;
      fs := Some(acc);
    }

    /** fetchAndStoreNoaaForecast. */
    method FetchAndStoreNoaaForecast(locationId: int, up: Upstream, now: DateTime) returns (requests: seq<Request>, threw: bool)
      modifies forecasts
      ensures var plan := NoaaPlan(locations.FindByIdOptional(locationId), up, now);
        && requests == plan.requests
        && threw == up.commitFails(NoaaFetch(locationId))
        && forecasts.rows == Outcome(old(forecasts.rows), plan, now, threw)
    {
      var es: seq<WeatherForecastEntity> := [];
      requests := [];
      var location := locations.FindByIdOptional(locationId);
      ghost var plan := NoaaPlan(location, up, now);
      if location.Some? {
        var loc := location.value;
        requests := [PointRequest(loc.latitude, loc.longitude)];
        var point := up.noaaPoint(loc.latitude, loc.longitude);
        if point.Returned? && AsText(point.body.forecastUrl) != "" {
          var url := AsText(point.body.forecastUrl);
          requests := requests + [ForecastRequest(url)];
          var forecast := up.noaaForecast(url);
          if forecast.Returned? {
            es := BuildNoaaEntities(loc, forecast.body.periods, up.parse, now);
          }
        }
      }
      assert requests == plan.requests && Snapshots(es) == plan.entities;
      threw := Store(es, plan, now, up.commitFails(NoaaFetch(locationId)));
    }

    /** fetchAndStoreOpenWeatherForecast. */
    method FetchAndStoreOpenWeatherForecast(locationId: int, up: Upstream, now: DateTime) returns (requests: seq<Request>, threw: bool)
      modifies forecasts
      ensures var plan := OpenWeatherPlan(apiKey, locations.FindByIdOptional(locationId), up, now);
        && requests == plan.requests
        && threw == up.commitFails(OpenWeatherFetch(locationId))
        && forecasts.rows == Outcome(old(forecasts.rows), plan, now, threw)
    {
      var es: seq<WeatherForecastEntity> := [];
      requests := [];
      var location := locations.FindByIdOptional(locationId);
      ghost var plan := OpenWeatherPlan(apiKey, location, up, now);
      if apiKey.Some? && location.Some? {
        var loc := location.value;
        requests := [OpenWeatherRequest(loc.latitude, loc.longitude, apiKey.value)];
        var response := up.openWeather(loc.latitude, loc.longitude, apiKey.value);
        if response.Returned? {
          es := BuildOpenWeatherEntities(loc, response.body.items, now);
          assert requests == plan.requests && Snapshots(es) == plan.entities;
        } else {
          assert plan == Plan(requests, []);
        }
      } else {
        assert plan == Plan([], []);
      }
      threw := Store(es, plan, now, up.commitFails(OpenWeatherFetch(locationId)));
    }

    /** deactivateOldForecasts in its own transaction. */
    method DeactivateOldForecasts(olderThan: DateTime, commitFails: bool) returns (count: nat, threw: bool)
      modifies forecasts
      ensures threw == commitFails
      ensures count == Count(old(forecasts.rows), StaleBefore(olderThan))
      ensures forecasts.rows == if threw then old(forecasts.rows) else Deactivated(old(forecasts.rows), StaleBefore(olderThan), Retired)
    {
      var saved := forecasts.rows;
      count := forecasts.DeactivateOldForecasts(olderThan);
      if commitFails {
        forecasts.rows := saved;
      }
      threw := commitFails;
    }
  }
}
