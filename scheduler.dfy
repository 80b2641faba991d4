/**
 * WeatherDataScheduler: the four fetch ticks and the daily retention sweep. Each tick is one call
 * with one "now"; the upstream answers and the transactions that fail to commit come in through
 * Upstream. A service call either returns or throws, and every throw is caught inside the tick.
 */
module WeatherDataSchedulers {
  import opened Wrappers
  import opened Clock
  import opened Ordering
  import opened Retention
  import opened Feeds
  import opened LocationEntities
  import opened LocationRepositories
  import WFE = WeatherForecastEntities
  import WFR = WeatherForecastRepositories
  import WF = WeatherForecastServices
  import AWE = AirportWeatherEntities
  import AWR = AirportWeatherRepositories
  import AW = AirportWeatherServices
  import HE = HurricaneEntities
  import HR = HurricaneRepositories
  import HS = HurricaneServices
  import P = Persistence

  // ---------------------------------------------------------------------------
  // Configuration
  // ---------------------------------------------------------------------------

  const NoaaKey: string := "weather.scheduler.noaa.enabled"
  const AviationKey: string := "weather.scheduler.aviation.enabled"
  const HurricaneKey: string := "weather.scheduler.hurricane.enabled"
  const OpenWeatherKey: string := "weather.scheduler.openweather.enabled"

  /** The per-source enable switches. */
  datatype Flags = Flags(noaa: bool, aviation: bool, hurricane: bool, openWeather: bool)

  function Setting(config: map<string, bool>, key: string, default: bool): bool {
    if key in config then config[key] else default
  }

  /**
   * The @ConfigProperty injections: a configured value wins, otherwise the declared default, which
   * enables NOAA, aviation and hurricane fetching and leaves OpenWeatherMap off.
   */
  function FlagsOf(config: map<string, bool>): (f: Flags)
    ensures NoaaKey !in config ==> f.noaa
    ensures AviationKey !in config ==> f.aviation
    ensures HurricaneKey !in config ==> f.hurricane
    ensures OpenWeatherKey !in config ==> !f.openWeather
    ensures NoaaKey in config ==> f.noaa == config[NoaaKey]
    ensures AviationKey in config ==> f.aviation == config[AviationKey]
    ensures HurricaneKey in config ==> f.hurricane == config[HurricaneKey]
    ensures OpenWeatherKey in config ==> f.openWeather == config[OpenWeatherKey]
  {
    Flags(Setting(config, NoaaKey, true), Setting(config, AviationKey, true),
          Setting(config, HurricaneKey, true), Setting(config, OpenWeatherKey, false))
  }

  // ---------------------------------------------------------------------------
  // One pass over the targets
  // ---------------------------------------------------------------------------

  /** The two counters a tick keeps. */
  datatype Tally = Tally(success: nat, failure: nat)

  /** The counters after a pass: each target adds one to exactly one of them. */
  function TallyOf<T>(targets: seq<T>, failed: T -> bool): (t: Tally)
    ensures t.success + t.failure == |targets|
    ensures t.failure == Count(targets, failed)
  {
    if targets == [] then Tally(0, 0)
    else
      var n := |targets| - 1;
      var prev := TallyOf(targets[..n], failed);
      assert targets == targets[..n] + [targets[n]];
      CountAppend(targets[..n], targets[n], failed);
      if failed(targets[n]) then prev.(failure := prev.failure + 1) else prev.(success := prev.success + 1)
  }

  /** What the pass produces, target after target: requests sent or rows stored. */
  function Appended<T, R>(targets: seq<T>, each: T -> seq<R>): seq<R> {
    if targets == [] then []
    else
      var n := |targets| - 1;
      Appended(targets[..n], each) + each(targets[n])
  }

  lemma AppendedSnoc<T, R>(ts: seq<T>, t: T, each: T -> seq<R>)
    ensures Appended(ts + [t], each) == Appended(ts, each) + each(t)
  {
    assert (ts + [t])[..|ts|] == ts;
  }

  lemma TallySnoc<T>(ts: seq<T>, t: T, failed: T -> bool)
    ensures var prev := TallyOf(ts, failed);
      TallyOf(ts + [t], failed)
        == if failed(t) then prev.(failure := prev.failure + 1) else prev.(success := prev.success + 1)
  {
    assert (ts + [t])[..|ts|] == ts;
  }

  lemma Regroup<R>(a: seq<R>, b: seq<R>, c: seq<R>)
    ensures (a + b) + c == a + (b + c)
  {
  }

  /** One more target of a pass: what it adds goes after what the earlier targets added. */
  lemma PassStep<T, R>(ts: seq<T>, i: int, each: T -> seq<R>, base: seq<R>, current: seq<R>, added: seq<R>)
    requires 0 <= i < |ts| && current == base + Appended(ts[..i], each) && added == each(ts[i])
    ensures current + added == base + Appended(ts[..i + 1], each)
  {
    assert ts[..i + 1] == ts[..i] + [ts[i]];
    AppendedSnoc(ts[..i], ts[i], each);
  }

  /** One more target of a pass: it adds one to the failures if it failed, else to the successes. */
  lemma TallyStep<T>(ts: seq<T>, i: int, failed: T -> bool, success: nat, failure: nat, threw: bool)
    requires 0 <= i < |ts| && Tally(success, failure) == TallyOf(ts[..i], failed) && threw == failed(ts[i])
    ensures (if threw then Tally(success, failure + 1) else Tally(success + 1, failure)) == TallyOf(ts[..i + 1], failed)
  {
    assert ts[..i + 1] == ts[..i] + [ts[i]];
    TallySnoc(ts[..i], ts[i], failed);
  }

  /**
   * One more target of a pass, for all three things a tick keeps at once: its counters, the
   * requests sent so far and the table it stores into.
   */
  lemma Advance<T, Q, R>(ts: seq<T>, i: int, asks: T -> seq<Q>, stores: T -> seq<R>, failed: T -> bool,
                         success: nat, failure: nat, threw: bool, requests: seq<Q>, asked: seq<Q>,
                         base: seq<R>, current: seq<R>, after: seq<R>)
    requires 0 <= i < |ts|
    requires Tally(success, failure) == TallyOf(ts[..i], failed) && threw == failed(ts[i])
    requires requests == Appended(ts[..i], asks) && asked == asks(ts[i])
    requires current == base + Appended(ts[..i], stores) && after == current + stores(ts[i])
    ensures (if threw then Tally(success, failure + 1) else Tally(success + 1, failure)) == TallyOf(ts[..i + 1], failed)
    ensures requests + asked == Appended(ts[..i + 1], asks)
    ensures after == base + Appended(ts[..i + 1], stores)
  {
    PassStep(ts, i, asks, [], requests, asked);
    PassStep(ts, i, stores, base, current, stores(ts[i]));
    TallyStep(ts, i, failed, success, failure, threw);
  }

  /** A fetch only appends: what it leaves is the table followed by what it stored. */
  lemma ForecastOutcomeAppends(rows: seq<WFE.ForecastRow>, plan: WF.Plan, now: DateTime, fails: bool)
    ensures WF.Outcome(rows, plan, now, fails) == rows + WF.Outcome([], plan, now, fails)
  {
    var stored := P.InsertAll(plan.entities, WFR.Stored(now));
    if !fails && stored.Some? {
      assert [] + stored.value == stored.value;
    } else {
      assert rows + [] == rows;
    }
  }

  lemma ReportOutcomeAppends(rows: seq<AWE.ReportRow>, reports: seq<Option<AWE.ReportFields>>, now: DateTime, fails: bool)
    ensures AW.Outcome(rows, reports, now, fails) == rows + AW.Outcome([], reports, now, fails)
  {
    var stored := AW.InsertUntilThrow(reports, now);
    if !fails && stored.Some? {
      assert [] + stored.value == stored.value;
    } else {
      assert rows + [] == rows;
    }
  }

  /** A pass over a + b is the pass over a followed by the pass over b. */
  lemma {:induction false} AppendedSplit<T, R>(a: seq<T>, b: seq<T>, each: T -> seq<R>)
    ensures Appended(a + b, each) == Appended(a, each) + Appended(b, each)
    decreases |b|
  {
    if b == [] {
      assert a + b == a;
    } else {
      var n := |b| - 1;
      assert (a + b)[..|a + b| - 1] == a + b[..n];
      AppendedSplit(a, b[..n], each);
    }
  }

  lemma {:induction false} TallySplit<T>(a: seq<T>, b: seq<T>, failed: T -> bool)
    ensures TallyOf(a + b, failed).failure == TallyOf(a, failed).failure + TallyOf(b, failed).failure
    ensures TallyOf(a + b, failed).success == TallyOf(a, failed).success + TallyOf(b, failed).success
    decreases |b|
  {
    if b == [] {
      assert a + b == a;
    } else {
      var n := |b| - 1;
      assert (a + b)[..|a + b| - 1] == a + b[..n];
      TallySplit(a, b[..n], failed);
    }
  }

  /**
   * One failing target does not stop the rest: it counts as one failure, and every other target
   * adds what it would have added without it.
   */
  lemma FailureSkipped<T, R>(a: seq<T>, t: T, b: seq<T>, failed: T -> bool, stores: T -> seq<R>)
    requires failed(t) && stores(t) == []
    ensures Appended(a + [t] + b, stores) == Appended(a + b, stores)
    ensures TallyOf(a + [t] + b, failed).failure == TallyOf(a + b, failed).failure + 1
    ensures TallyOf(a + [t] + b, failed).success == TallyOf(a + b, failed).success
  {
    AppendedSplit(a + [t], b, stores);
    AppendedSplit(a, [t], stores);
    AppendedSplit(a, b, stores);
    assert [t][..0] == [];
    TallySplit(a + [t], b, failed);
    TallySplit(a, [t], failed);
    TallySplit(a, b, failed);
  }

  // ---------------------------------------------------------------------------
  // What one target of each tick sends and stores
  // ---------------------------------------------------------------------------

  function NoaaAsks(up: Upstream, now: DateTime): LocationRow -> seq<Request> {
    (t: LocationRow) => WF.NoaaPlan(Some(t), up, now).requests
  }

  function NoaaStores(up: Upstream, now: DateTime): LocationRow -> seq<WFE.ForecastRow> {
    (t: LocationRow) => WF.Outcome([], WF.NoaaPlan(Some(t), up, now), now, up.commitFails(NoaaFetch(t.id)))
  }

  function NoaaFails(up: Upstream): LocationRow -> bool {
    (t: LocationRow) => up.commitFails(NoaaFetch(t.id))
  }

  function OpenWeatherAsks(apiKey: Option<string>, up: Upstream, now: DateTime): LocationRow -> seq<Request> {
    (t: LocationRow) => WF.OpenWeatherPlan(apiKey, Some(t), up, now).requests
  }

  function OpenWeatherStores(apiKey: Option<string>, up: Upstream, now: DateTime): LocationRow -> seq<WFE.ForecastRow> {
    (t: LocationRow) =>
      WF.Outcome([], WF.OpenWeatherPlan(apiKey, Some(t), up, now), now, up.commitFails(OpenWeatherFetch(t.id)))
  }

  function OpenWeatherFails(up: Upstream): LocationRow -> bool {
    (t: LocationRow) => up.commitFails(OpenWeatherFetch(t.id))
  }

  /** METAR for the airport, then TAF unless the METAR call threw. */
  function AirportAsked(locations: seq<LocationRow>, a: LocationRow, up: Upstream, now: DateTime): seq<Request> {
    match a.airportCode
    case None => []
    case Some(code) =>
      var location := WithAirportCode(locations, code);
      AW.MetarPlan(location, code, up, now).requests
        + (if up.commitFails(MetarFetch(code)) then [] else AW.TafPlan(location, code, up, now).requests)
  }

  function AirportStored(locations: seq<LocationRow>, a: LocationRow, up: Upstream, now: DateTime): seq<AWE.ReportRow> {
    match a.airportCode
    case None => []
    case Some(code) =>
      var location := WithAirportCode(locations, code);
      var metarFails := up.commitFails(MetarFetch(code));
      AW.Outcome([], AW.MetarPlan(location, code, up, now).reports, now, metarFails)
        + (if metarFails then [] else AW.Outcome([], AW.TafPlan(location, code, up, now).reports, now, up.commitFails(TafFetch(code))))
  }

  function AirportAsks(locations: seq<LocationRow>, up: Upstream, now: DateTime): LocationRow -> seq<Request> {
    (a: LocationRow) => AirportAsked(locations, a, up, now)
  }

  function AirportStores(locations: seq<LocationRow>, up: Upstream, now: DateTime): LocationRow -> seq<AWE.ReportRow> {
    (a: LocationRow) => AirportStored(locations, a, up, now)
  }

  /** An airport counts as failed when its METAR or its TAF call throws. */
  function AirportFails(up: Upstream): LocationRow -> bool {
    (a: LocationRow) =>
      match a.airportCode
      case None => false
      case Some(code) => up.commitFails(MetarFetch(code)) || up.commitFails(TafFetch(code))
  }

  /** A location whose NOAA fetch fails to commit counts as a failure and stores nothing. */
  lemma NoaaFailureSkipped(a: seq<LocationRow>, t: LocationRow, b: seq<LocationRow>, up: Upstream, now: DateTime)
    requires up.commitFails(NoaaFetch(t.id))
    ensures Appended(a + [t] + b, NoaaStores(up, now)) == Appended(a + b, NoaaStores(up, now))
    ensures TallyOf(a + [t] + b, NoaaFails(up)).failure == TallyOf(a + b, NoaaFails(up)).failure + 1
  {
    FailureSkipped(a, t, b, NoaaFails(up), NoaaStores(up, now));
  }

  /** An airport whose METAR fails to commit is not asked for its TAF, stores nothing and counts as a failure. */
  lemma MetarFailureSkipped(a: seq<LocationRow>, t: LocationRow, b: seq<LocationRow>, locations: seq<LocationRow>, up: Upstream, now: DateTime)
    requires t.airportCode.Some? && up.commitFails(MetarFetch(t.airportCode.value))
    ensures Appended(a + [t] + b, AirportStores(locations, up, now)) == Appended(a + b, AirportStores(locations, up, now))
    ensures TallyOf(a + [t] + b, AirportFails(up)).failure == TallyOf(a + b, AirportFails(up)).failure + 1
  {
    FailureSkipped(a, t, b, AirportFails(up), AirportStores(locations, up, now));
  }

  /**
   * A listed airport gets its METAR request and then its TAF request; a METAR call that throws
   * leaves out the TAF request.
   */
  lemma MetarThenTaf(locations: seq<LocationRow>, a: LocationRow, up: Upstream, now: DateTime)
    requires a in locations && IsAirport(a)
    ensures var code := a.airportCode.value;
      AirportAsked(locations, a, up, now)
        == [MetarRequest(code)] + (if up.commitFails(MetarFetch(code)) then [] else [TafRequest(code)])
  {
    var code := a.airportCode.value;
    var location := WithAirportCode(locations, code);
    assert location.Some?;
  }

  /**
   * An airport whose TAF call throws after its METAR committed counts as a failure, yet the
   * METAR reports stay stored.
   */
  lemma TafFailureKeepsMetar(locations: seq<LocationRow>, a: LocationRow, up: Upstream, now: DateTime)
    requires a.airportCode.Some?
    requires !up.commitFails(MetarFetch(a.airportCode.value)) && up.commitFails(TafFetch(a.airportCode.value))
    ensures AirportFails(up)(a)
    ensures var code := a.airportCode.value;
      AirportStored(locations, a, up, now)
        == AW.Outcome([], AW.MetarPlan(WithAirportCode(locations, code), code, up, now).reports, now, false)
  {
    var code := a.airportCode.value;
    var location := WithAirportCode(locations, code);
    assert AW.Outcome([], AW.TafPlan(location, code, up, now).reports, now, true) == [];
  }

  // ---------------------------------------------------------------------------
  // The hurricane gate
  // ---------------------------------------------------------------------------

  /** isHurricaneSeason: June through November. */
  predicate IsHurricaneSeason(now: DateTime) {
    6 <= MonthOf(now) <= 11
  }

  /** The hourly hurricane tick goes on in season, and otherwise only on hours divisible by six. */
  predicate HurricaneDue(now: DateTime) {
    IsHurricaneSeason(now) || HourOf(now) % 6 == 0
  }

  lemma SixHourMarks(h: int)
    requires 0 <= h < 24
    ensures h % 6 == 0 <==> h in {0, 6, 12, 18}
  {
    if h < 6 {
      assert h % 6 == h;
    } else if h < 12 {
      assert h % 6 == h - 6;
    } else if h < 18 {
      assert h % 6 == h - 12;
    } else {
      assert h % 6 == h - 18;
    }
  }

  /** Out of season the hurricane fetch runs four times a day: at 00, 06, 12 and 18 o'clock. */
  lemma OffSeasonEverySixHours(now: DateTime)
    requires !IsHurricaneSeason(now)
    ensures HurricaneDue(now) <==> HourOf(now) in {0, 6, 12, 18}
  {
    SixHourMarks(HourOf(now));
  }

  /** On any valid date the gate is open exactly from June through November. */
  lemma SeasonByDate(now: DateTime, c: Civil)
    requires ValidDate(c) && EpochDay(now) == DaysFromCivil(c)
    ensures IsHurricaneSeason(now) <==> 6 <= c.month <= 11
  {
    MonthOfDate(now, c);
  }

  /** The 2025 season opens at 2025-06-01T00:00: closed the second before, open from then. */
  lemma SeasonOpens2025()
    ensures !IsHurricaneSeason(1748735999) && IsHurricaneSeason(1748736000)
  {
    assert EpochDay(1748735999) == 20239 == DaysFromCivil(Civil(2025, 5, 31));
    assert EpochDay(1748736000) == 20240 == DaysFromCivil(Civil(2025, 6, 1));
    SeasonByDate(1748735999, Civil(2025, 5, 31));
    SeasonByDate(1748736000, Civil(2025, 6, 1));
  }

  /** The 2025 season closes at 2025-12-01T00:00: open the second before, closed from then. */
  lemma SeasonCloses2025()
    ensures IsHurricaneSeason(1764547199) && !IsHurricaneSeason(1764547200)
  {
    assert EpochDay(1764547199) == 20422 == DaysFromCivil(Civil(2025, 11, 30));
    assert EpochDay(1764547200) == 20423 == DaysFromCivil(Civil(2025, 12, 1));
    SeasonByDate(1764547199, Civil(2025, 11, 30));
    SeasonByDate(1764547200, Civil(2025, 12, 1));
  }

  // ---------------------------------------------------------------------------
  // The scheduler
  // ---------------------------------------------------------------------------

  /** How many days of records the daily sweep keeps active. */
  const RetentionDays: int := 7

  class WeatherDataScheduler {
    const forecastService: WF.WeatherForecastService
    const airportService: AW.AirportWeatherService
    const hurricaneService: HS.HurricaneService
    const locations: LocationRepository
    const flags: Flags

    /** The services read the same locations table the scheduler lists, and its ids are unique. */
    predicate Wired()
      reads locations
    {
      && forecastService.locations == locations
      && airportService.locations == locations
      && locations.Valid()
    }

    constructor(forecastService: WF.WeatherForecastService, airportService: AW.AirportWeatherService,
                hurricaneService: HS.HurricaneService, locations: LocationRepository, config: map<string, bool>)
      ensures this.forecastService == forecastService && this.airportService == airportService
      ensures this.hurricaneService == hurricaneService && this.locations == locations
      ensures flags == FlagsOf(config)
    {
      this.forecastService := forecastService;
      this.airportService := airportService;
      this.hurricaneService := hurricaneService;
      this.locations := locations;
      this.flags := FlagsOf(config);
    }

    /**
     * fetchNoaaForecasts: every location in turn, each fetch in its own transaction; a fetch that
     * throws is counted and the loop goes on.
     */
    method FetchNoaaForecasts(up: Upstream, now: DateTime) returns (tally: Tally, requests: seq<Request>)
      requires Wired()
      modifies forecastService.forecasts
      ensures !flags.noaa ==> tally == Tally(0, 0) && requests == [] && unchanged(forecastService.forecasts)
      ensures flags.noaa ==>
        && tally == TallyOf(locations.rows, NoaaFails(up))
        && requests == Appended(locations.rows, NoaaAsks(up, now))
        && forecastService.forecasts.rows == old(forecastService.forecasts.rows) + Appended(locations.rows, NoaaStores(up, now))
    {
      if !flags.noaa {
        return Tally(0, 0), [];
      }
      var targets := locations.GetAllLocations();
      ghost var rows0 := forecastService.forecasts.rows;
      var success, failure := 0, 0;
      requests := [];
      for i := 0 to |targets|
        invariant Tally(success, failure) == TallyOf(targets[..i], NoaaFails(up))
        invariant requests == Appended(targets[..i], NoaaAsks(up, now))
        invariant forecastService.forecasts.rows == rows0 + Appended(targets[..i], NoaaStores(up, now))
      {
        ghost var current := forecastService.forecasts.rows;
        var asked, threw := FetchNoaa(i, up, now);
        Advance(targets, i, NoaaAsks(up, now), NoaaStores(up, now), NoaaFails(up), success, failure, threw,
                requests, asked, rows0, current, forecastService.forecasts.rows);
        requests := requests + asked;
        if threw {
          failure := failure + 1;
        } else {
          success := success + 1;
        }
      }
      assert targets[..|targets|] == targets;
      tally := Tally(success, failure);
    }

    /** fetchOpenWeatherForecasts: the same loop over every location, with the OpenWeatherMap fetch. */
    method FetchOpenWeatherForecasts(up: Upstream, now: DateTime) returns (tally: Tally, requests: seq<Request>)
      requires Wired()
      modifies forecastService.forecasts
      ensures !flags.openWeather ==> tally == Tally(0, 0) && requests == [] && unchanged(forecastService.forecasts)
      ensures flags.openWeather ==>
        && tally == TallyOf(locations.rows, OpenWeatherFails(up))
        && requests == Appended(locations.rows, OpenWeatherAsks(forecastService.apiKey, up, now))
        && forecastService.forecasts.rows
             == old(forecastService.forecasts.rows) + Appended(locations.rows, OpenWeatherStores(forecastService.apiKey, up, now))
    {
      if !flags.openWeather {
        return Tally(0, 0), [];
      }
      var targets := locations.GetAllLocations();
      ghost var rows0 := forecastService.forecasts.rows;
      var success, failure := 0, 0;
      requests := [];
      for i := 0 to |targets|
        invariant Tally(success, failure) == TallyOf(targets[..i], OpenWeatherFails(up))
        invariant requests == Appended(targets[..i], OpenWeatherAsks(forecastService.apiKey, up, now))
        invariant forecastService.forecasts.rows == rows0 + Appended(targets[..i], OpenWeatherStores(forecastService.apiKey, up, now))
      {
        ghost var current := forecastService.forecasts.rows;
        var asked, threw := FetchOpenWeather(i, up, now);
        Advance(targets, i, OpenWeatherAsks(forecastService.apiKey, up, now), OpenWeatherStores(forecastService.apiKey, up, now),
                OpenWeatherFails(up), success, failure, threw, requests, asked, rows0, current, forecastService.forecasts.rows);
        requests := requests + asked;
        if threw {
          failure := failure + 1;
        } else {
          success := success + 1;
        }
      }
      assert targets[..|targets|] == targets;
      tally := Tally(success, failure);
    }

    /** One location of the NOAA tick. */
    method FetchNoaa(i: int, up: Upstream, now: DateTime) returns (asked: seq<Request>, threw: bool)
      requires Wired() && 0 <= i < |locations.rows|
      modifies forecastService.forecasts
      ensures asked == NoaaAsks(up, now)(locations.rows[i])
      ensures threw == NoaaFails(up)(locations.rows[i])
      ensures forecastService.forecasts.rows == old(forecastService.forecasts.rows) + NoaaStores(up, now)(locations.rows[i])
    {
      var t := locations.rows[i];
      ghost var before := forecastService.forecasts.rows;
      FoundById(i);
      asked, threw := forecastService.FetchAndStoreNoaaForecast(t.id, up, now);
      ForecastOutcomeAppends(before, WF.NoaaPlan(Some(t), up, now), now, threw);
    }

    /** One location of the OpenWeatherMap tick. */
    method FetchOpenWeather(i: int, up: Upstream, now: DateTime) returns (asked: seq<Request>, threw: bool)
      requires Wired() && 0 <= i < |locations.rows|
      modifies forecastService.forecasts
      ensures asked == OpenWeatherAsks(forecastService.apiKey, up, now)(locations.rows[i])
      ensures threw == OpenWeatherFails(up)(locations.rows[i])
      ensures forecastService.forecasts.rows
        == old(forecastService.forecasts.rows) + OpenWeatherStores(forecastService.apiKey, up, now)(locations.rows[i])
    {
      var t := locations.rows[i];
      ghost var before := forecastService.forecasts.rows;
      FoundById(i);
      asked, threw := forecastService.FetchAndStoreOpenWeatherForecast(t.id, up, now);
      ForecastOutcomeAppends(before, WF.OpenWeatherPlan(forecastService.apiKey, Some(t), up, now), now, threw);
    }

    /** With unique ids, looking up a listed location by its id finds that location. */
    lemma FoundById(i: int)
      requires Wired() && 0 <= i < |locations.rows|
      ensures locations.FindByIdOptional(locations.rows[i].id) == Some(locations.rows[i])
    {
      var found := locations.FindByIdOptional(locations.rows[i].id);
      assert found.Some?;
      var j :| 0 <= j < |locations.rows| && locations.rows[j] == found.value;
      assert j == i;
    }

    /**
     * fetchAirportWeather: every airport in turn, METAR then TAF, counted once; a METAR call that
     * throws skips the TAF call of that airport.
     */
    method FetchAirportWeather(up: Upstream, now: DateTime) returns (tally: Tally, requests: seq<Request>)
      requires Wired()
      modifies airportService.reports
      ensures !flags.aviation ==> tally == Tally(0, 0) && requests == [] && unchanged(airportService.reports)
      ensures flags.aviation ==>
        var airports := locations.FindAirportLocations();
        && tally == TallyOf(airports, AirportFails(up))
        && requests == Appended(airports, AirportAsks(locations.rows, up, now))
        && airportService.reports.rows == old(airportService.reports.rows) + Appended(airports, AirportStores(locations.rows, up, now))
    {
      if !flags.aviation {
        return Tally(0, 0), [];
      }
      var airports := locations.FindAirportLocations();
      tally, requests := FetchEachAirport(airports, up, now);
    }

    /** The aviation tick's loop over the airport locations, counting each airport once. */
    method FetchEachAirport(airports: seq<LocationRow>, up: Upstream, now: DateTime) returns (tally: Tally, requests: seq<Request>)
      requires Wired() && forall a :: a in airports ==> IsAirport(a)
      modifies airportService.reports
      ensures tally == TallyOf(airports, AirportFails(up))
      ensures requests == Appended(airports, AirportAsks(locations.rows, up, now))
      ensures airportService.reports.rows == old(airportService.reports.rows) + Appended(airports, AirportStores(locations.rows, up, now))
    {
      ghost var table := locations.rows;
      ghost var rows0 := airportService.reports.rows;
      var success, failure := 0, 0;
      requests := [];
      for i := 0 to |airports|
        invariant Tally(success, failure) == TallyOf(airports[..i], AirportFails(up))
        invariant requests == Appended(airports[..i], AirportAsks(table, up, now))
        invariant airportService.reports.rows == rows0 + Appended(airports[..i], AirportStores(table, up, now))
      {
        assert airports[i] in airports;
        ghost var current := airportService.reports.rows;
        var asked, threw := FetchAirport(airports[i], up, now);
        Advance(airports, i, AirportAsks(table, up, now), AirportStores(table, up, now), AirportFails(up), success, failure, threw,
                requests, asked, rows0, current, airportService.reports.rows);
        requests := requests + asked;
        if threw {
          failure := failure + 1;
        } else {
          success := success + 1;
        }
      }
      assert airports[..|airports|] == airports;
      tally := Tally(success, failure);
    }

    /** One airport of the aviation tick: METAR, then TAF unless the METAR call threw. */
    method FetchAirport(a: LocationRow, up: Upstream, now: DateTime) returns (asked: seq<Request>, threw: bool)
      requires Wired() && IsAirport(a)
      modifies airportService.reports
      ensures asked == AirportAsks(locations.rows, up, now)(a)
      ensures threw == AirportFails(up)(a)
      ensures airportService.reports.rows == old(airportService.reports.rows) + AirportStores(locations.rows, up, now)(a)
    {
      var code := a.airportCode.value;
      ghost var location := WithAirportCode(locations.rows, code);
      ghost var before := airportService.reports.rows;
      asked, threw := airportService.FetchAndStoreMetar(code, up, now);
      ReportOutcomeAppends(before, AW.MetarPlan(location, code, up, now).reports, now, threw);
      if !threw {
        ghost var middle := airportService.reports.rows;
        var askedTaf;
        askedTaf, threw := airportService.FetchAndStoreTaf(code, up, now);
        ReportOutcomeAppends(middle, AW.TafPlan(location, code, up, now).reports, now, threw);
        Regroup(before, AW.Outcome([], AW.MetarPlan(location, code, up, now).reports, now, false),
                AW.Outcome([], AW.TafPlan(location, code, up, now).reports, now, threw));
        asked := asked + askedTaf;
      } else {
        assert before + AW.Outcome([], AW.MetarPlan(location, code, up, now).reports, now, true) + [] == airportService.reports.rows;
      }
    }

    /** fetchHurricanes: runs when enabled and the gate is open, one fetch of the active storms. */
    method FetchHurricanes(up: Upstream, now: DateTime) returns (ran: bool, requests: seq<Request>)
      modifies hurricaneService.advisories
      ensures ran == (flags.hurricane && HurricaneDue(now))
      ensures !ran ==> requests == [] && unchanged(hurricaneService.advisories)
      ensures ran ==>
        && requests == [StormsRequest]
        && hurricaneService.advisories.rows
             == HS.Outcome(old(hurricaneService.advisories.rows), HS.StormPlan(up.nhc, up.parse, now), now, up.commitFails(StormFetch))
    {
      if !flags.hurricane {
        return false, [];
      }
      var season := 6 <= MonthOf(now) <= 11;
      if !season && HourOf(now) % 6 != 0 {
        return false, [];
      }
      var threw;
      requests, threw := hurricaneService.FetchAndStoreActiveStorms(up, now);
      ran := true;
    }

    /**
     * cleanupOldData: one cutoff, seven days before now, applied to forecasts, airport reports and
     * advisories in that order, each in its own transaction; the first one that throws ends the
     * sweep and leaves the later tables as they were.
     */
    method CleanupOldData(up: Upstream, now: DateTime) returns (cutoff: Option<DateTime>, completed: bool)
      modifies forecastService.forecasts, airportService.reports, hurricaneService.advisories
      ensures cutoff == MinusDays(now, RetentionDays)
      ensures cutoff.Some? ==> now - cutoff.value == RetentionDays * SecondsPerDay
      ensures var f, r, a := up.commitFails(ForecastRetirement), up.commitFails(ReportRetirement), up.commitFails(AdvisoryRetirement);
        && completed == (cutoff.Some? && !f && !r && !a)
        && forecastService.forecasts.rows
             == (if cutoff.None? || f then old(forecastService.forecasts.rows)
                 else Deactivated(old(forecastService.forecasts.rows), WFR.StaleBefore(cutoff.value), WFR.Retired))
        && airportService.reports.rows
             == (if cutoff.None? || f || r then old(airportService.reports.rows)
                 else Deactivated(old(airportService.reports.rows), AWR.StaleBefore(cutoff.value), AWR.Retired))
        && hurricaneService.advisories.rows
             == (if cutoff.None? || f || r || a then old(hurricaneService.advisories.rows)
                 else Deactivated(old(hurricaneService.advisories.rows), HR.StaleBefore(cutoff.value), HR.Retired))
      ensures completed ==>
        && Count(forecastService.forecasts.rows, WFR.StaleBefore(cutoff.value)) == 0
        && Count(airportService.reports.rows, AWR.StaleBefore(cutoff.value)) == 0
        && Count(hurricaneService.advisories.rows, HR.StaleBefore(cutoff.value)) == 0
    {
      cutoff := MinusDays(now, RetentionDays);
      completed := false;
      if cutoff.None? {
        return;
      }
      var count, threw := forecastService.DeactivateOldForecasts(cutoff.value, up.commitFails(ForecastRetirement));
      if threw {
        return;
      }
      count, threw := airportService.DeactivateOldReports(cutoff.value, up.commitFails(ReportRetirement));
      if threw {
        return;
      }
      count, threw := hurricaneService.DeactivateOldAdvisories(cutoff.value, up.commitFails(AdvisoryRetirement));
      if threw {
        return;
      }
      completed := true;
      WFR.DeactivateTwiceCountsZero(old(forecastService.forecasts.rows), cutoff.value);
      AWR.DeactivateTwiceCountsZero(old(airportService.reports.rows), cutoff.value);
      HR.DeactivateTwiceCountsZero(old(hurricaneService.advisories.rows), cutoff.value);
    }
  }
}
